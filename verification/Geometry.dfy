/** Plane geometry shared by the area checks: points, polylines, closed rings, the shoelace sum and
  * the even-odd ray test, over exact reals.
  *
  * A ring names each of its vertices once, the first one not again at the end. Everything summed round a ring is
  * defined on open polylines first, because a polyline can be cut anywhere and a ring is the
  * polyline that returns to its first point.
  */
module Geometry {

  datatype Point = Point(x: real, y: real)

  type Ring = seq<Point>

  /** The index after `i` on a ring of `n` points. */
  function Next(i: nat, n: nat): (k: nat)
    requires i < n
    ensures k == if i == n - 1 then 0 else i + 1
  {
    (i + 1) % n
  }

  /** The polyline that walks round `ring` and returns to its first point. */
  function Closed(ring: Ring): seq<Point> {
    if ring == [] then [] else ring + [ring[0]]
  }

  function Reverse<T>(s: seq<T>): (r: seq<T>)
    ensures |r| == |s|
    ensures forall k :: 0 <= k < |s| ==> r[k] == s[|s| - 1 - k]
  {
    seq(|s|, k requires 0 <= k < |s| => s[|s| - 1 - k])
  }

  // ---------------------------------------------------------------- shoelace area

  /** The shoelace term of one directed edge. */
  function Shoelace(p: Point, q: Point): real {
    p.x * q.y - q.x * p.y
  }

  /** Sum of the shoelace terms along a polyline. */
  function PathShoelace(pts: seq<Point>): real {
    if |pts| < 2 then 0.0
    else PathShoelace(pts[..|pts| - 1]) + Shoelace(pts[|pts| - 2], pts[|pts| - 1])
  }

  /** Signed area of a ring: half the shoelace sum round it. */
  function SignedArea(ring: Ring): real {
    PathShoelace(Closed(ring)) / 2.0
  }

  lemma {:induction false} JoinShoelace(left: seq<Point>, at: Point, right: seq<Point>)
    ensures PathShoelace(left + [at] + right) == PathShoelace(left + [at]) + PathShoelace([at] + right)
    decreases |right|
  {
    var whole := left + [at] + right;
    if right == [] {
      assert whole == left + [at];
    } else {
      var shorter := right[..|right| - 1];
      JoinShoelace(left, at, shorter);
      assert whole[..|whole| - 1] == left + [at] + shorter;
      assert ([at] + right)[..|right|] == [at] + shorter;
    }
  }

  lemma OneEdgeShoelace(p: Point, q: Point)
    ensures PathShoelace([p, q]) == Shoelace(p, q)
  {
    assert [p, q][..1] == [p];
  }

  lemma ShoelaceIsSigned(p: Point, q: Point)
    ensures Shoelace(p, q) == -Shoelace(q, p)
  {
  }

  /** One more point at the end of a walk is one more step, backwards, at the start of its reverse. */
  lemma ReverseUnfolds(front: seq<Point>, a: Point)
    requires front != []
    ensures var b := front[|front| - 1];
            && Reverse(front + [a]) == [a] + [b] + Reverse(front)[1..]
            && [b] + Reverse(front)[1..] == Reverse(front)
            && [a] + [b] == [a, b]
  {
  }

  lemma {:induction false} ReverseShoelace(pts: seq<Point>)
    ensures PathShoelace(Reverse(pts)) == -PathShoelace(pts)
    decreases |pts|
  {
    if |pts| >= 2 {
      hide Shoelace, Reverse;
      var n := |pts|;
      var front, a, b := pts[..n - 1], pts[n - 1], pts[n - 2];
      assert pts == front + [a];
      ReverseUnfolds(front, a);
      ReverseShoelace(front);
      JoinShoelace([a], b, Reverse(front)[1..]);
      OneEdgeShoelace(a, b);
      ShoelaceIsSigned(a, b);
    }
  }

  /** The loop of `ring_area`: accumulate the term of each edge, then halve. */
  method RingArea(ring: Ring) returns (area: real)
    ensures area == SignedArea(ring)
  {
    var total := 0.0;
    var walk := Closed(ring);
    for i := 0 to |ring|
      invariant total == PathShoelace(walk[..if i == 0 then 0 else i + 1])
    {
      var p, q := ring[i], ring[Next(i, |ring|)];
      assert walk[..i + 2][..i + 1] == walk[..i + 1];
      assert i == 0 ==> |walk[..1]| < 2;
      total := total + (p.x * q.y - q.x * p.y);
    }
    assert walk[..|walk|] == walk;
    area := total / 2.0;
  }

  // ---------------------------------------------------------------- even-odd ray test

  /** Where the line of the edge p-q is at height y. */
  function Meet(p: Point, q: Point, y: real): real
    requires p.y != q.y
  {
    p.x + (y - p.y) / (q.y - p.y) * (q.x - p.x)
  }

  /** Whether the ray from (x, y) towards +x crosses the edge p-q, by the half-open rule. */
  predicate Toggles(p: Point, q: Point, x: real, y: real) {
    (p.y <= y) != (q.y <= y) && x < Meet(p, q, y)
  }

  function Toggle(p: Point, q: Point, x: real, y: real): nat {
    if Toggles(p, q, x, y) then 1 else 0
  }

  /** How many edges of a polyline the ray from (x, y) crosses. */
  function PathCrossings(pts: seq<Point>, x: real, y: real): nat {
    if |pts| < 2 then 0
    else PathCrossings(pts[..|pts| - 1], x, y) + Toggle(pts[|pts| - 2], pts[|pts| - 1], x, y)
  }

  function RingCrossings(ring: Ring, x: real, y: real): nat {
    PathCrossings(Closed(ring), x, y)
  }

  /** Even-odd: a point is inside when its ray crosses the ring an odd number of times. */
  predicate InRing(ring: Ring, x: real, y: real) {
    RingCrossings(ring, x, y) % 2 == 1
  }

  lemma {:induction false} JoinCrossings(left: seq<Point>, at: Point, right: seq<Point>, x: real, y: real)
    ensures PathCrossings(left + [at] + right, x, y)
         == PathCrossings(left + [at], x, y) + PathCrossings([at] + right, x, y)
    decreases |right|
  {
    var whole := left + [at] + right;
    if right == [] {
      assert whole == left + [at];
    } else {
      var shorter := right[..|right| - 1];
      JoinCrossings(left, at, shorter, x, y);
      assert whole[..|whole| - 1] == left + [at] + shorter;
      assert ([at] + right)[..|right|] == [at] + shorter;
    }
  }

  lemma EqualFactors(a: real, b: real, h: real)
    requires h != 0.0 && a * h == b * h
    ensures a == b
  {
    assert (a - b) * h == 0.0;
  }

  lemma Rearrange(v: real, t: real, d: real, h: real, n: real)
    requires v == t * d && t * h == n
    ensures v * h == n * d
  {
  }

  /** Similar triangles, with nothing divided. */
  lemma MeetLaw(p: Point, q: Point, y: real)
    requires p.y != q.y
    ensures (Meet(p, q, y) - p.x) * (q.y - p.y) == (y - p.y) * (q.x - p.x)
  {
    var t := (y - p.y) / (q.y - p.y);
    assert t * (q.y - p.y) == y - p.y;
    Rearrange(Meet(p, q, y) - p.x, t, q.x - p.x, q.y - p.y, y - p.y);
  }

  /** The law has one solution, so it identifies the meeting point. */
  lemma MeetIsUnique(p: Point, q: Point, y: real, v: real)
    requires p.y != q.y
    requires (v - p.x) * (q.y - p.y) == (y - p.y) * (q.x - p.x)
    ensures v == Meet(p, q, y)
  {
    MeetLaw(p, q, y);
    hide Meet;
    EqualFactors(v - p.x, Meet(p, q, y) - p.x, q.y - p.y);
  }

  /** Where a line at height y meets an edge does not depend on the edge's direction. */
  lemma MeetIsUndirected(p: Point, q: Point, y: real)
    requires p.y != q.y
    ensures Meet(p, q, y) == Meet(q, p, y)
  {
    MeetLaw(q, p, y);
    hide Meet;
    var v := Meet(q, p, y);
    assert (v - p.x) * (q.y - p.y) == (y - p.y) * (q.x - p.x) by {
      assert (v - q.x) * (p.y - q.y) == (y - q.y) * (p.x - q.x);
      assert (v - p.x) * (q.y - p.y) == (v - q.x) * (q.y - p.y) + (q.x - p.x) * (q.y - p.y);
    }
    MeetIsUnique(p, q, y, v);
  }

  lemma ToggleIsUndirected(p: Point, q: Point, x: real, y: real)
    ensures Toggle(p, q, x, y) == Toggle(q, p, x, y)
  {
    if p.y != q.y {
      MeetIsUndirected(p, q, y);
    }
  }

  lemma OneEdgeCrossings(p: Point, q: Point, x: real, y: real)
    ensures PathCrossings([p, q], x, y) == Toggle(p, q, x, y)
  {
    hide Toggle;
    assert [p, q][..1] == [p];
  }

  lemma {:induction false} ReverseCrossings(pts: seq<Point>, x: real, y: real)
    ensures PathCrossings(Reverse(pts), x, y) == PathCrossings(pts, x, y)
    decreases |pts|
  {
    if |pts| >= 2 {
      hide Toggle, Reverse;
      var n := |pts|;
      var front, a, b := pts[..n - 1], pts[n - 1], pts[n - 2];
      assert pts == front + [a];
      ReverseUnfolds(front, a);
      ReverseCrossings(front, x, y);
      JoinCrossings([a], b, Reverse(front)[1..], x, y);
      OneEdgeCrossings(a, b, x, y);
      ToggleIsUndirected(a, b, x, y);
    }
  }

  // ---------------------------------------------------------------- splitting a ring

  /** The part of `ring` from vertex i to vertex j, closed by walking a wall back to vertex i. */
  function NearSide(ring: Ring, i: nat, j: nat, wall: seq<Point>): Ring
    requires i <= j < |ring|
  {
    ring[i..j + 1] + Reverse(wall)
  }

  /** The rest of `ring`, from vertex j round to vertex i, closed by walking the same wall. */
  function FarSide(ring: Ring, i: nat, j: nat, wall: seq<Point>): Ring
    requires i <= j < |ring|
  {
    ring[j..] + ring[..i + 1] + wall
  }

  /** The wall as a polyline from vertex i to vertex j. An empty `wall` is a straight chord. */
  function WallPath(ring: Ring, i: nat, j: nat, wall: seq<Point>): seq<Point>
    requires i <= j < |ring|
  {
    [ring[i]] + wall + [ring[j]]
  }

  /** The walk round the whole ring, cut at vertices i and j. */
  lemma WholeWalk(ring: Ring, i: nat, j: nat)
    requires i <= j < |ring|
    ensures Closed(ring) == ring[..i] + [ring[i]] + (ring[i + 1..] + [ring[0]])
    ensures [ring[i]] + (ring[i + 1..] + [ring[0]]) == ring[i..j] + [ring[j]] + (ring[j + 1..] + [ring[0]])
  {
  }

  lemma NearWalk(ring: Ring, i: nat, j: nat, wall: seq<Point>)
    requires i <= j < |ring|
    ensures Closed(NearSide(ring, i, j, wall)) == ring[i..j] + [ring[j]] + (Reverse(wall) + [ring[i]])
    ensures [ring[j]] + (Reverse(wall) + [ring[i]]) == Reverse(WallPath(ring, i, j, wall))
  {
    assert NearSide(ring, i, j, wall)[0] == ring[i];
  }

  lemma FarWalk(ring: Ring, i: nat, j: nat, wall: seq<Point>)
    requires i <= j < |ring|
    ensures Closed(FarSide(ring, i, j, wall)) == (ring[j..] + ring[..i]) + [ring[i]] + (wall + [ring[j]])
    ensures [ring[i]] + (wall + [ring[j]]) == WallPath(ring, i, j, wall)
  {
    assert FarSide(ring, i, j, wall)[0] == ring[j];
    assert ring[..i + 1] == ring[..i] + [ring[i]];
  }

  /** The part of the walk that passes vertex 0. */
  lemma FarWalkPassesStart(ring: Ring, i: nat, j: nat)
    requires i <= j < |ring|
    ensures [ring[j]] + (ring[j + 1..] + [ring[0]]) == ring[j..] + [ring[0]]
    ensures i == 0 ==> (ring[j..] + ring[..i]) + [ring[i]] == ring[j..] + [ring[0]]
    ensures i == 0 ==> ring[..i] + [ring[i]] == [ring[0]]
    ensures i > 0 ==> (ring[j..] + ring[..i]) + [ring[i]] == ring[j..] + [ring[0]] + (ring[1..i] + [ring[i]])
    ensures i > 0 ==> [ring[0]] + (ring[1..i] + [ring[i]]) == ring[..i] + [ring[i]]
  {
  }

  /** Splitting a ring along a wall of any shape: the two signed areas add to the whole's, because
    * the wall is walked once each way. */
  lemma SplitAddsArea(ring: Ring, i: nat, j: nat, wall: seq<Point>)
    requires i <= j < |ring|
    ensures SignedArea(NearSide(ring, i, j, wall)) + SignedArea(FarSide(ring, i, j, wall)) == SignedArea(ring)
  {
    WholeWalk(ring, i, j);
    NearWalk(ring, i, j, wall);
    FarWalk(ring, i, j, wall);
    FarWalkPassesStart(ring, i, j);
    hide Closed, NearSide, FarSide, WallPath, PathShoelace;
    JoinShoelace(ring[..i], ring[i], ring[i + 1..] + [ring[0]]);
    JoinShoelace(ring[i..j], ring[j], ring[j + 1..] + [ring[0]]);
    JoinShoelace(ring[i..j], ring[j], Reverse(wall) + [ring[i]]);
    JoinShoelace(ring[j..] + ring[..i], ring[i], wall + [ring[j]]);
    if i > 0 {
      JoinShoelace(ring[j..], ring[0], ring[1..i] + [ring[i]]);
    } else {
      ShortShoelace(ring[0]);
    }
    ReverseShoelace(WallPath(ring, i, j, wall));
  }

  lemma ShortShoelace(p: Point)
    ensures PathShoelace([p]) == 0.0
  {
  }

  lemma ShortCrossings(p: Point, x: real, y: real)
    ensures PathCrossings([p], x, y) == 0
  {
  }

  /** The same split for the ray test: each edge of the ring is counted once and each edge of the
    * wall twice. */
  lemma SplitCountsWallTwice(ring: Ring, i: nat, j: nat, wall: seq<Point>, x: real, y: real)
    requires i <= j < |ring|
    ensures RingCrossings(NearSide(ring, i, j, wall), x, y) + RingCrossings(FarSide(ring, i, j, wall), x, y)
         == RingCrossings(ring, x, y) + 2 * PathCrossings(WallPath(ring, i, j, wall), x, y)
  {
    WholeWalk(ring, i, j);
    NearWalk(ring, i, j, wall);
    FarWalk(ring, i, j, wall);
    FarWalkPassesStart(ring, i, j);
    hide Closed, NearSide, FarSide, WallPath, PathCrossings;
    JoinCrossings(ring[..i], ring[i], ring[i + 1..] + [ring[0]], x, y);
    JoinCrossings(ring[i..j], ring[j], ring[j + 1..] + [ring[0]], x, y);
    JoinCrossings(ring[i..j], ring[j], Reverse(wall) + [ring[i]], x, y);
    JoinCrossings(ring[j..] + ring[..i], ring[i], wall + [ring[j]], x, y);
    if i > 0 {
      JoinCrossings(ring[j..], ring[0], ring[1..i] + [ring[i]], x, y);
    } else {
      ShortCrossings(ring[0], x, y);
    }
    ReverseCrossings(WallPath(ring, i, j, wall), x, y);
  }

  /** A point inside the whole is inside exactly one part, and a point outside the whole is in both
    * parts or in neither. It holds at every point of the plane, the wall itself included. */
  lemma SplitIsExclusive(ring: Ring, i: nat, j: nat, wall: seq<Point>, x: real, y: real)
    requires i <= j < |ring|
    ensures InRing(ring, x, y)
       <==> (InRing(NearSide(ring, i, j, wall), x, y) != InRing(FarSide(ring, i, j, wall), x, y))
  {
    hide RingCrossings;
    SplitCountsWallTwice(ring, i, j, wall, x, y);
  }

  // ---------------------------------------------------------------- a vertex on an edge

  function Between(p: Point, q: Point, u: real): Point {
    Point(p.x + u * (q.x - p.x), p.y + u * (q.y - p.y))
  }

  /** The meeting point measured from a point of the edge is the one measured from its end. */
  lemma MeetFromBetween(p: Point, q: Point, u: real, y: real)
    requires 0.0 <= u < 1.0 && p.y != q.y
    ensures Between(p, q, u).y != q.y
    ensures Meet(Between(p, q, u), q, y) == Meet(p, q, y)
  {
    MeetLaw(p, q, y);
    hide Meet;
    var m := Between(p, q, u);
    var v, d, h := Meet(p, q, y), q.x - p.x, q.y - p.y;
    ScaleLaw(v - p.x, y - p.y, d, h, u);
    assert q.y - m.y == (1.0 - u) * h;
    assert q.x - m.x == (1.0 - u) * d;
    assert (1.0 - u) * h != 0.0;
    MeetIsUnique(m, q, y, v);
  }

  lemma ScaleLaw(v: real, w: real, d: real, h: real, u: real)
    requires v * h == w * d
    ensures (v - u * d) * ((1.0 - u) * h) == (w - u * h) * ((1.0 - u) * d)
  {
    calc {
      (v - u * d) * ((1.0 - u) * h);
      (1.0 - u) * (v * h - u * (d * h));
      (1.0 - u) * (w * d - u * (h * d));
      (w - u * h) * ((1.0 - u) * d);
    }
  }

  lemma ScaleStaysBetween(u: real, h: real) returns (d: real)
    requires 0.0 < u < 1.0
    ensures d == u * h
    ensures h > 0.0 ==> 0.0 < d < h
    ensures h < 0.0 ==> h < d < 0.0
  {
    d := u * h;
    if h > 0.0 {
      assert (1.0 - u) * h > 0.0;
    } else if h < 0.0 {
      assert (1.0 - u) * -h > 0.0;
      assert u * -h > 0.0;
    }
  }

  /** Both halves of an edge lie on its line. */
  lemma HalvesMeet(p: Point, q: Point, u: real, y: real)
    requires 0.0 < u < 1.0 && p.y != q.y
    ensures var m := Between(p, q, u);
            m.y != p.y && m.y != q.y && Meet(p, m, y) == Meet(p, q, y) && Meet(m, q, y) == Meet(p, q, y)
  {
    hide Meet;
    MeetFromBetween(p, q, u, y);
    // The first half is the second half of the edge read backwards.
    assert Between(q, p, 1.0 - u) == Between(p, q, u) by {
      assert (1.0 - u) * (p.x - q.x) == (p.x - q.x) - u * (p.x - q.x);
      assert (1.0 - u) * (p.y - q.y) == (p.y - q.y) - u * (p.y - q.y);
    }
    MeetFromBetween(q, p, 1.0 - u, y);
    MeetIsUndirected(p, q, y);
    MeetIsUndirected(p, Between(p, q, u), y);
  }

  /** A point m at a height between those of p and q, on their line, shares out the crossing of p-q. */
  lemma ToggleIsShared(p: Point, m: Point, q: Point, x: real, y: real)
    requires p.y < m.y < q.y || p.y > m.y > q.y
    requires Meet(p, m, y) == Meet(p, q, y) == Meet(m, q, y)
    ensures Toggle(p, m, x, y) + Toggle(m, q, x, y) == Toggle(p, q, x, y)
  {
    hide Meet;
  }

  lemma BetweenEnds(p: Point, q: Point)
    ensures Between(p, q, 0.0) == p
    ensures Between(p, q, 1.0) == q
  {
  }

  lemma BetweenLevel(p: Point, q: Point, u: real)
    requires p.y == q.y
    ensures Between(p, q, u).y == p.y
  {
    assert u * (q.y - p.y) == u * 0.0;
  }

  lemma BetweenHeights(p: Point, q: Point, u: real)
    requires 0.0 < u < 1.0
    ensures p.y < q.y ==> p.y < Between(p, q, u).y < q.y
    ensures p.y > q.y ==> p.y > Between(p, q, u).y > q.y
  {
    var d := ScaleStaysBetween(u, q.y - p.y);
    assert Between(p, q, u).y == p.y + d;
  }

  /** The half-open rule gives a ray through a point of the edge to exactly one of its two halves. */
  lemma HalvesShareToggle(p: Point, q: Point, u: real, x: real, y: real)
    requires 0.0 <= u <= 1.0
    ensures var m := Between(p, q, u); Toggle(p, m, x, y) + Toggle(m, q, x, y) == Toggle(p, q, x, y)
  {
    hide Meet, Between;
    var m := Between(p, q, u);
    BetweenEnds(p, q);
    if p.y == q.y {
      BetweenLevel(p, q, u);
    } else if u != 0.0 && u != 1.0 {
      BetweenHeights(p, q, u);
      HalvesMeet(p, q, u, y);
      hide Toggle;
      ToggleIsShared(p, m, q, x, y);
    }
  }

  /** The walks of a ring with and without the vertex m between p and q. */
  lemma WalksAroundEdge(before: seq<Point>, p: Point, m: Point, q: Point, after: seq<Point>)
    ensures var tail := after + [(before + [p])[0]];
            && Closed(before + [p, m, q] + after) == before + [p] + ([m, q] + tail)
            && Closed(before + [p, q] + after) == before + [p] + ([q] + tail)
            && [p] + ([m, q] + tail) == [p] + [m] + ([q] + tail)
            && [m] + ([q] + tail) == [m] + [q] + tail
            && [p] + ([q] + tail) == [p] + [q] + tail
    ensures [p] + [m] == [p, m] && [m] + [q] == [m, q] && [p] + [q] == [p, q]
  {
  }

  /** A vertex added anywhere on an edge of a ring changes neither the area nor the ray test, so two
    * rings that share a wall agree on it even where only one of them has the vertex. */
  lemma VertexOnEdgeKeepsArea(before: seq<Point>, p: Point, q: Point, after: seq<Point>, u: real)
    ensures SignedArea(before + [p, Between(p, q, u), q] + after) == SignedArea(before + [p, q] + after)
  {
    var m := Between(p, q, u);
    var tail := after + [(before + [p])[0]];
    WalksAroundEdge(before, p, m, q, after);
    OneEdgeShoelace(p, m);
    OneEdgeShoelace(m, q);
    OneEdgeShoelace(p, q);
    hide Closed, PathShoelace;
    JoinShoelace(before, p, [m, q] + tail);
    JoinShoelace(before, p, [q] + tail);
    JoinShoelace([p], m, [q] + tail);
    JoinShoelace([m], q, tail);
    JoinShoelace([p], q, tail);
    HalvesShareShoelace(p, q, u);
  }

  lemma HalvesShareShoelace(p: Point, q: Point, u: real)
    ensures Shoelace(p, Between(p, q, u)) + Shoelace(Between(p, q, u), q) == Shoelace(p, q)
  {
  }

  lemma VertexOnEdgeKeepsCrossings(before: seq<Point>, p: Point, q: Point, after: seq<Point>, u: real, x: real, y: real)
    requires 0.0 <= u <= 1.0
    ensures RingCrossings(before + [p, Between(p, q, u), q] + after, x, y)
         == RingCrossings(before + [p, q] + after, x, y)
  {
    var m := Between(p, q, u);
    var tail := after + [(before + [p])[0]];
    WalksAroundEdge(before, p, m, q, after);
    HalvesShareToggle(p, q, u, x, y);
    OneEdgeCrossings(p, m, x, y);
    OneEdgeCrossings(m, q, x, y);
    OneEdgeCrossings(p, q, x, y);
    hide Closed, PathCrossings, Toggle;
    JoinCrossings(before, p, [m, q] + tail, x, y);
    JoinCrossings(before, p, [q] + tail, x, y);
    JoinCrossings([p], m, [q] + tail, x, y);
    JoinCrossings([m], q, tail, x, y);
    JoinCrossings([p], q, tail, x, y);
  }
}
