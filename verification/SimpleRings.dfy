/** What a ring that passes the check is: exactly when it is simple, and what is missing when it is not.
  * The check looks for edges that properly cross; a vertex that lies on another edge escapes it.
  */
module SimpleRings {

  import opened Geometry
  import opened RingChecks

  // ---------------------------------------------------------------- points of a segment

  /** p is a point of the closed segment from a to b. */
  ghost predicate InSegment(a: Point, b: Point, p: Point) {
    exists t: real :: 0.0 <= t <= 1.0 && Between(a, b, t) == p
  }

  predicate InInterval(a: real, b: real, p: real) { a <= p <= b || b <= p <= a }

  /** The same as a test on numbers: on the line, and in the box of the two ends. */
  predicate OnSegment(a: Point, b: Point, p: Point) {
    Cross(a, b, p) == 0.0 && InInterval(a.x, b.x, p.x) && InInterval(a.y, b.y, p.y)
  }

  function Flip(p: Point): Point { Point(p.y, p.x) }

  lemma FlipKeeps(a: Point, b: Point, c: Point, t: real)
    ensures Between(Flip(a), Flip(b), t) == Flip(Between(a, b, t))
    ensures Cross(Flip(a), Flip(b), Flip(c)) == -Cross(a, b, c)
  {
  }

  lemma Ratio(n: real, w: real) returns (t: real)
    requires w != 0.0 && (0.0 <= n <= w || w <= n <= 0.0)
    ensures t * w == n && 0.0 <= t <= 1.0
  {
    if n == 0.0 {
      t := 0.0;
    } else if n == w {
      t := 1.0;
    } else {
      t := Fraction(n, w);
    }
  }

  lemma SameProduct(t: real, w: real, h: real, n: real, m: real)
    requires w != 0.0 && t * w == n && w * m == h * n
    ensures t * h == m
  {
    assert w * (t * h) == h * (t * w);
    EqualFactors(t * h, m, w);
  }

  /** On the line, and between the ends across: in the segment. */
  lemma InSegmentAcross(a: Point, b: Point, p: Point)
    requires a.x != b.x && Cross(a, b, p) == 0.0 && InInterval(a.x, b.x, p.x)
    ensures InSegment(a, b, p)
  {
    var t := Ratio(p.x - a.x, b.x - a.x);
    SameProduct(t, b.x - a.x, b.y - a.y, p.x - a.x, p.y - a.y);
    assert Between(a, b, t) == p;
  }

  lemma InSegmentUp(a: Point, b: Point, p: Point)
    requires a.y != b.y && Cross(a, b, p) == 0.0 && InInterval(a.y, b.y, p.y)
    ensures InSegment(a, b, p)
  {
    FlipKeeps(a, b, p, 0.0);
    InSegmentAcross(Flip(a), Flip(b), Flip(p));
    var t: real :| 0.0 <= t <= 1.0 && Between(Flip(a), Flip(b), t) == Flip(p);
    FlipKeeps(a, b, p, t);
    hide Between, Cross;
    assert Between(a, b, t) == p;
  }

  lemma StaysInInterval(t: real, a: real, b: real) returns (d: real)
    requires 0.0 <= t <= 1.0
    ensures d == t * (b - a) && InInterval(a, b, a + d)
    ensures 0.0 < t < 1.0 && a != b ==> a + d != a && a + d != b
  {
    d := t * (b - a);
    if 0.0 < t < 1.0 {
      d := ScaleStaysBetween(t, b - a);
    }
  }

  lemma BetweenIsOnLine(a: Point, b: Point, t: real)
    ensures Cross(a, b, Between(a, b, t)) == 0.0
  {
    var dx, dy := b.x - a.x, b.y - a.y;
    assert dx * (t * dy) == dy * (t * dx);
  }

  lemma BetweenInBox(a: Point, b: Point, t: real)
    requires 0.0 <= t <= 1.0
    ensures var p := Between(a, b, t); InInterval(a.x, b.x, p.x) && InInterval(a.y, b.y, p.y)
    ensures 0.0 < t < 1.0 && a.x != b.x ==> Between(a, b, t).x != a.x && Between(a, b, t).x != b.x
    ensures 0.0 < t < 1.0 && a.y != b.y ==> Between(a, b, t).y != a.y && Between(a, b, t).y != b.y
  {
    var dx := StaysInInterval(t, a.x, b.x);
    var dy := StaysInInterval(t, a.y, b.y);
    assert Between(a, b, t).x == a.x + dx && Between(a, b, t).y == a.y + dy;
  }

  /** The test is exact. */
  lemma OnSegmentIsExact(a: Point, b: Point, p: Point)
    ensures OnSegment(a, b, p) <==> InSegment(a, b, p)
  {
    hide Between;
    if InSegment(a, b, p) {
      var t: real :| 0.0 <= t <= 1.0 && Between(a, b, t) == p;
      BetweenIsOnLine(a, b, t);
      BetweenInBox(a, b, t);
    }
    if OnSegment(a, b, p) {
      if a.x != b.x {
        InSegmentAcross(a, b, p);
      } else if a.y != b.y {
        InSegmentUp(a, b, p);
      } else {
        BetweenEnds(a, b);
        assert Between(a, b, 0.0) == p;
      }
    }
  }

  // ---------------------------------------------------------------- two segments that meet

  /** An end of one segment lies on the other. */
  predicate EndTouches(a: Point, b: Point, c: Point, d: Point) {
    OnSegment(c, d, a) || OnSegment(c, d, b) || OnSegment(a, b, c) || OnSegment(a, b, d)
  }

  /** Of two overlapping intervals, one has an end in the other. */
  lemma IntervalsMeet(a: real, b: real, c: real, d: real, p: real)
    requires InInterval(a, b, p) && InInterval(c, d, p)
    ensures InInterval(c, d, a) || InInterval(c, d, b) || InInterval(a, b, c) || InInterval(a, b, d)
  {
  }

  /** Parallel segments with a common point lie on one line. */
  lemma ParallelShareLine(a: Point, b: Point, c: Point, d: Point, t: real, u: real)
    requires Between(a, b, t) == Between(c, d, u) && Spread(a, b, c, d) == 0.0
    ensures Cross(c, d, a) == 0.0 && Cross(c, d, b) == 0.0 && Cross(a, b, c) == 0.0 && Cross(a, b, d) == 0.0
  {
    TurnsAtMeeting(a, b, c, d, t, u);
    TurnsDifferBySpread(a, b, c, d);
    hide Cross, Spread, Between;
  }

  lemma ParallelBothWide(a: Point, b: Point, c: Point, d: Point)
    requires Spread(a, b, c, d) == 0.0 && a.x != b.x
    ensures c.x == d.x ==> c == d
  {
    if c.x == d.x {
      EqualFactors(d.y - c.y, 0.0, b.x - a.x);
    }
  }

  /** Segments on one line that overlap across touch with an end. */
  lemma LineOverlap(a: Point, b: Point, c: Point, d: Point, p: Point)
    requires a.x != b.x && c.x != d.x
    requires InInterval(a.x, b.x, p.x) && InInterval(c.x, d.x, p.x)
    requires Cross(c, d, a) == 0.0 && Cross(c, d, b) == 0.0 && Cross(a, b, c) == 0.0 && Cross(a, b, d) == 0.0
    ensures InSegment(c, d, a) || InSegment(c, d, b) || InSegment(a, b, c) || InSegment(a, b, d)
  {
    hide InSegment, Cross;
    IntervalsMeet(a.x, b.x, c.x, d.x, p.x);
    if InInterval(c.x, d.x, a.x) {
      InSegmentAcross(c, d, a);
    } else if InInterval(c.x, d.x, b.x) {
      InSegmentAcross(c, d, b);
    } else if InInterval(a.x, b.x, c.x) {
      InSegmentAcross(a, b, c);
    } else {
      InSegmentAcross(a, b, d);
    }
  }

  /** Two parallel segments that meet, neither of them a point, touch with an end. */
  lemma ParallelTouch(a: Point, b: Point, c: Point, d: Point, t: real, u: real)
    requires Spread(a, b, c, d) == 0.0 && a != b && c != d
    requires 0.0 <= t <= 1.0 && 0.0 <= u <= 1.0 && Between(a, b, t) == Between(c, d, u)
    ensures EndTouches(a, b, c, d)
  {
    hide Between, InSegment, OnSegment, Cross, Spread;
    ParallelShareLine(a, b, c, d, t, u);
    BetweenInBox(a, b, t);
    BetweenInBox(c, d, u);
    OnSegmentIsExact(c, d, a);
    OnSegmentIsExact(c, d, b);
    OnSegmentIsExact(a, b, c);
    OnSegmentIsExact(a, b, d);
    if a.x != b.x {
      ParallelBothWide(a, b, c, d);
      LineOverlap(a, b, c, d, Between(a, b, t));
    } else {
      FlippedOverlap(a, b, c, d, Between(a, b, t));
    }
  }

  lemma FlippedOverlap(a: Point, b: Point, c: Point, d: Point, p: Point)
    requires a.x == b.x && a.y != b.y && c != d && Spread(a, b, c, d) == 0.0
    requires InInterval(a.y, b.y, p.y) && InInterval(c.y, d.y, p.y)
    requires Cross(c, d, a) == 0.0 && Cross(c, d, b) == 0.0 && Cross(a, b, c) == 0.0 && Cross(a, b, d) == 0.0
    ensures InSegment(c, d, a) || InSegment(c, d, b) || InSegment(a, b, c) || InSegment(a, b, d)
  {
    assert Spread(Flip(a), Flip(b), Flip(c), Flip(d)) == -Spread(a, b, c, d);
    ParallelBothWide(Flip(a), Flip(b), Flip(c), Flip(d));
    hide Spread, InSegment, Cross;
    IntervalsMeet(a.y, b.y, c.y, d.y, p.y);
    if InInterval(c.y, d.y, a.y) {
      InSegmentUp(c, d, a);
    } else if InInterval(c.y, d.y, b.y) {
      InSegmentUp(c, d, b);
    } else if InInterval(a.y, b.y, c.y) {
      InSegmentUp(a, b, c);
    } else {
      InSegmentUp(a, b, d);
    }
  }

  /** Two segments that meet properly cross, or an end of one lies on the other. */
  lemma MeetingSegments(a: Point, b: Point, c: Point, d: Point, p: Point)
    requires a != b && c != d && InSegment(a, b, p) && InSegment(c, d, p)
    ensures ProperCrossing(a, b, c, d) || EndTouches(a, b, c, d)
  {
    hide Between, OnSegment, Spread, ProperCrossing;
    OnSegmentIsExact(c, d, a);
    OnSegmentIsExact(c, d, b);
    OnSegmentIsExact(a, b, c);
    OnSegmentIsExact(a, b, d);
    var t: real :| 0.0 <= t <= 1.0 && Between(a, b, t) == p;
    var u: real :| 0.0 <= u <= 1.0 && Between(c, d, u) == p;
    BetweenEnds(a, b);
    BetweenEnds(c, d);
    if Spread(a, b, c, d) == 0.0 {
      ParallelTouch(a, b, c, d, t, u);
    } else if 0.0 < t < 1.0 && 0.0 < u < 1.0 {
      MeetingCrosses(a, b, c, d, t, u);
    }
  }

  /** Two segments from one end that meet anywhere else run along each other: one reaches the other's far
    * end. */
  lemma SharedEndMeets(a: Point, b: Point, c: Point, p: Point)
    requires a != b && b != c && p != b && InSegment(a, b, p) && InSegment(b, c, p)
    ensures OnSegment(b, c, a) || OnSegment(a, b, c)
  {
    hide Between, OnSegment, Spread, ProperCrossing, Cross;
    OnSegmentIsExact(b, c, a);
    OnSegmentIsExact(a, b, c);
    var t: real :| 0.0 <= t <= 1.0 && Between(a, b, t) == p;
    var u: real :| 0.0 <= u <= 1.0 && Between(b, c, u) == p;
    BetweenEnds(a, b);
    BetweenEnds(b, c);
    if 0.0 < t < 1.0 && 0.0 < u < 1.0 {
      if Spread(a, b, b, c) != 0.0 {
        MeetingCrosses(a, b, b, c, t, u);
      }
      SharedEndNeverCrosses(a, b, b, c);
      ParallelShareLine(a, b, b, c, t, u);
      BetweenInBox(a, b, t);
      BetweenInBox(b, c, u);
      hide InSegment;
      if a.x != b.x {
        ParallelBothWide(a, b, b, c);
        if InInterval(b.x, c.x, a.x) {
          InSegmentAcross(b, c, a);
        } else {
          InSegmentAcross(a, b, c);
        }
      } else {
        FlippedSpread(a, b, c);
        ParallelBothWide(Flip(a), Flip(b), Flip(b), Flip(c));
        if InInterval(b.y, c.y, a.y) {
          InSegmentUp(b, c, a);
        } else {
          InSegmentUp(a, b, c);
        }
      }
    }
  }

  lemma FlippedSpread(a: Point, b: Point, c: Point)
    ensures Spread(Flip(a), Flip(b), Flip(b), Flip(c)) == -Spread(a, b, b, c)
  {
  }

  // ---------------------------------------------------------------- rings

  /** p is a point of edge i of the ring, its ends included. */
  ghost predicate OnEdge(ring: Ring, i: nat, p: Point)
    requires i < |ring|
  {
    InSegment(ring[i], ring[Next(i, |ring|)], p)
  }

  /** Edge j begins where edge i ends, at p. */
  predicate JoinedAt(ring: Ring, i: nat, j: nat, p: Point)
    requires i < |ring| && j < |ring|
  {
    j == Next(i, |ring|) && p == ring[j]
  }

  /** Every edge has length, and two different edges share the vertex between them at most. */
  ghost predicate Simple(ring: Ring) {
    && (forall i: nat :: i < |ring| ==> ring[i] != ring[Next(i, |ring|)])
    && (forall i: nat, j: nat, p :: i < |ring| && j < |ring| && i != j && OnEdge(ring, i, p) && OnEdge(ring, j, p)
          ==> JoinedAt(ring, i, j, p) || JoinedAt(ring, j, i, p))
  }

  /** Vertex v lies on edge e, which does not end in it. */
  predicate TouchesAt(ring: Ring, v: nat, e: nat)
    requires v < |ring| && e < |ring|
  {
    v != e && v != Next(e, |ring|) && OnSegment(ring[e], ring[Next(e, |ring|)], ring[v])
  }

  /** Some vertex lies on an edge that does not end in it: a test on numbers, pair by pair. */
  predicate Touches(ring: Ring) {
    exists v: nat, e: nat :: v < |ring| && e < |ring| && TouchesAt(ring, v, e)
  }

  lemma EndsOnEdge(ring: Ring, i: nat)
    requires i < |ring|
    ensures OnEdge(ring, i, ring[i]) && OnEdge(ring, i, ring[Next(i, |ring|)])
  {
    BetweenEnds(ring[i], ring[Next(i, |ring|)]);
    hide Between;
  }

  lemma TouchIsOnEdge(ring: Ring, v: nat, e: nat)
    requires v < |ring| && e < |ring|
    ensures TouchesAt(ring, v, e) <==> v != e && v != Next(e, |ring|) && OnEdge(ring, e, ring[v])
  {
    hide OnSegment, InSegment;
    OnSegmentIsExact(ring[e], ring[Next(e, |ring|)], ring[v]);
  }

  lemma SimpleNeverTouches(ring: Ring)
    requires |ring| >= 3 && Simple(ring)
    ensures !Touches(ring)
  {
    hide OnEdge, TouchesAt;
    forall v: nat, e: nat | v < |ring| && e < |ring|
      ensures !TouchesAt(ring, v, e)
    {
      TouchIsOnEdge(ring, v, e);
      EndsOnEdge(ring, v);
    }
  }

  lemma SimpleNeverCrosses(ring: Ring)
    requires |ring| >= 3 && Simple(ring)
    ensures !SelfCrosses(ring)
  {
    hide OnEdge, Between, EdgesCross, InSegment;
    forall i: nat, j: nat | i < |ring| && j < |ring|
      ensures !EdgesCross(ring, i, j)
    {
      SkippedPairsNeverCross(ring, i, j);
      if EdgesCross(ring, i, j) {
        var p := CrossedEdgesShare(ring, i, j);
      }
    }
  }

  lemma CrossedEdgesShare(ring: Ring, i: nat, j: nat) returns (p: Point)
    requires i < |ring| && j < |ring| && EdgesCross(ring, i, j)
    ensures OnEdge(ring, i, p) && OnEdge(ring, j, p)
  {
    hide ProperCrossing, Spread, Between;
    var a, b, c, d := ring[i], ring[Next(i, |ring|)], ring[j], ring[Next(j, |ring|)];
    CrossingIsExact(a, b, c, d);
    var t: real, u: real :| 0.0 < t < 1.0 && 0.0 < u < 1.0 && Between(a, b, t) == Between(c, d, u);
    p := Between(a, b, t);
  }

  lemma UntouchedHasLength(ring: Ring, i: nat)
    requires |ring| >= 3 && i < |ring| && !Touches(ring)
    ensures ring[i] != ring[Next(i, |ring|)]
  {
    hide OnEdge, TouchesAt;
    var e := if i == 0 then |ring| - 1 else i - 1;
    TouchIsOnEdge(ring, Next(i, |ring|), e);
    EndsOnEdge(ring, e);
  }

  /** Two different edges with a common point that do not cross and touch no foreign vertex are joined there. */
  lemma UntouchedEdgesJoin(ring: Ring, i: nat, j: nat, p: Point)
    requires |ring| >= 3 && i < |ring| && j < |ring| && i != j
    requires !SelfCrosses(ring) && !Touches(ring)
    requires OnEdge(ring, i, p) && OnEdge(ring, j, p)
    ensures JoinedAt(ring, i, j, p) || JoinedAt(ring, j, i, p)
  {
    var n := |ring|;
    var a, b, c, d := ring[i], ring[Next(i, n)], ring[j], ring[Next(j, n)];
    UntouchedHasLength(ring, i);
    UntouchedHasLength(ring, j);
    assert !EdgesCross(ring, i, j);
    MeetingSegments(a, b, c, d, p);
    assert !TouchesAt(ring, i, j) && !TouchesAt(ring, Next(i, n), j);
    assert !TouchesAt(ring, j, i) && !TouchesAt(ring, Next(j, n), i);
    hide OnSegment, InSegment, ProperCrossing, Touches, SelfCrosses;
    if j == Next(i, n) {
      if p != c {
        SharedEndMeets(a, b, d, p);
      }
    } else {
      assert i == Next(j, n);
      if p != a {
        SharedEndMeets(c, d, b, p);
      }
    }
  }

  /** A ring of at least three points is simple if and only if no two of its edges cross, which is what the
    * check looks for, and no vertex lies on an edge it is no end of, which it does not look for. */
  lemma SimpleIsUncrossedUntouched(ring: Ring)
    requires |ring| >= 3
    ensures Simple(ring) <==> !SelfCrosses(ring) && !Touches(ring)
  {
    hide SelfCrosses, Touches, OnEdge, JoinedAt;
    if Simple(ring) {
      SimpleNeverCrosses(ring);
      SimpleNeverTouches(ring);
    }
    if !SelfCrosses(ring) && !Touches(ring) {
      forall i: nat | i < |ring|
        ensures ring[i] != ring[Next(i, |ring|)]
      {
        UntouchedHasLength(ring, i);
      }
      forall i: nat, j: nat, p | i < |ring| && j < |ring| && i != j && OnEdge(ring, i, p) && OnEdge(ring, j, p)
        ensures JoinedAt(ring, i, j, p) || JoinedAt(ring, j, i, p)
      {
        UntouchedEdgesJoin(ring, i, j, p);
      }
    }
  }

  /** The points of a simple ring are all distinct. */
  lemma SimpleHasDistinctPoints(ring: Ring, i: nat, j: nat)
    requires |ring| >= 3 && Simple(ring) && i < j < |ring|
    ensures ring[i] != ring[j]
  {
    SimpleNeverTouches(ring);
    hide Simple, OnEdge, TouchesAt;
    TouchIsOnEdge(ring, i, j);
    TouchIsOnEdge(ring, j, i);
    EndsOnEdge(ring, i);
    EndsOnEdge(ring, j);
  }

  lemma SimpleHasThreePoints(ring: Ring)
    requires |ring| >= 3 && Simple(ring)
    ensures {ring[0], ring[1], ring[2]} <= set p | p in ring
    ensures |{ring[0], ring[1], ring[2]}| == 3
  {
    hide Simple;
    SimpleHasDistinctPoints(ring, 0, 1);
    SimpleHasDistinctPoints(ring, 0, 2);
    SimpleHasDistinctPoints(ring, 1, 2);
  }

  /** When the check reports nothing, its documented promise holds of a ring exactly if no vertex of the
    * ring lies on an edge it is no end of. */
  lemma PassedIsSimpleIffUntouched(rings: seq<Ring>, ring: Ring)
    requires ReportsRings(rings, []) && ring in rings
    ensures |ring| >= 3
    ensures Simple(ring) && (forall i, j :: 0 <= i < j < |ring| ==> ring[i] != ring[j]) <==> !Touches(ring)
  {
    hide SelfCrosses, Touches, Simple, IsFirstCrossed;
    PassedIsUncrossed(rings, ring);
    hide ReportsRings;
    SimpleIsUncrossedUntouched(ring);
    if Simple(ring) {
      forall i, j | 0 <= i < j < |ring|
        ensures ring[i] != ring[j]
      {
        SimpleHasDistinctPoints(ring, i, j);
      }
    }
  }

  lemma {:induction false} PassedIsUncrossed(rings: seq<Ring>, ring: Ring)
    requires ReportsRings(rings, []) && ring in rings
    ensures |ring| >= 3 && !SelfCrosses(ring)
  {
    hide SelfCrosses, IsFirstCrossed;
    if ring != rings[0] {
      PassedIsUncrossed(rings[1..], ring);
    }
  }

  // ---------------------------------------------------------------- a ring that passes and is not simple

  /** "Simple" and "three distinct points" are more than is checked: a ring that walks out and straight
    * back passes with two distinct points and no area. */
  lemma OutAndBackPasses()
    ensures var ring := [Point(0.0, 0.0), Point(1.0, 0.0), Point(0.0, 0.0)];
            && ReportsRings([ring], [])
            && Touches(ring) && !Simple(ring)
            && SignedArea(ring) == 0.0
            && |set p | p in ring| == 2
  {
    hide SelfCrosses, ReportsRings, SignedArea, Simple;
    var o, e := Point(0.0, 0.0), Point(1.0, 0.0);
    ThreeCornersNeverCross([o, e, o]);
    OneCleanRing([o, e, o]);
    assert TouchesAt([o, e, o], 2, 0);
    SimpleIsUncrossedUntouched([o, e, o]);
    assert (set p | p in [o, e, o]) == {o, e};
    OutAndBackArea(o, e);
  }

  /** Any two edges of a ring of three share a vertex. */
  lemma ThreeCornersNeverCross(ring: Ring)
    requires |ring| == 3
    ensures !SelfCrosses(ring)
  {
    hide EdgesCross;
    forall i: nat, j: nat | i < 3 && j < 3
      ensures !EdgesCross(ring, i, j)
    {
      SkippedPairsNeverCross(ring, i, j);
    }
  }

  lemma OneCleanRing(ring: Ring)
    requires |ring| >= 3 && !SelfCrosses(ring)
    ensures ReportsRings([ring], [])
  {
    hide SelfCrosses, IsFirstCrossed;
    assert [ring][1..] == [];
  }

  lemma OutAndBackArea(o: Point, e: Point)
    ensures SignedArea([o, e, o]) == 0.0
  {
    var walk := Closed([o, e, o]);
    assert walk == [o] + [e] + [o, o];
    assert [o, o] == [] + [o] + [o];
    JoinShoelace([o], e, [o, o]);
    JoinShoelace([e], o, [o]);
    assert [o] + [e] == [o, e] && [e] + [o, o] == [e] + [o] + [o] && [e] + [o] == [e, o];
    OneEdgeShoelace(o, e);
    OneEdgeShoelace(e, o);
    OneEdgeShoelace(o, o);
    ShoelaceIsSigned(o, e);
    hide PathShoelace;
  }
}
