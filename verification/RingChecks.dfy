/** Proper crossing of two segments, and the check that every ring of a footprint is simple. */
module RingChecks {

  import opened Geometry
  import opened Wrappers

  /** Which side of the line from o through p the point q lies on: the sign of the turn. */
  function Cross(o: Point, p: Point, q: Point): real {
    (p.x - o.x) * (q.y - o.y) - (p.y - o.y) * (q.x - o.x)
  }

  predicate ProperCrossing(a: Point, b: Point, c: Point, d: Point) {
    var d1, d2 := Cross(a, b, c), Cross(a, b, d);
    var d3, d4 := Cross(c, d, a), Cross(c, d, b);
    && d1 != 0.0 && d2 != 0.0 && d3 != 0.0 && d4 != 0.0
    && (d1 > 0.0) != (d2 > 0.0) && (d3 > 0.0) != (d4 > 0.0)
  }

  // ---------------------------------------------------------------- what a crossing means

  /** Twice the area spanned by the two directions: zero exactly when they are parallel. */
  function Spread(a: Point, b: Point, c: Point, d: Point): real {
    (b.x - a.x) * (d.y - c.y) - (b.y - a.y) * (d.x - c.x)
  }

  /** Some point lies strictly inside both segments. */
  ghost predicate MeetInside(a: Point, b: Point, c: Point, d: Point) {
    exists t: real, u: real :: 0.0 < t < 1.0 && 0.0 < u < 1.0 && Between(a, b, t) == Between(c, d, u)
  }

  lemma TurnsDifferBySpread(a: Point, b: Point, c: Point, d: Point)
    ensures Cross(c, d, a) - Cross(c, d, b) == Spread(a, b, c, d)
    ensures Cross(a, b, d) - Cross(a, b, c) == Spread(a, b, c, d)
  {
  }

  /** Three plane vectors are dependent, with the pairwise cross products as coefficients. */
  lemma Dependent(rx: real, ry: real, sx: real, sy: real, vx: real, vy: real)
    ensures (rx * sy - ry * sx) * vx + (sx * vy - sy * vx) * rx + (vx * ry - vy * rx) * sx == 0.0
    ensures (rx * sy - ry * sx) * vy + (sx * vy - sy * vx) * ry + (vx * ry - vy * rx) * sy == 0.0
  {
  }

  /** A ratio of one sign and smaller than its denominator is a strict fraction. */
  lemma Fraction(n: real, w: real) returns (t: real)
    requires n != 0.0 && n != w && (n > 0.0) != (n - w > 0.0)
    ensures w != 0.0 && t * w == n && 0.0 < t < 1.0
  {
    t := n / w;
    assert t * w == n;
    if w > 0.0 {
      assert 0.0 < n < w;
      assert t <= 0.0 ==> t * w <= 0.0;
      assert t >= 1.0 ==> (t - 1.0) * w >= 0.0;
    } else {
      assert w < n < 0.0;
      assert t <= 0.0 ==> t * w >= 0.0;
      assert t >= 1.0 ==> (t - 1.0) * w <= 0.0;
    }
  }

  lemma Cancel(w: real, v: real, r: real, s: real, t: real, u: real, n: real, m: real)
    requires w != 0.0 && t * w == n && u * w == m
    requires w * v + n * r - m * s == 0.0
    ensures v + t * r - u * s == 0.0
  {
    assert w * (v + t * r - u * s) == w * v + (t * w) * r - (u * w) * s;
    var z := v + t * r - u * s;
    assert w * z == 0.0;
  }

  lemma CrossingMeets(a: Point, b: Point, c: Point, d: Point)
    requires ProperCrossing(a, b, c, d)
    ensures Spread(a, b, c, d) != 0.0 && MeetInside(a, b, c, d)
  {
    var w := Spread(a, b, c, d);
    var d1, d3 := Cross(a, b, c), Cross(c, d, a);
    TurnsDifferBySpread(a, b, c, d);
    var t := Fraction(d3, w);
    var u := Fraction(-d1, w);
    var rx, ry, sx, sy, vx, vy := b.x - a.x, b.y - a.y, d.x - c.x, d.y - c.y, a.x - c.x, a.y - c.y;
    Dependent(rx, ry, sx, sy, vx, vy);
    assert d3 == sx * vy - sy * vx;
    assert d1 == vx * ry - vy * rx;
    Cancel(w, vx, rx, sx, t, u, d3, -d1);
    Cancel(w, vy, ry, sy, t, u, d3, -d1);
    assert Between(a, b, t) == Between(c, d, u);
  }

  /** Where the segments meet at parameters t and u, each turn is that parameter of the spread. */
  lemma TurnsAtMeeting(a: Point, b: Point, c: Point, d: Point, t: real, u: real)
    requires Between(a, b, t) == Between(c, d, u)
    ensures Cross(c, d, a) == t * Spread(a, b, c, d)
    ensures Cross(a, b, c) == -u * Spread(a, b, c, d)
  {
    var rx, ry, sx, sy, vx, vy := b.x - a.x, b.y - a.y, d.x - c.x, d.y - c.y, a.x - c.x, a.y - c.y;
    assert vx == u * sx - t * rx;
    assert vy == u * sy - t * ry;
    MeetingAlgebra(rx, ry, sx, sy, vx, vy, t, u);
  }

  lemma MeetingAlgebra(rx: real, ry: real, sx: real, sy: real, vx: real, vy: real, t: real, u: real)
    requires vx == u * sx - t * rx
    requires vy == u * sy - t * ry
    ensures sx * vy - sy * vx == t * (rx * sy - ry * sx)
    ensures vx * ry - vy * rx == -u * (rx * sy - ry * sx)
  {
    assert sx * vy == sx * (u * sy) - sx * (t * ry);
    assert sy * vx == sy * (u * sx) - sy * (t * rx);
    assert vx * ry == (u * sx) * ry - (t * rx) * ry;
    assert vy * rx == (u * sy) * rx - (t * ry) * rx;
  }

  lemma SignsAround(w: real, t: real) returns (n: real)
    requires w != 0.0 && 0.0 < t < 1.0
    ensures n == t * w
    ensures n != 0.0 && n - w != 0.0 && (n > 0.0) != (n - w > 0.0)
  {
    n := t * w;
    if w > 0.0 {
      assert n > 0.0;
      assert (1.0 - t) * w > 0.0;
    } else {
      assert t * -w > 0.0;
      assert (1.0 - t) * -w > 0.0;
    }
  }

  lemma MeetingCrosses(a: Point, b: Point, c: Point, d: Point, t: real, u: real)
    requires Spread(a, b, c, d) != 0.0
    requires 0.0 < t < 1.0 && 0.0 < u < 1.0 && Between(a, b, t) == Between(c, d, u)
    ensures ProperCrossing(a, b, c, d)
  {
    TurnsAtMeeting(a, b, c, d, t, u);
    TurnsDifferBySpread(a, b, c, d);
    var w := Spread(a, b, c, d);
    var n := SignsAround(w, t);
    var m := SignsAround(w, u);
    assert Cross(c, d, a) == n && Cross(c, d, b) == n - w;
    assert Cross(a, b, c) == -m && Cross(a, b, d) == w - m;
    hide Cross, Spread, Between;
  }

  /** The sign test is exact: it holds iff the segments are not parallel and share a point strictly
    * inside both. */
  lemma CrossingIsExact(a: Point, b: Point, c: Point, d: Point)
    ensures ProperCrossing(a, b, c, d) <==> Spread(a, b, c, d) != 0.0 && MeetInside(a, b, c, d)
  {
    hide ProperCrossing, Spread;
    if ProperCrossing(a, b, c, d) {
      CrossingMeets(a, b, c, d);
    }
    if Spread(a, b, c, d) != 0.0 && MeetInside(a, b, c, d) {
      var t: real, u: real :| 0.0 < t < 1.0 && 0.0 < u < 1.0 && Between(a, b, t) == Between(c, d, u);
      MeetingCrosses(a, b, c, d, t, u);
    }
  }

  lemma TurnReverses(a: Point, b: Point, c: Point)
    ensures Cross(b, a, c) == -Cross(a, b, c)
    ensures Cross(a, b, a) == 0.0 && Cross(a, b, b) == 0.0
  {
  }

  /** Crossing does not depend on the order of the segments or on the direction of either. */
  lemma CrossingIsSymmetric(a: Point, b: Point, c: Point, d: Point)
    ensures ProperCrossing(a, b, c, d) == ProperCrossing(c, d, a, b)
    ensures ProperCrossing(a, b, c, d) == ProperCrossing(b, a, c, d)
    ensures ProperCrossing(a, b, c, d) == ProperCrossing(a, b, d, c)
  {
    TurnReverses(a, b, c);
    TurnReverses(a, b, d);
    TurnReverses(c, d, a);
    TurnReverses(c, d, b);
    hide Cross;
  }

  /** Segments that share an end never properly cross. */
  lemma SharedEndNeverCrosses(a: Point, b: Point, c: Point, d: Point)
    requires a == c || a == d || b == c || b == d
    ensures !ProperCrossing(a, b, c, d)
  {
    TurnReverses(a, b, c);
    TurnReverses(a, b, d);
    TurnReverses(c, d, a);
    TurnReverses(c, d, b);
    hide Cross;
  }

  // ---------------------------------------------------------------- checking rings

  /** Edges i and j of the ring properly cross, for any two of its edges. */
  predicate EdgesCross(ring: Ring, i: nat, j: nat)
    requires i < |ring| && j < |ring|
  {
    ProperCrossing(ring[i], ring[Next(i, |ring|)], ring[j], ring[Next(j, |ring|)])
  }

  predicate SelfCrosses(ring: Ring) {
    exists i: nat, j: nat :: i < |ring| && j < |ring| && EdgesCross(ring, i, j)
  }

  /** Edge i is the first edge of the ring that any edge crosses. */
  ghost predicate IsFirstCrossed(ring: Ring, i: nat) {
    && i < |ring|
    && (exists j: nat :: j < |ring| && EdgesCross(ring, i, j))
    && (forall k: nat, j: nat :: k < i && j < |ring| ==> !EdgesCross(ring, k, j))
  }

  /** The pairs the check leaves out are the ones that share a vertex, and those never cross; what is
    * left, taken in either order, is every pair. */
  lemma SkippedPairsNeverCross(ring: Ring, i: nat, j: nat)
    requires i < |ring| && j < |ring|
    ensures EdgesCross(ring, i, j) == EdgesCross(ring, j, i)
    ensures i == j || j == Next(i, |ring|) || i == Next(j, |ring|) ==> !EdgesCross(ring, i, j)
  {
    var a, b, c, d := ring[i], ring[Next(i, |ring|)], ring[j], ring[Next(j, |ring|)];
    CrossingIsSymmetric(a, b, c, d);
    hide ProperCrossing;
    if a == c || a == d || b == c || b == d {
      SharedEndNeverCrosses(a, b, c, d);
    }
  }

  /** One row of the search: if no pair with a smaller first index crosses and no later pair of this
    * row does, nothing crosses edge i. */
  lemma RowIsClear(ring: Ring, i: nat)
    requires i < |ring|
    requires forall k: nat, j: nat :: k < i && j < |ring| ==> !EdgesCross(ring, k, j)
    requires forall j: nat :: i + 2 <= j < |ring| && !(i == 0 && j == |ring| - 1) ==> !EdgesCross(ring, i, j)
    ensures forall j: nat :: j < |ring| ==> !EdgesCross(ring, i, j)
  {
    hide EdgesCross;
    forall j: nat | j < |ring|
      ensures !EdgesCross(ring, i, j)
    {
      SkippedPairsNeverCross(ring, i, j);
    }
  }

  /** The double loop over pairs of edges, leaving out neighbours. */
  method FirstCrossed(ring: Ring) returns (hit: Option<nat>)
    ensures hit.Some? ==> IsFirstCrossed(ring, hit.value)
    ensures hit.None? ==> !SelfCrosses(ring)
  {
    hide EdgesCross;
    var n := |ring|;
    for i := 0 to n
      invariant forall k: nat, j: nat :: k < i && j < n ==> !EdgesCross(ring, k, j)
    {
      var j := i + 2;
      while j < n
        invariant forall m: nat :: i + 2 <= m < j && m < n && !(i == 0 && m == n - 1) ==> !EdgesCross(ring, i, m)
      {
        if !(i == 0 && j == n - 1) {
          var crossed := EdgesCross(ring, i, j);
          if crossed {
            return Some(i);
          }
        }
        j := j + 1;
      }
      RowIsClear(ring, i);
    }
    return None;
  }

  datatype Failure = ShortRing(points: nat) | SelfIntersects(near: Point)

  class Report {
    var failures: seq<Failure>

    constructor ()
      ensures failures == []
    {
      failures := [];
    }

    method Fail(failure: Failure)
      modifies this
      ensures failures == old(failures) + [failure]
    {
      failures := failures + [failure];
    }
  }

  /** What the check has to report about a list of rings: every short ring, in order, up to and
    * including the first ring that crosses itself, named at its first crossed edge. */
  ghost predicate ReportsRings(rings: seq<Ring>, fs: seq<Failure>) {
    if rings == [] then fs == []
    else if |rings[0]| < 3 then
      fs != [] && fs[0] == ShortRing(|rings[0]|) && ReportsRings(rings[1..], fs[1..])
    else if SelfCrosses(rings[0]) then
      exists i: nat :: IsFirstCrossed(rings[0], i) && fs == [SelfIntersects(rings[0][i])]
    else ReportsRings(rings[1..], fs)
  }

  lemma {:induction false} ReportGrows(done: seq<Ring>, fs: seq<Failure>, ring: Ring, gs: seq<Failure>)
    requires ReportsRings(done, fs) && ReportsRings([ring], gs)
    requires forall k :: 0 <= k < |done| ==> |done[k]| < 3 || !SelfCrosses(done[k])
    ensures ReportsRings(done + [ring], fs + gs)
  {
    if done == [] {
      assert done + [ring] == [ring];
      assert fs + gs == gs;
    } else {
      assert (done + [ring])[1..] == done[1..] + [ring];
      if |done[0]| < 3 {
        ReportGrows(done[1..], fs[1..], ring, gs);
        assert (fs + gs)[1..] == fs[1..] + gs;
      } else {
        ReportGrows(done[1..], fs, ring, gs);
      }
    }
  }

  lemma {:induction false} ReportStops(done: seq<Ring>, rest: seq<Ring>, fs: seq<Failure>)
    requires done != [] && ReportsRings(done, fs)
    requires |done[|done| - 1]| >= 3 && SelfCrosses(done[|done| - 1])
    ensures ReportsRings(done + rest, fs)
  {
    assert (done + rest)[0] == done[0];
    assert (done + rest)[1..] == done[1..] + rest;
    if |done[0]| < 3 {
      ReportStops(done[1..], rest, fs[1..]);
    } else if !SelfCrosses(done[0]) {
      ReportStops(done[1..], rest, fs);
    }
  }

  method CheckRings(report: Report, rings: seq<Ring>)
    modifies report
    ensures old(report.failures) <= report.failures
    ensures ReportsRings(rings, report.failures[|old(report.failures)|..])
  {
    hide SelfCrosses, IsFirstCrossed;
    ghost var base := |report.failures|;
    for r := 0 to |rings|
      invariant old(report.failures) <= report.failures
      invariant ReportsRings(rings[..r], report.failures[base..])
      invariant forall k :: 0 <= k < r ==> |rings[k]| < 3 || !SelfCrosses(rings[k])
    {
      var ring := rings[r];
      ghost var fs := report.failures[base..];
      assert rings[..r + 1] == rings[..r] + [ring];
      if |ring| < 3 {
        report.Fail(ShortRing(|ring|));
        ReportGrows(rings[..r], fs, ring, [ShortRing(|ring|)]);
        assert report.failures[base..] == fs + [ShortRing(|ring|)];
      } else {
        var hit := FirstCrossed(ring);
        if hit.Some? {
          FirstIsACrossing(ring, hit.value);
          report.Fail(SelfIntersects(ring[hit.value]));
          ReportGrows(rings[..r], fs, ring, [SelfIntersects(ring[hit.value])]);
          assert report.failures[base..] == fs + [SelfIntersects(ring[hit.value])];
          ReportStops(rings[..r + 1], rings[r + 1..], report.failures[base..]);
          assert rings == rings[..r + 1] + rings[r + 1..];
          return;
        }
        ReportGrows(rings[..r], fs, ring, []);
        assert report.failures[base..] == fs + [];
      }
    }
    assert rings[..|rings|] == rings;
  }

  lemma FirstIsACrossing(ring: Ring, i: nat)
    requires IsFirstCrossed(ring, i)
    ensures i < |ring| && SelfCrosses(ring)
  {
    hide EdgesCross;
  }

  /** A self-intersection is reported iff some ring of at least three points has two edges, any two,
    * that properly cross. */
  lemma {:induction false} ReportIsLossless(rings: seq<Ring>, fs: seq<Failure>)
    requires ReportsRings(rings, fs)
    ensures (exists f :: f in fs && f.SelfIntersects?)
       <==> (exists ring :: ring in rings && |ring| >= 3 && SelfCrosses(ring))
  {
    hide SelfCrosses, IsFirstCrossed;
    if rings != [] {
      var ring, rest := rings[0], rings[1..];
      assert rings == [ring] + rest;
      if |ring| < 3 {
        ReportIsLossless(rest, fs[1..]);
        assert fs == [fs[0]] + fs[1..];
      } else if !SelfCrosses(ring) {
        ReportIsLossless(rest, fs);
      } else {
        assert ring in rings;
        assert fs[0] in fs && fs[0].SelfIntersects?;
      }
    }
  }
}
