/** The even-odd test of polygons with holes, and the grid sampler that estimates how much area two
  * footprints both claim. The sampler scans only where the two bounding boxes overlap; the theorems
  * here say what that leaves out (nothing) and when.
  */
module Sampler {

  import opened Geometry

  datatype Polygon = Polygon(exterior: Ring, holes: seq<Ring>)

  function RingsOf(poly: Polygon): seq<Ring> {
    [poly.exterior] + poly.holes
  }

  /** How many edges of all these rings the ray from (x, y) crosses. */
  function CrossingsOf(rings: seq<Ring>, x: real, y: real): nat {
    if rings == [] then 0
    else CrossingsOf(rings[..|rings| - 1], x, y) + RingCrossings(rings[|rings| - 1], x, y)
  }

  predicate InPolygon(x: real, y: real, poly: Polygon) {
    CrossingsOf(RingsOf(poly), x, y) % 2 == 1
  }

  predicate InFootprint(x: real, y: real, polys: seq<Polygon>) {
    exists k :: 0 <= k < |polys| && InPolygon(x, y, polys[k])
  }

  /** One more edge of the walk round a ring. */
  lemma WalkStep(ring: Ring, i: nat, x: real, y: real)
    requires i < |ring|
    ensures PathCrossings(Closed(ring)[..i + 2], x, y)
         == PathCrossings(Closed(ring)[..if i == 0 then 0 else i + 1], x, y)
          + Toggle(ring[i], ring[Next(i, |ring|)], x, y)
  {
    hide Toggle;
    var walk := Closed(ring);
    assert walk[..i + 2][..i + 1] == walk[..i + 1];
    assert i == 0 ==> |walk[..1]| < 2;
  }

  lemma RingStep(rings: seq<Ring>, r: nat, x: real, y: real)
    requires r < |rings|
    ensures CrossingsOf(rings[..r + 1], x, y) == CrossingsOf(rings[..r], x, y) + RingCrossings(rings[r], x, y)
  {
    hide RingCrossings;
    assert rings[..r + 1][..r] == rings[..r];
  }

  lemma WalkDone(ring: Ring, x: real, y: real)
    ensures |ring| == 0 ==> RingCrossings(ring, x, y) == 0
    ensures |ring| > 0 ==> PathCrossings(Closed(ring)[..|ring| + 1], x, y) == RingCrossings(ring, x, y)
    ensures |ring| > 0 ==> |Closed(ring)| == |ring| + 1
    ensures PathCrossings(Closed(ring)[..0], x, y) == 0
  {
    assert Closed(ring)[..|Closed(ring)|] == Closed(ring);
  }

  /** The toggle loop over the segments of every ring. */
  method PointInPolygon(x: real, y: real, poly: Polygon) returns (inside: bool)
    ensures inside == InPolygon(x, y, poly)
  {
    hide Toggles, RingCrossings, PathCrossings, Closed;
    inside := false;
    var rings := RingsOf(poly);
    for r := 0 to |rings|
      invariant inside == (CrossingsOf(rings[..r], x, y) % 2 == 1)
    {
      var ring := rings[r];
      ghost var before := CrossingsOf(rings[..r], x, y);
      ghost var seen := 0;
      WalkDone(ring, x, y);
      RingStep(rings, r, x, y);
      for i := 0 to |ring|
        invariant |ring| > 0 ==> |Closed(ring)| == |ring| + 1
        invariant |ring| > 0 ==> seen == PathCrossings(Closed(ring)[..if i == 0 then 0 else i + 1], x, y)
        invariant |ring| == 0 ==> seen == 0
        invariant inside == ((before + seen) % 2 == 1)
      {
        WalkStep(ring, i, x, y);
        seen := seen + Toggle(ring[i], ring[Next(i, |ring|)], x, y);
        if Toggles(ring[i], ring[Next(i, |ring|)], x, y) {
          inside := !inside;
        }
      }
    }
    assert rings[..|rings|] == rings;
  }

  method PointInFootprint(x: real, y: real, polys: seq<Polygon>) returns (inside: bool)
    ensures inside == InFootprint(x, y, polys)
  {
    hide InPolygon;
    for k := 0 to |polys|
      invariant forall m :: 0 <= m < k ==> !InPolygon(x, y, polys[m])
    {
      var hit := PointInPolygon(x, y, polys[k]);
      if hit {
        return true;
      }
    }
    return false;
  }

  // ---------------------------------------------------------------- nothing outside the box

  datatype Box = Box(x0: real, y0: real, x1: real, y1: real)

  predicate Holds(box: Box, p: Point) {
    box.x0 <= p.x <= box.x1 && box.y0 <= p.y <= box.y1
  }

  /** The half-open box the sampler scans. */
  predicate Scans(box: Box, x: real, y: real) {
    box.x0 <= x < box.x1 && box.y0 <= y < box.y1
  }

  predicate Straddles(p: Point, q: Point, y: real) {
    (p.y <= y) != (q.y <= y)
  }

  function Straddle(p: Point, q: Point, y: real): nat {
    if Straddles(p, q, y) then 1 else 0
  }

  function PathStraddles(pts: seq<Point>, y: real): nat {
    if |pts| < 2 then 0
    else PathStraddles(pts[..|pts| - 1], y) + Straddle(pts[|pts| - 2], pts[|pts| - 1], y)
  }

  /** A walk crosses a height an odd number of times exactly when it ends on the other side of it. */
  lemma {:induction false} StraddleParity(pts: seq<Point>, y: real)
    requires pts != []
    ensures PathStraddles(pts, y) % 2 == Straddle(pts[0], pts[|pts| - 1], y)
  {
    if |pts| >= 2 {
      StraddleParity(pts[..|pts| - 1], y);
    }
  }

  /** The edge meets any height it straddles between its own ends. */
  lemma MeetStaysBetween(p: Point, q: Point, y: real)
    requires Straddles(p, q, y)
    ensures p.x <= Meet(p, q, y) <= q.x || q.x <= Meet(p, q, y) <= p.x
  {
    var t := (y - p.y) / (q.y - p.y);
    assert t * (q.y - p.y) == y - p.y;
    UnitRatio(t, q.y - p.y, y - p.y);
    var d := q.x - p.x;
    var s := UnitScale(t, d);
    assert Meet(p, q, y) == p.x + s;
    hide Meet;
  }

  lemma UnitRatio(t: real, h: real, n: real)
    requires t * h == n && (0.0 <= n <= h || 0.0 >= n >= h) && h != 0.0
    ensures 0.0 <= t <= 1.0
  {
    if h > 0.0 {
      assert t < 0.0 ==> t * h < 0.0;
      assert t > 1.0 ==> (t - 1.0) * h > 0.0;
    } else {
      assert t < 0.0 ==> t * -h < 0.0;
      assert t > 1.0 ==> (t - 1.0) * -h > 0.0;
    }
  }

  lemma ProductSign(a: real, b: real)
    requires a >= 0.0 && b >= 0.0
    ensures a * b >= 0.0
  {
  }

  lemma UnitScale(t: real, d: real) returns (s: real)
    requires 0.0 <= t <= 1.0
    ensures s == t * d && (0.0 <= s <= d || 0.0 >= s >= d)
  {
    s := t * d;
    if d >= 0.0 {
      ProductSign(t, d);
      ProductSign(1.0 - t, d);
    } else {
      ProductSign(t, -d);
      ProductSign(1.0 - t, -d);
    }
  }

  /** Left of every point of a walk, the ray crosses each edge that straddles its height. Right of
    * them, or above or below them, it crosses none. */
  lemma {:induction false} WalkSeenFromOutside(pts: seq<Point>, box: Box, x: real, y: real)
    requires forall p :: p in pts ==> Holds(box, p)
    ensures x < box.x0 ==> PathCrossings(pts, x, y) == PathStraddles(pts, y)
    ensures x >= box.x1 || y < box.y0 || y >= box.y1 ==> PathCrossings(pts, x, y) == 0
  {
    if |pts| >= 2 {
      WalkSeenFromOutside(pts[..|pts| - 1], box, x, y);
      var p, q := pts[|pts| - 2], pts[|pts| - 1];
      assert Holds(box, p) && Holds(box, q);
      if Straddles(p, q, y) {
        MeetStaysBetween(p, q, y);
      }
      hide Meet;
    }
  }

  /** Outside the half-open box of a ring's points, every ray crosses it an even number of times. */
  lemma OutsideBoxIsEven(ring: Ring, box: Box, x: real, y: real)
    requires forall p :: p in ring ==> Holds(box, p)
    requires !Scans(box, x, y)
    ensures RingCrossings(ring, x, y) % 2 == 0
  {
    var walk := Closed(ring);
    WalkSeenFromOutside(walk, box, x, y);
    if ring != [] {
      StraddleParity(walk, y);
    }
    hide PathCrossings, PathStraddles;
  }

  lemma {:induction false} OutsideBoxIsEvenForAll(rings: seq<Ring>, box: Box, x: real, y: real)
    requires forall ring, p :: ring in rings && p in ring ==> Holds(box, p)
    requires !Scans(box, x, y)
    ensures CrossingsOf(rings, x, y) % 2 == 0
  {
    hide RingCrossings;
    if rings != [] {
      OutsideBoxIsEvenForAll(rings[..|rings| - 1], box, x, y);
      OutsideBoxIsEven(rings[|rings| - 1], box, x, y);
    }
  }

  /** Every vertex of the footprint, holes included, lies in the box. */
  ghost predicate Covers(box: Box, polys: seq<Polygon>) {
    forall poly, ring, p :: poly in polys && ring in RingsOf(poly) && p in ring ==> Holds(box, p)
  }

  /** A point inside a footprint satisfies min <= coordinate < max on both axes. */
  lemma InsideIsScanned(polys: seq<Polygon>, box: Box, x: real, y: real)
    requires Covers(box, polys)
    requires InFootprint(x, y, polys)
    ensures Scans(box, x, y)
  {
    hide CrossingsOf, RingsOf;
    var k :| 0 <= k < |polys| && InPolygon(x, y, polys[k]);
    if !Scans(box, x, y) {
      assert polys[k] in polys;
      OutsideBoxIsEvenForAll(RingsOf(polys[k]), box, x, y);
    }
  }

  // ---------------------------------------------------------------- bounding boxes

  function Min(a: real, b: real): real { if b < a then b else a }

  function Max(a: real, b: real): real { if b > a then b else a }

  /** The bounding box of some points. Taking it of none fails in the source too. */
  function Bbox(points: seq<Point>): (box: Box)
    requires points != []
    ensures forall p :: p in points ==> Holds(box, p)
    ensures exists p :: p in points && p.x == box.x0
    ensures exists p :: p in points && p.y == box.y0
    ensures exists p :: p in points && p.x == box.x1
    ensures exists p :: p in points && p.y == box.y1
  {
    var p := points[|points| - 1];
    if |points| == 1 then
      assert p in points;
      Box(p.x, p.y, p.x, p.y)
    else
      var rest := points[..|points| - 1];
      assert points == rest + [p];
      var b := Bbox(rest);
      Box(Min(b.x0, p.x), Min(b.y0, p.y), Max(b.x1, p.x), Max(b.y1, p.y))
  }

  function ExteriorPoints(polys: seq<Polygon>): (points: seq<Point>)
    ensures forall poly, p :: poly in polys && p in poly.exterior ==> p in points
  {
    if polys == [] then []
    else
      assert polys == [polys[0]] + polys[1..];
      polys[0].exterior + ExteriorPoints(polys[1..])
  }

  function Intersect(a: Box, b: Box): Box {
    Box(Max(a.x0, b.x0), Max(a.y0, b.y0), Min(a.x1, b.x1), Min(a.y1, b.y1))
  }

  /** The box of a footprint is taken from its exteriors alone; its holes are expected inside it. */
  ghost predicate HolesInBox(polys: seq<Polygon>)
    requires ExteriorPoints(polys) != []
  {
    forall poly, hole, p :: poly in polys && hole in poly.holes && p in hole ==> Holds(Bbox(ExteriorPoints(polys)), p)
  }

  // ---------------------------------------------------------------- outside the box

  /** The point is in an odd number of one polygon's holes, its exterior left aside. */
  predicate InOddHoles(x: real, y: real, polys: seq<Polygon>) {
    exists k :: 0 <= k < |polys| && CrossingsOf(polys[k].holes, x, y) % 2 == 1
  }

  lemma {:induction false} FirstRing(ring: Ring, rings: seq<Ring>, x: real, y: real)
    ensures CrossingsOf([ring] + rings, x, y) == RingCrossings(ring, x, y) + CrossingsOf(rings, x, y)
  {
    hide RingCrossings;
    var all := [ring] + rings;
    if rings == [] {
      assert all == [ring] && [ring][..0] == [];
    } else {
      FirstRing(ring, rings[..|rings| - 1], x, y);
      assert all[..|all| - 1] == [ring] + rings[..|rings| - 1];
    }
  }

  /** Outside the box of the exteriors the exteriors say nothing: a point there is in the footprint exactly
    * when it is in an odd number of one polygon's holes. */
  lemma OutsideBoxHolesDecide(polys: seq<Polygon>, x: real, y: real)
    requires ExteriorPoints(polys) != [] && !Scans(Bbox(ExteriorPoints(polys)), x, y)
    ensures InFootprint(x, y, polys) <==> InOddHoles(x, y, polys)
  {
    hide CrossingsOf, RingCrossings;
    var box := Bbox(ExteriorPoints(polys));
    forall k | 0 <= k < |polys|
      ensures InPolygon(x, y, polys[k]) <==> CrossingsOf(polys[k].holes, x, y) % 2 == 1
    {
      assert polys[k] in polys;
      FirstRing(polys[k].exterior, polys[k].holes, x, y);
      OutsideBoxIsEven(polys[k].exterior, box, x, y);
    }
    hide InPolygon;
  }

  /** No point outside the box is in an odd number of one polygon's holes. */
  ghost predicate HolesStayIn(polys: seq<Polygon>)
    requires ExteriorPoints(polys) != []
  {
    forall x: real, y: real :: InOddHoles(x, y, polys) ==> Scans(Bbox(ExteriorPoints(polys)), x, y)
  }

  /** Every point of a footprint lies in the half-open box of its exteriors if and only if no hole reaches
    * out of it in the odd way; two holes drawn over each other out there are harmless. */
  lemma InsideIsInBox(polys: seq<Polygon>)
    requires ExteriorPoints(polys) != []
    ensures (forall x: real, y: real :: InFootprint(x, y, polys) ==> Scans(Bbox(ExteriorPoints(polys)), x, y))
       <==> HolesStayIn(polys)
  {
    var box := Bbox(ExteriorPoints(polys));
    forall x: real, y: real | !Scans(box, x, y)
      ensures InFootprint(x, y, polys) <==> InOddHoles(x, y, polys)
    {
      OutsideBoxHolesDecide(polys, x, y);
    }
    hide InFootprint, InOddHoles, Scans, Bbox, ExteriorPoints;
  }

  /** Holes whose points all lie in the box stay in it. */
  lemma HolesInBoxStayIn(polys: seq<Polygon>)
    requires ExteriorPoints(polys) != [] && HolesInBox(polys)
    ensures HolesStayIn(polys)
  {
    hide CrossingsOf, RingCrossings;
    var box := Bbox(ExteriorPoints(polys));
    forall x: real, y: real | !Scans(box, x, y)
      ensures !InOddHoles(x, y, polys)
    {
      forall k | 0 <= k < |polys|
        ensures CrossingsOf(polys[k].holes, x, y) % 2 == 0
      {
        assert polys[k] in polys;
        OutsideBoxIsEvenForAll(polys[k].holes, box, x, y);
      }
    }
  }

  // ---------------------------------------------------------------- the sampler

  /** Sample points (ox + i * step, oy + j * step) for all integers i and j. */
  datatype Grid = Grid(ox: real, oy: real, step: real)

  function Along(origin: real, step: real, i: int): real {
    origin + i as real * step
  }

  predicate HitAt(a: seq<Polygon>, b: seq<Polygon>, g: Grid, i: int, j: int) {
    && InFootprint(Along(g.ox, g.step, i), Along(g.oy, g.step, j), a)
    && InFootprint(Along(g.ox, g.step, i), Along(g.oy, g.step, j), b)
  }

  /** The sample points of a window of the grid that lie in both footprints. */
  ghost function Hits(a: seq<Polygon>, b: seq<Polygon>, g: Grid, i0: int, i1: int, j0: int, j1: int): set<(int, int)> {
    set i, j | i0 <= i < i1 && j0 <= j < j1 && HitAt(a, b, g, i, j) :: (i, j)
  }

  /** The first sample's distance from the window's low sides: 1/pi of a step. */
  function Offset(step: real): real {
    step * 0.31830988618
  }

  /** Where the two boxes overlap: the part of the plane the sampler scans. */
  function Window(a: seq<Polygon>, b: seq<Polygon>): Box
    requires ExteriorPoints(a) != [] && ExteriorPoints(b) != []
  {
    Intersect(Bbox(ExteriorPoints(a)), Bbox(ExteriorPoints(b)))
  }

  function SampleGrid(window: Box, step: real): Grid {
    Grid(window.x0 + Offset(step), window.y0 + Offset(step), step)
  }

  /** How many steps from lo stay below hi. */
  function Steps(lo: real, hi: real, step: real): nat
    requires step > 0.0
  {
    if lo >= hi then 0 else
    var n := -((lo - hi) / step).Floor;
    if n < 0 then 0 else n
  }

  lemma StepsReach(lo: real, hi: real, step: real, i: nat)
    requires step > 0.0
    ensures i < Steps(lo, hi, step) <==> Along(lo, step, i) < hi
  {
    if lo >= hi {
      assert i as real * step >= 0.0;
    } else {
      var r := (lo - hi) / step;
      assert r * step == lo - hi;
      FloorOrder(r, i);
      OrderScales(r, i as real, step);
      assert r * step + i as real * step == lo - hi + i as real * step;
    }
  }

  lemma StepAlong(origin: real, step: real, i: int)
    ensures Along(origin, step, i + 1) == Along(origin, step, i) + step
    ensures Along(origin, step, 0) == origin
  {
    assert (i + 1) as real == i as real + 1.0;
  }

  lemma FloorOrder(r: real, i: nat)
    ensures i < -(r.Floor) <==> r + i as real < 0.0
  {
    assert (i as real + r).Floor == i + r.Floor;
  }

  lemma OrderScales(r: real, i: real, step: real)
    requires step > 0.0
    ensures r + i < 0.0 <==> r * step + i * step < 0.0
  {
    var z := r + i;
    assert z * step == r * step + i * step;
    assert z < 0.0 ==> z * step < 0.0;
    assert z >= 0.0 ==> z * step >= 0.0;
  }

  /** The sample points of the scanned window that lie in both footprints. */
  ghost function OverlapHits(a: seq<Polygon>, b: seq<Polygon>, step: real): nat
    requires a != [] ==> ExteriorPoints(a) != []
    requires b != [] ==> ExteriorPoints(b) != []
    requires step > 0.0
  {
    if a == [] || b == [] then 0 else
    var w := Window(a, b);
    if w.x1 <= w.x0 || w.y1 <= w.y0 then 0 else
    var g := SampleGrid(w, step);
    |Hits(a, b, g, 0, Steps(g.ox, w.x1, step), 0, Steps(g.oy, w.y1, step))|
  }

  /** The area a number of sample points stands for. */
  function Cells(hits: nat, step: real): real {
    hits as real * step * step
  }

  lemma NoCells(step: real)
    ensures Cells(0, step) == 0.0
  {
  }

  /** The inner loop: one row of samples, from start while below end. */
  method CountRow(a: seq<Polygon>, b: seq<Polygon>, start: real, y: real, end: real, step: real, ghost g: Grid, ghost j: nat)
    returns (row: nat)
    requires step > 0.0
    requires g.ox == start && g.step == step && y == Along(g.oy, step, j)
    ensures row == |Hits(a, b, g, 0, Steps(start, end, step), j, j + 1)|
  {
    hide InFootprint, Steps, Along, Hits, HitAt;
    ghost var n := Steps(start, end, step);
    var x := start;
    row := 0;
    ghost var i: nat := 0;
    ScanPosition(start, end, step, 0);
    NoHits(a, b, g, j);
    while x < end
      invariant i <= n && x == Along(start, step, i)
      invariant i < n <==> x < end
      invariant row == |Hits(a, b, g, 0, i, j, j + 1)|
      decreases n - i
    {
      var hit := PointInFootprint(x, y, a);
      if hit {
        hit := PointInFootprint(x, y, b);
      }
      HitMeans(a, b, g, i, j);
      RowGrows(a, b, g, i, j);
      ScanPosition(start, end, step, i);
      if hit {
        row := row + 1;
      }
      x := x + step;
      i := i + 1;
    }
  }

  /** The outer loop of the sampler, over the rows. */
  method SampleOverlap(a: seq<Polygon>, b: seq<Polygon>, step: real) returns (area: real)
    requires a != [] ==> ExteriorPoints(a) != []
    requires b != [] ==> ExteriorPoints(b) != []
    requires step > 0.0
    ensures area == Cells(OverlapHits(a, b, step), step)
  {
    hide InFootprint, Bbox, ExteriorPoints, Steps, Along, Hits, HitAt, Offset, Cells;
    NoCells(step);
    if a == [] || b == [] {
      return 0.0;
    }
    var w := Intersect(Bbox(ExteriorPoints(a)), Bbox(ExteriorPoints(b)));
    if w.x1 <= w.x0 || w.y1 <= w.y0 {
      return 0.0;
    }
    ghost var g := SampleGrid(w, step);
    ghost var n, m := Steps(g.ox, w.x1, step), Steps(g.oy, w.y1, step);
    var hits := 0;
    var y := w.y0 + Offset(step);
    ghost var j: nat := 0;
    ScanPosition(g.oy, w.y1, step, 0);
    NoRows(a, b, g, n);
    while y < w.y1
      invariant j <= m && y == Along(g.oy, step, j)
      invariant j < m <==> y < w.y1
      invariant hits == |Hits(a, b, g, 0, n, 0, j)|
      decreases m - j
    {
      var row := CountRow(a, b, w.x0 + Offset(step), y, w.x1, step, g, j);
      RowsAdd(a, b, g, n, j);
      ScanPosition(g.oy, w.y1, step, j);
      hits := hits + row;
      y := y + step;
      j := j + 1;
    }
    return Cells(hits, step);
  }

  lemma HitMeans(a: seq<Polygon>, b: seq<Polygon>, g: Grid, i: int, j: int)
    ensures HitAt(a, b, g, i, j) ==
            (InFootprint(Along(g.ox, g.step, i), Along(g.oy, g.step, j), a)
             && InFootprint(Along(g.ox, g.step, i), Along(g.oy, g.step, j), b))
  {
  }

  /** Where the scan of one axis stands after i steps, and whether it goes on. */
  lemma ScanPosition(origin: real, hi: real, step: real, i: nat)
    requires step > 0.0
    ensures Along(origin, step, 0) == origin
    ensures Along(origin, step, i + 1) == Along(origin, step, i) + step
    ensures i < Steps(origin, hi, step) <==> Along(origin, step, i) < hi
    ensures i + 1 < Steps(origin, hi, step) <==> Along(origin, step, i + 1) < hi
  {
    StepAlong(origin, step, i);
    hide Along, Steps;
    StepsReach(origin, hi, step, i);
    StepsReach(origin, hi, step, i + 1);
  }

  lemma NoHits(a: seq<Polygon>, b: seq<Polygon>, g: Grid, j: nat)
    ensures |Hits(a, b, g, 0, 0, j, j + 1)| == 0
  {
    assert Hits(a, b, g, 0, 0, j, j + 1) == {};
  }

  lemma NoRows(a: seq<Polygon>, b: seq<Polygon>, g: Grid, n: nat)
    ensures |Hits(a, b, g, 0, n, 0, 0)| == 0
  {
    assert Hits(a, b, g, 0, n, 0, 0) == {};
  }

  function HitOrNot(a: seq<Polygon>, b: seq<Polygon>, g: Grid, i: int, j: int): set<(int, int)> {
    if HitAt(a, b, g, i, j) then {(i, j)} else {}
  }

  lemma ColumnSplits(a: seq<Polygon>, b: seq<Polygon>, g: Grid, i: nat, j: nat)
    ensures Hits(a, b, g, 0, i + 1, j, j + 1) == Hits(a, b, g, 0, i, j, j + 1) + HitOrNot(a, b, g, i, j)
    ensures Hits(a, b, g, 0, i, j, j + 1) !! HitOrNot(a, b, g, i, j)
  {
    hide HitAt;
  }

  lemma RowSplits(a: seq<Polygon>, b: seq<Polygon>, g: Grid, n: nat, j: nat)
    ensures Hits(a, b, g, 0, n, 0, j + 1) == Hits(a, b, g, 0, n, 0, j) + Hits(a, b, g, 0, n, j, j + 1)
    ensures Hits(a, b, g, 0, n, 0, j) !! Hits(a, b, g, 0, n, j, j + 1)
  {
    hide HitAt;
  }

  lemma RowGrows(a: seq<Polygon>, b: seq<Polygon>, g: Grid, i: nat, j: nat)
    ensures |Hits(a, b, g, 0, i + 1, j, j + 1)|
         == |Hits(a, b, g, 0, i, j, j + 1)| + (if HitAt(a, b, g, i, j) then 1 else 0)
  {
    hide HitAt, Hits;
    ColumnSplits(a, b, g, i, j);
  }

  lemma RowsAdd(a: seq<Polygon>, b: seq<Polygon>, g: Grid, n: nat, j: nat)
    ensures |Hits(a, b, g, 0, n, 0, j + 1)| == |Hits(a, b, g, 0, n, 0, j)| + |Hits(a, b, g, 0, n, j, j + 1)|
  {
    hide Hits;
    RowSplits(a, b, g, n, j);
  }

  // ---------------------------------------------------------------- what the sampler sees

  /** A point of both footprints that a hole of the first puts outside the first's box. */
  predicate Escapes(a: seq<Polygon>, b: seq<Polygon>, x: real, y: real)
    requires ExteriorPoints(a) != []
  {
    !Scans(Bbox(ExteriorPoints(a)), x, y) && InOddHoles(x, y, a) && InFootprint(x, y, b)
  }

  predicate Missed(a: seq<Polygon>, b: seq<Polygon>, x: real, y: real)
    requires ExteriorPoints(a) != [] && ExteriorPoints(b) != []
  {
    Escapes(a, b, x, y) || Escapes(b, a, x, y)
  }

  /** No hole of either footprint reaches out of its box over a point of the other. */
  ghost predicate NothingMissed(a: seq<Polygon>, b: seq<Polygon>)
    requires ExteriorPoints(a) != [] && ExteriorPoints(b) != []
  {
    forall x: real, y: real :: !Missed(a, b, x, y)
  }

  /** A point of both footprints is outside the scanned window exactly when a hole put it there. */
  lemma MissedIsUnscanned(a: seq<Polygon>, b: seq<Polygon>, x: real, y: real)
    requires ExteriorPoints(a) != [] && ExteriorPoints(b) != []
    ensures Missed(a, b, x, y) <==> InFootprint(x, y, a) && InFootprint(x, y, b) && !Scans(Window(a, b), x, y)
  {
    var boxA, boxB := Bbox(ExteriorPoints(a)), Bbox(ExteriorPoints(b));
    hide InFootprint, InOddHoles, Bbox, ExteriorPoints;
    if !Scans(boxA, x, y) {
      OutsideBoxHolesDecide(a, x, y);
    }
    if !Scans(boxB, x, y) {
      OutsideBoxHolesDecide(b, x, y);
    }
  }

  /** Every point of both footprints lies in the scanned window if and only if no hole reaches out of its box
    * over a point of the other footprint. */
  lemma CommonPointsAreScanned(a: seq<Polygon>, b: seq<Polygon>)
    requires ExteriorPoints(a) != [] && ExteriorPoints(b) != []
    ensures (forall x: real, y: real :: InFootprint(x, y, a) && InFootprint(x, y, b) ==> Scans(Window(a, b), x, y))
       <==> NothingMissed(a, b)
  {
    hide InFootprint, Missed, Window, Scans, ExteriorPoints;
    forall x: real, y: real
      ensures Missed(a, b, x, y) <==> InFootprint(x, y, a) && InFootprint(x, y, b) && !Scans(Window(a, b), x, y)
    {
      MissedIsUnscanned(a, b, x, y);
    }
  }

  /** When the holes of both footprints stay in their boxes, nothing is missed. */
  lemma HolesInBoxMissNothing(a: seq<Polygon>, b: seq<Polygon>)
    requires ExteriorPoints(a) != [] && ExteriorPoints(b) != []
    requires HolesStayIn(a) && HolesStayIn(b)
    ensures NothingMissed(a, b)
  {
    hide InFootprint, InOddHoles, Bbox, ExteriorPoints, Scans;
  }

  /** On the grid, the scanned indices are exactly those of the sample points in the half-open range. */
  lemma ScannedIndices(lo: real, hi: real, step: real, i: int)
    requires step > 0.0
    ensures 0 <= i < Steps(lo + Offset(step), hi, step) <==> lo <= Along(lo + Offset(step), step, i) < hi
  {
    if lo <= Along(lo + Offset(step), step, i) < hi {
      ScannedIndex(lo, hi, step, i);
    } else if i >= 0 {
      StepsReach(lo + Offset(step), hi, step, i);
      assert i as real * step >= 0.0;
    }
  }

  /** What the scan counts of a larger part of the grid: the hits in the window. */
  lemma ScannedHits(a: seq<Polygon>, b: seq<Polygon>, step: real, i: int, j: int)
    requires ExteriorPoints(a) != [] && ExteriorPoints(b) != [] && step > 0.0
    ensures var w := Window(a, b); var g := SampleGrid(w, step);
            Scans(w, Along(g.ox, step, i), Along(g.oy, step, j))
              == (0 <= i < Steps(g.ox, w.x1, step) && 0 <= j < Steps(g.oy, w.y1, step))
  {
    hide Window, ExteriorPoints, Steps, Along, Offset;
    var w := Window(a, b);
    ScannedIndices(w.x0, w.x1, step, i);
    ScannedIndices(w.y0, w.y1, step, j);
  }

  lemma {:induction false} SubsetOfSameSize(less: set<(int, int)>, more: set<(int, int)>)
    requires less <= more
    ensures |less| == |more| <==> less == more
  {
    assert more == less + (more - less);
  }

  /** Where nothing is scanned nothing is counted, and otherwise the scan counts its window of the grid. */
  lemma OverlapHitsAre(a: seq<Polygon>, b: seq<Polygon>, step: real)
    requires ExteriorPoints(a) != [] && ExteriorPoints(b) != [] && step > 0.0
    ensures var w := Window(a, b); var g := SampleGrid(w, step);
            OverlapHits(a, b, step) == |Hits(a, b, g, 0, Steps(g.ox, w.x1, step), 0, Steps(g.oy, w.y1, step))|
  {
    assert a != [] && b != [];
    hide HitAt, Window, ExteriorPoints;
    var w := Window(a, b);
    var g := SampleGrid(w, step);
    if w.x1 <= w.x0 || w.y1 <= w.y0 {
      assert Offset(step) > 0.0;
      assert Hits(a, b, g, 0, Steps(g.ox, w.x1, step), 0, Steps(g.oy, w.y1, step)) == {};
    }
  }

  /** No sample point of this part of the grid is missed. */
  ghost predicate NoSampleMissed(a: seq<Polygon>, b: seq<Polygon>, g: Grid, i0: int, i1: int, j0: int, j1: int)
    requires ExteriorPoints(a) != [] && ExteriorPoints(b) != []
  {
    forall i: int, j: int :: i0 <= i < i1 && j0 <= j < j1 ==> !Missed(a, b, Along(g.ox, g.step, i), Along(g.oy, g.step, j))
  }

  /** The bounding-box reject loses nothing, and exactly when: on the same grid, a larger window, reaching as
    * far as one likes in every direction, finds as many sample points as the scan if and only if no sample
    * point of that window is missed. */
  lemma RejectLosesNothing(a: seq<Polygon>, b: seq<Polygon>, step: real, i0: int, i1: int, j0: int, j1: int)
    requires ExteriorPoints(a) != [] && ExteriorPoints(b) != [] && step > 0.0
    requires var w := Window(a, b); var g := SampleGrid(w, step);
             i0 <= 0 && j0 <= 0 && Steps(g.ox, w.x1, step) <= i1 && Steps(g.oy, w.y1, step) <= j1
    ensures var g := SampleGrid(Window(a, b), step);
            (|Hits(a, b, g, i0, i1, j0, j1)| == OverlapHits(a, b, step)) == NoSampleMissed(a, b, g, i0, i1, j0, j1)
  {
    hide InFootprint, Window, ExteriorPoints, Steps, Missed, Along, Scans;
    var w := Window(a, b);
    var g := SampleGrid(w, step);
    var n, m := Steps(g.ox, w.x1, step), Steps(g.oy, w.y1, step);
    OverlapHitsAre(a, b, step);
    forall i: int, j: int
      ensures Missed(a, b, Along(g.ox, step, i), Along(g.oy, step, j))
         <==> HitAt(a, b, g, i, j) && !(0 <= i < n && 0 <= j < m)
    {
      ScannedHits(a, b, step, i, j);
      MissedIsUnscanned(a, b, Along(g.ox, step, i), Along(g.oy, step, j));
    }
    hide HitAt, OverlapHits, SampleGrid;
    SubsetOfSameSize(Hits(a, b, g, 0, n, 0, m), Hits(a, b, g, i0, i1, j0, j1));
    HitsBeyond(a, b, g, n, m, i0, i1, j0, j1);
  }

  lemma HitsBeyond(a: seq<Polygon>, b: seq<Polygon>, g: Grid, n: nat, m: nat, i0: int, i1: int, j0: int, j1: int)
    requires i0 <= 0 && j0 <= 0 && n <= i1 && m <= j1
    ensures Hits(a, b, g, 0, n, 0, m) <= Hits(a, b, g, i0, i1, j0, j1)
    ensures Hits(a, b, g, 0, n, 0, m) == Hits(a, b, g, i0, i1, j0, j1)
       <==> forall i: int, j: int :: i0 <= i < i1 && j0 <= j < j1 ==> !(HitAt(a, b, g, i, j) && !(0 <= i < n && 0 <= j < m))
  {
    hide HitAt;
    var less, more := Hits(a, b, g, 0, n, 0, m), Hits(a, b, g, i0, i1, j0, j1);
    forall i: int, j: int | i0 <= i < i1 && j0 <= j < j1 && HitAt(a, b, g, i, j) && !(0 <= i < n && 0 <= j < m)
      ensures (i, j) in more && (i, j) !in less
    {
    }
  }

  lemma IndexScale(i: int, step: real) returns (s: real)
    requires step > 0.0
    ensures s == i as real * step
    ensures i < 0 ==> s <= -step
  {
    s := i as real * step;
    assert (i + 1) as real * step == s + step;
    assert i < 0 ==> (i + 1) as real * step <= 0.0;
  }

  lemma ScannedIndex(lo: real, hi: real, step: real, i: int)
    requires step > 0.0
    requires lo <= Along(lo + Offset(step), step, i) < hi
    ensures 0 <= i < Steps(lo + Offset(step), hi, step)
  {
    var d := Offset(step);
    assert d < step;
    var s := IndexScale(i, step);
    hide Steps;
    if i >= 0 {
      StepsReach(lo + d, hi, step, i);
    }
  }

  /** Where the sampler answers 0 without sampling, no point is in both footprints if and only if nothing is
    * missed. */
  lemma EarlyZeroIsExact(a: seq<Polygon>, b: seq<Polygon>)
    requires ExteriorPoints(a) != [] && ExteriorPoints(b) != []
    requires var w := Window(a, b); w.x1 <= w.x0 || w.y1 <= w.y0
    ensures (forall x: real, y: real :: !(InFootprint(x, y, a) && InFootprint(x, y, b))) <==> NothingMissed(a, b)
  {
    CommonPointsAreScanned(a, b);
    hide InFootprint, Missed, Bbox, ExteriorPoints;
  }

  lemma OverlapIsSymmetric(a: seq<Polygon>, b: seq<Polygon>, step: real)
    requires a != [] ==> ExteriorPoints(a) != []
    requires b != [] ==> ExteriorPoints(b) != []
    requires step > 0.0
    ensures OverlapHits(a, b, step) == OverlapHits(b, a, step)
  {
    hide InFootprint, Bbox, ExteriorPoints, Steps;
    if a != [] && b != [] {
      assert Window(a, b) == Window(b, a);
      hide Window;
      var w := Window(a, b);
      var g := SampleGrid(w, step);
      var n, m := Steps(g.ox, w.x1, step), Steps(g.oy, w.y1, step);
      assert Hits(a, b, g, 0, n, 0, m) == Hits(b, a, g, 0, n, 0, m);
    }
  }

  // ---------------------------------------------------------------- a hole outside the box

  lemma FourCornerCrossings(p: Point, q: Point, r: Point, s: Point, x: real, y: real)
    ensures RingCrossings([p, q, r, s], x, y)
         == Toggle(p, q, x, y) + Toggle(q, r, x, y) + Toggle(r, s, x, y) + Toggle(s, p, x, y)
  {
    hide Toggle;
    var walk := Closed([p, q, r, s]);
    assert walk == [p] + [q] + [r, s, p];
    assert [q] + [r, s, p] == [q] + [r] + [s, p];
    assert [r] + [s, p] == [r] + [s] + [p];
    assert [p] + [q] == [p, q] && [q] + [r] == [q, r] && [r] + [s] == [r, s] && [s] + [p] == [s, p];
    hide PathCrossings, Closed;
    JoinCrossings([p], q, [r, s, p], x, y);
    JoinCrossings([q], r, [s, p], x, y);
    JoinCrossings([r], s, [p], x, y);
    OneEdgeCrossings(p, q, x, y);
    OneEdgeCrossings(q, r, x, y);
    OneEdgeCrossings(r, s, x, y);
    OneEdgeCrossings(s, p, x, y);
  }

  function Square(lo: real, hi: real): Ring {
    [Point(lo, lo), Point(hi, lo), Point(hi, hi), Point(lo, hi)]
  }

  lemma CentreIsInSquare()
    ensures RingCrossings(Square(10.0, 12.0), 11.0, 11.0) == 1
  {
    var p, q, r, s := Point(10.0, 10.0), Point(12.0, 10.0), Point(12.0, 12.0), Point(10.0, 12.0);
    FourCornerCrossings(p, q, r, s, 11.0, 11.0);
    hide RingCrossings;
    assert Meet(q, r, 11.0) == 12.0;
    assert Meet(s, p, 11.0) == 10.0;
  }

  lemma OneExterior(poly: Polygon)
    ensures ExteriorPoints([poly]) == poly.exterior
  {
    assert [poly][1..] == [];
  }

  /** The failing side occurs: a "hole" drawn away from its exterior counts as inside by the even-odd rule, in
    * both footprints, and is never scanned. */
  lemma HoleOutsideBoxIsMissed()
    ensures var polys := [Polygon(Square(0.0, 1.0), [Square(10.0, 12.0)])];
            && ExteriorPoints(polys) != []
            && Missed(polys, polys, 11.0, 11.0) && !NothingMissed(polys, polys) && !HolesStayIn(polys)
            && InFootprint(11.0, 11.0, polys) && !Scans(Window(polys, polys), 11.0, 11.0)
  {
    hide RingCrossings, CrossingsOf, Bbox, ExteriorPoints, InFootprint;
    var outer, hole := Square(0.0, 1.0), Square(10.0, 12.0);
    var poly := Polygon(outer, [hole]);
    var polys := [poly];
    CentreIsInSquare();
    OneRing(hole, 11.0, 11.0);
    OneExterior(poly);
    BoxOfCorners(outer);
    assert CrossingsOf(polys[0].holes, 11.0, 11.0) % 2 == 1;
    assert InOddHoles(11.0, 11.0, polys);
    OutsideBoxHolesDecide(polys, 11.0, 11.0);
    MissedIsUnscanned(polys, polys, 11.0, 11.0);
  }

  lemma OneRing(ring: Ring, x: real, y: real)
    ensures CrossingsOf([ring], x, y) == RingCrossings(ring, x, y)
  {
    hide RingCrossings;
    FirstRing(ring, [], x, y);
    assert [ring] + [] == [ring];
  }

  lemma BoxOfCorners(points: seq<Point>)
    requires points == Square(0.0, 1.0)
    ensures Bbox(points).x1 <= 1.0
  {
    var p :| p in points && p.x == Bbox(points).x1;
  }
}
