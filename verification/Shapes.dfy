/** What the area, the point test and the sampler say of triangles and rectangles, in plain terms. Cutting a ring
  * adds areas and splits insides, so this fixes what they say of every ring.
  */
module Shapes {

  import opened Geometry
  import opened RingChecks
  import opened Sampler

  // ---------------------------------------------------------------- area

  lemma ThreeEdgeShoelace(a: Point, b: Point, c: Point)
    ensures PathShoelace(Closed([a, b, c])) == Shoelace(a, b) + Shoelace(b, c) + Shoelace(c, a)
  {
    hide Shoelace;
    assert Closed([a, b, c]) == [a] + [b] + [c, a];
    assert [b] + [c, a] == [b] + [c] + [a];
    assert [a] + [b] == [a, b] && [b] + [c] == [b, c] && [c] + [a] == [c, a];
    hide PathShoelace, Closed;
    JoinShoelace([a], b, [c, a]);
    JoinShoelace([b], c, [a]);
    OneEdgeShoelace(a, b);
    OneEdgeShoelace(b, c);
    OneEdgeShoelace(c, a);
  }

  lemma FourEdgeShoelace(a: Point, b: Point, c: Point, d: Point)
    ensures PathShoelace(Closed([a, b, c, d])) == Shoelace(a, b) + Shoelace(b, c) + Shoelace(c, d) + Shoelace(d, a)
  {
    hide Shoelace;
    assert Closed([a, b, c, d]) == [a] + [b] + [c, d, a];
    assert [b] + [c, d, a] == [b] + [c] + [d, a];
    assert [c] + [d, a] == [c] + [d] + [a];
    assert [a] + [b] == [a, b] && [b] + [c] == [b, c] && [c] + [d] == [c, d] && [d] + [a] == [d, a];
    hide PathShoelace, Closed;
    JoinShoelace([a], b, [c, d, a]);
    JoinShoelace([b], c, [d, a]);
    JoinShoelace([c], d, [a]);
    OneEdgeShoelace(a, b);
    OneEdgeShoelace(b, c);
    OneEdgeShoelace(c, d);
    OneEdgeShoelace(d, a);
  }

  lemma TriangleSum(a: Point, b: Point, c: Point)
    ensures Shoelace(a, b) + Shoelace(b, c) + Shoelace(c, a) == Cross(a, b, c)
  {
    assert (b.x - a.x) * (c.y - a.y) == b.x * c.y - b.x * a.y - a.x * c.y + a.x * a.y;
    assert (b.y - a.y) * (c.x - a.x) == b.y * c.x - b.y * a.x - a.y * c.x + a.y * a.x;
  }

  /** The area of a triangle is half the turn of its corners. */
  lemma TriangleArea(a: Point, b: Point, c: Point)
    ensures SignedArea([a, b, c]) == Cross(a, b, c) / 2.0
  {
    ThreeEdgeShoelace(a, b, c);
    TriangleSum(a, b, c);
    hide Shoelace, Cross, PathShoelace;
  }

  /** An axis-parallel rectangle, walked counter-clockwise from its lower left corner. */
  function Rectangle(x0: real, y0: real, x1: real, y1: real): Ring {
    [Point(x0, y0), Point(x1, y0), Point(x1, y1), Point(x0, y1)]
  }

  /** The area of a rectangle is its width times its height. */
  lemma RectangleArea(x0: real, y0: real, w: real, h: real)
    ensures SignedArea(Rectangle(x0, y0, x0 + w, y0 + h)) == w * h
  {
    var a, b, c, d := Point(x0, y0), Point(x0 + w, y0), Point(x0 + w, y0 + h), Point(x0, y0 + h);
    FourEdgeShoelace(a, b, c, d);
    RectangleSum(x0, y0, w, h);
    hide PathShoelace;
  }

  lemma RectangleSum(x0: real, y0: real, w: real, h: real)
    ensures var a, b, c, d := Point(x0, y0), Point(x0 + w, y0), Point(x0 + w, y0 + h), Point(x0, y0 + h);
            Shoelace(a, b) + Shoelace(b, c) + Shoelace(c, d) + Shoelace(d, a) == 2.0 * (w * h)
  {
    var a, b, c, d := Point(x0, y0), Point(x0 + w, y0), Point(x0 + w, y0 + h), Point(x0, y0 + h);
    assert Shoelace(a, b) == -(w * y0);
    assert Shoelace(b, c) == x0 * h + w * h;
    assert (x0 + w) * (y0 + h) == x0 * y0 + x0 * h + w * y0 + w * h;
    assert Shoelace(c, d) == w * y0 + w * h;
    assert Shoelace(d, a) == -(x0 * h);
  }

  // ---------------------------------------------------------------- inside a triangle

  /** The ray crosses an edge that spans its height exactly when the point is on the edge's inner side: to the left
    * of one that goes up, to the right of one that goes down. */
  lemma ToggleIsSide(p: Point, q: Point, x: real, y: real)
    ensures p.y <= y < q.y ==> (Toggle(p, q, x, y) == 1 <==> Cross(p, q, Point(x, y)) > 0.0)
    ensures q.y <= y < p.y ==> (Toggle(p, q, x, y) == 1 <==> Cross(p, q, Point(x, y)) < 0.0)
    ensures !(p.y <= y < q.y) && !(q.y <= y < p.y) ==> Toggle(p, q, x, y) == 0
    ensures Toggle(p, q, x, y) in {0, 1}
  {
    if p.y != q.y {
      MeetLaw(p, q, y);
      var m, h := Meet(p, q, y), q.y - p.y;
      SideOfMeet(m, x, h);
      assert Cross(p, q, Point(x, y)) == (y - p.y) * (q.x - p.x) - h * (x - p.x);
      assert (m - p.x) * h - h * (x - p.x) == (m - x) * h;
    }
    hide Cross, Meet;
  }

  lemma SideOfMeet(m: real, x: real, h: real)
    requires h != 0.0
    ensures h > 0.0 ==> ((m - x) * h > 0.0 <==> x < m)
    ensures h < 0.0 ==> ((m - x) * h < 0.0 <==> x < m)
  {
    var d := m - x;
    if h > 0.0 {
      assert d > 0.0 ==> d * h > 0.0;
      assert d <= 0.0 ==> d * h <= 0.0;
    } else {
      assert d > 0.0 ==> d * -h > 0.0;
      assert d <= 0.0 ==> d * -h <= 0.0;
      assert d * -h == -(d * h);
    }
  }

  lemma TriangleCrossings(a: Point, b: Point, c: Point, x: real, y: real)
    ensures RingCrossings([a, b, c], x, y) == Toggle(a, b, x, y) + Toggle(b, c, x, y) + Toggle(c, a, x, y)
  {
    hide Toggle;
    assert Closed([a, b, c]) == [a] + [b] + [c, a];
    assert [b] + [c, a] == [b] + [c] + [a];
    assert [a] + [b] == [a, b] && [b] + [c] == [b, c] && [c] + [a] == [c, a];
    hide PathCrossings, Closed;
    JoinCrossings([a], b, [c, a], x, y);
    JoinCrossings([b], c, [a], x, y);
    OneEdgeCrossings(a, b, x, y);
    OneEdgeCrossings(b, c, x, y);
    OneEdgeCrossings(c, a, x, y);
  }

  /** The turns at the three edges weigh the corners into the point. */
  lemma TurnsWeighCorners(a: Point, b: Point, c: Point, p: Point) returns (u: real, v: real, w: real)
    ensures u == Cross(b, c, p) * (a.y - p.y) && v == Cross(c, a, p) * (b.y - p.y) && w == Cross(a, b, p) * (c.y - p.y)
    ensures u + v + w == 0.0
    ensures Cross(b, c, p) + Cross(c, a, p) + Cross(a, b, p) == Cross(a, b, c)
  {
    var ax, ay, bx, by_, cx, cy := a.x - p.x, a.y - p.y, b.x - p.x, b.y - p.y, c.x - p.x, c.y - p.y;
    CrossFrom(b, c, p);
    CrossFrom(c, a, p);
    CrossFrom(a, b, p);
    CrossSum(a, b, c, p);
    u, v, w := Cross(b, c, p) * ay, Cross(c, a, p) * by_, Cross(a, b, p) * cy;
    WeightsVanish(ax, ay, bx, by_, cx, cy);
    hide Cross;
  }

  lemma CrossFrom(p: Point, q: Point, o: Point)
    ensures Cross(p, q, o) == (p.x - o.x) * (q.y - o.y) - (q.x - o.x) * (p.y - o.y)
  {
    var px, py, qx, qy := p.x - o.x, p.y - o.y, q.x - o.x, q.y - o.y;
    assert q.x - p.x == qx - px && q.y - p.y == qy - py;
    assert (qx - px) * -py == px * py - qx * py;
    assert (qy - py) * -px == px * py - qy * px;
  }

  lemma CrossSum(a: Point, b: Point, c: Point, p: Point)
    ensures Cross(b, c, p) + Cross(c, a, p) + Cross(a, b, p) == Cross(a, b, c)
  {
  }

  lemma WeightsVanish(ax: real, ay: real, bx: real, by_: real, cx: real, cy: real)
    ensures (bx * cy - cx * by_) * ay + (cx * ay - ax * cy) * by_ + (ax * by_ - bx * ay) * cy == 0.0
  {
    assert (bx * cy - cx * by_) * ay == bx * cy * ay - cx * by_ * ay;
    assert (cx * ay - ax * cy) * by_ == cx * ay * by_ - ax * cy * by_;
    assert (ax * by_ - bx * ay) * cy == ax * by_ * cy - bx * ay * cy;
  }

  lemma Signs(t: real, d: real, product: real)
    requires product == t * d
    ensures t > 0.0 && d > 0.0 ==> product > 0.0
    ensures t > 0.0 && d < 0.0 ==> product < 0.0
    ensures t >= 0.0 && d >= 0.0 ==> product >= 0.0
    ensures t >= 0.0 && d <= 0.0 ==> product <= 0.0
    ensures t < 0.0 && d > 0.0 ==> product < 0.0
    ensures t < 0.0 && d < 0.0 ==> product > 0.0
    ensures d == 0.0 ==> product == 0.0
  {
    if t > 0.0 && d < 0.0 { assert t * -d > 0.0; }
    if t < 0.0 && d > 0.0 { assert -t * d > 0.0; }
    if t < 0.0 && d < 0.0 { assert -t * -d > 0.0; }
    if t >= 0.0 && d <= 0.0 { assert t * -d >= 0.0; }
  }

  /** What ToggleIsSide says, of heights and a turn. */
  predicate Sided(from: real, into: real, y: real, turn: real, toggle: int) {
    && (from <= y < into ==> (toggle == 1 <==> turn > 0.0))
    && (into <= y < from ==> (toggle == 1 <==> turn < 0.0))
    && (!(from <= y < into) && !(into <= y < from) ==> toggle == 0)
    && 0 <= toggle <= 1
  }

  /** Corners at heights a, b and c over the point, weighed by the turns of the opposite edges. */
  lemma TriangleParity(a: real, b: real, c: real, r: real, s: real, t: real, ab: int, bc: int, ca: int)
    requires r * a + s * b + t * c == 0.0 && r + s + t > 0.0
    requires a == 0.0 && b == 0.0 ==> t == 0.0
    requires Sided(a, b, 0.0, t, ab) && Sided(b, c, 0.0, r, bc) && Sided(c, a, 0.0, s, ca)
    ensures r > 0.0 && s > 0.0 && t > 0.0 ==> (ab + bc + ca) % 2 == 1
    ensures (ab + bc + ca) % 2 == 1 ==> r >= 0.0 && s >= 0.0 && t >= 0.0
  {
    Signs(r, a, r * a);
    Signs(s, b, s * b);
    Signs(t, c, t * c);
  }

  lemma LevelTurn(p: Point, q: Point, o: Point)
    ensures p.y == o.y == q.y ==> Cross(p, q, o) == 0.0
  {
    CrossFrom(p, q, o);
    hide Cross;
  }

  lemma SidedEdge(p: Point, q: Point, x: real, y: real)
    ensures Sided(p.y - y, q.y - y, 0.0, Cross(p, q, Point(x, y)), Toggle(p, q, x, y))
  {
    ToggleIsSide(p, q, x, y);
    hide Cross, Toggle;
  }

  /** Of a triangle walked counter-clockwise the point test holds of every point strictly inside, on the left of all
    * three edges, and of none outside, on the right of one. */
  lemma TriangleInside(a: Point, b: Point, c: Point, x: real, y: real)
    requires Cross(a, b, c) > 0.0
    ensures var p := Point(x, y);
            && (Cross(a, b, p) > 0.0 && Cross(b, c, p) > 0.0 && Cross(c, a, p) > 0.0 ==> InRing([a, b, c], x, y))
            && (InRing([a, b, c], x, y) ==> Cross(a, b, p) >= 0.0 && Cross(b, c, p) >= 0.0 && Cross(c, a, p) >= 0.0)
  {
    hide Cross, Toggle, RingCrossings, Sided;
    var p := Point(x, y);
    TriangleCrossings(a, b, c, x, y);
    LevelTurn(a, b, p);
    SidedEdge(a, b, x, y);
    SidedEdge(b, c, x, y);
    SidedEdge(c, a, x, y);
    var u, v, w := TurnsWeighCorners(a, b, c, p);
    TriangleParity(a.y - y, b.y - y, c.y - y, Cross(b, c, p), Cross(c, a, p), Cross(a, b, p),
                   Toggle(a, b, x, y), Toggle(b, c, x, y), Toggle(c, a, x, y));
  }

  /** Walked the other way a triangle holds the same points. */
  lemma TriangleEitherWay(a: Point, b: Point, c: Point, x: real, y: real)
    ensures InRing([a, c, b], x, y) <==> InRing([a, b, c], x, y)
    ensures Cross(a, c, b) == -Cross(a, b, c)
  {
    TriangleCrossings(a, b, c, x, y);
    TriangleCrossings(a, c, b, x, y);
    ToggleIsUndirected(a, b, x, y);
    ToggleIsUndirected(b, c, x, y);
    ToggleIsUndirected(c, a, x, y);
    hide Toggle, RingCrossings;
  }

  // ---------------------------------------------------------------- inside a rectangle

  /** Of a rectangle the test holds exactly of the points from its low sides up to, but without, its high sides. */
  lemma RectangleInside(x0: real, y0: real, x1: real, y1: real, x: real, y: real)
    requires x0 < x1 && y0 < y1
    ensures InRing(Rectangle(x0, y0, x1, y1), x, y) <==> x0 <= x < x1 && y0 <= y < y1
  {
    var a, b, c, d := Point(x0, y0), Point(x1, y0), Point(x1, y1), Point(x0, y1);
    FourCornerCrossings(a, b, c, d, x, y);
    UprightMeet(b, c, y);
    UprightMeet(d, a, y);
    hide Meet, RingCrossings;
  }

  lemma UprightMeet(p: Point, q: Point, y: real)
    requires p.x == q.x && p.y != q.y
    ensures Meet(p, q, y) == p.x
  {
    MeetIsUnique(p, q, y, p.x);
  }

  // ---------------------------------------------------------------- a rectangle sampled

  function Plot(box: Box): seq<Polygon> {
    [Polygon(Rectangle(box.x0, box.y0, box.x1, box.y1), [])]
  }

  predicate Proper(box: Box) { box.x0 < box.x1 && box.y0 < box.y1 }

  lemma InPlot(box: Box, x: real, y: real)
    requires Proper(box)
    ensures InFootprint(x, y, Plot(box)) <==> Scans(box, x, y)
  {
    var ring := Rectangle(box.x0, box.y0, box.x1, box.y1);
    RectangleInside(box.x0, box.y0, box.x1, box.y1, x, y);
    OneRing(ring, x, y);
    assert RingsOf(Plot(box)[0]) == [ring];
    hide RingCrossings, CrossingsOf;
  }

  lemma CornersOf(box: Box, p: Point)
    ensures p in Rectangle(box.x0, box.y0, box.x1, box.y1) <==>
            (p.x == box.x0 || p.x == box.x1) && (p.y == box.y0 || p.y == box.y1)
  {
    var r := Rectangle(box.x0, box.y0, box.x1, box.y1);
    if (p.x == box.x0 || p.x == box.x1) && (p.y == box.y0 || p.y == box.y1) {
      assert p in [r[0], r[1], r[2], r[3]];
    }
  }

  lemma TightBox(points: seq<Point>, b: Box, box: Box)
    requires Proper(box)
    requires forall p :: p in points <==> (p.x == box.x0 || p.x == box.x1) && (p.y == box.y0 || p.y == box.y1)
    requires forall p :: p in points ==> Holds(b, p)
    requires exists p :: p in points && p.x == b.x0
    requires exists p :: p in points && p.y == b.y0
    requires exists p :: p in points && p.x == b.x1
    requires exists p :: p in points && p.y == b.y1
    ensures b == box
  {
    assert Holds(b, Point(box.x0, box.y0)) && Holds(b, Point(box.x1, box.y1));
  }

  lemma PlotBox(box: Box)
    requires Proper(box)
    ensures ExteriorPoints(Plot(box)) != [] && Bbox(ExteriorPoints(Plot(box))) == box
  {
    OneExterior(Plot(box)[0]);
    var points := Rectangle(box.x0, box.y0, box.x1, box.y1);
    hide ExteriorPoints, Bbox, Rectangle, Holds;
    forall p ensures p in points <==> (p.x == box.x0 || p.x == box.x1) && (p.y == box.y0 || p.y == box.y1) { CornersOf(box, p); }
    CornersOf(box, Point(box.x0, box.y0));
    TightBox(points, Bbox(points), box);
  }

  lemma WindowOfPlots(p: Box, q: Box)
    requires Proper(p) && Proper(q)
    ensures ExteriorPoints(Plot(p)) != [] && ExteriorPoints(Plot(q)) != [] && Plot(p) != [] && Plot(q) != []
    ensures Window(Plot(p), Plot(q)) == Intersect(p, q)
  {
    PlotBox(p);
    PlotBox(q);
    hide ExteriorPoints, Bbox, Intersect;
  }

  /** So many whole steps. */
  function Whole(n: nat, step: real): real { n as real * step }

  lemma StepsBound(lo: real, hi: real, step: real)
    requires step > 0.0 && lo < hi
    ensures hi - lo - step < Whole(Steps(lo + Offset(step), hi, step), step) < hi - lo + step
  {
    var d, n := Offset(step), Steps(lo + Offset(step), hi, step);
    assert 0.0 < d < step;
    StepsReach(lo + d, hi, step, n);
    if n > 0 {
      StepsReach(lo + d, hi, step, n - 1);
      StepAlong(lo + d, step, n - 1);
    }
    hide Steps, Offset;
  }

  /** How far a run of steps falls short of, or goes past, the length it samples: less than one step. */
  lemma StepsCover(lo: real, hi: real, step: real) returns (length: real)
    requires step > 0.0 && lo < hi
    ensures length == Whole(Steps(lo + Offset(step), hi, step), step)
    ensures hi - lo - step < length < hi - lo + step
    ensures forall n: nat :: hi - lo == Whole(n, step) ==> length == hi - lo
  {
    hide Steps, Offset;
    var n := Steps(lo + Offset(step), hi, step);
    length := Whole(n, step);
    StepsBound(lo, hi, step);
    forall m: nat | hi - lo == Whole(m, step)
      ensures m == n
    {
      WholeSteps(m, n, step);
    }
  }

  lemma WholeSteps(m: nat, n: nat, step: real)
    requires step > 0.0
    requires Whole(m, step) - step < Whole(n, step) < Whole(m, step) + step
    ensures m == n
  {
    hide Whole;
    if m < n {
      Spaced(m, n, step);
    } else if n < m {
      Spaced(n, m, step);
    }
  }

  lemma Spaced(m: nat, n: nat, step: real)
    requires m < n && step > 0.0
    ensures Whole(n, step) >= Whole(m, step) + step
  {
    var k := n - m - 1;
    assert n as real == m as real + 1.0 + k as real;
    assert k as real * step >= 0.0;
    assert n as real * step == m as real * step + step + k as real * step;
  }

  lemma {:induction false} FullRow(a: seq<Polygon>, b: seq<Polygon>, g: Grid, n: nat, j: nat)
    requires forall i: int :: 0 <= i < n ==> HitAt(a, b, g, i, j)
    ensures |Hits(a, b, g, 0, n, j, j + 1)| == n
  {
    hide HitAt, Hits;
    if n == 0 {
      NoHits(a, b, g, j);
    } else {
      FullRow(a, b, g, n - 1, j);
      RowGrows(a, b, g, n - 1, j);
    }
  }

  lemma {:induction false} FullBlock(a: seq<Polygon>, b: seq<Polygon>, g: Grid, n: nat, m: nat)
    requires forall i: int, j: int :: 0 <= i < n && 0 <= j < m ==> HitAt(a, b, g, i, j)
    ensures |Hits(a, b, g, 0, n, 0, m)| == n * m
  {
    hide HitAt, Hits;
    if m == 0 {
      NoRows(a, b, g, n);
    } else {
      FullBlock(a, b, g, n, m - 1);
      FullRow(a, b, g, n, m - 1);
      RowsAdd(a, b, g, n, m - 1);
      assert n * m == n * (m - 1) + n;
    }
  }

  /** Two rectangles that overlap are sampled as a block of whole cells, less than one step shorter or longer than
    * the rectangle they have in common on either side, and so exactly where its sides are whole steps. */
  lemma SampledRectangles(p: Box, q: Box, step: real) returns (width: real, height: real)
    requires Proper(p) && Proper(q) && Proper(Intersect(p, q)) && step > 0.0
    ensures ExteriorPoints(Plot(p)) != [] && ExteriorPoints(Plot(q)) != []
    ensures Cells(OverlapHits(Plot(p), Plot(q), step), step) == width * height
    ensures var w := Intersect(p, q);
            && w.x1 - w.x0 - step < width < w.x1 - w.x0 + step
            && w.y1 - w.y0 - step < height < w.y1 - w.y0 + step
            && (forall n: nat :: w.x1 - w.x0 == Whole(n, step) ==> width == w.x1 - w.x0)
            && (forall n: nat :: w.y1 - w.y0 == Whole(n, step) ==> height == w.y1 - w.y0)
  {
    hide Steps, Plot, ExteriorPoints, Bbox, OverlapHits, Whole, Offset, Along, Cells, InFootprint, HitAt, Hits, Window, Proper;
    WindowOfPlots(p, q);
    ProperSides(Intersect(p, q));
    var a, b, w := Plot(p), Plot(q), Intersect(p, q);
    hide Intersect;
    width := StepsCover(w.x0, w.x1, step);
    height := StepsCover(w.y0, w.y1, step);
    var n, m := Steps(w.x0 + Offset(step), w.x1, step), Steps(w.y0 + Offset(step), w.y1, step);
    var g := SampleGrid(w, step);
    OverlapHitsAre(a, b, step);
    forall i: int, j: int | 0 <= i < n && 0 <= j < m
      ensures HitAt(a, b, g, i, j)
    {
      CellIsHit(p, q, step, i, j);
    }
    FullBlock(a, b, g, n, m);
    CellsOfBlock(n, m, step);
  }

  lemma ProperSides(box: Box)
    requires Proper(box)
    ensures box.x0 < box.x1 && box.y0 < box.y1
  {
  }

  lemma CellIsHit(p: Box, q: Box, step: real, i: int, j: int)
    requires Proper(p) && Proper(q) && step > 0.0
    requires var w := Intersect(p, q); var g := SampleGrid(w, step);
             0 <= i < Steps(g.ox, w.x1, step) && 0 <= j < Steps(g.oy, w.y1, step)
    ensures HitAt(Plot(p), Plot(q), SampleGrid(Intersect(p, q), step), i, j)
  {
    hide Steps, Plot, ExteriorPoints, Window, Along, InFootprint;
    WindowOfPlots(p, q);
    var w := Intersect(p, q);
    var g := SampleGrid(w, step);
    ScannedHits(Plot(p), Plot(q), step, i, j);
    InPlot(p, Along(g.ox, step, i), Along(g.oy, step, j));
    InPlot(q, Along(g.ox, step, i), Along(g.oy, step, j));
  }

  lemma CellsOfBlock(n: nat, m: nat, step: real)
    ensures Cells(n * m, step) == Whole(n, step) * Whole(m, step)
  {
    assert (n * m) as real == n as real * m as real;
  }
}
