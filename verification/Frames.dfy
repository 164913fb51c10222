/** Frames: which are kept and in what normal form, and the map of the plane a kept frame stands for.
  * Exact reals; the sine and cosine of the turn are any pair on the unit circle.
  */
module Frames {

  import opened Geometry
  import opened Wrappers

  datatype Frame = Frame(dxMm: real, dyMm: real, rotateDeg: real, sx: real, sy: real)

  const MIN_SCALE: real := 0.2
  const MAX_SCALE: real := 5.0
  const MAX_FRAME_MOVE_MM: real := 200000.0

  function Abs(x: real): real { if x < 0.0 then -x else x }

  // ---------------------------------------------------------------- checking a box

  /** Whole turns in an angle, dropping the fraction towards zero. */
  function WholeTurns(deg: real): int {
    if deg >= 0.0 then (deg / 360.0).Floor else -((-deg / 360.0).Floor)
  }

  /** The remainder of a floating-point `%`: it has the sign of the angle. */
  function Remainder(deg: real): real {
    deg - 360.0 * WholeTurns(deg) as real
  }

  function Wrapped(deg: real): real {
    var r := Remainder(deg);
    if r > 180.0 then r - 360.0
    else if r <= -180.0 then r + 360.0
    else r
  }

  datatype Refusal = TooFar | Stretched

  function Checked(f: Frame): Result<Frame, Refusal> {
    if Abs(f.dxMm) > MAX_FRAME_MOVE_MM || Abs(f.dyMm) > MAX_FRAME_MOVE_MM then Err(TooFar)
    else if !(MIN_SCALE <= f.sx <= MAX_SCALE) || !(MIN_SCALE <= f.sy <= MAX_SCALE) then Err(Stretched)
    else Ok(f.(rotateDeg := Wrapped(f.rotateDeg)))
  }

  function FullTurns(turns: int): real { 360.0 * turns as real }

  ghost predicate SameDirection(a: real, b: real) {
    exists turns: int :: a - b == FullTurns(turns)
  }

  lemma RemainderIsShort(deg: real)
    ensures -360.0 < Remainder(deg) < 360.0
  {
    if deg >= 0.0 {
      var q := deg / 360.0;
      assert q.Floor as real <= q < q.Floor as real + 1.0;
    } else {
      var q := -deg / 360.0;
      assert q.Floor as real <= q < q.Floor as real + 1.0;
    }
  }

  /** The kept angle is the one angle in (-180, 180] that points the same way as the given one. */
  lemma WrappedIsTheAngle(deg: real, other: real)
    ensures -180.0 < Wrapped(deg) <= 180.0 && SameDirection(deg, Wrapped(deg))
    ensures -180.0 < other <= 180.0 && SameDirection(deg, other) ==> other == Wrapped(deg)
  {
    RemainderIsShort(deg);
    var n := WholeTurns(deg);
    var r := Remainder(deg);
    var kept := if r > 180.0 then n + 1 else if r <= -180.0 then n - 1 else n;
    assert deg - Wrapped(deg) == FullTurns(kept);
    if -180.0 < other <= 180.0 && SameDirection(deg, other) {
      var turns :| deg - other == FullTurns(turns);
      assert other - Wrapped(deg) == 360.0 * (kept - turns) as real;
      assert kept - turns == 0;
    }
  }

  /** A box is kept iff it is in range; keeping it changes nothing but the turn, which is wrapped, and
    * checking what is kept changes nothing more. */
  lemma CheckedBox(f: Frame)
    ensures Checked(f).Ok? <==>
            && -MAX_FRAME_MOVE_MM <= f.dxMm <= MAX_FRAME_MOVE_MM && -MAX_FRAME_MOVE_MM <= f.dyMm <= MAX_FRAME_MOVE_MM
            && MIN_SCALE <= f.sx <= MAX_SCALE && MIN_SCALE <= f.sy <= MAX_SCALE
    ensures Checked(f).Ok? ==>
            var g := Checked(f).value;
            && g == f.(rotateDeg := g.rotateDeg)
            && -180.0 < g.rotateDeg <= 180.0 && SameDirection(f.rotateDeg, g.rotateDeg)
            && Checked(g) == Ok(g)
  {
    WrappedIsTheAngle(f.rotateDeg, 0.0);
    var kept := Wrapped(f.rotateDeg);
    WrappedIsTheAngle(kept, kept);
    assert kept - kept == FullTurns(0);
    hide Wrapped;
  }

  // ---------------------------------------------------------------- placing points

  /** Scale about `c0`, turn, and carry `c0` to `centre`. */
  function Place(f: Frame, p: Point, c0: Point, centre: Point, sin: real, cos: real): Point {
    var x, y := (p.x - c0.x) * f.sx, (p.y - c0.y) * f.sy;
    Point(centre.x + x * cos - y * sin, centre.y + x * sin + y * cos)
  }

  function PlaceRing(f: Frame, ring: Ring, c0: Point, centre: Point, sin: real, cos: real): (placed: Ring)
    ensures |placed| == |ring|
  {
    seq(|ring|, k requires 0 <= k < |ring| => Place(f, ring[k], c0, centre, sin, cos))
  }

  /** A plane map p -> k + M p. */
  datatype Affine = Affine(a: real, b: real, c: real, d: real, kx: real, ky: real) {
    function Apply(p: Point): Point {
      Point(kx + (a * p.x + b * p.y), ky + (c * p.x + d * p.y))
    }

    function Determinant(): real { a * d - b * c }

    /** What a step of a walk adds to the shoelace sum beyond its own share: it depends on the end
      * points alone, so it cancels round a ring. */
    function Drift(p: Point): real {
      kx * (c * p.x + d * p.y) - ky * (a * p.x + b * p.y)
    }
  }

  lemma LinearShoelace(a: real, b: real, c: real, d: real, p: Point, q: Point)
    ensures (a * p.x + b * p.y) * (c * q.x + d * q.y) - (a * q.x + b * q.y) * (c * p.x + d * p.y)
         == (a * d - b * c) * Shoelace(p, q)
  {
  }

  lemma ShiftedShoelace(kx: real, ky: real, px: real, py: real, qx: real, qy: real)
    ensures (kx + px) * (ky + qy) - (kx + qx) * (ky + py)
         == (px * qy - qx * py) + (kx * qy - ky * qx) - (kx * py - ky * px)
  {
  }

  lemma EdgeScales(m: Affine, p: Point, q: Point)
    ensures Shoelace(m.Apply(p), m.Apply(q)) == m.Determinant() * Shoelace(p, q) + m.Drift(q) - m.Drift(p)
  {
    var px, py := m.a * p.x + m.b * p.y, m.c * p.x + m.d * p.y;
    var qx, qy := m.a * q.x + m.b * q.y, m.c * q.x + m.d * q.y;
    LinearShoelace(m.a, m.b, m.c, m.d, p, q);
    ShiftedShoelace(m.kx, m.ky, px, py, qx, qy);
  }

  lemma {:induction false} WalkScales(m: Affine, pts: seq<Point>, image: seq<Point>)
    requires pts != [] && |image| == |pts|
    requires forall k :: 0 <= k < |pts| ==> image[k] == m.Apply(pts[k])
    ensures PathShoelace(image) == m.Determinant() * PathShoelace(pts) + m.Drift(pts[|pts| - 1]) - m.Drift(pts[0])
  {
    hide Shoelace, Affine.Apply, Affine.Determinant, Affine.Drift;
    if |pts| >= 2 {
      var n := |pts| - 1;
      WalkScales(m, pts[..n], image[..n]);
      EdgeScales(m, pts[n - 1], pts[n]);
      Distribute(m.Determinant(), PathShoelace(pts[..n]), Shoelace(pts[n - 1], pts[n]));
    }
  }

  lemma Distribute(k: real, a: real, b: real)
    ensures k * (a + b) == k * a + k * b
  {
  }

  /** An affine map multiplies the signed area of every ring by its determinant. */
  lemma RingScales(m: Affine, ring: Ring, image: Ring)
    requires |image| == |ring|
    requires forall k :: 0 <= k < |ring| ==> image[k] == m.Apply(ring[k])
    ensures SignedArea(image) == m.Determinant() * SignedArea(ring)
  {
    hide Affine.Apply, Affine.Determinant, Affine.Drift, PathShoelace;
    if ring != [] {
      WalkScales(m, Closed(ring), Closed(image));
      HalfScales(m.Determinant(), PathShoelace(Closed(ring)));
    } else {
      NoWalk();
      HalfScales(m.Determinant(), 0.0);
    }
  }

  lemma HalfScales(k: real, s: real)
    ensures k * s / 2.0 == k * (s / 2.0)
    ensures s == 0.0 ==> k * (s / 2.0) == 0.0
  {
  }

  lemma NoWalk()
    ensures PathShoelace([]) == 0.0
  {
  }

  /** Scale, then turn, then move: the map a box applies. */
  function Placement(f: Frame, c0: Point, centre: Point, sin: real, cos: real): Affine {
    var a, b, c, d := f.sx * cos, -(f.sy * sin), f.sx * sin, f.sy * cos;
    Affine(a, b, c, d, centre.x - (a * c0.x + b * c0.y), centre.y - (c * c0.x + d * c0.y))
  }

  /** One coordinate of the scaled and turned offset, with the pivot's share taken out. */
  lemma Coordinate(k: real, p: Point, c0: Point, s: real, t: real, u: real, v: real, a: real, b: real)
    requires a == s * u && b == t * v
    ensures k + (p.x - c0.x) * s * u + (p.y - c0.y) * t * v
         == k - (a * c0.x + b * c0.y) + (a * p.x + b * p.y)
  {
    Factor(s, u, p.x, c0.x);
    Factor(t, v, p.y, c0.y);
  }

  lemma Factor(s: real, u: real, p: real, q: real)
    ensures (p - q) * s * u == (s * u) * p - (s * u) * q
  {
  }

  lemma PlaceIsAffine(f: Frame, p: Point, c0: Point, centre: Point, sin: real, cos: real)
    ensures Place(f, p, c0, centre, sin, cos) == Placement(f, c0, centre, sin, cos).Apply(p)
  {
    var a, b, c, d := f.sx * cos, f.sy * -sin, f.sx * sin, f.sy * cos;
    Coordinate(centre.x, p, c0, f.sx, f.sy, cos, -sin, a, b);
    Coordinate(centre.y, p, c0, f.sx, f.sy, sin, cos, c, d);
    assert b == -(f.sy * sin);
    var y := (p.y - c0.y) * f.sy;
    assert y * -sin == -(y * sin);
  }

  lemma PlacementDeterminant(f: Frame, c0: Point, centre: Point, sin: real, cos: real)
    requires cos * cos + sin * sin == 1.0
    ensures Placement(f, c0, centre, sin, cos).Determinant() == f.sx * f.sy
  {
    TurnKeepsArea(f.sx, f.sy, sin, cos);
  }

  lemma TurnKeepsArea(sx: real, sy: real, sin: real, cos: real)
    requires cos * cos + sin * sin == 1.0
    ensures (sx * cos) * (sy * cos) - (-(sy * sin)) * (sx * sin) == sx * sy
  {
    calc {
      (sx * cos) * (sy * cos) - (-(sy * sin)) * (sx * sin);
      (sx * sy) * (cos * cos) + (sx * sy) * (sin * sin);
      (sx * sy) * (cos * cos + sin * sin);
      sx * sy;
    }
  }

  lemma PivotGoesToCentre(f: Frame, c0: Point, centre: Point, sin: real, cos: real)
    ensures Place(f, c0, c0, centre, sin, cos) == centre
  {
  }

  lemma KeptScalesArePositive(f: Frame)
    requires Checked(f).Ok?
    ensures f.sx * f.sy > 0.0
  {
    ProductIsPositive(f.sx, f.sy);
  }

  lemma ProductIsPositive(a: real, b: real)
    requires a > 0.0 && b > 0.0
    ensures a * b > 0.0
  {
  }

  /** A kept box never mirrors and never flattens: the pivot goes to the centre, and the signed area
    * of every ring is multiplied by exactly sx * sy, which is positive. */
  lemma PlaceScalesArea(f: Frame, ring: Ring, c0: Point, centre: Point, sin: real, cos: real)
    requires Checked(f).Ok? && cos * cos + sin * sin == 1.0
    ensures Place(f, c0, c0, centre, sin, cos) == centre
    ensures SignedArea(PlaceRing(f, ring, c0, centre, sin, cos)) == f.sx * f.sy * SignedArea(ring)
    ensures f.sx * f.sy > 0.0
  {
    hide Checked, Place, Placement, Affine.Apply, Affine.Determinant, SignedArea;
    var m := Placement(f, c0, centre, sin, cos);
    var image := PlaceRing(f, ring, c0, centre, sin, cos);
    forall k | 0 <= k < |ring|
      ensures image[k] == m.Apply(ring[k])
    {
      PlaceIsAffine(f, ring[k], c0, centre, sin, cos);
    }
    PivotGoesToCentre(f, c0, centre, sin, cos);
    KeptScalesArePositive(f);
    PlacementDeterminant(f, c0, centre, sin, cos);
    RingScales(m, ring, image);
  }

  lemma TurnedVectorIsZero(x: real, y: real, sin: real, cos: real)
    requires cos * cos + sin * sin == 1.0
    requires x * cos - y * sin == 0.0 && x * sin + y * cos == 0.0
    ensures x == 0.0 && y == 0.0
  {
    calc {
      x;
      x * (cos * cos + sin * sin);
      cos * (x * cos - y * sin) + sin * (x * sin + y * cos);
      cos * 0.0 + sin * 0.0;
    }
    calc {
      y;
      y * (cos * cos + sin * sin);
      cos * (x * sin + y * cos) - sin * (x * cos - y * sin);
      cos * 0.0 - sin * 0.0;
    }
  }

  /** Two points of the blueprint never land on one. */
  lemma PlaceIsInjective(f: Frame, p: Point, q: Point, c0: Point, centre: Point, sin: real, cos: real)
    requires Checked(f).Ok? && cos * cos + sin * sin == 1.0
    requires Place(f, p, c0, centre, sin, cos) == Place(f, q, c0, centre, sin, cos)
    ensures p == q
  {
    var px, py := (p.x - c0.x) * f.sx, (p.y - c0.y) * f.sy;
    var qx, qy := (q.x - c0.x) * f.sx, (q.y - c0.y) * f.sy;
    assert px * cos - py * sin == qx * cos - qy * sin;
    assert px * sin + py * cos == qx * sin + qy * cos;
    SameTurned(px, py, qx, qy, sin, cos);
    EqualFactors(p.x - c0.x, q.x - c0.x, f.sx);
    EqualFactors(p.y - c0.y, q.y - c0.y, f.sy);
  }

  lemma SameTurned(px: real, py: real, qx: real, qy: real, sin: real, cos: real)
    requires cos * cos + sin * sin == 1.0
    requires px * cos - py * sin == qx * cos - qy * sin
    requires px * sin + py * cos == qx * sin + qy * cos
    ensures px == qx && py == qy
  {
    var x, y := px - qx, py - qy;
    assert x * cos - y * sin == (px * cos - py * sin) - (qx * cos - qy * sin);
    assert x * sin + y * cos == (px * sin + py * cos) - (qx * sin + qy * cos);
    TurnedVectorIsZero(x, y, sin, cos);
  }

  // ---------------------------------------------------------------- how it is placed

  /** Unturned, a point lies from the centre as it lay from the pivot, stretched along each axis; turned by a right
    * angle, what lay to the right of the pivot lies above the centre, and what lay above, to the left. */
  lemma PlaceByRightAngles(f: Frame, c0: Point, centre: Point, u: real, v: real)
    ensures Place(f, Point(c0.x + u, c0.y + v), c0, centre, 0.0, 1.0) == Point(centre.x + f.sx * u, centre.y + f.sy * v)
    ensures Place(f, Point(c0.x + u, c0.y + v), c0, centre, 1.0, 0.0) == Point(centre.x - f.sy * v, centre.y + f.sx * u)
  {
  }

  /** Any other turn mixes the two by its cosine and its sine. */
  lemma PlaceMixesRightAngles(f: Frame, p: Point, c0: Point, centre: Point, sin: real, cos: real)
    ensures var level, upright := Place(f, p, c0, centre, 0.0, 1.0), Place(f, p, c0, centre, 1.0, 0.0);
            Place(f, p, c0, centre, sin, cos) == Point(centre.x + cos * (level.x - centre.x) + sin * (upright.x - centre.x),
                                                       centre.y + cos * (level.y - centre.y) + sin * (upright.y - centre.y))
  {
    var x, y := (p.x - c0.x) * f.sx, (p.y - c0.y) * f.sy;
    var level, upright := Place(f, p, c0, centre, 0.0, 1.0), Place(f, p, c0, centre, 1.0, 0.0);
    assert level.x - centre.x == x && level.y - centre.y == y;
    assert upright.x - centre.x == -y && upright.y - centre.y == x;
    Mixed(x, y, sin, cos);
  }

  lemma Mixed(x: real, y: real, sin: real, cos: real)
    ensures x * cos - y * sin == cos * x + sin * -y
    ensures x * sin + y * cos == cos * y + sin * x
  {
    assert sin * -y == -(y * sin);
  }

  /** The square of the length of a step. */
  function Squared(x: real, y: real): real { x * x + y * y }

  /** Placing keeps distances but for the stretch along each axis. */
  lemma PlaceKeepsDistances(f: Frame, p: Point, q: Point, c0: Point, centre: Point, sin: real, cos: real)
    requires cos * cos + sin * sin == 1.0
    ensures var a, b := Place(f, p, c0, centre, sin, cos), Place(f, q, c0, centre, sin, cos);
            Squared(a.x - b.x, a.y - b.y) == Squared(f.sx * (p.x - q.x), f.sy * (p.y - q.y))
  {
    hide Place, Squared;
    var dx, dy := Turned(f, p, q, c0, centre, sin, cos);
    TurnKeepsLength(dx, dy, sin, cos);
  }

  /** The step between two placed points is the stretched step, turned. */
  lemma Turned(f: Frame, p: Point, q: Point, c0: Point, centre: Point, sin: real, cos: real) returns (dx: real, dy: real)
    ensures dx == f.sx * (p.x - q.x) && dy == f.sy * (p.y - q.y)
    ensures var a, b := Place(f, p, c0, centre, sin, cos), Place(f, q, c0, centre, sin, cos);
            a.x - b.x == dx * cos - dy * sin && a.y - b.y == dx * sin + dy * cos
  {
    var px, py := (p.x - c0.x) * f.sx, (p.y - c0.y) * f.sy;
    var qx, qy := (q.x - c0.x) * f.sx, (q.y - c0.y) * f.sy;
    dx, dy := px - qx, py - qy;
    assert dx == f.sx * (p.x - q.x) && dy == f.sy * (p.y - q.y);
    assert dx * cos == px * cos - qx * cos && dy * sin == py * sin - qy * sin;
    assert dx * sin == px * sin - qx * sin && dy * cos == py * cos - qy * cos;
  }

  lemma TurnKeepsLength(x: real, y: real, sin: real, cos: real)
    requires cos * cos + sin * sin == 1.0
    ensures Squared(x * cos - y * sin, x * sin + y * cos) == Squared(x, y)
  {
    var c, s, k := x * cos, y * sin, x * cos * (y * sin);
    assert (c - s) * (c - s) == x * x * (cos * cos) + y * y * (sin * sin) - 2.0 * k;
    assert x * sin * (y * cos) == k;
    assert (x * sin + y * cos) * (x * sin + y * cos) == x * x * (sin * sin) + y * y * (cos * cos) + 2.0 * k;
    assert x * x * (cos * cos) + x * x * (sin * sin) == x * x * (cos * cos + sin * sin);
    assert y * y * (cos * cos) + y * y * (sin * sin) == y * y * (cos * cos + sin * sin);
  }
}
