/** Axis-aligned boxes and culling planes (vmath.h, bbox_tree.h, frustum.c), with reals for floats. */
module Geometry {

  datatype Vec = Vec(x: real, y: real, z: real)

  datatype Box = Box(bbmin: Vec, bbmax: Vec)

  /** A half space a*x + b*y + c*z + d >= 0 with one mask flag per axis. */
  datatype Plane = Plane(a: real, b: real, c: real, d: real, maskX: bool, maskY: bool, maskZ: bool)

  // 10e30 in the source, that is 10^31
  const BOUND_HUGE: real := 10000000000000000000000000000000.0

  // where every hull computation starts: inverted, so that merging any box replaces it
  const EMPTY: Box :=
    Box(Vec(BOUND_HUGE, BOUND_HUGE, BOUND_HUGE), Vec(-BOUND_HUGE, -BOUND_HUGE, -BOUND_HUGE))

  function Min(a: real, b: real): real {
    if a < b then a else b
  }

  function Max(a: real, b: real): real {
    if a > b then a else b
  }

  function VMin(u: Vec, v: Vec): Vec {
    Vec(Min(u.x, v.x), Min(u.y, v.y), Min(u.z, v.z))
  }

  function VMax(u: Vec, v: Vec): Vec {
    Vec(Max(u.x, v.x), Max(u.y, v.y), Max(u.z, v.z))
  }

  function Join(a: Box, b: Box): Box {
    Box(VMin(a.bbmin, b.bbmin), VMax(a.bbmax, b.bbmax))
  }

  function Volume(b: Box): real {
    (b.bbmax.x - b.bbmin.x) * (b.bbmax.y - b.bbmin.y) * (b.bbmax.z - b.bbmin.z)
  }

  /** a lies inside b. */
  predicate Within(a: Box, b: Box) {
    && b.bbmin.x <= a.bbmin.x && b.bbmin.y <= a.bbmin.y && b.bbmin.z <= a.bbmin.z
    && a.bbmax.x <= b.bbmax.x && a.bbmax.y <= b.bbmax.y && a.bbmax.z <= b.bbmax.z
  }

  /** What "bounding box" means: no side is inverted. */
  predicate Proper(b: Box) {
    b.bbmin.x <= b.bbmax.x && b.bbmin.y <= b.bbmax.y && b.bbmin.z <= b.bbmax.z
  }

  lemma WithinBoth(a: Box, b: Box)
    requires Within(a, b) && Within(b, a)
    ensures a == b
  {
    assert a.bbmin == b.bbmin && a.bbmax == b.bbmax;
  }

  /** v is a point of the box b. */
  predicate Inside(v: Vec, b: Box) {
    && b.bbmin.x <= v.x <= b.bbmax.x && b.bbmin.y <= v.y <= b.bbmax.y && b.bbmin.z <= v.z <= b.bbmax.z
  }

  /** For boxes with points in them, lying inside is a matter of points. */
  lemma WithinByPoints(a: Box, b: Box)
    ensures Proper(a) <==> exists v :: Inside(v, a)
    ensures Proper(a) ==> (Within(a, b) <==> forall v :: Inside(v, a) ==> Inside(v, b))
  {
    if Proper(a) {
      assert Inside(a.bbmin, a) && Inside(a.bbmax, a);
    }
  }

  // ---------- volumes ----------

  /** The same box elsewhere. */
  function Moved(b: Box, d: Vec): Box {
    Box(Vec(b.bbmin.x + d.x, b.bbmin.y + d.y, b.bbmin.z + d.z), Vec(b.bbmax.x + d.x, b.bbmax.y + d.y, b.bbmax.z + d.z))
  }

  lemma Distributes(u: real, v: real, w: real)
    ensures (u + v) * w == u * w + v * w && w * (u + v) == w * u + w * v
  {
  }

  /** A volume adds up when the box is cut across any axis. */
  lemma VolumeOfParts(b: Box, c: Vec)
    ensures Volume(b) == Volume(b.(bbmax := b.bbmax.(x := c.x))) + Volume(b.(bbmin := b.bbmin.(x := c.x)))
    ensures Volume(b) == Volume(b.(bbmax := b.bbmax.(y := c.y))) + Volume(b.(bbmin := b.bbmin.(y := c.y)))
    ensures Volume(b) == Volume(b.(bbmax := b.bbmax.(z := c.z))) + Volume(b.(bbmin := b.bbmin.(z := c.z)))
  {
    var dx, dy, dz := b.bbmax.x - b.bbmin.x, b.bbmax.y - b.bbmin.y, b.bbmax.z - b.bbmin.z;
    Distributes(c.x - b.bbmin.x, b.bbmax.x - c.x, dy);
    Distributes((c.x - b.bbmin.x) * dy, (b.bbmax.x - c.x) * dy, dz);
    Distributes(c.y - b.bbmin.y, b.bbmax.y - c.y, dx);
    Distributes(dx * (c.y - b.bbmin.y), dx * (b.bbmax.y - c.y), dz);
    Distributes(c.z - b.bbmin.z, b.bbmax.z - c.z, dx * dy);
  }

  lemma ProductSign(u: real, v: real)
    requires 0.0 <= u && 0.0 <= v
    ensures 0.0 <= u * v && (u * v == 0.0 <==> u == 0.0 || v == 0.0)
  {
  }

  /** A volume is never negative, and 0 exactly for a box that is flat along some axis. */
  lemma VolumeSign(b: Box)
    requires Proper(b)
    ensures 0.0 <= Volume(b)
    ensures Volume(b) == 0.0 <==> b.bbmin.x == b.bbmax.x || b.bbmin.y == b.bbmax.y || b.bbmin.z == b.bbmax.z
  {
    var dx, dy, dz := b.bbmax.x - b.bbmin.x, b.bbmax.y - b.bbmin.y, b.bbmax.z - b.bbmin.z;
    ProductSign(dx, dy);
    ProductSign(dx * dy, dz);
  }

  /** The unit cube has volume 1, wherever it is, and moving a box does not change its volume. */
  lemma VolumeUnit(v: Vec, b: Box)
    ensures Volume(Box(v, Vec(v.x + 1.0, v.y + 1.0, v.z + 1.0))) == 1.0
    ensures Volume(Moved(b, v)) == Volume(b)
  {
    var m := Moved(b, v);
    assert m.bbmax.x - m.bbmin.x == b.bbmax.x - b.bbmin.x;
    assert m.bbmax.y - m.bbmin.y == b.bbmax.y - b.bbmin.y;
    assert m.bbmax.z - m.bbmin.z == b.bbmax.z - b.bbmin.z;
  }

  // ---------- planes ----------

  /** The mask agrees with the signs of the normal, as calc_plane_mask leaves it. */
  predicate WellMasked(p: Plane) {
    p.maskX == !(p.a < 0.0) && p.maskY == !(p.b < 0.0) && p.maskZ == !(p.c < 0.0)
  }

  /** calc_plane_mask. */
  function CalcPlaneMask(p: Plane): (r: Plane)
    ensures WellMasked(r) && (r.a, r.b, r.c, r.d) == (p.a, p.b, p.c, p.d)
  {
    p.(maskX := !(p.a < 0.0), maskY := !(p.b < 0.0), maskZ := !(p.c < 0.0))
  }

  function VSelect(u: Vec, v: Vec, p: Plane): Vec {
    Vec(if p.maskX then u.x else v.x, if p.maskY then u.y else v.y, if p.maskZ then u.z else v.z)
  }

  function VInvertSelect(u: Vec, v: Vec, p: Plane): Vec {
    Vec(if !p.maskX then u.x else v.x, if !p.maskY then u.y else v.y, if !p.maskZ then u.z else v.z)
  }

  function VDot4(v: Vec, p: Plane): real {
    v.x * p.a + v.y * p.b + v.z * p.c + p.d
  }

  function FarDot(b: Box, p: Plane): real {
    VDot4(VInvertSelect(b.bbmin, b.bbmax, p), p)
  }

  function NearDot(b: Box, p: Plane): real {
    VDot4(VSelect(b.bbmin, b.bbmax, p), p)
  }

  lemma AxisExtreme(c: real, near: real, v: real, far: real)
    requires if c < 0.0 then far <= v <= near else near <= v <= far
    ensures near * c <= v * c <= far * c
  {
    if c < 0.0 {
      assert 0.0 <= (near - v) * -c && 0.0 <= (v - far) * -c;
    } else {
      assert 0.0 <= (v - near) * c && 0.0 <= (far - v) * c;
    }
  }

  lemma VDot4Monotone(u: Vec, v: Vec, p: Plane)
    requires u.x * p.a <= v.x * p.a && u.y * p.b <= v.y * p.b && u.z * p.c <= v.z * p.c
    ensures VDot4(u, p) <= VDot4(v, p)
  {
  }

  /** The selected corners are extreme: every point of the box lies between them. */
  lemma CornersAreExtreme(v: Vec, b: Box, p: Plane)
    requires Inside(v, b) && WellMasked(p)
    ensures NearDot(b, p) <= VDot4(v, p) <= FarDot(b, p)
  {
    var near, far := VSelect(b.bbmin, b.bbmax, p), VInvertSelect(b.bbmin, b.bbmax, p);
    assert VDot4(near, p) <= VDot4(v, p) <= VDot4(far, p) by {
      AxisExtreme(p.a, near.x, v.x, far.x);
      AxisExtreme(p.b, near.y, v.y, far.y);
      AxisExtreme(p.c, near.z, v.z, far.z);
      VDot4Monotone(near, v, p);
      VDot4Monotone(v, far, p);
    }
  }

  /** Shrinking a box moves its far corner in and its near corner out. */
  lemma DotsMonotone(a: Box, b: Box, p: Plane)
    requires Within(a, b) && Proper(a) && WellMasked(p)
    ensures NearDot(b, p) <= NearDot(a, p) <= FarDot(a, p) <= FarDot(b, p)
  {
    var near, far := VSelect(a.bbmin, a.bbmax, p), VInvertSelect(a.bbmin, a.bbmax, p);
    CornersAreExtreme(near, b, p);
    CornersAreExtreme(far, b, p);
    CornersAreExtreme(near, a, p);
  }

  /** v lies behind the plane, on the side that is not drawn. */
  predicate PointBehind(v: Vec, p: Plane) {
    p.a * v.x + p.b * v.y + p.c * v.z + p.d < 0.0
  }

  lemma BehindByDot(v: Vec, p: Plane)
    ensures PointBehind(v, p) <==> VDot4(v, p) < 0.0
  {
    assert p.a * v.x == v.x * p.a && p.b * v.y == v.y * p.b && p.c * v.z == v.z * p.c;
  }

  /** The far corner tells whether the whole box is behind a plane. */
  lemma FarDotMeaning(b: Box, p: Plane)
    requires Proper(b) && WellMasked(p)
    ensures FarDot(b, p) < 0.0 <==> forall v :: Inside(v, b) ==> PointBehind(v, p)
  {
    var far := VInvertSelect(b.bbmin, b.bbmax, p);
    assert Inside(far, b);
    BehindByDot(far, p);
    forall v | Inside(v, b) && FarDot(b, p) < 0.0 ensures PointBehind(v, p) {
      CornersAreExtreme(v, b, p);
      BehindByDot(v, p);
    }
  }

  /** The near corner tells whether any of the box is behind a plane. */
  lemma NearDotMeaning(b: Box, p: Plane)
    requires Proper(b) && WellMasked(p)
    ensures NearDot(b, p) < 0.0 <==> exists v :: Inside(v, b) && PointBehind(v, p)
  {
    var near := VSelect(b.bbmin, b.bbmax, p);
    assert Inside(near, b);
    BehindByDot(near, p);
    forall v | Inside(v, b) && PointBehind(v, p) ensures NearDot(b, p) < 0.0 {
      CornersAreExtreme(v, b, p);
      BehindByDot(v, p);
    }
  }
}
