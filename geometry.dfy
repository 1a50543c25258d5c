/**
 * Vectors and axis-aligned boxes: the `Bounds` struct of the BVH builder.
 *
 * Coordinates are exact reals. A box is any pair of corners; the builder
 * never forms a box whose minimum exceeds its maximum, but the operations
 * below are total and say what they do on every pair.
 */
module Geometry {

  /** A point or a direction (Unity's Vector3). */
  datatype Vec3 = Vec3(x: real, y: real, z: real)

  /** An axis index as returned by `MaximumExtent`: 0 is x, 1 is y, 2 is z. */
  type Axis = d: int | 0 <= d <= 2

  function Min(a: real, b: real): real { if a <= b then a else b }
  function Max(a: real, b: real): real { if a >= b then a else b }

  /** Componentwise minimum (Vector3.Min). */
  function Min3(a: Vec3, b: Vec3): Vec3 { Vec3(Min(a.x, b.x), Min(a.y, b.y), Min(a.z, b.z)) }

  /** Componentwise maximum (Vector3.Max). */
  function Max3(a: Vec3, b: Vec3): Vec3 { Vec3(Max(a.x, b.x), Max(a.y, b.y), Max(a.z, b.z)) }

  function Sub(a: Vec3, b: Vec3): Vec3 { Vec3(a.x - b.x, a.y - b.y, a.z - b.z) }
  function Add(a: Vec3, b: Vec3): Vec3 { Vec3(a.x + b.x, a.y + b.y, a.z + b.z) }
  function Half(a: Vec3): Vec3 { Vec3(0.5 * a.x, 0.5 * a.y, 0.5 * a.z) }

  /** Component `dim` of `v` (GetVectorComponent for the three valid axes). */
  function Component(v: Vec3, dim: Axis): real {
    if dim == 0 then v.x else if dim == 1 then v.y else v.z
  }

  /** The `Bounds` struct: a minimum and a maximum corner. */
  datatype Box = Box(minimum: Vec3, maximum: Vec3)

  /** `new Bounds()`: both corners at the origin, a box that contains the origin. */
  const ZeroBox := Box(Vec3(0.0, 0.0, 0.0), Vec3(0.0, 0.0, 0.0))

  /** A box is proper when its minimum does not exceed its maximum on any axis. */
  predicate IsProper(b: Box) {
    b.minimum.x <= b.maximum.x && b.minimum.y <= b.maximum.y && b.minimum.z <= b.maximum.z
  }

  /** The extent of `b` along `dim`; negative only for an improper box. */
  function Extent(b: Box, dim: Axis): real {
    Component(b.maximum, dim) - Component(b.minimum, dim)
  }

  predicate ContainsPoint(b: Box, p: Vec3) {
    && b.minimum.x <= p.x <= b.maximum.x
    && b.minimum.y <= p.y <= b.maximum.y
    && b.minimum.z <= p.z <= b.maximum.z
  }

  /** `b` encloses `c`: its minimum is below `c`'s and its maximum above `c`'s on every axis. */
  predicate ContainsBox(b: Box, c: Box) {
    && b.minimum.x <= c.minimum.x && b.minimum.y <= c.minimum.y && b.minimum.z <= c.minimum.z
    && c.maximum.x <= b.maximum.x && c.maximum.y <= b.maximum.y && c.maximum.z <= b.maximum.z
  }

  /** Bounds.Union(Bounds, Bounds): a box enclosing both operands (the smallest one, by UnionIsLeast). */
  function Union(a: Box, b: Box): (r: Box)
    ensures ContainsBox(r, a) && ContainsBox(r, b)
  {
    Box(Min3(a.minimum, b.minimum), Max3(a.maximum, b.maximum))
  }

  /** Every box enclosing both operands encloses their union. */
  lemma UnionIsLeast(a: Box, b: Box, c: Box)
    requires ContainsBox(c, a) && ContainsBox(c, b)
    ensures ContainsBox(c, Union(a, b))
  {
  }

  /** Bounds.Union(Bounds, Vector3): a box enclosing the box and the point (the smallest one, by UnionPointIsLeast). */
  function UnionPoint(a: Box, p: Vec3): (r: Box)
    ensures ContainsBox(r, a) && ContainsPoint(r, p)
  {
    Box(Min3(a.minimum, p), Max3(a.maximum, p))
  }

  /** Every box enclosing the box and the point encloses their union. */
  lemma UnionPointIsLeast(a: Box, p: Vec3, c: Box)
    requires ContainsBox(c, a) && ContainsPoint(c, p)
    ensures ContainsBox(c, UnionPoint(a, p))
  {
  }

  /** Bounds.Init: the receiver (a struct, so a value here) grows to take in `a`. */
  method Init(b: Box, a: Vec3) returns (r: Box)
    ensures r == UnionPoint(b, a)
  {
    var maximum := Max3(b.maximum, a);
    var minimum := Min3(b.minimum, a);
    r := Box(minimum, maximum);
  }

  /** One axis of `Offset`: `p - lo`, divided by `hi - lo` only when that is positive. */
  function AxisOffset(p: real, lo: real, hi: real): real
  {
    var o := p - lo;
    if hi > lo then o / (hi - lo) else o
  }

  /**
   * Bounds.Offset: the position of `p` relative to the box, per axis scaled
   * by the extent when the extent is positive and left unscaled otherwise.
   */
  function Offset(b: Box, p: Vec3): Vec3
  {
    Vec3(AxisOffset(p.x, b.minimum.x, b.maximum.x),
         AxisOffset(p.y, b.minimum.y, b.maximum.y),
         AxisOffset(p.z, b.minimum.z, b.maximum.z))
  }

  /**
   * What the offset means: along an axis of positive extent, the offset times
   * the extent is the distance from the box's minimum; along any other axis
   * the offset is that distance itself.
   */
  lemma OffsetScales(b: Box, p: Vec3, d: Axis)
    ensures Extent(b, d) > 0.0 ==>
              Component(Offset(b, p), d) * Extent(b, d) == Component(p, d) - Component(b.minimum, d)
    ensures Extent(b, d) <= 0.0 ==>
              Component(Offset(b, p), d) == Component(p, d) - Component(b.minimum, d)
  {
    if Extent(b, d) > 0.0 {
      AxisOffsetScales(Component(p, d), Component(b.minimum, d), Component(b.maximum, d));
    }
  }

  /** Along an axis of positive extent, a point of the box lies at an offset in [0, 1]; its faces map to 0 and 1. */
  lemma OffsetInUnit(b: Box, p: Vec3, d: Axis)
    requires ContainsPoint(b, p) && Extent(b, d) > 0.0
    ensures 0.0 <= Component(Offset(b, p), d) <= 1.0
    ensures Component(p, d) == Component(b.minimum, d) ==> Component(Offset(b, p), d) == 0.0
    ensures Component(p, d) == Component(b.maximum, d) ==> Component(Offset(b, p), d) == 1.0
  {
    var v, lo, hi := Component(p, d), Component(b.minimum, d), Component(b.maximum, d);
    assert lo <= v <= hi;
    AxisOffsetScales(v, lo, hi);
    RatioInUnit(AxisOffset(v, lo, hi), hi - lo, v - lo);
  }

  /** Along an axis of positive extent, the offset times the extent is the distance from the minimum. */
  lemma AxisOffsetScales(p: real, lo: real, hi: real)
    requires hi > lo
    ensures AxisOffset(p, lo, hi) * (hi - lo) == p - lo
  {
  }

  /** If `o` scales a positive `e` to a value in [0, e], then `o` lies in [0, 1], and is 1 at e. */
  lemma RatioInUnit(o: real, e: real, q: real)
    requires o * e == q && 0.0 <= q <= e && e > 0.0
    ensures 0.0 <= o <= 1.0
    ensures q == 0.0 ==> o == 0.0
    ensures q == e ==> o == 1.0
  {
  }

  /**
   * Bounds.MaximumExtent: the axis of largest extent, ties going to the later
   * axis (x wins only when strictly the largest, then y only when it exceeds z).
   */
  function MaximumExtent(b: Box): (dim: Axis)
    ensures forall d: Axis :: Extent(b, d) <= Extent(b, dim)
    ensures forall d: Axis :: dim < d ==> Extent(b, d) < Extent(b, dim)
  {
    var diag := Sub(b.maximum, b.minimum);
    if diag.x > diag.y && diag.x > diag.z then 0
    else if diag.y > diag.z then 1
    else 2
  }

  /** Bounds.SurfaceArea: the total area of the box's six faces. */
  function SurfaceArea(b: Box): (area: real)
    ensures IsProper(b) ==> area >= 0.0
  {
    var distance := Sub(b.maximum, b.minimum);
    var areaTop := distance.z * distance.x;
    var areaRight := distance.y * distance.z;
    var areaFront := distance.x * distance.y;
    2.0 * (areaTop + areaRight + areaFront)
  }

  /** A proper box has zero surface area exactly when at most one of its extents is positive. */
  lemma SurfaceAreaZero(b: Box)
    requires IsProper(b)
    ensures SurfaceArea(b) == 0.0 <==>
              (Extent(b, 0) == 0.0 && Extent(b, 1) == 0.0) ||
              (Extent(b, 1) == 0.0 && Extent(b, 2) == 0.0) ||
              (Extent(b, 2) == 0.0 && Extent(b, 0) == 0.0)
  {
    var ex, ey, ez := Extent(b, 0), Extent(b, 1), Extent(b, 2);
    assert ex >= 0.0 && ey >= 0.0 && ez >= 0.0;
    assert SurfaceArea(b) == 2.0 * (ez * ex + ey * ez + ex * ey);
    if ex > 0.0 && ey > 0.0 {
      assert ex * ey > 0.0;
    } else if ey > 0.0 && ez > 0.0 {
      assert ey * ez > 0.0;
    } else if ez > 0.0 && ex > 0.0 {
      assert ez * ex > 0.0;
    }
  }

  /** Two boxes that enclose each other are the same box. */
  lemma ContainsBoxAntisymmetric(a: Box, b: Box)
    requires ContainsBox(a, b) && ContainsBox(b, a)
    ensures a == b
  {
    assert a.minimum == b.minimum;
    assert a.maximum == b.maximum;
  }

  /** Union is commutative and idempotent, as min and max are. */
  lemma UnionLaws(a: Box, b: Box)
    ensures Union(a, b) == Union(b, a)
    ensures Union(a, a) == a
  {
    UnionIsLeast(a, b, Union(b, a));
    UnionIsLeast(b, a, Union(a, b));
    UnionIsLeast(a, a, a);
    ContainsBoxAntisymmetric(Union(a, b), Union(b, a));
    ContainsBoxAntisymmetric(Union(a, a), a);
  }
}
