/**
 * Points, axis-aligned boxes and the distances the engines compare.
 *
 * Positions are triples of reals. A Unity `Bounds` is kept by its two corners. Every distance the source
 * computes with `Mathf.Sqrt` is compared with a threshold and nothing else, except the light falloff.
 * So the model keeps the exact SQUARED distance and states each comparison with the threshold squared:
 * sqrt(sq) <= r holds exactly when r >= 0 and sq <= r*r, and sqrt(sq) < r exactly when r > 0 and sq < r*r.
 */
module Geometry {

  datatype Vec3 = Vec3(x: real, y: real, z: real)

  const Zero: Vec3 := Vec3(0.0, 0.0, 0.0)

  function Max(a: real, b: real): real { if a >= b then a else b }

  function Min(a: real, b: real): real { if a <= b then a else b }

  function Abs(a: real): real { if a >= 0.0 then a else -a }

  function Sub(a: Vec3, b: Vec3): Vec3 { Vec3(a.x - b.x, a.y - b.y, a.z - b.z) }

  function Square(a: real): (r: real)
    ensures r >= 0.0
  {
    if a >= 0.0 then a * a else (-a) * (-a)
  }

  /** `Vector3.sqrMagnitude`. */
  function SqrMagnitude(v: Vec3): (r: real)
    ensures r >= 0.0
  {
    Square(v.x) + Square(v.y) + Square(v.z)
  }

  /** An axis-aligned box given by its lower and upper corner (Unity's `Bounds.min` and `Bounds.max`). */
  datatype Bounds = Bounds(min: Vec3, max: Vec3)

  /** `new Bounds(center, size)`. */
  function BoundsAround(center: Vec3, size: Vec3): (b: Bounds)
    ensures Center(b) == center
  {
    Bounds(Vec3(center.x - size.x / 2.0, center.y - size.y / 2.0, center.z - size.z / 2.0),
           Vec3(center.x + size.x / 2.0, center.y + size.y / 2.0, center.z + size.z / 2.0))
  }

  /** `Bounds.center`. */
  function Center(b: Bounds): Vec3 {
    Vec3((b.min.x + b.max.x) / 2.0, (b.min.y + b.max.y) / 2.0, (b.min.z + b.max.z) / 2.0)
  }

  /** `outer` covers `inner` on every axis. */
  predicate Contains(outer: Bounds, inner: Bounds) {
    outer.min.x <= inner.min.x && outer.min.y <= inner.min.y && outer.min.z <= inner.min.z &&
    inner.max.x <= outer.max.x && inner.max.y <= outer.max.y && inner.max.z <= outer.max.z
  }

  /** `a.Encapsulate(b)`: the smallest box covering both. */
  function Encapsulate(a: Bounds, b: Bounds): (r: Bounds)
    ensures Contains(r, a) && Contains(r, b)
    ensures forall c :: Contains(c, a) && Contains(c, b) ==> Contains(c, r)
  {
    Bounds(Vec3(Min(a.min.x, b.min.x), Min(a.min.y, b.min.y), Min(a.min.z, b.min.z)),
           Vec3(Max(a.max.x, b.max.x), Max(a.max.y, b.max.y), Max(a.max.z, b.max.z)))
  }

  /**
   * The box the source accumulates over a list of boxes: the first one, then `Encapsulate` with each
   * following one, in order.
   */
  function Hull(bs: seq<Bounds>): Bounds
    requires |bs| > 0
  {
    if |bs| == 1 then bs[0] else Encapsulate(Hull(bs[..|bs| - 1]), bs[|bs| - 1])
  }

  /** One more box: it is the hull of a list of one, and joins the hull of a longer list by `Encapsulate`. */
  lemma HullAppend(bs: seq<Bounds>, x: Bounds)
    ensures Hull(bs + [x]) == if |bs| == 0 then x else Encapsulate(Hull(bs), x)
  {
    assert (bs + [x])[..|bs|] == bs;
  }

  /** The accumulated box covers every box of the list ... */
  lemma {:induction false} HullCovers(bs: seq<Bounds>, i: int)
    requires 0 <= i < |bs|
    ensures Contains(Hull(bs), bs[i])
  {
    if |bs| > 1 && i < |bs| - 1 {
      HullCovers(bs[..|bs| - 1], i);
      assert bs[..|bs| - 1][i] == bs[i];
      ContainsTransitive(Hull(bs), Hull(bs[..|bs| - 1]), bs[i]);
    }
  }

  /** ... and any box covering the whole list covers the accumulated box: it is the least such box. */
  lemma {:induction false} HullIsLeast(bs: seq<Bounds>, c: Bounds)
    requires |bs| > 0
    requires forall i :: 0 <= i < |bs| ==> Contains(c, bs[i])
    ensures Contains(c, Hull(bs))
  {
    if |bs| > 1 {
      var front := bs[..|bs| - 1];
      assert forall i :: 0 <= i < |front| ==> front[i] == bs[i];
      HullIsLeast(front, c);
    }
  }

  lemma ContainsTransitive(a: Bounds, b: Bounds, c: Bounds)
    requires Contains(a, b) && Contains(b, c)
    ensures Contains(a, c)
  {
  }

  /** The gap between two intervals on one axis, 0 when they overlap. */
  function AxisGap(aMin: real, aMax: real, bMin: real, bMax: real): (r: real)
    ensures r >= 0.0
  {
    Max(0.0, Max(aMin - bMax, bMin - aMax))
  }

  /** `AABBtoAABBDistance` squared: the squared length of the shortest segment between the two boxes. */
  function SqDistanceBoxes(a: Bounds, b: Bounds): (r: real)
    ensures r >= 0.0
  {
    Square(AxisGap(a.min.x, a.max.x, b.min.x, b.max.x)) +
    Square(AxisGap(a.min.y, a.max.y, b.min.y, b.max.y)) +
    Square(AxisGap(a.min.z, a.max.z, b.min.z, b.max.z))
  }

  /** The box-to-box distance of the source does not depend on the order of its two arguments. */
  lemma SqDistanceBoxesSymmetric(a: Bounds, b: Bounds)
    ensures SqDistanceBoxes(a, b) == SqDistanceBoxes(b, a)
  {
    assert AxisGap(a.min.x, a.max.x, b.min.x, b.max.x) == AxisGap(b.min.x, b.max.x, a.min.x, a.max.x);
    assert AxisGap(a.min.y, a.max.y, b.min.y, b.max.y) == AxisGap(b.min.y, b.max.y, a.min.y, a.max.y);
    assert AxisGap(a.min.z, a.max.z, b.min.z, b.max.z) == AxisGap(b.min.z, b.max.z, a.min.z, a.max.z);
  }

  /** `DistancePointToAABB` squared: per axis `Mathf.Max(min - p, 0, p - max)`. */
  function SqDistancePointBox(p: Vec3, b: Bounds): (r: real)
    ensures r >= 0.0
  {
    Square(Max(Max(b.min.x - p.x, 0.0), p.x - b.max.x)) +
    Square(Max(Max(b.min.y - p.y, 0.0), p.y - b.max.y)) +
    Square(Max(Max(b.min.z - p.z, 0.0), p.z - b.max.z))
  }

  /** `sqrt(sq) <= r` for a squared distance `sq`. */
  predicate WithinDistance(sq: real, r: real) {
    0.0 <= r && sq <= r * r
  }

  /** `sqrt(sq) < r` for a squared distance `sq`. */
  predicate CloserThan(sq: real, r: real) {
    0.0 < r && sq < r * r
  }
}
