/**
 * Axis-aligned bounding boxes: point containment and box intersection,
 * both inclusive on the faces, under JavaScript number comparison.
 */
module Aabb {
  import opened Wrappers
  import opened Js

  datatype Vec3 = Vec3(x: Num, y: Num, z: Num)

  /** A box; the constructor's copies of its corners are modelled by value semantics. */
  datatype AABB = AABB(min: Vec3, max: Vec3)

  const ORIGIN := Vec3(Finite(0.0), Finite(0.0), Finite(0.0))

  /** Coordinate `axis` (0, 1, 2 for x, y, z) of `v`. */
  function Coord(v: Vec3, axis: int): Num
    requires 0 <= axis < 3
  {
    if axis == 0 then v.x else if axis == 1 then v.y else v.z
  }

  /** `new AABB(min, max)`; an omitted corner is `None` and defaults to the origin. */
  function NewAABB(min: Option<Vec3>, max: Option<Vec3>): (b: AABB)
    ensures b.min == (if min.Some? then min.value else ORIGIN)
    ensures b.max == (if max.Some? then max.value else ORIGIN)
  {
    AABB(if min.Some? then min.value else ORIGIN, if max.Some? then max.value else ORIGIN)
  }

  /** `containsPoint(p)`; a comparison with NaN is false, so only NaN-free corners and points qualify. */
  predicate ContainsPoint(b: AABB, p: Vec3)
    ensures ContainsPoint(b, p) ==> NoNaN(p) && NoNaN(b.min) && NoNaN(b.max)
  {
    && (LessEq(b.min.x, p.x) && LessEq(p.x, b.max.x))
    && (LessEq(b.min.y, p.y) && LessEq(p.y, b.max.y))
    && (LessEq(b.min.z, p.z) && LessEq(p.z, b.max.z))
  }

  /** `intersects(other)`. */
  predicate Intersects(a: AABB, o: AABB)
  {
    !(Less(a.max.x, o.min.x) || Less(o.max.x, a.min.x) ||
      Less(a.max.y, o.min.y) || Less(o.max.y, a.min.y) ||
      Less(a.max.z, o.min.z) || Less(o.max.z, a.min.z))
  }

  predicate NoNaN(v: Vec3) { !v.x.NaN? && !v.y.NaN? && !v.z.NaN? }

  /**
   * Containment agrees with intersection against the degenerate box `[p, p]`
   * when no coordinate is NaN; a point with a NaN coordinate lies in no box.
   */
  lemma ContainsIffPointBox(b: AABB, p: Vec3)
    ensures !NoNaN(p) ==> !ContainsPoint(b, p)
    ensures NoNaN(p) && NoNaN(b.min) && NoNaN(b.max) ==>
              (ContainsPoint(b, p) <==> Intersects(b, AABB(p, p)))
  {
  }

  /** Intersection is symmetric, NaN coordinates included. */
  lemma IntersectsSymmetric(a: AABB, o: AABB)
    ensures Intersects(a, o) == Intersects(o, a)
  {
  }

  /** For NaN-free boxes, they intersect iff their intervals overlap (touching included) on every axis. */
  lemma IntersectsIffOverlap(a: AABB, o: AABB)
    requires NoNaN(a.min) && NoNaN(a.max) && NoNaN(o.min) && NoNaN(o.max)
    ensures Intersects(a, o) <==>
              forall axis | 0 <= axis < 3 ::
                LessEq(Coord(o.min, axis), Coord(a.max, axis)) && LessEq(Coord(a.min, axis), Coord(o.max, axis))
  {
    if forall axis | 0 <= axis < 3 ::
         LessEq(Coord(o.min, axis), Coord(a.max, axis)) && LessEq(Coord(a.min, axis), Coord(o.max, axis)) {
      assert Coord(a.max, 0) == a.max.x && Coord(a.max, 1) == a.max.y && Coord(a.max, 2) == a.max.z;
    }
  }

  /** `b <= p <= c` excludes `c < b`. */
  lemma {:induction false} NotLessThrough(b: Num, p: Num, c: Num)
    requires LessEq(b, p) && LessEq(p, c)
    ensures !Less(c, b)
  {
  }

  /** A point both boxes contain makes them intersect. */
  lemma SharedPointIntersects(a: AABB, o: AABB, p: Vec3)
    requires ContainsPoint(a, p) && ContainsPoint(o, p)
    ensures Intersects(a, o)
  {
    NotLessThrough(o.min.x, p.x, a.max.x);
    NotLessThrough(a.min.x, p.x, o.max.x);
    NotLessThrough(o.min.y, p.y, a.max.y);
    NotLessThrough(a.min.y, p.y, o.max.y);
    NotLessThrough(o.min.z, p.z, a.max.z);
    NotLessThrough(a.min.z, p.z, o.max.z);
  }

  /** A NaN-free box with `min <= max` contains both corners and intersects itself. */
  lemma ProperBoxContainsCorners(b: AABB)
    requires LessEq(b.min.x, b.max.x) && LessEq(b.min.y, b.max.y) && LessEq(b.min.z, b.max.z)
    ensures ContainsPoint(b, b.min) && ContainsPoint(b, b.max)
    ensures Intersects(b, b)
  {
    SharedPointIntersects(b, b, b.min);
  }

  function V(x: real, y: real, z: real): Vec3 { Vec3(Finite(x), Finite(y), Finite(z)) }

  /** Boxes sharing only a face, an edge or a corner intersect; one unit further apart they do not. */
  lemma TouchingFacesCount()
    ensures Intersects(AABB(V(0.0, 0.0, 0.0), V(1.0, 1.0, 1.0)), AABB(V(1.0, 0.0, 0.0), V(2.0, 1.0, 1.0)))
    ensures Intersects(AABB(V(0.0, 0.0, 0.0), V(1.0, 1.0, 1.0)), AABB(V(1.0, 1.0, 1.0), V(2.0, 2.0, 2.0)))
    ensures !Intersects(AABB(V(0.0, 0.0, 0.0), V(1.0, 1.0, 1.0)), AABB(V(2.0, 0.0, 0.0), V(3.0, 1.0, 1.0)))
    ensures ContainsPoint(AABB(V(0.0, 0.0, 0.0), V(1.0, 1.0, 1.0)), V(1.0, 0.0, 0.5))
    ensures !ContainsPoint(AABB(V(0.0, 0.0, 0.0), V(1.0, 1.0, 1.0)), V(1.5, 0.0, 0.5))
  {
  }

  /** A NaN coordinate defeats every comparison: nothing is contained, yet intersection is not refuted. */
  lemma NaNCoordinates(b: AABB, p: Vec3, o: AABB)
    requires p.x.NaN?
    requires b.min.x.NaN? && b.min.y.NaN? && b.min.z.NaN? && b.max.x.NaN? && b.max.y.NaN? && b.max.z.NaN?
    ensures !ContainsPoint(b, p)
    ensures Intersects(b, o)
  {
  }
}
