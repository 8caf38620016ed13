/** The ray value type (struct Ray): an origin and a direction that the
    constructor normalises. */
module Rays {
  import opened Vectors

  datatype Ray = Ray(origin: Vec3, direction: Vec3)

  /** The constructor `Ray(o, d)`, which stores `d.normalize()`. */
  function MakeRay(m: MathLib, o: Vec3, d: Vec3): (r: Ray)
    ensures r.origin == o
    ensures d == Zero ==> r.direction == Zero
  {
    Ray(o, Normalize(m, d))
  }

  /** With an exact `sqrt`, a ray built from a nonzero direction has a unit direction. */
  lemma MakeRayUnit(m: MathLib, o: Vec3, d: Vec3)
    requires SqrtExact(m)
    requires d != Zero
    ensures IsUnit(MakeRay(m, o, d).direction)
  {
    NormalizeUnit(m, d);
  }

  /** The point at parameter `t` along the ray. */
  function At(ray: Ray, t: real): (p: Vec3)
    ensures Sub(p, ray.origin) == Scale(ray.direction, t)
  {
    Add(ray.origin, Scale(ray.direction, t))
  }

  /** Along a unit direction, the point at `t` lies at distance |t| from the origin. */
  lemma AtDistance(ray: Ray, t: real)
    requires IsUnit(ray.direction)
    ensures Dot(Sub(At(ray, t), ray.origin), Sub(At(ray, t), ray.origin)) == t * t
  {
    ScaleLength(ray.direction, t);
  }
}
