/** The sphere primitive (struct Sphere): its ray intersection, which keeps only
    the near root of the quadratic, and its surface normal. */
module Spheres {
  import opened Vectors
  import opened Colors
  import opened Rays

  datatype Sphere = Sphere(center: Vec3, radius: real, color: Color, metallic: real, transparency: real)

  /** The material ranges the scene keeps: a positive radius, non-negative
      base colour, and metallic and transparency weights in [0, 1]. */
  predicate WellFormed(s: Sphere) {
    0.0 < s.radius && NonNegative(s.color) &&
    0.0 <= s.metallic <= 1.0 && 0.0 <= s.transparency <= 1.0
  }

  /** The self-intersection threshold `0.001f`. */
  const Epsilon: real := 0.001

  /** The value `intersect` returns when the ray does not hit. */
  const NoHit: real := -1.0

  ghost predicate OnSphere(s: Sphere, p: Vec3) {
    Dot(Sub(p, s.center), Sub(p, s.center)) == s.radius * s.radius
  }

  /** The coefficients of a t^2 + b t + c = 0, whose roots are the parameters
      where the line of the ray meets the sphere. */
  datatype Quadratic = Quadratic(a: real, b: real, c: real) {
    function Discriminant(): real {
      b * b - 4.0 * a * c
    }
    function At(t: real): real {
      a * t * t + b * t + c
    }
  }

  function Coefficients(s: Sphere, ray: Ray): Quadratic {
    var oc := Sub(ray.origin, s.center);
    Quadratic(Dot(ray.direction, ray.direction),
              2.0 * Dot(oc, ray.direction),
              Dot(oc, oc) - s.radius * s.radius)
  }

  /** The smaller root (-b - sqrt(disc)) / (2a). */
  function NearRoot(m: MathLib, q: Quadratic): real
    requires q.a != 0.0
  {
    (-q.b - m.sqrt(q.Discriminant())) / (2.0 * q.a)
  }

  /** With an exact `sqrt` and a non-negative discriminant, the near root is a
      zero of the quadratic, and for a > 0 it is the smaller of the two. */
  lemma NearRootIsRoot(m: MathLib, q: Quadratic)
    requires SqrtExact(m)
    requires q.a != 0.0 && 0.0 <= q.Discriminant()
    ensures q.At(NearRoot(m, q)) == 0.0
    ensures 0.0 < q.a ==> NearRoot(m, q) <= (-q.b + m.sqrt(q.Discriminant())) / (2.0 * q.a)
  {
    var s := m.sqrt(q.Discriminant());
    ZeroRoot(q, s);
    if 0.0 < q.a {
      DivMonotone(-q.b - s, -q.b + s, 2.0 * q.a);
    }
  }

  /** `Sphere::intersect`: the near root when the discriminant is non-negative
      and that root exceeds `Epsilon`, and `NoHit` otherwise; the far root is
      never tried. For a zero direction (a == 0) the float division is 0/0,
      a NaN that fails the `> 0.001f` test, so the result is `NoHit`. */
  function Intersect(m: MathLib, s: Sphere, ray: Ray): (t: real)
    ensures t == NoHit || Epsilon < t
    ensures t != NoHit ==> ray.direction != Zero
  {
    var q := Coefficients(s, ray);
    if q.Discriminant() < 0.0 then NoHit
    else if q.a == 0.0 then NoHit
    else
      var t := NearRoot(m, q);
      if t > Epsilon then t else NoHit
  }

  /** `Sphere::normal`: the direction from the centre to the point, normalised. */
  function Normal(m: MathLib, s: Sphere, p: Vec3): (n: Vec3)
    ensures p == s.center ==> n == Zero
  {
    Normalize(m, Sub(p, s.center))
  }

  lemma DivMonotone(x: real, y: real, d: real)
    requires x <= y && 0.0 < d
    ensures x / d <= y / d
  {
    assert y / d - x / d == (y - x) / d;
  }

  lemma ZeroRoot(q: Quadratic, s: real)
    requires q.a != 0.0
    requires s * s == q.Discriminant()
    ensures q.At((-q.b - s) / (2.0 * q.a)) == 0.0
    ensures q.At((-q.b + s) / (2.0 * q.a)) == 0.0
  {
    var a, b, c := q.a, q.b, q.c;
    var t1 := (-b - s) / (2.0 * a);
    var t2 := (-b + s) / (2.0 * a);
    assert 2.0 * a * t1 == -b - s;
    assert 2.0 * a * t2 == -b + s;
    assert 4.0 * a * q.At(t1) == (2.0 * a * t1) * (2.0 * a * t1) + 2.0 * b * (2.0 * a * t1) + 4.0 * a * c;
    assert 4.0 * a * q.At(t2) == (2.0 * a * t2) * (2.0 * a * t2) + 2.0 * b * (2.0 * a * t2) + 4.0 * a * c;
  }

  /** The squared distance from the centre to the point at `t`, minus the
      squared radius, is the quadratic at `t`. */
  lemma QuadraticMeasuresSurface(s: Sphere, ray: Ray, t: real)
    ensures Dot(Sub(At(ray, t), s.center), Sub(At(ray, t), s.center)) - s.radius * s.radius
            == Coefficients(s, ray).At(t)
  {
    var oc := Sub(ray.origin, s.center);
    var d := ray.direction;
    var w := Scale(d, t);
    var p := Sub(At(ray, t), s.center);
    assert p == Add(oc, w);
    DotAdd(oc, w, p);
    DotAdd(oc, w, oc);
    DotAdd(oc, w, w);
    DotSymmetric(w, oc);
    DotScale(oc, d, t);
    ScaleLength(d, t);
    CoefficientsOf(s, ray);
  }

  /** A hit lies on the sphere's surface. */
  lemma IntersectOnSurface(m: MathLib, s: Sphere, ray: Ray)
    requires SqrtExact(m)
    requires Intersect(m, s, ray) != NoHit
    ensures OnSphere(s, At(ray, Intersect(m, s, ray)))
  {
    var q := Coefficients(s, ray);
    ZeroRoot(q, m.sqrt(q.Discriminant()));
    QuadraticMeasuresSurface(s, ray, Intersect(m, s, ray));
  }

  /** Every root of a quadratic with a > 0 is one of the two roots. */
  lemma RootsOfQuadratic(q: Quadratic, s: real, u: real)
    requires 0.0 < q.a && 0.0 <= s
    requires s * s == q.Discriminant()
    requires q.At(u) == 0.0
    ensures u == (-q.b - s) / (2.0 * q.a) || u == (-q.b + s) / (2.0 * q.a)
  {
    var a, b := q.a, q.b;
    var v := 2.0 * a * u + b;
    assert v * v == 4.0 * a * q.At(u) + q.Discriminant();
    assert (v - s) * (v + s) == 0.0;
    ZeroProduct(v - s, v + s);
  }

  /** A hit is the nearest point where the ray's line meets the surface: no
      surface point lies at a smaller parameter. */
  lemma IntersectNearest(m: MathLib, s: Sphere, ray: Ray, u: real)
    requires SqrtExact(m)
    requires Intersect(m, s, ray) != NoHit
    requires OnSphere(s, At(ray, u))
    ensures Intersect(m, s, ray) <= u
  {
    var q := Coefficients(s, ray);
    var root := m.sqrt(q.Discriminant());
    QuadraticMeasuresSurface(s, ray, u);
    DotSelf(ray.direction);
    RootsOfQuadratic(q, root, u);
    DivMonotone(-q.b - root, -q.b + root, 2.0 * q.a);
  }

  /** A miss means either that the line of the ray avoids the sphere, or that it
      enters the sphere at a parameter no greater than `Epsilon`. */
  lemma IntersectMiss(m: MathLib, s: Sphere, ray: Ray, u: real)
    requires SqrtExact(m)
    requires ray.direction != Zero
    requires Intersect(m, s, ray) == NoHit
    requires OnSphere(s, At(ray, u))
    ensures exists v :: v <= Epsilon && v <= u && OnSphere(s, At(ray, v))
  {
    var q := Coefficients(s, ray);
    QuadraticMeasuresSurface(s, ray, u);
    DotSelf(ray.direction);
    assert 0.0 < q.a;
    if q.Discriminant() < 0.0 {
      SquareZero(2.0 * q.a * u + q.b);
      assert false;
    }
    var root := m.sqrt(q.Discriminant());
    var v := NearRoot(m, q);
    ZeroRoot(q, root);
    QuadraticMeasuresSurface(s, ray, v);
    RootsOfQuadratic(q, root, u);
    DivMonotone(-q.b - root, -q.b + root, 2.0 * q.a);
    assert v <= Epsilon && v <= u && OnSphere(s, At(ray, v));
  }

  lemma AimedCoefficients(s: Sphere, ray: Ray, dist: real)
    requires IsUnit(ray.direction)
    requires s.center == At(ray, dist)
    ensures Coefficients(s, ray) == Quadratic(1.0, -2.0 * dist, dist * dist - s.radius * s.radius)
    ensures Coefficients(s, ray).Discriminant() == (2.0 * s.radius) * (2.0 * s.radius)
  {
    var d := ray.direction;
    var oc := Sub(ray.origin, s.center);
    assert oc == Scale(d, -dist) by {
      assert oc.x == -dist * d.x && oc.y == -dist * d.y && oc.z == -dist * d.z;
    }
    DotScale(d, d, -dist);
    ScaleLength(d, -dist);
  }

  /** A unit ray from outside aimed at the centre hits at the centre's distance
      minus the radius. */
  lemma IntersectThroughCenter(m: MathLib, s: Sphere, ray: Ray, dist: real)
    requires SqrtExact(m)
    requires IsUnit(ray.direction)
    requires 0.0 <= s.radius
    requires s.center == At(ray, dist)
    requires Epsilon < dist - s.radius
    ensures Intersect(m, s, ray) == dist - s.radius
  {
    var q := Coefficients(s, ray);
    AimedCoefficients(s, ray, dist);
    SqrtOfSquare(m, q.Discriminant(), 2.0 * s.radius);
    assert NearRoot(m, q) == (2.0 * dist - 2.0 * s.radius) / 2.0;
  }

  lemma CenteredCoefficients(s: Sphere, ray: Ray)
    requires IsUnit(ray.direction)
    requires ray.origin == s.center
    ensures Coefficients(s, ray) == Quadratic(1.0, 0.0, -(s.radius * s.radius))
  {
    CoefficientsOf(s, ray);
  }

  lemma CoefficientsOf(s: Sphere, ray: Ray)
    ensures var oc := Sub(ray.origin, s.center);
            Coefficients(s, ray).a == Dot(ray.direction, ray.direction) &&
            Coefficients(s, ray).b == 2.0 * Dot(oc, ray.direction) &&
            Coefficients(s, ray).c == Dot(oc, oc) - s.radius * s.radius
  {
  }

  /** The near root only: a unit ray starting at the centre meets the surface
      at parameter `radius`, yet `intersect` reports no hit. */
  lemma IntersectFromCenterMisses(m: MathLib, s: Sphere, ray: Ray)
    requires SqrtExact(m)
    requires IsUnit(ray.direction)
    requires 0.0 <= s.radius
    requires ray.origin == s.center
    ensures Intersect(m, s, ray) == NoHit
    ensures OnSphere(s, At(ray, s.radius))
  {
    var q := Coefficients(s, ray);
    CenteredCoefficients(s, ray);
    assert q.Discriminant() == (2.0 * s.radius) * (2.0 * s.radius);
    SqrtOfSquare(m, q.Discriminant(), 2.0 * s.radius);
    assert NearRoot(m, q) == -s.radius;
    assert Sub(At(ray, s.radius), s.center) == Scale(ray.direction, s.radius);
  }

  lemma SurfaceOffCenter(s: Sphere, p: Vec3)
    requires 0.0 < s.radius
    requires OnSphere(s, p)
    ensures Sub(p, s.center) != Zero
  {
    SquareZero(s.radius);
    DotSelf(Sub(p, s.center));
  }

  lemma ScaleToRadius(w: Vec3, r: real)
    requires 0.0 < r && Dot(w, w) == r * r
    ensures Dot(Scale(w, 1.0 / r), w) == r
  {
    var k := 1.0 / r;
    DotScale(w, w, k);
    assert k * r == 1.0;
    assert k * (r * r) == (k * r) * r;
  }

  /** The normal at a surface point is a unit vector pointing away from the
      centre, at distance `radius` along it. */
  lemma NormalOutward(m: MathLib, s: Sphere, p: Vec3)
    requires SqrtExact(m)
    requires 0.0 < s.radius
    requires OnSphere(s, p)
    ensures IsUnit(Normal(m, s, p))
    ensures Dot(Normal(m, s, p), Sub(p, s.center)) == s.radius
  {
    var w := Sub(p, s.center);
    var r := s.radius;
    SurfaceOffCenter(s, p);
    NormalizeUnit(m, w);
    SqrtOfSquare(m, Dot(w, w), r);
    assert Normal(m, s, p) == Scale(w, 1.0 / r);
    ScaleToRadius(w, r);
  }
}
