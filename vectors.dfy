/** The 3D vector value type of the ray tracer (struct Vec3) and the maths
    library functions it calls.

    Floats are modelled as reals. The C maths functions `sqrt`, `sin` and `cos`
    are not defined here: they are supplied by the caller as a `MathLib` value,
    and no law of them holds globally. Lemmas that need one take it as a
    precondition: an exact `sqrt` (`SqrtExact`), sin 0 == 0, or
    sin² + cos² == 1 at the angles they use. */
module Vectors {

  /** The maths library the renderer calls: total functions on reals. */
  datatype MathLib = MathLib(sqrt: real -> real, sin: real -> real, cos: real -> real)

  /** `sqrt` returns the non-negative square root of every non-negative real. */
  ghost predicate SqrtExact(m: MathLib) {
    forall x: real :: 0.0 <= x ==> 0.0 <= m.sqrt(x) && m.sqrt(x) * m.sqrt(x) == x
  }

  lemma ZeroProduct(a: real, b: real)
    requires a * b == 0.0
    ensures a == 0.0 || b == 0.0
  {
    if a != 0.0 {
      assert b == (a * b) / a;
    }
  }

  /** An exact `sqrt` of a square `y * y` is `y`, for non-negative `y`. */
  lemma SqrtOfSquare(m: MathLib, x: real, y: real)
    requires SqrtExact(m)
    requires 0.0 <= y && y * y == x
    ensures m.sqrt(x) == y
  {
    var s := m.sqrt(x);
    assert (s - y) * (s + y) == 0.0;
    ZeroProduct(s - y, s + y);
  }

  datatype Vec3 = Vec3(x: real, y: real, z: real)

  /** The default-constructed vector `Vec3()`. */
  const Zero := Vec3(0.0, 0.0, 0.0)

  function Add(u: Vec3, v: Vec3): Vec3 {
    Vec3(u.x + v.x, u.y + v.y, u.z + v.z)
  }

  /** Subtraction is the inverse of addition. */
  function Sub(u: Vec3, v: Vec3): (r: Vec3)
    ensures Add(r, v) == u
  {
    Vec3(u.x - v.x, u.y - v.y, u.z - v.z)
  }

  function Dot(u: Vec3, v: Vec3): real {
    u.x * v.x + u.y * v.y + u.z * v.z
  }

  function Scale(v: Vec3, s: real): Vec3 {
    Vec3(v.x * s, v.y * s, v.z * s)
  }

  /** The vector scaled to unit length, or the zero vector when its length is
      not positive. Whatever `sqrt` does, the zero vector stays zero. */
  function Normalize(m: MathLib, v: Vec3): (r: Vec3)
    ensures v == Zero ==> r == Zero
  {
    var len := m.sqrt(Dot(v, v));
    if len > 0.0 then Scale(v, 1.0 / len) else Zero
  }

  lemma SquareZero(a: real)
    ensures 0.0 <= a * a
    ensures a * a == 0.0 <==> a == 0.0
  {
    if a < 0.0 {
      assert a * a == (-a) * (-a);
    }
    if a != 0.0 {
      assert a * a / a == a;
    }
  }

  lemma SumZero(a: real, b: real, c: real)
    requires 0.0 <= a && 0.0 <= b && 0.0 <= c
    ensures a + b + c == 0.0 <==> a == 0.0 && b == 0.0 && c == 0.0
  {
  }

  /** A squared length is never negative, and only the zero vector has squared
      length zero. */
  lemma DotSelf(v: Vec3)
    ensures 0.0 <= Dot(v, v)
    ensures Dot(v, v) == 0.0 <==> v == Zero
  {
    var x, y, z := v.x, v.y, v.z;
    SquareZero(x);
    SquareZero(y);
    SquareZero(z);
    SumZero(x * x, y * y, z * z);
  }

  lemma DotSymmetric(u: Vec3, v: Vec3)
    ensures Dot(u, v) == Dot(v, u)
  {
  }

  lemma DotScale(u: Vec3, v: Vec3, k: real)
    ensures Dot(Scale(u, k), v) == k * Dot(u, v)
    ensures Dot(u, Scale(v, k)) == k * Dot(u, v)
  {
  }

  lemma DotAdd(u: Vec3, w: Vec3, v: Vec3)
    ensures Dot(Add(u, w), v) == Dot(u, v) + Dot(w, v)
    ensures Dot(v, Add(u, w)) == Dot(v, u) + Dot(v, w)
  {
  }

  lemma DotSub(u: Vec3, w: Vec3, v: Vec3)
    ensures Dot(Sub(u, w), v) == Dot(u, v) - Dot(w, v)
    ensures Dot(v, Sub(u, w)) == Dot(v, u) - Dot(v, w)
  {
  }

  /** Scaling by `k` scales the squared length by `k * k`. */
  lemma ScaleLength(v: Vec3, k: real)
    ensures Dot(Scale(v, k), Scale(v, k)) == k * k * Dot(v, v)
  {
    DotScale(v, Scale(v, k), k);
    DotScale(v, v, k);
  }

  /** The vector operators obey the laws of a vector space: addition is
      commutative with the zero vector as identity, scaling by 1 changes
      nothing, two scalings compose, and scaling distributes over addition. */
  lemma VectorLaws(u: Vec3, v: Vec3, a: real, b: real)
    ensures Add(u, v) == Add(v, u)
    ensures Add(u, Zero) == u
    ensures Scale(u, 1.0) == u
    ensures Scale(Scale(u, a), b) == Scale(u, a * b)
    ensures Scale(Add(u, v), a) == Add(Scale(u, a), Scale(v, a))
  {
  }

  /** The mirror image of `v` in the plane with normal `n`: v - (n * 2) * (v . n). */
  function Reflect(v: Vec3, n: Vec3): Vec3 {
    Sub(v, Scale(Scale(n, 2.0), Dot(v, n)))
  }

  ghost predicate IsUnit(v: Vec3) {
    Dot(v, v) == 1.0
  }

  lemma InverseSquare(d: real, len: real)
    requires 0.0 < len && len * len == d
    ensures (1.0 / len) * (1.0 / len) * d == 1.0
  {
    var k := 1.0 / len;
    assert k * len == 1.0;
    assert k * k * (len * len) == (k * len) * (k * len);
  }

  lemma SqrtPositive(m: MathLib, d: real)
    requires SqrtExact(m)
    requires 0.0 < d
    ensures 0.0 < m.sqrt(d)
  {
    var len := m.sqrt(d);
    if len == 0.0 {
      assert len * len == 0.0;
    }
  }

  /** With an exact `sqrt`, a nonzero vector normalises to a unit vector. */
  lemma NormalizeUnit(m: MathLib, v: Vec3)
    requires SqrtExact(m)
    ensures v == Zero <==> Normalize(m, v) == Zero
    ensures v != Zero ==> IsUnit(Normalize(m, v))
  {
    var d := Dot(v, v);
    var len := m.sqrt(d);
    DotSelf(v);
    if v != Zero {
      SqrtPositive(m, d);
      var k := 1.0 / len;
      var n := Scale(v, k);
      assert Normalize(m, v) == n;
      ScaleLength(v, k);
      InverseSquare(d, len);
      assert Dot(n, n) == 1.0;
      DotSelf(n);
    }
  }

  /** Normalising is idempotent: a unit vector is its own normalisation. */
  lemma NormalizeIdempotent(m: MathLib, v: Vec3)
    requires SqrtExact(m)
    ensures Normalize(m, Normalize(m, v)) == Normalize(m, v)
  {
    NormalizeUnit(m, v);
    var n := Normalize(m, v);
    if v != Zero {
      SqrtOfSquare(m, Dot(n, n), 1.0);
      assert Scale(n, 1.0 / 1.0) == n;
    }
  }

  /** With an exact `sqrt`, a unit vector normalises to itself. */
  lemma NormalizeOfUnit(m: MathLib, v: Vec3)
    requires SqrtExact(m)
    requires IsUnit(v)
    ensures Normalize(m, v) == v
  {
    SqrtOfSquare(m, Dot(v, v), 1.0);
    assert Scale(v, 1.0 / 1.0) == v;
  }

  /** A vector in the mirror plane is its own reflection, and a unit normal
      is reversed by reflection. */
  lemma ReflectFixesPlane(v: Vec3, n: Vec3)
    ensures Dot(v, n) == 0.0 ==> Reflect(v, n) == v
    ensures IsUnit(n) ==> Reflect(n, n) == Scale(n, -1.0)
  {
  }

  /** For a unit normal, reflection negates the component along the normal. */
  lemma ReflectAlongNormal(v: Vec3, n: Vec3)
    requires IsUnit(n)
    ensures Dot(Reflect(v, n), n) == -Dot(v, n)
  {
    var k := Dot(v, n);
    var w := Scale(Scale(n, 2.0), k);
    DotSub(v, w, n);
    DotScale(Scale(n, 2.0), n, k);
    DotScale(n, n, 2.0);
  }

  /** For a unit normal, reflection keeps the length and undoes itself. */
  lemma ReflectInvolution(v: Vec3, n: Vec3)
    requires IsUnit(n)
    ensures Dot(Reflect(v, n), Reflect(v, n)) == Dot(v, v)
    ensures Reflect(Reflect(v, n), n) == v
  {
    var k := Dot(v, n);
    var w := Scale(Scale(n, 2.0), k);
    var r := Reflect(v, n);
    ReflectAlongNormal(v, n);
    // |v - w|^2 = |v|^2 - 2 v.w + |w|^2, with v.w = 2k^2 and |w|^2 = 4k^2
    DotSub(v, w, r);
    DotSub(v, w, v);
    DotSub(v, w, w);
    DotSymmetric(w, v);
    DotScale(v, Scale(n, 2.0), k);
    DotScale(v, n, 2.0);
    ScaleLength(Scale(n, 2.0), k);
    ScaleLength(n, 2.0);
    assert Dot(v, w) == 2.0 * k * k;
    assert Dot(w, w) == 4.0 * k * k;
    // the second reflection adds back 2k n
    assert Scale(Scale(n, 2.0), Dot(r, n)) == Scale(Scale(n, 2.0), -k);
  }
}
