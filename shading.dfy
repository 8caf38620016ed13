/** The light transport of `RealTimeRayTracer::trace`, as functions of the
    scene: the nearest-hit scan, direct lighting, the metallic and
    transparency blends, each recursing one level deeper, and the final
    clamp. The renderer's `Trace` method computes the same colour step by
    step. */
module Shading {
  import opened Vectors
  import opened Colors
  import opened Rays
  import opened Spheres
  import opened Scene

  /** The scan's initial `closest_t` of `1e30f`: a sphere is only taken when
      its intersection is below it. */
  const Far: real := 1_000_000_000_000_000_000_000_000_000_000.0

  /** Recursion stops once the depth exceeds 5. */
  const MaxDepth: nat := 5

  /** The background colour (0.1, 0.1, 0.2). */
  const Sky := Color(0.1, 0.1, 0.2)

  /** The offset `0.001f` along the normal for secondary ray origins. */
  const Offset: real := 0.001

  /** The outcome of the scan: `hit_sphere` as an index into the scene, or none. */
  datatype Nearest = NoSphere | Hit(index: nat, t: real)

  /** `closest_t` after the scan. */
  function ClosestT(h: Nearest): real {
    if h.Hit? then h.t else Far
  }

  /** An intersection value the scan can take at all. */
  predicate Qualifies(t: real) {
    0.0 < t < Far
  }

  /** The intersection value of each sphere, in scene order. */
  function Distances(m: MathLib, scene: seq<Sphere>, ray: Ray): (ts: seq<real>)
    ensures |ts| == |scene|
    ensures forall j :: 0 <= j < |scene| ==> ts[j] == Intersect(m, scene[j], ray)
  {
    seq(|scene|, j requires 0 <= j < |scene| => Intersect(m, scene[j], ray))
  }

  /** The scan over the intersection values in list order, written as a
      recursion on the prefix scanned so far. The result is the FIRST index
      with the smallest qualifying value: earlier values are strictly larger,
      later ones no smaller; and there is no hit exactly when no value
      qualifies. */
  function Closest(ts: seq<real>): (h: Nearest)
    ensures h.NoSphere? <==> forall j :: 0 <= j < |ts| ==> !Qualifies(ts[j])
    ensures h.Hit? ==> h.index < |ts| && h.t == ts[h.index] && Qualifies(h.t)
    ensures h.Hit? ==> forall j :: 0 <= j < h.index && Qualifies(ts[j]) ==> h.t < ts[j]
    ensures h.Hit? ==> forall j :: h.index < j < |ts| && Qualifies(ts[j]) ==> h.t <= ts[j]
  {
    if ts == [] then NoSphere
    else
      var prefix := ts[..|ts| - 1];
      assert forall j :: 0 <= j < |prefix| ==> prefix[j] == ts[j];
      var prev := Closest(prefix);
      var t := ts[|ts| - 1];
      if t > 0.0 && t < ClosestT(prev) then Hit(|ts| - 1, t) else prev
  }

  /** The sphere `trace` shades, with its intersection value. */
  function NearestHit(m: MathLib, scene: seq<Sphere>, ray: Ray): (h: Nearest)
    ensures h.Hit? ==> h.index < |scene|
  {
    Closest(Distances(m, scene, ray))
  }

  /** The scan in terms of the spheres: no hit exactly when no sphere is hit
      in front of the ray (and nearer than `Far`); otherwise the hit is the
      first sphere at the smallest such intersection value. */
  lemma NearestHitIsNearest(m: MathLib, scene: seq<Sphere>, ray: Ray)
    ensures var h := NearestHit(m, scene, ray);
            (h.NoSphere? <==> forall j :: 0 <= j < |scene| ==> !Qualifies(Intersect(m, scene[j], ray))) &&
            (h.Hit? ==> h.t == Intersect(m, scene[h.index], ray) && Qualifies(h.t) &&
                        (forall j :: 0 <= j < h.index && Qualifies(Intersect(m, scene[j], ray)) ==>
                           h.t < Intersect(m, scene[j], ray)) &&
                        (forall j :: h.index < j < |scene| && Qualifies(Intersect(m, scene[j], ray)) ==>
                           h.t <= Intersect(m, scene[j], ray)))
  {
    var ts := Distances(m, scene, ray);
    var h := Closest(ts);
    assert NearestHit(m, scene, ray) == h;
  }

  function LightPosition(m: MathLib, time: real): Vec3 {
    Vec3(m.sin(time) * 3.0, 2.0, m.cos(time) * 3.0 - 3.0)
  }

  /** When sin and cos of `time` satisfy sin² + cos² == 1, the light moves on
      the circle of radius 3 about (0, 2, -3) in the plane y == 2. */
  lemma LightOrbit(m: MathLib, time: real)
    requires m.sin(time) * m.sin(time) + m.cos(time) * m.cos(time) == 1.0
    ensures LightPosition(m, time).y == 2.0
    ensures var d := Sub(LightPosition(m, time), Vec3(0.0, 2.0, -3.0)); Dot(d, d) == 9.0
  {
    var s, c := m.sin(time), m.cos(time);
    var d := Sub(LightPosition(m, time), Vec3(0.0, 2.0, -3.0));
    assert d == Vec3(s * 3.0, 0.0, c * 3.0);
    assert (s * 3.0) * (s * 3.0) + (c * 3.0) * (c * 3.0) == 9.0 * (s * s + c * c);
  }

  /** `std::max(0.0f, v)` */
  function Max0(v: real): real {
    if 0.0 < v then v else 0.0
  }

  /** Direct lighting: the base colour times 0.1 + 0.9 * max(0, n . l). */
  function Direct(m: MathLib, s: Sphere, time: real, p: Vec3, n: Vec3): (c: Color)
    ensures NonNegative(s.color) ==> NonNegative(c)
  {
    var lightDir := Normalize(m, Sub(LightPosition(m, time), p));
    ColorScale(s.color, 0.1 + Max0(Dot(n, lightDir)) * 0.9)
  }

  /** The blend c * (1 - w) + d * w. */
  function Mix(c: Color, d: Color, w: real): Color {
    ColorAdd(ColorScale(c, 1.0 - w), ColorScale(d, w))
  }

  /** With a weight in [0, 1] the blend keeps non-negative colours
      non-negative. */
  lemma MixNonNegative(c: Color, d: Color, w: real)
    requires NonNegative(c) && NonNegative(d) && 0.0 <= w <= 1.0
    ensures NonNegative(Mix(c, d, w))
  {
  }

  /** The blend interpolates: weight 0 gives the first colour, weight 1 the
      second, and blending a colour with itself gives it back. */
  lemma MixEnds(c: Color, d: Color, w: real)
    ensures Mix(c, d, 0.0) == c
    ensures Mix(c, d, 1.0) == d
    ensures Mix(c, c, w) == c
  {
  }

  /** The mirror ray, from just outside the surface. */
  function ReflectedRay(m: MathLib, ray: Ray, p: Vec3, n: Vec3): Ray {
    MakeRay(m, Add(p, Scale(n, Offset)), Reflect(ray.direction, n))
  }

  /** The ray that continues along the incoming direction from just inside the surface. */
  function TransmittedRay(m: MathLib, ray: Ray, p: Vec3, n: Vec3): Ray {
    MakeRay(m, Sub(p, Scale(n, Offset)), ray.direction)
  }

  /** For a unit incoming direction and a unit normal, the constructor's
      normalisation changes neither secondary direction: the reflected ray
      runs along the mirror image of the incoming direction, leaving the
      surface as steeply as the ray arrived, and the transmitted ray keeps
      the incoming direction. */
  lemma SecondaryRayDirections(m: MathLib, ray: Ray, p: Vec3, n: Vec3)
    requires SqrtExact(m)
    requires IsUnit(ray.direction) && IsUnit(n)
    ensures ReflectedRay(m, ray, p, n).direction == Reflect(ray.direction, n)
    ensures IsUnit(ReflectedRay(m, ray, p, n).direction)
    ensures Dot(ReflectedRay(m, ray, p, n).direction, n) == -Dot(ray.direction, n)
    ensures TransmittedRay(m, ray, p, n).direction == ray.direction
  {
    var r := Reflect(ray.direction, n);
    ReflectInvolution(ray.direction, n);
    ReflectAlongNormal(ray.direction, n);
    NormalizeOfUnit(m, r);
    NormalizeOfUnit(m, ray.direction);
  }

  /** What `trace` computes at a hit point before recursing: the point, the
      normal, the direct term and the two secondary rays. */
  datatype Surface = Surface(sphere: Sphere, point: Vec3, normal: Vec3, direct: Color, reflected: Ray, transmitted: Ray)

  /** The hit point on sphere `s` at parameter `t` along the ray. Its direct
      term is non-negative when the sphere's colour is, and the secondary rays
      start on either side of the point, `Offset` along the normal. */
  function SurfaceAt(m: MathLib, s: Sphere, time: real, ray: Ray, t: real): (h: Surface)
    ensures h.sphere == s
    ensures NonNegative(s.color) ==> NonNegative(h.direct)
    ensures h.reflected.origin == Add(h.point, Scale(h.normal, Offset))
    ensures h.transmitted.origin == Sub(h.point, Scale(h.normal, Offset))
  {
    var p := At(ray, t);
    var n := Normal(m, s, p);
    Surface(s, p, n, Direct(m, s, time, p, n), ReflectedRay(m, ray, p, n), TransmittedRay(m, ray, p, n))
  }

  /** The `decreases` measure of the recursion: levels left before the cut-off. */
  function Remaining(depth: nat): nat {
    if depth > MaxDepth then 0 else MaxDepth + 1 - depth
  }

  /** The colour `trace(ray, depth)` returns: the sky past the maximum depth,
      and no channel ever exceeds 1. */
  function Shade(m: MathLib, scene: seq<Sphere>, time: real, ray: Ray, depth: nat): (c: Color)
    decreases Remaining(depth), 3
    ensures AtMostOne(c)
    ensures depth > MaxDepth ==> c == Sky
  {
    if depth > MaxDepth then Sky else ShadeNearest(m, scene, time, ray, depth)
  }

  /** Below the cut-off: the sky when no sphere is hit, otherwise the colour
      of the hit point on the nearest sphere. */
  function ShadeNearest(m: MathLib, scene: seq<Sphere>, time: real, ray: Ray, depth: nat): (c: Color)
    requires depth <= MaxDepth
    decreases Remaining(depth), 2
    ensures AtMostOne(c)
  {
    match NearestHit(m, scene, ray)
    case NoSphere => Sky
    case Hit(i, t) => ShadeSurface(m, scene, time, SurfaceAt(m, scene[i], time, ray, t), depth)
  }

  /** The colour at a hit point: the direct term, blended with the reflected
      colour by `metallic`, then with the transmitted colour by
      `transparency`, then clamped. */
  function ShadeSurface(m: MathLib, scene: seq<Sphere>, time: real, h: Surface, depth: nat): (c: Color)
    requires depth <= MaxDepth
    decreases Remaining(depth), 1
    ensures AtMostOne(c)
  {
    var metal := Blend(m, scene, time, h.direct, h.reflected, h.sphere.metallic, depth);
    Clamp(Blend(m, scene, time, metal, h.transmitted, h.sphere.transparency, depth))
  }

  /** One secondary ray's share: when the weight is positive, the ray is
      traced one level deeper and its colour mixed in with that weight;
      otherwise the colour so far is kept and the ray is not traced. */
  function Blend(m: MathLib, scene: seq<Sphere>, time: real, base: Color, r: Ray, w: real, depth: nat): Color
    requires depth <= MaxDepth
    decreases Remaining(depth), 0
  {
    if w > 0.0 then Mix(base, Shade(m, scene, time, r, depth + 1), w) else base
  }

  /** A ray that hits nothing is given the sky colour. */
  lemma ShadeMiss(m: MathLib, scene: seq<Sphere>, time: real, ray: Ray, depth: nat)
    requires NearestHit(m, scene, ray).NoSphere?
    ensures Shade(m, scene, time, ray, depth) == Sky
    ensures CallDepths(m, scene, time, ray, depth) == [depth]
  {
    if depth <= MaxDepth {
      assert Shade(m, scene, time, ray, depth) == ShadeNearest(m, scene, time, ray, depth);
      assert CallDepths(m, scene, time, ray, depth) == [depth] + NearestCallDepths(m, scene, time, ray, depth);
    }
  }

  /** A ray that hits a sphere below the cut-off is given the colour of the
      hit point on the nearest sphere, and makes the calls that shading that
      point makes. */
  lemma ShadeNearestSurface(m: MathLib, scene: seq<Sphere>, time: real, ray: Ray, depth: nat)
    requires depth <= MaxDepth
    requires NearestHit(m, scene, ray).Hit?
    ensures var h := NearestHit(m, scene, ray);
            Shade(m, scene, time, ray, depth) == ShadeSurface(m, scene, time, SurfaceAt(m, scene[h.index], time, ray, h.t), depth)
    ensures var h := NearestHit(m, scene, ray);
            CallDepths(m, scene, time, ray, depth) == [depth] + SurfaceCallDepths(m, scene, time, SurfaceAt(m, scene[h.index], time, ray, h.t), depth)
  {
    assert Shade(m, scene, time, ray, depth) == ShadeNearest(m, scene, time, ray, depth);
    assert CallDepths(m, scene, time, ray, depth) == [depth] + NearestCallDepths(m, scene, time, ray, depth);
  }

  /** In a well-formed scene every traced colour has all channels in [0, 1],
      so the 8-bit conversion of the frame buffer is in range. */
  lemma {:induction false} ShadeInUnitRange(m: MathLib, scene: seq<Sphere>, time: real, ray: Ray, depth: nat)
    requires WellFormedScene(scene)
    ensures InUnitRange(Shade(m, scene, time, ray, depth))
    decreases Remaining(depth), 3
  {
    if depth <= MaxDepth {
      ShadeNearestInUnitRange(m, scene, time, ray, depth);
    }
  }

  lemma {:induction false} ShadeNearestInUnitRange(m: MathLib, scene: seq<Sphere>, time: real, ray: Ray, depth: nat)
    requires WellFormedScene(scene)
    requires depth <= MaxDepth
    ensures InUnitRange(ShadeNearest(m, scene, time, ray, depth))
    decreases Remaining(depth), 2
  {
    match NearestHit(m, scene, ray)
    case NoSphere =>
    case Hit(i, t) =>
      assert WellFormed(scene[i]);
      ShadeSurfaceInUnitRange(m, scene, time, SurfaceAt(m, scene[i], time, ray, t), depth);
  }

  /** The colour at a hit point on a well-formed sphere is in [0, 1]: the
      direct term is non-negative, each blend weight is in [0, 1], and the
      clamp caps every channel at 1. */
  lemma {:induction false} ShadeSurfaceInUnitRange(m: MathLib, scene: seq<Sphere>, time: real, h: Surface, depth: nat)
    requires WellFormedScene(scene) && WellFormed(h.sphere) && NonNegative(h.direct)
    requires depth <= MaxDepth
    ensures InUnitRange(ShadeSurface(m, scene, time, h, depth))
    decreases Remaining(depth), 1
  {
    var metal := Blend(m, scene, time, h.direct, h.reflected, h.sphere.metallic, depth);
    BlendNonNegative(m, scene, time, h.direct, h.reflected, h.sphere.metallic, depth);
    var glass := Blend(m, scene, time, metal, h.transmitted, h.sphere.transparency, depth);
    BlendNonNegative(m, scene, time, metal, h.transmitted, h.sphere.transparency, depth);
    assert ShadeSurface(m, scene, time, h, depth) == Clamp(glass);
    ClampIdempotent(glass);
  }

  /** Mixing in a traced colour with a weight of at most 1 keeps a
      non-negative colour non-negative. */
  lemma {:induction false} BlendNonNegative(m: MathLib, scene: seq<Sphere>, time: real, base: Color, r: Ray, w: real, depth: nat)
    requires WellFormedScene(scene) && NonNegative(base) && w <= 1.0
    requires depth <= MaxDepth
    ensures NonNegative(Blend(m, scene, time, base, r, w, depth))
    decreases Remaining(depth), 0
  {
    if w > 0.0 {
      ShadeInUnitRange(m, scene, time, r, depth + 1);
      MixNonNegative(base, Shade(m, scene, time, r, depth + 1), w);
    }
  }

  /** A sphere that is neither metallic nor transparent is shaded by its
      direct term alone: no ray is traced further. */
  lemma ShadeMatte(m: MathLib, scene: seq<Sphere>, time: real, h: Surface, depth: nat)
    requires depth <= MaxDepth
    requires h.sphere.metallic <= 0.0 && h.sphere.transparency <= 0.0
    ensures ShadeSurface(m, scene, time, h, depth) == Clamp(h.direct)
    ensures SurfaceCallDepths(m, scene, time, h, depth) == []
  {
    assert Blend(m, scene, time, h.direct, h.reflected, h.sphere.metallic, depth) == h.direct;
    assert Blend(m, scene, time, h.direct, h.transmitted, h.sphere.transparency, depth) == h.direct;
  }

  /** A fully metallic, opaque sphere shows only what its reflected ray sees. */
  lemma ShadeMirror(m: MathLib, scene: seq<Sphere>, time: real, h: Surface, depth: nat)
    requires depth <= MaxDepth
    requires h.sphere.metallic == 1.0 && h.sphere.transparency <= 0.0
    ensures ShadeSurface(m, scene, time, h, depth) == Shade(m, scene, time, h.reflected, depth + 1)
  {
    var reflected := Shade(m, scene, time, h.reflected, depth + 1);
    MixEnds(h.direct, reflected, 1.0);
    assert Blend(m, scene, time, h.direct, h.reflected, 1.0, depth) == reflected;
    assert Blend(m, scene, time, reflected, h.transmitted, h.sphere.transparency, depth) == reflected;
    assert ShadeSurface(m, scene, time, h, depth) == Clamp(reflected);
    ClampIdempotent(reflected);
  }

  /** A point facing away from the light gets only the ambient term: 0.1
      times the sphere's colour. */
  lemma Unlit(m: MathLib, s: Sphere, time: real, p: Vec3, n: Vec3)
    requires Dot(n, Normalize(m, Sub(LightPosition(m, time), p))) <= 0.0
    ensures Direct(m, s, time, p, n) == ColorScale(s.color, 0.1)
  {
  }

  /** The depth-first order of the calls `trace(ray, depth)` makes, as their
      depths, itself first: each call makes at most two more, one level deeper. */
  function CallDepths(m: MathLib, scene: seq<Sphere>, time: real, ray: Ray, depth: nat): seq<nat>
    decreases Remaining(depth), 3
  {
    if depth > MaxDepth then [depth] else [depth] + NearestCallDepths(m, scene, time, ray, depth)
  }

  /** The depths of the calls made below the cut-off: none on a miss. */
  function NearestCallDepths(m: MathLib, scene: seq<Sphere>, time: real, ray: Ray, depth: nat): seq<nat>
    requires depth <= MaxDepth
    decreases Remaining(depth), 2
  {
    match NearestHit(m, scene, ray)
    case NoSphere => []
    case Hit(i, t) => SurfaceCallDepths(m, scene, time, SurfaceAt(m, scene[i], time, ray, t), depth)
  }

  /** The depths of the calls made to shade a hit point: the reflected ray's
      calls, then the transmitted ray's. */
  function SurfaceCallDepths(m: MathLib, scene: seq<Sphere>, time: real, h: Surface, depth: nat): seq<nat>
    requires depth <= MaxDepth
    decreases Remaining(depth), 1
  {
    Branch(m, scene, time, h.reflected, h.sphere.metallic > 0.0, depth)
    + Branch(m, scene, time, h.transmitted, h.sphere.transparency > 0.0, depth)
  }

  /** The calls a secondary ray makes when it is traced at all. */
  function Branch(m: MathLib, scene: seq<Sphere>, time: real, r: Ray, on: bool, depth: nat): seq<nat>
    requires depth <= MaxDepth
    decreases Remaining(depth), 0
  {
    if on then CallDepths(m, scene, time, r, depth + 1) else []
  }

  /** The largest number of calls a `trace` started at `depth` can make,
      itself included: one, plus two full subtrees below the cut-off. */
  function MaxCalls(depth: nat): (n: nat)
    decreases Remaining(depth)
    ensures 1 <= n
  {
    if depth > MaxDepth then 1 else 1 + 2 * MaxCalls(depth + 1)
  }

  function Pow2(k: nat): (r: nat)
    ensures 1 <= r
  {
    if k == 0 then 1 else 2 * Pow2(k - 1)
  }

  /** The bound in closed form, 2^(7-d) - 1: 127 calls for a primary ray. */
  lemma {:induction false} MaxCallsClosedForm(depth: nat)
    requires depth <= MaxDepth + 1
    ensures MaxCalls(depth) == Pow2(MaxDepth + 2 - depth) - 1
    decreases Remaining(depth)
  {
    if depth <= MaxDepth {
      MaxCallsClosedForm(depth + 1);
      assert Pow2(MaxDepth + 2 - depth) == 2 * Pow2(MaxDepth + 2 - (depth + 1));
    }
  }

  /** A trace started at depth 0, as for a primary ray, makes at most 127
      calls of `trace` in all, none deeper than 6. */
  lemma PrimaryRayCalls(m: MathLib, scene: seq<Sphere>, time: real, ray: Ray)
    ensures MaxCalls(0) == 127
    ensures var ds := CallDepths(m, scene, time, ray, 0);
            |ds| <= 127 && forall k :: 0 <= k < |ds| ==> ds[k] <= MaxDepth + 1
  {
    CallDepthsBounded(m, scene, time, ray, 0);
    MaxCallsClosedForm(0);
    assert Pow2(7) == 128;
  }

  /** The recursion is bounded: started at depth d <= 6, the call itself runs
      at depth d, every nested call at a depth in (d, 6], and there are at most
      `MaxCalls(d)` calls in all. */
  lemma {:induction false} CallDepthsBounded(m: MathLib, scene: seq<Sphere>, time: real, ray: Ray, depth: nat)
    requires depth <= MaxDepth + 1
    ensures var ds := CallDepths(m, scene, time, ray, depth);
            0 < |ds| <= MaxCalls(depth) && ds[0] == depth &&
            forall k :: 0 < k < |ds| ==> depth < ds[k] <= MaxDepth + 1
    decreases Remaining(depth), 3
  {
    if depth <= MaxDepth {
      NearestCallDepthsBounded(m, scene, time, ray, depth);
      var rest := NearestCallDepths(m, scene, time, ray, depth);
      var ds := [depth] + rest;
      assert ds == CallDepths(m, scene, time, ray, depth);
      assert forall k :: 0 < k < |ds| ==> ds[k] == rest[k - 1];
    }
  }

  lemma {:induction false} NearestCallDepthsBounded(m: MathLib, scene: seq<Sphere>, time: real, ray: Ray, depth: nat)
    requires depth <= MaxDepth
    ensures var ds := NearestCallDepths(m, scene, time, ray, depth);
            |ds| <= 2 * MaxCalls(depth + 1) &&
            forall k :: 0 <= k < |ds| ==> depth < ds[k] <= MaxDepth + 1
    decreases Remaining(depth), 2
  {
    match NearestHit(m, scene, ray)
    case NoSphere =>
    case Hit(i, t) =>
      SurfaceCallDepthsBounded(m, scene, time, SurfaceAt(m, scene[i], time, ray, t), depth);
  }

  /** Shading a hit point at depth d makes at most 2 * MaxCalls(d + 1) nested
      calls, all at depths in (d, 6]. */
  lemma {:induction false} SurfaceCallDepthsBounded(m: MathLib, scene: seq<Sphere>, time: real, h: Surface, depth: nat)
    requires depth <= MaxDepth
    ensures var ds := SurfaceCallDepths(m, scene, time, h, depth);
            |ds| <= 2 * MaxCalls(depth + 1) &&
            forall k :: 0 <= k < |ds| ==> depth < ds[k] <= MaxDepth + 1
    decreases Remaining(depth), 1
  {
    BranchBounded(m, scene, time, h.reflected, h.sphere.metallic > 0.0, depth);
    BranchBounded(m, scene, time, h.transmitted, h.sphere.transparency > 0.0, depth);
    Bounded(Branch(m, scene, time, h.reflected, h.sphere.metallic > 0.0, depth),
            Branch(m, scene, time, h.transmitted, h.sphere.transparency > 0.0, depth),
            depth + 1, MaxDepth + 1, MaxCalls(depth + 1));
  }

  lemma {:induction false} BranchBounded(m: MathLib, scene: seq<Sphere>, time: real, r: Ray, on: bool, depth: nat)
    requires depth <= MaxDepth
    ensures var ds := Branch(m, scene, time, r, on, depth);
            |ds| <= MaxCalls(depth + 1) &&
            forall k :: 0 <= k < |ds| ==> depth < ds[k] <= MaxDepth + 1
    decreases Remaining(depth), 0
  {
    if on {
      CallDepthsBounded(m, scene, time, r, depth + 1);
      assert Branch(m, scene, time, r, on, depth) == CallDepths(m, scene, time, r, depth + 1);
    } else {
      assert Branch(m, scene, time, r, on, depth) == [];
    }
  }

  /** Two sequences of depths within bounds concatenate within bounds. */
  lemma Bounded(left: seq<nat>, right: seq<nat>, lo: nat, hi: nat, size: nat)
    requires |left| <= size && |right| <= size
    requires forall k :: 0 <= k < |left| ==> lo <= left[k] <= hi
    requires forall k :: 0 <= k < |right| ==> lo <= right[k] <= hi
    ensures |left + right| <= 2 * size
    ensures forall k :: 0 <= k < |left + right| ==> lo <= (left + right)[k] <= hi
  {
  }
}
