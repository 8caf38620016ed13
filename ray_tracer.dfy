/** The renderer object `RealTimeRayTracer`: its scene, frame buffer, camera
    and clock as fields, and the operations that update them in place. */
module Renderer {
  import opened Vectors
  import opened Colors
  import opened Rays
  import opened Spheres
  import opened Scene
  import opened Shading
  import opened FrameBuffer

  /** The camera distance after a scroll: below 1 becomes 1, above 20
      becomes 20, anything between is kept. */
  function ClampDistance(d: real): (r: real)
    ensures 1.0 <= r <= 20.0
  {
    var low := if d < 1.0 then 1.0 else d;
    if low > 20.0 then 20.0 else low
  }

  /** The clamped distance is the point of [1, 20] nearest to the requested
      one, so a distance already in range is kept. */
  lemma ClampDistanceNearest(d: real, e: real)
    requires 1.0 <= e <= 20.0
    ensures var r := ClampDistance(d);
            (if r <= d then d - r else r - d) <= (if e <= d then d - e else e - d)
  {
  }

  lemma NonNegativeProduct(a: int, b: int)
    requires 0 <= a && 0 <= b
    ensures 0 <= a * b
  {
  }

  class RealTimeRayTracer {
    var spheres: seq<Sphere>
    var frameBuffer: array<byte>
    var width: int
    var height: int
    var cameraPos: Vec3
    var cameraTarget: Vec3
    var cameraAngleX: real
    var cameraAngleY: real
    var cameraDistance: real
    var time: real

    /** The object invariant: the buffer holds three bytes for each of the
        `width * height` pixels, the scene is the four well-formed spheres
        the animation indexes, and the camera distance is in [1, 20]. */
    ghost predicate Valid()
      reads this
    {
      0 <= width && 0 <= height && frameBuffer.Length == width * height * 3 &&
      |spheres| == 4 && WellFormedScene(spheres) &&
      1.0 <= cameraDistance <= 20.0
    }

    /** The camera and the clock are as they were. */
    twostate predicate ViewUnchanged()
      reads this
    {
      cameraPos == old(cameraPos) && cameraTarget == old(cameraTarget) &&
      cameraAngleX == old(cameraAngleX) && cameraAngleY == old(cameraAngleY) &&
      cameraDistance == old(cameraDistance) && time == old(time)
    }

    /** A renderer for a frame buffer of `fbWidth` by `fbHeight` pixels, all
        bytes zero, the camera at (0, 0, 5) and the scene of `CreateScene`. */
    constructor(fbWidth: int, fbHeight: int)
      requires 0 <= fbWidth && 0 <= fbHeight
      ensures Valid()
      ensures width == fbWidth && height == fbHeight
      ensures fresh(frameBuffer)
      ensures forall i :: 0 <= i < frameBuffer.Length ==> frameBuffer[i] == 0
      ensures cameraPos == Vec3(0.0, 0.0, 5.0) && cameraTarget == Zero
      ensures cameraAngleX == 0.0 && cameraAngleY == 0.0 && cameraDistance == 5.0 && time == 0.0
      ensures spheres == InitialScene()
    {
      width, height := fbWidth, fbHeight;
      cameraPos := Vec3(0.0, 0.0, 5.0);
      cameraTarget := Vec3(0.0, 0.0, 0.0);
      cameraAngleX, cameraAngleY := 0.0, 0.0;
      cameraDistance := 5.0;
      time := 0.0;
      NonNegativeProduct(fbWidth, fbHeight);
      frameBuffer := new byte[fbWidth * fbHeight * 3](_ => 0);
      spheres := [];
      new;
      CreateScene();
    }

    /** Replaces the scene by the four spheres of the initial scene. */
    method CreateScene()
      modifies this
      ensures spheres == InitialScene()
      ensures frameBuffer == old(frameBuffer) && width == old(width) && height == old(height)
      ensures ViewUnchanged()
    {
      spheres := [];
      spheres := spheres + [Sphere(Vec3(-2.0, 0.0, -5.0), 1.0, Color(0.8, 0.2, 0.2), 0.9, 0.0)];
      spheres := spheres + [Sphere(Vec3(0.0, 0.0, -5.0), 1.0, Color(0.9, 0.9, 0.9), 0.0, 0.9)];
      spheres := spheres + [Sphere(Vec3(2.0, 0.0, -5.0), 1.0, Color(0.2, 0.2, 0.8), 0.0, 0.0)];
      spheres := spheres + [Sphere(Vec3(0.0, -101.0, -5.0), 100.0, Color(0.5, 0.5, 0.5), 0.0, 0.0)];
    }

    /** The scan of `trace` over the spheres in list order: it keeps the
        smallest positive intersection value found so far, starting from
        `Far`, and replaces it only on a strictly smaller one, so the first
        of several equally near spheres wins. */
    method FindNearest(m: MathLib, ray: Ray) returns (closestT: real, hit: Nearest)
      ensures hit == NearestHit(m, spheres, ray)
      ensures closestT == ClosestT(hit)
    {
      ghost var ts := Distances(m, spheres, ray);
      closestT := Far;
      hit := NoSphere;
      for k := 0 to |spheres|
        invariant hit == Closest(ts[..k])
        invariant closestT == ClosestT(hit)
      {
        var t := Intersect(m, spheres[k], ray);
        assert ts[..k + 1][..k] == ts[..k];
        if t > 0.0 && t < closestT {
          closestT := t;
          hit := Hit(k, t);
        }
      }
      assert ts[..|spheres|] == ts;
    }

    /** The colour seen along `ray` at recursion depth `depth`: the `Shade`
        of the current scene at the current time. */
    method Trace(m: MathLib, ray: Ray, depth: nat) returns (c: Color, ghost calls: seq<nat>)
      ensures c == Shade(m, spheres, time, ray, depth)
      ensures calls == CallDepths(m, spheres, time, ray, depth)
      decreases Remaining(depth), 2
    {
      if depth > MaxDepth {
        return Sky, [depth];
      }
      var closestT, hit := FindNearest(m, ray);
      if hit.NoSphere? {
        ShadeMiss(m, spheres, time, ray, depth);
        return Sky, [depth];
      }
      var h := SurfaceOf(m, spheres[hit.index], ray, closestT);
      ghost var below;
      c, below := TraceSurface(m, h, depth);
      calls := [depth] + below;
      ShadeNearestSurface(m, spheres, time, ray, depth);
    }

    /** The hit point on sphere `s` at parameter `t`: its normal, the
        direct lighting and the two secondary rays. */
    method SurfaceOf(m: MathLib, s: Sphere, ray: Ray, t: real) returns (h: Surface)
      ensures h == SurfaceAt(m, s, time, ray, t)
    {
      var hitPoint := At(ray, t);
      var normal := Normal(m, s, hitPoint);
      var lightPos := LightPosition(m, time);
      var lightDir := Normalize(m, Sub(lightPos, hitPoint));
      var lightIntensity := Max0(Dot(normal, lightDir));
      var finalColor := ColorScale(s.color, 0.1 + lightIntensity * 0.9);
      var reflectRay := MakeRay(m, Add(hitPoint, Scale(normal, Offset)), Reflect(ray.direction, normal));
      var refractRay := MakeRay(m, Sub(hitPoint, Scale(normal, Offset)), ray.direction);
      h := Surface(s, hitPoint, normal, finalColor, reflectRay, refractRay);
    }

    /** The colour at the hit point `h`: its direct term blended with what
        its reflected ray sees, then with what its transmitted ray sees, then
        clamped. */
    method TraceSurface(m: MathLib, h: Surface, depth: nat) returns (c: Color, ghost calls: seq<nat>)
      requires depth <= MaxDepth
      ensures c == ShadeSurface(m, spheres, time, h, depth)
      ensures calls == SurfaceCallDepths(m, spheres, time, h, depth)
      decreases Remaining(depth), 1
    {
      var finalColor, reflectCalls := TraceBlend(m, h.direct, h.reflected, h.sphere.metallic, depth);
      ghost var refractCalls;
      finalColor, refractCalls := TraceBlend(m, finalColor, h.transmitted, h.sphere.transparency, depth);
      c := Clamp(finalColor);
      calls := reflectCalls + refractCalls;
    }

    /** One weighted secondary ray: traced one level deeper and mixed into
        `base` only when its weight is positive. */
    method TraceBlend(m: MathLib, base: Color, r: Ray, w: real, depth: nat) returns (c: Color, ghost calls: seq<nat>)
      requires depth <= MaxDepth
      ensures c == Blend(m, spheres, time, base, r, w, depth)
      ensures calls == Branch(m, spheres, time, r, w > 0.0, depth)
      decreases Remaining(depth), 0
    {
      if w > 0.0 {
        var seen;
        seen, calls := Trace(m, r, depth + 1);
        c := Mix(base, seen, w);
      } else {
        c, calls := base, [];
      }
    }

    /** The colour of pixel (x, y): the camera ray through the pixel, traced. */
    method TracePixel(m: MathLib, x: int, y: int) returns (c: Color)
      requires WellFormedScene(spheres)
      requires 0 <= x < width && 0 <= y < height
      ensures c == PixelColor(m, spheres, time, cameraPos, width, height, x, y)
      ensures InUnitRange(c)
    {
      var u := (x as real / width as real) * 2.0 - 1.0;
      var v := (y as real / height as real) * 2.0 - 1.0;
      v := v * (height as real / width as real);
      var rayDir := Normalize(m, Vec3(u, -v, -1.0));
      var ray := MakeRay(m, cameraPos, rayDir);
      assert u == (x as real / width as real) * 2.0 - 1.0;
      assert v == ((y as real / height as real) * 2.0 - 1.0) * (height as real / width as real);
      assert rayDir == Normalize(m, Vec3(u, -v, -1.0));
      assert ray == PrimaryRay(m, cameraPos, width, height, x, y);
      ghost var calls;
      c, calls := Trace(m, ray, 0);
      ShadeInUnitRange(m, spheres, time, ray, 0);
    }

    /** The body of the pixel loop: writes the three bytes of pixel (x, y)
        and no other byte. */
    method RenderPixel(m: MathLib, x: int, y: int, ghost px: (int, int) -> seq<byte>)
      requires WellFormedScene(spheres) && frameBuffer.Length == width * height * 3
      requires TracedPixels(px, m, spheres, time, cameraPos, width, height)
      requires 0 <= x < width && 0 <= y < height
      modifies frameBuffer
      ensures |px(x, y)| == 3 && 0 <= (y * width + x) * 3 && (y * width + x) * 3 + 3 <= frameBuffer.Length
      ensures frameBuffer[PixelIndex(width, x, y, 0)] == px(x, y)[0]
      ensures frameBuffer[PixelIndex(width, x, y, 1)] == px(x, y)[1]
      ensures frameBuffer[PixelIndex(width, x, y, 2)] == px(x, y)[2]
      ensures forall i :: 0 <= i < frameBuffer.Length && (i < (y * width + x) * 3 || (y * width + x) * 3 + 3 <= i) ==>
                frameBuffer[i] == old(frameBuffer[i])
    {
      var pixelColor := TracePixel(m, x, y);
      assert px(x, y) == PixelBytes(m, spheres, time, cameraPos, width, height, x, y);
      PixelIndexInBounds(width, height, x, y, 0);
      PixelIndexInBounds(width, height, x, y, 2);
      var index := (y * width + x) * 3;
      frameBuffer[index] := ToByte(pixelColor.r);
      frameBuffer[index + 1] := ToByte(pixelColor.g);
      frameBuffer[index + 2] := ToByte(pixelColor.b);
    }

    /** One frame: the camera moves to its orbit position, the first three
        spheres move to their positions at the current time, and every byte
        of the buffer receives its channel of its pixel's traced colour. */
    method Render(m: MathLib)
      requires Valid()
      modifies this, frameBuffer
      ensures Valid()
      ensures frameBuffer == old(frameBuffer) && width == old(width) && height == old(height)
      ensures cameraPos == CameraPosition(m, cameraDistance, cameraAngleX, cameraAngleY)
      ensures cameraTarget == old(cameraTarget) && cameraAngleX == old(cameraAngleX) && cameraAngleY == old(cameraAngleY)
      ensures cameraDistance == old(cameraDistance) && time == old(time)
      ensures spheres == Animate(m, old(spheres), time)
      ensures frameBuffer[..] == Picture(m, spheres, time, cameraPos, width, height)
    {
      cameraPos := cameraPos.(x := cameraDistance * m.sin(cameraAngleX) * m.cos(cameraAngleY));
      cameraPos := cameraPos.(y := cameraDistance * m.sin(cameraAngleY));
      cameraPos := cameraPos.(z := cameraDistance * m.cos(cameraAngleX) * m.cos(cameraAngleY));
      ghost var camera := CameraPosition(m, cameraDistance, cameraAngleX, cameraAngleY);
      assert cameraPos == camera;

      AnimateSpheres(m);
      PixelsTraced(m, spheres, time, cameraPos, width, height);
      DrawFrame(m, Pixels(m, spheres, time, cameraPos, width, height));
    }

    /** The animation step of a frame: the first sphere bobs vertically, the
        second sways sideways, the third moves in depth, with the clock. */
    method AnimateSpheres(m: MathLib)
      requires 3 <= |spheres|
      modifies this
      ensures spheres == Animate(m, old(spheres), time)
      ensures frameBuffer == old(frameBuffer) && width == old(width) && height == old(height)
      ensures ViewUnchanged()
    {
      ghost var initial := spheres;
      spheres := spheres[0 := spheres[0].(center := spheres[0].center.(y := m.sin(time * 2.0) * 0.5))];
      assert spheres[1] == initial[1] && spheres[2] == initial[2];
      spheres := spheres[1 := spheres[1].(center := spheres[1].center.(x := m.sin(time) * 0.5))];
      assert spheres[2] == initial[2];
      spheres := spheres[2 := spheres[2].(center := spheres[2].center.(z := -5.0 + m.sin(time * 1.5) * 0.3))];
    }

    /** The pixel loops of a frame: row by row from the top, where `px`
        stands for the bytes of the traced pixels. */
    method DrawFrame(m: MathLib, ghost px: (int, int) -> seq<byte>)
      requires WellFormedScene(spheres)
      requires 0 <= width && 0 <= height && frameBuffer.Length == width * height * 3
      requires TracedPixels(px, m, spheres, time, cameraPos, width, height)
      modifies frameBuffer
      ensures frameBuffer[..] == ImageBytes(px, width, height)
    {
      TracedThreeBytes(px, m, spheres, time, cameraPos, width, height);
      ghost var picture := ImageBytes(px, width, height);
      ImageBytesLength(px, width, height, height);
      assert |picture| == frameBuffer.Length;
      var y := 0;
      while y < height
        invariant 0 <= y <= height
        invariant forall i :: 0 <= i < y * width * 3 && i < frameBuffer.Length ==> frameBuffer[i] == picture[i]
      {
        ImageBytesRow(px, width, height, y);
        DrawRow(m, y, px, picture);
        y := y + 1;
      }
      assert height * width * 3 == frameBuffer.Length;
      assert frameBuffer[..] == picture;
    }

    /** One row of the pixel loops: each pixel from the left, its three
        bytes after the rows above it. */
    method DrawRow(m: MathLib, y: int, ghost px: (int, int) -> seq<byte>, ghost picture: seq<byte>)
      requires WellFormedScene(spheres)
      requires 0 <= width && 0 <= y < height && frameBuffer.Length == width * height * 3
      requires TracedPixels(px, m, spheres, time, cameraPos, width, height) && ThreeBytes(px, width, height)
      requires |picture| == frameBuffer.Length
      requires forall x, k :: 0 <= x < width && 0 <= k < 3 ==>
                 0 <= PixelIndex(width, x, y, k) < |picture| && picture[PixelIndex(width, x, y, k)] == px(x, y)[k]
      requires forall i :: 0 <= i < y * width * 3 && i < frameBuffer.Length ==> frameBuffer[i] == picture[i]
      modifies frameBuffer
      ensures forall i :: 0 <= i < (y + 1) * width * 3 && i < frameBuffer.Length ==> frameBuffer[i] == picture[i]
      ensures forall i :: (y + 1) * width * 3 <= i < frameBuffer.Length ==> frameBuffer[i] == old(frameBuffer[i])
    {
      MulMonotone(y + 1, height, width);
      assert (y + 1) * width * 3 == y * width * 3 + width * 3;
      assert (y + 1) * width * 3 <= frameBuffer.Length;
      var x := 0;
      ghost var index := y * width * 3;
      while x < width
        invariant 0 <= x <= width
        invariant index == PixelIndex(width, x, y, 0) == y * width * 3 + x * 3
        invariant index <= (y + 1) * width * 3
        invariant forall i :: 0 <= i < index && i < frameBuffer.Length ==> frameBuffer[i] == picture[i]
        invariant forall i :: index <= i < frameBuffer.Length ==> frameBuffer[i] == old(frameBuffer[i])
      {
        label Before:
        RenderPixel(m, x, y, px);
        forall i | 0 <= i < index + 3 && i < frameBuffer.Length
          ensures frameBuffer[i] == picture[i]
        {
          if i < index {
            assert frameBuffer[i] == old@Before(frameBuffer[i]);
          } else {
            assert i == PixelIndex(width, x, y, i - index);
          }
        }
        forall i | index + 3 <= i < frameBuffer.Length
          ensures frameBuffer[i] == old(frameBuffer[i])
        {
          assert frameBuffer[i] == old@Before(frameBuffer[i]);
        }
        x := x + 1;
        index := index + 3;
      }
    }

    /** The scroll callback: zooms by half a unit per step of the wheel,
        keeping the camera distance in [1, 20]. */
    method Scroll(yoffset: real)
      requires Valid()
      modifies this
      ensures Valid()
      ensures cameraDistance == ClampDistance(old(cameraDistance) + yoffset * -0.5)
      ensures spheres == old(spheres) && frameBuffer == old(frameBuffer)
      ensures width == old(width) && height == old(height)
      ensures cameraPos == old(cameraPos) && cameraTarget == old(cameraTarget)
      ensures cameraAngleX == old(cameraAngleX) && cameraAngleY == old(cameraAngleY) && time == old(time)
    {
      cameraDistance := cameraDistance + yoffset * -0.5;
      if cameraDistance < 1.0 {
        cameraDistance := 1.0;
      }
      if cameraDistance > 20.0 {
        cameraDistance := 20.0;
      }
    }

    /** The frame-buffer-size callback: the new size is recorded and the
        buffer is resized to three bytes per pixel, keeping the bytes that
        fit and zeroing the new ones. */
    method FramebufferSize(w: int, h: int)
      requires Valid()
      requires 0 <= w && 0 <= h
      modifies this
      ensures Valid()
      ensures width == w && height == h
      ensures fresh(frameBuffer) && frameBuffer.Length == w * h * 3
      ensures forall i :: 0 <= i < frameBuffer.Length ==>
                frameBuffer[i] == if i < old(frameBuffer.Length) then old(frameBuffer[i]) else 0
      ensures spheres == old(spheres) && ViewUnchanged()
    {
      NonNegativeProduct(w, h);
      var n := w * h * 3;
      var previous := frameBuffer;
      var resized := new byte[n];
      for i := 0 to n
        modifies resized
        invariant forall j :: 0 <= j < i ==>
                    resized[j] == if j < previous.Length then previous[j] else 0
      {
        resized[i] := if i < previous.Length then previous[i] else 0;
      }
      width := w;
      height := h;
      frameBuffer := resized;
    }
  }
}
