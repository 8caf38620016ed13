# Real-time ray tracer: a Dafny model

This project models the computational core of a small real-time ray tracer
written in C++ (`raytracer.cpp`) and proves properties of it:

- the value types `Vec3`, `Color` and `Ray`;
- the sphere primitive, with its quadratic intersection test and its normal;
- the recursive `trace` function: a nearest-hit scan, direct lighting, a
  metallic blend and a transparency blend that each recurse one level
  deeper, a depth cut-off and a final clamp;
- the per-frame `render`: the camera orbit, the sphere animation and the
  nested pixel loops that fill a row-major RGB byte buffer;
- the scroll callback's camera-distance clamp and the frame-buffer-size
  callback's buffer resize.

Floats are modelled as `real`. The C maths functions `sqrt`, `sin` and `cos`
are passed in as a `MathLib` value of total functions. No law of them is
assumed globally. Lemmas that need one take it as a precondition: an exact
`sqrt` (`SqrtExact`); sin 0 == 0 for the scene at rest; and
sin² + cos² == 1 at the given angles for the light and camera orbits.

The pure parts are datatypes, functions and lemmas:

- `vectors.dfy` (module `Vectors`);
- `colors.dfy` (module `Colors`);
- `rays.dfy` (module `Rays`);
- `sphere.dfy` (module `Spheres`);
- `scene.dfy` (module `Scene`);
- `shading.dfy` (module `Shading`);
- `frame_buffer.dfy` (module `FrameBuffer`).

The renderer object is the class `Renderer.RealTimeRayTracer` in
`ray_tracer.dfy`. Its fields are the scene, a byte `array` frame buffer, the
camera and the clock, and its methods update them in place:

- `FindNearest` and `Trace` do the scan loop and the recursion.
- `DrawFrame`, `DrawRow` and `RenderPixel` do the pixel loops.
- `Scroll` and `FramebufferSize` are the two callbacks.

Each method is proved against a specification function. The scan is proved
against `Shading.Closest`, a trace against `Shading.Shade` and `Shading.CallDepths`, and a frame
against `FrameBuffer.Picture`. Those functions carry the lemmas that state
what the C++ code promises:

- the first-wins minimum of the scan;
- the sky colour on a miss or past depth 5;
- channels in [0, 1] for a well-formed scene;
- a bounded recursion (at most 127 calls, at most depth 6);
- in-bounds, write-once, covering byte indices.

## Model

| member | source | states |
|---|---|---|
| Vectors.VectorLaws | raytracer.cpp:15-17 | `+` is commutative with the zero vector as identity; `* 1` changes nothing, two scalings compose, and scaling distributes over `+` |
| Vectors.DotSymmetric | raytracer.cpp:18 | `dot` is symmetric |
| Vectors.DotScale | raytracer.cpp:17-18 | `dot` is linear in a scaled argument |
| Vectors.DotAdd | raytracer.cpp:15-18 | `dot` distributes over `+` in either argument |
| Vectors.ScaleLength | raytracer.cpp:17-18 | scaling by k scales the squared length by k * k |
| Vectors.Sub | raytracer.cpp:15-16 | vector subtraction is undone by adding the subtrahend back |
| Vectors.Normalize | raytracer.cpp:19-22 | the zero vector normalises to the zero vector, whatever `sqrt` returns |
| Vectors.NormalizeUnit | raytracer.cpp:19-22 | with an exact `sqrt`, the result is zero exactly when the input is, and a nonzero vector normalises to length 1 |
| Vectors.NormalizeIdempotent | raytracer.cpp:19-22 | with an exact `sqrt`, normalising a normalised vector changes nothing |
| Vectors.DotSelf | raytracer.cpp:18 | a squared length is non-negative and zero only for the zero vector, which makes the zero-length guard of `normalize` exact |
| Vectors.NormalizeOfUnit | raytracer.cpp:19-22 | with an exact `sqrt`, a unit vector normalises to itself |
| Vectors.ReflectFixesPlane | raytracer.cpp:23 | a vector orthogonal to the normal is its own reflection, and a unit normal reflects to its opposite |
| Vectors.ReflectAlongNormal | raytracer.cpp:23 | for a unit normal n, dot(reflect(v, n), n) == -dot(v, n) |
| Vectors.ReflectInvolution | raytracer.cpp:23 | for a unit normal, reflection keeps the length and reflecting twice gives the vector back |
| Colors.ColorAddLaws | raytracer.cpp:30-31 | colour `+` is commutative with black as identity, keeps non-negative colours non-negative, and `*` distributes over it |
| Colors.ColorScale | raytracer.cpp:31 | scaling by a non-negative factor keeps non-negative channels non-negative |
| Colors.Clamp | raytracer.cpp:32 | each channel becomes min(1, channel): a channel above 1 becomes exactly 1, and a channel at or below 1 is kept unchanged |
| Colors.ClampIdempotent | raytracer.cpp:32 | clamping twice is clamping once, and a non-negative colour clamps into [0, 1] |
| Colors.ClampKeepsNegative | raytracer.cpp:32 | only the upper bound is enforced: (1.5, -0.2, 0.5) clamps to (1, -0.2, 0.5) |
| Rays.MakeRay | raytracer.cpp:37 | the constructor keeps the origin, and a zero direction stays zero |
| Rays.MakeRayUnit | raytracer.cpp:37 | with an exact `sqrt`, a ray built from a nonzero direction has a unit direction |
| Rays.At | raytracer.cpp:38 | the point at t minus the origin is the direction scaled by t |
| Rays.AtDistance | raytracer.cpp:38 | along a unit direction, the point at t lies at squared distance t * t from the origin |
| Spheres.NearRootIsRoot | raytracer.cpp:52-60 | with an exact `sqrt` and a non-negative discriminant, the root `intersect` computes is a zero of the quadratic, and for a > 0 the smaller root |
| Spheres.Intersect | raytracer.cpp:51-62 | the result is the sentinel -1 or a value above the 0.001 threshold, and a hit implies a nonzero direction |
| Spheres.QuadraticMeasuresSurface | raytracer.cpp:52-56 | the quadratic of `intersect` at t is the squared distance of the point at t from the centre minus the squared radius |
| Spheres.IntersectOnSurface | raytracer.cpp:51-61 | with an exact `sqrt`, a hit lies on the sphere's surface |
| Spheres.IntersectNearest | raytracer.cpp:51-61 | with an exact `sqrt`, a hit is no farther along the ray than any surface point |
| Spheres.IntersectMiss | raytracer.cpp:56-61 | with an exact `sqrt`, a miss by a ray of nonzero direction that does meet the surface means the line enters the sphere at a parameter at most 0.001 |
| Spheres.IntersectThroughCenter | raytracer.cpp:51-61 | with an exact `sqrt`, a unit ray aimed at the centre from more than 0.001 outside the surface hits at the centre's distance minus the radius |
| Spheres.IntersectFromCenterMisses | raytracer.cpp:60-61 | with an exact `sqrt`, the far root is never tried: a ray from the centre meets the surface at t = radius, yet `intersect` reports no hit |
| Spheres.Normal | raytracer.cpp:64-66 | the normal at the centre itself is the zero vector |
| Spheres.NormalOutward | raytracer.cpp:64-66 | with an exact `sqrt`, at a surface point, the normal is a unit vector pointing away from the centre |
| Scene.InitialScene | raytracer.cpp:133-141 | the scene has four spheres, all of them with a positive radius, a non-negative colour and weights in [0, 1] |
| Scene.Animate | raytracer.cpp:194-197 | only the y of sphere 0, the x of sphere 1 and the z of sphere 2 change; radii, colours, materials and the other spheres are kept |
| Scene.CameraOnOrbit | raytracer.cpp:190-192 | when sin² + cos² == 1 at both camera angles, the camera position lies at distance `camera_distance` from the origin |
| Scene.AnimateAtRest | raytracer.cpp:195-197 | at time 0 (with sin 0 == 0), the animation leaves the initial scene unchanged |
| Shading.Closest | raytracer.cpp:146-156 | no hit exactly when no value is in (0, 1e30); otherwise the hit is the FIRST index holding the minimum such value |
| Shading.NearestHit | raytracer.cpp:146-156 | a hit names a sphere of the scene |
| Shading.NearestHitIsNearest | raytracer.cpp:146-156 | the scan result in terms of the spheres' intersections: none qualifies on a miss, and on a hit earlier qualifying spheres are strictly farther and later ones no nearer |
| Shading.LightOrbit | raytracer.cpp:164 | when sin² + cos² == 1 at `time`, the light lies in the plane y == 2 on the circle of radius 3 about (0, 2, -3) |
| Shading.SecondaryRayDirections | raytracer.cpp:172-180 | with an exact `sqrt`, for a unit ray and a unit normal, the reflected ray runs exactly along the mirror direction, a unit vector leaving the surface as steeply as the ray arrived, and the transmitted ray keeps the incoming direction |
| Shading.Direct | raytracer.cpp:164-168 | the direct lighting term of a non-negative base colour is non-negative |
| Shading.Unlit | raytracer.cpp:164-168 | a point facing away from the light gets only the ambient 0.1 share of its colour |
| Shading.MixNonNegative | raytracer.cpp:175-182 | a blend with a weight in [0, 1] keeps non-negative colours non-negative |
| Shading.MixEnds | raytracer.cpp:175-182 | weight 0 gives the first colour, weight 1 the second, and blending a colour with itself gives it back |
| Shading.SurfaceAt | raytracer.cpp:160-180 | the secondary rays start 0.001 along the normal outside and inside the hit point, and the direct term is non-negative for a non-negative colour |
| Shading.Shade | raytracer.cpp:143-144 | a traced colour has no channel above 1, and past depth 5 it is the sky colour |
| Shading.ShadeNearest | raytracer.cpp:146-158 | below the cut-off, the colour has no channel above 1 |
| Shading.ShadeSurface | raytracer.cpp:168-185 | the colour at a hit point has no channel above 1 |
| Shading.ShadeMiss | raytracer.cpp:158 | a ray that hits nothing gets the sky colour (0.1, 0.1, 0.2) at every depth and makes no further call |
| Shading.ShadeNearestSurface | raytracer.cpp:158-168 | a hit below the cut-off is shaded as the hit point on the nearest sphere, and makes the calls that shading that point makes |
| Shading.ShadeInUnitRange | raytracer.cpp:143-185 | in a well-formed scene every channel of every traced colour is in [0, 1] |
| Shading.ShadeSurfaceInUnitRange | raytracer.cpp:168-185 | the colour at a hit point on a well-formed sphere is in [0, 1] |
| Shading.BlendNonNegative | raytracer.cpp:171-183 | mixing in a traced colour with a weight at most 1 keeps a non-negative colour non-negative |
| Shading.ShadeMatte | raytracer.cpp:168-185 | a sphere with neither weight positive makes no further call of `trace` (its call list is empty) and shows its clamped direct term |
| Shading.ShadeMirror | raytracer.cpp:171-176 | a fully metallic, opaque sphere shows exactly what its reflected ray sees |
| Shading.CallDepthsBounded | raytracer.cpp:143-186 | a trace started at depth d makes at most MaxCalls(d) calls, itself at depth d and every nested one at a depth in (d, 6] |
| Shading.MaxCalls | raytracer.cpp:174-181 | the call bound is at least 1 |
| Shading.MaxCallsClosedForm | raytracer.cpp:174-181 | the call bound is 2^(7-d) - 1 |
| Shading.PrimaryRayCalls | raytracer.cpp:210 | a trace started at depth 0, as for a primary ray, makes at most 127 calls of `trace`, none at a depth above 6 |
| FrameBuffer.ToByte | raytracer.cpp:213-215 | the byte is the truncation of c * 255 |
| FrameBuffer.ToByteEnds | raytracer.cpp:213-215 | 0 becomes 0 and 1 becomes 255 |
| FrameBuffer.ToByteMonotone | raytracer.cpp:213-215 | a brighter channel never gets a smaller byte |
| FrameBuffer.PixelIndexInBounds | raytracer.cpp:212-215 | every channel index of every pixel lies in a buffer of width * height * 3 bytes |
| FrameBuffer.PixelDecode | raytracer.cpp:212 | the pixel and channel can be read back from an index by division and remainder |
| FrameBuffer.PixelIndexInjective | raytracer.cpp:212-215 | distinct pixels or channels write distinct bytes, so no byte is written twice in a frame |
| FrameBuffer.PixelIndexCovers | raytracer.cpp:212-215 | every byte of the buffer belongs to a pixel and channel, so every byte is written in a frame |
| FrameBuffer.PrimaryRay | raytracer.cpp:203-208 | the camera ray through a pixel starts at the camera |
| FrameBuffer.PrimaryRayUnit | raytracer.cpp:203-208 | with an exact `sqrt`, the camera ray through every pixel has a unit direction |
| FrameBuffer.PixelBytes | raytracer.cpp:210-215 | a pixel has three bytes |
| FrameBuffer.Pixels | raytracer.cpp:200-216 | in a well-formed scene every pixel of the picture has three bytes |
| FrameBuffer.RowBytesLength | raytracer.cpp:201 | the first x pixels of a row take x * 3 bytes |
| FrameBuffer.ImageBytesLength | raytracer.cpp:200 | the first r rows take r * width * 3 bytes |
| FrameBuffer.RowBytesAt | raytracer.cpp:201-215 | in a row, the bytes of pixel x start at x * 3 |
| FrameBuffer.ImageBytesAt | raytracer.cpp:200-215 | in the picture, byte (y * width + x) * 3 + k is byte k of pixel (x, y) |
| FrameBuffer.ImageBytesRow | raytracer.cpp:201-215 | every byte of row y is at its index |
| FrameBuffer.TracedThreeBytes | raytracer.cpp:210-215 | traced pixels have three bytes each |
| FrameBuffer.PictureAt | raytracer.cpp:200-216 | the frame has width * height * 3 bytes, and the byte at the index of channel k of pixel (x, y) is that channel of the pixel's traced colour, in [0, 1], converted to 8 bits |
| Renderer.ClampDistance | raytracer.cpp:296-298 | the camera distance after a scroll is in [1, 20] |
| Renderer.ClampDistanceNearest | raytracer.cpp:296-298 | the clamped distance is the point of [1, 20] nearest to the requested one |
| Renderer.RealTimeRayTracer.constructor | raytracer.cpp:86-141 | the object invariant holds; the buffer has three zero bytes per pixel; the camera starts at (0, 0, 5) at distance 5; the clock starts at 0; the scene is the initial scene |
| Renderer.RealTimeRayTracer.CreateScene | raytracer.cpp:133-141 | the scene becomes the four spheres of the initial scene, and nothing else changes |
| Renderer.RealTimeRayTracer.FindNearest | raytracer.cpp:146-156 | the scan loop's result is the scan specification's: the first sphere at the smallest intersection in (0, 1e30), and `closest_t` its value or 1e30 |
| Renderer.RealTimeRayTracer.Trace | raytracer.cpp:143-158 | the colour returned is `Shade` of the current scene and time at that depth, and the depths of the calls it makes are `CallDepths`, so at most 127 from depth 0 |
| Renderer.RealTimeRayTracer.SurfaceOf | raytracer.cpp:160-180 | the hit point, normal, direct term and secondary rays are those of `SurfaceAt` |
| Renderer.RealTimeRayTracer.TraceSurface | raytracer.cpp:168-185 | the colour at a hit point is `ShadeSurface`, and its calls are the reflected ray's then the transmitted ray's (`SurfaceCallDepths`) |
| Renderer.RealTimeRayTracer.TraceBlend | raytracer.cpp:171-183 | one weighted secondary ray is traced and mixed in only when its weight is positive, as `Blend` states, and only then makes calls (`Branch`) |
| Renderer.RealTimeRayTracer.TracePixel | raytracer.cpp:203-210 | the colour of a pixel is the traced colour of its camera ray, with all channels in [0, 1] |
| Renderer.RealTimeRayTracer.RenderPixel | raytracer.cpp:210-215 | the three bytes of pixel (x, y) get its three channel bytes, and no other byte changes |
| Renderer.RealTimeRayTracer.DrawRow | raytracer.cpp:201-216 | after row y, the buffer agrees with the picture on every byte of rows 0 to y, and every byte after row y is unchanged |
| Renderer.RealTimeRayTracer.DrawFrame | raytracer.cpp:200-217 | after the pixel loops, the buffer is the whole picture |
| Renderer.RealTimeRayTracer.AnimateSpheres | raytracer.cpp:194-197 | the scene becomes its animation at the current time; the camera, clock and buffer are kept |
| Renderer.RealTimeRayTracer.Render | raytracer.cpp:188-217 | the camera moves to its orbit position, the spheres to their animated positions, and the buffer (same array, same size) holds exactly the traced picture; the object invariant is kept |
| Renderer.RealTimeRayTracer.Scroll | raytracer.cpp:294-299 | the camera distance becomes the clamped new distance, so it stays in [1, 20]; nothing else changes |
| Renderer.RealTimeRayTracer.FramebufferSize | raytracer.cpp:301-307 | the size is recorded; the buffer becomes width * height * 3 bytes, keeping the old bytes that fit and zeroing the rest; nothing else changes |

## Left out

- The window, the OpenGL context and the display are not modelled. This covers GLFW and GLEW initialisation, `glViewport`, `glDrawPixels`, buffer swapping and event polling. They are calls into foreign libraries, and the frame is modelled up to the filled byte buffer.
- The `run` loop is not modelled: its clock, the FPS printing and the frame cap are timing and I/O. The clock `time` is a field that the caller advances.
- The key and mouse callbacks are not modelled. They are input handling outside the core, and they only change the two camera angles, which the model takes as they are.
- Float rounding, NaN, infinities and overflow are not modelled, because values are reals. The one NaN case that decides a branch is modelled explicitly: a zero direction in `intersect` divides 0 by 0 and reports no hit.
- The C++ `int` products `width * height * 3` (the buffer size in the constructor and the resize) and `(y * width + x) * 3` (the pixel index) are unbounded integers in the model, so their 32-bit overflow is not modelled. It needs more than about 715 million pixels, which no real framebuffer reaches.
- `sqrt`, `sin` and `cos` are parameters (`MathLib`). No law of them holds globally. `SqrtExact` is a precondition of the lemmas that use square roots. `Scene.AnimateAtRest` requires sin 0 == 0. `Shading.LightOrbit` and `Scene.CameraOnOrbit` require sin² + cos² == 1 at the angles they use.
- FrameBuffer.ToByte: the cast to `unsigned char` is modelled only for channels in [0, 1]. Out-of-range conversions are undefined in C++. `Shading.ShadeInUnitRange` shows that every traced channel is in range for a well-formed scene.
- Renderer.RealTimeRayTracer.constructor: takes the frame-buffer size as parameters instead of querying the window. It builds a fresh zeroed array for the resize of an empty vector.
- Renderer.RealTimeRayTracer.FramebufferSize: the resize is modelled as a fresh array holding the kept bytes. The in-place reallocation of `std::vector` is not modelled. It requires non-negative sizes: the window system reports framebuffer sizes that are never negative, and the model relies on that instead of modelling a `size_t` conversion of a negative product.
- Renderer.RealTimeRayTracer.RenderPixel: takes a ghost function `px` that gives the bytes of each traced pixel. It is required to agree with `FrameBuffer.PixelBytes`, so that the loop proofs do not unfold the geometry.
- Renderer.RealTimeRayTracer.DrawFrame: takes the same ghost `px`, for the same reason.
- `cameraTarget` is kept as a field, but nothing in the source reads it.
- The source has no refraction with Fresnel terms, no shadow rays, no textures, no anti-aliasing and no global illumination, so none of them is modelled. The transparency branch continues the ray along its incoming direction from just inside the surface, as the code does.
