/** The RGB byte buffer `render` fills: three bytes per pixel, rows of
    `width` pixels one after another, and the byte each position receives. */
module FrameBuffer {
  import opened Vectors
  import opened Colors
  import opened Rays
  import opened Spheres
  import opened Scene
  import opened Shading

  /** `unsigned char` */
  newtype byte = x: int | 0 <= x < 256

  /** The cast `(unsigned char)(c * 255)` of a channel in [0, 1]: the scaled
      value truncated to an integer. */
  function ToByte(c: real): (b: byte)
    requires 0.0 <= c <= 1.0
    ensures b as real <= c * 255.0 < b as real + 1.0
  {
    (c * 255.0).Floor as byte
  }

  /** 0 maps to 0 and 1 to 255: the conversion spans the whole byte range. */
  lemma ToByteEnds()
    ensures ToByte(0.0) == 0 && ToByte(1.0) == 255
  {
  }

  /** A brighter channel never gets a smaller byte. */
  lemma ToByteMonotone(c: real, d: real)
    requires 0.0 <= c <= d <= 1.0
    ensures ToByte(c) <= ToByte(d)
  {
    assert ToByte(c) as real <= c * 255.0 <= d * 255.0 < ToByte(d) as real + 1.0;
  }

  /** The position of channel `k` of pixel (x, y): `(y * width + x) * 3 + k`. */
  function PixelIndex(width: int, x: int, y: int, k: int): int {
    (y * width + x) * 3 + k
  }

  lemma MulMonotone(a: int, b: int, c: int)
    requires 0 <= a <= b && 0 <= c
    ensures a * c <= b * c
  {
  }

  /** Every channel of every pixel of the picture lies inside the buffer of
      `width * height * 3` bytes. */
  lemma PixelIndexInBounds(width: int, height: int, x: int, y: int, k: int)
    requires 0 <= x < width && 0 <= y < height && 0 <= k < 3
    ensures 0 <= PixelIndex(width, x, y, k) < width * height * 3
  {
    MulMonotone(y, height - 1, width);
    assert y * width + x < height * width;
    assert height * width == width * height;
  }

  /** Integer division and remainder are determined by any decomposition
      a == q * d + r with 0 <= r < d. */
  lemma DivModUnique(a: int, d: int, q: int, r: int)
    requires 0 < d && 0 <= r < d && a == q * d + r
    ensures a / d == q && a % d == r
  {
    var q', r' := a / d, a % d;
    assert a == q' * d + r';
    if q' < q {
      MulMonotone(q' + 1, q, d);
    } else if q < q' {
      MulMonotone(q + 1, q', d);
    }
  }

  /** Reading a position back gives the pixel and channel it was written for. */
  lemma PixelDecode(width: int, x: int, y: int, k: int)
    requires 0 <= x < width && 0 <= y && 0 <= k < 3
    ensures var i := PixelIndex(width, x, y, k);
            i % 3 == k && (i / 3) % width == x && (i / 3) / width == y
  {
    var p := y * width + x;
    DivModUnique(p * 3 + k, 3, p, k);
    DivModUnique(p, width, y, x);
  }

  /** Distinct pixels or channels write distinct positions: a frame writes
      every byte at most once. */
  lemma PixelIndexInjective(width: int, x1: int, y1: int, k1: int, x2: int, y2: int, k2: int)
    requires 0 <= x1 < width && 0 <= y1 && 0 <= k1 < 3
    requires 0 <= x2 < width && 0 <= y2 && 0 <= k2 < 3
    requires PixelIndex(width, x1, y1, k1) == PixelIndex(width, x2, y2, k2)
    ensures x1 == x2 && y1 == y2 && k1 == k2
  {
    PixelDecode(width, x1, y1, k1);
    PixelDecode(width, x2, y2, k2);
  }

  /** Every position of the buffer belongs to some pixel and channel: the
      frame writes every byte at least once. */
  lemma PixelIndexCovers(width: int, height: int, i: int)
    requires 0 < width && 0 <= height && 0 <= i < width * height * 3
    ensures var x, y, k := (i / 3) % width, (i / 3) / width, i % 3;
            0 <= x < width && 0 <= y < height && 0 <= k < 3 && PixelIndex(width, x, y, k) == i
  {
    var p := i / 3;
    var x, y := p % width, p / width;
    assert p * 3 + i % 3 == i;
    assert y * width + x == p;
    if y >= height {
      MulMonotone(height, y, width);
      assert false;
    }
  }

  /** The camera ray through pixel (x, y): screen coordinates scaled to
      [-1, 1), the vertical one flipped and corrected for the aspect ratio. */
  function PrimaryRay(m: MathLib, camera: Vec3, width: int, height: int, x: int, y: int): (r: Ray)
    requires 0 <= x < width && 0 <= y < height
    ensures r.origin == camera
  {
    var u := (x as real / width as real) * 2.0 - 1.0;
    var v := ((y as real / height as real) * 2.0 - 1.0) * (height as real / width as real);
    MakeRay(m, camera, Normalize(m, Vec3(u, -v, -1.0)))
  }

  /** With an exact `sqrt`, every camera ray has a unit direction, so the
      double normalisation of `render` and the ray constructor is harmless. */
  lemma PrimaryRayUnit(m: MathLib, camera: Vec3, width: int, height: int, x: int, y: int)
    requires SqrtExact(m)
    requires 0 <= x < width && 0 <= y < height
    ensures IsUnit(PrimaryRay(m, camera, width, height, x, y).direction)
  {
    var u := (x as real / width as real) * 2.0 - 1.0;
    var v := ((y as real / height as real) * 2.0 - 1.0) * (height as real / width as real);
    var d := Vec3(u, -v, -1.0);
    NormalizeUnit(m, d);
    NormalizeIdempotent(m, d);
  }

  /** The colour of pixel (x, y). */
  function PixelColor(m: MathLib, scene: seq<Sphere>, time: real, camera: Vec3, width: int, height: int, x: int, y: int): Color
    requires 0 <= x < width && 0 <= y < height
  {
    Shade(m, scene, time, PrimaryRay(m, camera, width, height, x, y), 0)
  }

  /** The three bytes of pixel (x, y): its colour's red, green and blue
      channels, each converted to 8 bits. */
  function PixelBytes(m: MathLib, scene: seq<Sphere>, time: real, camera: Vec3, width: int, height: int, x: int, y: int): (bs: seq<byte>)
    requires WellFormedScene(scene)
    requires 0 <= x < width && 0 <= y < height
    ensures |bs| == 3
  {
    var c := PixelColor(m, scene, time, camera, width, height, x, y);
    ShadeInUnitRange(m, scene, time, PrimaryRay(m, camera, width, height, x, y), 0);
    [ToByte(c.r), ToByte(c.g), ToByte(c.b)]
  }

  /** The bytes of the first `x` pixels of row `y`, left to right, where
      `px` gives the bytes of each pixel. */
  function RowBytes(px: (int, int) -> seq<byte>, y: int, x: nat): seq<byte>
    decreases x
  {
    if x == 0 then [] else RowBytes(px, y, x - 1) + px(x - 1, y)
  }

  /** The bytes of the first `rows` rows of `width` pixels, top to bottom. */
  function ImageBytes(px: (int, int) -> seq<byte>, width: nat, rows: nat): seq<byte>
    decreases rows
  {
    if rows == 0 then [] else ImageBytes(px, width, rows - 1) + RowBytes(px, rows - 1, width)
  }

  /** Every pixel of the `width` by `height` picture has three bytes. */
  ghost predicate ThreeBytes(px: (int, int) -> seq<byte>, width: int, height: int) {
    forall x, y :: 0 <= x < width && 0 <= y < height ==> |px(x, y)| == 3
  }

  lemma {:induction false} RowBytesLength(px: (int, int) -> seq<byte>, width: int, height: int, y: int, x: nat)
    requires ThreeBytes(px, width, height)
    requires x <= width && 0 <= y < height
    ensures |RowBytes(px, y, x)| == x * 3
    decreases x
  {
    if 0 < x {
      RowBytesLength(px, width, height, y, x - 1);
    }
  }

  lemma {:induction false} ImageBytesLength(px: (int, int) -> seq<byte>, width: nat, height: int, rows: nat)
    requires ThreeBytes(px, width, height)
    requires rows <= height
    ensures |ImageBytes(px, width, rows)| == rows * width * 3
    decreases rows
  {
    if 0 < rows {
      ImageBytesLength(px, width, height, rows - 1);
      RowBytesLength(px, width, height, rows - 1, width);
      assert (rows - 1) * width * 3 + width * 3 == rows * width * 3;
    }
  }

  /** In a row, the bytes of pixel x' start at 3 * x'. */
  lemma {:induction false} RowBytesAt(px: (int, int) -> seq<byte>, width: int, height: int, y: int, x: nat, x': int, k: int)
    requires ThreeBytes(px, width, height)
    requires 0 <= x' < x <= width && 0 <= y < height && 0 <= k < 3
    ensures |RowBytes(px, y, x)| == x * 3
    ensures RowBytes(px, y, x)[x' * 3 + k] == px(x', y)[k]
    decreases x
  {
    RowBytesLength(px, width, height, y, x);
    RowBytesLength(px, width, height, y, x - 1);
    if x' < x - 1 {
      RowBytesAt(px, width, height, y, x - 1, x', k);
    }
  }

  /** In the picture, the bytes of pixel (x, y) start at 3 * (y * width + x). */
  lemma {:induction false} ImageBytesAt(px: (int, int) -> seq<byte>, width: nat, height: int, rows: nat, x: int, y: int, k: int)
    requires ThreeBytes(px, width, height)
    requires 0 <= x < width && 0 <= y < rows <= height && 0 <= k < 3
    ensures |ImageBytes(px, width, rows)| == rows * width * 3
    ensures 0 <= PixelIndex(width, x, y, k) < rows * width * 3
    ensures ImageBytes(px, width, rows)[PixelIndex(width, x, y, k)] == px(x, y)[k]
    decreases rows
  {
    ImageBytesLength(px, width, height, rows);
    ImageBytesLength(px, width, height, rows - 1);
    PixelIndexInBounds(width, rows, x, y, k);
    assert rows * width * 3 == width * rows * 3;
    if y < rows - 1 {
      ImageBytesAt(px, width, height, rows - 1, x, y, k);
    } else {
      RowBytesAt(px, width, height, y, width, x, k);
    }
  }

  /** Every pixel of row y of the picture, at its place. */
  lemma ImageBytesRow(px: (int, int) -> seq<byte>, width: nat, height: nat, y: int)
    requires ThreeBytes(px, width, height) && 0 <= y < height
    ensures forall x, k :: 0 <= x < width && 0 <= k < 3 ==>
              0 <= PixelIndex(width, x, y, k) < |ImageBytes(px, width, height)| &&
              ImageBytes(px, width, height)[PixelIndex(width, x, y, k)] == px(x, y)[k]
  {
    forall x, k | 0 <= x < width && 0 <= k < 3
      ensures 0 <= PixelIndex(width, x, y, k) < |ImageBytes(px, width, height)|
      ensures ImageBytes(px, width, height)[PixelIndex(width, x, y, k)] == px(x, y)[k]
    {
      ImageBytesAt(px, width, height, height, x, y, k);
    }
  }

  /** The bytes of each pixel of the traced picture. */
  function Pixels(m: MathLib, scene: seq<Sphere>, time: real, camera: Vec3, width: int, height: int): (px: (int, int) -> seq<byte>)
    ensures ThreeBytes(px, width, height) || !WellFormedScene(scene)
  {
    (x: int, y: int) =>
      if WellFormedScene(scene) && 0 <= x < width && 0 <= y < height
      then PixelBytes(m, scene, time, camera, width, height, x, y)
      else []
  }

  /** `px` gives the bytes of every traced pixel of the picture. */
  ghost predicate TracedPixels(px: (int, int) -> seq<byte>, m: MathLib, scene: seq<Sphere>, time: real, camera: Vec3, width: int, height: int)
    requires WellFormedScene(scene)
  {
    forall x, y {:trigger PixelBytes(m, scene, time, camera, width, height, x, y)} ::
      0 <= x < width && 0 <= y < height ==> px(x, y) == PixelBytes(m, scene, time, camera, width, height, x, y)
  }

  /** Traced pixels have three bytes each. */
  lemma TracedThreeBytes(px: (int, int) -> seq<byte>, m: MathLib, scene: seq<Sphere>, time: real, camera: Vec3, width: int, height: int)
    requires WellFormedScene(scene)
    requires TracedPixels(px, m, scene, time, camera, width, height)
    ensures ThreeBytes(px, width, height)
  {
    forall x, y | 0 <= x < width && 0 <= y < height
      ensures |px(x, y)| == 3
    {
      assert px(x, y) == PixelBytes(m, scene, time, camera, width, height, x, y);
    }
  }

  lemma PixelsTraced(m: MathLib, scene: seq<Sphere>, time: real, camera: Vec3, width: int, height: int)
    requires WellFormedScene(scene)
    ensures TracedPixels(Pixels(m, scene, time, camera, width, height), m, scene, time, camera, width, height)
  {
  }

  /** The frame buffer a render leaves: the traced picture, row by row from
      the top, each pixel's red, green and blue bytes from the left. */
  function Picture(m: MathLib, scene: seq<Sphere>, time: real, camera: Vec3, width: nat, height: nat): seq<byte> {
    ImageBytes(Pixels(m, scene, time, camera, width, height), width, height)
  }

  /** The picture has three bytes per pixel, and the byte at the position of
      channel `k` of pixel (x, y) is that channel of the pixel's colour. */
  lemma PictureAt(m: MathLib, scene: seq<Sphere>, time: real, camera: Vec3, width: nat, height: nat, x: int, y: int, k: int)
    requires WellFormedScene(scene)
    requires 0 <= x < width && 0 <= y < height && 0 <= k < 3
    ensures |Picture(m, scene, time, camera, width, height)| == width * height * 3
    ensures 0 <= PixelIndex(width, x, y, k) < width * height * 3
    ensures InUnitRange(PixelColor(m, scene, time, camera, width, height, x, y))
    ensures Picture(m, scene, time, camera, width, height)[PixelIndex(width, x, y, k)]
              == ToByte(Channel(PixelColor(m, scene, time, camera, width, height, x, y), k))
  {
    var px := Pixels(m, scene, time, camera, width, height);
    ImageBytesAt(px, width, height, height, x, y, k);
    ShadeInUnitRange(m, scene, time, PrimaryRay(m, camera, width, height, x, y), 0);
    assert height * width * 3 == width * height * 3;
  }
}
