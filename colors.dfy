/** The RGB colour value type of the ray tracer (struct Color). Channels are
    reals and are not kept in any range while shading; `Clamp` bounds them
    from above only. */
module Colors {

  datatype Color = Color(r: real, g: real, b: real)

  function ColorAdd(c: Color, d: Color): Color {
    Color(c.r + d.r, c.g + d.g, c.b + d.b)
  }

  /** Colour addition is commutative with black as identity, keeps
      non-negative colours non-negative, and scaling distributes over it. */
  lemma ColorAddLaws(c: Color, d: Color, s: real)
    ensures ColorAdd(c, d) == ColorAdd(d, c)
    ensures ColorAdd(c, Color(0.0, 0.0, 0.0)) == c
    ensures NonNegative(c) && NonNegative(d) ==> NonNegative(ColorAdd(c, d))
    ensures ColorScale(ColorAdd(c, d), s) == ColorAdd(ColorScale(c, s), ColorScale(d, s))
  {
  }

  /** Scaling by a non-negative factor keeps non-negative channels non-negative. */
  function ColorScale(c: Color, s: real): (r: Color)
    ensures 0.0 <= s && NonNegative(c) ==> NonNegative(r)
  {
    Color(c.r * s, c.g * s, c.b * s)
  }

  /** `std::min(1.0f, v)` */
  function Min1(v: real): real {
    if v < 1.0 then v else 1.0
  }

  /** Each channel becomes min(1, channel): channels above 1 become 1, and
      channels at or below 1 are kept, negative ones included. */
  function Clamp(c: Color): (r: Color)
    ensures AtMostOne(r)
    ensures r.r <= c.r && r.g <= c.g && r.b <= c.b
    ensures c.r <= 1.0 ==> r.r == c.r
    ensures c.g <= 1.0 ==> r.g == c.g
    ensures c.b <= 1.0 ==> r.b == c.b
    ensures 1.0 < c.r ==> r.r == 1.0
    ensures 1.0 < c.g ==> r.g == 1.0
    ensures 1.0 < c.b ==> r.b == 1.0
  {
    Color(Min1(c.r), Min1(c.g), Min1(c.b))
  }

  predicate AtMostOne(c: Color) {
    c.r <= 1.0 && c.g <= 1.0 && c.b <= 1.0
  }

  predicate NonNegative(c: Color) {
    0.0 <= c.r && 0.0 <= c.g && 0.0 <= c.b
  }

  predicate InUnitRange(c: Color) {
    NonNegative(c) && AtMostOne(c)
  }

  /** Clamping twice is clamping once, and it never makes a channel negative. */
  lemma ClampIdempotent(c: Color)
    ensures Clamp(Clamp(c)) == Clamp(c)
    ensures NonNegative(c) ==> InUnitRange(Clamp(c))
  {
  }

  /** Only the upper bound is enforced: (1.5, -0.2, 0.5) clamps to (1, -0.2, 0.5). */
  lemma ClampKeepsNegative()
    ensures Clamp(Color(1.5, -0.2, 0.5)) == Color(1.0, -0.2, 0.5)
  {
  }

  /** The channel `k` (0 red, 1 green, 2 blue). */
  function Channel(c: Color, k: nat): real
    requires k < 3
  {
    if k == 0 then c.r else if k == 1 then c.g else c.b
  }
}
