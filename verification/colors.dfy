/** RGB colors as used by the animator, the palette cycler and the clock loop. */
module Colors {

  /** One 8-bit color channel (the C++ `uint8_t`, 0..255). */
  type Channel = c: int | 0 <= c <= 255

  /** A value-type RGB color; `RGBColor()` default-constructs to black. */
  datatype Color = Color(r: Channel, g: Channel, b: Channel)

  const Black: Color := Color(0, 0, 0)
  const White: Color := Color(255, 255, 255)

  function Min(a: int, b: int): int { if a <= b then a else b }
  function Max(a: int, b: int): int { if a <= b then b else a }

  /** `v` lies between `a` and `b` inclusive, whichever of them is larger. */
  predicate InRange(v: int, a: int, b: int) {
    Min(a, b) <= v <= Max(a, b)
  }

  /** Every channel of `c` lies between the matching channels of `x` and `y`. */
  predicate Between(c: Color, x: Color, y: Color) {
    InRange(c.r, x.r, y.r) && InRange(c.g, x.g, y.g) && InRange(c.b, x.b, y.b)
  }

  /** A linear blend `f + (g - f) * t` with t in [0,1] stays between its endpoints. */
  lemma LerpBetween(f: int, g: int, t: real)
    requires 0.0 <= t <= 1.0
    ensures Min(f, g) as real <= f as real + (g - f) as real * t <= Max(f, g) as real
  {
    if f <= g {
      assert 0.0 <= (g - f) as real * t <= (g - f) as real;
    } else {
      assert (g - f) as real <= (g - f) as real * t <= 0.0;
    }
  }
}
