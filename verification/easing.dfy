/**
 * The cubic ease-in-out curve shared by the C++ animator and the TypeScript
 * palette cycler: e(t) = 4t^3 below one half, 1 - (2 - 2t)^3 / 2 from there.
 * Modelled over mathematical reals (no IEEE rounding).
 */
module Easing {

  function Cube(x: real): real { x * x * x }

  function EaseInOutCubic(t: real): real {
    if t < 0.5 then 4.0 * Cube(t) else 1.0 - Cube(-2.0 * t + 2.0) / 2.0
  }

  lemma CubeMonotone(a: real, b: real)
    requires 0.0 <= a <= b
    ensures 0.0 <= Cube(a) <= Cube(b)
  {
    assert a * a <= a * b <= b * b;
    assert a * a * a <= b * b * a;
    assert b * b * a <= b * b * b;
  }

  /** Both branches agree at one half, and the ends are pinned. */
  lemma EaseFixedPoints()
    ensures EaseInOutCubic(0.0) == 0.0
    ensures EaseInOutCubic(0.5) == 0.5
    ensures 4.0 * Cube(0.5) == 0.5
    ensures EaseInOutCubic(1.0) == 1.0
  {
    assert Cube(0.0) == 0.0;
    assert Cube(0.5) == 0.125;
    assert Cube(1.0) == 1.0;
  }

  /** On [0,1] the eased value stays in [0,1]; below one half it stays below one half. */
  lemma EaseRange(t: real)
    requires 0.0 <= t <= 1.0
    ensures 0.0 <= EaseInOutCubic(t) <= 1.0
    ensures t < 0.5 ==> EaseInOutCubic(t) < 0.5
    ensures t >= 0.5 ==> EaseInOutCubic(t) >= 0.5
  {
    if t < 0.5 {
      CubeMonotone(t, 0.5);
      if Cube(t) == Cube(0.5) {
        CubeStrict(t, 0.5);
      }
    } else {
      CubeMonotone(-2.0 * t + 2.0, 1.0);
    }
  }

  lemma CubeStrict(a: real, b: real)
    requires 0.0 <= a < b
    ensures Cube(a) < Cube(b)
  {
    assert a * a <= a * b < b * b;
    assert a * a * a <= b * b * a;
    assert b * b * a < b * b * b;
  }

  /** The curve never goes backwards on [0,1]. */
  lemma EaseMonotone(a: real, b: real)
    requires 0.0 <= a <= b <= 1.0
    ensures EaseInOutCubic(a) <= EaseInOutCubic(b)
  {
    EaseRange(a);
    EaseRange(b);
    if b < 0.5 {
      CubeMonotone(a, b);
    } else if 0.5 <= a {
      CubeMonotone(-2.0 * b + 2.0, -2.0 * a + 2.0);
    }
  }
}
