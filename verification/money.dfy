/** Amounts of money over exact reals: `Math.min` and the two-decimal rounding of `toFixed(2)`. */
module Money {

  /** `Math.min` on two finite numbers. */
  function Min(a: real, b: real): (m: real)
    ensures m <= a && m <= b
    ensures m == a || m == b
  {
    if a <= b then a else b
  }

  /** True when `x` is a whole number of cents. */
  predicate IsCents(x: real) {
    (x * 100.0).Floor as real == x * 100.0
  }

  /** Nearest cent to a non-negative amount, a half cent going up. */
  function RoundUpHalfCent(x: real): (y: real)
    requires x >= 0.0
    ensures IsCents(y)
    ensures x - 0.005 < y <= x + 0.005
    ensures y >= 0.0
  {
    (x * 100.0 + 0.5).Floor as real / 100.0
  }

  /**
   * `Number(x.toFixed(2))` over exact reals: the nearest whole number of cents,
   * a tie going away from zero (toFixed rounds the magnitude and keeps the sign).
   */
  function Round2(x: real): (y: real)
    ensures IsCents(y)
    ensures x - 0.005 <= y <= x + 0.005
    ensures x >= 0.0 ==> y >= 0.0
    ensures x <= 0.0 ==> y <= 0.0
  {
    if x < 0.0 then
      var m := RoundUpHalfCent(-x);
      NegatedCents(m);
      -m
    else
      RoundUpHalfCent(x)
  }

  lemma NegatedCents(x: real)
    requires IsCents(x)
    ensures IsCents(-x)
  {
    var k := (x * 100.0).Floor;
    assert -x * 100.0 == (-k) as real;
  }

  /** Rounding to cents never reverses the order of two amounts. */
  lemma Round2Monotone(x: real, y: real)
    requires x <= y
    ensures Round2(x) <= Round2(y)
  {
    if 0.0 <= x {
      assert (x * 100.0 + 0.5).Floor <= (y * 100.0 + 0.5).Floor;
    } else if y < 0.0 {
      assert (-y * 100.0 + 0.5).Floor <= (-x * 100.0 + 0.5).Floor;
    }
  }

  /** An amount within half a cent of a positive number of cents, a tie going up, rounds to it. */
  lemma Round2Near(x: real, c: int)
    requires c >= 1 && c as real / 100.0 - 0.005 <= x < c as real / 100.0 + 0.005
    ensures Round2(x) == c as real / 100.0
  {
    var y := x * 100.0 + 0.5;
    assert c as real <= y < c as real + 1.0;
    assert y.Floor == c;
    assert Round2(x) == RoundUpHalfCent(x) == y.Floor as real / 100.0;
  }

  /** An amount that already is a whole number of cents is left as it is. */
  lemma Round2OfCents(c: int)
    ensures Round2(c as real / 100.0) == c as real / 100.0
  {
    var x := c as real / 100.0;
    if c < 0 {
      assert -x * 100.0 + 0.5 == (-c) as real + 0.5;
      assert (-x * 100.0 + 0.5).Floor == -c;
    } else {
      assert x * 100.0 + 0.5 == c as real + 0.5;
      assert (x * 100.0 + 0.5).Floor == c;
    }
  }
}
