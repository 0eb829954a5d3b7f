/**
 * The fixed monthly payment of an annuity loan (server.js, `monthlyPayment`).
 *
 * JavaScript numbers are modelled as exact reals. The term `months` is a whole
 * number, and the annual rate stays above -1200 %, so that 1 + r > 0. Rates at
 * or below -1200 % a year are not loan terms. At exactly -1200 % the power
 * `Math.pow(0, -months)` is Infinity. Below it the base is negative, and the
 * denominator `1 - (1 + r)^-months` can be zero (r = -2 with an even term).
 */
module Annuity {
  import opened Wrappers

  /** `x` raised to a natural power. */
  function Pow(x: real, n: nat): real {
    if n == 0 then 1.0 else x * Pow(x, n - 1)
  }

  lemma {:induction false} PowPositive(x: real, n: nat)
    requires x > 0.0
    ensures Pow(x, n) > 0.0
  {
    if n > 0 {
      PowPositive(x, n - 1);
    }
  }

  lemma MulPositive(a: real, b: real)
    requires a > 0.0 && b > 0.0
    ensures a * b > 0.0
  {
  }

  lemma MulNonNegative(a: real, b: real)
    requires a >= 0.0 && b >= 0.0
    ensures a * b >= 0.0
  {
  }

  /** Powers of a base above one grow strictly. */
  lemma {:induction false} PowIncreasing(x: real, j: nat, k: nat)
    requires x > 1.0 && j < k
    ensures Pow(x, j) < Pow(x, k)
  {
    var p := Pow(x, k - 1);
    PowPositive(x, k - 1);
    MulPositive(x - 1.0, p);
    assert Pow(x, k) == x * p;
    assert Pow(x, k) > p;
    if j < k - 1 {
      PowIncreasing(x, j, k - 1);
    }
  }


  /** Powers of a base strictly between zero and one shrink strictly. */
  lemma {:induction false} PowDecreasing(x: real, j: nat, k: nat)
    requires 0.0 < x < 1.0 && j < k
    ensures Pow(x, j) > Pow(x, k)
  {
    var p := Pow(x, k - 1);
    PowPositive(x, k - 1);
    MulPositive(1.0 - x, p);
    assert Pow(x, k) == x * p;
    assert Pow(x, k) < p;
    if j < k - 1 {
      PowDecreasing(x, j, k - 1);
    }
  }


  /** A positive power of a positive base lies on the same side of one as the base. */
  lemma PowComparedToOne(x: real, n: nat)
    requires x > 0.0
    ensures Pow(x, n) > 0.0
    ensures Pow(x, n) == 1.0 <==> (x == 1.0 || n == 0)
    ensures x > 1.0 && n > 0 ==> Pow(x, n) > 1.0
    ensures x < 1.0 && n > 0 ==> Pow(x, n) < 1.0
  {
    PowPositive(x, n);
    if n > 0 && x > 1.0 {
      PowIncreasing(x, 0, n);
    } else if n > 0 && x < 1.0 {
      PowDecreasing(x, 0, n);
    } else if x == 1.0 {
      PowOfOne(n);
    }
  }

  lemma {:induction false} PowOfOne(n: nat)
    ensures Pow(1.0, n) == 1.0
  {
    if n > 0 {
      PowOfOne(n - 1);
    }
  }

  /** Powers add their exponents. */
  lemma {:induction false} PowAdd(x: real, a: nat, b: nat)
    ensures Pow(x, a + b) == Pow(x, a) * Pow(x, b)
  {
    if a > 0 {
      PowAdd(x, a - 1, b);
      assert Pow(x, a + b) == x * Pow(x, a - 1 + b);
    }
  }

  /** The monthly periodic rate of an annual percentage rate. */
  function MonthlyRate(annualRatePct: real): (r: real)
    ensures r * 1200.0 == annualRatePct
  {
    (annualRatePct / 100.0) / 12.0
  }

  /** The rates the model covers: those for which 1 + r is positive. */
  predicate InDomain(annualRatePct: real) {
    annualRatePct > -1200.0
  }

  /** `Math.pow(1 + r, -months)` for a whole number of months. */
  function Discount(r: real, months: int): (d: real)
    requires r > -1.0
    ensures d > 0.0
    ensures d == 1.0 <==> (r == 0.0 || months == 0)
    ensures r > 0.0 && months > 0 ==> d < 1.0
    ensures r < 0.0 && months > 0 ==> d > 1.0
  {
    var n: nat := if months >= 0 then months else -months;
    PowComparedToOne(1.0 + r, n);
    if months >= 0 then 1.0 / Pow(1.0 + r, n) else Pow(1.0 + r, n)
  }

  /**
   * The fixed monthly payment: straight-line `principal / months` at a zero
   * rate, the annuity formula `principal * r / (1 - (1 + r)^-months)` otherwise.
   * None stands for the Infinity or NaN that JavaScript produces when it divides
   * by zero, which happens exactly when the term is zero months.
   */
  function MonthlyPayment(principal: real, annualRatePct: real, months: int): (p: Option<real>)
    requires InDomain(annualRatePct)
    ensures p.Some? <==> months != 0
    ensures annualRatePct == 0.0 && months != 0 ==> p.value * months as real == principal
  {
    var r := MonthlyRate(annualRatePct);
    if r == 0.0 then
      if months == 0 then None else Some(principal / months as real)
    else
      var denominator := 1.0 - Discount(r, months);
      if denominator == 0.0 then None else Some(principal * (r / denominator))
  }

  /**
   * With a positive rate and at least one month the formula's denominator lies
   * strictly between zero and one, so the payment is defined and exceeds one
   * month's interest on the whole principal.
   */
  lemma PaymentExceedsFirstInterest(principal: real, annualRatePct: real, months: int)
    requires annualRatePct > 0.0 && months >= 1 && principal > 0.0
    ensures 0.0 < 1.0 - Discount(MonthlyRate(annualRatePct), months) < 1.0
    ensures MonthlyPayment(principal, annualRatePct, months).value > principal * MonthlyRate(annualRatePct)
  {
    var r := MonthlyRate(annualRatePct);
    var d := 1.0 - Discount(r, months);
    assert r / d > r by {
      assert r / d * d == r;
    }
    assert principal * (r / d) > principal * r;
  }

  /** For a positive principal and a positive term the payment is positive at every covered rate. */
  lemma PaymentPositive(principal: real, annualRatePct: real, months: int)
    requires InDomain(annualRatePct) && months >= 1 && principal > 0.0
    ensures MonthlyPayment(principal, annualRatePct, months).value > 0.0
  {
    var r := MonthlyRate(annualRatePct);
    if r != 0.0 {
      var d := 1.0 - Discount(r, months);
      assert r / d > 0.0 by {
        assert r / d * d == r;
      }
    }
  }
}
