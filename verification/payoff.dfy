/**
 * With exact arithmetic the fixed payment pays the loan off in exactly the
 * agreed number of months: the running balance stays positive until the last
 * month and the last month leaves zero, so the schedule has `months` rows and
 * its early stop is taken, if at all, only after the final month.
 *
 * The proof goes through the closed form of an annuity. With x = 1 + r,
 * D = x^months and q = principal / (D - 1), the payment is q r D and the
 * balance after k months is q (D - x^k).
 */
module Payoff {
  import opened Money
  import opened Annuity
  import opened Amortization
  import opened ScheduleFacts

  lemma MulEqual(q: real, a: real, b: real)
    requires a == b
    ensures q * a == q * b
  {
  }

  lemma QuotientSign(a: real, b: real)
    requires b != 0.0
    ensures a / b * b == a
    ensures a > 0.0 && b > 0.0 ==> a / b > 0.0
    ensures a > 0.0 && b < 0.0 ==> a / b < 0.0
  {
  }

  /** The common factor principal / (D - 1) of the annuity formulas, D = (1 + r)^months. */
  function Factor(principal: real, r: real, months: nat): real
    requires r > -1.0 && r != 0.0 && months >= 1
  {
    PowComparedToOne(1.0 + r, months);
    principal / (Pow(1.0 + r, months) - 1.0)
  }

  /** The factor times D - 1 is the principal; for a positive principal it has the sign of the rate. */
  lemma FactorProperties(principal: real, r: real, months: nat)
    requires r > -1.0 && r != 0.0 && months >= 1
    ensures var q := Factor(principal, r, months);
      && q * (Pow(1.0 + r, months) - 1.0) == principal
      && (principal > 0.0 && r > 0.0 ==> q > 0.0)
      && (principal > 0.0 && r < 0.0 ==> q < 0.0)
  {
    PowComparedToOne(1.0 + r, months);
    QuotientSign(principal, Pow(1.0 + r, months) - 1.0);
  }

  /** principal * r / (1 - 1/D) with principal = q (D - 1) is q r D. */
  lemma PaymentAlgebra(q: real, r: real, d: real)
    requires d > 0.0 && d != 1.0
    ensures q * (d - 1.0) * (r / (1.0 - 1.0 / d)) == q * r * d
  {
    var w := 1.0 - 1.0 / d;
    assert w * d == d - 1.0;
    var t := r / w;
    assert t * w == r;
    assert t * (d - 1.0) == r * d by {
      assert t * (d - 1.0) == t * (w * d);
      assert t * (w * d) == (t * w) * d;
    }
    assert q * (d - 1.0) * t == q * (t * (d - 1.0));
  }

  /** At a nonzero rate the payment principal * r / (1 - D^-months) equals q r D. */
  lemma AnnuityPaymentForm(principal: real, annualRatePct: real, months: nat)
    requires InDomain(annualRatePct) && annualRatePct != 0.0 && months >= 1
    ensures var r := MonthlyRate(annualRatePct);
      Installment(principal, annualRatePct, months) == Factor(principal, r, months) * r * Pow(1.0 + r, months)
  {
    var r := MonthlyRate(annualRatePct);
    var d := Pow(1.0 + r, months);
    PowComparedToOne(1.0 + r, months);
    var q := Factor(principal, r, months);
    FactorProperties(principal, r, months);
    assert Discount(r, months) == 1.0 / d;
    assert Installment(principal, annualRatePct, months) == principal * (r / (1.0 - 1.0 / d));
    PaymentAlgebra(q, r, d);
  }

  /**
   * The balance after `k` months when nothing caps the principal paid: each
   * month adds its interest and takes off the whole payment.
   */
  function Uncapped(principal: real, r: real, payment: real, k: nat): real {
    if k == 0 then principal else Uncapped(principal, r, payment, k - 1) * (1.0 + r) - payment
  }

  /** A month that leaves the non-negative amount b (1 + r) - payment ends at exactly that amount. */
  lemma EndingOfNonNegative(b: real, r: real, payment: real, next: real)
    requires b * (1.0 + r) - payment == next && next >= 0.0
    ensures Ending(b, r, payment) == next
  {
    assert b * (1.0 + r) == b + b * r;
  }

  /** While the uncapped balance stays non-negative the cap never applies, and the two balances agree. */
  lemma {:induction false} BalanceFollowsUncapped(principal: real, r: real, payment: real, k: nat)
    requires forall j :: 1 <= j <= k ==> Uncapped(principal, r, payment, j) >= 0.0
    ensures Balance(principal, r, payment, k) == Uncapped(principal, r, payment, k)
  {
    if k > 0 {
      BalanceFollowsUncapped(principal, r, payment, k - 1);
      EndingOfNonNegative(Uncapped(principal, r, payment, k - 1), r, payment, Uncapped(principal, r, payment, k));
    }
  }

  /** The closed-form balance q (D - x^k). */
  function ClosedForm(q: real, d: real, x: real, k: nat): real {
    q * (d - Pow(x, k))
  }

  /** With x = 1 + r, a month at the payment q r D takes q (D - p) to q (D - x p). */
  lemma StepAlgebra(q: real, r: real, d: real, p: real, p': real, payment: real)
    requires p' == (1.0 + r) * p && payment == q * r * d
    ensures q * (d - p) * (1.0 + r) - payment == q * (d - p')
  {
  }

  /** The uncapped balance of a principal q (D - 1) at the payment q r D is q (D - x^k), x = 1 + r. */
  lemma {:induction false} UncappedClosedForm(principal: real, r: real, x: real, payment: real, q: real, d: real, k: nat)
    requires x == 1.0 + r && q * (d - 1.0) == principal && payment == q * r * d
    ensures Uncapped(principal, r, payment, k) == ClosedForm(q, d, x, k)
  {
    if k > 0 {
      UncappedClosedForm(principal, r, x, payment, q, d, k - 1);
      StepAlgebra(q, r, d, Pow(x, k - 1), Pow(x, k), payment);
    } else {
      MulEqual(q, d - Pow(x, k), d - 1.0);
    }
  }

  /**
   * When q has the sign of x - 1, the closed form is positive before the last
   * month and zero at the last month.
   */
  lemma ClosedFormSign(q: real, x: real, months: nat, k: nat)
    requires (x > 1.0 && q > 0.0) || (0.0 < x < 1.0 && q < 0.0)
    requires k <= months
    ensures k < months ==> ClosedForm(q, Pow(x, months), x, k) > 0.0
    ensures ClosedForm(q, Pow(x, months), x, months) == 0.0
  {
    var d := Pow(x, months);
    if k < months {
      if x > 1.0 {
        PowIncreasing(x, k, months);
        MulPositive(q, d - Pow(x, k));
      } else {
        PowDecreasing(x, k, months);
        MulPositive(-q, Pow(x, k) - d);
      }
    }
  }

  /**
   * For a principal q (D - 1), D = x^months, paid at q r D a month, the running
   * balance stays positive before the last month and is zero after it.
   */
  lemma PaidOffInTerm(principal: real, r: real, x: real, payment: real, q: real, months: nat)
    requires x == 1.0 + r && months >= 1
    requires (x > 1.0 && q > 0.0) || (0.0 < x < 1.0 && q < 0.0)
    requires q * (Pow(x, months) - 1.0) == principal && payment == q * r * Pow(x, months)
    ensures forall k :: 1 <= k < months ==> Balance(principal, r, payment, k) > 0.0
    ensures Balance(principal, r, payment, months) == 0.0
  {
    var d := Pow(x, months);
    forall j | 1 <= j <= months
      ensures Uncapped(principal, r, payment, j) >= 0.0
    {
      UncappedClosedForm(principal, r, x, payment, q, d, j);
      ClosedFormSign(q, x, months, j);
    }
    forall k | 1 <= k <= months
      ensures Balance(principal, r, payment, k) == ClosedForm(q, d, x, k)
    {
      BalanceFollowsUncapped(principal, r, payment, k);
      UncappedClosedForm(principal, r, x, payment, q, d, k);
    }
    forall k | 1 <= k <= months
      ensures k < months ==> ClosedForm(q, d, x, k) > 0.0
      ensures ClosedForm(q, d, x, months) == 0.0
    {
      ClosedFormSign(q, x, months, k);
    }
  }

  /**
   * At any nonzero rate the model covers, a positive principal is paid off in
   * exactly the agreed term: the schedule has `months` rows, every month but
   * the last leaves a positive balance, and the last row shows a zero balance.
   */
  lemma FullTerm(principal: real, annualRatePct: real, months: int)
    requires InDomain(annualRatePct) && annualRatePct != 0.0 && principal > 0.0 && months >= 1
    ensures var rows := Schedule(principal, annualRatePct, months);
      && |rows| == months
      && (forall k :: 1 <= k < months ==> LoanBalance(principal, annualRatePct, months, k) > 0.0)
      && LoanBalance(principal, annualRatePct, months, months) == 0.0
      && rows[months - 1].balance == 0.0
  {
    var r := MonthlyRate(annualRatePct);
    var payment := Installment(principal, annualRatePct, months);
    AnnuityPaymentForm(principal, annualRatePct, months);
    FactorProperties(principal, r, months);
    PaidOffInTerm(principal, r, 1.0 + r, payment, Factor(principal, r, months), months);
    RowCountUnique(principal, r, payment, months, months);
    ScheduleShape(principal, annualRatePct, months);
    Round2OfCents(0);
  }
}
