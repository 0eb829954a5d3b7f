/**
 * The zero-rate branch of the calculator: the payment is the straight-line
 * share principal / months, no row charges interest, every row pays off the
 * same share of principal, and the loan runs its full term.
 */
module ZeroRate {
  import opened Money
  import opened Annuity
  import opened Amortization
  import opened ScheduleFacts
  import opened Payoff

  /** What `k` payments of `payment` add up to. */
  function Repaid(payment: real, k: nat): real {
    if k == 0 then 0.0 else Repaid(payment, k - 1) + payment
  }

  /** `k` equal payments add up to k times the payment. */
  lemma {:induction false} RepaidIsProduct(payment: real, k: nat)
    ensures Repaid(payment, k) == k as real * payment
  {
    if k > 0 {
      RepaidIsProduct(payment, k - 1);
      assert k as real * payment == (k - 1) as real * payment + payment;
    }
  }

  /**
   * At a zero rate each month takes exactly one payment off the balance, for
   * as long as the payments made so far do not exceed the principal.
   */
  lemma {:induction false} ZeroRateBalance(principal: real, payment: real, k: nat)
    requires Repaid(payment, k) <= principal
    requires payment >= 0.0
    ensures Balance(principal, 0.0, payment, k) == principal - Repaid(payment, k)
  {
    if k > 0 {
      ZeroRateBalance(principal, payment, k - 1);
      EndingOfNonNegative(principal - Repaid(payment, k - 1), 0.0, payment, principal - Repaid(payment, k));
    }
  }

  /** The interest charged at a zero rate rounds to zero. */
  lemma ZeroInterest(balance: real)
    ensures Round2(balance * 0.0) == 0.0
  {
    Round2OfCents(0);
  }

  /**
   * When `months` payments of `share` make up the principal, the balance
   * after month k is principal - k * share, positive before the last month.
   */
  lemma ZeroRateBalanceAt(principal: real, share: real, months: nat, k: nat)
    requires share > 0.0 && share * months as real == principal && k <= months
    ensures Balance(principal, 0.0, share, k) == principal - k as real * share
    ensures k < months ==> Balance(principal, 0.0, share, k) > 0.0
  {
    var rest := (months - k) as real;
    assert principal - k as real * share == rest * share;
    MulNonNegative(rest, share);
    RepaidIsProduct(share, k);
    ZeroRateBalance(principal, share, k);
    if k < months {
      MulPositive(rest, share);
    }
  }

  /** `ZeroRateBalanceAt` for every month of the term. */
  lemma ZeroRateBalances(principal: real, share: real, months: nat)
    requires share > 0.0 && share * months as real == principal
    ensures forall k: nat :: k <= months ==> Balance(principal, 0.0, share, k) == principal - k as real * share
    ensures forall k: nat :: k < months ==> Balance(principal, 0.0, share, k) > 0.0
  {
    forall k: nat | k <= months
      ensures Balance(principal, 0.0, share, k) == principal - k as real * share
      ensures k < months ==> Balance(principal, 0.0, share, k) > 0.0
    {
      ZeroRateBalanceAt(principal, share, months, k);
    }
  }

  /** Month k of a zero-rate schedule charges no interest and pays one share of principal. */
  lemma ZeroRateRow(principal: real, share: real, months: nat, month: nat)
    requires share > 0.0 && share * months as real == principal && 1 <= month <= months
    ensures RowAt(principal, 0.0, share, month).interest == 0.0
    ensures RowAt(principal, 0.0, share, month).principalPaid == Round2(share)
  {
    ZeroRateBalanceAt(principal, share, months, month - 1);
    ZeroRateBalanceAt(principal, share, months, month);
    var before := Balance(principal, 0.0, share, month - 1);
    assert Balance(principal, 0.0, share, month) == Ending(before, 0.0, share);
    assert before - Ending(before, 0.0, share) == share;
    ZeroInterest(before);
  }

  /** `ZeroRateRow` for each of the first `months` rows. */
  lemma ZeroRateRows(principal: real, share: real, months: nat)
    requires share > 0.0 && share * months as real == principal
    ensures var rows := Rows(principal, 0.0, share, months);
      && |rows| == months
      && (forall j :: 0 <= j < |rows| ==> rows[j].interest == 0.0)
      && (forall j :: 0 <= j < |rows| ==> rows[j].principalPaid == Round2(share))
  {
    var rows := Rows(principal, 0.0, share, months);
    RowsLength(principal, 0.0, share, months);
    forall j | 0 <= j < months
      ensures rows[j].interest == 0.0
      ensures rows[j].principalPaid == Round2(share)
    {
      RowsAt(principal, 0.0, share, months, j);
      ZeroRateRow(principal, share, months, j + 1);
    }
  }

  /**
   * At a zero rate the payment is the share principal / months, and the
   * balance after month k of a positive term is principal - k * share: zero
   * after the last month and positive before it.
   */
  lemma ZeroRateLoanBalance(principal: real, months: int)
    requires principal > 0.0 && months >= 1
    ensures Installment(principal, 0.0, months) == principal / months as real
    ensures forall k: nat :: k <= months ==>
      LoanBalance(principal, 0.0, months, k) == principal - k as real * (principal / months as real)
    ensures forall k: nat :: k < months ==> LoanBalance(principal, 0.0, months, k) > 0.0
    ensures LoanBalance(principal, 0.0, months, months) == 0.0
  {
    var share := principal / months as real;
    assert Installment(principal, 0.0, months) == share;
    PaymentPositive(principal, 0.0, months);
    assert MonthlyRate(0.0) == 0.0;
    ZeroRateBalances(principal, share, months);
  }

  /**
   * At a zero rate and a positive term the schedule has `months` rows; none
   * charges interest, each pays principal / months (rounded to cents) off the
   * principal, and the last row shows a zero balance.
   */
  lemma ZeroRateSchedule(principal: real, months: int)
    requires principal > 0.0 && months >= 1
    ensures var rows := Schedule(principal, 0.0, months);
      && |rows| == months
      && (forall j :: 0 <= j < |rows| ==> rows[j].interest == 0.0)
      && (forall j :: 0 <= j < |rows| ==> rows[j].principalPaid == Round2(principal / months as real))
      && rows[months - 1].balance == 0.0
  {
    var share := principal / months as real;
    ZeroRateLoanBalance(principal, months);
    PaymentPositive(principal, 0.0, months);
    ZeroRateBalances(principal, share, months);
    RowCountUnique(principal, 0.0, share, months, months);
    assert Schedule(principal, 0.0, months) == Rows(principal, 0.0, share, months);
    ZeroRateRows(principal, share, months);
    ScheduleShape(principal, 0.0, months);
    Round2OfCents(0);
  }
}
