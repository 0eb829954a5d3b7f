/**
 * What the amortization schedule promises: its shape, the early stop, the
 * running balance staying within the principal and never rising, the
 * zero-rate case, and that with exact arithmetic the annuity payment pays the
 * loan off in exactly the agreed number of months.
 */
module ScheduleFacts {
  import opened Money
  import opened Annuity
  import opened Amortization

  /** The unrounded balance of a loan after `k` months of its schedule. */
  function LoanBalance(principal: real, annualRatePct: real, months: int, k: nat): real
    requires InDomain(annualRatePct)
  {
    Balance(principal, MonthlyRate(annualRatePct), Installment(principal, annualRatePct, months), k)
  }

  /**
   * The schedule has between one and `months` rows (none for a term below a
   * month), numbered 1, 2, ... in order; row k shows month k of the running
   * balance, the fixed payment rounded to cents, and every row but the last
   * leaves a positive balance. The schedule stops short of `months` only
   * after a month that leaves exactly zero.
   */
  lemma ScheduleShape(principal: real, annualRatePct: real, months: int)
    requires InDomain(annualRatePct)
    ensures var rows := Schedule(principal, annualRatePct, months);
      && (months < 1 ==> rows == [])
      && (months >= 1 ==> 1 <= |rows| <= months)
      && (forall j :: 0 <= j < |rows| ==> rows[j].month == j + 1)
      && (forall j :: 0 <= j < |rows| ==> rows[j].payment == Round2(Installment(principal, annualRatePct, months)))
      && (forall j :: 0 <= j < |rows| ==>
            rows[j].balance == Round2(LoanBalance(principal, annualRatePct, months, j + 1)))
      && (forall k :: 1 <= k < |rows| ==> LoanBalance(principal, annualRatePct, months, k) > 0.0)
      && (1 <= |rows| < months ==> LoanBalance(principal, annualRatePct, months, |rows|) == 0.0)
  {
    var rate := MonthlyRate(annualRatePct);
    var payment := Installment(principal, annualRatePct, months);
    var n := RowCount(principal, rate, payment, months);
    var rows := Schedule(principal, annualRatePct, months);
    RowsLength(principal, rate, payment, n);
    forall j | 0 <= j < |rows|
      ensures rows[j].month == j + 1
      ensures rows[j].payment == Round2(payment)
      ensures rows[j].balance == Round2(Balance(principal, rate, payment, j + 1))
    {
      RowsAt(principal, rate, payment, n, j);
    }
  }

  /**
   * A month that opens with a balance between zero and the principal, at a rate
   * that is not negative and a payment that covers the interest on the whole
   * principal, ends with a balance between zero and the opening one.
   */
  lemma MonthWithinBalance(principal: real, b: real, rate: real, payment: real)
    requires 0.0 <= b <= principal && rate >= 0.0 && payment >= principal * rate
    ensures 0.0 <= Ending(b, rate, payment) <= b
  {
    MulNonNegative(principal - b, rate);
    assert payment - b * rate >= 0.0;
  }

  /**
   * When the payment covers a month's interest on the whole principal and the
   * rate is not negative, the running balance never rises and stays between
   * zero and the principal.
   */
  lemma {:induction false} BalanceWithinPrincipal(principal: real, rate: real, payment: real, k: nat)
    requires principal >= 0.0 && rate >= 0.0 && payment >= principal * rate
    ensures 0.0 <= Balance(principal, rate, payment, k + 1) <= Balance(principal, rate, payment, k) <= principal
  {
    if k > 0 {
      BalanceWithinPrincipal(principal, rate, payment, k - 1);
    }
    MonthWithinBalance(principal, Balance(principal, rate, payment, k), rate, payment);
  }

  /** Under the conditions of `BalanceWithinPrincipal`, each row shows non-negative amounts, and its balance is no more than the previous row's. */
  lemma RowWithinPrincipal(principal: real, rate: real, payment: real, month: nat)
    requires principal >= 0.0 && rate >= 0.0 && payment >= principal * rate && month >= 1
    ensures var row := RowAt(principal, rate, payment, month);
      row.interest >= 0.0 && row.principalPaid >= 0.0 && row.balance >= 0.0
    ensures RowAt(principal, rate, payment, month + 1).balance <= RowAt(principal, rate, payment, month).balance
  {
    BalanceWithinPrincipal(principal, rate, payment, month - 1);
    BalanceWithinPrincipal(principal, rate, payment, month);
    MulNonNegative(Balance(principal, rate, payment, month - 1), rate);
    Round2Monotone(Balance(principal, rate, payment, month + 1), Balance(principal, rate, payment, month));
  }

  /** `RowWithinPrincipal` for every row of the first `n` months. */
  lemma RowsWithinPrincipal(principal: real, rate: real, payment: real, n: nat)
    requires principal >= 0.0 && rate >= 0.0 && payment >= principal * rate
    ensures var rows := Rows(principal, rate, payment, n);
      && (forall j :: 0 <= j < |rows| ==>
            rows[j].interest >= 0.0 && rows[j].principalPaid >= 0.0 && rows[j].balance >= 0.0)
      && (forall j :: 0 <= j < |rows| - 1 ==> rows[j + 1].balance <= rows[j].balance)
  {
    var rows := Rows(principal, rate, payment, n);
    RowsLength(principal, rate, payment, n);
    forall j | 0 <= j < n
      ensures rows[j].interest >= 0.0 && rows[j].principalPaid >= 0.0 && rows[j].balance >= 0.0
    {
      RowsAt(principal, rate, payment, n, j);
      RowWithinPrincipal(principal, rate, payment, j + 1);
    }
    forall j | 0 <= j < n - 1
      ensures rows[j + 1].balance <= rows[j].balance
    {
      RowsAt(principal, rate, payment, n, j);
      RowsAt(principal, rate, payment, n, j + 1);
      RowWithinPrincipal(principal, rate, payment, j + 1);
    }
  }

  /**
   * For a positive principal and a non-negative rate every amount a row shows
   * is non-negative, and the balance column never rises from one row to the next.
   */
  lemma ScheduleNonIncreasing(principal: real, annualRatePct: real, months: int)
    requires principal > 0.0 && annualRatePct >= 0.0 && months >= 1
    ensures var rows := Schedule(principal, annualRatePct, months);
      && (forall j :: 0 <= j < |rows| ==>
            rows[j].interest >= 0.0 && rows[j].principalPaid >= 0.0 && rows[j].balance >= 0.0)
      && (forall j :: 0 <= j < |rows| - 1 ==> rows[j + 1].balance <= rows[j].balance)
  {
    var rate := MonthlyRate(annualRatePct);
    var payment := Installment(principal, annualRatePct, months);
    if annualRatePct > 0.0 {
      PaymentExceedsFirstInterest(principal, annualRatePct, months);
    } else {
      PaymentPositive(principal, annualRatePct, months);
    }
    assert payment >= principal * rate;
    var n := RowCount(principal, rate, payment, months);
    assert Schedule(principal, annualRatePct, months) == Rows(principal, rate, payment, n);
    RowsWithinPrincipal(principal, rate, payment, n);
  }
}
