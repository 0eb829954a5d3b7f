/**
 * The amortization schedule (server.js, `amortizationSchedule`): one row per
 * month while the running balance stays positive, at most `months` rows.
 *
 * The schedule is specified by the unrounded running balance `Balance` and the
 * number of rows `RowCount`; the method `AmortizationSchedule` runs the
 * `for` loop of `amortizationSchedule` and is proved to produce exactly
 * `Schedule`.
 */
module Amortization {
  import opened Wrappers
  import opened Money
  import opened Annuity

  /** One month of the schedule, every amount rounded to cents as the response shows it. */
  datatype PaymentRow = PaymentRow(month: int, payment: real, principalPaid: real, interest: real, balance: real)

  /**
   * What a month's payment takes off the balance: the payment less the
   * month's interest, but never more than the balance itself.
   */
  function PrincipalPaid(balance: real, rate: real, payment: real): (paid: real)
    ensures paid <= balance
    ensures paid == payment - balance * rate || paid == balance
  {
    Min(payment - balance * rate, balance)
  }

  /** The balance left at the end of a month; the cap on the principal paid keeps it from going negative. */
  function Ending(balance: real, rate: real, payment: real): (e: real)
    ensures e >= 0.0
    ensures e == 0.0 || e == balance * (1.0 + rate) - payment
  {
    balance - PrincipalPaid(balance, rate, payment)
  }

  /** The unrounded balance after `k` months of the given payment, starting from the principal. */
  function Balance(principal: real, rate: real, payment: real, k: nat): (b: real)
    ensures k >= 1 ==> b >= 0.0
  {
    if k == 0 then principal else Ending(Balance(principal, rate, payment, k - 1), rate, payment)
  }

  /**
   * The row for month `month` when the month opens with `balance`: the
   * month's interest, the principal it pays and the balance it leaves, each
   * shown rounded to cents.
   */
  function MonthRow(month: int, balance: real, rate: real, payment: real): (row: PaymentRow)
    ensures row.month == month
    ensures row.balance == Round2(Ending(balance, rate, payment))
    ensures row.principalPaid == Round2(balance - Ending(balance, rate, payment))
    ensures row.interest == Round2(balance * rate)
  {
    var interest := balance * rate;
    var paid := PrincipalPaid(balance, rate, payment);
    PaymentRow(month, Round2(payment), Round2(paid), Round2(interest), Round2(balance - paid))
  }

  /** The row the schedule shows for month `month` of a loan. */
  function RowAt(principal: real, rate: real, payment: real, month: nat): PaymentRow
    requires month >= 1
  {
    MonthRow(month, Balance(principal, rate, payment, month - 1), rate, payment)
  }

  /** The first month from `k` on whose ending balance is zero or below, or the last month. */
  function FirstPayoff(principal: real, rate: real, payment: real, months: int, k: nat): (n: nat)
    requires 1 <= k <= months
    decreases months - k
    ensures k <= n <= months
    ensures forall j :: k <= j < n ==> Balance(principal, rate, payment, j) > 0.0
    ensures n < months ==> Balance(principal, rate, payment, n) <= 0.0
  {
    if k == months || Balance(principal, rate, payment, k) <= 0.0 then k
    else FirstPayoff(principal, rate, payment, months, k + 1)
  }

  /**
   * The number of rows: none for a term below one month; otherwise the first
   * month whose ending balance is zero or below, or `months` if there is none.
   */
  function RowCount(principal: real, rate: real, payment: real, months: int): (n: nat)
    ensures months < 1 ==> n == 0
    ensures months >= 1 ==> 1 <= n <= months
    ensures forall k :: 1 <= k < n ==> Balance(principal, rate, payment, k) > 0.0
    ensures 1 <= n < months ==> Balance(principal, rate, payment, n) <= 0.0
  {
    if months < 1 then 0 else FirstPayoff(principal, rate, payment, months, 1)
  }

  /** The conditions `RowCount` meets determine it: no other length meets them. */
  lemma RowCountUnique(principal: real, rate: real, payment: real, months: int, n: nat)
    requires months >= 1 && 1 <= n <= months
    requires forall k :: 1 <= k < n ==> Balance(principal, rate, payment, k) > 0.0
    requires n < months ==> Balance(principal, rate, payment, n) <= 0.0
    ensures n == RowCount(principal, rate, payment, months)
  {
  }

  /**
   * The payment the schedule applies every month: `MonthlyPayment`, which is
   * defined whenever there is at least one month to schedule.
   */
  function Installment(principal: real, annualRatePct: real, months: int): (payment: real)
    requires InDomain(annualRatePct)
    ensures months != 0 ==> Some(payment) == MonthlyPayment(principal, annualRatePct, months)
  {
    var p := MonthlyPayment(principal, annualRatePct, months);
    if p.Some? then p.value else 0.0
  }

  /** The rows of the first `n` months. */
  function Rows(principal: real, rate: real, payment: real, n: nat): seq<PaymentRow> {
    if n == 0 then [] else Rows(principal, rate, payment, n - 1) + [RowAt(principal, rate, payment, n)]
  }

  lemma {:induction false} RowsLength(principal: real, rate: real, payment: real, n: nat)
    ensures |Rows(principal, rate, payment, n)| == n
  {
    if n > 0 {
      RowsLength(principal, rate, payment, n - 1);
    }
  }

  /** The row at position j of `Rows` is the row for month j + 1. */
  lemma {:induction false} RowsAt(principal: real, rate: real, payment: real, n: nat, j: nat)
    requires j < n
    ensures |Rows(principal, rate, payment, n)| == n
    ensures Rows(principal, rate, payment, n)[j] == RowAt(principal, rate, payment, j + 1)
  {
    RowsLength(principal, rate, payment, n - 1);
    if j < n - 1 {
      RowsAt(principal, rate, payment, n - 1, j);
    }
  }

  /**
   * The schedule for a loan: `RowCount` rows, the row for month k showing the
   * k-th month of the running balance.
   */
  function Schedule(principal: real, annualRatePct: real, months: int): (rows: seq<PaymentRow>)
    requires InDomain(annualRatePct)
    ensures months < 1 ==> rows == []
    ensures months >= 1 ==> 1 <= |rows| <= months
  {
    var rate := MonthlyRate(annualRatePct);
    var payment := Installment(principal, annualRatePct, months);
    var n := RowCount(principal, rate, payment, months);
    RowsLength(principal, rate, payment, n);
    Rows(principal, rate, payment, n)
  }

  /**
   * Runs the `for` loop of `amortizationSchedule`: one row per month, the running balance carried
   * unrounded from month to month, stopping after the month that brings it to
   * zero or below.
   */
  method AmortizationSchedule(principal: real, annualRatePct: real, months: int) returns (schedule: seq<PaymentRow>)
    requires InDomain(annualRatePct)
    ensures schedule == Schedule(principal, annualRatePct, months)
  {
    schedule := [];
    var balance := principal;
    var monthlyRate := MonthlyRate(annualRatePct);
    var payment := Installment(principal, annualRatePct, months);
    var i := 1;
    while i <= months
      invariant 1 <= i && (i == 1 || i <= months + 1)
      invariant schedule == Rows(principal, monthlyRate, payment, i - 1)
      invariant balance == Balance(principal, monthlyRate, payment, i - 1)
      invariant forall k :: 1 <= k < i ==> Balance(principal, monthlyRate, payment, k) > 0.0
    {
      schedule := schedule + [MonthRow(i, balance, monthlyRate, payment)];
      balance := Ending(balance, monthlyRate, payment);
      if balance <= 0.0 {
        RowsLength(principal, monthlyRate, payment, i);
        RowCountUnique(principal, monthlyRate, payment, months, i);
        break;
      }
      i := i + 1;
    }
    if months >= 1 && i == months + 1 {
      RowsLength(principal, monthlyRate, payment, months);
      RowCountUnique(principal, monthlyRate, payment, months, months);
    }
  }
}
