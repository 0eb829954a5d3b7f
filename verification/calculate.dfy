/**
 * The `/api/calculate` endpoint (server.js): it checks the request, then
 * answers with the monthly payment, the schedule and the two totals the
 * schedule adds up, each rounded to cents.
 *
 * A request field is an Option: None is a field the JSON body leaves out
 * (`undefined`), and a present number is falsy exactly when it is zero.
 */
module Calculate {
  import opened Wrappers
  import opened Money
  import opened Annuity
  import opened Amortization
  import opened ScheduleFacts
  import opened ZeroRate
  import opened Payoff

  datatype CalcRequest = CalcRequest(principal: Option<real>, annualRatePct: Option<real>, months: Option<int>)

  datatype CalcResponse = CalcResponse(
    monthlyPayment: real,
    totalPayment: real,
    totalInterest: real,
    schedule: seq<PaymentRow>)

  const RequiredFieldsError: string := "principal, annualRatePct and months are required"

  /** JavaScript truthiness of an optional number: present and not zero. */
  predicate Truthy<T(==)>(field: Option<T>, zero: T) {
    field.Some? && field.value != zero
  }

  /** The payment column of a row. */
  function PaymentOf(row: PaymentRow): real {
    row.payment
  }

  /** The interest column of a row. */
  function InterestOf(row: PaymentRow): real {
    row.interest
  }

  /** The principal column of a row. */
  function PrincipalOf(row: PaymentRow): real {
    row.principalPaid
  }

  /**
   * `rows.reduce((s, row) => s + f(row), 0)`: the left-to-right sum of one
   * column. A column with no negative amount has a non-negative sum.
   */
  function SumBy(rows: seq<PaymentRow>, f: PaymentRow -> real): (s: real)
    ensures (forall j :: 0 <= j < |rows| ==> f(rows[j]) >= 0.0) ==> s >= 0.0
  {
    if rows == [] then 0.0 else SumBy(rows[..|rows| - 1], f) + f(rows[|rows| - 1])
  }

  /** A column holding the same amount in every row sums to that amount times the number of rows. */
  lemma {:induction false} SumByConstant(rows: seq<PaymentRow>, f: PaymentRow -> real, c: real)
    requires forall j :: 0 <= j < |rows| ==> f(rows[j]) == c
    ensures SumBy(rows, f) == |rows| as real * c
  {
    if rows != [] {
      SumByConstant(rows[..|rows| - 1], f, c);
    }
  }

  /** `n` times an amount. */
  function Times(n: nat, amount: real): real {
    n as real * amount
  }

  /** A payment column holding one amount sums, to the cent, to that amount times the number of rows. */
  lemma RoundedConstantTotal(rows: seq<PaymentRow>, payment: real)
    requires forall j :: 0 <= j < |rows| ==> rows[j].payment == payment
    ensures Round2(SumBy(rows, PaymentOf)) == Round2(Times(|rows|, payment))
  {
    SumByConstant(rows, PaymentOf, payment);
  }

  /**
   * Whether the handler accepts a request: principal and months present and
   * nonzero, and a rate given, zero included.
   */
  predicate Accepted(req: CalcRequest): (ok: bool)
    ensures ok ==> req.principal.Some? && req.months.Some? && req.annualRatePct.Some?
    ensures ok ==> req.principal.value != 0.0 && req.months.value != 0
    ensures (req.principal.Some? && req.principal.value != 0.0 && req.months.Some? && req.months.value != 0
      && req.annualRatePct.Some?) ==> ok
  {
    Truthy(req.principal, 0.0) && Truthy(req.months, 0) && req.annualRatePct.Some?
  }

  /**
   * The answer to an accepted request, built from the payment and the
   * schedule: the totals are the sums of the schedule's payment and interest
   * columns, rounded to cents, and when every row shows the rounded payment,
   * the total payment is that payment times the number of rows, to the cent.
   */
  function Answer(monthly: real, schedule: seq<PaymentRow>): (answer: CalcResponse)
    ensures answer.schedule == schedule && answer.monthlyPayment == Round2(monthly)
    ensures answer.totalPayment == Round2(SumBy(schedule, PaymentOf))
    ensures answer.totalInterest == Round2(SumBy(schedule, InterestOf))
    ensures (forall j :: 0 <= j < |schedule| ==> schedule[j].payment == Round2(monthly)) ==>
      answer.totalPayment == Round2(Times(|schedule|, answer.monthlyPayment))
  {
    var answer := CalcResponse(
      Round2(monthly), Round2(SumBy(schedule, PaymentOf)), Round2(SumBy(schedule, InterestOf)), schedule);
    if forall j :: 0 <= j < |schedule| ==> schedule[j].payment == Round2(monthly) then
      RoundedConstantTotal(schedule, Round2(monthly));
      answer
    else
      answer
  }

  /**
   * The handler: a missing or zero principal, a missing or zero term, or a
   * missing rate is refused with the fixed message; otherwise the answer
   * reports the payment of `monthlyPayment` rounded to cents, the schedule,
   * every row of which shows that payment, and the sums of the payment and
   * interest columns rounded to cents; the total payment is the reported
   * payment times the number of rows.
   */
  function Calculate(req: CalcRequest): (res: Result<CalcResponse, string>)
    requires Accepted(req) ==> InDomain(req.annualRatePct.value)
    ensures res.Failure? <==> !Truthy(req.principal, 0.0) || !Truthy(req.months, 0) || req.annualRatePct.None?
    ensures res.Failure? ==> res.error == RequiredFieldsError
    ensures res.Success? ==>
      && res.value.monthlyPayment == Round2(MonthlyPayment(req.principal.value, req.annualRatePct.value, req.months.value).value)
      && res.value.schedule == Schedule(req.principal.value, req.annualRatePct.value, req.months.value)
      && res.value.totalPayment == Round2(SumBy(res.value.schedule, PaymentOf))
      && res.value.totalInterest == Round2(SumBy(res.value.schedule, InterestOf))
      && (forall j :: 0 <= j < |res.value.schedule| ==> res.value.schedule[j].payment == res.value.monthlyPayment)
      && res.value.totalPayment == Round2(Times(|res.value.schedule|, res.value.monthlyPayment))
  {
    if !Accepted(req) then
      Failure(RequiredFieldsError)
    else
      var principal, annualRatePct, months := req.principal.value, req.annualRatePct.value, req.months.value;
      ScheduleShape(principal, annualRatePct, months);
      Success(Answer(MonthlyPayment(principal, annualRatePct, months).value, Schedule(principal, annualRatePct, months)))
  }

  /**
   * A zero principal is refused before the rate is looked at, whatever the
   * rate, even one the payment formula does not cover.
   */
  lemma ZeroPrincipalRefused(rate: real, months: int)
    ensures var res := Calculate(CalcRequest(Some(0.0), Some(rate), Some(months)));
      res.Failure? && res.error == RequiredFieldsError
  {
  }

  /**
   * For a positive principal and a rate that is not negative, no row charges
   * negative interest, so the total interest is not negative either.
   */
  lemma TotalInterestNonNegative(req: CalcRequest)
    requires Accepted(req)
    requires req.principal.value > 0.0 && req.annualRatePct.value >= 0.0
    ensures Calculate(req).value.totalInterest >= 0.0
  {
    var principal, annualRatePct, months := req.principal.value, req.annualRatePct.value, req.months.value;
    var schedule := Schedule(principal, annualRatePct, months);
    if months >= 1 {
      ScheduleNonIncreasing(principal, annualRatePct, months);
    } else {
      ScheduleShape(principal, annualRatePct, months);
    }
    Round2OfCents(0);
    Round2Monotone(0.0, SumBy(schedule, InterestOf));
  }

  /** A schedule in which no row charges interest has a total interest of zero. */
  lemma NoInterestTotal(rows: seq<PaymentRow>)
    requires forall j :: 0 <= j < |rows| ==> rows[j].interest == 0.0
    ensures Round2(SumBy(rows, InterestOf)) == 0.0
  {
    SumByConstant(rows, InterestOf, 0.0);
    Round2OfCents(0);
  }

  /**
   * At a zero rate an accepted request with a positive principal and term is
   * answered with principal / months as the monthly payment, `months` rows,
   * no interest, and a last row that leaves nothing owed.
   */
  lemma CalculateZeroRate(principal: real, months: int)
    requires principal > 0.0 && months >= 1
    ensures var res := Calculate(CalcRequest(Some(principal), Some(0.0), Some(months)));
      && res.Success?
      && res.value.monthlyPayment == Round2(principal / months as real)
      && |res.value.schedule| == months
      && res.value.schedule[months - 1].balance == 0.0
      && res.value.totalInterest == 0.0
      && res.value.totalPayment == Round2(Times(months, Round2(principal / months as real)))
  {
    var schedule := Schedule(principal, 0.0, months);
    ZeroRateSchedule(principal, months);
    ZeroRateLoanBalance(principal, months);
    NoInterestTotal(schedule);
  }

  /**
   * At a nonzero rate the model covers, an accepted request with a positive
   * principal and term is answered with a schedule of exactly `months` rows
   * whose last row leaves nothing owed, and whose principal column adds up to
   * the principal to within half a cent per row.
   */
  lemma CalculateFullTerm(principal: real, annualRatePct: real, months: int)
    requires InDomain(annualRatePct) && annualRatePct != 0.0 && principal > 0.0 && months >= 1
    ensures var res := Calculate(CalcRequest(Some(principal), Some(annualRatePct), Some(months)));
      && res.Success?
      && |res.value.schedule| == months
      && res.value.schedule[months - 1].balance == 0.0
      && principal - months as real * 0.005 <= SumBy(res.value.schedule, PrincipalOf) <= principal + months as real * 0.005
  {
    FullTerm(principal, annualRatePct, months);
    ScheduleConservation(principal, annualRatePct, months);
  }

  /**
   * A loan of 12000 over 12 months at 0 % is answered with a payment of 1000.00,
   * twelve rows each paying 1000.00 of principal and no interest, a total
   * payment of 12000.00 and no total interest.
   */
  lemma InterestFreeYear()
    ensures var res := Calculate(CalcRequest(Some(12000.0), Some(0.0), Some(12)));
      && res.Success?
      && res.value.monthlyPayment == 1000.0
      && |res.value.schedule| == 12
      && (forall j :: 0 <= j < 12 ==> res.value.schedule[j].interest == 0.0)
      && (forall j :: 0 <= j < 12 ==> res.value.schedule[j].principalPaid == 1000.0)
      && res.value.schedule[11].balance == 0.0
      && res.value.totalPayment == 12000.0
      && res.value.totalInterest == 0.0
  {
    assert 12000.0 / 12 as real == 1000.0;
    assert 100000 as real / 100.0 == 1000.0;
    Round2OfCents(100000);
    assert Times(12, 1000.0) == 12000.0;
    assert 1200000 as real / 100.0 == 12000.0;
    Round2OfCents(1200000);
    CalculateZeroRate(12000.0, 12);
    ZeroRateSchedule(12000.0, 12);
  }

  /** 1.005 to the 360th power, the growth of a 30-year loan at 6 %, to five decimals. */
  lemma ThirtyYearGrowth()
    ensures 6.02257 < Pow(1.005, 360) < 6.02258
  {
    PowAdd(1.005, 1, 1);
    PowAdd(1.005, 2, 2);
    PowAdd(1.005, 4, 4);
    PowAdd(1.005, 8, 8);
    PowAdd(1.005, 16, 16);
    PowAdd(1.005, 32, 32);
    PowAdd(1.005, 64, 64);
    PowAdd(1.005, 128, 128);
    PowAdd(1.005, 32, 8);
    PowAdd(1.005, 64, 40);
    PowAdd(1.005, 256, 104);
  }

  /** The annuity payment on 100000 at a monthly 0.5 %, for a growth factor d within the bounds above. */
  lemma PaymentNear(d: real)
    requires 6.02257 < d < 6.02258
    ensures 599.545 <= 100000.0 * (0.005 / (1.0 - 1.0 / d)) < 599.555
  {
    var w := 1.0 - 1.0 / d;
    assert w * d == d - 1.0;
    var t := 0.005 / w;
    assert t * w == 0.005;
    var u := t - 0.005;
    assert u * (d - 1.0) == 0.005 by {
      assert t * (d - 1.0) == t * (w * d) == (t * w) * d;
    }
    assert 0.0059954 < t < 0.0059956;
  }

  /** The monthly payment on 100000 at 6 % over 360 months rounds to 599.55. */
  lemma ThirtyYearPayment()
    ensures Round2(MonthlyPayment(100000.0, 6.0, 360).value) == 599.55
  {
    ThirtyYearGrowth();
    PaymentNear(Pow(1.005, 360));
    assert MonthlyRate(6.0) == 0.005;
    assert MonthlyPayment(100000.0, 6.0, 360).value == 100000.0 * (0.005 / (1.0 - 1.0 / Pow(1.005, 360)));
    Round2Near(100000.0 * (0.005 / (1.0 - 1.0 / Pow(1.005, 360))), 59955);
  }

  /**
   * A loan of 100000 over 360 months at 6 % is answered with a monthly payment
   * of 599.55, is scheduled over all 360 months and ends with nothing owed.
   */
  lemma ThirtyYearLoan()
    ensures var res := Calculate(CalcRequest(Some(100000.0), Some(6.0), Some(360)));
      && res.Success?
      && res.value.monthlyPayment == 599.55
      && |res.value.schedule| == 360
      && res.value.schedule[359].balance == 0.0
  {
    ThirtyYearPayment();
    CalculateFullTerm(100000.0, 6.0, 360);
  }

  /** Month n adds its rounded drop in the balance to the principal column. */
  lemma PrincipalColumnStep(principal: real, rate: real, payment: real, n: nat)
    requires n > 0
    ensures SumBy(Rows(principal, rate, payment, n), PrincipalOf)
      == SumBy(Rows(principal, rate, payment, n - 1), PrincipalOf)
         + Round2(Balance(principal, rate, payment, n - 1) - Balance(principal, rate, payment, n))
  {
    var earlier := Rows(principal, rate, payment, n - 1);
    var rows := earlier + [RowAt(principal, rate, payment, n)];
    assert rows[..|rows| - 1] == earlier;
  }

  /** Adding an amount within half a cent of `drop` keeps a running sum within half a cent per row. */
  lemma WithinHalfCents(paid: real, repaid: real, x: real, drop: real, n: nat)
    requires n > 0
    requires repaid - (n - 1) as real * 0.005 <= paid <= repaid + (n - 1) as real * 0.005
    requires drop - 0.005 <= x <= drop + 0.005
    ensures repaid + drop - n as real * 0.005 <= paid + x <= repaid + drop + n as real * 0.005
  {
  }

  /**
   * The principal column of the first `n` rows adds up to what those months
   * took off the balance, to within half a cent per row.
   */
  lemma {:induction false} PrincipalConservation(principal: real, rate: real, payment: real, n: nat)
    ensures var paid := SumBy(Rows(principal, rate, payment, n), PrincipalOf);
      var repaid := principal - Balance(principal, rate, payment, n);
      repaid - n as real * 0.005 <= paid <= repaid + n as real * 0.005
  {
    if n > 0 {
      PrincipalConservation(principal, rate, payment, n - 1);
      PrincipalColumnStep(principal, rate, payment, n);
      var before := Balance(principal, rate, payment, n - 1);
      var after := Balance(principal, rate, payment, n);
      WithinHalfCents(SumBy(Rows(principal, rate, payment, n - 1), PrincipalOf),
        principal - before, Round2(before - after), before - after, n);
    }
  }

  /**
   * The principal column of a loan's schedule adds up, to within half a cent
   * per row, to what the schedule's months took off the principal.
   */
  lemma ScheduleConservation(principal: real, annualRatePct: real, months: int)
    requires InDomain(annualRatePct)
    ensures var rows := Schedule(principal, annualRatePct, months);
      var repaid := principal - LoanBalance(principal, annualRatePct, months, |rows|);
      repaid - |rows| as real * 0.005 <= SumBy(rows, PrincipalOf) <= repaid + |rows| as real * 0.005
  {
    var rate := MonthlyRate(annualRatePct);
    var payment := Installment(principal, annualRatePct, months);
    var n := RowCount(principal, rate, payment, months);
    RowsLength(principal, rate, payment, n);
    PrincipalConservation(principal, rate, payment, n);
  }
}
