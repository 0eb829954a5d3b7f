# Loan calculator, modelled in Dafny

This project models the loan-calculation service in `server.js`. The service
answers three HTTP requests. The model covers the logic behind two of them:

- `/api/calculate` takes a principal, an annual percentage rate and a term in
  months. It answers with:
  - the fixed monthly payment of an annuity loan;
  - the month-by-month amortization schedule (payment, principal paid,
    interest and remaining balance, each rounded to cents);
  - the total payment and total interest, summed over the schedule.
- `/api/generate-ticket` checks a name and an amount. It builds the ticket
  payload `{provider, name, amount, reference}`. The reference is made up
  from the clock when the request has none.

The modules follow the source's functions:

- `Money`: `Math.min`, and `Number(x.toFixed(2))` as rounding to the nearest
  cent.
- `Annuity`: `monthlyPayment`. It is a pure function that returns `None`
  where JavaScript would produce Infinity or NaN.
- `Amortization`: `amortizationSchedule`. The method `AmortizationSchedule`
  runs the `for` loop of `amortizationSchedule` and is proved to return the schedule that the
  functions `Balance`, `RowCount` and `Rows` specify.
- `ScheduleFacts`, `Payoff` and `ZeroRate`: what the schedule promises:
  - its shape, and where the early stop can happen;
  - that the balance stays within the principal and never rises;
  - the zero-rate branch;
  - that with exact arithmetic every nonzero-rate loan runs exactly its term
    and ends at a zero balance. The proof goes through the annuity's closed
    form.
- `Calculate`: the `/api/calculate` handler. This covers its validation, the
  two totals and the response, plus the worked examples (12000 at 0 % over
  12 months, and 100000 at 6 % over 360 months).
- `Ticket`: the `/api/generate-ticket` validation and payload. The value of
  `Date.now()` becomes the parameter `nowMillis`.

JavaScript numbers are modelled as exact reals (`real`). A request field is an
`Option`: `None` is a field the JSON body leaves out. A present number is
falsy exactly when it is zero, and a present string exactly when it is empty.

The ticket handler tests truthiness (`!name || !amount` at server.js:72,
`reference || ...` at server.js:79). It refuses an empty name and a zero
amount as well as missing ones, and it replaces an empty reference with the
generated one.

## Model

| member | source | states |
|---|---|---|
| Money.Min | server.js:26 | `Math.min` returns one of its two arguments and is no more than either |
| Money.Round2 | server.js:30-33 | rounding to two decimals gives a whole number of cents within half a cent of the amount, and never changes its sign |
| Money.Round2Monotone | server.js:30-33 | rounding to cents never reverses the order of two amounts |
| Money.Round2Near | server.js:30-33 | an amount within half a cent of a positive number of cents, a tie going up, rounds to that number of cents |
| Money.Round2OfCents | server.js:51-53 | an amount that is already whole cents is unchanged when the response rounds it again |
| Annuity.PowAdd | server.js:15 | powers of the growth factor 1 + r add their exponents |
| Annuity.MonthlyRate | server.js:13 | the monthly rate is the annual percentage divided by 1200 |
| Annuity.Discount | server.js:15 | `(1 + r)^-months` is positive; it equals one exactly when the rate or the term is zero; it is below one for a positive rate and term, and above one for a negative rate and positive term |
| Annuity.MonthlyPayment | server.js:12-17 | the payment is defined exactly when the term is not zero months; at a zero rate, the payment times the number of months is the principal |
| Annuity.PaymentExceedsFirstInterest | server.js:15 | at a positive rate and term, the formula's denominator lies strictly between 0 and 1, and the payment exceeds one month's interest on the whole principal |
| Annuity.PaymentPositive | server.js:12-17 | a positive principal over a positive term has a positive payment at every covered rate |
| Amortization.PrincipalPaid | server.js:25-26 | the principal paid never exceeds the opening balance; it is either the payment less the month's interest, or the whole balance |
| Amortization.Ending | server.js:26-27 | a month's ending balance is never negative; it is either zero or the balance plus interest less the payment |
| Amortization.Balance | server.js:21-35 | the running balance carried from month to month is never negative after the first month |
| Amortization.MonthRow | server.js:28-34 | a row shows its month number, the month's interest, the drop from the opening to the ending balance as the principal paid, and the ending balance, each rounded to cents |
| Amortization.FirstPayoff | server.js:24-37 | the loop's exit month: every month before it leaves a positive balance, and it leaves zero or less unless it is the last month |
| Amortization.RowCount | server.js:24-37 | the number of rows: none for a term below one month, otherwise between 1 and `months`; every month before the last row leaves a positive balance, and a schedule shorter than the term ends on a month that leaves zero or less |
| Amortization.RowCountUnique | server.js:36 | the early-stop conditions determine the number of rows: no other length meets them |
| Amortization.Installment | server.js:23 | the schedule applies the same payment as `monthlyPayment` whenever the term is not zero |
| Amortization.Schedule | server.js:19-39 | the result of `amortizationSchedule` as a function of its inputs: `RowCount` rows, the row at position j being month j + 1 of the running balance; it is empty for a term below one month and otherwise has between 1 and `months` rows |
| Amortization.AmortizationSchedule | server.js:19-39 | the loop returns exactly the specified schedule: `RowCount` rows, the row at position j being month j + 1 of the running balance |
| ScheduleFacts.ScheduleShape | server.js:24-37 | the schedule is empty for a term below one month, and otherwise has 1 to `months` rows, numbered 1, 2, ... in order; each row shows the rounded payment and the rounded running balance; all rows but the last leave a positive balance; a schedule that stops early stops on a balance of exactly zero |
| ScheduleFacts.MonthWithinBalance | server.js:25-27 | a month that opens between zero and the principal, at a rate that is not negative and a payment covering the interest on the whole principal, ends between zero and its opening balance |
| ScheduleFacts.BalanceWithinPrincipal | server.js:25-35 | when the rate is not negative and the payment covers the first month's interest, the balance never rises and stays between zero and the principal |
| ScheduleFacts.RowWithinPrincipal | server.js:28-34 | under the same conditions, every amount a row shows is non-negative, and each row's balance is no more than the previous row's |
| ScheduleFacts.ScheduleNonIncreasing | server.js:19-39 | for a positive principal, a rate that is not negative and a positive term, every row shows non-negative amounts, and the balance column never rises |
| Payoff.AnnuityPaymentForm | server.js:15 | the annuity payment `principal * r / (1 - (1 + r)^-n)` equals `q r (1 + r)^n`, where `q = principal / ((1 + r)^n - 1)` |
| Payoff.BalanceFollowsUncapped | server.js:26-27 | while no month would overpay, the `Math.min` cap never applies, and the balance is the plain recurrence "balance plus interest less payment" |
| Payoff.UncappedClosedForm | server.js:25-27 | the plain recurrence at the annuity payment has the closed form `q ((1 + r)^n - (1 + r)^k)` after k months |
| Payoff.PaidOffInTerm | server.js:24-37 | at the annuity payment, the running balance is positive after every month before the last, and exactly zero after the last |
| Payoff.FullTerm | server.js:19-39 | at any covered nonzero rate, a positive principal is scheduled over exactly `months` rows; every month but the last leaves a positive balance, and the last row shows a zero balance; so the early stop fires only after the final month |
| ZeroRate.RepaidIsProduct | server.js:26-27 | k equal payments add up to k times the payment |
| ZeroRate.ZeroRateBalance | server.js:26-27 | at a zero rate, each month takes exactly one payment off the balance: after k months the balance is the principal less the k payments, as long as they do not exceed the principal |
| ZeroRate.ZeroRateRow | server.js:25-32 | a zero-rate row charges no interest and pays one share `principal / months` of principal, rounded |
| ZeroRate.ZeroRateLoanBalance | server.js:14 | at a zero rate the payment is `principal / months`; the balance after month k is `principal - k * principal / months`: positive before the last month and zero after it |
| ZeroRate.ZeroRateSchedule | server.js:19-39 | at a zero rate and a positive term, the schedule has `months` rows; every interest is 0, every principal paid is the rounded share, and the last balance is 0 |
| Calculate.SumByConstant | server.js:48 | summing a column that holds the same amount in every row gives that amount times the number of rows |
| Calculate.SumBy | server.js:48-49 | the left-to-right `reduce` sum of one column; a column with no negative amount has a non-negative sum |
| Calculate.RoundedConstantTotal | server.js:48-52 | when every row shows the same payment, the rounded total payment is that payment times the number of rows, rounded |
| Calculate.Answer | server.js:48-55 | the response carries the schedule, the rounded monthly payment, and the payment and interest columns' sums rounded to cents; when every row shows the rounded payment, the total payment is that payment times the number of rows, to the cent |
| Calculate.Accepted | server.js:43 | an accepted request has all three fields, with a nonzero principal and a nonzero term; a request with a nonzero principal and term and any rate, zero included, is accepted |
| Calculate.Calculate | server.js:41-56 | a request is refused, with the fixed message, exactly when the principal is missing or zero, the months are missing or zero, or the rate is missing; an accepted request gets `monthlyPayment` rounded to cents, the specified schedule, every row of which shows that payment, and the payment and interest columns' sums rounded to cents; the total payment is the reported payment times the number of rows |
| Calculate.ZeroPrincipalRefused | server.js:43-44 | a zero principal is refused with the fixed message whatever the rate and term, including rates the payment formula does not cover |
| Calculate.NoInterestTotal | server.js:49-53 | a schedule in which no row charges interest reports a total interest of zero |
| Calculate.TotalInterestNonNegative | server.js:49-53 | for a positive principal and a rate that is not negative, the total interest is not negative |
| Calculate.CalculateZeroRate | server.js:41-56 | at a zero rate, a positive principal and term are answered with the payment `principal / months`, `months` rows, a last balance of 0, no total interest, and a total of `months` rounded payments |
| Calculate.CalculateFullTerm | server.js:41-56 | at a covered nonzero rate, a positive principal and term are answered with `months` rows and a last balance of 0; the principal column sums to the principal within half a cent per row |
| Calculate.PrincipalColumnStep | server.js:31 | each month adds its rounded drop in the balance to the sum of the principal column |
| Calculate.PrincipalConservation | server.js:26-31 | the principal column of the first n rows sums, within half a cent per row, to what those months took off the balance |
| Calculate.ScheduleConservation | server.js:24-37 | the schedule's principal column sums, within half a cent per row, to the principal less the balance left after the last row |
| Calculate.InterestFreeYear | server.js:41-56 | 12000 at 0 % over 12 months: a payment of 1000.00, 12 rows each paying 1000.00 of principal and no interest, a last balance of 0, a total payment of 12000.00 and no total interest |
| Calculate.ThirtyYearGrowth | server.js:15 | 1.005 to the 360th power lies strictly between 6.02257 and 6.02258 |
| Calculate.PaymentNear | server.js:15 | for a growth factor within those bounds, the annuity payment on 100000 at a monthly 0.5 % lies in [599.545, 599.555) |
| Calculate.ThirtyYearPayment | server.js:12-17 | the monthly payment on 100000 at 6 % over 360 months rounds to 599.55 |
| Calculate.ThirtyYearLoan | server.js:41-56 | 100000 at 6 % over 360 months: a monthly payment of 599.55, 360 rows, the last one with a zero balance |
| Ticket.DecimalDigits | server.js:79 | `String(n)` of a whole number is a non-empty string of decimal digits, with no leading zero |
| Ticket.DecimalRoundTrip | server.js:79 | reading back the digits of a number gives the number |
| Ticket.DefaultReference | server.js:79 | the generated reference is "C" followed by digits that spell the clock reading |
| Ticket.GenerateTicket | server.js:70-80 | a request is refused, with the fixed message, exactly when the name is missing or empty or the amount is missing or zero; otherwise the payload carries the provider "ComiOnline", the name and amount as given, and a non-empty reference: the request's own one when it is non-empty, else the generated one |
| Ticket.AliceTicket | server.js:70-80 | Alice and 50 with no reference get a ComiOnline payload whose reference is "C" and the clock's digits |

## Left out

- HTTP and hosting (lines 1-10 and 90-91) are left out: Express routing, CORS, JSON body parsing, status codes and the listening port.
- The `/api/schedule-csv` endpoint (lines 59-66) is left out. Its schedule is `AmortizationSchedule`; CSV serialization is a library call.
- QR encoding (lines 81-87) is left out, along with its `try`/`catch` and the error response when encoding fails. The model stops at the payload, because encoding is a foreign library call.
- IEEE-754 doubles are modelled as exact reals, so binary rounding error is not modelled:
  - in `Math.pow` and the running balance;
  - in `toFixed` on values that are not exactly representable;
  - in the summed totals.
  For the same reason, the early stop cannot be triggered by drift.
- `Number(...)` coercion of strings, booleans and `null` is left out. Request fields are taken to be numbers already, or absent. `annualRatePct: null` (which passes the `=== undefined` check and becomes 0) is not modelled.
- Fractional terms are left out: `months` is a whole number.
- The ticket's `name` and `reference` are taken to be strings and its `amount` a number. Other JSON values are left out.
- The clock is left out: `Date.now()` is the parameter `nowMillis` of `GenerateTicket`.
- Annuity.MonthlyPayment: requires annualRatePct > -1200, so that 1 + r > 0. Rates at or below -1200 % a year are not meaningful loan terms and are left out. At exactly -1200 % the formula goes through `Math.pow(0, -months)`, which is Infinity, and gives a payment of 0. Below it the base 1 + r is negative. With a whole term the power stays finite, but at some rates (r = -2 with an even term) the denominator `1 - (1 + r)^-months` is zero, and an infinite payment would enter the schedule loop.
- Amortization.AmortizationSchedule: requires the same rate domain as `MonthlyPayment`, for the same reason. So do `Amortization.Installment` and `Amortization.Schedule`, which specify it.
- Calculate.Calculate: requires the same rate domain only for requests the validation accepts, because only those reach the payment formula. A refused request may carry any rate. A zero term is already refused by the validation, so the payment's Infinity case never reaches the response.
