/**
 * The `/api/generate-ticket` endpoint (server.js): it checks the request and
 * builds the payload that the QR code would encode. The clock is a parameter:
 * `nowMillis` stands for the value of `Date.now()` when the request arrives.
 */
module Ticket {
  import opened Wrappers

  datatype TicketRequest = TicketRequest(name: Option<string>, amount: Option<real>, reference: Option<string>)

  datatype TicketPayload = TicketPayload(provider: string, name: string, amount: real, reference: string)

  const Provider: string := "ComiOnline"

  const RequiredFieldsError: string := "name and amount are required"

  /** The decimal digit character for 0 <= d < 10. */
  function DigitChar(d: nat): (c: char)
    requires d < 10
    ensures '0' <= c <= '9'
  {
    "0123456789"[d]
  }

  /** The value of a decimal digit character. */
  function DigitValue(c: char): (d: nat)
    requires '0' <= c <= '9'
    ensures d < 10
  {
    (c as int - '0' as int) as nat
  }

  lemma DigitRoundTrip(d: nat)
    requires d < 10
    ensures DigitValue(DigitChar(d)) == d
  {
  }

  predicate IsDigits(s: string) {
    forall i :: 0 <= i < |s| ==> '0' <= s[i] <= '9'
  }

  /**
   * `String(n)` for a whole number: its decimal digits, most significant first,
   * with no leading zero.
   */
  function DecimalDigits(n: nat): (s: string)
    ensures |s| >= 1 && IsDigits(s)
    ensures n >= 10 ==> s[0] != '0'
  {
    if n < 10 then [DigitChar(n)] else DecimalDigits(n / 10) + [DigitChar(n % 10)]
  }

  /** The number a string of decimal digits spells. */
  function DecimalValue(s: string): nat
    requires IsDigits(s)
  {
    if s == [] then 0 else DecimalValue(s[..|s| - 1]) * 10 + DigitValue(s[|s| - 1])
  }

  /** Reading back the digits of a number gives the number. */
  lemma {:induction false} DecimalRoundTrip(n: nat)
    ensures DecimalValue(DecimalDigits(n)) == n
  {
    var s := DecimalDigits(n);
    if n < 10 {
      DigitRoundTrip(n);
      assert s[..|s| - 1] == [];
    } else {
      DecimalRoundTrip(n / 10);
      DigitRoundTrip(n % 10);
      assert s[..|s| - 1] == DecimalDigits(n / 10);
    }
  }

  /** The reference made up when the request has none: "C" followed by the clock reading. */
  function DefaultReference(nowMillis: nat): (reference: string)
    ensures |reference| >= 2 && reference[0] == 'C' && IsDigits(reference[1..])
    ensures DecimalValue(reference[1..]) == nowMillis
  {
    DecimalRoundTrip(nowMillis);
    assert ("C" + DecimalDigits(nowMillis))[1..] == DecimalDigits(nowMillis);
    "C" + DecimalDigits(nowMillis)
  }

  /**
   * The handler: a missing or empty name or a missing or zero amount is
   * refused with the fixed message. Otherwise the payload carries the
   * provider, the name and amount as given, and the reference as given when
   * it is a non-empty string, or else the default built from the clock.
   */
  function GenerateTicket(req: TicketRequest, nowMillis: nat): (res: Result<TicketPayload, string>)
    ensures res.Failure? <==> req.name.None? || req.name.value == "" || req.amount.None? || req.amount.value == 0.0
    ensures res.Failure? ==> res.error == RequiredFieldsError
    ensures res.Success? ==>
      && res.value.provider == Provider
      && Some(res.value.name) == req.name
      && Some(res.value.amount) == req.amount
      && res.value.reference != ""
      && (req.reference.Some? && req.reference.value != "" ==> res.value.reference == req.reference.value)
      && (req.reference.None? || req.reference.value == "" ==> res.value.reference == DefaultReference(nowMillis))
  {
    if req.name.None? || req.name.value == "" || req.amount.None? || req.amount.value == 0.0 then
      Failure(RequiredFieldsError)
    else
      var reference :=
        if req.reference.Some? && req.reference.value != "" then req.reference.value
        else DefaultReference(nowMillis);
      Success(TicketPayload(Provider, req.name.value, req.amount.value, reference))
  }

  /**
   * A request for Alice and 50 with no reference gets a payload from
   * ComiOnline for Alice and 50 whose reference is "C" followed by the
   * digits of the clock reading.
   */
  lemma AliceTicket(nowMillis: nat)
    ensures var res := GenerateTicket(TicketRequest(Some("Alice"), Some(50.0), None), nowMillis);
      && res.Success?
      && res.value == TicketPayload("ComiOnline", "Alice", 50.0, "C" + DecimalDigits(nowMillis))
      && DecimalValue(res.value.reference[1..]) == nowMillis
  {
  }
}
