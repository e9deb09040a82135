/**
 * The small total maps the Pohoda export uses to turn stored values into Pohoda's
 * vocabulary: the invoice type, the payment type, the VAT rate class, and a date
 * without its time.
 */
module Vocabulary {
  import opened Wrappers
  import opened Numbers
  import opened Dates

  /** map_invoice_type: every code, "code:FAKTURA" included, becomes an issued invoice. */
  function MapInvoiceType(invoiceType: string): (r: string)
    ensures r == "issuedInvoice"
  {
    if invoiceType == "code:FAKTURA" then "issuedInvoice" else "issuedInvoice"
  }

  const PaymentTypes: map<string, string> := map["code:PREVOD" := "transfer", "code:KARTA" := "card"]

  /** map_payment_type: a card payment code becomes "card"; every other code, known or not, a transfer. */
  function MapPaymentType(payType: string): (r: string)
    ensures r == "card" <==> payType == "code:KARTA"
    ensures r != "card" ==> r == "transfer"
  {
    if payType in PaymentTypes then PaymentTypes[payType] else "transfer"
  }

  function Distance(a: real, b: real): real {
    Abs(a - b)
  }

  /** Within 0.01 of a reduced Czech VAT rate (10 % or 15 %). */
  predicate NearLow(v: real) {
    Distance(v, 10.0) < 0.01 || Distance(v, 15.0) < 0.01
  }

  /** Within 0.01 of a standard VAT rate (21 %, or 23 %). */
  predicate NearHigh(v: real) {
    Distance(v, 21.0) < 0.01 || Distance(v, 23.0) < 0.01
  }

  /**
   * map_rateVAT after float(): text that does not parse means no VAT, so does zero;
   * rates near 10 or 15 are "low", rates near 21 or 23 are "high", and anything else is "none".
   */
  function RateClass(rate: Option<real>): (r: string)
    ensures r == "low" <==> rate.Some? && NearLow(rate.value)
    ensures r == "high" <==> rate.Some? && NearHigh(rate.value)
    ensures r != "low" && r != "high" ==> r == "none"
  {
    match rate
    case None => "none"
    case Some(v) =>
      if v == 0.0 then "none"
      else if NearLow(v) then "low"
      else if NearHigh(v) then "high"
      else "none"
  }

  /**
   * The text held in a Pohoda item's rateVAT. The migration fills it with str() of a stored
   * float (or of None, giving "None"); any other text can also appear.
   */
  datatype RateText =
    | Literal(text: string)
    /** str(x) of the float x, or "None" when there is no value */
    | FloatText(value: Option<real>)

  /**
   * float() of the rate text. str() of a float reads back as the same float, and float("None")
   * raises, so a FloatText reads as the value it was made from.
   */
  function RateValue(t: RateText): (r: Option<real>)
    ensures t.FloatText? ==> r == t.value
  {
    match t
    case Literal(s) => ParseFloat(s)
    case FloatText(v) => v
  }

  /** map_rateVAT(rate_str) */
  function MapRateVAT(t: RateText): (r: string)
    ensures r == "high" || r == "low" || r == "none"
  {
    RateClass(RateValue(t))
  }

  /** The rate classes of the Czech rates, and of zero and a missing rate. */
  lemma RateClassExamples()
    ensures RateClass(Some(21.0)) == "high" && RateClass(Some(23.0)) == "high"
    ensures RateClass(Some(10.0)) == "low" && RateClass(Some(15.0)) == "low"
    ensures RateClass(Some(0.0)) == "none" && RateClass(None) == "none"
    ensures RateClass(Some(12.0)) == "none"
  {
  }

  /** A rate stored as 21.0 leaves the export as "high", and a missing one as "none". */
  lemma MapRateVATOfStored()
    ensures MapRateVAT(FloatText(Some(21.0))) == "high"
    ensures MapRateVAT(FloatText(None)) == "none"
  {
  }

  /** date_to_str: the calendar date of a datetime as "YYYY-MM-DD", or "" when there is none. */
  function DateToStr(date: Option<DateTime>): (r: string)
    requires date.Some? ==> ValidDateTime(date.value)
    ensures date.None? <==> r == ""
    ensures date.Some? ==> |r| == 10
  {
    match date
    case None => ""
    case Some(dt) => DateText(dt)
  }

  /** The same datetime at midnight. */
  function Midnight(dt: DateTime): DateTime {
    DateTime(dt.year, dt.month, dt.day, 0, 0, 0)
  }

  /** The date text that date_to_str writes is read back by the date normaliser as midnight of the same day. */
  lemma DateToStrParsesBack(dt: DateTime)
    requires ValidDateTime(dt)
    ensures ValidDateTime(Midnight(dt))
    ensures ParseDate(Some(DateToStr(Some(dt)))) == Ok(Some(Render(Midnight(dt))))
  {
    var t := DateText(dt);
    var r := Render(dt);
    var g := RenderedFields(dt);
    assert t[..4] == r[..4] && t[5..7] == r[5..7] && t[8..10] == r[8..10];
    assert DateMatchAt(t, g, true, true);
    assert IsDigit(t[0]) && IsDigit(t[9]);
    ParseDateOfMatch(t, g, true, true);
  }
}
