/**
 * The Pohoda target records the migration builds, with pydantic's checking of their fields:
 * a required `str`, `float` or `datetime` field refuses an absent value (None) and a value of
 * another type, while an Optional field also takes None, which is its default.
 */
module Pohoda {
  import opened Wrappers
  import opened Dates
  import opened Leaves
  import opened Vocabulary

  datatype PaymentType = PaymentType(paymentType: string)

  datatype Address = Address(
    company: string, city: string, street: string, zip: string,
    ico: Option<string>, dic: Option<string>, icDph: Option<string>, phone: Option<string>,
    email: Option<string>, www: Option<string>, country: Option<string>)

  datatype Identity = Identity(address: Address, shipToAddress: Option<Address>)

  datatype InvoiceHeader = InvoiceHeader(
    invoiceType: string, number: string, numberOrder: string, symVar: string,
    symConst: Option<string>, symPar: Option<string>,
    date: DateTime, dateTax: DateTime, dateAccounting: Option<DateTime>, dateDue: DateTime,
    accounting: Option<string>, classificationVAT: Option<string>, classificationKVDPH: Option<string>,
    paymentType: PaymentType, text: Option<string>,
    myIdentity: Identity, partnerIdentity: Identity,
    dateOrder: Option<DateTime>, note: Option<string>, intNote: Option<string>)

  datatype HomeCurrency = HomeCurrency(unitPrice: real)

  datatype ForeignCurrency = ForeignCurrency(unitPrice: real)

  datatype StockItem = StockItem(ids: Option<string>)

  datatype InvoiceItem = InvoiceItem(
    text: string, note: Option<string>, code: Option<string>, quantity: real, unit: Option<string>,
    payVAT: bool, rateVAT: RateText, homeCurrency: HomeCurrency,
    foreignCurrency: Option<ForeignCurrency>, stockItem: Option<StockItem>)

  datatype InvoiceDetail = InvoiceDetail(invoiceItems: Option<seq<InvoiceItem>>)

  /** InvoiceSummaryHomeCurrency: the four totals, all required. */
  datatype SummaryHome = SummaryHome(priceHigh: real, priceHighVAT: real, priceHighSum: real, priceNone: real)

  /** InvoiceSummaryForeignCurrencyCurrency: the currency's ids. */
  datatype SummaryForeignCurrency = SummaryForeignCurrency(ids: string)

  /** InvoiceSummaryForeignCurrency: the currency and the exchange rate. */
  datatype SummaryForeign = SummaryForeign(currency: SummaryForeignCurrency, rate: real)

  /**
   * InvoiceSummary. The foreign-currency part is held as optional here; the declared model
   * requires it, which `MakeSummaryAsWritten` keeps.
   */
  datatype InvoiceSummary = InvoiceSummary(
    roundingDocument: Option<string>, homeCurrency: SummaryHome, foreignCurrency: Option<SummaryForeign>)

  datatype Invoice = Invoice(version: string, invoiceHeader: InvoiceHeader, invoiceDetail: InvoiceDetail, invoiceSummary: InvoiceSummary)

  // ---------------------------------------------------------------------------
  // Field checking
  // ---------------------------------------------------------------------------

  /** The value a `str` field accepts. */
  predicate IsText(v: Value) {
    v.Str?
  }

  /** The value an Optional[str] field accepts: text or None. */
  predicate IsOptText(v: Value) {
    v.Null? || v.Str?
  }

  /** The value a `float` field accepts. */
  predicate IsNumber(v: Value) {
    v.Num?
  }

  /** The value a `datetime` field accepts: the normalised date-time text. */
  predicate IsDate(v: Value) {
    v.Str? && ParseIsoDateTime(v.s).Some?
  }

  predicate IsOptDate(v: Value) {
    v.Null? || IsDate(v)
  }

  /** A required text field. */
  function AsText(field: string, v: Value): (r: Result<string>)
    ensures r.Ok? <==> IsText(v)
    ensures r.Ok? ==> v == Str(r.value)
    ensures r.Err? ==> r.error == ValidationError(field)
  {
    match v
    case Str(s) => Ok(s)
    case _ => Err(ValidationError(field))
  }

  /** An optional text field: None stays None. */
  function AsOptText(field: string, v: Value): (r: Result<Option<string>>)
    ensures r.Ok? <==> IsOptText(v)
    ensures r == Ok(None) <==> v.Null?
    ensures r.Ok? && r.value.Some? ==> v == Str(r.value.value)
    ensures r.Err? ==> r.error == ValidationError(field)
  {
    match v
    case Null => Ok(None)
    case Str(s) => Ok(Some(s))
    case _ => Err(ValidationError(field))
  }

  /** A required float field. */
  function AsNumber(field: string, v: Value): (r: Result<real>)
    ensures r.Ok? <==> IsNumber(v)
    ensures r.Ok? ==> v == Num(r.value)
    ensures r.Err? ==> r.error == ValidationError(field)
  {
    match v
    case Num(x) => Ok(x)
    case _ => Err(ValidationError(field))
  }

  /** A required datetime field, read from its ISO text. */
  function AsDate(field: string, v: Value): (r: Result<DateTime>)
    ensures r.Ok? <==> IsDate(v)
    ensures r.Ok? ==> ValidDateTime(r.value) && v == Str(Render(r.value))
    ensures r.Err? ==> r.error == ValidationError(field)
  {
    if v.Str? && ParseIsoDateTime(v.s).Some? then
      RenderOfParseIso(v.s);
      Ok(ParseIsoDateTime(v.s).value)
    else Err(ValidationError(field))
  }

  /** An optional datetime field: None stays None. */
  function AsOptDate(field: string, v: Value): (r: Result<Option<DateTime>>)
    ensures r.Ok? <==> IsOptDate(v)
    ensures r == Ok(None) <==> v.Null?
    ensures r.Ok? && r.value.Some? ==> ValidDateTime(r.value.value) && v == Str(Render(r.value.value))
    ensures r.Err? ==> r.error == ValidationError(field)
  {
    match v
    case Null => Ok(None)
    case _ =>
      var d :- AsDate(field, v);
      Ok(Some(d))
  }

  // ---------------------------------------------------------------------------
  // Constructors, each checking its fields in declaration order
  // ---------------------------------------------------------------------------

  /** PaymentType(paymentType=...): the payment code is required text. */
  function MakePaymentType(paymentType: Value): (r: Result<PaymentType>)
    ensures r.Ok? <==> IsText(paymentType)
    ensures r.Ok? ==> paymentType == Str(r.value.paymentType)
    ensures r.Err? ==> r.error == ValidationError("paymentType")
  {
    var t :- AsText("paymentType", paymentType);
    Ok(PaymentType(t))
  }

  /** The value an optional text field ends up holding. */
  function OptText(v: Value): Option<string> {
    if v.Str? then Some(v.s) else None
  }

  /**
   * Address(...) with the eight fields the migration passes: company, city, street and zip
   * are required text, the rest optional; icDph, www and country keep their default None.
   */
  function MakeAddress(company: Value, city: Value, street: Value, zip: Value,
                       ico: Value, dic: Value, phone: Value, email: Value): (r: Result<Address>)
    ensures r.Ok? <==> IsText(company) && IsText(city) && IsText(street) && IsText(zip)
                       && IsOptText(ico) && IsOptText(dic) && IsOptText(phone) && IsOptText(email)
    ensures r.Ok? ==> r.value == Address(company.s, city.s, street.s, zip.s, OptText(ico), OptText(dic), None,
                                         OptText(phone), OptText(email), None, None)
    ensures r.Err? ==> r.error.ValidationError?
    ensures company.Null? ==> r == Err(ValidationError("company"))
  {
    var c :- AsText("company", company);
    var ci :- AsText("city", city);
    var s :- AsText("street", street);
    var z :- AsText("zip", zip);
    var i :- AsOptText("ico", ico);
    var d :- AsOptText("dic", dic);
    var p :- AsOptText("phone", phone);
    var e :- AsOptText("email", email);
    Ok(Address(c, ci, s, z, i, d, None, p, e, None, None))
  }

  /** The dates of a header are calendar dates: what pydantic stores is a real datetime. */
  predicate WellFormedHeader(h: InvoiceHeader) {
    ValidDateTime(h.date) && ValidDateTime(h.dateTax) && ValidDateTime(h.dateDue)
    && (h.dateAccounting.Some? ==> ValidDateTime(h.dateAccounting.value))
    && (h.dateOrder.Some? ==> ValidDateTime(h.dateOrder.value))
  }

  /**
   * InvoiceHeader(...) with the fields the migration passes; accounting, classificationVAT,
   * classificationKVDPH, text, note and intNote keep their default None. It is built exactly
   * when the required text and date fields hold values of their type and the optional ones
   * hold None or such a value.
   */
  function MakeHeader(invoiceType: Value, number: Value, numberOrder: Value, symVar: Value,
                      symConst: Value, symPar: Value, date: Value, dateTax: Value,
                      dateAccounting: Value, dateDue: Value, paymentType: PaymentType,
                      myIdentity: Identity, partnerIdentity: Identity, dateOrder: Value): (r: Result<InvoiceHeader>)
    ensures r.Ok? ==> WellFormedHeader(r.value)
    ensures r.Ok? <==> IsText(invoiceType) && IsText(number) && IsText(numberOrder) && IsText(symVar)
                       && IsOptText(symConst) && IsOptText(symPar) && IsDate(date) && IsDate(dateTax)
                       && IsOptDate(dateAccounting) && IsDate(dateDue) && IsOptDate(dateOrder)
    ensures r.Ok? ==> r.value.invoiceType == invoiceType.s && r.value.number == number.s
                      && r.value.numberOrder == numberOrder.s && r.value.symVar == symVar.s
                      && r.value.symConst == OptText(symConst) && r.value.symPar == OptText(symPar)
                      && date == Str(Render(r.value.date)) && dateTax == Str(Render(r.value.dateTax))
                      && dateDue == Str(Render(r.value.dateDue))
                      && (r.value.dateAccounting.None? <==> dateAccounting.Null?)
                      && (r.value.dateOrder.None? <==> dateOrder.Null?)
                      && r.value.paymentType == paymentType
                      && r.value.myIdentity == myIdentity && r.value.partnerIdentity == partnerIdentity
                      && r.value.accounting.None? && r.value.classificationVAT.None?
                      && r.value.classificationKVDPH.None? && r.value.text.None?
                      && r.value.note.None? && r.value.intNote.None?
    ensures r.Err? ==> r.error.ValidationError?
  {
    var t :- AsText("invoiceType", invoiceType);
    var n :- AsText("number", number);
    var no :- AsText("numberOrder", numberOrder);
    var sv :- AsText("symVar", symVar);
    var sc :- AsOptText("symConst", symConst);
    var sp :- AsOptText("symPar", symPar);
    var d :- AsDate("date", date);
    var dt :- AsDate("dateTax", dateTax);
    var da :- AsOptDate("dateAccounting", dateAccounting);
    var dd :- AsDate("dateDue", dateDue);
    var dor :- AsOptDate("dateOrder", dateOrder);
    Ok(InvoiceHeader(t, n, no, sv, sc, sp, d, dt, da, dd, None, None, None, paymentType, None,
                     myIdentity, partnerIdentity, dor, None, None))
  }

  /** HomeCurrency(unitPrice=...): the unit price is a required float. */
  function MakeHomeCurrency(unitPrice: Value): (r: Result<HomeCurrency>)
    ensures r.Ok? <==> IsNumber(unitPrice)
    ensures r.Ok? ==> unitPrice == Num(r.value.unitPrice)
    ensures r.Err? ==> r.error == ValidationError("unitPrice")
  {
    var u :- AsNumber("unitPrice", unitPrice);
    Ok(HomeCurrency(u))
  }

  /** StockItem(ids=...): the ids are optional text. */
  function MakeStockItem(ids: Value): (r: Result<StockItem>)
    ensures r.Ok? <==> IsOptText(ids)
    ensures r.Ok? ==> r.value.ids == OptText(ids)
  {
    var i :- AsOptText("ids", ids);
    Ok(StockItem(i))
  }

  /**
   * InvoiceItem(...) with the fields the migration passes: text and quantity are required,
   * note, code and unit optional, and foreignCurrency keeps its default None.
   */
  function MakeItem(text: Value, note: Value, code: Value, quantity: Value, unit: Value,
                    payVAT: bool, rateVAT: RateText, homeCurrency: HomeCurrency, stockItem: StockItem): (r: Result<InvoiceItem>)
    ensures r.Ok? <==> IsText(text) && IsOptText(note) && IsOptText(code) && IsNumber(quantity) && IsOptText(unit)
    ensures r.Ok? ==> r.value == InvoiceItem(text.s, OptText(note), OptText(code), quantity.x, OptText(unit),
                                             payVAT, rateVAT, homeCurrency, None, Some(stockItem))
    ensures r.Err? ==> r.error.ValidationError?
  {
    var t :- AsText("text", text);
    var n :- AsOptText("note", note);
    var c :- AsOptText("code", code);
    var q :- AsNumber("quantity", quantity);
    var u :- AsOptText("unit", unit);
    Ok(InvoiceItem(t, n, c, q, u, payVAT, rateVAT, homeCurrency, None, Some(stockItem)))
  }

  /** InvoiceSummaryHomeCurrency(...): all four totals are required floats. */
  function MakeSummaryHome(priceHigh: Value, priceHighVAT: Value, priceHighSum: Value, priceNone: Value): (r: Result<SummaryHome>)
    ensures r.Ok? <==> IsNumber(priceHigh) && IsNumber(priceHighVAT) && IsNumber(priceHighSum) && IsNumber(priceNone)
    ensures r.Ok? ==> r.value == SummaryHome(priceHigh.x, priceHighVAT.x, priceHighSum.x, priceNone.x)
    ensures r.Err? ==> r.error.ValidationError?
  {
    var h :- AsNumber("priceHigh", priceHigh);
    var hv :- AsNumber("priceHighVAT", priceHighVAT);
    var hs :- AsNumber("priceHighSum", priceHighSum);
    var n :- AsNumber("priceNone", priceNone);
    Ok(SummaryHome(h, hv, hs, n))
  }

  /**
   * InvoiceSummary(...) as declared: the foreign-currency part is required, so a summary
   * without one cannot be built.
   */
  function MakeSummaryAsWritten(roundingDocument: Option<string>, homeCurrency: SummaryHome,
                                foreignCurrency: Option<SummaryForeign>): (r: Result<InvoiceSummary>)
    ensures r.Ok? <==> foreignCurrency.Some?
    ensures r.Ok? ==> r.value == InvoiceSummary(roundingDocument, homeCurrency, foreignCurrency)
    ensures r.Err? ==> r.error == ValidationError("foreignCurrency")
  {
    if foreignCurrency.None? then Err(ValidationError("foreignCurrency"))
    else Ok(InvoiceSummary(roundingDocument, homeCurrency, foreignCurrency))
  }

  /**
   * InvoiceSummary(...) with the foreign-currency part optional, as the documented example
   * and the migration use it: every summary can be built, and it keeps what it was given.
   */
  function MakeSummary(roundingDocument: Option<string>, homeCurrency: SummaryHome,
                       foreignCurrency: Option<SummaryForeign>): (r: Result<InvoiceSummary>)
    ensures r.Ok? && r.value.foreignCurrency == foreignCurrency
    ensures r.Ok? && r.value.homeCurrency == homeCurrency && r.value.roundingDocument == roundingDocument
  {
    Ok(InvoiceSummary(roundingDocument, homeCurrency, foreignCurrency))
  }
}
