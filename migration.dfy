/**
 * migrate_invoices: each loaded Abra invoice becomes a Pohoda invoice by a fixed assignment
 * of record fields to target fields, every target record being checked as pydantic checks it.
 * The module gives both the migration as written, which stops at a summary class the Pohoda
 * models do not define, and the migration with the summary the code evidently means.
 */
module Migration {
  import opened Wrappers
  import opened Leaves
  import opened Vocabulary
  import opened Pohoda
  import AbraParser

  /** A field of a loaded record; a column the record does not hold reads as None. */
  function Column(fields: map<string, Value>, c: string): (r: Value)
    ensures c !in fields ==> r.Null?
  {
    if c in fields then fields[c] else Null
  }

  /** IDENTITY_NEVEN, the issuing company's fixed identity. */
  const IdentityNeven: Identity :=
    Identity(Address("Neven 7 s.r.o.", "Brno", "Zavřená 27", "634 00", Some("29318513"), Some("CZ12345678"),
                     None, Some("CZ29318513"), Some("info@neven.cz"), None, None),
             None)

  /** bool(x): None, zero, the empty string and False are false, everything else true. */
  function Truthy(v: Value): (r: bool)
    ensures v.Null? ==> !r
  {
    match v
    case Null => false
    case Str(s) => s != ""
    case Num(x) => x != 0.0
    case Flag(b) => b
  }

  /** str(x) as the VAT rate text: str() of a float or of None, or of other values as text. */
  function RateTextOf(v: Value): (r: RateText)
    ensures v.Null? || v.Num? ==> r.FloatText?
  {
    match v
    case Null => FloatText(None)
    case Num(x) => FloatText(Some(x))
    case Str(s) => Literal(s)
    case Flag(b) => Literal(if b then "True" else "False")
  }

  /** A stored rate, a float or NULL, is truthy exactly when it is present and non-zero. */
  lemma PayVATOfRate(v: Value)
    requires v.Null? || v.Num?
    ensures Truthy(v) <==> v.Num? && v.x != 0.0
    ensures RateValue(RateTextOf(v)) == (if v.Num? then Some(v.x) else None)
  {
  }

  /**
   * One target item from one stored item: its name, note, code, quantity and unit; payVAT
   * is the truth of the VAT rate and rateVAT its text; the unit price goes into the home
   * currency and the code into the stock item. The home currency and the stock item are
   * built (and checked) before the item itself.
   */
  function MigrateItem(item: AbraParser.Item): (r: Result<InvoiceItem>)
    ensures var f := item.fields;
            r.Ok? <==> IsNumber(Column(f, "cena_mj")) && IsText(Column(f, "nazev")) && IsOptText(Column(f, "poznam"))
                       && IsOptText(Column(f, "kod")) && IsNumber(Column(f, "mnoz_mj")) && IsOptText(Column(f, "mj"))
    ensures var f := item.fields;
            r.Ok? ==> Column(f, "nazev") == Str(r.value.text) && r.value.note == OptText(Column(f, "poznam"))
                      && r.value.code == OptText(Column(f, "kod")) && Column(f, "mnoz_mj") == Num(r.value.quantity)
                      && r.value.unit == OptText(Column(f, "mj"))
                      && (r.value.payVAT <==> Truthy(Column(f, "szb_dph")))
                      && r.value.rateVAT == RateTextOf(Column(f, "szb_dph"))
                      && Column(f, "cena_mj") == Num(r.value.homeCurrency.unitPrice)
                      && r.value.stockItem == Some(StockItem(r.value.code))
                      && r.value.foreignCurrency.None?
    ensures r.Err? ==> r.error.ValidationError?
  {
    var f := item.fields;
    var rate := Column(f, "szb_dph");
    var home :- MakeHomeCurrency(Column(f, "cena_mj"));
    var stock :- MakeStockItem(Column(f, "kod"));
    MakeItem(Column(f, "nazev"), Column(f, "poznam"), Column(f, "kod"), Column(f, "mnoz_mj"), Column(f, "mj"),
             Truthy(rate), RateTextOf(rate), home, stock)
  }

  /** The item list, built in order; the first item that cannot be built raises. */
  function MigrateItems(items: seq<AbraParser.Item>): (r: Result<seq<InvoiceItem>>)
    ensures r.Ok? ==> |r.value| == |items|
  {
    MapResult(items, MigrateItem)
  }

  /** The k-th target item is the migration of the k-th stored item: one per item, in order. */
  lemma MigrateItemsEach(items: seq<AbraParser.Item>, k: nat)
    requires MigrateItems(items).Ok? && k < |items|
    ensures MigrateItem(items[k]) == Ok(MigrateItems(items).value[k])
  {
    MapResultEach(items, MigrateItem, k);
  }

  /** The item list is built exactly when every item is; otherwise it raises the checking error of the first item that is not. */
  lemma MigrateItemsFails(items: seq<AbraParser.Item>)
    ensures MigrateItems(items).Ok? <==> forall k | 0 <= k < |items| :: MigrateItem(items[k]).Ok?
    ensures MigrateItems(items).Err? ==> MigrateItems(items).error.ValidationError?
  {
    MapResultFails(items, MigrateItem);
  }

  /** The address checks of the partner: the company's name, city, street and postcode are required. */
  predicate PartnerReadable(f: map<string, Value>) {
    IsText(Column(f, "naz_firmy")) && IsText(Column(f, "mesto")) && IsText(Column(f, "ulice"))
    && IsText(Column(f, "psc")) && IsOptText(Column(f, "ic")) && IsOptText(Column(f, "dic"))
    && IsOptText(Column(f, "kontakt_tel")) && IsOptText(Column(f, "kontakt_email"))
  }

  /** The header checks: the document type, number, order number, variable symbol and three dates are required. */
  predicate HeaderReadable(f: map<string, Value>) {
    IsText(Column(f, "typ_dokl")) && IsText(Column(f, "kod")) && IsText(Column(f, "cis_obj"))
    && IsText(Column(f, "var_sym")) && IsOptText(Column(f, "kon_sym"))
    && IsDate(Column(f, "dat_vyst")) && IsDate(Column(f, "duzp_puv"))
    && IsOptDate(Column(f, "dat_ucto")) && IsDate(Column(f, "dat_splat"))
  }

  /** The partner's identity: the company's address from the invoice, with its contact phone and e-mail. */
  predicate PartnerOf(f: map<string, Value>, a: Address) {
    Column(f, "naz_firmy") == Str(a.company) && Column(f, "mesto") == Str(a.city)
    && Column(f, "ulice") == Str(a.street) && Column(f, "psc") == Str(a.zip)
    && a.ico == OptText(Column(f, "ic")) && a.dic == OptText(Column(f, "dic"))
    && a.phone == OptText(Column(f, "kontakt_tel")) && a.email == OptText(Column(f, "kontakt_email"))
    && a.icDph.None? && a.www.None? && a.country.None?
  }

  /**
   * The header of a migrated invoice: the payment type is checked first, then the partner's
   * address, then the header. The issuer is always the fixed identity; the number is `kod`,
   * the order number and the pairing symbol are both `cis_obj`, the variable and constant
   * symbols are `var_sym` and `kon_sym`, the issue date (also the order date) is `dat_vyst`,
   * the tax date `duzp_puv`, the due date `dat_splat` and the accounting date `dat_ucto`.
   */
  function MigrateHeader(inv: AbraParser.Invoice): (r: Result<InvoiceHeader>)
    ensures r.Err? ==> r.error.ValidationError?
  {
    var f := inv.fields;
    var payment :- MakePaymentType(Column(f, "forma_uhrady_cis"));
    var address :- MakeAddress(Column(f, "naz_firmy"), Column(f, "mesto"), Column(f, "ulice"), Column(f, "psc"),
                               Column(f, "ic"), Column(f, "dic"), Column(f, "kontakt_tel"), Column(f, "kontakt_email"));
    MakeHeader(Column(f, "typ_dokl"), Column(f, "kod"), Column(f, "cis_obj"), Column(f, "var_sym"),
               Column(f, "kon_sym"), Column(f, "cis_obj"), Column(f, "dat_vyst"), Column(f, "duzp_puv"),
               Column(f, "dat_ucto"), Column(f, "dat_splat"), payment, IdentityNeven, Identity(address, None),
               Column(f, "dat_vyst"))
  }

  /** The header is built exactly when the payment code, the partner's address and the header's own fields pass their checks. */
  lemma MigrateHeaderOk(inv: AbraParser.Invoice)
    ensures MigrateHeader(inv).Ok? <==>
              IsText(Column(inv.fields, "forma_uhrady_cis")) && PartnerReadable(inv.fields) && HeaderReadable(inv.fields)
  {
  }

  /** The issuer, the partner and the number, order and symbol fields of a migrated header, and where each comes from. */
  lemma MigrateHeaderRoles(inv: AbraParser.Invoice)
    requires MigrateHeader(inv).Ok?
    ensures MigrateHeader(inv).value.myIdentity == IdentityNeven
    ensures MigrateHeader(inv).value.partnerIdentity.shipToAddress.None?
    ensures PartnerOf(inv.fields, MigrateHeader(inv).value.partnerIdentity.address)
    ensures var f := inv.fields;
            var h := MigrateHeader(inv).value;
            Column(f, "typ_dokl") == Str(h.invoiceType) && Column(f, "kod") == Str(h.number)
            && Column(f, "cis_obj") == Str(h.numberOrder) && h.symPar == Some(h.numberOrder)
            && Column(f, "var_sym") == Str(h.symVar) && h.symConst == OptText(Column(f, "kon_sym"))
            && Column(f, "forma_uhrady_cis") == Str(h.paymentType.paymentType)
  {
  }

  /** The dates of a migrated header are calendar dates, and each is the one its column holds. */
  lemma MigrateHeaderDates(inv: AbraParser.Invoice)
    requires MigrateHeader(inv).Ok?
    ensures WellFormedHeader(MigrateHeader(inv).value)
    ensures var f := inv.fields;
            var h := MigrateHeader(inv).value;
            Column(f, "dat_vyst") == Str(Dates.Render(h.date)) && h.dateOrder == Some(h.date)
            && Column(f, "duzp_puv") == Str(Dates.Render(h.dateTax))
            && Column(f, "dat_splat") == Str(Dates.Render(h.dateDue))
            && (h.dateAccounting.None? <==> Column(f, "dat_ucto").Null?)
  {
  }

  /** The home-currency totals of the summary: the base, the VAT, the total and the exempt amount. */
  function SummaryHomeOf(f: map<string, Value>): (r: Result<SummaryHome>)
    ensures r.Ok? <==> IsNumber(Column(f, "sum_zkl_zakl")) && IsNumber(Column(f, "sum_dph_zakl"))
                       && IsNumber(Column(f, "sum_celkem")) && IsNumber(Column(f, "sum_osv"))
    ensures r.Ok? ==> Column(f, "sum_zkl_zakl") == Num(r.value.priceHigh) && Column(f, "sum_dph_zakl") == Num(r.value.priceHighVAT)
                      && Column(f, "sum_celkem") == Num(r.value.priceHighSum) && Column(f, "sum_osv") == Num(r.value.priceNone)
  {
    MakeSummaryHome(Column(f, "sum_zkl_zakl"), Column(f, "sum_dph_zakl"), Column(f, "sum_celkem"), Column(f, "sum_osv"))
  }

  /** What the lookup of the summary class the code names raises: the Pohoda models define no such class. */
  const MissingSummaryClass: Error := AttributeError("module 'abra.models.pohoda' has no attribute 'InvoiceSummaryCurrency'")

  /**
   * One invoice as the code is written: after the header and the items, the summary's class
   * is looked up and is not there, so no invoice is ever migrated.
   */
  function MigrateInvoiceAsWritten(inv: AbraParser.Invoice): (r: Result<Invoice>)
    ensures r.Err?
    ensures MigrateHeader(inv).Ok? && MigrateItems(inv.items).Ok? ==> r == Err(MissingSummaryClass)
    ensures MigrateHeader(inv).Err? ==> r == MigrateHeader(inv).PropagateFailure()
  {
    var header :- MigrateHeader(inv);
    var items :- MigrateItems(inv.items);
    Err(MissingSummaryClass)
  }

  /**
   * One invoice with the evidently intended summary: the four totals as the home-currency
   * summary, no rounding document and no foreign currency, in a version 2.0 invoice.
   */
  function MigrateInvoice(inv: AbraParser.Invoice): (r: Result<Invoice>)
  {
    var header :- MigrateHeader(inv);
    var items :- MigrateItems(inv.items);
    var home :- SummaryHomeOf(inv.fields);
    var summary :- MakeSummary(None, home, None);
    Ok(Invoice("2.0", header, InvoiceDetail(Some(items)), summary))
  }

  /**
   * A migrated invoice is built exactly when its header, its items and its totals are; it
   * then holds that header, one target item per stored item, and the totals as its summary.
   */
  lemma MigrateInvoiceShape(inv: AbraParser.Invoice)
    ensures MigrateInvoice(inv).Ok? <==>
              MigrateHeader(inv).Ok? && MigrateItems(inv.items).Ok? && SummaryHomeOf(inv.fields).Ok?
    ensures MigrateInvoice(inv).Ok? ==>
              && MigrateInvoice(inv).value.version == "2.0"
              && MigrateInvoice(inv).value.invoiceHeader == MigrateHeader(inv).value
              && MigrateInvoice(inv).value.invoiceDetail.invoiceItems == Some(MigrateItems(inv.items).value)
              && |MigrateInvoice(inv).value.invoiceDetail.invoiceItems.value| == |inv.items|
    ensures MigrateInvoice(inv).Ok? ==>
              MigrateInvoice(inv).value.invoiceSummary == InvoiceSummary(None, SummaryHomeOf(inv.fields).value, None)
    ensures MigrateInvoice(inv).Err? ==> MigrateInvoice(inv).error.ValidationError?
  {
    MigrateItemsFails(inv.items);
  }

  /** Up to the summary the two versions raise the same: they differ only in what the summary step does. */
  lemma AsWrittenAgreesUntilSummary(inv: AbraParser.Invoice)
    ensures MigrateInvoice(inv).Err? && (MigrateHeader(inv).Err? || MigrateItems(inv.items).Err?) ==>
              MigrateInvoiceAsWritten(inv) == MigrateInvoice(inv)
    ensures MigrateInvoice(inv).Ok? ==> MigrateInvoiceAsWritten(inv) == Err(MissingSummaryClass)
  {
  }

  /** The summary of the evidently intended version would not be accepted by the model as declared, which wants a foreign currency. */
  lemma DeclaredSummaryRefusesMigration(inv: AbraParser.Invoice)
    requires SummaryHomeOf(inv.fields).Ok?
    ensures MakeSummaryAsWritten(None, SummaryHomeOf(inv.fields).value, None) == Err(ValidationError("foreignCurrency"))
  {
  }

  /** The whole migration as written: it succeeds only when there is nothing to migrate. */
  function MigrateAllAsWritten(invs: seq<AbraParser.Invoice>): (r: Result<seq<Invoice>>)
    ensures r.Ok? <==> invs == []
  {
    MapResult(invs, MigrateInvoiceAsWritten)
  }

  /** The whole migration with the intended summary: one target invoice per loaded invoice, in order. */
  function MigrateAll(invs: seq<AbraParser.Invoice>): (r: Result<seq<Invoice>>)
    ensures r.Ok? ==> |r.value| == |invs|
  {
    MapResult(invs, MigrateInvoice)
  }

  /** The k-th migrated invoice is the migration of the k-th loaded one, issued by the fixed identity. */
  lemma MigrateAllEach(invs: seq<AbraParser.Invoice>, k: nat)
    requires MigrateAll(invs).Ok? && k < |invs|
    ensures MigrateInvoice(invs[k]) == Ok(MigrateAll(invs).value[k])
    ensures MigrateAll(invs).value[k].invoiceHeader.myIdentity == IdentityNeven
  {
    MapResultEach(invs, MigrateInvoice, k);
    MigrateInvoiceShape(invs[k]);
    MigrateHeaderRoles(invs[k]);
  }
}
