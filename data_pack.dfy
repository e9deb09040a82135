/**
 * build_data_pack: the Pohoda dataPack tree built from migrated invoices, one dataPackItem
 * per invoice with its header and its items in a fixed element order, optional header
 * elements present only when their value is truthy, and the final Windows-1250 pass over
 * every text. Tags are written with the prefix registered for their namespace
 * ("dat:", "inv:", "typ:").
 */
module DataPack {
  import opened Wrappers
  import opened Numbers
  import opened Dates
  import opened Vocabulary
  import opened Xml
  import opened Codepage
  import opened Pohoda

  /** An element with children and no text or attributes. */
  function Node(tag: string, children: seq<Element>): Element {
    Element(tag, [], None, children)
  }

  /** An element holding only text. */
  function TextNode(tag: string, text: string): Element {
    Element(tag, [], Some(text), [])
  }

  /** An optional text element: present only when the value is given and not empty. */
  function OptNode(tag: string, value: Option<string>): (r: seq<Element>)
    ensures |r| <= 1
    ensures r != [] <==> value.Some? && value.value != ""
    ensures r != [] ==> r == [TextNode(tag, value.value)]
  {
    if value.Some? && value.value != "" then [TextNode(tag, value.value)] else []
  }

  /** An optional date element: present only when there is a date. */
  function OptDateNode(tag: string, value: Option<DateTime>): (r: seq<Element>)
    requires value.Some? ==> ValidDateTime(value.value)
    ensures |r| <= 1 && (r != [] <==> value.Some?)
  {
    if value.Some? then [TextNode(tag, DateToStr(value))] else []
  }

  // ---------------------------------------------------------------------------
  // The VAT classification
  // ---------------------------------------------------------------------------

  /** float() of an item's rate text, when it is a positive number. */
  predicate PositiveRate(item: InvoiceItem) {
    RateValue(item.rateVAT).Some? && RateValue(item.rateVAT).value > 0.0
  }

  /** The rate of the first item from position i on whose rate text reads as a positive number. */
  function FirstPositiveRateFrom(items: seq<InvoiceItem>, i: nat): (r: Option<real>)
    requires i <= |items|
    ensures r.Some? <==> exists k | i <= k < |items| :: PositiveRate(items[k])
    ensures r.Some? ==> exists k | i <= k < |items| :: PositiveRate(items[k]) && r == RateValue(items[k].rateVAT)
                                                       && forall j | i <= j < k :: !PositiveRate(items[j])
    decreases |items| - i
  {
    if i == |items| then None
    else if PositiveRate(items[i]) then RateValue(items[i].rateVAT)
    else
      var r := FirstPositiveRateFrom(items, i + 1);
      if r.Some? then
        var k :| i + 1 <= k < |items| && PositiveRate(items[k]) && r == RateValue(items[k].rateVAT)
                 && forall j | i + 1 <= j < k :: !PositiveRate(items[j]);
        assert forall j | i <= j < k :: !PositiveRate(items[j]);
        r
      else r
  }

  /** found_rate: the first positive rate among the items. */
  function FirstPositiveRate(items: seq<InvoiceItem>): Option<real> {
    FirstPositiveRateFrom(items, 0)
  }

  /** The search for found_rate: unreadable and non-positive rates are skipped, the first positive one stops the loop. */
  method FindRate(items: seq<InvoiceItem>) returns (found: Option<real>)
    ensures found == FirstPositiveRate(items)
    ensures found.Some? ==> found.value > 0.0
  {
    found := None;
    var i := 0;
    while i < |items|
      invariant 0 <= i <= |items|
      invariant FirstPositiveRateFrom(items, i) == FirstPositiveRate(items)
    {
      var rr := RateValue(items[i].rateVAT);
      if rr.Some? && rr.value > 0.0 {
        found := rr;
        break;
      }
      i := i + 1;
    }
  }

  /** str(int(rate)): the rate truncated to a whole number. */
  function RateIds(rate: real): (r: string)
    requires rate > 0.0
    ensures AllDigits(r) && DigitsValue(r) as real <= rate < DigitsValue(r) as real + 1.0
  {
    NatToString(rate.Floor as nat)
  }

  /** <inv:classificationVAT><typ:ids>, present only when some item has a positive rate. */
  function ClassificationNode(found: Option<real>): (r: seq<Element>)
    requires found.Some? ==> found.value > 0.0
    ensures |r| <= 1 && (r != [] <==> found.Some?)
  {
    if found.Some? then [Node("inv:classificationVAT", [TextNode("typ:ids", RateIds(found.value))])] else []
  }

  // ---------------------------------------------------------------------------
  // The header
  // ---------------------------------------------------------------------------

  /** The partner's address elements: company, city, street and zip always, ico and dic when not empty. */
  function AddressChildren(a: Address): (r: seq<Element>)
    ensures |r| == 4 + |OptNode("typ:ico", a.ico)| + |OptNode("typ:dic", a.dic)|
    ensures r[..4] == [TextNode("typ:company", a.company), TextNode("typ:city", a.city),
                       TextNode("typ:street", a.street), TextNode("typ:zip", a.zip)]
    ensures forall k | 0 <= k < |r| :: r[k].tag != "typ:phone" && r[k].tag != "typ:email"
  {
    [TextNode("typ:company", a.company), TextNode("typ:city", a.city),
     TextNode("typ:street", a.street), TextNode("typ:zip", a.zip)]
    + OptNode("typ:ico", a.ico) + OptNode("typ:dic", a.dic)
  }

  /** The texts a header is written with, each already converted; the dates as "YYYY-MM-DD". */
  datatype HeaderTexts = HeaderTexts(
    number: string, invoiceType: string, symVar: string, symConst: Option<string>, symPar: Option<string>,
    date: string, dateTax: string, dateAccounting: Option<string>, dateDue: string, numberOrder: string,
    paymentType: string, text: Option<string>, address: Address, dateOrder: Option<string>,
    note: Option<string>, intNote: Option<string>)

  function OptDateText(d: Option<DateTime>): (r: Option<string>)
    requires d.Some? ==> ValidDateTime(d.value)
    ensures r.Some? <==> d.Some?
    ensures r.Some? ==> r.value != ""
  {
    if d.Some? then Some(DateToStr(d)) else None
  }

  /** The header's texts: the invoice type and payment type through their maps, the dates without their time. */
  function HeaderTextsOf(h: InvoiceHeader): (r: HeaderTexts)
    requires WellFormedHeader(h)
  {
    HeaderTexts(h.number, MapInvoiceType(h.invoiceType), h.symVar, h.symConst, h.symPar,
                DateToStr(Some(h.date)), DateToStr(Some(h.dateTax)), OptDateText(h.dateAccounting),
                DateToStr(Some(h.dateDue)), h.numberOrder, MapPaymentType(h.paymentType.paymentType),
                h.text, h.partnerIdentity.address, OptDateText(h.dateOrder), h.note, h.intNote)
  }

  /** The parts laid end to end. */
  function Flatten(parts: seq<seq<Element>>): (r: seq<Element>)
  {
    if parts == [] then [] else parts[0] + Flatten(parts[1..])
  }

  /** The header elements up to the due date and the order number. */
  function HeaderStart(t: HeaderTexts): (r: seq<Element>)
  {
    Flatten([[Node("inv:number", [TextNode("typ:numberRequested", t.number)]), TextNode("inv:invoiceType", t.invoiceType)],
             OptNode("inv:symVar", Some(t.symVar)), OptNode("inv:symConst", t.symConst), OptNode("inv:symPar", t.symPar),
             [TextNode("inv:date", t.date), TextNode("inv:dateTax", t.dateTax)],
             OptNode("inv:dateAccounting", t.dateAccounting),
             [TextNode("inv:dateDue", t.dateDue)],
             OptNode("inv:numberOrder", Some(t.numberOrder))])
  }

  /** The header elements after the classification: payment type, text, partner, order date and notes. */
  function HeaderEnd(t: HeaderTexts): (r: seq<Element>)
  {
    Flatten([[Node("inv:paymentType", [TextNode("typ:paymentType", t.paymentType)])],
             OptNode("inv:text", t.text),
             [Node("inv:partnerIdentity", [Node("typ:address", AddressChildren(t.address))])],
             OptNode("inv:dateOrder", t.dateOrder),
             OptNode("inv:note", t.note), OptNode("inv:intNote", t.intNote)])
  }

  /** <inv:invoiceHeader>, with the classification found among the items. */
  function HeaderNode(h: InvoiceHeader, found: Option<real>): (r: Element)
    requires WellFormedHeader(h)
    requires found.Some? ==> found.value > 0.0
    ensures r.tag == "inv:invoiceHeader"
    ensures WithTag(r.children, "inv:classificationVAT") == ClassificationNode(found)
  {
    var t := HeaderTextsOf(h);
    ClassificationFound(t, found);
    Node("inv:invoiceHeader", HeaderStart(t) + ClassificationNode(found) + HeaderEnd(t))
  }

  // ---------------------------------------------------------------------------
  // The items
  // ---------------------------------------------------------------------------

  /** `"ids" in stock_item` on a dumped item whose stock item is None. */
  const StockItemMissing: Error := TypeError("argument of type 'NoneType' is not iterable")

  /** `for it in items_list` on a dumped detail whose item list is None. */
  const ItemsMissing: Error := TypeError("'NoneType' object is not iterable")

  /**
   * <inv:invoiceItem>: text and note when not empty; the quantity to four decimals; payVAT
   * as "true"/"false"; the rate class; the unit price to two decimals; code and unit when
   * not empty; the stock item's ids when not empty. An item without a stock item raises.
   */
  function ItemNode(item: InvoiceItem): (r: Result<Element>)
    ensures r.Err? <==> item.stockItem.None?
  {
    match item.stockItem
    case None => Err(StockItemMissing)
    case Some(stock) =>
      Ok(Node("inv:invoiceItem",
              OptNode("inv:text", Some(item.text)) + OptNode("inv:note", item.note)
              + [TextNode("inv:quantity", FormatFixed(item.quantity, 4)),
                 TextNode("inv:payVAT", if item.payVAT then "true" else "false"),
                 TextNode("inv:rateVAT", MapRateVAT(item.rateVAT)),
                 Node("inv:homeCurrency", [TextNode("typ:unitPrice", FormatFixed(item.homeCurrency.unitPrice, 2))])]
              + OptNode("inv:code", item.code) + OptNode("inv:unit", item.unit)
              + (if stock.ids.Some? && stock.ids.value != "" then [Node("inv:stockItem", [TextNode("typ:ids", stock.ids.value)])] else [])))
  }

  // ---------------------------------------------------------------------------
  // The pack
  // ---------------------------------------------------------------------------

  /** <dat:dataPackItem id=number version=...><inv:invoice version="2.0"> holding the header and the detail. */
  function PackItemNode(inv: Invoice, header: Element, details: seq<Element>): Element {
    Element("dat:dataPackItem", [("id", inv.invoiceHeader.number), ("version", inv.version)], None,
            [Element("inv:invoice", [("version", "2.0")], None, [header, Node("inv:invoiceDetail", details)])])
  }

  /** One invoice's dataPackItem; no summary is written. */
  function PackItem(inv: Invoice): (r: Result<Element>)
    requires WellFormedHeader(inv.invoiceHeader)
    ensures r.Err? ==> r.error.TypeError?
    ensures r.Ok? ==> r.value.tag == "dat:dataPackItem" && inv.invoiceDetail.invoiceItems.Some?
  {
    match inv.invoiceDetail.invoiceItems
    case None => Err(ItemsMissing)
    case Some(items) =>
      MapResultFails(items, ItemNode);
      var details :- MapResult(items, ItemNode);
      Ok(PackItemNode(inv, HeaderNode(inv.invoiceHeader, FirstPositiveRate(items)), details))
  }

  /** The clock readings the pack uses: one for its id, the text of a second one for its note. */
  datatype Clock = Clock(idTime: DateTime, noteTime: string)

  /** dt.strftime("%Y%m%d%H%M%S") */
  function StampText(dt: DateTime): (r: string)
    requires ValidDateTime(dt)
    ensures |r| == 14 && forall k | 0 <= k < 14 :: IsDigit(r[k])
  {
    [Tens(dt.year / 100), Units(dt.year / 100), Tens(dt.year % 100), Units(dt.year % 100),
     Tens(dt.month), Units(dt.month), Tens(dt.day), Units(dt.day),
     Tens(dt.hour), Units(dt.hour), Tens(dt.minute), Units(dt.minute), Tens(dt.second), Units(dt.second)]
  }

  /** The attributes of <dat:dataPack>: its id from the clock, the issuer's ICO, the application, the version and a note. */
  function PackAttributes(clock: Clock): (r: seq<(string, string)>)
    requires ValidDateTime(clock.idTime)
  {
    [("id", "neven_cz-" + StampText(clock.idTime)), ("ico", "29318513"), ("application", "StwTest (neven_cz)"),
     ("version", "2.0"), ("note", "Prepared by Chris Ward <chris@calmrat.com> for Neven.cz on " + clock.noteTime)]
  }

  predicate WellFormedInvoices(invs: seq<Invoice>) {
    forall k | 0 <= k < |invs| :: WellFormedHeader(invs[k].invoiceHeader)
  }

  /** The dataPack tree before the code-page pass. */
  function DataPackTree(invs: seq<Invoice>, clock: Clock): (r: Result<Element>)
    requires ValidDateTime(clock.idTime) && WellFormedInvoices(invs)
    ensures r.Ok? ==> r.value.tag == "dat:dataPack" && |r.value.children| == |invs|
  {
    var items :- MapResult(invs, PackItem);
    Ok(Element("dat:dataPack", PackAttributes(clock), None, items))
  }

  /** build_data_pack's text: the tree after the code-page pass. */
  function DataPackXml(invs: seq<Invoice>, clock: Clock): (r: Result<Element>)
    requires ValidDateTime(clock.idTime) && WellFormedInvoices(invs)
    ensures r.Ok? <==> DataPackTree(invs, clock).Ok?
    ensures r.Ok? ==> |r.value.children| == |invs| && InCodePageTree(r.value)
  {
    var tree :- DataPackTree(invs, clock);
    SanitizedInCodePage(tree);
    Ok(SanitizeTree(tree))
  }

  // ---------------------------------------------------------------------------
  // The Windows-1250 pass
  // ---------------------------------------------------------------------------

  function SanitizeText(t: Option<string>): (r: Option<string>)
    ensures r.None? <==> t.None?
  {
    if t.Some? then Some(Sanitize(t.value)) else None
  }

  function SanitizeAttributes(attrs: seq<(string, string)>): (r: seq<(string, string)>)
    ensures |r| == |attrs|
  {
    seq(|attrs|, i requires 0 <= i < |attrs| => (Sanitize(attrs[i].0), Sanitize(attrs[i].1)))
  }

  /**
   * The encode-then-decode pass over the serialised tree, applied to what it touches: tags,
   * attribute names and values, and texts. The markup around them is ASCII, which the pass
   * leaves alone, and XML escaping and the pass touch disjoint sets of characters.
   */
  function SanitizeTree(e: Element): (r: Element)
    ensures |r.children| == |e.children|
    decreases e
  {
    Element(Sanitize(e.tag), SanitizeAttributes(e.attributes), SanitizeText(e.text),
            seq(|e.children|, i requires 0 <= i < |e.children| => SanitizeTree(e.children[i])))
  }

  /** Every character of the tree's tags, attributes and texts is in the code page. */
  predicate InCodePageTree(e: Element)
    decreases e
  {
    && AllInCodePage(e.tag)
    && (forall i | 0 <= i < |e.attributes| :: AllInCodePage(e.attributes[i].0) && AllInCodePage(e.attributes[i].1))
    && (e.text.Some? ==> AllInCodePage(e.text.value))
    && (forall i | 0 <= i < |e.children| :: InCodePageTree(e.children[i]))
  }

  /** After the pass, everything in the tree is in the code page. */
  lemma {:induction false} SanitizedInCodePage(e: Element)
    ensures InCodePageTree(SanitizeTree(e))
    decreases e
  {
    var r := SanitizeTree(e);
    forall i | 0 <= i < |e.children| ensures InCodePageTree(r.children[i]) {
      SanitizedInCodePage(e.children[i]);
    }
  }

  /** A tree already in the code page goes through the pass unchanged. */
  lemma {:induction false} SanitizeTreeFixed(e: Element)
    requires InCodePageTree(e)
    ensures SanitizeTree(e) == e
    decreases e
  {
    SanitizeFixed(e.tag);
    forall i | 0 <= i < |e.attributes| ensures SanitizeAttributes(e.attributes)[i] == e.attributes[i] {
      SanitizeFixed(e.attributes[i].0);
      SanitizeFixed(e.attributes[i].1);
    }
    if e.text.Some? {
      SanitizeFixed(e.text.value);
    }
    forall i | 0 <= i < |e.children| ensures SanitizeTree(e.children[i]) == e.children[i] {
      SanitizeTreeFixed(e.children[i]);
    }
    assert SanitizeTree(e).children == e.children;
    assert SanitizeTree(e).attributes == e.attributes;
  }

  /** The pass is idempotent on trees. */
  lemma SanitizeTreeIdempotent(e: Element)
    ensures SanitizeTree(SanitizeTree(e)) == SanitizeTree(e)
  {
    SanitizedInCodePage(e);
    SanitizeTreeFixed(SanitizeTree(e));
  }

  // ---------------------------------------------------------------------------
  // The builder
  // ---------------------------------------------------------------------------

  /** The invoiceItem elements of an invoice's items, in order, stopping at the first that fails. */
  method BuildItemNodes(items: seq<InvoiceItem>) returns (r: Result<seq<Element>>)
    ensures r == MapResult(items, ItemNode)
  {
    var details: seq<Element> := [];
    for i := 0 to |items|
      invariant MapResult(items[..i], ItemNode) == Ok(details)
    {
      var node := ItemNode(items[i]);
      MapResultStep(items, i, details, node, ItemNode);
      if node.Err? {
        return Err(node.error);
      }
      details := details + [node.value];
    }
    MapResultDone(items, details, ItemNode);
    return Ok(details);
  }

  /** One dataPackItem, grown element by element as the code grows it. */
  method BuildPackItem(inv: Invoice) returns (r: Result<Element>)
    requires WellFormedHeader(inv.invoiceHeader)
    ensures r == PackItem(inv)
  {
    if inv.invoiceDetail.invoiceItems.None? {
      return Err(ItemsMissing);
    }
    var items := inv.invoiceDetail.invoiceItems.value;
    var found := FindRate(items);
    var header := HeaderNode(inv.invoiceHeader, found);
    var details := BuildItemNodes(items);
    if details.Err? {
      return Err(details.error);
    }
    return Ok(PackItemNode(inv, header, details.value));
  }

  /** build_data_pack's loop: one dataPackItem per invoice, in order, stopping at the first error. */
  method BuildPackItems(invs: seq<Invoice>) returns (r: Result<seq<Element>>)
    requires WellFormedInvoices(invs)
    ensures r == MapResult(invs, PackItem)
  {
    var packItems: seq<Element> := [];
    for i := 0 to |invs|
      invariant MapResult(invs[..i], PackItem) == Ok(packItems)
    {
      var item := BuildPackItem(invs[i]);
      MapResultStep(invs, i, packItems, item, PackItem);
      if item.Err? {
        return Err(item.error);
      }
      packItems := packItems + [item.value];
    }
    MapResultDone(invs, packItems, PackItem);
    return Ok(packItems);
  }

  /** build_data_pack: the root, one dataPackItem per invoice in order, then the code-page pass. */
  method BuildDataPack(invs: seq<Invoice>, clock: Clock) returns (r: Result<Element>)
    requires ValidDateTime(clock.idTime) && WellFormedInvoices(invs)
    ensures r == DataPackXml(invs, clock)
  {
    var packItems := BuildPackItems(invs);
    if packItems.Err? {
      return Err(packItems.error);
    }
    var root := Element("dat:dataPack", PackAttributes(clock), None, packItems.value);
    return Ok(SanitizeTree(root));
  }

  // ---------------------------------------------------------------------------
  // What the pack holds
  // ---------------------------------------------------------------------------

  /** The pack is built exactly when every invoice has an item list and every item a stock item. */
  predicate Packable(inv: Invoice) {
    inv.invoiceDetail.invoiceItems.Some?
    && forall k | 0 <= k < |inv.invoiceDetail.invoiceItems.value| :: inv.invoiceDetail.invoiceItems.value[k].stockItem.Some?
  }

  /**
   * A dataPackItem is built exactly when the invoice is packable; it is then identified by
   * the invoice number and holds one invoiceItem per item, in order.
   */
  lemma PackItemShape(inv: Invoice)
    requires WellFormedHeader(inv.invoiceHeader)
    ensures PackItem(inv).Ok? <==> Packable(inv)
    ensures PackItem(inv).Err? ==> PackItem(inv).error.TypeError?
    ensures PackItem(inv).Ok? ==>
              var items := inv.invoiceDetail.invoiceItems.value;
              var pack := PackItem(inv).value;
              && pack.tag == "dat:dataPackItem" && pack.attributes[0] == ("id", inv.invoiceHeader.number)
              && pack.children[0].children[0] == HeaderNode(inv.invoiceHeader, FirstPositiveRate(items))
              && |pack.children[0].children[1].children| == |items|
              && forall k | 0 <= k < |items| :: ItemNode(items[k]) == Ok(pack.children[0].children[1].children[k])
  {
    if inv.invoiceDetail.invoiceItems.Some? {
      var items := inv.invoiceDetail.invoiceItems.value;
      MapResultFails(items, ItemNode);
      if PackItem(inv).Ok? {
        forall k | 0 <= k < |items| ensures ItemNode(items[k]) == Ok(PackItem(inv).value.children[0].children[1].children[k]) {
          MapResultEach(items, ItemNode, k);
        }
      }
    }
  }

  /** One dataPackItem per invoice, in order: the k-th is the k-th invoice's. */
  lemma PackItemsInOrder(invs: seq<Invoice>, clock: Clock, k: nat)
    requires ValidDateTime(clock.idTime) && WellFormedInvoices(invs)
    requires DataPackTree(invs, clock).Ok? && k < |invs|
    ensures |DataPackTree(invs, clock).value.children| == |invs|
    ensures PackItem(invs[k]) == Ok(DataPackTree(invs, clock).value.children[k])
  {
    MapResultEach(invs, PackItem, k);
  }

  /** The pack is built exactly when every invoice can be packed. */
  lemma DataPackOk(invs: seq<Invoice>, clock: Clock)
    requires ValidDateTime(clock.idTime) && WellFormedInvoices(invs)
    ensures DataPackTree(invs, clock).Ok? <==> forall k | 0 <= k < |invs| :: Packable(invs[k])
  {
    MapResultFails(invs, PackItem);
    forall k | 0 <= k < |invs| ensures PackItem(invs[k]).Ok? <==> Packable(invs[k]) {
      PackItemShape(invs[k]);
    }
  }

  /** No element of cs has the tag. */
  predicate TagFree(cs: seq<Element>, tag: string) {
    forall k | 0 <= k < |cs| :: cs[k].tag != tag
  }

  lemma {:induction false} TagFreeSelect(cs: seq<Element>, tag: string)
    requires TagFree(cs, tag)
    ensures WithTag(cs, tag) == []
  {
    if cs != [] {
      assert cs[0].tag != tag;
      assert TagFree(cs[1..], tag) by {
        forall k | 0 <= k < |cs| - 1 ensures cs[1..][k].tag != tag {
          assert cs[1..][k] == cs[k + 1];
        }
      }
      TagFreeSelect(cs[1..], tag);
    }
  }

  /** Parts none of which has the tag lay out to elements none of which has it. */
  lemma {:induction false} FlattenTagFree(parts: seq<seq<Element>>, tag: string)
    requires forall i | 0 <= i < |parts| :: TagFree(parts[i], tag)
    ensures TagFree(Flatten(parts), tag)
  {
    if parts != [] {
      FlattenTagFree(parts[1..], tag);
      var r := Flatten(parts);
      assert r == parts[0] + Flatten(parts[1..]);
      forall k | 0 <= k < |r| ensures r[k].tag != tag {
        if k >= |parts[0]| {
          assert r[k] == Flatten(parts[1..])[k - |parts[0]|];
        }
      }
    }
  }

  /** The header's first part holds no classification element. */
  lemma HeaderStartUntagged(t: HeaderTexts)
    ensures WithTag(HeaderStart(t), "inv:classificationVAT") == []
  {
    var tag := "inv:classificationVAT";
    FlattenTagFree([[Node("inv:number", [TextNode("typ:numberRequested", t.number)]), TextNode("inv:invoiceType", t.invoiceType)],
                    OptNode("inv:symVar", Some(t.symVar)), OptNode("inv:symConst", t.symConst), OptNode("inv:symPar", t.symPar),
                    [TextNode("inv:date", t.date), TextNode("inv:dateTax", t.dateTax)],
                    OptNode("inv:dateAccounting", t.dateAccounting),
                    [TextNode("inv:dateDue", t.dateDue)],
                    OptNode("inv:numberOrder", Some(t.numberOrder))], tag);
    TagFreeSelect(HeaderStart(t), tag);
  }

  /** The header's last part holds no classification element. */
  lemma HeaderEndUntagged(t: HeaderTexts)
    ensures WithTag(HeaderEnd(t), "inv:classificationVAT") == []
  {
    var tag := "inv:classificationVAT";
    FlattenTagFree([[Node("inv:paymentType", [TextNode("typ:paymentType", t.paymentType)])],
                    OptNode("inv:text", t.text),
                    [Node("inv:partnerIdentity", [Node("typ:address", AddressChildren(t.address))])],
                    OptNode("inv:dateOrder", t.dateOrder),
                    OptNode("inv:note", t.note), OptNode("inv:intNote", t.intNote)], tag);
    TagFreeSelect(HeaderEnd(t), tag);
  }

  /** Among the header's elements, the classification is the only one with its tag. */
  lemma ClassificationFound(t: HeaderTexts, found: Option<real>)
    requires found.Some? ==> found.value > 0.0
    ensures WithTag(HeaderStart(t) + ClassificationNode(found) + HeaderEnd(t), "inv:classificationVAT") == ClassificationNode(found)
  {
    var tag := "inv:classificationVAT";
    var start, mid, end := HeaderStart(t), ClassificationNode(found), HeaderEnd(t);
    HeaderStartUntagged(t);
    HeaderEndUntagged(t);
    ClassificationSelect(found);
    WithTagAppend(start, mid, tag);
    assert WithTag(start + mid, tag) == mid by {
      assert [] + mid == mid;
    }
    WithTagAppend(start + mid, end, tag);
    assert mid + [] == mid;
  }

  /** The classification node carries the tag it is looked up by. */
  lemma ClassificationSelect(found: Option<real>)
    requires found.Some? ==> found.value > 0.0
    ensures WithTag(ClassificationNode(found), "inv:classificationVAT") == ClassificationNode(found)
  {
    var mid := ClassificationNode(found);
    if mid != [] {
      assert mid[1..] == [];
    }
  }

  /**
   * classificationVAT is written exactly when some item's rate reads as a positive number,
   * and then holds the first such rate truncated to a whole number.
   */
  lemma ClassificationPresent(h: InvoiceHeader, items: seq<InvoiceItem>)
    requires WellFormedHeader(h)
    ensures var found := FindAll(HeaderNode(h, FirstPositiveRate(items)), "inv:classificationVAT");
            && (found != [] <==> exists k | 0 <= k < |items| :: PositiveRate(items[k]))
            && |found| <= 1
            && (found != [] ==> exists k | 0 <= k < |items| ::
                                  && PositiveRate(items[k]) && (forall j | 0 <= j < k :: !PositiveRate(items[j]))
                                  && found[0].children == [TextNode("typ:ids", RateIds(RateValue(items[k].rateVAT).value))])
  {
    ClassificationFound(HeaderTextsOf(h), FirstPositiveRate(items));
  }
}
