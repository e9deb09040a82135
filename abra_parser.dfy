/**
 * Reading the Abra "faktura-vydana" export into invoice records: the classification of an
 * invoice's <id> elements, the decomposition of an item's external id, the rule that drops
 * an item without usable ids, and the field-by-field reading of headers and items.
 */
module AbraParser {
  import opened Wrappers
  import opened Text
  import opened Numbers
  import opened Xml
  import opened Leaves
  import opened AbraFields

  /** An invoice item: its internal id, the code and counter of its external id, and its other fields by column. */
  datatype Item = Item(id: string, extKod: string, extKodK: int, fields: map<string, Value>)

  /** An invoice: its external and internal ids (None when no <id> gave one), its header fields by column, and its items. */
  datatype Invoice = Invoice(extId: Option<string>, id: Option<string>, fields: map<string, Value>, items: seq<Item>)

  /** No field before the k-th fills the same column. */
  predicate FirstOccurrence(fs: seq<Field>, k: nat)
    requires k < |fs|
  {
    forall j | 0 <= j < k :: fs[j].column != fs[k].column
  }

  lemma ColumnsCons(fs: seq<Field>)
    requires fs != []
    ensures Columns(fs) == {fs[0].column} + Columns(fs[1..])
  {
    forall c | c in Columns(fs) ensures c in {fs[0].column} + Columns(fs[1..]) {
      var k :| 0 <= k < |fs| && fs[k].column == c;
      if k > 0 {
        assert fs[1..][k - 1] == fs[k];
      }
    }
  }

  /**
   * The keyword arguments of a record, read in order: the first reader that raises aborts the
   * record with its error; otherwise every listed column holds what its reader returned.
   */
  function ReadFields(e: Element, fs: seq<Field>): (r: Result<map<string, Value>>)
    ensures r.Ok? ==> r.value.Keys == Columns(fs)
    decreases |fs|
  {
    if fs == [] then Ok(map[])
    else
      var f := fs[0];
      match Leaf(f.tag, f.kind, e)
      case Err(err) => Err(err)
      case Ok(v) =>
        match ReadFields(e, fs[1..])
        case Err(err) => Err(err)
        case Ok(rest) =>
          ColumnsCons(fs);
          Ok(rest[f.column := v])
  }

  /** A successful read ran every reader without error, and a column holds the value of the first field naming it. */
  lemma {:induction false} ReadFieldsOk(e: Element, fs: seq<Field>)
    requires ReadFields(e, fs).Ok?
    ensures forall k | 0 <= k < |fs| :: Leaf(fs[k].tag, fs[k].kind, e).Ok?
    ensures forall k | 0 <= k < |fs| && FirstOccurrence(fs, k) ::
              ReadFields(e, fs).value[fs[k].column] == Leaf(fs[k].tag, fs[k].kind, e).value
    decreases |fs|
  {
    if fs != [] {
      var tail := fs[1..];
      ReadFieldsOk(e, tail);
      var m := ReadFields(e, fs).value;
      var rest := ReadFields(e, tail).value;
      assert m == rest[fs[0].column := Leaf(fs[0].tag, fs[0].kind, e).value];
      forall k | 0 < k < |fs|
        ensures Leaf(fs[k].tag, fs[k].kind, e).Ok?
        ensures FirstOccurrence(fs, k) ==> m[fs[k].column] == Leaf(fs[k].tag, fs[k].kind, e).value
      {
        assert tail[k - 1] == fs[k];
        if FirstOccurrence(fs, k) {
          assert fs[0].column != fs[k].column;
          assert FirstOccurrence(tail, k - 1) by {
            forall j | 0 <= j < k - 1 ensures tail[j].column != tail[k - 1].column {
              assert tail[j] == fs[j + 1];
            }
          }
        }
      }
    }
  }

  /** A failed read fails with the error of the first reader that raised, all readers before it having succeeded. */
  lemma {:induction false} ReadFieldsErr(e: Element, fs: seq<Field>)
    requires ReadFields(e, fs).Err?
    ensures exists k | 0 <= k < |fs| ::
              Leaf(fs[k].tag, fs[k].kind, e) == Err(ReadFields(e, fs).error)
              && forall j | 0 <= j < k :: Leaf(fs[j].tag, fs[j].kind, e).Ok?
    decreases |fs|
  {
    if Leaf(fs[0].tag, fs[0].kind, e).Ok? {
      ReadFieldsErr(e, fs[1..]);
      var k :| 0 <= k < |fs[1..]| && Leaf(fs[1..][k].tag, fs[1..][k].kind, e) == Err(ReadFields(e, fs[1..]).error)
               && forall j | 0 <= j < k :: Leaf(fs[1..][j].tag, fs[1..][j].kind, e).Ok?;
      assert forall j | 0 < j <= k :: fs[1..][j - 1] == fs[j];
      assert Leaf(fs[k + 1].tag, fs[k + 1].kind, e) == Err(ReadFields(e, fs).error);
    } else {
      assert Leaf(fs[0].tag, fs[0].kind, e) == Err(ReadFields(e, fs).error);
    }
  }

  /** Only a date reader can raise, so a record whose fields are all text, numbers and flags always reads. */
  lemma {:induction false} ReadFieldsWithoutDates(e: Element, fs: seq<Field>)
    requires forall k | 0 <= k < |fs| :: fs[k].kind != DateKind
    ensures ReadFields(e, fs).Ok?
    decreases |fs|
  {
    if fs != [] {
      assert forall k | 0 < k < |fs| :: fs[1..][k - 1] == fs[k];
      ReadFieldsWithoutDates(e, fs[1..]);
    }
  }

  // ---------------------------------------------------------------------------------------
  // Item ids

  /** What an item's <id> elements have set so far: the code and counter of its external id, and its internal id. */
  datatype ItemIds = ItemIds(extKod: string, extKodK: Option<int>, id: string)

  /** The slots before any <id> is read: two empty strings and an unset counter. */
  const NoItemIds: ItemIds := ItemIds("", None, "")

  /**
   * An external item id: the text after its last ':' must split on '-' into exactly a code and
   * an integer counter; otherwise the unpacking or int() raises ValueError.
   */
  function DecodeExtKod(text: string): (r: Result<(string, int)>)
    ensures r.Ok? <==> |Split(AfterLast(text, ":"), "-")| == 2 && ParseInt(Split(AfterLast(text, ":"), "-")[1]).Some?
    ensures r.Ok? ==> r.value.0 == Split(AfterLast(text, ":"), "-")[0]
    ensures r.Ok? ==> Some(r.value.1) == ParseInt(Split(AfterLast(text, ":"), "-")[1])
    ensures r.Ok? ==> FreeOf(r.value.0, '-') && FreeOf(r.value.0, ':')
    ensures r.Err? ==> r.error.ValueError?
  {
    var tail := AfterLast(text, ":");
    var parts := Split(tail, "-");
    if |parts| < 2 then Err(ValueError("not enough values to unpack"))
    else if |parts| > 2 then Err(ValueError("too many values to unpack"))
    else
      match ParseInt(parts[1])
      case None => Err(ValueError("invalid literal for int() with base 10"))
      case Some(k) =>
        FreeOfContains(tail, ':');
        FreeOfContains(parts[0], '-');
        SplitPiecesFree(tail, "-", ':');
        Ok((parts[0], k))
  }

  /** An item <id> with text that starts with "ext:". */
  predicate IsExtItemId(i: Element) {
    i.text.Some? && StartsWith(i.text.value, "ext:")
  }

  /** An item <id> with any other text. */
  predicate IsOtherItemId(i: Element) {
    i.text.Some? && !StartsWith(i.text.value, "ext:")
  }

  /** The position of the last element of xs that satisfies f, if there is one. */
  function LastWhere(xs: seq<Element>, f: Element -> bool): (r: Option<nat>)
    ensures r.None? <==> forall k | 0 <= k < |xs| :: !f(xs[k])
    ensures r.Some? ==> r.value < |xs| && f(xs[r.value]) && forall j | r.value < j < |xs| :: !f(xs[j])
    decreases |xs|
  {
    if xs == [] then None
    else if f(xs[|xs| - 1]) then Some(|xs| - 1)
    else
      var front := xs[..|xs| - 1];
      assert forall k | 0 <= k < |xs| - 1 :: front[k] == xs[k];
      LastWhere(front, f)
  }

  /** An <id> of an item is readable: it has text, and an external one decodes. */
  predicate ReadableItemId(i: Element) {
    i.text.Some? && (StartsWith(i.text.value, "ext:") ==> DecodeExtKod(i.text.value).Ok?)
  }

  /** One <id> of an item. An external id sets the code and counter, any other id the internal id; an id without text raises. */
  function ReadItemId(acc: ItemIds, idElement: Element): (r: Result<ItemIds>)
    ensures r.Ok? <==> ReadableItemId(idElement)
    ensures r.Err? ==> r.error.AttributeError? || r.error.ValueError?
  {
    match idElement.text
    case None => Err(AttributeError("'NoneType' object has no attribute 'startswith'"))
    case Some(t) =>
      if StartsWith(t, "ext:") then
        match DecodeExtKod(t)
        case Err(err) => Err(err)
        case Ok(decoded) => Ok(acc.(extKod := decoded.0, extKodK := Some(decoded.1)))
      else Ok(acc.(id := t))
  }

  /**
   * The <id> elements of an item read in document order, each overriding what earlier ones
   * set: the last external id decides the code and counter, the last other id the internal
   * id, and any unreadable id aborts.
   */
  function ReadItemIds(ids: seq<Element>): (r: Result<ItemIds>)
    ensures r.Ok? <==> forall k | 0 <= k < |ids| :: ReadableItemId(ids[k])
    ensures r.Err? ==> r.error.AttributeError? || r.error.ValueError?
    decreases |ids|
  {
    if ids == [] then Ok(NoItemIds)
    else
      var front := ids[..|ids| - 1];
      assert forall k | 0 <= k < |ids| - 1 :: front[k] == ids[k];
      match ReadItemIds(front)
      case Err(err) => Err(err)
      case Ok(acc) => ReadItemId(acc, ids[|ids| - 1])
  }

  /** The last element satisfying f, once one more element is added: that element if it does, the earlier answer otherwise. */
  lemma LastWhereSnoc(xs: seq<Element>, f: Element -> bool)
    requires xs != []
    ensures f(xs[|xs| - 1]) ==> LastWhere(xs, f) == Some(|xs| - 1)
    ensures !f(xs[|xs| - 1]) ==> LastWhere(xs, f) == LastWhere(xs[..|xs| - 1], f)
    ensures LastWhere(xs[..|xs| - 1], f).Some? ==>
              xs[LastWhere(xs[..|xs| - 1], f).value] == xs[..|xs| - 1][LastWhere(xs[..|xs| - 1], f).value]
  {
  }

  /** The internal id is the text of the last id that is not external, or "" without one. */
  lemma {:induction false} ReadItemIdsLastId(ids: seq<Element>)
    requires ReadItemIds(ids).Ok?
    ensures ReadItemIds(ids).value.id == match LastWhere(ids, IsOtherItemId)
                                         case None => ""
                                         case Some(k) => ids[k].text.value
    decreases |ids|
  {
    if ids != [] {
      ReadItemIdsLastId(ids[..|ids| - 1]);
      LastWhereSnoc(ids, IsOtherItemId);
    }
  }

  /** The code and counter are what the last external id decodes to, or empty and unset without one. */
  lemma {:induction false} ReadItemIdsLastExt(ids: seq<Element>)
    requires ReadItemIds(ids).Ok?
    ensures match LastWhere(ids, IsExtItemId)
            case None => ReadItemIds(ids).value.extKod == "" && ReadItemIds(ids).value.extKodK == None
            case Some(k) => ReadItemIds(ids).value.extKodK.Some?
                            && DecodeExtKod(ids[k].text.value) == Ok((ReadItemIds(ids).value.extKod, ReadItemIds(ids).value.extKodK.value))
    decreases |ids|
  {
    if ids != [] {
      var front := ids[..|ids| - 1];
      var last := ids[|ids| - 1];
      ReadItemIdsLastExt(front);
      LastWhereSnoc(ids, IsExtItemId);
      var acc := ReadItemIds(front).value;
      if IsExtItemId(last) {
        var decoded := DecodeExtKod(last.text.value).value;
        assert ReadItemIds(ids).value == acc.(extKod := decoded.0, extKodK := Some(decoded.1));
      } else {
        assert ReadItemIds(ids).value == acc.(id := last.text.value);
      }
    }
  }

  /**
   * The slots a successful read fills: the internal id is the text of the last id that is
   * not external ("" without one), and the code and counter are what the last external id
   * decodes to (empty and unset without one).
   */
  lemma ReadItemIdsLast(ids: seq<Element>)
    requires ReadItemIds(ids).Ok?
    ensures ReadItemIds(ids).value.id == match LastWhere(ids, IsOtherItemId)
                                         case None => ""
                                         case Some(k) => ids[k].text.value
    ensures match LastWhere(ids, IsExtItemId)
            case None => ReadItemIds(ids).value.extKod == "" && ReadItemIds(ids).value.extKodK == None
            case Some(k) => ReadItemIds(ids).value.extKodK.Some?
                            && DecodeExtKod(ids[k].text.value) == Ok((ReadItemIds(ids).value.extKod, ReadItemIds(ids).value.extKodK.value))
  {
    ReadItemIdsLastId(ids);
    ReadItemIdsLastExt(ids);
  }

  /** After "ext:" and a tail free of ':', the tail is what remains. */
  lemma AfterExtMarker(tail: string)
    requires FreeOf(tail, ':')
    ensures AfterLast("ext:" + tail, ":") == tail
  {
    assert "ext:" + tail == ['e', 'x', 't'] + [':'] + tail;
    SplitAtFirst(['e', 'x', 't'], ':', tail);
    FreeOfContains(tail, ':');
    SplitFree(tail, ":");
  }

  /** An external id "ext:<code>-<counter>" with a code free of ':' and '-' and a counter >= 0 decodes to that code and counter. */
  lemma DecodeExtKodOf(code: string, k: nat)
    requires FreeOf(code, ':') && FreeOf(code, '-')
    ensures DecodeExtKod("ext:" + code + "-" + NatToString(k)) == Ok((code, k))
  {
    var digits := NatToString(k);
    var tail := code + "-" + digits;
    assert FreeOf(tail, ':');
    assert "ext:" + code + "-" + digits == "ext:" + tail;
    AfterExtMarker(tail);
    SplitAtFirst(code, '-', digits);
    FreeOfContains(digits, '-');
    SplitFree(digits, "-");
    ParseIntOfIntToString(k);
  }

  /** A tail without '-' lacks the counter, so the unpacking raises ValueError. */
  lemma DecodeExtKodRejectsMissingCounter(tail: string)
    requires FreeOf(tail, ':') && FreeOf(tail, '-')
    ensures DecodeExtKod("ext:" + tail) == Err(ValueError("not enough values to unpack"))
  {
    AfterExtMarker(tail);
    FreeOfContains(tail, '-');
    SplitFree(tail, "-");
  }

  /** A tail with two '-' has too many parts, so the unpacking raises ValueError. */
  lemma DecodeExtKodRejectsExtraPart(a: string, b: string, c: string)
    requires FreeOf(a, ':') && FreeOf(b, ':') && FreeOf(c, ':')
    requires FreeOf(a, '-') && FreeOf(b, '-')
    ensures DecodeExtKod("ext:" + a + "-" + b + "-" + c) == Err(ValueError("too many values to unpack"))
  {
    var tail := a + "-" + b + "-" + c;
    assert FreeOf(tail, ':');
    assert "ext:" + a + "-" + b + "-" + c == "ext:" + tail;
    AfterExtMarker(tail);
    assert tail == a + ['-'] + (b + "-" + c);
    SplitAtFirst(a, '-', b + "-" + c);
    SplitAtFirst(b, '-', c);
  }

  /** A counter that int() rejects raises ValueError. */
  lemma DecodeExtKodRejectsBadCounter(code: string, counter: string)
    requires FreeOf(code, ':') && FreeOf(counter, ':')
    requires FreeOf(code, '-') && FreeOf(counter, '-')
    requires ParseInt(counter).None?
    ensures DecodeExtKod("ext:" + code + "-" + counter) == Err(ValueError("invalid literal for int() with base 10"))
  {
    var tail := code + "-" + counter;
    assert FreeOf(tail, ':');
    assert "ext:" + code + "-" + counter == "ext:" + tail;
    AfterExtMarker(tail);
    SplitAtFirst(code, '-', counter);
    FreeOfContains(counter, '-');
    SplitFree(counter, "-");
  }

  /** An item with an external id "ext:<code>-<counter>" and an internal id gets that code, counter and id. */
  lemma ItemIdsOfPair(code: string, k: nat, id: string)
    requires FreeOf(code, ':') && FreeOf(code, '-')
    requires !StartsWith(id, "ext:")
    ensures ReadItemIds([IdElement("ext:" + code + "-" + NatToString(k)), IdElement(id)])
            == Ok(ItemIds(code, Some(k), id))
  {
    var t := "ext:" + code + "-" + NatToString(k);
    DecodeExtKodOf(code, k);
    assert t[..4] == "ext:";
    assert [IdElement(t), IdElement(id)][..1] == [IdElement(t)];
    assert [IdElement(t)][..0] == [];
  }

  /** An item <id> with no text raises AttributeError. */
  lemma TextlessItemIdRaises(acc: ItemIds)
    ensures ReadItemId(acc, Element("id", [], None, [])).Err?
    ensures ReadItemId(acc, Element("id", [], None, [])).error.AttributeError?
  {
  }

  /** An item is kept only when it has a non-empty code, a counter and a non-empty internal id. */
  predicate Kept(ids: ItemIds) {
    ids.extKod != "" && ids.extKodK.Some? && ids.id != ""
  }

  /**
   * One item element. Its ids are read first (an error there aborts the whole parse); an item
   * without usable ids is dropped; otherwise its fields are read.
   */
  function ReadItem(child: Element, itemFields: seq<Field>): (r: Result<Option<Item>>)
    ensures ReadItemIds(FindAll(child, "id")).Err? ==> r == Err(ReadItemIds(FindAll(child, "id")).error)
    ensures r.Ok? && r.value.None? <==>
              ReadItemIds(FindAll(child, "id")).Ok? && !Kept(ReadItemIds(FindAll(child, "id")).value)
    ensures r.Ok? && r.value.Some? ==>
              var ids := ReadItemIds(FindAll(child, "id")).value;
              Kept(ids) && r.value.value == Item(ids.id, ids.extKod, ids.extKodK.value, r.value.value.fields)
              && ReadFields(child, itemFields) == Ok(r.value.value.fields)
  {
    match ReadItemIds(FindAll(child, "id"))
    case Err(err) => Err(err)
    case Ok(ids) =>
      if !Kept(ids) then Ok(None)
      else
        match ReadFields(child, itemFields)
        case Err(err) => Err(err)
        case Ok(fields) => Ok(Some(Item(ids.id, ids.extKod, ids.extKodK.value, fields)))
  }

  /** All children of the given containers, container by container. */
  function ChildrenOf(cs: seq<Element>): (r: seq<Element>)
    ensures forall p, c | p in cs && c in p.children :: c in r
    ensures forall c | c in r :: exists p | p in cs :: c in p.children
    decreases |cs|
  {
    if cs == [] then [] else ChildrenOf(cs[..|cs| - 1]) + cs[|cs| - 1].children
  }

  /** The item elements of an invoice: every child of every <polozkyFaktury> at any depth below it. */
  function ItemElements(e: Element): (r: seq<Element>)
    ensures forall p, c | p in FindAllDeep(e, "polozkyFaktury") && c in p.children :: c in r
    ensures forall c | c in r :: exists p | p in FindAllDeep(e, "polozkyFaktury") :: c in p.children
  {
    ChildrenOf(FindAllDeep(e, "polozkyFaktury"))
  }

  /** The kept items of the given item elements, in order; the first error aborts. */
  function ReadItems(cs: seq<Element>, itemFields: seq<Field>): (r: Result<seq<Item>>)
    ensures r.Ok? ==> |r.value| <= |cs|
    ensures r.Ok? ==> forall k | 0 <= k < |r.value| :: r.value[k].extKod != "" && r.value[k].id != ""
    decreases |cs|
  {
    if cs == [] then Ok([])
    else
      match ReadItems(cs[..|cs| - 1], itemFields)
      case Err(err) => Err(err)
      case Ok(items) =>
        match ReadItem(cs[|cs| - 1], itemFields)
        case Err(err) => Err(err)
        case Ok(None) => Ok(items)
        case Ok(Some(item)) => Ok(items + [item])
  }

  /** The reader of one item element, as a function value. */
  function ItemReader(itemFields: seq<Field>): (f: Element -> Result<Option<Item>>)
    ensures forall c :: f(c) == ReadItem(c, itemFields)
  {
    c => ReadItem(c, itemFields)
  }

  /**
   * The extraction is the element-wise reading followed by dropping the skipped elements:
   * it fails exactly when reading the elements one after the other fails, with that error.
   */
  lemma {:induction false} ReadItemsIsMap(cs: seq<Element>, itemFields: seq<Field>)
    ensures var m := MapResult(cs, ItemReader(itemFields));
            && (ReadItems(cs, itemFields).Ok? <==> m.Ok?)
            && (m.Ok? ==> ReadItems(cs, itemFields).value == Somes(m.value))
            && (m.Err? ==> ReadItems(cs, itemFields).error == m.error)
    decreases |cs|
  {
    if cs != [] {
      var front, x := cs[..|cs| - 1], cs[|cs| - 1];
      assert cs == front + [x];
      ReadItemsIsMap(front, itemFields);
      MapResultSnoc(front, x, ItemReader(itemFields));
      var m := MapResult(front, ItemReader(itemFields));
      if m.Ok? && ReadItem(x, itemFields).Ok? {
        SomesSnoc(m.value, ReadItem(x, itemFields).value);
      }
    }
  }

  /**
   * A successful extraction read every element without error, and its items are, in order,
   * the items kept from those readings.
   */
  lemma ReadItemsKept(cs: seq<Element>, itemFields: seq<Field>)
    requires ReadItems(cs, itemFields).Ok?
    ensures MapResult(cs, ItemReader(itemFields)).Ok?
    ensures ReadItems(cs, itemFields).value == Somes(MapResult(cs, ItemReader(itemFields)).value)
    ensures forall k | 0 <= k < |cs| :: ReadItem(cs[k], itemFields) == Ok(MapResult(cs, ItemReader(itemFields)).value[k])
  {
    ReadItemsIsMap(cs, itemFields);
    forall k | 0 <= k < |cs| ensures ReadItem(cs[k], itemFields) == Ok(MapResult(cs, ItemReader(itemFields)).value[k]) {
      MapResultEach(cs, ItemReader(itemFields), k);
    }
  }

  /** An element whose reading raises, after elements that read, makes the whole extraction raise its error. */
  lemma ReadItemsFails(cs: seq<Element>, itemFields: seq<Field>, k: nat)
    requires k < |cs| && ReadItem(cs[k], itemFields).Err?
    requires forall j | 0 <= j < k :: ReadItem(cs[j], itemFields).Ok?
    ensures ReadItems(cs, itemFields) == Err(ReadItem(cs[k], itemFields).error)
  {
    var f := ItemReader(itemFields);
    ReadItemsIsMap(cs, itemFields);
    MapResultFails(cs, f);
    var i :| 0 <= i < |cs| && f(cs[i]).Err? && MapResult(cs, f).error == f(cs[i]).error
              && forall j | 0 <= j < i :: f(cs[j]).Ok?;
    assert f(cs[k]).Err?;
    assert i == k;
  }

  /**
   * The item extraction as written: the skip branch logs the text of the loop variable `_`
   * of the id loop, which is unbound until some item of this invoice has had an <id>. The
   * flag in the result tells whether it is bound.
   */
  function ReadItemsAsWritten(cs: seq<Element>, itemFields: seq<Field>): (r: Result<(seq<Item>, bool)>)
    ensures r.Ok? ==> |r.value.0| <= |cs|
    ensures r.Ok? && !r.value.1 ==> forall k | 0 <= k < |cs| :: FindAll(cs[k], "id") == []
    decreases |cs|
  {
    if cs == [] then Ok(([], false))
    else
      match ReadItemsAsWritten(cs[..|cs| - 1], itemFields)
      case Err(err) => Err(err)
      case Ok(sofar) =>
        var child := cs[|cs| - 1];
        var bound := sofar.1 || |FindAll(child, "id")| > 0;
        match ReadItem(child, itemFields)
        case Err(err) => Err(err)
        case Ok(None) => if bound then Ok((sofar.0, bound)) else Err(UnboundLocalError("_"))
        case Ok(Some(item)) => Ok((sofar.0 + [item], bound))
  }

  /** Where the extraction as written succeeds, it agrees with the corrected one. */
  lemma {:induction false} AsWrittenAgrees(cs: seq<Element>, itemFields: seq<Field>)
    requires ReadItemsAsWritten(cs, itemFields).Ok?
    ensures ReadItems(cs, itemFields) == Ok(ReadItemsAsWritten(cs, itemFields).value.0)
    decreases |cs|
  {
    if cs != [] {
      AsWrittenAgrees(cs[..|cs| - 1], itemFields);
    }
  }

  /** As written, dropping an item before any item had an <id> raises UnboundLocalError; the corrected extraction drops it. */
  lemma IdlessItemCounterexample(itemFields: seq<Field>)
    ensures ReadItemsAsWritten([Element("faktura-vydana-polozka", [], None, [])], itemFields) == Err(UnboundLocalError("_"))
    ensures ReadItems([Element("faktura-vydana-polozka", [], None, [])], itemFields) == Ok([])
  {
    var child := Element("faktura-vydana-polozka", [], None, []);
    assert [child][..0] == [];
    assert FindAll(child, "id") == [];
  }

  // ---------------------------------------------------------------------------------------
  // Invoices

  /** The two ids of an invoice found so far. */
  datatype InvoiceIds = InvoiceIds(extId: Option<string>, id: Option<string>)

  /** The stripped text of an invoice <id>; an id without text reads as "". */
  function IdText(i: Element): string {
    Strip(i.text.GetOr(""))
  }

  /** One invoice <id>: "ext:" sets the external id and "key:" the internal one, each to the text after the last marker; other ids are ignored. */
  function ReadInvoiceId(acc: InvoiceIds, i: Element): InvoiceIds {
    var t := IdText(i);
    if StartsWith(t, "ext:") then acc.(extId := Some(AfterLast(t, "ext:")))
    else if StartsWith(t, "key:") then acc.(id := Some(AfterLast(t, "key:")))
    else acc
  }

  /** An invoice <id> marking the external id. */
  predicate IsExtMarked(i: Element) {
    StartsWith(IdText(i), "ext:")
  }

  /** An invoice <id> marking the internal id. */
  predicate IsKeyMarked(i: Element) {
    StartsWith(IdText(i), "key:")
  }

  /** No text starts with both markers. */
  lemma MarkersExclusive(i: Element)
    ensures !(IsExtMarked(i) && IsKeyMarked(i))
  {
    if IsExtMarked(i) {
      assert IdText(i)[0] == 'e';
    }
  }

  /** The ids of an invoice, read in document order, each overriding what earlier ones set. */
  function ReadInvoiceIds(ids: seq<Element>): (r: InvoiceIds)
    ensures (forall k | 0 <= k < |ids| :: !IsExtMarked(ids[k])) ==> r.extId.None?
    ensures (forall k | 0 <= k < |ids| :: !IsKeyMarked(ids[k])) ==> r.id.None?
    decreases |ids|
  {
    if ids == [] then InvoiceIds(None, None)
    else ReadInvoiceId(ReadInvoiceIds(ids[..|ids| - 1]), ids[|ids| - 1])
  }

  /** The text after the marker of the last id carrying that marker, if there is one. */
  function LastMarkedValue(ids: seq<Element>, marked: Element -> bool, marker: string): Option<string>
    requires |marker| > 0
  {
    match LastWhere(ids, marked)
    case None => None
    case Some(k) => Some(AfterLast(IdText(ids[k]), marker))
  }

  /** Adding an id after the others: a marked one becomes the last marked one, an unmarked one changes nothing. */
  lemma LastMarkedSnoc(ids: seq<Element>, marked: Element -> bool, marker: string)
    requires ids != [] && |marker| > 0
    ensures marked(ids[|ids| - 1]) ==> LastMarkedValue(ids, marked, marker) == Some(AfterLast(IdText(ids[|ids| - 1]), marker))
    ensures !marked(ids[|ids| - 1]) ==> LastMarkedValue(ids, marked, marker) == LastMarkedValue(ids[..|ids| - 1], marked, marker)
  {
    var front := ids[..|ids| - 1];
    if !marked(ids[|ids| - 1]) {
      match LastWhere(front, marked)
      case None =>
      case Some(k) =>
        assert front[k] == ids[k];
    }
  }

  /** The last "ext:" id and the last "key:" id decide, each giving the text after its last marker; without one, the slot stays None. */
  lemma {:induction false} ReadInvoiceIdsLast(ids: seq<Element>)
    ensures ReadInvoiceIds(ids).extId == LastMarkedValue(ids, IsExtMarked, "ext:")
    ensures ReadInvoiceIds(ids).id == LastMarkedValue(ids, IsKeyMarked, "key:")
    decreases |ids|
  {
    if ids != [] {
      ReadInvoiceIdsLast(ids[..|ids| - 1]);
      MarkersExclusive(ids[|ids| - 1]);
      LastMarkedSnoc(ids, IsExtMarked, "ext:");
      LastMarkedSnoc(ids, IsKeyMarked, "key:");
    }
  }

  /** A text that starts with the separator splits into "" and the split of the rest. */
  lemma SplitLeading(sep: string, b: string)
    requires |sep| > 0
    ensures Split(sep + b, sep) == [""] + Split(b, sep)
  {
    var s := sep + b;
    assert s[0..|sep|] == sep;
    assert IndexFrom(s, sep, 0) == Some(0);
    assert s[|sep|..] == b;
  }

  /** An invoice <id> with the given text. */
  function IdElement(t: string): Element {
    Element("id", [], Some(t), [])
  }

  /** An id made of a marker and a value that ends in a non-space reads as that value. */
  lemma MarkedId(marker: string, a: string)
    requires |marker| > 0 && !IsSpace(marker[0])
    requires a != [] && !IsSpace(a[|a| - 1]) && !Contains(a, marker)
    ensures IdText(IdElement(marker + a)) == marker + a
    ensures StartsWith(marker + a, marker)
    ensures AfterLast(marker + a, marker) == a
  {
    StripOfStripped(marker + a);
    assert (marker + a)[..|marker|] == marker;
    SplitLeading(marker, a);
    SplitFree(a, marker);
  }

  /** The id marked "ext:" fills the external id and the id marked "key:" the internal one. */
  lemma InvoiceIdsOfPair(a: string, b: string)
    requires a != [] && !IsSpace(a[|a| - 1]) && !Contains(a, "ext:")
    requires b != [] && !IsSpace(b[|b| - 1]) && !Contains(b, "key:")
    ensures ReadInvoiceIds([IdElement("ext:" + a), IdElement("key:" + b)]) == InvoiceIds(Some(a), Some(b))
  {
    var x := IdElement("ext:" + a);
    var y := IdElement("key:" + b);
    MarkedId("ext:", a);
    MarkedId("key:", b);
    MarkersExclusive(y);
    assert [x, y][..1] == [x];
    assert [x][..0] == [];
  }

  /** The field tables of the two records; the readers take them as a parameter. */
  datatype Schema = Schema(header: seq<Field>, item: seq<Field>)

  /** The tables of the Abra export. */
  const Abra: Schema := Schema(HeaderFields, ItemFields)

  /**
   * from_xml: the ids, then the items, then the header fields in their order; an error in the
   * items or in a header date aborts the invoice.
   */
  function ParseInvoice(e: Element, schema: Schema): (r: Result<Invoice>)
    ensures r.Ok? <==> ReadItems(ItemElements(e), schema.item).Ok? && ReadFields(e, schema.header).Ok?
    ensures ReadItems(ItemElements(e), schema.item).Err? ==> r == Err(ReadItems(ItemElements(e), schema.item).error)
    ensures ReadItems(ItemElements(e), schema.item).Ok? && ReadFields(e, schema.header).Err? ==>
              r == Err(ReadFields(e, schema.header).error)
  {
    var ids := ReadInvoiceIds(FindAll(e, "id"));
    match ReadItems(ItemElements(e), schema.item)
    case Err(err) => Err(err)
    case Ok(items) =>
      match ReadFields(e, schema.header)
      case Err(err) => Err(err)
      case Ok(fields) => Ok(Invoice(ids.extId, ids.id, fields, items))
  }

  /** Each of the given invoice elements parsed in order; the first error aborts. */
  function ParseAll(es: seq<Element>, schema: Schema): (r: Result<seq<Invoice>>)
    ensures r.Ok? ==> |r.value| == |es|
    decreases |es|
  {
    if es == [] then Ok([])
    else
      var front := es[..|es| - 1];
      match ParseAll(front, schema)
      case Err(err) => Err(err)
      case Ok(done) =>
        match ParseInvoice(es[|es| - 1], schema)
        case Err(err) => Err(err)
        case Ok(inv) =>
          assert forall k | 0 <= k < |es| - 1 :: front[k] == es[k];
          Ok(done + [inv])
  }

  /** The k-th parsed invoice is what parsing the k-th element gives. */
  lemma {:induction false} ParseAllEach(es: seq<Element>, schema: Schema, k: nat)
    requires ParseAll(es, schema).Ok? && k < |es|
    ensures ParseInvoice(es[k], schema) == Ok(ParseAll(es, schema).value[k])
    decreases |es|
  {
    var front := es[..|es| - 1];
    if k < |es| - 1 {
      ParseAllEach(front, schema, k);
      assert front[k] == es[k];
    }
  }

  /** One invoice that does not parse makes the whole parse fail. */
  lemma {:induction false} ParseAllFails(es: seq<Element>, schema: Schema, k: nat)
    requires k < |es| && ParseInvoice(es[k], schema).Err?
    ensures ParseAll(es, schema).Err?
    decreases |es|
  {
    var front := es[..|es| - 1];
    if k < |es| - 1 {
      assert front[k] == es[k];
      ParseAllFails(front, schema, k);
    }
  }

  /**
   * What a parsed invoice holds: the ids its <id> elements give, the items read from its item
   * elements (at most one per element, each with a non-empty code and id), and the header
   * fields read from it, one per column.
   */
  lemma ParsedInvoice(e: Element, schema: Schema)
    requires ParseInvoice(e, schema).Ok?
    ensures var inv := ParseInvoice(e, schema).value;
      && inv.extId == ReadInvoiceIds(FindAll(e, "id")).extId
      && inv.id == ReadInvoiceIds(FindAll(e, "id")).id
      && inv.items == ReadItems(ItemElements(e), schema.item).value
      && |inv.items| <= |ItemElements(e)|
      && (forall k | 0 <= k < |inv.items| :: inv.items[k].extKod != "" && inv.items[k].id != "")
      && inv.fields == ReadFields(e, schema.header).value
      && inv.fields.Keys == Columns(schema.header)
  {
  }

  /** parse_invoices: every <faktura-vydana> at any depth below the document's root. */
  function ParseInvoices(root: Element, schema: Schema): (r: Result<seq<Invoice>>)
    ensures r.Ok? ==> |r.value| == |FindAllDeep(root, "faktura-vydana")|
  {
    ParseAll(FindAllDeep(root, "faktura-vydana"), schema)
  }
}
