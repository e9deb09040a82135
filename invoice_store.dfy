/**
 * The two tables the handler keeps its invoices in, the sync that fills them from parsed
 * invoices (insert when absent, never update what is stored), and the load that reads them
 * back, joining items to invoices and normalising stored dates again.
 */
module InvoiceStore {
  import opened Wrappers
  import opened Dates
  import opened Leaves
  import opened AbraFields
  import opened Xml
  import opened AbraParser

  /** A row of `invoices`: its two keys and the other columns. */
  datatype InvoiceRow = InvoiceRow(extId: string, id: string, columns: map<string, Value>)

  /** A row of `invoice_items`: its three keys and the other columns. */
  datatype ItemRow = ItemRow(extKod: string, extKodK: int, id: string, columns: map<string, Value>)

  /** Both tables, each in insertion order. */
  datatype Tables = Tables(invoices: seq<InvoiceRow>, items: seq<ItemRow>)

  const EmptyTables: Tables := Tables([], [])

  predicate HasExtId(rows: seq<InvoiceRow>, extId: string) {
    exists k | 0 <= k < |rows| :: rows[k].extId == extId
  }

  predicate HasItemKey(rows: seq<ItemRow>, extKod: string, extKodK: int) {
    exists k | 0 <= k < |rows| :: rows[k].extKod == extKod && rows[k].extKodK == extKodK
  }

  predicate HasItemId(rows: seq<ItemRow>, id: string) {
    exists k | 0 <= k < |rows| :: rows[k].id == id
  }

  /** The columns the sync writes for an invoice: its fields, with the columns no reader fills left NULL. */
  function StoredColumns(inv: Invoice): (r: map<string, Value>)
    ensures r.Keys == inv.fields.Keys + set c | c in UnreadInvoiceColumns
    ensures forall c | c in inv.fields :: r[c] == inv.fields[c]
    ensures forall c | c in r && c !in inv.fields :: r[c] == Null
  {
    (map c | c in UnreadInvoiceColumns :: Null) + inv.fields
  }

  /** The row an item gets when it is inserted. */
  function ItemRowOf(item: Item): ItemRow {
    ItemRow(item.extKod, item.extKodK, item.id, item.fields)
  }

  /**
   * One item of a new invoice: skipped when a row has its (ext_kod, ext_kod_k); its insert does
   * nothing when a row has its id, and then the update matches no row; otherwise it is appended.
   */
  function InsertItem(rows: seq<ItemRow>, item: Item): (r: seq<ItemRow>)
    ensures rows <= r && |r| <= |rows| + 1
    ensures |r| == |rows| + 1 <==> !HasItemKey(rows, item.extKod, item.extKodK) && !HasItemId(rows, item.id)
    ensures |r| == |rows| + 1 ==> r[|rows|] == ItemRowOf(item)
  {
    if HasItemKey(rows, item.extKod, item.extKodK) || HasItemId(rows, item.id) then rows
    else rows + [ItemRowOf(item)]
  }

  /** The items of a new invoice, in order, each seeing the rows the earlier ones added. */
  function InsertItems(rows: seq<ItemRow>, items: seq<Item>): (r: seq<ItemRow>)
    ensures rows <= r && |r| <= |rows| + |items|
    ensures forall k | 0 <= k < |items| ::
              HasItemKey(r, items[k].extKod, items[k].extKodK) || HasItemId(r, items[k].id)
    decreases |items|
  {
    if items == [] then rows
    else
      var front := InsertItems(rows, items[..|items| - 1]);
      var r := InsertItem(front, items[|items| - 1]);
      assert forall k | 0 <= k < |items| - 1 :: items[k] == items[..|items| - 1][k];
      assert forall j | 0 <= j < |front| :: r[j] == front[j];
      r
  }

  /**
   * The k-th item sees the rows the items before it left: it appends its own row exactly when
   * neither its (ext_kod, ext_kod_k) nor its id is among them, and the later items only append.
   */
  lemma {:induction false} InsertItemsStep(rows: seq<ItemRow>, items: seq<Item>, k: nat)
    requires k < |items|
    ensures var before := InsertItems(rows, items[..k]);
            var after := InsertItems(rows, items[..k + 1]);
            after <= InsertItems(rows, items) &&
            (if HasItemKey(before, items[k].extKod, items[k].extKodK) || HasItemId(before, items[k].id)
             then after == before
             else after == before + [ItemRowOf(items[k])])
    decreases |items|
  {
    assert items[..k + 1][..k] == items[..k];
    if k + 1 < |items| {
      var front := items[..|items| - 1];
      assert front[..k] == items[..k] && front[..k + 1] == items[..k + 1];
      InsertItemsStep(rows, front, k);
    } else {
      assert items[..k + 1] == items;
    }
  }

  /** Every appended row is the row of one of the items. */
  lemma {:induction false} InsertItemsOrigin(rows: seq<ItemRow>, items: seq<Item>, j: nat)
    requires |rows| <= j < |InsertItems(rows, items)|
    ensures exists k | 0 <= k < |items| :: InsertItems(rows, items)[j] == ItemRowOf(items[k])
    decreases |items|
  {
    var front := items[..|items| - 1];
    var before := InsertItems(rows, front);
    var r := InsertItems(rows, items);
    if j < |before| {
      InsertItemsOrigin(rows, front, j);
      var k :| 0 <= k < |front| && before[j] == ItemRowOf(front[k]);
      assert r[j] == before[j];
      assert front[k] == items[k];
    } else {
      assert r[j] == ItemRowOf(items[|items| - 1]);
    }
  }

  /** Both keys of every invoice of a batch are set, as the table's keys must be. */
  predicate Keyed(batch: seq<Invoice>) {
    forall k | 0 <= k < |batch| :: batch[k].extId.Some? && batch[k].id.Some?
  }

  /**
   * One invoice: skipped with all its items when a row has its ext_id; otherwise a row with
   * its two keys and its columns is appended and its items are inserted.
   */
  function SyncInvoice(t: Tables, inv: Invoice): (r: Tables)
    requires inv.extId.Some? && inv.id.Some?
    ensures t.invoices <= r.invoices && t.items <= r.items
    ensures HasExtId(r.invoices, inv.extId.value)
    ensures HasExtId(t.invoices, inv.extId.value) ==> r == t
    ensures !HasExtId(t.invoices, inv.extId.value) ==>
              r.invoices == t.invoices + [InvoiceRow(inv.extId.value, inv.id.value, StoredColumns(inv))] &&
              r.items == InsertItems(t.items, inv.items)
  {
    if HasExtId(t.invoices, inv.extId.value) then t
    else
      var row := InvoiceRow(inv.extId.value, inv.id.value, StoredColumns(inv));
      assert (t.invoices + [row])[|t.invoices|] == row;
      Tables(t.invoices + [row], InsertItems(t.items, inv.items))
  }

  /** The invoices of a batch, in order. */
  function SyncAll(t: Tables, batch: seq<Invoice>): (r: Tables)
    requires Keyed(batch)
    ensures t.invoices <= r.invoices && t.items <= r.items
    decreases |batch|
  {
    if batch == [] then t
    else
      var front := batch[..|batch| - 1];
      assert Keyed(front) by {
        assert forall k | 0 <= k < |front| :: front[k] == batch[k];
      }
      SyncInvoice(SyncAll(t, front), batch[|batch| - 1])
  }

  /** sync_invoices: nothing to do when there is no batch; otherwise every invoice of it in order. */
  function Sync(t: Tables, batch: Option<seq<Invoice>>): (r: Tables)
    requires batch.Some? ==> Keyed(batch.value)
    ensures t.invoices <= r.invoices && t.items <= r.items
    ensures batch.None? ==> r == t
  {
    match batch
    case None => t
    case Some(b) => SyncAll(t, b)
  }

  /** After a sync every invoice of the batch has its ext_id stored. */
  lemma {:induction false} SyncStoresAll(t: Tables, batch: seq<Invoice>, k: nat)
    requires Keyed(batch) && k < |batch|
    ensures HasExtId(SyncAll(t, batch).invoices, batch[k].extId.value)
    decreases |batch|
  {
    var front := batch[..|batch| - 1];
    assert forall j | 0 <= j < |front| :: front[j] == batch[j];
    if k < |batch| - 1 {
      SyncStoresAll(t, front, k);
      var s := SyncAll(t, front);
      var j :| 0 <= j < |s.invoices| && s.invoices[j].extId == batch[k].extId.value;
      var r := SyncAll(t, batch);
      assert s.invoices <= r.invoices;
      assert r.invoices[j] == s.invoices[j];
    }
  }

  /** A batch whose every ext_id is already stored changes nothing. */
  lemma {:induction false} SyncAllStored(t: Tables, batch: seq<Invoice>)
    requires Keyed(batch)
    requires forall k | 0 <= k < |batch| :: HasExtId(t.invoices, batch[k].extId.value)
    ensures SyncAll(t, batch) == t
    decreases |batch|
  {
    if batch != [] {
      var front := batch[..|batch| - 1];
      assert forall j | 0 <= j < |front| :: front[j] == batch[j];
      SyncAllStored(t, front);
    }
  }

  /** Syncing the same batch twice is syncing it once. */
  lemma SyncIdempotent(t: Tables, batch: Option<seq<Invoice>>)
    requires batch.Some? ==> Keyed(batch.value)
    ensures Sync(Sync(t, batch), batch) == Sync(t, batch)
  {
    if batch.Some? {
      var s := SyncAll(t, batch.value);
      forall k | 0 <= k < |batch.value| ensures HasExtId(s.invoices, batch.value[k].extId.value) {
        SyncStoresAll(t, batch.value, k);
      }
      SyncAllStored(s, batch.value);
    }
  }

  /** No two invoice rows share an ext_id. */
  predicate UniqueExtIds(rows: seq<InvoiceRow>) {
    forall i, j | 0 <= i < j < |rows| :: rows[i].extId != rows[j].extId
  }

  /** No two item rows share an (ext_kod, ext_kod_k) pair or an id. */
  predicate UniqueItemKeys(rows: seq<ItemRow>) {
    forall i, j | 0 <= i < j < |rows| ::
      (rows[i].extKod, rows[i].extKodK) != (rows[j].extKod, rows[j].extKodK) && rows[i].id != rows[j].id
  }

  lemma {:induction false} InsertItemsUnique(rows: seq<ItemRow>, items: seq<Item>)
    requires UniqueItemKeys(rows)
    ensures UniqueItemKeys(InsertItems(rows, items))
    decreases |items|
  {
    if items != [] {
      var front := InsertItems(rows, items[..|items| - 1]);
      InsertItemsUnique(rows, items[..|items| - 1]);
      var item := items[|items| - 1];
      var r := InsertItem(front, item);
      if |r| == |front| + 1 {
        forall i | 0 <= i < |front|
          ensures (r[i].extKod, r[i].extKodK) != (item.extKod, item.extKodK) && r[i].id != item.id
        {
          assert r[i] == front[i];
        }
      }
    }
  }

  /** The sync keeps ext_ids unique, and item keys and ids unique. */
  lemma {:induction false} SyncAllUnique(t: Tables, batch: seq<Invoice>)
    requires Keyed(batch)
    requires UniqueExtIds(t.invoices) && UniqueItemKeys(t.items)
    ensures UniqueExtIds(SyncAll(t, batch).invoices) && UniqueItemKeys(SyncAll(t, batch).items)
    decreases |batch|
  {
    if batch != [] {
      var front := batch[..|batch| - 1];
      assert forall j | 0 <= j < |front| :: front[j] == batch[j];
      SyncAllUnique(t, front);
      var s := SyncAll(t, front);
      var inv := batch[|batch| - 1];
      if !HasExtId(s.invoices, inv.extId.value) {
        InsertItemsUnique(s.items, inv.items);
      }
    }
  }

  // ---------------------------------------------------------------------------------------
  // Load

  /** A stored date in normal form: NULL, or a text that the date normaliser gives back unchanged. */
  predicate NormalDate(v: Value) {
    v.Null? || (v.Str? && ParseDate(Some(v.s)) == Ok(Some(v.s)))
  }

  /** _parse_date applied to a stored value: NULL stays NULL, a text is normalised. */
  function ReloadDate(v: Value): (r: Result<Value>)
    ensures NormalDate(v) ==> r == Ok(v)
    ensures r.Ok? ==> NormalDate(r.value)
  {
    match v
    case Null => Ok(Null)
    case Num(_) => Err(ValueError("Invalid date"))
    case Flag(_) => Err(ValueError("Invalid date"))
    case Str(s) =>
      match ParseDate(Some(s))
      case Err(err) => Err(err)
      case Ok(None) => Ok(Null)
      case Ok(Some(d)) =>
        ParseDateIdempotent(s, d);
        Ok(Str(d))
  }

  /** The columns of a stored row, with the date columns of the field table normalised again in table order. */
  function ReloadFields(cols: map<string, Value>, fs: seq<Field>): (r: Result<map<string, Value>>)
    ensures r.Ok? ==> r.value.Keys == cols.Keys
    decreases |fs|
  {
    if fs == [] then Ok(cols)
    else if fs[0].kind == DateKind && fs[0].column in cols then
      match ReloadDate(cols[fs[0].column])
      case Err(err) => Err(err)
      case Ok(v) => ReloadFields(cols[fs[0].column := v], fs[1..])
    else ReloadFields(cols, fs[1..])
  }

  /** Every date column of the table holds a normal date. */
  predicate NormalDates(cols: map<string, Value>, fs: seq<Field>) {
    forall k | 0 <= k < |fs| && fs[k].kind == DateKind && fs[k].column in cols :: NormalDate(cols[fs[k].column])
  }

  /** Reloading columns whose dates are normal gives them back unchanged. */
  lemma {:induction false} ReloadNormal(cols: map<string, Value>, fs: seq<Field>)
    requires NormalDates(cols, fs)
    ensures ReloadFields(cols, fs) == Ok(cols)
    decreases |fs|
  {
    if fs != [] {
      assert forall k | 0 < k < |fs| :: fs[1..][k - 1] == fs[k];
      if fs[0].kind == DateKind && fs[0].column in cols {
        assert cols[fs[0].column := cols[fs[0].column]] == cols;
      }
      ReloadNormal(cols, fs[1..]);
    }
  }

  /** The item rows whose ext_kod equals the given stored code; a NULL code matches none. */
  function ItemsOfCode(rows: seq<ItemRow>, kod: Value): (r: seq<ItemRow>)
    ensures forall x :: x in r <==> x in rows && kod == Str(x.extKod)
    decreases |rows|
  {
    if rows == [] then []
    else
      var front := rows[..|rows| - 1];
      var last := rows[|rows| - 1];
      assert rows == front + [last];
      ItemsOfCode(front, kod) + (if kod == Str(last.extKod) then [last] else [])
  }

  /** The stored code of an invoice row, by which its items are found. */
  function KodOf(row: InvoiceRow): Value {
    if "kod" in row.columns then row.columns["kod"] else Null
  }

  /** One item row read back. */
  function LoadItem(row: ItemRow, itemFields: seq<Field>): (r: Result<Item>)
    ensures r.Ok? ==> r.value.id == row.id && r.value.extKod == row.extKod && r.value.extKodK == row.extKodK
  {
    match ReloadFields(row.columns, itemFields)
    case Err(err) => Err(err)
    case Ok(fields) => Ok(Item(row.id, row.extKod, row.extKodK, fields))
  }

  function LoadItems(rows: seq<ItemRow>, itemFields: seq<Field>): (r: Result<seq<Item>>)
    ensures r.Ok? ==> |r.value| == |rows|
    decreases |rows|
  {
    if rows == [] then Ok([])
    else
      match LoadItems(rows[..|rows| - 1], itemFields)
      case Err(err) => Err(err)
      case Ok(items) =>
        match LoadItem(rows[|rows| - 1], itemFields)
        case Err(err) => Err(err)
        case Ok(item) => Ok(items + [item])
  }

  /** One invoice row read back: first its items, then its own columns. */
  function LoadInvoice(t: Tables, row: InvoiceRow, schema: Schema): (r: Result<Invoice>)
    ensures r.Ok? ==> r.value.extId == Some(row.extId) && r.value.id == Some(row.id)
    ensures r.Ok? ==> |r.value.items| == |ItemsOfCode(t.items, KodOf(row))|
  {
    match LoadItems(ItemsOfCode(t.items, KodOf(row)), schema.item)
    case Err(err) => Err(err)
    case Ok(items) =>
      match ReloadFields(row.columns, schema.header)
      case Err(err) => Err(err)
      case Ok(fields) => Ok(Invoice(Some(row.extId), Some(row.id), fields, items))
  }

  function LoadRows(t: Tables, rows: seq<InvoiceRow>, schema: Schema): (r: Result<seq<Invoice>>)
    ensures r.Ok? ==> |r.value| == |rows|
    decreases |rows|
  {
    if rows == [] then Ok([])
    else
      match LoadRows(t, rows[..|rows| - 1], schema)
      case Err(err) => Err(err)
      case Ok(done) =>
        match LoadInvoice(t, rows[|rows| - 1], schema)
        case Err(err) => Err(err)
        case Ok(inv) => Ok(done + [inv])
  }

  /** load_invoices: every invoice row, in insertion order. */
  function Load(t: Tables, schema: Schema): (r: Result<seq<Invoice>>)
    ensures r.Ok? ==> |r.value| == |t.invoices|
  {
    LoadRows(t, t.invoices, schema)
  }

  /** Every stored date of both tables is normal. */
  predicate NormalTables(t: Tables, schema: Schema) {
    && (forall k | 0 <= k < |t.invoices| :: NormalDates(t.invoices[k].columns, schema.header))
    && (forall k | 0 <= k < |t.items| :: NormalDates(t.items[k].columns, schema.item))
  }

  /** The invoices the rows read back as when their dates are normal. */
  function RestoredAll(t: Tables, rows: seq<InvoiceRow>): (r: seq<Invoice>)
    ensures |r| == |rows|
    decreases |rows|
  {
    if rows == [] then [] else RestoredAll(t, rows[..|rows| - 1]) + [Restored(t, rows[|rows| - 1])]
  }

  /** The invoice a row reads back as when its dates are normal: its keys, its columns, and the rows of its items. */
  function Restored(t: Tables, row: InvoiceRow): Invoice {
    Invoice(Some(row.extId), Some(row.id), row.columns, RestoredItems(ItemsOfCode(t.items, KodOf(row))))
  }

  function RestoredItems(rows: seq<ItemRow>): (r: seq<Item>)
    ensures |r| == |rows|
    ensures forall k | 0 <= k < |rows| :: r[k] == Item(rows[k].id, rows[k].extKod, rows[k].extKodK, rows[k].columns)
  {
    seq(|rows|, k requires 0 <= k < |rows| => Item(rows[k].id, rows[k].extKod, rows[k].extKodK, rows[k].columns))
  }

  lemma {:induction false} LoadItemsNormal(rows: seq<ItemRow>, itemFields: seq<Field>)
    requires forall k | 0 <= k < |rows| :: NormalDates(rows[k].columns, itemFields)
    ensures LoadItems(rows, itemFields) == Ok(RestoredItems(rows))
    decreases |rows|
  {
    if rows != [] {
      var front := rows[..|rows| - 1];
      assert forall k | 0 <= k < |front| :: front[k] == rows[k];
      LoadItemsNormal(front, itemFields);
      ReloadNormal(rows[|rows| - 1].columns, itemFields);
      assert RestoredItems(rows) == RestoredItems(front) + [RestoredItems(rows)[|rows| - 1]];
    }
  }

  /** With normal dates, every row reads back as its restored invoice. */
  lemma {:induction false} LoadRowsNormal(t: Tables, rows: seq<InvoiceRow>, schema: Schema)
    requires NormalTables(t, schema)
    requires forall k | 0 <= k < |rows| :: NormalDates(rows[k].columns, schema.header)
    ensures LoadRows(t, rows, schema) == Ok(RestoredAll(t, rows))
    decreases |rows|
  {
    if rows != [] {
      var front := rows[..|rows| - 1];
      var last := rows[|rows| - 1];
      assert forall k | 0 <= k < |front| :: front[k] == rows[k];
      LoadRowsNormal(t, front, schema);
      var mine := ItemsOfCode(t.items, KodOf(last));
      forall k | 0 <= k < |mine| ensures NormalDates(mine[k].columns, schema.item) {
        assert mine[k] in t.items;
      }
      LoadItemsNormal(mine, schema.item);
      ReloadNormal(last.columns, schema.header);
      assert LoadInvoice(t, last, schema) == Ok(Restored(t, last));
    }
  }

  /** Loading tables whose dates are normal cannot fail, and gives back each row's keys, columns and joined items. */
  lemma LoadNormal(t: Tables, schema: Schema)
    requires NormalTables(t, schema)
    ensures Load(t, schema) == Ok(RestoredAll(t, t.invoices))
  {
    LoadRowsNormal(t, t.invoices, schema);
  }

  /** The dates of a batch are normal. */
  predicate NormalBatch(batch: seq<Invoice>, schema: Schema) {
    forall k | 0 <= k < |batch| ::
      && NormalDates(batch[k].fields, schema.header)
      && forall j | 0 <= j < |batch[k].items| :: NormalDates(batch[k].items[j].fields, schema.item)
  }

  /** Syncing a batch with normal dates into tables with normal dates keeps them normal. */
  lemma {:induction false} SyncKeepsNormal(t: Tables, batch: seq<Invoice>, schema: Schema)
    requires Keyed(batch) && NormalTables(t, schema) && NormalBatch(batch, schema)
    ensures NormalTables(SyncAll(t, batch), schema)
    decreases |batch|
  {
    if batch != [] {
      var front := batch[..|batch| - 1];
      assert forall j | 0 <= j < |front| :: front[j] == batch[j];
      SyncKeepsNormal(t, front, schema);
      var s := SyncAll(t, front);
      var inv := batch[|batch| - 1];
      if !HasExtId(s.invoices, inv.extId.value) {
        var cols := StoredColumns(inv);
        forall k | 0 <= k < |schema.header| && schema.header[k].kind == DateKind && schema.header[k].column in cols
          ensures NormalDate(cols[schema.header[k].column])
        {
          var c := schema.header[k].column;
          if c in inv.fields {
            assert cols[c] == inv.fields[c];
          }
        }
        var r := SyncAll(t, batch);
        assert r.invoices == s.invoices + [InvoiceRow(inv.extId.value, inv.id.value, cols)];
        forall k | 0 <= k < |r.invoices| ensures NormalDates(r.invoices[k].columns, schema.header) {
          if k < |s.invoices| {
            assert r.invoices[k] == s.invoices[k];
          }
        }
        assert forall j | 0 <= j < |inv.items| :: NormalDates(inv.items[j].fields, schema.item);
        InsertItemsNormal(s.items, inv.items, schema.item);
        assert r.items == InsertItems(s.items, inv.items);
      }
    }
  }

  lemma {:induction false} InsertItemsNormal(rows: seq<ItemRow>, items: seq<Item>, itemFields: seq<Field>)
    requires forall k | 0 <= k < |rows| :: NormalDates(rows[k].columns, itemFields)
    requires forall j | 0 <= j < |items| :: NormalDates(items[j].fields, itemFields)
    ensures forall k | 0 <= k < |InsertItems(rows, items)| :: NormalDates(InsertItems(rows, items)[k].columns, itemFields)
    decreases |items|
  {
    if items != [] {
      var front := items[..|items| - 1];
      assert forall j | 0 <= j < |front| :: front[j] == items[j];
      InsertItemsNormal(rows, front, itemFields);
      var before := InsertItems(rows, front);
      var r := InsertItems(rows, items);
      assert r == InsertItem(before, items[|items| - 1]);
      forall k | 0 <= k < |r| ensures NormalDates(r[k].columns, itemFields) {
        if k < |before| {
          assert r[k] == before[k];
          assert NormalDates(before[k].columns, itemFields);
        } else {
          var item := items[|items| - 1];
          assert k == |before| && r[k] == ItemRowOf(item);
          assert r[k].columns == item.fields;
          assert NormalDates(item.fields, itemFields);
        }
      }
    }
  }

  /** A date read from the source is NULL or already normal. */
  lemma LeafDateNormal(tag: string, e: Element)
    requires Leaf(tag, DateKind, e).Ok?
    ensures NormalDate(Leaf(tag, DateKind, e).value)
  {
    if GetDate(tag, e).value.Some? {
      GetDateNormal(tag, e);
    }
  }

  /** With distinct columns, every date column of a record read from the source is normal. */
  lemma ReadFieldsNormal(e: Element, fs: seq<Field>)
    requires DistinctColumns(fs) && ReadFields(e, fs).Ok?
    ensures NormalDates(ReadFields(e, fs).value, fs)
  {
    ReadFieldsOk(e, fs);
    forall k | 0 <= k < |fs| && fs[k].kind == DateKind
      ensures NormalDate(ReadFields(e, fs).value[fs[k].column])
    {
      assert FirstOccurrence(fs, k);
      LeafDateNormal(fs[k].tag, e);
    }
  }

  lemma {:induction false} ReadItemsNormal(cs: seq<Element>, fs: seq<Field>)
    requires DistinctColumns(fs) && ReadItems(cs, fs).Ok?
    ensures forall j | 0 <= j < |ReadItems(cs, fs).value| :: NormalDates(ReadItems(cs, fs).value[j].fields, fs)
    decreases |cs|
  {
    if cs != [] {
      var front := cs[..|cs| - 1];
      var child := cs[|cs| - 1];
      ReadItemsNormal(front, fs);
      var r := ReadItem(child, fs);
      if r.value.Some? {
        ReadFieldsNormal(child, fs);
      }
    }
  }

  /** With distinct columns in both tables, every invoice parsed from the source has normal dates. */
  lemma ParsedBatchNormal(es: seq<Element>, schema: Schema)
    requires DistinctColumns(schema.header) && DistinctColumns(schema.item)
    requires ParseAll(es, schema).Ok?
    ensures NormalBatch(ParseAll(es, schema).value, schema)
  {
    var batch := ParseAll(es, schema).value;
    forall k | 0 <= k < |batch|
      ensures NormalDates(batch[k].fields, schema.header)
      ensures forall j | 0 <= j < |batch[k].items| :: NormalDates(batch[k].items[j].fields, schema.item)
    {
      ParseAllEach(es, schema, k);
      ReadFieldsNormal(es[k], schema.header);
      ReadItemsNormal(ItemElements(es[k]), schema.item);
    }
  }

  /**
   * Syncing a keyed batch with normal dates into tables with normal dates and loading them
   * back cannot fail: every stored row comes back with its keys, its columns as stored and the
   * items whose code it names.
   */
  lemma LoadAfterSync(t: Tables, batch: seq<Invoice>, schema: Schema)
    requires Keyed(batch) && NormalTables(t, schema) && NormalBatch(batch, schema)
    ensures Load(SyncAll(t, batch), schema) == Ok(RestoredAll(SyncAll(t, batch), SyncAll(t, batch).invoices))
  {
    SyncKeepsNormal(t, batch, schema);
    LoadNormal(SyncAll(t, batch), schema);
  }
}
