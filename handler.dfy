/**
 * The invoice handler: an object holding the parsed or loaded Abra invoices, the two
 * database tables and the migrated Pohoda invoices, whose methods parse an export, sync it
 * into the tables, load it back, migrate it and build the Pohoda dataPack. Each method does
 * its work loop by loop, as the handler does, and is proved to compute what the specification
 * functions of the parser, the store, the migration and the dataPack give.
 */
module Handler {
  import opened Wrappers
  import opened Xml
  import opened Text
  import opened AbraFields
  import Dates
  import AbraParser
  import InvoiceStore
  import Pohoda
  import Migration
  import DataPack

  // ---------------------------------------------------------------------------
  // Aborting early: once a prefix fails, the whole input fails the same way
  // ---------------------------------------------------------------------------

  lemma {:induction false} ItemIdsPrefixErr(ids: seq<Element>, n: nat)
    requires n <= |ids| && AbraParser.ReadItemIds(ids[..n]).Err?
    ensures AbraParser.ReadItemIds(ids) == AbraParser.ReadItemIds(ids[..n])
    decreases |ids| - n
  {
    if n == |ids| {
      assert ids[..n] == ids;
    } else {
      assert ids[..n + 1][..n] == ids[..n];
      ItemIdsPrefixErr(ids, n + 1);
    }
  }

  lemma {:induction false} ItemsPrefixErr(pre: seq<Element>, rest: seq<Element>, fs: seq<Field>)
    requires AbraParser.ReadItems(pre, fs).Err?
    ensures AbraParser.ReadItems(pre + rest, fs) == AbraParser.ReadItems(pre, fs)
    decreases |rest|
  {
    if rest == [] {
      assert pre + rest == pre;
    } else {
      var front := rest[..|rest| - 1];
      ItemsPrefixErr(pre, front, fs);
      assert (pre + rest)[..|pre + rest| - 1] == pre + front;
    }
  }

  lemma SliceAll<T>(xs: seq<T>)
    ensures xs[..|xs|] == xs
  {
  }

  lemma SyncAllStart(t: InvoiceStore.Tables, batch: seq<AbraParser.Invoice>)
    ensures InvoiceStore.Keyed(batch[..0]) && InvoiceStore.SyncAll(t, batch[..0]) == t
  {
    assert batch[..0] == [];
  }

  /** Syncing one more invoice of a keyed batch: the prefixes stay keyed and the next invoice is synced on top. */
  lemma SyncAllStep(t: InvoiceStore.Tables, batch: seq<AbraParser.Invoice>, k: nat)
    requires InvoiceStore.Keyed(batch) && k < |batch|
    ensures InvoiceStore.Keyed(batch[..k]) && InvoiceStore.Keyed(batch[..k + 1])
    ensures batch[k].extId.Some? && batch[k].id.Some?
    ensures InvoiceStore.SyncAll(t, batch[..k + 1]) == InvoiceStore.SyncInvoice(InvoiceStore.SyncAll(t, batch[..k]), batch[k])
  {
    assert batch[..k + 1][..k] == batch[..k];
    assert forall j | 0 <= j < k + 1 :: batch[..k + 1][j] == batch[j];
  }

  /** The children of the first i + 1 containers are those of the first i, then those of the next one. */
  lemma ChildrenOfSnoc(cs: seq<Element>, i: nat)
    requires i < |cs|
    ensures AbraParser.ChildrenOf(cs[..i + 1]) == AbraParser.ChildrenOf(cs[..i]) + cs[i].children
  {
    assert cs[..i + 1][..i] == cs[..i];
  }

  /** The children of a prefix of the containers begin the children of all of them. */
  lemma {:induction false} ChildrenOfPrefix(cs: seq<Element>, i: nat)
    requires i <= |cs|
    ensures AbraParser.ChildrenOf(cs[..i]) <= AbraParser.ChildrenOf(cs)
    decreases |cs| - i
  {
    if i == |cs| {
      assert cs[..i] == cs;
    } else {
      ChildrenOfSnoc(cs, i);
      ChildrenOfPrefix(cs, i + 1);
    }
  }

  /** An error at the j-th child of the i-th container is the error of the whole extraction. */
  lemma ItemsAbort(cs: seq<Element>, i: nat, j: nat, fs: seq<Field>)
    requires i < |cs| && j < |cs[i].children|
    requires AbraParser.ReadItems(AbraParser.ChildrenOf(cs[..i]) + cs[i].children[..j + 1], fs).Err?
    ensures AbraParser.ReadItems(AbraParser.ChildrenOf(cs), fs)
            == AbraParser.ReadItems(AbraParser.ChildrenOf(cs[..i]) + cs[i].children[..j + 1], fs)
  {
    var pre := AbraParser.ChildrenOf(cs[..i]) + cs[i].children[..j + 1];
    var all := AbraParser.ChildrenOf(cs);
    ChildrenOfSnoc(cs, i);
    ChildrenOfPrefix(cs, i + 1);
    assert pre <= AbraParser.ChildrenOf(cs[..i + 1]);
    assert all == pre + all[|pre|..];
    ItemsPrefixErr(pre, all[|pre|..], fs);
  }

  lemma {:induction false} ParseAllPrefixErr(es: seq<Element>, n: nat, schema: AbraParser.Schema)
    requires n <= |es| && AbraParser.ParseAll(es[..n], schema).Err?
    ensures AbraParser.ParseAll(es, schema) == AbraParser.ParseAll(es[..n], schema)
    decreases |es| - n
  {
    if n == |es| {
      assert es[..n] == es;
    } else {
      assert es[..n + 1][..n] == es[..n];
      ParseAllPrefixErr(es, n + 1, schema);
    }
  }

  /** One step of the parse loop: the parsed prefix grows by one invoice, or the whole parse fails. */
  lemma ParseStep(es: seq<Element>, i: nat, parsed: seq<AbraParser.Invoice>, inv: Result<AbraParser.Invoice>,
                  schema: AbraParser.Schema)
    requires i < |es| && AbraParser.ParseAll(es[..i], schema) == Ok(parsed) && inv == AbraParser.ParseInvoice(es[i], schema)
    ensures inv.Err? ==> AbraParser.ParseAll(es, schema) == Err(inv.error)
    ensures inv.Ok? ==> AbraParser.ParseAll(es[..i + 1], schema) == Ok(parsed + [inv.value])
  {
    assert es[..i + 1][..i] == es[..i];
    assert es[..i + 1][i] == es[i];
    if inv.Err? {
      ParseAllPrefixErr(es, i + 1, schema);
    }
  }

  /** A prefix of b after a grows by the next element of b. */
  lemma SliceSnoc<T>(a: seq<T>, b: seq<T>, j: nat)
    requires j <= |b|
    ensures a + b[..0] == a
    ensures j < |b| ==> a + b[..j + 1] == (a + b[..j]) + [b[j]]
  {
    assert b[..0] == [];
    if j < |b| {
      assert b[..j + 1] == b[..j] + [b[j]];
    }
  }

  /** One item element after the ones read so far: an error aborts, a dropped item adds nothing, a kept one is appended. */
  lemma ItemsSnoc(pre: seq<Element>, c: Element, fs: seq<Field>, items: seq<AbraParser.Item>,
                  item: Result<Option<AbraParser.Item>>)
    requires AbraParser.ReadItems(pre, fs) == Ok(items) && item == AbraParser.ReadItem(c, fs)
    ensures item.Err? ==> AbraParser.ReadItems(pre + [c], fs) == Err(item.error)
    ensures item.Ok? && item.value.None? ==> AbraParser.ReadItems(pre + [c], fs) == Ok(items)
    ensures item.Ok? && item.value.Some? ==> AbraParser.ReadItems(pre + [c], fs) == Ok(items + [item.value.value])
  {
    assert (pre + [c])[..|pre|] == pre;
    assert (pre + [c])[|pre|] == c;
  }

  lemma {:induction false} LoadRowsPrefixErr(t: InvoiceStore.Tables, rows: seq<InvoiceStore.InvoiceRow>, n: nat,
                                             schema: AbraParser.Schema)
    requires n <= |rows| && InvoiceStore.LoadRows(t, rows[..n], schema).Err?
    ensures InvoiceStore.LoadRows(t, rows, schema) == InvoiceStore.LoadRows(t, rows[..n], schema)
    decreases |rows| - n
  {
    if n == |rows| {
      assert rows[..n] == rows;
    } else {
      assert rows[..n + 1][..n] == rows[..n];
      LoadRowsPrefixErr(t, rows, n + 1, schema);
    }
  }

  /** One more row of the load loop: the loaded prefix grows by that row's invoice, or the load fails with its error. */
  lemma LoadRowsStep(t: InvoiceStore.Tables, rows: seq<InvoiceStore.InvoiceRow>, i: nat, loaded: seq<AbraParser.Invoice>,
                     schema: AbraParser.Schema)
    requires i < |rows| && InvoiceStore.LoadRows(t, rows[..i], schema) == Ok(loaded)
    ensures InvoiceStore.LoadInvoice(t, rows[i], schema).Err? ==>
              InvoiceStore.LoadRows(t, rows, schema) == Err(InvoiceStore.LoadInvoice(t, rows[i], schema).error)
    ensures InvoiceStore.LoadInvoice(t, rows[i], schema).Ok? ==>
              InvoiceStore.LoadRows(t, rows[..i + 1], schema) == Ok(loaded + [InvoiceStore.LoadInvoice(t, rows[i], schema).value])
  {
    assert rows[..i + 1][..i] == rows[..i];
    if InvoiceStore.LoadInvoice(t, rows[i], schema).Err? {
      LoadRowsPrefixErr(t, rows, i + 1, schema);
    }
  }

  /** The error the handler raises when asked to save before anything was migrated. */
  const NothingMigrated: Error := AttributeError("'NoneType' object has no attribute 'model_dump'")

  /** The invoices the migration gives are ones the dataPack can be built from. */
  lemma MigratedWellFormed(invs: seq<AbraParser.Invoice>)
    requires Migration.MigrateAll(invs).Ok?
    ensures DataPack.WellFormedInvoices(Migration.MigrateAll(invs).value)
  {
    var ms := Migration.MigrateAll(invs).value;
    forall k | 0 <= k < |ms| ensures Pohoda.WellFormedHeader(ms[k].invoiceHeader) {
      MapResultEach(invs, Migration.MigrateInvoice, k);
      Migration.MigrateInvoiceShape(invs[k]);
      Migration.MigrateHeaderDates(invs[k]);
    }
  }

  /**
   * Every migrated invoice can be packed: it has an item list and every item a stock item, so
   * building the dataPack from a migration that succeeded never fails.
   */
  lemma MigratedPackable(invs: seq<AbraParser.Invoice>, clock: DataPack.Clock)
    requires Migration.MigrateAll(invs).Ok? && Dates.ValidDateTime(clock.idTime)
    ensures DataPack.WellFormedInvoices(Migration.MigrateAll(invs).value)
    ensures DataPack.DataPackXml(Migration.MigrateAll(invs).value, clock).Ok?
  {
    var ms := Migration.MigrateAll(invs).value;
    MigratedWellFormed(invs);
    forall k | 0 <= k < |ms| ensures DataPack.Packable(ms[k]) {
      MapResultEach(invs, Migration.MigrateInvoice, k);
      Migration.MigrateInvoiceShape(invs[k]);
      var items := invs[k].items;
      var migrated := ms[k].invoiceDetail.invoiceItems.value;
      forall j | 0 <= j < |migrated| ensures migrated[j].stockItem.Some? {
        Migration.MigrateItemsEach(items, j);
      }
    }
    DataPack.DataPackOk(ms, clock);
  }

  // ---------------------------------------------------------------------------
  // The handler
  // ---------------------------------------------------------------------------

  class InvoiceHandler {
    /** The field tables the parser and the loader read by. */
    const schema: AbraParser.Schema
    /** self.invoices: the last parsed or loaded batch, None until there is one. */
    var invoices: Option<seq<AbraParser.Invoice>>
    /** The two tables of the database the handler is connected to. */
    var tables: InvoiceStore.Tables
    /** self.migrated: the last migrated batch, None until there is one. */
    var migrated: Option<seq<Pohoda.Invoice>>

    /** A handler connected to a database holding the given tables; nothing parsed or migrated yet. */
    constructor(stored: InvoiceStore.Tables)
      ensures schema == AbraParser.Abra
      ensures invoices == None && tables == stored && migrated == None
    {
      schema := AbraParser.Abra;
      invoices := None;
      tables := stored;
      migrated := None;
    }

    /** The ids of one item, read <id> by <id>; each overrides what the earlier ones set. */
    method ReadItemIds(child: Element) returns (r: Result<AbraParser.ItemIds>)
      ensures r == AbraParser.ReadItemIds(FindAll(child, "id"))
    {
      var ids := FindAll(child, "id");
      var slots := AbraParser.NoItemIds;
      for k := 0 to |ids|
        invariant AbraParser.ReadItemIds(ids[..k]) == Ok(slots)
      {
        assert ids[..k + 1][..k] == ids[..k];
        var next := AbraParser.ReadItemId(slots, ids[k]);
        if next.Err? {
          ItemIdsPrefixErr(ids, k + 1);
          return Err(next.error);
        }
        slots := next.value;
      }
      assert ids[..|ids|] == ids;
      return Ok(slots);
    }

    /** One item element: its ids, then, unless it is dropped for want of them, its fields. */
    method ReadItem(child: Element, fs: seq<Field>) returns (r: Result<Option<AbraParser.Item>>)
      ensures r == AbraParser.ReadItem(child, fs)
    {
      var ids := ReadItemIds(child);
      if ids.Err? {
        return Err(ids.error);
      }
      if !AbraParser.Kept(ids.value) {
        return Ok(None);
      }
      var fields := AbraParser.ReadFields(child, fs);
      if fields.Err? {
        return Err(fields.error);
      }
      return Ok(Some(AbraParser.Item(ids.value.id, ids.value.extKod, ids.value.extKodK.value, fields.value)));
    }

    /**
     * The items of an invoice: for every <polozkyFaktury> at any depth, for every child of it,
     * its ids, then (when it is kept) its fields; the first error aborts the extraction.
     */
    method ExtractItems(e: Element, fs: seq<Field>) returns (r: Result<seq<AbraParser.Item>>)
      ensures r == AbraParser.ReadItems(AbraParser.ItemElements(e), fs)
    {
      var containers := FindAllDeep(e, "polozkyFaktury");
      var items: seq<AbraParser.Item> := [];
      for i := 0 to |containers|
        invariant AbraParser.ReadItems(AbraParser.ChildrenOf(containers[..i]), fs) == Ok(items)
      {
        var children := containers[i].children;
        ghost var done := AbraParser.ChildrenOf(containers[..i]);
        SliceSnoc(done, children, 0);
        for j := 0 to |children|
          invariant AbraParser.ReadItems(done + children[..j], fs) == Ok(items)
        {
          var item := ReadItem(children[j], fs);
          SliceSnoc(done, children, j);
          ItemsSnoc(done + children[..j], children[j], fs, items, item);
          if item.Err? {
            ItemsAbort(containers, i, j, fs);
            return Err(item.error);
          }
          if item.value.None? {
            continue;
          }
          items := items + [item.value.value];
        }
        assert children[..|children|] == children;
        ChildrenOfSnoc(containers, i);
      }
      assert containers[..|containers|] == containers;
      return Ok(items);
    }

    /** from_xml: the two ids, read <id> by <id>, then the items, then the header fields. */
    method FromXml(e: Element) returns (r: Result<AbraParser.Invoice>)
      ensures r == AbraParser.ParseInvoice(e, schema)
    {
      var ids := FindAll(e, "id");
      var extId: Option<string> := None;
      var id: Option<string> := None;
      for k := 0 to |ids|
        invariant AbraParser.ReadInvoiceIds(ids[..k]) == AbraParser.InvoiceIds(extId, id)
      {
        assert ids[..k + 1][..k] == ids[..k];
        var text := AbraParser.IdText(ids[k]);
        if StartsWith(text, "ext:") {
          extId := Some(AfterLast(text, "ext:"));
        } else if StartsWith(text, "key:") {
          id := Some(AfterLast(text, "key:"));
        }
      }
      assert ids[..|ids|] == ids;
      var items := ExtractItems(e, schema.item);
      if items.Err? {
        return Err(items.error);
      }
      var fields := AbraParser.ReadFields(e, schema.header);
      if fields.Err? {
        return Err(fields.error);
      }
      return Ok(AbraParser.Invoice(extId, id, fields.value, items.value));
    }

    /** parse_invoices: every <faktura-vydana> of the document in order; on success they become the handler's invoices. */
    method ParseInvoices(root: Element) returns (r: Result<seq<AbraParser.Invoice>>)
      modifies this
      ensures r == AbraParser.ParseInvoices(root, schema)
      ensures invoices == (if r.Ok? then Some(r.value) else old(invoices))
      ensures tables == old(tables) && migrated == old(migrated)
    {
      var es := FindAllDeep(root, "faktura-vydana");
      var parsed: seq<AbraParser.Invoice> := [];
      for i := 0 to |es|
        invariant AbraParser.ParseAll(es[..i], schema) == Ok(parsed)
        invariant invoices == old(invoices) && tables == old(tables) && migrated == old(migrated)
      {
        var inv := FromXml(es[i]);
        ParseStep(es, i, parsed, inv, schema);
        if inv.Err? {
          return Err(inv.error);
        }
        parsed := parsed + [inv.value];
      }
      assert es[..|es|] == es;
      invoices := Some(parsed);
      return Ok(parsed);
    }

    /** The items of one new invoice: an item whose key or id is stored already is skipped. */
    method SyncItems(items: seq<AbraParser.Item>)
      modifies this
      ensures tables == old(tables).(items := InvoiceStore.InsertItems(old(tables).items, items))
      ensures invoices == old(invoices) && migrated == old(migrated)
    {
      for j := 0 to |items|
        invariant tables == old(tables).(items := InvoiceStore.InsertItems(old(tables).items, items[..j]))
        invariant invoices == old(invoices) && migrated == old(migrated)
      {
        assert items[..j + 1][..j] == items[..j];
        var item := items[j];
        if InvoiceStore.HasItemKey(tables.items, item.extKod, item.extKodK) {
          continue;
        }
        if !InvoiceStore.HasItemId(tables.items, item.id) {
          tables := tables.(items := tables.items + [InvoiceStore.ItemRowOf(item)]);
        }
      }
      assert items[..|items|] == items;
    }

    /**
     * sync_invoices: nothing without a batch; otherwise each invoice in order, skipped with
     * its items when its ext_id is stored, else inserted with its columns and then its items.
     */
    method SyncInvoices()
      requires invoices.Some? ==> InvoiceStore.Keyed(invoices.value)
      modifies this
      ensures invoices == old(invoices) && migrated == old(migrated)
      ensures tables == InvoiceStore.Sync(old(tables), invoices)
    {
      if invoices.None? {
        return;
      }
      var batch := invoices.value;
      SyncAllStart(old(tables), batch);
      for k := 0 to |batch|
        invariant InvoiceStore.Keyed(batch[..k])
        invariant tables == InvoiceStore.SyncAll(old(tables), batch[..k])
        invariant invoices == old(invoices) && migrated == old(migrated)
      {
        SyncAllStep(old(tables), batch, k);
        var inv := batch[k];
        if InvoiceStore.HasExtId(tables.invoices, inv.extId.value) {
          continue;
        }
        var row := InvoiceStore.InvoiceRow(inv.extId.value, inv.id.value, InvoiceStore.StoredColumns(inv));
        tables := tables.(invoices := tables.invoices + [row]);
        SyncItems(inv.items);
      }
      SliceAll(batch);
    }

    /**
     * load_invoices: every invoice row in order, each with the item rows of its code, every
     * stored date normalised again; on success they become the handler's invoices.
     */
    method LoadInvoices() returns (r: Result<seq<AbraParser.Invoice>>)
      modifies this
      ensures r == InvoiceStore.Load(tables, schema)
      ensures invoices == (if r.Ok? then Some(r.value) else old(invoices))
      ensures tables == old(tables) && migrated == old(migrated)
    {
      r := LoadAll(tables, schema);
      if r.Ok? {
        invoices := Some(r.value);
      }
    }

    /** The load loop: every invoice row in order, stopping at the first that cannot be read back. */
    static method LoadAll(t: InvoiceStore.Tables, sch: AbraParser.Schema) returns (r: Result<seq<AbraParser.Invoice>>)
      ensures r == InvoiceStore.Load(t, sch)
    {
      var rows := t.invoices;
      var loaded: seq<AbraParser.Invoice> := [];
      for i := 0 to |rows|
        invariant InvoiceStore.LoadRows(t, rows[..i], sch) == Ok(loaded)
      {
        var inv := LoadRow(t, rows[i], sch);
        LoadRowsStep(t, rows, i, loaded, sch);
        if inv.Err? {
          return Err(inv.error);
        }
        loaded := loaded + [inv.value];
      }
      assert rows[..|rows|] == rows;
      return Ok(loaded);
    }

    /** The body of the load loop: the item rows of the invoice's code, then its own columns, each date normalised again. */
    static method LoadRow(t: InvoiceStore.Tables, row: InvoiceStore.InvoiceRow, sch: AbraParser.Schema)
      returns (r: Result<AbraParser.Invoice>)
      ensures r == InvoiceStore.LoadInvoice(t, row, sch)
    {
      var items := InvoiceStore.LoadItems(InvoiceStore.ItemsOfCode(t.items, InvoiceStore.KodOf(row)), sch.item);
      if items.Err? {
        return Err(items.error);
      }
      var fields := InvoiceStore.ReloadFields(row.columns, sch.header);
      if fields.Err? {
        return Err(fields.error);
      }
      return Ok(AbraParser.Invoice(Some(row.extId), Some(row.id), fields.value, items.value));
    }

    /**
     * migrate_invoices: load the invoices, then migrate them one by one; on success they
     * become the handler's migrated invoices. The summary block is left as the corrected
     * migration has it.
     */
    method MigrateInvoices() returns (r: Result<seq<Pohoda.Invoice>>)
      modifies this
      ensures InvoiceStore.Load(tables, schema).Err? ==>
                r == Err(InvoiceStore.Load(tables, schema).error) && invoices == old(invoices) && migrated == old(migrated)
      ensures InvoiceStore.Load(tables, schema).Ok? ==>
                && invoices == Some(InvoiceStore.Load(tables, schema).value)
                && r == Migration.MigrateAll(InvoiceStore.Load(tables, schema).value)
                && migrated == (if r.Ok? then Some(r.value) else old(migrated))
      ensures tables == old(tables)
      ensures r.Ok? ==> Valid()
    {
      var loaded := LoadInvoices();
      if loaded.Err? {
        return Err(loaded.error);
      }
      var invs := loaded.value;
      var out: seq<Pohoda.Invoice> := [];
      for k := 0 to |invs|
        invariant MapResult(invs[..k], Migration.MigrateInvoice) == Ok(out)
        invariant invoices == Some(invs) && tables == old(tables) && migrated == old(migrated)
      {
        var m := Migration.MigrateInvoice(invs[k]);
        MapResultStep(invs, k, out, m, Migration.MigrateInvoice);
        if m.Err? {
          return Err(m.error);
        }
        out := out + [m.value];
      }
      MapResultDone(invs, out, Migration.MigrateInvoice);
      MigratedWellFormed(invs);
      migrated := Some(out);
      return Ok(out);
    }

    /** The migrated invoices, when there are any, are ones the dataPack can be built from. */
    predicate Valid()
      reads this
    {
      migrated.Some? ==> DataPack.WellFormedInvoices(migrated.value)
    }

    /**
     * save_migrated_invoices without the file: the dataPack of the migrated invoices, stamped
     * with the given clock; without migrated invoices the dump raises.
     */
    method SaveMigrated(clock: DataPack.Clock) returns (r: Result<Element>)
      requires Valid() && Dates.ValidDateTime(clock.idTime)
      ensures migrated.None? ==> r == Err(NothingMigrated)
      ensures migrated.Some? ==> r == DataPack.DataPackXml(migrated.value, clock)
    {
      if migrated.None? {
        return Err(NothingMigrated);
      }
      r := DataPack.BuildDataPack(migrated.value, clock);
    }
  }
}
