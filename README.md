# neven_cz: invoice migration and product translation, modelled in Dafny

The repository moves issued invoices from the Abra Flexi accounting system to the Pohoda
accounting system, and keeps translated product texts for the Upgates e-shop.

The invoice side is one class, `InvoiceHandler`, which runs four steps:

1. It reads the `faktura-vydana` elements of an Abra XML export into invoice records. Each record
   holds about 150 header fields and its items with about 95 fields each.
2. It syncs the records into two DuckDB tables, `invoices` and `invoice_items`. A row whose key
   is already stored is skipped.
3. It loads the rows back and migrates each one to a Pohoda invoice, built from pydantic models.
4. It renders the Pohoda invoices as a `dataPack` XML document whose text is limited to the
   Windows-1250 code page.

The product side has two parts:

- `ProductDb`, over the DuckDB product tables: it inserts products and per-language description
  rows, looks codes and ids up, stores a translation, and reads a product's core columns back.
- The pydantic-ai translation result, with its field validator and its two result validators.
  The validators send the language model back to retry when the target language is not
  allowed or a main text is blank.

The project has one Dafny module per component:

| module | what it covers |
|---|---|
| `Wrappers` | `Option`, `Result` and the Python exceptions |
| `Text` | `str.strip`, `split`, `join`, `lower` |
| `Numbers` | `int()`, `float()`, `str(int)`, `"{:.Nf}"` |
| `Dates` | the date normaliser and `datetime` text |
| `Xml` | an ElementTree element and `find`/`findall`/`findtext` |
| `Leaves` | the four leaf readers |
| `AbraFields` | the field tables of the record |
| `AbraParser` | the XML reader |
| `InvoiceStore` | the two invoice tables |
| `Vocabulary` | the code mappings |
| `Pohoda` | the target models |
| `Migration` | the migration step |
| `DataPack` | the XML writer |
| `Codepage` | cp1250 with `backslashreplace` |
| `Handler` | the handler class |
| `Translation` | the translation result and its validators |
| `ProductStore` | the product tables and `ProductDb` |

How the model represents the source:

- **Field tables.** The header and item fields of the Abra record are data tables. Each entry
  holds a column name, an XML tag and a reader kind, copied from the keyword arguments in the
  source. A record maps column names to values (`Leaves.Value`).
- **Tables.** An invoice table is a sequence of rows in insertion order.
- **Handler state.** The handler's `invoices`, `migrated` and connection state are fields of a
  Dafny class, updated by its methods.
- **Loops.** The parser's and the writer's loops are methods with invariants, proved equal to
  the functions that specify them.

## Model

| member | source | states |
|---|---|---|
| Text.Strip | modules/abra/abra/handlers.py:404-406 | the stripped text is no longer than the input and neither starts nor ends with whitespace |
| Text.StripIdempotent | modules/abra/abra/handlers.py:404-406 | stripping twice is stripping once |
| Text.StripEmptyIffAllSpace | modules/upgates/upgates/ai.py:169-185 | a text strips to empty exactly when it is all whitespace |
| Text.Split | modules/abra/abra/handlers.py:467-469 | `str.split` gives at least one part, and no part contains the separator |
| Text.JoinSplit | modules/upgates/upgates/db/duckdb_api.py:398 | joining the parts of a split with the same separator gives the text back |
| Text.AfterLast | modules/abra/abra/handlers.py:467 | `split(sep)[-1]` contains no separator, and is the whole text when there is none |
| Text.Lower | modules/upgates/upgates/db/duckdb_api.py:395 | the result has the input's length and no ASCII capital; each capital becomes its lower-case letter and every other character is kept |
| Text.LowerKeepsSpace | modules/upgates/upgates/ai.py:100 | lower-casing keeps whitespace where it is and is idempotent |
| Numbers.NatToString | modules/abra/abra/handlers.py:244 | `str(n)` is a digit string of value n with no leading zero |
| Numbers.IntToString | modules/abra/abra/handlers.py:469-470 | `str(i)` starts with a minus sign exactly for a negative number, and the rest are digits |
| Numbers.ZeroPad | modules/abra/abra/handlers.py:145 | a zero-padded field has exactly the width asked for and the value given |
| Numbers.ParseInt | modules/abra/abra/handlers.py:469 | `int()` raises on text that is empty after stripping, and a negative result needs a leading minus sign |
| Numbers.ParseFloat | modules/abra/abra/handlers.py:397-402 | `float()` raises on text that is empty after stripping, and a negative result needs a leading minus sign, an unsigned literal never being negative |
| Numbers.ParseIntOfIntToString | modules/abra/abra/handlers.py:469-470 | `int(str(i)) == i` for every integer |
| Numbers.ParseIntUnderscore | modules/abra/abra/handlers.py:470 | `int("1_000")` is 1000, as Python reads digit groups |
| Numbers.ParseIntRejectsDoubleUnderscore | modules/abra/abra/handlers.py:470 | `int("1__0")` raises |
| Numbers.DigitsValueInjective | modules/abra/abra/handlers.py:470 | two digit strings of one length with one value are equal |
| Numbers.FormatFixed | modules/abra/abra/handlers.py:319-320 | `"{:.Nf}"` text starts with a minus sign exactly for a negative number, and ends in a digit |
| Numbers.FormatFixedParsesBack | modules/abra/abra/handlers.py:319-320 | a number written with `"{:.Nf}"` reads back with `float()` within half a unit of the last place |
| Dates.DaysInMonth | modules/abra/abra/handlers.py:438 | the month lengths `strptime` checks, with 29 days in February exactly in Gregorian leap years |
| Dates.MatchDate | modules/abra/abra/handlers.py:436 | a match is the four-two-two digit pattern with optional dashes at the start of the text |
| Dates.MatchDateComplete | modules/abra/abra/handlers.py:436 | whenever the text starts with the pattern, the match finds exactly those groups |
| Dates.DateOfDigits | modules/abra/abra/handlers.py:438 | the groups give a date exactly when they name a real calendar day, at midnight; otherwise ValueError |
| Dates.Render | modules/abra/abra/handlers.py:444 | `%Y-%m-%dT%H:%M:%S` is 19 characters, the date text, `T`, then the time text |
| Dates.ParseDate | modules/abra/abra/handlers.py:408-448 | every failure is a ValueError, and a normalised date is 19 characters ending in `T00:00:00` |
| Dates.ParseDateBlank | modules/abra/abra/handlers.py:408-412 | missing or whitespace-only text is no date |
| Dates.ParseDateOutcome | modules/abra/abra/handlers.py:408-448 | a non-blank text is normalised exactly when its stripped form starts with a valid date; the result is that day at midnight; any failure is a ValueError |
| Dates.ParseDateOfRender | modules/abra/abra/handlers.py:436-448 | a normalised midnight text is its own normal form |
| Dates.ParseDateIdempotent | modules/abra/abra/handlers.py:408-448 | normalising a normalised date changes nothing |
| Dates.ParseDateOfMatch | modules/abra/abra/handlers.py:436-441 | a stripped text that matches the pattern normalises to the date of its groups, or raises that date's error |
| Dates.ParseDateDropsTime | modules/abra/abra/handlers.py:436-444 | "2024-03-15T10:00:00+01:00" normalises to midnight, "2024-03-15T00:00:00" |
| Dates.ParseDateCompact | modules/abra/abra/handlers.py:436 | "20240315" normalises to "2024-03-15T00:00:00" |
| Dates.LeapDayGroups | modules/abra/abra/handlers.py:438 | 29 February is refused in 2023 and accepted in 2024 |
| Dates.ParseDateLeapDay | modules/abra/abra/handlers.py:438 | "2023-02-29" raises |
| Dates.ParseDateRejectsText | modules/abra/abra/handlers.py:440-441 | text without a date raises ValueError |
| Dates.ParseIsoOfRender | modules/abra/abra/models/pohoda/__init__.py:109-112 | the `datetime` fields read a rendered date-time back as itself |
| Dates.RenderOfParseIso | modules/abra/abra/models/pohoda/__init__.py:109-112 | text the `datetime` fields accept is the rendering of what they read |
| Dates.ParseIsoDateTime | modules/abra/abra/models/pohoda/__init__.py:109-112 | a text the `datetime` fields accept reads as a valid date-time |
| Xml.WithTag | modules/abra/abra/handlers.py:589 | a selection by tag holds only elements with that tag, and exactly the given ones that have it |
| Xml.FindAll | modules/abra/abra/handlers.py:589 | `findall(tag)` holds exactly the direct children with that tag |
| Xml.FirstWithTag | modules/abra/abra/handlers.py:394 | the first child with a tag at or after a position, or none when there is none |
| Xml.FindText | modules/abra/abra/handlers.py:394 | `findtext` is None exactly when no child has the tag, otherwise the first such child's text or "" |
| Xml.FindAllDeep | modules/abra/abra/handlers.py:459 | `findall(".//tag")` holds exactly the descendants with that tag |
| Xml.FindAllInDeep | modules/abra/abra/handlers.py:459 | every direct child with the tag is also found by the deep search |
| Xml.DeepReachesGrandchildren | modules/abra/abra/handlers.py:459 | the deep search of a child is contained in the deep search of its parent |
| Xml.WithTagAppend | modules/abra/abra/handlers.py:589 | selecting by tag distributes over concatenation |
| Leaves.GetBool | modules/abra/abra/handlers.py:393-395 | true exactly when the first text is "true" or "1" ignoring ASCII case; missing or empty text is false |
| Leaves.GetFloat | modules/abra/abra/handlers.py:397-402 | a number exactly when the text exists and `float()` reads it; empty text and unreadable text are None |
| Leaves.GetText | modules/abra/abra/handlers.py:404-406 | None exactly for missing or empty text; otherwise the stripped text, empty only for whitespace |
| Leaves.GetDate | modules/abra/abra/handlers.py:450-455 | a missing tag raises AttributeError (`.strip()` on None); the other failures are ValueErrors |
| Leaves.GetDateIsParseDate | modules/abra/abra/handlers.py:450-455 | for a present tag the reader is the date normaliser of its text |
| Leaves.GetDateNormal | modules/abra/abra/handlers.py:450-455 | a date read from XML is already in normal form |
| Leaves.Leaf | modules/abra/abra/handlers.py:393-455 | only the date reader can fail; each other kind gives NULL exactly when its reader gives None |
| Leaves.GetBoolExamples | modules/abra/abra/handlers.py:393-395 | " true" is false (no strip) while "TRUE" and "1" are true |
| AbraFields.Columns | modules/abra/abra/handlers.py:484-585 | the columns of a field table are exactly the columns of its entries |
| AbraParser.ReadFields | modules/abra/abra/handlers.py:600-754 | reading a record's fields fills exactly the table's columns |
| AbraParser.ReadFieldsOk | modules/abra/abra/handlers.py:600-754 | after a successful read every field's reader succeeded, and each column holds its first field's value |
| AbraParser.ReadFieldsErr | modules/abra/abra/handlers.py:600-754 | a failed read is the error of the first field whose reader fails, all earlier ones having succeeded |
| AbraParser.ReadFieldsWithoutDates | modules/abra/abra/handlers.py:393-406 | a table without date fields can always be read |
| AbraParser.DecodeExtKod | modules/abra/abra/handlers.py:466-470 | an external item id decodes exactly when the text after the last colon has two dash parts and the second is an integer; the code is the first part, free of dashes and colons, and the counter is `int()` of the second part; failures are ValueErrors |
| AbraParser.DecodeExtKodOf | modules/abra/abra/handlers.py:466-470 | "ext:code-k" decodes to (code, k) |
| AbraParser.DecodeExtKodRejectsMissingCounter | modules/abra/abra/handlers.py:468 | a code without a counter raises "not enough values to unpack" |
| AbraParser.DecodeExtKodRejectsExtraPart | modules/abra/abra/handlers.py:468 | three dash parts raise "too many values to unpack" |
| AbraParser.DecodeExtKodRejectsBadCounter | modules/abra/abra/handlers.py:469 | a counter that is not an integer raises a ValueError |
| AbraParser.LastWhere | modules/abra/abra/handlers.py:465-472 | the last position satisfying a test, or none exactly when no position does |
| AbraParser.ReadItemId | modules/abra/abra/handlers.py:465-472 | one item id is read exactly when it has text and, if external, decodes; a textless id raises AttributeError |
| AbraParser.ReadItemIds | modules/abra/abra/handlers.py:465-472 | an item's ids are read exactly when every one is readable |
| AbraParser.ReadItemIdsLast | modules/abra/abra/handlers.py:465-472 | the internal id is the text of the last non-external id; the code and counter come from the last external id; each is empty when there is none |
| AbraParser.ItemIdsOfPair | modules/abra/abra/handlers.py:465-472 | the usual pair `ext:code-k` and a plain id reads as that code, counter and id |
| AbraParser.TextlessItemIdRaises | modules/abra/abra/handlers.py:466 | an item id without text raises AttributeError |
| AbraParser.ReadItem | modules/abra/abra/handlers.py:463-585 | an id error aborts; an item is dropped exactly when its code, counter or id is missing; a kept item carries its ids and its read fields |
| AbraParser.ItemElements | modules/abra/abra/handlers.py:459-461 | every child of every `polozkyFaktury` at any depth is an item element, and nothing else is |
| AbraParser.ReadItems | modules/abra/abra/handlers.py:457-585 | the kept items are at most the elements given, each with a code and an id |
| AbraParser.ReadItemsIsMap | modules/abra/abra/handlers.py:457-585 | the extraction raises exactly when reading the elements one after the other raises, with that error; otherwise it holds the kept readings in order |
| AbraParser.ReadItemsKept | modules/abra/abra/handlers.py:457-585 | a successful extraction read every element without error, and its items are, in order, the items kept from those readings |
| AbraParser.ReadItemsFails | modules/abra/abra/handlers.py:457-585 | the first element whose reading raises makes the whole extraction raise that error |
| AbraParser.ReadItemsAsWritten | modules/abra/abra/handlers.py:476-482 | as written, a successful extraction has at most one item per element, and `_` is still unbound only when no element had an id |
| AbraParser.AsWrittenAgrees | modules/abra/abra/handlers.py:476-482 | whenever the code as written succeeds, it returns what the corrected reader returns |
| AbraParser.IdlessItemCounterexample | modules/abra/abra/handlers.py:476-482 | a first item without ids raises UnboundLocalError as written, and is skipped by the corrected reader |
| AbraParser.MarkersExclusive | modules/abra/abra/handlers.py:594-597 | no invoice id starts with both "ext:" and "key:" |
| AbraParser.ReadInvoiceIds | modules/abra/abra/handlers.py:589-597 | an id slot stays None when no id carries its marker |
| AbraParser.ReadInvoiceIdsLast | modules/abra/abra/handlers.py:589-597 | the external and the internal invoice id are the text after the marker of the last id with that marker, or None |
| AbraParser.InvoiceIdsOfPair | modules/abra/abra/handlers.py:589-597 | the pair `ext:a`, `key:b` reads as (a, b) |
| AbraParser.ParseAll | modules/abra/abra/handlers.py:1036-1037 | a successful parse has one invoice per element |
| AbraParser.ParseAllEach | modules/abra/abra/handlers.py:1036-1037 | the k-th parsed invoice is the reading of the k-th element |
| AbraParser.ParseAllFails | modules/abra/abra/handlers.py:1036-1037 | one unreadable element fails the whole parse |
| AbraParser.ParseInvoice | modules/abra/abra/handlers.py:587-754 | an invoice is read exactly when its items and its header fields are; an item error is raised before any header error, and with the items read the header's first error is raised |
| AbraParser.ParsedInvoice | modules/abra/abra/handlers.py:587-754 | a parsed invoice has the ids of its id elements, the items `ReadItems` reads from its item elements (each with its keys, at most one per element), and the header fields `ReadFields` reads from it, one per column |
| AbraParser.ParseInvoices | modules/abra/abra/handlers.py:1030-1040 | one invoice per `faktura-vydana` anywhere in the document |
| InvoiceStore.StoredColumns | modules/abra/abra/handlers.py:1064-1240 | the stored columns are the invoice's fields plus three columns no reader fills, those left NULL |
| InvoiceStore.Keyed | modules/abra/abra/handlers.py:1048-1062 | every invoice of a batch has both keys, ext_id and id |
| InvoiceStore.InsertItem | modules/abra/abra/handlers.py:1243-1262 | an item row is appended exactly when neither its (ext_kod, ext_kod_k) nor its id is stored; nothing stored changes |
| InvoiceStore.InsertItems | modules/abra/abra/handlers.py:1243-1262 | inserting items only appends, at most one row per item, and afterwards every item is stored by its (ext_kod, ext_kod_k) or by its id |
| InvoiceStore.InsertItemsStep | modules/abra/abra/handlers.py:1243-1262 | in item order, each item appends exactly its own row when neither its (ext_kod, ext_kod_k) nor its id is in the rows before it, and otherwise nothing; later items only append |
| InvoiceStore.InsertItemsOrigin | modules/abra/abra/handlers.py:1243-1262 | every appended row is the row of one of the items |
| InvoiceStore.SyncInvoice | modules/abra/abra/handlers.py:1048-1262 | afterwards the ext_id is stored; an invoice already stored changes nothing, its items included; a new one appends its row and inserts its items into the item table |
| InvoiceStore.SyncAll | modules/abra/abra/handlers.py:1047-1301 | a sync only appends rows |
| InvoiceStore.Sync | modules/abra/abra/handlers.py:1042-1046 | no parsed batch leaves the tables as they are |
| InvoiceStore.SyncStoresAll | modules/abra/abra/handlers.py:1047-1062 | after a sync every invoice of the batch has a row |
| InvoiceStore.SyncAllStored | modules/abra/abra/handlers.py:1048-1052 | a batch whose invoices are all stored changes nothing |
| InvoiceStore.SyncIdempotent | modules/abra/abra/handlers.py:1042-1301 | syncing the same batch twice is syncing it once |
| InvoiceStore.InsertItemsUnique | modules/abra/abra/handlers.py:1243-1262 | item keys and ids stay unique |
| InvoiceStore.SyncAllUnique | modules/abra/abra/handlers.py:1047-1301 | ext_ids, item keys and item ids stay unique across a sync |
| InvoiceStore.ReloadDate | modules/abra/abra/handlers.py:1309-1568 | reloading a normal date gives it back; a reloaded date is normal |
| InvoiceStore.ReloadFields | modules/abra/abra/handlers.py:1309-1568 | reloading keeps exactly the row's columns |
| InvoiceStore.ReloadNormal | modules/abra/abra/handlers.py:1309-1568 | a row whose dates are normal reloads unchanged |
| InvoiceStore.ItemsOfCode | modules/abra/abra/handlers.py:1309 | the invoice's items are exactly the item rows whose ext_kod equals the invoice's `kod` column (NULL matches none) |
| InvoiceStore.LoadItem | modules/abra/abra/handlers.py:1311-1410 | a loaded item keeps the row's id, ext_kod and ext_kod_k |
| InvoiceStore.LoadItems | modules/abra/abra/handlers.py:1309-1410 | one item per item row |
| InvoiceStore.LoadInvoice | modules/abra/abra/handlers.py:1308-1568 | a loaded invoice has the row's two keys and one item per matching item row |
| InvoiceStore.LoadRows | modules/abra/abra/handlers.py:1308-1568 | one invoice per invoice row |
| InvoiceStore.Load | modules/abra/abra/handlers.py:1303-1572 | one invoice per stored invoice |
| InvoiceStore.LoadItemsNormal | modules/abra/abra/handlers.py:1311-1410 | item rows with normal dates load as their stored values |
| InvoiceStore.LoadRowsNormal | modules/abra/abra/handlers.py:1308-1568 | invoice rows with normal dates load as their stored values and matching items |
| InvoiceStore.LoadNormal | modules/abra/abra/handlers.py:1303-1572 | tables whose dates are normal load as exactly their rows |
| InvoiceStore.SyncKeepsNormal | modules/abra/abra/handlers.py:1042-1301 | a sync of normal invoices keeps the tables' dates normal |
| InvoiceStore.InsertItemsNormal | modules/abra/abra/handlers.py:1243-1262 | inserting normal items keeps item dates normal |
| InvoiceStore.ReadItemsNormal | modules/abra/abra/handlers.py:457-585 | items read from XML have normal dates |
| InvoiceStore.ParsedBatchNormal | modules/abra/abra/handlers.py:1030-1040 | a parsed batch has normal dates |
| InvoiceStore.LoadAfterSync | modules/abra/abra/handlers.py:1042-1572 | after syncing a normal batch, loading succeeds and gives back exactly the stored rows |
| Vocabulary.MapInvoiceType | modules/abra/abra/handlers.py:86-97 | every document type maps to "issuedInvoice" |
| Vocabulary.MapPaymentType | modules/abra/abra/handlers.py:99-108 | "card" exactly for "code:KARTA", otherwise "transfer" |
| Vocabulary.RateClass | modules/abra/abra/handlers.py:110-133 | "low" exactly within 0.01 of 10 or 15, "high" exactly within 0.01 of 21 or 23, otherwise "none" |
| Vocabulary.RateValue | modules/abra/abra/handlers.py:120-123 | the value `float()` reads from a stored rate text |
| Vocabulary.MapRateVAT | modules/abra/abra/handlers.py:110-133 | the class is always "high", "low" or "none" |
| Vocabulary.RateClassExamples | modules/abra/abra/handlers.py:112-118 | 21 and 23 are high, 10 and 15 low, 0, 12 and no rate none |
| Vocabulary.MapRateVATOfStored | modules/abra/abra/handlers.py:110-133 | the text of 21.0 is high and the text "None" is none |
| Vocabulary.DateToStr | modules/abra/abra/handlers.py:78-84 | empty exactly for no date, otherwise ten characters |
| Vocabulary.DateToStrParsesBack | modules/abra/abra/handlers.py:78-84 | the written date normalises back to midnight of that day |
| Pohoda.AsText | modules/abra/abra/models/pohoda/__init__.py:80-95 | a `str` field accepts exactly text, else a ValidationError of that field |
| Pohoda.AsOptText | modules/abra/abra/models/pohoda/__init__.py:88-95 | an `Optional[str]` field accepts text or None, NULL giving None |
| Pohoda.AsNumber | modules/abra/abra/models/pohoda/__init__.py:126-127 | a `float` field accepts exactly a number |
| Pohoda.AsDate | modules/abra/abra/models/pohoda/__init__.py:109-112 | a `datetime` field accepts exactly a date-time text, read as a valid date-time that renders as the text |
| Pohoda.AsOptDate | modules/abra/abra/models/pohoda/__init__.py:111 | an `Optional[datetime]` field accepts NULL or a date-time text |
| Pohoda.MakePaymentType | modules/abra/abra/models/pohoda/__init__.py:80-81 | built exactly from text, which it keeps |
| Pohoda.MakeAddress | modules/abra/abra/models/pohoda/__init__.py:84-95 | built exactly when the four required texts are texts and the optional ones text or NULL; unset fields stay None; a NULL company fails on "company" |
| Pohoda.MakeHeader | modules/abra/abra/models/pohoda/__init__.py:103-123 | built exactly when every required field has its type and every optional one its type or NULL; holds the values passed and None for the defaults; its dates are valid |
| Pohoda.MakeHomeCurrency | modules/abra/abra/models/pohoda/__init__.py:126-127 | built exactly from a number |
| Pohoda.MakeStockItem | modules/abra/abra/models/pohoda/__init__.py:134-135 | built from text or NULL, which it keeps |
| Pohoda.MakeItem | modules/abra/abra/models/pohoda/__init__.py:138-148 | built exactly when text is a text, quantity a number and note, code and unit text or NULL; no foreign currency |
| Pohoda.MakeSummaryHome | modules/abra/abra/models/pohoda/__init__.py:155-159 | built exactly from four numbers |
| Pohoda.MakeSummaryAsWritten | modules/abra/abra/models/pohoda/__init__.py:171-174 | as declared, a summary is built exactly when a foreign currency is given |
| Pohoda.MakeSummary | modules/abra/abra/models/pohoda/__init__.py:171-174 | with the foreign currency optional, a summary is always built and holds what was passed |
| Migration.Column | modules/abra/abra/handlers.py:1579-1652 | a column the record lacks reads as NULL |
| Migration.Truthy | modules/abra/abra/handlers.py:1633 | NULL is falsy |
| Migration.RateTextOf | modules/abra/abra/handlers.py:1634 | `str()` of a stored rate is a float text |
| Migration.PayVATOfRate | modules/abra/abra/handlers.py:1633-1634 | payVAT is true exactly for a nonzero rate, and the rate text reads back as the stored rate |
| Migration.MigrateItem | modules/abra/abra/handlers.py:1626-1637 | an item migrates exactly when its price and quantity are numbers, its name text and its note, code and unit text or NULL; the fields come from the columns named in the source |
| Migration.MigrateItems | modules/abra/abra/handlers.py:1626-1637 | one target item per stored item |
| Migration.MigrateItemsEach | modules/abra/abra/handlers.py:1626-1637 | the k-th target item is the migration of the k-th stored item |
| Migration.MigrateItemsFails | modules/abra/abra/handlers.py:1626-1637 | the items migrate exactly when each one does |
| Migration.MigrateHeader | modules/abra/abra/handlers.py:1579-1624 | a header failure is a ValidationError |
| Migration.MigrateHeaderOk | modules/abra/abra/handlers.py:1579-1624 | the header migrates exactly when the payment column is text and the partner and header columns have their types |
| Migration.MigrateHeaderRoles | modules/abra/abra/handlers.py:1581-1603 | the issuer is the fixed company identity; the partner's address, number, order number, pairing symbol and symbols come from the columns named in the source |
| Migration.MigrateHeaderDates | modules/abra/abra/handlers.py:1603-1607 | the issue date is `dat_vyst` and is also the order date; the tax, due and accounting dates come from `duzp_puv`, `dat_splat` and `dat_ucto` |
| Migration.SummaryHomeOf | modules/abra/abra/handlers.py:1642-1647 | the home-currency totals are built exactly from four numeric sum columns, which they keep |
| Migration.MigrateInvoiceAsWritten | modules/abra/abra/handlers.py:1642-1657 | as written, migration never succeeds: it fails on the header or items, or else on the undefined summary class |
| Migration.MigrateInvoiceShape | modules/abra/abra/handlers.py:1579-1661 | corrected, an invoice migrates exactly when header, items and totals do; it is version 2.0 with the migrated header, all items and a summary without a foreign currency |
| Migration.AsWrittenAgreesUntilSummary | modules/abra/abra/handlers.py:1642-1661 | the code as written and the corrected migration fail alike before the summary, and the code as written fails wherever the corrected one succeeds |
| Migration.DeclaredSummaryRefusesMigration | modules/abra/abra/handlers.py:1649-1652 | with the declared summary model, the summary the migration builds is refused for missing foreignCurrency |
| Migration.MigrateAllAsWritten | modules/abra/abra/handlers.py:1574-1664 | as written, migrate_invoices succeeds exactly for an empty store |
| Migration.MigrateAll | modules/abra/abra/handlers.py:1574-1664 | corrected, one Pohoda invoice per loaded invoice |
| Migration.MigrateAllEach | modules/abra/abra/handlers.py:1574-1664 | the k-th Pohoda invoice is the migration of the k-th loaded one and is issued by the fixed identity |
| DataPack.OptNode | modules/abra/abra/handlers.py:279-284 | an optional element is written exactly for a non-empty value, with that text |
| DataPack.OptDateNode | modules/abra/abra/handlers.py:206-209 | an optional date element is written exactly when the date is given |
| DataPack.FirstPositiveRateFrom | modules/abra/abra/handlers.py:227-238 | the rate of the first item whose rate reads as a positive number, or none exactly when no item has one |
| DataPack.FindRate | modules/abra/abra/handlers.py:227-238 | the found_rate loop finds exactly that first positive rate |
| DataPack.RateIds | modules/abra/abra/handlers.py:244 | `str(int(rate))` is the integer part of a positive rate |
| DataPack.ClassificationNode | modules/abra/abra/handlers.py:240-247 | the classification element is written exactly when a rate was found |
| DataPack.AddressChildren | modules/abra/abra/handlers.py:261-284 | company, city, street and zip first, then ico and dic when present; no phone or e-mail element |
| DataPack.OptDateText | modules/abra/abra/handlers.py:199-212 | a given date has non-empty text |
| DataPack.ItemNode | modules/abra/abra/handlers.py:301-353 | an item element fails exactly for an item without a stock item |
| DataPack.HeaderNode | modules/abra/abra/handlers.py:170-298 | the header is an `inv:invoiceHeader` element whose only classification children are the one written for the found rate |
| DataPack.StampText | modules/abra/abra/handlers.py:145 | the `%Y%m%d%H%M%S` stamp is fourteen digits |
| DataPack.SanitizeText | modules/abra/abra/handlers.py:379 | a text stays present or absent |
| DataPack.SanitizeAttributes | modules/abra/abra/handlers.py:379 | attributes keep their number |
| DataPack.SanitizeTree | modules/abra/abra/handlers.py:379 | the code-page pass keeps the tree's shape |
| DataPack.SanitizedInCodePage | modules/abra/abra/handlers.py:379 | after the pass every text and attribute fits the code page |
| DataPack.SanitizeTreeFixed | modules/abra/abra/handlers.py:379 | a tree that fits the code page is unchanged |
| DataPack.SanitizeTreeIdempotent | modules/abra/abra/handlers.py:379 | the pass is idempotent |
| DataPack.PackItem | modules/abra/abra/handlers.py:153-353 | an invoice's dataPackItem is built only when it has an item list; every failure is a TypeError |
| DataPack.DataPackTree | modules/abra/abra/handlers.py:143-353 | the dataPack element holds one child per invoice |
| DataPack.DataPackXml | modules/abra/abra/handlers.py:135-381 | the document is built exactly when its tree is; it then holds one child per invoice and every tag, attribute and text fits cp1250 |
| DataPack.BuildItemNodes | modules/abra/abra/handlers.py:301-353 | the item loop builds the item elements in order, failing at the first bad item |
| DataPack.BuildPackItem | modules/abra/abra/handlers.py:153-353 | the loop body builds one invoice's dataPackItem |
| DataPack.BuildPackItems | modules/abra/abra/handlers.py:153-353 | the invoice loop builds one dataPackItem per invoice, in order |
| DataPack.BuildDataPack | modules/abra/abra/handlers.py:135-381 | build_data_pack builds the specified document |
| DataPack.PackItemShape | modules/abra/abra/handlers.py:153-353 | a dataPackItem is built exactly for an invoice whose items all have stock items; it carries the invoice number, the header with the found rate, and one item element per item in order; otherwise TypeError |
| DataPack.PackItemsInOrder | modules/abra/abra/handlers.py:153-164 | the k-th dataPackItem is the k-th invoice's |
| DataPack.DataPackOk | modules/abra/abra/handlers.py:135-381 | the document is built exactly when every invoice is packable |
| DataPack.TagFreeSelect | modules/abra/abra/handlers.py:240-245 | selecting a tag absent from a list selects nothing |
| DataPack.ClassificationFound | modules/abra/abra/handlers.py:240-245 | the header holds exactly the classification element, if one was written |
| DataPack.ClassificationSelect | modules/abra/abra/handlers.py:240-245 | the classification element is selected by its tag |
| DataPack.ClassificationPresent | modules/abra/abra/handlers.py:227-245 | the header has a classification exactly when some item has a positive rate, at most one, holding the integer part of the first such rate |
| Codepage.DecodeByteTable | modules/abra/abra/handlers.py:380 | bytes below 0x80 decode as ASCII, others through the cp1250 table, undefined ones to nothing |
| Codepage.AllInCodePageAppend | modules/abra/abra/handlers.py:380 | text of code-page characters stays so under concatenation |
| Codepage.EncodeChar | modules/abra/abra/handlers.py:380 | a character encodes exactly when it is in the code page, to a byte that decodes back to it |
| Codepage.Hex | modules/abra/abra/handlers.py:380 | the hex digits of an escape have the width asked for and are ASCII |
| Codepage.ReadHexOfHex | modules/abra/abra/handlers.py:380 | hex digits read back as the number written |
| Codepage.Escape | modules/abra/abra/handlers.py:380 | a backslash escape is ASCII and starts with a backslash |
| Codepage.ReadEscapeOfEscape | modules/abra/abra/handlers.py:380 | every escape reads back as its character |
| Codepage.Replace | modules/abra/abra/handlers.py:380 | a code-page character is kept, any other becomes its escape; the result fits the code page |
| Codepage.Sanitize | modules/abra/abra/handlers.py:380 | the result fits the code page and is no shorter than the input |
| Codepage.EncodeReplaced | modules/abra/abra/handlers.py:380 | code-page text encodes byte for byte, each byte decoding to its character |
| Codepage.Encode | modules/abra/abra/handlers.py:380 | `encode("cp1250", "backslashreplace")` writes at least one byte per character |
| Codepage.Decode | modules/abra/abra/handlers.py:380 | a decoded text has one character per byte |
| Codepage.DecodeAppend | modules/abra/abra/handlers.py:380 | decoding distributes over concatenation |
| Codepage.DecodeReplaced | modules/abra/abra/handlers.py:380 | encoding code-page text and decoding gives it back |
| Codepage.TranscodeIsSanitize | modules/abra/abra/handlers.py:380 | `encode("cp1250", "backslashreplace").decode("cp1250")` never fails and equals the character-wise replacement |
| Codepage.Transcode | modules/abra/abra/handlers.py:380 | the encode/decode round trip never shortens the text |
| Codepage.SanitizeAppend | modules/abra/abra/handlers.py:380 | the replacement distributes over concatenation |
| Codepage.SanitizeFixed | modules/abra/abra/handlers.py:380 | a text is unchanged exactly when it fits the code page |
| Codepage.SanitizeIdempotent | modules/abra/abra/handlers.py:380 | the pass is idempotent |
| Codepage.CodepageMembers | modules/abra/abra/handlers.py:380 | "ř" and "€" are in cp1250 |
| Codepage.SmileNotInCodePage | modules/abra/abra/handlers.py:380 | U+263A is not in cp1250 |
| Codepage.CodepageEscapeExample | modules/abra/abra/handlers.py:380 | U+263A becomes the six characters `\u263a` |
| Handler.MigratedWellFormed | modules/abra/abra/handlers.py:1574-1677 | migrated invoices have valid header dates |
| Handler.MigratedPackable | modules/abra/abra/handlers.py:1574-1677 | every successfully migrated batch renders as a dataPack |
| Handler.InvoiceHandler.constructor | modules/abra/abra/handlers.py:384-391 | a new handler has the Abra schema, no invoices, nothing migrated and the given tables |
| Handler.InvoiceHandler.ReadItemIds | modules/abra/abra/handlers.py:464-472 | the id loop computes the ids `ReadItemIds` specifies |
| Handler.InvoiceHandler.ReadItem | modules/abra/abra/handlers.py:463-585 | the loop body computes the item `ReadItem` specifies, with the skip corrected as in the third finding |
| Handler.InvoiceHandler.ExtractItems | modules/abra/abra/handlers.py:457-585 | the nested loops compute the items of the corrected extraction `ReadItems`, with the skip corrected as in the third finding |
| Handler.InvoiceHandler.FromXml | modules/abra/abra/handlers.py:587-754 | from_xml computes `ParseInvoice`, whose item extraction is the corrected one |
| Handler.InvoiceHandler.ParseInvoices | modules/abra/abra/handlers.py:1030-1040 | parse_invoices computes the batch `ParseInvoices` gives, with the corrected item extraction, and stores it, leaving the tables alone |
| Handler.InvoiceHandler.SyncItems | modules/abra/abra/handlers.py:1243-1262 | the item loop inserts the items as specified |
| Handler.InvoiceHandler.SyncInvoices | modules/abra/abra/handlers.py:1042-1301 | sync_invoices leaves the tables as the specified sync of the held batch |
| Handler.InvoiceHandler.LoadInvoices | modules/abra/abra/handlers.py:1303-1572 | load_invoices computes the specified load and holds it |
| Handler.InvoiceHandler.LoadAll | modules/abra/abra/handlers.py:1303-1572 | the row loop reads back every invoice row in order, stopping at the first that fails, as `Load` specifies |
| Handler.InvoiceHandler.LoadRow | modules/abra/abra/handlers.py:1309-1568 | the loop body reads one row back as `LoadInvoice` specifies: its items first, then its columns |
| Handler.InvoiceHandler.MigrateInvoices | modules/abra/abra/handlers.py:1574-1664 | migrate_invoices loads, then holds the corrected migration of what was loaded |
| Handler.InvoiceHandler.SaveMigrated | modules/abra/abra/handlers.py:1666-1677 | with nothing migrated it fails; otherwise it renders the specified dataPack |
| Translation.MigrateLanguageCode | modules/upgates/upgates/ai.py:93-102 | the code stripped and lower-cased, "cs" becoming "cz"; never "cs" |
| Translation.MigrateLanguageCodeIdempotent | modules/upgates/upgates/ai.py:93-102 | migrating twice is migrating once |
| Translation.MigrateAfterNormalising | modules/upgates/upgates/ai.py:109-110 | normalising before migrating, as the validator does, changes nothing |
| Translation.IsValidTargetLanguage | modules/upgates/upgates/ai.py:104-116 | accepted exactly when the migrated code is "cz", "sk" or "en"; then it is that code; otherwise ValueError |
| Translation.MakeTranslationResult | modules/upgates/upgates/ai.py:42-116 | a result is built exactly when its language is valid, with that language migrated, otherwise a validation error |
| Translation.ValidateTargetLanguage | modules/upgates/upgates/ai.py:151-161 | a retry exactly when the language is not one of the dependencies' languages; otherwise the result unchanged |
| Translation.BuiltResultHasValidLanguage | modules/upgates/upgates/ai.py:104-161 | every built result passes the language validator with the default dependencies |
| Translation.MainFields | modules/upgates/upgates/ai.py:172-184 | the nine main texts are checked |
| Translation.ValidateFieldsAreNotEmpty | modules/upgates/upgates/ai.py:164-187 | a retry exactly when one of the nine main texts is blank; otherwise the result unchanged |
| Translation.ErrorAndCodeUnchecked | modules/upgates/upgates/ai.py:172-184 | changing the error text or the return code never changes the verdict |
| ProductStore.CodeById | modules/upgates/upgates/db/duckdb_api.py:577-584 | the stored code of the product, NULL when it is absent |
| ProductStore.DescriptionLanguage | modules/upgates/upgates/db/duckdb_api.py:395-396 | the language lower-cased, with a lower-cased "cs" becoming "cz"; never "cs" and with no capital |
| ProductStore.DescriptionLanguageIsMigrated | modules/upgates/upgates/db/duckdb_api.py:395-396 | for stripped text this is the translation's language migration |
| ProductStore.DescriptionLanguageIdempotent | modules/upgates/upgates/db/duckdb_api.py:395-396 | applying it twice is applying it once |
| ProductStore.KeywordsText | modules/upgates/upgates/db/duckdb_api.py:398 | no keywords give "", one keyword gives itself |
| ProductStore.KeywordsRoundTrip | modules/upgates/upgates/db/duckdb_api.py:398 | keywords without ", " split back from their joined text |
| ProductStore.UpsertProduct | modules/upgates/upgates/db/duckdb_api.py:341-374 | the product id now maps to the new product and every other product is kept |
| ProductStore.UpsertProductIdempotent | modules/upgates/upgates/db/duckdb_api.py:341-374 | upserting the same product twice is upserting it once |
| ProductStore.InsertDescription | modules/upgates/upgates/db/duckdb_api.py:400-425 | a description is added exactly when its product exists and its (product, language) is new; otherwise nothing changes |
| ProductStore.InsertDescriptionIdempotent | modules/upgates/upgates/db/duckdb_api.py:400-425 | inserting twice is inserting once |
| ProductStore.InsertDescriptionKeepsStored | modules/upgates/upgates/db/duckdb_api.py:400-425 | a stored description is never overwritten |
| ProductStore.CoreOf | modules/upgates/upgates/db/duckdb_api.py:597-611 | the core row keeps the product's id, code and unit |
| ProductStore.TranslationContent | modules/upgates/upgates/db/duckdb_api.py:858-869 | each description column is the translation's value of that key, NULL when absent |
| ProductStore.TargetLanguage | modules/upgates/upgates/db/duckdb_api.py:841 | the language column is given exactly when the key is, and SQL LOWER leaves no capital |
| ProductStore.ProductDb.constructor | modules/upgates/upgates/db/duckdb_api.py:110-192 | a store over the given products and descriptions, with no orphan rows |
| ProductStore.ProductDb.InsertProduct | modules/upgates/upgates/db/duckdb_api.py:320-374 | the products become the upsert; descriptions are untouched |
| ProductStore.ProductDb.InsertProductDescription | modules/upgates/upgates/db/duckdb_api.py:379-425 | the descriptions become the insert of the normalised language and joined keywords; products are untouched |
| ProductStore.ProductDb.GetProductCodeById | modules/upgates/upgates/db/duckdb_api.py:577-584 | the stored code of the id |
| ProductStore.ProductDb.GetProductIdByCode | modules/upgates/upgates/db/duckdb_api.py:586-593 | None exactly when no product has the code; otherwise a product that has it |
| ProductStore.ProductDb.UpdateProductTranslation | modules/upgates/upgates/db/duckdb_api.py:818-876 | with a known code and a language, the (product, language) row is inserted or overwritten with the translation; otherwise one row with a NULL product or language is appended; products never change |
| ProductStore.ProductDb.GetProductCore | modules/upgates/upgates/db/duckdb_api.py:595-619 | a falsy id raises "Product ID is required."; otherwise the product's core row, or nothing when it is absent |
| ProductStore.ProductDb.GetProductDetails | modules/upgates/upgates/db/duckdb_api.py:747-804 | both or neither argument raises; an unknown code gives None; an id gives its core row; a known code gives the core row of a product that has it |
| Wrappers.MapResult | modules/abra/abra/handlers.py:1036-1037 | a successful map has one result per input |
| Wrappers.MapResultEach | modules/abra/abra/handlers.py:1036-1037 | the k-th result is the k-th input's |
| Wrappers.MapResultFails | modules/abra/abra/handlers.py:1036-1037 | the map fails exactly when some input fails, with the first failure's error |
| Wrappers.Somes | modules/abra/abra/handlers.py:476-482 | the values kept from a sequence of options: at most one per option, each present value among them, and only present values |
| Wrappers.SomesAppend | modules/abra/abra/handlers.py:476-482 | the values of earlier options come before those of later ones: keeping distributes over concatenation |

## Findings

| source | as written | input that shows it | evidently intended | confidence | as-written member | corrected member |
|---|---|---|---|---|---|---|
| modules/abra/abra/handlers.py:1642-1647 | the migration builds `p.InvoiceSummaryCurrency`, a class the Pohoda models do not define (the class is `InvoiceSummaryHomeCurrency`) | any stored invoice whose header and items migrate | the home-currency totals class | not executed | Migration.MigrateInvoiceAsWritten, Migration.MigrateAllAsWritten | Migration.MigrateInvoiceShape, Migration.MigrateAll |
| modules/abra/abra/models/pohoda/__init__.py:171-174 | `InvoiceSummary.foreignCurrency` is required, but the migration never passes one | any invoice summary built at handlers.py:1649-1652 | the foreign currency optional, as the other optional parts are | not executed | Pohoda.MakeSummaryAsWritten, Migration.DeclaredSummaryRefusesMigration | Pohoda.MakeSummary |
| modules/abra/abra/handlers.py:476-482 | the skip branch logs `_.text`, the loop variable of the id loop, which is unbound when no earlier item had an `<id>` | a first item element with no `<id>` child | skip the item and log without the id | not executed | AbraParser.IdlessItemCounterexample | AbraParser.AsWrittenAgrees, AbraParser.ReadItems |

Where the documentation and the code differ, the model follows the code:

- The date normaliser keeps only the date. A time of day or an offset after it is dropped,
  because the date is rebuilt from the three digit groups at midnight.
- `_xml_get_date` on a missing tag raises AttributeError instead of returning None.

## Left out

- The three library parses that `_parse_date` tries before its regular expression (handlers.py:415-434)
  are left out. When one succeeds its value is always overwritten, because the expression step runs
  after them unconditionally and either replaces the date or raises. Their ValueError and TypeError
  are caught; other exceptions are not (see the ParseDate line below).
- ParseDate: `dateutil.parser.parse` can raise OverflowError, which `except (ValueError, TypeError)`
  at handlers.py:433 does not catch. On such text (a huge number, say) the source raises OverflowError,
  where the model returns the date its leading digits give, or a ValueError.
- MatchDate: `\d` is read as an ASCII digit. Python's `re` and `strptime` accept every Unicode
  decimal digit, so a date written in, say, Arabic-Indic digits normalises in the source and raises
  ValueError in the model.
- DecodeExtKod: the counter's `int()` accepts only ASCII digits here. Python's `int()` accepts every
  Unicode decimal digit, so "ext:A-٧" decodes to ("A", 7) in the source and raises in the model.
- Render: the year is always written with four digits. On CPython builds whose `%Y` does not pad
  (glibc, before the fix of gh-120713) a year below 1000 is written with fewer digits, which the
  reload then rejects; the model follows padding builds. ParseDateIdempotent holds on those builds only.
- DateToStr: `%Y-%m-%d` is always ten characters here; the same unpadded-year builds write a year
  below 1000 with fewer digits.
- ReadItems: its own contract gives only the bounds of the result. That the items are, in order,
  the items kept from reading each element, and that the first element that raises makes the whole
  extraction raise, is stated by ReadItemsIsMap, ReadItemsKept and ReadItemsFails.
- Floating point is modelled with exact reals. `float()` is a decimal parser, and `inf`, `nan`
  and binary rounding are not modelled.
- `str(float)` is modelled only where it reaches the output, as the rate text (`Vocabulary.RateText`).
- Pydantic's lax coercions (a number given to a `str` field, an integer text given to a `float`
  field) are not modelled. Values of the wrong kind are refused.
- A pydantic error names only the first failing field, not all of them.
- The `name` keyword that the migration passes to `Address` is ignored, as pydantic ignores extra fields.
- A number or a flag stored in a date column is not modelled. Dates are stored as text or NULL.
- InvoiceStore.SyncInvoice: it requires both invoice keys to be present (`Keyed`); the SQL
  handling of NULL keys in `ext_id = ?` is not modelled.
- Row order of `SELECT *` is insertion order.
- ProductDb.InsertProduct: the product id is an integer. `product_id` is a nullable column
  (duckdb_api.py:116), so `insert_product(None, ...)` appends a new row on every call, since NULL
  never conflicts; the model cannot pass a NULL id.
- `ProductDb.UpdateProductTranslation` picks any product with the code. DuckDB's scalar
  subquery raises or picks one when several match; that choice is left open.
- The clock (`datetime.now()`) is a parameter (`DataPack.Clock`).
- XML text serialisation is not modelled: indentation, escaping, namespaces and the XML declaration.
  The document is a tree.
- The Abra record models (`abra.models.abra`, imported at handlers.py:46) are not part of this
  model, and neither is their validation of `a.InvoiceItem` and `a.Invoice` at handlers.py:484 and
  599-754. Without it `ParseInvoice` returns Ok even when the `extId` or `id` of the invoice is None.
  The field `dat_uhra` (parser and loader) and the column `dat_uhr` are one field.
- ParseInvoices: it does not ensure `InvoiceStore.Keyed`. An export with an invoice that has no
  `ext:` or no `key:` id parses, and `SyncInvoices` then cannot be called on the batch. The model
  assumes that the skipped record validation supplies both keys.
- `AbraFields.DistinctColumns` is assumed of the field tables where a lemma needs it.
- Lower-casing is ASCII-only, for both `str.lower` and SQL `LOWER`.
- Namespaced tags are modelled as prefixed strings (`inv:invoice`).
- `save_migrated_invoices` writes the rendered text to a file; the model returns the document.
- `get_product_details` also reads images, prices, categories, VAT and descriptions; only the
  core row and its lookup are modelled.
- The `ModelRetry` message of `validate_fields_are_not_empty` ends with the result's repr; the model keeps only the fixed prefix.
- `seo_keywords` passed as a plain string (joined character by character by `", ".join`) is not
  modelled; keywords are a list.
- Database errors other than a swallowed constraint violation, and their re-raise, are not modelled.
- The serial `id` columns of the tables are not modelled.
- Logging (logfire and logging) is left out.
- `insert_product_category`, the price, image and category tables, the Upgates HTTP client, the
  agent's prompt and its model calls are not part of this model.
