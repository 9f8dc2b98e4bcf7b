# Warehouse inventory: a verified model of the list logic

This project models the list logic of a small warehouse inventory web app.
The app keeps a list of inventory records. Each record has an id, name,
category, warehouse, rack, quantity, pallet count and a "ggadegi" flag.
The model covers five parts of the app:

- the application shell's search and its list mutations: stock entry, bulk
  entry, move, update, delete and bulk delete (`App`);
- the status screen: the warehouse and line pick-lists, the four-way filter,
  and the checkbox selection with its delete action (`Status`);
- the per-warehouse summary cards of the home screen (`Summary`);
- the spreadsheet import of the bulk-entry dialog, taken over rows that are
  already decoded (`BulkImport`);
- the normalisation of records fetched from the spreadsheet web app (`Sheets`).

Every operation is side-effect-free and works on immutable sequences: most are
functions, and the loops are methods. The JavaScript behaviour the code leans on
is modelled explicitly in `Js`:

- truthiness, `String(v)`, `Number(v)`, `parseInt` and `Math.max`;
- the `x || default` idiom;
- `NaN` and `-Infinity`, which `Math.max` and `parseInt` produce.

A JavaScript `Set` of ids is a duplicate-free sequence kept in insertion order.
`sort()` and `localeCompare` are modelled as lexicographic order on code points
(`Sorting`). Lower-casing is ASCII (`Text`).

Files: `seqs.dfy`, `text.dfy`, `sorting.dfy`, `js.dfy`, `inventory.dfy`,
`app.dfy`, `status.dfy`, `summary.dfy`, `bulk_import.dfy`, `sheets.dfy`.

Three facts about the code that a reader might not expect:

- Nothing bounds the pallet count. A fetched record can have pallet count 0
  (`Sheets.PalletCountFallbacksDiffer`), and the bulk import lets a negative
  count through (`BulkImport.PalletDefaults`).
- The id derivation can repeat an id (Findings, rows 1 and 2).
- `src/App.tsx` never calls the remote client: every mutation is applied to
  local state only. So there is no logic that reverts a failed remote write,
  and none is modelled.

## Model

| member | source | states |
|---|---|---|
| Inventory.WithId | src/App.tsx:55 | `{ ...draft, id }` keeps every descriptive field of the draft, takes the given id, and carries no flag |
| App.Search | src/App.tsx:41-51 | a blank term (whitespace only) returns the list unchanged; otherwise the result is an order-preserving subsequence; every kept record has name, warehouse, rack or category containing the lower-cased term; every matching record keeps all its occurrences |
| App.MaxIdFinite | src/App.tsx:54 | for a non-empty list of numeric ids, `Math.max` of the parsed ids is finite, bounds every id and is attained by one of them |
| App.StockEntry | src/App.tsx:53-56 | exactly one record is appended at the end; the earlier records are unchanged; the new record carries the draft's fields and no flag |
| App.StockEntryIdFresh | src/App.tsx:53-56 | with a non-empty list of numeric ids, the new id parses to one more than the largest id, differs from every existing id, and keeps distinct ids distinct |
| App.BulkEntry | src/App.tsx:58-65 | the drafts are appended in input order after the unchanged old list; the length grows by their number; each new record carries its draft's fields |
| App.BulkEntryIds | src/App.tsx:58-65 | with a non-empty list of numeric ids, the k-th new record's id parses to max + k, and distinct ids stay distinct |
| App.BulkEntrySingle | src/App.tsx:53-65 | importing one draft is the same as entering it by hand |
| App.FirstEntryId | src/App.tsx:53-55 | the first record entered into an empty list gets the id "-Infinity" |
| App.NonNumericIdPoisons | src/App.tsx:53-55 | once some id does not start with a number, every new entry gets the id "NaN" |
| App.EntryIdsCollide | src/App.tsx:54-55 | three entries into an empty list get the ids "-Infinity", "NaN" and "NaN", so two records share an id |
| App.LargestNumericId | src/App.tsx:54 | the largest id that parses as a number, or 0: it bounds every numeric id and, when positive, is some record's id |
| App.FreshId | src/App.tsx:54 | an id no record has, parsing to a number of at least 1 |
| App.StockEntryFresh | src/App.tsx:53-56 | the corrected entry appends one record with the draft's fields, whose id differs from every existing id, whatever ids are present; distinct ids stay distinct |
| App.StockEntryFreshAgrees | src/App.tsx:53-56 | where the original numbering works (numeric ids with a non-negative maximum), the corrected entry assigns the same id |
| App.BulkEntryIdsCollide | src/App.tsx:58-65 | importing two drafts into an empty list gives both the id "-Infinity", so the ids are not distinct |
| App.BulkEntryFresh | src/App.tsx:58-65 | the corrected bulk entry appends the drafts in order after the unchanged old list, each new record carrying its draft's fields and no flag |
| App.NumberedId | src/App.tsx:60-62 | numbering drafts from a finite base, the j-th new id reads back as base + j + 1 |
| App.BulkEntryFreshNumber | src/App.tsx:58-65 | in the corrected bulk entry, the new record at position k has an id that parses to the largest numeric id plus its offset plus 1 |
| App.BulkEntryFreshNumbers | src/App.tsx:58-65 | the corrected bulk entry numbers the new records consecutively after the largest numeric id |
| App.BulkEntryFreshIdDiffers | src/App.tsx:58-65 | in the corrected bulk entry, a new record's id differs from the id of every other record, old or new |
| App.BulkEntryFreshIds | src/App.tsx:58-65 | whatever ids are present, every new id differs from every other id, and distinct ids stay distinct |
| App.Move | src/App.tsx:67-73 | length and ids are preserved; records with the id get the new warehouse and rack and nothing else changes in them; every other record is unchanged; an unknown id leaves the list identical |
| App.Update | src/App.tsx:75-79 | length, order and ids are preserved; records with the new record's id are replaced by it; all others are untouched; an unknown id leaves the list identical |
| App.UpdateRestores | src/App.tsx:75-79 | with distinct ids, writing the previous record back undoes an update |
| App.MoveIsUpdate | src/App.tsx:67-79 | with distinct ids, a move is the update of that one record with the new warehouse and rack |
| App.Delete | src/App.tsx:81-85 | without confirmation the list is unchanged; with it, exactly the records with that id are removed and the rest keep their order and multiplicity |
| App.BulkDelete | src/App.tsx:92-94 | keeps exactly the records whose id is not listed, in order and with their multiplicity |
| App.BulkDeleteIdempotent | src/App.tsx:92-94 | repeating a bulk delete changes nothing |
| App.BulkDeleteIsDeleteEach | src/App.tsx:81-94 | a bulk delete equals deleting the ids one by one, each confirmed |
| Status.Line | src/components/InventoryStatus.tsx:27-29 | a record's line is the rack's longest dash-free prefix, or "Unknown" when that prefix is empty; it is never empty |
| Status.Warehouses | src/components/InventoryStatus.tsx:20-23 | the warehouse pick-list is strictly sorted (so sorted and duplicate-free) and, as a set, equals the records' warehouses |
| Status.Lines | src/components/InventoryStatus.tsx:26-32 | the line pick-list is strictly sorted and, as a set, equals the records' lines |
| Status.FilterItems | src/components/InventoryStatus.tsx:35-52 | the result is an order-preserving subsequence; a record is shown, with all its occurrences, exactly when it passes the warehouse, line, flag and search checks |
| Status.FilterOff | src/components/InventoryStatus.tsx:36-51 | with every control off the whole list is shown |
| Status.WarehouseChoiceShowsSomething | src/components/InventoryStatus.tsx:20-37 | every warehouse offered in the pick-list (the pick-list holds exactly the stored warehouses, by `Status.Warehouses`) selects at least one record |
| Status.LineChoiceShowsSomething | src/components/InventoryStatus.tsx:26-40 | every line offered in the pick-list (exactly the lines of the stored racks, by `Status.Lines`) selects at least one record, because list and filter derive lines by the same rule |
| Status.ToggleSelect | src/components/InventoryStatus.tsx:63-71 | flips membership of exactly the given id and leaves every other id's membership unchanged; a duplicate-free selection stays duplicate-free |
| Status.ToggleSelectTwice | src/components/InventoryStatus.tsx:63-71 | toggling an id twice restores the set of checked ids, and for an unchecked id the very same selection |
| Status.ToggleSelectAll | src/components/InventoryStatus.tsx:55-61 | clears the selection when its size (the number of distinct checked ids, as a `Set` counts them) equals the visible count and that count is non-zero; otherwise the selection becomes exactly the visible ids, without repeats |
| Status.SharedIdReselects | src/components/InventoryStatus.tsx:55-61 | for any two visible records sharing an id: select-all checks that id once, and pressing again re-selects it instead of clearing |
| Status.LeftoverSelectionCleared | src/components/InventoryStatus.tsx:55-61 | for any two distinct checked ids and any two visible records, select-all clears the selection, even when the checked ids are not the visible ones (left over from another filter) |
| Status.ToggleSelectAllMisfires | src/components/InventoryStatus.tsx:55-61 | the size test misfires: two visible records sharing an id are re-selected instead of cleared, and a selection of two other ids is cleared instead of replaced |
| Status.ToggleSelectAllBySet | src/components/InventoryStatus.tsx:55-61 | the corrected toggle clears exactly when the checked ids are the visible ids, and otherwise selects exactly the visible ids |
| Status.ToggleSelectAllBySetAlternates | src/components/InventoryStatus.tsx:55-61 | from any other selection the corrected toggle selects the visible ids, and pressing again clears |
| Status.ToggleSelectAllAgrees | src/components/InventoryStatus.tsx:55-61 | with distinct visible ids and nothing outside them checked, the size test and the set test give the same selection |
| Status.DeleteSelected | src/components/InventoryStatus.tsx:73-80 | a request is made exactly when the selection is non-empty and confirmed; it names exactly the selected ids and clears the selection; otherwise the selection is kept |
| Status.DeleteSelectedRemovesChecked | src/components/InventoryStatus.tsx:73-80 | carried out by the bulk delete, a confirmed delete-selected removes every checked record and keeps every unchecked one |
| Summary.AddItem | src/components/WarehouseSummary.tsx:14-18 | one step of the grouping adds the record's warehouse to the keys and leaves every other warehouse's totals alone |
| Summary.ExpectedSnoc | src/components/WarehouseSummary.tsx:13-19 | appending a record changes only its own warehouse's expected totals, by its pallets and one record |
| Summary.TallyStep | src/components/WarehouseSummary.tsx:13-19 | one step of the loop keeps the totals right for the records seen so far |
| Summary.KeysOf | src/components/WarehouseSummary.tsx:21 | the keys `Object.entries` yields are exactly the warehouses of the totals object, each once |
| Summary.Tally | src/components/WarehouseSummary.tsx:11-19 | the grouped totals have one key per warehouse in use; each key's pallet total is the sum over its records and its count the number of its records |
| Summary.CardsExpected | src/components/WarehouseSummary.tsx:17-21 | each card made from correct totals shows its warehouse's pallet sum and record count |
| Summary.CardsTotals | src/components/WarehouseSummary.tsx:13-21 | cards made from correct totals, one per warehouse in use, add up to the number of records and to the overall pallet total |
| Summary.Summarize | src/components/WarehouseSummary.tsx:10-22 | one card per distinct warehouse, strictly sorted by warehouse; each card's totals are its warehouse's; the counts sum to the number of records and the pallet totals to the overall pallet total |
| Summary.CountConservation | src/components/WarehouseSummary.tsx:13-19 | summed over a duplicate-free list naming every warehouse in use, the per-warehouse counts give the number of records and the pallet totals the overall total |
| BulkImport.RowToDraft | src/components/modals/BulkEntryModal.tsx:59-66 | columns 0-3 become name, category, warehouse and rack: a truthy cell gives its text, a falsy cell ""; the quantity is the cell's number, or 0; the pallet count is the cell's non-zero number, or 1, so it is never 0; the name is non-empty exactly when the name cell is truthy |
| BulkImport.Candidates | src/components/modals/BulkEntryModal.tsx:54-71 | the collected drafts number at most the rows and all have a name |
| BulkImport.CandidatesAppend | src/components/modals/BulkEntryModal.tsx:54-71 | importing two blocks of rows gives the drafts of each, in order |
| BulkImport.CandidatesAreFiltered | src/components/modals/BulkEntryModal.tsx:54-71 | the collected drafts are exactly the drafts of the rows that are non-empty with a truthy name cell, in row order |
| BulkImport.CollectCandidates | src/components/modals/BulkEntryModal.tsx:52-71 | the loop with early return and push collects the drafts of the candidate rows, at most one per row, all named |
| BulkImport.ReadSheet | src/components/modals/BulkEntryModal.tsx:47-80 | fewer than two rows is refused (`NoData`: the handler throws, and its `catch` shows the generic read-error message); the header row is never imported; a sheet with no named row is refused as "no valid rows"; otherwise between 1 and rows-1 named drafts are saved |
| BulkImport.NamelessSkipped | src/components/modals/BulkEntryModal.tsx:55-70 | an empty row or one with a falsy name cell contributes nothing, wherever it is |
| BulkImport.NamedKept | src/components/modals/BulkEntryModal.tsx:59-70 | a named row is imported in place, between the drafts before and after it |
| BulkImport.TemplateRowRoundTrip | src/components/modals/BulkEntryModal.tsx:59-66 | a row written in template column order reads back as its record, except that a pallet count of 0 becomes 1 |
| BulkImport.TemplateImport | src/components/modals/BulkEntryModal.tsx:50-71 | rows filled in from the template, all named and with non-zero pallet counts, import to exactly those records in order |
| BulkImport.PalletDefaults | src/components/modals/BulkEntryModal.tsx:64-65 | a missing, non-numeric or zero pallet cell gives 1 while a negative one passes through; a missing quantity gives 0 |
| BulkImport.WidgetRow | src/components/modals/BulkEntryModal.tsx:59-66 | a row of text cells ("50", "5") yields quantity 50 and pallet count 5 |
| Sheets.FlagIff | src/lib/sheets.ts:30 | the flag is set exactly for boolean true and for text that lower-cases to "true"; a missing value clears it |
| Sheets.Normalize | src/lib/sheets.ts:26-31 | the text fields are copied; quantity and pallet count become their numeric value, or 0 when not numeric; the flag is coerced as above |
| Sheets.GetInventory | src/lib/sheets.ts:17-35 | a failure gives the empty list; otherwise one record per fetched record, in order, each the normalisation of its fetched record (so the coercions stated for `Sheets.Normalize` hold for every fetched record) |
| Sheets.NormalizeRaw | src/lib/sheets.ts:26-31 | a record stored in normalised form normalises back to itself |
| Sheets.NormalizeIdempotent | src/lib/sheets.ts:26-31 | normalising an already normalised record yields the same record |
| Sheets.GetInventoryRoundTrip | src/lib/sheets.ts:26-31 | fetching records stored in normalised form gives exactly those records |
| Sheets.PalletCountFallbacksDiffer | src/lib/sheets.ts:29 | a non-numeric pallet count becomes 0 when fetched but 1 when imported from a spreadsheet |
| Sheets.FlagExamples | src/lib/sheets.ts:30 | true, "TRUE" and "True" set the flag; false, a missing value, "yes" and " true" do not |
| Js.ParseInt | src/App.tsx:54 | `parseInt` never yields -Infinity; the empty text, and a text starting with neither a digit nor a sign, read as NaN; a text starting with a digit reads as a non-negative number |
| Js.ToText | src/lib/sheets.ts:30 | `String(v)` of a truthy value is non-empty, of a text is the text itself, and of an integer reads back through `parseInt` as that integer |
| Js.ToNumber | src/components/modals/BulkEntryModal.tsx:64-65 | in this model, where texts such as "-Infinity" are left out of `Js.ParseNumber`, `Number(v)` never yields -Infinity; an integer is itself, `undefined` (a missing cell) is NaN, and a blank text is 0 |
| Js.NumberShow | src/lib/sheets.ts:28-29 | `Number(String(n))` is `n`: a count stored as text in the sheet reads back as that count |
| Js.ParseIntShow | src/App.tsx:54 | `parseInt(String(n))` is `n` for every integer, so an id written from a number reads back as that number |
| Js.ShowInjective | src/App.tsx:54 | different integers are written as different id texts |
| Js.MaxOf | src/App.tsx:54 | `Math.max` is NaN exactly when some argument is NaN, -Infinity exactly when all arguments are (or there are none), and otherwise an argument at least as large as every finite one |
| Js.NumberOr | src/components/modals/BulkEntryModal.tsx:64-65 | `Number(v) \|\| d` is either `d` or the value's own number, a usable (finite, non-zero) number is always kept, and a non-zero default never yields 0, so `\|\| 1` never leaves a zero pallet count |
| Js.TextOr | src/components/modals/BulkEntryModal.tsx:60-68 | `v \|\| d` is either `d` or the value's text, a truthy value always gives its text, and with the default `''` the result is non-empty exactly when the value is truthy, which is the test `if (item.name)` relies on |
| Sorting.SortedDistinct | src/components/InventoryStatus.tsx:21-22 | `Array.from(new Set(xs)).sort()` is strictly sorted and holds exactly the values of `xs` |
| Sorting.StrictlySortedUnique | src/components/InventoryStatus.tsx:21-22 | two strictly sorted lists with the same values are equal, so the pick-lists are determined by the set of values |
| Seqs.Filter | src/App.tsx:45 | `Array.filter` keeps no more elements than the list has, only elements of the list satisfying the test, and every element satisfying it |
| Seqs.FilterCount | src/App.tsx:45 | each element satisfying the test keeps all its occurrences, and every other element has none left |
| Seqs.FilterSubseq | src/App.tsx:45 | the kept elements are in their original relative order |
| Seqs.Dedup | src/components/InventoryStatus.tsx:21 | `Array.from(new Set(xs))` has the values of `xs`, no repeats, and is `xs` itself when `xs` has no repeats |
| Text.ContainsAt | src/App.tsx:46-49 | `includes` holds exactly when the term occurs at some position |
| Text.Before | src/components/InventoryStatus.tsx:28 | `split('-')[0]` is the longest prefix without a dash |

## Left out

- HTTP transport: the fetch, its cache buster and the `no-cors` POSTs of `deleteItems` and `toggleGgadegi` (src/lib/sheets.ts:20-23, 38-73). They are I/O, and a `true` result means only that fetch did not throw. The failure cases become the `Failed` response.
- The status screen's flag toggle handler and its remote call (src/components/InventoryStatus.tsx:82-85). The application shell does not pass `onToggleGgadegi` (src/App.tsx:128), so the handler never reaches the list.
- XLSX decoding, `FileReader` and the template download (src/components/modals/BulkEntryModal.tsx:17-47). They are I/O. The import starts from decoded rows of `Value` cells.
- `window.confirm` is a boolean parameter. `alert`, the debug button and all rendering are left out.
- Exceptions thrown while reading a workbook, which the `catch` of the upload handler (src/components/modals/BulkEntryModal.tsx:82-84) turns into one generic read-error message. Decoding is not modelled. The one throw the model keeps, for a sheet with fewer than two rows (line 48), is `BulkImport.NoData`; the user sees that same generic message for it, not a separate "no data" message.
- The form dialogs, header menu, list and search box components, whose only logic is `parseInt(...) || 0/1` input coercion.
- Quantity-per-pallet on the record card: a floating-point `Math.round` in a render component.
- Text.Lower: ASCII letters only. Unicode `toLowerCase` also lowers accented Latin, Greek and Cyrillic letters; Korean text has no case either way.
- Sorting.Lt: code-point lexicographic order stands in for `sort()` (UTF-16 code units) and `localeCompare` (locale collation). The properties proved hold for any strict total order.
- Js.ParseInt: no leading whitespace, no `0x` prefix, no radix detection. Its contract gives the NaN cases and the sign of the result, not the value; the value on ids written from numbers is given by `Js.ParseIntShow`.
- Js.ParseNumber: integers only (an optional sign and decimal digits, or a blank text); no decimals, exponents, `Infinity`, hex literals or surrounding whitespace trimming.
- Numbers are unbounded integers: the 2^53 precision limit of JavaScript numbers and fractional quantities are not modelled.
- BulkImport.RowToDraft: a truthy non-text cell (a number or `true`) in the name, category, warehouse or rack column is stored as its text, whereas the source keeps the raw value (`row[k] || ''`, src/components/modals/BulkEntryModal.tsx:60-63) and bulk entry stores it in a field typed as text. The model does not follow what that raw value does later:
  - `item.rack.split('-')` (src/components/InventoryStatus.tsx:28 and 39) throws on a non-text rack, so the status screen fails to render once such a record is in the list;
  - `toLowerCase()` throws on a non-text name, warehouse, rack or category when a non-blank search reaches it (src/App.tsx:46-49, and src/components/InventoryStatus.tsx:46-48 for name, rack and category);
  - a non-text warehouse is never `===` the text value of its pick-list option (src/components/InventoryStatus.tsx:37), so choosing it shows nothing.
  So `App.Search`, `Status.Lines`, `Status.FilterItems` and `Status.WarehouseChoiceShowsSomething` describe the source only for lists whose text fields really hold text; where an imported cell was a number or a boolean, the source throws or shows nothing and the model does not.
- Sheets.RawRecord: the text fields of a fetched record are taken to be strings, and extra fields are dropped; the source spreads whatever the server sent.
- Summary.Tally: warehouse names that clash with `Object.prototype` members (such as "toString" or "__proto__") are not modelled; the map is a plain finite map.

## Findings

| source | as written | input that shows it | evidently intended | confidence | as-written member | corrected member |
|---|---|---|---|---|---|---|
| src/App.tsx:53-56 | the new id is `Math.max` of the parsed ids plus 1, written as text | three entries into an empty list: ids "-Infinity", "NaN", "NaN" (the maximum of nothing is -Infinity, which does not parse back, so every later id is NaN) | a fresh id, one more than the largest numeric id | not executed | App.EntryIdsCollide | App.StockEntryFresh |
| src/App.tsx:58-65 | the running maximum starts at `Math.max` of the parsed ids and each imported record takes it plus 1 | a bulk import of two records into an empty list: both get the id "-Infinity" | consecutive fresh ids after the largest numeric id | not executed | App.BulkEntryIdsCollide | App.BulkEntryFresh |
| src/components/InventoryStatus.tsx:55-61 | select-all clears when the selection's size equals the visible count | visible ids "1","2" with "3","4" checked under an earlier filter: pressing clears instead of selecting; two visible records with id "7": pressing twice re-selects instead of clearing | clear exactly when the checked ids are the visible ids | not executed | Status.ToggleSelectAllMisfires | Status.ToggleSelectAllBySet |
