# Petty-cash store and reports, in Dafny

The model covers the two services behind a small petty-cash web application:

- **The entry store** (`PettyCashService`). It holds one private list of expense entries. It creates entries, lists them, looks one up by id, updates one by merging a partial record, changes its status, deletes it, and filters the list by status or by requester. The model is a class, `PettyCashStore.PettyCashService`, with a `seq<Entry>` field. Each method states its whole new state against the old one.
- **The report engine** (`ReportService`). It keeps the entries dated inside an inclusive period, then builds three kinds of report:
  - a summary: overall total and count, plus one group per category and one per requester, in first-seen order;
  - a single-category or single-requester report, absent when nothing matches;
  - a CSV export of a list of entries.

  The summary's `forEach`-over-a-`Map` grouping is a method with a loop (`Reports.GroupEntries`). It is proved equal to a recursive specification, `Reports.GroupBy`. Lemmas show that grouping is a partition by key, in order of first appearance, with totals and counts that add up. The per-key reports are pure functions, proved equal to the matching summary group.
- **The CSV export** is a pure function, `CsvExport.ExportToCsv`. The model adds a reader for the same dialect: quoted fields with doubled quotes, as in section 2 of RFC 4180. It proves that reading an export back gives the header names, then the eleven column values of every entry, in order.

Files:
- `optional.dfy`: `Option`.
- `sequences.dfy`: `filter` and `findIndex` over sequences.
- `types.dfy`: the records and the spread-merge of a partial update.
- `store.dfy`: the store.
- `report.dfy`: the reports.
- `csv.dfy`: the export and its reader.

Details of the code:
- `getEntries` hands out the store's live array (see "Left out").
- The CSV header names the last two columns `Created At` and `Updated At`.
- The four text columns are always quoted.
- `createEntry` reads the clock twice, so it takes two timestamps.

## Model

| member | source | states |
|---|---|---|
| Sequences.Filter | src/services/petty-cash.service.ts:50-56 | the result of `filter` is no longer than the input, and holds a value exactly when the input holds it and it passes the test |
| Sequences.FilterSelectsMatches | src/services/petty-cash.service.ts:50-56 | the k-th kept element is the input element at the k-th matching position, so the filter keeps input order |
| Sequences.MatchesComplete | src/services/petty-cash.service.ts:50-56 | every position whose element passes the test is among the matching positions |
| Sequences.FilterAppend | src/services/report.service.ts:36-39 | filtering a concatenation is concatenating the filtered parts |
| Sequences.FilterFilter | src/services/report.service.ts:97-102 | filtering by one test and then by another is filtering once by their conjunction |
| Sequences.FilterEmpty | src/services/report.service.ts:104 | a filter comes out empty exactly when no element passes the test |
| Sequences.FilterFirst | src/services/report.service.ts:104-106 | a filter keeps something exactly when `findIndex` finds a position, and its first element is the element at that position |
| Sequences.FirstIndex | src/services/petty-cash.service.ts:26 | `findIndex` returns a position whose element passes the test with no earlier one passing, or none when no element passes |
| PettyCashTypes.FromDraft | src/services/petty-cash.service.ts:7-12 | a created entry carries every draft field unchanged, plus the given id and the two timestamps |
| PettyCashTypes.DraftRoundTrip | src/services/petty-cash.service.ts:7-12 | every entry is rebuilt from its draft plus its own id and timestamps, so the spread loses nothing |
| PettyCashTypes.Merge | src/services/petty-cash.service.ts:29-33 | `updatedAt` is always the clock reading, and the id survives an update that does not name `id` |
| PettyCashTypes.MergeStatus | src/services/petty-cash.service.ts:29-33 | merging `{ status }` changes only the status and `updatedAt` |
| PettyCashTypes.MergeKeepsUnnamed | src/services/petty-cash.service.ts:29-33 | each of the ten fields the partial record does not name (id, date, amount, description, category, requester, status, receiptUrl, notes, createdAt) keeps its old value |
| PettyCashTypes.MergeTakesNamed | src/services/petty-cash.service.ts:29-33 | each of those ten fields that the partial record names takes the record's value |
| PettyCashStore.IndexOfId | src/services/petty-cash.service.ts:26 | `findIndex` by id: the first position holding the id, or none exactly when no entry holds it |
| PettyCashStore.WithStatus | src/services/petty-cash.service.ts:51 | an entry is in the status filter exactly when it is stored and has that status |
| PettyCashStore.ForRequester | src/services/petty-cash.service.ts:55 | an entry is in the requester filter exactly when it is stored and its requester has that id |
| PettyCashStore.WithStatusExact | src/services/petty-cash.service.ts:50-52 | the status filter lists the entries at the matching positions, in store order, each with that status |
| PettyCashStore.ForRequesterExact | src/services/petty-cash.service.ts:54-56 | the requester filter lists the entries at the matching positions, in store order, each with that requester id |
| PettyCashStore.LookupFindsStored | src/services/petty-cash.service.ts:21-23 | with distinct ids, looking up a stored entry's id finds that entry's position |
| PettyCashStore.AppendKeepsDistinct | src/services/petty-cash.service.ts:13 | appending an entry with a fresh id keeps ids pairwise distinct |
| PettyCashStore.RemoveKeepsDistinct | src/services/petty-cash.service.ts:46 | removing one position keeps ids pairwise distinct |
| PettyCashStore.ReplaceKeepsDistinct | src/services/petty-cash.service.ts:34 | overwriting a slot with a record of the same id keeps ids pairwise distinct |
| PettyCashStore.PettyCashService.constructor | src/services/petty-cash.service.ts:4 | the store starts empty |
| PettyCashStore.PettyCashService.CreateEntry | src/services/petty-cash.service.ts:6-15 | the new entry is the draft plus the given id and timestamps; the list grows by exactly that entry at the end; a fresh id keeps ids distinct |
| PettyCashStore.PettyCashService.GetEntries | src/services/petty-cash.service.ts:17-19 | returns the stored entries in insertion order |
| PettyCashStore.PettyCashService.GetEntryById | src/services/petty-cash.service.ts:21-23 | returns the first entry holding the id, or none exactly when no entry holds it |
| PettyCashStore.PettyCashService.UpdateEntry | src/services/petty-cash.service.ts:25-36 | absent id: returns none and changes nothing; otherwise only the first matching slot changes, to the old record merged with the update and stamped now, which is returned; ids stay distinct when the update does not name `id` |
| PettyCashStore.PettyCashService.UpdateStatus | src/services/petty-cash.service.ts:38-40 | as `UpdateEntry`, and the new record is the old one with only status and `updatedAt` changed, so ids stay distinct |
| PettyCashStore.PettyCashService.DeleteEntry | src/services/petty-cash.service.ts:42-48 | true exactly when the id is present; then the first match is removed and the rest keep their order; otherwise nothing changes; ids stay distinct |
| PettyCashStore.PettyCashService.GetEntriesByStatus | src/services/petty-cash.service.ts:50-52 | returns the status filter of the stored entries |
| PettyCashStore.PettyCashService.GetEntriesByRequester | src/services/petty-cash.service.ts:54-56 | returns the requester filter of the stored entries |
| Reports.InPeriod | src/services/report.service.ts:37-38 | an entry lies in a period only when the period is not reversed |
| Reports.PeriodEntries | src/services/report.service.ts:36-39 | no more entries than the input; an entry is kept exactly when it is in the input with `startDate <= date <= endDate`; a reversed period keeps nothing |
| Reports.PeriodEntriesExact | src/services/report.service.ts:36-39 | the period filter lists the entries at the matching positions, in store order |
| Reports.Sum | src/services/report.service.ts:42 | the `reduce` total of non-negative amounts is non-negative, and of zero amounts is zero |
| Reports.AddToGroups | src/services/report.service.ts:49-61 | adding one entry opens at most one new group and removes none |
| Reports.Grow | src/services/report.service.ts:58-61 | a group keeps its head, and keeps its count equal to its length and its total equal to its sum |
| Reports.GroupBy | src/services/report.service.ts:45-62 | entries in the period give at least one group |
| Reports.GroupByAtMost | src/services/report.service.ts:45-62 | there are never more groups than entries |
| Reports.GroupIndex | src/services/report.service.ts:49 | the `Map.has`/`Map.get` lookup: a group holding the key, or none exactly when no group holds it |
| Reports.EntryKeys | src/services/report.service.ts:48 | the key of every entry, position by position |
| Reports.Dedup | src/services/report.service.ts:87 | the distinct keys of a list, each listed once, with the same set of keys as the list |
| Reports.DedupFirstSeenOrder | src/services/report.service.ts:87 | distinct keys are listed in order of first occurrence |
| Reports.GroupByIsGrouping | src/services/report.service.ts:45-62 | one group per distinct key in first-seen order; each group has exactly the entries of its key in filter order, a non-empty list whose first entry gives the group's category, a count equal to its length and a total equal to its sum |
| Reports.GroupByKeys | src/services/report.service.ts:87 | the group keys are the distinct entry keys in first-seen order |
| Reports.GroupsInFirstSeenOrder | src/services/report.service.ts:47-56 | of two groups, the earlier one's key occurs in an entry before any entry with the later one's key |
| Reports.EntryInOneGroup | src/services/report.service.ts:45-62 | every filtered entry lies in exactly one group, the one of its own key |
| Reports.TotalsOfUpdate | src/services/report.service.ts:59-60 | replacing one group changes the sum of totals and of counts by that group's difference |
| Reports.GroupByTotals | src/services/report.service.ts:42-86 | group totals add up to the overall total and group counts to the number of entries |
| Reports.OpenThenGrow | src/services/report.service.ts:49-61 | opening an empty group for a new key and adding the entry equals appending the one-entry group |
| Reports.GroupEntries | src/services/report.service.ts:45-62 | the `forEach` loop that fills the `Map` produces the specification grouping |
| Reports.GenerateSummaryReport | src/services/report.service.ts:32-91 | the period is passed through; the total and count are those of the period's entries; both groupings are partitions by key in first-seen order, whose totals and counts add up to the overall ones |
| Reports.KeyReport | src/services/report.service.ts:93-115 | none exactly when no entry has the key and lies in the period; otherwise the matching entries in order, their count and sum, and the first match's head |
| Reports.KeyReportIsSummaryGroup | src/services/report.service.ts:93-115 | a per-key report equals the summary's group for that key, and is none exactly when the summary has no such group |
| Reports.GenerateCategoryReport | src/services/report.service.ts:93-115 | none exactly when no entry has the category id in the period; otherwise exactly those entries, their count and sum, and the first match's category |
| Reports.GenerateRequesterReport | src/services/report.service.ts:117-139 | the same for a requester id |
| Reports.CategoryReportIsSummaryGroup | src/services/report.service.ts:93-115 | the category report equals the summary's group of that category |
| Reports.RequesterReportIsSummaryGroup | src/services/report.service.ts:117-139 | the requester report equals the summary's group of that requester |
| CsvExport.EscapeLength | src/services/report.service.ts:162 | escaping adds exactly one character per quote |
| CsvExport.EscapeUnchanged | src/services/report.service.ts:162 | escaping leaves a text unchanged exactly when it has no quote |
| CsvExport.JoinEnds | src/services/report.service.ts:155 | a `join` begins with its first part and ends with its last |
| CsvExport.StatusText | src/services/report.service.ts:166 | a status is written as non-empty text without delimiter, quote or newline |
| CsvExport.StatusTextDistinct | src/services/report.service.ts:166 | no two statuses are written the same way |
| CsvExport.NotesCell | src/services/report.service.ts:167 | the notes field reads as the note, or as empty when there is none; an absent or empty note is written as an empty bare field; the field is always writable |
| CsvExport.EntryCells | src/services/report.service.ts:158-170 | an entry's line has one field per header column; the field texts are the entry's column values; the line is writable when the unquoted values are plain |
| CsvExport.RenderCells | src/services/report.service.ts:170 | one rendered field per cell, the i-th being the i-th cell rendered |
| CsvExport.Lines | src/services/report.service.ts:172 | one line per record, the i-th being the i-th record's line |
| CsvExport.Records | src/services/report.service.ts:158 | one record per entry, the i-th being the i-th entry's fields |
| CsvExport.ExportToCsv | src/services/report.service.ts:141-173 | the export begins with the header line and, when there are entries, ends with the last entry's line |
| CsvExport.ParseQuoted | src/services/report.service.ts:162-165 | reading a quoted field always consumes input |
| CsvExport.ParseBare | src/services/report.service.ts:159-161 | reading a bare field splits the text into the field and what follows it |
| CsvExport.QuotedRoundTrip | src/services/report.service.ts:162-165 | un-escaping a field written with doubled quotes gives back the original text |
| CsvExport.BareRoundTrip | src/services/report.service.ts:159-161 | a bare field without delimiter, quote or newline reads back unchanged |
| CsvExport.FieldRoundTrip | src/services/report.service.ts:158-170 | every written field reads back as its text, leaving the separator that follows |
| CsvExport.RecordRoundTrip | src/services/report.service.ts:158-170 | a written line reads back as the texts of its fields |
| CsvExport.DocumentRoundTrip | src/services/report.service.ts:172 | newline-joined lines read back as the texts of every line, in order |
| CsvExport.RecordsRoundTrip | src/services/report.service.ts:158-170 | every entry line reads back as that entry's column values |
| CsvExport.BareCellsRoundTrip | src/services/report.service.ts:143-155 | plain names written bare form a writable line of the same names |
| CsvExport.HeaderNamesPlain | src/services/report.service.ts:143-155 | the eleven column names contain no delimiter, quote or newline |
| CsvExport.HeaderRoundTrip | src/services/report.service.ts:143-155 | the header line reads back as the eleven column names in order |
| CsvExport.ExportRecords | src/services/report.service.ts:141-172 | the header and entry records are all writable, and their texts are the header names then each entry's column values |
| CsvExport.ExportRoundTrip | src/services/report.service.ts:141-173 | reading an export back gives the header names, then every entry's column values, in entry order |
| CsvExport.ExportNoEntries | src/services/report.service.ts:172 | with no entries the export is exactly the header line |
| CsvExport.ExportAppend | src/services/report.service.ts:172 | one more entry adds a newline and that entry's line at the end |
| CsvExport.JoinSnoc | src/services/report.service.ts:172 | joining one more part adds the separator and that part |
| CsvExport.RecordsSnoc | src/services/report.service.ts:158 | mapping one more entry adds its line's fields at the end |
| CsvExport.LinesSnoc | src/services/report.service.ts:172 | rendering one more line adds it at the end |
| CsvExport.EscapeAppend | src/services/report.service.ts:162 | quote doubling works piecewise on concatenations |
| CsvExport.QuoteDoubled | src/services/report.service.ts:162 | a quote between quote-free texts is written as two quotes |

## Left out

- The React components, the page and the browser tests: UI state and rendering, not part of this model.
- `crypto.randomUUID()` becomes an `id` parameter and `new Date()` becomes clock parameters. The source reads the clock twice in `createEntry` and once per update.
- `async`/`Promise`: there are no suspension points, so the operations are plain methods and functions.
- The `pettyCashService` and `reportService` singletons: the reports take the entry sequence as a parameter.
- JavaScript numbers are floats. Amounts are `int` (minor currency units), and dates and instants are `int` clock readings, so sums are exact.
- The text forms of dates (`toISOString`) and of amounts (number to string) are the uninterpreted functions of `CsvExport.Formatter`.
- PettyCashStore.PettyCashService.GetEntries: returns the entries as a value. The source hands out its live array, which a caller could mutate. Likewise `createEntry` and `updateEntry` return the stored object itself, and `getEntryById` and the report groups hand out stored entry objects, so mutating any of them changes the store. Entries are values in the model, so none of this aliasing is modelled.
- PettyCashStore.PettyCashService.CreateEntry: keeps ids distinct only under the hypothesis that the supplied id is fresh. The source relies on random UUIDs not colliding, which is not modelled.
- PettyCashTypes.EntryUpdate: a partial update may set a field only to a value of its type. A `Partial<PettyCashEntry>` can also give a required field the value `undefined`, which the spread would copy; that case is not modelled. For `receiptUrl` and `notes` it is modelled.
- CsvExport.ExportRoundTrip: assumes that ids, rendered dates, rendered amounts and rendered timestamps contain no comma, quote or newline. They are written unquoted, and their text forms are not modelled.
- Nothing in the two services enforces `amount >= 0`. The entry form's amount input has `min="0"` (src/components/PettyCashForm.tsx:112), but the form is outside this model. `updatedAt >= createdAt` can fail for a clock that runs backwards, or for an update that sets `createdAt` later than the clock; `updateEntry` copies a named `createdAt`. The model assumes neither bound.
