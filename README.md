# Spreadsheet filter and export: a Dafny model

This project models the logic of a small web application. A user uploads an
`.xlsx` or `.xls` workbook, picks columns, filters the rows of the first
sheet, and downloads the result as CSV, as a new workbook, or as a vCard 3.0
contact file (RFC 2426: `FN` in section 3.1.1, `TEL` in section 3.3.1).

The model covers these parts of the application:

- **`app/api/process/route.js`** (`process_route.dfy`, module `ProcessRoute`):
  - `applyFilter` is a function. It is proved to be an order-preserving, idempotent filter that is off by default.
  - `pickColumns` is a method with nested loops. It is proved equal to the `Projection` function.
  - `buildVcf` is a method with nested loops. It is proved equal to the `VcfText` function.
  - `POST` is the function `Process`: its guard chain ends in a JSON error, a preview, or a download.
- **`vcard_reader.dfy`** (`VCardReader`) adds a reader for the vCard text `buildVcf` writes, as its inverse. Writing contacts and reading them back gives the same contacts.
- **`app/api/headers/route.js`** (`HeadersRoute`): the header-discovery guard chain.
- **`app/components/HeaderSelector.jsx`** (`HeaderSelector`): search, toggle, remove, select all and clear on the selected-columns list.
- **`app/components/ExportSection.jsx`** (`ExportSection`): the phone-column pattern, the vCard validation message, the export-button condition and the merge of a state patch.
- **`app/components/FileUpload.jsx`** (`FileUpload`): the extension test and the `handleFile` gate, which checks the type before the size.

Shared vocabulary lives in supporting modules:

- `Strings`: ASCII `toLowerCase`, `includes`, `join`, `trim`, `split('.').pop()`, the `/\.[^.]+$/` extension strip, and decimal rendering.
- `Seqs`: `Array.prototype.filter` and subsequences.
- `Tabular`: rows, workbooks and HTTP responses.
- `Wrappers`: `Option`.

Modelling choices:

- A spreadsheet row is `Row(keys, cells)`. `keys` is the `Object.keys` order the spreadsheet library produces and `cells` maps a key to its text. `row[col] ?? ''` is `Tabular.Cell`.
- An HTTP answer is `Response(status, body)`. The body is a JSON error, a preview, a header list, or a file payload with its content type and download name.
- Form fields that are absent are the empty string, because every `formData.get(x) || default` in the route treats `null` and `''` alike. A column-list field is `Absent`, `Unparsable` (the `JSON.parse` throws), `NonList` (valid JSON that is not an array) or a parsed list.
- The CSV encoder is a parameter `CsvEncoder`. It returns the CSV text, or `None` where it throws. A workbook export is the payload handed to the writer: sheet name `Export`, the header list and the projected rows.

Behaviour of the code worth knowing:

- The code decides on the name affixes before trimming them (`app/api/process/route.js:38-39`), so a whitespace-only prefix or suffix still adds its separating space. `ProcessRoute.AffixesDependOnUntrimmedText` states this.
- Only the header route has a "no column headers" error. The export route reads the first row's keys with no such check.
- In the export route the empty-sheet test (preview: `{rows: [], total: 0}`; export: 422) runs before the unknown-column check, which compares against the first row's keys (`ProcessRoute.PreviewResult`, `ProcessRoute.UnknownColumns`).
- A column field that is valid JSON but not an array is refused as "No export columns selected." only when it is the export field outside a preview (`app/api/process/route.js:108`). Otherwise, once the format check (line 112), the workbook and sheet checks (lines 119-131) and the empty-sheet test (line 136) have passed, it reaches `.filter` at lines 145-146, which throws, and the route answers with its catch-all 500 (`ProcessRoute.NonListColumns`).

## Model

| member | source | states |
|---|---|---|
| ProcessRoute.ApplyFilter | app/api/process/route.js:7-24 | when no filter column is chosen or the query is empty, the rows come back unchanged; otherwise every returned row matches in some filter column; never more rows than given |
| ProcessRoute.FilterActive | app/api/process/route.js:8 | no contract of its own; see `ProcessRoute.ApplyFilter` and `ProcessRoute.ApplyFilterMember` |
| ProcessRoute.Fold | app/api/process/route.js:15-16 | no contract of its own; see `ProcessRoute.CaseInsensitiveMatchIgnoresCase` |
| ProcessRoute.KeepRow | app/api/process/route.js:12-22 | no contract of its own; see `ProcessRoute.ApplyFilterMember` |
| ProcessRoute.CellMatches | app/api/process/route.js:14-21 | no contract of its own; see `ProcessRoute.ApplyFilterMember` and `ProcessRoute.CaseInsensitiveMatchIgnoresCase` |
| ProcessRoute.RowMatches | app/api/process/route.js:12-22 | no contract of its own; see `ProcessRoute.ApplyFilterMember` and `ProcessRoute.MissingCellsNeverMatch` |
| ProcessRoute.ApplyFilterMember | app/api/process/route.js:12-23 | with the filter on, a row is kept exactly when it is an input row and some filter column's cell matches (equality for `exact`, substring otherwise, both sides lower-cased unless case sensitive) |
| ProcessRoute.ApplyFilterSubsequence | app/api/process/route.js:12-23 | the result is an order-preserving subsequence of the input |
| ProcessRoute.ApplyFilterAppend | app/api/process/route.js:12-23 | the filter is stable: filtering a concatenation is the concatenation of the filtered parts |
| ProcessRoute.ApplyFilterIdempotent | app/api/process/route.js:7-24 | filtering twice with the same settings equals filtering once |
| ProcessRoute.CaseInsensitiveMatchIgnoresCase | app/api/process/route.js:14-21 | without case sensitivity only the lower-case forms of cell and query decide a match |
| ProcessRoute.MissingCellsNeverMatch | app/api/process/route.js:14 | a cell the row lacks compares as `''`, so it never matches a non-empty query |
| ProcessRoute.FirstOccurrences | app/api/process/route.js:28-31 | the keys of the picked object are the export columns, each once, ordered by the position of each column's first occurrence in the list |
| ProcessRoute.FirstIndex | app/api/process/route.js:28-31 | the position of a column's first occurrence in the export list: it holds that column and no earlier position does |
| ProcessRoute.FirstOccurrencesOfDistinct | app/api/process/route.js:28-31 | for export columns without repetition the picked keys are exactly the export columns in their order |
| ProcessRoute.FirstOccurrencesStep | app/api/process/route.js:29-31 | proof step, the definition unrolled once: assigning one more column adds it as the last key unless it is already a key |
| ProcessRoute.ProjectionShape | app/api/process/route.js:26-34 | the projection keeps the row count and order; each row's keys are exactly the export columns, each value is the source cell or `''` when the source row lacks it |
| ProcessRoute.Projection | app/api/process/route.js:26-34 | no contract of its own; see `ProcessRoute.ProjectionShape` and `ProcessRoute.PickColumns` |
| ProcessRoute.PickRow | app/api/process/route.js:27-32 | no contract of its own; see `ProcessRoute.ProjectionShape` and `ProcessRoute.FirstOccurrences` |
| ProcessRoute.PickedCells | app/api/process/route.js:29-31 | no contract of its own; see `ProcessRoute.ProjectionShape` |
| ProcessRoute.PickColumns | app/api/process/route.js:26-34 | the nested loops return exactly the projection of the rows onto the export columns |
| ProcessRoute.NameHeaderTokens | app/api/process/route.js:42-44 | `/name\|full.?name\|contact/i` accepts exactly the headers containing `name` or `contact` in any ASCII case |
| ProcessRoute.NameHeaderExamples | app/api/process/route.js:42-44 | `Name` is a name-like header and `Phone` is not |
| ProcessRoute.IsNameHeader | app/api/process/route.js:42-44 | no contract of its own; see `ProcessRoute.NameHeaderTokens` |
| ProcessRoute.NameKeys | app/api/process/route.js:42-44 | no contract of its own; see `ProcessRoute.BaseNameUsesFirstNameKey` and `ProcessRoute.NameKeysExample` |
| ProcessRoute.BaseName | app/api/process/route.js:42-48 | no contract of its own; see `ProcessRoute.BaseNameUsesFirstNameKey` |
| ProcessRoute.DisplayName | app/api/process/route.js:38-50 | no contract of its own; see `ProcessRoute.AffixesDependOnUntrimmedText` and `ProcessRoute.WorkedExampleNames` |
| ProcessRoute.NamePrefix | app/api/process/route.js:38 | no contract of its own; see `ProcessRoute.AffixesDependOnUntrimmedText` |
| ProcessRoute.NameSuffix | app/api/process/route.js:39 | no contract of its own; see `ProcessRoute.AffixesDependOnUntrimmedText` |
| ProcessRoute.Names | app/api/process/route.js:41-50 | one display name per row, each named by the row's position; see `ProcessRoute.WorkedExampleNames` |
| ProcessRoute.BaseNameUsesFirstNameKey | app/api/process/route.js:42-48 | only the first name-like key in key order counts: its trimmed value when not blank, otherwise `Contact{index+1}` whatever later name-like keys hold, and `Contact{index+1}` when there is no name-like key; the base name is never blank and already trimmed |
| ProcessRoute.NamesOfWorkedExample | app/api/process/route.js:45-48 | the rows Ann/555-1 and blank/555-2 get the base names `Ann` and `Contact2` |
| ProcessRoute.AffixesDependOnUntrimmedText | app/api/process/route.js:38-39 | an empty prefix or suffix adds nothing, a whitespace-only one still adds its separating space |
| ProcessRoute.WorkedExampleNames | app/api/process/route.js:41-50 | without affixes the two example rows are named `Ann` and `Contact2` |
| ProcessRoute.ContactsMember | app/api/process/route.js:52-65 | a contact is emitted exactly when some (row, phone column) pair yields it: that row's display name with the column's non-blank trimmed phone |
| ProcessRoute.RowContactsInOrder | app/api/process/route.js:52-65 | one row's cards are its non-blank trimmed phone values in phone-column order, exactly one card each, under the row's name |
| ProcessRoute.Phones | app/api/process/route.js:53-54 | one trimmed phone value per phone column; see `ProcessRoute.ContactsMember` |
| ProcessRoute.NonBlank | app/api/process/route.js:54 | no contract of its own; see `ProcessRoute.RowContactsInOrder` |
| ProcessRoute.RowContacts | app/api/process/route.js:52-65 | no contract of its own; see `ProcessRoute.RowContactsInOrder` and `ProcessRoute.PushRowCards` |
| ProcessRoute.RowGroups | app/api/process/route.js:41-65 | one group of cards per row, in row order, each the cards of that row's phone columns under its name; see `ProcessRoute.RowContactsInOrder` |
| ProcessRoute.Contacts | app/api/process/route.js:52-65 | no contract of its own; see `ProcessRoute.ContactsMember` and `ProcessRoute.PushRowCards` |
| ProcessRoute.VcfContacts | app/api/process/route.js:36-65 | no contract of its own; see `ProcessRoute.ContactsMember`, `ProcessRoute.WorkedExampleContacts` and `VCardReader.VcfTextRoundTrip` |
| ProcessRoute.VcfText | app/api/process/route.js:36-69 | no contract of its own; see `ProcessRoute.BuildVcf`, `ProcessRoute.VcfTextEmpty` and `VCardReader.VcfTextRoundTrip` |
| ProcessRoute.CardLines | app/api/process/route.js:57-63 | no contract of its own; see `VCardReader.CardTextLayout` |
| ProcessRoute.CardText | app/api/process/route.js:57-63 | no contract of its own; see `VCardReader.CardTextLayout` and `VCardReader.ParseCardOfCardText` |
| ProcessRoute.Cards | app/api/process/route.js:57-68 | no contract of its own; see `ProcessRoute.BuildVcf` and `VCardReader.ParseVcfRoundTrip` |
| ProcessRoute.PushRowCards | app/api/process/route.js:52-65 | the inner loop appends the cards of one row, one per non-blank phone column, in phone-column order, after the cards already collected |
| ProcessRoute.VcfTextEmpty | app/api/process/route.js:52-68 | the vCard text is empty exactly when no (row, phone column) pair has a non-blank trimmed phone |
| ProcessRoute.WorkedExampleContacts | app/api/process/route.js:41-65 | with phone column `Phone` the two example rows give the cards Ann/555-1 and Contact2/555-2 |
| ProcessRoute.BuildVcf | app/api/process/route.js:36-69 | the loops return the five-line cards of all rows, row-major then phone-column order, joined by CRLF |
| ProcessRoute.Export | app/api/process/route.js:174-224 | a download exactly when the status is 200; the only failure is a 500 from the CSV encoder; the file name is the upload's name without its last extension plus `_export.vcf`/`.csv`/`.xlsx`, with the matching content type |
| ProcessRoute.ExportSuffix | app/api/process/route.js:176-224 | no contract of its own; see `ProcessRoute.Export` |
| ProcessRoute.ContentTypeOf | app/api/process/route.js:176-224 | no contract of its own; see `ProcessRoute.Export` |
| ProcessRoute.ProcessRows | app/api/process/route.js:136-172 | status 200, 400, 422 or 500, with 200 exactly for a non-error body; a preview only when asked for, at most ten rows and no more than the total; a download only outside preview, correctly named; a preview is never a 422 or 500 |
| ProcessRoute.RequestError | app/api/process/route.js:76-114 | every failing request check answers 400 with an error body |
| ProcessRoute.ProcessBook | app/api/process/route.js:119-134 | from the parse on, the same guarantees as for the rows: statuses, preview bound, download name |
| ProcessRoute.Process | app/api/process/route.js:71-226 | any non-error answer means every request check passed; previews only for preview requests, at most ten rows and no more than the total; downloads only for exports, named after the upload and the requested format |
| ProcessRoute.RequestGuards | app/api/process/route.js:76-114 | the five request checks in source order (no file, extension, column JSON, no export columns outside preview, format), each with its own 400 message; outside preview an export field that is not a non-empty array is the no-export-columns 400 |
| ProcessRoute.Parses | app/api/process/route.js:93-100 | no contract of its own; see `ProcessRoute.RequestGuards` |
| ProcessRoute.ListOf | app/api/process/route.js:93-110 | no contract of its own; see `ProcessRoute.RequestGuards` and `ProcessRoute.NonListColumns` |
| ProcessRoute.IsPreview | app/api/process/route.js:106 | no contract of its own; see `ProcessRoute.Process` and `ProcessRoute.RequestGuards` |
| ProcessRoute.ParseFormat | app/api/process/route.js:103 | no contract of its own; see `ProcessRoute.ParseFormatCases` |
| ProcessRoute.RequestChecksPass | app/api/process/route.js:76-114 | no contract of its own; see `ProcessRoute.RequestGuards` and `ProcessRoute.Process` |
| ProcessRoute.RequestFailureIgnoresBook | app/api/process/route.js:76-121 | while a request check fails the answer is 400 and does not depend on the workbook |
| ProcessRoute.WorkbookGuards | app/api/process/route.js:119-131 | once the request checks pass, an unreadable workbook and then a workbook without sheets are 422 with their messages |
| ProcessRoute.ProcessReadsFirstSheet | app/api/process/route.js:133-134 | with the checks passed, a sheet present and both column fields arrays, the answer is that for the rows of the first sheet |
| ProcessRoute.NonListColumns | app/api/process/route.js:108-146 | a column field that is JSON but not an array gets past the request checks only as the filter field or in a preview; it is then answered as any empty sheet when the first sheet is empty, and otherwise with the catch-all 500 |
| ProcessRoute.FirstSheetOnly | app/api/process/route.js:133-134 | workbooks that agree on their first sheet get the same answer |
| ProcessRoute.UnknownColumns | app/api/process/route.js:143-160 | unknown filter columns are reported first, `, `-joined in the order given, then unknown export columns; a non-empty sheet is a 400 exactly when some chosen column is not a key of the first row |
| ProcessRoute.UnknownIn | app/api/process/route.js:145-146 | no contract of its own; see `ProcessRoute.UnknownColumns` |
| ProcessRoute.PreviewResult | app/api/process/route.js:136-168 | an empty sheet previews as no rows and total 0; otherwise the first ten filtered rows projected onto the export columns (the sheet's keys when none) with the full filtered count, a prefix of the full projection |
| ProcessRoute.PreviewSlice | app/api/process/route.js:166 | no contract of its own; see `ProcessRoute.PreviewResult` |
| ProcessRoute.EmptySheet | app/api/process/route.js:136-141 | no contract of its own; see `ProcessRoute.PreviewResult`, `ProcessRoute.ExportResult` and `ProcessRoute.NonListColumns` |
| ProcessRoute.ExportResult | app/api/process/route.js:170-224 | an empty sheet or no matching row is 422; otherwise vCard text from the unprojected filtered rows, or their projection given to the CSV encoder or the workbook writer |
| ProcessRoute.PreviewNeverRejectsNoMatch | app/api/process/route.js:164-172 | a preview of a workbook with at least one sheet is 200 or 400, or the catch-all 500 when a column field is not an array, and never the no-match 422 |
| ProcessRoute.ParseFormatCases | app/api/process/route.js:103-114 | the format defaults to `csv` and only `csv`, `xlsx` and `vcf` are accepted |
| VCardReader.CardTextLayout | app/api/process/route.js:57-63 | a card's five lines joined by CRLF are the fixed head, the name, the phone tag, the phone and the end tag |
| VCardReader.ParseCardOfCardText | app/api/process/route.js:57-63 | reading a written card gives back its name and phone and leaves the following text untouched, when neither holds a carriage return |
| VCardReader.ParseVcfRoundTrip | app/api/process/route.js:68 | reading back the CRLF-joined cards of any contacts without carriage returns gives those contacts in order, and none for the empty text |
| VCardReader.VcfTextRoundTrip | app/api/process/route.js:36-69 | the text `buildVcf` returns reads back as exactly the contacts it was built from |
| Tabular.AcceptedUploadNameEndings | app/api/process/route.js:80-83 | a name passes the type check exactly when it is `xlsx` or `xls` in any ASCII case, alone or after a final dot |
| Tabular.AcceptedUploadName | app/api/process/route.js:80-83 | no contract of its own; see `Tabular.AcceptedUploadNameEndings` and `FileUpload.IsValidFileMatchesServer` |
| Tabular.DotlessNameIsExtension | app/api/headers/route.js:16-18 | a name without a dot passes the type check exactly when its ASCII lower-case form is `xlsx` or `xls` |
| Tabular.BareExtensionsAccepted | app/api/headers/route.js:16-18 | the dotless names `xlsx` and `XLS` pass the type check, as a dotless name is its own extension and is lower-cased |
| Tabular.DotlessNameNotAccepted | app/api/headers/route.js:16-18 | any other dotless name, such as `report`, fails it |
| Tabular.Cell | app/api/process/route.js:14 | no contract of its own (`row[col] ?? ''`); see `ProcessRoute.MissingCellsNeverMatch` and `ProcessRoute.ProjectionShape` |
| Strings.LastSegment | app/api/process/route.js:81 | `split('.').pop()` is the suffix after the last dot, without a dot, or the whole name when it has none |
| Strings.StripExtension | app/api/process/route.js:176 | `/\.[^.]+$/` removed: cut at a final dot followed by at least one non-dot character, otherwise unchanged |
| Strings.ExtensionAt | app/api/process/route.js:176 | no contract of its own: where `/\.[^.]+$/` matches, a dot followed by one or more non-dot characters up to the end; see `Strings.StripExtension` |
| Strings.Trim | app/api/process/route.js:53 | the input with a run of ECMAScript whitespace removed at each end: a slice of the input with only whitespace before and after it; blank exactly for all-whitespace text, and otherwise neither starting nor ending with whitespace |
| Strings.TrimUnchanged | app/api/process/route.js:46-47 | text that starts and ends with non-whitespace is its own trimmed form |
| Strings.IsJsWhitespace | app/api/process/route.js:53 | no contract of its own: the WhiteSpace and LineTerminator code points `trim` removes; see `Strings.Trim` |
| Strings.IsRegexDot | app/api/process/route.js:43 | no contract of its own: the characters the regular-expression `.` matches, all but the four line terminators |
| Strings.OptionalGapAt | app/api/process/route.js:43 | no contract of its own: `first.?second` matches at one position; the same pattern shape is `contact.?no` in ExportSection.jsx |
| Strings.OptionalGap | app/api/process/route.js:43 | no contract of its own: `first.?second` matches somewhere; see `Strings.OptionalGapContainsFirst` and `Strings.OptionalGapContainsSecond` |
| Strings.OptionalGapContainsFirst | app/components/ExportSection.jsx:6 | text that `first.?second` matches contains `first`, so `contact.?no` adds no header that `contact` misses |
| Strings.OptionalGapContainsSecond | app/api/process/route.js:43 | text that `first.?second` matches contains `second`, so `full.?name` adds no key that `name` misses |
| Strings.AsciiLower | app/api/process/route.js:15-16 | no contract of its own; see `ProcessRoute.CaseInsensitiveMatchIgnoresCase`, `HeaderSelector.SearchIgnoresCase` and `ExportSection.PhoneHeaderIgnoresCase` |
| Strings.Contains | app/api/process/route.js:21 | no contract of its own; see `Strings.ContainsTransitive` and `HeaderSelector.LongerSearchNarrows` |
| Strings.Join | app/api/process/route.js:68 | no contract of its own; see `ProcessRoute.JoinOfNonEmpty` and `VCardReader.ParseVcfRoundTrip` |
| Strings.NatToDecimal | app/api/process/route.js:48 | a non-empty string of decimal digits without a leading zero for a positive number; see `Strings.DecimalRoundTrip` |
| Seqs.Filter | app/api/process/route.js:12 | `Array.prototype.filter`: no longer than the input, every kept element passes the test, and the result is a subsequence of the input, in input order |
| Seqs.FilterMultiplicity | app/components/HeaderSelector.jsx:25 | `Array.prototype.filter` keeps every copy of an element that passes and none of one that fails |
| Seqs.FilterHead | app/api/process/route.js:42-45 | the first element of a filtered list is the first input element that passes, and the result is empty when none does |
| Strings.DecimalRoundTrip | app/api/process/route.js:48 | the decimal rendering of the row number reads back as that number |
| Strings.LastSegmentWithoutSeparator | app/api/headers/route.js:16 | a name without a dot is its own extension |
| HeadersRoute.Headers | app/api/headers/route.js:11-57 | status 200, 400 or 422; a header list exactly when every guard passes, and then the first row's keys in order, never empty; an error body otherwise |
| HeadersRoute.HasHeaders | app/api/headers/route.js:42-55 | no contract of its own; see `HeadersRoute.Headers` and `HeadersRoute.HeadersGuards` |
| HeadersRoute.HeadersGuards | app/api/headers/route.js:11-55 | in order: no file and a bad extension are 400, then unreadable, no sheets, no rows and no keys are 422, each with its message |
| HeadersRoute.DotlessNameRejected | app/api/headers/route.js:15-23 | an upload named `report` gets the 400 type error whatever it holds |
| HeadersRoute.HeadersFirstSheetOnly | app/api/headers/route.js:42-45 | workbooks that agree on the first sheet get the same answer |
| HeadersRoute.DiscoveredColumnsAreKnown | app/api/headers/route.js:51-57 | columns chosen among the discovered headers are never rejected as unknown by the export route |
| HeaderSelector.Filtered | app/components/HeaderSelector.jsx:18-20 | the listed headers are a subsequence of the headers and each contains the search text, ignoring ASCII case |
| HeaderSelector.MatchesSearch | app/components/HeaderSelector.jsx:19 | no contract of its own; see `HeaderSelector.FilteredMember` and `HeaderSelector.SearchIgnoresCase` |
| HeaderSelector.FilteredMember | app/components/HeaderSelector.jsx:18-20 | a header is listed exactly when it is a header containing the search text, ignoring ASCII case |
| HeaderSelector.EmptySearchListsAll | app/components/HeaderSelector.jsx:18-20 | an empty search lists every header in order |
| HeaderSelector.SearchIgnoresCase | app/components/HeaderSelector.jsx:18-20 | searches that differ only in ASCII case list the same headers |
| HeaderSelector.LongerSearchNarrows | app/components/HeaderSelector.jsx:18-20 | a header listed for a search is listed for any piece of that search |
| HeaderSelector.WithoutMember | app/components/HeaderSelector.jsx:25 | `filter(c => c !== col)` keeps exactly the other columns |
| HeaderSelector.Without | app/components/HeaderSelector.jsx:25 | no contract of its own; see `HeaderSelector.WithoutMember` |
| HeaderSelector.RemoveColumn | app/components/HeaderSelector.jsx:33-39 | the column is gone, every other column stays in order with as many copies as before, and a selection without it is unchanged |
| HeaderSelector.ToggleColumn | app/components/HeaderSelector.jsx:22-31 | the column's membership flips and every other column keeps its number of copies; an absent column is appended at the end, a present one removed keeping the rest in order |
| HeaderSelector.ToggleTwiceRestores | app/components/HeaderSelector.jsx:22-31 | toggling an unselected column twice gives back the selection |
| HeaderSelector.ToggleTwiceMovesToEnd | app/components/HeaderSelector.jsx:22-31 | toggling a selected column twice moves it to the end, once |
| HeaderSelector.ToggleTwiceExample | app/components/HeaderSelector.jsx:22-31 | toggling `a` twice in `[a, b]` gives `[b, a]` |
| HeaderSelector.ToggleKeepsNoDuplicates | app/components/HeaderSelector.jsx:22-31 | toggling keeps a selection free of repetitions |
| HeaderSelector.RemoveKeepsNoDuplicates | app/components/HeaderSelector.jsx:33-39 | removing keeps a selection free of repetitions |
| HeaderSelector.SelectAllCoversSearch | app/components/HeaderSelector.jsx:164 | after select all every listed header is selected and toggling it deselects it |
| HeaderSelector.SelectAllContents | app/components/HeaderSelector.jsx:164 | select all is exactly the header list, in order, and so has no repetitions when the headers have none |
| HeaderSelector.SelectAll | app/components/HeaderSelector.jsx:164 | no contract of its own; see `HeaderSelector.SelectAllContents` and `HeaderSelector.SelectAllCoversSearch` |
| HeaderSelector.ClearThenToggle | app/components/HeaderSelector.jsx:172 | clear selects nothing, and toggling a column then selects only it |
| HeaderSelector.Clear | app/components/HeaderSelector.jsx:172 | no contract of its own; see `HeaderSelector.ClearThenToggle` |
| ExportSection.PhoneHeaderExamples | app/components/ExportSection.jsx:6 | `Phone Number`, `MOBILE` and `Contact_No` look like phone columns, `Email` does not |
| ExportSection.EmailIsNoPhoneHeader | app/components/ExportSection.jsx:6 | `Email` matches none of the six alternatives |
| ExportSection.ContactNoIsPhoneAndName | app/components/ExportSection.jsx:6 | `Contact No` is a phone column here and also a name-like header for the vCard names |
| ExportSection.ContactNoRowNamedAfterNumber | app/api/process/route.js:41-65 | a row whose only column is `Contact No`, exported with that column as the phone column, gives one card named after its own trimmed number |
| ExportSection.PhoneHeaderIgnoresCase | app/components/ExportSection.jsx:6 | headers that differ only in ASCII case are judged alike, and a header is judged as its lower-case form |
| ExportSection.IsPhoneHeader | app/components/ExportSection.jsx:6 | no contract of its own; see `ExportSection.PhoneHeaderExamples`, `ExportSection.PhoneHeaderIgnoresCase` and `ExportSection.DetectedPhoneColumns` |
| ExportSection.DetectedPhoneColumns | app/components/ExportSection.jsx:41-44 | the detected columns are a subsequence of the headers, holding exactly the headers that look like phone columns |
| ExportSection.VcfValidationError | app/components/ExportSection.jsx:46-60 | no message unless the format is `vcf`; then the select-a-column message for no columns, otherwise a message exactly when no selected column looks like a phone column; messages are never empty |
| ExportSection.NoPhoneMessageListsDetected | app/components/ExportSection.jsx:52-58 | the no-phone message names every detected phone column, or says none were found when there is none |
| ExportSection.NoPhoneColumnMessage | app/components/ExportSection.jsx:52-58 | no contract of its own; see `ExportSection.NoPhoneMessageListsDetected` |
| ExportSection.ExportDisabledCases | app/components/ExportSection.jsx:62-63 | export is disabled exactly when not allowed, already running, or a vCard export has no column or no phone-like column |
| ExportSection.OtherFormatsIgnoreVcfCheck | app/components/ExportSection.jsx:62-63 | for CSV and workbook exports only `canExport` and `isExporting` matter |
| ExportSection.ExportDisabled | app/components/ExportSection.jsx:62-63 | no contract of its own; see `ExportSection.ExportDisabledCases` and `ExportSection.OtherFormatsIgnoreVcfCheck` |
| ExportSection.Update | app/components/ExportSection.jsx:37-39 | each field comes from the patch when it has one, otherwise it is kept |
| ExportSection.UpdateNeutralAndIdempotent | app/components/ExportSection.jsx:37-39 | an empty patch changes nothing, and applying a patch twice is applying it once |
| ExportSection.UpdateCompose | app/components/ExportSection.jsx:37-39 | two successive patches equal one merged patch in which the later one wins |
| ExportSection.SingleFieldUpdates | app/components/ExportSection.jsx:37-39 | a one-field patch changes that field and leaves the other three as they were |
| FileUpload.IsValidFileMatchesServer | app/components/FileUpload.jsx:12-15 | the browser's extension test accepts exactly the names both server routes accept |
| FileUpload.IsValidFile | app/components/FileUpload.jsx:12-15 | no contract of its own; see `FileUpload.IsValidFileMatchesServer` |
| FileUpload.HandleFile | app/components/FileUpload.jsx:22-41 | the local error is cleared first; a missing file does nothing more; the file is handed on exactly when its type is valid and its size is at most 20 MB, and only that file |
| FileUpload.HandleFileOutcomes | app/components/FileUpload.jsx:24-38 | the local error and the shown error, for any error text the page passes in: without a file the local error is cleared and the page's error is shown; a bad type shows the type error whatever the size and whatever the page's error; a valid but oversize file shows the size error; an accepted file clears the local error, so the page's error is shown |
| FileUpload.LocalError | app/components/FileUpload.jsx:20-36 | no contract of its own: `localError` after the handler, the message of its last `setLocalError`; see `FileUpload.HandleFileOutcomes` |
| FileUpload.DisplayError | app/components/FileUpload.jsx:71 | no contract of its own: the local error when there is one, otherwise the `error` prop; see `FileUpload.HandleFileOutcomes` |
| FileUpload.SizeLimitBoundary | app/components/FileUpload.jsx:32-36 | exactly 20971520 bytes is accepted, one byte more is rejected with the size error |
| FileUpload.AcceptedUploadPassesServerTypeCheck | app/components/FileUpload.jsx:38 | a file the widget accepts passes the server's type check |

## Left out

- The spreadsheet library (`XLSX.read`, `sheet_to_json`, `json_to_sheet`, `book_new`, `book_append_sheet`, `XLSX.write`) is foreign code. A workbook is the datatype `Corrupt | Book(sheets)`, already decoded into rows. Cell-to-string coercion and the handling of duplicate headers happen inside it and are not modelled.
- `String(row[c])`: cells are already text, so the coercion is the identity. The model also takes every key of a row to have a cell, as `sheet_to_json` with `defval: ''` gives.
- ProcessRoute.FirstOccurrences: this is insertion order. A JavaScript object lists integer-like keys such as `"2"` first in ascending numeric order, and that reordering of `Object.keys` is not modelled.
- CSV serialisation by json2csv is the parameter `CsvEncoder`. Its quoting and line endings are not part of this model, so there is no CSV round trip.
- The workbook download is the payload handed to `XLSX.write` (sheet `Export`, header, rows), not its bytes.
- Full vCard conformance is not modelled, only the literal output of the code. The code writes no `N` property and does none of the escaping or line folding of RFC 2426 section 4.
- VCardReader.VcfTextRoundTrip: this holds only for names and phones without a carriage return. The written text does not escape one, so for such a value the round trip does not hold.
- Transport is not modelled: `request.formData()`, `arrayBuffer`, `Buffer`, `NextResponse` and the HTTP header strings. Responses are the `Response` datatype; the content type and download name are kept, the `Content-Disposition` syntax is not.
- ProcessRoute.Process and HeadersRoute.Headers: the outer catch-all 500 is modelled only for the one throw in the modelled code, `.filter` on a column field that is not an array. Throws from the transport or inside the spreadsheet library are not modelled.
- The "Unhandled export format" 500 at `app/api/process/route.js:226` is unreachable, because the format was checked at lines 112-114. The model's match over the three formats has no such case.
- A column field that parses to an array is taken to be an array of strings. Arrays holding numbers, `null` or objects are not modelled.
- `toLowerCase` and the `/i` flag are ASCII case folding here. Unicode case mapping is not modelled. Strings are sequences of characters, not UTF-16 code units.
- The React state (`isOpen`, `search`, `localError`, the export state) is not modelled as state. The callbacks `onChange` and `onFileAccepted` become returned values: the new selection, the merged export state, and the list of effects of `handleFile`. The `error` text the page passes to the upload widget becomes a parameter of `FileUpload.DisplayError` and `FileUpload.HandleFileOutcomes`.
- JSX rendering, the dropdown's open and close and the click-outside handling in `HeaderSelector.jsx`, and drag-and-drop and the input element in `FileUpload.jsx` are not modelled.
- ExportSection.ExportDisabled: `canExport` is a parameter. It is computed in `app/page.jsx`, which is not part of this model.
- The MIME-type list `ACCEPTED_TYPES` in `FileUpload.jsx` is declared but never used by `isValidFile`, so it is not modelled.
