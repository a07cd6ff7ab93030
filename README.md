# Vista SOT ledger — a Dafny model

The Vista Auctions "SOT control room" keeps a source-of-truth ledger of auction
purchases and their resale. Each line records what was paid for an item (hammer price,
buyer premium, lot fee, tax, paid total) and what it sold for (marketplace, sale price,
fees, shipping). It also holds the realized profit and ROI derived from those figures.
The ledger lives in a CSV file with fourteen fixed columns.

This project models four parts of the system:

- **The row codec and calculator** (`sot.dfy`, module `Sot`). It covers:
  - decoding a parsed CSV record into a typed row and encoding a row back into a record;
  - the lenient number coercion applied to every numeric cell;
  - `computeFinancials`, which derives the profit, rounded to cents, and the ROI.
- **The load filter of `GET /api/sot`** (`sot_route.dfy`, module `SotRoute`). It drops
  the `totals` footer and decodes and recomputes the remaining records, in order.
- **The upload naming of `POST /api/upload`** (`upload_route.dfy`, module `UploadRoute`).
  It sanitises the client's file name and builds the stored file name and public URL
  from a timestamp.
- **The editor page** (`page.dfy`, module `Page`). The page's `rows` and `search` state
  is a class, `Ledger`, and its actions are methods that replace `rows`:
  - editing a cell, adding a line, and importing parsed records;
  - the search filter, the totals fold (a loop), the sold lines, the three dashboard
    ratios, and the shape of the export grid.

Three supporting modules model the JavaScript built-ins the code relies on:

- `jsnumber.dfy` (module `JsNumber`) covers:
  - JavaScript numbers as extended reals with NaN;
  - `Number(str)`, following section 7.1.4.1.1 of ECMA-262: white space is trimmed, blank
    text is 0, `0x`/`0o`/`0b` integers and signed decimals with a fraction and an exponent
    are read, `Infinity` is accepted, anything else is NaN, and magnitudes from 2^1024 − 2^970
    up overflow to infinity;
  - `Number(x.toFixed(2))`, section 21.1.3.3 of ECMA-262, rounding half away from zero to
    cents. Values of magnitude 1e21 or more are left as they are.
- `jstext.dfy` (module `JsText`) covers `trim` with the ECMA-262 white space and line
  terminators, `toLowerCase` and `includes`.
- `seqs.dfy` (module `Seqs`) covers the order-preserving `filter` and `map` of arrays.

Notes on the code's behaviour:

- `normalizeNumber` hands its cleaned text to `Number`, so exponents (`1e3`), radix
  integers (`0x10`) and `Infinity` are read too. `Infinity` is then replaced by 0
  because it is not finite.
- `toCsvRecord` puts the numbers into the record as numbers, not as text. Its result is
  modelled as a map to `Cell = Text | Number`.
- `fromCsvRecord` trims only the `Invoice` cell. The other text columns are copied
  verbatim.

## Model

| member | source | states |
|---|---|---|
| Sot.HeadersAreColumns | src/lib/sot.ts:18-33 | The constant `CsvHeaders` lists 14 headers: they are the columns of the 14 row fields, in declaration order, and every field's header is among them. |
| Sot.HeadersDistinct | src/lib/sot.ts:18-33 | No two fields share a header. |
| Sot.ComputeEmptyRow | src/lib/sot.ts:35-50 | The blank template, the constant `EmptyRow`, is already computed: recomputing it changes nothing. |
| Sot.NormalizeNumber | src/lib/sot.ts:52-58 | The result is always finite. It is 0 for a missing cell, for text that is blank once commas are removed and it is trimmed, and for text that is unparseable or parses to an infinity. Otherwise it is the parsed number. |
| Sot.NormalizeIgnoresComma | src/lib/sot.ts:54 | A comma anywhere in the text does not change the result. |
| Sot.StripCommasDropsComma | src/lib/sot.ts:54 | Removing every comma is the same with or without one more comma at any position. |
| Sot.StripCommas | src/lib/sot.ts:54 | No comma is left. |
| Sot.Cleaned | src/lib/sot.ts:54 | Defines the cleaning step: commas removed, then trimmed. Its properties are Sot.CleanedPlain and Sot.NormalizeIgnoresComma. |
| Sot.NormalizePlainDecimal | src/lib/sot.ts:52-58 | `"1234.50"` gives 1234.5. |
| Sot.NormalizeThousandsExample | src/lib/sot.ts:54 | `"1,234.50"` gives 1234.5: the thousands separator is ignored. |
| Sot.NormalizeFallbacks | src/lib/sot.ts:53-57 | `"abc"`, `""` and a missing cell all give 0. |
| Sot.NormalizeDecimalString | src/lib/sot.ts:52-58 | Written in decimal without separators, every whole number below 10^21 reads back as itself. |
| Sot.NormalizeCents | src/lib/sot.ts:52-58 | Fixed-point text with a sign and two decimals, for any whole number of cents below 10^24 in magnitude, reads back as that number of cents over 100. |
| Sot.NormalizeDigits | src/lib/sot.ts:52-58 | A non-empty run of digits whose value is below 10^21 reads as that decimal value. |
| Sot.CleanedPlain | src/lib/sot.ts:54 | Trimmed text without commas is left unchanged by the cleaning step. |
| Sot.RoiFromText | src/lib/sot.ts:75 | The ROI decoded from a cell renders back as that cell's text and is never a number. |
| Sot.FromCsvRecord | src/lib/sot.ts:60-77 | The invoice is the trimmed `Invoice` cell. Every number is finite. The ROI renders as the raw `Realized_ROI` text, or `""` when that column is missing, and is never a number. |
| Sot.FromCsvRecordNumbers | src/lib/sot.ts:65-74 | Every numeric field is the normalized value of its own column. |
| Sot.FromCsvRecordTexts | src/lib/sot.ts:63-70 | Purchase date, item and marketplace are their columns verbatim, with `""` for a missing column. |
| Sot.FromCsvRecordRoi | src/lib/sot.ts:75 | The ROI cell is the `Realized_ROI` text verbatim, without normalisation. |
| Sot.ToCsvRecord | src/lib/sot.ts:79-96 | Each field's header maps to that field's cell. |
| Sot.EncodeDecoded | src/lib/sot.ts:60-96 | Encoding a decoded record gives back every text column but the invoice verbatim, the invoice trimmed, every number column as its normalized number, and the `Realized_ROI` text. |
| Sot.ToCsvRecordKeys | src/lib/sot.ts:79-96 | The record has exactly the 14 header keys. |
| Sot.SameCells | src/lib/sot.ts:1-16 | Two rows with equal cells in every column but the ROI differ at most in the ROI. |
| Sot.DecodedNumber | src/lib/sot.ts:65-74 | A number cell whose rendering is in the record decodes back to the same number. |
| Sot.DecodedText | src/lib/sot.ts:63-70 | A text column decodes back to the same text. |
| Sot.DecodedInvoice | src/lib/sot.ts:62 | A trimmed invoice decodes back to itself. |
| Sot.DecodedCells | src/lib/sot.ts:60-96 | Decoding a record that holds the rendered cells of a row with a trimmed invoice restores every column but the ROI. |
| Sot.DecodeEncoded | src/lib/sot.ts:60-96 | Decoding such a record gives the row back, with the ROI replaced by the decoded `Realized_ROI` text. |
| Sot.DecodeEncodedComputes | src/lib/sot.ts:60-110 | Decoding and recomputing such a record equals recomputing the original row. |
| Sot.ComputeIgnoresRoi | src/lib/sot.ts:98-110 | The calculator does not read the ROI it overwrites. |
| Sot.DecodeEncodedExactly | src/lib/sot.ts:60-96 | A row whose ROI is empty or non-empty text decodes back exactly from its rendered record. |
| Sot.RoiRoundTrip | src/lib/sot.ts:75 | A non-numeric, non-empty ROI rendered as text decodes back to itself. |
| Sot.HasSale | src/lib/sot.ts:99 | Defines a sale: `soldFor` finite and positive. Its use is stated by Sot.ComputeFinancials. |
| Sot.RawProfit | src/lib/sot.ts:101 | Defines the unrounded profit: sale less fees, shipping and paid. Sot.ProfitIsRoundedToCents bounds its distance to the stored profit. |
| Sot.ComputeFinancials | src/lib/sot.ts:98-110 | Only the profit and ROI change. With a sale (`soldFor` finite and positive) the profit is the sale less fees, shipping and paid, rounded to cents; without one it is kept. The ROI is profit over paid exactly when there is a sale and the paid total is truthy, and is otherwise `""`. |
| Sot.ComputeIdempotent | src/lib/sot.ts:98-110 | Recomputing a computed row changes nothing. |
| Sot.ComputeNeverDividesByZero | src/lib/sot.ts:103 | The ROI is never a division by zero or by NaN. On finite numbers with a sale and a non-zero paid total it is the rounded profit over the paid total. |
| Sot.ProfitIsRoundedToCents | src/lib/sot.ts:100-102 | On finite numbers with a sale and an exact difference below 1e21 in magnitude, the profit is a whole number of cents within half a cent of the exact difference. |
| Sot.ProfitRendersAsCents | src/lib/sot.ts:52-102 | On the same inputs, the rounded profit, negative ones included, written as signed fixed-point text with two decimals, normalizes back to itself. |
| Sot.ComputeSoldLine | src/lib/sot.ts:98-110 | Selling at 100 with 10 fees, 5 shipping and 50 paid gives a profit of 35 and an ROI of 0.7. |
| Sot.ComputeUnsoldLine | src/lib/sot.ts:99-103 | An unsold line keeps its profit and has ROI `""`. |
| Sot.ComputeUnpaidLine | src/lib/sot.ts:103 | A sale with nothing paid has a profit but ROI `""`. |
| JsNumber.Truthy | src/lib/sot.ts:103 | Defines a number used as a condition, as in `row.paidTotal ?` and `Number(value) \|\| 0`: false exactly for 0 and NaN. |
| JsNumber.GreaterThanZero | src/app/page.tsx:76 | Defines `n > 0`: true for positive finite values and +Infinity, false for NaN. |
| JsNumber.Add | src/app/page.tsx:65-69 | `+` is exact on finite values, finite exactly when both operands are, and NaN when either is. |
| JsNumber.Sub | src/lib/sot.ts:101 | `-` is exact on finite values and finite exactly when both operands are. |
| JsNumber.Div | src/lib/sot.ts:103 | `/` by a finite non-zero value is the real quotient; division by 0 is never finite. |
| JsNumber.AddAssociates | src/app/page.tsx:62-74 | Addition on the extended reals with NaN is associative. |
| JsNumber.FromReal | src/lib/sot.ts:56 | A magnitude below the overflow bound is kept. At or beyond it the value overflows to the infinity of its own sign, never to NaN. |
| JsNumber.StringToNumber | src/lib/sot.ts:56 | Defines `Number(str)`: trimmed blank text is 0, `0x`/`0o`/`0b` prefixes select a radix, the rest is a signed decimal or NaN. Its properties are the lemmas below. |
| JsNumber.DigitsParse | src/lib/sot.ts:56 | `Number` of a run of digits below 10^21 is its decimal value. |
| JsNumber.UnsignedDecimalFraction | src/lib/sot.ts:56 | `a.b` reads as the digits of `ab` scaled down by the length of `b`. |
| JsNumber.StringToNumberDecimalExample | src/lib/sot.ts:56 | `Number("1234.50")` is 1234.5. |
| JsNumber.StringToNumberCents | src/lib/sot.ts:56 | `Number` reads the signed fixed-point text of c cents as exactly c / 100, for every c below 10^24 in magnitude. |
| JsNumber.CentsText | src/lib/sot.ts:101 | Writes a whole number of cents as an optional `-`, the whole part, a `.` and two digits. The text is never empty. |
| JsNumber.StringToNumberLettersExample | src/lib/sot.ts:56-57 | `Number("abc")` is NaN. |
| JsNumber.Round2 | src/lib/sot.ts:101 | Defines the rounding of a finite value to cents, half away from zero, below 1e21 in magnitude. JsNumber.Round2Close and JsNumber.Round2Idempotent state its properties. |
| JsNumber.ToFixed2 | src/lib/sot.ts:101 | Rounding keeps a value finite exactly when it was, and leaves NaN and the infinities as they are. |
| JsNumber.Round2Close | src/lib/sot.ts:101 | Below 1e21 in magnitude, rounding lands on a whole number of cents within half a cent of the value. |
| JsNumber.Round2Idempotent | src/lib/sot.ts:101 | Rounding a rounded value changes nothing. |
| JsNumber.Round2Ties | src/lib/sot.ts:101 | On exact decimal values, half cents round away from zero: 1.005 gives 1.01, −1.005 gives −1.01 and 2.675 gives 2.68. |
| JsNumber.DecimalString | src/app/api/upload/route.ts:19 | The decimal text of the timestamp is non-empty and consists of digits only. |
| JsNumber.DecimalStringRoundTrip | src/app/api/upload/route.ts:19 | The decimal text of a number reads back as that number and has no superfluous leading zero. |
| JsText.Trim | src/lib/sot.ts:54 | Defines `trim`: white space dropped at both ends. Its properties are the lemmas below. |
| JsText.TrimIsCore | src/lib/sot.ts:62 | `trim` gives a slice of the text with no white space at either end, and leaves a string without white space at its ends unchanged. |
| JsText.TrimIdempotent | src/lib/sot.ts:54 | Trimming twice is trimming once. |
| JsText.BlankIffAllWhiteSpace | src/app/page.tsx:52 | Text is blank after trimming exactly when every character is white space. |
| JsText.TrimStartSuffix | src/lib/sot.ts:62 | The kept characters are the last ones of the text, and the dropped ones are white space. |
| JsText.TrimEndPrefix | src/lib/sot.ts:62 | The kept characters are the first ones of the text, and the dropped ones are white space. |
| JsText.ToLower | src/app/page.tsx:53-58 | Lower-casing keeps the length and lowers each character in place. |
| JsText.ToLowerIdempotent | src/app/page.tsx:53-58 | Lower-casing twice is lower-casing once, and no upper-case letter is left. |
| JsText.Includes | src/app/page.tsx:56-58 | `includes` holds exactly when the query occurs at some position. |
| Seqs.Filter | src/app/page.tsx:54 | A filter is no longer than its input, and every element it keeps satisfies the predicate. |
| Seqs.FilterConcat | src/app/page.tsx:54 | Filtering distributes over concatenation, so survivors keep their order. |
| Seqs.FilterKeepsAll | src/app/page.tsx:54 | Nothing is dropped exactly when every element satisfies the predicate, and then the result is the input. |
| Seqs.FilterCounts | src/app/page.tsx:54 | Every occurrence of a satisfying element is kept, and no other element is. |
| Seqs.SourceIndex | src/app/page.tsx:349 | The returned position holds the k-th survivor of the filter, and exactly k survivors come before it; -1 when there are not that many survivors. |
| Seqs.Map | src/app/page.tsx:179 | `map` keeps the length and applies the function at every position. |
| SotRoute.IsTotalsRecord | src/app/api/sot/route.ts:18 | Defines the footer test: the trimmed, lower-cased `Item` cell, `""` when missing, is `totals`. |
| SotRoute.LoadRow | src/app/api/sot/route.ts:19 | Defines the decoding of one record: decoded, then recomputed. |
| SotRoute.LoadRowsFromLines | src/app/api/sot/route.ts:17-19 | The output is the non-footer records, in order, each decoded and recomputed. |
| SotRoute.LoadRows | src/app/api/sot/route.ts:17-19 | No more rows come out than records go in, and no row's ROI is raw CSV text. |
| SotRoute.LoadKeepsLines | src/app/api/sot/route.ts:18 | Every occurrence of a record that is not the `totals` footer is kept, and no footer record is. |
| SotRoute.MissingItemIsLine | src/app/api/sot/route.ts:18 | A record without an `Item` column is never the footer. |
| SotRoute.LoadRowsConcat | src/app/api/sot/route.ts:17-19 | Loading distributes over concatenation, so the output keeps the input order. |
| SotRoute.LoadRowsLength | src/app/api/sot/route.ts:17-19 | The output is as long as the input exactly when no record is the footer. |
| UploadRoute.Sanitize | src/app/api/upload/route.ts:5 | The result is no longer than the name, and every character is an ASCII letter, a digit, `.`, `\`, `-` or `_`. |
| UploadRoute.SanitizeKeepsAllowed | src/app/api/upload/route.ts:5 | The allowed characters of the name are kept, in order. |
| UploadRoute.SanitizeNoDoubleUnderscore | src/app/api/upload/route.ts:5 | No two `_` are adjacent, and a leading `_` means the name began with a disallowed character. |
| UploadRoute.SanitizeRun | src/app/api/upload/route.ts:5 | A maximal run of disallowed characters, `_` included, becomes exactly one `_`. |
| UploadRoute.SanitizeAllowed | src/app/api/upload/route.ts:5 | An allowed character is copied through. |
| UploadRoute.SanitizeIdempotent | src/app/api/upload/route.ts:5 | Sanitising twice is sanitising once. |
| UploadRoute.SanitizeEmpty | src/app/api/upload/route.ts:5 | The result is empty exactly when the name is. |
| UploadRoute.StoredName | src/app/api/upload/route.ts:19 | Defines the stored name: the timestamp in decimal, `-`, the sanitised name. UploadRoute.StoredNameTimestamp states its shape. |
| UploadRoute.UploadUrl | src/app/api/upload/route.ts:23 | Defines the public URL: `/uploads/` and the stored name. UploadRoute.StoredNameIsPlain states its shape. |
| UploadRoute.StoredNameIsPlain | src/app/api/upload/route.ts:19-23 | The stored name has no `/`, and the URL is `/uploads/` followed by the stored name. |
| UploadRoute.StoredNameTimestamp | src/app/api/upload/route.ts:19 | The stored name is the timestamp's digits, then `-`, then the sanitised name, and the timestamp reads back from it. |
| Page.FilteredRows | src/app/page.tsx:51-60 | Defines the search filter. Page.FilteredRowsSpec and Page.FilteredRowsConcat state what it shows. |
| Page.FilteredRowsSpec | src/app/page.tsx:51-60 | A blank search shows every row. Otherwise every occurrence of a row whose lower-cased item, invoice or marketplace contains the lower-cased, untrimmed query is shown, and no other row is. |
| Page.FilteredRowsConcat | src/app/page.tsx:51-60 | The filter keeps ledger order and never shows more rows than the ledger holds. |
| Page.ShownIndex | src/app/page.tsx:349 | The returned ledger position holds the row the table shows at position k, and exactly k shown rows come before it, so duplicates cannot confuse it; -1 when the table has no row k. |
| Page.Accumulate | src/app/page.tsx:65-69 | Defines one step of the fold: each running sum plus the row's column. |
| Page.TotalsOf | src/app/page.tsx:62-74 | Defines the totals as the left fold of Page.Accumulate from zero. Page.TotalsConcat and Page.TotalsOfFinite state its values. |
| Page.TotalsConcat | src/app/page.tsx:62-74 | The totals of two runs of rows combine column by column. |
| Page.TotalsOfFinite | src/app/page.tsx:62-74 | Over rows of finite numbers each total is finite and is the exact sum of its column. |
| Page.SoldLines | src/app/page.tsx:76 | Defines the sold lines as a filter of the shown rows. Page.SoldLinesSpec states which are kept. |
| Page.SoldLinesSpec | src/app/page.tsx:76 | The sold lines are exactly the shown rows with a positive sale price, each occurrence kept, in order. |
| Page.MetricsOf | src/app/page.tsx:78-81 | Sell-through is 0 with no shown row, and otherwise the number of sold lines over the number of shown rows, so it lies in [0, 1]. ROI is 0 when the paid total is 0 and realized over paid otherwise. The average ticket is 0 when no line is sold and gross sales over the sold lines otherwise. |
| Page.MetricsFinite | src/app/page.tsx:78-81 | Over finite rows, ROI is realized over paid whenever something was paid, the average ticket is gross sales per sold line, and neither is ever NaN or infinite. |
| Page.SellThroughComplete | src/app/page.tsx:80 | On a non-empty screen, sell-through is 1 exactly when every shown line has a sale. |
| Page.Coerce | src/app/page.tsx:152 | `Number(value) \|\| 0` is the parsed value when that is truthy, and 0 otherwise; it is never NaN. |
| Page.SetField | src/app/page.tsx:147-153 | Defines the edit of one field: the typed text, or its coerced number. Page.SetFieldSpec states its effect. |
| Page.Assign | src/app/page.tsx:149-152 | Defines the write of one field's text or number. Page.AssignSpec states its effect. |
| Page.AssignSpec | src/app/page.tsx:149-152 | The written column holds the text for a text field and the number otherwise, and every other column is unchanged. |
| Page.SetFieldSpec | src/app/page.tsx:147-153 | The edited column holds the typed text for a text field, or its coerced number otherwise, and every other column is unchanged. |
| Page.UpdatedRows | src/app/page.tsx:143-157 | The ledger keeps its length, every row but `idx` is untouched, and row `idx` is recomputed with the one field replaced. |
| Page.UpdateOutOfRange | src/app/page.tsx:145-146 | An index outside the ledger changes nothing. |
| Page.EditTextKeepsFigures | src/app/page.tsx:147-153 | Editing a text field of a computed row only replaces that field. |
| Page.ImportedRows | src/app/page.tsx:166-170 | No more rows come out than records go in, and every imported row has a non-blank item. |
| Page.ImportedRowsSpec | src/app/page.tsx:166-170 | Every decoded and recomputed row with a non-blank item is imported, as often as it occurs, and no other row is. |
| Page.ImportKeepsItems | src/app/page.tsx:166-170 | A single record is imported exactly when its `Item` cell is not blank. |
| Page.ExportLine | src/app/page.tsx:180 | Defines an export line: the record's cell for each header, `""` when missing. Page.ExportLineSpec states its shape. |
| Page.ExportLineSpec | src/app/page.tsx:179-180 | Each export line has 14 cells, and cell i holds the field of column i. |
| Page.ExportData | src/app/page.tsx:179-180 | The export has one line per ledger row, in ledger order. |
| Page.Ledger.constructor | src/app/page.tsx:19-22 | The ledger starts empty, with an empty search. |
| Page.Ledger.Load | src/app/page.tsx:40 | The loaded rows replace the ledger. |
| Page.Ledger.SetSearch | src/app/page.tsx:251 | Typing changes the search and nothing else. |
| Page.Ledger.UpdateRow | src/app/page.tsx:143-157 | The new ledger is the old one with row `idx` edited and recomputed, where `idx` counts over the whole ledger. The search is unchanged. |
| Page.Ledger.UpdateShownRow | src/app/page.tsx:349-355 | The corrected edit changes the ledger row shown at position `idx`. |
| Page.Ledger.AddRow | src/app/page.tsx:159 | A computed blank line goes in front of the unchanged old rows, so the ledger grows by one. |
| Page.Ledger.ImportCsv | src/app/page.tsx:166-172 | The imported rows go in front of the unchanged old rows, and the reported count is their number. |
| Page.Ledger.ComputeTotals | src/app/page.tsx:62-74 | The loop's running sums equal the left fold over the rows on screen (`Shown()`). |
| Page.Ledger.ExportCsv | src/app/page.tsx:178-180 | The grid is every ledger row, whatever the search, and cell (i, j) holds field j of row i. |
| Page.AddRowIsBlank | src/app/page.tsx:159 | The new line has profit 0 and ROI `""`, and it is shown first under a blank search. |
| Page.ShownRowIsEdited | src/app/page.tsx:349 | The corrected edit replaces the ledger row at the shown row's own position (the one with k shown rows before it) and leaves every other row unchanged. |
| Page.SearchExample | src/app/page.tsx:51-60 | With the ledger `[apple, banana]`, the search `ban` shows only banana. |
| Page.UpdateRowEditsHiddenRow | src/app/page.tsx:145-146 | In that example, editing the item at table position 0 rewrites the hidden apple line and leaves banana as it was. |
| Page.UpdateShownRowEditsBanana | src/app/page.tsx:349 | In that example, the corrected edit rewrites banana and leaves apple alone. |

## Left out

- Reading the CSV file, `fetch`, HTTP responses, file uploads and writes, and the browser
  download are I/O. Records arrive as a given sequence of maps, the timestamp is a
  parameter, and the export ends at the cell grid.
- CSV parsing and writing (`Papa.parse`, `Papa.unparse`, `csv-parse`) belong to libraries
  outside this model. Quoting, ragged rows and empty-line skipping are not modelled.
- The React shell is not modelled: hooks, memoisation, rendering, status messages,
  metric styles and toggles, and the `currency`, `percent` and `numberInput` display
  formatting. `src/app/layout.tsx` is not part of this model.
- `path.join` is not modelled. `sanitize` keeps `\` and `.`, so on a platform where `\`
  separates paths, a stored name such as `1-a\..\..\x` is not confined to the uploads
  directory. UploadRoute.StoredNameIsPlain states only that no `/` is left.
- IEEE-754 doubles are not modelled. Arithmetic is exact on the reals, `-0` is not
  distinguished from `0`, and `toFixed` rounds the exact decimal value half away from
  zero rather than the binary double.
- JsNumber.StringToNumber: a decimal is read as its exact value. Rounding to the nearest
  double, and underflow of tiny values to 0, are not modelled.
- JsText.ToLower: only ASCII letters are lowered. Full Unicode case mapping is not
  modelled.
- Strings are sequences of Unicode scalar values, not UTF-16 code units.
- JsNumber.DecimalString: the timestamp is written in plain decimal. Timestamps of 1e21
  or more, which JavaScript would print in exponent form, are not modelled.
- Sot.DecodeEncodedExactly: the round trip needs the ROI to be empty or non-empty text.
  A numeric ROI is read back as text, and the text `""` as the empty marker.

## Findings

| source | as written | input that shows it | evidently intended | confidence | as-written member | corrected member |
|---|---|---|---|---|---|---|
| src/app/page.tsx:145-146, src/app/page.tsx:349 | The table passes each row's position in `filtered` to `updateRow`, which indexes the whole `rows`. | Rows `[apple, banana]` and search `ban`: the table shows banana at position 0, and editing its item rewrites apple instead. | The edit changes the row the table shows. | not executed | Page.UpdateRowEditsHiddenRow | Page.ShownRowIsEdited |
