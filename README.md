# Registry and report engine of the civil-record list (`DataManager`)

This project models the logic of the `DataManager` class of a small browser application that keeps a list of civil-record entries. Each entry has an id, a name (`nama`), a 16-digit national identity number (`nik`), an address (`alamat`), an amount (`nominal`) and a creation time (`tanggalInput`). The class also exports the list to a spreadsheet, a PDF and a Word document. The DOM, the browser storage, the clock and the export libraries are removed.

Modules, one per part of the class:

- `Wrappers`: `Option` (None stands for JavaScript's NaN) and `Result`.
- `Seqs`: `Filter`, the meaning of `Array.prototype.filter`. It is specified as an order-preserving subsequence that keeps every matching occurrence and nothing else.
- `Text`: the string primitives the class relies on.
  - `trim`, with the full ECMAScript whitespace set.
  - ASCII `toLowerCase`.
  - `includes`.
  - `String(n)` for non-negative integers.
  - `padStart(2, "0")`.
  - `parseInt`.
- `Html`: `escapeHtml` and its inverse.
- `Timestamp`: `getTimestamp`, which takes the clock reading as a parameter, and a reader for the token.
- `Records`: the entry, the object literal `addData` builds, and NIK uniqueness.
- `Validation`: `validateInput`, as a decision with one outcome per check.
- `Search`: `searchData` and `getFilteredData`. They take the list as an argument instead of reading `this.data`.
- `Registry`: the class `DataManager`.
  - `data` is the entry list, newest first.
  - `stored` is the persisted copy.
  - `AddData`, `DeleteData` and `DeleteAll` change both fields step by step, as the source does.
- `Reports`: the spreadsheet rows and the PDF/Word tables.
  - The PDF and Word tables are built by loops, one row per iteration.
  - The three exporters share the empty-list guard.

Parameters stand for outside services:

- The clock: `now` for `Date.now()` and `DateTime` for `new Date()`'s getters.
- The locale date text: `createdAt` and `printedAt`.
- The confirmation dialog: `confirmed`.
- The IDR currency formatter: a function `Option<int> -> string`.

Entry ids come from the millisecond clock. Two entries created in the same millisecond would share an id, and `deleteData` would then remove both, since it drops every entry whose id matches.

Two facts about the code that the model keeps:
- `deleteData` removes every entry with the id, not only the first (app.js:37).
- Malformed stored text makes `JSON.parse` throw; there is no recovery (app.js:14).

## Model

| member | source | states |
|---|---|---|
| `Seqs.Filter` | app.js:37 | the result is a subsequence of the input, so it keeps the input's order; it holds each kept element as often as the input does and no other element |
| `Seqs.FilterKeepsAll` | app.js:37 | filtering with a test every element passes returns the input unchanged |
| `Text.TrimStart` | app.js:24-26 | the result is a suffix of the input, everything dropped is whitespace, and it does not start with whitespace |
| `Text.TrimEnd` | app.js:24-26 | the result is a prefix of the input, everything dropped is whitespace, and it does not end with whitespace |
| `Text.Trim` | app.js:55 | the result is a slice of the input with only whitespace before and after it; it is empty exactly when the input is blank, and otherwise has no whitespace at either end |
| `Text.TrimSlice` | app.js:24-26 | dropping leading and then trailing whitespace leaves a slice of the input with only whitespace cut off on either side |
| `Text.TrimEmptyIffBlank` | app.js:55 | trimming both ends leaves nothing exactly when the text is blank, which is the `!query.trim()` test |
| `Text.TrimIdempotent` | app.js:24-26 | trimming text that is already trimmed changes nothing |
| `Text.TrimUnchanged` | app.js:25 | text without whitespace at its ends is its own trimmed form |
| `Text.Lower` | app.js:59 | lower-casing keeps the length, turns each ASCII capital into its lower-case letter (code point plus 32), leaves no capital behind and keeps every other character |
| `Text.LowerIdempotent` | app.js:59 | lower-casing lower-cased text changes nothing |
| `Text.ContainsIffOccurs` | app.js:62-64 | `includes` holds exactly when the needle occurs at some offset of the haystack |
| `Text.ContainsItself` | app.js:63 | every string includes itself |
| `Text.NatToString` | app.js:456-461 | `String(n)` is a non-empty digit string with no leading zero |
| `Text.NatToStringValue` | app.js:456-461 | the digits of `String(n)` read back as n |
| `Text.NatToStringLength` | app.js:456-461 | `String(n)` has 1 digit below 10, 2 below 100, 4 for a four-digit year |
| `Text.LeadingZeroValue` | app.js:457-460 | a zero put in front by padding does not change the value |
| `Text.Pad2` | app.js:457-460 | `padStart(2, "0")` gives length 2 for shorter input and leaves longer input's length alone; the input ends the result and only `'0'` characters precede it |
| `Text.Pad2Value` | app.js:457-460 | a number below 100, padded to two places, is two digits that read back as the number |
| `Text.LeadingDigits` | app.js:27 | the longest digit-only prefix of the input |
| `Text.ParseInt` | app.js:27 | blank input parses to NaN; input that starts with a digit parses to a non-negative number |
| `Text.LeadingDigitsOfNumber` | app.js:27 | the digit scan stops exactly at the first non-digit |
| `Text.ParseIntReadsNumber` | app.js:27 | `parseInt` reads a rendered number back and ignores whatever non-digit text follows it, so a decimal part is truncated |
| `Text.ParseDigitsOfNumber` | app.js:27 | the number at the head of digits followed by a non-digit is the value of those digits |
| `Text.UnsignedParse` | app.js:27 | text starting with a digit is parsed with no whitespace skipped and no sign read |
| `Text.ParseIntReadsNegative` | app.js:27 | a leading minus negates the amount |
| `Text.ParseIntNaN` | app.js:27 | blank input, or input whose first character is not whitespace, a digit or a sign, parses to NaN |
| `Text.TrimStartBlankPrefix` | app.js:27 | blank text in front of a string does not change where the leading-whitespace scan stops |
| `Text.ParseIntOfTrimmed` | app.js:27 | `parseInt` reads the same value once the leading whitespace is removed |
| `Text.ParseIntSkipsBlank` | app.js:27 | any blank text in front is skipped: `parseInt(" 42")` equals `parseInt("42")` |
| `Text.SignedParse` | app.js:27 | text that starts with a sign is read with nothing skipped: `-` negates the digits after it and `+` keeps them |
| `Text.ParseIntMinus` | app.js:27 | a minus before digits gives the negated value of the digits, ignoring the text after them, so `"-12.5"` is -12 |
| `Text.ParseIntPlus` | app.js:27 | a plus before digits gives their value, ignoring the text after them, so `"+7"` is 7 |
| `Text.ParseIntSignWithoutDigits` | app.js:27 | a sign not followed by a digit gives NaN, so `"-abc"` and `"+"` are NaN |
| `Html.EscapeChar` | app.js:227-233 | each special character becomes an entity starting with `&`; any other character is kept |
| `Html.EscapeHtml` | app.js:226-235 | the output is no shorter than the input and holds none of `<`, `>`, `"`, `'` |
| `Html.EscapeHtmlAppend` | app.js:234 | escaping distributes over concatenation |
| `Html.EscapeHtmlIdentity` | app.js:234 | text without any of the five characters is unchanged |
| `Html.DecodeHead` | app.js:227-233 | decoding consumes at least one character and stays inside the input |
| `Html.DecodeHeadEscapeChar` | app.js:227-233 | each entity decodes back to its character |
| `Html.UnescapeEscapeChar` | app.js:227-234 | decoding an escaped character followed by more text yields that character and then the decoded rest |
| `Html.UnescapeEscape` | app.js:226-235 | escaping loses nothing: decoding the escaped text gives the original |
| `Timestamp.TokenSlices` | app.js:461 | in a `YYYYMMDD_HHMM` token each field sits at a fixed position |
| `Timestamp.CalendarFields` | app.js:456-461 | each field of a calendar reading renders at its fixed width, four digits for the year and two for the others, and reads back as its value |
| `Timestamp.GetTimestamp` | app.js:454-462 | for a calendar reading with a four-digit year the token has 13 characters with `_` at index 8, and reading its fixed-position digit fields back gives the clock reading it was made from |
| `Records.NewEntry` | app.js:22-29 | the entry carries the given id and creation time, and its name is empty exactly when the submitted name is blank |
| `Records.NewEntryTrimmed` | app.js:24-26 | the stored name, NIK and address are already in trimmed form |
| `Records.NikTaken` | app.js:217 | a NIK is taken exactly when some entry at an index of the list holds it |
| `Records.AddFreshNikKeepsUnique` | app.js:31 | putting an entry with an unused NIK in front keeps the NIKs distinct |
| `Validation.ValidateInput` | app.js:201-224 | checks run in the order empty name, name under 3, NIK not 16 digits, NIK already stored; each rejection is returned exactly when the earlier checks pass and its own fails, and acceptance exactly when all pass |
| `Validation.IsNikFormat` | app.js:212 | `/^\d{16}$/`: exactly sixteen ASCII digits; such a NIK holds no whitespace |
| `Validation.RejectionNoticeOfInput` | app.js:201-220 | a rejected submission raises a warning exactly when the name and NIK format pass and the NIK is already registered, and danger exactly when the trimmed name is shorter than 3 characters or the NIK is not sixteen digits |
| `Validation.NikFormatIsTrimmed` | app.js:212 | a NIK of 16 digits is unchanged by trim, so the stored NIK is the one validated |
| `Validation.AcceptedEntryWellFormed` | app.js:21-29 | after an accepted submission the stored entry has a name of at least 3 characters and a well-formed NIK that no other entry holds |
| `Validation.AcceptedAddKeepsNiksUnique` | app.js:134-135 | validating before adding keeps the stored NIKs pairwise distinct |
| `Validation.AcceptedAdd` | app.js:21-34 | the entry addData builds from an accepted submission keeps the submitted NIK and keeps distinct NIKs distinct |
| `Validation.NameLengthBoundary` | app.js:207 | a 2-character name is rejected as too short; a 3-character name with a valid new NIK is accepted |
| `Search.MatchesQuery` | app.js:61-64 | an entry matches exactly when the lower-cased query occurs at some offset of the lower-cased name or address, or the raw query occurs in the NIK |
| `Search.SearchData` | app.js:54-66 | a blank query returns the list unchanged; otherwise the result is the order-preserving subsequence of exactly the entries whose lower-cased name or address contains the lower-cased query, or whose NIK contains the raw query |
| `Search.GetFilteredData` | app.js:68-70 | the empty-query short cut returns what `searchData` would |
| `Search.SearchFindsFullNik` | app.js:63 | searching for an entry's full NIK finds that entry |
| `Search.ContainedInDigits` | app.js:63 | any text found inside a digit string is itself digits |
| `Search.LowerDigits` | app.js:59 | lower-casing leaves digits alone and turns nothing else into a digit |
| `Search.MatchIgnoresCase` | app.js:59-64 | for an all-digit NIK, a query and its lower-cased form match the same entries |
| `Search.SearchIgnoresCase` | app.js:54-66 | with all-digit NIKs, the whole search gives the same result for a query and its lower-cased form |
| `Search.SearchFindsNameAnyCase` | app.js:59-62 | the query "ali" finds an entry named "Ali Baba" |
| `Registry.DataManager.SaveToLocalStorage` | app.js:12-19 | what saveToLocalStorage writes, loadFromLocalStorage reads back as the same list; the save-then-load round trip that gives `Registry.Load` its meaning |
| `Registry.Load` | app.js:12-15 | unreadable content fails with no recovery, and everything else loads; with the save-then-load round trip above, a saved list comes back unchanged |
| `Registry.DataManager.constructor` | app.js:6-7 | the list starts as the loaded content and the persisted copy is left as it was |
| `Registry.DataManager.AddData` | app.js:21-34 | the new entry has its text fields trimmed, its amount parsed and the given id and time; it comes first, the old entries follow in order, the length grows by one, and the list is saved; after validation the NIKs stay distinct and the stored NIK is the one submitted |
| `Registry.DataManager.DeleteData` | app.js:36-39 | with `KeepsOtherIds(id)` as the filter callback, the list becomes exactly the order-preserving subsequence of entries with another id; an absent id changes nothing; the list is saved |
| `Registry.DataManager.DeleteAll` | app.js:41-52 | when confirmed, the list and its persisted copy become empty and a warning notice is raised; when declined, nothing changes |
| `Reports.ExcelRowsFrom` | app.js:256-263 | one spreadsheet row per entry; row i is numbered i+1 and copies the entry's fields, with the raw amount |
| `Reports.ExcelRows` | app.js:256-263 | one spreadsheet row per entry; row i is numbered i+1, counting from 1, and copies entry i's fields with the raw amount |
| `Reports.TableRowOf` | app.js:372-393 | a table row keeps number, NIK and time as stored and formats the amount; the name and address cells are exactly `EscapeHtml` of the stored text, so they hold no `<` or `>` and decode back to it |
| `Reports.GeneratePdfHtml` | app.js:349-403 | the heading carries the print time and a total equal to the entry count; the body has one row per entry, in order, numbered from 1 |
| `Reports.GenerateWordTable` | app.js:405-452 | the table has the six column headers and one row per entry, in order, numbered from 1 |
| `Reports.ExportToExcel` | app.js:250-281 | fails exactly when the list is empty; otherwise one sheet "Data Penduduk" holds one row per entry, under a timestamped `.xlsx` name |
| `Reports.ExportToPdf` | app.js:283-311 | fails exactly when the list is empty; otherwise the total and the rows match the list, under a timestamped `.pdf` name |
| `Reports.ExportToWord` | app.js:313-347 | fails exactly when the list is empty; otherwise a Word document with the print time, a total equal to the entry count and one row per entry, under a timestamped `.doc` name |
| `Reports.ExportFileName` | app.js:279 | the name is `Data_Penduduk_`, then the `getTimestamp` token, then `.` and the extension; for a calendar reading it is 28 characters plus the extension |
| `Reports.ReportParity` | app.js:256-263 | the spreadsheet rows mapped here and the markup rows of app.js:372-393 and app.js:422-443 agree row for row: number, NIK, time, name and address once unescaped, and the formatted amount |

## Left out

- DOM rendering and event wiring are left out because they only present the same data: `renderData`, `renderFilteredData`, `setupEventListeners`, `deleteDataHandler` and the form reset and focus.
- `showNotification`, with its CSS and timers, is presentation. `DeleteAll` returns the notice kind it raises, and `RejectionNotice` gives the kind for each validation failure (`RejectionNoticeOfInput` reads it off the submission); the message texts are not modelled.
- JSON encoding is not modelled. The persisted copy holds the entries themselves. As a result, `NaN` amounts do not become `null` on a save and reload, which `JSON.stringify` would cause.
- `Registry.DataManager.constructor`: `JSON.parse` throws on malformed stored text and construction aborts. The constructor therefore requires content that is not malformed, and `Load` reports the failure.
- The clock, the `id-ID` locale date text, the confirmation dialog and `Intl.NumberFormat` IDR formatting are parameters.
- The XLSX writer, html2pdf and its asynchronous promise, `Blob`, object URLs, link clicks and the worksheet column widths are left out because they are external encoders and file output. The success notice after the PDF promise resolves is also left out.
- The literal markup and inline CSS of the reports are not modelled. Rows are tuples of cell values.
- `Text.Lower`: lower-cases ASCII letters only, whereas `toLowerCase` follows Unicode case mapping.
- `Text.ParseInt`: the `0x` hexadecimal prefix is read as the number 0 instead of a hexadecimal number. `-0` is the integer 0. Amounts beyond 2^53 do not lose precision here.
- `Validation.ValidateInput`: the name length counts Unicode characters, not UTF-16 code units.
- `Timestamp.GetTimestamp`: years are non-negative; a negative `getFullYear` would print a minus sign.
