# Rail punctuality viewer: record loader and queries

This project models the core of a command-line viewer for train punctuality
records (`main.code.py`). A network's file is read as text lines. Each line is
stripped. Empty lines are skipped, and so is any line that starts with the
header `Line,Period,Date,Punctuality`. The rest are split on every comma, and
lines with at least four pieces become records of their first four pieces
(Line, Period, Date, Punctuality, all text). The viewer then does four things:
- it lists the distinct lines in first-occurrence order;
- it picks one from the user's 1-based number, with Python's indexing rules;
- it shows the route from the fixed directory `LINE_ROUTES`, when the line is listed there;
- it narrows the records to that line and, optionally, to monthly or yearly rows.

Modules, one per component:

- `Text` (`text.dfy`): Python's `str.strip()`, `startswith` and `split(',')`,
  with `Join` as the inverse of `Split`.
- `Loader` (`loader.dfy`): the `Record` datatype, the loader loop.
  `LoadDataManually` is an imperative method with the source's nested tests.
  It is proved equal to the specification function `ParseLines`, and the
  lemmas are stated about `ParseLines`.
- `Query` (`query.dfy`): `unique()`, the line selection, and the boolean-mask
  filters, all as functions over `seq<Record>` that preserve order.
- `Routes` (`routes.dfy`): `LINE_ROUTES` as a constant map of 13 entries.
- `IntParse` (`intparse.dfy`): Python's `int()` on the typed line number, and
  `str(n)` as its inverse.
- `Viewer` (`viewer.dfy`): the query flow of `main` from the loaded records to
  the rows shown.
- `Wrappers` (`wrappers.dfy`): `Option`.

The user's answers are parameters. `int()` failing (`ValueError`) and an index
out of range (`IndexError`) both become the invalid-selection outcome.

Two behaviours of the program are easy to miss:
- The header test is a prefix test (`startswith`, `main.code.py:34`), so
  `Line,Period,Date,Punctuality,x` is skipped too, and so is the header line
  with the newline `readlines()` leaves on it (`Loader.HeaderPrefixedLineSkipped`).
- The prompt asks for a number from 1 to n, but the number is used as a
  Python list index after subtracting one (`main.code.py:90-91`). A number
  from -n+1 to 0 therefore counts back from the end, so 0 selects the last
  line; only numbers outside -n+1..n are rejected (`Query.SelectSpec`).

## Model

| member | source | states |
|---|---|---|
| `Text.StripSpec` | main.code.py:33 | `strip()` keeps the slice between an all-whitespace prefix and an all-whitespace suffix; the result neither begins nor ends with whitespace, and it is empty exactly when the line is all whitespace |
| `Text.TrimStartSpec` | main.code.py:33 | the leading half of `strip()` removes only whitespace and stops at the first non-space character |
| `Text.TrimEndSpec` | main.code.py:33 | the trailing half of `strip()` removes only whitespace and stops at the last non-space character |
| `Text.StripIdempotent` | main.code.py:33 | stripping twice is the same as stripping once |
| `Text.StripTrailingSpace` | main.code.py:29-33 | the newline (or any whitespace) that `readlines()` leaves at the end of a line is removed by `strip()`, and a line that is only such whitespace strips to empty |
| `Text.SplitJoin` | main.code.py:36 | `split(',')` yields pieces that hold no comma and that, joined with commas, give back the line |
| `Text.JoinSplit` | main.code.py:36 | splitting comma-free pieces joined with commas gives back exactly those pieces (the inverse direction) |
| `Text.SplitCount` | main.code.py:36-37 | `split(',')` yields one piece more than the line has commas |
| `Text.CommaIffSeveralPieces` | main.code.py:35-36 | a line contains a comma exactly when it splits into two or more pieces |
| `Loader.CommaTestRedundant` | main.code.py:35-37 | a line with at least four pieces contains a comma, so the `',' in line` test never rejects a line that the length test would keep |
| `Loader.LoadDataManually` | main.code.py:24-39 | the loop, with its strip / empty / header-prefix / comma / length tests, returns exactly `ParseLines(lines)` |
| `Loader.ParseLinesAppend` | main.code.py:32-38 | the lines are processed independently and in order: the records of two concatenated blocks of lines are the concatenation of their records |
| `Loader.KeptIndices` | main.code.py:32-38 | the lines that become records, given by their positions: no more positions than lines, each in range and each a data line once stripped |
| `Loader.KeptIndicesIncreasing` | main.code.py:32-38 | the kept positions are strictly increasing: the lines are visited once each, in file order |
| `Loader.KeptIndicesComplete` | main.code.py:32-38 | every line that is a data line once stripped is among the kept positions |
| `Loader.ParseLinesCount` | main.code.py:32-38 | one record per data line: as many records as kept positions, never more than lines |
| `Loader.ParseLinesAt` | main.code.py:33-38 | the k-th record is built from the first four pieces of the k-th kept line |
| `Loader.ParseLinesOrigins` | main.code.py:32-38 | there are exactly as many records as data lines, never more than lines; the k-th record is the first four pieces of the k-th data line (no reordering, no deduplication) |
| `Loader.RecordsComeFromDataLines` | main.code.py:33-38 | every record comes from an input line that is non-empty after stripping, does not start with the header, and has at least four pieces; its fields are the first four pieces, untrimmed |
| `Loader.RecordFieldsAreFirstPieces` | main.code.py:36-38 | record fields hold no comma; joined with commas they are the whole stripped line when it had four pieces, and a comma-terminated prefix of it when it had more (extra fields are cut off) |
| `Loader.DroppedLineChangesCountByOne` | main.code.py:34-38 | a line that yields no record leaves the records as if it were absent, and a well-formed line in its place yields exactly one record more |
| `Loader.HeaderPieces` | main.code.py:34 | the header text splits into the four column names Line, Period, Date and Punctuality, with three commas |
| `Loader.HeaderPrefixedLineSkipped` | main.code.py:33-34 | a line that starts with the header text is skipped whatever follows it: more fields, a newline or other whitespace |
| `Loader.HeaderPrefixedLineHasFields` | main.code.py:34-37 | such a line, once stripped, still splits into at least four pieces, so only the header test skips it |
| `Text.StripKeepsTrimmedPrefix` | main.code.py:33-34 | stripping a line that starts with a text free of whitespace at both ends keeps that text at its front, so the `startswith` test sees it |
| `Loader.DataLineRecord` | main.code.py:33-38 | a line of four or more comma-free fields, with no whitespace at either end, not starting with the header text, and ended by whitespace such as a newline, yields one record of its first four fields, with inner spaces kept |
| `Loader.BlankLineSkipped` | main.code.py:33-34 | a line that is all whitespace yields no record |
| `Text.StripKeepsCommas` | main.code.py:33 | stripping removes no comma |
| `Loader.FewFieldsDropped` | main.code.py:36-37 | a line with fewer than three commas yields no record |
| `Loader.ThreeFieldLineDropped` | main.code.py:36-37 | a line of three comma-separated fields yields no record |
| `Query.FirstIndex` | main.code.py:83 | the first position of a value: it holds the value and no earlier position does |
| `Query.Unique` | main.code.py:83 | `unique()` lists no value twice and lists exactly the values that occur |
| `Query.UniqueFirstOccurrenceOrder` | main.code.py:83 | `unique()` lists values in the order of their first occurrence |
| `Query.SelectSpec` | main.code.py:90-91 | number k selects line k for 1 ≤ k ≤ n and line n+k (counting back) for -n+1 ≤ k ≤ 0, so 0 selects the last line; any other number and a non-number select nothing |
| `Query.FilterAllCount` | main.code.py:111 | a mask filter keeps every matching row as often as it occurs, and no other row |
| `Query.FilterAllSubsequence` | main.code.py:111 | a mask filter keeps rows in their original order |
| `Query.FilterEqualsExact` | main.code.py:111 | `df[df['Line'] == line]` holds exactly the rows of that line, each as often as in the table, as an ordered subsequence of the table |
| `Query.MatchesAllConcat` | main.code.py:111-117 | a row satisfies two lists of conditions together exactly when it satisfies each |
| `Query.FilterAllCompose` | main.code.py:111-117 | filtering a filtered table is one filter on both sets of conditions |
| `Query.FilterAllSameConditions` | main.code.py:111-117 | the order and repetition of the conditions do not change the result |
| `Query.FilterAllNoConditions` | main.code.py:119-120 | with no condition, the filter is the identity |
| `Query.FilterEqualsIdempotent` | main.code.py:111 | filtering again by the same line changes nothing |
| `Query.FilterTwiceIsConjunction` | main.code.py:111-117 | two successive column filters are one filter on the conjunction, in either order |
| `Query.LineThenPeriodIsConjunction` | main.code.py:111-120 | the line filter and then answer "1" / "2" equal one filter on Line and Period = "Month" / "Year"; any other answer leaves the line's rows unchanged |
| `Routes.Route` | main.code.py:94-95 | a route is shown exactly for the lines T1–T5, T7–T9, Blue Mountains, Central Coast & Newcastle, South Coast, Southern Highlands and Hunter, and it is the directory's entry for that line |
| `Routes.RouteDirectoryKeys` | main.code.py:5-22 | the directory's keys are the thirteen lines T1–T5, T7–T9, Blue Mountains, Central Coast & Newcastle, South Coast, Southern Highlands and Hunter |
| `Routes.NoRouteForT6` | main.code.py:5-22 | T6 is not in the directory, so selecting it shows no route |
| `IntParse.NatDigitsValue` | main.code.py:90 | the decimal digits of a number read back as that number |
| `IntParse.ParseDecimal` | main.code.py:90 | `int(str(n)) == n` for every integer, negative ones included |
| `IntParse.ParseIntIgnoresSpaces` | main.code.py:90 | `int()` reads an answer surrounded by its whitespace (ASCII tab, newline, vertical tab, form feed, carriage return, space, and non-ASCII `isspace()` characters) exactly as the answer without it |
| `IntParse.IntTrimStartSpec` | main.code.py:90 | skipping leading `int()` whitespace keeps a suffix, drops only such whitespace, and stops at the first other character |
| `IntParse.IntTrimStartSpaces` | main.code.py:90 | leading `int()` whitespace is skipped whatever follows it |
| `IntParse.IntTrimStartBeforeSpaces` | main.code.py:90 | trailing whitespace is untouched by the leading skip, unless the whole answer is whitespace |
| `IntParse.IntTrimEndSpec` | main.code.py:90 | skipping trailing `int()` whitespace keeps a prefix, drops only such whitespace, and stops at the last other character |
| `IntParse.IntTrimEndSpaces` | main.code.py:90 | trailing `int()` whitespace is skipped whatever precedes it |
| `IntParse.IntStripIdempotent` | main.code.py:90 | skipping the surrounding `int()` whitespace twice is the same as once |
| `IntParse.InfoSeparatorRejected` | main.code.py:90-100 | an answer that begins with one of U+001C..U+001F is not a number (invalid selection), although `strip()` counts these as whitespace |
| `IntParse.ParseIntRejectsNonNumeric` | main.code.py:90-100 | a blank answer, or one holding a character other than a digit, an underscore or a sign once the surrounding `int()` whitespace is skipped, is not a number (invalid selection) |
| `Viewer.AvailableLinesSpec` | main.code.py:83 | the listed lines have no duplicates, include the line of every record, include nothing else, and follow first-occurrence order |
| `Viewer.BrowseSpec` | main.code.py:73-120 | the run stops when nothing was loaded, or when the answer is not a number in -n+1..n; otherwise it shows listed line v for a typed number 1 ≤ v ≤ n and line n+v for -n+1 ≤ v ≤ 0, that line occurs in the records, its route is shown exactly when listed, and the rows of that line and period appear in file order |
| `Viewer.BrowseNumberedLine` | main.code.py:90-91 | typing the number k (1 ≤ k ≤ n) of a listed line selects that line |

The functions that model the operations have no contract of their own
beyond what the rows above state about them:
- `Text.Strip`, `Text.StartsWith`, `Text.Split`: `StripSpec`, `StripKeepsTrimmedPrefix`, `SplitJoin`, `JoinSplit`, `SplitCount`.
- `Loader.LineRecords`, `Loader.ParseLines`: `LoadDataManually`, `ParseLinesAt`, `ParseLinesCount`, `KeptIndices*`.
- `IntParse.ParseInt`: `ParseDecimal`, `ParseIntIgnoresSpaces`, `InfoSeparatorRejected`, `ParseIntRejectsNonNumeric`.
- `Query.Select`: `SelectSpec`.
- `Query.FilterAll`, `Query.FilterEquals`: `FilterAllCount`, `FilterAllSubsequence`, `FilterEqualsExact`.
- `Viewer.AvailableLines`: `AvailableLinesSpec`.
- `Query.PeriodFilter`: `LineThenPeriodIsConjunction`.
- `Viewer.Browse`: `BrowseSpec` and `BrowseNumberedLine`.

## Left out

- File handling: opening the file, UTF-8 decoding, and the catch-all `except`
  that prints an error and returns `[]` (main.code.py:27-29, 40-42). These are I/O. The model
  takes the result of `readlines()` as its input `lines`.
- The network prompt and the choice of `Suburban.csv` / `Intercity.csv`
  (main.code.py:48-63). This is interactive I/O; the model starts from the loaded records.
- The `os.path.exists` and `os.getcwd` checks (main.code.py:66-69). These
  depend on the environment.
- All prompts and printed text, including the period names and the row
  formatting (main.code.py:45-63, 84-86, 93-96, 103-108, 123-130). The model
  returns the values that would be printed.
- pandas `DataFrame` construction (main.code.py:80). The table is the record
  sequence itself, and a column is the sequence of one field.
- Conversion of punctuality text to floats, and the matplotlib chart
  (main.code.py:132-153). These are floating point and a foreign library.
- `IntParse.ParseInt`: does not model the limit of 4300 digits that
  CPython 3.11 and later put on `int()` of a string by default (leading
  zeros count, and the limit can be configured). The model reads such an
  answer as its number, where Python raises `ValueError`.
- `IntParse.ParseInt`: accepts ASCII digits only. Python's `int()` also
  accepts decimal digits of other scripts; the model treats an answer
  written with them as not a number.
- No literal whole-file example is proved. `DataLineRecord`,
  `ThreeFieldLineDropped`, `BlankLineSkipped` and `HeaderPrefixedLineSkipped`
  state those cases for all inputs.
