# estadisticas-macro: the traffic-count pipeline, in Dafny

The model covers the part of the repository that turns a traffic counter's CSV
export into totals per direction, date and time range:

- the CSV reader's completion callback in `lib/procesarExcelJS.js`. It trims
  the header names, splits `Time` into a date token and a time token, reads
  `Lane` and `#vehicles` as numbers, drops unusable rows and rejects empty
  input (module `Records`, and `Direction.ProcessFile`);
- `procesarDireccion` (module `Direction`). It selects one direction's lanes,
  takes the dates in order of first appearance and emits one row per date and
  time range;
- `sumarVehiculosPorIntervalo` and `parseHoraEnSegundos` (module `Sweep`). They
  walk a range in 900-second windows, add up the counts of the readings that
  fall in a window and round the sum;
- the upload form in `app/page.jsx` (module `Page`): `buildIntervals`, the way
  `handleUpload` reads the lane fields and the interval text back, and its
  guards and resulting state, as a `Home` class;
- the export order `ordenar` (`fechaKeyToMillis`, `intervaloInicioMin`), the
  `grouped` reduction and the split of a group key (module `Export`);
- `parse_args` of `scripts/procesar_excel.py` (module `Script`).

The supporting modules are:

- `Base`: `Option`, `Result`, `filter`, `map` and `new Set`.
- `Text`: `trim`, `split` and `join`.
- `Numbers`: JavaScript's `parseInt`, `parseFloat`, `Number`, `String` and
  `Math.round`, and Python's `int`.

Numbers are exact: integers are unbounded, and the values `parseFloat` and
`Number` produce are reals. `NaN` is `None`. A promise that rejects, or a
process that exits with an error, is a `Failure`.

Loops in the source are methods with loop invariants, each proved equal to a
specification function:

- `Records.CleanRowKeys` (the `forEach` over a row's keys)
- `Direction.ProcessFile` (the `map` that cleans every row)
- `Sweep.SumInterval` (the window loop)
- `Direction.ProcessDirection`, `Direction.DatesLoop` and
  `Direction.PushDateRows` (the nested loops over dates and ranges)
- `Export.GroupResults` (the `reduce` behind `grouped`)
- `Script.CutIntervals` (the `for`/`append` loop over interval pieces)

The form's state is the class `Page.Home`. `BuildIntervals` (three guarded
pushes, no loop) reads it, and `HandleUpload` updates it. The properties the
source promises are proved as lemmas about the specification functions.

## Model

| member | source | states |
|---|---|---|
| Records.CleanRowKeys | lib/procesarExcelJS.js:27-33 | The `forEach` over a row's keys builds exactly the row with trimmed header names. |
| Records.TrimKeysLastWins | lib/procesarExcelJS.js:27-33 | The cleaned row holds exactly the trimmed header names. Each name maps to the value of the last column whose name trims to it. |
| Records.LastColumn | lib/procesarExcelJS.js:29-31 | Finds the last column whose name trims to a key, or -1. No later column's name trims to that key. |
| Records.Normalize | lib/procesarExcelJS.js:36-48 | Every record kept has a date, a time and a numeric count. The result is empty exactly when no row is usable. |
| Records.NormalizedTokens | lib/procesarExcelJS.js:38-45 | A kept record's date and time are the first two space-separated tokens of the trimmed `Time` cell. Neither token holds a space. |
| Records.UsableIgnoresOtherCells | lib/procesarExcelJS.js:37-48 | Changing any cell other than `Time` and `#vehicles`, `Lane` included, never drops or admits a row. |
| Records.NormalizeRow | lib/procesarExcelJS.js:37-46 | Computes one record: the trimmed `Time` cell split on single spaces gives the date (first token) and the time (second token, or `""`). An empty `Lane` or `#vehicles` cell reads as 0; any other goes to `parseInt` / `parseFloat`. |
| Sweep.BoundSeconds | lib/procesarExcelJS.js:108-112 | Computes a range bound: `Number` of the first two `:` pieces as h·3600 + m·60. It is `NaN` without a second piece or when either piece is not a number; an empty piece reads as 0. |
| Export.StartMinute | app/page.jsx:133-137 | Computes `intervaloInicioMin`: the text before the first `-`, split on `:`, read with `Number` as h·60 + m, or `NaN`. `Export.StartMinuteOfClock` states its value on `hh:mm` starts. |
| Export.SplitGroupKey | app/page.jsx:323-324 | Computes the panel's direction (the text before the first `-`) and date (the remaining pieces re-joined with `-`). `Export.GroupKeySplit` states that it inverts `GroupKey`. |
| Script.LaneArg | scripts/procesar_excel.py:20-26 | Computes the lane list: `[]` for an empty argument, otherwise `int` of every non-blank stripped piece, or `[]` as soon as one fails. |
| Script.Halves | scripts/procesar_excel.py:34-35 | Computes the two stripped halves of a piece cut at its first `-`. |
| Script.IntervalArg | scripts/procesar_excel.py:29-35 | Computes the interval list: nothing for an empty argument, otherwise the stripped non-blank comma pieces that hold a `-`, each cut by `Halves`, in order. |
| Numbers.ParseInt | app/page.jsx:71-72 | Computes `parseInt(s)` in radix 10: skip leading whitespace, read an optional sign and the longest run of digits; `NaN` when the run is empty. |
| Numbers.ParseFloat | lib/procesarExcelJS.js:43 | Computes `parseFloat(s)`: skip leading whitespace, read an optional sign and the longest decimal literal (mantissa and optional exponent); `NaN` when there is none. |
| Numbers.JsNumber | app/page.jsx:130 | Computes `Number(s)` on a string: 0 for a blank string; otherwise the trimmed text must be, as a whole, an optionally signed decimal literal, else `NaN`. |
| Numbers.PyInt | scripts/procesar_excel.py:22 | Computes Python's `int(s)`: surrounding whitespace, an optional sign and one or more digits, nothing else; anything else raises (`None`). |
| Records.NaNLaneKept | lib/procesarExcelJS.js:42-48 | A row whose `Lane` is not a number is kept, with a `NaN` lane. |
| Records.DoubleSpaceDropped | lib/procesarExcelJS.js:38-48 | Two spaces between date and time leave an empty time token, so the row is dropped. |
| Sweep.ClockSeconds | lib/procesarExcelJS.js:132-138 | `parseHoraEnSegundos` gives either `NaN` or a value in 0..99·3600+99·60+99. Hours and minutes are not range checked. |
| Sweep.ClockOfGroups | lib/procesarExcelJS.js:132-138 | Every `H(H):MM(:SS)` text is read as hh·3600 + mm·60 + ss, with the seconds defaulting to 0. |
| Sweep.ClockHasGroups | lib/procesarExcelJS.js:132-138 | Conversely, every text read as a number has the `H(H):MM(:SS)` shape and that value. Everything else, the empty string included, is `NaN`. |
| Sweep.WindowCount | lib/procesarExcelJS.js:115 | The loop runs the least number k of 900-second windows from the start that reach the end. k is 0 when end ≤ start. |
| Sweep.WindowsLeft | lib/procesarExcelJS.js:115 | Window j is entered exactly when j < k. |
| Sweep.SumInterval | lib/procesarExcelJS.js:106-127 | The window-by-window loop returns the rounded sum over the records whose time lies in [start, start + 900·k). |
| Sweep.RangeSplit | lib/procesarExcelJS.js:115-121 | Sums over adjacent windows add up, so no record is counted twice. |
| Sweep.RangeSumConcat | lib/procesarExcelJS.js:118-123 | A window's sum over two lists of records is the sum of the two sums. |
| Sweep.RangeSumNonNegative | lib/procesarExcelJS.js:123 | With non-negative counts every window sum is non-negative. |
| Sweep.RangeSumEmpty | lib/procesarExcelJS.js:107 | The empty window sums to 0. |
| Sweep.IntervalTotalNonNegative | lib/procesarExcelJS.js:123-126 | With non-negative counts every rounded total is non-negative. |
| Sweep.IntervalTotalEmptyRange | lib/procesarExcelJS.js:108-115 | The total is 0 when a bound is `NaN`, or when the end is not after the start. |
| Sweep.UnparsedTimeIgnored | lib/procesarExcelJS.js:118-121 | A record whose time does not parse changes no total. |
| Sweep.CoveredSpan | lib/procesarExcelJS.js:111-126 | A record counts in full when its time lies in [start, start + 900·k). It counts when its time is in [start, end), and never when its time is before the start or at least 900 s after the end. |
| Sweep.LastWindowOverrun | lib/procesarExcelJS.js:115-121 | The last window is not clipped: a reading after the end but inside the last window is counted. |
| Direction.SelectLanes | lib/procesarExcelJS.js:74-77 | With no lanes, every record is kept. Otherwise only records whose lane is listed are kept. |
| Direction.SelectLanesMembers | lib/procesarExcelJS.js:74-77 | A record survives the selection exactly when it was read and either no lane was asked for or its lane (possibly `NaN`) is listed. |
| Direction.EffectiveIntervals | lib/procesarExcelJS.js:85 | At least one range is walked: the given ones, or the whole day. |
| Direction.ProcessDirection | lib/procesarExcelJS.js:72-101 | The nested loops return the direction's table. |
| Direction.DatesLoop | lib/procesarExcelJS.js:83-98 | The outer loop emits the rows of each date, date after date. |
| Direction.PushDateRows | lib/procesarExcelJS.js:84-97 | The inner loop appends one row per range for a date. |
| Direction.DateRowsShape | lib/procesarExcelJS.js:87-97 | A date gets exactly one row per range, in range order. |
| Direction.RowsForLength | lib/procesarExcelJS.js:83-98 | The table has dates × ranges rows. |
| Direction.RowsForAt | lib/procesarExcelJS.js:83-98 | Row i·n + j is the row of date i and range j. |
| Direction.DirectionRowsShape | lib/procesarExcelJS.js:81-97 | Row i·n + j of a direction's table holds the following, even when the total is 0:<br>• the direction's name and date i (dates in order of first appearance);<br>• range j, written `inicio-fin`;<br>• the lanes label;<br>• that range's total over date i's records. |
| Direction.DirectionRowsEmpty | lib/procesarExcelJS.js:74-79 | A direction's table is empty exactly when no record belongs to its lanes. |
| Direction.DatesFirstAppearance | lib/procesarExcelJS.js:81 | The dates are distinct and in the order in which they first appear. |
| Direction.LanesLabelSplits | lib/procesarExcelJS.js:94 | `Carriles` splits back on commas into the lanes' texts. |
| Direction.ProcessFile | lib/procesarExcelJS.js:19-59 | The completion callback returns the outcome of the pipeline. |
| Direction.PipelineOutcomes | lib/procesarExcelJS.js:21-59 | The outcome is one of three cases:<br>• no rows: rejects with the empty-file message;<br>• rows but none usable: rejects with the no-records message;<br>• otherwise: resolves with the north-to-south table followed by the south-to-north one. |
| Page.ParseLanes | app/page.jsx:71-72 | An empty lane field gives `[]`. Otherwise there is one `parseInt` of the trimmed piece per comma-separated piece, in order. |
| Page.ParseIntOfWord | app/page.jsx:71-72 | A piece starting with a letter reads as `NaN`. |
| Page.LanesRoundTrip | app/page.jsx:71-72 | Reading back a non-empty lane list written with commas gives the list. |
| Page.ParseIntervals | app/page.jsx:73-76 | Every parsed range has at least one piece. |
| Page.RangeLabelPieces | app/page.jsx:76 | A range `from-to` splits back into its two ends. |
| Page.LabelShape | app/page.jsx:50-52 | A range label is non-empty and holds no comma. |
| Page.LabelsRoundTrip | app/page.jsx:73-76 | Comma-joined labels read back as the ranges, in order. |
| Page.IntervalsRoundTrip | app/page.jsx:48-76 | Reading back the text `buildIntervals` writes gives exactly the included pairs, in order. |
| Page.AsIntervals | app/page.jsx:76-78 | Each range is handed on as its first two pieces. |
| Page.UploadIntervals | app/page.jsx:73-78 | The ranges `handleUpload` hands on are exactly the included pairs. |
| Page.Submit | app/page.jsx:70-91 | On success the results are the rows, and the notice says whether there are any. On a rejection the results are empty and the notice carries the message. |
| Page.Home.constructor | app/page.jsx:28-38 | The initial form state and its default ranges. |
| Page.Home.BuildIntervals | app/page.jsx:48-54 | The pushes and the join give the text of the morning, afternoon and night pairs whose two ends are both filled in. |
| Page.Home.HandleUpload | app/page.jsx:57-92 | Without a file, or with both lane fields empty, it only warns and changes nothing. Otherwise the state is set as `Submit` reports and loading ends. The form fields are never changed. |
| Export.KeyLeTotal | app/page.jsx:139-144 | The comparator's order is total and antisymmetric. |
| Export.KeyLeTransitive | app/page.jsx:139-144 | The comparator's order is transitive. |
| Export.DateKey | app/page.jsx:129-132 | A date key, when there is one, is a real calendar date. |
| Export.DateOfPieces | app/page.jsx:130-131 | The day, month and year read with `Number` form a real calendar date when a key exists. |
| Export.DateKeyOfDigits | app/page.jsx:129-132 | A `dd/mm/yyyy` date of digits that is a real date from the year 100 on gets the key (year, month, day). |
| Export.DateOfDigits | app/page.jsx:130-131 | The three digit pieces of a real date give its key. |
| Export.DateOfNumbers | app/page.jsx:130-131 | Three pieces that `Number` reads as a real date give its key. |
| Export.StartMinuteOfClock | app/page.jsx:133-137 | A start `hh:mm` before the first `-` gives hh·60 + mm. |
| Export.ClockMinutesOfDigits | app/page.jsx:135-136 | Digit pieces `hh` and `mm` give hh·60 + mm. |
| Export.ClockMinutesOf | app/page.jsx:135-136 | Pieces that `Number` reads as h and m give h·60 + m. |
| Export.Insert | app/page.jsx:139-144 | An insertion adds exactly the one element, and every element keeps a key. |
| Export.Sort | app/page.jsx:139-144 | The sort is a permutation, and every element keeps a key. |
| Export.InsertSorted | app/page.jsx:139-144 | Inserting into a sorted list keeps it sorted. |
| Export.InsertStable | app/page.jsx:139-144 | The elements sharing a key keep their order under an insertion, the inserted one first among them. |
| Export.SortSorted | app/page.jsx:139-144 | The sort's result is sorted by key. |
| Export.SortStable | app/page.jsx:139-144 | The sort is stable. |
| Export.Ordenar | app/page.jsx:139-144 | `ordenar` returns a permutation of the rows, sorted by date and then by start minute. |
| Export.OrdenarStable | app/page.jsx:139-144 | Rows with equal keys keep their relative order. |
| Export.GroupResults | app/page.jsx:220-224 | The reduction gives:<br>• one group per distinct key, with the keys in order of first appearance;<br>• in each group, exactly the rows with that key, in input order. |
| Export.JoinGroup | app/page.jsx:222 | A row whose key has a group joins the end of it, and the grouping invariant is kept. |
| Export.OpenGroup | app/page.jsx:222 | A row with a new key opens a group after the others, and the grouping invariant is kept. |
| Export.KeysStep | app/page.jsx:220-224 | A new row adds its key at the end only when the key is new. |
| Export.GroupsStep | app/page.jsx:220-224 | After a row is appended, each group holds the rows with its key. |
| Export.GroupsPartition | app/page.jsx:220-224 | Every result is in the group of its own key and in no other. |
| Export.FlattenGroups | app/page.jsx:220-224 | Groups of distinct keys laid end to end hold, up to order, the elements whose key is among them. |
| Export.FilterAmongSplit | app/page.jsx:220-224 | Selecting one more key adds exactly that key's elements. |
| Export.GroupsPermutation | app/page.jsx:220-224 | The groups laid end to end are a permutation of the results. |
| Export.GroupKeySplit | app/page.jsx:321-324 | Splitting a group key recovers the direction and the date, hyphens in the date included, when the direction has no hyphen. |
| Script.ParseArgs | scripts/procesar_excel.py:7-37 | With fewer than two entries in `argv`, it writes `{"error": "missing args"}` to stderr and exits with status 1. Otherwise the input path is `argv[1]`, and a missing lane or interval argument counts as empty. |
| Script.CollectAllOrNothing | scripts/procesar_excel.py:21-24 | The comprehension succeeds exactly when every non-blank piece reads as an integer. |
| Script.CollectContents | scripts/procesar_excel.py:22 | When it succeeds it holds the integers of the non-blank pieces, in order. |
| Script.LaneArgAllOrNothing | scripts/procesar_excel.py:20-26 | A single piece that fails `int` makes the whole lane list `[]`. Otherwise the list is the integers of the non-blank pieces, in order. |
| Script.LaneTexts | scripts/procesar_excel.py:22 | An integer's text is a non-blank, comma-free piece that `int` reads back. |
| Script.LaneJoinSplits | scripts/procesar_excel.py:22 | Comma-joined integers split back into their texts. |
| Script.LaneTextsCollect | scripts/procesar_excel.py:22 | The integers' texts read back as the integers. |
| Script.LaneArgRoundTrip | scripts/procesar_excel.py:20-26 | A non-empty lane list written `1,2,3` reads back as the list. |
| Script.IntervalStep | scripts/procesar_excel.py:32-35 | A piece adds its halves exactly when it holds a `-`. |
| Script.CutIntervals | scripts/procesar_excel.py:32-35 | The loop returns the halves of the pieces holding a `-`, in order. Other pieces are skipped. |
| Script.ParseIntervalArg | scripts/procesar_excel.py:29-35 | An empty argument gives no intervals. Otherwise the result is the cut pieces of the cleaned comma-separated list. |
| Script.HalvesFirstHyphen | scripts/procesar_excel.py:34-35 | A piece is cut at its first `-` only, so `a-b-c` gives `("a", "b-c")`. |
| Script.IntervalLabelClean | scripts/procesar_excel.py:31 | A label `a-b` of plain ends survives the cleaning unchanged. |
| Script.IntervalLabelHalves | scripts/procesar_excel.py:33-35 | A label `a-b` whose start has no hyphen is cut back into `(a, b)`. |
| Script.IntervalArgRoundTrip | scripts/procesar_excel.py:29-35 | A non-empty interval list written `a-b,c-d` reads back as the list. |
| Numbers.Round | lib/procesarExcelJS.js:126 | `Math.round` gives the integer within one half of its argument, halves going up. |
| Numbers.DigitsParseFloat | lib/procesarExcelJS.js:43 | `parseFloat` reads a string of digits as its value. |
| Numbers.IntToStringParseInt | app/page.jsx:71-72 | `parseInt(String(i))` is `i`. |
| Numbers.DigitsAsNumber | app/page.jsx:130 | `Number` reads a string of digits as its value. |
| Numbers.IntToStringPyInt | scripts/procesar_excel.py:22 | `int(str(i))` is `i`. |
| Base.Distinct | lib/procesarExcelJS.js:81 | `[...new Set(s)]` holds exactly the elements of `s`, each once. |
| Base.DistinctFirstAppearance | lib/procesarExcelJS.js:81 | The distinct elements come in order of first appearance. |
| Base.FilterMembers | lib/procesarExcelJS.js:76 | A value is kept by a filter exactly when it occurs and passes the test. |

## Left out

- Reading the file and decoding the CSV (Papa.parse): the input is the rows the reader yields, each a list of header name and cell text in key order.
- IEEE-754 doubles: counts, bounds and sums are exact reals, so rounding errors of floating-point addition are not modelled.
- `parseInt` radix prefixes, hexadecimal, binary and octal literals, and Python `int`'s underscores and non-ASCII digits are not modelled. Whitespace is the six ASCII whitespace characters; the Unicode spaces `trim` and `strip` also remove are not, nor the ASCII controls `\x1c`–`\x1f` that Python's `strip` and `int` also remove.
- Numbers.ParseFloat and Numbers.JsNumber do not read `Infinity`, `+Infinity` or `-Infinity`; they give `NaN` (`None`). The source keeps a row whose `#vehicles` cell is such a text, with infinite totals, where the model drops it, so an upload whose only counts are infinite meets the no-records rejection in the model but not in the source.
- The JavaScript `Date` constructor: dates are compared as (year, month, day).
- Export.DateKey: only a `Fecha` that is three whole numbers forming a real calendar date with a year from 100 to 275759 gets a key. A date `new Date` rolls over (31/02/2024 is 2 March), a non-integer piece and a two-digit year (05/01/24 is 1924) get no key here, where the source sorts them by their rolled-over or 1900s `Date` value.
- Export.DateOfPieces: states the same as `Export.DateKey` on the pieces after the split on `/`, with the same rolled-over, non-integer and two-digit-year dates left without a key.
- Export.Ordenar requires every row to have a key: a `Fecha` with a key from `Export.DateKey` and a readable interval start. Two cases of the source are not modelled. When no row's date is readable, the comparator is `NaN - NaN || Δmin`, which is `Δmin`, so the source sorts by start minute alone, stably. The rows with rolled-over or two-digit-year dates are sorted by their `Date` value. The comparator is inconsistent only when rows with and without a date key are mixed; the order `Array.prototype.sort` gives them is then unspecified.
- A range without a second piece (no `-`) makes the library throw a `TypeError` inside its `try`. The model requires every range to have two pieces, which `buildIntervals` always provides.
- Page.Home.HandleUpload: the time fields are assumed to hold browser time values (no comma, no hyphen, no surrounding whitespace); `Valid()` states this.
- Exceptions caught by `catch (err)` other than the two rejections, and the reader's `error` callback, are not modelled.
- Notifications are values (`Notice`), not rendered; React state updates are field assignments; asynchrony is not modelled.
- The Excel export (workbook, borders, column widths, download) and the result table rendering are left out; only `ordenar` and `grouped` are modelled.
- `pages/api/process.js` (HTTP upload and process spawning) is not part of this model.
- `main` of `scripts/procesar_excel.py` (pandas reading and grouping) is not part of this model.
- `app/init-warnings.js`, `next.config.mjs` and `app/providers/AntdProvider.jsx` are not part of this model.
