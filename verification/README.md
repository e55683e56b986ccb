# IRTECON curve files and the plot window that shows them, in Dafny

This project models the analytic core of a small PyQt application that
plots IRTECON curve-measurement dumps:

- **The IRTECON decoder** (`irtecon_file.py`).
  - It covers the axis descriptor line (`IRTECONAxis`), the defaults of a
    fresh curve (`IRTECONCurve`) and the `HH:MM:SS DD-Mon-YYYY` timestamp
    (`parse_date`).
  - Above all it covers the single-pass line state machine in
    `IRTECONFile.__init__`. Three flags (axis block, curve, curve data) and
    an ordered chain of thirteen line rules drive it; the first matching
    rule wins.
- **The plot window's curve bookkeeping** (`pyqtchild.py`).
  - The `parse_range` syntax for curve numbers (`1-3,5`) and deletion by
    number from the highest down (`delete_curves`).
  - Deletion of the last curve and of all curves.
  - The seven-colour pen cycle and the axis-number-to-side table
    (2 bottom, 3 left, 4 right).
  - The `Plot n` names that `new_file` takes from a process-wide counter.
- **The table model of the plain-text import dialog**
  (`plain_text_import_dialog.py`).
  - Row and column counts, and lazy fetching in batches of ten
    (`canFetchMore`/`fetchMore`).
  - Header cells (`setHeaderData`/`headerData`).
  - Sorting by one of four visible columns, which map to data columns 1, 3,
    5 and 7. Descending unless the order is ascending.

Modules, one per file:

| file | module | contents |
|---|---|---|
| `results.dfy` | `Results` | `Option`, `Result` (an `Err` stands for a Python exception), `MapAll` (a list comprehension whose element conversion may raise) and `Fold` (a pass that stops at the first failing element) |
| `py_strings.dfy` | `PyStrings` | the `str` methods the core uses: `split()`, `split(sep)`, `split(maxsplit=1)`, `startswith`, `endswith`, `replace`, `join`, `splitlines` |
| `py_numbers.dfy` | `PyNumbers` | `int(text)` and `float(text)` on decimal literals, exact over the reals |
| `irtecon_records.dfy` | `IrteconRecords` | `Axis`, `Curve`, `DateTime`; the axis, date, duration, legend and data-row conversions |
| `irtecon_lines.dfy` | `IrteconLines` | the line tests of the rule chain (prefix, suffix and equality tests) and a classification of every line by the first test it passes |
| `irtecon_decoder.dfy` | `IrteconDecoder` | the decoder state, its invariant as a subset type, the rule chain `Step`, the pass `Run` and `Decode` |
| `irtecon_properties.dfy` | `IrteconProperties` | what a pass does, stated against reference definitions that look only at the block structure |
| `irtecon_curves.dfy` | `IrteconCurves` | one curve block from opener to closer: which lines set the new curve's fields and rows |
| `child_plot.dfy` | `ChildPlot` | range parsing, curve deletion, colours, axis sides, window names |
| `table_model.dfy` | `TableModel` | the import dialog's table model |

`Step` takes its five conversions (axis line, data row, date, duration,
legend) as a parameter, `Conversions`. This is sound because the state
machine never looks at what they compute. `DecodeWith(c, content)` is the
decoder with conversions `c`, and `Decode` is `DecodeWith` with the source's
own, `SourceConversions`. The properties of a pass and of a whole file are
proved for any conversions, so they hold of `Decode` in particular.
`DecodeSource` spells this out for the header, the axes and the curve
count.

Where the decoder's Python raises (`ValueError` from `int`/`float`, an
`IndexError` from an axis line with fewer than three words, a `ValueError`
from an unknown month), the model returns `Err`. The error holds the kind
of conversion that failed and the 0-based index of the line. The Python
exception carries no line number; the index is what the model adds to say
*which* line stopped the pass.

Decisions:

- **Stray closing lines.** A closing marker outside both blocks matches no
  rule, because every curve and axis rule tests its flag, so the line is
  ignored (`IrteconProperties.StrayCloserIgnored`). Inside a curve's data
  section an axis closer is a data row, and the pass fails on it
  (`IrteconProperties.DataSectionTakesEveryLine`).
- **Legend without a colon.** `split(':', maxsplit=1)[-1]` gives the whole
  line when it has no colon (`IrteconRecords.LegendKeySpec`).
- **Time zone.** `datetime.fromtimestamp(0)`, the default curve time,
  depends on the host's time zone. It is modelled as 1970-01-01 00:00:00,
  the value in UTC.
- **Line kinds.** Each line is given the kind of the rule test it passes
  (`Classify`): a prefix, suffix or whole-line test. `ClassifySpec` proves
  that a line passes at most one of these tests. So the source's rule order
  matters only through the flags, and `Step` keeps that order.

## Model

| member | source | states |
|---|---|---|
| `IrteconRecords.ParseAxisSpec` | irtecon_file.py:9-25 | the empty line gives the default axis (number 0, range 0 to 1, no unit or name); otherwise the line converts exactly when it has at least three words and words 0-2 are an integer and two decimal-comma numbers; then the axis number, minimum and maximum are those words, and unit and name follow the ten-word rule: exactly ten words name the axis with word 9; more than ten give word 9 as unit and words 10 onward joined by single spaces as name (which splits back into those words); fewer leave both empty |
| `IrteconRecords.MonthNumber` | irtecon_file.py:53 | a month name converts exactly when it is one of the twelve English abbreviations, to its 1-based position in that list |
| `IrteconRecords.ParseDate` | irtecon_file.py:42-54 | a converted timestamp is a valid calendar date and time of day (what the `datetime` constructor accepts) |
| `IrteconRecords.ParseDateSpec` | irtecon_file.py:49-54 | a timestamp text converts to `t` exactly when it splits at its first whitespace into two pieces, the first piece's three `:`-separated fields read as `t`'s hour, minute and second, the second piece's three `-`-separated fields are `t`'s day, the English abbreviation of `t`'s month and `t`'s year, and `t` is a valid `datetime` |
| `IrteconRecords.ParseClockSpec` | irtecon_file.py:50 | the clock half converts to an hour, minute and second exactly when it has three `:`-separated fields that read as those integers |
| `IrteconRecords.ParseCalendarDateFields` | irtecon_file.py:51-53 | the date half converts to a day, month and year exactly when it has three `-`-separated fields: the day's integer, the month's abbreviation (`Jan` for 1 up to `Dec` for 12) and the year's integer |
| `IrteconRecords.ParseCalendarDateSpec` | irtecon_file.py:51-53 | a converted date has three `-` fields whose first and last are integers and whose middle is a month name; an unknown month name fails |
| `IrteconRecords.ParseDateOfFormatDate` | irtecon_file.py:42-54 | round trip: every valid date and time written as `HH:MM:SS DD-Mon-YYYY` reads back as itself |
| `IrteconRecords.ParseDurationSpec` | irtecon_file.py:97-99 | the text after the time marker is split once at whitespace; no token gives 0, one token `t0` gives `-t0`, two give `-t0 + t1`; it converts exactly when every token is a decimal-comma number |
| `IrteconRecords.DurationOfPair` | irtecon_file.py:98-99 | for two words `t0 t1` the duration is `-t0 + t1` when both convert, and fails otherwise |
| `IrteconRecords.DurationOfSingle` | irtecon_file.py:98-99 | for one word `t0` the duration is `-t0` when it converts, and fails otherwise |
| `IrteconRecords.LegendKeySpec` | irtecon_file.py:100-101 | the legend is the whole line when it has no colon; otherwise the line is a colon-free prefix, its first colon, and the legend |
| `IrteconRecords.ParseRowSpec` | irtecon_file.py:87-88 | a data row converts exactly when every whitespace-separated word is a decimal-comma number; the row has one number per word, in order |
| `IrteconLines.ClassifySpec` | irtecon_file.py:72-103 | a line is given a kind exactly when it passes that kind's test (prefix, suffix or whole-line equality), so no line passes two tests; it has no kind exactly when it passes none |
| `IrteconDecoder.Step` | irtecon_file.py:72-103 | one line keeps the decoder invariant: never inside both blocks, a data section only inside a curve, a curve to write to whenever inside one; a line can fail only inside the axis block, inside a data section, or at a date or time line inside a curve |
| `IrteconDecoder.DecodeWith` | irtecon_file.py:58-71 | the empty text gives the empty document; a failure names a line of the file |
| `IrteconProperties.StepFollowsMode` | irtecon_file.py:72-103 | the three flags after a line are the block reached from the flags before it by the block structure alone |
| `IrteconProperties.StepHeader` | irtecon_file.py:72-77 | a header field changes only at its own marker line outside both blocks, and then becomes the untrimmed rest of the line after the 14-character marker |
| `IrteconProperties.StepAxes` | irtecon_file.py:85-86 | an axis is appended exactly for an indented line inside the axis block, and it is that line's conversion |
| `IrteconProperties.StepCurveCount` | irtecon_file.py:91-94 | the number of curves grows by one exactly at a curve opener outside both blocks |
| `IrteconProperties.OtherLineIgnored` | irtecon_file.py:71-103 | outside a data section, a line that matches no rule leaves the state unchanged and does not fail |
| `IrteconProperties.PlainLineHasNoKind` | irtecon_file.py:72-103 | a line starting with neither a space nor `#` matches no rule |
| `IrteconProperties.StrayCloserIgnored` | irtecon_file.py:78-84 | an axis or curve closing line outside both blocks leaves the state unchanged |
| `IrteconProperties.HeaderInsideBlockIgnored` | irtecon_file.py:72-77 | header lines inside the axis block or a curve (outside its data) change nothing |
| `IrteconProperties.DataSectionTakesEveryLine` | irtecon_file.py:87-88 | in a data section every line but the curve closer is a data row: it is appended to the buffer, or the pass fails on it |
| `IrteconProperties.CurveCloseStoresData` | irtecon_file.py:80-84 | closing a curve returns outside both blocks; its data becomes the buffered rows if there are any, and otherwise keeps what it had; the curve count, the earlier curves, and the closed curve's time, duration and legend do not change |
| `IrteconProperties.CurveOpenAppendsEmptyCurve` | irtecon_file.py:31-36 | opening a curve appends one curve with epoch time, zero duration, empty legend and no rows, enters it, empties the buffer, and keeps earlier curves and axes |
| `IrteconProperties.CurveDateSet` | irtecon_file.py:95-96 | inside a curve a date line sets the current curve's time to the timestamp after the 12-character marker, failing exactly when that text is no timestamp; the curve count, the earlier curves, the curve's other fields, the header, the axes and the row buffer do not change |
| `IrteconProperties.CurveDurationSet` | irtecon_file.py:97-99 | inside a curve a time line sets the current curve's duration, failing exactly when the text after the marker does not convert; the curve count, the earlier curves, the curve's other fields, the header, the axes and the row buffer do not change |
| `IrteconProperties.CurveLegendSet` | irtecon_file.py:100-101 | inside a curve a legend line sets the current curve's legend to the key of the whole line and never fails; the curve count, the earlier curves, the curve's other fields, the header, the axes and the row buffer do not change |
| `IrteconProperties.RunFollowsModes` | irtecon_file.py:71-103 | after a successful pass the flags are the block the lines lead to from the starting block |
| `IrteconProperties.RunHeader` | irtecon_file.py:71-77 | after a pass each header field is the rest of the last marker line for it seen outside both blocks (or its old value if there is none) |
| `IrteconProperties.RunAxes` | irtecon_file.py:78-90 | the axes after a pass are the old axes followed by the conversions of the indented lines inside axis blocks, in file order |
| `IrteconProperties.RunCurveCount` | irtecon_file.py:91-94 | the curves after a pass number the old ones plus the curve openers seen outside both blocks |
| `IrteconProperties.RunDataSection` | irtecon_file.py:87-88 | a pass through a data section with no closer converts every line to a row and appends the rows to the buffer in order, leaving the document alone |
| `IrteconProperties.RunFirstError` | irtecon_file.py:71-99 | a failed pass stops at its first failing line: every line before it passes, and that line's rule fails with the reported kind |
| `IrteconCurves.RunCurveBody` | irtecon_file.py:87-103 | between a curve's opener and closer, the lines before the first data marker give the curve the timestamp, duration and legend of the last date, time and legend line (each converted) and change nothing else of it; every line after the marker is converted to a row and buffered in order |
| `IrteconCurves.CurveBlock` | irtecon_file.py:80-103 | a curve block (opener, lines without a closer, closer) read from outside both blocks appends exactly one curve and changes nothing else decoded; its time, duration and legend are the conversions of the last date, time and legend lines before the data marker, or the epoch, zero and the empty legend when there are none; its rows are the conversions of the lines after the marker, and there are none without a marker |
| `IrteconCurves.LastOfKindSpec` | irtecon_file.py:95-101 | the reference for "the last line of a kind": it finds a line of that kind after which none follows, and finds nothing exactly when no line has that kind |
| `IrteconProperties.DecodeHeader` | irtecon_file.py:66-77 | for a decoded file (with any conversions), each header field is the rest of its last marker line outside both blocks, or empty |
| `IrteconProperties.DecodeAxes` | irtecon_file.py:78-90 | for a decoded file (with any conversions), the axes are exactly the conversions of the indented lines of its axis blocks, in order |
| `IrteconProperties.DecodeCurveCount` | irtecon_file.py:91-94 | for a decoded file (with any conversions), there is one curve per curve opener outside both blocks |
| `IrteconProperties.DecodeFailsAtFirstBadLine` | irtecon_file.py:66-99 | a failed decode (with any conversions) reports a line of the file such that every earlier line decodes and that line's rule fails with the reported kind |
| `IrteconProperties.DecodeSource` | irtecon_file.py:66-94 | for the source's decoder, a decoded file's header fields, axes (each read as `IRTECONAxis` reads its line) and number of curves are those the block structure of its lines determines |
| `PyStrings.SplitLinesSpec` | irtecon_file.py:71 | `splitlines()` never yields a piece that contains a line break |
| `PyStrings.SplitLinesOfTerminated` | irtecon_file.py:71 | round trip: lines without breaks, each ended by `\n` or each by `\r\n`, are split back into exactly those lines |
| `PyStrings.SplitLinesOfTerminatedThen` | irtecon_file.py:71 | lines without breaks, each ended by `\n` or each by `\r\n`, followed by any text, split into those lines followed by the split of that text |
| `PyStrings.SplitLinesOfUnterminated` | irtecon_file.py:71 | round trip for a file whose last line has no line break: break-free lines each ended by `\n` (or each by `\r\n`), then a non-empty break-free last line, split back into those lines and the last one |
| `PyStrings.WordsSpec` | irtecon_file.py:17 | every piece `split()` yields is non-empty and holds no whitespace |
| `PyStrings.SplitOnceAgreesWithWords` | irtecon_file.py:49 | `split(maxsplit=1)` gives as many pieces as `split()` up to two, the same first word, and a remainder whose `split()` is the remaining words |
| `PyStrings.JoinSplitOn` | irtecon_file.py:50-51 | round trip: the pieces of `split(sep)` joined by `sep` give back the text |
| `PyNumbers.ParseIntOfIntToString` | irtecon_file.py:18 | round trip: `int` reads every integer back from its decimal text |
| `PyNumbers.ParseFloatOfDecimal` | irtecon_file.py:19 | `float` reads digits, a point and digits as the exact decimal value they denote |
| `PyStrings.WordsOfReplace` | irtecon_file.py:88 | replacing `,` by `.` in a whole line and then splitting gives the same words as splitting and then replacing in each word |
| `ChildPlot.ParseRange` | pyqtchild.py:155-161 | a parsed list of curve numbers is strictly increasing, as `sorted(set(...))` |
| `ChildPlot.ParseRangeSpec` | pyqtchild.py:155-161 | the text parses exactly when every comma-separated part's first and last `-` fields are integers; a number is in the result exactly when it lies in the inclusive range of some part |
| `ChildPlot.DeleteNumbered` | pyqtchild.py:166-171 | deleting from the highest number down leaves exactly the curves whose 1-based number is not in the list; numbers out of range are skipped |
| `ChildPlot.DeleteCurves` | pyqtchild.py:154-174 | with no curves or a cancelled dialog nothing changes; a list that does not parse fails; otherwise the survivors of the listed numbers remain and the window is marked modified |
| `ChildPlot.DeleteLastCurve` | pyqtchild.py:140-152 | with no curves or no confirmation nothing changes; otherwise one curve fewer and the window is marked modified |
| `ChildPlot.DeleteAllCurves` | pyqtchild.py:176-189 | with no curves or no confirmation nothing changes and nothing is removed; otherwise every curve is removed, the last one first (the removal order is the curves backwards), no curve is left and the window is marked modified |
| `ChildPlot.DeleteLastAndAllAreDeletionsByNumber` | pyqtchild.py:140-189 | deleting the last curve is deleting number n out of n, and deleting all is deleting numbers 1 to n |
| `ChildPlot.LineColorCycle` | pyqtchild.py:122-125 | the pen colour repeats every seven curves, and any seven consecutive curves have distinct colours |
| `ChildPlot.SideOfSpec` | pyqtchild.py:36 | an axis number has a display side exactly when it is 2, 3 or 4, and distinct numbers have distinct sides |
| `ChildPlot.ShownAxesSpec` | pyqtchild.py:126-131 | a side is shown exactly when some axis maps to it, and it is labelled with the name and unit of the last such axis |
| `ChildPlot.NewFile` | pyqtchild.py:101-106 | a new window is untitled and modified, its title is its name followed by `[*]`, and the counter advances by one |
| `ChildPlot.NewFileNames` | pyqtchild.py:103-104 | the name is `Plot ` followed by the counter in decimal, which reads back as the counter; distinct counters give distinct names |
| `TableModel.CountsAfterSetData` | plain_text_import_dialog.py:14-37 | a fresh model given rows counts all of them, has no columns until headers exist, and can fetch more exactly when it has more than ten rows |
| `TableModel.FetchMore` | plain_text_import_dialog.py:59-64 | after a fetch the loaded count is the smaller of the number of rows and the old count plus ten (so a count already past the data drops to the number of rows), and nothing else changes |
| `TableModel.FetchMoreBounds` | plain_text_import_dialog.py:56-64 | when more can be fetched, a fetch loads at least one and at most ten rows, a full ten unless it reaches the end |
| `TableModel.FetchAll` | plain_text_import_dialog.py:56-64 | fetching until nothing more can be fetched loads every row in ceil((rows - loaded) / 10) calls |
| `TableModel.SetHeaderData` | plain_text_import_dialog.py:44-48 | the header is written exactly for a horizontal display-role request on an existing column; then that column holds the value and every other column is unchanged; otherwise the model is unchanged |
| `TableModel.HeaderDataOfSet` | plain_text_import_dialog.py:39-48 | reading a header cell just written gives the written value, and writing never removes a column |
| `TableModel.NoHeaderFromStart` | plain_text_import_dialog.py:14-48 | a fresh model has no columns and refuses every header write |
| `TableModel.DataColumnSpec` | plain_text_import_dialog.py:52 | visible columns 0 to 3 sort by data column `2c + 1`; any other column raises |
| `TableModel.SortRows` | plain_text_import_dialog.py:53 | sorting permutes the rows |
| `TableModel.SortErrors` | plain_text_import_dialog.py:50-53 | `sort` fails with a key error exactly for a column outside 0-3, with an index error exactly when some row lacks the data column, and succeeds exactly when every row has it and its keys are all numbers or all strings |
| `TableModel.SortOrders` | plain_text_import_dialog.py:50-53 | a successful sort leaves a permutation of the rows, each with the data column, ordered by it ascending or descending |
| `TableModel.RowCountIgnoresFetch` | plain_text_import_dialog.py:20-23 | as written: while rows can be fetched, the rows a fetch announces are already counted, and the count does not change on a fetch; an eleven-row model announces row 10 |
| `TableModel.LoadedRowCountFollowsFetch` | plain_text_import_dialog.py:59-64 | corrected: counting only the loaded rows, a fetch announces exactly the rows the count gains |

## Left out

- Numbers: `float` is modelled exactly over the reals for decimal literals with an optional sign, fraction and exponent. `inf`, `nan`, underscores, non-ASCII digits and IEEE rounding are not modelled.
- `int` accepts ASCII decimal digits with an optional sign and surrounding whitespace; underscores and non-ASCII digits are not modelled.
- Time zone: the default curve time `datetime.fromtimestamp(0)` is taken in UTC (1970-01-01 00:00:00).
- numpy: curve data is a sequence of rows of reals. `np.array(curve_data)` on rows of different lengths is not modelled. Neither is the plotting slice `data[..., :2]`.
- Qt: the windows, legend, pens, cursors, message boxes and input dialogs are not modelled. A dialog's answer (confirmation, the entered text, `ok`) is a parameter. Showing a curve is reduced to its colour, and showing axes to the side-to-label map.
- `MDIChildPlot.child_number` is a process-wide counter. It is passed in and returned by `NewFile`.
- `load_irtecon_file` beyond the colour and axis loops, file reading and `set_current_file`: these are file I/O and UI.
- ChildPlot.DeleteLastCurve: its contract gives the length only. `DeleteLastAndAllAreDeletionsByNumber` states which curves remain.
- The table model's `data` method: it formats a cell with Python's `str`, which is not modelled.
- The `_data is None` branches of `rowCount` and `columnCount`: `set_data` is only given lists, so `None` never occurs.
- The `...` default role of `setHeaderData`: the role is always passed explicitly. The default never equals the display role, so it would only make the write fail.
- `beginInsertRows`, `beginResetModel` and their matching `end…` calls: these are view notifications. `Announced` keeps only the row range a fetch announces.
- TableModel.Sort: on a type error Python leaves the list partly reordered. The model returns only the error.
- TableModel.SortOrders: stability is not stated. `InsertRow` keeps equal keys in their old order, but no lemma states this for the whole sort.
- TableModel.SortRows: Python's sort is a merge sort. It is modelled as an insertion sort; both are stable.
- String comparison compares code points, as Python does. Mixed `int`/`float` keys compare as reals.
- The rest of the application is not part of this model: the main window, `main.py`, the import dialog's widgets and settings, and the `save`/`copy` stubs.

## Findings

| source | as written | input that shows it | evidently intended | confidence | as-written member | corrected member |
|---|---|---|---|---|---|---|
| plain_text_import_dialog.py:20-23 | `rowCount` returns `len(self._data)`, ignoring `_rows_loaded`, while `fetchMore` announces rows `_rows_loaded … _rows_loaded + n - 1` as newly inserted | `set_data` with 11 rows: `canFetchMore` is true, `rowCount` is already 11, and `fetchMore` announces row 10 as inserted although the view already counts it | `rowCount` returns `min(len(self._data), self._rows_loaded)`, so each fetch adds exactly the rows it announces | medium, not executed | `TableModel.RowCountIgnoresFetch` | `TableModel.LoadedRowCountFollowsFetch` |
