# Peak and trough finder: a Dafny model

The tool is a single Tkinter script (`DataProcessingAppCode/PythonApp.py`). The
user pastes `x,y` lines or names a file, presses the plot button, and sees the
samples with their local maxima (peaks) and local minima (troughs). Two text
fields set a lower bound for the peaks and an upper bound for the troughs.
Dragging a box on the figure zooms into it. A reset button returns to the
plotted view. An export button writes the filtered peak and trough
coordinates to a spreadsheet.

This project models the logic behind those buttons:

- `common.dfy` (`Common`): `Option`, `Result` and the tool's error kinds.
- `text.dfy` (`Text`): Python's `str.strip()`, `str.split(sep)` and `sep.join`.
- `series_parser.dfy` (`SeriesParser`): `load_data`. It is a loop that appends
  one sample per well-formed line. It is proved against `ParseLines`, and there
  is a round trip from a series written back as text.
- `extrema.dfy` (`ExtremaDetector`): the `find_peaks(y)` / `find_peaks(-y)`
  calls, specified by the strict-neighbour rule.
- `threshold.dfy` (`ThresholdFilter`): reading the two bound fields and the two
  list comprehensions that filter the extrema.
- `export.dfy` (`ExportAssembler`): the stored `export_data` columns and their
  NaN padding (`None` here).
- `session.dfy` (`ViewSession`): the module-level globals as the fields of the
  class `App`. Its methods are the plot button (`PlotClick`, `PlotData`), the
  drag (`OnSelect`), the reset button (`ResetView`) and the export button
  (`ExportToExcel`). `Valid()` is the invariant that links the fields.

Python's `float()` is the parameter `parse: string -> Option<real>`, where
`None` is the `ValueError`. The file system is two parameters: `fileExists`
(`os.path.exists`) and `fileText` (the file's contents). The figure's auto-fit
limits come from matplotlib and are the parameter `autoFit`.

The model follows the code in these points, which a reader might not expect:

- A plot click clears the home view before it reads anything
  (`PythonApp.py:126-128`). A refused click (no data, no parsable line, or a
  bad threshold) leaves the old figure and the old export data in place, but
  removes their home view. Reset then reports that nothing is plotted.
- Input in which no line parses does not give an empty plot. numpy fails on
  `data[:, 0]` (`PythonApp.py:142`), and the click shows that error
  (`NoSamples`).
- Inline text counts as given when it is not blank after stripping
  (`PythonApp.py:134`). Whitespace-only text with an existing file reads the file.
- Export before any plot does not show the guard's message. See "Findings".

## Model

| member | source | states |
|---|---|---|
| `Text.TrimLeftSpec` | DataProcessingAppCode/PythonApp.py:36 | stripping on the left drops exactly the leading whitespace and keeps the rest as a suffix |
| `Text.TrimRightSpec` | DataProcessingAppCode/PythonApp.py:36 | stripping on the right drops exactly the trailing whitespace and keeps the rest as a prefix |
| `Text.StripSpec` | DataProcessingAppCode/PythonApp.py:36-40 | `strip()` leaves no whitespace at either end, and returns the empty string exactly when the input is all whitespace |
| `Text.SplitPiecesSeparatorFree` | DataProcessingAppCode/PythonApp.py:36 | the pieces `split(',')` returns contain no comma |
| `Text.JoinSplit` | DataProcessingAppCode/PythonApp.py:27 | the pieces of `split('\n')` join back with `'\n'` into the input |
| `Text.SplitJoin` | DataProcessingAppCode/PythonApp.py:27 | splitting a join of separator-free pieces gives back the pieces |
| `SeriesParser.ParseLine` | DataProcessingAppCode/PythonApp.py:36-41 | a line without a comma never gives a sample |
| `SeriesParser.ParseLines` | DataProcessingAppCode/PythonApp.py:34-44 | the sample table is never longer than the list of lines |
| `SeriesParser.SourceLines` | DataProcessingAppCode/PythonApp.py:34-44 | the k-th sample comes from the k-th line that parses. The source lines are ascending, and a line contributes exactly when it has two parsable leading fields |
| `SeriesParser.ParseLinesSnoc` | DataProcessingAppCode/PythonApp.py:35-41 | one more line adds that line's sample at the end when both leading fields parse, and nothing otherwise |
| `SeriesParser.ParseLinesAppend` | DataProcessingAppCode/PythonApp.py:35-41 | parsing distributes over concatenation of the lines, so line order is kept and lines do not affect each other |
| `SeriesParser.LoadData` | DataProcessingAppCode/PythonApp.py:25-44 | the loop returns the parsed lines of the non-empty inline text, else of an existing file. It fails exactly when neither is given |
| `Text.StrippedFields` | DataProcessingAppCode/PythonApp.py:36-40 | after the line is stripped and split on a non-space separator, the first two fields, stripped again, equal the original first two fields stripped, whatever whitespace surrounds the line |
| `SeriesParser.ExtraFieldsIgnored` | DataProcessingAppCode/PythonApp.py:36-41 | for every line of comma-separated fields, whatever surrounds it, only the first two fields decide what the line contributes |
| `SeriesParser.ParseFormattedLine` | DataProcessingAppCode/PythonApp.py:36-41 | a sample written as `x,y`, by a formatter whose text for its two coordinates `float()` reads back, parses back to itself |
| `SeriesParser.ParseFormattedLines` | DataProcessingAppCode/PythonApp.py:34-44 | a series written one line per sample parses back to the same series, when the formatter's text for each of its coordinates reads back |
| `SeriesParser.TextRoundTrip` | DataProcessingAppCode/PythonApp.py:26-44 | the text of a non-empty series, newline-joined, is read back as the same series in the same order, when the formatter's text for each of its coordinates reads back |
| `SeriesParser.ExampleRoundTrip` | DataProcessingAppCode/PythonApp.py:26-44 | the one-sample series (1, 2), written as `1,2` and read back, is the same series |
| `ExtremaDetector.PeaksBelowSpec` | DataProcessingAppCode/PythonApp.py:144 | the peaks below an index are ascending, each is a strict local maximum, and none is missed |
| `ExtremaDetector.FindPeaks` | DataProcessingAppCode/PythonApp.py:144 | `find_peaks(y)` returns exactly the strict local maxima, ascending |
| `ExtremaDetector.NegationSwapsExtrema` | DataProcessingAppCode/PythonApp.py:145 | an index is a strict local minimum of `y` exactly when it is a strict local maximum of `-y` |
| `ExtremaDetector.FindTroughs` | DataProcessingAppCode/PythonApp.py:145 | `find_peaks(-y)` returns exactly the strict local minima of `y`, each once, ascending |
| `ExtremaDetector.ExtremaAreInterior` | DataProcessingAppCode/PythonApp.py:144-145 | no reported peak or trough is the first or the last sample |
| `ExtremaDetector.ShortSeriesHasNoExtrema` | DataProcessingAppCode/PythonApp.py:144-145 | fewer than three samples give no peak and no trough |
| `ExtremaDetector.PeaksAndTroughsDisjoint` | DataProcessingAppCode/PythonApp.py:144-145 | no index is both a peak and a trough |
| `ExtremaDetector.ExamplePeaks` | DataProcessingAppCode/PythonApp.py:144 | the series 2, 5, 1, 6, 0 has peaks at 1 and 3 |
| `ExtremaDetector.ExampleTroughs` | DataProcessingAppCode/PythonApp.py:145 | the series 2, 5, 1, 6, 0 has a single trough, at 2 |
| `ThresholdFilter.FilterPeaks` | DataProcessingAppCode/PythonApp.py:75 | a detected peak is kept exactly when its y is at least the bound, nothing else is kept, and ascending peaks stay ascending |
| `ThresholdFilter.FilterTroughs` | DataProcessingAppCode/PythonApp.py:76 | a detected trough is kept exactly when its y is at most the bound, nothing else is kept, and ascending troughs stay ascending |
| `ThresholdFilter.ParseBounds` | DataProcessingAppCode/PythonApp.py:68-73 | reading fails exactly when a non-empty field does not parse. An empty field gives no bound, and a non-empty one gives its parsed value |
| `ThresholdFilter.Keep` | DataProcessingAppCode/PythonApp.py:75-76 | the filtered list is no longer than its input and points into the series |
| `ThresholdFilter.KeepSpec` | DataProcessingAppCode/PythonApp.py:75-76 | an index is kept exactly when its value passes, every kept index comes from the input, and ascending input stays ascending |
| `ThresholdFilter.KeepAppend` | DataProcessingAppCode/PythonApp.py:75-76 | filtering distributes over concatenation, so relative order is preserved |
| `ThresholdFilter.KeepAll` | DataProcessingAppCode/PythonApp.py:75-76 | a filter that admits every value returns its input |
| `ThresholdFilter.KeepNarrowing` | DataProcessingAppCode/PythonApp.py:75-76 | filtering with a stricter test equals refiltering the result of a looser one |
| `ThresholdFilter.DetectedInRange` | DataProcessingAppCode/PythonApp.py:144-147 | detected indices always point into the series |
| `ThresholdFilter.SelectedExtrema` | DataProcessingAppCode/PythonApp.py:75-76 | filtered peaks are exactly the strict maxima with `y >= peak_min`, and filtered troughs exactly the strict minima with `y <= trough_max`. Both are ascending |
| `ThresholdFilter.EmptyFieldsKeepAll` | DataProcessingAppCode/PythonApp.py:69-76 | two empty fields read as no bounds and filter nothing out |
| `ThresholdFilter.LoweringPeakMinKeepsPeaks` | DataProcessingAppCode/PythonApp.py:75 | lowering `peak_min` never drops a peak, and the stricter result is a refiltering of the looser one |
| `ThresholdFilter.RaisingTroughMaxKeepsTroughs` | DataProcessingAppCode/PythonApp.py:76 | raising `trough_max` never drops a trough |
| `ThresholdFilter.ExampleThreshold` | DataProcessingAppCode/PythonApp.py:75 | with `peak_min` 5.5 only the peak at index 3 of 2, 5, 1, 6, 0 is kept |
| `ExportAssembler.BuildExport` | DataProcessingAppCode/PythonApp.py:117-122 | the stored columns hold the x and y of each filtered index in order, and each x column is as long as its y column |
| `ExportAssembler.Pad` | DataProcessingAppCode/PythonApp.py:199-202 | padding gives the target length, keeps the column unchanged at the front, and fills the rest with the missing marker |
| `ExportAssembler.PresentOfPadded` | DataProcessingAppCode/PythonApp.py:199-202 | dropping the missing cells of a padded column gives the column back |
| `ExportAssembler.Assemble` | DataProcessingAppCode/PythonApp.py:198-202 | all four columns have length max(peaks, troughs). Each keeps its values at the front and is padded with the missing marker after them |
| `ExportAssembler.AssembleLosesNothing` | DataProcessingAppCode/PythonApp.py:198-202 | the table gives back every stored coordinate list exactly, never truncated and with no number in a padded cell |
| `ExportAssembler.ExampleExport` | DataProcessingAppCode/PythonApp.py:198-202 | three peaks and one trough give three rows, and the trough cells of rows two and three are missing |
| `ViewSession.Span` | DataProcessingAppCode/PythonApp.py:51-52 | `(min(a, b), max(a, b))` is ordered and its ends are the two inputs |
| `ViewSession.ZoomTarget` | DataProcessingAppCode/PythonApp.py:47-53 | a zoom happens exactly when all four corner coordinates are present. Each axis then spans the two corners with lo <= hi |
| `ViewSession.ZoomIgnoresDirection` | DataProcessingAppCode/PythonApp.py:51-52 | the zoom box does not depend on the drag direction |
| `ViewSession.ExportedPeaks` | DataProcessingAppCode/PythonApp.py:117-119 | the exported peak pairs are, in series order, exactly the samples at strict local maxima with `y >= peak_min` |
| `ViewSession.ExportedTroughs` | DataProcessingAppCode/PythonApp.py:120-121 | the exported trough pairs are, in series order, exactly the samples at strict local minima with `y <= trough_max` |
| `ViewSession.ClickSeries` | DataProcessingAppCode/PythonApp.py:130-139 | the click has no data source, and is refused with that error, exactly when the inline text is blank and no existing file is named |
| `ViewSession.ClickResult` | DataProcessingAppCode/PythonApp.py:130-147 | the checks run in order: no data source, then no samples, then a bad threshold (read only once samples exist). A success stores aligned columns |
| `ViewSession.ClickExportsSelectedExtrema` | DataProcessingAppCode/PythonApp.py:125-147 | after a successful click, export data holds, in series order, exactly the samples at strict local maxima/minima that pass their bound |
| `ViewSession.EmptyThresholdsExportAllExtrema` | DataProcessingAppCode/PythonApp.py:69-76 | with both fields empty a click exports every detected extremum |
| `ViewSession.ExportAsWritten` | DataProcessingAppCode/PythonApp.py:185-202 | as written: the guard message appears exactly when the name is undefined, the missing-key error exactly when it is defined but empty, and a written table gives back every stored column |
| `ViewSession.ExportGuardNeverFires` | DataProcessingAppCode/PythonApp.py:185-198 | as written, an export at start-up passes the guard and fails on the missing key `'peaks_x'` |
| `ViewSession.App.constructor` | DataProcessingAppCode/PythonApp.py:15-22 | start-up: no figure, no home view, nothing stored for export |
| `ViewSession.App.OnSelect` | DataProcessingAppCode/PythonApp.py:47-53 | a complete drag sets the axes to the zoom box. An incomplete one changes nothing, and nothing but the axes limits ever changes |
| `ViewSession.App.ResetView` | DataProcessingAppCode/PythonApp.py:56-62 | with a home view the axes return to it exactly. Without one the reset reports "not plotted yet" and changes nothing |
| `ViewSession.App.PlotData` | DataProcessingAppCode/PythonApp.py:65-122 | a bad threshold refuses and changes nothing. Otherwise the new figure's limits become the home view, and export data is the filtered coordinates |
| `ViewSession.App.PlotClick` | DataProcessingAppCode/PythonApp.py:125-150 | the home view is cleared on every click. On success figure, home view and export data are replaced. On refusal the old figure and export data stay |
| `ViewSession.App.ExportToExcel` | DataProcessingAppCode/PythonApp.py:185-202 | the corrected export (see "Findings"): it is refused with `NothingToExport` exactly when nothing was plotted, and otherwise returns the padded table of the stored columns. The code as written instead raises `KeyError: 'peaks_x'` on an export at start-up |

## Left out

- Tkinter widgets, layout, the main loop and message boxes (`PythonApp.py:217-260`). Message boxes are the returned `Outcome`, `Notice` and `Result` values.
- Matplotlib drawing, the legend, the canvas and `save_plot` (`PythonApp.py:78-95`, `111-113`, `152-175`). They are rendering and file output. The auto-fit limits of a new figure are the parameter `autoFit`.
- `RectangleSelector` set-up (`PythonApp.py:100-108`) is not modelled. The selector only exists on a drawn figure, which `OnSelect` takes as a precondition.
- ViewSession.App.OnSelect: does not model the selector's rejection of drags under 5 pixels (`PythonApp.py:107-108`), because it depends on the renderer's pixel transform. So a zero-area drag is not rejected here.
- ExtremaDetector.FindPeaks: scipy's `find_peaks` also reports the middle index of a flat plateau (on 0, 1, 1, 0 it reports index 1). The model reports strict local maxima only, so on series with equal neighbouring values it differs from scipy rather than being a weaker statement of it. The same holds for `FindTroughs`.
- Python `float()`: the finite numbers it accepts, in whatever syntax (underscores, exponents, surrounding whitespace), are left to the `parse` parameter. A `Some` from `parse` carries a `real`, so it cannot stand for `float('inf')`, `float('-inf')` or `float('nan')`. Those inputs are outside the model: a threshold field `inf` keeps no peak in the script, and a data field `nan` keeps a sample whose y is NaN. Floating-point rounding is not modelled either, and coordinates are `real`.
- `Text.IsSpace` covers the ASCII whitespace that `str.strip()` removes, not the non-ASCII Unicode spaces.
- File reading (`PythonApp.py:28-30`) is the text `fileText`, split on `'\n'`. `readlines()` keeps the line breaks, but each line is stripped before use, so this gives the same samples. Universal-newline translation and encoding errors are not modelled.
- The file dialogs, the pandas `DataFrame` and `to_excel` (`PythonApp.py:177-182`, `190-196`, `204-215`). Export stops at the padded columns, after a file name was chosen.
- Exceptions other than those named in `AppError`, for example `open()` on a path that is a directory, or a `UnicodeDecodeError` while reading the file (`PythonApp.py:29-30`), which the click reports through its generic handler (`PythonApp.py:149-150`).

## Findings

| source | as written | input that shows it | evidently intended | confidence | as-written member | corrected member |
|---|---|---|---|---|---|---|
| DataProcessingAppCode/PythonApp.py:186-198 | the guard tests whether the name `export_data` exists. Line 22 always defines it, so the guard never fires, and line 198 raises `KeyError: 'peaks_x'` on the empty dictionary (modelled by `ViewSession.ExportAsWritten`) | press export at start-up and choose a file name | refuse with the "plot and filter first" message when nothing was plotted | high, not executed | `ViewSession.ExportGuardNeverFires` | `ViewSession.App.ExportToExcel` |
