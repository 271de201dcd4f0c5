/** The interactive session: the module-level state of the script (`original_xlim`,
    `original_ylim`, `export_data` and the limits of the axes on screen) and the
    actions that change it: the plot button (`on_plot_click` and `plot_data`),
    a drag on the figure (`on_select`), the reset button (`reset_view`) and the
    export button (`export_to_excel`). */
module ViewSession {
  import opened Common
  import opened Text
  import opened SeriesParser
  import opened ExtremaDetector
  import opened ThresholdFilter
  import opened ExportAssembler

  /** An axis range as matplotlib's `get_xlim()` returns it. */
  datatype Interval = Interval(lo: real, hi: real)

  /** The visible rectangle of the axes. */
  datatype Limits = Limits(x: Interval, y: Interval)

  /** What the plot button reports. */
  datatype Outcome = Plotted | Refused(error: AppError)

  /** What the reset button reports. */
  datatype Notice = Redrawn | NotPlottedYet

  /** `(min(a, b), max(a, b))`. */
  function Span(a: real, b: real): (r: Interval)
    ensures r.lo <= r.hi
    ensures {r.lo, r.hi} == {a, b}
  {
    Interval(if b < a then b else a, if a < b then b else a)
  }

  /** The rectangle `on_select` zooms to: the box spanned by the two drag corners,
      or nothing when one of the four coordinates is missing (a corner released
      outside the axes). */
  function ZoomTarget(x1: Option<real>, y1: Option<real>, x2: Option<real>, y2: Option<real>)
    : (r: Option<Limits>)
    ensures r.Some? <==> x1.Some? && y1.Some? && x2.Some? && y2.Some?
    ensures r.Some? ==>
      && r.value.x.lo <= r.value.x.hi && {r.value.x.lo, r.value.x.hi} == {x1.value, x2.value}
      && r.value.y.lo <= r.value.y.hi && {r.value.y.lo, r.value.y.hi} == {y1.value, y2.value}
  {
    if x1.Some? && x2.Some? && y1.Some? && y2.Some? then
      Some(Limits(Span(x1.value, x2.value), Span(y1.value, y2.value)))
    else None
  }

  /** The drag direction does not matter: starting at either corner zooms to the same box. */
  lemma ZoomIgnoresDirection(x1: Option<real>, y1: Option<real>, x2: Option<real>, y2: Option<real>)
    ensures ZoomTarget(x1, y1, x2, y2) == ZoomTarget(x2, y2, x1, y1)
    ensures ZoomTarget(x1, y1, x2, y2) == ZoomTarget(x1, y2, x2, y1)
  {
  }

  /** The series the plot button reads: non-blank inline text wins, then an
      existing file; with neither the click is refused. */
  function ClickSeries(inputText: string, filePath: string, fileExists: bool, fileText: string,
                       parse: string -> Option<real>): (r: Result<seq<Sample>>)
    ensures r.Failure? <==> Strip(inputText) == [] && (filePath == [] || !fileExists)
    ensures r.Failure? ==> r.error == NoDataSource
  {
    if Strip(inputText) != [] then Success(ParseLines(Split(Strip(inputText), '\n'), parse))
    else if filePath != [] && fileExists then Success(ParseLines(Split(fileText, '\n'), parse))
    else Failure(NoDataSource)
  }

  /** What a plot click stores for export, or why it is refused: no data source,
      a table without samples (numpy fails on `data[:, 0]`), or a threshold field
      that is not a number. */
  function ClickResult(inputText: string, filePath: string, fileExists: bool, fileText: string,
                       peakText: string, troughText: string, parse: string -> Option<real>)
    : (r: Result<ExportData>)
    ensures var series := ClickSeries(inputText, filePath, fileExists, fileText, parse);
      && (r.Failure? && r.error == NoDataSource <==> series.Failure?)
      && (r.Failure? && r.error == NoSamples <==> series == Success([]))
      && (r.Failure? && r.error == BadThreshold <==>
            series.Success? && series.value != [] && ParseBounds(peakText, troughText, parse).Failure?)
      && (r.Failure? ==> r.error != NothingToExport)
    ensures r.Success? ==> r.value.Aligned()
  {
    match ClickSeries(inputText, filePath, fileExists, fileText, parse)
    case Failure(e) => Failure(e)
    case Success(series) =>
      if series == [] then Failure(NoSamples)
      else
        match ParseBounds(peakText, troughText, parse)
        case Failure(e) => Failure(e)
        case Success(b) =>
          var ys := Ys(series);
          DetectedInRange(ys);
          Success(BuildExport(Xs(series), ys, FilterPeaks(ys, FindPeaks(ys), b.peakMin),
                              FilterTroughs(ys, FindTroughs(ys), b.troughMax)))
  }

  /** `cells` is the subsequence of `series` at the ascending positions `idx`. */
  ghost predicate SubsequenceAt(series: seq<Sample>, idx: seq<nat>, cells: seq<Sample>) {
    && Ascending(idx) && |idx| == |cells|
    && forall k :: 0 <= k < |idx| ==> idx[k] < |series| && cells[k] == series[idx[k]]
  }

  /** `cells` lists, in series order, exactly the samples at strict local
      maxima whose y is at least `peakMin`. */
  ghost predicate ExportsPeaks(series: seq<Sample>, peakMin: Option<real>, cells: seq<Sample>) {
    var ys := Ys(series);
    exists idx :: SubsequenceAt(series, idx, cells) &&
      forall i :: i in idx <==> IsPeak(ys, i) && AtLeast(ys[i], peakMin)
  }

  /** `cells` lists, in series order, exactly the samples at strict local
      minima whose y is at most `troughMax`. */
  ghost predicate ExportsTroughs(series: seq<Sample>, troughMax: Option<real>, cells: seq<Sample>) {
    var ys := Ys(series);
    exists idx :: SubsequenceAt(series, idx, cells) &&
      forall i :: i in idx <==> IsTrough(ys, i) && AtMost(ys[i], troughMax)
  }

  /** The coordinates exported for the peaks kept under `peakMin` are those of
      the samples at strict local maxima whose y is at least the bound, in
      series order. */
  lemma ExportedPeaks(series: seq<Sample>, peakMin: Option<real>)
    ensures var ys := Ys(series);
      var p := FilterPeaks(ys, FindPeaks(ys), peakMin);
      ExportsPeaks(series, peakMin, Zip(Pick(Xs(series), p), Pick(ys, p)))
  {
    var ys := Ys(series);
    SelectedExtrema(ys, Bounds(peakMin, None));
    var p := FilterPeaks(ys, FindPeaks(ys), peakMin);
    var cells := Zip(Pick(Xs(series), p), Pick(ys, p));
    forall k | 0 <= k < |p| ensures p[k] < |series| && cells[k] == series[p[k]] {
      assert cells[k] == Sample(Xs(series)[p[k]], ys[p[k]]);
    }
    assert SubsequenceAt(series, p, cells);
  }

  /** The coordinates exported for the troughs kept under `troughMax` are those
      of the samples at strict local minima whose y is at most the bound, in
      series order. */
  lemma ExportedTroughs(series: seq<Sample>, troughMax: Option<real>)
    ensures var ys := Ys(series);
      var t := FilterTroughs(ys, FindTroughs(ys), troughMax);
      ExportsTroughs(series, troughMax, Zip(Pick(Xs(series), t), Pick(ys, t)))
  {
    var ys := Ys(series);
    SelectedExtrema(ys, Bounds(None, troughMax));
    var t := FilterTroughs(ys, FindTroughs(ys), troughMax);
    var cells := Zip(Pick(Xs(series), t), Pick(ys, t));
    forall k | 0 <= k < |t| ensures t[k] < |series| && cells[k] == series[t[k]] {
      assert cells[k] == Sample(Xs(series)[t[k]], ys[t[k]]);
    }
    assert SubsequenceAt(series, t, cells);
  }

  /** What a successful click stores: the coordinates of the filtered extrema of
      the series it read, under the bounds it read. */
  lemma ClickResultSucceeds(inputText: string, filePath: string, fileExists: bool, fileText: string,
                            peakText: string, troughText: string, parse: string -> Option<real>)
    requires ClickResult(inputText, filePath, fileExists, fileText, peakText, troughText, parse).Success?
    ensures ClickSeries(inputText, filePath, fileExists, fileText, parse).Success?
    ensures ParseBounds(peakText, troughText, parse).Success?
    ensures var series := ClickSeries(inputText, filePath, fileExists, fileText, parse).value;
      var ys := Ys(series);
      var b := ParseBounds(peakText, troughText, parse).value;
      && series != []
      && InRange(FindPeaks(ys), |ys|) && InRange(FindTroughs(ys), |ys|)
      && ClickResult(inputText, filePath, fileExists, fileText, peakText, troughText, parse).value
         == BuildExport(Xs(series), ys, FilterPeaks(ys, FindPeaks(ys), b.peakMin),
                        FilterTroughs(ys, FindTroughs(ys), b.troughMax))
  {
    DetectedInRange(Ys(ClickSeries(inputText, filePath, fileExists, fileText, parse).value));
  }

  /** A successful click stores for export, in series order, the samples at
      strict local maxima whose y is at least the lower bound and the samples at
      strict local minima whose y is at most the upper bound, and nothing else. */
  lemma ClickExportsSelectedExtrema(inputText: string, filePath: string, fileExists: bool, fileText: string,
                                    peakText: string, troughText: string, parse: string -> Option<real>)
    requires ClickResult(inputText, filePath, fileExists, fileText, peakText, troughText, parse).Success?
    ensures var series := ClickSeries(inputText, filePath, fileExists, fileText, parse).value;
      var ys := Ys(series);
      var b := ParseBounds(peakText, troughText, parse).value;
      var e := ClickResult(inputText, filePath, fileExists, fileText, peakText, troughText, parse).value;
      && series != [] && e.Aligned()
      && ExportsPeaks(series, b.peakMin, Zip(e.peaksX, e.peaksY))
      && ExportsTroughs(series, b.troughMax, Zip(e.troughsX, e.troughsY))
  {
    var series := ClickSeries(inputText, filePath, fileExists, fileText, parse).value;
    var ys := Ys(series);
    var b := ParseBounds(peakText, troughText, parse).value;
    var e := ClickResult(inputText, filePath, fileExists, fileText, peakText, troughText, parse).value;
    ClickResultSucceeds(inputText, filePath, fileExists, fileText, peakText, troughText, parse);
    var p := FilterPeaks(ys, FindPeaks(ys), b.peakMin);
    var t := FilterTroughs(ys, FindTroughs(ys), b.troughMax);
    assert Zip(e.peaksX, e.peaksY) == Zip(Pick(Xs(series), p), Pick(ys, p));
    assert Zip(e.troughsX, e.troughsY) == Zip(Pick(Xs(series), t), Pick(ys, t));
    ExportedPeaks(series, b.peakMin);
    ExportedTroughs(series, b.troughMax);
  }

  /** Pairs two coordinate columns back into samples. */
  function Zip(xs: seq<real>, ys: seq<real>): (r: seq<Sample>)
    requires |xs| == |ys|
    ensures |r| == |xs| && forall k :: 0 <= k < |xs| ==> r[k] == Sample(xs[k], ys[k])
  {
    seq(|xs|, k requires 0 <= k < |xs| => Sample(xs[k], ys[k]))
  }

  /** With both threshold fields empty a click exports every detected extremum. */
  lemma EmptyThresholdsExportAllExtrema(inputText: string, filePath: string, fileExists: bool,
                                        fileText: string, parse: string -> Option<real>)
    requires ClickSeries(inputText, filePath, fileExists, fileText, parse).Success?
    requires ClickSeries(inputText, filePath, fileExists, fileText, parse).value != []
    ensures var series := ClickSeries(inputText, filePath, fileExists, fileText, parse).value;
      var ys := Ys(series);
      ClickResult(inputText, filePath, fileExists, fileText, [], [], parse)
        == Success(BuildExport(Xs(series), ys, FindPeaks(ys), FindTroughs(ys)))
  {
    var ys := Ys(ClickSeries(inputText, filePath, fileExists, fileText, parse).value);
    DetectedInRange(ys);
    EmptyFieldsKeepAll(ys, FindPeaks(ys), FindTroughs(ys), parse);
  }

  /** How `export_to_excel` ends as the code is written, after a file name was chosen. */
  datatype ExportStep = GuardMessage | MissingKey(key: string) | Written(table: ExportTable)

  /** `export_to_excel` as written: the guard asks whether the name `export_data`
      is defined (`nameDefined`), and the padding then looks up `'peaks_x'` in
      the stored dictionary; `stored == None` is the empty dictionary. */
  function ExportAsWritten(nameDefined: bool, stored: Option<ExportData>): (r: ExportStep)
    requires stored.Some? ==> stored.value.Aligned()
    ensures r == GuardMessage <==> !nameDefined
    ensures r.MissingKey? <==> nameDefined && stored.None?
    ensures r.Written? ==>
      && Present(r.table.peakX) == stored.value.peaksX && Present(r.table.peakY) == stored.value.peaksY
      && Present(r.table.troughX) == stored.value.troughsX && Present(r.table.troughY) == stored.value.troughsY
  {
    if !nameDefined then GuardMessage
    else if stored.None? then MissingKey("peaks_x")
    else
      AssembleLosesNothing(stored.value);
      Written(Assemble(stored.value))
  }

  /** The script defines `export_data` as an empty dictionary at start-up, so the
      guard never fires: an export before the first plot does not show the
      "plot first" message but fails on the missing key `'peaks_x'`. */
  lemma ExportGuardNeverFires()
    ensures ExportAsWritten(true, None) == MissingKey("peaks_x")
    ensures ExportAsWritten(true, None) != GuardMessage
  {
  }

  /** The script's module-level state. */
  class App {
    /** The limits of the axes on screen; `None` before the first figure. */
    var axes: Option<Limits>
    /** `original_xlim` and `original_ylim`: the home view of the last plot. */
    var originalXlim: Option<Interval>
    var originalYlim: Option<Interval>
    /** `export_data`; `None` for the empty dictionary it starts as. */
    var exportData: Option<ExportData>

    /** The home limits are set and cleared together and only exist with a
        figure; export data exists exactly when a figure has been drawn. */
    ghost predicate Valid()
      reads this
    {
      && (originalXlim.Some? <==> originalYlim.Some?)
      && (originalXlim.Some? ==> axes.Some?)
      && (axes.Some? <==> exportData.Some?)
      && (exportData.Some? ==> exportData.value.Aligned())
    }

    /** The state at start-up: no figure, no home view, nothing to export. */
    constructor ()
      ensures Valid()
      ensures axes == None && originalXlim == None && originalYlim == None && exportData == None
    {
      axes := None;
      originalXlim, originalYlim := None, None;
      exportData := None;
    }

    /** `on_select`: zoom to the dragged box. The selector only exists on a drawn
        figure, so a figure is on screen. Nothing but the axes limits changes. */
    method OnSelect(x1: Option<real>, y1: Option<real>, x2: Option<real>, y2: Option<real>)
      requires Valid() && axes.Some?
      modifies this`axes
      ensures Valid()
      ensures axes == if ZoomTarget(x1, y1, x2, y2).Some? then ZoomTarget(x1, y1, x2, y2) else old(axes)
    {
      if x1.Some? && x2.Some? && y1.Some? && y2.Some? {
        axes := Some(Limits(Span(x1.value, x2.value), Span(y1.value, y2.value)));
      }
    }

    /** `reset_view`: back to the home view of the last plot, or a "no plot yet"
        notice that changes nothing. */
    method ResetView() returns (n: Notice)
      requires Valid()
      modifies this`axes
      ensures Valid()
      ensures old(originalXlim).Some? && old(originalYlim).Some? ==>
        n == Redrawn && axes == Some(Limits(originalXlim.value, originalYlim.value))
      ensures !(old(originalXlim).Some? && old(originalYlim).Some?) ==>
        n == NotPlottedYet && axes == old(axes)
    {
      if originalXlim.Some? && originalYlim.Some? {
        axes := Some(Limits(originalXlim.value, originalYlim.value));
        n := Redrawn;
      } else {
        n := NotPlottedYet;
      }
    }

    /** `plot_data`: read the thresholds, filter the extrema, draw a new figure
        whose limits are the renderer's auto-fit box `autoFit`, record that box
        as the home view and store the coordinates for export. A threshold that
        is not a number refuses the plot before anything is touched. */
    method PlotData(xs: seq<real>, ys: seq<real>, peaks: seq<nat>, troughs: seq<nat>,
                    peakText: string, troughText: string, parse: string -> Option<real>,
                    autoFit: Limits)
      returns (r: Outcome)
      requires Valid()
      requires |xs| == |ys| && InRange(peaks, |ys|) && InRange(troughs, |ys|)
      modifies this
      ensures Valid()
      ensures ParseBounds(peakText, troughText, parse).Failure? ==>
        r == Refused(BadThreshold) && unchanged(this)
      ensures ParseBounds(peakText, troughText, parse).Success? ==>
        var b := ParseBounds(peakText, troughText, parse).value;
        && r == Plotted
        && axes == Some(autoFit)
        && originalXlim == Some(autoFit.x) && originalYlim == Some(autoFit.y)
        && exportData == Some(BuildExport(xs, ys, FilterPeaks(ys, peaks, b.peakMin),
                                          FilterTroughs(ys, troughs, b.troughMax)))
    {
      var bounds := ParseBounds(peakText, troughText, parse);
      if bounds.Failure? {
        return Refused(bounds.error);
      }
      var filteredPeaks := FilterPeaks(ys, peaks, bounds.value.peakMin);
      var filteredTroughs := FilterTroughs(ys, troughs, bounds.value.troughMax);
      axes := Some(autoFit);
      originalXlim, originalYlim := Some(autoFit.x), Some(autoFit.y);
      exportData := Some(BuildExport(xs, ys, filteredPeaks, filteredTroughs));
      r := Plotted;
    }

    /** `on_plot_click`: forget the home view, read the series, detect its
        extrema and plot them. On success the new figure, its home view and its
        export data replace the old ones; on any refusal the old figure and
        export data stay, but the home view is gone. */
    method PlotClick(inputText: string, filePath: string, fileExists: bool, fileText: string,
                     peakText: string, troughText: string, parse: string -> Option<real>,
                     autoFit: Limits)
      returns (r: Outcome)
      requires Valid()
      modifies this
      ensures Valid()
      ensures ClickResult(inputText, filePath, fileExists, fileText, peakText, troughText, parse).Success? ==>
        && r == Plotted
        && axes == Some(autoFit)
        && originalXlim == Some(autoFit.x) && originalYlim == Some(autoFit.y)
        && exportData == Some(ClickResult(inputText, filePath, fileExists, fileText,
                                          peakText, troughText, parse).value)
      ensures ClickResult(inputText, filePath, fileExists, fileText, peakText, troughText, parse).Failure? ==>
        && r == Refused(ClickResult(inputText, filePath, fileExists, fileText,
                                    peakText, troughText, parse).error)
        && originalXlim == None && originalYlim == None
        && axes == old(axes) && exportData == old(exportData)
    {
      originalXlim, originalYlim := None, None;
      var loaded: Result<seq<Sample>>;
      StripSpec(inputText);
      if Strip(inputText) != [] {
        loaded := LoadData(inputText, [], false, [], parse);
      } else if filePath != [] && fileExists {
        loaded := LoadData([], filePath, fileExists, fileText, parse);
      } else {
        return Refused(NoDataSource);
      }
      var data := loaded.value;
      if data == [] {
        return Refused(NoSamples);
      }
      var xs, ys := Xs(data), Ys(data);
      var peaks, troughs := FindPeaks(ys), FindTroughs(ys);
      DetectedInRange(ys);
      r := PlotData(xs, ys, peaks, troughs, peakText, troughText, parse, autoFit);
    }

    /** `export_to_excel` once a file name has been chosen, with its guard
        corrected: the stored columns padded to a common length, or a refusal
        before any plot. The code as written never takes the guard and fails
        on the missing key `'peaks_x'` instead (`ExportAsWritten`). */
    method ExportToExcel() returns (r: Result<ExportTable>)
      requires Valid()
      ensures r.Failure? <==> exportData.None?
      ensures r.Failure? ==> r.error == NothingToExport
      ensures r.Success? ==> r.value == Assemble(exportData.value)
    {
      if exportData.None? {
        return Failure(NothingToExport);
      }
      r := Success(Assemble(exportData.value));
    }
  }

  /** A reset or an export before the first plot only reports that there is
      none. The refused export is the corrected behaviour; as written, the
      script raises `KeyError` there (`ExportGuardNeverFires`). */
  method ExampleSession() {
    var app := new App();
    var n := app.ResetView();
    assert n == NotPlottedYet && app.axes == None;
    var e := app.ExportToExcel();
    assert e == Failure(NothingToExport);
  }
}
