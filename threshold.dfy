/** The threshold step of `plot_data`: reading the two bound fields, then keeping
    the peaks at or above the lower bound and the troughs at or below the upper
    bound. */
module ThresholdFilter {
  import opened Common
  import opened ExtremaDetector

  /** The two bounds; `None` stands for an empty field (minus or plus infinity). */
  datatype Bounds = Bounds(peakMin: Option<real>, troughMax: Option<real>)

  /** One threshold field: empty means unconstrained, otherwise the text must be a number. */
  function ParseBound(text: string, parse: string -> Option<real>): Result<Option<real>> {
    if text == [] then Success(None)
    else if parse(text).Some? then Success(Some(parse(text).value))
    else Failure(BadThreshold)
  }

  /** Both fields, the peak bound first; either one failing fails the whole reading. */
  function ParseBounds(peakText: string, troughText: string, parse: string -> Option<real>)
    : (r: Result<Bounds>)
    ensures r.Failure? <==>
      (peakText != [] && parse(peakText).None?) || (troughText != [] && parse(troughText).None?)
    ensures r.Failure? ==> r.error == BadThreshold
    ensures r.Success? ==>
      && (r.value.peakMin.None? <==> peakText == [])
      && (r.value.troughMax.None? <==> troughText == [])
      && (peakText != [] ==> parse(peakText) == r.value.peakMin)
      && (troughText != [] ==> parse(troughText) == r.value.troughMax)
  {
    match ParseBound(peakText, parse)
    case Failure(e) => Failure(e)
    case Success(lo) =>
      match ParseBound(troughText, parse)
      case Failure(e) => Failure(e)
      case Success(hi) => Success(Bounds(lo, hi))
  }

  /** `y >= peak_min`, an empty bound admitting every value. */
  predicate AtLeast(y: real, bound: Option<real>) {
    bound.None? || y >= bound.value
  }

  /** `y <= trough_max`, an empty bound admitting every value. */
  predicate AtMost(y: real, bound: Option<real>) {
    bound.None? || y <= bound.value
  }

  /** Every index points into a series of length `n`. */
  predicate InRange(idx: seq<nat>, n: nat) {
    forall k :: 0 <= k < |idx| ==> idx[k] < n
  }

  /** The list comprehension `[i for i in idx if keep(ys[i])]`. */
  function Keep(ys: seq<real>, idx: seq<nat>, keep: real -> bool): (r: seq<nat>)
    requires InRange(idx, |ys|)
    ensures |r| <= |idx| && InRange(r, |ys|)
    decreases |idx|
  {
    if idx == [] then []
    else
      var rest := Keep(ys, idx[1..], keep);
      if keep(ys[idx[0]]) then [idx[0]] + rest else rest
  }

  /** `Keep` returns exactly the indices whose value passes, each taken from the
      input, and keeps an ascending input ascending. */
  lemma {:induction false} KeepSpec(ys: seq<real>, idx: seq<nat>, keep: real -> bool)
    requires InRange(idx, |ys|)
    ensures var r := Keep(ys, idx, keep);
      && (forall k :: 0 <= k < |idx| ==> (idx[k] in r <==> keep(ys[idx[k]])))
      && (forall i :: i in r ==> i in idx)
      && (Ascending(idx) ==> Ascending(r))
    decreases |idx|
  {
    if idx != [] {
      var rest := Keep(ys, idx[1..], keep);
      KeepSpec(ys, idx[1..], keep);
      if Ascending(idx) {
        forall j | 0 <= j < |rest| ensures idx[0] < rest[j] {
          assert rest[j] in rest;
          var m :| 0 <= m < |idx[1..]| && idx[1..][m] == rest[j];
          assert idx[m + 1] == rest[j];
        }
      }
      forall k | 0 <= k < |idx| ensures idx[k] in Keep(ys, idx, keep) <==> keep(ys[idx[k]]) {
        if k > 0 {
          assert idx[k] == idx[1..][k - 1];
          if Ascending(idx) {
            assert idx[0] < idx[k];
          }
        }
      }
    }
  }

  /** Filtering distributes over concatenation: the kept indices stay in their input order. */
  lemma {:induction false} KeepAppend(ys: seq<real>, a: seq<nat>, b: seq<nat>, keep: real -> bool)
    requires InRange(a, |ys|) && InRange(b, |ys|)
    ensures InRange(a + b, |ys|)
    ensures Keep(ys, a + b, keep) == Keep(ys, a, keep) + Keep(ys, b, keep)
    decreases |a|
  {
    if a != [] {
      KeepAppend(ys, a[1..], b, keep);
      assert (a + b)[0] == a[0];
      assert (a + b)[1..] == a[1..] + b;
    } else {
      assert a + b == b;
    }
  }

  /** A filter that keeps everything returns its input unchanged. */
  lemma {:induction false} KeepAll(ys: seq<real>, idx: seq<nat>, keep: real -> bool)
    requires InRange(idx, |ys|)
    requires forall k :: 0 <= k < |idx| ==> keep(ys[idx[k]])
    ensures Keep(ys, idx, keep) == idx
    decreases |idx|
  {
    if idx != [] {
      KeepAll(ys, idx[1..], keep);
    }
  }

  /** Filtering with a stricter test is the same as filtering the result of a
      looser one with it: the stricter result is a subsequence of the looser one. */
  lemma {:induction false} KeepNarrowing(ys: seq<real>, idx: seq<nat>, strict: real -> bool, loose: real -> bool)
    requires InRange(idx, |ys|)
    requires forall y :: strict(y) ==> loose(y)
    ensures Keep(ys, Keep(ys, idx, loose), strict) == Keep(ys, idx, strict)
    decreases |idx|
  {
    if idx != [] {
      KeepNarrowing(ys, idx[1..], strict, loose);
    }
  }

  /** `filtered_peaks`: the peaks whose value is at least the lower bound, in
      their detected order. */
  function FilterPeaks(ys: seq<real>, peaks: seq<nat>, peakMin: Option<real>): (r: seq<nat>)
    requires InRange(peaks, |ys|)
    ensures InRange(r, |ys|)
    ensures forall k :: 0 <= k < |peaks| ==> (peaks[k] in r <==> AtLeast(ys[peaks[k]], peakMin))
    ensures forall i :: i in r ==> i in peaks
    ensures Ascending(peaks) ==> Ascending(r)
  {
    KeepSpec(ys, peaks, y => AtLeast(y, peakMin));
    Keep(ys, peaks, y => AtLeast(y, peakMin))
  }

  /** `filtered_troughs`: the troughs whose value is at most the upper bound, in
      their detected order. */
  function FilterTroughs(ys: seq<real>, troughs: seq<nat>, troughMax: Option<real>): (r: seq<nat>)
    requires InRange(troughs, |ys|)
    ensures InRange(r, |ys|)
    ensures forall k :: 0 <= k < |troughs| ==> (troughs[k] in r <==> AtMost(ys[troughs[k]], troughMax))
    ensures forall i :: i in r ==> i in troughs
    ensures Ascending(troughs) ==> Ascending(r)
  {
    KeepSpec(ys, troughs, y => AtMost(y, troughMax));
    Keep(ys, troughs, y => AtMost(y, troughMax))
  }

  /** The detected extrema always point into the series. */
  lemma DetectedInRange(ys: seq<real>)
    ensures InRange(FindPeaks(ys), |ys|) && InRange(FindTroughs(ys), |ys|)
  {
    ExtremaAreInterior(ys);
  }

  /** The filtered peaks are exactly the strict local maxima at or above the
      bound, and the filtered troughs exactly the strict local minima at or below
      it; both lists are in ascending order. */
  lemma SelectedExtrema(ys: seq<real>, b: Bounds)
    ensures InRange(FindPeaks(ys), |ys|) && InRange(FindTroughs(ys), |ys|)
    ensures var p := FilterPeaks(ys, FindPeaks(ys), b.peakMin);
      Ascending(p) && forall i :: i in p <==> IsPeak(ys, i) && AtLeast(ys[i], b.peakMin)
    ensures var t := FilterTroughs(ys, FindTroughs(ys), b.troughMax);
      Ascending(t) && forall i :: i in t <==> IsTrough(ys, i) && AtMost(ys[i], b.troughMax)
  {
    DetectedInRange(ys);
    var peaks, troughs := FindPeaks(ys), FindTroughs(ys);
    var p := FilterPeaks(ys, peaks, b.peakMin);
    var t := FilterTroughs(ys, troughs, b.troughMax);
    forall i ensures i in p <==> IsPeak(ys, i) && AtLeast(ys[i], b.peakMin) {
      if IsPeak(ys, i) {
        var k :| 0 <= k < |peaks| && peaks[k] == i;
      }
    }
    forall i ensures i in t <==> IsTrough(ys, i) && AtMost(ys[i], b.troughMax) {
      if IsTrough(ys, i) {
        var k :| 0 <= k < |troughs| && troughs[k] == i;
      }
    }
  }

  /** With both fields empty nothing is filtered out. */
  lemma EmptyFieldsKeepAll(ys: seq<real>, peaks: seq<nat>, troughs: seq<nat>, parse: string -> Option<real>)
    requires InRange(peaks, |ys|) && InRange(troughs, |ys|)
    ensures ParseBounds([], [], parse) == Success(Bounds(None, None))
    ensures FilterPeaks(ys, peaks, None) == peaks
    ensures FilterTroughs(ys, troughs, None) == troughs
  {
    KeepAll(ys, peaks, y => AtLeast(y, None));
    KeepAll(ys, troughs, y => AtMost(y, None));
  }

  /** As a lower bound, `lower` admits every value `higher` admits. */
  predicate NoHigher(lower: Option<real>, higher: Option<real>) {
    lower.None? || (higher.Some? && lower.value <= higher.value)
  }

  /** As an upper bound, `higher` admits every value `lower` admits. */
  predicate NoLower(higher: Option<real>, lower: Option<real>) {
    higher.None? || (lower.Some? && lower.value <= higher.value)
  }

  /** Lowering the peak bound never drops a peak: the peaks kept under the higher
      bound are those kept under the lower one, filtered again. */
  lemma LoweringPeakMinKeepsPeaks(ys: seq<real>, peaks: seq<nat>, lower: Option<real>, higher: Option<real>)
    requires InRange(peaks, |ys|)
    requires NoHigher(lower, higher)
    ensures FilterPeaks(ys, FilterPeaks(ys, peaks, lower), higher) == FilterPeaks(ys, peaks, higher)
    ensures forall i :: i in FilterPeaks(ys, peaks, higher) ==> i in FilterPeaks(ys, peaks, lower)
  {
    KeepNarrowing(ys, peaks, y => AtLeast(y, higher), y => AtLeast(y, lower));
  }

  /** Raising the trough bound never drops a trough. */
  lemma RaisingTroughMaxKeepsTroughs(ys: seq<real>, troughs: seq<nat>, lower: Option<real>, higher: Option<real>)
    requires InRange(troughs, |ys|)
    requires NoLower(higher, lower)
    ensures FilterTroughs(ys, FilterTroughs(ys, troughs, higher), lower) == FilterTroughs(ys, troughs, lower)
    ensures forall i :: i in FilterTroughs(ys, troughs, lower) ==> i in FilterTroughs(ys, troughs, higher)
  {
    KeepNarrowing(ys, troughs, y => AtMost(y, lower), y => AtMost(y, higher));
  }

  /** The series 2, 5, 1, 6, 0 with a lower peak bound of 5.5 keeps only the peak at index 3. */
  lemma ExampleThreshold()
    ensures FilterPeaks([2.0, 5.0, 1.0, 6.0, 0.0], [1, 3], Some(5.5)) == [3]
  {
    var ys := [2.0, 5.0, 1.0, 6.0, 0.0];
    assert Keep(ys, [3], y => AtLeast(y, Some(5.5))) == [3];
    assert [1, 3][1..] == [3];
  }
}
