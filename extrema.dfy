/** Extrema detection as `on_plot_click` performs it: `find_peaks(y)` for the
    peaks and `find_peaks(-y)` for the troughs. Only the strict-neighbour part of
    `find_peaks`' behaviour is modelled: index i is reported when it is interior
    and its value is strictly above both neighbours. */
module ExtremaDetector {
  import opened Common

  /** `i` is an interior index whose value is strictly above both neighbours. */
  predicate IsPeak(ys: seq<real>, i: int) {
    0 < i < |ys| - 1 && ys[i - 1] < ys[i] && ys[i] > ys[i + 1]
  }

  /** `i` is an interior index whose value is strictly below both neighbours. */
  predicate IsTrough(ys: seq<real>, i: int) {
    0 < i < |ys| - 1 && ys[i - 1] > ys[i] && ys[i] < ys[i + 1]
  }

  /** The series with every value negated: `-y_values`. */
  function Negate(ys: seq<real>): (r: seq<real>)
    ensures |r| == |ys|
    ensures forall i :: 0 <= i < |ys| ==> r[i] == -ys[i]
  {
    seq(|ys|, i requires 0 <= i < |ys| => -ys[i])
  }

  /** The peaks among the indices below `k`, scanned in ascending order. */
  function PeaksBelow(ys: seq<real>, k: nat): (r: seq<nat>)
    ensures |r| <= k
    decreases k
  {
    if k == 0 then []
    else
      var r := PeaksBelow(ys, k - 1);
      if IsPeak(ys, k - 1) then r + [k - 1] else r
  }

  /** The scan below `k` reports every peak below `k`, only peaks, each once and
      in ascending order. */
  lemma {:induction false} PeaksBelowSpec(ys: seq<real>, k: nat)
    ensures var r := PeaksBelow(ys, k);
      && Ascending(r)
      && (forall j :: 0 <= j < |r| ==> r[j] < k && IsPeak(ys, r[j]))
      && (forall i :: 0 <= i < k && IsPeak(ys, i) ==> i in r)
    decreases k
  {
    if k > 0 {
      PeaksBelowSpec(ys, k - 1);
    }
  }

  /** `find_peaks(ys)`: every peak of the series, each once, in ascending order. */
  function FindPeaks(ys: seq<real>): (r: seq<nat>)
    ensures Ascending(r)
    ensures forall j :: 0 <= j < |r| ==> IsPeak(ys, r[j])
    ensures forall i :: IsPeak(ys, i) ==> i in r
  {
    PeaksBelowSpec(ys, |ys|);
    PeaksBelow(ys, |ys|)
  }

  /** Negating the series turns its strict local minima into strict local maxima and back. */
  lemma NegationSwapsExtrema(ys: seq<real>)
    ensures forall i :: IsTrough(ys, i) <==> IsPeak(Negate(ys), i)
  {
    var n := Negate(ys);
    forall i ensures IsTrough(ys, i) <==> IsPeak(n, i) {
      if 0 < i < |ys| - 1 {
        assert n[i - 1] == -ys[i - 1] && n[i] == -ys[i] && n[i + 1] == -ys[i + 1];
      }
    }
  }

  /** `find_peaks(-ys)`: the peaks of the negated series, which are exactly the
      strict local minima of the series, each once, in ascending order. */
  function FindTroughs(ys: seq<real>): (r: seq<nat>)
    ensures Ascending(r)
    ensures forall j :: 0 <= j < |r| ==> IsTrough(ys, r[j])
    ensures forall i :: IsTrough(ys, i) ==> i in r
  {
    NegationSwapsExtrema(ys);
    FindPeaks(Negate(ys))
  }

  /** Every reported extremum is an interior index: never the first or the last sample. */
  lemma ExtremaAreInterior(ys: seq<real>)
    ensures forall j :: 0 <= j < |FindPeaks(ys)| ==> 0 < FindPeaks(ys)[j] < |ys| - 1
    ensures forall j :: 0 <= j < |FindTroughs(ys)| ==> 0 < FindTroughs(ys)[j] < |ys| - 1
  {
  }

  /** Below index `k` of a series of fewer than three samples there is no peak. */
  lemma {:induction false} NoPeaksInShortSeries(ys: seq<real>, k: nat)
    requires k <= |ys| < 3
    ensures PeaksBelow(ys, k) == []
    decreases k
  {
    if k > 0 {
      NoPeaksInShortSeries(ys, k - 1);
    }
  }

  /** A series of fewer than three samples has no extrema. */
  lemma ShortSeriesHasNoExtrema(ys: seq<real>)
    requires |ys| < 3
    ensures FindPeaks(ys) == [] && FindTroughs(ys) == []
  {
    NoPeaksInShortSeries(ys, |ys|);
    NoPeaksInShortSeries(Negate(ys), |ys|);
  }

  /** No index is reported both as a peak and as a trough. */
  lemma PeaksAndTroughsDisjoint(ys: seq<real>)
    ensures forall i :: i in FindPeaks(ys) ==> i !in FindTroughs(ys)
  {
  }

  /** The series 2, 5, 1, 6, 0 has peaks at 1 and 3; the ends are excluded. */
  lemma ExamplePeaks()
    ensures FindPeaks([2.0, 5.0, 1.0, 6.0, 0.0]) == [1, 3]
  {
    var ys := [2.0, 5.0, 1.0, 6.0, 0.0];
    assert !IsPeak(ys, 0) && IsPeak(ys, 1) && !IsPeak(ys, 2) && IsPeak(ys, 3) && !IsPeak(ys, 4);
    assert PeaksBelow(ys, 1) == [];
    assert PeaksBelow(ys, 2) == [1];
    assert PeaksBelow(ys, 3) == [1];
    assert PeaksBelow(ys, 4) == [1, 3];
  }

  /** The series 2, 5, 1, 6, 0 has a single trough, at 2. */
  lemma ExampleTroughs()
    ensures FindTroughs([2.0, 5.0, 1.0, 6.0, 0.0]) == [2]
  {
    var n := Negate([2.0, 5.0, 1.0, 6.0, 0.0]);
    assert n[0] == -2.0 && n[1] == -5.0 && n[2] == -1.0 && n[3] == -6.0 && n[4] == 0.0;
    assert !IsPeak(n, 0) && !IsPeak(n, 1) && IsPeak(n, 2) && !IsPeak(n, 3) && !IsPeak(n, 4);
    assert PeaksBelow(n, 1) == [];
    assert PeaksBelow(n, 2) == [];
    assert PeaksBelow(n, 3) == [2];
    assert PeaksBelow(n, 4) == [2];
  }
}
