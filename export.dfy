/** The export step: `plot_data` stores the coordinates of the filtered extrema,
    and `export_to_excel` pads the four columns to a common length with NaN
    before writing them out. A missing cell is `None` here. */
module ExportAssembler {
  import opened Common
  import opened ThresholdFilter

  /** `export_data`: the coordinates of the filtered peaks and troughs. */
  datatype ExportData = ExportData(peaksX: seq<real>, peaksY: seq<real>,
                                   troughsX: seq<real>, troughsY: seq<real>)
  {
    /** Each x column is as long as its y column. */
    predicate Aligned() {
      |peaksX| == |peaksY| && |troughsX| == |troughsY|
    }
  }

  /** The table handed to the spreadsheet writer; a `None` cell is NaN. */
  datatype ExportTable = ExportTable(peakX: seq<Option<real>>, peakY: seq<Option<real>>,
                                     troughX: seq<Option<real>>, troughY: seq<Option<real>>)

  /** numpy's `values[idx]`: the values at the given indices, in index order. */
  function Pick(vs: seq<real>, idx: seq<nat>): (r: seq<real>)
    requires InRange(idx, |vs|)
    ensures |r| == |idx|
  {
    seq(|idx|, k requires 0 <= k < |idx| => vs[idx[k]])
  }

  /** The dictionary `plot_data` stores for export. */
  function BuildExport(xs: seq<real>, ys: seq<real>, peaks: seq<nat>, troughs: seq<nat>): (e: ExportData)
    requires |xs| == |ys| && InRange(peaks, |ys|) && InRange(troughs, |ys|)
    ensures e.Aligned() && |e.peaksX| == |peaks| && |e.troughsX| == |troughs|
    ensures forall k :: 0 <= k < |peaks| ==> e.peaksX[k] == xs[peaks[k]] && e.peaksY[k] == ys[peaks[k]]
    ensures forall k :: 0 <= k < |troughs| ==> e.troughsX[k] == xs[troughs[k]] && e.troughsY[k] == ys[troughs[k]]
  {
    ExportData(Pick(xs, peaks), Pick(ys, peaks), Pick(xs, troughs), Pick(ys, troughs))
  }

  /** `cells` holds `col` unchanged at its front and the missing marker everywhere after. */
  predicate PaddedFrom(cells: seq<Option<real>>, col: seq<real>) {
    |col| <= |cells| &&
    forall k :: 0 <= k < |cells| ==> cells[k] == if k < |col| then Some(col[k]) else None
  }

  /** `n` missing cells. */
  function Missing(n: nat): (r: seq<Option<real>>)
    ensures |r| == n && PaddedFrom(r, [])
  {
    seq(n, _ => None)
  }

  /** `np.pad(col, (0, n - len(col)), 'constant', constant_values=np.nan)`. */
  function Pad(col: seq<real>, n: nat): (r: seq<Option<real>>)
    requires |col| <= n
    ensures |r| == n && PaddedFrom(r, col)
    decreases |col|
  {
    if col == [] then Missing(n) else [Some(col[0])] + Pad(col[1..], n - 1)
  }

  /** Padding loses nothing: dropping the missing cells gives the column back. */
  lemma {:induction false} PresentOfPadded(cells: seq<Option<real>>, col: seq<real>)
    requires PaddedFrom(cells, col)
    ensures Present(cells) == col
    decreases |cells|
  {
    if cells != [] {
      var n := |cells| - 1;
      if n < |col| {
        assert |col| == n + 1;
        PresentOfPadded(cells[..n], col[..n]);
        assert col[..n] + [col[n]] == col;
      } else {
        PresentOfPadded(cells[..n], col);
      }
    }
  }

  function Max(a: nat, b: nat): nat {
    if a < b then b else a
  }

  /** Lines 198-202 of `export_to_excel`: every column padded to the length of the
      longer of the peak and trough lists. */
  function Assemble(e: ExportData): (t: ExportTable)
    requires e.Aligned()
    ensures var n := Max(|e.peaksX|, |e.troughsX|);
      |t.peakX| == n && |t.peakY| == n && |t.troughX| == n && |t.troughY| == n
    ensures PaddedFrom(t.peakX, e.peaksX) && PaddedFrom(t.peakY, e.peaksY)
    ensures PaddedFrom(t.troughX, e.troughsX) && PaddedFrom(t.troughY, e.troughsY)
  {
    var n := Max(|e.peaksX|, |e.troughsX|);
    ExportTable(Pad(e.peaksX, n), Pad(e.peaksY, n), Pad(e.troughsX, n), Pad(e.troughsY, n))
  }

  /** The assembled table gives back every stored coordinate list exactly. */
  lemma AssembleLosesNothing(e: ExportData)
    requires e.Aligned()
    ensures var t := Assemble(e);
      && Present(t.peakX) == e.peaksX && Present(t.peakY) == e.peaksY
      && Present(t.troughX) == e.troughsX && Present(t.troughY) == e.troughsY
  {
    var t := Assemble(e);
    PresentOfPadded(t.peakX, e.peaksX);
    PresentOfPadded(t.peakY, e.peaksY);
    PresentOfPadded(t.troughX, e.troughsX);
    PresentOfPadded(t.troughY, e.troughsY);
  }

  /** Three filtered peaks and one filtered trough give three rows; the trough
      columns are missing in the second and third row. */
  lemma ExampleExport(px: seq<real>, py: seq<real>, tx: real, ty: real)
    requires |px| == 3 && |py| == 3
    ensures var t := Assemble(ExportData(px, py, [tx], [ty]));
      && |t.peakX| == 3
      && t.troughX == [Some(tx), None, None] && t.troughY == [Some(ty), None, None]
  {
    var t := Assemble(ExportData(px, py, [tx], [ty]));
    assert t.troughX[1] == None && t.troughX[2] == None;
    assert t.troughY[1] == None && t.troughY[2] == None;
  }
}
