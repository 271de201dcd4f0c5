/** The sample parser (`load_data`): line-oriented `x,y` text to an ordered list
    of samples, skipping every line that does not hold two numbers. */
module SeriesParser {
  import opened Common
  import opened Text

  /** One row of the sample table. */
  datatype Sample = Sample(x: real, y: real)

  /** A sample when both coordinates parsed, nothing otherwise. */
  function BothParsed(x: Option<real>, y: Option<real>): Option<Sample> {
    if x.Some? && y.Some? then Some(Sample(x.value, y.value)) else None
  }

  /** What one input line contributes: the line is stripped and split on commas;
      with at least two fields, the stripped first and second fields must both
      parse as numbers, and any further field is ignored. `parse` stands for
      Python's `float()` on a field, `None` for the `ValueError` it raises. */
  function ParseLine(line: string, parse: string -> Option<real>): (r: Option<Sample>)
    ensures r.Some? ==> ',' in line
  {
    var parts := Split(Strip(line), ',');
    if |parts| >= 2 then
      SplitNeedsSeparator(Strip(line), ',');
      StripWithin(line, ',');
      BothParsed(parse(Strip(parts[0])), parse(Strip(parts[1])))
    else None
  }

  /** `data[:, 0]`: the x column of the sample table. */
  function Xs(series: seq<Sample>): (r: seq<real>)
    ensures |r| == |series| && forall i :: 0 <= i < |series| ==> r[i] == series[i].x
  {
    seq(|series|, i requires 0 <= i < |series| => series[i].x)
  }

  /** `data[:, 1]`: the y column of the sample table. */
  function Ys(series: seq<Sample>): (r: seq<real>)
    ensures |r| == |series| && forall i :: 0 <= i < |series| ==> r[i] == series[i].y
  {
    seq(|series|, i requires 0 <= i < |series| => series[i].y)
  }

  /** What each line contributes, in line order. */
  function ParseEach(lines: seq<string>, parse: string -> Option<real>): (r: seq<Option<Sample>>)
    ensures |r| == |lines| && forall i :: 0 <= i < |lines| ==> r[i] == ParseLine(lines[i], parse)
  {
    seq(|lines|, i requires 0 <= i < |lines| => ParseLine(lines[i], parse))
  }

  /** The positions of the samples that are present, in order. */
  function PresentAt(os: seq<Option<Sample>>): seq<nat>
    decreases |os|
  {
    if os == [] then []
    else PresentAt(os[..|os| - 1]) + if os[|os| - 1].Some? then [|os| - 1] else []
  }

  /** `PresentAt` lists, in ascending order, exactly the positions that hold a
      sample, and the k-th of them holds the k-th present sample. */
  lemma {:induction false} PresentAtSpec(os: seq<Option<Sample>>)
    ensures var r := PresentAt(os);
      && |r| == |Present(os)|
      && Ascending(r)
      && (forall k :: 0 <= k < |r| ==> r[k] < |os| && os[r[k]] == Some(Present(os)[k]))
      && (forall i :: 0 <= i < |os| ==> (os[i].Some? <==> i in r))
    decreases |os|
  {
    if os != [] {
      var n := |os| - 1;
      var init := os[..n];
      PresentAtSpec(init);
      assert forall i :: 0 <= i < n ==> init[i] == os[i];
      var r := PresentAt(os);
      if os[n].Some? {
        assert r == PresentAt(init) + [n];
        assert Present(os) == Present(init) + [os[n].value];
      } else {
        assert r == PresentAt(init);
      }
    }
  }

  /** The samples of `lines`, in line order, with every line that does not parse dropped. */
  function ParseLines(lines: seq<string>, parse: string -> Option<real>): (r: seq<Sample>)
    ensures |r| <= |lines|
  {
    Present(ParseEach(lines, parse))
  }

  /** The indices of the lines that contribute a sample. The k-th sample comes from
      line `r[k]`; the lines contribute in their own order; a line contributes
      exactly when it parses. */
  function SourceLines(lines: seq<string>, parse: string -> Option<real>): (r: seq<nat>)
    ensures |r| == |ParseLines(lines, parse)|
    ensures Ascending(r)
    ensures forall k :: 0 <= k < |r| ==>
      r[k] < |lines| && ParseLine(lines[r[k]], parse) == Some(ParseLines(lines, parse)[k])
    ensures forall i :: 0 <= i < |lines| ==> (ParseLine(lines[i], parse).Some? <==> i in r)
  {
    PresentAtSpec(ParseEach(lines, parse));
    PresentAt(ParseEach(lines, parse))
  }

  /** Parsing distributes over concatenation of the input: no line affects
      what another contributes, and the order of the pieces is kept. */
  lemma ParseLinesAppend(a: seq<string>, b: seq<string>, parse: string -> Option<real>)
    ensures ParseLines(a + b, parse) == ParseLines(a, parse) + ParseLines(b, parse)
  {
    assert ParseEach(a + b, parse) == ParseEach(a, parse) + ParseEach(b, parse);
    PresentAppend(ParseEach(a, parse), ParseEach(b, parse));
  }

  /** Parsing one more line appends that line's sample, if it has one. */
  lemma ParseLinesSnoc(lines: seq<string>, i: nat, parse: string -> Option<real>)
    requires i < |lines|
    ensures ParseLines(lines[..i + 1], parse) ==
      ParseLines(lines[..i], parse) +
        if ParseLine(lines[i], parse).Some? then [ParseLine(lines[i], parse).value] else []
  {
    var each := ParseEach(lines[..i + 1], parse);
    assert each[..i] == ParseEach(lines[..i], parse);
    assert each[i] == ParseLine(lines[i], parse);
  }

  /** `load_data`. Non-empty inline text wins over the file; without either
      (no path, or a path that does not exist) the call fails. `fileExists`
      and `fileText` stand for `os.path.exists` and the file's contents. */
  method LoadData(inputData: string, filePath: string, fileExists: bool, fileText: string,
                  parse: string -> Option<real>)
    returns (r: Result<seq<Sample>>)
    ensures r.Failure? <==> inputData == [] && (filePath == [] || !fileExists)
    ensures r.Failure? ==> r.error == NoDataSource
    ensures inputData != [] ==> r == Success(ParseLines(Split(Strip(inputData), '\n'), parse))
    ensures inputData == [] && filePath != [] && fileExists ==>
      r == Success(ParseLines(Split(fileText, '\n'), parse))
  {
    var lines: seq<string>;
    if inputData != [] {
      lines := Split(Strip(inputData), '\n');
    } else if filePath != [] && fileExists {
      lines := Split(fileText, '\n');
    } else {
      return Failure(NoDataSource);
    }
    var data: seq<Sample> := [];
    for i := 0 to |lines|
      invariant data == ParseLines(lines[..i], parse)
    {
      ParseLinesSnoc(lines, i, parse);
      var parts := Split(Strip(lines[i]), ',');
      if |parts| >= 2 {
        var x := parse(Strip(parts[0]));
        var y := parse(Strip(parts[1]));
        if x.Some? && y.Some? {
          data := data + [Sample(x.value, y.value)];
        }
      }
    }
    assert lines[..|lines|] == lines;
    r := Success(data);
  }

  /** A field as a number formatter writes it: non-empty, no comma, no line
      break, and no surrounding whitespace. */
  predicate IsToken(t: string) {
    t != [] && !IsSpace(t[0]) && !IsSpace(t[|t| - 1]) && ',' !in t && '\n' !in t
  }

  /** `show` writes `v` as a token that `parse` reads back exactly. */
  ghost predicate Prints(show: real -> string, parse: string -> Option<real>, v: real) {
    IsToken(show(v)) && parse(show(v)) == Some(v)
  }

  /** `show` writes both coordinates of every sample so that `parse` reads them back. */
  ghost predicate PrintsAll(show: real -> string, parse: string -> Option<real>, series: seq<Sample>) {
    forall k :: 0 <= k < |series| ==> Prints(show, parse, series[k].x) && Prints(show, parse, series[k].y)
  }

  /** One sample written back as an `x,y` line. */
  function FormatLine(s: Sample, show: real -> string): string {
    show(s.x) + [','] + show(s.y)
  }

  /** A series written back one line per sample. */
  function FormatLines(series: seq<Sample>, show: real -> string): (r: seq<string>)
    ensures |r| == |series|
    ensures forall k :: 0 <= k < |r| ==> r[k] == FormatLine(series[k], show)
  {
    seq(|series|, k requires 0 <= k < |series| => FormatLine(series[k], show))
  }

  /** The first two fields decide: fields after the second have no influence
      on what a line contributes, whatever whitespace surrounds the line. */
  lemma ExtraFieldsIgnored(a: string, b: string, extra: seq<string>, parse: string -> Option<real>)
    requires ',' !in a && ',' !in b && forall k :: 0 <= k < |extra| ==> ',' !in extra[k]
    ensures ParseLine(Join([a, b] + extra, ','), parse) == BothParsed(parse(Strip(a)), parse(Strip(b)))
  {
    StrippedFields(a, b, extra, ',');
  }

  /** A formatted sample parses back to itself. */
  lemma ParseFormattedLine(s: Sample, show: real -> string, parse: string -> Option<real>)
    requires Prints(show, parse, s.x) && Prints(show, parse, s.y)
    ensures ParseLine(FormatLine(s, show), parse) == Some(s)
  {
    assert IsToken(show(s.x)) && IsToken(show(s.y));
    assert parse(show(s.x)) == Some(s.x) && parse(show(s.y)) == Some(s.y);
    assert FormatLine(s, show) == Join([show(s.x), show(s.y)] + [], ',');
    ExtraFieldsIgnored(show(s.x), show(s.y), [], parse);
    StripKeepsTrimmed(show(s.x));
    StripKeepsTrimmed(show(s.y));
  }

  /** Writing a series line by line and parsing the lines gives the series back. */
  lemma {:induction false} ParseFormattedLines(series: seq<Sample>, show: real -> string,
                                               parse: string -> Option<real>)
    requires PrintsAll(show, parse, series)
    ensures ParseLines(FormatLines(series, show), parse) == series
    decreases |series|
  {
    if series != [] {
      var n := |series| - 1;
      var each := ParseEach(FormatLines(series, show), parse);
      ParseFormattedLines(series[..n], show, parse);
      assert each[..n] == ParseEach(FormatLines(series[..n], show), parse);
      ParseFormattedLine(series[n], show, parse);
      assert each[n] == Some(series[n]);
      assert series[..n] + [series[n]] == series;
    }
  }

  /** The text `load_data` reads when a non-empty series is written one `x,y`
      line per sample parses back to the same series, in the same order. */
  lemma TextRoundTrip(series: seq<Sample>, show: real -> string, parse: string -> Option<real>)
    requires PrintsAll(show, parse, series)
    requires series != []
    ensures var text := Join(FormatLines(series, show), '\n');
      ParseLines(Split(Strip(text), '\n'), parse) == series
  {
    var lines := FormatLines(series, show);
    var text := Join(lines, '\n');
    var first, last := series[0], series[|series| - 1];
    assert IsToken(show(first.x)) && IsToken(show(last.y));
    assert lines[0][0] == show(first.x)[0];
    assert lines[|lines| - 1] == FormatLine(last, show);
    JoinLast(lines, '\n');
    StripKeepsTrimmed(text);
    forall k | 0 <= k < |lines| ensures '\n' !in lines[k] {
      assert IsToken(show(series[k].x)) && IsToken(show(series[k].y));
    }
    SplitJoin(lines, '\n');
    ParseFormattedLines(series, show, parse);
  }

  /** A formatter that writes 1 as "1" and 2 as "2", read back by a matching
      parser: the sample (1, 2) survives the trip through text. */
  lemma ExampleRoundTrip()
    ensures var show := (v: real) => if v == 1.0 then "1" else "2";
      var parse := (t: string) => if t == "1" then Some(1.0) else if t == "2" then Some(2.0) else None;
      ParseLines(Split(Strip(Join(FormatLines([Sample(1.0, 2.0)], show), '\n')), '\n'), parse)
        == [Sample(1.0, 2.0)]
  {
    var show := (v: real) => if v == 1.0 then "1" else "2";
    var parse := (t: string) => if t == "1" then Some(1.0) else if t == "2" then Some(2.0) else None;
    assert Prints(show, parse, 1.0) && Prints(show, parse, 2.0);
    TextRoundTrip([Sample(1.0, 2.0)], show, parse);
  }
}
