/** The string operations the parser relies on, with Python's semantics:
    `str.strip()` without arguments, `str.split(sep)` with an explicit separator,
    and `sep.join(parts)` as the inverse of the latter. */
module Text {

  /** The characters Python's `str.strip()` removes, restricted to ASCII. */
  predicate IsSpace(c: char) {
    c == ' ' || c == '\t' || c == '\n' || c == '\r' || c == '\U{0B}' || c == '\U{0C}'
    || c == '\U{1C}' || c == '\U{1D}' || c == '\U{1E}' || c == '\U{1F}'
  }

  /** Drops leading whitespace. */
  function TrimLeft(s: string): string
    decreases |s|
  {
    if |s| > 0 && IsSpace(s[0]) then TrimLeft(s[1..]) else s
  }

  /** Drops trailing whitespace. */
  function TrimRight(s: string): string
    decreases |s|
  {
    if |s| > 0 && IsSpace(s[|s| - 1]) then TrimRight(s[..|s| - 1]) else s
  }

  /** Python's `s.strip()`. */
  function Strip(s: string): string {
    TrimRight(TrimLeft(s))
  }

  /** `TrimLeft` removes exactly the leading run of whitespace. */
  lemma {:induction false} TrimLeftSpec(s: string)
    ensures var r := TrimLeft(s);
      && |r| <= |s| && r == s[|s| - |r|..]
      && (forall k :: 0 <= k < |s| - |r| ==> IsSpace(s[k]))
      && (r == [] || !IsSpace(r[0]))
    decreases |s|
  {
    if |s| > 0 && IsSpace(s[0]) {
      TrimLeftSpec(s[1..]);
    }
  }

  /** `TrimRight` removes exactly the trailing run of whitespace. */
  lemma {:induction false} TrimRightSpec(s: string)
    ensures var r := TrimRight(s);
      && |r| <= |s| && r == s[..|r|]
      && (forall k :: |r| <= k < |s| ==> IsSpace(s[k]))
      && (r == [] || !IsSpace(r[|r| - 1]))
    decreases |s|
  {
    if |s| > 0 && IsSpace(s[|s| - 1]) {
      TrimRightSpec(s[..|s| - 1]);
    }
  }

  /** `Strip` leaves a string that neither starts nor ends with whitespace, and
      it leaves nothing exactly when the input is all whitespace. */
  lemma StripSpec(s: string)
    ensures var r := Strip(s);
      && |r| <= |s|
      && (r == [] || (!IsSpace(r[0]) && !IsSpace(r[|r| - 1])))
      && (r == [] <==> forall k :: 0 <= k < |s| ==> IsSpace(s[k]))
  {
    var l := TrimLeft(s);
    TrimLeftSpec(s);
    TrimRightSpec(l);
    var r := TrimRight(l);
    if r != [] {
      assert r[0] == l[0];
    } else {
      assert l == [];
    }
  }

  /** A string that already starts and ends with a non-space character is left as it is. */
  lemma StripKeepsTrimmed(s: string)
    requires s != [] && !IsSpace(s[0]) && !IsSpace(s[|s| - 1])
    ensures Strip(s) == s
  {
    assert TrimLeft(s) == s;
  }

  /** Left trimming stops at the first non-space character: what follows it is kept as it is. */
  lemma {:induction false} TrimLeftStopsAt(a: string, c: char, t: string)
    requires !IsSpace(c)
    ensures TrimLeft(a + [c] + t) == TrimLeft(a) + [c] + t
    decreases |a|
  {
    if a == [] {
      assert a + [c] + t == [c] + t;
    } else if IsSpace(a[0]) {
      assert (a + [c] + t)[1..] == a[1..] + [c] + t;
      TrimLeftStopsAt(a[1..], c, t);
    }
  }

  /** Right trimming stops at the last non-space character: what precedes it is kept as it is. */
  lemma {:induction false} TrimRightStopsAt(t: string, c: char, z: string)
    requires !IsSpace(c)
    ensures TrimRight(t + [c] + z) == t + [c] + TrimRight(z)
    decreases |z|
  {
    if z != [] && IsSpace(z[|z| - 1]) {
      var n := |z| - 1;
      assert (t + [c] + z)[..|t + [c] + z| - 1] == t + [c] + z[..n];
      TrimRightStopsAt(t, c, z[..n]);
    }
  }

  /** Trailing whitespace has no influence on right trimming. */
  lemma {:induction false} TrimRightSkips(r: string, q: string)
    requires forall k :: 0 <= k < |q| ==> IsSpace(q[k])
    ensures TrimRight(r + q) == TrimRight(r)
    decreases |q|
  {
    if q != [] {
      var n := |q| - 1;
      assert (r + q)[..|r + q| - 1] == r + q[..n];
      TrimRightSkips(r, q[..n]);
    } else {
      assert r + q == r;
    }
  }

  /** Stripping a left-trimmed string is stripping the string. */
  lemma StripTrimLeft(s: string)
    ensures Strip(TrimLeft(s)) == Strip(s)
  {
    TrimLeftSpec(s);
  }

  /** Stripping a right-trimmed string is stripping the string. */
  lemma StripTrimRight(s: string)
    ensures Strip(TrimRight(s)) == Strip(s)
  {
    var r := TrimRight(s);
    TrimRightSpec(s);
    var q := s[|r|..];
    assert s == r + q;
    if r == [] {
      TrimLeftSpec(q);
    } else {
      var n := |r| - 1;
      assert r == r[..n] + [r[n]] + [];
      assert r + q == r[..n] + [r[n]] + q;
      TrimLeftStopsAt(r[..n], r[n], q);
      TrimLeftStopsAt(r[..n], r[n], []);
      TrimRightSkips(TrimLeft(r), q);
      assert TrimLeft(s) == TrimLeft(r) + q;
    }
  }

  /** No character is added by stripping. */
  lemma StripWithin(s: string, c: char)
    requires c in Strip(s)
    ensures c in s
  {
    var l := TrimLeft(s);
    TrimLeftSpec(s);
    TrimRightSpec(l);
    var k :| 0 <= k < |Strip(s)| && Strip(s)[k] == c;
    assert l[k] == c;
    assert s[|s| - |l| + k] == c;
  }

  /** `sep.join(parts)`: the parts with one separator between neighbours. */
  function Join(parts: seq<string>, sep: char): string
    requires |parts| >= 1
  {
    if |parts| == 1 then parts[0] else parts[0] + [sep] + Join(parts[1..], sep)
  }

  /** Python's `s.split(sep)`. */
  function Split(s: string, sep: char): (r: seq<string>)
    ensures |r| >= 1
    decreases |s|
  {
    if |s| == 0 then [[]]
    else
      var rest := Split(s[1..], sep);
      if s[0] == sep then [[]] + rest else [[s[0]] + rest[0]] + rest[1..]
  }

  /** Prepending a character to the first piece prepends it to the join. */
  lemma JoinConsFirst(c: char, parts: seq<string>, sep: char)
    requires |parts| >= 1
    ensures Join([[c] + parts[0]] + parts[1..], sep) == [c] + Join(parts, sep)
  {
    var r := [[c] + parts[0]] + parts[1..];
    if |parts| > 1 {
      assert r[1..] == parts[1..];
    }
  }

  /** No piece of a split holds the separator. */
  lemma {:induction false} SplitPiecesSeparatorFree(s: string, sep: char)
    ensures forall k :: 0 <= k < |Split(s, sep)| ==> sep !in Split(s, sep)[k]
    decreases |s|
  {
    if |s| > 0 {
      SplitPiecesSeparatorFree(s[1..], sep);
    }
  }

  /** Joining the pieces of a split gives back the input. */
  lemma {:induction false} JoinSplit(s: string, sep: char)
    ensures Join(Split(s, sep), sep) == s
    decreases |s|
  {
    if |s| > 0 {
      var rest := Split(s[1..], sep);
      JoinSplit(s[1..], sep);
      if s[0] == sep {
        assert ([[]] + rest)[1..] == rest;
      } else {
        JoinConsFirst(s[0], rest, sep);
      }
      assert [s[0]] + s[1..] == s;
    }
  }

  /** A piece without the separator splits into itself. */
  lemma {:induction false} SplitSeparatorFree(p: string, sep: char)
    requires sep !in p
    ensures Split(p, sep) == [p]
    decreases |p|
  {
    if |p| > 0 {
      SplitSeparatorFree(p[1..], sep);
      assert [p[0]] + p[1..] == p;
    }
  }

  /** Splitting stops at the first separator. */
  lemma {:induction false} SplitFirstField(p: string, sep: char, t: string)
    requires sep !in p
    ensures Split(p + [sep] + t, sep) == [p] + Split(t, sep)
    decreases |p|
  {
    var s := p + [sep] + t;
    if |p| == 0 {
      assert s[1..] == t;
    } else {
      assert s[1..] == p[1..] + [sep] + t;
      SplitFirstField(p[1..], sep, t);
      assert [p[0]] + p[1..] == p;
    }
  }

  /** Splitting is the inverse of joining separator-free pieces. */
  lemma {:induction false} SplitJoin(parts: seq<string>, sep: char)
    requires |parts| >= 1
    requires forall k :: 0 <= k < |parts| ==> sep !in parts[k]
    ensures Split(Join(parts, sep), sep) == parts
    decreases |parts|
  {
    if |parts| == 1 {
      SplitSeparatorFree(parts[0], sep);
    } else {
      SplitJoin(parts[1..], sep);
      SplitFirstField(parts[0], sep, Join(parts[1..], sep));
      assert [parts[0]] + parts[1..] == parts;
    }
  }

  /** A split into two or more pieces means the separator occurs. */
  lemma SplitNeedsSeparator(s: string, sep: char)
    requires |Split(s, sep)| >= 2
    ensures sep in s
  {
    if sep !in s {
      SplitSeparatorFree(s, sep);
    }
  }

  /** Stripping a line of separated fields and splitting it again leaves the
      first two fields the same once they are stripped themselves: the
      whitespace around the line belongs to the first and the last field. */
  lemma StrippedFields(a: string, b: string, extra: seq<string>, sep: char)
    requires !IsSpace(sep)
    requires sep !in a && sep !in b && forall k :: 0 <= k < |extra| ==> sep !in extra[k]
    ensures var fields := Split(Strip(Join([a, b] + extra, sep)), sep);
      |fields| >= 2 && Strip(fields[0]) == Strip(a) && Strip(fields[1]) == Strip(b)
  {
    var parts := [a, b] + extra;
    var rest := Join([b] + extra, sep);
    assert parts[1..] == [b] + extra;
    assert Join(parts, sep) == a + [sep] + rest;
    TrimLeftStopsAt(a, sep, rest);
    TrimRightStopsAt(TrimLeft(a), sep, rest);
    var stripped := TrimLeft(a) + [sep] + TrimRight(rest);
    assert Strip(Join(parts, sep)) == stripped;
    TrimLeftSpec(a);
    assert TrimLeft(a) == a[|a| - |TrimLeft(a)|..];
    SplitFirstField(TrimLeft(a), sep, TrimRight(rest));
    StripTrimLeft(a);
    if extra == [] {
      assert rest == b;
      TrimRightSpec(b);
      assert TrimRight(b) == b[..|TrimRight(b)|];
      SplitSeparatorFree(TrimRight(b), sep);
      StripTrimRight(b);
    } else {
      var tail := Join(extra, sep);
      assert ([b] + extra)[1..] == extra;
      assert rest == b + [sep] + tail;
      TrimRightStopsAt(b, sep, tail);
      SplitFirstField(b, sep, TrimRight(tail));
    }
  }

  /** The last character of a join is the last character of its last piece. */
  lemma {:induction false} JoinLast(parts: seq<string>, sep: char)
    requires |parts| >= 1 && parts[|parts| - 1] != []
    ensures Join(parts, sep) != []
    ensures Join(parts, sep)[|Join(parts, sep)| - 1] == parts[|parts| - 1][|parts[|parts| - 1]| - 1]
    decreases |parts|
  {
    if |parts| > 1 {
      JoinLast(parts[1..], sep);
    }
  }
}
