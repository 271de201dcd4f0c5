/** Failure-carrying values shared by every component of the extrema tool. */
module Common {

  /** A value that may be absent: an empty threshold field, a missing drag corner,
      a padded export cell, a number that does not parse. */
  datatype Option<+T> = None | Some(value: T)

  /** The outcome of an action that can fail with one of the tool's error kinds. */
  datatype Result<+R> = Success(value: R) | Failure(error: AppError)

  /** The error messages the tool can show. */
  datatype AppError =
    | NoDataSource     // neither inline text nor an existing file was given
    | NoSamples        // no line of the input parsed, so the sample table is empty
    | BadThreshold     // a threshold field holds text that is not a number
    | NothingToExport  // export requested before any successful plot

  /** Strictly ascending indices: the order in which the series is scanned. */
  predicate Ascending(s: seq<nat>) {
    forall a, b :: 0 <= a < b < |s| ==> s[a] < s[b]
  }

  /** The values of the cells that hold one, in order: what remains of a column
      once its missing cells are dropped. */
  function Present<T>(os: seq<Option<T>>): (r: seq<T>)
    ensures |r| <= |os|
    decreases |os|
  {
    if os == [] then []
    else
      var last := os[|os| - 1];
      Present(os[..|os| - 1]) + if last.Some? then [last.value] else []
  }

  /** Dropping missing cells distributes over concatenation. */
  lemma {:induction false} PresentAppend<T>(a: seq<Option<T>>, b: seq<Option<T>>)
    ensures Present(a + b) == Present(a) + Present(b)
    decreases |b|
  {
    if b != [] {
      var n := |b| - 1;
      PresentAppend(a, b[..n]);
      assert (a + b)[..|a + b| - 1] == a + b[..n];
      assert (a + b)[|a + b| - 1] == b[n];
    } else {
      assert a + b == a;
    }
  }
}
