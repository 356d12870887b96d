/** First-index search over a slice with a caller-supplied predicate
    (index_of/src/main.rs). The Rust predicate is an `FnMut`; here it is a
    pure function, so calling it has no effect beyond its answer. */
module Search {
  import opened Wrappers

  /** The position of the first element of `xs` that satisfies `p`, or
      `None` when no element does. */
  function IndexOf<T>(xs: seq<T>, p: T -> bool): (r: Option<nat>)
    ensures r.Some? ==> r.value < |xs| && p(xs[r.value])
    ensures r.Some? ==> forall j :: 0 <= j < r.value ==> !p(xs[j])
    ensures r.None? <==> forall j :: 0 <= j < |xs| ==> !p(xs[j])
  {
    if |xs| == 0 then None
    else if p(xs[0]) then Some(0)
    else
      match IndexOf(xs[1..], p)
      case None => None
      case Some(i) => Some(i + 1)
  }

  /** Imperative form of the search: the Rust `for (i, x) in enumerate()` loop
      that returns at the first hit. It agrees with `IndexOf`. */
  method IndexOfLoop<T>(xs: seq<T>, p: T -> bool) returns (r: Option<nat>)
    ensures r == IndexOf(xs, p)
  {
    var i := 0;
    while i < |xs|
      invariant 0 <= i <= |xs|
      invariant forall j :: 0 <= j < i ==> !p(xs[j])
    {
      if p(xs[i]) {
        FirstMatchIsIndexOf(xs, p, i);
        return Some(i);
      }
      i := i + 1;
    }
    r := None;
  }

  /** Any index that satisfies `p` with no satisfying element before it is
      exactly what `IndexOf` reports. */
  lemma FirstMatchIsIndexOf<T>(xs: seq<T>, p: T -> bool, k: nat)
    requires k < |xs| && p(xs[k])
    requires forall j :: 0 <= j < k ==> !p(xs[j])
    ensures IndexOf(xs, p) == Some(k)
  {
  }

  /** Searching an empty slice finds nothing. */
  lemma EmptyGivesNone<T>(p: T -> bool)
    ensures IndexOf([], p) == None
  {
  }

  /** A predicate that never holds finds nothing, whatever the input. */
  lemma NeverTrueGivesNone<T>(xs: seq<T>)
    ensures IndexOf(xs, (x: T) => false) == None
  {
  }

  /** When the only element equal to 200 sits at position `k`, the search for
      200 answers `Some(k)`. */
  lemma SingleMarkIsFound(xs: seq<int>, k: nat)
    requires k < |xs| && xs[k] == 200
    requires forall j :: 0 <= j < |xs| && j != k ==> xs[j] != 200
    ensures IndexOf(xs, (x: int) => x == 200) == Some(k)
  {
    FirstMatchIsIndexOf(xs, (x: int) => x == 200, k);
  }
}
