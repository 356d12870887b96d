/** Deduplication that returns the distinct values in descending order
    (unique/src/main.rs). The Rust code inserts every value into a
    `BTreeSet` and then walks the set backwards; the set is modelled by its
    in-order listing, a strictly ascending sequence. */
module Unique {

  predicate StrictlyAscending(s: seq<int>) {
    forall i, j :: 0 <= i < j < |s| ==> s[i] < s[j]
  }

  predicate StrictlyDescending(s: seq<int>) {
    forall i, j :: 0 <= i < j < |s| ==> s[i] > s[j]
  }

  /** What `unique` promises: `out` is strictly descending (hence free of
      duplicates) and holds exactly the values of `xs`. */
  ghost predicate IsUniqueOf(xs: seq<int>, out: seq<int>) {
    && StrictlyDescending(out)
    && (forall v :: v in out <==> v in xs)
  }

  /** `BTreeSet::insert` on the ascending listing of the set. */
  function Insert(x: int, s: seq<int>): (r: seq<int>)
    requires StrictlyAscending(s)
    ensures StrictlyAscending(r)
    ensures forall v :: v in r <==> v == x || v in s
    ensures |r| <= |s| + 1
  {
    if |s| == 0 then [x]
    else if x < s[0] then [x] + s
    else if x == s[0] then s
    else
      var rest := Insert(x, s[1..]);
      HeadBelowRest(x, s, rest);
      [s[0]] + rest
  }

  /** Everything the recursive insertion returns lies above the head. */
  lemma HeadBelowRest(x: int, s: seq<int>, rest: seq<int>)
    requires StrictlyAscending(s) && |s| > 0 && s[0] < x
    requires forall v :: v in rest <==> v == x || v in s[1..]
    ensures forall k :: 0 <= k < |rest| ==> s[0] < rest[k]
  {
    forall k | 0 <= k < |rest|
      ensures s[0] < rest[k]
    {
      assert rest[k] in rest;
      if rest[k] != x {
        var j :| 0 <= j < |s[1..]| && s[1..][j] == rest[k];
        assert s[1 + j] == rest[k];
      }
    }
  }

  method Unique(xs: seq<int>) returns (out: seq<int>)
    ensures IsUniqueOf(xs, out)
    ensures |out| <= |xs|
  {
    var set_ := [];
    var i := 0;
    while i < |xs|
      invariant 0 <= i <= |xs|
      invariant StrictlyAscending(set_)
      invariant forall v :: v in set_ <==> v in xs[..i]
      invariant |set_| <= i
    {
      set_ := Insert(xs[i], set_);
      i := i + 1;
    }
    assert xs[..i] == xs;
    out := [];
    var k := |set_|;
    while k > 0
      invariant 0 <= k <= |set_|
      invariant |out| == |set_| - k
      invariant forall j :: 0 <= j < |out| ==> out[j] == set_[|set_| - 1 - j]
    {
      k := k - 1;
      out := out + [set_[k]];
    }
    forall v | v in set_ ensures v in out {
      var j :| 0 <= j < |set_| && set_[j] == v;
      assert out[|set_| - 1 - j] == v;
    }
  }

  /** A strictly descending sequence is determined by the set of its values. */
  lemma {:induction false} DescendingDetermined(a: seq<int>, b: seq<int>)
    requires StrictlyDescending(a) && StrictlyDescending(b)
    requires forall v :: v in a <==> v in b
    ensures a == b
  {
    assert |a| > 0 ==> a[0] in a;
    assert |b| > 0 ==> b[0] in b;
    if |a| == 0 || |b| == 0 {
    } else {
      // both heads are the maximum of the common value set
      assert a[0] in a && a[0] in b;
      assert b[0] in b && b[0] in a;
      assert a[0] == b[0];
      forall v ensures v in a[1..] <==> v in b[1..] {
        if v in a[1..] {
          var k :| 0 <= k < |a| - 1 && a[1..][k] == v;
          assert a[k + 1] == v && v < a[0] && v in a;
          var m :| 0 <= m < |b| && b[m] == v;
          assert m != 0;
          assert b[1..][m - 1] == v;
        }
        if v in b[1..] {
          var k :| 0 <= k < |b| - 1 && b[1..][k] == v;
          assert b[k + 1] == v && v < b[0] && v in b;
          var m :| 0 <= m < |a| && a[m] == v;
          assert m != 0;
          assert a[1..][m - 1] == v;
        }
      }
      DescendingDetermined(a[1..], b[1..]);
      assert a == [a[0]] + a[1..];
      assert b == [b[0]] + b[1..];
    }
  }

  /** Applying `unique` to its own output gives that output back. */
  lemma UniqueIdempotent(xs: seq<int>, once: seq<int>, twice: seq<int>)
    requires IsUniqueOf(xs, once)
    requires IsUniqueOf(once, twice)
    ensures twice == once
  {
    DescendingDetermined(twice, once);
  }

  /** The empty input has the empty output and no other. */
  lemma EmptyGivesEmpty(out: seq<int>)
    requires IsUniqueOf([], out)
    ensures out == []
  {
    DescendingDetermined(out, []);
  }
}
