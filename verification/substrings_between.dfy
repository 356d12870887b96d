/** Extraction of the substrings enclosed by a start and an end delimiter
    (substrings_between/src/main.rs), for single, distinct, ASCII delimiter
    characters. With equal delimiters the Rust slice runs backwards and
    panics as soon as the delimiter is found (the text without it gives no
    pieces); the model leaves equal delimiters out and requires distinct
    ones. Positions are absolute
    indices into the text; the Rust code finds them relative to the
    unscanned rest, which is the same offset plus the resume point. */
module SubstringsBetween {
  import opened Wrappers

  /** `str::find` with a one-character pattern, searching from position
      `i`: the first position at or after `i` that holds `c`. */
  function FindFrom(s: string, c: char, i: nat): (r: Option<nat>)
    requires i <= |s|
    ensures r.Some? ==> i <= r.value < |s| && s[r.value] == c
    decreases |s| - i
  {
    if i == |s| then None
    else if s[i] == c then Some(i)
    else FindFrom(s, c, i + 1)
  }

  /** `FindFrom` answers the first occurrence: nothing before it holds `c`,
      and it answers nothing exactly when no position from `i` on does. */
  lemma {:induction false} FindFromIsFirst(s: string, c: char, i: nat)
    requires i <= |s|
    ensures var r := FindFrom(s, c, i);
      && (r.Some? ==> forall j :: i <= j < r.value ==> s[j] != c)
      && (r.None? <==> forall j :: i <= j < |s| ==> s[j] != c)
    decreases |s| - i
  {
    if i < |s| && s[i] != c {
      FindFromIsFirst(s, c, i + 1);
    }
  }

  /** The next match from position `i`: the first `start` at or after `i`
      and the first `end` at or after that `start`, if both exist. */
  function NextMatch(s: string, start: char, end: char, i: nat): (r: Option<(nat, nat)>)
    requires start != end && i <= |s|
    ensures r.Some? ==> FindFrom(s, start, i) == Some(r.value.0) && FindFrom(s, end, r.value.0) == Some(r.value.1)
    ensures r.Some? ==> i <= r.value.0 < r.value.1 < |s|
    ensures r.None? <==> FindFrom(s, start, i).None? || FindFrom(s, end, FindFrom(s, start, i).value).None?
  {
    match FindFrom(s, start, i)
    case None => None
    case Some(m) =>
      match FindFrom(s, end, m)
      case None => None
      case Some(e) => Some((m, e))
  }

  /** The pieces found from position `i` on: the text between the first
      `start` and the first `end` after it, then the same again just after
      that `end`. Extraction stops when there is no further `start`, or
      when that `start` has no `end` after it. */
  function BetweenFrom(s: string, start: char, end: char, i: nat): seq<string>
    requires start != end && i <= |s|
    decreases |s| - i
  {
    match NextMatch(s, start, end, i)
    case None => []
    case Some((m, e)) => [s[m + 1..e]] + BetweenFrom(s, start, end, e + 1)
  }

  function Between(s: string, start: char, end: char): seq<string>
    requires start != end
  {
    BetweenFrom(s, start, end, 0)
  }

  /** The Rust loop: from position `i`, find the next `start`, then the first
      `end` from there; record the text between them and resume just after
      that `end`. */
  method SubstringsBetween(s: string, start: char, end: char) returns (subs: seq<string>)
    requires start != end
    ensures subs == Between(s, start, end)
  {
    subs := [];
    var i := 0;
    while i < |s|
      invariant 0 <= i <= |s|
      invariant Collected(s, start, end, subs, i)
    {
      var next := NextMatch(s, start, end, i);
      if next.None? {
        Finished(s, start, end, subs, i);
        return;
      }
      var (m, e) := next.value;
      var piece := s[m + 1..e];
      Advance(s, start, end, subs, i, m, e, piece);
      subs := subs + [piece];
      i := e + 1;
    }
    Finished(s, start, end, subs, i);
  }

  /** The loop invariant: the pieces collected so far, followed by the ones
      still to be found from `i`, are all the pieces. */
  ghost predicate Collected(s: string, start: char, end: char, subs: seq<string>, i: nat)
    requires start != end && i <= |s|
  {
    subs + BetweenFrom(s, start, end, i) == Between(s, start, end)
  }

  /** Once no match is left, the collected pieces are all of them. */
  lemma Finished(s: string, start: char, end: char, subs: seq<string>, i: nat)
    requires start != end && i <= |s| && Collected(s, start, end, subs, i)
    requires i == |s| || NextMatch(s, start, end, i).None?
    ensures subs == Between(s, start, end)
  {
    assert BetweenFrom(s, start, end, i) == [];
  }

  /** One turn of the loop keeps the invariant: the piece of the next
      match joins the collected ones and the scan resumes after its `end`. */
  lemma Advance(s: string, start: char, end: char, subs: seq<string>, i: nat, m: nat, e: nat, piece: string)
    requires start != end && i <= |s|
    requires NextMatch(s, start, end, i) == Some((m, e))
    requires piece == s[m + 1..e]
    requires Collected(s, start, end, subs, i)
    ensures e < |s| && Collected(s, start, end, subs + [piece], e + 1)
  {
    var rest := BetweenFrom(s, start, end, e + 1);
    assert subs + ([piece] + rest) == (subs + [piece]) + rest;
  }

  /** `piece` is enclosed by a `start` at `p` and an `end` right after it,
      and holds no `end` of its own. */
  ghost predicate Delimits(s: string, start: char, end: char, p: nat, piece: string) {
    && p + |piece| + 1 < |s|
    && s[p] == start
    && s[p + 1..p + 1 + |piece|] == piece
    && s[p + 1 + |piece|] == end
    && end !in piece
  }

  /** Where the scan stands before match `k`: the position `from` it began
      at, or just after the `end` of match `k - 1`. */
  function Resume(ps: seq<nat>, pieces: seq<string>, from: nat, k: nat): nat
    requires |ps| == |pieces| && k <= |ps|
  {
    if k == 0 then from else ps[k - 1] + |pieces[k - 1]| + 2
  }

  /** Match `k` uses the first `start` at or after the resume point and the
      first `end` after it. */
  ghost predicate MatchOk(s: string, start: char, end: char, from: nat, ps: seq<nat>, pieces: seq<string>, k: nat)
    requires |ps| == |pieces| && k < |ps|
  {
    && Resume(ps, pieces, from, k) <= ps[k]
    && Delimits(s, start, end, ps[k], pieces[k])
    && (forall j :: Resume(ps, pieces, from, k) <= j < ps[k] ==> s[j] != start)
  }

  /** From position `from` on, no `start` is followed by an `end`. */
  ghost predicate NoMoreMatches(s: string, start: char, end: char, from: nat) {
    && from <= |s|
    && forall j, j' :: from <= j < j' < |s| && s[j] == start ==> s[j'] != end
  }

  /** `pieces`, found at start positions `ps`, is a left-to-right scan of
      `s` begun at `from`: every match is as `MatchOk` says, and after the
      last match no `start` is followed by any `end`. */
  ghost predicate IsScan(s: string, start: char, end: char, from: nat, ps: seq<nat>, pieces: seq<string>) {
    && |ps| == |pieces|
    && (forall k :: 0 <= k < |ps| ==> MatchOk(s, start, end, from, ps, pieces, k))
    && NoMoreMatches(s, start, end, Resume(ps, pieces, from, |ps|))
  }

  /** The positions of the `start` delimiters of the matches `BetweenFrom`
      extracts. */
  function StartPositions(s: string, start: char, end: char, i: nat): seq<nat>
    requires start != end && i <= |s|
    decreases |s| - i
  {
    match NextMatch(s, start, end, i)
    case None => []
    case Some((m, e)) => [m] + StartPositions(s, start, end, e + 1)
  }

  /** `BetweenFrom` is a left-to-right scan of the text, found at the
      positions `StartPositions` lists. */
  lemma {:induction false} BetweenIsScan(s: string, start: char, end: char, i: nat)
    requires start != end && i <= |s|
    ensures |StartPositions(s, start, end, i)| == |BetweenFrom(s, start, end, i)|
    ensures IsScan(s, start, end, i, StartPositions(s, start, end, i), BetweenFrom(s, start, end, i))
    decreases |s| - i
  {
    match NextMatch(s, start, end, i)
    case None =>
      NoMatchEndsScan(s, start, end, i, StartPositions(s, start, end, i), BetweenFrom(s, start, end, i));
    case Some((m, e)) =>
      var tail, rest := StartPositions(s, start, end, e + 1), BetweenFrom(s, start, end, e + 1);
      FirstMatchDelimits(s, start, end, m, e);
      FindFromIsFirst(s, start, i);
      BetweenIsScan(s, start, end, e + 1);
      ScanExtends(s, start, end, i, m, s[m + 1..e], tail, rest,
                  StartPositions(s, start, end, i), BetweenFrom(s, start, end, i));
  }

  /** With no `start` left, or no `end` after the next `start`, the scan is
      over. */
  lemma NoMatchEndsScan(s: string, start: char, end: char, i: nat, ps: seq<nat>, pieces: seq<string>)
    requires start != end && i <= |s| && NextMatch(s, start, end, i).None?
    requires ps == [] && pieces == []
    ensures IsScan(s, start, end, i, ps, pieces)
  {
    assert Resume([], [], i, 0) == i;
    FindFromIsFirst(s, start, i);
    match FindFrom(s, start, i)
    case None =>
    case Some(m) =>
      FindFromIsFirst(s, end, m);
      forall j, j' | i <= j < j' < |s| && s[j] == start
        ensures s[j'] != end
      {
        assert m <= j;
      }
  }

  /** A `start` at `m` and the first `end` after it delimit the text
      between them. */
  lemma FirstMatchDelimits(s: string, start: char, end: char, m: nat, e: nat)
    requires start != end && m < |s| && s[m] == start
    requires FindFrom(s, end, m) == Some(e)
    ensures m < e && m + |s[m + 1..e]| + 2 == e + 1
    ensures Delimits(s, start, end, m, s[m + 1..e])
  {
    var piece := s[m + 1..e];
    FindFromIsFirst(s, end, m);
    forall j | 0 <= j < |piece| ensures piece[j] != end {
      assert piece[j] == s[m + 1 + j];
    }
  }

  /** A first match followed by a scan of the text after its `end` is a scan
      of the text from the first resume point. */
  lemma ScanExtends(s: string, start: char, end: char, from: nat, m: nat, piece: string,
                    tail: seq<nat>, rest: seq<string>, ps: seq<nat>, pieces: seq<string>)
    requires from <= m && Delimits(s, start, end, m, piece)
    requires forall j :: from <= j < m ==> s[j] != start
    requires IsScan(s, start, end, m + |piece| + 2, tail, rest)
    requires ps == [m] + tail && pieces == [piece] + rest
    ensures IsScan(s, start, end, from, ps, pieces)
  {
    var d := m + |piece| + 2;
    assert MatchOk(s, start, end, from, ps, pieces, 0);
    forall k | 1 <= k < |ps| ensures MatchOk(s, start, end, from, ps, pieces, k) {
      assert MatchOk(s, start, end, d, tail, rest, k - 1);
      assert ps[k] == tail[k - 1] && pieces[k] == rest[k - 1];
      assert Resume(ps, pieces, from, k) == Resume(tail, rest, d, k - 1);
    }
    assert Resume(ps, pieces, from, |ps|) == Resume(tail, rest, d, |tail|);
  }

  /** No extracted piece contains the `end` delimiter. */
  lemma NoPieceContainsEnd(s: string, start: char, end: char)
    requires start != end
    ensures forall k :: 0 <= k < |Between(s, start, end)| ==> end !in Between(s, start, end)[k]
  {
    var ps := StartPositions(s, start, end, 0);
    var pieces := Between(s, start, end);
    BetweenIsScan(s, start, end, 0);
    forall k | 0 <= k < |pieces| ensures end !in pieces[k] {
      assert MatchOk(s, start, end, 0, ps, pieces, k);
    }
  }

  /** The empty text has no pieces. */
  lemma EmptyGivesNothing(start: char, end: char)
    requires start != end
    ensures Between("", start, end) == []
  {
  }

  /** Worked cases with 'a' as start and 'b' as end. */
  lemma ExampleOneMatch()
    ensures Between("a1b", 'a', 'b') == ["1"]
  {
    var s := "a1b";
    assert FindFrom(s, 'a', 0) == Some(0);
    assert FindFrom(s, 'b', 0) == Some(2);
    assert NextMatch(s, 'a', 'b', 0) == Some((0, 2));
    assert s[1..2] == "1";
    assert BetweenFrom(s, 'a', 'b', 3) == [];
  }

  /** A trailing "a3c" has no end delimiter and is dropped. */
  lemma ExampleTrailingStartDropped()
    ensures Between("c1ba2ba3c", 'a', 'b') == ["2"]
  {
    var s := "c1ba2ba3c";
    assert FindFrom(s, 'a', 0) == Some(3);
    assert FindFrom(s, 'b', 3) == Some(5);
    assert NextMatch(s, 'a', 'b', 0) == Some((3, 5));
    assert FindFrom(s, 'a', 6) == Some(6);
    assert FindFrom(s, 'b', 6) == None;
    assert NextMatch(s, 'a', 'b', 6) == None;
    assert s[4..5] == "2";
  }

  lemma ExampleThreeMatches()
    ensures Between("a1ba2ba3b", 'a', 'b') == ["1", "2", "3"]
  {
    var s := "a1ba2ba3b";
    assert NextMatch(s, 'a', 'b', 9) == None;
    assert BetweenFrom(s, 'a', 'b', 9) == [];
    assert FindFrom(s, 'a', 6) == Some(6);
    assert FindFrom(s, 'b', 6) == Some(8);
    assert NextMatch(s, 'a', 'b', 6) == Some((6, 8));
    assert s[7..8] == "3";
    assert BetweenFrom(s, 'a', 'b', 6) == ["3"];
    assert FindFrom(s, 'a', 3) == Some(3);
    assert FindFrom(s, 'b', 3) == Some(5);
    assert NextMatch(s, 'a', 'b', 3) == Some((3, 5));
    assert s[4..5] == "2";
    assert BetweenFrom(s, 'a', 'b', 3) == ["2", "3"];
    assert FindFrom(s, 'a', 0) == Some(0);
    assert FindFrom(s, 'b', 0) == Some(2);
    assert NextMatch(s, 'a', 'b', 0) == Some((0, 2));
    assert s[1..2] == "1";
  }

  lemma ExampleTwoOfThree()
    ensures Between("a1ba2ba3c", 'a', 'b') == ["1", "2"]
  {
    var s := "a1ba2ba3c";
    assert FindFrom(s, 'a', 6) == Some(6);
    assert FindFrom(s, 'b', 6) == None;
    assert NextMatch(s, 'a', 'b', 6) == None;
    assert BetweenFrom(s, 'a', 'b', 6) == [];
    assert FindFrom(s, 'a', 3) == Some(3);
    assert FindFrom(s, 'b', 3) == Some(5);
    assert NextMatch(s, 'a', 'b', 3) == Some((3, 5));
    assert s[4..5] == "2";
    assert BetweenFrom(s, 'a', 'b', 3) == ["2"];
    assert FindFrom(s, 'a', 0) == Some(0);
    assert FindFrom(s, 'b', 0) == Some(2);
    assert NextMatch(s, 'a', 'b', 0) == Some((0, 2));
    assert s[1..2] == "1";
  }

  lemma ExampleLeadingTextSkipped()
    ensures Between("c1ba2ba3b", 'a', 'b') == ["2", "3"]
  {
    var s := "c1ba2ba3b";
    assert NextMatch(s, 'a', 'b', 9) == None;
    assert BetweenFrom(s, 'a', 'b', 9) == [];
    assert FindFrom(s, 'a', 6) == Some(6);
    assert FindFrom(s, 'b', 6) == Some(8);
    assert NextMatch(s, 'a', 'b', 6) == Some((6, 8));
    assert s[7..8] == "3";
    assert BetweenFrom(s, 'a', 'b', 6) == ["3"];
    assert FindFrom(s, 'a', 0) == Some(3);
    assert FindFrom(s, 'b', 3) == Some(5);
    assert NextMatch(s, 'a', 'b', 0) == Some((3, 5));
    assert s[4..5] == "2";
  }
}
