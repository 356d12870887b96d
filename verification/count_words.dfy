/** Counting the words of a sentence that end in 's' or 'r'
    (count_words/src/main.rs). A word is a maximal run of letters; any
    other character ends it. Letters are the ASCII letters here, where the
    Rust code asks `char::is_alphabetic`. */
module CountWords {

  predicate IsLetter(c: char) {
    ('a' <= c <= 'z') || ('A' <= c <= 'Z')
  }

  predicate EndsInSOrR(w: string) {
    |w| > 0 && (w[|w| - 1] == 's' || w[|w| - 1] == 'r')
  }

  /** `str::split` on every non-letter: the pieces between separators,
      including the empty ones two adjacent separators leave. */
  function SplitAll(s: string): (pieces: seq<string>)
    ensures |pieces| >= 1
    ensures pieces[0] == [] <==> |s| == 0 || !IsLetter(s[0])
  {
    if |s| == 0 then [[]]
    else
      var rest := SplitAll(s[1..]);
      if !IsLetter(s[0]) then [[]] + rest
      else [[s[0]] + rest[0]] + rest[1..]
  }

  /** `str::split_terminator`: as `SplitAll`, but a trailing empty piece is
      dropped. */
  function SplitTerminator(s: string): seq<string> {
    var all := SplitAll(s);
    if all[|all| - 1] == [] then all[..|all| - 1] else all
  }

  /** How many of `pieces` end in 's' or 'r'. */
  function CountEnding(pieces: seq<string>): nat {
    if |pieces| == 0 then 0
    else (if EndsInSOrR(pieces[0]) then 1 else 0) + CountEnding(pieces[1..])
  }

  /** The Rust function: the number of `split_terminator` pieces that end in
      's' or 'r'. */
  function CountWordsSpec(s: string): nat {
    CountEnding(SplitTerminator(s))
  }

  /** Position `i` is the last letter of a word ending in 's' or 'r'. */
  predicate WordEnd(s: string, i: nat)
    requires i < |s|
  {
    (s[i] == 's' || s[i] == 'r') && (i + 1 == |s| || !IsLetter(s[i + 1]))
  }

  /** The number of word ends at position `i` or later. */
  function WordEndsFrom(s: string, i: nat): nat
    requires i <= |s|
    decreases |s| - i
  {
    if i == |s| then 0
    else (if WordEnd(s, i) then 1 else 0) + WordEndsFrom(s, i + 1)
  }

  /** One pass over the characters counting the positions where a word
      ending in 's' or 'r' ends. It counts exactly what the Rust function
      counts. */
  method CountWords(s: string) returns (count: nat)
    ensures count == CountWordsSpec(s)
  {
    count := 0;
    var i := 0;
    while i < |s|
      invariant 0 <= i <= |s|
      invariant count + WordEndsFrom(s, i) == WordEndsFrom(s, 0)
    {
      if WordEnd(s, i) {
        count := count + 1;
      }
      i := i + 1;
    }
    CountIsWordEnds(s);
  }

  /** Every piece of the split is made of letters only. */
  lemma {:induction false} PiecesAreLetters(s: string)
    ensures forall k, j :: 0 <= k < |SplitAll(s)| && 0 <= j < |SplitAll(s)[k]| ==> IsLetter(SplitAll(s)[k][j])
  {
    if |s| > 0 {
      PiecesAreLetters(s[1..]);
    }
  }

  /** The number of split pieces ending in 's' or 'r' equals the number of
      positions where such a word ends. */
  lemma {:induction false} WordEndsMatchPieces(s: string, i: nat)
    requires i <= |s|
    ensures WordEndsFrom(s, i) == CountEnding(SplitAll(s[i..]))
    decreases |s| - i
  {
    if i < |s| {
      var t := s[i..];
      assert t[1..] == s[i + 1..];
      WordEndsMatchPieces(s, i + 1);
      var rest := SplitAll(t[1..]);
      if IsLetter(t[0]) {
        var first := [t[0]] + rest[0];
        assert SplitAll(t) == [first] + rest[1..];
        assert rest == [rest[0]] + rest[1..];
        assert CountEnding(rest) == (if EndsInSOrR(rest[0]) then 1 else 0) + CountEnding(rest[1..]);
        assert CountEnding(SplitAll(t)) == (if EndsInSOrR(first) then 1 else 0) + CountEnding(rest[1..]);
        if rest[0] != [] {
          assert first[|first| - 1] == rest[0][|rest[0]| - 1];
          assert i + 1 < |s| && IsLetter(s[i + 1]);
        }
      } else {
        assert SplitAll(t) == [[]] + rest;
      }
    }
  }

  /** The count is the number of positions where a word ending in 's' or
      'r' ends. */
  lemma CountIsWordEnds(s: string)
    ensures CountWordsSpec(s) == WordEndsFrom(s, 0)
  {
    WordEndsMatchPieces(s, 0);
    TerminatorKeepsCount(s);
    assert s[0..] == s;
  }

  /** Dropping a trailing empty piece leaves the count unchanged. */
  lemma TerminatorKeepsCount(s: string)
    ensures CountEnding(SplitTerminator(s)) == CountEnding(SplitAll(s))
  {
    var all := SplitAll(s);
    if all[|all| - 1] == [] {
      CountEndingAppend(all[..|all| - 1], [[]]);
      assert all == all[..|all| - 1] + [[]];
    }
  }

  lemma {:induction false} CountEndingAppend(a: seq<string>, b: seq<string>)
    ensures CountEnding(a + b) == CountEnding(a) + CountEnding(b)
  {
    if |a| > 0 {
      assert (a + b)[1..] == a[1..] + b;
      CountEndingAppend(a[1..], b);
    } else {
      assert a + b == b;
    }
  }

  /** Word ends after a prefix are the word ends of the rest, shifted. */
  lemma {:induction false} ShiftedWordEnds(a: string, b: string, j: nat)
    requires j <= |b|
    ensures WordEndsFrom(a + b, |a| + j) == WordEndsFrom(b, j)
    decreases |b| - j
  {
    if j < |b| {
      assert (a + b)[|a| + j] == b[j];
      if j + 1 < |b| {
        assert (a + b)[|a| + j + 1] == b[j + 1];
      }
      ShiftedWordEnds(a, b, j + 1);
    }
  }

  lemma {:induction false} WordEndsJoin(a: string, b: string, i: nat)
    requires i <= |a| && (|b| == 0 || !IsLetter(b[0]))
    ensures WordEndsFrom(a + b, i) == WordEndsFrom(a, i) + WordEndsFrom(b, 0)
    decreases |a| - i
  {
    if i == |a| {
      ShiftedWordEnds(a, b, 0);
    } else {
      assert (a + b)[i] == a[i];
      if i + 1 < |a| {
        assert (a + b)[i + 1] == a[i + 1];
      } else if |b| > 0 {
        assert (a + b)[i + 1] == b[0];
      }
      assert WordEnd(a + b, i) == WordEnd(a, i);
      WordEndsJoin(a, b, i + 1);
    }
  }

  /** Splitting a sentence where the second part starts with a non-letter
      splits the count: no word straddles the cut. */
  lemma CountJoin(a: string, b: string)
    requires |b| == 0 || !IsLetter(b[0])
    ensures CountWordsSpec(a + b) == CountWordsSpec(a) + CountWordsSpec(b)
  {
    WordEndsJoin(a, b, 0);
    CountIsWordEnds(a + b);
    CountIsWordEnds(a);
    CountIsWordEnds(b);
  }

  lemma NoWordEnds(s: string)
    requires forall i :: 0 <= i < |s| ==> !WordEnd(s, i)
    ensures CountWordsSpec(s) == 0
  {
    NoWordEndsFrom(s, 0, |s|);
    CountIsWordEnds(s);
  }

  /** Positions without a word end add nothing to the count. */
  lemma {:induction false} NoWordEndsFrom(s: string, i: nat, k: nat)
    requires i <= k <= |s|
    requires forall j :: i <= j < k ==> !WordEnd(s, j)
    ensures WordEndsFrom(s, i) == WordEndsFrom(s, k)
    decreases k - i
  {
    if i < k {
      NoWordEndsFrom(s, i + 1, k);
    }
  }

  /** The empty sentence has no words. */
  lemma EmptyCountsZero()
    ensures CountWordsSpec("") == 0
  {
    NoWordEnds("");
  }

  /** An 's' or 'r' inside a word does not count. */
  lemma InnerLettersDoNotCount()
    ensures CountWordsSpec("helasarlo") == 0
  {
    NoWordEnds("helasarlo");
  }

  /** Words that start with 'r' or 's' do not count. */
  lemma LeadingLettersDoNotCount()
    ensures CountWordsSpec("ra sa") == 0
  {
    NoWordEnds("ra sa");
  }

  /** A separator followed by one word ending in 's' or 'r' counts once. */
  lemma SeparatedWord(p: string)
    requires |p| >= 2 && !IsLetter(p[0]) && EndsInSOrR(p)
    requires forall j :: 1 <= j < |p| ==> IsLetter(p[j])
    ensures CountWordsSpec(p) == 1
  {
    NoWordEndsFrom(p, 0, |p| - 1);
    assert WordEndsFrom(p, |p| - 1) == 1;
    CountIsWordEnds(p);
  }

  /** Counts of the pieces the two worked sentences are made of. */
  lemma SaasaaCountsZero()
    ensures CountWordsSpec("saasaa") == 0
  {
    NoWordEnds("saasaa");
  }

  lemma SpacedAaaaaCountsZero()
    ensures CountWordsSpec(" aaaaa") == 0
  {
    NoWordEnds(" aaaaa");
  }

  lemma SpacedXxxsCountsOne()
    ensures CountWordsSpec(" xxxs") == 1
  {
    SeparatedWord(" xxxs");
  }

  lemma SpacedZzzzsCountsOne()
    ensures CountWordsSpec(" zzzzs") == 1
  {
    SeparatedWord(" zzzzs");
  }

  lemma SpacedXxxrCountsOne()
    ensures CountWordsSpec(" xxxr") == 1
  {
    SeparatedWord(" xxxr");
  }

  /** Cuts before non-letters split the count of a three-part sentence. */
  lemma CountJoinThree(a: string, b: string, c: string)
    requires |b| > 0 && !IsLetter(b[0]) && |c| > 0 && !IsLetter(c[0])
    ensures CountWordsSpec(a + b + c) == CountWordsSpec(a) + CountWordsSpec(b) + CountWordsSpec(c)
  {
    CountJoin(a + b, c);
    CountJoin(a, b);
  }

  /** Worked case: "saasaa xxxs aaaaa zzzzs" has two words ending in 's'. */
  lemma MatchExampleS()
    ensures CountWordsSpec("saasaa xxxs aaaaa zzzzs") == 2
  {
    var a, b, c, d := "saasaa", " xxxs", " aaaaa", " zzzzs";
    assert "saasaa xxxs aaaaa zzzzs" == (a + b + c) + d;
    CountJoin(a + b + c, d);
    CountJoinThree(a, b, c);
    SaasaaCountsZero();
    SpacedXxxsCountsOne();
    SpacedAaaaaCountsZero();
    SpacedZzzzsCountsOne();
  }

  /** Worked case: "saasaa xxxr aaaaa" has one word ending in 'r'. */
  lemma MatchExampleR()
    ensures CountWordsSpec("saasaa xxxr aaaaa") == 1
  {
    var a, b, c := "saasaa", " xxxr", " aaaaa";
    assert "saasaa xxxr aaaaa" == a + b + c;
    CountJoinThree(a, b, c);
    SaasaaCountsZero();
    SpacedXxxrCountsOne();
    SpacedAaaaaCountsZero();
  }
}
