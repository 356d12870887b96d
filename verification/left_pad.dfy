/** Left padding of a string with whole copies of a padding string
    (left_pad/src/main.rs). Strings are ASCII, so the Rust byte lengths are
    the sequence lengths here. */
module LeftPad {

  /** `k` copies of `p`, one after another. */
  function Repeat(p: string, k: nat): (r: string)
    ensures |r| == k * |p|
  {
    if k == 0 then "" else Repeat(p, k - 1) + p
  }

  /** How many whole copies of `padding` fit in front of `s` without the
      result growing beyond `desired`. */
  function Copies(s: string, desired: nat, padding: string): nat {
    if |padding| == 0 || desired < |s| then 0
    else (desired - |s|) / |padding|
  }

  /** The padded string as a closed form: the copies that fit, then `s`. */
  function Padded(s: string, desired: nat, padding: string): string {
    Repeat(padding, Copies(s, desired, padding)) + s
  }

  /** The Rust loop: append `padding` while one more copy still fits, then
      append `s`. An empty padding returns `s` straight away, which is also
      what makes the loop terminate. */
  method LeftPad(s: string, desired: nat, padding: string) returns (r: string)
    ensures r == Padded(s, desired, padding)
  {
    if |padding| == 0 {
      return s;
    }
    var buffer := "";
    ghost var k: nat := 0;
    while |buffer| + |s| + |padding| <= desired
      invariant buffer == Repeat(padding, k)
      invariant desired < |s| ==> k == 0
      invariant k > 0 ==> k * |padding| + |s| <= desired
      decreases desired - |buffer|
    {
      buffer := buffer + padding;
      k := k + 1;
    }
    if desired >= |s| {
      DivisionByBounds(desired - |s|, |padding|, k);
    }
    r := buffer + s;
  }

  /** The quotient is the one multiple count that brackets `x`. */
  lemma DivisionByBounds(x: nat, d: nat, k: nat)
    requires d > 0
    requires k * d <= x < k * d + d
    ensures x / d == k
  {
    var q := x / d;
    assert q * d <= x < q * d + d;
    if q < k {
      MulMonotone(q + 1, k, d);
    } else if q > k {
      MulMonotone(k + 1, q, d);
    }
  }

  lemma {:induction false} MulMonotone(a: nat, b: nat, d: nat)
    requires a <= b
    ensures a * d <= b * d
  {
    if a < b {
      MulMonotone(a, b - 1, d);
      assert b * d == (b - 1) * d + d;
    }
  }

  /** The result always ends with `s`, preceded by whole copies of the
      padding only. */
  lemma EndsWithInput(s: string, desired: nat, padding: string)
    ensures var r := Padded(s, desired, padding);
      |r| >= |s| && r[|r| - |s|..] == s
      && r[..|r| - |s|] == Repeat(padding, Copies(s, desired, padding))
  {
  }

  /** The padding never overshoots `desired`, and one more copy would. */
  lemma CopiesAreMaximal(s: string, desired: nat, padding: string)
    requires |padding| > 0
    ensures var k := Copies(s, desired, padding);
      && (k > 0 ==> k * |padding| + |s| <= desired)
      && (k + 1) * |padding| + |s| > desired
  {
    var k := Copies(s, desired, padding);
    if desired >= |s| {
      var x := desired - |s|;
      var d := |padding|;
      assert x == k * d + x % d;
    }
  }

  /** An empty padding returns the input unchanged. */
  lemma EmptyPaddingIsIdentity(s: string, desired: nat)
    ensures Padded(s, desired, "") == s
  {
  }

  /** A target shorter than the input returns the input unchanged. */
  lemma ShortTargetIsIdentity(s: string, desired: nat, padding: string)
    requires desired < |s|
    ensures Padded(s, desired, padding) == s
  {
  }

  /** Worked cases: ("abc", 4, "-"), ("abc", 5, "-"), ("abc", 8, "hello"). */
  lemma Examples()
    ensures Padded("abc", 4, "-") == "-abc"
    ensures Padded("abc", 5, "-") == "--abc"
    ensures Padded("abc", 8, "hello") == "helloabc"
  {
    assert Copies("abc", 5, "-") == 2;
    assert Repeat("-", 2) == "--" by {
      assert Repeat("-", 1) == "-";
    }
    assert Repeat("hello", 1) == "hello";
  }
}
