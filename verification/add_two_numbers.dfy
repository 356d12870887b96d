/** Addition of two non-negative numbers given as digit lists, most
    significant digit first (add_two_numbers/src/main.rs). The Rust `i32`
    digits and carry are `int`s here. */
module AddTwoNumbers {

  predicate IsDigits(d: seq<int>) {
    forall i :: 0 <= i < |d| ==> 0 <= d[i] <= 9
  }

  function Max(a: nat, b: nat): nat {
    if a >= b then a else b
  }

  function Pow10(n: nat): (p: nat)
    ensures p >= 1
  {
    if n == 0 then 1 else 10 * Pow10(n - 1)
  }

  /** The number a digit list denotes, most significant digit first. */
  function Value(d: seq<int>): int {
    if |d| == 0 then 0 else 10 * Value(d[..|d| - 1]) + d[|d| - 1]
  }

  /** The `i`-th digit counted from the least significant end, or 0 beyond
      the list: what the Rust code reads after reversing the list. */
  function DigitAt(d: seq<int>, i: nat): int {
    if i < |d| then d[|d| - 1 - i] else 0
  }

  /** The value of the lowest `i` digits. */
  function Low(d: seq<int>, i: nat): int {
    Value(d[|d| - (if i < |d| then i else |d|)..])
  }

  /** What the sum of two non-empty digit lists is: a digit list denoting the
      sum, as long as the longer operand, plus one digit exactly when the
      sum no longer fits in that many digits (the final carry). */
  ghost predicate IsDigitSum(left: seq<int>, right: seq<int>, result: seq<int>) {
    var n := Max(|left|, |right|);
    && IsDigits(result)
    && Value(result) == Value(left) + Value(right)
    && |result| == (if Value(left) + Value(right) >= Pow10(n) then n + 1 else n)
  }

  /** The Rust function: an empty operand gives an empty list; otherwise
      the digits are added from the least significant end with a carry, each
      new digit pushed on the front, and a final non-zero carry is pushed as
      the leading digit. */
  method AddTwoNumbers(left: seq<int>, right: seq<int>) returns (result: seq<int>)
    requires |left| > 0 && |right| > 0 ==> IsDigits(left) && IsDigits(right)
    ensures |left| == 0 || |right| == 0 ==> result == []
    ensures |left| > 0 && |right| > 0 ==> IsDigitSum(left, right, result)
  {
    if |left| == 0 || |right| == 0 {
      return [];
    }
    var n := Max(|left|, |right|);
    result := [];
    var carry := 0;
    var i := 0;
    while i < n
      invariant 0 <= i <= n
      invariant |result| == i && IsDigits(result)
      invariant 0 <= carry <= 1
      invariant Value(result) + carry * Pow10(i) == Low(left, i) + Low(right, i)
    {
      var sum := DigitAt(left, i) + DigitAt(right, i) + carry;
      Column(left, right, result, carry, i);
      result := [sum % 10] + result;
      carry := sum / 10;
      i := i + 1;
    }
    FinalCarry(left, right, result, carry);
    if carry > 0 {
      result := [carry] + result;
    }
  }

  /** Once every column is added, the digits pushed so far, led by a
      non-zero final carry, are the sum. */
  lemma FinalCarry(left: seq<int>, right: seq<int>, result: seq<int>, carry: int)
    requires IsDigits(left) && IsDigits(right) && IsDigits(result)
    requires |result| == Max(|left|, |right|) && 0 <= carry <= 1
    requires Value(result) + carry * Pow10(|result|)
             == Low(left, |result|) + Low(right, |result|)
    ensures IsDigitSum(left, right, if carry > 0 then [carry] + result else result)
  {
    LowAll(left, |result|);
    LowAll(right, |result|);
    ValueBound(result);
    if carry > 0 {
      CarryOut(left, right, result);
    }
  }

  /** A final carry of one becomes the leading digit. */
  lemma CarryOut(left: seq<int>, right: seq<int>, result: seq<int>)
    requires IsDigits(result) && |result| == Max(|left|, |right|)
    requires 0 <= Value(result) < Pow10(|result|)
    requires Value(result) + Pow10(|result|) == Value(left) + Value(right)
    ensures IsDigitSum(left, right, [1] + result)
  {
    var r := [1] + result;
    PrependValue(1, result);
    assert Value(r) == Pow10(|result|) + Value(result);
    forall k | 0 <= k < |r| ensures 0 <= r[k] <= 9 {
      if k > 0 {
        assert r[k] == result[k - 1];
      }
    }
  }

  /** Adding column `i` keeps the running equation of the loop. */
  lemma Column(left: seq<int>, right: seq<int>, result: seq<int>, carry: int, i: nat)
    requires IsDigits(left) && IsDigits(right) && IsDigits(result)
    requires |result| == i && 0 <= carry <= 1
    requires Value(result) + carry * Pow10(i) == Low(left, i) + Low(right, i)
    ensures var sum := DigitAt(left, i) + DigitAt(right, i) + carry;
      && 0 <= sum / 10 <= 1
      && IsDigits([sum % 10] + result)
      && Value([sum % 10] + result) + (sum / 10) * Pow10(i + 1)
         == Low(left, i + 1) + Low(right, i + 1)
  {
    var a, b := DigitAt(left, i), DigitAt(right, i);
    assert 0 <= a <= 9 && 0 <= b <= 9;
    var sum := a + b + carry;
    var p := Pow10(i);
    var v := Value(result);
    var q, m := sum / 10, sum % 10;
    assert 0 <= q <= 1 && 0 <= m <= 9;
    LowStep(left, i);
    LowStep(right, i);
    PrependValue(m, result);
    assert Value([m] + result) == m * p + v;
    assert Pow10(i + 1) == 10 * p;
    Step(sum, p, v, carry, a, b);
    assert m * p + v + q * (10 * p) == v + carry * p + a * p + b * p;
  }

  lemma Step(sum: int, p: int, v: int, carry: int, a: int, b: int)
    requires sum == a + b + carry
    ensures (sum % 10) * p + v + (sum / 10) * (10 * p) == v + carry * p + a * p + b * p
  {
    var q, m := sum / 10, sum % 10;
    assert sum == 10 * q + m;
    calc {
      m * p + q * (10 * p);
      (m + 10 * q) * p;
      sum * p;
      (a + b + carry) * p;
      a * p + b * p + carry * p;
    }
  }

  lemma {:induction false} PrependValue(x: int, t: seq<int>)
    ensures Value([x] + t) == x * Pow10(|t|) + Value(t)
  {
    var s := [x] + t;
    if |t| > 0 {
      assert s[..|s| - 1] == [x] + t[..|t| - 1];
      PrependValue(x, t[..|t| - 1]);
      calc {
        Value(s);
        10 * Value([x] + t[..|t| - 1]) + t[|t| - 1];
        10 * (x * Pow10(|t| - 1) + Value(t[..|t| - 1])) + t[|t| - 1];
        x * (10 * Pow10(|t| - 1)) + (10 * Value(t[..|t| - 1]) + t[|t| - 1]);
        x * Pow10(|t|) + Value(t);
      }
    } else {
      assert s[..0] == [];
    }
  }

  lemma LowStep(d: seq<int>, i: nat)
    ensures Low(d, i + 1) == Low(d, i) + DigitAt(d, i) * Pow10(i)
  {
    if i < |d| {
      var t := d[|d| - i..];
      assert d[|d| - (i + 1)..] == [d[|d| - 1 - i]] + t;
      PrependValue(d[|d| - 1 - i], t);
    }
  }

  lemma LowAll(d: seq<int>, i: nat)
    requires i >= |d|
    ensures Low(d, i) == Value(d)
  {
    assert d[0..] == d;
  }

  /** A digit list of length `n` denotes a number below 10^n. */
  lemma {:induction false} ValueBound(d: seq<int>)
    requires IsDigits(d)
    ensures 0 <= Value(d) < Pow10(|d|)
  {
    if |d| > 0 {
      ValueBound(d[..|d| - 1]);
    }
  }

  /** Digit lists of the same length denoting the same number are equal. */
  lemma {:induction false} DigitsDetermined(a: seq<int>, b: seq<int>)
    requires IsDigits(a) && IsDigits(b)
    requires |a| == |b| && Value(a) == Value(b)
    ensures a == b
  {
    if |a| > 0 {
      var n := |a| - 1;
      var x, y := a[n], b[n];
      assert 0 <= x <= 9 && 0 <= y <= 9;
      SplitLastDigit(Value(a[..n]), Value(b[..n]), x, y);
      DigitsDetermined(a[..n], b[..n]);
      assert a == a[..n] + [x];
      assert b == b[..n] + [y];
    }
  }

  /** A number and its last digit determine each other. */
  lemma SplitLastDigit(va: int, vb: int, x: int, y: int)
    requires 0 <= x <= 9 && 0 <= y <= 9
    requires 10 * va + x == 10 * vb + y
    ensures va == vb && x == y
  {
  }

  /** Swapping the operands does not change the sum. */
  lemma SumCommutes(left: seq<int>, right: seq<int>, r1: seq<int>, r2: seq<int>)
    requires IsDigitSum(left, right, r1)
    requires IsDigitSum(right, left, r2)
    ensures r1 == r2
  {
    DigitsDetermined(r1, r2);
  }

  /** Worked cases: 9 + 2 = [1, 1] and 22 + 9 = [3, 1]. */
  lemma Examples(r1: seq<int>, r2: seq<int>)
    requires IsDigitSum([9], [2], r1)
    requires IsDigitSum([2, 2], [9], r2)
    ensures r1 == [1, 1]
    ensures r2 == [3, 1]
  {
    assert Value([9]) == 9 && Value([2]) == 2 && Value([1, 1]) == 11;
    assert [2, 2][..1] == [2] && [1, 1][..1] == [1] && [3, 1][..1] == [3];
    assert Value([2, 2]) == 22 && Value([3, 1]) == 31;
    DigitsDetermined(r1, [1, 1]);
    DigitsDetermined(r2, [3, 1]);
  }
}
