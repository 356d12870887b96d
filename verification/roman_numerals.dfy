/** Roman numeral parsing (tdd_roman_numerals/src/main.rs). The Rust `i64`
    is an unbounded `int` here; no input of the seven symbols is long enough
    in practice to overflow it. */
module RomanNumerals {

  predicate IsSymbol(c: char) {
    c in "IVXLCDM"
  }

  predicate IsNumeral(s: string) {
    forall i :: 0 <= i < |s| ==> IsSymbol(s[i])
  }

  /** The value of one symbol. Any other character is unreachable in the
      source, so the function is only defined on the seven symbols. */
  function SymbolValue(c: char): (n: int)
    requires IsSymbol(c)
    ensures n in {1, 5, 10, 50, 100, 500, 1000}
  {
    match c
    case 'I' => 1
    case 'V' => 5
    case 'X' => 10
    case 'L' => 50
    case 'C' => 100
    case 'D' => 500
    case 'M' => 1000
  }

  /** Whether the symbol at `i` is written in subtractive position: its value
      is strictly less than that of its right neighbour. */
  predicate Subtracted(s: string, i: nat)
    requires IsNumeral(s) && i < |s|
  {
    i + 1 < |s| && SymbolValue(s[i]) < SymbolValue(s[i + 1])
  }

  /** The contribution of the symbol at `i`: minus its value when it is
      subtracted, its value otherwise. */
  function Term(s: string, i: nat): int
    requires IsNumeral(s) && i < |s|
  {
    if Subtracted(s, i) then -SymbolValue(s[i]) else SymbolValue(s[i])
  }

  /** The value of a numeral: the sum of the terms of its symbols. */
  function Value(s: string): int
    requires IsNumeral(s)
  {
    if |s| == 0 then 0 else Term(s, 0) + Value(s[1..])
  }

  /** The plain sum of the symbol values, ignoring subtraction. */
  function PlainSum(s: string): int
    requires IsNumeral(s)
  {
    if |s| == 0 then 0 else SymbolValue(s[0]) + PlainSum(s[1..])
  }

  /** The Rust loop: walk the symbols right to left, subtracting a symbol
      that is smaller than the one seen just before it (its right
      neighbour) and adding it otherwise. */
  method RomanToInt(number: string) returns (sum: int)
    requires IsNumeral(number)
    ensures sum == Value(number)
  {
    sum := 0;
    var previous := 0;
    var i := |number|;
    while i > 0
      invariant 0 <= i <= |number|
      invariant sum == Value(number[i..])
      invariant previous == if i < |number| then SymbolValue(number[i]) else 0
    {
      i := i - 1;
      var n := SymbolValue(number[i]);
      assert number[i..][1..] == number[i + 1..];
      assert Term(number[i..], 0) == Term(number, i);
      if n < previous {
        sum := sum - n;
      } else {
        sum := sum + n;
      }
      previous := n;
    }
  }

  /** When no symbol is smaller than its right neighbour, the value is the
      plain sum of the symbols (e.g. "DCCLXVI"). */
  lemma {:induction false} NoSubtractionIsPlainSum(s: string)
    requires IsNumeral(s)
    requires forall i :: 0 <= i < |s| - 1 ==> SymbolValue(s[i]) >= SymbolValue(s[i + 1])
    ensures Value(s) == PlainSum(s)
  {
    if |s| > 0 {
      assert !Subtracted(s, 0);
      NoSubtractionIsPlainSum(s[1..]);
    }
  }

  /** The empty numeral is zero. */
  lemma EmptyIsZero()
    ensures Value("") == 0
  {
  }

  /** The single symbols have their table values. */
  lemma SingleSymbols()
    ensures Value("I") == 1 && Value("V") == 5 && Value("X") == 10
    ensures Value("L") == 50 && Value("C") == 100 && Value("D") == 500
    ensures Value("M") == 1000
  {
  }

  /** Worked cases without subtraction: "III" and "XVIII". */
  lemma AdditiveExamples()
    ensures Value("III") == 3
    ensures Value("XVIII") == 18
  {
    assert Value("I") == 1 && Value("II") == 2;
    assert Value("VIII") == 8;
  }

  /** "DCCLXVI" has no subtractive pair, so it is the plain sum 766. */
  lemma PlainExample()
    ensures Value("DCCLXVI") == 766
  {
    var s := "DCCLXVI";
    assert IsNumeral(s);
    assert PlainSum(s) == 766;
    NoSubtractionIsPlainSum(s);
  }

  /** Worked cases with subtraction: a smaller symbol before a larger one
      is subtracted. */
  lemma SubtractiveFour()
    ensures Value("IV") == 4
    ensures Value("XIV") == 14
  {
    assert Value("V") == 5;
    assert Value("IV") == 4;
  }

  lemma SubtractiveForty()
    ensures Value("XL") == 40
    ensures Value("XLI") == 41
  {
    assert Value("L") == 50;
    assert Value("XL") == 40;
    assert Value("I") == 1;
    assert Value("LI") == 51;
  }

  /** Two subtractions in one numeral: CCXCIV is 200 + 90 + 4. */
  lemma SubtractiveTwice()
    ensures Value("CCXCIV") == 294
  {
    assert Value("V") == 5;
    assert Value("IV") == 4;
    assert Value("CIV") == 104;
    assert Value("XCIV") == 94;
    assert Value("CXCIV") == 194;
  }
}
