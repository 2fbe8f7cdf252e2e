/** Decimal printing and parsing of integers, as `to_string` and `parse::<u64>` do them. */
module Decimals {
  import opened Common

  predicate IsDigit(c: char) { '0' <= c <= '9' }

  function DigitChar(d: nat): (c: char)
    requires d < 10
    ensures IsDigit(c) && DigitValue(c) == d
  {
    ['0', '1', '2', '3', '4', '5', '6', '7', '8', '9'][d]
  }

  function DigitValue(c: char): (d: nat)
    requires IsDigit(c)
    ensures d < 10
  {
    c as int - '0' as int
  }

  predicate AllDigits(s: string) {
    forall i :: 0 <= i < |s| ==> IsDigit(s[i])
  }

  function Digits(n: nat): (s: string)
    ensures s != [] && AllDigits(s)
  {
    if n < 10 then [DigitChar(n)] else Digits(n / 10) + [DigitChar(n % 10)]
  }

  function NumberOf(s: string): nat
    requires AllDigits(s)
  {
    if s == [] then 0 else NumberOf(s[..|s| - 1]) * 10 + DigitValue(s[|s| - 1])
  }

  /** Reads a u64: an optional plus sign, then at least one digit, and no overflow. */
  function ParseU64(s: string): (r: Option<nat>)
    ensures r.Some? ==> r.value <= U64_MAX
  {
    var digits := if s != [] && s[0] == '+' then s[1..] else s;
    if digits != [] && AllDigits(digits) && NumberOf(digits) <= U64_MAX then Some(NumberOf(digits)) else None
  }

  function Zeros(k: nat): (s: string)
    ensures |s| == k && AllDigits(s)
  {
    seq(k, _ => '0')
  }

  /** The `{:06}` format: zero padded to six digits, longer numbers in full. */
  function Padded(n: nat): (s: string)
    ensures s != [] && AllDigits(s)
  {
    var d := Digits(n);
    if |d| < 6 then Zeros(6 - |d|) + d else d
  }

  lemma {:induction false} NumberOfDigits(n: nat)
    ensures NumberOf(Digits(n)) == n
  {
    if n >= 10 {
      NumberOfDigits(n / 10);
      assert Digits(n)[..|Digits(n)| - 1] == Digits(n / 10);
    } else {
      assert Digits(n)[..0] == [];
    }
  }

  lemma {:induction false} NumberOfPadding(k: nat, s: string)
    requires AllDigits(s)
    ensures NumberOf(Zeros(k) + s) == NumberOf(s)
    decreases |s|, k
  {
    var t := Zeros(k) + s;
    if s != [] {
      NumberOfPadding(k, s[..|s| - 1]);
      assert t[..|t| - 1] == Zeros(k) + s[..|s| - 1];
    } else if k > 0 {
      NumberOfPadding(k - 1, s);
      assert t[..|t| - 1] == Zeros(k - 1) + s;
    }
  }

  lemma NumberOfPadded(n: nat)
    ensures NumberOf(Padded(n)) == n
  {
    hide NumberOf, Digits;
    NumberOfDigits(n);
    var d := Digits(n);
    if |d| < 6 {
      NumberOfPadding(6 - |d|, d);
    }
  }

  /** A text of digits has no sign to skip. */
  lemma ParseDigits(s: string)
    requires s != [] && AllDigits(s)
    ensures ParseU64(s) == if NumberOf(s) <= U64_MAX then Some(NumberOf(s)) else None
  {
    hide NumberOf;
    assert IsDigit(s[0]);
  }

  /** Printing then parsing a u64 gives it back. */
  lemma ParsePadded(n: nat)
    requires n <= U64_MAX
    ensures ParseU64(Padded(n)) == Some(n)
  {
    hide NumberOf, Padded, ParseU64;
    NumberOfPadded(n);
    ParseDigits(Padded(n));
  }

  /** What parses: digits, perhaps behind one plus sign, whose number fits in a u64. */
  lemma ParsesDigits(s: string, n: nat)
    ensures ParseU64(s) == Some(n) <==>
      exists d :: (s == d || s == "+" + d) && d != [] && AllDigits(d) && NumberOf(d) == n <= U64_MAX
  {
    if s != [] && s[0] == '+' {
      assert s == "+" + s[1..];
      assert !IsDigit(s[0]);
      forall d | s == "+" + d ensures d == s[1..] {
      }
    } else {
      forall d ensures s != "+" + d {
        assert ("+" + d)[0] == '+';
      }
    }
  }

  /** A number is printed without leading zeros, and padded to at least six characters. */
  lemma {:induction false} DigitsAreShort(n: nat)
    ensures n > 0 ==> Digits(n)[0] != '0'
    ensures n < 10 <==> |Digits(n)| == 1
  {
    if n >= 10 { DigitsAreShort(n / 10); }
  }

  lemma PaddedIsSixWide(n: nat)
    ensures |Padded(n)| >= 6 && NumberOf(Padded(n)) == n
    ensures |Padded(n)| > 6 ==> Padded(n)[0] != '0'
  {
    hide NumberOf, Digits;
    NumberOfPadded(n);
    DigitsAreShort(n);
    if n == 0 {
      DigitsAreShort(0);
    }
  }

  /** Padding as documented. */
  lemma PaddedExamples()
    ensures Padded(1) == "000001" && Padded(123) == "000123"
  {
    assert Digits(1) == "1" && Digits(12) == "12" && Digits(123) == Digits(12) + "3";
    assert Zeros(5) + "1" == "000001" && Zeros(3) + "123" == "000123";
  }
}
