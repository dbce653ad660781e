/** Decimal text of integers, as `std::to_string`, `sprintf` and digit-accumulating loops produce and read it. */
module Decimal {
  predicate IsDigit(c: char) {
    '0' <= c <= '9'
  }

  function DigitValue(c: char): (v: nat)
    requires IsDigit(c)
    ensures v < 10
  {
    c as int - '0' as int
  }

  function DigitChar(v: nat): (c: char)
    requires v < 10
    ensures IsDigit(c) && DigitValue(c) == v
  {
    ('0' as int + v) as char
  }

  predicate AllDigits(s: string) {
    forall i :: 0 <= i < |s| ==> IsDigit(s[i])
  }

  /** The decimal text of `n`, without leading zeros. */
  function Digits(n: nat): (s: string)
    ensures s != [] && AllDigits(s)
    ensures s[0] == '0' <==> n == 0
  {
    if n < 10 then [DigitChar(n)] else Digits(n / 10) + [DigitChar(n % 10)]
  }

  /** What a loop that accumulates `len * 10 + digit` makes of `s`. */
  function Value(s: string): nat
    requires AllDigits(s)
  {
    if s == [] then 0 else Value(s[..|s| - 1]) * 10 + DigitValue(s[|s| - 1])
  }

  function Signed(n: int): string {
    if n < 0 then "-" + Digits(-n) else Digits(n)
  }

  function Pow10(k: nat): (p: nat)
    ensures p > 0
  {
    if k == 0 then 1 else 10 * Pow10(k - 1)
  }

  lemma {:induction false} ValueOfDigits(n: nat)
    ensures Value(Digits(n)) == n
  {
    if n < 10 {
      assert Digits(n)[..0] == [];
    } else {
      ValueOfDigits(n / 10);
      var s := Digits(n);
      assert s[..|s| - 1] == Digits(n / 10);
    }
  }

  /** Digit strings without a leading zero are exactly the decimal texts. */
  lemma {:induction false} DigitsOfValue(s: string)
    requires s != [] && AllDigits(s)
    requires |s| > 1 ==> s[0] != '0'
    ensures Digits(Value(s)) == s
  {
    var front := s[..|s| - 1];
    if front == [] {
      assert s == [s[0]];
    } else {
      DigitsOfValue(front);
      assert s == front + [s[|s| - 1]];
      assert Value(front) == 0 <==> front[0] == '0';
    }
  }

  /** The number of digits grows past k exactly when n reaches 10^k. */
  lemma {:induction false} DigitCount(n: nat, k: nat)
    requires k >= 1
    ensures |Digits(n)| <= k <==> n < Pow10(k)
  {
    if k == 1 {
      assert Pow10(1) == 10 * Pow10(0);
    } else if n >= 10 {
      DigitCount(n / 10, k - 1);
      assert n / 10 < Pow10(k - 1) <==> n < 10 * Pow10(k - 1);
    } else {
      assert Pow10(k) == 10 * Pow10(k - 1);
    }
  }
}
