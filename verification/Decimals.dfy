/** Python's str(int) and the part of int(str) that reads it back. */
module Decimals {
  import opened Wrappers

  const DIGITS: string := "0123456789"

  predicate IsDigit(c: char) { '0' <= c <= '9' }

  predicate AllDigits(s: string) { forall i :: 0 <= i < |s| ==> IsDigit(s[i]) }

  function Digits(n: nat): (s: string)
    ensures |s| > 0 && AllDigits(s)
  {
    if n < 10 then [DIGITS[n]] else Digits(n / 10) + [DIGITS[n % 10]]
  }

  function Decimal(i: int): string {
    if i < 0 then "-" + Digits(-i) else Digits(i)
  }

  function DigitValue(c: char): (n: nat)
    requires IsDigit(c)
  {
    c as int - '0' as int
  }

  function NatValue(s: string): nat
    requires AllDigits(s)
  {
    if s == [] then 0 else 10 * NatValue(s[..|s| - 1]) + DigitValue(s[|s| - 1])
  }

  /** int(s) for an optional minus sign and decimal digits. */
  function ParseInt(s: string): Option<int> {
    if |s| > 1 && s[0] == '-' && AllDigits(s[1..]) then Some(0 - NatValue(s[1..]) as int)
    else if |s| > 0 && AllDigits(s) then Some(NatValue(s))
    else None
  }

  lemma {:induction false} NatValueOfDigits(n: nat)
    ensures NatValue(Digits(n)) == n
  {
    if n >= 10 {
      NatValueOfDigits(n / 10);
      var s := Digits(n);
      assert s[..|s| - 1] == Digits(n / 10);
      assert DigitValue(DIGITS[n % 10]) == n % 10;
    } else {
      assert DigitValue(DIGITS[n]) == n;
      assert Digits(n)[..0] == [];
    }
  }

  lemma ParseNegative(s: string)
    requires |s| > 0 && AllDigits(s)
    ensures ParseInt("-" + s) == Some(0 - NatValue(s))
  {
    assert ("-" + s)[1..] == s;
  }

  lemma ParsePositive(s: string)
    requires |s| > 0 && AllDigits(s)
    ensures ParseInt(s) == Some(NatValue(s))
  {
    assert IsDigit(s[0]);
  }

  /** Reading back a printed integer gives that integer: str(int) loses nothing. */
  lemma ParseIntOfDecimal(i: int)
    ensures ParseInt(Decimal(i)) == Some(i)
  {
    var digits := Digits(if i < 0 then -i else i);
    assert Decimal(i) == if i < 0 then "-" + digits else digits;
    NatValueOfDigits(if i < 0 then -i else i);
    ParseNegative(digits);
    ParsePositive(digits);
  }

  lemma DecimalInjective(i: int, j: int)
    requires Decimal(i) == Decimal(j)
    ensures i == j
  {
    ParseIntOfDecimal(i);
    ParseIntOfDecimal(j);
  }

  predicate IsDecimalChar(c: char) { c == '-' || IsDigit(c) }

  lemma DecimalChars(i: int)
    ensures |Decimal(i)| > 0
    ensures forall k :: 0 <= k < |Decimal(i)| ==> IsDecimalChar(Decimal(i)[k])
  {
  }
}
