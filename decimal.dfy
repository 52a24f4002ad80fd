/**
 * Decimal text of integers: what `BigInt(s)` and `parseInt(s, 10)` read from a
 * string of ASCII digits, and what `toString()` writes for an integer.
 */
module Decimal {

  predicate IsDigit(c: char) { '0' <= c <= '9' }

  /** Every character is an ASCII digit (the regular-expression class `\d`). */
  predicate IsDigits(s: string) { forall i :: 0 <= i < |s| ==> IsDigit(s[i]) }

  function DigitValue(c: char): (d: nat)
    requires IsDigit(c)
    ensures d < 10
  {
    (c as int) - ('0' as int)
  }

  function DigitChar(d: nat): (c: char)
    requires d < 10
    ensures IsDigit(c) && DigitValue(c) == d
  {
    (('0' as int) + d) as char
  }

  /** The value of a digit string; the empty string reads as 0, as `BigInt("")` does. */
  function Value(s: string): nat
    requires IsDigits(s)
  {
    if s == [] then 0 else Value(s[..|s| - 1]) * 10 + DigitValue(s[|s| - 1])
  }

  /** A digit string as `toString()` writes it: non-empty, no leading zero. */
  predicate Canonical(s: string)
  {
    IsDigits(s) && |s| >= 1 && (|s| > 1 ==> s[0] != '0')
  }

  /** `n.toString()` for a non-negative integer. */
  function ShowNat(n: nat): (s: string)
    ensures Canonical(s)
    ensures s[0] == '0' <==> n == 0
  {
    if n < 10 then [DigitChar(n)] else ShowNat(n / 10) + [DigitChar(n % 10)]
  }

  /** `i.toString()` for any integer: a minus sign before the magnitude when negative. */
  function ShowInt(i: int): string
  {
    if i < 0 then "-" + ShowNat(-i) else ShowNat(i)
  }

  /** Text that `BigInt` accepts: an optional minus sign followed by digits. */
  predicate IsSigned(s: string)
  {
    if |s| > 0 && s[0] == '-' then IsDigits(s[1..]) else IsDigits(s)
  }

  /** `BigInt(s)` of an optionally signed digit string. */
  function SignedValue(s: string): int
    requires IsSigned(s)
  {
    if |s| > 0 && s[0] == '-' then -(Value(s[1..]) as int) else Value(s)
  }

  lemma {:induction false} ValueOfShowNat(n: nat)
    ensures Value(ShowNat(n)) == n
  {
    if n >= 10 {
      var s := ShowNat(n);
      assert s[..|s| - 1] == ShowNat(n / 10);
      ValueOfShowNat(n / 10);
    }
  }

  /** A digit string that starts with a non-zero digit has a non-zero value. */
  lemma {:induction false} ValuePositive(s: string)
    requires IsDigits(s) && |s| >= 1 && s[0] != '0'
    ensures Value(s) >= 1
  {
    if |s| > 1 {
      ValuePositive(s[..|s| - 1]);
    }
  }

  lemma {:induction false} ShowNatOfValue(s: string)
    requires Canonical(s)
    ensures ShowNat(Value(s)) == s
  {
    if |s| > 1 {
      var t := s[..|s| - 1];
      ValuePositive(t);
      ShowNatOfValue(t);
      var n := Value(s);
      assert n / 10 == Value(t) && n % 10 == DigitValue(s[|s| - 1]);
      assert DigitChar(n % 10) == s[|s| - 1];
    }
  }

  lemma ShowIntIsSigned(i: int)
    ensures IsSigned(ShowInt(i)) && SignedValue(ShowInt(i)) == i
  {
    var s := ShowInt(i);
    if i < 0 {
      assert s[1..] == ShowNat(-i);
      ValueOfShowNat(-i);
    } else {
      ValueOfShowNat(i);
    }
  }

  /** A digit string reads the same as a signed string and as plain digits. */
  lemma DigitsAreSigned(s: string)
    requires IsDigits(s)
    ensures IsSigned(s) && SignedValue(s) == Value(s)
  {
    if |s| > 0 { assert IsDigit(s[0]); }
  }
}
