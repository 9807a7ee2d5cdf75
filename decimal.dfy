/**
 * Decimal text of an integer, as an interpolated string such as "/Items/{id}"
 * renders a C# `int`: an optional '-' followed by decimal digits, without
 * leading zeros. The parser beside it exists to prove that the rendering
 * loses nothing, so that distinct ids always give distinct texts.
 */
module Decimal {

  predicate IsDigit(c: char) {
    '0' <= c <= '9'
  }

  predicate IsDigits(s: string) {
    forall i :: 0 <= i < |s| ==> IsDigit(s[i])
  }

  /** Digits as a number is written: at least one, and no leading zero unless the number is 0. */
  predicate IsCanonicalDigits(s: string) {
    |s| > 0 && IsDigits(s) && (|s| > 1 ==> s[0] != '0')
  }

  function DigitChar(d: nat): (c: char)
    requires d < 10
    ensures IsDigit(c) && c as int - '0' as int == d
  {
    ('0' as int + d) as char
  }

  function DigitValue(c: char): (d: nat)
    requires IsDigit(c)
    ensures d < 10 && DigitChar(d) == c
  {
    c as int - '0' as int
  }

  /** The digits of `n`, most significant first. */
  function FromNat(n: nat): (s: string)
    ensures IsCanonicalDigits(s)
    ensures s[0] == '0' ==> n == 0
    decreases n
  {
    if n < 10 then [DigitChar(n)] else FromNat(n / 10) + [DigitChar(n % 10)]
  }

  /** The value of a string of decimal digits (the empty string reads as 0). */
  function ToNat(s: string): nat
    requires IsDigits(s)
  {
    if s == [] then 0 else ToNat(s[..|s| - 1]) * 10 + DigitValue(s[|s| - 1])
  }

  /** Text of an integer: a minus sign before the digits of a negative value. */
  function FromInt(i: int): (s: string)
    ensures |s| > 0
    ensures s[0] == '-' <==> i < 0
    ensures IsIntText(s)
  {
    if i < 0 then "-" + FromNat(-i) else FromNat(i)
  }

  /** Integer text as C# writes it: canonical digits, after a '-' only for a non-zero value. */
  predicate IsIntText(s: string) {
    |s| > 0 &&
    if s[0] == '-' then IsCanonicalDigits(s[1..]) && s[1] != '0' else IsCanonicalDigits(s)
  }

  function ToInt(s: string): int
    requires IsIntText(s)
  {
    if s[0] == '-' then -(ToNat(s[1..]) as int) else ToNat(s)
  }

  lemma {:induction false} NatRoundTrip(n: nat)
    ensures ToNat(FromNat(n)) == n
    decreases n
  {
    if n >= 10 {
      var s := FromNat(n);
      var prefix := FromNat(n / 10);
      assert s == prefix + [DigitChar(n % 10)];
      assert s[..|s| - 1] == prefix;
      NatRoundTrip(n / 10);
    }
  }

  lemma IntRoundTrip(i: int)
    ensures ToInt(FromInt(i)) == i
  {
    if i < 0 {
      NatRoundTrip(-i);
      assert FromInt(i)[1..] == FromNat(-i);
    } else {
      NatRoundTrip(i);
    }
  }

  /** Digits that do not start with '0' have a positive value. */
  lemma {:induction false} NonZeroLeadIsPositive(s: string)
    requires IsDigits(s) && |s| > 0 && s[0] != '0'
    ensures ToNat(s) > 0
    decreases |s|
  {
    if |s| > 1 {
      NonZeroLeadIsPositive(s[..|s| - 1]);
    }
  }

  /** Canonical digits are the text of their own value. */
  lemma {:induction false} DigitsRoundTrip(s: string)
    requires IsCanonicalDigits(s)
    ensures FromNat(ToNat(s)) == s
    decreases |s|
  {
    if |s| > 1 {
      var prefix := s[..|s| - 1];
      assert IsCanonicalDigits(prefix);
      NonZeroLeadIsPositive(prefix);
      DigitsRoundTrip(prefix);
      assert s == prefix + [s[|s| - 1]];
    }
  }

  /** Every integer text is the text of its value: with IntRoundTrip, the text of an integer is unique. */
  lemma TextRoundTrip(s: string)
    requires IsIntText(s)
    ensures FromInt(ToInt(s)) == s
  {
    if s[0] == '-' {
      DigitsRoundTrip(s[1..]);
      NonZeroLeadIsPositive(s[1..]);
      assert s == "-" + s[1..];
    } else {
      DigitsRoundTrip(s);
    }
  }

  /** Distinct integers never share a text. */
  lemma FromIntInjective(a: int, b: int)
    ensures FromInt(a) == FromInt(b) ==> a == b
  {
    IntRoundTrip(a);
    IntRoundTrip(b);
  }
}
