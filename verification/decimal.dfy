/**
 * Decimal text of natural numbers, as JavaScript prints the millisecond
 * timestamp `Date.now()` when it is concatenated into a filename, and the
 * reading of such a text back into a number.
 */
module Decimal {
  predicate IsDigit(c: char)
  {
    '0' <= c <= '9'
  }

  predicate AllDigits(s: string)
  {
    forall i :: 0 <= i < |s| ==> IsDigit(s[i])
  }

  function DigitChar(d: nat): (c: char)
    requires d < 10
    ensures IsDigit(c) && DigitValue(c) == d
  {
    ('0' as int + d) as char
  }

  function DigitValue(c: char): nat
    requires IsDigit(c)
  {
    c as int - '0' as int
  }

  /** The shortest decimal text of `n`: digits only, no leading zero unless `n` is 0. */
  function Format(n: nat): (s: string)
    ensures |s| > 0 && AllDigits(s)
    ensures s[0] == '0' <==> n == 0
    ensures n == 0 ==> s == "0"
  {
    if n < 10 then [DigitChar(n)] else Format(n / 10) + [DigitChar(n % 10)]
  }

  /** The number a digit string denotes. */
  function Value(s: string): nat
    requires AllDigits(s)
  {
    if s == [] then 0 else Value(s[..|s| - 1]) * 10 + DigitValue(s[|s| - 1])
  }

  /** Reading the formatted text gives the number back. */
  lemma {:induction false} ValueOfFormat(n: nat)
    ensures Value(Format(n)) == n
  {
    if n >= 10 {
      ValueOfFormat(n / 10);
      var s := Format(n);
      assert s[..|s| - 1] == Format(n / 10);
    }
  }

  /** Different numbers never print the same. */
  lemma FormatInjective(m: nat, n: nat)
    requires Format(m) == Format(n)
    ensures m == n
  {
    ValueOfFormat(m);
    ValueOfFormat(n);
  }

  /** The longest prefix of `s` made of digits. */
  function LeadingDigits(s: string): (r: string)
    ensures r <= s && AllDigits(r)
    ensures |r| < |s| ==> !IsDigit(s[|r|])
  {
    if s != [] && IsDigit(s[0]) then [s[0]] + LeadingDigits(s[1..]) else []
  }

  /** A run of digits followed by text that does not start with a digit splits back apart. */
  lemma {:induction false} LeadingDigitsOfConcat(d: string, e: string)
    requires AllDigits(d)
    requires e == [] || !IsDigit(e[0])
    ensures LeadingDigits(d + e) == d
  {
    if d != [] {
      assert (d + e)[1..] == d[1..] + e;
      LeadingDigitsOfConcat(d[1..], e);
    }
  }
}
