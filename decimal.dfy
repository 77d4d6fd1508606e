/**
 * Decimal text of non-negative integers, as `Number.prototype.toString()`
 * prints them, and `String.prototype.padStart`.
 */
module Decimal {

  predicate IsDigit(c: char) {
    '0' <= c <= '9'
  }

  predicate AllDigits(s: string) {
    forall i :: 0 <= i < |s| ==> IsDigit(s[i])
  }

  function DigitChar(d: nat): (c: char)
    requires d < 10
    ensures IsDigit(c) && DigitValue(c) == d
  {
    ('0' as int + d) as char
  }

  function DigitValue(c: char): nat
    requires IsDigit(c)
  {
    c as int - '0' as int
  }

  /** Number of decimal digits of n (at least one, for zero). */
  function NumDigits(n: nat): (k: nat)
    ensures k >= 1
  {
    if n < 10 then 1 else 1 + NumDigits(n / 10)
  }

  /** The shortest decimal form of n: what `n.toString()` gives for a whole, non-negative number. */
  function ToDecimal(n: nat): (s: string)
    ensures |s| >= 1 && AllDigits(s)
  {
    if n < 10 then [DigitChar(n)] else ToDecimal(n / 10) + [DigitChar(n % 10)]
  }

  /** The value a string of decimal digits denotes; leading zeros are allowed. */
  function ParseDecimal(s: string): nat
    requires AllDigits(s)
  {
    if s == [] then 0 else ParseDecimal(s[..|s| - 1]) * 10 + DigitValue(s[|s| - 1])
  }

  /** Reading the decimal text back gives the number it was printed from. */
  lemma {:induction false} ParseToDecimal(n: nat)
    ensures ParseDecimal(ToDecimal(n)) == n
  {
    if n >= 10 {
      var s := ToDecimal(n);
      assert s[..|s| - 1] == ToDecimal(n / 10);
      ParseToDecimal(n / 10);
    }
  }

  /** The decimal text has exactly NumDigits(n) characters and never starts with a superfluous '0'. */
  lemma {:induction false} ToDecimalShape(n: nat)
    ensures |ToDecimal(n)| == NumDigits(n)
    ensures |ToDecimal(n)| == 1 <==> n < 10
    ensures n >= 10 ==> ToDecimal(n)[0] != '0'
  {
    if n >= 10 {
      ToDecimalShape(n / 10);
    }
  }

  /** Printing is the inverse of parsing on digit strings without a leading zero. */
  lemma {:induction false} ToDecimalParse(s: string)
    requires |s| >= 1 && AllDigits(s)
    requires |s| > 1 ==> s[0] != '0'
    ensures ToDecimal(ParseDecimal(s)) == s
  {
    var init := s[..|s| - 1];
    if |s| > 1 {
      ToDecimalParse(init);
      ParseNoLeadingZero(init);
      assert ToDecimal(ParseDecimal(s)) == ToDecimal(ParseDecimal(init)) + [s[|s| - 1]];
    }
  }

  /** A digit string that does not start with '0' denotes a positive number. */
  lemma {:induction false} ParseNoLeadingZero(s: string)
    requires |s| >= 1 && AllDigits(s) && s[0] != '0'
    ensures ParseDecimal(s) >= 1
  {
    if |s| > 1 {
      ParseNoLeadingZero(s[..|s| - 1]);
    }
  }

  function Repeat(c: char, k: nat): (r: string)
    ensures |r| == k && forall i :: 0 <= i < k ==> r[i] == c
  {
    if k == 0 then [] else [c] + Repeat(c, k - 1)
  }

  /**
   * `s.padStart(target, fill)` with a one-character fill: s itself when it is
   * already at least `target` long, otherwise s behind enough copies of fill
   * to make it exactly `target` long.
   */
  function PadStart(s: string, target: nat, fill: char): (r: string)
    ensures |r| == if |s| >= target then |s| else target
    ensures r[|r| - |s|..] == s
    ensures forall i :: 0 <= i < |r| - |s| ==> r[i] == fill
  {
    if |s| >= target then s else Repeat(fill, target - |s|) + s
  }

  /** Leading zeros do not change the value a digit string denotes. */
  lemma {:induction false} ParseLeadingZeros(k: nat, s: string)
    requires AllDigits(s)
    ensures AllDigits(Repeat('0', k) + s)
    ensures ParseDecimal(Repeat('0', k) + s) == ParseDecimal(s)
    decreases |s|
  {
    var z := Repeat('0', k);
    if s == [] {
      assert z + s == z;
      ZerosParseToZero(k);
    } else {
      var init := s[..|s| - 1];
      assert (z + s)[..|z + s| - 1] == z + init;
      ParseLeadingZeros(k, init);
    }
  }

  lemma {:induction false} ZerosParseToZero(k: nat)
    ensures AllDigits(Repeat('0', k))
    ensures ParseDecimal(Repeat('0', k)) == 0
  {
    if k > 0 {
      var z := Repeat('0', k);
      assert z[..k - 1] == Repeat('0', k - 1);
      ZerosParseToZero(k - 1);
    }
  }
}
