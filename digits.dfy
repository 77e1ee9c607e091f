/** Positional numerals over the digit classes used by the normaliser's regular
    expressions ([0-9] and [0-9a-fA-F]) and by JavaScript's BigInt conversions. */
module Digits {

  /** A member of the class [0-9a-fA-F]. Octal, decimal and binary digits are the
      hexadecimal digits whose value is below the base. */
  predicate IsHexDigit(c: char) {
    ('0' <= c <= '9') || ('a' <= c <= 'f') || ('A' <= c <= 'F')
  }

  function DigitValue(c: char): (d: nat)
    requires IsHexDigit(c)
    ensures d < 16
    ensures d < 10 <==> '0' <= c <= '9'
    ensures d < 8 <==> '0' <= c <= '7'
    ensures d < 2 <==> '0' <= c <= '1'
    ensures d == 0 <==> c == '0'
  {
    if c <= '9' then c as int - '0' as int
    else if c <= 'F' then c as int - 'A' as int + 10
    else c as int - 'a' as int + 10
  }

  /** `c` is a digit in `base` (2, 8, 10 or 16). */
  predicate IsDigitIn(c: char, base: nat) {
    IsHexDigit(c) && DigitValue(c) < base
  }

  /** Every character of `s` is a digit in `base`; stated digit by digit from the
      end, the order in which Value reads them. */
  predicate AllDigits(s: string, base: nat)
    decreases |s|
  {
    s == [] || (AllDigits(s[..|s| - 1], base) && IsDigitIn(s[|s| - 1], base))
  }

  /** Each position of a digit string holds a digit. */
  lemma {:induction false} DigitAt(s: string, base: nat, i: nat)
    requires AllDigits(s, base) && i < |s|
    ensures IsDigitIn(s[i], base)
    decreases |s|
  {
    if i < |s| - 1 {
      DigitAt(s[..|s| - 1], base, i);
    }
  }

  /** AllDigits read position by position. */
  lemma {:induction false} AllDigitsEach(s: string, base: nat)
    ensures AllDigits(s, base) <==> forall i :: 0 <= i < |s| ==> IsDigitIn(s[i], base)
    decreases |s|
  {
    if s != [] {
      var p := s[..|s| - 1];
      AllDigitsEach(p, base);
      assert forall i :: 0 <= i < |p| ==> p[i] == s[i];
    }
  }

  /** The number `s` denotes in `base`, most significant digit first; leading
      zeros contribute nothing and the empty string denotes 0. */
  function Value(s: string, base: nat): nat
    requires AllDigits(s, base)
  {
    if s == [] then 0 else Value(s[..|s| - 1], base) * base + DigitValue(s[|s| - 1])
  }

  /** The form BigInt.prototype.toString() gives a non-negative value: decimal
      digits, and no leading zero except in "0" itself. */
  predicate IsCanonicalDecimal(s: string) {
    |s| > 0 && AllDigits(s, 10) && (s[0] == '0' ==> |s| == 1)
  }

  function DecimalChar(d: nat): (c: char)
    requires d < 10
    ensures IsHexDigit(c) && DigitValue(c) == d
  {
    ('0' as int + d) as char
  }

  /** Base-10 rendering of a non-negative integer. */
  function ToDecimal(n: nat): (s: string)
    ensures IsCanonicalDecimal(s)
    ensures Value(s, 10) == n
    decreases n
  {
    if n < 10 then [DecimalChar(n)]
    else
      var p := ToDecimal(n / 10);
      var s := p + [DecimalChar(n % 10)];
      assert s[..|s| - 1] == p;
      assert s[0] == p[0];
      s
  }

  /** A digit string whose first digit is not zero denotes a positive number. */
  lemma {:induction false} LeadingDigitPositive(s: string, base: nat)
    requires |s| > 0 && AllDigits(s, base) && s[0] != '0'
    ensures Value(s, base) > 0
  {
    var p := s[..|s| - 1];
    if |p| > 0 {
      assert p[0] == s[0];
      LeadingDigitPositive(p, base);
      DigitAt(s, base, 0);
    }
  }

  /** Division by ten splits off the last decimal digit. */
  lemma LastDecimalDigit(q: nat, d: nat)
    requires d < 10
    ensures (q * 10 + d) / 10 == q && (q * 10 + d) % 10 == d
  {
  }

  /** A canonical decimal string is the rendering of the number it denotes, so
      ToDecimal and Value are inverse bijections between naturals and
      canonical decimal strings. */
  lemma {:induction false} CanonicalDecimalRoundTrip(s: string)
    requires IsCanonicalDecimal(s)
    ensures ToDecimal(Value(s, 10)) == s
  {
    var p := s[..|s| - 1];
    var d := DigitValue(s[|s| - 1]);
    if |p| == 0 {
      assert s == [s[0]];
    } else {
      assert p[0] == s[0] != '0';
      assert IsCanonicalDecimal(p);
      LeadingDigitPositive(p, 10);
      CanonicalDecimalRoundTrip(p);
      var v := Value(s, 10);
      assert v == Value(p, 10) * 10 + d;
      LastDecimalDigit(Value(p, 10), d);
      assert DecimalChar(d) == s[|s| - 1];
      assert s == p + [s[|s| - 1]];
    }
  }
}
