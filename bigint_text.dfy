/** JavaScript's conversions between strings and BigInt values: the `BigInt(x)`
    call on a string (the StringToBigInt grammar of ECMAScript) and
    `BigInt.prototype.toString()` in base 10. */
module BigIntText {
  import opened Results
  import opened Digits
  import opened JsText

  function TrimStart(s: string): (r: string)
  {
    if s != [] && IsJsWhitespace(s[0]) then TrimStart(s[1..]) else s
  }

  function TrimEnd(s: string): (r: string)
  {
    if s != [] && IsJsWhitespace(s[|s| - 1]) then TrimEnd(s[..|s| - 1]) else s
  }

  /** The text BigInt() parses: `x` without leading and trailing whitespace. */
  function Trim(s: string): string {
    TrimEnd(TrimStart(s))
  }

  /** The digits after a two-character radix prefix ("0x", "0o", "0b"). */
  function Radix(x: string, t: string, base: nat): (r: Result<int>)
    requires |t| >= 2
  {
    var digits := t[2..];
    if |digits| > 0 && AllDigits(digits, base) then Ok(Value(digits, base))
    else Err(BigIntSyntaxError(x))
  }

  /** `BigInt(x)` for a string `x`. After trimming whitespace: the empty string
      is 0; "0x"/"0X", "0o"/"0O" and "0b"/"0B" followed by at least one digit of
      that base are hexadecimal, octal and binary; otherwise an optional sign and
      at least one decimal digit. Anything else throws a SyntaxError. */
  function ParseBigInt(x: string): (r: Result<int>)
    ensures r.Err? ==> r.error == BigIntSyntaxError(x)
  {
    ParseLiteral(x, Trim(x))
  }

  /** The StrIntegerLiteral grammar applied to the trimmed text `t` of `x`. */
  function ParseLiteral(x: string, t: string): (r: Result<int>)
    ensures r.Err? ==> r.error == BigIntSyntaxError(x)
  {
    if t == [] then Ok(0)
    else if |t| >= 2 && t[0] == '0' && (t[1] == 'x' || t[1] == 'X') then Radix(x, t, 16)
    else if |t| >= 2 && t[0] == '0' && (t[1] == 'o' || t[1] == 'O') then Radix(x, t, 8)
    else if |t| >= 2 && t[0] == '0' && (t[1] == 'b' || t[1] == 'B') then Radix(x, t, 2)
    else if t[0] == '+' || t[0] == '-' then
      if |t| > 1 && AllDigits(t[1..], 10) then
        var v: int := Value(t[1..], 10);
        Ok(if t[0] == '-' then -v else v)
      else Err(BigIntSyntaxError(x))
    else if AllDigits(t, 10) then Ok(Value(t, 10))
    else Err(BigIntSyntaxError(x))
  }

  /** The strings `BigInt.prototype.toString()` produces: a canonical decimal,
      or "-" followed by a canonical decimal other than "0". */
  predicate IsCanonicalInt(s: string) {
    IsCanonicalDecimal(s) || (|s| >= 2 && s[0] == '-' && IsCanonicalDecimal(s[1..]) && s[1] != '0')
  }

  /** `n.toString()` for a BigInt `n`. */
  function ToString(n: int): (s: string)
    ensures IsCanonicalInt(s)
  {
    if n < 0 then
      var d := ToDecimal(-n);
      PositiveLeadingDigit(d);
      "-" + d
    else ToDecimal(n)
  }

  /** `BigInt(x).toString()`: it throws exactly when BigInt() rejects `x`, and
      otherwise gives a canonical string that BigInt() reads as the value of `x`. */
  function Canonicalize(x: string): (r: Result<string>)
    ensures r.Ok? <==> ParseBigInt(x).Ok?
    ensures r.Err? ==> r.error == BigIntSyntaxError(x)
    ensures r.Ok? ==> IsCanonicalInt(r.value) && ParseBigInt(r.value) == ParseBigInt(x)
  {
    match ParseBigInt(x)
    case Ok(n) => ParseToString(n); Ok(ToString(n))
    case Err(e) => Err(e)
  }

  /** The canonical rendering of a positive number does not start with '0'. */
  lemma PositiveLeadingDigit(d: string)
    requires IsCanonicalDecimal(d) && Value(d, 10) > 0
    ensures d[0] != '0'
  {
    if |d| == 1 {
      assert d[..0] == [];
    }
  }

  /** Trimming stops at once on a string that neither starts nor ends with
      whitespace. */
  lemma TrimUnchanged(s: string)
    requires s != [] ==> !IsJsWhitespace(s[0]) && !IsJsWhitespace(s[|s| - 1])
    ensures Trim(s) == s
  {
  }

  /** The literal grammar on unsigned decimal digits. */
  lemma LiteralDecimal(x: string, t: string)
    requires |t| > 0 && AllDigits(t, 10)
    ensures ParseLiteral(x, t) == Ok(Value(t, 10))
  {
    DigitAt(t, 10, 0);
    if |t| >= 2 { DigitAt(t, 10, 1); }
  }

  /** The literal grammar on "-" followed by decimal digits. */
  lemma LiteralNegative(x: string, t: string)
    requires |t| > 1 && t[0] == '-' && AllDigits(t[1..], 10)
    ensures ParseLiteral(x, t).Ok? && ParseLiteral(x, t).value == -(Value(t[1..], 10) as int)
  {
  }

  /** The literal grammar on "0x" followed by hexadecimal digits. */
  lemma LiteralHex(x: string, t: string)
    requires |t| > 2 && t[0] == '0' && t[1] == 'x' && AllDigits(t[2..], 16)
    ensures ParseLiteral(x, t) == Ok(Value(t[2..], 16))
  {
  }

  /** Reading back a rendered BigInt gives the same value. */
  lemma ParseToString(n: int)
    ensures ParseBigInt(ToString(n)) == Ok(n)
  {
    if n < 0 {
      ParseNegative(ToDecimal(-n));
    } else {
      ParseDecimalDigits(ToDecimal(n));
    }
  }

  /** Every canonical integer string is the rendering of its own value, so
      ToString is a bijection from the integers onto IsCanonicalInt. */
  lemma CanonicalRoundTrip(s: string)
    requires IsCanonicalInt(s)
    ensures ParseBigInt(s).Ok? && ToString(ParseBigInt(s).value) == s
  {
    if IsCanonicalDecimal(s) {
      ParseDecimalDigits(s);
      CanonicalDecimalRoundTrip(s);
    } else {
      var d := s[1..];
      assert s == "-" + d;
      ParseNegative(d);
      LeadingDigitPositive(d, 10);
      CanonicalDecimalRoundTrip(d);
    }
  }

  /** `BigInt(x).toString()` is idempotent: canonicalising its own output
      changes nothing. */
  lemma CanonicalizeIdempotent(x: string)
    requires Canonicalize(x).Ok?
    ensures Canonicalize(Canonicalize(x).value) == Canonicalize(x)
  {
    ParseToString(ParseBigInt(x).value);
  }

  /** A string of decimal digits, leading zeros allowed, is its base-10 value. */
  lemma ParseDecimalDigits(s: string)
    requires |s| > 0 && AllDigits(s, 10)
    ensures ParseBigInt(s) == Ok(Value(s, 10))
  {
    DigitAt(s, 10, 0);
    TrimUnchanged(s);
    LiteralDecimal(s, s);
  }

  /** "-" followed by decimal digits is the negated base-10 value. */
  lemma ParseNegative(d: string)
    requires |d| > 0 && AllDigits(d, 10)
    ensures ParseBigInt("-" + d).Ok? && ParseBigInt("-" + d).value == -(Value(d, 10) as int)
  {
    var s := "-" + d;
    assert s[1..] == d && s[|s| - 1] == d[|d| - 1];
    TrimUnchanged(s);
    LiteralNegative(s, s);
  }

  /** "0x" followed by hexadecimal digits is their base-16 value. */
  lemma ParseHexDigits(s: string)
    requires |s| > 2 && s[0] == '0' && s[1] == 'x' && AllDigits(s[2..], 16)
    ensures ParseBigInt(s) == Ok(Value(s[2..], 16))
  {
    assert s[|s| - 1] == s[2..][|s| - 3];
    TrimUnchanged(s);
    LiteralHex(s, s);
  }
  /** A decimal digit is exactly a digit in base 10. */
  lemma DecimalDigitIn(c: char)
    ensures IsDigitIn(c, 10) <==> '0' <= c <= '9'
  {
  }

  /** Whitespace-free text starting with "0x"/"0X", "0o"/"0O" or "0b"/"0B" is
      accepted exactly when at least one digit follows and every character
      after the prefix is a digit of that base; its value is then those digits
      read in that base. */
  lemma RadixLiteral(x: string, base: nat)
    requires forall c :: c in x ==> !IsJsWhitespace(c)
    requires |x| >= 2 && x[0] == '0' && x[1] in "xXoObB"
    requires base == if x[1] in "xX" then 16 else if x[1] in "oO" then 8 else 2
    ensures ParseBigInt(x).Ok? <==> |x| > 2 && forall i :: 2 <= i < |x| ==> IsDigitIn(x[i], base)
    ensures ParseBigInt(x).Ok? ==> AllDigits(x[2..], base) && ParseBigInt(x).value == Value(x[2..], base)
  {
    assert x[0] in x && x[|x| - 1] in x;
    TrimUnchanged(x);
    AllDigitsEach(x[2..], base);
    assert forall i :: 2 <= i < |x| ==> x[i] == x[2..][i - 2];
  }

  /** The literal grammar on text that starts with neither a sign nor a radix
      prefix: decimal digits or a SyntaxError. */
  lemma LiteralUnsigned(x: string, t: string)
    requires t != [] && t[0] !in "+-" && !(|t| >= 2 && t[0] == '0' && t[1] in "xXoObB")
    ensures ParseLiteral(x, t) == if AllDigits(t, 10) then Ok(Value(t, 10)) else Err(BigIntSyntaxError(x))
  {
  }

  /** Whitespace-free, non-empty text that starts with neither a sign nor a
      radix prefix is accepted exactly when every character is a decimal digit;
      its value is then the digits read in base 10. */
  lemma UnsignedLiteral(x: string)
    requires forall c :: c in x ==> !IsJsWhitespace(c)
    requires x != [] && x[0] !in "+-" && !(|x| >= 2 && x[0] == '0' && x[1] in "xXoObB")
    ensures ParseBigInt(x).Ok? <==> forall i :: 0 <= i < |x| ==> '0' <= x[i] <= '9'
    ensures ParseBigInt(x).Ok? ==> AllDigits(x, 10) && ParseBigInt(x).value == Value(x, 10)
  {
    assert x[0] in x && x[|x| - 1] in x;
    TrimUnchanged(x);
    LiteralUnsigned(x, x);
    AllDigitsEach(x, 10);
    forall i | 0 <= i < |x| ensures IsDigitIn(x[i], 10) <==> '0' <= x[i] <= '9' {
      DecimalDigitIn(x[i]);
    }
  }

  /** Whitespace-free text starting with a sign is accepted exactly when at
      least one character follows and all that follow are decimal digits; its
      value is then those digits read in base 10, negated after "-". */
  lemma SignedLiteral(x: string)
    requires forall c :: c in x ==> !IsJsWhitespace(c)
    requires x != [] && x[0] in "+-"
    ensures ParseBigInt(x).Ok? <==> |x| > 1 && forall i :: 1 <= i < |x| ==> '0' <= x[i] <= '9'
    ensures ParseBigInt(x).Ok? ==>
      AllDigits(x[1..], 10)
      && ParseBigInt(x).value == if x[0] == '-' then -(Value(x[1..], 10) as int) else Value(x[1..], 10)
  {
    assert x[0] in x && x[|x| - 1] in x;
    TrimUnchanged(x);
    var d := x[1..];
    AllDigitsEach(d, 10);
    forall i | 1 <= i < |x| ensures IsDigitIn(d[i - 1], 10) <==> '0' <= x[i] <= '9' {
      assert d[i - 1] == x[i];
      DecimalDigitIn(x[i]);
    }
  }

  /** BigInt() throws on whitespace-free text holding a character that no
      literal form allows anywhere: not a hexadecimal digit, not a radix letter
      "x"/"X"/"o"/"O", and not a sign. */
  lemma NonNumericRejected(x: string, j: nat)
    requires forall c :: c in x ==> !IsJsWhitespace(c)
    requires j < |x| && !IsHexDigit(x[j]) && x[j] !in "xXoO+-"
    ensures ParseBigInt(x).Err?
  {
    if |x| >= 2 && x[0] == '0' && x[1] in "xXoObB" {
      var base := if x[1] in "xX" then 16 else if x[1] in "oO" then 8 else 2;
      RadixLiteral(x, base);
    } else if x[0] in "+-" {
      SignedLiteral(x);
    } else {
      UnsignedLiteral(x);
    }
  }

  /** A decimal string with a trailing letter is rejected. */
  lemma TrailingLetterRejected()
    ensures ParseBigInt("12a").Err?
  {
    var x := "12a";
    UnsignedLiteral(x);
    assert !('0' <= x[2] <= '9');
  }

  /** A hexadecimal prefix with no digit, or with a non-digit after it, is
      rejected. */
  lemma BadHexRejected()
    ensures ParseBigInt("0x").Err?
    ensures ParseBigInt("0xg1").Err?
  {
    RadixLiteral("0x", 16);
    var y := "0xg1";
    RadixLiteral(y, 16);
    assert !IsHexDigit(y[2]);
  }

  /** A sign in the middle of decimal digits is rejected. */
  lemma InnerSignRejected()
    ensures ParseBigInt("1-2").Err?
  {
    var x := "1-2";
    UnsignedLiteral(x);
    assert x[1] == '-';
  }

  /** A sign is allowed only in front of decimal digits, not before a prefix. */
  lemma SignedPrefixRejected()
    ensures ParseBigInt("-0x1").Err?
  {
    var y := "-0x1";
    SignedLiteral(y);
    assert y[2] == 'x';
  }
}
