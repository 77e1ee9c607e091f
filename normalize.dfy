/** `unstringifyBigInts`: walk a JSON-like value and replace every string of
    decimal digits, or "0x" followed by hexadecimal digits, by the BigInt it
    denotes. Arrays are mapped element by element, objects key by key; null and
    every other value are returned as they are. */
module Normalize {
  import opened Digits
  import opened BigIntText

  /** The JavaScript values the walk can meet. */
  datatype Json =
    | JString(s: string)
    | JBigInt(n: int)
    | JNumber(x: real)                 // a finite IEEE double; never inspected
    | JBool(b: bool)
    | JNull
    | JUndefined
    | JArray(items: seq<Json>)
    | JObject(fields: map<string, Json>)

  /** The regular expression /^[0-9]+$/: one or more characters, each a
      decimal digit. */
  predicate IsDecimal(s: string): (b: bool)
    ensures b <==> |s| > 0 && forall i :: 0 <= i < |s| ==> '0' <= s[i] <= '9'
  {
    AllDigitsEach(s, 10);
    |s| > 0 && AllDigits(s, 10)
  }

  /** The regular expression /^0x[0-9a-fA-F]+$/: "0x" with a lower-case "x",
      then one or more hexadecimal digits of either case. */
  predicate IsHex(s: string): (b: bool)
    ensures b <==> |s| > 2 && s[0] == '0' && s[1] == 'x' && forall i :: 2 <= i < |s| ==> IsHexDigit(s[i])
  {
    if |s| <= 2 then false
    else
      AllDigitsEach(s[2..], 16);
      assert forall i :: 2 <= i < |s| ==> s[i] == s[2..][i - 2];
      s[0] == '0' && s[1] == 'x' && AllDigits(s[2..], 16)
  }

  /** The one property name that `res[k] = v` does not create as an own key:
      assigning to it calls the `Object.prototype.__proto__` setter instead. */
  const ProtoKey: string := "__proto__"

  /** `BigInt(s)` on a string that one of the two guards accepted: the base-10
      value of a decimal string, the base-16 value of the digits after "0x". */
  function BigIntOf(s: string): (n: int)
    requires IsDecimal(s) || IsHex(s)
    ensures IsDecimal(s) ==> n == Value(s, 10)
    ensures IsHex(s) ==> n == Value(s[2..], 16)
  {
    if IsDecimal(s) then ParseDecimalDigits(s); ParseBigInt(s).value
    else ParseHexDigits(s); ParseBigInt(s).value
  }

  /** No string left in `j` is one the walk would convert. */
  ghost predicate Normalized(j: Json) {
    match j
    case JString(s) => !IsDecimal(s) && !IsHex(s)
    case JArray(items) => forall i :: 0 <= i < |items| ==> Normalized(items[i])
    case JObject(fields) => ProtoKey !in fields && forall k :: k in fields ==> Normalized(fields[k])
    case _ => true
  }

  /** `r` is `o` with some of its convertible strings replaced by their BigInt
      values: arrays keep their length and order, objects their key set except
      an own "__proto__" key, which is dropped, and nothing else changes. */
  ghost predicate Rewrites(o: Json, r: Json) {
    match o
    case JString(s) => r == o || ((IsDecimal(s) || IsHex(s)) && r == JBigInt(BigIntOf(s)))
    case JArray(items) =>
      r.JArray? && |r.items| == |items|
      && forall i :: 0 <= i < |items| ==> Rewrites(items[i], r.items[i])
    case JObject(fields) =>
      r.JObject? && r.fields.Keys == fields.Keys - {ProtoKey}
      && forall k :: k in r.fields ==> Rewrites(fields[k], r.fields[k])
    case _ => r == o
  }

  /** The value `unstringifyBigInts(o)` returns. Its result rewrites `o` and
      leaves no convertible string behind. */
  function Unstringify(o: Json): (r: Json)
    ensures Rewrites(o, r) && Normalized(r)
  {
    match o
    case JString(s) =>
      if IsDecimal(s) then JBigInt(BigIntOf(s))
      else if IsHex(s) then JBigInt(BigIntOf(s))
      else o
    case JArray(items) => JArray(seq(|items|, i requires 0 <= i < |items| => Unstringify(items[i])))
    case JNull => JNull
    case JObject(fields) => JObject(map k | k in fields && k != ProtoKey :: Unstringify(fields[k]))
    case _ => o
  }

  /** `unstringifyBigInts` as the source runs it: the object branch fills a fresh
      object one key at a time. Every value is walked, but the assignment to
      "__proto__" creates no own key. */
  method UnstringifyBigInts(o: Json) returns (r: Json)
    ensures r == Unstringify(o)
    decreases o
  {
    match o {
      case JString(s) =>
        if IsDecimal(s) {
          r := JBigInt(BigIntOf(s));
        } else if IsHex(s) {
          r := JBigInt(BigIntOf(s));
        } else {
          r := o;
        }
      case JArray(items) =>
        r := JArray(seq(|items|, i requires 0 <= i < |items| => Unstringify(items[i])));
      case JNull =>
        r := JNull;
      case JObject(fields) =>
        var res: map<string, Json> := map[];
        var pending := fields.Keys;
        while pending != {}
          invariant pending <= fields.Keys
          invariant res.Keys == fields.Keys - pending - {ProtoKey}
          invariant forall k :: k in res ==> res[k] == Unstringify(fields[k])
          decreases pending
        {
          var k :| k in pending;
          var v := UnstringifyBigInts(fields[k]);
          if k != ProtoKey {
            res := res[k := v];
          }
          pending := pending - {k};
        }
        r := JObject(res);
      case _ =>
        r := o;
    }
  }

  /** A normalized value rewrites to itself. */
  lemma {:induction false} RewritesReflexive(o: Json)
    requires Normalized(o)
    ensures Rewrites(o, o)
  {
    match o
    case JArray(items) =>
      forall i | 0 <= i < |items| ensures Rewrites(items[i], items[i]) {
        RewritesReflexive(items[i]);
      }
    case JObject(fields) =>
      forall k | k in fields ensures Rewrites(fields[k], fields[k]) {
        RewritesReflexive(fields[k]);
      }
    case _ =>
  }

  /** The two properties of Unstringify's contract determine its result: it is
      the only normalized rewrite of its input. */
  lemma {:induction false} UnstringifyUnique(o: Json, r: Json)
    requires Rewrites(o, r) && Normalized(r)
    ensures r == Unstringify(o)
  {
    match o
    case JArray(items) =>
      forall i | 0 <= i < |items| ensures r.items[i] == Unstringify(items[i]) {
        UnstringifyUnique(items[i], r.items[i]);
      }
      assert r.items == Unstringify(o).items;
    case JObject(fields) =>
      forall k | k in r.fields ensures r.fields[k] == Unstringify(fields[k]) {
        UnstringifyUnique(fields[k], r.fields[k]);
      }
      assert r.fields == Unstringify(o).fields;
    case _ =>
  }

  /** A value with no convertible string and no own "__proto__" key left is
      returned unchanged. */
  lemma UnstringifyFixesNormalized(o: Json)
    requires Normalized(o)
    ensures Unstringify(o) == o
  {
    RewritesReflexive(o);
    UnstringifyUnique(o, o);
  }

  /** Normalizing twice is normalizing once: the BigInts produced are not
      strings, so a second pass finds nothing to convert. */
  lemma UnstringifyIdempotent(o: Json)
    ensures Unstringify(Unstringify(o)) == Unstringify(o)
  {
    UnstringifyFixesNormalized(Unstringify(o));
  }

  /** On a string: a decimal string becomes its base-10 value (leading zeros
      allowed), "0x" and hexadecimal digits become their base-16 value, and any
      other string is returned unchanged. */
  lemma UnstringifyString(s: string)
    ensures IsDecimal(s) ==> Unstringify(JString(s)) == JBigInt(Value(s, 10))
    ensures IsHex(s) ==> Unstringify(JString(s)) == JBigInt(Value(s[2..], 16))
    ensures !IsDecimal(s) && !IsHex(s) ==> Unstringify(JString(s)) == JString(s)
  {
  }

  /** Strings that match neither pattern pass through: the empty string, a bare
      "0x", a sign, a stray letter, an upper-case "0X" prefix, a space. */
  lemma UnconvertedStrings()
    ensures Unstringify(JString("")) == JString("")
    ensures Unstringify(JString("0x")) == JString("0x")
    ensures Unstringify(JString("-5")) == JString("-5")
    ensures Unstringify(JString("12a")) == JString("12a")
    ensures Unstringify(JString("0X1f")) == JString("0X1f")
    ensures Unstringify(JString(" 7")) == JString(" 7")
  {
    assert !AllDigits("12a", 10) by { assert !IsHexDigit("12a"[2]) || DigitValue("12a"[2]) >= 10; }
  }

  /** A decimal string with leading zeros becomes its value. */
  lemma ConvertedDecimal()
    ensures Unstringify(JString("007")) == JBigInt(7)
  {
    assert "007"[..2] == "00" && "00"[..1] == "0" && "0"[..0] == [];
    assert IsDecimal("007");
    assert Value("007", 10) == 7 by {
      assert "007"[..2] == "00" && "00"[..1] == "0" && "0"[..0] == [];
    }
  }

  /** A lower-case "0x" string becomes its hexadecimal value. */
  lemma ConvertedHex()
    ensures Unstringify(JString("0xff")) == JBigInt(255)
  {
    assert "0xff"[2..] == "ff";
    assert IsHex("0xff") && !IsDecimal("0xff");
    assert Value("ff", 16) == 255 by {
      assert "ff"[..1] == "f" && "f"[..0] == [];
    }
  }

  /** Scalars other than strings, and null, are returned unchanged. */
  lemma UnstringifyScalars(n: int, x: real, b: bool)
    ensures Unstringify(JBigInt(n)) == JBigInt(n)
    ensures Unstringify(JNumber(x)) == JNumber(x)
    ensures Unstringify(JBool(b)) == JBool(b)
    ensures Unstringify(JNull) == JNull
    ensures Unstringify(JUndefined) == JUndefined
  {
  }

  /** On an array: same length, and element i of the result is the walk of
      element i, so order is kept. */
  lemma UnstringifyArray(items: seq<Json>)
    ensures Unstringify(JArray(items)).JArray?
    ensures |Unstringify(JArray(items)).items| == |items|
    ensures forall i :: 0 <= i < |items| ==> Unstringify(JArray(items)).items[i] == Unstringify(items[i])
  {
  }

  /** On an object: the same keys except "__proto__", never converted
      themselves, each holding the walk of its original value. */
  lemma UnstringifyObject(fields: map<string, Json>)
    ensures Unstringify(JObject(fields)).JObject?
    ensures Unstringify(JObject(fields)).fields.Keys == fields.Keys - {ProtoKey}
    ensures forall k :: k in fields && k != ProtoKey ==> Unstringify(JObject(fields)).fields[k] == Unstringify(fields[k])
  {
  }

  /** An own "__proto__" key, as JSON.parse('{"__proto__":"1"}') creates, does
      not survive the walk: the result has no own keys at all. */
  lemma ProtoKeyDropped(v: Json)
    ensures Unstringify(JObject(map[ProtoKey := v])) == JObject(map[])
  {
    assert Unstringify(JObject(map[ProtoKey := v])).fields.Keys == {};
  }
}
