/** The part of JSON.parse that the PLONK test depends on: the text of an array
    of strings, as the calldata exporter writes it (no whitespace, no escape
    sequences). */
module JsonStrings {
  import opened Results
  import opened JsText

  /** A character that stands for itself inside a JSON string literal. */
  predicate IsPlainChar(c: char) {
    c != '"' && c != '\\' && c as int >= 0x20
  }

  predicate IsPlain(s: string) {
    forall c :: c in s ==> IsPlainChar(c)
  }

  /** The JSON string literal of a plain string. */
  function Quote(s: string): string {
    "\"" + s + "\""
  }

  function QuoteAll(xs: seq<string>): (r: seq<string>)
    ensures |r| == |xs| && forall i :: 0 <= i < |xs| ==> r[i] == Quote(xs[i])
  {
    seq(|xs|, i requires 0 <= i < |xs| => Quote(xs[i]))
  }

  /** The JSON text of an array of plain strings, written without whitespace. */
  function RenderStringArray(xs: seq<string>): string {
    "[" + Join(QuoteAll(xs), ',') + "]"
  }

  /** Reads the body of a string literal whose opening quote is already
      consumed: its plain characters up to the closing quote, and the text
      after that quote. */
  function ScanString(s: string): (r: Option<(string, string)>)
    ensures r.Some? ==> s == r.value.0 + "\"" + r.value.1 && IsPlain(r.value.0)
    decreases |s|
  {
    if s == [] then None
    else if s[0] == '"' then Some(([], s[1..]))
    else if !IsPlainChar(s[0]) then None
    else
      match ScanString(s[1..])
      case None => None
      case Some((body, rest)) =>
        assert forall c :: c in [s[0]] + body ==> c == s[0] || c in body;
        Some(([s[0]] + body, rest))
  }

  /** A non-empty comma-separated list of string literals. What it accepts is
      exactly the comma-joined literals of the plain strings it returns. */
  function ParseElements(s: string): (r: Option<seq<string>>)
    ensures r.Some? ==> |r.value| >= 1 && (forall x :: x in r.value ==> IsPlain(x))
    ensures r.Some? ==> s == Join(QuoteAll(r.value), ',')
    decreases |s|
  {
    if s == [] || s[0] != '"' then None
    else
      match ScanString(s[1..])
      case None => None
      case Some((x, rest)) =>
        assert s == "\"" + x + "\"" + rest by { assert s == [s[0]] + s[1..]; }
        if rest == [] then
          assert Join(QuoteAll([x]), ',') == Quote(x);
          Some([x])
        else if rest[0] != ',' then None
        else
          match ParseElements(rest[1..])
          case None => None
          case Some(xs) =>
            var tail := rest[1..];
            assert rest == [','] + tail;
            assert s == Quote(x) + [','] + Join(QuoteAll(xs), ',');
            QuotedCons(x, xs);
            assert forall y :: y in [x] + xs ==> y == x || y in xs;
            Some([x] + xs)
  }

  /** The rendered element list of `[x] + xs` is x's literal, a comma, and the
      rendered list of `xs`. */
  lemma QuotedCons(x: string, xs: seq<string>)
    requires |xs| >= 1
    ensures Join(QuoteAll([x] + xs), ',') == Quote(x) + [','] + Join(QuoteAll(xs), ',')
  {
    assert QuoteAll([x] + xs)[1..] == QuoteAll(xs);
  }

  /** `JSON.parse(text)` where the result must be an array of strings; `None`
      when the text is not such an array. Whatever it accepts is the rendering
      of the plain strings it returns. */
  function ParseStringArray(text: string): (r: Option<seq<string>>)
    ensures r.Some? ==> (forall x :: x in r.value ==> IsPlain(x)) && text == RenderStringArray(r.value)
  {
    if |text| < 2 || text[0] != '[' || text[|text| - 1] != ']' then None
    else
      var inner := text[1..|text| - 1];
      assert text == "[" + inner + "]";
      if inner == [] then Some([]) else ParseElements(inner)
  }

  /** The scanner stops at the first quote after a plain string. */
  lemma {:induction false} ScanQuoted(x: string, rest: string)
    requires IsPlain(x)
    ensures ScanString(x + "\"" + rest) == Some((x, rest))
    decreases |x|
  {
    var s := x + "\"" + rest;
    if x == [] {
      assert s == "\"" + rest;
      assert s[1..] == rest;
    } else {
      assert x[0] in x;
      assert s[0] == x[0];
      assert s[1..] == x[1..] + "\"" + rest;
      assert IsPlain(x[1..]) by { assert forall c :: c in x[1..] ==> c in x; }
      ScanQuoted(x[1..], rest);
      assert [x[0]] + x[1..] == x;
    }
  }

  /** The element list of a rendered array reads back as its strings. */
  lemma {:induction false} ParseQuotedElements(xs: seq<string>)
    requires |xs| >= 1 && forall x :: x in xs ==> IsPlain(x)
    ensures ParseElements(Join(QuoteAll(xs), ',')) == Some(xs)
    decreases |xs|
  {
    var q := QuoteAll(xs);
    var s := Join(q, ',');
    assert xs[0] in xs;
    if |xs| == 1 {
      assert s == "\"" + (xs[0] + "\"" + []);
      assert s[1..] == xs[0] + "\"" + [];
      ScanQuoted(xs[0], []);
      assert xs == [xs[0]];
    } else {
      var tail := Join(q[1..], ',');
      assert s == "\"" + (xs[0] + "\"" + ([','] + tail));
      assert s[1..] == xs[0] + "\"" + ([','] + tail);
      ScanQuoted(xs[0], [','] + tail);
      assert ([','] + tail)[1..] == tail;
      assert q[1..] == QuoteAll(xs[1..]);
      assert forall x :: x in xs[1..] ==> x in xs;
      ParseQuotedElements(xs[1..]);
      assert [xs[0]] + xs[1..] == xs;
    }
  }

  /** JSON.parse reads the rendered array of plain strings back as those
      strings. */
  lemma RenderParse(xs: seq<string>)
    requires forall x :: x in xs ==> IsPlain(x)
    ensures ParseStringArray(RenderStringArray(xs)) == Some(xs)
  {
    var text := RenderStringArray(xs);
    assert text[1..|text| - 1] == Join(QuoteAll(xs), ',');
    if xs != [] {
      ParseQuotedElements(xs);
    }
  }

  /** Two or more strings are rendered with a comma between the first two. */
  lemma RenderedComma(xs: seq<string>)
    ensures |xs| >= 2 ==> ',' in RenderStringArray(xs)
  {
    if |xs| >= 2 {
      var text := RenderStringArray(xs);
      QuotedCons(xs[0], xs[1..]);
      assert [xs[0]] + xs[1..] == xs;
      assert text == "[" + Quote(xs[0]) + [','] + Join(QuoteAll(xs[1..]), ',') + "]";
      assert text[1 + |Quote(xs[0])|] == ',';
    }
  }

  /** A rendered array with no comma in it holds at most one string, and that
      string has no comma either. */
  lemma CommaFreeRendering(xs: seq<string>)
    requires ',' !in RenderStringArray(xs)
    ensures |xs| <= 1 && forall x :: x in xs ==> ',' !in x
  {
    var text := RenderStringArray(xs);
    RenderedComma(xs);
    if |xs| == 1 {
      assert text == "[\"" + xs[0] + "\"]";
      forall c | c in xs[0] ensures c in text {
        var k :| 0 <= k < |xs[0]| && xs[0][k] == c;
        assert text[2 + k] == c;
      }
    }
  }

  /** An array text must end with "]": cutting it short makes it unreadable. */
  lemma UnterminatedIsRejected(text: string)
    requires text != [] && text[|text| - 1] != ']'
    ensures ParseStringArray(text) == None
  {
  }
}
