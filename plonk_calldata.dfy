/** The PLONK calldata handling of the test script: the exported calldata is a
    proof field and a JSON array of public signals joined by a comma; the test
    splits it on ',' and passes `argv[0]` and `JSON.parse(argv[1])` to the
    verifier. */
module PlonkCalldata {
  import opened Results
  import opened JsText
  import opened JsonStrings

  /** The calldata text for a proof field and its public signals. */
  function CalldataText(proof: string, signals: seq<string>): string {
    proof + [','] + RenderStringArray(signals)
  }

  /** Lines 136-138 as written: split on every comma, then `argv[0]` and
      `JSON.parse(argv[1])`. A missing `argv[1]` is `undefined`, which
      JSON.parse rejects. Because `argv[1]` holds no comma, a successful parse
      hands over at most one signal: the calldata starts with the proof field,
      a comma and the array text of that signal. */
  function AsWrittenArgs(calldata: string): (r: Result<(string, seq<string>)>)
    ensures ',' !in calldata ==> r == Err(JsonOfUndefined)
    ensures r.Ok? ==> ',' !in r.value.0 && |r.value.1| <= 1
    ensures r.Ok? ==> forall x :: x in r.value.1 ==> IsPlain(x) && ',' !in x
    ensures r.Ok? ==> CalldataText(r.value.0, r.value.1) <= calldata
  {
    var argv := Split(calldata, ',');
    SplitJoin(calldata, ',');
    if |argv| < 2 then Err(JsonOfUndefined)
    else
      assert Join(argv, ',') == argv[0] + [','] + Join(argv[1..], ',');
      assert argv[1..][0] == argv[1];
      assert argv[1] <= Join(argv[1..], ',');
      match ParseStringArray(argv[1])
      case None => Err(JsonSyntaxError(argv[1]))
      case Some(signals) =>
        assert argv[1] in argv;
        CommaFreeRendering(signals);
        Ok((argv[0], signals))
  }

  /** Splitting at the first comma only: the text before it and, when there is
      a comma, the whole text after it. */
  function SplitAtFirstComma(s: string): (r: (string, Option<string>))
    ensures ',' !in r.0
    ensures r.1.None? ==> r.0 == s
    ensures r.1.Some? ==> s == r.0 + [','] + r.1.value
  {
    var parts := Split(s, ',');
    SplitJoin(s, ',');
    if |parts| == 1 then (parts[0], None)
    else
      assert Join(parts, ',') == parts[0] + [','] + Join(parts[1..], ',');
      (parts[0], Some(Join(parts[1..], ',')))
  }

  /** The verifier arguments with the signal array kept whole: the proof field
      is the text before the first comma and the signals are everything after it.
      Whatever it accepts is exactly the calldata of the proof field and signals
      it returns. */
  function Args(calldata: string): (r: Result<(string, seq<string>)>)
    ensures ',' !in calldata ==> r == Err(JsonOfUndefined)
    ensures r.Ok? ==> ',' !in r.value.0 && (forall x :: x in r.value.1 ==> IsPlain(x))
    ensures r.Ok? ==> calldata == CalldataText(r.value.0, r.value.1)
  {
    var (proof, rest) := SplitAtFirstComma(calldata);
    match rest
    case None => Err(JsonOfUndefined)
    case Some(text) =>
      match ParseStringArray(text)
      case None => Err(JsonSyntaxError(text))
      case Some(signals) => Ok((proof, signals))
  }

  /** Splitting at the first comma of a comma-free head followed by a comma
      gives the head and the rest. */
  lemma SplitAtFirstCommaOf(head: string, rest: string)
    requires ',' !in head
    ensures SplitAtFirstComma(head + [','] + rest) == (head, Some(rest))
  {
    SplitAtFirst(head, rest, ',');
    var parts := Split(head + [','] + rest, ',');
    assert parts[1..] == Split(rest, ',');
    SplitJoin(rest, ',');
  }

  /** The corrected parse inverts the calldata layout for any number of public
      signals: the verifier gets the proof field and every signal, in order. */
  lemma ArgsRoundTrip(proof: string, signals: seq<string>)
    requires ',' !in proof
    requires forall x :: x in signals ==> IsPlain(x)
    ensures Args(CalldataText(proof, signals)) == Ok((proof, signals))
  {
    SplitAtFirstCommaOf(proof, RenderStringArray(signals));
    RenderParse(signals);
  }

  /** As written, the parse is right for the single public signal of the
      circuits under test (and for none): the signal array holds no comma. */
  lemma AsWrittenSingleSignal(proof: string, signals: seq<string>)
    requires ',' !in proof && |signals| <= 1
    requires forall x :: x in signals ==> IsPlain(x) && ',' !in x
    ensures AsWrittenArgs(CalldataText(proof, signals)) == Ok((proof, signals))
  {
    var text := RenderStringArray(signals);
    assert ',' !in text by {
      if |signals| == 1 {
        assert signals[0] in signals;
        assert text == "[\"" + signals[0] + "\"]";
      } else {
        assert text == "[]";
      }
    }
    SplitPrepend(proof, [','] + text, ',');
    SplitAtFirst(proof, text, ',');
    SplitPrepend(text, [], ',');
    assert text + [] == text;
    assert Split(CalldataText(proof, signals), ',') == [proof, text];
    RenderParse(signals);
  }

  /** As written, two or more public signals break the parse: `argv[1]` is only
      `["` + first signal + `"`, which is not a JSON array, so JSON.parse throws. */
  lemma AsWrittenManySignals(proof: string, signals: seq<string>)
    requires ',' !in proof && |signals| >= 2
    requires ',' !in signals[0]
    ensures AsWrittenArgs(CalldataText(proof, signals)) == Err(JsonSyntaxError("[" + Quote(signals[0])))
  {
    var q := QuoteAll(signals);
    var first := "[" + Quote(signals[0]);
    var tail := Join(q[1..], ',') + "]";
    assert RenderStringArray(signals) == first + [','] + tail;
    assert ',' !in first;
    SplitAtFirst(proof, first + [','] + tail, ',');
    SplitAtFirst(first, tail, ',');
    assert CalldataText(proof, signals) == proof + [','] + (first + [','] + tail);
    var argv := Split(CalldataText(proof, signals), ',');
    assert argv[1] == first;
    UnterminatedIsRejected(first);
  }

  /** A concrete instance: the calldata `0xab,["0x01","0x02"]` makes the
      as-written parse fail on `["0x01"`, while the first-comma parse hands
      both signals to the verifier. */
  lemma TwoSignalsExample()
    ensures AsWrittenArgs(CalldataText("0xab", ["0x01", "0x02"])) == Err(JsonSyntaxError("[" + Quote("0x01")))
    ensures Args(CalldataText("0xab", ["0x01", "0x02"])) == Ok(("0xab", ["0x01", "0x02"]))
  {
    var signals := ["0x01", "0x02"];
    assert ',' !in "0xab";
    assert ',' !in signals[0];
    assert forall x :: x in signals ==> IsPlain(x);
    AsWrittenManySignals("0xab", signals);
    ArgsRoundTrip("0xab", signals);
  }
}
