/** The Groth16 calldata parser of the test script: remove quotes, brackets and
    whitespace, split on commas, rewrite every token as `BigInt(x).toString()`,
    then hand out the flat list as the verifier's positional arguments `a` (2
    values), `b` (a 2x2 matrix), `c` (2 values) and `Input` (the rest). */
module Groth16Calldata {
  import opened Results
  import opened Digits
  import opened JsText
  import opened BigIntText

  /** The characters the regular expression /["[\]\s]/g removes. None of them
      can occur in a BigInt literal or separate two tokens: digits, the radix
      letters, signs and commas are all kept. */
  predicate IsStripped(c: char): (b: bool)
    ensures b ==> !IsHexDigit(c) && c !in "xXoO+-,"
  {
    c == '"' || c == '[' || c == ']' || IsJsWhitespace(c)
  }

  /** `calldata.replace(/["[\]\s]/g, "")`: every stripped character removed,
      every other character kept. */
  function Strip(s: string): (r: string)
    ensures forall c :: c in r ==> !IsStripped(c) && c in s
  {
    if s == [] then []
    else if IsStripped(s[0]) then Strip(s[1..])
    else [s[0]] + Strip(s[1..])
  }

  /** The comma-separated tokens left after stripping: none holds a comma, a
      quote, a bracket or whitespace. */
  function Tokens(calldata: string): (r: seq<string>)
    ensures |r| >= 1
    ensures forall t, c :: t in r && c in t ==> c != ',' && !IsStripped(c)
  {
    Split(Strip(calldata), ',')
  }

  /** `tokens.map(x => BigInt(x).toString())`. It succeeds exactly when
      BigInt() accepts every token (Canonicalize fails exactly when BigInt()
      does), and then entry i is token i canonicalised. */
  function Argv(tokens: seq<string>): (r: Result<seq<string>>)
    ensures r.Ok? <==> forall i :: 0 <= i < |tokens| ==> Canonicalize(tokens[i]).Ok?
    ensures r.Ok? ==> |r.value| == |tokens|
    ensures r.Ok? ==> forall i :: 0 <= i < |tokens| ==> r.value[i] == Canonicalize(tokens[i]).value
    decreases |tokens|
  {
    if tokens == [] then Ok([])
    else
      var head := Canonicalize(tokens[0]);
      var rest := tokens[1..];
      assert forall i :: 1 <= i < |tokens| ==> tokens[i] == rest[i - 1];
      if head.Err? then Err(head.error)
      else
        var tail := Argv(rest);
        if tail.Err? then
          assert exists i :: 1 <= i < |tokens| && Canonicalize(tokens[i]).Err? by {
            var i :| 0 <= i < |rest| && Canonicalize(rest[i]).Err?;
            assert tokens[i + 1] == rest[i];
          }
          tail
        else
          var r := [head.value] + tail.value;
          assert r[1..] == tail.value;
          Ok(r)
  }

  /** When Argv fails, the error is the SyntaxError of the first token BigInt()
      rejects, as `map` stops at the first exception. */
  lemma {:induction false} ArgvFirstError(tokens: seq<string>) returns (i: nat)
    requires Argv(tokens).Err?
    ensures i < |tokens| && ParseBigInt(tokens[i]).Err?
    ensures forall j :: 0 <= j < i ==> ParseBigInt(tokens[j]).Ok?
    ensures Argv(tokens).error == BigIntSyntaxError(tokens[i])
    decreases |tokens|
  {
    if ParseBigInt(tokens[0]).Err? {
      i := 0;
    } else {
      assert Argv(tokens) == Argv(tokens[1..]);
      assert Argv(tokens[1..]).Err?;
      var k := ArgvFirstError(tokens[1..]);
      i := k + 1;
      assert tokens[i] == tokens[1..][k];
      forall j | 1 <= j < i ensures ParseBigInt(tokens[j]).Ok? {
        assert tokens[j] == tokens[1..][j - 1];
      }
    }
  }

  /** A JavaScript array element: `argv[i]` beyond the end is `undefined`. */
  datatype Slot = Defined(text: string) | Undefined

  function At(argv: seq<string>, i: nat): (s: Slot)
    ensures s.Defined? <==> i < |argv|
  {
    if i < |argv| then Defined(argv[i]) else Undefined
  }

  /** The four positional arguments of `verifyProof(a, b, c, Input)`. */
  datatype Groth16Args = Groth16Args(a: seq<Slot>, b: seq<seq<Slot>>, c: seq<Slot>, input: seq<string>)

  /** The positional split of lines 52-55: entries 0 and 1 form `a`, entries
      2 to 5 form the two rows of `b`, entries 6 and 7 form `c`, and every entry
      from 8 on goes to `Input`. A missing entry is `undefined`. */
  function Partition(argv: seq<string>): (r: Groth16Args)
    ensures |r.a| == 2 && |r.b| == 2 && |r.b[0]| == 2 && |r.b[1]| == 2 && |r.c| == 2
    ensures |r.input| == if |argv| >= 8 then |argv| - 8 else 0
  {
    Groth16Args(
      [At(argv, 0), At(argv, 1)],
      [[At(argv, 2), At(argv, 3)], [At(argv, 4), At(argv, 5)]],
      [At(argv, 6), At(argv, 7)],
      if |argv| >= 8 then argv[8..] else [])
  }

  function Defineds(xs: seq<string>): (r: seq<Slot>)
    ensures |r| == |xs| && forall i :: 0 <= i < |xs| ==> r[i] == Defined(xs[i])
  {
    seq(|xs|, i requires 0 <= i < |xs| => Defined(xs[i]))
  }

  /** The arguments read back in positional order: `a ++ b[0] ++ b[1] ++ c ++ Input`. */
  function Flatten(args: Groth16Args): seq<Slot>
    requires |args.b| == 2
  {
    args.a + args.b[0] + args.b[1] + args.c + Defineds(args.input)
  }

  /** Reading the partition back in order gives `argv` itself, with `undefined`
      in the places the first eight would be when `argv` is shorter than eight. */
  lemma PartitionShape(argv: seq<string>)
    ensures var f := Flatten(Partition(argv));
      |f| == (if |argv| >= 8 then |argv| else 8) && forall i :: 0 <= i < |f| ==> f[i] == At(argv, i)
  {
    var f := Flatten(Partition(argv));
    forall i | 8 <= i < |f| ensures f[i] == At(argv, i) {
      assert f[i] == Defineds(argv[8..])[i - 8];
    }
  }

  /** With at least eight entries nothing is undefined, the concatenation is
      exactly `argv`, and `Input` has the remaining |argv| - 8 entries. */
  lemma PartitionRoundTrip(argv: seq<string>)
    requires |argv| >= 8
    ensures Flatten(Partition(argv)) == Defineds(argv)
    ensures |Partition(argv).input| == |argv| - 8
  {
    PartitionShape(argv);
  }

  /** With fewer than eight entries, `Input` is empty and exactly the slots
      from position |argv| on are undefined. */
  lemma PartitionShort(argv: seq<string>)
    requires |argv| < 8
    ensures Partition(argv).input == []
    ensures forall i :: 0 <= i < 8 ==> (Flatten(Partition(argv))[i].Undefined? <==> i >= |argv|)
  {
    PartitionShape(argv);
  }

  /** Lines 50-55 together: the verifier arguments for an exported calldata
      string, or the SyntaxError BigInt() raises on a malformed token. On
      success, the arguments read in order hold every token canonicalised, in
      token order, then `undefined` up to the eighth slot. On failure, the
      error names a token that BigInt() rejects. */
  function ParseGroth16(calldata: string): (r: Result<Groth16Args>)
    ensures r.Ok? ==> |r.value.b| == 2
    ensures r.Ok? ==> var tokens := Tokens(calldata); var f := Flatten(r.value);
      |f| == (if |tokens| >= 8 then |tokens| else 8)
      && (forall i :: 0 <= i < |tokens| ==> Canonicalize(tokens[i]).Ok? && f[i] == Defined(Canonicalize(tokens[i]).value))
      && (forall i :: |tokens| <= i < |f| ==> f[i] == Undefined)
    ensures r.Err? ==>
      (exists i :: 0 <= i < |Tokens(calldata)| && ParseBigInt(Tokens(calldata)[i]).Err? && r.error == BigIntSyntaxError(Tokens(calldata)[i]))
  {
    var tokens := Tokens(calldata);
    match Argv(tokens)
    case Err(e) =>
      assert exists i :: 0 <= i < |tokens| && ParseBigInt(tokens[i]).Err? && e == BigIntSyntaxError(tokens[i]) by {
        var i := ArgvFirstError(tokens);
      }
      Err(e)
    case Ok(argv) =>
      PartitionShape(argv);
      Ok(Partition(argv))
  }

  /** Line 50 throws on calldata with a token holding a character that no
      BigInt literal allows: not a hexadecimal digit, not a radix letter and not
      a sign. Such a token is rejected, and `map` propagates the SyntaxError. */
  lemma NonNumericTokenThrows(calldata: string, i: nat, j: nat)
    requires i < |Tokens(calldata)| && j < |Tokens(calldata)[i]|
    requires !IsHexDigit(Tokens(calldata)[i][j]) && Tokens(calldata)[i][j] !in "xXoO+-"
    ensures ParseGroth16(calldata).Err?
  {
    var tokens := Tokens(calldata);
    var t := tokens[i];
    assert t in tokens;
    assert forall c :: c in t ==> !IsJsWhitespace(c);
    NonNumericRejected(t, j);
  }

  /** Stripping distributes over concatenation. */
  lemma {:induction false} StripConcat(x: string, y: string)
    ensures Strip(x + y) == Strip(x) + Strip(y)
    decreases |x|
  {
    if x == [] {
      assert x + y == y;
    } else {
      assert (x + y)[0] == x[0];
      assert (x + y)[1..] == x[1..] + y;
      StripConcat(x[1..], y);
      if IsStripped(x[0]) {
        assert Strip(x + y) == Strip(x[1..] + y);
        assert Strip(x) == Strip(x[1..]);
      } else {
        assert Strip(x + y) == [x[0]] + Strip(x[1..] + y);
        assert Strip(x) == [x[0]] + Strip(x[1..]);
        assert [x[0]] + (Strip(x[1..]) + Strip(y)) == [x[0]] + Strip(x[1..]) + Strip(y);
      }
    }
  }

  /** Stripping leaves text with nothing to strip unchanged, so it is idempotent. */
  lemma {:induction false} StripKeeps(s: string)
    requires forall c :: c in s ==> !IsStripped(c)
    ensures Strip(s) == s
    decreases |s|
  {
    if s != [] {
      assert s[0] in s;
      assert forall c :: c in s[1..] ==> c in s;
      StripKeeps(s[1..]);
    }
  }

  /** Stripping keeps the commas, so it commutes with joining on commas. */
  lemma {:induction false} StripJoin(pieces: seq<string>)
    ensures Strip(Join(pieces, ',')) == Join(seq(|pieces|, i requires 0 <= i < |pieces| => Strip(pieces[i])), ',')
    decreases |pieces|
  {
    var stripped := seq(|pieces|, i requires 0 <= i < |pieces| => Strip(pieces[i]));
    if |pieces| > 1 {
      StripJoin(pieces[1..]);
      StripConcat(pieces[0] + [','], Join(pieces[1..], ','));
      StripConcat(pieces[0], [',']);
      assert Strip([',']) == [','];
      assert stripped[1..] == seq(|pieces| - 1, i requires 0 <= i < |pieces| - 1 => Strip(pieces[1..][i]));
    }
  }

  /** The calldata layout: comma-separated pieces, each a token wrapped in quotes,
      brackets and whitespace, yield exactly those tokens, one per piece. */
  lemma TokensOfPieces(pieces: seq<string>)
    requires |pieces| >= 1
    requires forall p :: p in pieces ==> ',' !in p
    ensures Tokens(Join(pieces, ',')) == seq(|pieces|, i requires 0 <= i < |pieces| => Strip(pieces[i]))
  {
    var stripped := seq(|pieces|, i requires 0 <= i < |pieces| => Strip(pieces[i]));
    StripJoin(pieces);
    forall p | p in stripped ensures ',' !in p {
      var i :| 0 <= i < |pieces| && p == Strip(pieces[i]);
      assert pieces[i] in pieces;
    }
    JoinSplit(stripped, ',');
  }

  /** End to end: when every piece of the calldata carries a value BigInt()
      accepts, the verifier receives the canonical decimal renderings of those
      values, in order, partitioned as the verifier expects. */
  lemma ParsePieces(pieces: seq<string>, values: seq<int>)
    requires |pieces| >= 1 && |values| == |pieces|
    requires forall p :: p in pieces ==> ',' !in p
    requires forall i :: 0 <= i < |pieces| ==> ParseBigInt(Strip(pieces[i])) == Ok(values[i])
    ensures ParseGroth16(Join(pieces, ',')) == Ok(Partition(Rendered(values)))
  {
    TokensOfPieces(pieces);
    var tokens := Tokens(Join(pieces, ','));
    assert forall i :: 0 <= i < |tokens| ==> ParseBigInt(tokens[i]) == Ok(values[i]);
    var argv := Argv(tokens);
    assert argv.Ok?;
    forall i | 0 <= i < |values| ensures argv.value[i] == Rendered(values)[i] {
      CanonicalRoundTrip(argv.value[i]);
    }
    assert argv.value == Rendered(values);
  }

  /** The canonical decimal renderings of `values`. */
  function Rendered(values: seq<int>): (r: seq<string>)
    ensures |r| == |values| && forall i :: 0 <= i < |values| ==> r[i] == ToString(values[i])
  {
    seq(|values|, i requires 0 <= i < |values| => ToString(values[i]))
  }

  /** With no public signals the exported calldata ends in an empty array "[]":
      stripping leaves an empty last token, BigInt("") is 0, and so `Input`
      comes out as ["0"] rather than empty. */
  lemma EmptySignalArrayGivesZeroInput(pieces: seq<string>)
    requires |pieces| == 9 && pieces[8] == "[]"
    requires forall p :: p in pieces ==> ',' !in p
    requires ParseGroth16(Join(pieces, ',')).Ok?
    ensures ParseGroth16(Join(pieces, ',')).value.input == ["0"]
  {
    TokensOfPieces(pieces);
    var tokens := Tokens(Join(pieces, ','));
    EmptyTokenIsZero();
    assert tokens[8] == Strip("[]");
    var argv := Argv(tokens).value;
    assert argv[8] == ToString(0) == "0";
    assert argv[8..] == ["0"];
  }

  /** An empty array "[]" strips to the empty token, which BigInt() reads as 0. */
  lemma EmptyTokenIsZero()
    ensures ParseBigInt(Strip("[]")) == Ok(0)
  {
    assert Strip("[]") == "" by {
      assert "[]"[1..] == "]" && "]"[1..] == "";
    }
  }
}
