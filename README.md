# Proof marshalling of the week-1 zk test script, in Dafny

The test script `Q2/test/test.js` asks an external prover for Groth16 and PLONK
proofs, converts them, and hands them to generated Solidity verifiers. This
project models the three parts of the script that hold logic of their own:

- **`unstringifyBigInts`** (lines 7-25) walks a JSON-like value. It replaces
  every string of decimal digits, and every string `0x` followed by
  hexadecimal digits, by the BigInt it denotes. Arrays are mapped element by
  element. Objects are rebuilt key by key in a loop. `null` and every other
  value are returned unchanged. Module `Normalize` (`normalize.dfy`) has
  `Unstringify` as the pure specification and `UnstringifyBigInts` as the
  method. In the method, the object branch is the `forEach` loop that fills
  `res`, and a loop invariant covers the keys processed so far.
- **The Groth16 calldata parser** (lines 50-55; lines 93-98 are the same code).
  It removes `"`, `[`, `]` and whitespace, splits on `,`, and rewrites every
  token as `BigInt(x).toString()`. Then it cuts the flat list into `a`, `b`
  (2x2), `c` and `Input`. Module `Groth16Calldata` (`groth16_calldata.dfy`).
- **The PLONK calldata split** (lines 136-138). It splits on `,` and passes
  `argv[0]` and `JSON.parse(argv[1])` to the verifier. Module `PlonkCalldata`
  (`plonk_calldata.dfy`).

Supporting modules model the JavaScript primitives these rely on:
- `Digits`: the digit classes and positional values.
- `JsText`: the `\s` class and `String.prototype.split`. It also defines
  `Join` (`Array.prototype.join`), which the script never calls; it exists
  only to state the round trips of `split`.
- `BigIntText`: `BigInt(string)` as ECMAScript's StringToBigInt defines it, and
  `BigInt.prototype.toString()`.
- `JsonStrings`: JSON arrays of strings.
- `Results`: the thrown exceptions, modelled as `Err` values.

Three behaviours of the code are worth knowing before reading the model:
- Line 136 splits the PLONK calldata at every comma, not only at the first
  one (see Findings).
- With fewer than eight Groth16 tokens nothing throws: the missing `argv[i]`
  are `undefined` (`Slot.Undefined`), and `BigInt("")` is 0, so an empty token
  does not throw either.
- Line 19 assigns `res[k]` as a JavaScript property. For the key `"__proto__"`
  this calls the `Object.prototype.__proto__` setter and creates no own key,
  so the walk drops an own `"__proto__"` key (`Normalize.ProtoKey`).

## Model

| member | source | states |
|---|---|---|
| Digits.DigitValue | Q2/test/test.js:10 | a `[0-9a-fA-F]` character has a value below 16; the value is below 10 exactly for `[0-9]` and 0 exactly for `'0'` |
| Digits.ToDecimal | Q2/test/test.js:50 | `toString()` of a non-negative BigInt is a canonical decimal (no leading zero except "0") that denotes that number |
| Digits.CanonicalDecimalRoundTrip | Q2/test/test.js:50 | every canonical decimal string is the rendering of its own value, so rendering is a bijection onto canonical strings |
| JsText.Split | Q2/test/test.js:50 | `split(sep)` yields at least one piece; no piece holds the separator; every character of a piece comes from the input |
| JsText.SplitJoin | Q2/test/test.js:136 | joining the pieces of a split with the separator rebuilds the original string |
| JsText.JoinSplit | Q2/test/test.js:50 | splitting the join of a non-empty list of separator-free parts gives the parts back |
| BigIntText.ParseBigInt | Q2/test/test.js:9 | `BigInt(x)` on a string: a rejected string throws a SyntaxError naming it. Which whitespace-free strings are accepted, and their values, is stated in both directions by RadixLiteral, UnsignedLiteral and SignedLiteral; `BigInt("")` is 0 by EmptyTokenIsZero |
| BigIntText.RadixLiteral | Q2/test/test.js:50 | whitespace-free text with a `0x`/`0X`, `0o`/`0O` or `0b`/`0B` prefix is accepted exactly when at least one digit follows and all that follow are digits of that base; the value is those digits in that base |
| BigIntText.UnsignedLiteral | Q2/test/test.js:50 | whitespace-free, non-empty text with no sign and no radix prefix is accepted exactly when every character is in `0`-`9`; the value is its base-10 reading |
| BigIntText.SignedLiteral | Q2/test/test.js:50 | whitespace-free text starting with `+` or `-` is accepted exactly when one or more decimal digits follow and nothing else; the value is their base-10 reading, negated after `-` |
| BigIntText.NonNumericRejected | Q2/test/test.js:50 | whitespace-free text holding a character that is not a hex digit, not `x`/`X`/`o`/`O` and not a sign is rejected |
| BigIntText.TrailingLetterRejected | Q2/test/test.js:50 | `BigInt("12a")` throws |
| BigIntText.BadHexRejected | Q2/test/test.js:50 | `BigInt("0x")` and `BigInt("0xg1")` throw |
| BigIntText.InnerSignRejected | Q2/test/test.js:50 | `BigInt("1-2")` throws |
| BigIntText.SignedPrefixRejected | Q2/test/test.js:50 | `BigInt("-0x1")` throws: a sign is allowed only before decimal digits |
| BigIntText.Canonicalize | Q2/test/test.js:50 | `BigInt(x).toString()` throws exactly when `BigInt(x)` does; otherwise it is canonical and `BigInt()` reads it back as the value of `x` |
| BigIntText.ToString | Q2/test/test.js:50 | `n.toString()` is a canonical decimal, with "-" only before a nonzero magnitude |
| BigIntText.ParseToString | Q2/test/test.js:50 | `BigInt(n.toString())` is `n` for every integer `n` |
| BigIntText.CanonicalRoundTrip | Q2/test/test.js:50 | `BigInt()` accepts every canonical integer string and `toString()` of its value is the same string |
| BigIntText.CanonicalizeIdempotent | Q2/test/test.js:50 | `BigInt(BigInt(x).toString()).toString()` equals `BigInt(x).toString()` |
| BigIntText.ParseDecimalDigits | Q2/test/test.js:8-9 | `BigInt(s)` on decimal digits, leading zeros allowed, is their base-10 value |
| BigIntText.ParseHexDigits | Q2/test/test.js:10-11 | `BigInt(s)` on `0x` followed by hexadecimal digits is their base-16 value |
| BigIntText.ParseNegative | Q2/test/test.js:50 | `BigInt("-" + digits)` is the negated base-10 value of the digits |
| Normalize.IsDecimal | Q2/test/test.js:8 | `/^[0-9]+$/` holds exactly for a non-empty string whose every character is in `0`-`9` |
| Normalize.IsHex | Q2/test/test.js:10 | `/^0x[0-9a-fA-F]+$/` holds exactly for `0x` (lower-case `x`) followed by one or more characters of `[0-9a-fA-F]` |
| Normalize.BigIntOf | Q2/test/test.js:8-11 | the `BigInt(o)` calls behind the two guards give the base-10 value of a decimal string and the base-16 value of the digits after `0x` |
| Normalize.Unstringify | Q2/test/test.js:7-25 | the result rewrites the input: only convertible strings change, each into its BigInt value; arrays keep length and order; objects keep their key set except an own `"__proto__"`, which line 19's assignment does not create. The result is normalized: no convertible string and no own `"__proto__"` is left |
| Normalize.UnstringifyBigInts | Q2/test/test.js:7-25 | the method, with the object loop of lines 16-20, returns exactly `Unstringify(o)` |
| Normalize.UnstringifyUnique | Q2/test/test.js:7-25 | any normalized rewrite of `o` equals `Unstringify(o)`, so the two properties above determine the walk |
| Normalize.UnstringifyFixesNormalized | Q2/test/test.js:7-25 | a value with no convertible string and no own `"__proto__"` key left is returned unchanged |
| Normalize.UnstringifyIdempotent | Q2/test/test.js:7-25 | applying the walk twice equals applying it once |
| Normalize.UnstringifyString | Q2/test/test.js:8-23 | a decimal string becomes its base-10 value, a `0x` hex string its base-16 value, and any other string is unchanged |
| Normalize.UnconvertedStrings | Q2/test/test.js:8-23 | `""`, `"0x"`, `"-5"`, `"12a"`, `"0X1f"` and `" 7"` are returned unchanged |
| Normalize.ConvertedDecimal | Q2/test/test.js:8-9 | `"007"` becomes the BigInt 7 |
| Normalize.ConvertedHex | Q2/test/test.js:10-11 | `"0xff"` becomes the BigInt 255 |
| Normalize.UnstringifyScalars | Q2/test/test.js:14-23 | BigInts, numbers, booleans, `null` and `undefined` are returned unchanged |
| Normalize.UnstringifyArray | Q2/test/test.js:12-13 | on an array the result has the same length and element i is the walk of element i |
| Normalize.UnstringifyObject | Q2/test/test.js:14-21 | on an object the result has the same keys except `"__proto__"`, unconverted, each holding the walk of its original value |
| Normalize.ProtoKeyDropped | Q2/test/test.js:16-21 | an object whose only own key is `"__proto__"` comes back with no own keys |
| Groth16Calldata.IsStripped | Q2/test/test.js:50 | the class `["[\]\s]` removes no digit, no radix letter (`x`, `o`, `b` in either case), no sign and no comma |
| Groth16Calldata.Strip | Q2/test/test.js:50 | after the `replace`, no `"`, `[`, `]` or whitespace is left, and every remaining character comes from the calldata |
| Groth16Calldata.StripConcat | Q2/test/test.js:50 | stripping distributes over concatenation |
| Groth16Calldata.StripKeeps | Q2/test/test.js:50 | text with nothing to strip is unchanged, so stripping is idempotent |
| Groth16Calldata.StripJoin | Q2/test/test.js:50 | stripping keeps commas, so it commutes with joining pieces on `,` |
| Groth16Calldata.Tokens | Q2/test/test.js:50 | there is at least one token, and no token holds a comma, a quote, a bracket or whitespace |
| Groth16Calldata.TokensOfPieces | Q2/test/test.js:50 | comma-joined pieces yield exactly one token per piece: the piece without its quotes, brackets and whitespace |
| Groth16Calldata.Argv | Q2/test/test.js:50 | the `map` succeeds exactly when `BigInt()` accepts every token; then it has one entry per token, and entry i is `Canonicalize` of token i, so it is canonical and reads back as token i's value |
| Groth16Calldata.NonNumericTokenThrows | Q2/test/test.js:50 | calldata with a token holding a character that is not a hex digit, not `x`/`X`/`o`/`O` and not a sign makes line 50 throw |
| Groth16Calldata.ArgvFirstError | Q2/test/test.js:50 | on failure, the error is the SyntaxError of the first token `BigInt()` rejects; every earlier token was accepted |
| Groth16Calldata.At | Q2/test/test.js:52-54 | `argv[i]` is defined exactly when `i < argv.length`, and `undefined` otherwise |
| Groth16Calldata.Partition | Q2/test/test.js:52-55 | `a`, each row of `b`, and `c` have two entries and `b` has two rows; `Input` has `argv.length - 8` entries, or none when `argv` is shorter |
| Groth16Calldata.PartitionShape | Q2/test/test.js:52-55 | reading `a ++ b[0] ++ b[1] ++ c ++ Input` gives `argv[i]` at every position, `undefined` where `argv` is too short |
| Groth16Calldata.PartitionRoundTrip | Q2/test/test.js:52-55 | with at least eight entries the concatenation is exactly `argv`, and `Input` has `argv.length - 8` entries |
| Groth16Calldata.PartitionShort | Q2/test/test.js:52-55 | with fewer than eight entries `Input` is empty, and exactly the slots from `argv.length` on are `undefined` |
| Groth16Calldata.ParseGroth16 | Q2/test/test.js:50-55 | on success, the arguments read in order hold token i canonicalised at position i and `undefined` from the last token up to the eighth slot; on failure, the error is the SyntaxError of a token `BigInt()` rejects |
| Groth16Calldata.ParsePieces | Q2/test/test.js:50-55 | calldata whose comma-separated pieces each carry a value that `BigInt()` accepts parses to the partition of those values' canonical renderings, in order |
| Groth16Calldata.EmptyTokenIsZero | Q2/test/test.js:50 | an empty array `[]` strips to the empty token, and `BigInt("")` is 0 |
| Groth16Calldata.EmptySignalArrayGivesZeroInput | Q2/test/test.js:50-55 | calldata with an empty public-signal array `[]` yields `Input == ["0"]`, not an empty list |
| JsonStrings.ScanString | Q2/test/test.js:138 | a scanned string literal splits its text into a plain body, the closing quote and the rest |
| JsonStrings.ParseStringArray | Q2/test/test.js:138 | whatever `JSON.parse` accepts as an array of strings is exactly the rendering of the plain strings it returns; RenderParse is the converse |
| JsonStrings.ParseQuotedElements | Q2/test/test.js:138 | the comma-joined literals of plain strings read back as those strings |
| JsonStrings.RenderParse | Q2/test/test.js:138 | `JSON.parse` of the array text of plain strings gives those strings |
| JsonStrings.UnterminatedIsRejected | Q2/test/test.js:138 | a text that does not end in `]` is not an array |
| PlonkCalldata.AsWrittenArgs | Q2/test/test.js:136-138 | calldata without a comma throws (`JSON.parse(undefined)`); a success hands over a comma-free proof field and at most one comma-free signal, and the calldata starts with exactly their calldata text |
| PlonkCalldata.SplitAtFirstComma | Q2/test/test.js:136 | the head holds no comma; with no comma the head is the whole text; otherwise head, comma and tail rebuild the text |
| PlonkCalldata.SplitAtFirstCommaOf | Q2/test/test.js:136 | a comma-free head followed by a comma splits into that head and the whole rest |
| PlonkCalldata.Args | Q2/test/test.js:136-138 | the first-comma parse: calldata without a comma throws; a success returns a comma-free proof field and plain signals whose calldata text is the whole input |
| PlonkCalldata.ArgsRoundTrip | Q2/test/test.js:136-138 | splitting at the first comma gives the verifier the proof field and every public signal, in order, for any number of signals |
| PlonkCalldata.AsWrittenSingleSignal | Q2/test/test.js:136-138 | as written, with at most one comma-free public signal the verifier gets the proof field and the signals |
| PlonkCalldata.AsWrittenManySignals | Q2/test/test.js:136-138 | as written, two or more signals make `argv[1]` the unterminated text `["` + first signal + `"`, and `JSON.parse` fails on it |
| PlonkCalldata.TwoSignalsExample | Q2/test/test.js:136-138 | on `0xab,["0x01","0x02"]` the as-written parse fails on `["0x01"`, and the first-comma parse yields both signals |

## Left out

- `groth16.fullProve`, `plonk.fullProve` and both `exportSolidityCallData` calls (lines 40, 48, 83, 91, 126, 134): the external prover and exporter, which are cryptographic and not part of this model. The calldata layout they produce appears only as an assumption: comma-joined pieces in `Groth16Calldata.ParsePieces`, and `PlonkCalldata.CalldataText`.
- Contract deployment, `verifier.verifyProof` and its true/false outcomes, and the invalid-proof tests (lines 31-35, 57-67, 75-79, 100-110, 118-122, 138-146): on-chain pairing and PLONK verification inside generated Solidity that is not part of this model.
- `console.log`, the mocha `describe`/`it`/`beforeEach` scaffolding, async/await, and the `chai`, `hardhat`, `fs` and `snarkjs` imports: I/O and test plumbing.
- JSON.parse is modelled only for arrays of strings written without whitespace and without escape sequences (`JsonStrings.ParseStringArray`). Other texts are treated as not an array of strings, although JSON.parse accepts some of them.
- Normalize.Unstringify, Normalize.UnstringifyBigInts, Normalize.UnstringifyObject: when an own `"__proto__"` value is an object (or null), line 19's assignment makes it the prototype of `res`. The model drops the key but does not record the prototype link, so properties inherited through it are not modelled.
- BigIntText.ParseBigInt: acceptance is characterised by lemmas only for whitespace-free text and the empty string. These cover every token line 50 produces, since stripping removes all whitespace. Text with leading or trailing whitespace is handled by the model (it is trimmed first) but has no lemma of its own.
- Object property order: objects are `map<string, Json>`. The order of `Object.keys` and of the rebuilt object's keys is not modelled. The loop of lines 18-20 visits the keys in an arbitrary order, which cannot change the resulting map.
- Only plain objects are modelled among the values for which `typeof` is `"object"`. Boxed strings, dates and other class instances are not values of `Json`.
- Only finite JavaScript numbers are represented, as `real`; NaN, the infinities and -0 have no counterpart. This is harmless, because the walk never inspects a number and returns it unchanged.
- JavaScript strings are UTF-16 code units; the model uses Unicode scalar values. This is the same for every character class used here: digits, hex letters, `"`, `[`, `]`, `,` and the `\s` whitespace set.

## Findings

| source | as written | input that shows it | evidently intended | confidence | as-written member | corrected member |
|---|---|---|---|---|---|---|
| Q2/test/test.js:136-138 | `calldata.split(',')` splits at every comma, and `argv[1]` is passed to `JSON.parse` | `0xab,["0x01","0x02"]` (two public signals): `argv[1]` is `["0x01"`, which is not JSON, so `JSON.parse` throws. The script logs only `publicSignals[0]` (line 128), so its own calls need not reach this case. | split at the first comma only, so that `argv[1]` is the whole signal array | not executed | PlonkCalldata.AsWrittenManySignals | PlonkCalldata.ArgsRoundTrip |
