# JsonParser in Dafny

A model of `JsonParser`, a small recursive-descent reader for a restricted
JSON dialect. The dialect has objects, arrays and double-quoted string leaves,
and strings have no escapes. The model also proves what the parser promises.

The model follows the four parts of the Java class.

- **`JsonToken`** (`json_token.dfy`). It classifies each character into the
  source's kind codes. The switch has no default case, so every unlisted
  character keeps kind 0, the code of `{`. The code `ID` (8) is never
  assigned, and `'\r'` is not whitespace.
- **`JsonTokenStream`** (`token_stream.dfy`). This is a `class` with the token
  list and a mutable `index`. `NextToken`, `SkipWhiteSpace` and `Match` are
  methods that advance the cursor. Each is proved against a function of the
  token list and an index (`SkipWs`, `MatchAt`).
- **The parser** (`json_grammar.dfy`, `json_parser.dfy`).
  - `JsonGrammar` states each Java method as a function from a token list and
    a start index to the tree built and the index where the cursor is left.
  - `JsonParser` holds the methods `ParseString`, `ParseJson`, `ParseArray`
    and `Parse`, written as loops over a `TokenStream`.
  - Each method is proved to compute exactly its grammar function, including
    the failure index.
- **The tree** (`json_element.dfy`). It is a datatype with three variants:
  `Obj`, `Arr` and `Leaf`.
  - An object's `HashMap` is a list of members with distinct names. `add` is
    `Put`: a repeated name replaces its value in place, and a new name is
    appended.
  - `get` and `getValue` are functions. The `toString` methods keep the
    StringBuilder loops of the source and are proved equal to `Serialize`.

Failures. Every way the Java code aborts becomes one outcome, `Fail(at)`,
carrying the cursor index at the moment of the throw. These are the
`IllegalArgumentException` of `match` and of the value switch, the
`NullPointerException` of a read past the end, and the
`IndexOutOfBoundsException` of `skipWhiteSpace` at the end. `match` consumes
its token before comparing, so a wrong character is reported one past itself:

- a trailing comma in `{"a":"b",}` fails at 10, one past the `}` at 9;
- a missing colon in `{"a" "b"}` fails at 6, one past the quote at 5 that
  stands where the colon should be.

An error that reported the offending character's own position would give 9
and 5. The model follows the code.

Proved properties, beyond each method agreeing with its function:

- tokenising keeps every character, in order, and classifies each one;
- `skipWhiteSpace` passes exactly the maximal whitespace run and fails when
  that run reaches the end;
- `match` succeeds exactly on its character;
- `parseString` stops at the first quote;
- `put` keeps names distinct, and the last write to a name wins;
- every parsed tree is well formed: no quote in a name or a leaf, and distinct
  names in each object;
- parsing `toString` of any well-formed object gives back the same tree, for
  every member order, so re-parsing what `parse` returned is the identity;
- the parse stops at the root's closing brace: the text cut right after it
  parses to the same tree, and any text in place of what followed does too;
- concrete inputs behave as documented, among them the navigation chain
  `get("a").get("b").get("c").get("d").getValue() == "e"`.

## Model

| member | source | states |
|---|---|---|
| JsonToken.Classify | src/JsonParser.java:308-342 | each listed character gets its kind code and keeps its character, in both directions; every unlisted character, `'\r'` included, gets kind 0 like `{`; `ID` is never produced |
| JsonToken.TokenizeKeepsText | src/JsonParser.java:254-260 | the characters of the token list are the input text, and every token is its character's classification |
| JsonToken.TokenizeAppend | src/JsonParser.java:256-258 | tokenising works character by character, so the token list of a concatenation is the concatenation of the token lists |
| JsonTokenStream.SkipWs | src/JsonParser.java:278-281 | skipping lands on a non-whitespace token at or after the start; otherwise it fails at the end of the tokens |
| JsonTokenStream.SkipWsRun | src/JsonParser.java:278-281 | every token passed is whitespace; skipping fails exactly when whitespace runs to the end |
| JsonTokenStream.SkipWsTo | src/JsonParser.java:278-281 | whitespace up to a non-whitespace token at j: skipping lands exactly on j |
| JsonTokenStream.MatchAt | src/JsonParser.java:283-289 | a match succeeds exactly when the token under the cursor carries the character, and then advances by one; a failure is one past the token, or at the end of the input |
| JsonTokenStream.TokenStream.constructor | src/JsonParser.java:254-260 | the stream holds the tokenised text, one token per character, with the cursor at 0 |
| JsonTokenStream.TokenStream.PeekToken | src/JsonParser.java:266-268 | the token under the cursor, or none exactly at the end |
| JsonTokenStream.TokenStream.NextToken | src/JsonParser.java:270-272 | returns what peek would, and advances the cursor by one exactly when there was a token |
| JsonTokenStream.TokenStream.SkipWhiteSpace | src/JsonParser.java:278-281 | the cursor moves to where SkipWs lands; at the end it fails with the cursor at the end |
| JsonTokenStream.TokenStream.Match | src/JsonParser.java:283-289 | the cursor and outcome are those of MatchAt; a failure reports the cursor where it was left |
| JsonGrammar.FindQuote | src/JsonParser.java:101-105 | the string loop stops on a quote token at or after its start, or fails at the end of the input |
| JsonGrammar.FindQuoteFirst | src/JsonParser.java:101-105 | that quote is the first one; the loop fails exactly when no quote follows |
| JsonGrammar.FindQuoteTo | src/JsonParser.java:101-105 | a quote at q with none before it from k: the loop stops on q |
| JsonGrammar.ParseStringAt | src/JsonParser.java:97-108 | a string read consumes at least both quotes and leaves the cursor on a non-whitespace token; failures lie within the input |
| JsonGrammar.ParseValueAt | src/JsonParser.java:73-85 | the value switch consumes at least one token, and a leaf leaves a token after it |
| JsonGrammar.ParseObjectAt | src/JsonParser.java:60-67 | an object read yields an object and consumes at least one token |
| JsonGrammar.ObjectMembers | src/JsonParser.java:68-81 | a turn of the member loop yields an object and consumes at least one token |
| JsonGrammar.MemberAt | src/JsonParser.java:69-85 | a name, ':' and a value consume at least one token |
| JsonGrammar.ObjectRest | src/JsonParser.java:86-92 | the end of a member turn yields an object and consumes at least one token |
| JsonGrammar.ObjectRestCloses | src/JsonParser.java:86-89 | after whitespace, a `}` ends the object with exactly the members put so far |
| JsonGrammar.ParseArrayAt | src/JsonParser.java:26-33 | an array read yields an array and consumes at least one token |
| JsonGrammar.ArrayItems | src/JsonParser.java:34-48 | a turn of the element loop yields an array and consumes at least one token |
| JsonGrammar.ArrayRest | src/JsonParser.java:49-55 | the end of an element turn yields an array and consumes at least one token |
| JsonGrammar.Parse | src/JsonParser.java:19-23 | a successful parse returns an object |
| JsonParser.ParseString | src/JsonParser.java:97-108 | the accumulating loop returns exactly what ParseStringAt gives and leaves the cursor where it says, or fails where it fails |
| JsonParser.ParseValue | src/JsonParser.java:36-48 | the switch on the next significant token agrees with ParseValueAt |
| JsonParser.ParseJson | src/JsonParser.java:60-95 | the object loop agrees with ParseObjectAt, in value, cursor and failure index |
| JsonParser.ParseMember | src/JsonParser.java:69-85 | the first half of a member turn agrees with MemberAt |
| JsonParser.ObjectSeparator | src/JsonParser.java:86-92 | `}` ends the object as ObjectRest says; a `,` hands over to the next member turn; any other token fails as ObjectRest does |
| JsonParser.ParseArray | src/JsonParser.java:26-57 | the element loop agrees with ParseArrayAt, in value, cursor and failure index |
| JsonParser.ArraySeparator | src/JsonParser.java:49-55 | `]` ends the array as ArrayRest says; a `,` hands over to the next element turn; any other token fails as ArrayRest does |
| JsonParser.Parse | src/JsonParser.java:19-23 | parse over a fresh stream returns exactly JsonGrammar.Parse of the text |
| JsonElement.Lookup | src/JsonParser.java:201-204 | the map lookup finds a child exactly when the name is present, and the child found is stored under that name |
| JsonElement.LookupFinds | src/JsonParser.java:201-204 | with distinct names, the lookup returns the child stored under the name |
| JsonElement.Put | src/JsonParser.java:192-194 | a put keeps the number of entries or adds one |
| JsonElement.PutNew | src/JsonParser.java:192-194 | a new name is appended after the existing entries |
| JsonElement.PutLookup | src/JsonParser.java:192-194 | after a put, the name maps to the new child and every other name to what it did before |
| JsonElement.PutKeys | src/JsonParser.java:192-194 | a put adds its name to the names and nothing else |
| JsonElement.PutMembers | src/JsonParser.java:192-194 | every entry after a put was there before or is the new one |
| JsonElement.PutDistinct | src/JsonParser.java:192-194 | a put keeps the names distinct |
| JsonElement.PutKeepsWellFormed | src/JsonParser.java:192-194 | putting a quote-free name and a well-formed child keeps an object well formed |
| JsonElement.Get | src/JsonParser.java:201-204 | get yields a child exactly for an object holding the name, and that child is stored under it; arrays and leaves give none |
| JsonElement.Serialize | src/JsonParser.java:169-246 | every rendering is bracketed by its variant's delimiters: quotes for a leaf, brackets for an array, braces for an object |
| JsonElement.GetValue | src/JsonParser.java:233-236 | a leaf's value is what its rendering wraps in quotes; an object or array answers with its rendering |
| JsonElement.ToString | src/JsonParser.java:169-246 | toString of each class renders as Serialize does |
| JsonElement.ArrayToString | src/JsonParser.java:169-181 | the StringBuilder loop gives `[]` or the children's renderings joined by ", " in order, in brackets |
| JsonElement.ObjectToString | src/JsonParser.java:206-222 | the StringBuilder loop gives `{}` or the "name":child entries joined by ", " in member order, in braces |
| ParsedTrees.StringQuoteFree | src/JsonParser.java:97-108 | a string read from classified tokens never contains a quote |
| ParsedTrees.ObjectWellFormed | src/JsonParser.java:60-95 | every object read is well formed: distinct names, no quotes in names or leaves, well-formed children |
| ParsedTrees.ArrayWellFormed | src/JsonParser.java:26-57 | every array read has only well-formed children |
| ParsedTrees.ParseWellFormed | src/JsonParser.java:19-23 | every tree parse returns is well formed |
| RoundTrip.StringRoundTrip | src/JsonParser.java:97-108 | a quote-free string in quotes, followed by a non-whitespace token, is read back unchanged |
| RoundTrip.ValueRoundTrip | src/JsonParser.java:73-85 | the rendering of any well-formed value, after whitespace, is read back by the value switch, up to its last character |
| RoundTrip.ArrayRoundTrip | src/JsonParser.java:169-181 | the rendering of a well-formed array is read back as the same array, ending right after it |
| RoundTrip.ObjectRoundTrip | src/JsonParser.java:206-222 | the rendering of a well-formed object is read back as the same object, ending right after it |
| RoundTrip.MemberRoundTrip | src/JsonParser.java:216 | one "name":child entry is read back as the same member |
| RoundTrip.SerializeRoundTrip | src/JsonParser.java:206-222 | parsing the rendering of any well-formed object gives that object, for every member order |
| RoundTrip.ReparseSerialized | src/JsonParser.java:19-23 | for any tree parse returns, parsing its rendering gives an equal tree |
| TrailingText.ParseIgnoresTrailing | src/JsonParser.java:19-23 | appending any text after a successfully parsed object changes nothing |
| TrailingText.ParseStopsAtClose | src/JsonParser.java:19-23 | the text cut right after the root's closing brace parses to the same tree, so nothing after the brace is read |
| TrailingText.ParseIgnoresAfterClose | src/JsonParser.java:19-23 | replacing everything after the root's closing brace by any text gives the same parse |
| ParseExamples.EmptyObject | src/JsonParser.java:64-67 | `{}` is an object with no members |
| ParseExamples.EmptyObjectWithSpace | src/JsonParser.java:68-71 | `{ }` fails: the member loop demands a quote and meets `}` |
| ParseExamples.EmptyArrayMember | src/JsonParser.java:30-33 | `[]` directly after `[` is an empty array |
| ParseExamples.EmptyArrayWithSpace | src/JsonParser.java:35-47 | `[ ]` fails: the value switch rejects `]` where the cursor stands |
| ParseExamples.CompactMember | src/JsonParser.java:68-93 | `{"a":"b"}` maps "a" to the leaf "b" |
| ParseExamples.SpacedMember | src/JsonParser.java:68-93 | whitespace around the name, colon and value changes nothing |
| ParseExamples.ArrayOfLeaves | src/JsonParser.java:34-56 | array children keep input order, and get finds the array |
| ParseExamples.RepeatedName | src/JsonParser.java:192-194 | a repeated name keeps its last value |
| ParseExamples.TrailingComma | src/JsonParser.java:86-92 | a trailing comma fails, at 10 |
| ParseExamples.MissingColon | src/JsonParser.java:70-71 | a missing colon fails, at 6 |
| ParseExamples.Unterminated | src/JsonParser.java:101-105 | a string without its closing quote fails at the end of the input |
| ParseExamples.NestedObjects | src/JsonParser.java:129-135 | `{"a" : {"b" : {"c" : {"d" : "e"}}}}` parses to four nested one-member objects |
| ParseExamples.Navigation | src/JsonParser.java:129-135 | on that input, get a, b, c, d in turn reaches the leaf, and its getValue is "e" |

## Left out

- Exception types and message text are not modelled. Every abort is one `Fail` that carries the cursor index.
- The object's `HashMap` is a list of members, in insertion order with replacement in place. The source leaves the map's iteration order unspecified, so the model claims no particular order. The rendering and round-trip lemmas hold for every member order.
- `getLastToken` is not modelled; nothing calls it.
- `getIndex` is not a separate member. The cursor is the `index` field, and every parser method states the cursor it leaves.
- `getChildren` is not modelled; nothing calls it.
- `ArrayJsonElement.add` is the append `children + [value]` inside `ParseArray`. `JsonElement.add` is `Put`.
- Elements are values, not objects. Object identity and in-place growth of a tree during parsing are not captured.
- `ArrayList`, `HashMap` and `StringBuilder` internals are not modelled. Sequences and string concatenation stand for them.
- Java's `toCharArray` gives UTF-16 code units, while a Dafny `char` is a Unicode scalar value. A character outside the Basic Multilingual Plane is one token here but two tokens (a surrogate pair) in Java, so every cursor and failure index after such a character is one smaller in the model than in the source.
- Deep nesting is not bounded. Java's recursion throws `StackOverflowError` on deeply nested input; the model's recursion has no depth limit and returns a tree there.
