/** Classification of input characters (the JsonToken class). */
module JsonToken {

  // The kind codes of the source. Id is declared there but never assigned.
  const CurlyOpen: nat := 0
  const CurlyClose: nat := 1
  const SquareOpen: nat := 2
  const SquareClose: nat := 3
  const Quote: nat := 4
  const Comma: nat := 5
  const Colon: nat := 6
  const Whitespace: nat := 7
  const Id: nat := 8

  /** The characters the classifier names; every other character keeps the
      default kind 0, which is the code of CurlyOpen. */
  const Listed: set<char> := {'{', '}', '[', ']', '"', ',', ':', ' ', '\t', '\n'}

  /** One classified character: its kind code and the character itself. */
  datatype Token = Token(id: nat, ch: char)

  /** The JsonToken constructor: the switch has no default case, so an
      unlisted character leaves the kind field at its initial value 0. */
  function Classify(c: char): (t: Token)
    ensures t.ch == c
    ensures t.id == CurlyOpen <==> c == '{' || c !in Listed
    ensures t.id == CurlyClose <==> c == '}'
    ensures t.id == SquareOpen <==> c == '['
    ensures t.id == SquareClose <==> c == ']'
    ensures t.id == Quote <==> c == '"'
    ensures t.id == Comma <==> c == ','
    ensures t.id == Colon <==> c == ':'
    ensures t.id == Whitespace <==> c == ' ' || c == '\t' || c == '\n'
    ensures t.id != Id && t.id <= Whitespace
  {
    var id :=
      match c
      case '{' => CurlyOpen
      case '}' => CurlyClose
      case '[' => SquareOpen
      case ']' => SquareClose
      case '"' => Quote
      case ',' => Comma
      case ':' => Colon
      case ' ' => Whitespace
      case '\t' => Whitespace
      case '\n' => Whitespace
      case _ => CurlyOpen;
    Token(id, c)
  }

  /** The token list the stream constructor builds: one token per character,
      in input order, token k being the classification of character k. */
  function Tokenize(s: string): (ts: seq<Token>)
    ensures |ts| == |s|
    ensures forall k :: 0 <= k < |s| ==> ts[k] == Classify(s[k])
  {
    seq(|s|, k requires 0 <= k < |s| => Classify(s[k]))
  }

  /** The characters carried by tokens k up to q, gathered one by one as
      parseString's loop appends them. */
  function Chars(ts: seq<Token>, k: nat, q: nat): (s: string)
    requires k <= q <= |ts|
    ensures |s| == q - k
    decreases q - k
  {
    if q == k then [] else Chars(ts, k, q - 1) + [ts[q - 1].ch]
  }

  /** Chars keeps each token's character in place. */
  lemma {:induction false} CharsAt(ts: seq<Token>, k: nat, q: nat)
    requires k <= q <= |ts|
    ensures forall n :: 0 <= n < q - k ==> Chars(ts, k, q)[n] == ts[k + n].ch
    decreases q - k
  {
    if q > k {
      CharsAt(ts, k, q - 1);
    }
  }

  /** A token list every token of which is the classification of its own
      character, as every list built by Tokenize is. */
  ghost predicate Classified(ts: seq<Token>)
  {
    forall k :: 0 <= k < |ts| ==> ts[k] == Classify(ts[k].ch)
  }

  /** Tokenising is character by character, so it splits at any point. */
  lemma TokenizeAppend(a: string, b: string)
    ensures Tokenize(a + b) == Tokenize(a) + Tokenize(b)
  {
    assert forall k :: 0 <= k < |a| ==> (a + b)[k] == a[k];
    assert forall k :: 0 <= k < |b| ==> (a + b)[|a| + k] == b[k];
  }

  /** Tokenising keeps every character and classifies each one. */
  lemma TokenizeKeepsText(s: string)
    ensures Chars(Tokenize(s), 0, |s|) == s
    ensures Classified(Tokenize(s))
  {
    CharsAt(Tokenize(s), 0, |s|);
  }
}
