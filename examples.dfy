/** Concrete inputs and what parse, get and getValue do with them. Each
    input's token list is named once; small lemmas then walk the grammar
    through it production by production, and the last one states what
    parse returns for the text. */
module ParseExamples {
  import opened Results
  import opened JsonToken
  import opened JsonTokenStream
  import opened JsonElement
  import opened JsonGrammar

  /** "{}" is an object with no members. */
  lemma EmptyObject()
    ensures Parse("{}") == Ok(Obj([]))
  {
    assert Tokenize("{}")[1].id == CurlyClose;
  }

  /** Whitespace inside an empty object is an error: the member loop then
      demands a name, and the '}' fails the opening quote. */
  lemma EmptyObjectWithSpace()
    ensures Parse("{ }") == Fail(3)
  {
    var ts := Tokenize("{ }");
    assert SkipWs(ts, 1) == Ok(2);
    assert MatchAt(ts, 2, '"') == Fail(3);
  }

  /** The tokens of '{"a":[]}'. */
  const EmptyArrayTokens: seq<Token> := Tokenize("{\"a\":[]}")

  /** '{"a":[]}' maps "a" to an empty array. */
  lemma EmptyArrayMember()
    ensures Parse("{\"a\":[]}") == Ok(Obj([Member("a", Arr([]))]))
  {
    var ts := EmptyArrayTokens;
    assert SkipWs(ts, 0) == Ok(0) && MatchAt(ts, 0, '{') == Ok(1);
    assert FindQuote(ts, 2) == Ok(3) && Chars(ts, 2, 3) == "a";
    assert ParseStringAt(ts, 1) == Ok(Parsed("a", 4));
    assert SkipWs(ts, 5) == Ok(5) && MatchAt(ts, 5, '[') == Ok(6);
    assert ParseArrayAt(ts, 5) == Ok(Parsed(Arr([]), 7));
    assert ParseValueAt(ts, 5) == Ok(Parsed(Arr([]), 7));
    assert MemberAt(ts, 1) == Ok(Parsed(Member("a", Arr([])), 7));
    assert SkipWs(ts, 7) == Ok(7);
    assert ObjectRest(ts, 7, [Member("a", Arr([]))]) == Ok(Parsed(Obj([Member("a", Arr([]))]), 8));
  }

  /** The tokens of '{"a":[ ]}'. */
  const SpacedArrayTokens: seq<Token> := Tokenize("{\"a\":[ ]}")

  /** Whitespace inside an empty array is an error: the value switch
      rejects ']' where the cursor stands. */
  lemma EmptyArrayWithSpace()
    ensures Parse("{\"a\":[ ]}") == Fail(7)
  {
    var ts := SpacedArrayTokens;
    assert SkipWs(ts, 0) == Ok(0) && MatchAt(ts, 0, '{') == Ok(1);
    assert FindQuote(ts, 2) == Ok(3) && Chars(ts, 2, 3) == "a";
    assert ParseStringAt(ts, 1) == Ok(Parsed("a", 4));
    assert SkipWs(ts, 5) == Ok(5) && MatchAt(ts, 5, '[') == Ok(6);
    assert SkipWs(ts, 6) == Ok(7);
    assert ParseValueAt(ts, 6) == Fail(7);
    assert ParseArrayAt(ts, 5) == Fail(7);
    assert MemberAt(ts, 1) == Fail(7);
  }

  /** The tokens of '{"a":"b"}'. */
  const CompactTokens: seq<Token> := Tokenize("{\"a\":\"b\"}")

  /** A member with a name and a string value. */
  lemma CompactMember()
    ensures Parse("{\"a\":\"b\"}") == Ok(Obj([Member("a", Leaf("b"))]))
  {
    var ts := CompactTokens;
    assert SkipWs(ts, 0) == Ok(0) && MatchAt(ts, 0, '{') == Ok(1);
    assert FindQuote(ts, 2) == Ok(3) && Chars(ts, 2, 3) == "a";
    assert ParseStringAt(ts, 1) == Ok(Parsed("a", 4));
    assert FindQuote(ts, 6) == Ok(7) && Chars(ts, 6, 7) == "b";
    assert ParseStringAt(ts, 5) == Ok(Parsed("b", 8));
    assert ParseValueAt(ts, 5) == Ok(Parsed(Leaf("b"), 8));
    assert MemberAt(ts, 1) == Ok(Parsed(Member("a", Leaf("b")), 8));
    assert SkipWs(ts, 8) == Ok(8);
    assert ObjectRest(ts, 8, [Member("a", Leaf("b"))]) == Ok(Parsed(Obj([Member("a", Leaf("b"))]), 9));
  }

  /** The tokens of '{ "a" : "b" }'. */
  const SpacedTokens: seq<Token> := Tokenize("{ \"a\" : \"b\" }")

  /** The member of '{ "a" : "b" }', read across the whitespace. */
  lemma SpacedMemberAt()
    ensures MemberAt(SpacedTokens, 1) == Ok(Parsed(Member("a", Leaf("b")), 12))
  {
    var ts := SpacedTokens;
    assert SkipWs(ts, 1) == Ok(2) && SkipWs(ts, 5) == Ok(6);
    assert FindQuote(ts, 3) == Ok(4) && Chars(ts, 3, 4) == "a";
    assert ParseStringAt(ts, 1) == Ok(Parsed("a", 6));
    assert SkipWs(ts, 7) == Ok(8) && SkipWs(ts, 11) == Ok(12);
    assert FindQuote(ts, 9) == Ok(10) && Chars(ts, 9, 10) == "b";
    assert ParseStringAt(ts, 8) == Ok(Parsed("b", 12));
    assert ParseValueAt(ts, 7) == Ok(Parsed(Leaf("b"), 12));
  }

  /** Whitespace around the name, the colon and the value changes nothing. */
  lemma SpacedMember()
    ensures Parse("{ \"a\" : \"b\" }") == Ok(Obj([Member("a", Leaf("b"))]))
  {
    var ts := SpacedTokens;
    assert SkipWs(ts, 0) == Ok(0) && MatchAt(ts, 0, '{') == Ok(1);
    assert SkipWs(ts, 12) == Ok(12);
    assert ObjectRest(ts, 12, [Member("a", Leaf("b"))]) == Ok(Parsed(Obj([Member("a", Leaf("b"))]), 13));
    SpacedMemberAt();
  }

  /** The tokens of '{"a":["x","y"]}'. */
  const PairTokens: seq<Token> := Tokenize("{\"a\":[\"x\",\"y\"]}")

  /** The last turn of the array loop of that input adds "y" and closes. */
  lemma PairLast()
    ensures ArrayItems(PairTokens, 10, [Leaf("x")]) == Ok(Parsed(Arr([Leaf("x"), Leaf("y")]), 14))
  {
    var ts := PairTokens;
    assert FindQuote(ts, 11) == Ok(12) && Chars(ts, 11, 12) == "y";
    assert ParseStringAt(ts, 10) == Ok(Parsed("y", 13));
    assert ParseValueAt(ts, 10) == Ok(Parsed(Leaf("y"), 13));
    assert [Leaf("x")] + [Leaf("y")] == [Leaf("x"), Leaf("y")];
    assert SkipWs(ts, 13) == Ok(13);
  }

  /** The array loop of that input collects both leaves in order. */
  lemma PairItems()
    ensures ArrayItems(PairTokens, 6, []) == Ok(Parsed(Arr([Leaf("x"), Leaf("y")]), 14))
  {
    var ts := PairTokens;
    assert FindQuote(ts, 7) == Ok(8) && Chars(ts, 7, 8) == "x";
    assert ParseStringAt(ts, 6) == Ok(Parsed("x", 9));
    assert ParseValueAt(ts, 6) == Ok(Parsed(Leaf("x"), 9));
    assert SkipWs(ts, 9) == Ok(9) && MatchAt(ts, 9, ',') == Ok(10);
    assert [] + [Leaf("x")] == [Leaf("x")];
    PairLast();
  }

  /** The whole object of that input. */
  lemma PairObject()
    ensures ParseObjectAt(PairTokens, 0) == Ok(Parsed(Obj([Member("a", Arr([Leaf("x"), Leaf("y")]))]), 15))
  {
    var ts := PairTokens;
    var pair := Arr([Leaf("x"), Leaf("y")]);
    assert SkipWs(ts, 0) == Ok(0) && MatchAt(ts, 0, '{') == Ok(1);
    assert FindQuote(ts, 2) == Ok(3) && Chars(ts, 2, 3) == "a";
    assert ParseStringAt(ts, 1) == Ok(Parsed("a", 4));
    assert SkipWs(ts, 5) == Ok(5) && MatchAt(ts, 5, '[') == Ok(6);
    assert SkipWs(ts, 14) == Ok(14);
    PairItems();
    assert ParseArrayAt(ts, 5) == Ok(Parsed(pair, 14));
    assert ParseValueAt(ts, 5) == Ok(Parsed(pair, 14));
    assert MemberAt(ts, 1) == Ok(Parsed(Member("a", pair), 14));
  }

  /** Array children keep their input order, and get finds the array. */
  lemma ArrayOfLeaves()
    ensures Parse("{\"a\":[\"x\",\"y\"]}") == Ok(Obj([Member("a", Arr([Leaf("x"), Leaf("y")]))]))
    ensures Get(Obj([Member("a", Arr([Leaf("x"), Leaf("y")]))]), "a") == Some(Arr([Leaf("x"), Leaf("y")]))
  {
    assert Tokenize("{\"a\":[\"x\",\"y\"]}") == PairTokens;
    PairObject();
  }

  /** The tokens of '{"a":"x","a":"y"}'. */
  const RepeatedTokens: seq<Token> := Tokenize("{\"a\":\"x\",\"a\":\"y\"}")

  /** The tokens of a compact member with a one-character name and a
      one-character leaf value, in any token list: the name k in quotes at
      o, ':', the value v in quotes, then a token that is not whitespace. */
  ghost predicate CompactMemberAt(ts: seq<Token>, o: nat, k: string, v: string)
  {
    && o + 7 < |ts| && |k| == 1 && |v| == 1
    && ts[o] == Token(Quote, '"') && ts[o + 1].id != Quote && ts[o + 1].ch == k[0]
    && ts[o + 2] == Token(Quote, '"') && ts[o + 3] == Token(Colon, ':')
    && ts[o + 4] == Token(Quote, '"') && ts[o + 5].id != Quote && ts[o + 5].ch == v[0]
    && ts[o + 6] == Token(Quote, '"') && ts[o + 7].id != Whitespace
  }

  /** Such a member reads as k holding the leaf v, and stops before the
      token after it. */
  lemma CompactLeafMember(ts: seq<Token>, o: nat, k: string, v: string)
    requires CompactMemberAt(ts, o, k, v)
    ensures MemberAt(ts, o) == Ok(Parsed(Member(k, Leaf(v)), o + 7))
  {
    assert SkipWs(ts, o) == Ok(o) && SkipWs(ts, o + 3) == Ok(o + 3);
    assert FindQuote(ts, o + 1) == Ok(o + 2) && Chars(ts, o + 1, o + 2) == [ts[o + 1].ch] == k;
    assert ParseStringAt(ts, o) == Ok(Parsed(k, o + 3));
    assert SkipWs(ts, o + 4) == Ok(o + 4) && SkipWs(ts, o + 7) == Ok(o + 7);
    assert FindQuote(ts, o + 5) == Ok(o + 6) && Chars(ts, o + 5, o + 6) == [ts[o + 5].ch] == v;
    assert ParseStringAt(ts, o + 4) == Ok(Parsed(v, o + 7));
    assert ParseValueAt(ts, o + 4) == Ok(Parsed(Leaf(v), o + 7));
  }

  /** The first member of that input is "a" with the value "x". */
  lemma FirstMember()
    ensures MemberAt(RepeatedTokens, 1) == Ok(Parsed(Member("a", Leaf("x")), 8))
  {
    assert CompactMemberAt(RepeatedTokens, 1, "a", "x");
    CompactLeafMember(RepeatedTokens, 1, "a", "x");
  }

  /** The second member of that input is "a" with the value "y". */
  lemma SecondMember()
    ensures MemberAt(RepeatedTokens, 9) == Ok(Parsed(Member("a", Leaf("y")), 16))
  {
    assert CompactMemberAt(RepeatedTokens, 9, "a", "y");
    CompactLeafMember(RepeatedTokens, 9, "a", "y");
  }

  /** The second turn of the object loop replaces the value under "a", and
      the '}' closes the object. */
  lemma RepeatedLast()
    ensures ObjectMembers(RepeatedTokens, 9, [Member("a", Leaf("x"))]) == Ok(Parsed(Obj([Member("a", Leaf("y"))]), 17))
  {
    assert SkipWs(RepeatedTokens, 16) == Ok(16);
    assert Put([Member("a", Leaf("x"))], "a", Leaf("y")) == [Member("a", Leaf("y"))];
    SecondMember();
  }

  /** The object loop of that input from its first member on. */
  lemma RepeatedMembers()
    ensures ObjectMembers(RepeatedTokens, 1, []) == Ok(Parsed(Obj([Member("a", Leaf("y"))]), 17))
  {
    assert SkipWs(RepeatedTokens, 8) == Ok(8) && MatchAt(RepeatedTokens, 8, ',') == Ok(9);
    assert Put([], "a", Leaf("x")) == [Member("a", Leaf("x"))];
    FirstMember();
    RepeatedLast();
  }

  /** A repeated name keeps the last value, in the first one's place. */
  lemma RepeatedName()
    ensures Parse("{\"a\":\"x\",\"a\":\"y\"}") == Ok(Obj([Member("a", Leaf("y"))]))
  {
    assert Tokenize("{\"a\":\"x\",\"a\":\"y\"}") == RepeatedTokens;
    assert SkipWs(RepeatedTokens, 0) == Ok(0) && MatchAt(RepeatedTokens, 0, '{') == Ok(1);
    RepeatedMembers();
  }

  /** The tokens of '{"a":"b",}'. */
  const TrailingCommaTokens: seq<Token> := Tokenize("{\"a\":\"b\",}")

  /** A trailing comma fails once the '}' standing where a name should
      start has been consumed. */
  lemma TrailingComma()
    ensures Parse("{\"a\":\"b\",}") == Fail(10)
  {
    var ts := TrailingCommaTokens;
    assert SkipWs(ts, 0) == Ok(0) && MatchAt(ts, 0, '{') == Ok(1);
    assert FindQuote(ts, 2) == Ok(3) && Chars(ts, 2, 3) == "a";
    assert ParseStringAt(ts, 1) == Ok(Parsed("a", 4));
    assert FindQuote(ts, 6) == Ok(7) && Chars(ts, 6, 7) == "b";
    assert ParseStringAt(ts, 5) == Ok(Parsed("b", 8));
    assert ParseValueAt(ts, 5) == Ok(Parsed(Leaf("b"), 8));
    assert MemberAt(ts, 1) == Ok(Parsed(Member("a", Leaf("b")), 8));
    assert SkipWs(ts, 8) == Ok(8) && MatchAt(ts, 8, ',') == Ok(9);
    assert SkipWs(ts, 9) == Ok(9) && MatchAt(ts, 9, '"') == Fail(10);
    assert MemberAt(ts, 9) == Fail(10);
    assert ObjectRest(ts, 8, [Member("a", Leaf("b"))]) == Fail(10);
  }

  /** The tokens of '{"a" "b"}'. */
  const MissingColonTokens: seq<Token> := Tokenize("{\"a\" \"b\"}")

  /** A missing colon fails once the quote standing in its place has been
      consumed. */
  lemma MissingColon()
    ensures Parse("{\"a\" \"b\"}") == Fail(6)
  {
    var ts := MissingColonTokens;
    assert SkipWs(ts, 0) == Ok(0) && MatchAt(ts, 0, '{') == Ok(1);
    assert FindQuote(ts, 2) == Ok(3) && Chars(ts, 2, 3) == "a";
    assert SkipWs(ts, 4) == Ok(5);
    assert ParseStringAt(ts, 1) == Ok(Parsed("a", 5));
    assert MatchAt(ts, 5, ':') == Fail(6);
    assert MemberAt(ts, 1) == Fail(6);
  }

  /** The tokens of '{"a":"b'. */
  const UnterminatedTokens: seq<Token> := Tokenize("{\"a\":\"b")

  /** An unterminated string fails at the end of the input. */
  lemma Unterminated()
    ensures Parse("{\"a\":\"b") == Fail(7)
  {
    var ts := UnterminatedTokens;
    assert SkipWs(ts, 0) == Ok(0) && MatchAt(ts, 0, '{') == Ok(1);
    assert FindQuote(ts, 2) == Ok(3) && Chars(ts, 2, 3) == "a";
    assert ParseStringAt(ts, 1) == Ok(Parsed("a", 4));
    assert FindQuote(ts, 6) == Fail(7);
    assert ParseStringAt(ts, 5) == Fail(7);
    assert ParseValueAt(ts, 5) == Fail(7);
    assert MemberAt(ts, 1) == Fail(7);
  }

  /** The text '{"a" : {"b" : {"c" : {"d" : "e"}}}}', written level by
      level: each level spans seven characters, '{', the quoted name, a
      space, ':' and a space, before the next level's '{'. */
  const NestedText: string := "{\"a\" : " + "{\"b\" : " + "{\"c\" : " + "{\"d\" : \"e\"}" + "}}}"

  /** The tokens of that text. */
  const NestedTokens: seq<Token> := Tokenize(NestedText)

  /** The tokens of an object with one one-character leaf member, in any
      token list: '{' at o, the name k in quotes, a space, ':', a space,
      the value v in quotes, '}'. */
  ghost predicate LeafObjectAt(ts: seq<Token>, o: nat, k: string, v: string)
  {
    && o + 10 < |ts| && |k| == 1 && |v| == 1
    && ts[o] == Token(CurlyOpen, '{') && ts[o + 1] == Token(Quote, '"')
    && ts[o + 2].id != Quote && ts[o + 2].ch == k[0] && ts[o + 3] == Token(Quote, '"')
    && ts[o + 4] == Token(Whitespace, ' ') && ts[o + 5] == Token(Colon, ':')
    && ts[o + 6] == Token(Whitespace, ' ') && ts[o + 7] == Token(Quote, '"')
    && ts[o + 8].id != Quote && ts[o + 8].ch == v[0] && ts[o + 9] == Token(Quote, '"')
    && ts[o + 10] == Token(CurlyClose, '}')
  }

  /** Such an object reads as the one member k holding the leaf v. */
  lemma LeafObject(ts: seq<Token>, o: nat, k: string, v: string)
    requires LeafObjectAt(ts, o, k, v)
    ensures ParseObjectAt(ts, o) == Ok(Parsed(Obj([Member(k, Leaf(v))]), o + 11))
  {
    assert SkipWs(ts, o) == Ok(o) && MatchAt(ts, o, '{') == Ok(o + 1);
    assert SkipWs(ts, o + 1) == Ok(o + 1) && SkipWs(ts, o + 4) == Ok(o + 5);
    assert FindQuote(ts, o + 2) == Ok(o + 3) && Chars(ts, o + 2, o + 3) == [ts[o + 2].ch] == k;
    assert ParseStringAt(ts, o + 1) == Ok(Parsed(k, o + 5));
    assert MatchAt(ts, o + 5, ':') == Ok(o + 6) && SkipWs(ts, o + 6) == Ok(o + 7);
    assert FindQuote(ts, o + 8) == Ok(o + 9) && Chars(ts, o + 8, o + 9) == [ts[o + 8].ch] == v;
    assert SkipWs(ts, o + 10) == Ok(o + 10);
    assert ParseStringAt(ts, o + 7) == Ok(Parsed(v, o + 10));
    assert ParseValueAt(ts, o + 6) == Ok(Parsed(Leaf(v), o + 10));
    assert MemberAt(ts, o + 1) == Ok(Parsed(Member(k, Leaf(v)), o + 10));
    assert Put([], k, Leaf(v)) == [Member(k, Leaf(v))];
    assert ObjectRest(ts, o + 10, [Member(k, Leaf(v))]) == Ok(Parsed(Obj([Member(k, Leaf(v))]), o + 11));
  }

  /** The innermost object, {"d" : "e"}, starts at token 21. */
  lemma NestedD()
    ensures ParseObjectAt(NestedTokens, 21) == Ok(Parsed(Obj([Member("d", Leaf("e"))]), 32))
  {
    assert LeafObjectAt(NestedTokens, 21, "d", "e");
    LeafObject(NestedTokens, 21, "d", "e");
  }

  /** The tokens of one enclosing level, in any token list: '{' at o, the
      one-character name k in quotes, a space, ':', a space, then the '{'
      of the inner object at o + 7; its closing '}' at e. */
  ghost predicate LevelAt(ts: seq<Token>, o: nat, k: string, e: nat)
  {
    && o + 7 < e < |ts| && |k| == 1
    && ts[o] == Token(CurlyOpen, '{') && ts[o + 1] == Token(Quote, '"')
    && ts[o + 2].id != Quote && ts[o + 2].ch == k[0] && ts[o + 3] == Token(Quote, '"')
    && ts[o + 4] == Token(Whitespace, ' ') && ts[o + 5] == Token(Colon, ':')
    && ts[o + 6] == Token(Whitespace, ' ') && ts[o + 7] == Token(CurlyOpen, '{')
    && ts[e] == Token(CurlyClose, '}')
  }

  /** One enclosing level: the object at o whose only member is named k
      and holds the object that starts at o + 7 and ends before e. */
  lemma NestedLevel(ts: seq<Token>, o: nat, k: string, inner: Element, e: nat)
    requires LevelAt(ts, o, k, e) && ParseObjectAt(ts, o + 7) == Ok(Parsed(inner, e))
    ensures ParseObjectAt(ts, o) == Ok(Parsed(Obj([Member(k, inner)]), e + 1))
  {
    assert SkipWs(ts, o) == Ok(o) && MatchAt(ts, o, '{') == Ok(o + 1);
    assert SkipWs(ts, o + 1) == Ok(o + 1) && SkipWs(ts, o + 5) == Ok(o + 5);
    assert SkipWs(ts, o + 4) == Ok(o + 5);
    assert FindQuote(ts, o + 2) == Ok(o + 3);
    assert Chars(ts, o + 2, o + 3) == [ts[o + 2].ch] == k;
    assert ParseStringAt(ts, o + 1) == Ok(Parsed(k, o + 5));
    assert SkipWs(ts, o + 7) == Ok(o + 7);
    assert SkipWs(ts, o + 6) == Ok(o + 7);
    assert ParseValueAt(ts, o + 6) == Ok(Parsed(inner, e));
    assert MemberAt(ts, o + 1) == Ok(Parsed(Member(k, inner), e));
    assert SkipWs(ts, e) == Ok(e);
    assert Put([], k, inner) == [Member(k, inner)];
    assert ObjectRest(ts, e, [Member(k, inner)]) == Ok(Parsed(Obj([Member(k, inner)]), e + 1));
    assert ObjectMembers(ts, o + 1, []) == Ok(Parsed(Obj([Member(k, inner)]), e + 1));
  }

  /** The tree of four nested objects. */
  const Nested: Element := Obj([Member("a", Obj([Member("b", Obj([Member("c", Obj([Member("d", Leaf("e"))]))]))]))])

  /** The object named "c" holds the innermost one. */
  lemma NestedC()
    ensures ParseObjectAt(NestedTokens, 14) == Ok(Parsed(Obj([Member("c", Obj([Member("d", Leaf("e"))]))]), 33))
  {
    var ts := NestedTokens;
    assert LevelAt(ts, 14, "c", 32);
    NestedD();
    NestedLevel(ts, 14, "c", Obj([Member("d", Leaf("e"))]), 32);
  }

  /** The object named "b" holds the one named "c". */
  lemma NestedB()
    ensures ParseObjectAt(NestedTokens, 7) == Ok(Parsed(Obj([Member("b", Obj([Member("c", Obj([Member("d", Leaf("e"))]))]))]), 34))
  {
    var ts := NestedTokens;
    assert LevelAt(ts, 7, "b", 33);
    NestedC();
    NestedLevel(ts, 7, "b", Obj([Member("c", Obj([Member("d", Leaf("e"))]))]), 33);
  }

  /** The outermost level's tokens. */
  lemma NestedHead()
    ensures LevelAt(NestedTokens, 0, "a", 34)
  {
  }

  /** The token list of that text reads as that tree. */
  lemma NestedParse()
    ensures ParseObjectAt(NestedTokens, 0)
         == Ok(Parsed(Obj([Member("a", Obj([Member("b", Obj([Member("c", Obj([Member("d", Leaf("e"))]))]))]))]), 35))
  {
    var ts := NestedTokens;
    NestedHead();
    NestedB();
    NestedLevel(ts, 0, "a", Obj([Member("b", Obj([Member("c", Obj([Member("d", Leaf("e"))]))]))]), 34);
  }

  /** The nested text parses to that tree. */
  lemma NestedObjects()
    ensures Parse(NestedText) == Ok(Nested)
  {
    NestedParse();
  }

  /** Navigation through that tree: the chain of gets reaches the leaf, and
      getValue gives its text. */
  lemma Navigation()
    ensures Parse(NestedText).Ok?
    ensures var a := Get(Parse(NestedText).value, "a");
            a.Some? && Get(a.value, "b").Some? && Get(Get(a.value, "b").value, "c").Some?
            && Get(Get(Get(a.value, "b").value, "c").value, "d") == Some(Leaf("e"))
            && GetValue(Leaf("e")) == "e"
  {
    NestedObjects();
  }
}
