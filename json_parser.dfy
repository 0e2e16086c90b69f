/** The parser methods of JsonParser, working on a TokenStream whose cursor
    they advance, each proved to compute its JsonGrammar function. */
module JsonParser {
  import opened Results
  import opened JsonToken
  import opened JsonTokenStream
  import opened JsonElement
  import opened JsonGrammar

  /** A method's outcome matches the specification's: the same value with
      the cursor where the specification leaves it, or the same failure. */
  ghost predicate Agrees<T>(r: Result<T>, index: nat, spec: Result<Parsed<T>>)
  {
    match r
    case Ok(v) => spec == Ok(Parsed(v, index))
    case Fail(a) => spec == Fail(a)
  }

  /** parseString: accumulates the characters up to the closing quote. */
  method ParseString(stream: TokenStream) returns (r: Result<string>)
    requires stream.Valid()
    modifies stream
    ensures stream.Valid()
    ensures Agrees(r, stream.index, ParseStringAt(stream.tokens, old(stream.index)))
  {
    ghost var ts := stream.tokens;
    var skipped := stream.SkipWhiteSpace();
    if skipped.Fail? {
      return Fail(skipped.at);
    }
    var s := "";
    var quote := stream.Match('"');
    if quote.Fail? {
      return Fail(quote.at);
    }
    ghost var k := stream.index;
    ghost var p := stream.index;
    var t := stream.NextToken();
    while t.None? || t.value.id != Quote
      invariant stream.Valid() && stream.tokens == ts
      invariant k <= p <= |ts|
      invariant t.Some? ==> p < |ts| && t.value == ts[p] && stream.index == p + 1
      invariant t.None? ==> p == |ts| == stream.index
      invariant s == Chars(ts, k, p)
      invariant FindQuote(ts, p) == FindQuote(ts, k)
      decreases |ts| - p
    {
      if t.None? {
        // t.getId() on the null token past the end
        return Fail(stream.index);
      }
      s := s + [t.value.ch];
      p := p + 1;
      t := stream.NextToken();
    }
    skipped := stream.SkipWhiteSpace();
    if skipped.Fail? {
      return Fail(skipped.at);
    }
    r := Ok(s);
  }

  /** The switch on the next significant token in both container loops. */
  method ParseValue(stream: TokenStream) returns (r: Result<Element>)
    requires stream.Valid()
    modifies stream
    ensures stream.Valid()
    ensures Agrees(r, stream.index, ParseValueAt(stream.tokens, old(stream.index)))
    decreases |stream.tokens| - stream.index, 2
  {
    var skipped := stream.SkipWhiteSpace();
    if skipped.Fail? {
      return Fail(skipped.at);
    }
    var id := stream.PeekToken().value.id;
    if id == SquareOpen {
      r := ParseArray(stream);
    } else if id == CurlyOpen {
      r := ParseJson(stream);
    } else if id == Quote {
      var s := ParseString(stream);
      r := if s.Ok? then Ok(Leaf(s.value)) else Fail(s.at);
    } else {
      r := Fail(stream.index);
    }
  }

  /** parseJson: an object, its members put into the map one by one. */
  method ParseJson(stream: TokenStream) returns (r: Result<Element>)
    requires stream.Valid()
    modifies stream
    ensures stream.Valid()
    ensures Agrees(r, stream.index, ParseObjectAt(stream.tokens, old(stream.index)))
    decreases |stream.tokens| - stream.index, 1
  {
    ghost var ts := stream.tokens;
    ghost var whole := ParseObjectAt(ts, stream.index);
    var skipped := stream.SkipWhiteSpace();
    if skipped.Fail? {
      return Fail(skipped.at);
    }
    var matched := stream.Match('{');
    if matched.Fail? {
      return Fail(matched.at);
    }
    var members: seq<Member> := [];
    var t := stream.PeekToken();
    if t.None? {
      return Fail(stream.index);
    }
    if t.value.id == CurlyClose {
      t := stream.NextToken();
      return Ok(Obj(members));
    }
    assert whole == ObjectMembers(ts, stream.index, members);
    while true
      invariant stream.Valid() && stream.tokens == ts
      invariant old(stream.index) < stream.index
      invariant ObjectMembers(ts, stream.index, members) == whole
      decreases |ts| - stream.index
    {
      var member := ParseMember(stream);
      if member.Fail? {
        assert whole == Fail(member.at);
        return Fail(member.at);
      }
      members := Put(members, member.value.key, member.value.value);
      var closed := ObjectSeparator(stream, members);
      if closed.Fail? {
        return Fail(closed.at);
      }
      if closed.value {
        return Ok(Obj(members));
      }
    }
  }

  /** The second half of a turn of parseJson's loop: whitespace, then either
      the closing '}' (true) or the ',' before the next member (false). */
  method ObjectSeparator(stream: TokenStream, members: seq<Member>) returns (r: Result<bool>)
    requires stream.Valid()
    modifies stream
    ensures stream.Valid()
    ensures r.Fail? ==> ObjectRest(stream.tokens, old(stream.index), members) == Fail(r.at)
    ensures r == Ok(true) ==>
      ObjectRest(stream.tokens, old(stream.index), members) == Ok(Parsed(Obj(members), stream.index))
    ensures r == Ok(false) ==> old(stream.index) < stream.index
    ensures r == Ok(false) ==>
      ObjectRest(stream.tokens, old(stream.index), members) == ObjectMembers(stream.tokens, stream.index, members)
  {
    ghost var m := stream.index;
    var skipped := stream.SkipWhiteSpace();
    if skipped.Fail? {
      return Fail(skipped.at);
    }
    var t := stream.PeekToken();
    if t.value.id == CurlyClose {
      ObjectRestCloses(stream.tokens, m, members);
      t := stream.NextToken();
      return Ok(true);
    }
    var matched := stream.Match(',');
    if matched.Fail? {
      return Fail(matched.at);
    }
    r := Ok(false);
  }

  /** The first half of a turn of parseJson's loop: whitespace, the name
      read by parseString, ':', and the value chosen by the switch. */
  method ParseMember(stream: TokenStream) returns (r: Result<Member>)
    requires stream.Valid()
    modifies stream
    ensures stream.Valid()
    ensures Agrees(r, stream.index, MemberAt(stream.tokens, old(stream.index)))
    decreases |stream.tokens| - stream.index, 3
  {
    var skipped := stream.SkipWhiteSpace();
    if skipped.Fail? {
      return Fail(skipped.at);
    }
    var key := ParseString(stream);
    if key.Fail? {
      return Fail(key.at);
    }
    var matched := stream.Match(':');
    if matched.Fail? {
      return Fail(matched.at);
    }
    var value := ParseValue(stream);
    if value.Fail? {
      return Fail(value.at);
    }
    r := Ok(Member(key.value, value.value));
  }

  /** parseArray: an array, its children appended one by one. */
  method ParseArray(stream: TokenStream) returns (r: Result<Element>)
    requires stream.Valid()
    modifies stream
    ensures stream.Valid()
    ensures Agrees(r, stream.index, ParseArrayAt(stream.tokens, old(stream.index)))
    decreases |stream.tokens| - stream.index, 1
  {
    ghost var ts := stream.tokens;
    ghost var whole := ParseArrayAt(ts, stream.index);
    var skipped := stream.SkipWhiteSpace();
    if skipped.Fail? {
      return Fail(skipped.at);
    }
    var matched := stream.Match('[');
    if matched.Fail? {
      return Fail(matched.at);
    }
    var children: seq<Element> := [];
    var t := stream.PeekToken();
    if t.None? {
      return Fail(stream.index);
    }
    if t.value.id == SquareClose {
      t := stream.NextToken();
      return Ok(Arr(children));
    }
    assert whole == ArrayItems(ts, stream.index, children);
    while true
      invariant stream.Valid() && stream.tokens == ts
      invariant old(stream.index) < stream.index
      invariant ArrayItems(ts, stream.index, children) == whole
      decreases |ts| - stream.index
    {
      var value := ParseValue(stream);
      if value.Fail? {
        assert whole == Fail(value.at);
        return Fail(value.at);
      }
      children := children + [value.value];
      var closed := ArraySeparator(stream, children);
      if closed.Fail? {
        return Fail(closed.at);
      }
      if closed.value {
        return Ok(Arr(children));
      }
    }
  }

  /** The second half of a turn of parseArray's loop: whitespace, then either
      the closing ']' (true) or the ',' before the next child (false). */
  method ArraySeparator(stream: TokenStream, children: seq<Element>) returns (r: Result<bool>)
    requires stream.Valid()
    modifies stream
    ensures stream.Valid()
    ensures r.Fail? ==> ArrayRest(stream.tokens, old(stream.index), children) == Fail(r.at)
    ensures r == Ok(true) ==>
      ArrayRest(stream.tokens, old(stream.index), children) == Ok(Parsed(Arr(children), stream.index))
    ensures r == Ok(false) ==> old(stream.index) < stream.index
    ensures r == Ok(false) ==>
      ArrayRest(stream.tokens, old(stream.index), children) == ArrayItems(stream.tokens, stream.index, children)
  {
    var skipped := stream.SkipWhiteSpace();
    if skipped.Fail? {
      return Fail(skipped.at);
    }
    var t := stream.PeekToken();
    if t.value.id == SquareClose {
      t := stream.NextToken();
      return Ok(true);
    }
    var matched := stream.Match(',');
    if matched.Fail? {
      return Fail(matched.at);
    }
    r := Ok(false);
  }

  /** parse: tokenises the text and reads one object from its start. */
  method Parse(json: string) returns (r: Result<Element>)
    ensures r == JsonGrammar.Parse(json)
  {
    var stream := new TokenStream(json);
    r := ParseJson(stream);
  }
}
