/** Parsing what toString writes gives back the same tree. Objects are
    rendered in the order of their member list, which stands for the
    HashMap's iteration order; the lemmas hold for every such order. */
module RoundTrip {
  import opened Results
  import opened JsonToken
  import opened JsonTokenStream
  import opened JsonElement
  import opened JsonGrammar
  import opened ParsedTrees

  /** The tokens from index i on are the classified characters of s. */
  ghost predicate Spells(ts: seq<Token>, i: nat, s: string)
    decreases s
  {
    i + |s| <= |ts| && (s == [] || (ts[i] == Classify(s[0]) && Spells(ts, i + 1, s[1..])))
  }

  /** Tokens that classify the characters of s one by one spell s. */
  lemma {:induction false} SpellsFromChars(ts: seq<Token>, i: nat, s: string)
    requires i + |s| <= |ts| && forall k :: 0 <= k < |s| ==> ts[i + k] == Classify(s[k])
    ensures Spells(ts, i, s)
    decreases s
  {
    if s != [] {
      forall k | 0 <= k < |s| - 1
        ensures ts[i + 1 + k] == Classify(s[1..][k])
      {
        assert ts[i + (k + 1)] == Classify(s[k + 1]);
      }
      SpellsFromChars(ts, i + 1, s[1..]);
    }
  }

  /** The token at offset k of a spelled string. */
  lemma {:induction false} SpellsAt(ts: seq<Token>, i: nat, s: string, k: nat)
    requires Spells(ts, i, s) && k < |s|
    ensures ts[i + k] == Classify(s[k])
    decreases k
  {
    if k > 0 {
      SpellsAt(ts, i + 1, s[1..], k - 1);
    }
  }

  /** Spelling a concatenation spells each part, one after the other. */
  lemma {:induction false} SpellsSplit(ts: seq<Token>, i: nat, a: string, b: string)
    requires Spells(ts, i, a + b)
    ensures Spells(ts, i, a) && Spells(ts, i + |a|, b)
    decreases a
  {
    if a == [] {
      assert a + b == b;
    } else {
      assert (a + b)[0] == a[0] && (a + b)[1..] == a[1..] + b;
      SpellsSplit(ts, i + 1, a[1..], b);
    }
  }

  /** The characters of spelled tokens are the string spelled. */
  lemma SpellsChars(ts: seq<Token>, i: nat, s: string)
    requires Spells(ts, i, s)
    ensures Chars(ts, i, i + |s|) == s
  {
    CharsAt(ts, i, i + |s|);
    forall n | 0 <= n < |s|
      ensures Chars(ts, i, i + |s|)[n] == s[n]
    {
      SpellsAt(ts, i, s, n);
    }
  }

  /** A quote-free string between quotes, followed by a token that is not
      whitespace, is read back by parseString. */
  lemma StringRoundTrip(ts: seq<Token>, j: nat, v: string)
    requires '"' !in v && Spells(ts, j, "\"" + v + "\"")
    requires j + |v| + 2 < |ts| && ts[j + |v| + 2].id != Whitespace
    ensures ParseStringAt(ts, j) == Ok(Parsed(v, j + |v| + 2))
  {
    var q := j + |v| + 1;
    SpellsSplit(ts, j, "\"" + v, "\"");
    SpellsSplit(ts, j, "\"", v);
    SpellsAt(ts, j, "\"", 0);
    SpellsAt(ts, q, "\"", 0);
    SkipWsTo(ts, j, j);
    forall n | j + 1 <= n < q
      ensures ts[n].id != Quote
    {
      SpellsAt(ts, j + 1, v, n - j - 1);
    }
    FindQuoteTo(ts, j + 1, q);
    SpellsChars(ts, j + 1, v);
    SkipWsTo(ts, q + 1, q + 1);
  }

  /** A well-formed value spelled at j, with only whitespace before it from
      i, is read back by the value switch; a leaf needs a token that is not
      whitespace after it, because parseString goes on to skip whitespace. */
  lemma {:induction false} ValueRoundTrip(ts: seq<Token>, i: nat, j: nat, e: Element)
    requires WellFormed(e) && i <= j && Spells(ts, j, Serialize(e)) && SkipWs(ts, i) == Ok(j)
    requires e.Leaf? ==> j + |Serialize(e)| < |ts| && ts[j + |Serialize(e)|].id != Whitespace
    ensures ParseValueAt(ts, i) == Ok(Parsed(e, j + |Serialize(e)|))
    decreases |Serialize(e)|, 1
  {
    SpellsAt(ts, j, Serialize(e), 0);
    match e
    case Leaf(v) =>
      StringRoundTrip(ts, j, v);
    case Arr(cs) =>
      ArrayRoundTrip(ts, j, cs);
    case Obj(ms) =>
      ObjectRoundTrip(ts, j, ms);
  }

  /** The tokens of a rendered array: '[' first, then either ']' at once
      or the children text with its closing bracket. */
  lemma ArrayText(ts: seq<Token>, j: nat, cs: seq<Element>)
    requires Spells(ts, j, Serialize(Arr(cs)))
    ensures j + 1 < |ts| && ts[j] == Token(SquareOpen, '[')
    ensures cs == [] ==> ts[j + 1] == Token(SquareClose, ']') && |Serialize(Arr(cs))| == 2
    ensures cs != [] ==> Spells(ts, j + 1, ItemsText(cs) + "]") && SkipWs(ts, j + 1) == Ok(j + 1)
    ensures cs != [] ==> |Serialize(Arr(cs))| == |ItemsText(cs)| + 2
  {
    var body := ItemsText(cs) + "]";
    assert Serialize(Arr(cs)) == "[" + body;
    SpellsSplit(ts, j, "[", body);
    SpellsAt(ts, j, "[", 0);
    SpellsAt(ts, j + 1, body, 0);
    if cs != [] {
      ItemsStart(cs);
      SkipWsTo(ts, j + 1, j + 1);
    }
  }

  /** parseArray at a '[': an immediate ']' is the empty array, anything
      else starts the element loop. */
  lemma ArrayOpens(ts: seq<Token>, j: nat)
    requires j + 1 < |ts| && ts[j] == Token(SquareOpen, '[')
    ensures ts[j + 1].id == SquareClose ==> ParseArrayAt(ts, j) == Ok(Parsed(Arr([]), j + 2))
    ensures ts[j + 1].id != SquareClose ==> ParseArrayAt(ts, j) == ArrayItems(ts, j + 1, [])
  {
    SkipWsTo(ts, j, j);
  }

  lemma {:induction false} ArrayRoundTrip(ts: seq<Token>, j: nat, cs: seq<Element>)
    requires WellFormed(Arr(cs)) && Spells(ts, j, Serialize(Arr(cs)))
    ensures ParseArrayAt(ts, j) == Ok(Parsed(Arr(cs), j + |Serialize(Arr(cs))|))
    decreases |Serialize(Arr(cs))|, 0
  {
    ArrayText(ts, j, cs);
    ArrayOpens(ts, j);
    if cs != [] {
      ItemsStart(cs);
      SpellsAt(ts, j + 1, ItemsText(cs) + "]", 0);
      assert cs[0..] == cs && cs[..0] == [];
      ItemsRoundTrip(ts, j + 1, j + 1, cs, 0);
    }
  }

  /** The rendering of a non-empty child list starts with its first child. */
  lemma ItemsStart(cs: seq<Element>)
    requires cs != []
    ensures (ItemsText(cs) + "]")[0] == Serialize(cs[0])[0]
  {
    assert ItemsText(cs) == Serialize(cs[0]) + (if |cs| == 1 then "" else ", " + ItemsText(cs[1..]));
  }

  /** The rendering of a non-empty member list starts with a quote. */
  lemma MembersStart(ms: seq<Member>)
    requires ms != []
    ensures (MembersText(ms) + "}")[0] == '"'
  {
    assert MembersText(ms) == MemberText(ms[0]) + (if |ms| == 1 then "" else ", " + MembersText(ms[1..]));
  }

  lemma AppendAssoc(a: string, b: string, c: string, d: string)
    ensures a + (b + c) + d == a + (b + (c + d))
  {
  }

  /** The children text with its closing bracket: the first child, then
      either the bracket or ", " and the rest. */
  lemma ItemsSplit(cs: seq<Element>)
    requires cs != []
    ensures |cs| == 1 ==> ItemsText(cs) + "]" == Serialize(cs[0]) + "]"
    ensures |cs| > 1 ==> ItemsText(cs) + "]" == Serialize(cs[0]) + (", " + (ItemsText(cs[1..]) + "]"))
  {
    if |cs| > 1 {
      assert ItemsText(cs) == Serialize(cs[0]) + (", " + ItemsText(cs[1..]));
      AppendAssoc(Serialize(cs[0]), ", ", ItemsText(cs[1..]), "]");
    }
  }

  /** The members text with its closing brace, split the same way. */
  lemma MembersSplit(ms: seq<Member>)
    requires ms != []
    ensures |ms| == 1 ==> MembersText(ms) + "}" == MemberText(ms[0]) + "}"
    ensures |ms| > 1 ==> MembersText(ms) + "}" == MemberText(ms[0]) + (", " + (MembersText(ms[1..]) + "}"))
  {
    if |ms| > 1 {
      assert MembersText(ms) == MemberText(ms[0]) + (", " + MembersText(ms[1..]));
      AppendAssoc(MemberText(ms[0]), ", ", MembersText(ms[1..]), "}");
    }
  }

  /** One turn of the array loop: a value, then the end of the turn. */
  lemma ArrayItemsStep(ts: seq<Token>, i: nat, acc: seq<Element>)
    requires i <= |ts| && ParseValueAt(ts, i).Ok?
    ensures ArrayItems(ts, i, acc)
         == ArrayRest(ts, ParseValueAt(ts, i).value.next, acc + [ParseValueAt(ts, i).value.item])
  {
  }

  /** The end of a turn of the array loop at ']' or at ','. */
  lemma ArrayRestAt(ts: seq<Token>, m: nat, acc: seq<Element>)
    requires m < |ts| && (ts[m] == Token(SquareClose, ']') || ts[m] == Token(Comma, ','))
    ensures ts[m].ch == ']' ==> ArrayRest(ts, m, acc) == Ok(Parsed(Arr(acc), m + 1))
    ensures ts[m].ch == ',' ==> ArrayRest(ts, m, acc) == ArrayItems(ts, m + 1, acc)
  {
    SkipWsTo(ts, m, m);
  }

  /** ", " and then a spelled string that starts with a token other than
      whitespace: the comma, and whitespace skipping lands after the space. */
  lemma SpellsSeparator(ts: seq<Token>, m: nat, tail: string)
    requires Spells(ts, m, ", " + tail) && tail != [] && Classify(tail[0]).id != Whitespace
    ensures ts[m] == Token(Comma, ',') && Spells(ts, m + 2, tail) && SkipWs(ts, m + 1) == Ok(m + 2)
  {
    SpellsSplit(ts, m, ", ", tail);
    SpellsAt(ts, m, ", ", 0);
    SpellsAt(ts, m, ", ", 1);
    SpellsAt(ts, m + 2, tail, 0);
    SkipWsTo(ts, m + 1, m + 2);
  }

  /** The children text after its first child: ']' for one child, or the
      comma, a space and the rest. */
  lemma ItemsAfterFirst(ts: seq<Token>, j: nat, cs: seq<Element>)
    requires cs != [] && Spells(ts, j, ItemsText(cs) + "]")
    ensures Spells(ts, j, Serialize(cs[0]))
    ensures |cs| == 1 ==> ts[j + |Serialize(cs[0])|] == Token(SquareClose, ']')
    ensures |cs| == 1 ==> |ItemsText(cs)| == |Serialize(cs[0])|
    ensures |cs| > 1 ==> ts[j + |Serialize(cs[0])|] == Token(Comma, ',')
    ensures |cs| > 1 ==> SkipWs(ts, j + |Serialize(cs[0])| + 1) == Ok(j + |Serialize(cs[0])| + 2)
    ensures |cs| > 1 ==> Spells(ts, j + |Serialize(cs[0])| + 2, ItemsText(cs[1..]) + "]")
    ensures |cs| > 1 ==> |ItemsText(cs)| == |Serialize(cs[0])| + 2 + |ItemsText(cs[1..])|
  {
    var s0 := Serialize(cs[0]);
    var m := j + |s0|;
    ItemsSplit(cs);
    if |cs| == 1 {
      SpellsSplit(ts, j, s0, "]");
      SpellsAt(ts, m, "]", 0);
    } else {
      var tail := ItemsText(cs[1..]) + "]";
      ItemsStart(cs[1..]);
      SpellsSplit(ts, j, s0, ", " + tail);
      SpellsSeparator(ts, m, tail);
    }
  }

  /** The children text from child n on, after that child. */
  lemma ItemsAfter(ts: seq<Token>, j: nat, cs: seq<Element>, n: nat)
    requires n < |cs| && Spells(ts, j, ItemsText(cs[n..]) + "]")
    ensures Spells(ts, j, Serialize(cs[n]))
    ensures n + 1 == |cs| ==> ts[j + |Serialize(cs[n])|] == Token(SquareClose, ']')
    ensures n + 1 == |cs| ==> |ItemsText(cs[n..])| == |Serialize(cs[n])|
    ensures n + 1 < |cs| ==> ts[j + |Serialize(cs[n])|] == Token(Comma, ',')
    ensures n + 1 < |cs| ==> SkipWs(ts, j + |Serialize(cs[n])| + 1) == Ok(j + |Serialize(cs[n])| + 2)
    ensures n + 1 < |cs| ==> Spells(ts, j + |Serialize(cs[n])| + 2, ItemsText(cs[n + 1..]) + "]")
    ensures n + 1 < |cs| ==> |ItemsText(cs[n..])| == |Serialize(cs[n])| + 2 + |ItemsText(cs[n + 1..])|
  {
    SplitAt(cs, n);
    ItemsAfterFirst(ts, j, cs[n..]);
  }

  /** The element loop, entered at i with acc already added, builds the
      array of cs and stops just before e. */
  ghost predicate ArrayLoopEnds(ts: seq<Token>, i: nat, acc: seq<Element>, cs: seq<Element>, e: nat)
  {
    i <= |ts| && ArrayItems(ts, i, acc) == Ok(Parsed(Arr(cs), e))
  }

  /** One turn of the array loop that reads child n: after the last child
      it ends the array at ']', otherwise it goes on after the comma and the
      rest of the loop decides the outcome. */
  lemma ItemsTurn(ts: seq<Token>, i: nat, cs: seq<Element>, n: nat, m: nat, e: nat)
    requires n < |cs| && i <= |ts| && ParseValueAt(ts, i) == Ok(Parsed(cs[n], m)) && m < |ts|
    requires || (ts[m] == Token(SquareClose, ']') && n + 1 == |cs| && e == m + 1)
             || (ts[m] == Token(Comma, ',') && ArrayLoopEnds(ts, m + 1, cs[..n + 1], cs, e))
    ensures ArrayLoopEnds(ts, i, cs[..n], cs, e)
  {
    SplitAt(cs, n);
    ArrayItemsStep(ts, i, cs[..n]);
    ArrayRestAt(ts, m, cs[..n + 1]);
  }

  /** The element loop from child n on: with the first n children already
      added, it adds the rest and stops after the closing bracket. */
  lemma {:induction false} ItemsRoundTrip(ts: seq<Token>, i: nat, j: nat, cs: seq<Element>, n: nat)
    requires n < |cs| && forall k :: 0 <= k < |cs| ==> WellFormed(cs[k])
    requires i <= j && Spells(ts, j, ItemsText(cs[n..]) + "]") && SkipWs(ts, i) == Ok(j)
    ensures ArrayLoopEnds(ts, i, cs[..n], cs, j + |ItemsText(cs[n..])| + 1)
    decreases |ItemsText(cs[n..])|, 3
  {
    if n + 1 == |cs| {
      ItemsLast(ts, i, j, cs, n);
    } else {
      ItemsNext(ts, i, j, cs, n);
    }
  }

  /** The last turn of the element loop: the child, then ']'. */
  lemma {:induction false} ItemsLast(ts: seq<Token>, i: nat, j: nat, cs: seq<Element>, n: nat)
    requires n + 1 == |cs| && WellFormed(cs[n])
    requires i <= j && Spells(ts, j, ItemsText(cs[n..]) + "]") && SkipWs(ts, i) == Ok(j)
    ensures ArrayLoopEnds(ts, i, cs[..n], cs, j + |ItemsText(cs[n..])| + 1)
    decreases |ItemsText(cs[n..])|, 2
  {
    var m := j + |Serialize(cs[n])|;
    ItemsAfter(ts, j, cs, n);
    ValueRoundTrip(ts, i, j, cs[n]);
    ItemsTurn(ts, i, cs, n, m, j + |ItemsText(cs[n..])| + 1);
  }

  /** A turn of the element loop before the last: the child, ',' and the
      loop again from the next child. */
  lemma {:induction false} ItemsNext(ts: seq<Token>, i: nat, j: nat, cs: seq<Element>, n: nat)
    requires n + 1 < |cs| && forall k :: 0 <= k < |cs| ==> WellFormed(cs[k])
    requires i <= j && Spells(ts, j, ItemsText(cs[n..]) + "]") && SkipWs(ts, i) == Ok(j)
    ensures ArrayLoopEnds(ts, i, cs[..n], cs, j + |ItemsText(cs[n..])| + 1)
    decreases |ItemsText(cs[n..])|, 2
  {
    var m := j + |Serialize(cs[n])|;
    ItemThenComma(ts, i, j, cs, n);
    ItemsRoundTrip(ts, m + 1, m + 2, cs, n + 1);
    ItemsTurn(ts, i, cs, n, m, j + |ItemsText(cs[n..])| + 1);
  }

  /** Child n read back, when more children follow: the comma after it, and
      the rest of the text spelled after the space. */
  lemma {:induction false} ItemThenComma(ts: seq<Token>, i: nat, j: nat, cs: seq<Element>, n: nat)
    requires n + 1 < |cs| && WellFormed(cs[n])
    requires i <= j && Spells(ts, j, ItemsText(cs[n..]) + "]") && SkipWs(ts, i) == Ok(j)
    ensures ParseValueAt(ts, i) == Ok(Parsed(cs[n], j + |Serialize(cs[n])|))
    ensures j + |Serialize(cs[n])| < |ts| && ts[j + |Serialize(cs[n])|] == Token(Comma, ',')
    ensures SkipWs(ts, j + |Serialize(cs[n])| + 1) == Ok(j + |Serialize(cs[n])| + 2)
    ensures Spells(ts, j + |Serialize(cs[n])| + 2, ItemsText(cs[n + 1..]) + "]")
    ensures |ItemsText(cs[n..])| == |Serialize(cs[n])| + 2 + |ItemsText(cs[n + 1..])|
    decreases |ItemsText(cs[n..])|, 1
  {
    ItemsAfter(ts, j, cs, n);
    ValueRoundTrip(ts, i, j, cs[n]);
  }

  /** Moving the split point of a list one place on. */
  lemma SplitAt<T>(xs: seq<T>, n: nat)
    requires n < |xs|
    ensures xs[n..][0] == xs[n] && xs[n..][1..] == xs[n + 1..]
    ensures xs[..n] + [xs[n]] == xs[..n + 1]
    ensures n + 1 == |xs| ==> xs[..n + 1] == xs
  {
  }

  /** The tokens of a rendered object: '{' first, then either '}' at once
      or the members text with its closing brace. */
  lemma ObjectText(ts: seq<Token>, j: nat, ms: seq<Member>)
    requires Spells(ts, j, Serialize(Obj(ms)))
    ensures j + 1 < |ts| && ts[j] == Token(CurlyOpen, '{')
    ensures ms == [] ==> ts[j + 1] == Token(CurlyClose, '}') && |Serialize(Obj(ms))| == 2
    ensures ms != [] ==> ts[j + 1] == Token(Quote, '"')
    ensures ms != [] ==> Spells(ts, j + 1, MembersText(ms) + "}") && SkipWs(ts, j + 1) == Ok(j + 1)
    ensures ms != [] ==> |Serialize(Obj(ms))| == |MembersText(ms)| + 2
  {
    var body := MembersText(ms) + "}";
    assert Serialize(Obj(ms)) == "{" + body;
    SpellsSplit(ts, j, "{", body);
    SpellsAt(ts, j, "{", 0);
    SpellsAt(ts, j + 1, body, 0);
    if ms != [] {
      MembersStart(ms);
      SkipWsTo(ts, j + 1, j + 1);
    }
  }

  /** parseJson at a '{': an immediate '}' is the empty object, anything
      else starts the member loop. */
  lemma ObjectOpens(ts: seq<Token>, j: nat)
    requires j + 1 < |ts| && ts[j] == Token(CurlyOpen, '{')
    ensures ts[j + 1].id == CurlyClose ==> ParseObjectAt(ts, j) == Ok(Parsed(Obj([]), j + 2))
    ensures ts[j + 1].id != CurlyClose ==> ParseObjectAt(ts, j) == ObjectMembers(ts, j + 1, [])
  {
    SkipWsTo(ts, j, j);
  }

  lemma {:induction false} ObjectRoundTrip(ts: seq<Token>, j: nat, ms: seq<Member>)
    requires WellFormed(Obj(ms)) && Spells(ts, j, Serialize(Obj(ms)))
    ensures ParseObjectAt(ts, j) == Ok(Parsed(Obj(ms), j + |Serialize(Obj(ms))|))
    decreases |Serialize(Obj(ms))|, 0
  {
    ObjectText(ts, j, ms);
    ObjectOpens(ts, j);
    if ms != [] {
      assert ms[0..] == ms && ms[..0] == [];
      MembersRoundTrip(ts, j + 1, j + 1, ms, 0);
    }
  }

  /** One turn of the object loop: a member, put, then the end of the turn. */
  lemma ObjectMembersStep(ts: seq<Token>, i: nat, acc: seq<Member>)
    requires i <= |ts| && MemberAt(ts, i).Ok?
    ensures ObjectMembers(ts, i, acc)
         == ObjectRest(ts, MemberAt(ts, i).value.next,
                       Put(acc, MemberAt(ts, i).value.item.key, MemberAt(ts, i).value.item.value))
  {
  }

  /** The end of a turn of the object loop at '}' or at ','. */
  lemma ObjectRestAt(ts: seq<Token>, m: nat, acc: seq<Member>)
    requires m < |ts| && (ts[m] == Token(CurlyClose, '}') || ts[m] == Token(Comma, ','))
    ensures ts[m].ch == '}' ==> ObjectRest(ts, m, acc) == Ok(Parsed(Obj(acc), m + 1))
    ensures ts[m].ch == ',' ==> ObjectRest(ts, m, acc) == ObjectMembers(ts, m + 1, acc)
  {
    SkipWsTo(ts, m, m);
  }

  /** The members text after its first entry: '}' for one member, or the
      comma, a space and the rest. */
  lemma MembersAfterFirst(ts: seq<Token>, j: nat, ms: seq<Member>)
    requires ms != [] && Spells(ts, j, MembersText(ms) + "}")
    ensures Spells(ts, j, MemberText(ms[0]))
    ensures |ms| == 1 ==> ts[j + |MemberText(ms[0])|] == Token(CurlyClose, '}')
    ensures |ms| == 1 ==> |MembersText(ms)| == |MemberText(ms[0])|
    ensures |ms| > 1 ==> ts[j + |MemberText(ms[0])|] == Token(Comma, ',')
    ensures |ms| > 1 ==> SkipWs(ts, j + |MemberText(ms[0])| + 1) == Ok(j + |MemberText(ms[0])| + 2)
    ensures |ms| > 1 ==> Spells(ts, j + |MemberText(ms[0])| + 2, MembersText(ms[1..]) + "}")
    ensures |ms| > 1 ==> |MembersText(ms)| == |MemberText(ms[0])| + 2 + |MembersText(ms[1..])|
  {
    var s0 := MemberText(ms[0]);
    var m := j + |s0|;
    MembersSplit(ms);
    if |ms| == 1 {
      SpellsSplit(ts, j, s0, "}");
      SpellsAt(ts, m, "}", 0);
    } else {
      var tail := MembersText(ms[1..]) + "}";
      MembersStart(ms[1..]);
      SpellsSplit(ts, j, s0, ", " + tail);
      SpellsSeparator(ts, m, tail);
    }
  }

  /** The members text from entry n on, after that entry. */
  lemma MembersAfter(ts: seq<Token>, j: nat, ms: seq<Member>, n: nat)
    requires n < |ms| && Spells(ts, j, MembersText(ms[n..]) + "}")
    ensures Spells(ts, j, MemberText(ms[n]))
    ensures n + 1 == |ms| ==> ts[j + |MemberText(ms[n])|] == Token(CurlyClose, '}')
    ensures n + 1 == |ms| ==> |MembersText(ms[n..])| == |MemberText(ms[n])|
    ensures n + 1 < |ms| ==> ts[j + |MemberText(ms[n])|] == Token(Comma, ',')
    ensures n + 1 < |ms| ==> SkipWs(ts, j + |MemberText(ms[n])| + 1) == Ok(j + |MemberText(ms[n])| + 2)
    ensures n + 1 < |ms| ==> Spells(ts, j + |MemberText(ms[n])| + 2, MembersText(ms[n + 1..]) + "}")
    ensures n + 1 < |ms| ==> |MembersText(ms[n..])| == |MemberText(ms[n])| + 2 + |MembersText(ms[n + 1..])|
  {
    SplitAt(ms, n);
    MembersAfterFirst(ts, j, ms[n..]);
  }

  /** The member loop, entered at i with acc already put, builds the
      object of ms and stops just before e. */
  ghost predicate ObjectLoopEnds(ts: seq<Token>, i: nat, acc: seq<Member>, ms: seq<Member>, e: nat)
  {
    i <= |ts| && ObjectMembers(ts, i, acc) == Ok(Parsed(Obj(ms), e))
  }

  /** One turn of the object loop that reads entry n: after the last entry
      it ends the object at '}', otherwise it goes on after the comma and
      the rest of the loop decides the outcome. */
  lemma MembersTurn(ts: seq<Token>, i: nat, ms: seq<Member>, n: nat, m: nat, e: nat)
    requires n < |ms| && DistinctKeys(ms) && i <= |ts| && MemberAt(ts, i) == Ok(Parsed(ms[n], m)) && m < |ts|
    requires || (ts[m] == Token(CurlyClose, '}') && n + 1 == |ms| && e == m + 1)
             || (ts[m] == Token(Comma, ',') && ObjectLoopEnds(ts, m + 1, ms[..n + 1], ms, e))
    ensures ObjectLoopEnds(ts, i, ms[..n], ms, e)
  {
    SplitAt(ms, n);
    ObjectMembersStep(ts, i, ms[..n]);
    PutNext(ms, n);
    ObjectRestAt(ts, m, ms[..n + 1]);
  }

  /** The member loop from entry n on: with the first n members already
      put, it puts the rest and stops after the closing brace. */
  lemma {:induction false} MembersRoundTrip(ts: seq<Token>, i: nat, j: nat, ms: seq<Member>, n: nat)
    requires n < |ms| && DistinctKeys(ms) && forall k :: 0 <= k < |ms| ==> MemberOk(ms[k])
    requires i <= j && Spells(ts, j, MembersText(ms[n..]) + "}") && SkipWs(ts, i) == Ok(j)
    ensures ObjectLoopEnds(ts, i, ms[..n], ms, j + |MembersText(ms[n..])| + 1)
    decreases |MembersText(ms[n..])|, 3
  {
    if n + 1 == |ms| {
      MembersLast(ts, i, j, ms, n);
    } else {
      MembersNext(ts, i, j, ms, n);
    }
  }

  /** The last turn of the member loop: the entry, then '}'. */
  lemma {:induction false} MembersLast(ts: seq<Token>, i: nat, j: nat, ms: seq<Member>, n: nat)
    requires n + 1 == |ms| && DistinctKeys(ms) && MemberOk(ms[n])
    requires i <= j && Spells(ts, j, MembersText(ms[n..]) + "}") && SkipWs(ts, i) == Ok(j)
    ensures ObjectLoopEnds(ts, i, ms[..n], ms, j + |MembersText(ms[n..])| + 1)
    decreases |MembersText(ms[n..])|, 2
  {
    var m := j + |MemberText(ms[n])|;
    MembersAfter(ts, j, ms, n);
    MemberRoundTrip(ts, i, j, ms[n]);
    MembersTurn(ts, i, ms, n, m, j + |MembersText(ms[n..])| + 1);
  }

  /** A turn of the member loop before the last: the entry, ',' and the
      loop again from the next entry. */
  lemma {:induction false} MembersNext(ts: seq<Token>, i: nat, j: nat, ms: seq<Member>, n: nat)
    requires n + 1 < |ms| && DistinctKeys(ms) && forall k :: 0 <= k < |ms| ==> MemberOk(ms[k])
    requires i <= j && Spells(ts, j, MembersText(ms[n..]) + "}") && SkipWs(ts, i) == Ok(j)
    ensures ObjectLoopEnds(ts, i, ms[..n], ms, j + |MembersText(ms[n..])| + 1)
    decreases |MembersText(ms[n..])|, 2
  {
    var m := j + |MemberText(ms[n])|;
    MemberThenComma(ts, i, j, ms, n);
    MembersRoundTrip(ts, m + 1, m + 2, ms, n + 1);
    MembersTurn(ts, i, ms, n, m, j + |MembersText(ms[n..])| + 1);
  }

  /** Entry n read back, when more entries follow: the comma after it, and
      the rest of the text spelled after the space. */
  lemma {:induction false} MemberThenComma(ts: seq<Token>, i: nat, j: nat, ms: seq<Member>, n: nat)
    requires n + 1 < |ms| && MemberOk(ms[n])
    requires i <= j && Spells(ts, j, MembersText(ms[n..]) + "}") && SkipWs(ts, i) == Ok(j)
    ensures MemberAt(ts, i) == Ok(Parsed(ms[n], j + |MemberText(ms[n])|))
    ensures j + |MemberText(ms[n])| < |ts| && ts[j + |MemberText(ms[n])|] == Token(Comma, ',')
    ensures SkipWs(ts, j + |MemberText(ms[n])| + 1) == Ok(j + |MemberText(ms[n])| + 2)
    ensures Spells(ts, j + |MemberText(ms[n])| + 2, MembersText(ms[n + 1..]) + "}")
    ensures |MembersText(ms[n..])| == |MemberText(ms[n])| + 2 + |MembersText(ms[n + 1..])|
    decreases |MembersText(ms[n..])|, 1
  {
    MembersAfter(ts, j, ms, n);
    MemberRoundTrip(ts, i, j, ms[n]);
  }

  /** Putting entry n after the first n, all names distinct, appends it. */
  lemma PutNext(ms: seq<Member>, n: nat)
    requires n < |ms| && DistinctKeys(ms)
    ensures Put(ms[..n], ms[n].key, ms[n].value) == ms[..n + 1]
  {
    NewKeyAt(ms, n);
    PutNew(ms[..n], ms[n].key, ms[n].value);
    SplitAt(ms, n);
  }

  /** With distinct names, entry n's name is not among the first n. */
  lemma NewKeyAt(ms: seq<Member>, n: nat)
    requires n < |ms| && DistinctKeys(ms)
    ensures ms[n].key !in Keys(ms[..n])
  {
    forall p | 0 <= p < n
      ensures ms[..n][p].key != ms[n].key
    {
      assert ms[..n][p] == ms[p];
    }
  }

  /** The tokens of a rendered entry: the quoted name, ':' and the value. */
  lemma MemberTokens(ts: seq<Token>, j: nat, mem: Member)
    requires Spells(ts, j, MemberText(mem))
    ensures Spells(ts, j, "\"" + mem.key + "\"")
    ensures ts[j + |mem.key| + 2] == Token(Colon, ':')
    ensures Spells(ts, j + |mem.key| + 3, Serialize(mem.value))
    ensures SkipWs(ts, j + |mem.key| + 3) == Ok(j + |mem.key| + 3)
    ensures |MemberText(mem)| == |mem.key| + 3 + |Serialize(mem.value)|
  {
    var name := "\"" + mem.key + "\"";
    var tail := ":" + Serialize(mem.value);
    assert MemberText(mem) == name + tail;
    SpellsSplit(ts, j, name, tail);
    SpellsColon(ts, j + |name|, Serialize(mem.value));
  }

  /** ':' and then a spelled string that starts with a token other than
      whitespace: the colon, and whitespace skipping stays after it. */
  lemma SpellsColon(ts: seq<Token>, c: nat, v: string)
    requires Spells(ts, c, ":" + v) && v != [] && Classify(v[0]).id != Whitespace
    ensures ts[c] == Token(Colon, ':') && Spells(ts, c + 1, v) && SkipWs(ts, c + 1) == Ok(c + 1)
  {
    SpellsSplit(ts, c, ":", v);
    SpellsAt(ts, c, ":", 0);
    SpellsAt(ts, c + 1, v, 0);
    SkipWsTo(ts, c + 1, c + 1);
  }

  /** memberAt as the sequence of its four steps. */
  lemma MemberSteps(ts: seq<Token>, i: nat, j: nat, key: string, c: nat, v: Element, m: nat)
    requires i <= j <= |ts| && SkipWs(ts, i) == Ok(j) && ParseStringAt(ts, j) == Ok(Parsed(key, c))
    requires c < |ts| && ts[c] == Token(Colon, ':') && ParseValueAt(ts, c + 1) == Ok(Parsed(v, m))
    ensures MemberAt(ts, i) == Ok(Parsed(Member(key, v), m))
  {
  }

  /** One "name":value entry followed by a token that is not whitespace. */
  lemma {:induction false} MemberRoundTrip(ts: seq<Token>, i: nat, j: nat, mem: Member)
    requires MemberOk(mem) && i <= j && Spells(ts, j, MemberText(mem)) && SkipWs(ts, i) == Ok(j)
    requires j + |MemberText(mem)| < |ts| && ts[j + |MemberText(mem)|].id != Whitespace
    ensures MemberAt(ts, i) == Ok(Parsed(mem, j + |MemberText(mem)|))
    decreases |MemberText(mem)|, 0
  {
    var c := j + |mem.key| + 2;
    MemberTokens(ts, j, mem);
    StringRoundTrip(ts, j, mem.key);
    ValueRoundTrip(ts, c + 1, c + 1, mem.value);
    MemberSteps(ts, i, j, mem.key, c, mem.value, j + |MemberText(mem)|);
  }

  /** toString, parsed again, gives back every well-formed object tree. */
  lemma SerializeRoundTrip(e: Element)
    requires WellFormed(e) && e.Obj?
    ensures Parse(Serialize(e)) == Ok(e)
  {
    var ts := Tokenize(Serialize(e));
    SpellsFromChars(ts, 0, Serialize(e));
    ObjectRoundTrip(ts, 0, e.members);
  }

  /** For any tree parse returns, parsing its toString gives the same tree. */
  lemma ReparseSerialized(json: string)
    requires Parse(json).Ok?
    ensures Parse(Serialize(Parse(json).value)) == Parse(json)
  {
    ParseWellFormed(json);
    SerializeRoundTrip(Parse(json).value);
  }
}
