/** parse never looks past the closing brace of the object it returns. Two
    directions: a successful parse reads the same tree from any longer token
    list that starts with the same tokens (the Prefix lemmas), and from the
    token list cut right after the root's closing brace (the Cut lemmas).
    The lemmas follow the grammar functions one by one, by induction on the
    same measure. */
module TrailingText {
  import opened Results
  import opened JsonToken
  import opened JsonTokenStream
  import opened JsonElement
  import opened JsonGrammar

  /** us starts with the tokens of ts. */
  ghost predicate Extends(ts: seq<Token>, us: seq<Token>)
  {
    |ts| <= |us| && us[..|ts|] == ts
  }

  lemma {:induction false} SkipWsPrefix(ts: seq<Token>, us: seq<Token>, i: nat)
    requires Extends(ts, us) && i <= |ts|
    ensures SkipWs(ts, i).Ok? ==> SkipWs(us, i) == SkipWs(ts, i)
    decreases |ts| - i
  {
    if i < |ts| {
      assert us[i] == ts[i];
      if ts[i].id == Whitespace {
        SkipWsPrefix(ts, us, i + 1);
      }
    }
  }

  lemma {:induction false} FindQuotePrefix(ts: seq<Token>, us: seq<Token>, k: nat)
    requires Extends(ts, us) && k <= |ts|
    ensures FindQuote(ts, k).Ok? ==> FindQuote(us, k) == FindQuote(ts, k)
    decreases |ts| - k
  {
    if k < |ts| {
      assert us[k] == ts[k];
      if ts[k].id != Quote {
        FindQuotePrefix(ts, us, k + 1);
      }
    }
  }

  lemma {:induction false} CharsPrefix(ts: seq<Token>, us: seq<Token>, k: nat, q: nat)
    requires Extends(ts, us) && k <= q <= |ts|
    ensures Chars(us, k, q) == Chars(ts, k, q)
    decreases q - k
  {
    if k < q {
      assert us[q - 1] == ts[q - 1];
      CharsPrefix(ts, us, k, q - 1);
    }
  }

  /** A match inside ts gives the same answer on us. */
  lemma MatchPrefix(ts: seq<Token>, us: seq<Token>, i: nat, c: char)
    requires Extends(ts, us) && i <= |ts|
    ensures MatchAt(ts, i, c).Ok? ==> MatchAt(us, i, c) == MatchAt(ts, i, c)
  {
    if i < |ts| {
      assert us[i] == ts[i];
    }
  }

  lemma StringPrefix(ts: seq<Token>, us: seq<Token>, i: nat)
    requires Extends(ts, us) && i <= |ts|
    ensures ParseStringAt(ts, i).Ok? ==> ParseStringAt(us, i) == ParseStringAt(ts, i)
  {
    if ParseStringAt(ts, i).Ok? {
      var j := SkipWs(ts, i).value;
      SkipWsPrefix(ts, us, i);
      MatchPrefix(ts, us, j, '"');
      var q := FindQuote(ts, j + 1).value;
      FindQuotePrefix(ts, us, j + 1);
      CharsPrefix(ts, us, j + 1, q);
      SkipWsPrefix(ts, us, q + 1);
    }
  }

  lemma {:induction false} ValuePrefix(ts: seq<Token>, us: seq<Token>, i: nat)
    requires Extends(ts, us) && i <= |ts|
    ensures ParseValueAt(ts, i).Ok? ==> ParseValueAt(us, i) == ParseValueAt(ts, i)
    decreases |ts| - i, 2
  {
    if ParseValueAt(ts, i).Ok? {
      var j := SkipWs(ts, i).value;
      SkipWsPrefix(ts, us, i);
      assert us[j] == ts[j];
      if ts[j].id == SquareOpen {
        ArrayPrefix(ts, us, j);
      } else if ts[j].id == CurlyOpen {
        ObjectPrefix(ts, us, j);
      } else {
        StringPrefix(ts, us, j);
      }
    }
  }

  lemma {:induction false} ObjectPrefix(ts: seq<Token>, us: seq<Token>, i: nat)
    requires Extends(ts, us) && i <= |ts|
    ensures ParseObjectAt(ts, i).Ok? ==> ParseObjectAt(us, i) == ParseObjectAt(ts, i)
    decreases |ts| - i, 1
  {
    if ParseObjectAt(ts, i).Ok? {
      var j := SkipWs(ts, i).value;
      SkipWsPrefix(ts, us, i);
      MatchPrefix(ts, us, j, '{');
      assert us[j + 1] == ts[j + 1];
      if ts[j + 1].id != CurlyClose {
        MembersPrefix(ts, us, j + 1, []);
      }
    }
  }

  lemma {:induction false} MembersPrefix(ts: seq<Token>, us: seq<Token>, i: nat, acc: seq<Member>)
    requires Extends(ts, us) && i <= |ts|
    ensures ObjectMembers(ts, i, acc).Ok? ==> ObjectMembers(us, i, acc) == ObjectMembers(ts, i, acc)
    decreases |ts| - i, 4
  {
    if ObjectMembers(ts, i, acc).Ok? {
      MemberPrefix(ts, us, i);
      var member, m := MemberAt(ts, i).value.item, MemberAt(ts, i).value.next;
      ObjectRestPrefix(ts, us, m, Put(acc, member.key, member.value));
    }
  }

  lemma {:induction false} MemberPrefix(ts: seq<Token>, us: seq<Token>, i: nat)
    requires Extends(ts, us) && i <= |ts|
    ensures MemberAt(ts, i).Ok? ==> MemberAt(us, i) == MemberAt(ts, i)
    decreases |ts| - i, 3
  {
    if MemberAt(ts, i).Ok? {
      var i1 := SkipWs(ts, i).value;
      SkipWsPrefix(ts, us, i);
      StringPrefix(ts, us, i1);
      var j := ParseStringAt(ts, i1).value.next;
      MatchPrefix(ts, us, j, ':');
      ValuePrefix(ts, us, j + 1);
    }
  }

  lemma {:induction false} ObjectRestPrefix(ts: seq<Token>, us: seq<Token>, m: nat, acc: seq<Member>)
    requires Extends(ts, us) && m <= |ts|
    ensures ObjectRest(ts, m, acc).Ok? ==> ObjectRest(us, m, acc) == ObjectRest(ts, m, acc)
    decreases |ts| - m, 3
  {
    if ObjectRest(ts, m, acc).Ok? {
      var n := SkipWs(ts, m).value;
      SkipWsPrefix(ts, us, m);
      assert us[n] == ts[n];
      if ts[n].id != CurlyClose {
        MatchPrefix(ts, us, n, ',');
        MembersPrefix(ts, us, n + 1, acc);
      }
    }
  }

  lemma {:induction false} ArrayPrefix(ts: seq<Token>, us: seq<Token>, i: nat)
    requires Extends(ts, us) && i <= |ts|
    ensures ParseArrayAt(ts, i).Ok? ==> ParseArrayAt(us, i) == ParseArrayAt(ts, i)
    decreases |ts| - i, 1
  {
    if ParseArrayAt(ts, i).Ok? {
      var j := SkipWs(ts, i).value;
      SkipWsPrefix(ts, us, i);
      MatchPrefix(ts, us, j, '[');
      assert us[j + 1] == ts[j + 1];
      if ts[j + 1].id != SquareClose {
        ItemsPrefix(ts, us, j + 1, []);
      }
    }
  }

  lemma {:induction false} ItemsPrefix(ts: seq<Token>, us: seq<Token>, i: nat, acc: seq<Element>)
    requires Extends(ts, us) && i <= |ts|
    ensures ArrayItems(ts, i, acc).Ok? ==> ArrayItems(us, i, acc) == ArrayItems(ts, i, acc)
    decreases |ts| - i, 3
  {
    if ArrayItems(ts, i, acc).Ok? {
      ValuePrefix(ts, us, i);
      var v, m := ParseValueAt(ts, i).value.item, ParseValueAt(ts, i).value.next;
      ArrayRestPrefix(ts, us, m, acc + [v]);
    }
  }

  lemma {:induction false} ArrayRestPrefix(ts: seq<Token>, us: seq<Token>, m: nat, acc: seq<Element>)
    requires Extends(ts, us) && m <= |ts|
    ensures ArrayRest(ts, m, acc).Ok? ==> ArrayRest(us, m, acc) == ArrayRest(ts, m, acc)
    decreases |ts| - m, 3
  {
    if ArrayRest(ts, m, acc).Ok? {
      var n := SkipWs(ts, m).value;
      SkipWsPrefix(ts, us, m);
      assert us[n] == ts[n];
      if ts[n].id != SquareClose {
        MatchPrefix(ts, us, n, ',');
        ItemsPrefix(ts, us, n + 1, acc);
      }
    }
  }

  /** Text after the root object changes nothing about a successful parse. */
  lemma ParseIgnoresTrailing(json: string, extra: string)
    requires Parse(json).Ok?
    ensures Parse(json + extra) == Parse(json)
  {
    var ts := Tokenize(json);
    TokenizeAppend(json, extra);
    assert (ts + Tokenize(extra))[..|ts|] == ts;
    ObjectPrefix(ts, Tokenize(json + extra), 0);
  }

  /** How far a successful value read looked: a leaf's string read skipped
      the whitespace after its closing quote and stopped on the token at
      next; a container read ended on its closing bracket, at next - 1. */
  function Reach(p: Parsed<Element>): (n: nat)
    ensures n == p.next || (p.item.Leaf? && n == p.next + 1)
  {
    if p.item.Leaf? then p.next + 1 else p.next
  }

  lemma {:induction false} SkipWsCut(ts: seq<Token>, us: seq<Token>, i: nat)
    requires Extends(ts, us) && i <= |ts|
    requires SkipWs(us, i).Ok? && SkipWs(us, i).value < |ts|
    ensures SkipWs(ts, i) == SkipWs(us, i)
    decreases |ts| - i
  {
    assert us[i] == ts[i];
    if ts[i].id == Whitespace {
      SkipWsCut(ts, us, i + 1);
    }
  }

  lemma {:induction false} FindQuoteCut(ts: seq<Token>, us: seq<Token>, k: nat)
    requires Extends(ts, us) && k <= |ts|
    requires FindQuote(us, k).Ok? && FindQuote(us, k).value < |ts|
    ensures FindQuote(ts, k) == FindQuote(us, k)
    decreases |ts| - k
  {
    assert us[k] == ts[k];
    if ts[k].id != Quote {
      FindQuoteCut(ts, us, k + 1);
    }
  }

  /** A match on a token inside ts gives the same answer on both lists. */
  lemma MatchCut(ts: seq<Token>, us: seq<Token>, i: nat, c: char)
    requires Extends(ts, us) && i < |ts|
    ensures MatchAt(ts, i, c) == MatchAt(us, i, c)
  {
    assert us[i] == ts[i];
  }

  lemma StringCut(ts: seq<Token>, us: seq<Token>, i: nat)
    requires Extends(ts, us) && i <= |ts|
    requires ParseStringAt(us, i).Ok? && ParseStringAt(us, i).value.next < |ts|
    ensures ParseStringAt(ts, i) == ParseStringAt(us, i)
  {
    var j := SkipWs(us, i).value;
    SkipWsCut(ts, us, i);
    MatchCut(ts, us, j, '"');
    var q := FindQuote(us, j + 1).value;
    FindQuoteCut(ts, us, j + 1);
    CharsPrefix(ts, us, j + 1, q);
    SkipWsCut(ts, us, q + 1);
  }

  lemma {:induction false} ValueCut(ts: seq<Token>, us: seq<Token>, i: nat)
    requires Extends(ts, us) && i <= |ts|
    requires ParseValueAt(us, i).Ok? && Reach(ParseValueAt(us, i).value) <= |ts|
    ensures ParseValueAt(ts, i) == ParseValueAt(us, i)
    decreases |ts| - i, 2
  {
    var j := SkipWs(us, i).value;
    SkipWsCut(ts, us, i);
    if us[j].id == SquareOpen {
      ArrayCut(ts, us, j);
    } else if us[j].id == CurlyOpen {
      ObjectCut(ts, us, j);
    } else {
      StringCut(ts, us, j);
    }
  }

  lemma {:induction false} ObjectCut(ts: seq<Token>, us: seq<Token>, i: nat)
    requires Extends(ts, us) && i <= |ts|
    requires ParseObjectAt(us, i).Ok? && ParseObjectAt(us, i).value.next <= |ts|
    ensures ParseObjectAt(ts, i) == ParseObjectAt(us, i)
    decreases |ts| - i, 1
  {
    var j := SkipWs(us, i).value;
    SkipWsCut(ts, us, i);
    MatchCut(ts, us, j, '{');
    assert us[j + 1] == ts[j + 1];
    if us[j + 1].id != CurlyClose {
      MembersCut(ts, us, j + 1, []);
    }
  }

  lemma {:induction false} MembersCut(ts: seq<Token>, us: seq<Token>, i: nat, acc: seq<Member>)
    requires Extends(ts, us) && i <= |ts|
    requires ObjectMembers(us, i, acc).Ok? && ObjectMembers(us, i, acc).value.next <= |ts|
    ensures ObjectMembers(ts, i, acc) == ObjectMembers(us, i, acc)
    decreases |ts| - i, 4
  {
    var member, m := MemberAt(us, i).value.item, MemberAt(us, i).value.next;
    MemberCut(ts, us, i);
    ObjectRestCut(ts, us, m, Put(acc, member.key, member.value));
  }

  lemma {:induction false} MemberCut(ts: seq<Token>, us: seq<Token>, i: nat)
    requires Extends(ts, us) && i <= |ts|
    requires MemberAt(us, i).Ok? && MemberAt(us, i).value.next < |ts|
    ensures MemberAt(ts, i) == MemberAt(us, i)
    decreases |ts| - i, 3
  {
    var i1 := SkipWs(us, i).value;
    SkipWsCut(ts, us, i);
    var j := ParseStringAt(us, i1).value.next;
    StringCut(ts, us, i1);
    MatchCut(ts, us, j, ':');
    ValueCut(ts, us, j + 1);
  }

  lemma {:induction false} ObjectRestCut(ts: seq<Token>, us: seq<Token>, m: nat, acc: seq<Member>)
    requires Extends(ts, us) && m <= |ts|
    requires ObjectRest(us, m, acc).Ok? && ObjectRest(us, m, acc).value.next <= |ts|
    ensures ObjectRest(ts, m, acc) == ObjectRest(us, m, acc)
    decreases |ts| - m, 3
  {
    var n := SkipWs(us, m).value;
    SkipWsCut(ts, us, m);
    if us[n].id != CurlyClose {
      MatchCut(ts, us, n, ',');
      MembersCut(ts, us, n + 1, acc);
    }
  }

  lemma {:induction false} ArrayCut(ts: seq<Token>, us: seq<Token>, i: nat)
    requires Extends(ts, us) && i <= |ts|
    requires ParseArrayAt(us, i).Ok? && ParseArrayAt(us, i).value.next <= |ts|
    ensures ParseArrayAt(ts, i) == ParseArrayAt(us, i)
    decreases |ts| - i, 1
  {
    var j := SkipWs(us, i).value;
    SkipWsCut(ts, us, i);
    MatchCut(ts, us, j, '[');
    assert us[j + 1] == ts[j + 1];
    if us[j + 1].id != SquareClose {
      ItemsCut(ts, us, j + 1, []);
    }
  }

  lemma {:induction false} ItemsCut(ts: seq<Token>, us: seq<Token>, i: nat, acc: seq<Element>)
    requires Extends(ts, us) && i <= |ts|
    requires ArrayItems(us, i, acc).Ok? && ArrayItems(us, i, acc).value.next <= |ts|
    ensures ArrayItems(ts, i, acc) == ArrayItems(us, i, acc)
    decreases |ts| - i, 3
  {
    var v, m := ParseValueAt(us, i).value.item, ParseValueAt(us, i).value.next;
    ValueCut(ts, us, i);
    ArrayRestCut(ts, us, m, acc + [v]);
  }

  lemma {:induction false} ArrayRestCut(ts: seq<Token>, us: seq<Token>, m: nat, acc: seq<Element>)
    requires Extends(ts, us) && m <= |ts|
    requires ArrayRest(us, m, acc).Ok? && ArrayRest(us, m, acc).value.next <= |ts|
    ensures ArrayRest(ts, m, acc) == ArrayRest(us, m, acc)
    decreases |ts| - m, 3
  {
    var n := SkipWs(us, m).value;
    SkipWsCut(ts, us, m);
    if us[n].id != SquareClose {
      MatchCut(ts, us, n, ',');
      ItemsCut(ts, us, n + 1, acc);
    }
  }

  /** The parse stops at the root's closing brace: the text cut right after
      it parses to the same tree. */
  lemma ParseStopsAtClose(json: string)
    requires ParseObjectAt(Tokenize(json), 0).Ok?
    ensures ParseObjectAt(Tokenize(json), 0).value.next <= |json|
    ensures Parse(json[..ParseObjectAt(Tokenize(json), 0).value.next]) == Parse(json)
  {
    var n := ParseObjectAt(Tokenize(json), 0).value.next;
    assert json == json[..n] + json[n..];
    TokenizeAppend(json[..n], json[n..]);
    var ts := Tokenize(json[..n]);
    assert Tokenize(json)[..|ts|] == ts;
    ObjectCut(ts, Tokenize(json), 0);
  }

  /** So whatever follows the root's closing brace is never examined: any
      text at all in its place gives the same parse. */
  lemma ParseIgnoresAfterClose(json: string, other: string)
    requires ParseObjectAt(Tokenize(json), 0).Ok?
    ensures ParseObjectAt(Tokenize(json), 0).value.next <= |json|
    ensures Parse(json[..ParseObjectAt(Tokenize(json), 0).value.next] + other) == Parse(json)
  {
    ParseStopsAtClose(json);
    ParseIgnoresTrailing(json[..ParseObjectAt(Tokenize(json), 0).value.next], other);
  }
}
