/** Every tree the parser returns is well formed: no object name and no
    leaf holds a double quote, and the names of each object are distinct.
    The lemmas follow the grammar functions one by one, by induction on the
    same measure. */
module ParsedTrees {
  import opened Results
  import opened JsonToken
  import opened JsonTokenStream
  import opened JsonElement
  import opened JsonGrammar

  /** parseString stops at the first quote, so what it returns holds none. */
  lemma StringQuoteFree(ts: seq<Token>, i: nat)
    requires Classified(ts) && i <= |ts|
    ensures ParseStringAt(ts, i).Ok? ==> '"' !in ParseStringAt(ts, i).value.item
  {
    if ParseStringAt(ts, i).Ok? {
      var j := SkipWs(ts, i).value;
      var k := MatchAt(ts, j, '"').value;
      var q := FindQuote(ts, k).value;
      FindQuoteFirst(ts, k);
      var s := Chars(ts, k, q);
      CharsAt(ts, k, q);
      assert s == ParseStringAt(ts, i).value.item;
      forall n | 0 <= n < |s|
        ensures s[n] != '"'
      {
        assert ts[k + n].id != Quote;
        assert ts[k + n] == Classify(ts[k + n].ch);
      }
    }
  }

  lemma {:induction false} ValueWellFormed(ts: seq<Token>, i: nat)
    requires Classified(ts) && i <= |ts|
    ensures ParseValueAt(ts, i).Ok? ==> WellFormed(ParseValueAt(ts, i).value.item)
    decreases |ts| - i, 2
  {
    if SkipWs(ts, i).Ok? {
      var j := SkipWs(ts, i).value;
      if ts[j].id == SquareOpen {
        ArrayWellFormed(ts, j);
      } else if ts[j].id == CurlyOpen {
        ObjectWellFormed(ts, j);
      } else if ts[j].id == Quote {
        StringQuoteFree(ts, j);
      }
    }
  }

  lemma {:induction false} ObjectWellFormed(ts: seq<Token>, i: nat)
    requires Classified(ts) && i <= |ts|
    ensures ParseObjectAt(ts, i).Ok? ==> WellFormed(ParseObjectAt(ts, i).value.item)
    decreases |ts| - i, 1
  {
    if SkipWs(ts, i).Ok? {
      var j := SkipWs(ts, i).value;
      if MatchAt(ts, j, '{').Ok? {
        var k := MatchAt(ts, j, '{').value;
        if k < |ts| && ts[k].id != CurlyClose {
          MembersWellFormed(ts, k, []);
        }
      }
    }
  }

  lemma {:induction false} MembersWellFormed(ts: seq<Token>, i: nat, acc: seq<Member>)
    requires Classified(ts) && i <= |ts| && WellFormed(Obj(acc))
    ensures ObjectMembers(ts, i, acc).Ok? ==> WellFormed(ObjectMembers(ts, i, acc).value.item)
    decreases |ts| - i, 4
  {
    MemberWellFormed(ts, i);
    if MemberAt(ts, i).Ok? {
      var member, m := MemberAt(ts, i).value.item, MemberAt(ts, i).value.next;
      PutKeepsWellFormed(acc, member.key, member.value);
      ObjectRestWellFormed(ts, m, Put(acc, member.key, member.value));
    }
  }

  lemma {:induction false} MemberWellFormed(ts: seq<Token>, i: nat)
    requires Classified(ts) && i <= |ts|
    ensures MemberAt(ts, i).Ok? ==> MemberOk(MemberAt(ts, i).value.item)
    decreases |ts| - i, 3
  {
    if SkipWs(ts, i).Ok? {
      var i1 := SkipWs(ts, i).value;
      StringQuoteFree(ts, i1);
      if ParseStringAt(ts, i1).Ok? {
        var j := ParseStringAt(ts, i1).value.next;
        if MatchAt(ts, j, ':').Ok? {
          ValueWellFormed(ts, MatchAt(ts, j, ':').value);
        }
      }
    }
  }

  lemma {:induction false} ObjectRestWellFormed(ts: seq<Token>, m: nat, acc: seq<Member>)
    requires Classified(ts) && m <= |ts| && WellFormed(Obj(acc))
    ensures ObjectRest(ts, m, acc).Ok? ==> WellFormed(ObjectRest(ts, m, acc).value.item)
    decreases |ts| - m, 3
  {
    if SkipWs(ts, m).Ok? {
      var n := SkipWs(ts, m).value;
      if ts[n].id != CurlyClose && MatchAt(ts, n, ',').Ok? {
        MembersWellFormed(ts, MatchAt(ts, n, ',').value, acc);
      }
    }
  }

  lemma {:induction false} ArrayWellFormed(ts: seq<Token>, i: nat)
    requires Classified(ts) && i <= |ts|
    ensures ParseArrayAt(ts, i).Ok? ==> WellFormed(ParseArrayAt(ts, i).value.item)
    decreases |ts| - i, 1
  {
    if SkipWs(ts, i).Ok? {
      var j := SkipWs(ts, i).value;
      if MatchAt(ts, j, '[').Ok? {
        var k := MatchAt(ts, j, '[').value;
        if k < |ts| && ts[k].id != SquareClose {
          ItemsWellFormed(ts, k, []);
        }
      }
    }
  }

  lemma {:induction false} ItemsWellFormed(ts: seq<Token>, i: nat, acc: seq<Element>)
    requires Classified(ts) && i <= |ts| && WellFormed(Arr(acc))
    ensures ArrayItems(ts, i, acc).Ok? ==> WellFormed(ArrayItems(ts, i, acc).value.item)
    decreases |ts| - i, 3
  {
    ValueWellFormed(ts, i);
    if ParseValueAt(ts, i).Ok? {
      var v, m := ParseValueAt(ts, i).value.item, ParseValueAt(ts, i).value.next;
      assert WellFormed(Arr(acc + [v])) by {
        assert forall n :: 0 <= n < |acc| ==> (acc + [v])[n] == acc[n];
      }
      ArrayRestWellFormed(ts, m, acc + [v]);
    }
  }

  lemma {:induction false} ArrayRestWellFormed(ts: seq<Token>, m: nat, acc: seq<Element>)
    requires Classified(ts) && m <= |ts| && WellFormed(Arr(acc))
    ensures ArrayRest(ts, m, acc).Ok? ==> WellFormed(ArrayRest(ts, m, acc).value.item)
    decreases |ts| - m, 3
  {
    if SkipWs(ts, m).Ok? {
      var n := SkipWs(ts, m).value;
      if ts[n].id != SquareClose && MatchAt(ts, n, ',').Ok? {
        ItemsWellFormed(ts, MatchAt(ts, n, ',').value, acc);
      }
    }
  }

  /** Every tree parse returns is well formed. */
  lemma ParseWellFormed(json: string)
    ensures Parse(json).Ok? ==> WellFormed(Parse(json).value)
  {
    TokenizeKeepsText(json);
    ObjectWellFormed(Tokenize(json), 0);
  }
}
