/** The cursor over the token list (the JsonTokenStream class), with the
    functions that specify its primitives on a token list and an index. */
module JsonTokenStream {
  import opened Results
  import opened JsonToken

  /** skipWhiteSpace from index i: the first non-whitespace token at or after
      i. The loop reads tokens.get(index) unguarded, so a run of whitespace
      that reaches the end of the tokens (or i at the end) is a failure. */
  function SkipWs(ts: seq<Token>, i: nat): (r: Result<nat>)
    requires i <= |ts|
    ensures r.Ok? ==> i <= r.value < |ts| && ts[r.value].id != Whitespace
    ensures r.Fail? ==> r.at == |ts|
    decreases |ts| - i
  {
    if i == |ts| then Fail(i)
    else if ts[i].id == Whitespace then SkipWs(ts, i + 1)
    else Ok(i)
  }

  /** SkipWs passes exactly the maximal run of whitespace from i: every
      token it passes is whitespace, and it fails exactly when the run
      reaches the end of the tokens. */
  lemma {:induction false} SkipWsRun(ts: seq<Token>, i: nat)
    requires i <= |ts|
    ensures SkipWs(ts, i).Ok? ==> forall k :: i <= k < SkipWs(ts, i).value ==> ts[k].id == Whitespace
    ensures SkipWs(ts, i).Fail? <==> forall k :: i <= k < |ts| ==> ts[k].id == Whitespace
    decreases |ts| - i
  {
    if i < |ts| && ts[i].id == Whitespace {
      SkipWsRun(ts, i + 1);
    }
  }

  /** Whitespace from i up to a non-whitespace token at j: SkipWs lands on j. */
  lemma {:induction false} SkipWsTo(ts: seq<Token>, i: nat, j: nat)
    requires i <= j < |ts| && ts[j].id != Whitespace
    requires forall k :: i <= k < j ==> ts[k].id == Whitespace
    ensures SkipWs(ts, i) == Ok(j)
    decreases j - i
  {
    if i < j {
      SkipWsTo(ts, i + 1, j);
    }
  }

  /** match(c) at index i: consumes one token and succeeds exactly when that
      token carries c. At the end nothing is consumed and the null token
      fails; a wrong character fails after it has been consumed. */
  function MatchAt(ts: seq<Token>, i: nat, c: char): (r: Result<nat>)
    requires i <= |ts|
    ensures r.Ok? <==> i < |ts| && ts[i].ch == c
    ensures r.Ok? ==> r.value == i + 1
    ensures r.Fail? ==> r.at <= |ts| && (r.at == i + 1 || r.at == i == |ts|)
  {
    if i == |ts| then Fail(i)
    else if ts[i].ch != c then Fail(i + 1)
    else Ok(i + 1)
  }

  class TokenStream {
    const tokens: seq<Token>
    var index: nat

    ghost predicate Valid()
      reads this
    {
      index <= |tokens|
    }

    /** Builds one token per character of json, in order, with the cursor at 0. */
    constructor (json: string)
      ensures Valid() && index == 0
      ensures tokens == Tokenize(json)
    {
      var ts: seq<Token> := [];
      for i := 0 to |json|
        invariant |ts| == i
        invariant forall k :: 0 <= k < i ==> ts[k] == Classify(json[k])
      {
        ts := ts + [Classify(json[i])];
      }
      tokens := ts;
      index := 0;
    }

    /** peekToken: the token under the cursor, or none at the end. */
    function PeekToken(): (t: Option<Token>)
      reads this
      requires Valid()
      ensures t.Some? <==> index < |tokens|
      ensures t.Some? ==> t.value == tokens[index]
    {
      if index < |tokens| then Some(tokens[index]) else None
    }

    /** nextToken: the token under the cursor, which it then passes; at the
        end there is no token and the cursor stays. */
    method NextToken() returns (t: Option<Token>)
      requires Valid()
      modifies this
      ensures Valid()
      ensures t == old(PeekToken())
      ensures index == if t.Some? then old(index) + 1 else old(index)
    {
      if index < |tokens| {
        t := Some(tokens[index]);
        index := index + 1;
      } else {
        t := None;
      }
    }

    /** skipWhiteSpace, proved against SkipWs; a failure leaves the cursor at
        the end of the tokens, where the unguarded read threw. */
    method SkipWhiteSpace() returns (r: Result<()>)
      requires Valid()
      modifies this
      ensures Valid()
      ensures SkipWs(tokens, old(index)).Ok? ==> r == Ok(()) && index == SkipWs(tokens, old(index)).value
      ensures SkipWs(tokens, old(index)).Fail? ==> r == Fail(|tokens|) && index == |tokens|
    {
      while index < |tokens| && tokens[index].id == Whitespace
        invariant old(index) <= index <= |tokens|
        invariant SkipWs(tokens, index) == SkipWs(tokens, old(index))
        decreases |tokens| - index
      {
        index := index + 1;
      }
      if index == |tokens| {
        r := Fail(index);
      } else {
        r := Ok(());
      }
    }

    /** match(c), proved against MatchAt; the failure index is the cursor at
        the throw, which is also where the cursor is left. */
    method Match(c: char) returns (r: Result<()>)
      requires Valid()
      modifies this
      ensures Valid()
      ensures MatchAt(tokens, old(index), c).Ok? ==> r == Ok(()) && index == old(index) + 1
      ensures MatchAt(tokens, old(index), c).Fail? ==> r == Fail(MatchAt(tokens, old(index), c).at) && index == r.at
    {
      var t := NextToken();
      if t.None? || t.value.ch != c {
        r := Fail(index);
      } else {
        r := Ok(());
      }
    }
  }
}
