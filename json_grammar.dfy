/** The recursive-descent parser of JsonParser as functions of the token
    list and a start index. Each function follows one Java method step by
    step and yields what it builds together with the index where the cursor
    is left; the parser methods are proved to compute exactly these. */
module JsonGrammar {
  import opened Results
  import opened JsonToken
  import opened JsonTokenStream
  import opened JsonElement

  /** A production's result and the cursor index after it. */
  datatype Parsed<+T> = Parsed(item: T, next: nat)

  /** The index of the first token at or after k with the quote kind. */
  function FindQuote(ts: seq<Token>, k: nat): (r: Result<nat>)
    requires k <= |ts|
    ensures r.Ok? ==> k <= r.value < |ts| && ts[r.value].id == Quote
    ensures r.Fail? ==> r.at == |ts|
    decreases |ts| - k
  {
    if k == |ts| then Fail(k)
    else if ts[k].id == Quote then Ok(k)
    else FindQuote(ts, k + 1)
  }

  /** FindQuote finds the first quote: none lies between k and its answer,
      and it fails exactly when no quote follows k. */
  lemma {:induction false} FindQuoteFirst(ts: seq<Token>, k: nat)
    requires k <= |ts|
    ensures FindQuote(ts, k).Ok? ==> forall n :: k <= n < FindQuote(ts, k).value ==> ts[n].id != Quote
    ensures FindQuote(ts, k).Fail? <==> forall n :: k <= n < |ts| ==> ts[n].id != Quote
    decreases |ts| - k
  {
    if k < |ts| && ts[k].id != Quote {
      FindQuoteFirst(ts, k + 1);
    }
  }

  /** A quote at q with none between k and q: FindQuote lands on q. */
  lemma {:induction false} FindQuoteTo(ts: seq<Token>, k: nat, q: nat)
    requires k <= q < |ts| && ts[q].id == Quote
    requires forall n :: k <= n < q ==> ts[n].id != Quote
    ensures FindQuote(ts, k) == Ok(q)
    decreases q - k
  {
    if k < q {
      FindQuoteTo(ts, k + 1, q);
    }
  }

  /** parseString: whitespace, an opening quote, every token up to the next
      quote taken verbatim, the closing quote, then whitespace. */
  function ParseStringAt(ts: seq<Token>, i: nat): (r: Result<Parsed<string>>)
    requires i <= |ts|
    ensures r.Ok? ==> i + 2 <= r.value.next < |ts| && ts[r.value.next].id != Whitespace
    ensures r.Fail? ==> r.at <= |ts|
  {
    match SkipWs(ts, i)
    case Fail(a) => Fail(a)
    case Ok(j) =>
      match MatchAt(ts, j, '"')
      case Fail(a) => Fail(a)
      case Ok(k) =>
        match FindQuote(ts, k)
        case Fail(a) => Fail(a)
        case Ok(q) =>
          var s := Chars(ts, k, q);
          match SkipWs(ts, q + 1)
          case Fail(a) => Fail(a)
          case Ok(n) => Ok(Parsed(s, n))
  }

  /** The switch on the next significant token that both loops run: '['
      starts an array, kind 0 (a '{' or any unlisted character) an object,
      and a quote a leaf; anything else fails where the cursor stands. */
  function ParseValueAt(ts: seq<Token>, i: nat): (r: Result<Parsed<Element>>)
    requires i <= |ts|
    ensures r.Ok? ==> i < r.value.next <= |ts|
    ensures r.Ok? && r.value.item.Leaf? ==> r.value.next < |ts|
    ensures r.Fail? ==> r.at <= |ts|
    decreases |ts| - i, 2
  {
    match SkipWs(ts, i)
    case Fail(a) => Fail(a)
    case Ok(j) =>
      if ts[j].id == SquareOpen then ParseArrayAt(ts, j)
      else if ts[j].id == CurlyOpen then ParseObjectAt(ts, j)
      else if ts[j].id == Quote then
        match ParseStringAt(ts, j)
        case Fail(a) => Fail(a)
        case Ok(Parsed(s, n)) => Ok(Parsed(Leaf(s), n))
      else Fail(j)
  }

  /** parseJson: whitespace, '{', then either an immediate '}' (an empty
      object) or the member loop. */
  function ParseObjectAt(ts: seq<Token>, i: nat): (r: Result<Parsed<Element>>)
    requires i <= |ts|
    ensures r.Ok? ==> i < r.value.next <= |ts| && r.value.item.Obj?
    ensures r.Fail? ==> r.at <= |ts|
    decreases |ts| - i, 1
  {
    match SkipWs(ts, i)
    case Fail(a) => Fail(a)
    case Ok(j) =>
      match MatchAt(ts, j, '{')
      case Fail(a) => Fail(a)
      case Ok(k) =>
        if k == |ts| then Fail(k)
        else if ts[k].id == CurlyClose then Ok(Parsed(Obj([]), k + 1))
        else ObjectMembers(ts, k, [])
  }

  /** One turn of parseJson's loop from index i, with the members put so
      far in acc: a member, then what follows it. */
  function ObjectMembers(ts: seq<Token>, i: nat, acc: seq<Member>): (r: Result<Parsed<Element>>)
    requires i <= |ts|
    ensures r.Ok? ==> i < r.value.next <= |ts| && r.value.item.Obj?
    ensures r.Fail? ==> r.at <= |ts|
    decreases |ts| - i, 4
  {
    match MemberAt(ts, i)
    case Fail(a) => Fail(a)
    case Ok(Parsed(member, m)) => ObjectRest(ts, m, Put(acc, member.key, member.value))
  }

  /** The member part of the loop: whitespace, a name (parseString), ':',
      then a value. */
  function MemberAt(ts: seq<Token>, i: nat): (r: Result<Parsed<Member>>)
    requires i <= |ts|
    ensures r.Ok? ==> i < r.value.next <= |ts|
    ensures r.Fail? ==> r.at <= |ts|
    decreases |ts| - i, 3
  {
    match SkipWs(ts, i)
    case Fail(a) => Fail(a)
    case Ok(i1) =>
      match ParseStringAt(ts, i1)
      case Fail(a) => Fail(a)
      case Ok(Parsed(key, j)) =>
        match MatchAt(ts, j, ':')
        case Fail(a) => Fail(a)
        case Ok(k) =>
          match ParseValueAt(ts, k)
          case Fail(a) => Fail(a)
          case Ok(Parsed(v, m)) => Ok(Parsed(Member(key, v), m))
  }

  /** The end of a turn of parseJson's loop from index m, the members so
      far in acc: whitespace, then '}' ends the object and anything else
      must be ',' before the next turn. */
  function ObjectRest(ts: seq<Token>, m: nat, acc: seq<Member>): (r: Result<Parsed<Element>>)
    requires m <= |ts|
    ensures r.Ok? ==> m < r.value.next <= |ts| && r.value.item.Obj?
    ensures r.Fail? ==> r.at <= |ts|
    decreases |ts| - m, 3
  {
    match SkipWs(ts, m)
    case Fail(a) => Fail(a)
    case Ok(n) =>
      if ts[n].id == CurlyClose then Ok(Parsed(Obj(acc), n + 1))
      else
        match MatchAt(ts, n, ',')
        case Fail(a) => Fail(a)
        case Ok(p) => ObjectMembers(ts, p, acc)
  }

  /** The object loop ends when the token after the whitespace is '}'. */
  lemma ObjectRestCloses(ts: seq<Token>, m: nat, acc: seq<Member>)
    requires m <= |ts| && SkipWs(ts, m).Ok? && ts[SkipWs(ts, m).value].id == CurlyClose
    ensures ObjectRest(ts, m, acc) == Ok(Parsed(Obj(acc), SkipWs(ts, m).value + 1))
  {
  }

  /** parseArray: whitespace, '[', then either an immediate ']' (an empty
      array) or the element loop. */
  function ParseArrayAt(ts: seq<Token>, i: nat): (r: Result<Parsed<Element>>)
    requires i <= |ts|
    ensures r.Ok? ==> i < r.value.next <= |ts| && r.value.item.Arr?
    ensures r.Fail? ==> r.at <= |ts|
    decreases |ts| - i, 1
  {
    match SkipWs(ts, i)
    case Fail(a) => Fail(a)
    case Ok(j) =>
      match MatchAt(ts, j, '[')
      case Fail(a) => Fail(a)
      case Ok(k) =>
        if k == |ts| then Fail(k)
        else if ts[k].id == SquareClose then Ok(Parsed(Arr([]), k + 1))
        else ArrayItems(ts, k, [])
  }

  /** One turn of parseArray's loop from index i, with the children added
      so far in acc: a value, then what follows it. */
  function ArrayItems(ts: seq<Token>, i: nat, acc: seq<Element>): (r: Result<Parsed<Element>>)
    requires i <= |ts|
    ensures r.Ok? ==> i < r.value.next <= |ts| && r.value.item.Arr?
    ensures r.Fail? ==> r.at <= |ts|
    decreases |ts| - i, 3
  {
    match ParseValueAt(ts, i)
    case Fail(a) => Fail(a)
    case Ok(Parsed(v, m)) => ArrayRest(ts, m, acc + [v])
  }

  /** The end of a turn of parseArray's loop from index m, the children so
      far in acc: whitespace, then ']' ends the array and anything else
      must be ',' before the next turn. */
  function ArrayRest(ts: seq<Token>, m: nat, acc: seq<Element>): (r: Result<Parsed<Element>>)
    requires m <= |ts|
    ensures r.Ok? ==> m < r.value.next <= |ts| && r.value.item.Arr?
    ensures r.Fail? ==> r.at <= |ts|
    decreases |ts| - m, 3
  {
    match SkipWs(ts, m)
    case Fail(a) => Fail(a)
    case Ok(n) =>
      if ts[n].id == SquareClose then Ok(Parsed(Arr(acc), n + 1))
      else
        match MatchAt(ts, n, ',')
        case Fail(a) => Fail(a)
        case Ok(p) => ArrayItems(ts, p, acc)
  }

  /** parse: the object read from the start of the text. Whatever follows
      its closing brace is never looked at. */
  function Parse(json: string): (r: Result<Element>)
    ensures r.Ok? ==> r.value.Obj?
  {
    match ParseObjectAt(Tokenize(json), 0)
    case Fail(a) => Fail(a)
    case Ok(Parsed(e, _)) => Ok(e)
  }
}
