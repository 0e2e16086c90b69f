/** The parsed tree: JsonElement (an object), ArrayJsonElement and
    LeafJsonElement, with navigation and serialisation. */
module JsonElement {
  import opened Results

  /** One attribute of an object: its name and the child stored under it. */
  datatype Member = Member(key: string, value: Element)

  /** An object keeps its attributes as a list with distinct names (the
      HashMap of the source); the list order stands for the map's iteration
      order, which the source leaves unspecified. */
  datatype Element =
    | Obj(members: seq<Member>)
    | Arr(children: seq<Element>)
    | Leaf(value: string)

  /** The attribute names of an object. */
  ghost function Keys(ms: seq<Member>): (ks: set<string>)
  {
    set m | m in ms :: m.key
  }

  ghost predicate DistinctKeys(ms: seq<Member>)
  {
    forall i, j :: 0 <= i < j < |ms| ==> ms[i].key != ms[j].key
  }

  /** Every tree the parser can build has this shape: object attribute names
      are distinct, and no name or leaf value holds a double quote. */
  ghost predicate WellFormed(e: Element)
  {
    match e
    case Leaf(v) => '"' !in v
    case Arr(cs) => forall i :: 0 <= i < |cs| ==> WellFormed(cs[i])
    case Obj(ms) => DistinctKeys(ms) && forall i :: 0 <= i < |ms| ==> MemberOk(ms[i])
  }

  ghost predicate MemberOk(m: Member)
  {
    '"' !in m.key && WellFormed(m.value)
  }

  /** HashMap.get: the child stored under key k, or none. */
  function Lookup(ms: seq<Member>, k: string): (r: Option<Element>)
    ensures r.Some? <==> k in Keys(ms)
    ensures r.Some? ==> Member(k, r.value) in ms
  {
    if ms == [] then None
    else if ms[0].key == k then Some(ms[0].value)
    else Lookup(ms[1..], k)
  }

  /** With distinct names, the member under k is the one Lookup finds. */
  lemma {:induction false} LookupFinds(ms: seq<Member>, k: string, v: Element)
    requires DistinctKeys(ms) && Member(k, v) in ms
    ensures Lookup(ms, k) == Some(v)
  {
    if ms[0] != Member(k, v) {
      assert ms[0].key != k by {
        var j :| 0 <= j < |ms| && ms[j] == Member(k, v);
        assert j != 0;
      }
      assert Member(k, v) in ms[1..];
      LookupFinds(ms[1..], k, v);
    }
  }

  /** HashMap.put (the object's add): a name already present gets the new
      child in its place; a new name is appended. */
  function Put(ms: seq<Member>, k: string, v: Element): (r: seq<Member>)
    ensures |r| == |ms| || |r| == |ms| + 1
  {
    if ms == [] then [Member(k, v)]
    else if ms[0].key == k then [Member(k, v)] + ms[1..]
    else [ms[0]] + Put(ms[1..], k, v)
  }

  /** A name not yet present is appended after the others. */
  lemma {:induction false} PutNew(ms: seq<Member>, k: string, v: Element)
    requires k !in Keys(ms)
    ensures Put(ms, k, v) == ms + [Member(k, v)]
  {
    if ms != [] {
      assert Keys(ms) == {ms[0].key} + Keys(ms[1..]);
      PutNew(ms[1..], k, v);
      assert ms == [ms[0]] + ms[1..];
    }
  }

  /** After a put, k maps to v and every other name maps to what it did
      before: the last write to a repeated name wins. */
  lemma {:induction false} PutLookup(ms: seq<Member>, k: string, v: Element, k': string)
    ensures Lookup(Put(ms, k, v), k') == if k' == k then Some(v) else Lookup(ms, k')
  {
    if ms != [] && ms[0].key != k {
      PutLookup(ms[1..], k, v, k');
    }
  }

  /** A put adds k to the names and nothing else. */
  lemma {:induction false} PutKeys(ms: seq<Member>, k: string, v: Element)
    ensures Keys(Put(ms, k, v)) == Keys(ms) + {k}
  {
    if ms != [] {
      assert Keys(ms) == {ms[0].key} + Keys(ms[1..]);
      if ms[0].key == k {
        assert Put(ms, k, v) == [Member(k, v)] + ms[1..];
        assert Keys(Put(ms, k, v)) == {k} + Keys(ms[1..]);
      } else {
        PutKeys(ms[1..], k, v);
        assert Put(ms, k, v) == [ms[0]] + Put(ms[1..], k, v);
        assert Keys(Put(ms, k, v)) == {ms[0].key} + Keys(Put(ms[1..], k, v));
      }
    }
  }

  /** Every member after a put was there before or is the new one. */
  lemma {:induction false} PutMembers(ms: seq<Member>, k: string, v: Element)
    ensures forall m :: m in Put(ms, k, v) ==> m in ms || m == Member(k, v)
  {
    if ms != [] && ms[0].key != k {
      PutMembers(ms[1..], k, v);
      assert Put(ms, k, v) == [ms[0]] + Put(ms[1..], k, v);
    }
  }

  /** A put keeps the names distinct. */
  lemma {:induction false} PutDistinct(ms: seq<Member>, k: string, v: Element)
    requires DistinctKeys(ms)
    ensures DistinctKeys(Put(ms, k, v))
  {
    var r := Put(ms, k, v);
    if ms == [] {
    } else if ms[0].key == k {
      assert r == [Member(k, v)] + ms[1..];
      forall i, j | 0 <= i < j < |r| ensures r[i].key != r[j].key {
        assert r[j] == ms[j];
        if i > 0 { assert r[i] == ms[i]; }
      }
    } else {
      var rest := Put(ms[1..], k, v);
      assert r == [ms[0]] + rest;
      PutDistinct(ms[1..], k, v);
      PutKeys(ms[1..], k, v);
      forall i, j | 0 <= i < j < |r| ensures r[i].key != r[j].key {
        if i == 0 {
          assert r[j] == rest[j - 1] && r[j] in rest;
          assert r[j].key in Keys(rest);
          if r[j].key != k {
            assert r[j].key in Keys(ms[1..]);
            var m :| m in ms[1..] && m.key == r[j].key;
            var n :| 0 <= n < |ms[1..]| && ms[1..][n] == m;
            assert ms[n + 1].key == r[j].key && ms[n + 1].key != ms[0].key;
          }
        } else {
          assert r[i] == rest[i - 1] && r[j] == rest[j - 1];
        }
      }
    }
  }

  /** Putting a quote-free name and a well-formed child into a well-formed
      object gives a well-formed object. */
  lemma PutKeepsWellFormed(ms: seq<Member>, k: string, v: Element)
    requires WellFormed(Obj(ms)) && '"' !in k && WellFormed(v)
    ensures WellFormed(Obj(Put(ms, k, v)))
  {
    var r := Put(ms, k, v);
    PutDistinct(ms, k, v);
    PutMembers(ms, k, v);
    forall n | 0 <= n < |r| ensures MemberOk(r[n]) {
      assert r[n] in r;
      if r[n] != Member(k, v) {
        var j :| 0 <= j < |ms| && ms[j] == r[n];
      }
    }
  }

  /** get(attr): an object's child under attr; arrays and leaves have none. */
  function Get(e: Element, attr: string): (r: Option<Element>)
    ensures r.Some? <==> e.Obj? && attr in Keys(e.members)
    ensures r.Some? ==> Member(attr, r.value) in e.members
  {
    match e
    case Obj(ms) => Lookup(ms, attr)
    case Arr(_) => None
    case Leaf(_) => None
  }

  /** toString, as a specification: a leaf in quotes; the children of an
      array, or the "name":child entries of an object, joined by ", "
      inside the brackets ("[]" and "{}" when empty). */
  function Serialize(e: Element): (s: string)
    ensures |s| >= 2
    ensures e.Obj? ==> s[0] == '{' && s[|s| - 1] == '}'
    ensures e.Arr? ==> s[0] == '[' && s[|s| - 1] == ']'
    ensures e.Leaf? ==> s[0] == '"' && s[|s| - 1] == '"'
  {
    match e
    case Leaf(v) => "\"" + v + "\""
    case Arr(cs) => "[" + ItemsText(cs) + "]"
    case Obj(ms) => "{" + MembersText(ms) + "}"
  }

  function ItemsText(cs: seq<Element>): (s: string)
  {
    if cs == [] then ""
    else Serialize(cs[0]) + (if |cs| == 1 then "" else ", " + ItemsText(cs[1..]))
  }

  function MemberText(m: Member): (s: string)
  {
    "\"" + m.key + "\":" + Serialize(m.value)
  }

  function MembersText(ms: seq<Member>): (s: string)
  {
    if ms == [] then ""
    else MemberText(ms[0]) + (if |ms| == 1 then "" else ", " + MembersText(ms[1..]))
  }

  /** getValue: a leaf's string, which its rendering wraps in quotes; an
      object or array answers with its rendering. */
  function GetValue(e: Element): (s: string)
    ensures e.Leaf? ==> Serialize(e) == "\"" + s + "\""
    ensures !e.Leaf? ==> s == Serialize(e)
  {
    match e
    case Leaf(v) => v
    case _ => Serialize(e)
  }

  /** toString, dispatched on the element's class as Java's override is. */
  method ToString(e: Element) returns (s: string)
    ensures s == Serialize(e)
    decreases e, 1
  {
    match e
    case Leaf(v) =>
      s := "\"" + v + "\"";
    case Arr(cs) =>
      s := ArrayToString(cs);
    case Obj(ms) =>
      s := ObjectToString(ms);
  }

  /** ArrayJsonElement.toString: every child but the last followed by ", ",
      then the last child, between brackets. */
  method ArrayToString(cs: seq<Element>) returns (s: string)
    ensures s == "[" + ItemsText(cs) + "]"
    decreases Arr(cs), 0
  {
    if |cs| == 0 {
      return "[]";
    }
    s := "[";
    for i := 0 to |cs| - 1
      invariant s + ItemsText(cs[i..]) == "[" + ItemsText(cs)
    {
      assert cs[i..][1..] == cs[i + 1..];
      var child := ToString(cs[i]);
      s := s + (child + ", ");
    }
    assert cs[|cs| - 1..] == [cs[|cs| - 1]];
    var last := ToString(cs[|cs| - 1]);
    s := s + last;
    s := s + "]";
  }

  /** JsonElement.toString: each member as "key":value, separated by ", ",
      between braces, in the order of the member list. */
  method ObjectToString(ms: seq<Member>) returns (s: string)
    ensures s == "{" + MembersText(ms) + "}"
    decreases Obj(ms), 0
  {
    if |ms| == 0 {
      return "{}";
    }
    s := "{";
    for i := 0 to |ms|
      invariant s + MembersText(ms[i..]) == "{" + MembersText(ms)
    {
      assert ms[i..][1..] == ms[i + 1..];
      var child := ToString(ms[i].value);
      s := s + ("\"" + ms[i].key + "\":" + child);
      if i + 1 < |ms| {
        s := s + ", ";
      }
    }
    assert ms[|ms|..] == [];
    s := s + "}";
  }
}
