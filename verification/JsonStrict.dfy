/** `strict_json_loads`: decoding, then a worklist over the decoded value that rejects non-finite numbers. */
module JsonStrict {
  import opened Options
  import opened PyText
  import opened Json
  import opened JsonDecode

  /** No number anywhere in the value overflows to an infinity. */
  predicate AllFinite(v: Json, finite: FloatToken -> bool)
    decreases v
  {
    match v
    case Float(token) => finite(token)
    case Arr(items) => forall i | 0 <= i < |items| :: AllFinite(items[i], finite)
    case Obj(members) => forall k | k in members :: AllFinite(members[k], finite)
    case _ => true
  }

  /** How many values there are in a value, itself included. */
  function Size(v: Json): (n: nat)
    ensures n > 0
    decreases v
  {
    match v
    case Arr(items) => 1 + Sizes(items)
    case Obj(members) => 1 + MemberSizes(v, SortedKeys(members.Keys))
    case _ => 1
  }

  function Sizes(items: seq<Json>): nat
    decreases items
  {
    if items == [] then 0 else Size(items[0]) + Sizes(items[1..])
  }

  function MemberSizes(v: Json, ks: seq<Text>): nat
    requires v.Obj? && forall k | k in ks :: k in v.members
    decreases v, |ks|
  {
    if ks == [] then 0 else Size(v.members[ks[0]]) + MemberSizes(v, ks[1..])
  }

  function Children(v: Json, ks: seq<Text>): seq<Json>
    requires v.Obj? && forall k | k in ks :: k in v.members
  {
    if ks == [] then [] else [v.members[ks[0]]] + Children(v, ks[1..])
  }

  lemma {:induction false} ChildrenSizes(v: Json, ks: seq<Text>)
    requires v.Obj? && forall k | k in ks :: k in v.members
    ensures Sizes(Children(v, ks)) == MemberSizes(v, ks)
  {
    if ks != [] {
      ChildrenSizes(v, ks[1..]);
      assert Children(v, ks)[1..] == Children(v, ks[1..]);
    }
  }

  lemma {:induction false} SizesJoined(a: seq<Json>, b: seq<Json>)
    ensures Sizes(a + b) == Sizes(a) + Sizes(b)
  {
    if a == [] {
      assert a + b == b;
    } else {
      assert (a + b)[1..] == a[1..] + b;
      SizesJoined(a[1..], b);
    }
  }

  predicate EachFinite(pending: seq<Json>, finite: FloatToken -> bool) {
    forall i | 0 <= i < |pending| :: AllFinite(pending[i], finite)
  }

  lemma EachFiniteJoined(a: seq<Json>, b: seq<Json>, finite: FloatToken -> bool)
    ensures EachFinite(a + b, finite) <==> EachFinite(a, finite) && EachFinite(b, finite)
  {
    assert forall i | 0 <= i < |a| :: (a + b)[i] == a[i];
    assert forall i | 0 <= i < |b| :: (a + b)[|a| + i] == b[i];
  }

  lemma OneFinite(v: Json, finite: FloatToken -> bool)
    ensures EachFinite([v], finite) <==> AllFinite(v, finite)
  {
    assert [v][0] == v;
  }

  lemma {:induction false} ChildrenFinite(v: Json, ks: seq<Text>, finite: FloatToken -> bool)
    requires v.Obj? && forall k | k in ks :: k in v.members
    ensures EachFinite(Children(v, ks), finite) <==> forall k | k in ks :: AllFinite(v.members[k], finite)
  {
    if ks != [] {
      ChildrenFinite(v, ks[1..], finite);
      EachFiniteJoined([v.members[ks[0]]], Children(v, ks[1..]), finite);
      assert ks == [ks[0]] + ks[1..];
      OneFinite(v.members[ks[0]], finite);
    }
  }

  /** The values an object contributes to the worklist. */
  function ChildrenOf(v: Json): seq<Json>
    requires v.Obj?
  {
    Children(v, SortedKeys(v.members.Keys))
  }

  lemma ObjectSize(v: Json)
    requires v.Obj?
    ensures Size(v) == 1 + Sizes(ChildrenOf(v))
  {
    ChildrenSizes(v, SortedKeys(v.members.Keys));
  }

  lemma ObjectFinite(v: Json, finite: FloatToken -> bool)
    requires v.Obj?
    ensures AllFinite(v, finite) <==> EachFinite(ChildrenOf(v), finite)
  {
    var ks := SortedKeys(v.members.Keys);
    SortedKeysMeaning(v.members.Keys);
    ChildrenFinite(v, ks, finite);
    forall k | k in v.members
      ensures k in ks
    {
      assert k in Elements(ks);
    }
  }

  lemma Popped(pending: seq<Json>, finite: FloatToken -> bool)
    requires pending != []
    ensures var rest := pending[..|pending| - 1];
            var child := pending[|pending| - 1];
            && Sizes(pending) == Sizes(rest) + Size(child)
            && (EachFinite(pending, finite) <==> EachFinite(rest, finite) && AllFinite(child, finite))
  {
    var rest, child := pending[..|pending| - 1], pending[|pending| - 1];
    assert pending == rest + [child];
    SizesJoined(rest, [child]);
    EachFiniteJoined(rest, [child], finite);
    assert Sizes([child]) == Size(child) + Sizes([child][1..]);
    OneFinite(child, finite);
  }

  /**
   The decoded value, or nothing where the source raises `StrictJSONError`.
   The worklist takes the values of an object in the order of their keys; the answer does not depend on it.
   */
  method StrictLoads(t: Text, finite: FloatToken -> bool) returns (r: Option<Json>)
    ensures r == if Decode(t).Some? && AllFinite(Decode(t).value, finite) then Decode(t) else None
  {
    var parsed := Decode(t);
    if parsed.None? {
      return None;
    }
    var pending := [parsed.value];
    OneFinite(parsed.value, finite);
    while pending != []
      invariant EachFinite(pending, finite) <==> AllFinite(parsed.value, finite)
      decreases Sizes(pending)
    {
      Popped(pending, finite);
      var child := pending[|pending| - 1];
      pending := pending[..|pending| - 1];
      if child.Float? && !finite(child.token) {
        return None;
      }
      if child.Obj? {
        ObjectSize(child);
        ObjectFinite(child, finite);
        var children := ChildrenOf(child);
        SizesJoined(pending, children);
        EachFiniteJoined(pending, children, finite);
        pending := pending + children;
      } else if child.Arr? {
        SizesJoined(pending, child.items);
        EachFiniteJoined(pending, child.items, finite);
        pending := pending + child.items;
      }
    }
    return parsed;
  }
}
