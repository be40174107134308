/**
 The laws of the canonical encoding: printable ASCII, injective on values free of
 written-out surrogate pairs, undone by decoding, and when a decoded value prints
 as the text it came from.
 */
module JsonCanonical {
  import opened Options
  import opened PyText
  import opened Json
  import opened JsonDecode
  import opened JsonStrings
  import opened JsonRoundTrip
  import opened JsonAlike

  // ---------- values free of surrogate pairs ----------

  /** No string of the value, keys included, holds a surrogate pair as two code points. */
  predicate PairFree(v: Json) {
    match v
    case Str(s) => NoPair(s)
    case Arr(items) => forall i | 0 <= i < |items| :: PairFree(items[i])
    case Obj(members) => forall k | k in members :: NoPair(k) && PairFree(members[k])
    case _ => true
  }

  predicate PairsFree(ps: seq<(Text, Json)>) {
    forall i | 0 <= i < |ps| :: NoPair(ps[i].0) && PairFree(ps[i].1)
  }

  function PairKeys(ps: seq<(Text, Json)>): set<Text> {
    set i | 0 <= i < |ps| :: ps[i].0
  }

  predicate DistinctKeys(ps: seq<(Text, Json)>) {
    forall i, j | 0 <= i < j < |ps| :: ps[i].0 != ps[j].0
  }

  /** The object hook accepts exactly the pair lists without a repeated member, and keeps every pair. */
  lemma {:induction false} CollectMeaning(ps: seq<(Text, Json)>)
    ensures Collect(ps).Some? <==> DistinctKeys(ps)
    ensures Collect(ps).Some? ==>
              Collect(ps).value.Keys == PairKeys(ps) &&
              forall i | 0 <= i < |ps| :: ps[i].0 in Collect(ps).value && Collect(ps).value[ps[i].0] == ps[i].1
  {
    if ps != [] {
      var n := |ps| - 1;
      var init := ps[..n];
      CollectMeaning(init);
      assert PairKeys(ps) == PairKeys(init) + {ps[n].0};
      assert forall i | 0 <= i < n :: init[i] == ps[i];
    }
  }

  lemma {:induction false} NormMembersAt(v: Json, ks: seq<Text>)
    requires v.Obj? && forall k | k in ks :: k in v.members
    ensures NormMembers(v, ks).Some? <==> forall i | 0 <= i < |ks| :: Norm(v.members[ks[i]]).Some?
    ensures NormMembers(v, ks).Some? ==>
              forall i | 0 <= i < |ks| ::
                NormMembers(v, ks).value[i].0 == Merge(ks[i]) &&
                Norm(v.members[ks[i]]) == Some(NormMembers(v, ks).value[i].1)
  {
    if ks != [] {
      NormMembersAt(v, ks[1..]);
      assert forall i | 0 < i < |ks| :: ks[i] == ks[1..][i - 1];
      if NormMembers(v, ks[1..]).None? {
        var i :| 0 <= i < |ks[1..]| && Norm(v.members[ks[1..][i]]).None?;
        assert ks[i + 1] == ks[1..][i];
      }
    }
  }

  lemma {:induction false} NormItemsAt(items: seq<Json>)
    ensures NormItems(items).Some? <==> forall i | 0 <= i < |items| :: Norm(items[i]).Some?
    ensures NormItems(items).Some? ==>
              forall i | 0 <= i < |items| :: Norm(items[i]) == Some(NormItems(items).value[i])
  {
    if items != [] {
      NormItemsAt(items[1..]);
      assert forall i | 0 < i < |items| :: items[i] == items[1..][i - 1];
      if NormItems(items[1..]).None? {
        var i :| 0 <= i < |items[1..]| && Norm(items[1..][i]).None?;
        assert items[i + 1] == items[1..][i];
      }
    }
  }

  /** Whatever comes back from decoding canonical text is free of surrogate pairs. */
  lemma {:induction false} NormIsPairFree(v: Json)
    ensures Norm(v).Some? ==> PairFree(Norm(v).value)
    decreases v
  {
    if Norm(v).Some? {
      match v
      case Str(s) => MergeNoPair(s);
      case Arr(items) =>
        NormItemsAt(items);
        forall i | 0 <= i < |items| ensures PairFree(NormItems(items).value[i]) {
          NormIsPairFree(items[i]);
        }
      case Obj(members) =>
        NormObjectPairFree(v);
      case _ =>
    }
  }

  lemma {:induction false} NormObjectPairFree(v: Json)
    requires v.Obj? && Norm(v).Some?
    ensures PairFree(Norm(v).value)
    decreases v, 0
  {
    var ks := SortedKeys(v.members.Keys);
    NormObject(v);
    NormMembersAt(v, ks);
    var ps := NormMembers(v, ks).value;
    CollectMeaning(ps);
    var m := Collect(ps).value;
    forall k | k in m ensures NoPair(k) && PairFree(m[k]) {
      var i :| 0 <= i < |ps| && ps[i].0 == k;
      MergeNoPair(ks[i]);
      NormIsPairFree(v.members[ks[i]]);
    }
  }

  lemma {:induction false} PairFreeNorm(v: Json)
    requires PairFree(v)
    ensures Norm(v) == Some(v)
    decreases v
  {
    match v
    case Str(s) => MergeIdentity(s);
    case Arr(items) =>
      NormItemsAt(items);
      forall i | 0 <= i < |items| ensures Norm(items[i]) == Some(items[i]) {
        PairFreeNorm(items[i]);
      }
      assert NormItems(items).value == items;
    case Obj(members) =>
      PairFreeNormObject(v);
    case _ =>
  }

  /** Pairs with increasing keys collect to the dictionary that lists exactly them. */
  lemma CollectIncreasing(ks: seq<Text>, ps: seq<(Text, Json)>)
    requires Increasing(ks) && |ps| == |ks|
    requires forall i | 0 <= i < |ks| :: ps[i].0 == ks[i]
    ensures Collect(ps).Some?
    ensures SortedKeys(Collect(ps).value.Keys) == ks
    ensures forall i | 0 <= i < |ks| :: ks[i] in Collect(ps).value && Collect(ps).value[ks[i]] == ps[i].1
  {
    IncreasingDistinct(ks);
    CollectMeaning(ps);
    forall k | k in Elements(ks) ensures k in PairKeys(ps) {
      var i :| 0 <= i < |ks| && ks[i] == k;
      assert ps[i].0 == k;
    }
    assert PairKeys(ps) == Elements(ks);
    SortedKeysMeaning(PairKeys(ps));
    IncreasingUnique(SortedKeys(PairKeys(ps)), ks);
  }

  lemma CollectBack(m: Dict, ks: seq<Text>, ps: seq<(Text, Json)>)
    requires Increasing(ks) && Elements(ks) == m.Keys
    requires |ps| == |ks|
    requires forall i | 0 <= i < |ks| :: ks[i] in m && ps[i] == (ks[i], m[ks[i]])
    ensures Collect(ps) == Some(m)
  {
    CollectIncreasing(ks, ps);
    var c := Collect(ps).value;
    SortedKeysMeaning(c.Keys);
    assert c.Keys == m.Keys;
    forall k | k in m ensures c[k] == m[k] {
      assert k in Elements(ks);
      var i :| 0 <= i < |ks| && ks[i] == k;
    }
    assert c == m;
  }

  lemma {:induction false} PairFreeNormObject(v: Json)
    requires v.Obj? && PairFree(v)
    ensures Norm(v) == Some(v)
    decreases v, 0
  {
    var ks := SortedKeys(v.members.Keys);
    SortedKeysMeaning(v.members.Keys);
    NormObject(v);
    NormMembersAt(v, ks);
    forall i | 0 <= i < |ks|
      ensures ks[i] in v.members && Merge(ks[i]) == ks[i] && Norm(v.members[ks[i]]) == Some(v.members[ks[i]])
    {
      assert ks[i] in Elements(ks);
      MergeIdentity(ks[i]);
      PairFreeNorm(v.members[ks[i]]);
    }
    CollectBack(v.members, ks, NormMembers(v, ks).value);
  }

  lemma IncreasingDistinct(ks: seq<Text>)
    requires Increasing(ks)
    ensures forall i, j | 0 <= i < j < |ks| :: ks[i] != ks[j]
  {
    forall i, j | 0 <= i < j < |ks| ensures ks[i] != ks[j] {
      BelowIrreflexive(ks[i]);
    }
  }

  // ---------- round trip and injectivity ----------

  lemma DecodeEncode(v: Json)
    ensures Decode(Encode(v)) == Norm(v)
  {
    EncodeNonempty(v);
    ValueRoundTrip(v, []);
    assert Encode(v) + [] == Encode(v);
  }

  /** Decoding undoes encoding for exactly the values free of written-out surrogate pairs. */
  lemma RoundTripExact(v: Json)
    ensures Decode(Encode(v)) == Some(v) <==> PairFree(v)
  {
    DecodeEncode(v);
    NormIsPairFree(v);
    if PairFree(v) {
      PairFreeNorm(v);
    }
  }

  /** Among values free of written-out pairs, alike means equal: there the encoding is injective. */
  lemma EncodeInjective(v: Json, w: Json)
    requires PairFree(v) && PairFree(w)
    ensures Alike(v, w) <==> v == w
    ensures Encode(v) == Encode(w) <==> v == w
  {
    EncodeExactly(v, w);
    RoundTripExact(v);
    RoundTripExact(w);
  }

  /** Without that condition injectivity fails: a supplementary character and its written-out pair print alike. */
  lemma EncodeNotInjective()
    ensures Str([0x10000]) != Str([0xD800, 0xDC00])
    ensures Encode(Str([0x10000])) == Encode(Str([0xD800, 0xDC00]))
    ensures Decode(Encode(Str([0xD800, 0xDC00]))) == Some(Str([0x10000]))
  {
    var pair: Text := [0xD800, 0xDC00];
    assert pair[2..] == [];
    assert Merge(pair) == [0x10000];
    MergeSameText(pair);
    DecodeEncode(Str(pair));
  }

  // ---------- printable ASCII ----------

  predicate Printable(t: Text) {
    forall i | 0 <= i < |t| :: 32 <= t[i] <= 126
  }

  lemma {:induction false} DecimalPrintable(n: nat)
    ensures Printable(Decimal(n))
  {
    if n >= 10 {
      DecimalPrintable(n / 10);
    }
  }

  lemma UnitPrintable(n: int)
    requires 0 <= n < 0x10000
    ensures Printable(UnitEscape(n))
  {
    assert Printable(Hex4(n));
  }

  lemma EscapeCharPrintable(c: CodePoint)
    ensures Printable(EscapeChar(c))
  {
    if c >= 0x10000 {
      UnitPrintable(HighHalf(c));
      UnitPrintable(LowHalf(c));
    } else {
      UnitPrintable(c);
    }
  }

  lemma {:induction false} EscapePrintable(s: Text)
    ensures Printable(EscapeText(s))
    decreases |s|
  {
    if s != [] {
      EscapeCharPrintable(s[0]);
      EscapePrintable(s[1..]);
    }
  }

  lemma {:induction false} EncodePrintable(v: Json)
    ensures Printable(Encode(v))
    decreases v, true
  {
    match v
    case Int(i) =>
      DecimalPrintable(if i < 0 then -i else i);
    case Float(token) =>
      FloatTokenText(token);
    case Str(s) => EscapePrintable(s);
    case Arr(items) => ItemsPrintable(items);
    case Obj(members) => MembersPrintable(v, SortedKeys(members.Keys));
    case _ =>
  }

  lemma {:induction false} ItemsPrintable(items: seq<Json>)
    ensures Printable(EncodeItems(items))
    decreases items
  {
    if items != [] {
      EncodePrintable(items[0]);
      ItemsPrintable(items[1..]);
    }
  }

  lemma {:induction false} MembersPrintable(v: Json, ks: seq<Text>)
    requires v.Obj? && forall k | k in ks :: k in v.members
    ensures Printable(EncodeMembers(v, ks))
    decreases v, false, |ks|
  {
    if ks != [] {
      EscapePrintable(ks[0]);
      EncodePrintable(v.members[ks[0]]);
      assert Printable(EncodeMember(v, ks[0]));
      MembersPrintable(v, ks[1..]);
    }
  }

  // ---------- when the decoded value prints as the original did ----------

  function MergeAll(ks: seq<Text>): (r: seq<Text>)
    ensures |r| == |ks|
  {
    seq(|ks|, i requires 0 <= i < |ks| => Merge(ks[i]))
  }

  /** In every object of the value, joining surrogate pairs keeps the sorted order of the keys. */
  predicate KeyStable(v: Json) {
    match v
    case Arr(items) => forall i | 0 <= i < |items| :: KeyStable(items[i])
    case Obj(members) =>
      && Increasing(MergeAll(SortedKeys(members.Keys)))
      && forall k | k in members :: KeyStable(members[k])
    case _ => true
  }

  lemma MergeTwice(s: Text)
    ensures Merge(Merge(s)) == Merge(s)
  {
    MergeNoPair(s);
    MergeIdentity(Merge(s));
  }

  /** An object whose merged keys stay in order decodes to the object of its merged members. */
  lemma StableObjectNorm(v: Json, ks: seq<Text>)
    requires v.Obj? && KeyStable(v) && ks == SortedKeys(v.members.Keys)
    requires forall k | k in v.members :: Norm(v.members[k]).Some?
    ensures Norm(v).Some? && Norm(v).value.Obj?
    ensures SortedKeys(Norm(v).value.members.Keys) == MergeAll(ks)
    ensures forall i | 0 <= i < |ks| ::
              ks[i] in v.members && MergeAll(ks)[i] in Norm(v).value.members &&
              Norm(v.members[ks[i]]) == Some(Norm(v).value.members[MergeAll(ks)[i]])
  {
    var ls := MergeAll(ks);
    assert forall i | 0 <= i < |ks| :: ks[i] in Elements(ks);
    NormMembersAt(v, ks);
    NormObject(v);
    CollectIncreasing(ls, NormMembers(v, ks).value);
  }

  /** A key-stable value is alike to what it decodes to. */
  lemma {:induction false} StableAlike(v: Json)
    requires KeyStable(v)
    ensures Norm(v).Some? && Alike(v, Norm(v).value)
    decreases v
  {
    match v
    case Str(s) => MergeTwice(s);
    case Arr(items) =>
      forall i | 0 <= i < |items|
        ensures Norm(items[i]).Some? && Alike(items[i], Norm(items[i]).value)
      {
        StableAlike(items[i]);
      }
      NormItemsAt(items);
    case Obj(members) => StableObjectAlike(v);
    case _ =>
  }

  lemma {:induction false} StableObjectAlike(v: Json)
    requires v.Obj? && KeyStable(v)
    ensures Norm(v).Some? && Alike(v, Norm(v).value)
    decreases v, 0
  {
    var ks := SortedKeys(v.members.Keys);
    forall k | k in v.members
      ensures Norm(v.members[k]).Some? && Alike(v.members[k], Norm(v.members[k]).value)
    {
      StableAlike(v.members[k]);
    }
    StableObjectNorm(v, ks);
    forall i | 0 <= i < |ks|
      ensures Merge(ks[i]) == Merge(MergeAll(ks)[i])
    {
      MergeTwice(ks[i]);
    }
  }

  lemma MembersOf(v: Json)
    requires v.Obj?
    ensures var ks := SortedKeys(v.members.Keys);
            (forall k | k in ks :: k in v.members) && (forall k | k in v.members :: k in ks)
  {
    SortedKeysMeaning(v.members.Keys);
    var ks := SortedKeys(v.members.Keys);
    assert forall k :: k in ks <==> k in Elements(ks);
  }

  /** An object that decodes has its decoded members under their merged keys. */
  lemma DecodedMembers(v: Json, k: Text)
    requires v.Obj? && Norm(v).Some? && k in v.members
    ensures Norm(v).value.Obj? && Merge(k) in Norm(v).value.members
    ensures Norm(v.members[k]) == Some(Norm(v).value.members[Merge(k)])
  {
    var ks := SortedKeys(v.members.Keys);
    NormObject(v);
    NormMembersAt(v, ks);
    CollectMeaning(NormMembers(v, ks).value);
    MembersOf(v);
    var i :| 0 <= i < |ks| && ks[i] == k;
  }

  /** And a value alike to what it decodes to is key-stable. */
  lemma {:induction false} AlikeStable(v: Json)
    requires Norm(v).Some? && Alike(v, Norm(v).value)
    ensures KeyStable(v)
    decreases v
  {
    match v
    case Arr(items) =>
      NormItemsAt(items);
      forall i | 0 <= i < |items|
        ensures KeyStable(items[i])
      {
        AlikeStable(items[i]);
      }
    case Obj(members) =>
      var ks := SortedKeys(members.Keys);
      AlikeKeys(v);
      MembersOf(v);
      forall k | k in members
        ensures KeyStable(members[k])
      {
        var i :| 0 <= i < |ks| && ks[i] == k;
        DecodedMembers(v, k);
        AlikeStable(members[k]);
      }
    case _ =>
  }

  /** The keys of an object alike to what it decodes to stay in order when merged. */
  lemma AlikeKeys(v: Json)
    requires v.Obj? && Norm(v).Some? && Alike(v, Norm(v).value)
    ensures Increasing(MergeAll(SortedKeys(v.members.Keys)))
    ensures forall i | 0 <= i < |SortedKeys(v.members.Keys)| ::
              var k := SortedKeys(v.members.Keys)[i];
              Merge(k) in Norm(v).value.members && Alike(v.members[k], Norm(v).value.members[Merge(k)])
  {
    var w := Norm(v).value;
    var ks, ls := SortedKeys(v.members.Keys), SortedKeys(w.members.Keys);
    NormIsPairFree(v);
    MembersOf(w);
    forall i | 0 <= i < |ks|
      ensures Merge(ks[i]) == ls[i]
    {
      MergeIdentity(ls[i]);
    }
    assert MergeAll(ks) == ls;
    SortedKeysMeaning(w.members.Keys);
  }

  /** A value reads back and prints the same text again exactly when its keys are stable. */
  lemma StableExact(v: Json)
    ensures KeyStable(v) <==> Norm(v).Some? && Encode(Norm(v).value) == Encode(v)
  {
    if Norm(v).Some? {
      EncodeExactly(v, Norm(v).value);
    }
    if KeyStable(v) {
      StableAlike(v);
    } else if Norm(v).Some? && Alike(v, Norm(v).value) {
      AlikeStable(v);
    }
  }

  lemma PairFreeStable(v: Json)
    requires PairFree(v)
    ensures KeyStable(v)
  {
    PairFreeNorm(v);
    StableExact(v);
  }
}
