/** Which canonical texts decode at all: those of values no object of which has two names that join to one. */
module JsonDecodable {
  import opened PyText
  import opened Json
  import opened JsonDecode
  import opened JsonStrings
  import opened JsonRoundTrip
  import opened JsonCanonical

  /** In every object of the value, distinct names stay distinct when surrogate pairs are joined. */
  predicate NamesApart(v: Json) {
    match v
    case Arr(items) => forall i | 0 <= i < |items| :: NamesApart(items[i])
    case Obj(members) => ApartIn(members.Keys) && forall k | k in members :: NamesApart(members[k])
    case _ => true
  }

  predicate ApartIn(names: set<Text>) {
    forall k, l | k in names && l in names :: Merge(k) == Merge(l) ==> k == l
  }

  lemma MergedDistinct(names: set<Text>, ks: seq<Text>, ps: seq<(Text, Json)>)
    requires ks == SortedKeys(names) && |ps| == |ks| && forall i | 0 <= i < |ks| :: ps[i].0 == Merge(ks[i])
    ensures DistinctKeys(ps) <==> ApartIn(names)
  {
    SortedKeysMeaning(names);
    IncreasingDistinct(ks);
    if DistinctKeys(ps) {
      forall k, l | k in names && l in names && Merge(k) == Merge(l) ensures k == l {
        assert k in Elements(ks) && l in Elements(ks);
        var i :| 0 <= i < |ks| && ks[i] == k;
        var j :| 0 <= j < |ks| && ks[j] == l;
        assert i == j by {
          assert ps[i].0 == ps[j].0;
        }
      }
    } else {
      var i, j :| 0 <= i < j < |ps| && ps[i].0 == ps[j].0;
      assert ks[i] in Elements(ks) && ks[j] in Elements(ks);
      assert Merge(ks[i]) == Merge(ks[j]) && ks[i] != ks[j];
    }
  }

  lemma {:induction false} NormExactly(v: Json)
    ensures Norm(v).Some? <==> NamesApart(v)
    decreases v
  {
    match v
    case Arr(items) =>
      NormItemsAt(items);
      forall i | 0 <= i < |items| ensures Norm(items[i]).Some? <==> NamesApart(items[i]) {
        NormExactly(items[i]);
      }
    case Obj(members) =>
      forall k | k in members ensures Norm(members[k]).Some? <==> NamesApart(members[k]) {
        NormExactly(members[k]);
      }
      NormObjectExactly(v);
    case _ =>
  }

  lemma NormObjectExactly(v: Json)
    requires v.Obj?
    ensures Norm(v).Some? <==> ApartIn(v.members.Keys) && forall k | k in v.members :: Norm(v.members[k]).Some?
  {
    var ks := SortedKeys(v.members.Keys);
    MembersOf(v);
    NormObject(v);
    NormMembersAt(v, ks);
    if NormMembers(v, ks).Some? {
      var ps := NormMembers(v, ks).value;
      CollectMeaning(ps);
      MergedDistinct(v.members.Keys, ks, ps);
    }
  }

  /** Canonical text decodes exactly for such values. */
  lemma DecodesExactly(v: Json)
    ensures Decode(Encode(v)).Some? <==> NamesApart(v)
  {
    DecodeEncode(v);
    NormExactly(v);
  }
}
