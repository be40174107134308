/** When two values print alike, and that no canonical text runs on into another. */
module JsonAlike {
  import opened PyText
  import opened Json
  import opened JsonStrings
  import opened JsonRoundTrip

  /**
   The same value up to written-out surrogate pairs: texts equal once their pairs are joined, arrays alike item by
   item, and objects alike member by member in the sorted order that each has of its own keys.
   */
  predicate Alike(v: Json, w: Json)
    decreases v
  {
    match (v, w)
    case (Str(s), Str(t)) => Merge(s) == Merge(t)
    case (Arr(a), Arr(b)) => |a| == |b| && forall i | 0 <= i < |a| :: Alike(a[i], b[i])
    case (Obj(m), Obj(n)) =>
      var ks, ls := SortedKeys(m.Keys), SortedKeys(n.Keys);
      |ks| == |ls| && forall i | 0 <= i < |ks| :: Merge(ks[i]) == Merge(ls[i]) && Alike(m[ks[i]], n[ls[i]])
    case _ => v == w
  }

  // ---------- alike values print alike ----------

  lemma {:induction false} ItemsPrintAlike(a: seq<Json>, b: seq<Json>)
    requires |a| == |b| && forall i | 0 <= i < |a| :: Encode(a[i]) == Encode(b[i])
    ensures EncodeItems(a) == EncodeItems(b)
  {
    if a != [] {
      ItemsPrintAlike(a[1..], b[1..]);
    }
  }

  lemma {:induction false} MembersPrintAlike(v: Json, w: Json, ks: seq<Text>, ls: seq<Text>)
    requires v.Obj? && w.Obj? && |ks| == |ls|
    requires forall i | 0 <= i < |ks| ::
               ks[i] in v.members && ls[i] in w.members && Merge(ks[i]) == Merge(ls[i])
               && Encode(v.members[ks[i]]) == Encode(w.members[ls[i]])
    ensures EncodeMembers(v, ks) == EncodeMembers(w, ls)
    decreases |ks|
  {
    if ks != [] {
      MergeSameText(ks[0]);
      MergeSameText(ls[0]);
      assert EncodeMember(v, ks[0]) == EncodeMember(w, ls[0]);
      MembersPrintAlike(v, w, ks[1..], ls[1..]);
    }
  }

  lemma {:induction false} AlikePrints(v: Json, w: Json)
    requires Alike(v, w)
    ensures Encode(v) == Encode(w)
    decreases v
  {
    match (v, w)
    case (Str(s), Str(t)) =>
      MergeSameText(s);
      MergeSameText(t);
    case (Arr(a), Arr(b)) =>
      forall i | 0 <= i < |a|
        ensures Encode(a[i]) == Encode(b[i])
      {
        AlikePrints(a[i], b[i]);
      }
      ItemsPrintAlike(a, b);
    case (Obj(m), Obj(n)) =>
      var ks, ls := SortedKeys(m.Keys), SortedKeys(n.Keys);
      forall i | 0 <= i < |ks|
        ensures Encode(m[ks[i]]) == Encode(n[ls[i]])
      {
        AlikePrints(m[ks[i]], n[ls[i]]);
      }
      MembersPrintAlike(v, w, ks, ls);
    case _ =>
  }

  // ---------- values that print alike are alike ----------

  /** The first character tells arrays, objects and everything else apart. */
  lemma FirstCharacter(v: Json)
    ensures Encode(v) != []
    ensures Encode(v)[0] == LBRACKET <==> v.Arr?
    ensures Encode(v)[0] == LBRACE <==> v.Obj?
    ensures Encode(v)[0] != RBRACKET
  {
    match v
    case Int(i) => IntRoundTrip(i);
    case Float(token) => FloatTokenText(token);
    case _ =>
  }

  predicate Atomic(v: Json) {
    !v.Arr? && !v.Obj?
  }

  lemma AtomsApart(v: Json, w: Json, after: Text, beyond: Text)
    requires Atomic(v) && Atomic(w) && Delimited(after) && Delimited(beyond)
    requires Encode(v) + after == Encode(w) + beyond
    ensures Alike(v, w) && after == beyond
  {
    ValueRoundTrip(v, after);
    ValueRoundTrip(w, beyond);
    assert Norm(v) == Norm(w);
  }

  /** What follows the first item of a printed list. */
  function AfterItem(items: seq<Json>): (t: Text)
    requires items != []
    ensures EncodeItems(items) == Encode(items[0]) + t
  {
    if |items| == 1 then [] else [COMMA] + EncodeItems(items[1..])
  }

  function AfterMember(v: Json, ks: seq<Text>): (t: Text)
    requires v.Obj? && ks != [] && forall k | k in ks :: k in v.members
    ensures EncodeMembers(v, ks) == EncodeMember(v, ks[0]) + t
  {
    if |ks| == 1 then [] else [COMMA] + EncodeMembers(v, ks[1..])
  }

  lemma Regrouped(a: Text, b: Text, c: Text)
    ensures a + b + c == a + (b + c)
  {
  }

  /** Equal texts with the same first character are equal after it. */
  lemma SameRest(c: CodePoint, x: Text, y: Text)
    requires [c] + x == [c] + y
    ensures x == y
  {
    assert x == ([c] + x)[1..] && y == ([c] + y)[1..];
  }

  /** A comma is not a closing bracket: both lists go on, or both end. */
  lemma SameContinuation(x: Text, y: Text, p: bool, q: bool, close: CodePoint, after: Text, beyond: Text)
    requires close != COMMA
    requires (if p then [COMMA] + x else []) + ([close] + after) == (if q then [COMMA] + y else []) + ([close] + beyond)
    ensures p == q
    ensures if p then x + ([close] + after) == y + ([close] + beyond) else after == beyond
  {
    var s := (if p then [COMMA] + x else []) + ([close] + after);
    assert s[0] == if p then COMMA else close;
    assert s[0] == if q then COMMA else close;
    assert s[1..] == if p then x + ([close] + after) else after;
    assert s[1..] == if q then y + ([close] + beyond) else beyond;
  }

  lemma {:induction false} ItemsApart(a: seq<Json>, b: seq<Json>, after: Text, beyond: Text)
    requires EncodeItems(a) + ([RBRACKET] + after) == EncodeItems(b) + ([RBRACKET] + beyond)
    ensures |a| == |b| && (forall i | 0 <= i < |a| :: Alike(a[i], b[i])) && after == beyond
    decreases a, 0
  {
    if a == [] || b == [] {
      ItemsStart(a, after);
      ItemsStart(b, beyond);
      SameRest(RBRACKET, after, beyond);
    } else {
      var x, y := AfterItem(a) + ([RBRACKET] + after), AfterItem(b) + ([RBRACKET] + beyond);
      Regrouped(Encode(a[0]), AfterItem(a), [RBRACKET] + after);
      Regrouped(Encode(b[0]), AfterItem(b), [RBRACKET] + beyond);
      ValuesApart(a[0], b[0], x, y);
      SameContinuation(EncodeItems(a[1..]), EncodeItems(b[1..]), |a| > 1, |b| > 1, RBRACKET, after, beyond);
      if |a| > 1 {
        ItemsApart(a[1..], b[1..], after, beyond);
        assert forall i | 0 < i < |a| :: a[i] == a[1..][i - 1] && b[i] == b[1..][i - 1];
      }
    }
  }

  /** A printed key ends where it ends. */
  lemma KeysApart(k: Text, l: Text, x: Text, y: Text)
    requires QuoteText(k) + x == QuoteText(l) + y
    ensures Merge(k) == Merge(l) && x == y
  {
    StringValueStep(k, x);
    StringValueStep(l, y);
  }

  /** Printed members that agree agree in merged key, and in what follows the colon. */
  lemma MemberApart(v: Json, w: Json, k: Text, l: Text, x: Text, y: Text)
    requires v.Obj? && w.Obj? && k in v.members && l in w.members
    requires EncodeMember(v, k) + x == EncodeMember(w, l) + y
    ensures Merge(k) == Merge(l) && Encode(v.members[k]) + x == Encode(w.members[l]) + y
  {
    MemberText(v, k, x);
    MemberText(w, l, y);
    KeysApart(k, l, [COLON] + (Encode(v.members[k]) + x), [COLON] + (Encode(w.members[l]) + y));
    SameRest(COLON, Encode(v.members[k]) + x, Encode(w.members[l]) + y);
  }

  /** What follows the value of the first member, closing brace included. */
  function AfterFirst(v: Json, ks: seq<Text>, after: Text): (t: Text)
    requires v.Obj? && ks != [] && forall k | k in ks :: k in v.members
    ensures Delimited(t)
    ensures EncodeMembers(v, ks) + ([RBRACE] + after) == EncodeMember(v, ks[0]) + t
  {
    Regrouped(EncodeMember(v, ks[0]), AfterMember(v, ks), [RBRACE] + after);
    AfterMember(v, ks) + ([RBRACE] + after)
  }

  /** Members listed by two lists of keys are alike, key by key. */
  predicate AlikeBy(v: Json, w: Json, ks: seq<Text>, ls: seq<Text>)
    requires v.Obj? && w.Obj? && (forall k | k in ks :: k in v.members) && (forall l | l in ls :: l in w.members)
  {
    && |ks| == |ls|
    && forall i | 0 <= i < |ks| :: Merge(ks[i]) == Merge(ls[i]) && Alike(v.members[ks[i]], w.members[ls[i]])
  }

  lemma AlikeByMore(v: Json, w: Json, ks: seq<Text>, ls: seq<Text>)
    requires v.Obj? && w.Obj? && (forall k | k in ks :: k in v.members) && (forall l | l in ls :: l in w.members)
    requires ks != [] && ls != [] && Merge(ks[0]) == Merge(ls[0]) && Alike(v.members[ks[0]], w.members[ls[0]])
    requires AlikeBy(v, w, ks[1..], ls[1..])
    ensures AlikeBy(v, w, ks, ls)
  {
    assert forall i | 0 < i < |ks| :: ks[i] == ks[1..][i - 1] && ls[i] == ls[1..][i - 1];
  }

  lemma {:induction false} MembersApart(v: Json, w: Json, ks: seq<Text>, ls: seq<Text>, after: Text, beyond: Text)
    requires v.Obj? && w.Obj? && (forall k | k in ks :: k in v.members) && (forall l | l in ls :: l in w.members)
    requires EncodeMembers(v, ks) + ([RBRACE] + after) == EncodeMembers(w, ls) + ([RBRACE] + beyond)
    ensures AlikeBy(v, w, ks, ls) && after == beyond
    decreases v, 0, |ks|
  {
    if ks == [] || ls == [] {
      MembersStart(v, ks, after);
      MembersStart(w, ls, beyond);
      SameRest(RBRACE, after, beyond);
    } else {
      var x, y := AfterFirst(v, ks, after), AfterFirst(w, ls, beyond);
      MemberApart(v, w, ks[0], ls[0], x, y);
      ValuesApart(v.members[ks[0]], w.members[ls[0]], x, y);
      SameContinuation(EncodeMembers(v, ks[1..]), EncodeMembers(w, ls[1..]), |ks| > 1, |ls| > 1, RBRACE, after, beyond);
      if |ks| > 1 {
        MembersApart(v, w, ks[1..], ls[1..], after, beyond);
      }
      AlikeByMore(v, w, ks, ls);
    }
  }

  /** No canonical text runs on into another: values alike, and the same text after them. */
  lemma {:induction false} ValuesApart(v: Json, w: Json, after: Text, beyond: Text)
    requires Encode(v) + after == Encode(w) + beyond && Delimited(after) && Delimited(beyond)
    ensures Alike(v, w) && after == beyond
    decreases v, 1
  {
    FirstCharacter(v);
    FirstCharacter(w);
    assert (Encode(v) + after)[0] == Encode(v)[0] && (Encode(w) + beyond)[0] == Encode(w)[0];
    if v.Arr? {
      ArrayText(v.items, after);
      ArrayText(w.items, beyond);
      SameRest(LBRACKET, EncodeItems(v.items) + ([RBRACKET] + after), EncodeItems(w.items) + ([RBRACKET] + beyond));
      ItemsApart(v.items, w.items, after, beyond);
    } else if v.Obj? {
      var ks, ls := SortedKeys(v.members.Keys), SortedKeys(w.members.Keys);
      ObjectText(v, after);
      ObjectText(w, beyond);
      SameRest(LBRACE, EncodeMembers(v, ks) + ([RBRACE] + after), EncodeMembers(w, ls) + ([RBRACE] + beyond));
      MembersApart(v, w, ks, ls, after, beyond);
    } else {
      AtomsApart(v, w, after, beyond);
    }
  }

  /** Two values have the same canonical text exactly when they are alike. */
  lemma EncodeExactly(v: Json, w: Json)
    ensures Encode(v) == Encode(w) <==> Alike(v, w)
  {
    if Encode(v) == Encode(w) {
      ValuesApart(v, w, [], []);
    }
    if Alike(v, w) {
      AlikePrints(v, w);
    }
  }

  /** Two texts that start with a canonical text and go on delimited are equal exactly when both parts are. */
  lemma PrefixFree(v: Json, w: Json, after: Text, beyond: Text)
    requires Delimited(after) && Delimited(beyond)
    ensures Encode(v) + after == Encode(w) + beyond <==> Alike(v, w) && after == beyond
  {
    if Encode(v) + after == Encode(w) + beyond {
      ValuesApart(v, w, after, beyond);
    }
    if Alike(v, w) {
      AlikePrints(v, w);
    }
  }
}
