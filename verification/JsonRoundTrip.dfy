/**
 What `json.loads` makes of canonical text.  The value that comes back is
 `Norm(v)`, every string merged: exactly `v` for the values whose strings hold no
 surrogate pair written as two code points, and for no others.
 */
module JsonRoundTrip {
  import opened Options
  import opened PyText
  import opened Json
  import opened JsonDecode
  import opened JsonStrings

  // ---------- numbers ----------

  lemma {:induction false} DecimalRoundTrip(n: nat)
    ensures IsNatToken(Decimal(n))
    ensures n > 0 ==> Decimal(n)[0] != ZERO
    ensures DecimalValue(Decimal(n)) == n
  {
    if n >= 10 {
      DecimalRoundTrip(n / 10);
      var t := Decimal(n);
      assert t[..|t| - 1] == Decimal(n / 10);
      assert t[0] == Decimal(n / 10)[0];
    }
  }

  predicate NumberText(t: Text) {
    t != [] && (Digit(t[0]) || t[0] == MINUS) && forall i | 0 <= i < |t| :: NumberChar(t[i])
  }

  lemma IntRoundTrip(i: int)
    ensures NumberText(IntText(i)) && IsIntToken(IntText(i))
    ensures IntValue(IntText(i)) == i
  {
    var t := IntText(i);
    if i < 0 {
      DecimalRoundTrip(-i);
      assert t[1..] == Decimal(-i);
    } else {
      DecimalRoundTrip(i);
      assert t[0] != MINUS;
    }
  }

  lemma {:induction false} DigitRunDigits(t: Text)
    ensures AllDigits(t[..DigitRun(t)])
    ensures DigitRun(t) < |t| ==> !Digit(t[DigitRun(t)])
  {
    if t != [] && Digit(t[0]) {
      DigitRunDigits(t[1..]);
      var n := DigitRun(t[1..]);
      assert t[..n + 1] == [t[0]] + t[1..][..n];
    }
  }

  lemma FractionChars(t: Text)
    requires IsFractionExponent(t)
    ensures forall i | 0 <= i < |t| :: NumberChar(t[i])
  {
    if t[0] == POINT {
      var n := DigitRun(t[1..]);
      DigitRunDigits(t[1..]);
      if t[1 + n..] != [] {
        ExponentChars(t[1 + n..]);
      }
      forall i | 0 < i < |t| ensures NumberChar(t[i]) {
        if i <= n {
          assert t[i] == t[1..][..n][i - 1];
        } else {
          assert t[i] == t[1 + n..][i - 1 - n];
        }
      }
    } else {
      ExponentChars(t);
    }
  }

  lemma ExponentChars(e: Text)
    requires IsExponent(e)
    ensures forall i | 0 <= i < |e| :: NumberChar(e[i])
  {
    var digits := if e[1] == PLUS || e[1] == MINUS then e[2..] else e[1..];
    var skip := |e| - |digits|;
    assert forall i | skip <= i < |e| :: e[i] == digits[i - skip];
  }

  lemma FloatTokenText(t: Text)
    requires IsFloatToken(t)
    ensures NumberText(t) && !IsIntToken(t)
  {
    var u := Unsigned(t);
    var n := DigitRun(u);
    DigitRunDigits(u);
    FractionChars(u[n..]);
    assert forall i | 0 <= i < n :: u[i] == u[..n][i];
    assert forall i | n <= i < |u| :: u[i] == u[n..][i - n];
    assert !Digit(u[n]);
    assert forall i | 0 <= i < |u| :: NumberChar(u[i]);
    var sign := |t| - |u|;
    assert forall i | sign <= i < |t| :: t[i] == u[i - sign];
  }

  /** What follows a number must not look like more of it. */
  predicate Delimited(rest: Text) {
    rest == [] || !NumberChar(rest[0])
  }

  lemma {:induction false} NumberRunStops(t: Text, rest: Text)
    requires forall i | 0 <= i < |t| :: NumberChar(t[i])
    requires Delimited(rest)
    ensures NumberRun(t + rest) == |t|
  {
    if t == [] {
      assert t + rest == rest;
    } else {
      assert (t + rest)[1..] == t[1..] + rest;
      NumberRunStops(t[1..], rest);
    }
  }

  lemma NumberRoundTrip(t: Text, rest: Text)
    requires NumberText(t) && Delimited(rest)
    requires IsIntToken(t) || IsFloatToken(t)
    ensures Value(t + rest) == Got(if IsIntToken(t) then Int(IntValue(t)) else Float(t), rest)
  {
    NumberRunStops(t, rest);
    assert (t + rest)[..|t|] == t && (t + rest)[|t|..] == rest;
    assert (t + rest)[0] == t[0];
  }

  // ---------- the value that comes back ----------

  /** The decoded form of canonical text; none when merging makes two keys of one object equal. */
  function Norm(v: Json): Option<Json>
    decreases v
  {
    match v
    case Str(s) => Some(Str(Merge(s)))
    case Arr(items) =>
      (match NormItems(items)
       case None => None
       case Some(ws) => Some(Arr(ws)))
    case Obj(members) =>
      (match NormMembers(v, SortedKeys(members.Keys))
       case None => None
       case Some(pairs) =>
         match Collect(pairs)
         case None => None
         case Some(m) => Some(Obj(m)))
    case _ => Some(v)
  }

  function NormItems(items: seq<Json>): (r: Option<seq<Json>>)
    ensures r.Some? ==> |r.value| == |items|
    decreases items
  {
    if items == [] then Some([])
    else
      match Norm(items[0])
      case None => None
      case Some(w) => match NormItems(items[1..]) case None => None case Some(ws) => Some([w] + ws)
  }

  function NormMembers(v: Json, ks: seq<Text>): (r: Option<seq<(Text, Json)>>)
    requires v.Obj? && forall k | k in ks :: k in v.members
    ensures r.Some? ==> |r.value| == |ks|
    decreases v, |ks|
  {
    if ks == [] then Some([])
    else
      match Norm(v.members[ks[0]])
      case None => None
      case Some(w) => match NormMembers(v, ks[1..]) case None => None case Some(ps) => Some([(Merge(ks[0]), w)] + ps)
  }

  function Read<T>(r: Option<T>, rest: Text): Parsed<T> {
    match r
    case None => Fail
    case Some(w) => Got(w, rest)
  }

  lemma EncodeNonempty(v: Json)
    ensures Encode(v) != []
    ensures !Space(Encode(v)[0]) && Encode(v)[0] != RBRACKET
  {
    match v
    case Int(i) => IntRoundTrip(i);
    case Float(token) => FloatTokenText(token);
    case _ =>
  }

  // ---------- single steps of the parser ----------

  predicate Solid(t: Text) {
    t != [] && !Space(t[0])
  }

  lemma LiteralStep(t: Text, rest: Text)
    ensures t == NULL_TEXT + rest ==> Value(t) == Got(Null, rest)
    ensures t == TRUE_TEXT + rest ==> Value(t) == Got(Bool(true), rest)
    ensures t == FALSE_TEXT + rest ==> Value(t) == Got(Bool(false), rest)
  {
    assert (NULL_TEXT + rest)[4..] == rest;
    assert (TRUE_TEXT + rest)[4..] == rest;
    assert (FALSE_TEXT + rest)[5..] == rest;
  }

  lemma StringStepText(t: Text, body: Text)
    requires t == [QUOTE] + body
    ensures Value(t) == match StringBody(body) case Fail => Fail case Got(s, rest) => Got(Str(s), rest)
  {
    assert t[1..] == body;
  }

  lemma QuotedTail(s: Text, rest: Text)
    ensures QuoteText(s) + rest == [QUOTE] + Tail(s, rest)
  {
  }

  lemma StringValueStep(s: Text, rest: Text)
    ensures Value(QuoteText(s) + rest) == Got(Str(Merge(s)), rest)
  {
    StringRoundTrip(s, rest);
    QuotedTail(s, rest);
    StringStepText(QuoteText(s) + rest, Tail(s, rest));
  }

  lemma ArrayStep(t: Text, inner: Text)
    requires t == [LBRACKET] + inner
    requires Solid(inner) && inner[0] != RBRACKET
    ensures Value(t) == match Items(inner) case Fail => Fail case Got(items, rest) => Got(Arr(items), rest)
  {
    assert t[1..] == inner;
  }

  lemma LastItemStep(t: Text, r: Parsed<Json>, rest: Text)
    requires Value(t) == r
    requires r.Got? ==> r.rest == [RBRACKET] + rest
    ensures Items(t) == match r case Fail => Fail case Got(v, _) => Got([v], rest)
  {
    assert ([RBRACKET] + rest)[1..] == rest;
  }

  lemma NextItemStep(t: Text, r: Parsed<Json>, others: Text)
    requires Value(t) == r
    requires r.Got? ==> r.rest == [COMMA] + others
    requires Solid(others)
    ensures Items(t) ==
            match r
            case Fail => Fail
            case Got(v, _) =>
              match Items(others) case Fail => Fail case Got(vs, rest) => Got([v] + vs, rest)
  {
    assert ([COMMA] + others)[1..] == others;
  }

  lemma ObjectStep(t: Text, inner: Text)
    requires t == [LBRACE] + inner
    requires Solid(inner) && inner[0] != RBRACE
    ensures Value(t) ==
            match Members(inner)
            case Fail => Fail
            case Got(pairs, rest) =>
              match Collect(pairs) case None => Fail case Some(m) => Got(Obj(m), rest)
  {
    assert t[1..] == inner;
  }

  lemma MemberStepText(t: Text, body: Text, k: Text, value: Text)
    requires t == [QUOTE] + body
    requires StringBody(body) == Got(k, [COLON] + value)
    requires Solid(value)
    ensures Member(t) == match Value(value) case Fail => Fail case Got(w, rest) => Got((k, w), rest)
  {
    assert t[1..] == body;
    assert ([COLON] + value)[1..] == value;
  }

  lemma MemberStep(k: Text, value: Text)
    requires Solid(value)
    ensures Member(QuoteText(k) + ([COLON] + value)) ==
            match Value(value) case Fail => Fail case Got(w, rest) => Got((Merge(k), w), rest)
  {
    QuotedTail(k, [COLON] + value);
    StringRoundTrip(k, [COLON] + value);
    MemberStepText(QuoteText(k) + ([COLON] + value), Tail(k, [COLON] + value), Merge(k), value);
  }

  lemma LastMemberStep(t: Text, r: Parsed<(Text, Json)>, rest: Text)
    requires Member(t) == r
    requires r.Got? ==> r.rest == [RBRACE] + rest
    ensures Members(t) == match r case Fail => Fail case Got(p, _) => Got([p], rest)
  {
    assert ([RBRACE] + rest)[1..] == rest;
  }

  lemma NextMemberStep(t: Text, r: Parsed<(Text, Json)>, others: Text)
    requires Member(t) == r
    requires r.Got? ==> r.rest == [COMMA] + others
    requires Solid(others)
    ensures Members(t) ==
            match r
            case Fail => Fail
            case Got(p, _) =>
              match Members(others) case Fail => Fail case Got(ps, rest) => Got([p] + ps, rest)
  {
    assert ([COMMA] + others)[1..] == others;
  }

  // ---------- reading back printed values ----------

  lemma {:induction false} ValueRoundTrip(v: Json, rest: Text)
    requires Delimited(rest)
    ensures Value(Encode(v) + rest) == Read(Norm(v), rest)
    decreases v, true
  {
    match v
    case Null => LiteralStep(Encode(v) + rest, rest);
    case Bool(b) => LiteralStep(Encode(v) + rest, rest);
    case Int(i) =>
      IntRoundTrip(i);
      NumberRoundTrip(IntText(i), rest);
    case Float(token) =>
      FloatTokenText(token);
      NumberRoundTrip(token, rest);
    case Str(s) => StringValueStep(s, rest);
    case Arr(items) => ArrayRoundTrip(v, rest);
    case Obj(members) => ObjectRoundTrip(v, rest);
  }

  lemma EmptyArray(rest: Text)
    ensures Value(Encode(Arr([])) + rest) == Got(Arr([]), rest)
  {
    var t := [LBRACKET, RBRACKET] + rest;
    assert Encode(Arr([])) + rest == t;
    assert t[1..] == [RBRACKET] + rest && t[1..][1..] == rest;
  }

  lemma ArrayText(items: seq<Json>, rest: Text)
    ensures Encode(Arr(items)) + rest == [LBRACKET] + (EncodeItems(items) + ([RBRACKET] + rest))
  {
  }

  lemma {:induction false} ArrayRoundTrip(v: Json, rest: Text)
    requires v.Arr? && Delimited(rest)
    ensures Value(Encode(v) + rest) == Read(Norm(v), rest)
    decreases v, false
  {
    if v.items == [] {
      EmptyArray(rest);
    } else {
      ArrayText(v.items, rest);
      ItemsStart(v.items, rest);
      ArrayStep(Encode(v) + rest, EncodeItems(v.items) + ([RBRACKET] + rest));
      ItemsRoundTrip(v.items, rest);
    }
  }

  /** A printed list starts with its closing bracket exactly when it is empty. */
  lemma ItemsStart(items: seq<Json>, rest: Text)
    ensures var t := EncodeItems(items) + ([RBRACKET] + rest);
            && Solid(t)
            && (t[0] == RBRACKET <==> items == [])
            && (items == [] ==> t == [RBRACKET] + rest)
  {
    if items != [] {
      EncodeNonempty(items[0]);
      assert EncodeItems(items)[0] == Encode(items[0])[0];
    }
  }

  lemma Regroup(a: Text, b: Text, c: Text, d: Text)
    ensures a + [COMMA] + b + (c + d) == a + ([COMMA] + (b + (c + d)))
  {
  }

  lemma ItemsSplit(items: seq<Json>, rest: Text)
    requires items != []
    ensures EncodeItems(items) + ([RBRACKET] + rest) ==
            Encode(items[0]) + if |items| == 1 then [RBRACKET] + rest
                               else [COMMA] + (EncodeItems(items[1..]) + ([RBRACKET] + rest))
  {
    Regroup(Encode(items[0]), EncodeItems(items[1..]), [RBRACKET], rest);
  }

  lemma NormSingleton(v: Json)
    ensures NormItems([v]) == match Norm(v) case None => None case Some(w) => Some([w])
  {
    assert [v][1..] == [] && NormItems([]) == Some([]);
    match Norm(v)
    case None =>
    case Some(w) => assert [w] + [] == [w];
  }

  lemma {:induction false} ItemsRoundTrip(items: seq<Json>, rest: Text)
    requires items != [] && Delimited(rest)
    ensures Items(EncodeItems(items) + ([RBRACKET] + rest)) == Read(NormItems(items), rest)
    decreases items
  {
    var t := EncodeItems(items) + ([RBRACKET] + rest);
    ItemsSplit(items, rest);
    if |items| == 1 {
      NormSingleton(items[0]);
      assert items == [items[0]];
      ValueRoundTrip(items[0], [RBRACKET] + rest);
      LastItemStep(t, Read(Norm(items[0]), [RBRACKET] + rest), rest);
    } else {
      var others := EncodeItems(items[1..]) + ([RBRACKET] + rest);
      ValueRoundTrip(items[0], [COMMA] + others);
      ItemsStart(items[1..], rest);
      NextItemStep(t, Read(Norm(items[0]), [COMMA] + others), others);
      ItemsRoundTrip(items[1..], rest);
    }
  }

  lemma EmptyObject(v: Json, rest: Text)
    requires v == Obj(map[])
    ensures Encode(v) == [LBRACE, RBRACE]
    ensures Value([LBRACE, RBRACE] + rest) == Got(v, rest)
    ensures Norm(v) == Some(v)
  {
    assert SortedKeys(v.members.Keys) == [];
    var t := [LBRACE, RBRACE] + rest;
    assert t[1..] == [RBRACE] + rest && t[1..][1..] == rest;
  }

  lemma ObjectText(v: Json, rest: Text)
    requires v.Obj?
    ensures Encode(v) + rest == [LBRACE] + (EncodeMembers(v, SortedKeys(v.members.Keys)) + ([RBRACE] + rest))
  {
  }

  function Assemble(pairs: Option<seq<(Text, Json)>>): Option<Json> {
    match pairs
    case None => None
    case Some(ps) => match Collect(ps) case None => None case Some(m) => Some(Obj(m))
  }

  lemma NormObject(v: Json)
    requires v.Obj?
    ensures Norm(v) == Assemble(NormMembers(v, SortedKeys(v.members.Keys)))
  {
  }

  lemma {:induction false} ObjectRoundTrip(v: Json, rest: Text)
    requires v.Obj? && Delimited(rest)
    ensures Value(Encode(v) + rest) == Read(Norm(v), rest)
    decreases v, false
  {
    var ks := SortedKeys(v.members.Keys);
    if ks == [] {
      assert v.members.Keys == {};
      EmptyObject(v, rest);
    } else {
      NonEmptyObject(v, ks, rest);
      ObjectText(v, rest);
      NormObject(v);
    }
  }

  lemma {:induction false} NonEmptyObject(v: Json, ks: seq<Text>, rest: Text)
    requires v.Obj? && (forall k | k in ks :: k in v.members) && ks != [] && Delimited(rest)
    ensures Value([LBRACE] + (EncodeMembers(v, ks) + ([RBRACE] + rest))) == Read(Assemble(NormMembers(v, ks)), rest)
    decreases v, false, |ks|, 1
  {
    var inner := EncodeMembers(v, ks) + ([RBRACE] + rest);
    MembersStart(v, ks, rest);
    ObjectStep([LBRACE] + inner, inner);
    MembersRoundTrip(v, ks, rest);
  }

  lemma MembersStart(v: Json, ks: seq<Text>, rest: Text)
    requires v.Obj? && forall k | k in ks :: k in v.members
    ensures var t := EncodeMembers(v, ks) + ([RBRACE] + rest);
            && Solid(t)
            && t[0] == (if ks == [] then RBRACE else QUOTE)
            && (ks == [] ==> t == [RBRACE] + rest)
  {
    if ks != [] {
      assert EncodeMember(v, ks[0])[0] == QUOTE;
      assert EncodeMembers(v, ks)[0] == EncodeMember(v, ks[0])[0];
    }
  }

  lemma MemberText(v: Json, k: Text, rest: Text)
    requires v.Obj? && k in v.members
    ensures EncodeMember(v, k) + rest == QuoteText(k) + ([COLON] + (Encode(v.members[k]) + rest))
  {
  }

  lemma SolidValue(v: Json, rest: Text)
    ensures Solid(Encode(v) + rest)
  {
    EncodeNonempty(v);
  }

  lemma {:induction false} MemberRoundTrip(v: Json, k: Text, rest: Text)
    requires v.Obj? && k in v.members && Delimited(rest)
    ensures Member(EncodeMember(v, k) + rest) == ReadMember(v, k, rest)
    decreases v.members[k]
  {
    MemberText(v, k, rest);
    SolidValue(v.members[k], rest);
    MemberStep(k, Encode(v.members[k]) + rest);
    ValueRoundTrip(v.members[k], rest);
  }

  function ReadMember(v: Json, k: Text, rest: Text): Parsed<(Text, Json)>
    requires v.Obj? && k in v.members
  {
    match Norm(v.members[k]) case None => Fail case Some(w) => Got((Merge(k), w), rest)
  }

  lemma MembersSplit(v: Json, ks: seq<Text>, rest: Text)
    requires v.Obj? && (forall k | k in ks :: k in v.members) && ks != []
    ensures EncodeMembers(v, ks) + ([RBRACE] + rest) ==
            EncodeMember(v, ks[0]) + if |ks| == 1 then [RBRACE] + rest
                                     else [COMMA] + (EncodeMembers(v, ks[1..]) + ([RBRACE] + rest))
  {
    Regroup(EncodeMember(v, ks[0]), EncodeMembers(v, ks[1..]), [RBRACE], rest);
  }

  lemma NormSingleMember(v: Json, k: Text)
    requires v.Obj? && k in v.members
    ensures NormMembers(v, [k]) == match Norm(v.members[k]) case None => None case Some(w) => Some([(Merge(k), w)])
  {
    assert [k][1..] == [] && NormMembers(v, []) == Some([]);
    match Norm(v.members[k])
    case None =>
    case Some(w) => assert [(Merge(k), w)] + [] == [(Merge(k), w)];
  }

  lemma {:induction false} MembersRoundTrip(v: Json, ks: seq<Text>, rest: Text)
    requires v.Obj? && (forall k | k in ks :: k in v.members) && ks != [] && Delimited(rest)
    ensures Members(EncodeMembers(v, ks) + ([RBRACE] + rest)) == Read(NormMembers(v, ks), rest)
    decreases v, false, |ks|, 0
  {
    var t := EncodeMembers(v, ks) + ([RBRACE] + rest);
    MembersSplit(v, ks, rest);
    if |ks| == 1 {
      NormSingleMember(v, ks[0]);
      assert ks == [ks[0]];
      MemberRoundTrip(v, ks[0], [RBRACE] + rest);
      LastMemberStep(t, ReadMember(v, ks[0], [RBRACE] + rest), rest);
    } else {
      var others := EncodeMembers(v, ks[1..]) + ([RBRACE] + rest);
      MemberRoundTrip(v, ks[0], [COMMA] + others);
      MembersStart(v, ks[1..], rest);
      NextMemberStep(t, ReadMember(v, ks[0], [COMMA] + others), others);
      MembersRoundTrip(v, ks[1..], rest);
    }
  }
}
