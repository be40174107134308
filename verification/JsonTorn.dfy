/**
 Text that breaks off inside a value.  No proper beginning of a canonical object reads as one, and an object
 written after a beginning does not complete it.
 */
module JsonTorn {
  import opened PyText
  import opened Json
  import opened JsonDecode
  import opened JsonRoundTrip
  import opened JsonExtend

  predicate Letter(c: CodePoint) {
    97 <= c <= 122
  }

  /** Text that starts as an object with a named member does, and reads as nothing but one whole value. */
  predicate Piece(g: Text) {
    && g != [] && g[0] == LBRACE
    && (|g| >= 2 ==> g[1] == QUOTE)
    && (|g| >= 3 ==> Letter(g[2]))
    && (Value(g).Got? ==> Value(g).rest == [])
  }

  lemma {:induction false} SkipSpaceAway(space: Text, t: Text)
    requires SkipSpace(space) == [] && (t == [] || !Space(t[0]))
    ensures SkipSpace(space + t) == t
  {
    if space == [] {
      assert space + t == t;
    } else {
      assert (space + t)[1..] == space[1..] + t;
      SkipSpaceAway(space[1..], t);
    }
  }

  /** White space before a text that starts with a brace. */
  lemma SkipSpaceGlued(t: Text, g: Text)
    requires g != [] && g[0] == LBRACE
    ensures SkipSpace(t + g) == SkipSpace(t) + g
  {
    if SkipSpace(t) == [] {
      SkipSpaceAway(t, g);
      assert [] + g == g;
    } else {
      SkipSpaceExtends(t, g);
    }
  }

  /** The text after the first character of an unfinished one. */
  lemma InnerGlued(t: Text, g: Text)
    requires g != [] && g[0] == LBRACE && t != []
    ensures (t + g)[0] == t[0] && SkipSpace((t + g)[1..]) == SkipSpace(t[1..]) + g
  {
    Dropped(t, g, 1);
    SkipSpaceGlued(t[1..], g);
  }

  // ---------- strings ----------

  /** An escape is not completed by a brace. */
  lemma UnitGlued(t: Text, g: Text)
    requires g != [] && g[0] == LBRACE
    ensures EscapedUnit(t + g) == EscapedUnit(t)
  {
    if |t| < 6 && |t + g| >= 6 {
      assert (t + g)[|t|] == LBRACE;
    }
  }

  lemma EscapeGlued(t: Text, g: Text)
    requires g != [] && g[0] == LBRACE && t != [] && t[0] == BACKSLASH
    ensures Escape(t + g) == With(Escape(t), g)
  {
    if |t| == 1 {
      assert (t + g)[1] == LBRACE;
    } else {
      UnitGlued(t, g);
      Dropped(t, g, 2);
      if |t| >= 6 {
        Dropped(t, g, 6);
        UnitGlued(t[6..], g);
        if |t| >= 12 {
          Dropped(t, g, 12);
        }
      }
    }
  }

  /** A string that breaks off is closed, if at all, by the quote that opens the first key of the piece. */
  lemma {:induction false} StringBodyGlued(t: Text, g: Text)
    requires Piece(g) && StringBody(t).Fail? && StringBody(t + g).Got?
    ensures StringBody(t + g).rest == [] || Letter(StringBody(t + g).rest[0])
    decreases |t|
  {
    if t == [] {
      assert t + g == g;
    } else if t[0] == BACKSLASH {
      EscapeGlued(t, g);
      StringBodyGlued(Escape(t).rest, g);
    } else {
      Dropped(t, g, 1);
      StringBodyGlued(t[1..], g);
    }
  }

  // ---------- values ----------

  /** What a value that breaks off in `t` can still read as. */
  predicate Blocked(t: Text, r: Parsed<Json>) {
    r.Got? ==> (r.rest == [] || Letter(r.rest[0])) && (t == [] || r.value.Str?)
  }

  lemma NumberGlued(t: Text, g: Text)
    requires g != [] && g[0] == LBRACE
    ensures Number(t + g) == With(Number(t), g)
  {
    NumberRunExtends(t, g);
    Dropped(t, g, NumberRun(t));
  }

  lemma AtomGlued(t: Text, g: Text)
    requires g != [] && g[0] == LBRACE && t != []
    requires t[0] != QUOTE && t[0] != LBRACKET && t[0] != LBRACE
    ensures Value(t + g) == With(Value(t), g)
  {
    LiteralGlued(NULL_TEXT, t, g);
    LiteralGlued(TRUE_TEXT, t, g);
    LiteralGlued(FALSE_TEXT, t, g);
    if NULL_TEXT <= t || TRUE_TEXT <= t {
      Dropped(t, g, 4);
    } else if FALSE_TEXT <= t {
      Dropped(t, g, 5);
    } else {
      NumberGlued(t, g);
    }
  }

  lemma LiteralGlued(word: Text, t: Text, g: Text)
    requires g != [] && g[0] == LBRACE && LBRACE !in word
    ensures word <= t + g <==> word <= t
  {
    assert (t + g)[|t|] == LBRACE;
    assert word <= t + g ==> forall i | 0 <= i < |word| :: (t + g)[i] == word[i];
  }

  lemma {:induction false} ValueGlued(t: Text, g: Text)
    requires Piece(g) && Value(t).Fail?
    ensures Blocked(t, Value(t + g))
    decreases |t|, 0
  {
    if t == [] {
      assert t + g == g;
    } else if t[0] == QUOTE {
      Dropped(t, g, 1);
      if StringBody(t[1..] + g).Got? {
        StringBodyGlued(t[1..], g);
      }
    } else if t[0] == LBRACKET {
      InnerGlued(t, g);
      ItemsGlued(SkipSpace(t[1..]), g);
    } else if t[0] == LBRACE {
      InnerGlued(t, g);
      var inner := SkipSpace(t[1..]);
      if Members(inner).Got? {
        MembersExtends(inner, g);
      } else {
        MembersGlued(inner, g);
      }
    } else {
      AtomGlued(t, g);
    }
  }

  /** Such an item is followed by no other and closes no array. */
  lemma BlockedItems(t: Text, r: Parsed<Json>)
    requires r == Value(t) && (r.Got? ==> r.rest == [] || Letter(r.rest[0]))
    ensures Items(t).Fail?
  {
  }

  lemma {:induction false} ItemsGlued(t: Text, g: Text)
    requires Piece(g) && Items(t).Fail?
    ensures Items(t + g).Fail?
    decreases |t|, 1
  {
    if Value(t).Fail? {
      ValueGlued(t, g);
      BlockedItems(t + g, Value(t + g));
    } else {
      ValueExtends(t, g);
      var r1 := Value(t).rest;
      var r2 := SkipSpace(r1);
      SkipSpaceGlued(r1, g);
      if r2 != [] && r2[0] == COMMA {
        InnerGlued(r2, g);
        ItemsGlued(SkipSpace(r2[1..]), g);
      }
    }
  }

  /** What a member that breaks off can still read as. */
  predicate MemberBlocked(r: Parsed<(Text, Json)>) {
    r.Got? ==> r.rest == [] || Letter(r.rest[0])
  }

  lemma {:induction false} MemberGlued(t: Text, g: Text)
    requires Piece(g) && Member(t).Fail?
    ensures MemberBlocked(Member(t + g))
    decreases |t|, 0
  {
    if t != [] && t[0] == QUOTE {
      Dropped(t, g, 1);
      if StringBody(t[1..]).Fail? {
        if StringBody(t[1..] + g).Got? {
          StringBodyGlued(t[1..], g);
        }
      } else {
        StringBodyExtends(t[1..], g);
        var r1 := StringBody(t[1..]).rest;
        var r2 := SkipSpace(r1);
        SkipSpaceGlued(r1, g);
        if r2 != [] && r2[0] == COLON {
          InnerGlued(r2, g);
          ValueGlued(SkipSpace(r2[1..]), g);
        }
      }
    } else {
      assert (t + g)[0] == if t == [] then LBRACE else t[0];
    }
  }

  /** Such a member is followed by no other and closes no object. */
  lemma BlockedMembers(t: Text)
    requires MemberBlocked(Member(t))
    ensures Members(t).Fail?
  {
  }

  lemma {:induction false} MembersGlued(t: Text, g: Text)
    requires Piece(g) && Members(t).Fail?
    ensures Members(t + g).Fail?
    decreases |t|, 1
  {
    if Member(t).Fail? {
      MemberGlued(t, g);
      BlockedMembers(t + g);
    } else {
      MemberExtends(t, g);
      var r1 := Member(t).rest;
      var r2 := SkipSpace(r1);
      SkipSpaceGlued(r1, g);
      if r2 != [] && r2[0] == COMMA {
        InnerGlued(r2, g);
        MembersGlued(SkipSpace(r2[1..]), g);
      }
    }
  }

  /** Whatever it is written after, other than white space, a piece of an object does not make an object of it. */
  lemma GluedPiece(line: Text, g: Text)
    requires Piece(g) && SkipSpace(line) != []
    ensures match Decode(line + g) case None => true case Some(v) => !v.Obj?
  {
    SkipSpaceGlued(line, g);
    var t := SkipSpace(line);
    if Value(t).Fail? {
      ValueGlued(t, g);
    } else {
      ValueExtends(t, g);
      SkipSpaceGlued(Value(t).rest, g);
    }
  }

  /** No proper beginning of a canonical object reads as a value. */
  lemma TornObject(v: Json, k: nat)
    requires v.Obj? && k < |Encode(v)|
    ensures Value(Encode(v)[..k]).Fail?
  {
    var e := Encode(v);
    var t, tail := e[..k], e[k..];
    assert e == t + tail && e + [] == e;
    ValueRoundTrip(v, []);
    ObjectText(v, []);
    if Value(t).Got? {
      assert t[0] == e[0] == LBRACE;
      ValueExtends(t, tail);
    }
  }

  // ---------- pieces of canonical objects ----------

  /** An object with members, whose names all start with a lower-case letter. */
  predicate Named(members: Dict) {
    members != map[] && forall k | k in members :: k != [] && Letter(k[0])
  }

  lemma QuoteStart(s: Text)
    requires s != [] && Letter(s[0])
    ensures |QuoteText(s)| > 2 && QuoteText(s)[0] == QUOTE && QuoteText(s)[1] == s[0]
  {
    assert EscapeText(s) == [s[0]] + EscapeText(s[1..]);
  }

  lemma MembersTextStart(v: Json, ks: seq<Text>)
    requires v.Obj? && (forall k | k in ks :: k in v.members) && ks != []
    ensures QuoteText(ks[0]) <= EncodeMembers(v, ks)
  {
    assert QuoteText(ks[0]) <= EncodeMember(v, ks[0]) <= EncodeMembers(v, ks);
  }

  lemma NamedStart(members: Dict)
    requires Named(members)
    ensures var e := Encode(Obj(members));
            |e| > 3 && e[0] == LBRACE && e[1] == QUOTE && Letter(e[2])
  {
    var ks := SortedKeys(members.Keys);
    var k :| k in members;
    assert k in members.Keys;
    SortedKeysMeaning(members.Keys);
    assert k in Elements(ks) && ks[0] in Elements(ks);
    MembersTextStart(Obj(members), ks);
    QuoteStart(ks[0]);
    ObjectText(Obj(members), []);
    var inner := EncodeMembers(Obj(members), ks);
    assert Encode(Obj(members)) + [] == Encode(Obj(members));
    assert inner[0] == QuoteText(ks[0])[0] && inner[1] == QuoteText(ks[0])[1];
  }

  /** Any beginning of its text is a piece. */
  lemma NamedPiece(members: Dict, k: nat)
    requires Named(members) && 0 < k <= |Encode(Obj(members))|
    ensures Piece(Encode(Obj(members))[..k])
  {
    var e := Encode(Obj(members));
    NamedStart(members);
    if k < |e| {
      TornObject(Obj(members), k);
    } else {
      ValueRoundTrip(Obj(members), []);
      assert e[..k] == e && e + [] == e;
    }
  }
}
