/** Reading a value does not look past it: more text after it changes only what is left over. */
module JsonExtend {
  import opened PyText
  import opened Json
  import opened JsonDecode
  import opened JsonRoundTrip

  /** The same reading with more text left over. */
  function With<T>(r: Parsed<T>, more: Text): Parsed<T> {
    match r
    case Fail => Fail
    case Got(v, rest) => Got(v, rest + more)
  }

  lemma {:induction false} SkipSpaceExtends(t: Text, more: Text)
    requires SkipSpace(t) != []
    ensures SkipSpace(t + more) == SkipSpace(t) + more
  {
    if Space(t[0]) {
      assert (t + more)[1..] == t[1..] + more;
      SkipSpaceExtends(t[1..], more);
    }
  }

  lemma Dropped(t: Text, more: Text, n: nat)
    requires n <= |t|
    ensures (t + more)[n..] == t[n..] + more && (t + more)[..n] == t[..n]
  {
  }

  /** A second escape is recognized alike in a string that ends. */
  lemma SecondUnit(t: Text, more: Text)
    requires StringBody(t).Got?
    ensures EscapedUnit(t + more) == EscapedUnit(t)
  {
    assert t[0] == (t + more)[0];
    if t[0] == BACKSLASH {
      assert t[1] == (t + more)[1];
    }
  }

  /** An escape that a string goes on after. */
  lemma EscapeExtends(t: Text, more: Text)
    requires t != [] && t[0] == BACKSLASH
    requires Escape(t).Got? && StringBody(Escape(t).rest).Got?
    ensures Escape(t + more) == With(Escape(t), more)
  {
    assert t[1] == (t + more)[1];
    if t[1] != LETTER_U {
      Dropped(t, more, 2);
    } else {
      assert EscapedUnit(t + more) == EscapedUnit(t);
      Dropped(t, more, 6);
      UnicodeExtends(t, more);
    }
  }

  lemma UnicodeExtends(t: Text, more: Text)
    requires |t| >= 6 && t[0] == BACKSLASH && t[1] == LETTER_U && EscapedUnit(t).Some?
    requires StringBody(Escape(t).rest).Got?
    requires EscapedUnit(t + more) == EscapedUnit(t) && (t + more)[6..] == t[6..] + more
    ensures Escape(t + more) == With(Escape(t), more)
  {
    var second := EscapedUnit(t[6..]);
    if High(EscapedUnit(t).value) {
      if second.Some? && Low(second.value) {
        assert EscapedUnit(t[6..] + more) == second;
        Dropped(t, more, 12);
      } else {
        SecondUnit(t[6..], more);
      }
    }
  }

  lemma {:induction false} StringBodyExtends(t: Text, more: Text)
    requires StringBody(t).Got?
    ensures StringBody(t + more) == With(StringBody(t), more)
    decreases |t|
  {
    assert (t + more)[0] == t[0];
    if t[0] == QUOTE {
      Dropped(t, more, 1);
    } else if t[0] == BACKSLASH {
      EscapeExtends(t, more);
      StringBodyExtends(Escape(t).rest, more);
    } else {
      Dropped(t, more, 1);
      StringBodyExtends(t[1..], more);
    }
  }

  lemma {:induction false} NumberRunExtends(t: Text, more: Text)
    requires Delimited(more) || NumberRun(t) < |t|
    ensures NumberRun(t + more) == NumberRun(t)
  {
    if t == [] {
      assert t + more == more;
    } else if NumberChar(t[0]) {
      assert (t + more)[1..] == t[1..] + more;
      NumberRunExtends(t[1..], more);
    }
  }

  /** A number starts with a digit or a sign, unlike every literal. */
  lemma NumberFirst(t: Text)
    requires Number(t).Got?
    ensures t != [] && (Digit(t[0]) || t[0] == MINUS)
  {
    var token := t[..NumberRun(t)];
    if !IsIntToken(token) {
      FloatTokenText(token);
    }
    assert token != [] && token[0] == t[0];
  }

  /** Where the value at the front of a text ends does not depend on what follows the text. */
  predicate Settled(t: Text, more: Text) {
    && Value(t).Got?
    && (Delimited(more) || Value(t).rest != [] || t[0] == QUOTE || t[0] == LBRACKET || t[0] == LBRACE)
  }

  lemma AtomExtends(t: Text, more: Text)
    requires Settled(t, more)
    requires t[0] != QUOTE && t[0] != LBRACKET && t[0] != LBRACE
    ensures Value(t + more) == With(Value(t), more)
  {
    assert (t + more)[0] == t[0];
    if NULL_TEXT <= t {
      Dropped(t, more, 4);
    } else if TRUE_TEXT <= t {
      Dropped(t, more, 4);
    } else if FALSE_TEXT <= t {
      Dropped(t, more, 5);
    } else {
      NumberFirst(t);
      NumberRunExtends(t, more);
      Dropped(t, more, NumberRun(t));
    }
  }

  /** The text after an opening bracket or brace. */
  lemma InnerExtends(t: Text, more: Text)
    requires t != [] && SkipSpace(t[1..]) != []
    ensures (t + more)[0] == t[0] && SkipSpace((t + more)[1..]) == SkipSpace(t[1..]) + more
  {
    Dropped(t, more, 1);
    SkipSpaceExtends(t[1..], more);
  }

  lemma {:induction false} ValueExtends(t: Text, more: Text)
    requires Settled(t, more)
    ensures Value(t + more) == With(Value(t), more)
    decreases |t|, 0
  {
    if t[0] == QUOTE {
      Dropped(t, more, 1);
      StringBodyExtends(t[1..], more);
    } else if t[0] == LBRACKET {
      var r1 := SkipSpace(t[1..]);
      InnerExtends(t, more);
      if r1[0] == RBRACKET {
        Dropped(r1, more, 1);
      } else {
        ItemsExtends(r1, more);
      }
    } else if t[0] == LBRACE {
      var r1 := SkipSpace(t[1..]);
      InnerExtends(t, more);
      if r1[0] == RBRACE {
        Dropped(r1, more, 1);
      } else {
        MembersExtends(r1, more);
      }
    } else {
      AtomExtends(t, more);
    }
  }

  lemma {:induction false} ItemsExtends(t: Text, more: Text)
    requires Items(t).Got?
    ensures Items(t + more) == With(Items(t), more)
    decreases |t|, 1
  {
    var r1 := Value(t).rest;
    var r2 := SkipSpace(r1);
    ValueExtends(t, more);
    SkipSpaceExtends(r1, more);
    Dropped(r2, more, 1);
    if r2[0] == COMMA {
      SkipSpaceExtends(r2[1..], more);
      ItemsExtends(SkipSpace(r2[1..]), more);
    }
  }

  lemma {:induction false} MemberExtends(t: Text, more: Text)
    requires Member(t).Got? && (Delimited(more) || Member(t).rest != [])
    ensures Member(t + more) == With(Member(t), more)
    decreases |t|, 0
  {
    var r1 := StringBody(t[1..]).rest;
    var r2 := SkipSpace(r1);
    Dropped(t, more, 1);
    StringBodyExtends(t[1..], more);
    SkipSpaceExtends(r1, more);
    Dropped(r2, more, 1);
    SkipSpaceExtends(r2[1..], more);
    ValueExtends(SkipSpace(r2[1..]), more);
  }

  lemma {:induction false} MembersExtends(t: Text, more: Text)
    requires Members(t).Got?
    ensures Members(t + more) == With(Members(t), more)
    decreases |t|, 1
  {
    var r1 := Member(t).rest;
    var r2 := SkipSpace(r1);
    MemberExtends(t, more);
    SkipSpaceExtends(r1, more);
    Dropped(r2, more, 1);
    if r2[0] == COMMA {
      SkipSpaceExtends(r2[1..], more);
      MembersExtends(SkipSpace(r2[1..]), more);
    }
  }
}
