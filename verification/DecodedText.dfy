/** Decoding text that holds no raw surrogates, as UTF-8 never does, yields values free of surrogate pairs. */
module DecodedText {
  import opened PyText
  import opened Json
  import opened JsonDecode
  import opened JsonStrings
  import opened JsonCanonical
  import opened AuditFile

  predicate NoSurrogate(t: Text) {
    forall i | 0 <= i < |t| :: !High(t[i]) && !Low(t[i])
  }

  lemma {:induction false} SkipSpaceClean(t: Text)
    requires NoSurrogate(t)
    ensures NoSurrogate(SkipSpace(t))
  {
    if t != [] && Space(t[0]) {
      SkipSpaceClean(t[1..]);
    }
  }

  /** Strings read from such text hold no pair, and start low only if the text starts with a low escape. */
  lemma {:induction false} StringBodyClean(t: Text)
    requires NoSurrogate(t)
    ensures var r := StringBody(t);
            r.Got? ==>
              && NoSurrogate(r.rest)
              && NoPair(r.value)
              && (StartsLow(r.value) ==> var u := EscapedUnit(t); u.Some? && Low(u.value))
    decreases |t|
  {
    if t != [] && t[0] == BACKSLASH {
      var e := Escape(t);
      if e.Got? {
        StringBodyClean(e.rest);
        if StringBody(e.rest).Got? {
          PrependNoPair(e.value, StringBody(e.rest).value);
        }
      }
    } else if t != [] && t[0] != QUOTE {
      StringBodyClean(t[1..]);
      if StringBody(t[1..]).Got? {
        PrependNoPair(t[0], StringBody(t[1..]).value);
      }
    }
  }

  lemma PrependNoPair(c: CodePoint, s: Text)
    requires NoPair(s) && !(High(c) && StartsLow(s))
    ensures NoPair([c] + s)
  {
    var t := [c] + s;
    forall i | 0 <= i < |t| - 1 ensures !PairAt(t, i) {
      if i > 0 {
        assert !PairAt(s, i - 1);
      }
    }
  }

  lemma DropClean(t: Text, n: nat)
    requires NoSurrogate(t) && n <= |t|
    ensures NoSurrogate(t[n..])
  {
  }

  lemma AtomClean(t: Text)
    requires NoSurrogate(t) && t != [] && t[0] != QUOTE && t[0] != LBRACKET && t[0] != LBRACE
    ensures var r := Value(t); r.Got? ==> NoSurrogate(r.rest) && PairFree(r.value)
  {
    if NULL_TEXT <= t || TRUE_TEXT <= t {
      DropClean(t, 4);
    } else if FALSE_TEXT <= t {
      DropClean(t, 5);
    } else {
      DropClean(t, NumberRun(t));
    }
  }

  lemma {:induction false} ValueClean(t: Text)
    requires NoSurrogate(t)
    ensures var r := Value(t); r.Got? ==> NoSurrogate(r.rest) && PairFree(r.value)
    decreases |t|, 0
  {
    if t == [] {
    } else if t[0] == QUOTE {
      StringBodyClean(t[1..]);
    } else if t[0] == LBRACKET {
      SkipSpaceClean(t[1..]);
      var r1 := SkipSpace(t[1..]);
      if !(r1 != [] && r1[0] == RBRACKET) {
        ItemsClean(r1);
      }
    } else if t[0] == LBRACE {
      SkipSpaceClean(t[1..]);
      var r1 := SkipSpace(t[1..]);
      if !(r1 != [] && r1[0] == RBRACE) {
        MembersClean(r1);
        if Members(r1).Got? {
          CollectPairFree(Members(r1).value);
        }
      }
    } else {
      AtomClean(t);
    }
  }

  lemma {:induction false} ItemsClean(t: Text)
    requires NoSurrogate(t)
    ensures var r := Items(t); r.Got? ==> NoSurrogate(r.rest) && forall i | 0 <= i < |r.value| :: PairFree(r.value[i])
    decreases |t|, 1
  {
    ValueClean(t);
    if Value(t).Got? {
      SkipSpaceClean(Value(t).rest);
      var r2 := SkipSpace(Value(t).rest);
      if r2 != [] && r2[0] == COMMA {
        SkipSpaceClean(r2[1..]);
        ItemsClean(SkipSpace(r2[1..]));
      }
    }
  }

  lemma {:induction false} MemberClean(t: Text)
    requires NoSurrogate(t)
    ensures var r := Member(t); r.Got? ==> NoSurrogate(r.rest) && NoPair(r.value.0) && PairFree(r.value.1)
    decreases |t|, 0
  {
    if t != [] && t[0] == QUOTE {
      StringBodyClean(t[1..]);
      if StringBody(t[1..]).Got? {
        SkipSpaceClean(StringBody(t[1..]).rest);
        var r2 := SkipSpace(StringBody(t[1..]).rest);
        if r2 != [] && r2[0] == COLON {
          SkipSpaceClean(r2[1..]);
          ValueClean(SkipSpace(r2[1..]));
        }
      }
    }
  }

  lemma {:induction false} MembersClean(t: Text)
    requires NoSurrogate(t)
    ensures var r := Members(t); r.Got? ==> NoSurrogate(r.rest) && PairsFree(r.value)
    decreases |t|, 1
  {
    MemberClean(t);
    if Member(t).Got? {
      SkipSpaceClean(Member(t).rest);
      var r2 := SkipSpace(Member(t).rest);
      if r2 != [] && r2[0] == COMMA {
        SkipSpaceClean(r2[1..]);
        MembersClean(SkipSpace(r2[1..]));
      }
    }
  }

  lemma CollectPairFree(ps: seq<(Text, Json)>)
    requires PairsFree(ps)
    ensures Collect(ps).Some? ==> PairFree(Obj(Collect(ps).value))
  {
    CollectMeaning(ps);
    if Collect(ps).Some? {
      var m := Collect(ps).value;
      forall k | k in m ensures NoPair(k) && PairFree(m[k]) {
        var i :| 0 <= i < |ps| && ps[i].0 == k;
      }
    }
  }

  lemma {:induction false} SplitLinesClean(t: Text)
    requires NoSurrogate(t)
    ensures forall i | 0 <= i < |SplitLines(t)| :: NoSurrogate(SplitLines(t)[i])
    decreases |t|
  {
    if t != [] && LineLength(t) < |t| {
      SplitStep(t);
      assert t[FirstLine(t)..|t|] == t[FirstLine(t)..];
      SplitLinesClean(t[FirstLine(t)..]);
    }
  }

  lemma {:induction false} DecodeLinesClean(lines: seq<Text>)
    requires forall i | 0 <= i < |lines| :: NoSurrogate(lines[i])
    ensures DecodeLines(lines).Some? ==> PairFreeRows(DecodeLines(lines).value)
  {
    if lines != [] {
      DecodeLinesClean(lines[1..]);
      if !Blank(lines[0]) {
        SkipSpaceClean(lines[0]);
        ValueClean(SkipSpace(lines[0]));
      }
    }
  }

  /** The rows of a UTF-8 file are free of surrogate pairs. */
  lemma ReadRowsPairFree(t: Text)
    requires NoSurrogate(t)
    ensures ReadRows(t).Some? ==> PairFreeRows(ReadRows(t).value)
  {
    SplitLinesClean(t);
    DecodeLinesClean(SplitLines(t));
  }
}
