/**
 Reading back printed strings: `json.loads` joins every escaped surrogate pair, so
 a string comes back merged.
 */
module JsonStrings {
  import opened Options
  import opened PyText
  import opened Json
  import opened JsonDecode

  /** A string with every surrogate pair joined into the code point it stands for. */
  function Merge(s: Text): Text {
    if s == [] then []
    else if |s| >= 2 && High(s[0]) && Low(s[1]) then [Join(s[0], s[1])] + Merge(s[2..])
    else [s[0]] + Merge(s[1..])
  }

  predicate PairAt(s: Text, i: int)
    requires 0 <= i < |s| - 1
  {
    High(s[i]) && Low(s[i + 1])
  }

  predicate NoPair(s: Text) {
    forall i | 0 <= i < |s| - 1 :: !PairAt(s, i)
  }

  lemma HexSum(n: int)
    requires 0 <= n < 0x10000
    ensures n == 4096 * (n / 4096) + 256 * (n % 4096 / 256) + 16 * (n % 256 / 16) + n % 16
  {
    var r := n % 4096;
    assert n == 256 * (16 * (n / 4096) + r / 256) + r % 256;
    assert n % 256 == r % 256;
    var s := n % 256;
    assert n == 16 * (16 * (n / 256) + s / 16) + s % 16;
    assert n % 16 == s % 16;
  }

  lemma HexRoundTrip(n: int)
    requires 0 <= n < 0x10000
    ensures var h := Hex4(n); HexNumber(h[0], h[1], h[2], h[3]) == Some(n)
  {
    HexSum(n);
  }

  lemma UnitRoundTrip(n: int, more: Text)
    requires 0 <= n < 0x10000
    ensures EscapedUnit(UnitEscape(n) + more) == Some(n)
  {
    HexRoundTrip(n);
    var h := Hex4(n);
    var t := UnitEscape(n) + more;
    assert t[0] == BACKSLASH && t[1] == LETTER_U;
    assert t[2] == h[0] && t[3] == h[1] && t[4] == h[2] && t[5] == h[3];
  }

  predicate PrintedAsUnit(c: CodePoint) {
    c < 0x10000 && EscapeChar(c) == UnitEscape(c)
  }

  lemma EscapedUnitOfChar(c: CodePoint, after: Text)
    ensures EscapedUnit(EscapeChar(c) + after) ==
            if c >= 0x10000 then Some(HighHalf(c))
            else if PrintedAsUnit(c) then Some(c as int)
            else None
  {
    var t := EscapeChar(c) + after;
    if c >= 0x10000 {
      assert t == UnitEscape(HighHalf(c)) + (UnitEscape(LowHalf(c)) + after);
      UnitRoundTrip(HighHalf(c), UnitEscape(LowHalf(c)) + after);
    } else if PrintedAsUnit(c) {
      UnitRoundTrip(c, after);
    } else {
      assert t[0] == EscapeChar(c)[0];
      assert t[0] == BACKSLASH ==> t[1] == EscapeChar(c)[1];
    }
  }

  /** The text of a string from some point on, up to and beyond its closing quote. */
  function Tail(s: Text, more: Text): (t: Text)
    ensures s != [] ==> t == EscapeChar(s[0]) + Tail(s[1..], more)
  {
    EscapeText(s) + [QUOTE] + more
  }

  predicate StartsLow(s: Text) {
    s != [] && Low(s[0])
  }

  /** Only a low surrogate is printed as an escape that a high one would absorb. */
  lemma PeekLow(s: Text, more: Text)
    ensures var u := EscapedUnit(Tail(s, more));
            if StartsLow(s) then u == Some(s[0] as int) else u.None? || !Low(u.value)
  {
    if s == [] {
      assert Tail(s, more)[0] == QUOTE;
    } else {
      EscapedUnitOfChar(s[0], Tail(s[1..], more));
    }
  }

  /** Two escapes that stand for a surrogate pair are read as one code point. */
  lemma EscapePair(high: int, low: int, after: Text)
    requires 0xD800 <= high <= 0xDBFF && 0xDC00 <= low <= 0xDFFF
    ensures Escape(UnitEscape(high) + (UnitEscape(low) + after)) == Got(Join(high, low), after)
  {
    var tail := UnitEscape(low) + after;
    var t := UnitEscape(high) + tail;
    UnitRoundTrip(high, tail);
    assert t[6..] == tail;
    UnitRoundTrip(low, after);
    assert t[12..] == after;
  }

  lemma EscapeAstral(c: CodePoint, after: Text)
    requires c >= 0x10000
    ensures Escape(EscapeChar(c) + after) == Got(c, after)
  {
    EscapePair(HighHalf(c), LowHalf(c), after);
  }

  lemma EscapeUnit(c: CodePoint, after: Text)
    requires PrintedAsUnit(c)
    ensures var u := EscapedUnit(after);
            Escape(EscapeChar(c) + after) ==
            if High(c) && u.Some? && Low(u.value) then Got(Join(c, u.value), after[6..]) else Got(c, after)
  {
    var t := EscapeChar(c) + after;
    UnitRoundTrip(c, after);
    assert t[6..] == after;
    if EscapedUnit(after).Some? {
      assert t[12..] == after[6..];
    }
  }

  /** Reading back one printed code point. */
  lemma StringStep(c: CodePoint, after: Text)
    ensures var u := EscapedUnit(after);
            StringBody(EscapeChar(c) + after) ==
            if High(c) && u.Some? && Low(u.value) then Prepend(Join(c, u.value), StringBody(after[6..]))
            else Prepend(c, StringBody(after))
  {
    var t := EscapeChar(c) + after;
    assert t[0] == EscapeChar(c)[0];
    if c >= 0x10000 {
      EscapeAstral(c, after);
    } else if PrintedAsUnit(c) {
      EscapeUnit(c, after);
    } else if t[0] == BACKSLASH {
      assert t[1] == EscapeChar(c)[1];
      assert t[2..] == after;
    } else {
      assert t[1..] == after;
    }
  }

  lemma PairTail(s: Text, rest: Text)
    requires |s| >= 2 && High(s[0]) && Low(s[1])
    ensures s[1..][1..] == s[2..]
    ensures EscapedUnit(Tail(s[1..], rest)) == Some(s[1] as int)
    ensures |Tail(s[1..], rest)| >= 6 && Tail(s[1..], rest)[6..] == Tail(s[2..], rest)
  {
    PeekLow(s[1..], rest);
    assert s[1..][1..] == s[2..];
    assert Tail(s[1..], rest) == UnitEscape(s[1]) + Tail(s[2..], rest);
  }

  lemma {:induction false} StringRoundTrip(s: Text, rest: Text)
    ensures StringBody(Tail(s, rest)) == Got(Merge(s), rest)
    decreases |s|
  {
    if s == [] {
      assert Tail(s, rest) == [QUOTE] + rest;
    } else {
      StringStep(s[0], Tail(s[1..], rest));
      if |s| >= 2 && High(s[0]) && Low(s[1]) {
        PairTail(s, rest);
        StringRoundTrip(s[2..], rest);
      } else {
        PeekLow(s[1..], rest);
        StringRoundTrip(s[1..], rest);
      }
    }
  }

  lemma {:induction false} MergeNoPair(s: Text)
    ensures NoPair(Merge(s))
    ensures StartsLow(Merge(s)) == StartsLow(s)
    decreases |s|
  {
    if s != [] {
      var m := Merge(s);
      if |s| >= 2 && High(s[0]) && Low(s[1]) {
        MergeNoPair(s[2..]);
        assert m[1..] == Merge(s[2..]);
      } else {
        MergeNoPair(s[1..]);
        assert m[1..] == Merge(s[1..]);
      }
      assert NoPair(m[1..]);
      forall i | 0 <= i < |m| - 1 ensures !PairAt(m, i) {
        if i == 0 {
          assert High(m[0]) ==> m[0] == s[0] && !StartsLow(m[1..]);
        } else {
          assert !PairAt(m[1..], i - 1);
        }
      }
    }
  }

  lemma {:induction false} MergeIdentity(s: Text)
    requires NoPair(s)
    ensures Merge(s) == s
    decreases |s|
  {
    if s != [] {
      assert forall i | 0 <= i < |s[1..]| - 1 :: PairAt(s[1..], i) == PairAt(s, i + 1);
      MergeIdentity(s[1..]);
      assert s == [s[0]] + s[1..];
      assert |s| >= 2 ==> !PairAt(s, 0);
    }
  }

  lemma JoinPrints(high: CodePoint, low: CodePoint)
    requires High(high) && Low(low)
    ensures EscapeChar(Join(high, low)) == EscapeChar(high) + EscapeChar(low)
  {
    var c := Join(high, low);
    assert HighHalf(c) == high && LowHalf(c) == low;
  }

  /** Printing does not tell a surrogate pair from the code point it stands for. */
  lemma {:induction false} MergeSameText(s: Text)
    ensures EscapeText(Merge(s)) == EscapeText(s)
    decreases |s|
  {
    if s != [] {
      var m := Merge(s);
      if |s| >= 2 && High(s[0]) && Low(s[1]) {
        MergeSameText(s[2..]);
        assert m[1..] == Merge(s[2..]);
        JoinPrints(s[0], s[1]);
      } else {
        MergeSameText(s[1..]);
        assert m[1..] == Merge(s[1..]);
      }
    }
  }
}
