/** What canonical text looks like, in literals: the order of the names, the separators, the words and the escapes. */
module JsonText {
  import opened PyText
  import opened Json

  // ---------- the order of names ----------

  /** Two texts agree up to place n, where the first one ends or has the smaller character. */
  predicate DiffersAt(k: Text, l: Text, n: nat) {
    && n <= |k| && n < |l|
    && k[..n] == l[..n]
    && (n == |k| || (k[n] as int) < (l[n] as int))
  }

  /** The first of two texts in the order a dictionary sorts them by. */
  ghost predicate Precedes(k: Text, l: Text) {
    exists n: nat :: DiffersAt(k, l, n)
  }

  lemma {:induction false} BelowPrecedes(k: Text, l: Text)
    ensures Below(k, l) <==> Precedes(k, l)
  {
    if Below(k, l) {
      if k == [] || k[0] < l[0] {
        assert DiffersAt(k, l, 0);
      } else {
        BelowPrecedes(k[1..], l[1..]);
        var n: nat :| DiffersAt(k[1..], l[1..], n);
        assert k == [k[0]] + k[1..] && l == [l[0]] + l[1..];
        assert k[..n + 1] == [k[0]] + k[1..][..n] && l[..n + 1] == [l[0]] + l[1..][..n];
        assert DiffersAt(k, l, n + 1);
      }
    }
    if n: nat :| DiffersAt(k, l, n) {
      if n > 0 {
        assert k[0] == k[..n][0] == l[..n][0] == l[0];
        assert k[1..][..n - 1] == k[..n][1..] && l[1..][..n - 1] == l[..n][1..];
        assert DiffersAt(k[1..], l[1..], n - 1);
        BelowPrecedes(k[1..], l[1..]);
      }
    }
  }

  /** The sorted names are the names, each once, every one before the next by its first differing character. */
  lemma SortedListing(names: set<Text>)
    ensures forall k :: k in SortedKeys(names) <==> k in names
    ensures forall i, j | 0 <= i < j < |SortedKeys(names)| :: Precedes(SortedKeys(names)[i], SortedKeys(names)[j])
  {
    var ks := SortedKeys(names);
    SortedKeysMeaning(names);
    assert forall k :: k in ks <==> k in Elements(ks);
    forall i, j | 0 <= i < j < |ks| ensures Precedes(ks[i], ks[j]) {
      BelowPrecedes(ks[i], ks[j]);
    }
  }

  /** And the only such listing. */
  lemma ListingUnique(names: set<Text>, ks: seq<Text>)
    requires forall k :: k in ks <==> k in names
    requires forall i, j | 0 <= i < j < |ks| :: Precedes(ks[i], ks[j])
    ensures SortedKeys(names) == ks
  {
    SortedKeysMeaning(names);
    forall i, j | 0 <= i < j < |ks| ensures Below(ks[i], ks[j]) {
      BelowPrecedes(ks[i], ks[j]);
    }
    assert Elements(ks) == names;
    IncreasingUnique(SortedKeys(names), ks);
  }

  // ---------- arrays and objects ----------

  /** Texts with a separator between them. */
  function Joined(parts: seq<Text>, separator: Text): Text {
    if parts == [] then []
    else if |parts| == 1 then parts[0]
    else parts[0] + separator + Joined(parts[1..], separator)
  }

  function Encoded(items: seq<Json>): (ts: seq<Text>)
    ensures |ts| == |items|
  {
    seq(|items|, i requires 0 <= i < |items| => Encode(items[i]))
  }

  lemma {:induction false} ItemsJoined(items: seq<Json>)
    ensures EncodeItems(items) == Joined(Encoded(items), Lit(","))
  {
    assert Lit(",") == [COMMA];
    if |items| > 1 {
      assert Encoded(items)[1..] == Encoded(items[1..]);
      ItemsJoined(items[1..]);
    }
  }

  /** An array is its items, comma-separated and bracketed, with nothing else in between. */
  lemma ArrayText(items: seq<Json>)
    ensures Encode(Arr(items)) == Lit("[") + Joined(Encoded(items), Lit(",")) + Lit("]")
  {
    ItemsJoined(items);
    assert Lit("[") == [LBRACKET] && Lit("]") == [RBRACKET];
  }

  /** One member: the quoted name, a colon, the value. */
  function MemberText(name: Text, value: Json): Text {
    Encode(Str(name)) + Lit(":") + Encode(value)
  }

  function MemberTexts(m: Dict, ks: seq<Text>): (ts: seq<Text>)
    requires forall k | k in ks :: k in m
    ensures |ts| == |ks|
  {
    seq(|ks|, i requires 0 <= i < |ks| => MemberText(ks[i], m[ks[i]]))
  }

  lemma {:induction false} MembersJoined(m: Dict, ks: seq<Text>)
    requires forall k | k in ks :: k in m
    ensures EncodeMembers(Obj(m), ks) == Joined(MemberTexts(m, ks), Lit(","))
  {
    assert Lit(",") == [COMMA] && Lit(":") == [COLON];
    if |ks| > 1 {
      assert MemberTexts(m, ks)[1..] == MemberTexts(m, ks[1..]);
      MembersJoined(m, ks[1..]);
    }
  }

  /** An object is its members in the order of their names, comma-separated and braced. */
  lemma ObjectTextInOrder(m: Dict, ks: seq<Text>)
    requires forall k :: k in ks <==> k in m
    requires forall i, j | 0 <= i < j < |ks| :: Precedes(ks[i], ks[j])
    ensures Encode(Obj(m)) == Lit("{") + Joined(MemberTexts(m, ks), Lit(",")) + Lit("}")
  {
    ListingUnique(m.Keys, ks);
    MembersJoined(m, ks);
    assert Lit("{") == [LBRACE] && Lit("}") == [RBRACE];
  }

  lemma TwoJoined(x: Text, y: Text)
    ensures Joined([x, y], Lit(",")) == x + Lit(",") + y
  {
    assert [x, y][1..] == [y];
  }

  lemma Punctuation()
    ensures Lit("{") == [LBRACE] && Lit("}") == [RBRACE] && Lit(":") == [COLON] && Lit(",") == [COMMA]
    ensures Lit("{\"") == [LBRACE, QUOTE] && Lit("\":") == [QUOTE, COLON] && Lit(",\"") == [COMMA, QUOTE]
  {
  }

  lemma Spread(a: CodePoint, b: CodePoint, x: Text, y: Text)
    ensures [LBRACE] + ([QUOTE, a, QUOTE] + [COLON] + x + [COMMA] + ([QUOTE, b, QUOTE] + [COLON] + y)) + [RBRACE]
         == [LBRACE, QUOTE] + [a] + [QUOTE, COLON] + x + [COMMA, QUOTE] + [b] + [QUOTE, COLON] + y + [RBRACE]
  {
  }

  /** With two one-letter names the member of the earlier letter comes first. */
  lemma TwoMembers(a: CodePoint, b: CodePoint, x: Json, y: Json)
    requires 'a' as int <= a < b <= 'z' as int
    ensures Encode(Obj(map[[a] := x, [b] := y]))
         == Lit("{\"") + [a] + Lit("\":") + Encode(x) + Lit(",\"") + [b] + Lit("\":") + Encode(y) + Lit("}")
  {
    var k, l: Text := [a], [b];
    var ks, m := [k, l], map[k := x, l := y];
    assert DiffersAt(k, l, 0);
    ObjectTextInOrder(m, ks);
    assert MemberTexts(m, ks) == [MemberText(k, x), MemberText(l, y)];
    TwoJoined(MemberText(k, x), MemberText(l, y));
    OneLetter(a);
    OneLetter(b);
    Punctuation();
    Spread(a, b, Encode(x), Encode(y));
  }

  lemma OneLetter(a: CodePoint)
    requires 'a' as int <= a <= 'z' as int
    ensures Encode(Str([a])) == [QUOTE, a, QUOTE]
  {
    var t: Text := [a];
    assert t[1..] == [];
    assert EscapeText(t) == EscapeChar(a) + EscapeText(t[1..]);
  }

  // ---------- words and numbers ----------

  /** The words, and an integer of each sign. */
  lemma Words()
    ensures Encode(Null) == Lit("null") && Encode(Bool(true)) == Lit("true") && Encode(Bool(false)) == Lit("false")
    ensures Encode(Int(-120)) == Lit("-120") && Encode(Int(0)) == Lit("0") && Encode(Int(42)) == Lit("42")
  {
    assert Decimal(12) == [49, 50];
    assert Decimal(120) == [49, 50, 48];
    assert Decimal(42) == [52, 50];
  }

  // ---------- strings ----------

  /** The small hexadecimal digits. */
  function HexLetter(d: int): CodePoint
    requires 0 <= d < 16
  {
    if d <= 9 then '0' as int + d else 'a' as int + (d - 10)
  }

  lemma {:induction false} EscapeJoined(s: Text, t: Text)
    ensures EscapeText(s + t) == EscapeText(s) + EscapeText(t)
  {
    if s == [] {
      assert s + t == t;
    } else {
      assert (s + t)[1..] == s[1..] + t;
      EscapeJoined(s[1..], t);
    }
  }

  /** A string is quoted and escaped character by character. */
  lemma StringText(s: Text, c: CodePoint)
    ensures Encode(Str([])) == Lit("\"\"")
    ensures Encode(Str(s + [c])) == Encode(Str(s))[..|Encode(Str(s))| - 1] + EscapeChar(c) + Lit("\"")
  {
    var t: Text := [c];
    EscapeJoined(s, t);
    assert t[1..] == [];
    assert EscapeText(t) == EscapeChar(c);
    Quotes();
    LastDropped(EscapeText(s), EscapeChar(c));
  }

  lemma Quotes()
    ensures Lit("\"") == [QUOTE] && Lit("\"\"") == [QUOTE, QUOTE]
  {
  }

  lemma LastDropped(x: Text, y: Text)
    ensures [QUOTE] + (x + y) + [QUOTE] == ([QUOTE] + x + [QUOTE])[..|[QUOTE] + x + [QUOTE]| - 1] + y + [QUOTE]
  {
    assert ([QUOTE] + x + [QUOTE])[..|[QUOTE] + x + [QUOTE]| - 1] == [QUOTE] + x;
  }

  /** The characters with an escape of their own. */
  lemma ShortEscapes()
    ensures EscapeChar('"' as int) == Lit("\\\"") && EscapeChar('\\' as int) == Lit("\\\\")
    ensures EscapeChar(8) == Lit("\\b") && EscapeChar(9) == Lit("\\t") && EscapeChar(10) == Lit("\\n")
    ensures EscapeChar(12) == Lit("\\f") && EscapeChar(13) == Lit("\\r")
  {
  }

  predicate HasShortEscape(c: CodePoint) {
    c == '"' as int || c == '\\' as int || c == 8 || c == 9 || c == 10 || c == 12 || c == 13
  }

  /** Every other printable ASCII character stands for itself. */
  lemma PlainCharacter(c: CodePoint)
    requires ' ' as int <= c <= '~' as int && !HasShortEscape(c)
    ensures EscapeChar(c) == [c]
  {
  }

  /** A backslash, a small u and four hexadecimal digits. */
  function Numbered(w: int, x: int, y: int, z: int): Text
    requires 0 <= w < 16 && 0 <= x < 16 && 0 <= y < 16 && 0 <= z < 16
  {
    ['\\' as int, 'u' as int, HexLetter(w), HexLetter(x), HexLetter(y), HexLetter(z)]
  }

  lemma UnitSpelled(w: int, x: int, y: int, z: int)
    requires 0 <= w < 16 && 0 <= x < 16 && 0 <= y < 16 && 0 <= z < 16
    ensures UnitEscape(4096 * w + 256 * x + 16 * y + z) == Numbered(w, x, y, z)
  {
    var unit := 4096 * w + 256 * x + 16 * y + z;
    Split4096(w, 256 * x + 16 * y + z);
    Split256(x, 16 * y + z);
    Split256(16 * w + x, 16 * y + z);
    Split16(y, z);
    Split16(256 * w + 16 * x + y, z);
    DigitsOf(unit, w, x, y, z);
  }

  lemma Split4096(q: int, r: int)
    requires 0 <= r < 4096
    ensures (4096 * q + r) / 4096 == q && (4096 * q + r) % 4096 == r
  {
  }

  lemma Split256(q: int, r: int)
    requires 0 <= r < 256
    ensures (256 * q + r) / 256 == q && (256 * q + r) % 256 == r
  {
  }

  lemma Split16(q: int, r: int)
    requires 0 <= r < 16
    ensures (16 * q + r) / 16 == q && (16 * q + r) % 16 == r
  {
  }

  lemma DigitsOf(unit: int, w: int, x: int, y: int, z: int)
    requires 0 <= unit < 0x10000 && 0 <= w < 16 && 0 <= x < 16 && 0 <= y < 16 && 0 <= z < 16
    requires unit / 4096 == w && unit % 4096 / 256 == x && unit % 256 / 16 == y && unit % 16 == z
    ensures UnitEscape(unit) == Numbered(w, x, y, z)
  {
    assert Hex4(unit) == [HexDigit(w), HexDigit(x), HexDigit(y), HexDigit(z)];
  }

  /** Every other character below the supplementary ones is an escape by its number. */
  lemma NumberedEscape(w: int, x: int, y: int, z: int)
    requires 0 <= w < 16 && 0 <= x < 16 && 0 <= y < 16 && 0 <= z < 16
    requires var c := 4096 * w + 256 * x + 16 * y + z; !HasShortEscape(c) && !(' ' as int <= c <= '~' as int)
    ensures EscapeChar(4096 * w + 256 * x + 16 * y + z) == Numbered(w, x, y, z)
  {
    UnitSpelled(w, x, y, z);
  }

  /** A supplementary character is the escapes of the two halves of its UTF-16 form. */
  lemma SupplementaryEscape(high: CodePoint, low: CodePoint)
    requires 0xD800 <= high < 0xDC00 && 0xDC00 <= low < 0xE000
    ensures EscapeChar(0x10000 + 0x400 * (high - 0xD800) + (low - 0xDC00)) == EscapeChar(high) + EscapeChar(low)
  {
    Halves(0x10000 + 0x400 * (high - 0xD800) + (low - 0xDC00), high, low);
  }

  lemma Halves(c: CodePoint, high: CodePoint, low: CodePoint)
    requires 0xD800 <= high < 0xDC00 && 0xDC00 <= low < 0xE000
    requires c == 0x10000 + 0x400 * (high - 0xD800) + (low - 0xDC00)
    ensures HighHalf(c) == high && LowHalf(c) == low
  {
  }

  // ---------- numbers that are read ----------

  predicate Digits(t: Text) {
    t != [] && forall c | c in t :: '0' as int <= c <= '9' as int
  }

  /** One digit, or several of which the first is not zero. */
  predicate Natural(t: Text) {
    Digits(t) && (t[0] == '0' as int ==> |t| == 1)
  }

  predicate Sign(t: Text) {
    t == [] || t == ['-' as int]
  }

  predicate Fraction(t: Text) {
    t == [] || (t[0] == '.' as int && Digits(t[1..]))
  }

  predicate Exponent(t: Text) {
    t == [] || ((t[0] == 'e' as int || t[0] == 'E' as int)
                && (Digits(t[1..]) || (|t| > 2 && (t[1] == '+' as int || t[1] == '-' as int) && Digits(t[2..]))))
  }

  lemma DigitsSpelled(t: Text)
    ensures Digits(t) <==> t != [] && AllDigits(t)
  {
    assert forall i | 0 <= i < |t| :: t[i] in t;
  }

  /** Integers are a sign and a natural. */
  lemma IntegersRead(t: Text)
    ensures IsIntToken(t) <==> exists n | 0 <= n <= |t| :: Sign(t[..n]) && Natural(t[n..])
  {
    DigitsSpelled(t);
    assert t[0..] == t && t[..0] == [];
    if t != [] {
      DigitsSpelled(t[1..]);
      assert t[..1] == [t[0]];
    }
  }

  predicate FloatParts(t: Text, sign: Text, whole: Text, fraction: Text, exponent: Text) {
    && t == sign + (whole + (fraction + exponent))
    && Sign(sign) && Natural(whole) && Fraction(fraction) && Exponent(exponent) && fraction + exponent != []
  }

  lemma {:induction false} DigitRunJoined(d: Text, t: Text)
    requires AllDigits(d) && (t == [] || !Digit(t[0]))
    ensures DigitRun(d + t) == |d|
  {
    if d == [] {
      assert d + t == t;
    } else {
      assert (d + t)[1..] == d[1..] + t;
      DigitRunJoined(d[1..], t);
    }
  }

  lemma {:induction false} DigitRunIs(t: Text)
    ensures AllDigits(t[..DigitRun(t)]) && (DigitRun(t) < |t| ==> !Digit(t[DigitRun(t)]))
  {
    if t != [] && Digit(t[0]) {
      DigitRunIs(t[1..]);
      assert t[..DigitRun(t)] == [t[0]] + t[1..][..DigitRun(t) - 1];
    }
  }

  lemma ExponentSpelled(t: Text)
    ensures Exponent(t) <==> t == [] || IsExponent(t)
  {
    if |t| >= 1 {
      DigitsSpelled(t[1..]);
    }
    if |t| >= 2 {
      DigitsSpelled(t[2..]);
      assert t[1] in t[1..] by {
        assert t[1..][0] == t[1];
      }
    }
  }

  lemma FractionJoined(fraction: Text, exponent: Text)
    requires Fraction(fraction) && Exponent(exponent) && fraction + exponent != []
    ensures IsFractionExponent(fraction + exponent) && !Digit((fraction + exponent)[0])
  {
    var t := fraction + exponent;
    ExponentSpelled(exponent);
    if fraction == [] {
      assert t == exponent;
    } else {
      DigitsSpelled(fraction[1..]);
      DigitRunJoined(fraction[1..], exponent);
      assert t[1..] == fraction[1..] + exponent;
      assert t[1 + |fraction[1..]|..] == exponent;
    }
  }

  lemma FractionSplit(t: Text) returns (fraction: Text, exponent: Text)
    requires IsFractionExponent(t)
    ensures t == fraction + exponent && Fraction(fraction) && Exponent(exponent)
  {
    if t[0] == POINT {
      var n := DigitRun(t[1..]);
      DigitRunIs(t[1..]);
      fraction, exponent := t[..1 + n], t[1 + n..];
      assert fraction[1..] == t[1..][..n];
      DigitsSpelled(fraction[1..]);
    } else {
      fraction, exponent := [], t;
    }
    ExponentSpelled(exponent);
  }

  lemma FloatJoined(t: Text, sign: Text, whole: Text, fraction: Text, exponent: Text)
    requires FloatParts(t, sign, whole, fraction, exponent)
    ensures IsFloatToken(t)
  {
    var rest := fraction + exponent;
    DigitsSpelled(whole);
    FractionJoined(fraction, exponent);
    DigitRunJoined(whole, rest);
    assert Unsigned(t) == whole + rest by {
      assert sign != [] ==> t[1..] == whole + rest;
      assert sign == [] ==> t == whole + rest && t[0] == whole[0] && whole[0] in whole;
    }
    assert (whole + rest)[..|whole|] == whole && (whole + rest)[|whole|..] == rest;
  }

  lemma UnsignedSplit(t: Text)
    ensures |Unsigned(t)| <= |t|
    ensures var sign := t[..|t| - |Unsigned(t)|]; Sign(sign) && t == sign + Unsigned(t)
  {
    if t != [] && t[0] == MINUS {
      assert t[..1] == [t[0]];
    }
  }

  lemma WholeSplit(u: Text)
    requires IsNatToken(u[..DigitRun(u)])
    ensures Natural(u[..DigitRun(u)]) && u == u[..DigitRun(u)] + u[DigitRun(u)..]
  {
    DigitsSpelled(u[..DigitRun(u)]);
  }

  lemma FloatSplit(t: Text) returns (sign: Text, whole: Text, fraction: Text, exponent: Text)
    requires IsFloatToken(t)
    ensures FloatParts(t, sign, whole, fraction, exponent)
  {
    var u := Unsigned(t);
    var n := DigitRun(u);
    fraction, exponent := FractionSplit(u[n..]);
    whole, sign := u[..n], t[..|t| - |u|];
    UnsignedSplit(t);
    WholeSplit(u);
  }

  /** Other numbers are a sign, a natural, and a fraction or an exponent or both. */
  lemma FloatsRead(t: Text)
    ensures IsFloatToken(t) <==>
            exists sign, whole, fraction, exponent :: FloatParts(t, sign, whole, fraction, exponent)
  {
    if IsFloatToken(t) {
      var sign, whole, fraction, exponent := FloatSplit(t);
    }
    if sign, whole, fraction, exponent :| FloatParts(t, sign, whole, fraction, exponent) {
      FloatJoined(t, sign, whole, fraction, exponent);
    }
  }
}
