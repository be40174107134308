/**
 JSON values as Python holds them, and the canonical text `canonical_json` prints:
 sorted keys, no spaces, ASCII only.
 */
module Json {
  import opened PyText

  const QUOTE: CodePoint := 34
  const PLUS: CodePoint := 43
  const COMMA: CodePoint := 44
  const MINUS: CodePoint := 45
  const POINT: CodePoint := 46
  const ZERO: CodePoint := 48
  const COLON: CodePoint := 58
  const LBRACKET: CodePoint := 91
  const BACKSLASH: CodePoint := 92
  const RBRACKET: CodePoint := 93
  const LBRACE: CodePoint := 123
  const RBRACE: CodePoint := 125
  const LETTER_U: CodePoint := 117

  const NULL_TEXT: Text := [110, 117, 108, 108]
  const TRUE_TEXT: Text := [116, 114, 117, 101]
  const FALSE_TEXT: Text := [102, 97, 108, 115, 101]

  // ---------- number tokens (RFC 8259, section 6) ----------

  predicate Digit(c: CodePoint) {
    48 <= c <= 57
  }

  predicate AllDigits(t: Text) {
    forall i | 0 <= i < |t| :: Digit(t[i])
  }

  /** How many digits a text starts with. */
  function DigitRun(t: Text): (n: nat)
    ensures n <= |t|
  {
    if t != [] && Digit(t[0]) then 1 + DigitRun(t[1..]) else 0
  }

  predicate IsNatToken(t: Text) {
    t != [] && AllDigits(t) && (|t| == 1 || t[0] != ZERO)
  }

  function Unsigned(t: Text): Text {
    if t != [] && t[0] == MINUS then t[1..] else t
  }

  predicate IsIntToken(t: Text) {
    IsNatToken(Unsigned(t))
  }

  predicate IsExponent(t: Text) {
    |t| >= 2 && (t[0] == 101 || t[0] == 69) &&
    var digits := if t[1] == PLUS || t[1] == MINUS then t[2..] else t[1..];
    digits != [] && AllDigits(digits)
  }

  predicate IsFractionExponent(t: Text) {
    t != [] &&
    if t[0] == POINT then
      var n := DigitRun(t[1..]);
      n > 0 && (t[1 + n..] == [] || IsExponent(t[1 + n..]))
    else IsExponent(t)
  }

  predicate IsFloatToken(t: Text) {
    var u := Unsigned(t);
    var n := DigitRun(u);
    IsNatToken(u[..n]) && IsFractionExponent(u[n..])
  }

  /** The printed form of a finite float: opaque here but for its grammar. */
  type FloatToken = t: Text | IsFloatToken(t) witness [48, 46, 48]

  datatype Json =
    | Null
    | Bool(b: bool)
    | Int(i: int)
    | Float(token: FloatToken)
    | Str(s: Text)
    | Arr(items: seq<Json>)
    | Obj(members: map<Text, Json>)

  type Dict = map<Text, Json>

  // ---------- integers ----------

  function Decimal(n: nat): (t: Text) {
    if n < 10 then [48 + n] else Decimal(n / 10) + [48 + n % 10]
  }

  function IntText(i: int): Text {
    if i < 0 then [MINUS] + Decimal(-i) else Decimal(i)
  }

  // ---------- strings ----------

  predicate High(c: CodePoint) {
    0xD800 <= c <= 0xDBFF
  }

  predicate Low(c: CodePoint) {
    0xDC00 <= c <= 0xDFFF
  }

  function HexDigit(d: int): CodePoint
    requires 0 <= d < 16
  {
    if d < 10 then 48 + d else 87 + d
  }

  function Hex4(n: int): (t: Text)
    requires 0 <= n < 0x10000
    ensures |t| == 4
  {
    [HexDigit(n / 4096), HexDigit(n % 4096 / 256), HexDigit(n % 256 / 16), HexDigit(n % 16)]
  }

  /** One `\uXXXX` escape. */
  function UnitEscape(n: int): (t: Text)
    requires 0 <= n < 0x10000
    ensures |t| == 6
  {
    [BACKSLASH, LETTER_U] + Hex4(n)
  }

  function HighHalf(c: CodePoint): int
    requires c >= 0x10000
  {
    0xD800 + (c - 0x10000) / 0x400
  }

  function LowHalf(c: CodePoint): int
    requires c >= 0x10000
  {
    0xDC00 + (c - 0x10000) % 0x400
  }

  function EscapeChar(c: CodePoint): (t: Text)
    ensures t != []
  {
    if c == QUOTE then [BACKSLASH, QUOTE]
    else if c == BACKSLASH then [BACKSLASH, BACKSLASH]
    else if c == 10 then [BACKSLASH, 110]
    else if c == 13 then [BACKSLASH, 114]
    else if c == 9 then [BACKSLASH, 116]
    else if c == 12 then [BACKSLASH, 102]
    else if c == 8 then [BACKSLASH, 98]
    else if 32 <= c <= 126 then [c]
    else if c < 0x10000 then UnitEscape(c)
    else UnitEscape(HighHalf(c)) + UnitEscape(LowHalf(c))
  }

  function EscapeText(s: Text): Text {
    if s == [] then [] else EscapeChar(s[0]) + EscapeText(s[1..])
  }

  function QuoteText(s: Text): Text {
    [QUOTE] + EscapeText(s) + [QUOTE]
  }

  // ---------- values ----------

  /** `canonical_json`. */
  function Encode(v: Json): Text
    decreases v
  {
    match v
    case Null => NULL_TEXT
    case Bool(b) => if b then TRUE_TEXT else FALSE_TEXT
    case Int(i) => IntText(i)
    case Float(token) => token
    case Str(s) => QuoteText(s)
    case Arr(items) => [LBRACKET] + EncodeItems(items) + [RBRACKET]
    case Obj(members) => [LBRACE] + EncodeMembers(v, SortedKeys(members.Keys)) + [RBRACE]
  }

  function EncodeItems(items: seq<Json>): Text
    decreases items
  {
    if items == [] then []
    else if |items| == 1 then Encode(items[0])
    else Encode(items[0]) + [COMMA] + EncodeItems(items[1..])
  }

  function EncodeMember(v: Json, k: Text): Text
    requires v.Obj? && k in v.members
    decreases v, 0
  {
    QuoteText(k) + [COLON] + Encode(v.members[k])
  }

  function EncodeMembers(v: Json, ks: seq<Text>): Text
    requires v.Obj? && forall k | k in ks :: k in v.members
    decreases v, 1, |ks|
  {
    if ks == [] then []
    else if |ks| == 1 then EncodeMember(v, ks[0])
    else EncodeMember(v, ks[0]) + [COMMA] + EncodeMembers(v, ks[1..])
  }
}
