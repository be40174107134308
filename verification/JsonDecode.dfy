/**
 `json.loads` with the duplicate-rejecting object hook, as a recursive-descent
 parser for RFC 8259 text, and the line framing of the audit file.
 */
module JsonDecode {
  import opened Options
  import opened PyText
  import opened Json

  /** Either the input is rejected, or a value is read off the front of it. */
  datatype Parsed<+T> = Fail | Got(value: T, rest: Text)

  predicate Space(c: CodePoint) {
    c == 32 || c == 9 || c == 10 || c == 13
  }

  function SkipSpace(t: Text): (r: Text)
    ensures |r| <= |t|
    ensures t == [] || !Space(t[0]) ==> r == t
  {
    if t != [] && Space(t[0]) then SkipSpace(t[1..]) else t
  }

  // ---------- strings ----------

  function HexValue(c: CodePoint): (r: Option<int>)
    ensures r.Some? ==> 0 <= r.value < 16
  {
    if 48 <= c <= 57 then Some(c - 48)
    else if 97 <= c <= 102 then Some(c - 87)
    else if 65 <= c <= 70 then Some(c - 55)
    else None
  }

  function HexNumber(a: CodePoint, b: CodePoint, c: CodePoint, d: CodePoint): (r: Option<int>)
    ensures r.Some? ==> 0 <= r.value < 0x10000
  {
    var w, x, y, z := HexValue(a), HexValue(b), HexValue(c), HexValue(d);
    if w.Some? && x.Some? && y.Some? && z.Some? then
      Some(4096 * w.value + 256 * x.value + 16 * y.value + z.value)
    else None
  }

  /** The code unit of a `\uXXXX` escape at the front of a text. */
  function EscapedUnit(t: Text): (r: Option<int>)
    ensures r.Some? ==> |t| >= 6 && 0 <= r.value < 0x10000
  {
    if |t| >= 6 && t[0] == BACKSLASH && t[1] == LETTER_U then
      HexNumber(t[2], t[3], t[4], t[5])
    else None
  }

  function Join(high: int, low: int): CodePoint
    requires 0xD800 <= high <= 0xDBFF && 0xDC00 <= low <= 0xDFFF
  {
    0x10000 + (high - 0xD800) * 0x400 + (low - 0xDC00)
  }

  function ShortEscape(c: CodePoint): Option<CodePoint> {
    if c == QUOTE || c == BACKSLASH || c == 47 then Some(c)
    else if c == 110 then Some(10)
    else if c == 114 then Some(13)
    else if c == 116 then Some(9)
    else if c == 102 then Some(12)
    else if c == 98 then Some(8)
    else None
  }

  /** An escape sequence; a high surrogate escape absorbs a low one right behind it. */
  function Escape(t: Text): (r: Parsed<CodePoint>)
    requires t != [] && t[0] == BACKSLASH
    ensures r.Got? ==> |r.rest| < |t|
  {
    if |t| < 2 then Fail
    else if t[1] != LETTER_U then
      match ShortEscape(t[1])
      case Some(c) => Got(c, t[2..])
      case None => Fail
    else
      match EscapedUnit(t)
      case None => Fail
      case Some(u) =>
        if High(u) then
          match EscapedUnit(t[6..])
          case Some(l) => if Low(l) then Got(Join(u, l), t[12..]) else Got(u, t[6..])
          case None => Got(u, t[6..])
        else Got(u, t[6..])
  }

  function Prepend(c: CodePoint, r: Parsed<Text>): Parsed<Text> {
    match r
    case Fail => Fail
    case Got(s, rest) => Got([c] + s, rest)
  }

  /** The rest of a string after its opening quote. */
  function StringBody(t: Text): (r: Parsed<Text>)
    ensures r.Got? ==> |r.rest| < |t|
    decreases |t|
  {
    if t == [] then Fail
    else if t[0] == QUOTE then Got([], t[1..])
    else if t[0] == BACKSLASH then
      match Escape(t)
      case Fail => Fail
      case Got(c, rest) => Prepend(c, StringBody(rest))
    else if t[0] < 32 then Fail
    else Prepend(t[0], StringBody(t[1..]))
  }

  // ---------- numbers ----------

  predicate NumberChar(c: CodePoint) {
    Digit(c) || c == PLUS || c == MINUS || c == POINT || c == 101 || c == 69
  }

  function NumberRun(t: Text): (n: nat)
    ensures n <= |t|
  {
    if t != [] && NumberChar(t[0]) then 1 + NumberRun(t[1..]) else 0
  }

  function DecimalValue(t: Text): int {
    if t == [] then 0 else 10 * DecimalValue(t[..|t| - 1]) + t[|t| - 1] - 48
  }

  function IntValue(t: Text): int {
    if t != [] && t[0] == MINUS then -DecimalValue(t[1..]) else DecimalValue(t)
  }

  function Number(t: Text): (r: Parsed<Json>)
    ensures r.Got? ==> |r.rest| < |t|
  {
    var n := NumberRun(t);
    var token := t[..n];
    if IsIntToken(token) then Got(Int(IntValue(token)), t[n..])
    else if IsFloatToken(token) then Got(Float(token), t[n..])
    else Fail
  }

  // ---------- values ----------

  /** The object hook: a dictionary of the pairs, unless a member is repeated. */
  function Collect(pairs: seq<(Text, Json)>): Option<Dict> {
    if pairs == [] then Some(map[])
    else
      var (k, v) := pairs[|pairs| - 1];
      match Collect(pairs[..|pairs| - 1])
      case None => None
      case Some(m) => if k in m then None else Some(m[k := v])
  }

  function Value(t: Text): (r: Parsed<Json>)
    ensures r.Got? ==> |r.rest| < |t|
    decreases |t|, 0
  {
    if t == [] then Fail
    else if t[0] == QUOTE then
      match StringBody(t[1..])
      case Fail => Fail
      case Got(s, rest) => Got(Str(s), rest)
    else if t[0] == LBRACKET then
      var r1 := SkipSpace(t[1..]);
      if r1 != [] && r1[0] == RBRACKET then Got(Arr([]), r1[1..])
      else
        match Items(r1)
        case Fail => Fail
        case Got(items, rest) => Got(Arr(items), rest)
    else if t[0] == LBRACE then
      var r1 := SkipSpace(t[1..]);
      if r1 != [] && r1[0] == RBRACE then Got(Obj(map[]), r1[1..])
      else
        match Members(r1)
        case Fail => Fail
        case Got(pairs, rest) =>
          match Collect(pairs)
          case None => Fail
          case Some(m) => Got(Obj(m), rest)
    else if NULL_TEXT <= t then Got(Null, t[4..])
    else if TRUE_TEXT <= t then Got(Bool(true), t[4..])
    else if FALSE_TEXT <= t then Got(Bool(false), t[5..])
    else Number(t)
  }

  /** The elements of a non-empty array and its closing bracket. */
  function Items(t: Text): (r: Parsed<seq<Json>>)
    ensures r.Got? ==> |r.rest| < |t|
    decreases |t|, 1
  {
    match Value(t)
    case Fail => Fail
    case Got(v, r1) =>
      var r2 := SkipSpace(r1);
      if r2 != [] && r2[0] == RBRACKET then Got([v], r2[1..])
      else if r2 != [] && r2[0] == COMMA then
        match Items(SkipSpace(r2[1..]))
        case Fail => Fail
        case Got(vs, rest) => Got([v] + vs, rest)
      else Fail
  }

  /** One `"key": value` pair. */
  function Member(t: Text): (r: Parsed<(Text, Json)>)
    ensures r.Got? ==> |r.rest| < |t|
    decreases |t|, 0
  {
    if t == [] || t[0] != QUOTE then Fail
    else
      match StringBody(t[1..])
      case Fail => Fail
      case Got(k, r1) =>
        var r2 := SkipSpace(r1);
        if r2 == [] || r2[0] != COLON then Fail
        else
          match Value(SkipSpace(r2[1..]))
          case Fail => Fail
          case Got(v, r3) => Got((k, v), r3)
  }

  /** The members of a non-empty object and its closing brace. */
  function Members(t: Text): (r: Parsed<seq<(Text, Json)>>)
    ensures r.Got? ==> |r.rest| < |t|
    decreases |t|, 1
  {
    match Member(t)
    case Fail => Fail
    case Got(p, r1) =>
      var r2 := SkipSpace(r1);
      if r2 != [] && r2[0] == RBRACE then Got([p], r2[1..])
      else if r2 != [] && r2[0] == COMMA then
        match Members(SkipSpace(r2[1..]))
        case Fail => Fail
        case Got(ps, rest) => Got([p] + ps, rest)
      else Fail
  }

  /** `json.loads`: one value, with nothing but white space around it. */
  function Decode(t: Text): Option<Json> {
    match Value(SkipSpace(t))
    case Fail => None
    case Got(v, rest) => if SkipSpace(rest) == [] then Some(v) else None
  }
}
