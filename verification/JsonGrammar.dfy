/**
 Reading against the grammar of RFC 8259.  A layout is a value as it is written, with its white space, its escapes and
 its digits; a text decodes to a value exactly when it is white space around a layout that means the value.
 */
module JsonGrammar {
  import opened Options
  import opened PyText
  import opened Json
  import opened JsonDecode
  import opened JsonRoundTrip

  // ---------- strings ----------

  /** One character of a string as it is written. */
  datatype Character =
    | Plain(c: CodePoint)
    | Short(letter: CodePoint)
    | Numbered(w: CodePoint, x: CodePoint, y: CodePoint, z: CodePoint)

  predicate IsHex(c: CodePoint) {
    '0' as int <= c <= '9' as int || 'a' as int <= c <= 'f' as int || 'A' as int <= c <= 'F' as int
  }

  function HexOf(c: CodePoint): (d: int)
    requires IsHex(c)
    ensures 0 <= d < 16
  {
    if c <= '9' as int then c - '0' as int else if c >= 'a' as int then 10 + c - 'a' as int else 10 + c - 'A' as int
  }

  /** What a backslash and a letter stand for. */
  function ShortFor(letter: CodePoint): Option<CodePoint> {
    if letter == '"' as int || letter == '\\' as int || letter == '/' as int then Some(letter)
    else if letter == 'b' as int then Some(8)
    else if letter == 't' as int then Some(9)
    else if letter == 'n' as int then Some(10)
    else if letter == 'f' as int then Some(12)
    else if letter == 'r' as int then Some(13)
    else None
  }

  predicate Proper(ch: Character) {
    match ch
    case Plain(c) => c >= 32 && c != '"' as int && c != '\\' as int
    case Short(letter) => ShortFor(letter).Some?
    case Numbered(w, x, y, z) => IsHex(w) && IsHex(x) && IsHex(y) && IsHex(z)
  }

  predicate AllProper(cs: seq<Character>) {
    forall i | 0 <= i < |cs| :: Proper(cs[i])
  }

  function FourDigits(w: int, x: int, y: int, z: int): (u: int)
    requires 0 <= w < 16 && 0 <= x < 16 && 0 <= y < 16 && 0 <= z < 16
    ensures 0 <= u < 0x10000
  {
    4096 * w + 256 * x + 16 * y + z
  }

  function UnitOf(ch: Character): (u: CodePoint)
    requires ch.Numbered? && Proper(ch)
    ensures u < 0x10000
  {
    FourDigits(HexOf(ch.w), HexOf(ch.x), HexOf(ch.y), HexOf(ch.z))
  }

  /** The character that two halves make up. */
  function Whole(high: CodePoint, low: CodePoint): CodePoint
    requires 0xD800 <= high <= 0xDBFF && 0xDC00 <= low <= 0xDFFF
  {
    0x10000 + 0x400 * (high - 0xD800) + (low - 0xDC00)
  }

  function Spelled(ch: Character): Text {
    match ch
    case Plain(c) => [c]
    case Short(letter) => ['\\' as int, letter]
    case Numbered(w, x, y, z) => ['\\' as int, 'u' as int, w, x, y, z]
  }

  /** Characters in front of what follows. */
  function Characters(cs: seq<Character>, rest: Text): Text {
    if cs == [] then rest else Spelled(cs[0]) + Characters(cs[1..], rest)
  }

  /** Two numbered characters that are the halves of one. */
  predicate Halved(cs: seq<Character>)
    requires AllProper(cs)
  {
    && |cs| >= 2 && cs[0].Numbered? && cs[1].Numbered?
    && 0xD800 <= UnitOf(cs[0]) <= 0xDBFF && 0xDC00 <= UnitOf(cs[1]) <= 0xDFFF
  }

  /** The text that the characters of a string say. */
  function Said(cs: seq<Character>): Text
    requires AllProper(cs)
  {
    if cs == [] then []
    else if Halved(cs) then
      [Whole(UnitOf(cs[0]), UnitOf(cs[1]))] + Said(cs[2..])
    else
      (match cs[0]
       case Plain(c) => [c]
       case Short(letter) => [ShortFor(letter).value]
       case Numbered(_, _, _, _) => [UnitOf(cs[0])]) + Said(cs[1..])
  }

  // ---------- layouts ----------

  datatype Layout =
    | Word(text: Text)
    | Quoted(cs: seq<Character>)
    | List(space: Text, items: seq<Item>)     // the space is written when there are no items
    | Record(space: Text, fields: seq<Field>) // or no fields

  datatype Item = Item(before: Text, value: Layout, after: Text)

  datatype Field = Field(before: Text, name: seq<Character>, between: Text, within: Text, value: Layout, after: Text)

  predicate AllSpace(t: Text) {
    forall i | 0 <= i < |t| :: t[i] == 9 || t[i] == 10 || t[i] == 13 || t[i] == 32
  }

  predicate WellFormed(l: Layout) {
    match l
    case Word(t) => t == Lit("null") || t == Lit("true") || t == Lit("false") || IsIntToken(t) || IsFloatToken(t)
    case Quoted(cs) => AllProper(cs)
    case List(space, items) =>
      && AllSpace(space)
      && forall i | 0 <= i < |items| ::
           AllSpace(items[i].before) && WellFormed(items[i].value) && AllSpace(items[i].after)
    case Record(space, fields) =>
      && AllSpace(space)
      && forall i | 0 <= i < |fields| ::
           && AllSpace(fields[i].before) && AllProper(fields[i].name) && AllSpace(fields[i].between)
           && AllSpace(fields[i].within) && WellFormed(fields[i].value) && AllSpace(fields[i].after)
  }

  /** A layout in front of what follows. */
  function Written(l: Layout, rest: Text): Text
    decreases l
  {
    match l
    case Word(t) => t + rest
    case Quoted(cs) => ['"' as int] + Characters(cs, ['"' as int] + rest)
    case List(space, items) =>
      ['[' as int] + (if items == [] then space + ([']' as int] + rest) else WrittenItems(items, rest))
    case Record(space, fields) =>
      ['{' as int] + (if fields == [] then space + (['}' as int] + rest) else WrittenFields(fields, rest))
  }

  /** Items with commas between them and a bracket at their end. */
  function WrittenItems(items: seq<Item>, rest: Text): Text
    requires items != []
    decreases items
  {
    items[0].before + Written(items[0].value, items[0].after + (
      if |items| == 1 then [']' as int] + rest else [',' as int] + WrittenItems(items[1..], rest)))
  }

  /** A quoted name, a colon and a value, in front of what follows. */
  function WrittenField(f: Field, rest: Text): Text
    decreases f
  {
    ['"' as int] + Characters(f.name, ['"' as int] + (f.between + ([':' as int] + (f.within + Written(f.value, rest)))))
  }

  function WrittenFields(fields: seq<Field>, rest: Text): Text
    requires fields != []
    decreases fields
  {
    fields[0].before + WrittenField(fields[0], fields[0].after + (
      if |fields| == 1 then ['}' as int] + rest else [',' as int] + WrittenFields(fields[1..], rest)))
  }

  /** What a layout means; nothing when a name is repeated. */
  function Meant(l: Layout): Option<Json>
    requires WellFormed(l)
    decreases l
  {
    match l
    case Word(t) =>
      if t == Lit("null") then Some(Null) else if t == Lit("true") then Some(Bool(true))
      else if t == Lit("false") then Some(Bool(false))
      else if IsIntToken(t) then Some(Int(IntValue(t))) else Some(Float(t))
    case Quoted(cs) => Some(Str(Said(cs)))
    case List(_, items) => (match MeantItems(items) case None => None case Some(vs) => Some(Arr(vs)))
    case Record(_, fields) =>
      match MeantFields(fields)
      case None => None
      case Some(ps) => match Collect(ps) case None => None case Some(m) => Some(Obj(m))
  }

  function MeantItems(items: seq<Item>): Option<seq<Json>>
    requires forall i | 0 <= i < |items| :: WellFormed(items[i].value)
    decreases items
  {
    if items == [] then Some([])
    else
      match Meant(items[0].value)
      case None => None
      case Some(v) => match MeantItems(items[1..]) case None => None case Some(vs) => Some([v] + vs)
  }

  function MeantFields(fields: seq<Field>): Option<seq<(Text, Json)>>
    requires forall i | 0 <= i < |fields| :: AllProper(fields[i].name) && WellFormed(fields[i].value)
    decreases fields
  {
    if fields == [] then Some([])
    else
      match Meant(fields[0].value)
      case None => None
      case Some(v) =>
        match MeantFields(fields[1..]) case None => None case Some(ps) => Some([(Said(fields[0].name), v)] + ps)
  }

  // ---------- reading what is written: strings ----------

  lemma HexRead(c: CodePoint)
    ensures HexValue(c).Some? <==> IsHex(c)
    ensures IsHex(c) ==> HexValue(c) == Some(HexOf(c))
  {
  }

  lemma UnitRead(ch: Character, rest: Text)
    requires Proper(ch)
    ensures EscapedUnit(Spelled(ch) + rest) == if ch.Numbered? then Some(UnitOf(ch)) else None
  {
    if ch.Numbered? {
      HexRead(ch.w);
      HexRead(ch.x);
      HexRead(ch.y);
      HexRead(ch.z);
    }
  }

  /** The unit that is looked ahead for. */
  lemma NextUnit(cs: seq<Character>, rest: Text)
    requires AllProper(cs)
    ensures EscapedUnit(Characters(cs, ['"' as int] + rest)) ==
            if cs != [] && cs[0].Numbered? then Some(UnitOf(cs[0])) else None
  {
    if cs != [] {
      UnitRead(cs[0], Characters(cs[1..], ['"' as int] + rest));
    }
  }

  lemma ShortRead(letter: CodePoint)
    ensures ShortEscape(letter) == ShortFor(letter)
  {
  }

  lemma Dropped(a: Text, b: Text)
    ensures (a + b)[|a|..] == b
  {
  }

  lemma PlainStep(c: CodePoint, more: Text)
    requires Proper(Plain(c))
    ensures StringBody([c] + more) == Prepend(c, StringBody(more))
  {
    assert ([c] + more)[1..] == more;
  }

  lemma EscapeStep(t: Text, c: CodePoint, more: Text)
    requires t != [] && t[0] == BACKSLASH && Escape(t) == Got(c, more)
    ensures StringBody(t) == Prepend(c, StringBody(more))
  {
  }

  lemma ShortStep(letter: CodePoint, more: Text)
    requires ShortFor(letter).Some?
    ensures Escape(['\\' as int, letter] + more) == Got(ShortFor(letter).value, more)
  {
    ShortRead(letter);
    Dropped(['\\' as int, letter], more);
  }

  /** A numbered character, alone or with the half that follows. */
  lemma NumberedStep(ch: Character, more: Text)
    requires Proper(ch) && ch.Numbered?
    ensures var next := EscapedUnit(more);
            Escape(Spelled(ch) + more) ==
            if High(UnitOf(ch)) && next.Some? && Low(next.value) then Got(Join(UnitOf(ch), next.value), more[6..])
            else Got(UnitOf(ch), more)
  {
    var t := Spelled(ch) + more;
    UnitRead(ch, more);
    Dropped(Spelled(ch), more);
    DroppedTwice(Spelled(ch), more);
  }

  lemma DroppedTwice(a: Text, b: Text)
    ensures |b| >= 6 ==> (a + b)[|a| + 6..] == b[6..]
  {
  }

  lemma SaidAlone(cs: seq<Character>)
    requires AllProper(cs) && cs != [] && !Halved(cs)
    ensures Said(cs) == (match cs[0]
                         case Plain(c) => [c]
                         case Short(letter) => [ShortFor(letter).value]
                         case Numbered(_, _, _, _) => [UnitOf(cs[0])]) + Said(cs[1..])
  {
  }

  lemma SaidTogether(cs: seq<Character>)
    requires AllProper(cs) && Halved(cs)
    ensures Said(cs) == [Whole(UnitOf(cs[0]), UnitOf(cs[1]))] + Said(cs[2..])
  {
  }

  lemma {:induction false} StringWritten(cs: seq<Character>, rest: Text)
    requires AllProper(cs)
    ensures StringBody(Characters(cs, ['"' as int] + rest)) == Got(Said(cs), rest)
    decreases |cs|
  {
    var end := ['"' as int] + rest;
    if cs == [] {
      assert end[1..] == rest;
    } else if Halved(cs) {
      HalvedWritten(cs, end);
      StringWritten(cs[2..], rest);
      SaidTogether(cs);
    } else {
      StringWritten(cs[1..], rest);
      AloneWritten(cs, rest);
      SaidAlone(cs);
    }
  }

  lemma HalvedWritten(cs: seq<Character>, end: Text)
    requires AllProper(cs) && Halved(cs)
    ensures StringBody(Characters(cs, end)) ==
            Prepend(Whole(UnitOf(cs[0]), UnitOf(cs[1])), StringBody(Characters(cs[2..], end)))
  {
    var more, last := Characters(cs[1..], end), Characters(cs[2..], end);
    assert cs[1..][1..] == cs[2..] && cs[1..][0] == cs[1];
    assert more == Spelled(cs[1]) + last;
    UnitRead(cs[1], last);
    Dropped(Spelled(cs[1]), last);
    NumberedStep(cs[0], more);
    EscapeStep(Characters(cs, end), Whole(UnitOf(cs[0]), UnitOf(cs[1])), last);
  }

  lemma AloneWritten(cs: seq<Character>, rest: Text)
    requires AllProper(cs) && cs != [] && !Halved(cs)
    ensures var end := ['"' as int] + rest;
            StringBody(Characters(cs, end)) ==
            match cs[0]
            case Plain(c) => Prepend(c, StringBody(Characters(cs[1..], end)))
            case Short(letter) => Prepend(ShortFor(letter).value, StringBody(Characters(cs[1..], end)))
            case Numbered(_, _, _, _) => Prepend(UnitOf(cs[0]), StringBody(Characters(cs[1..], end)))
  {
    var end := ['"' as int] + rest;
    var t, more := Characters(cs, end), Characters(cs[1..], end);
    match cs[0]
    case Plain(c) => PlainStep(c, more);
    case Short(letter) =>
      ShortStep(letter, more);
      EscapeStep(t, ShortFor(letter).value, more);
    case Numbered(_, _, _, _) =>
      NumberedStep(cs[0], more);
      NextUnit(cs[1..], rest);
      EscapeStep(t, UnitOf(cs[0]), more);
  }

  // ---------- reading what is written: values ----------

  lemma {:induction false} SpaceSkipped(space: Text, t: Text)
    requires AllSpace(space) && (t == [] || !Space(t[0]))
    ensures SkipSpace(space + t) == t
  {
    if space == [] {
      assert space + t == t;
    } else {
      assert (space + t)[1..] == space[1..] + t;
      SpaceSkipped(space[1..], t);
    }
  }

  lemma WordsSpelled()
    ensures Lit("null") == NULL_TEXT && Lit("true") == TRUE_TEXT && Lit("false") == FALSE_TEXT
  {
  }

  /** A layout starts with a character that is neither space nor punctuation that closes or separates. */
  lemma WrittenStart(l: Layout, rest: Text)
    requires WellFormed(l)
    ensures var t := Written(l, rest); Solid(t) && t[0] != RBRACKET && t[0] != RBRACE
  {
    if l.Word? {
      WordsSpelled();
      if IsFloatToken(l.text) {
        FloatTokenText(l.text);
      } else if IsIntToken(l.text) {
        assert l.text != [];
      }
      assert Written(l, rest)[0] == l.text[0];
    }
  }

  /** White space, a comma or a closing bracket or brace: what a number does not go on with. */
  lemma SpaceDelimits(space: Text, t: Text)
    requires AllSpace(space) && Delimited(t)
    ensures Delimited(space + t)
  {
    if space != [] {
      assert (space + t)[0] == space[0];
    }
  }

  function Reading<T>(meant: Option<T>, rest: Text): Parsed<T> {
    match meant case None => Fail case Some(v) => Got(v, rest)
  }

  lemma WordWritten(t: Text, rest: Text)
    requires WellFormed(Word(t)) && Delimited(rest)
    ensures Value(t + rest) == Reading(Meant(Word(t)), rest)
  {
    WordsSpelled();
    if t == NULL_TEXT || t == TRUE_TEXT || t == FALSE_TEXT {
      LiteralStep(t + rest, rest);
    } else {
      if IsFloatToken(t) {
        FloatTokenText(t);
      } else {
        IntTokenText(t);
      }
      NumberRoundTrip(t, rest);
    }
  }

  lemma IntTokenText(t: Text)
    requires IsIntToken(t)
    ensures NumberText(t)
  {
    assert forall i | 0 < i < |t| && t[0] == MINUS :: t[i] == t[1..][i - 1];
  }

  /** What follows an item, its white space aside. */
  function ItemsTail(items: seq<Item>, rest: Text): Text
    requires items != []
  {
    if |items| == 1 then [']' as int] + rest else [',' as int] + WrittenItems(items[1..], rest)
  }

  function ItemsFrom(items: seq<Item>, rest: Text): Text
    requires items != []
  {
    Written(items[0].value, items[0].after + ItemsTail(items, rest))
  }

  predicate ItemsFormed(items: seq<Item>) {
    forall i | 0 <= i < |items| :: AllSpace(items[i].before) && WellFormed(items[i].value) && AllSpace(items[i].after)
  }

  lemma ItemsSkipped(items: seq<Item>, rest: Text)
    requires items != [] && ItemsFormed(items)
    ensures SkipSpace(WrittenItems(items, rest)) == ItemsFrom(items, rest)
    ensures Solid(ItemsFrom(items, rest)) && ItemsFrom(items, rest)[0] != RBRACKET
  {
    WrittenStart(items[0].value, items[0].after + ItemsTail(items, rest));
    SpaceSkipped(items[0].before, ItemsFrom(items, rest));
  }

  lemma LastItem(t: Text, r: Parsed<Json>, rest: Text)
    requires Value(t) == r && (r.Got? ==> SkipSpace(r.rest) == [RBRACKET] + rest)
    ensures Items(t) == match r case Fail => Fail case Got(v, _) => Got([v], rest)
  {
    assert ([RBRACKET] + rest)[1..] == rest;
  }

  lemma NextItem(t: Text, r: Parsed<Json>, others: Text)
    requires Value(t) == r && (r.Got? ==> SkipSpace(r.rest) == [COMMA] + others)
    ensures Items(t) ==
            match r
            case Fail => Fail
            case Got(v, _) =>
              match Items(SkipSpace(others)) case Fail => Fail case Got(vs, rest) => Got([v] + vs, rest)
  {
    assert ([COMMA] + others)[1..] == others;
  }

  lemma ItemTail(items: seq<Item>, rest: Text)
    requires items != [] && ItemsFormed(items)
    ensures Delimited(items[0].after + ItemsTail(items, rest))
    ensures SkipSpace(items[0].after + ItemsTail(items, rest)) == ItemsTail(items, rest)
  {
    SpaceDelimits(items[0].after, ItemsTail(items, rest));
    SpaceSkipped(items[0].after, ItemsTail(items, rest));
  }

  lemma {:induction false} ItemsWritten(items: seq<Item>, rest: Text)
    requires items != [] && ItemsFormed(items)
    ensures Items(ItemsFrom(items, rest)) == Reading(MeantItems(items), rest)
    decreases items
  {
    var tail := items[0].after + ItemsTail(items, rest);
    ItemTail(items, rest);
    ValueWritten(items[0].value, tail);
    if |items| == 1 {
      LastItem(ItemsFrom(items, rest), Reading(Meant(items[0].value), tail), rest);
      OneMeant(items);
    } else {
      NextItem(ItemsFrom(items, rest), Reading(Meant(items[0].value), tail), WrittenItems(items[1..], rest));
      ItemsSkipped(items[1..], rest);
      ItemsWritten(items[1..], rest);
    }
  }

  lemma OneMeant(items: seq<Item>)
    requires |items| == 1 && ItemsFormed(items)
    ensures MeantItems(items) == match Meant(items[0].value) case None => None case Some(v) => Some([v])
  {
    assert items[1..] == [] && MeantItems(items[1..]) == Some([]);
    match Meant(items[0].value)
    case None =>
    case Some(v) => assert [v] + [] == [v];
  }

  lemma {:induction false} ValueWritten(l: Layout, rest: Text)
    requires WellFormed(l) && Delimited(rest)
    ensures Value(Written(l, rest)) == Reading(Meant(l), rest)
    decreases l
  {
    match l
    case Word(t) => WordWritten(t, rest);
    case Quoted(cs) =>
      QuotedWritten(cs, rest);
    case List(space, items) =>
      if items == [] {
        EmptyWritten(space, RBRACKET, rest);
        EmptyList(space, rest);
      } else {
        ItemsSkipped(items, rest);
        ItemsWritten(items, rest);
        ListWritten(l, rest);
      }
    case Record(space, fields) =>
      if fields == [] {
        EmptyWritten(space, RBRACE, rest);
        EmptyRecord(space, rest);
      } else {
        FieldsSkipped(fields, rest);
        FieldsWritten(fields, rest);
        RecordWritten(l, rest);
      }
  }

  lemma QuotedWritten(cs: seq<Character>, rest: Text)
    requires AllProper(cs)
    ensures Value(Written(Quoted(cs), rest)) == Got(Str(Said(cs)), rest)
  {
    StringWritten(cs, rest);
    StringStepText(Written(Quoted(cs), rest), Characters(cs, ['"' as int] + rest));
  }

  lemma EmptyWritten(space: Text, close: CodePoint, rest: Text)
    requires AllSpace(space) && !Space(close)
    ensures SkipSpace(space + ([close] + rest)) == [close] + rest
  {
    SpaceSkipped(space, [close] + rest);
  }

  lemma EmptyList(space: Text, rest: Text)
    requires AllSpace(space) && SkipSpace(space + ([RBRACKET] + rest)) == [RBRACKET] + rest
    ensures Value(Written(List(space, []), rest)) == Got(Arr([]), rest)
    ensures Meant(List(space, [])) == Some(Arr([]))
  {
    var inner := space + ([RBRACKET] + rest);
    var t := Written(List(space, []), rest);
    assert t[0] == LBRACKET && t[1..] == inner && ([RBRACKET] + rest)[1..] == rest;
  }

  lemma ListWritten(l: Layout, rest: Text)
    requires WellFormed(l) && l.List? && l.items != []
    requires SkipSpace(WrittenItems(l.items, rest)) == ItemsFrom(l.items, rest)
    requires Solid(ItemsFrom(l.items, rest)) && ItemsFrom(l.items, rest)[0] != RBRACKET
    requires Items(ItemsFrom(l.items, rest)) == Reading(MeantItems(l.items), rest)
    ensures Value(Written(l, rest)) == Reading(Meant(l), rest)
  {
    assert Written(l, rest)[0] == LBRACKET && Written(l, rest)[1..] == WrittenItems(l.items, rest);
  }

  lemma EmptyRecord(space: Text, rest: Text)
    requires AllSpace(space) && SkipSpace(space + ([RBRACE] + rest)) == [RBRACE] + rest
    ensures Value(Written(Record(space, []), rest)) == Got(Obj(map[]), rest)
    ensures Meant(Record(space, [])) == Some(Obj(map[]))
  {
    var inner := space + ([RBRACE] + rest);
    var t := Written(Record(space, []), rest);
    assert t[0] == LBRACE && t[1..] == inner && ([RBRACE] + rest)[1..] == rest;
  }

  // ---------- members ----------

  function FieldsTail(fields: seq<Field>, rest: Text): Text
    requires fields != []
  {
    if |fields| == 1 then ['}' as int] + rest else [',' as int] + WrittenFields(fields[1..], rest)
  }

  function FieldsFrom(fields: seq<Field>, rest: Text): Text
    requires fields != []
  {
    WrittenField(fields[0], fields[0].after + FieldsTail(fields, rest))
  }

  predicate FieldFormed(f: Field) {
    && AllSpace(f.before) && AllProper(f.name) && AllSpace(f.between) && AllSpace(f.within) && WellFormed(f.value)
    && AllSpace(f.after)
  }

  predicate FieldsFormed(fields: seq<Field>) {
    forall i | 0 <= i < |fields| :: FieldFormed(fields[i])
  }

  lemma FieldsSkipped(fields: seq<Field>, rest: Text)
    requires fields != [] && FieldsFormed(fields)
    ensures SkipSpace(WrittenFields(fields, rest)) == FieldsFrom(fields, rest)
    ensures Solid(FieldsFrom(fields, rest)) && FieldsFrom(fields, rest)[0] != RBRACE
  {
    assert FieldFormed(fields[0]);
    SpaceSkipped(fields[0].before, FieldsFrom(fields, rest));
  }

  function FieldMeant(f: Field): Option<(Text, Json)>
    requires FieldFormed(f)
  {
    match Meant(f.value) case None => None case Some(v) => Some((Said(f.name), v))
  }

  lemma {:induction false} FieldWritten(f: Field, rest: Text)
    requires FieldFormed(f) && Delimited(rest)
    ensures Member(WrittenField(f, rest)) == Reading(FieldMeant(f), rest)
    decreases f
  {
    var value := Written(f.value, rest);
    var colon := [':' as int] + (f.within + value);
    StringWritten(f.name, f.between + colon);
    SpaceSkipped(f.between, colon);
    WrittenStart(f.value, rest);
    SpaceSkipped(f.within, value);
    ValueWritten(f.value, rest);
    MemberSteps(Characters(f.name, ['"' as int] + (f.between + colon)), Said(f.name), f.between + colon,
                f.within + value, value);
  }

  lemma MemberSteps(body: Text, name: Text, r1: Text, r2: Text, value: Text)
    requires StringBody(body) == Got(name, r1) && SkipSpace(r1) == [COLON] + r2 && SkipSpace(r2) == value
    ensures Member([QUOTE] + body) == match Value(value) case Fail => Fail case Got(v, rest) => Got((name, v), rest)
  {
    assert ([QUOTE] + body)[1..] == body && ([COLON] + r2)[1..] == r2;
  }

  lemma LastField(t: Text, r: Parsed<(Text, Json)>, rest: Text)
    requires Member(t) == r && (r.Got? ==> SkipSpace(r.rest) == [RBRACE] + rest)
    ensures Members(t) == match r case Fail => Fail case Got(p, _) => Got([p], rest)
  {
    assert ([RBRACE] + rest)[1..] == rest;
  }

  lemma NextField(t: Text, r: Parsed<(Text, Json)>, others: Text)
    requires Member(t) == r && (r.Got? ==> SkipSpace(r.rest) == [COMMA] + others)
    ensures Members(t) ==
            match r
            case Fail => Fail
            case Got(p, _) =>
              match Members(SkipSpace(others)) case Fail => Fail case Got(ps, rest) => Got([p] + ps, rest)
  {
    assert ([COMMA] + others)[1..] == others;
  }

  lemma FieldTail(fields: seq<Field>, rest: Text)
    requires fields != [] && FieldsFormed(fields)
    ensures Delimited(fields[0].after + FieldsTail(fields, rest))
    ensures SkipSpace(fields[0].after + FieldsTail(fields, rest)) == FieldsTail(fields, rest)
  {
    assert FieldFormed(fields[0]);
    SpaceDelimits(fields[0].after, FieldsTail(fields, rest));
    SpaceSkipped(fields[0].after, FieldsTail(fields, rest));
  }

  lemma OneFieldMeant(fields: seq<Field>)
    requires |fields| == 1 && FieldsFormed(fields)
    ensures MeantFields(fields) == match FieldMeant(fields[0]) case None => None case Some(p) => Some([p])
  {
    assert FieldFormed(fields[0]) && fields[1..] == [] && MeantFields(fields[1..]) == Some([]);
    match FieldMeant(fields[0])
    case None =>
    case Some(p) => assert [p] + [] == [p];
  }

  lemma {:induction false} FieldsWritten(fields: seq<Field>, rest: Text)
    requires fields != [] && FieldsFormed(fields)
    ensures Members(FieldsFrom(fields, rest)) == Reading(MeantFields(fields), rest)
    decreases fields
  {
    assert FieldFormed(fields[0]);
    var tail := fields[0].after + FieldsTail(fields, rest);
    FieldTail(fields, rest);
    FieldWritten(fields[0], tail);
    if |fields| == 1 {
      LastField(FieldsFrom(fields, rest), Reading(FieldMeant(fields[0]), tail), rest);
      OneFieldMeant(fields);
    } else {
      FieldsSkipped(fields[1..], rest);
      FieldsWritten(fields[1..], rest);
      FieldsOnward(fields, rest, tail);
    }
  }

  lemma FieldsOnward(fields: seq<Field>, rest: Text, tail: Text)
    requires |fields| > 1 && FieldsFormed(fields) && FieldFormed(fields[0]) && FieldsFormed(fields[1..])
    requires Member(FieldsFrom(fields, rest)) == Reading(FieldMeant(fields[0]), tail)
    requires SkipSpace(tail) == [COMMA] + WrittenFields(fields[1..], rest)
    requires Members(SkipSpace(WrittenFields(fields[1..], rest))) == Reading(MeantFields(fields[1..]), rest)
    ensures Members(FieldsFrom(fields, rest)) == Reading(MeantFields(fields), rest)
  {
    NextField(FieldsFrom(fields, rest), Reading(FieldMeant(fields[0]), tail), WrittenFields(fields[1..], rest));
  }

  lemma RecordWritten(l: Layout, rest: Text)
    requires WellFormed(l) && l.Record? && l.fields != []
    requires SkipSpace(WrittenFields(l.fields, rest)) == FieldsFrom(l.fields, rest)
    requires Solid(FieldsFrom(l.fields, rest)) && FieldsFrom(l.fields, rest)[0] != RBRACE
    requires Members(FieldsFrom(l.fields, rest)) == Reading(MeantFields(l.fields), rest)
    ensures Value(Written(l, rest)) == Reading(Meant(l), rest)
  {
    assert Written(l, rest)[0] == LBRACE && Written(l, rest)[1..] == WrittenFields(l.fields, rest);
  }

  // ---------- whatever is read was written ----------

  lemma {:induction false} SpaceRead(t: Text) returns (space: Text)
    ensures AllSpace(space) && t == space + SkipSpace(t)
  {
    if t != [] && Space(t[0]) {
      var more := SpaceRead(t[1..]);
      space := [t[0]] + more;
      assert t == [t[0]] + t[1..];
    } else {
      space := [];
    }
  }

  /** A numbered character in front of a text. */
  lemma UnitFound(t: Text) returns (ch: Character)
    requires EscapedUnit(t).Some?
    ensures Proper(ch) && ch.Numbered? && t == Spelled(ch) + t[6..] && EscapedUnit(t) == Some(UnitOf(ch))
  {
    ch := Numbered(t[2], t[3], t[4], t[5]);
    HexRead(t[2]);
    HexRead(t[3]);
    HexRead(t[4]);
    HexRead(t[5]);
    assert t == Spelled(ch) + t[6..];
    UnitRead(ch, t[6..]);
  }

  lemma Prepended(ch: Character, cs: seq<Character>, rest: Text)
    ensures Characters([ch] + cs, rest) == Spelled(ch) + Characters(cs, rest)
  {
    assert ([ch] + cs)[1..] == cs;
  }

  lemma {:induction false} StringRead(t: Text) returns (cs: seq<Character>)
    requires StringBody(t).Got?
    ensures AllProper(cs) && t == Characters(cs, ['"' as int] + StringBody(t).rest)
    decreases |t|
  {
    var end := ['"' as int] + StringBody(t).rest;
    if t[0] == QUOTE {
      cs := [];
      assert t == end;
    } else if t[0] != BACKSLASH {
      var more := StringRead(t[1..]);
      Prepended(Plain(t[0]), more, end);
      cs := [Plain(t[0])] + more;
      assert t == [t[0]] + t[1..];
    } else {
      cs := EscapeRead(t);
    }
  }

  lemma {:induction false} EscapeRead(t: Text) returns (cs: seq<Character>)
    requires StringBody(t).Got? && t[0] == BACKSLASH
    ensures AllProper(cs) && t == Characters(cs, ['"' as int] + StringBody(t).rest)
    decreases |t|, 0
  {
    var end := ['"' as int] + StringBody(t).rest;
    var more := StringRead(Escape(t).rest);
    if t[1] != LETTER_U {
      ShortRead(t[1]);
      Prepended(Short(t[1]), more, end);
      cs := [Short(t[1])] + more;
      assert t == [t[0], t[1]] + t[2..];
    } else {
      var ch := UnitFound(t);
      var next := EscapedUnit(t[6..]);
      if High(UnitOf(ch)) && next.Some? && Low(next.value) {
        var low := UnitFound(t[6..]);
        assert t[6..][6..] == t[12..];
        Prepended(low, more, end);
        Prepended(ch, [low] + more, end);
        cs := [ch] + ([low] + more);
      } else {
        Prepended(ch, more, end);
        cs := [ch] + more;
      }
    }
  }

  lemma NumberRead(t: Text) returns (l: Layout)
    requires Number(t).Got?
    ensures l.Word? && WellFormed(l) && t == Written(l, Number(t).rest)
  {
    var n := NumberRun(t);
    l := Word(t[..n]);
    assert t == t[..n] + t[n..];
  }

  lemma WordRead(t: Text) returns (l: Layout)
    requires Value(t).Got? && t[0] != QUOTE && t[0] != LBRACKET && t[0] != LBRACE
    ensures WellFormed(l) && t == Written(l, Value(t).rest)
  {
    WordsSpelled();
    if NULL_TEXT <= t {
      l := Word(NULL_TEXT);
      assert t == NULL_TEXT + t[4..];
    } else if TRUE_TEXT <= t {
      l := Word(TRUE_TEXT);
      assert t == TRUE_TEXT + t[4..];
    } else if FALSE_TEXT <= t {
      l := Word(FALSE_TEXT);
      assert t == FALSE_TEXT + t[5..];
    } else {
      l := NumberRead(t);
    }
  }

  lemma OpenedText(t: Text, space: Text, inner: Text)
    requires t != [] && t[1..] == space + inner
    ensures t == [t[0]] + (space + inner)
  {
  }

  lemma {:induction false} ValueRead(t: Text) returns (l: Layout)
    requires Value(t).Got?
    ensures WellFormed(l) && t == Written(l, Value(t).rest)
    decreases |t|, 0
  {
    if t[0] == QUOTE {
      var cs := StringRead(t[1..]);
      l := Quoted(cs);
      assert t == [t[0]] + t[1..];
    } else if t[0] == LBRACKET {
      l := ListRead(t);
    } else if t[0] == LBRACE {
      l := RecordRead(t);
    } else {
      l := WordRead(t);
    }
  }

  lemma {:induction false} ListRead(t: Text) returns (l: Layout)
    requires Value(t).Got? && t[0] == LBRACKET
    ensures WellFormed(l) && t == Written(l, Value(t).rest)
    decreases |t|, 0, 0
  {
    var space := SpaceRead(t[1..]);
    var r1 := SkipSpace(t[1..]);
    OpenedText(t, space, r1);
    if r1 != [] && r1[0] == RBRACKET {
      l := List(space, []);
      assert r1 == [RBRACKET] + r1[1..];
    } else {
      var items := ItemsRead(r1);
      l := List([], ItemsSpaced(space, items));
      ItemsSpacedWritten(space, items, Items(r1).rest);
    }
  }

  /** The same items with this white space before the first. */
  function ItemsSpaced(space: Text, items: seq<Item>): seq<Item>
    requires items != []
  {
    [items[0].(before := space)] + items[1..]
  }

  lemma ItemsSpacedWritten(space: Text, items: seq<Item>, rest: Text)
    requires AllSpace(space) && items != [] && ItemsFormed(items)
    ensures ItemsFormed(ItemsSpaced(space, items))
    ensures WrittenItems(ItemsSpaced(space, items), rest) == space + ItemsFrom(items, rest)
  {
    assert ItemsSpaced(space, items)[1..] == items[1..];
  }

  lemma {:induction false} ItemsRead(t: Text) returns (items: seq<Item>)
    requires Items(t).Got?
    ensures items != [] && ItemsFormed(items) && t == ItemsFrom(items, Items(t).rest)
    decreases |t|, 1
  {
    var rest := Items(t).rest;
    var l := ValueRead(t);
    var r1 := Value(t).rest;
    var after := SpaceRead(r1);
    var r2 := SkipSpace(r1);
    if r2[0] == RBRACKET {
      items := [Item([], l, after)];
      assert r2 == [RBRACKET] + rest;
    } else {
      var space := SpaceRead(r2[1..]);
      var more := ItemsRead(SkipSpace(r2[1..]));
      ItemsSpacedWritten(space, more, rest);
      items := [Item([], l, after)] + ItemsSpaced(space, more);
      ItemsShape(Item([], l, after), ItemsSpaced(space, more), t, r1, r2, rest);
    }
  }

  lemma ItemsShape(first: Item, others: seq<Item>, t: Text, r1: Text, r2: Text, rest: Text)
    requires first.before == [] && WellFormed(first.value) && AllSpace(first.after)
    requires others != [] && ItemsFormed(others)
    requires t == Written(first.value, r1) && r1 == first.after + r2
    requires r2 != [] && r2[0] == COMMA && r2[1..] == WrittenItems(others, rest)
    ensures ItemsFormed([first] + others) && t == ItemsFrom([first] + others, rest)
  {
    assert ([first] + others)[1..] == others;
    assert r2 == [COMMA] + r2[1..];
  }

  lemma {:induction false} RecordRead(t: Text) returns (l: Layout)
    requires Value(t).Got? && t[0] == LBRACE
    ensures WellFormed(l) && t == Written(l, Value(t).rest)
    decreases |t|, 0, 0
  {
    var space := SpaceRead(t[1..]);
    var r1 := SkipSpace(t[1..]);
    OpenedText(t, space, r1);
    if r1 != [] && r1[0] == RBRACE {
      l := Record(space, []);
      assert r1 == [RBRACE] + r1[1..];
    } else {
      var fields := FieldsRead(r1);
      l := Record([], FieldsSpaced(space, fields));
      FieldsSpacedWritten(space, fields, Members(r1).rest);
    }
  }

  function FieldsSpaced(space: Text, fields: seq<Field>): seq<Field>
    requires fields != []
  {
    [fields[0].(before := space)] + fields[1..]
  }

  lemma FieldsSpacedWritten(space: Text, fields: seq<Field>, rest: Text)
    requires AllSpace(space) && fields != [] && FieldsFormed(fields)
    ensures FieldsFormed(FieldsSpaced(space, fields))
    ensures WrittenFields(FieldsSpaced(space, fields), rest) == space + FieldsFrom(fields, rest)
  {
    var spaced := FieldsSpaced(space, fields);
    assert spaced[1..] == fields[1..];
    forall i | 0 <= i < |spaced| ensures FieldFormed(spaced[i]) {
      assert FieldFormed(fields[i]);
    }
  }

  lemma {:induction false} FieldRead(t: Text) returns (f: Field)
    requires Member(t).Got?
    ensures FieldFormed(f) && f.before == [] && f.after == [] && t == WrittenField(f, Member(t).rest)
    decreases |t|, 0
  {
    var name := StringRead(t[1..]);
    var r1 := StringBody(t[1..]).rest;
    var between := SpaceRead(r1);
    var r2 := SkipSpace(r1);
    var within := SpaceRead(r2[1..]);
    var value := ValueRead(SkipSpace(r2[1..]));
    f := Field([], name, between, within, value, []);
    FieldShape(f, t, t[1..], r1, r2, r2[1..], SkipSpace(r2[1..]), Member(t).rest);
  }

  lemma FieldShape(f: Field, t: Text, body: Text, r1: Text, r2: Text, r3: Text, r4: Text, rest: Text)
    requires t != [] && t[0] == QUOTE && t[1..] == body && body == Characters(f.name, ['"' as int] + r1)
    requires r1 == f.between + r2 && r2 != [] && r2[0] == COLON && r2[1..] == r3
    requires r3 == f.within + r4 && r4 == Written(f.value, rest)
    ensures t == WrittenField(f, rest)
  {
    assert t == [QUOTE] + body && r2 == [COLON] + r3;
  }

  lemma {:induction false} FieldsRead(t: Text) returns (fields: seq<Field>)
    requires Members(t).Got?
    ensures fields != [] && FieldsFormed(fields) && t == FieldsFrom(fields, Members(t).rest)
    decreases |t|, 1
  {
    var rest := Members(t).rest;
    var f := FieldRead(t);
    var r1 := Member(t).rest;
    var after := SpaceRead(r1);
    var r2 := SkipSpace(r1);
    var first := f.(after := after);
    assert WrittenField(first, r1) == WrittenField(f, r1) && FieldFormed(first);
    if r2[0] == RBRACE {
      fields := [first];
      assert r2 == [RBRACE] + rest;
    } else {
      var space := SpaceRead(r2[1..]);
      var more := FieldsRead(SkipSpace(r2[1..]));
      FieldsSpacedWritten(space, more, rest);
      fields := [first] + FieldsSpaced(space, more);
      FieldsShape(first, FieldsSpaced(space, more), t, r1, r2, rest);
    }
  }

  lemma FieldsShape(first: Field, others: seq<Field>, t: Text, r1: Text, r2: Text, rest: Text)
    requires FieldFormed(first) && others != [] && FieldsFormed(others)
    requires t == WrittenField(first, r1) && r1 == first.after + r2
    requires r2 != [] && r2[0] == COMMA && r2[1..] == WrittenFields(others, rest)
    ensures FieldsFormed([first] + others) && t == FieldsFrom([first] + others, rest)
  {
    FieldsFirst(first, others);
    assert r2 == [COMMA] + r2[1..];
  }

  lemma FieldsFirst(first: Field, more: seq<Field>)
    requires FieldFormed(first) && FieldsFormed(more)
    ensures FieldsFormed([first] + more) && ([first] + more)[1..] == more
  {
  }

  // ---------- the grammar ----------

  /** White space, a layout, white space. */
  ghost predicate Lays(t: Text, before: Text, l: Layout, after: Text) {
    AllSpace(before) && AllSpace(after) && WellFormed(l) && t == before + Written(l, after)
  }

  lemma LaidOut(t: Text, before: Text, l: Layout, after: Text)
    requires Lays(t, before, l, after)
    ensures Decode(t) == Meant(l)
  {
    WrittenStart(l, after);
    SpaceSkipped(before, Written(l, after));
    SpaceDelimits(after, []);
    assert after + [] == after;
    ValueWritten(l, after);
    SpaceSkipped(after, []);
  }

  /** A text decodes to a value exactly when it is white space around a layout that means it. */
  lemma DecodeExactly(t: Text, v: Json)
    ensures Decode(t) == Some(v) <==>
            exists before, l, after :: Lays(t, before, l, after) && Meant(l) == Some(v)
  {
    if Decode(t) == Some(v) {
      var before := SpaceRead(t);
      var l := ValueRead(SkipSpace(t));
      var after := SpaceRead(Value(SkipSpace(t)).rest);
      assert after + [] == after;
      assert Lays(t, before, l, after);
      LaidOut(t, before, l, after);
    }
    if before, l, after :| Lays(t, before, l, after) && Meant(l) == Some(v) {
      LaidOut(t, before, l, after);
    }
  }
}
