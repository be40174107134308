/**
 The audit file: one canonical row per line, read back by splitting lines and
 decoding each that is not blank.
 */
module AuditFile {
  import opened Options
  import opened PyText
  import opened Json
  import opened JsonDecode
  import opened JsonRoundTrip
  import opened JsonCanonical

  const NEWLINE: CodePoint := 10

  /** The characters `str.splitlines` ends a line at. */
  predicate LineBreak(c: CodePoint) {
    10 <= c <= 13 || 28 <= c <= 30 || c == 0x85 || c == 0x2028 || c == 0x2029
  }

  /** They are these ten. */
  lemma LineBreaksSpelled(c: CodePoint)
    ensures LineBreak(c) <==>
            c in {'\n' as int, 0x0B, 0x0C, '\r' as int, 0x1C, 0x1D, 0x1E, 0x85, 0x2028, 0x2029}
  {
  }

  function LineLength(t: Text): (n: nat)
    ensures n <= |t|
    ensures n < |t| ==> LineBreak(t[n])
  {
    if t == [] || LineBreak(t[0]) then 0 else 1 + LineLength(t[1..])
  }

  function BreakWidth(t: Text): (n: nat)
    requires t != []
    ensures 0 < n <= |t|
  {
    if |t| >= 2 && t[0] == 13 && t[1] == NEWLINE then 2 else 1
  }

  /** `str.splitlines`. */
  function SplitLines(t: Text): seq<Text>
    decreases |t|
  {
    if t == [] then []
    else
      var n := LineLength(t);
      if n == |t| then [t]
      else [t[..n]] + SplitLines(t[n + BreakWidth(t[n..])..])
  }

  predicate Breakless(line: Text) {
    forall i | 0 <= i < |line| :: !LineBreak(line[i])
  }

  lemma {:induction false} BreaklessLength(line: Text, rest: Text)
    requires Breakless(line) && (rest == [] || LineBreak(rest[0]))
    ensures LineLength(line + rest) == |line|
  {
    if line == [] {
      assert line + rest == rest;
    } else {
      assert (line + rest)[1..] == line[1..] + rest;
      BreaklessLength(line[1..], rest);
    }
  }

  /** Text is split at each break, with nothing left of the last. */
  lemma LinesSpelled(line: Text, b: CodePoint, rest: Text)
    requires Breakless(line) && LineBreak(b) && !(b == '\r' as int && rest != [] && rest[0] == '\n' as int)
    ensures SplitLines(line + ([b] + rest)) == [line] + SplitLines(rest)
  {
    BrokenAt(line, [b], rest);
  }

  /** A carriage return and a line feed together are one break. */
  lemma PairSpelled(line: Text, rest: Text)
    requires Breakless(line)
    ensures SplitLines(line + (['\r' as int, '\n' as int] + rest)) == [line] + SplitLines(rest)
  {
    BrokenAt(line, ['\r' as int, '\n' as int], rest);
  }

  lemma LastLineSpelled(line: Text)
    requires Breakless(line)
    ensures SplitLines(line) == if line == [] then [] else [line]
  {
    BreaklessLength(line, []);
    assert line + [] == line;
  }

  lemma BrokenAt(line: Text, mark: Text, rest: Text)
    requires Breakless(line) && mark != [] && LineBreak(mark[0]) && |mark| == BreakWidth(mark + rest)
    ensures SplitLines(line + (mark + rest)) == [line] + SplitLines(rest)
  {
    var t := line + (mark + rest);
    BreaklessLength(line, mark + rest);
    assert t[..|line|] == line && t[|line|..] == mark + rest && t[|line| + |mark|..] == rest;
  }

  /** The characters `str.strip` removes. */
  predicate StripSpace(c: CodePoint) {
    9 <= c <= 13 || 28 <= c <= 32 || c == 0x85 || c == 0xA0 || c == 0x1680 || 0x2000 <= c <= 0x200A
    || c == 0x2028 || c == 0x2029 || c == 0x202F || c == 0x205F || c == 0x3000
  }

  /** They are these twenty-nine. */
  lemma StripSpacesSpelled(c: CodePoint)
    ensures StripSpace(c) <==>
            c in {'\t' as int, '\n' as int, 0x0B, 0x0C, '\r' as int, 0x1C, 0x1D, 0x1E, 0x1F, ' ' as int, 0x85, 0xA0,
                  0x1680, 0x2000, 0x2001, 0x2002, 0x2003, 0x2004, 0x2005, 0x2006, 0x2007, 0x2008, 0x2009, 0x200A,
                  0x2028, 0x2029, 0x202F, 0x205F, 0x3000}
  {
  }

  predicate Blank(line: Text) {
    forall i | 0 <= i < |line| :: StripSpace(line[i])
  }

  /** `_decode_audit_row`: the line must be one JSON object without repeated members. */
  function DecodeRow(line: Text): Option<Dict> {
    match Decode(line)
    case Some(v) => if v.Obj? then Some(v.members) else None
    case None => None
  }

  function DecodeLines(lines: seq<Text>): Option<seq<Dict>> {
    if lines == [] then Some([])
    else if Blank(lines[0]) then DecodeLines(lines[1..])
    else
      match DecodeRow(lines[0])
      case None => None
      case Some(row) => match DecodeLines(lines[1..]) case None => None case Some(rows) => Some([row] + rows)
  }

  /** The rows of a file's text; none when some line is not a row. */
  function ReadRows(t: Text): Option<seq<Dict>> {
    DecodeLines(SplitLines(t))
  }

  /** The text one append writes. */
  function Frame(row: Dict): Text {
    Encode(Obj(row)) + [NEWLINE]
  }

  function Frames(rows: seq<Dict>): Text {
    if rows == [] then [] else Frames(rows[..|rows| - 1]) + Frame(rows[|rows| - 1])
  }

  /** A row as it comes back from the file. */
  function NormRow(row: Dict): Option<Dict> {
    match Norm(Obj(row))
    case Some(v) => if v.Obj? then Some(v.members) else None
    case None => None
  }

  function NormRows(rows: seq<Dict>): (r: Option<seq<Dict>>)
    ensures r.Some? ==> |r.value| == |rows|
  {
    if rows == [] then Some([])
    else
      match NormRows(rows[..|rows| - 1])
      case None => None
      case Some(done) =>
        match NormRow(rows[|rows| - 1]) case None => None case Some(row) => Some(done + [row])
  }

  function Both(a: Option<seq<Dict>>, b: Option<seq<Dict>>): Option<seq<Dict>> {
    if a.Some? && b.Some? then Some(a.value + b.value) else None
  }

  // ---------- framing ----------

  lemma {:induction false} LineLengthPrintable(line: Text, rest: Text)
    requires Printable(line)
    ensures LineLength(line + [NEWLINE] + rest) == |line|
  {
    var t := line + [NEWLINE] + rest;
    if line != [] {
      assert t[1..] == line[1..] + [NEWLINE] + rest;
      LineLengthPrintable(line[1..], rest);
    }
  }

  lemma SplitFirstLine(line: Text, rest: Text)
    requires Printable(line)
    ensures SplitLines(line + [NEWLINE] + rest) == [line] + SplitLines(rest)
  {
    var t := line + [NEWLINE] + rest;
    LineLengthPrintable(line, rest);
    assert t[..|line|] == line;
    assert t[|line|..] == [NEWLINE] + rest;
    assert t[|line| + 1..] == rest;
  }

  /** Text that ends where a line ends. */
  predicate LineEnded(t: Text) {
    t == [] || LineBreak(t[|t| - 1])
  }

  lemma {:induction false} LineLengthWithin(base: Text, more: Text)
    requires base != [] && LineEnded(base)
    ensures LineLength(base + more) == LineLength(base) < |base|
  {
    if !LineBreak(base[0]) {
      assert (base + more)[1..] == base[1..] + more;
      assert base[1..][|base[1..]| - 1] == base[|base| - 1];
      LineLengthWithin(base[1..], more);
    }
  }

  lemma DropWithin(base: Text, more: Text, k: nat)
    requires k <= |base|
    ensures (base + more)[k..] == base[k..] + more
    ensures (base + more)[..k] == base[..k]
  {
  }

  /** How much of the text the first line takes, its break included. */
  function FirstLine(t: Text): (n: nat)
    requires LineLength(t) < |t|
    ensures LineLength(t) < n <= |t|
  {
    LineLength(t) + BreakWidth(t[LineLength(t)..])
  }

  lemma FirstLineWithin(base: Text, more: Text)
    requires base != [] && LineEnded(base) && (more == [] || more[0] != NEWLINE)
    ensures LineLength(base + more) == LineLength(base) < |base|
    ensures FirstLine(base + more) == FirstLine(base)
    ensures LineEnded(base[FirstLine(base)..])
  {
    LineLengthWithin(base, more);
    DropWithin(base, more, LineLength(base));
    var after := base[FirstLine(base)..];
    assert after != [] ==> after[|after| - 1] == base[|base| - 1];
  }

  lemma SplitStep(t: Text)
    requires LineLength(t) < |t|
    ensures SplitLines(t) == [t[..LineLength(t)]] + SplitLines(t[FirstLine(t)..])
  {
    var n := LineLength(t);
    assert n + BreakWidth(t[n..]) == FirstLine(t);
  }

  lemma SplitStepAppended(base: Text, more: Text)
    requires base != [] && LineEnded(base) && (more == [] || more[0] != NEWLINE)
    ensures LineLength(base) < |base|
    ensures SplitLines(base + more) == [base[..LineLength(base)]] + SplitLines(base[FirstLine(base)..] + more)
  {
    FirstLineWithin(base, more);
    DropWithin(base, more, LineLength(base));
    DropWithin(base, more, FirstLine(base));
    SplitStep(base + more);
  }

  lemma NothingBefore(more: Text)
    ensures [] + more == more
    ensures SplitLines([]) + SplitLines(more) == SplitLines(more)
  {
  }

  lemma Glue(head: Text, x: seq<Text>, y: seq<Text>)
    ensures [head] + (x + y) == ([head] + x) + y
  {
  }

  /** Lines appended after a finished line do not disturb the ones before. */
  lemma {:induction false} SplitAppended(base: Text, more: Text)
    requires LineEnded(base) && (more == [] || more[0] != NEWLINE)
    ensures SplitLines(base + more) == SplitLines(base) + SplitLines(more)
    decreases |base|
  {
    if base == [] {
      NothingBefore(more);
    } else {
      SplitStepAppended(base, more);
      FirstLineWithin(base, []);
      SplitStep(base);
      var head, after := base[..LineLength(base)], base[FirstLine(base)..];
      SplitAppended(after, more);
      Glue(head, SplitLines(after), SplitLines(more));
    }
  }

  lemma {:induction false} DecodeAppended(a: seq<Text>, b: seq<Text>)
    ensures DecodeLines(a + b) == Both(DecodeLines(a), DecodeLines(b))
  {
    if a == [] {
      assert a + b == b;
      if DecodeLines(b).Some? {
        assert [] + DecodeLines(b).value == DecodeLines(b).value;
      }
    } else {
      assert (a + b)[1..] == a[1..] + b;
      DecodeAppended(a[1..], b);
      if !Blank(a[0]) && DecodeRow(a[0]).Some? && DecodeLines(a[1..]).Some? && DecodeLines(b).Some? {
        var row := DecodeRow(a[0]).value;
        assert [row] + (DecodeLines(a[1..]).value + DecodeLines(b).value)
            == ([row] + DecodeLines(a[1..]).value) + DecodeLines(b).value;
      }
    }
  }

  lemma ObjectLine(row: Dict)
    ensures Printable(Encode(Obj(row)))
    ensures !Blank(Encode(Obj(row)))
    ensures Frame(row)[0] == LBRACE
    ensures DecodeRow(Encode(Obj(row))) == NormRow(row)
  {
    EncodePrintable(Obj(row));
    assert Encode(Obj(row))[0] == LBRACE;
    assert !StripSpace(Encode(Obj(row))[0]);
    DecodeEncode(Obj(row));
  }

  lemma ReadFrame(row: Dict)
    ensures ReadRows(Frame(row)) == match NormRow(row) case None => None case Some(r) => Some([r])
  {
    ObjectLine(row);
    var line := Encode(Obj(row));
    assert Frame(row) == line + [NEWLINE] + [];
    SplitFirstLine(line, []);
    var lines: seq<Text> := [line];
    assert SplitLines(Frame(row)) == lines;
    assert lines[1..] == [];
    assert DecodeLines([]) == Some([]);
    if NormRow(row).Some? {
      assert [NormRow(row).value] + [] == [NormRow(row).value];
    }
  }

  lemma {:induction false} FramesEnded(base: Text, rows: seq<Dict>)
    requires LineEnded(base)
    ensures LineEnded(base + Frames(rows))
  {
    if rows != [] {
      var t := base + Frames(rows);
      assert t[|t| - 1] == NEWLINE;
    } else {
      assert base + [] == base;
    }
  }

  /**
   Reading a file back after appending rows to text that ended at a line break:
   the old rows, then each appended row in its decoded form, in order.
   */
  lemma {:induction false} ReadAppended(base: Text, rows: seq<Dict>)
    requires LineEnded(base)
    ensures ReadRows(base + Frames(rows)) == Both(ReadRows(base), NormRows(rows))
  {
    if rows == [] {
      assert base + [] == base;
      if ReadRows(base).Some? {
        assert ReadRows(base).value + [] == ReadRows(base).value;
      }
    } else {
      var init, last := rows[..|rows| - 1], rows[|rows| - 1];
      var before := base + Frames(init);
      ReadAppended(base, init);
      FramesSnoc(base, rows);
      FramesEnded(base, init);
      ReadNextFrame(before, last);
      BothSnoc(ReadRows(base), NormRows(init), NormRow(last));
      NormRowsSnoc(rows);
    }
  }

  lemma FramesSnoc(base: Text, rows: seq<Dict>)
    requires rows != []
    ensures base + Frames(rows) == (base + Frames(rows[..|rows| - 1])) + Frame(rows[|rows| - 1])
  {
    var before, last := Frames(rows[..|rows| - 1]), Frame(rows[|rows| - 1]);
    Associative(base, before, last);
  }

  lemma Associative(a: Text, b: Text, c: Text)
    ensures a + (b + c) == (a + b) + c
  {
  }

  lemma NormRowsSnoc(rows: seq<Dict>)
    requires rows != []
    ensures var b, c := NormRows(rows[..|rows| - 1]), NormRow(rows[|rows| - 1]);
            NormRows(rows) == if b.Some? && c.Some? then Some(b.value + [c.value]) else None
  {
  }

  lemma ReadNextFrame(before: Text, row: Dict)
    requires LineEnded(before)
    ensures ReadRows(before + Frame(row)) ==
            Both(ReadRows(before), match NormRow(row) case None => None case Some(r) => Some([r]))
  {
    ObjectLine(row);
    SplitAppended(before, Frame(row));
    DecodeAppended(SplitLines(before), SplitLines(Frame(row)));
    ReadFrame(row);
  }

  lemma BothSnoc(a: Option<seq<Dict>>, b: Option<seq<Dict>>, c: Option<Dict>)
    ensures Both(Both(a, b), match c case None => None case Some(r) => Some([r])) ==
            Both(a, if b.Some? && c.Some? then Some(b.value + [c.value]) else None)
  {
    if a.Some? && b.Some? && c.Some? {
      assert (a.value + b.value) + [c.value] == a.value + (b.value + [c.value]);
    }
  }

  predicate PairFreeRows(rows: seq<Dict>) {
    forall i | 0 <= i < |rows| :: PairFree(Obj(rows[i]))
  }

  /** Rows come back unchanged exactly when none holds a written-out surrogate pair. */
  lemma {:induction false} NormRowsExactly(rows: seq<Dict>)
    ensures NormRows(rows) == Some(rows) <==> PairFreeRows(rows)
  {
    if rows != [] {
      var n := |rows| - 1;
      NormRowsExactly(rows[..n]);
      NormRowExactly(rows[n]);
      assert rows == rows[..n] + [rows[n]];
      assert forall i | 0 <= i < n :: rows[..n][i] == rows[i];
      if NormRows(rows) == Some(rows) {
        assert NormRows(rows[..n]).value == rows[..n] && NormRow(rows[n]) == Some(rows[n]);
      }
    }
  }

  lemma NormRowExactly(row: Dict)
    ensures NormRow(row) == Some(row) <==> PairFree(Obj(row))
  {
    NormIsPairFree(Obj(row));
    if PairFree(Obj(row)) {
      PairFreeNorm(Obj(row));
    }
  }

  lemma ReadFrames(rows: seq<Dict>)
    ensures ReadRows(Frames(rows)) == NormRows(rows)
  {
    ReadAppended([], rows);
    assert [] + Frames(rows) == Frames(rows);
    assert ReadRows([]) == Some([]);
    if NormRows(rows).Some? {
      assert [] + NormRows(rows).value == NormRows(rows).value;
    }
  }

  /** A file of appended rows reads back as exactly those rows, in order, exactly when they hold no written-out pair. */
  lemma FileRoundTrip(rows: seq<Dict>)
    ensures ReadRows(Frames(rows)) == Some(rows) <==> PairFreeRows(rows)
  {
    ReadFrames(rows);
    NormRowsExactly(rows);
  }
}
