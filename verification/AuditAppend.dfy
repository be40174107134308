/**
 Writing to a file, whatever it ends in: a row, or the beginning of one that a failing write left behind.  What
 reading the file then gives is decided by what followed its last line break and by how much was written.
 */
module AuditAppend {
  import opened Options
  import opened PyText
  import opened Json
  import opened JsonDecode
  import opened JsonRoundTrip
  import opened JsonTorn
  import opened AuditFile

  /** How many characters follow the last line break. */
  function TailLength(t: Text): (n: nat)
    ensures n <= |t|
    ensures n < |t| ==> LineBreak(t[|t| - 1 - n])
    ensures forall i | |t| - n <= i < |t| :: !LineBreak(t[i])
  {
    if t == [] || LineBreak(t[|t| - 1]) then 0 else 1 + TailLength(t[..|t| - 1])
  }

  /** What follows the last line break. */
  function LastLine(t: Text): (line: Text)
    ensures Breakless(line)
  {
    t[|t| - TailLength(t)..]
  }

  /** The text up to its last line break. */
  function Finished(t: Text): (f: Text)
    ensures LineEnded(f) && t == f + LastLine(t)
  {
    t[..|t| - TailLength(t)]
  }

  /** Nothing but JSON white space follows the last line break. */
  predicate Appendable(t: Text) {
    SkipSpace(LastLine(t)) == []
  }

  lemma OneLine(line: Text)
    requires Breakless(line)
    ensures SplitLines(line + [NEWLINE]) == [line]
    ensures SplitLines(line) == if line == [] then [] else [line]
  {
    LinesSpelled(line, NEWLINE, []);
    LastLineSpelled(line);
    assert [NEWLINE] + [] == [NEWLINE];
    assert SplitLines([]) == [] && [line] + [] == [line];
  }

  /** The rows of one line. */
  function LineRows(line: Text): Option<seq<Dict>> {
    if Blank(line) then Some([])
    else match DecodeRow(line) case None => None case Some(row) => Some([row])
  }

  lemma DecodeOne(line: Text)
    ensures DecodeLines([line]) == LineRows(line)
  {
    var lines := [line];
    assert lines[1..] == [];
    assert DecodeLines(lines[1..]) == Some([]);
    if DecodeRow(line).Some? {
      assert [DecodeRow(line).value] + [] == [DecodeRow(line).value];
    }
  }

  /** A finished text and an unfinished line after it, with or without its line break. */
  lemma ReadUnfinished(before: Text, line: Text)
    requires LineEnded(before) && Breakless(line)
    ensures ReadRows(before + line) == Both(ReadRows(before), LineRows(line))
    ensures line != [] ==> ReadRows(before + (line + [NEWLINE])) == Both(ReadRows(before), LineRows(line))
  {
    OneLine(line);
    DecodeOne(line);
    SplitAppended(before, line);
    DecodeAppended(SplitLines(before), SplitLines(line));
    if line != [] {
      SplitAppended(before, line + [NEWLINE]);
      DecodeAppended(SplitLines(before), SplitLines(line + [NEWLINE]));
    }
  }

  // ---------- a row written after an unfinished line ----------

  lemma {:induction false} SpaceIsBlank(line: Text)
    requires SkipSpace(line) == []
    ensures Blank(line)
  {
    if line != [] {
      SpaceIsBlank(line[1..]);
      assert forall i | 0 < i < |line| :: line[i] == line[1..][i - 1];
    }
  }

  /** The part of a row's text that `k` characters of its line make up. */
  function Beginning(row: Dict, k: nat): Text
    requires k <= |Encode(Obj(row))|
  {
    Encode(Obj(row))[..k]
  }

  lemma GluedNotBlank(line: Text, row: Dict, k: nat)
    requires 0 < k <= |Encode(Obj(row))|
    ensures !Blank(line + Beginning(row, k))
    ensures Breakless(line) ==> Breakless(line + Beginning(row, k))
  {
    var g := Beginning(row, k);
    ObjectLine(row);
    assert Frame(row)[0] == Encode(Obj(row))[0];
    assert (line + g)[|line|] == g[0] == LBRACE;
    assert !StripSpace(LBRACE);
  }

  /** A whole row after white space is the row. */
  lemma SpacedRow(line: Text, row: Dict)
    requires SkipSpace(line) == []
    ensures DecodeRow(line + Encode(Obj(row))) == NormRow(row)
  {
    ObjectLine(row);
    EncodeNonempty(Obj(row));
    SkipSpaceAway(line, Encode(Obj(row)));
    SkipSpaceAway([], Encode(Obj(row)));
    assert [] + Encode(Obj(row)) == Encode(Obj(row));
  }

  /** A torn row after white space is none. */
  lemma SpacedTorn(line: Text, row: Dict, k: nat)
    requires SkipSpace(line) == [] && 0 < k < |Encode(Obj(row))|
    ensures DecodeRow(line + Beginning(row, k)) == None
  {
    EncodeNonempty(Obj(row));
    assert Beginning(row, k)[0] == Encode(Obj(row))[0];
    SkipSpaceAway(line, Beginning(row, k));
    TornObject(Obj(row), k);
  }

  /** One decoded row. */
  function OneRow(row: Option<Dict>): Option<seq<Dict>> {
    match row case None => None case Some(r) => Some([r])
  }

  /** The rows of the line that a row's text, whole or torn, is written at the end of. */
  lemma GluedRows(line: Text, row: Dict, k: nat)
    requires Named(row) && 0 < k <= |Encode(Obj(row))|
    ensures LineRows(line + Beginning(row, k)) ==
            if SkipSpace(line) == [] && k == |Encode(Obj(row))| then OneRow(NormRow(row)) else None
  {
    GluedNotBlank(line, row, k);
    if SkipSpace(line) != [] {
      NamedPiece(row, k);
      GluedPiece(line, Beginning(row, k));
    } else if k < |Encode(Obj(row))| {
      SpacedTorn(line, row, k);
    } else {
      assert Beginning(row, k) == Encode(Obj(row));
      SpacedRow(line, row);
    }
  }

  /** What `k` characters of a row's text and line break leave in the file. */
  function Written(t: Text, row: Dict, k: nat): Text
    requires k <= |Frame(row)|
  {
    t + Frame(row)[..k]
  }

  lemma WrittenParts(t: Text, row: Dict, k: nat)
    requires k <= |Frame(row)|
    ensures k < |Frame(row)| ==> Written(t, row, k) == Finished(t) + (LastLine(t) + Beginning(row, k))
    ensures k == |Frame(row)| ==>
              Written(t, row, k) == Finished(t) + ((LastLine(t) + Beginning(row, k - 1)) + [NEWLINE])
  {
    var e := Encode(Obj(row));
    if k < |Frame(row)| {
      assert Frame(row)[..k] == e[..k];
      Associative(Finished(t), LastLine(t), e[..k]);
    } else {
      assert Frame(row)[..k] == Frame(row) && e[..k - 1] == e;
      Grouped(Finished(t), LastLine(t), e, [NEWLINE]);
    }
  }

  lemma Grouped(a: Text, b: Text, c: Text, d: Text)
    ensures (a + b) + (c + d) == a + ((b + c) + d)
  {
  }

  lemma {:induction false} UnbrokenTail(before: Text, line: Text)
    requires LineEnded(before) && Breakless(line)
    ensures TailLength(before + line) == |line|
    decreases |line|
  {
    var t := before + line;
    if line != [] {
      var n := |line| - 1;
      assert t[..|t| - 1] == before + line[..n];
      UnbrokenTail(before, line[..n]);
    } else {
      assert t == before;
    }
  }

  /** The line that is left unfinished. */
  lemma WrittenLastLine(t: Text, row: Dict, k: nat)
    requires k <= |Frame(row)|
    ensures LastLine(Written(t, row, k)) == if k == |Frame(row)| then [] else LastLine(t) + Beginning(row, k)
    ensures k == |Frame(row)| ==> LineEnded(Written(t, row, k))
  {
    WrittenParts(t, row, k);
    var w := Written(t, row, k);
    if k == |Frame(row)| {
      assert w[|w| - 1] == NEWLINE;
    } else {
      if k == 0 {
        assert LastLine(t) + Beginning(row, k) == LastLine(t);
      } else {
        GluedNotBlank(LastLine(t), row, k);
      }
      UnbrokenTail(Finished(t), LastLine(t) + Beginning(row, k));
    }
  }

  /** After that the file is appendable exactly when a whole line was written, or nothing to one that was. */
  lemma WrittenAppendable(t: Text, row: Dict, k: nat)
    requires k <= |Frame(row)|
    ensures Appendable(Written(t, row, k)) <==> k == |Frame(row)| || (k == 0 && Appendable(t))
  {
    WrittenLastLine(t, row, k);
    if 0 < k < |Frame(row)| {
      GluedNotBlank(LastLine(t), row, k);
      if Appendable(Written(t, row, k)) {
        SpaceIsBlank(LastLine(t) + Beginning(row, k));
      }
    } else if k == 0 {
      assert LastLine(t) + Beginning(row, k) == LastLine(t);
    }
  }

  /** White space after the last line break adds no rows. */
  lemma AppendableRows(t: Text)
    requires Appendable(t)
    ensures ReadRows(t) == ReadRows(Finished(t))
  {
    SpaceIsBlank(LastLine(t));
    ReadUnfinished(Finished(t), LastLine(t));
    if ReadRows(Finished(t)).Some? {
      assert ReadRows(Finished(t)).value + [] == ReadRows(Finished(t)).value;
    }
  }

  /**
   Writing `k` characters of a row's line to any file.  Nothing changes if `k` is zero; otherwise the file reads
   back, as before and with the decoded row after that, exactly when it did before, only white space followed its last
   line break, the whole row was written, with or without its line break, and the row decodes.
   */
  lemma ReadWritten(t: Text, row: Dict, k: nat)
    requires Named(row) && k <= |Frame(row)|
    ensures ReadRows(Written(t, row, k)) ==
            if k == 0 then ReadRows(t)
            else if Appendable(t) && k >= |Encode(Obj(row))| then Both(ReadRows(t), OneRow(NormRow(row)))
            else None
  {
    if k == 0 {
      assert Written(t, row, k) == t;
    } else {
      var j := if k == |Frame(row)| then k - 1 else k;
      NamedStart(row);
      WrittenParts(t, row, k);
      GluedNotBlank(LastLine(t), row, j);
      ReadUnfinished(Finished(t), LastLine(t) + Beginning(row, j));
      GluedRows(LastLine(t), row, j);
      if Appendable(t) {
        AppendableRows(t);
      }
    }
  }

  lemma DropBoth<T>(s: seq<T>)
    requires |s| >= 2
    ensures s[..|s| - 1][1..] == s[1..][..|s| - 2] && s[..|s| - 1][0] == s[0] && s[1..][|s| - 2] == s[|s| - 1]
  {
  }

  lemma FramesLast(rows: seq<Dict>)
    requires rows != []
    ensures Frames(rows) == Frames(rows[..|rows| - 1]) + Frame(rows[|rows| - 1])
  {
  }

  lemma {:induction false} FirstFrame(rows: seq<Dict>)
    requires rows != []
    ensures Frames(rows) == Frame(rows[0]) + Frames(rows[1..])
    decreases |rows|
  {
    FramesLast(rows);
    if |rows| > 1 {
      DropBoth(rows);
      FirstFrame(rows[..|rows| - 1]);
      FramesLast(rows[1..]);
      Associative(Frame(rows[0]), Frames(rows[1..][..|rows| - 2]), Frame(rows[|rows| - 1]));
    }
  }

  lemma {:induction false} FirstNorm(rows: seq<Dict>)
    requires rows != []
    ensures NormRows(rows) == Both(OneRow(NormRow(rows[0])), NormRows(rows[1..]))
    decreases |rows|
  {
    var n := |rows| - 1;
    NormRowsSnoc(rows);
    if n == 0 {
      OneMore(NormRow(rows[0]));
      assert NormRows([]) == Some([]);
    } else {
      DropBoth(rows);
      FirstNorm(rows[..n]);
      NormRowsSnoc(rows[1..]);
      BothSnoc(OneRow(NormRow(rows[0])), NormRows(rows[..n][1..]), NormRow(rows[n]));
    }
  }

  lemma OneMore(row: Option<Dict>)
    ensures Both(OneRow(row), Some([])) == OneRow(row)
    ensures row.Some? ==> [] + [row.value] == [row.value]
  {
    if row.Some? {
      assert [row.value] + [] == [row.value];
    }
  }

  lemma BothGrouped(a: Option<seq<Dict>>, b: Option<seq<Dict>>, c: Option<seq<Dict>>)
    ensures Both(Both(a, b), c) == Both(a, Both(b, c))
  {
    if a.Some? && b.Some? && c.Some? {
      assert (a.value + b.value) + c.value == a.value + (b.value + c.value);
    }
  }

  predicate NamedRows(rows: seq<Dict>) {
    forall i | 0 <= i < |rows| :: Named(rows[i])
  }

  /**
   Any rows appended to any file.  If the file is appendable it then reads back as before with the decoded rows
   after it, in order; if it is not, it does not read back.
   */
  lemma ReadAppendedExactly(base: Text, rows: seq<Dict>)
    requires NamedRows(rows)
    ensures ReadRows(base + Frames(rows)) ==
            if rows == [] || Appendable(base) then Both(ReadRows(base), NormRows(rows)) else None
  {
    if rows == [] {
      assert base + [] == base;
      if ReadRows(base).Some? {
        assert ReadRows(base).value + [] == ReadRows(base).value;
      }
    } else {
      var k := |Frame(rows[0])|;
      assert Frame(rows[0])[..k] == Frame(rows[0]);
      FirstFrame(rows);
      Associative(base, Frame(rows[0]), Frames(rows[1..]));
      ReadWritten(base, rows[0], k);
      WrittenLastLine(base, rows[0], k);
      ReadAppended(base + Frame(rows[0]), rows[1..]);
      FirstNorm(rows);
      BothGrouped(ReadRows(base), OneRow(NormRow(rows[0])), NormRows(rows[1..]));
    }
  }
}
