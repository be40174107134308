/**
 Runs in which writes fail half way.  A run is told without its text, by a mark, and each step keeps the logger and its
 file where the mark says, whatever the payloads.
 */
module AuditTorn {
  import opened Options
  import opened PyText
  import opened Json
  import opened JsonRoundTrip
  import opened JsonTorn
  import opened AuditChain
  import opened AuditFile
  import opened AuditAppend
  import opened AuditRows
  import opened AuditReadBack
  import opened AuditLogger
  import opened AuditRuns

  /** A failing write stored all of its row but the line break. */
  predicate AllStored(rt: Runtime, steps: seq<Step>, i: nat)
    requires i < |steps| && steps[i].Torn?
  {
    steps[i].stored >= |Encode(Obj(NextRow(rt, Chain(rt, steps[..i]), steps[i])))|
  }

  predicate NothingAfter(steps: seq<Step>, i: nat) {
    forall j | i < j < |steps| :: !Writes(steps[j])
  }

  /** Every failing write that stored anything stored the whole row, and nothing was written after it. */
  predicate Survives(rt: Runtime, steps: seq<Step>) {
    forall i | 0 <= i < |steps| :: SurvivesAt(rt, steps, i)
  }

  predicate SurvivesAt(rt: Runtime, steps: seq<Step>, i: nat)
    requires i < |steps|
  {
    Tears(steps[i]) ==> AllStored(rt, steps, i) && NothingAfter(steps, i)
  }

  // ---------- a run told without its text ----------

  /** Where a run stands: whole rows, whole rows and one that lacks its line break, or an unreadable file. */
  datatype FileMark =
    | Whole(rows: seq<Dict>)
    | Unended(rows: seq<Dict>, last: Dict, counted: bool) // counted once a reopening has found it
    | Lost

  function Next(rt: Runtime, m: FileMark, step: Step): FileMark {
    match m
    case Whole(rows) =>
      if step.Append? then Whole(rows + [NextRow(rt, rows, step)])
      else if !Tears(step) then m
      else if step.stored >= |Encode(Obj(NextRow(rt, rows, step)))| then Unended(rows, NextRow(rt, rows, step), false)
      else Lost
    case Unended(rows, last, counted) =>
      if Writes(step) then Lost else if step.Reopen? then Unended(rows, last, true) else m
    case Lost => Lost
  }

  function Marked(rt: Runtime, steps: seq<Step>): FileMark {
    if steps == [] then Whole([]) else Next(rt, Marked(rt, steps[..|steps| - 1]), steps[|steps| - 1])
  }

  /** The rows that are in the file, with or without a last line break. */
  function StoredRows(m: FileMark): seq<Dict>
    requires !m.Lost?
  {
    match m
    case Whole(rows) => rows
    case Unended(rows, last, _) => rows + [last]
  }

  /** What the mark says of the rows. */
  predicate Sound(rt: Runtime, m: FileMark) {
    match m
    case Whole(rows) => Continues(rt, [], 0, rows)
    case Unended(rows, last, _) => Continues(rt, [], 0, rows + [last])
    case Lost => true
  }

  /** What it says of the logger. */
  predicate Agrees(p: Platform, s: LogState, m: FileMark) {
    match m
    case Whole(rows) => Holds(p.Rt(), s, rows)
    case Unended(rows, last, counted) =>
      && s.text == Frames(rows) + Encode(Obj(last))
      && s.previousHash == Tip(p.Rt(), if counted then rows + [last] else rows)
      && s.sequence == |rows| + if counted then 1 else 0
    case Lost => ReadRows(s.text).None? && s.text != []
  }

  lemma AppendedNamed(p: Platform, s: LogState, recordType: Text, payload: Dict, now: Text)
    ensures Named(AppendRow(p, s, recordType, payload, now))
  {
    LoggerRowIs(p.Rt(), s.sequence, now, recordType, s.previousHash, payload);
    RowNamed(AppendRow(p, s, recordType, payload, now));
  }

  // ---------- one step ----------

  lemma FramesAppendable(rows: seq<Dict>)
    ensures Appendable(Frames(rows)) && ReadRows(Frames(rows)) == NormRows(rows)
  {
    FramesEnded([], rows);
    assert [] + Frames(rows) == Frames(rows);
    ReadFrames(rows);
  }

  lemma LastDecoded(rows: seq<Dict>, last: Dict)
    ensures NormRows(rows + [last]) == Both(NormRows(rows), OneRow(NormRow(last)))
  {
    var all := rows + [last];
    assert all[..|rows|] == rows && all[|all| - 1] == last;
    NormRowsSnoc(all);
  }

  /** A whole row without its line break reads back as if it had one. */
  lemma UnendedReads(rows: seq<Dict>, last: Dict)
    requires Named(last)
    ensures ReadRows(Frames(rows) + Encode(Obj(last))) == NormRows(rows + [last])
    ensures !Appendable(Frames(rows) + Encode(Obj(last)))
  {
    var k := |Encode(Obj(last))|;
    assert Frame(last)[..k] == Encode(Obj(last));
    NamedStart(last);
    FramesAppendable(rows);
    ReadWritten(Frames(rows), last, k);
    WrittenAppendable(Frames(rows), last, k);
    LastDecoded(rows, last);
  }

  /** Whatever is written to a file that does not read back, it does not read back. */
  lemma LostStays(t: Text, row: Dict, k: nat)
    requires Named(row) && k <= |Frame(row)| && ReadRows(t).None?
    ensures ReadRows(Written(t, row, k)).None?
  {
    ReadWritten(t, row, k);
  }

  lemma UnappendableLost(t: Text, row: Dict, k: nat)
    requires Named(row) && 0 < k <= |Frame(row)| && !Appendable(t)
    ensures ReadRows(Written(t, row, k)).None? && Written(t, row, k) != []
  {
    ReadWritten(t, row, k);
  }

  lemma TornLost(t: Text, row: Dict, k: nat)
    requires Named(row) && 0 < k < |Encode(Obj(row))|
    ensures ReadRows(Written(t, row, k)).None? && Written(t, row, k) != []
  {
    ReadWritten(t, row, k);
  }

  lemma SoundNext(rt: Runtime, m: FileMark, step: Step)
    requires Sound(rt, m)
    ensures Sound(rt, Next(rt, m, step))
  {
    if m.Whole? && (step.Append? || step.Torn?) {
      NextContinues(rt, m.rows, step);
    }
  }

  lemma LastNamed(rt: Runtime, rows: seq<Dict>, last: Dict)
    requires Continues(rt, [], 0, rows + [last])
    ensures Named(last)
  {
    assert ContinuesAt(rt, [], 0, rows + [last], |rows|);
    RowNamed((rows + [last])[|rows|]);
  }

  /** What the file reads back, by the mark. */
  lemma MarkReads(p: Platform, s: LogState, m: FileMark)
    requires Sound(p.Rt(), m) && Agrees(p, s, m)
    ensures ReadRows(s.text) == if m.Lost? then None else NormRows(StoredRows(m))
    ensures m.Unended? ==> !Appendable(s.text)
    ensures s.text == [] <==> !m.Lost? && StoredRows(m) == []
  {
    match m
    case Whole(rows) =>
      FramesAppendable(rows);
    case Unended(rows, last, _) =>
      LastNamed(p.Rt(), rows, last);
      UnendedReads(rows, last);
      EncodeNonempty(Obj(last));
    case Lost =>
  }

  lemma AppendAgrees(p: Platform, s: LogState, m: FileMark, step: Step)
    requires Sound(p.Rt(), m) && Agrees(p, s, m) && step.Append?
    ensures Agrees(p, AfterAppend(p, s, step.recordType, step.payload, step.now), Next(p.Rt(), m, step))
  {
    var row := AppendRow(p, s, step.recordType, step.payload, step.now);
    AppendedNamed(p, s, step.recordType, step.payload, step.now);
    WholeWritten(s.text, row);
    match m
    case Whole(rows) => AppendHolds(p, s, rows, step.recordType, step.payload, step.now);
    case Unended(_, _, _) =>
      MarkReads(p, s, m);
      UnappendableLost(s.text, row, |Frame(row)|);
    case Lost => LostStays(s.text, row, |Frame(row)|);
  }

  lemma TornAgrees(p: Platform, s: LogState, m: FileMark, step: Step)
    requires Sound(p.Rt(), m) && Agrees(p, s, m) && step.Torn?
    ensures Agrees(p, After(p, s, step).value, Next(p.Rt(), m, step))
  {
    var row := AppendRow(p, s, step.recordType, step.payload, step.now);
    var k := Stored(row, step.stored);
    AppendedNamed(p, s, step.recordType, step.payload, step.now);
    EncodeNonempty(Obj(row));
    if step.stored == 0 {
      NothingTorn(p, s, step);
    } else if m.Lost? {
      LostStays(s.text, row, k);
    } else if m.Unended? {
      MarkReads(p, s, m);
      UnappendableLost(s.text, row, k);
    } else {
      assert row == NextRow(p.Rt(), m.rows, step);
      if k < |Encode(Obj(row))| {
        TornLost(s.text, row, k);
      } else {
        assert Frame(row)[..k] == Encode(Obj(row));
      }
    }
  }

  /** A reopening goes through: there are rows to read, and they decode and verify. */
  predicate Opens(p: Platform, m: FileMark) {
    !m.Lost? && Reopened(p, StoredRows(m)).Ready?
  }

  /** Reopening by the mark; a whole row without its line break is counted from then on. */
  lemma ReopenAgrees(p: Platform, s: LogState, m: FileMark)
    requires HexDigests(p) && Sound(p.Rt(), m) && Agrees(p, s, m)
    ensures After(p, s, Reopen).Some? <==> Opens(p, m)
    ensures Opens(p, m) ==> Agrees(p, After(p, s, Reopen).value, Next(p.Rt(), m, Reopen))
    ensures Opens(p, m) ==>
              After(p, s, Reopen).value == LogState(s.text, Tip(p.Rt(), StoredRows(m)), |StoredRows(m)|, false)
  {
    MarkReads(p, s, m);
    if Opens(p, m) {
      ReopenedState(p, StoredRows(m));
    }
  }

  lemma QuietAgrees(p: Platform, s: LogState, m: FileMark, step: Step)
    requires Agrees(p, s, m) && (step.Read? || step.Bind? || step.Unbind?)
    ensures After(p, s, step).Some? && Agrees(p, After(p, s, step).value, Next(p.Rt(), m, step))
  {
  }

  lemma StepAgrees(p: Platform, s: LogState, m: FileMark, step: Step)
    requires HexDigests(p) && Sound(p.Rt(), m) && Agrees(p, s, m)
    ensures After(p, s, step).Some? <==> (step.Reopen? ==> Opens(p, m))
    ensures After(p, s, step).Some? ==> Agrees(p, After(p, s, step).value, Next(p.Rt(), m, step))
  {
    match step
    case Append(_, _, _) => AppendAgrees(p, s, m, step);
    case Torn(_, _, _, _) => TornAgrees(p, s, m, step);
    case Reopen => ReopenAgrees(p, s, m);
    case _ => QuietAgrees(p, s, m, step);
  }

  // ---------- runs ----------

  /** No reopening among the steps that the mark before it refuses. */
  predicate AllOpen(p: Platform, steps: seq<Step>) {
    forall i | 0 <= i < |steps| :: OpenAt(p, steps, i)
  }

  predicate OpenAt(p: Platform, steps: seq<Step>, i: nat)
    requires i < |steps|
  {
    steps[i].Reopen? ==> Opens(p, Marked(p.Rt(), steps[..i]))
  }

  lemma AllOpenSnoc(p: Platform, steps: seq<Step>)
    requires steps != []
    ensures var n := |steps| - 1; AllOpen(p, steps) <==> AllOpen(p, steps[..n]) && OpenAt(p, steps, n)
  {
    var n := |steps| - 1;
    var init := steps[..n];
    forall i | 0 <= i < n ensures OpenAt(p, steps, i) <==> OpenAt(p, init, i) {
      assert init[..i] == steps[..i] && init[i] == steps[i];
    }
    if AllOpen(p, steps) {
      forall i | 0 <= i < n ensures OpenAt(p, init, i) {
        assert OpenAt(p, steps, i);
      }
    }
  }

  lemma {:induction false} MarkSound(rt: Runtime, steps: seq<Step>)
    ensures Sound(rt, Marked(rt, steps))
  {
    if steps != [] {
      MarkSound(rt, steps[..|steps| - 1]);
      SoundNext(rt, Marked(rt, steps[..|steps| - 1]), steps[|steps| - 1]);
    }
  }

  /** Every run is where its mark says, as far as its reopenings go through. */
  lemma {:induction false} RunAgrees(p: Platform, steps: seq<Step>)
    requires HexDigests(p)
    ensures Run(p, steps).Some? <==> AllOpen(p, steps)
    ensures Run(p, steps).Some? ==> Agrees(p, Run(p, steps).value, Marked(p.Rt(), steps))
  {
    if steps != [] {
      var n := |steps| - 1;
      RunAgrees(p, steps[..n]);
      AllOpenSnoc(p, steps);
      MarkSound(p.Rt(), steps[..n]);
      if Run(p, steps[..n]).Some? {
        StepAgrees(p, Run(p, steps[..n]).value, Marked(p.Rt(), steps[..n]), steps[n]);
      }
    }
  }

  // ---------- the mark in terms of the steps ----------

  lemma NothingAfterSnoc(steps: seq<Step>, i: nat)
    requires i + 1 < |steps|
    ensures var n := |steps| - 1; NothingAfter(steps, i) <==> NothingAfter(steps[..n], i) && !Writes(steps[n])
  {
    var n := |steps| - 1;
    assert forall j | 0 <= j < n :: steps[..n][j] == steps[j];
  }

  lemma SurvivesAtSnoc(rt: Runtime, steps: seq<Step>, i: nat)
    requires i + 1 < |steps|
    ensures var n := |steps| - 1;
            SurvivesAt(rt, steps, i) <==> SurvivesAt(rt, steps[..n], i) && (Tears(steps[i]) ==> !Writes(steps[n]))
  {
    var n := |steps| - 1;
    assert steps[..n][..i] == steps[..i] && steps[..n][i] == steps[i];
    NothingAfterSnoc(steps, i);
  }

  /** One more step: a write needs whole lines before it. */
  lemma SurvivesSnoc(rt: Runtime, steps: seq<Step>)
    requires steps != []
    ensures var n := |steps| - 1;
            Survives(rt, steps) <==>
            && Survives(rt, steps[..n])
            && (Writes(steps[n]) ==> Clean(steps[..n]))
            && (Tears(steps[n]) ==> AllStored(rt, steps, n))
  {
    var n := |steps| - 1;
    var init := steps[..n];
    forall i | 0 <= i < n
      ensures SurvivesAt(rt, steps, i) <==> SurvivesAt(rt, init, i) && (Tears(init[i]) ==> !Writes(steps[n]))
    {
      SurvivesAtSnoc(rt, steps, i);
    }
    assert SurvivesAt(rt, steps, n) <==> (Tears(steps[n]) ==> AllStored(rt, steps, n));
    if Survives(rt, steps) {
      forall i | 0 <= i < n ensures SurvivesAt(rt, init, i) && (Writes(steps[n]) ==> !Tears(init[i])) {
        assert SurvivesAt(rt, steps, i);
      }
    }
  }

  lemma {:induction false} MarkedExactly(rt: Runtime, steps: seq<Step>)
    ensures Marked(rt, steps).Lost? <==> !Survives(rt, steps)
    ensures Marked(rt, steps).Whole? <==> Clean(steps)
    ensures Clean(steps) ==> Marked(rt, steps) == Whole(Chain(rt, steps))
    ensures Survives(rt, steps) ==> StoredRows(Marked(rt, steps)) == Held(rt, steps)
  {
    if steps != [] {
      var n := |steps| - 1;
      MarkedExactly(rt, steps[..n]);
      SurvivesSnoc(rt, steps);
      CleanSnoc(steps);
    }
  }
}
