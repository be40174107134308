/**
 What every run comes to, whatever its payloads and however often it fails or reopens: exactly which reopenings go
 through, what the file reads back, and where the logger stands.
 */
module AuditOutcomes {
  import opened Options
  import opened PyText
  import opened Json
  import opened JsonStrings
  import opened JsonRoundTrip
  import opened AuditChain
  import opened AuditFile
  import opened AuditRows
  import opened AuditReadBack
  import opened AuditLogger
  import opened AuditRuns
  import opened AuditTorn

  /** The file of a run can be read line by line, and the rows written decode and verify. */
  predicate Reopens(p: Platform, steps: seq<Step>) {
    Survives(p.Rt(), steps) && Reopened(p, Held(p.Rt(), steps)).Ready?
  }

  lemma OpensExactly(p: Platform, steps: seq<Step>)
    ensures Opens(p, Marked(p.Rt(), steps)) <==> Reopens(p, steps)
  {
    MarkedExactly(p.Rt(), steps);
  }

  /**
   Every run.  It goes through exactly when each reopening in it finds whole lines whose rows decode and verify.  Its
   file then reads back as the decoded rows of all it wrote, or not at all if a failing write has left part of a row
   that is incomplete or was written after; and without such writes text, tip and number are those of its chain.
   */
  lemma EveryRun(p: Platform, steps: seq<Step>)
    requires HexDigests(p)
    ensures Run(p, steps).Some? <==> forall i | 0 <= i < |steps| :: steps[i].Reopen? ==> Reopens(p, steps[..i])
    ensures Run(p, steps).Some? ==>
              && ReadRows(Run(p, steps).value.text)
                 == (if Survives(p.Rt(), steps) then NormRows(Held(p.Rt(), steps)) else None)
              && (Clean(steps) ==> Holds(p.Rt(), Run(p, steps).value, Chain(p.Rt(), steps)))
  {
    RunAgrees(p, steps);
    forall i | 0 <= i < |steps|
      ensures OpenAt(p, steps, i) <==> (steps[i].Reopen? ==> Reopens(p, steps[..i]))
    {
      OpensExactly(p, steps[..i]);
    }
    if Run(p, steps).Some? {
      MarkSound(p.Rt(), steps);
      MarkedExactly(p.Rt(), steps);
      MarkReads(p, Run(p, steps).value, Marked(p.Rt(), steps));
    }
  }

  /** Short of a collision it is the payloads written that decide. */
  lemma ReopensExactly(p: Platform, steps: seq<Step>)
    requires HexDigests(p)
    ensures Survives(p.Rt(), steps) && StableWritten(steps) ==> Reopens(p, steps)
    ensures Reopens(p, steps) ==>
              Survives(p.Rt(), steps) && (StableWritten(steps) || Coincides(p, Held(p.Rt(), steps)))
  {
    HeldContinues(p.Rt(), steps);
    ReopenedExactly(p, Held(p.Rt(), steps));
  }

  /** The rows a run held, as its file reads them back. */
  predicate ReadsBackAs(p: Platform, steps: seq<Step>, found: seq<Dict>) {
    var rows := Held(p.Rt(), steps);
    && |found| == |rows|
    && Tip(p.Rt(), found) == Tip(p.Rt(), rows)
    && (forall i | 0 <= i < |found| :: Get(found[i], SEQUENCE) == Int(i))
    && (StableWritten(steps) ==> Errors(p.Rt(), found) == [])
    && (Errors(p.Rt(), found) == [] ==> StableWritten(steps) || ReadBackCollides(p, rows, found))
  }

  lemma NumberedBack(back: seq<Dict>)
    requires forall i | 0 <= i < |back| :: Get(back[i], SEQUENCE) == Int(0 + i)
    ensures forall i | 0 <= i < |back| :: Get(back[i], SEQUENCE) == Int(i)
  {
  }

  lemma KeptAlone(p: Platform, rows: seq<Dict>)
    requires HexDigests(p) && Continues(p.Rt(), [], 0, rows) && NormRows(rows).Some?
    ensures var back := NormRows(rows).value;
            && |back| == |rows|
            && Tip(p.Rt(), back) == Tip(p.Rt(), rows)
            && (forall i | 0 <= i < |back| :: Get(back[i], SEQUENCE) == Int(i))
            && (AllStable(rows) ==> Errors(p.Rt(), back) == [])
            && (Errors(p.Rt(), back) == [] ==> AllStable(rows) || ReadBackCollides(p, rows, back))
  {
    var back := NormRows(rows).value;
    AppendedKept(p, [], 0, rows);
    EmptyBase(rows);
    EmptyBase(back);
    NumberedBack(back);
  }

  lemma HeldReadsBack(p: Platform, steps: seq<Step>)
    requires HexDigests(p)
    ensures StableWritten(steps) ==> NormRows(Held(p.Rt(), steps)).Some?
    ensures NormRows(Held(p.Rt(), steps)).Some? ==> ReadsBackAs(p, steps, NormRows(Held(p.Rt(), steps)).value)
  {
    var rows := Held(p.Rt(), steps);
    HeldContinues(p.Rt(), steps);
    if StableWritten(steps) {
      AllStableAccepted(p, [], 0, rows);
    }
    if NormRows(rows).Some? {
      KeptAlone(p, rows);
    }
  }

  /** A reopening after these steps must go through. */
  predicate Sure(rt: Runtime, steps: seq<Step>) {
    Survives(rt, steps) && StableWritten(steps)
  }

  /** A reopening after these steps may go through: if that is not sure, then only as some row collides. */
  predicate Possible(p: Platform, steps: seq<Step>) {
    && Survives(p.Rt(), steps)
    && DecodableWritten(steps)
    && (StableWritten(steps) || Coincides(p, Held(p.Rt(), steps)))
  }

  lemma ReopensByPayloads(p: Platform, steps: seq<Step>)
    requires HexDigests(p)
    ensures Sure(p.Rt(), steps) ==> Reopens(p, steps)
    ensures Reopens(p, steps) ==> Possible(p, steps)
  {
    ReopensExactly(p, steps);
    HeldDecodes(p.Rt(), steps);
    if Reopens(p, steps) && Held(p.Rt(), steps) == [] {
      assert NormRows([]) == Some([]);
    }
  }

  /**
   The same by the payloads alone.  A run goes through if at each reopening the failing writes before it had stored
   nothing, or a whole row with nothing written since, and every payload written was key-stable; if at some reopening
   that is not so it does not, unless there a row decodes and collides with its decoded form.  At the end the file reads
   back exactly if the failing writes left it whole in that sense and every payload written decodes, and then as the
   rows written, with their tip and numbers; they verify exactly under the conditions of a reopening.
   */
  lemma SurvivalExactly(p: Platform, steps: seq<Step>)
    requires HexDigests(p)
    ensures (forall i | 0 <= i < |steps| :: steps[i].Reopen? ==> Sure(p.Rt(), steps[..i])) ==> Run(p, steps).Some?
    ensures Run(p, steps).Some? ==> forall i | 0 <= i < |steps| :: steps[i].Reopen? ==> Possible(p, steps[..i])
    ensures Run(p, steps).Some? ==>
              var found := ReadRows(Run(p, steps).value.text);
              && (found.Some? <==> Survives(p.Rt(), steps) && DecodableWritten(steps))
              && (found.Some? ==> ReadsBackAs(p, steps, found.value))
  {
    EveryRun(p, steps);
    forall i | 0 <= i < |steps|
      ensures Sure(p.Rt(), steps[..i]) ==> Reopens(p, steps[..i])
      ensures Reopens(p, steps[..i]) ==> Possible(p, steps[..i])
    {
      ReopensByPayloads(p, steps[..i]);
    }
    HeldReadsBack(p, steps);
    HeldDecodes(p.Rt(), steps);
  }

  // ---------- what the rows of a run say ----------

  /** The steps that left something of a row, in order. */
  function Writers(steps: seq<Step>): seq<Step> {
    if steps == [] then []
    else Writers(steps[..|steps| - 1]) + if Writes(steps[|steps| - 1]) then [steps[|steps| - 1]] else []
  }

  /** Row i is the i-th such step's: its number, time, type and payload. */
  predicate HeldSays(p: Platform, rows: seq<Dict>, steps: seq<Step>, i: nat)
    requires i < |rows| && i < |Writers(steps)|
  {
    var step := Writers(steps)[i];
    && Writes(step)
    && RowSays(p, rows[i], i, step.now, step.recordType, Tip(p.Rt(), rows[..i]), step.payload)
  }

  lemma {:induction false} HeldSayAll(p: Platform, steps: seq<Step>)
    ensures |Held(p.Rt(), steps)| == |Writers(steps)|
    ensures forall i | 0 <= i < |Held(p.Rt(), steps)| :: HeldSays(p, Held(p.Rt(), steps), steps, i)
  {
    if steps != [] {
      var n := |steps| - 1;
      var before, rows := Held(p.Rt(), steps[..n]), Held(p.Rt(), steps);
      HeldSayAll(p, steps[..n]);
      forall i | 0 <= i < |rows| ensures HeldSays(p, rows, steps, i) {
        if i < |before| {
          assert rows[..i] == before[..i] && HeldSays(p, before, steps[..n], i);
        } else {
          assert rows[..i] == before;
          LoggerRowSays(p, i, steps[n].now, steps[n].recordType, Tip(p.Rt(), before), steps[n].payload);
        }
      }
    }
  }

  /** A row read back, from the step that wrote it: surrogate pairs in time, type and payload come back merged. */
  predicate FoundSays(row: Dict, number: nat, step: Step) {
    && Writes(step)
    && Get(row, Lit("sequence")) == Int(number)
    && Get(row, Lit("recorded_at")) == Str(Merge(step.now))
    && Get(row, Lit("record_type")) == Str(Merge(step.recordType))
    && Norm(Obj(step.payload)) == Some(Get(row, Lit("payload")))
  }

  lemma SaidDecodes(p: Platform, row: Dict, number: nat, step: Step, previous: Text)
    requires Writes(step) && NormRow(row).Some?
    requires RowSays(p, row, number, step.now, step.recordType, previous, step.payload)
    ensures FoundSays(NormRow(row).value, number, step)
  {
    KeysDistinct();
    assert PlainRow(row);
    PlainRowDecodes(row);
  }

  /** Each row that any run leaves in a file that reads back is that of the step that wrote it, in order. */
  lemma RunTellsItsSteps(p: Platform, steps: seq<Step>)
    requires HexDigests(p) && Run(p, steps).Some? && ReadRows(Run(p, steps).value.text).Some?
    ensures var found := ReadRows(Run(p, steps).value.text).value;
            && |found| == |Writers(steps)|
            && forall i | 0 <= i < |found| :: FoundSays(found[i], i, Writers(steps)[i])
  {
    var rows := Held(p.Rt(), steps);
    EveryRun(p, steps);
    HeldSayAll(p, steps);
    NormRowsAt(rows);
    forall i | 0 <= i < |rows| ensures FoundSays(NormRows(rows).value[i], i, Writers(steps)[i]) {
      assert HeldSays(p, rows, steps, i);
      SaidDecodes(p, rows[i], i, Writers(steps)[i], Tip(p.Rt(), rows[..i]));
    }
  }

  // ---------- what follows for particular runs ----------

  /** One more reopening: exactly when it goes through, and where the logger then stands. */
  lemma ReopenExactly(p: Platform, steps: seq<Step>)
    requires HexDigests(p) && Run(p, steps).Some?
    ensures var s := Run(p, steps).value;
            var reopened := After(p, s, Reopen);
            var rows := Held(p.Rt(), steps);
            && (reopened.Some? <==> Reopens(p, steps))
            && (Sure(p.Rt(), steps) ==> reopened.Some?)
            && (reopened.Some? ==> Possible(p, steps))
            && (reopened.Some? ==> reopened.value == LogState(s.text, Tip(p.Rt(), rows), |rows|, false))
  {
    RunAgrees(p, steps);
    MarkSound(p.Rt(), steps);
    MarkedExactly(p.Rt(), steps);
    ReopenAgrees(p, Run(p, steps).value, Marked(p.Rt(), steps));
    ReopensByPayloads(p, steps);
  }

  lemma {:induction false} CleanSurvives(rt: Runtime, steps: seq<Step>, i: nat)
    requires Clean(steps) && i <= |steps|
    ensures Clean(steps[..i]) && Survives(rt, steps[..i])
  {
    forall j | 0 <= j < i ensures SurvivesAt(rt, steps[..i], j) && !Tears(steps[..i][j]) {
      assert steps[..i][j] == steps[j];
    }
  }

  /** The chain invariant: payloads matter only as far as some later reopening reads them. */
  lemma RunKeepsChain(p: Platform, steps: seq<Step>)
    requires HexDigests(p) && Clean(steps)
    requires forall i | 0 <= i < |steps| :: steps[i].Reopen? ==> StableWritten(steps[..i])
    ensures Run(p, steps).Some? && Holds(p.Rt(), Run(p, steps).value, Chain(p.Rt(), steps))
  {
    forall i | 0 <= i < |steps| ensures Survives(p.Rt(), steps[..i]) {
      CleanSurvives(p.Rt(), steps, i);
    }
    SurvivalExactly(p, steps);
    EveryRun(p, steps);
  }

  lemma {:induction false} PrefixSurvives(rt: Runtime, steps: seq<Step>, i: nat)
    requires Survives(rt, steps) && StableWritten(steps) && i <= |steps|
    ensures Survives(rt, steps[..i]) && StableWritten(steps[..i])
  {
    if i == |steps| {
      assert steps[..i] == steps;
    } else {
      var init := steps[..|steps| - 1];
      SurvivesSnoc(rt, steps);
      StableSnoc(steps);
      PrefixSurvives(rt, init, i);
      assert init[..i] == steps[..i];
    }
  }

  /**
   A run of key-stable payloads whose failing writes did no harm goes through, and its file reads back without errors,
   numbered from zero; unless the last row lacks its line break, with the number and the tip held in memory.
   */
  lemma RunReadsBack(p: Platform, steps: seq<Step>)
    requires HexDigests(p) && StableWritten(steps) && Survives(p.Rt(), steps)
    ensures Run(p, steps).Some? && ReadRows(Run(p, steps).value.text).Some?
    ensures var s, found := Run(p, steps).value, ReadRows(Run(p, steps).value.text).value;
            && Errors(p.Rt(), found) == []
            && (forall i | 0 <= i < |found| :: Get(found[i], SEQUENCE) == Int(i))
            && |found| == |Held(p.Rt(), steps)| && Tip(p.Rt(), found) == Tip(p.Rt(), Held(p.Rt(), steps))
            && (Clean(steps) ==> |found| == s.sequence && Tip(p.Rt(), found) == s.previousHash)
  {
    forall i | 0 <= i < |steps| ensures Survives(p.Rt(), steps[..i]) && StableWritten(steps[..i]) {
      PrefixSurvives(p.Rt(), steps, i);
    }
    SurvivalExactly(p, steps);
    EveryRun(p, steps);
    HeldReadsBack(p, steps);
    if Clean(steps) {
      HeldClean(p.Rt(), steps);
    }
  }

  /** Without surrogate pairs no reopening of such a run is refused, and the file reads back as the rows written. */
  lemma PairFreeRun(p: Platform, steps: seq<Step>)
    requires HexDigests(p) && PairFreeSteps(steps) && Survives(p.Rt(), steps)
    ensures Run(p, steps).Some? && ReadRows(Run(p, steps).value.text) == Some(Held(p.Rt(), steps))
  {
    PairFreePayloads(steps);
    RunReadsBack(p, steps);
    EveryRun(p, steps);
    HeldPairFree(p, steps);
    NormRowsExactly(Held(p.Rt(), steps));
  }

  // ---------- logs that refuse to reopen ----------

  /** Two names that join to one, the second of them the supplementary character the first spells out. */
  const COINCIDING: Dict := map[[0xD800, 0xDC00] := Null, [0x10000] := Null]

  /** Two names of which the first sorts before the second, and after it once joined. */
  const REORDERED: Dict := map[[0xD800, 0xDC00] := Null, [0xE000] := Null]

  lemma PairJoined()
    ensures Merge([0xD800, 0xDC00]) == [0x10000] == Merge([0x10000])
  {
    var pair: Text := [0xD800, 0xDC00];
    assert pair[2..] == [];
  }

  /** An append that is accepted, and makes the next reopening refuse the file, whatever the digest. */
  lemma CoincidingRefused(p: Platform, recordType: Text, now: Text)
    requires HexDigests(p)
    ensures Run(p, [Append(recordType, COINCIDING, now)]).Some?
    ensures Run(p, [Append(recordType, COINCIDING, now), Reopen]) == None
  {
    var step := Append(recordType, COINCIDING, now);
    var steps := [step, Reopen];
    var pair: Text := [0xD800, 0xDC00];
    PairJoined();
    assert pair in COINCIDING.Keys && [0x10000] in COINCIDING.Keys;
    assert !DecodableStep(steps[..1][0]);
    assert !Possible(p, steps[..1]);
    SurvivalExactly(p, steps);
    SurvivalExactly(p, [step]);
  }

  /** Another that is refused unless the row collides with its decoded form. */
  lemma ReorderedRefused(p: Platform, recordType: Text, now: Text)
    requires HexDigests(p)
    ensures Run(p, [Append(recordType, REORDERED, now)]).Some?
    ensures var steps := [Append(recordType, REORDERED, now)];
            Run(p, steps + [Reopen]).Some? ==> Coincides(p, Held(p.Rt(), steps))
  {
    var steps := [Append(recordType, REORDERED, now)];
    var more := steps + [Reopen];
    UnstablePayload();
    assert more[..1] == steps && more[1].Reopen?;
    assert !StableStep(steps[0]);
    SurvivalExactly(p, more);
    SurvivalExactly(p, steps);
  }

  // ---------- one failing write ----------

  /**
   What a reopening makes of a failing write after whole rows: nothing of it, or the row appended, or a refusal; the
   rows there are must decode and verify as ever.
   */
  function TornReopened(p: Platform, s: LogState, rows: seq<Dict>, torn: Step): Option<LogState>
    requires torn.Torn?
  {
    var row := AppendRow(p, s, torn.recordType, torn.payload, torn.now);
    if torn.stored == 0 then
      if Reopened(p, rows).Ready? then Some(s.(bound := false)) else None
    else if torn.stored >= |Encode(Obj(row))| && Reopened(p, rows + [row]).Ready? then
      Some(LogState(s.text + Encode(Obj(row)), PyStr(p.Rt(), Claimed(row)), s.sequence + 1, false))
    else None
  }

  lemma MarkReopened(p: Platform, s: LogState, rows: seq<Dict>, torn: Step)
    requires HexDigests(p) && Continues(p.Rt(), [], 0, rows) && Holds(p.Rt(), s, rows) && torn.Torn?
    ensures After(p, After(p, s, torn).value, Reopen) == TornReopened(p, s, rows, torn)
  {
    var m := Next(p.Rt(), Whole(rows), torn);
    TornAgrees(p, s, Whole(rows), torn);
    SoundNext(p.Rt(), Whole(rows), torn);
    ReopenAgrees(p, After(p, s, torn).value, m);
    if torn.stored == 0 {
      NothingTorn(p, s, torn);
    }
  }

  /** One failing write of any part of a row, after any run without such writes. */
  lemma TornThenReopened(p: Platform, steps: seq<Step>, torn: Step)
    requires HexDigests(p) && Run(p, steps).Some? && Clean(steps) && torn.Torn?
    ensures var s := Run(p, steps).value;
            After(p, After(p, s, torn).value, Reopen) == TornReopened(p, s, Chain(p.Rt(), steps), torn)
  {
    EveryRun(p, steps);
    ChainContinues(p.Rt(), steps);
    MarkReopened(p, Run(p, steps).value, Chain(p.Rt(), steps), torn);
  }

  lemma MarkAppended(p: Platform, s: LogState, m: FileMark, next: Step)
    requires HexDigests(p) && Sound(p.Rt(), m) && Agrees(p, s, m) && !m.Whole? && next.Append?
    ensures ReadRows(After(p, s, next).value.text) == None
  {
    StepAgrees(p, s, m, next);
  }

  lemma TornAppended(p: Platform, s: LogState, rows: seq<Dict>, torn: Step, next: Step)
    requires HexDigests(p) && Continues(p.Rt(), [], 0, rows) && Holds(p.Rt(), s, rows)
    requires torn.Torn? && torn.stored > 0 && next.Append?
    ensures var left := After(p, s, torn).value;
            && ReadRows(After(p, left, next).value.text) == None
            && (After(p, left, Reopen).Some? ==>
                  ReadRows(After(p, After(p, left, Reopen).value, next).value.text) == None)
  {
    var left, m := After(p, s, torn).value, Next(p.Rt(), Whole(rows), torn);
    TornAgrees(p, s, Whole(rows), torn);
    SoundNext(p.Rt(), Whole(rows), torn);
    MarkAppended(p, left, m, next);
    ReopenAgrees(p, left, m);
    if After(p, left, Reopen).Some? {
      SoundNext(p.Rt(), m, Reopen);
      MarkAppended(p, After(p, left, Reopen).value, Next(p.Rt(), m, Reopen), next);
    }
  }

  /**
   The next append, reopened before it or not, leaves a file that does not read back if anything of the failing write
   was stored, and the file it would have left anyway if nothing was.
   */
  lemma TornThenAppended(p: Platform, steps: seq<Step>, torn: Step, next: Step)
    requires HexDigests(p) && Run(p, steps).Some? && Clean(steps) && torn.Torn? && next.Append?
    ensures var s := Run(p, steps).value;
            var left := After(p, s, torn).value;
            var reading := if torn.stored == 0 then ReadRows(After(p, s, next).value.text) else None;
            && ReadRows(After(p, left, next).value.text) == reading
            && (After(p, left, Reopen).Some? ==>
                  ReadRows(After(p, After(p, left, Reopen).value, next).value.text) == reading)
  {
    var s := Run(p, steps).value;
    EveryRun(p, steps);
    ChainContinues(p.Rt(), steps);
    if torn.stored == 0 {
      NothingTorn(p, s, torn);
      MarkReopened(p, s, Chain(p.Rt(), steps), torn);
    } else {
      TornAppended(p, s, Chain(p.Rt(), steps), torn, next);
    }
  }
}
