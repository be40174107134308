/**
 Runs of appends, failing writes, reads, descriptor binding and reopening on one path, and what they are to leave: the
 one chain that numbering from zero and linking each row to the last defines.
 */
module AuditRuns {
  import opened Options
  import opened PyText
  import opened Json
  import opened JsonStrings
  import opened JsonCanonical
  import opened JsonDecodable
  import opened AuditChain
  import opened AuditFile
  import opened AuditAppend
  import opened AuditRows
  import opened AuditReadBack
  import opened AuditLogger

  datatype Step =
    | Append(recordType: Text, payload: Dict, now: Text)            // returned, or durability ambiguous
    | Torn(recordType: Text, payload: Dict, now: Text, stored: nat) // raised with so much of the row's text stored
    | Read
    | Bind
    | Unbind
    | Reopen

  /** How much of a row's line a failing write stores: at most all but its line break. */
  function Stored(row: Dict, stored: nat): (k: nat)
    ensures k < |Frame(row)|
  {
    Smaller(stored, |Encode(Obj(row))|)
  }

  /** One step; none when a reopening refuses the file. */
  function After(p: Platform, s: LogState, step: Step): Option<LogState> {
    match step
    case Append(recordType, payload, now) => Some(AfterAppend(p, s, recordType, payload, now))
    case Torn(recordType, payload, now, stored) =>
      var row := AppendRow(p, s, recordType, payload, now);
      Some(s.(text := Written(s.text, row, Stored(row, stored))))
    case Read => Some(s)
    case Bind => Some(s.(bound := true))
    case Unbind => Some(s.(bound := false))
    case Reopen =>
      match Opened(p.Rt(), s.text == [], ReadRows(s.text))
      case Ready(previousHash, sequence, _) => Some(LogState(s.text, previousHash, sequence, false))
      case _ => None
  }

  const NEW_LOG := LogState([], GENESIS, 0, false)

  function Run(p: Platform, steps: seq<Step>): Option<LogState> {
    if steps == [] then Some(NEW_LOG)
    else
      match Run(p, steps[..|steps| - 1])
      case None => None
      case Some(s) => After(p, s, steps[|steps| - 1])
  }

  /** The next row of a chain: numbered by how many came before and linked to the last. */
  function NextRow(rt: Runtime, rows: seq<Dict>, step: Step): Dict
    requires step.Append? || step.Torn?
  {
    LoggerRow(rt, |rows|, step.now, step.recordType, Tip(rt, rows), step.payload)
  }

  function Extended(rt: Runtime, rows: seq<Dict>, step: Step): seq<Dict> {
    if step.Append? then rows + [NextRow(rt, rows, step)] else rows
  }

  /** The rows the run's appends stand for. */
  function Chain(rt: Runtime, steps: seq<Step>): seq<Dict> {
    if steps == [] then [] else Extended(rt, Chain(rt, steps[..|steps| - 1]), steps[|steps| - 1])
  }

  /** A write that failed but left part of its row in the file. */
  predicate Tears(step: Step) {
    step.Torn? && step.stored > 0
  }

  predicate Clean(steps: seq<Step>) {
    forall i | 0 <= i < |steps| :: !Tears(steps[i])
  }

  lemma NothingWritten(t: Text, row: Dict)
    ensures Written(t, row, Stored(row, 0)) == t
  {
  }

  lemma NothingTorn(p: Platform, s: LogState, step: Step)
    requires step.Torn? && step.stored == 0
    ensures After(p, s, step) == Some(s)
  {
    NothingWritten(s.text, AppendRow(p, s, step.recordType, step.payload, step.now));
  }

  /** A step that leaves something of a row in the file. */
  predicate Writes(step: Step) {
    step.Append? || Tears(step)
  }

  /** The rows of every step that wrote something, as if each had been stored whole. */
  function Held(rt: Runtime, steps: seq<Step>): seq<Dict> {
    if steps == [] then []
    else
      var rows := Held(rt, steps[..|steps| - 1]);
      if Writes(steps[|steps| - 1]) then rows + [NextRow(rt, rows, steps[|steps| - 1])] else rows
  }

  /** Every payload something of which was written keeps its keys in decoding. */
  predicate StableWritten(steps: seq<Step>) {
    forall i | 0 <= i < |steps| :: StableStep(steps[i])
  }

  predicate StableStep(step: Step) {
    Writes(step) ==> KeyStable(Obj(step.payload))
  }

  lemma NextContinues(rt: Runtime, rows: seq<Dict>, step: Step)
    requires (step.Append? || step.Torn?) && Continues(rt, [], 0, rows)
    ensures Continues(rt, [], 0, rows + [NextRow(rt, rows, step)])
    ensures NextRow(rt, rows, step).Keys == ROW_KEYS
    ensures AllStable(rows + [NextRow(rt, rows, step)]) <==> AllStable(rows) && KeyStable(Obj(step.payload))
  {
    var row := NextRow(rt, rows, step);
    LoggerRowIs(rt, |rows|, step.now, step.recordType, Tip(rt, rows), step.payload);
    EmptyBase(rows);
    ContinuesSnoc(rt, [], 0, rows, row);
    StableMore(rows, row);
  }

  lemma StableMore(rows: seq<Dict>, row: Dict)
    ensures AllStable(rows + [row]) <==> AllStable(rows) && KeyStable(Get(row, PAYLOAD))
  {
    var more := rows + [row];
    assert more[|rows|] == row;
    assert StableAt(more, |rows|) <==> KeyStable(Get(row, PAYLOAD));
    assert forall i | 0 <= i < |rows| :: StableAt(more, i) <==> StableAt(rows, i);
    if AllStable(more) {
      forall i | 0 <= i < |rows| ensures StableAt(rows, i) {
        assert StableAt(more, i);
      }
    }
  }

  /** The chain is what a logger may write. */
  lemma {:induction false} ChainContinues(rt: Runtime, steps: seq<Step>)
    ensures Continues(rt, [], 0, Chain(rt, steps))
  {
    if steps != [] {
      var n := |steps| - 1;
      ChainContinues(rt, steps[..n]);
      if steps[n].Append? {
        NextContinues(rt, Chain(rt, steps[..n]), steps[n]);
      }
    }
  }

  lemma StableSnoc(steps: seq<Step>)
    requires steps != []
    ensures StableWritten(steps) <==> StableWritten(steps[..|steps| - 1]) && StableStep(steps[|steps| - 1])
  {
    var init := steps[..|steps| - 1];
    assert forall i | 0 <= i < |init| :: init[i] == steps[i];
  }

  /** So are the rows held, and their payloads are those written. */
  lemma {:induction false} HeldContinues(rt: Runtime, steps: seq<Step>)
    ensures Continues(rt, [], 0, Held(rt, steps))
    ensures AllStable(Held(rt, steps)) <==> StableWritten(steps)
  {
    if steps != [] {
      var n := |steps| - 1;
      HeldContinues(rt, steps[..n]);
      StableSnoc(steps);
      if Writes(steps[n]) {
        NextContinues(rt, Held(rt, steps[..n]), steps[n]);
      }
    }
  }

  /** No payload something of which was written has names that join to one. */
  predicate DecodableWritten(steps: seq<Step>) {
    forall i | 0 <= i < |steps| :: DecodableStep(steps[i])
  }

  predicate DecodableStep(step: Step) {
    Writes(step) ==> NamesApart(Obj(step.payload))
  }

  lemma NextDecodes(rt: Runtime, rows: seq<Dict>, step: Step)
    requires step.Append? || step.Torn?
    ensures NormRow(NextRow(rt, rows, step)).Some? <==> NamesApart(Obj(step.payload))
  {
    var row := NextRow(rt, rows, step);
    LoggerRowIs(rt, |rows|, step.now, step.recordType, Tip(rt, rows), step.payload);
    LoggerRowPlain(rt, row, |rows|, Tip(rt, rows));
    PlainRowDecodes(row);
    NormExactly(Obj(step.payload));
  }

  lemma DecodableSnoc(steps: seq<Step>)
    requires steps != []
    ensures DecodableWritten(steps) <==>
            DecodableWritten(steps[..|steps| - 1]) && DecodableStep(steps[|steps| - 1])
  {
    var init := steps[..|steps| - 1];
    assert forall i | 0 <= i < |init| :: init[i] == steps[i];
  }

  /** The rows held decode exactly then. */
  lemma {:induction false} HeldDecodes(rt: Runtime, steps: seq<Step>)
    ensures NormRows(Held(rt, steps)).Some? <==> DecodableWritten(steps)
  {
    if steps != [] {
      var n := |steps| - 1;
      HeldDecodes(rt, steps[..n]);
      DecodableSnoc(steps);
      if Writes(steps[n]) {
        var rows := Held(rt, steps[..n]);
        NextDecodes(rt, rows, steps[n]);
        assert Held(rt, steps)[..|rows|] == rows;
        NormRowsSnoc(Held(rt, steps));
      }
    }
  }

  lemma CleanSnoc(steps: seq<Step>)
    requires steps != []
    ensures Clean(steps) <==> Clean(steps[..|steps| - 1]) && !Tears(steps[|steps| - 1])
  {
    var init := steps[..|steps| - 1];
    assert forall i | 0 <= i < |init| :: init[i] == steps[i];
  }

  lemma {:induction false} HeldClean(rt: Runtime, steps: seq<Step>)
    requires Clean(steps)
    ensures Held(rt, steps) == Chain(rt, steps)
  {
    if steps != [] {
      CleanSnoc(steps);
      HeldClean(rt, steps[..|steps| - 1]);
    }
  }

  /** The state agrees with the chain: text, tip and next number. */
  predicate Holds(rt: Runtime, s: LogState, rows: seq<Dict>) {
    s.text == Frames(rows) && s.previousHash == Tip(rt, rows) && s.sequence == |rows|
  }

  lemma AppendHolds(p: Platform, s: LogState, rows: seq<Dict>, recordType: Text, payload: Dict, now: Text)
    requires Holds(p.Rt(), s, rows)
    ensures Holds(p.Rt(), AfterAppend(p, s, recordType, payload, now),
                  rows + [LoggerRow(p.Rt(), |rows|, now, recordType, Tip(p.Rt(), rows), payload)])
  {
    var row := LoggerRow(p.Rt(), |rows|, now, recordType, Tip(p.Rt(), rows), payload);
    assert (rows + [row])[..|rows|] == rows;
  }

  /** The logger's rows, decoded, hash as before although their text changed. */
  predicate Coincides(p: Platform, rows: seq<Dict>) {
    NormRows(rows).Some? && ReadBackCollides(p, rows, NormRows(rows).value)
  }

  lemma ReopenedExactly(p: Platform, rows: seq<Dict>)
    requires HexDigests(p) && Continues(p.Rt(), [], 0, rows)
    ensures AllStable(rows) ==> Reopened(p, rows).Ready?
    ensures Reopened(p, rows).Ready? ==> AllStable(rows) || Coincides(p, rows)
  {
    if AllStable(rows) {
      ReopenResumes(p, rows);
    } else {
      ReopenRefuses(p, rows);
    }
  }

  /** The tip and the number a reopening resumes at are those the rows had, even where texts collide. */
  lemma ReopenedState(p: Platform, rows: seq<Dict>)
    requires HexDigests(p) && Continues(p.Rt(), [], 0, rows) && Reopened(p, rows).Ready?
    ensures Reopened(p, rows).previousHash == Tip(p.Rt(), rows) && Reopened(p, rows).sequence == |rows|
  {
    if rows != [] {
      var back := NormRows(rows).value;
      ReadBackExact(p, [], 0, rows);
      EmptyBase(rows);
      EmptyBase(back);
      assert Get(back[|back| - 1], SEQUENCE) == Int(0 + (|back| - 1));
    }
  }

  /** Nothing that was written holds a surrogate pair. */
  predicate PairFreeSteps(steps: seq<Step>) {
    forall i | 0 <= i < |steps| :: PairFreeStep(steps[i])
  }

  predicate PairFreeStep(step: Step) {
    Writes(step) ==> PairFree(Obj(step.payload)) && PairFree(Str(step.recordType)) && PairFree(Str(step.now))
  }

  lemma LoggerRowPairFree(p: Platform, sequence: int, now: Text, recordType: Text, previous: Text, payload: Dict)
    requires HexDigests(p) && IsDigest(previous)
    requires PairFree(Obj(payload)) && PairFree(Str(recordType)) && PairFree(Str(now))
    ensures PairFree(Obj(LoggerRow(p.Rt(), sequence, now, recordType, previous, payload)))
  {
    var row := LoggerRow(p.Rt(), sequence, now, recordType, previous, payload);
    LoggerRowIs(p.Rt(), sequence, now, recordType, previous, payload);
    CalculatedText(p, row);
    AsciiNoPair(Calculated(p.Rt(), row));
    AsciiNoPair(previous);
    forall k | k in row ensures NoPair(k) && PairFree(row[k]) {
      assert k in ROW_KEYS;
    }
  }

  lemma PairFreePayloads(steps: seq<Step>)
    requires PairFreeSteps(steps)
    ensures StableWritten(steps)
  {
    forall i | 0 <= i < |steps| ensures StableStep(steps[i]) {
      assert PairFreeStep(steps[i]);
      if Writes(steps[i]) {
        PairFreeStable(Obj(steps[i].payload));
      }
    }
  }

  lemma NextPairFree(p: Platform, rows: seq<Dict>, step: Step)
    requires HexDigests(p) && Continues(p.Rt(), [], 0, rows) && Writes(step) && PairFreeStep(step)
    ensures PairFree(Obj(NextRow(p.Rt(), rows, step)))
  {
    ContinuesVerifies(p.Rt(), [], 0, rows);
    EmptyBase(rows);
    TipIsDigest(p, rows);
    LoggerRowPairFree(p, |rows|, step.now, step.recordType, Tip(p.Rt(), rows), step.payload);
  }

  lemma {:induction false} HeldPairFree(p: Platform, steps: seq<Step>)
    requires HexDigests(p) && PairFreeSteps(steps)
    ensures PairFreeRows(Held(p.Rt(), steps))
  {
    if steps != [] {
      var n := |steps| - 1;
      var init := steps[..n];
      assert forall i | 0 <= i < n :: init[i] == steps[i];
      HeldPairFree(p, init);
      if Writes(steps[n]) {
        HeldContinues(p.Rt(), init);
        NextPairFree(p, Held(p.Rt(), init), steps[n]);
      }
    }
  }
}
