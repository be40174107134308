/**
 The engine over the hash-chained log: whoever holds only the final record hash of a run
 can check any copy of its log and rebuild the target from it.
 */
module AuditedRuns {
  import opened Options
  import opened PyText
  import opened Json
  import opened AuditChain
  import R = AuditRows
  import A = Actions
  import opened Engine
  import P = EngineReplay
  import S = EngineRuns

  /**
   How the engine's rows become audit rows: row i is written with kind(i) and payload(i) at times(i), and an audit row
   is read back by its type and payload.
   */
  datatype Rendering = Rendering(
    kind: nat -> Text,
    payload: nat -> Dict,
    times: nat -> Text,
    parse: (Text, Dict) -> Option<Entry>
  )

  /** What each row of the log was written as reads as that row. */
  predicate Renders(c: Rendering, log: seq<Entry>) {
    forall i | 0 <= i < |log| :: c.parse(c.kind(i), c.payload(i)) == Some(log[i])
  }

  /** The first n audit rows a logger writes. */
  function Written(rt: Runtime, c: Rendering, n: nat): (rows: seq<Dict>)
    ensures |rows| == n
  {
    if n == 0 then []
    else
      var rows := Written(rt, c, n - 1);
      rows + [R.LoggerRow(rt, n - 1, c.times(n - 1), c.kind(n - 1), Tip(rt, rows), c.payload(n - 1))]
  }

  /** One audit row, read as an engine row. */
  function EntryOf(c: Rendering, row: Dict): Option<Entry> {
    if Get(row, RECORD_TYPE).Str? && Get(row, PAYLOAD).Obj?
    then c.parse(Get(row, RECORD_TYPE).s, Get(row, PAYLOAD).members)
    else None
  }

  /** The engine rows of an audit log; none if some row is not one. */
  function LogOf(c: Rendering, rows: seq<Dict>): Option<seq<Entry>> {
    if rows == [] then Some([])
    else
      match (LogOf(c, rows[..|rows| - 1]), EntryOf(c, rows[|rows| - 1]))
      case (Some(log), Some(row)) => Some(log + [row])
      case _ => None
  }

  lemma {:induction false} WrittenVerifies(rt: Runtime, c: Rendering, n: nat)
    ensures R.Continues(rt, [], 0, Written(rt, c, n))
    ensures Verifies(rt, Written(rt, c, n))
  {
    var rows := Written(rt, c, n);
    if n > 0 {
      var before := Written(rt, c, n - 1);
      WrittenVerifies(rt, c, n - 1);
      R.LoggerRowIs(rt, n - 1, c.times(n - 1), c.kind(n - 1), Tip(rt, before), c.payload(n - 1));
      assert [] + before == before;
      R.ContinuesSnoc(rt, [], 0, before, rows[n - 1]);
    }
    R.ContinuesVerifies(rt, [], 0, rows);
    assert [] + rows == rows;
  }

  lemma EntryWritten(rt: Runtime, c: Rendering, i: nat, previous: Text)
    ensures EntryOf(c, R.LoggerRow(rt, i, c.times(i), c.kind(i), previous, c.payload(i)))
         == c.parse(c.kind(i), c.payload(i))
  {
    KeysDistinct();
  }

  /** The rows written for a log say that log, up to any number of them. */
  lemma {:induction false} LogWritten(rt: Runtime, c: Rendering, log: seq<Entry>, n: nat)
    requires n <= |log| && Renders(c, log)
    ensures LogOf(c, Written(rt, c, n)) == Some(log[..n])
  {
    if n > 0 {
      var rows := Written(rt, c, n);
      LogWritten(rt, c, log, n - 1);
      EntryWritten(rt, c, n - 1, Tip(rt, Written(rt, c, n - 1)));
      assert rows[..n - 1] == Written(rt, c, n - 1);
      assert log[..n] == log[..n - 1] + [log[n - 1]];
    }
  }

  /**
   Any rows that verify and end in the final hash of a run's log are that log, row for row; replaying what they say
   rebuilds the target the run left, unless SHA-256 collides on row bodies or maps one to 64 zeros.
   */
  lemma FinalHashDeterminesTarget(rt: Runtime, c: Rendering, e: Setup, wired: bool,
                                  cases: seq<A.Case>, n: nat, ticks: nat, issued: nat, found: seq<Dict>)
    requires n <= |cases|
    requires Renders(c, S.Reached(S.StepOf(e, wired), cases, n, Live(map[], ticks, issued)).log)
    requires Verifies(rt, found)
    requires Tip(rt, found)
          == Tip(rt, Written(rt, c, |S.Reached(S.StepOf(e, wired), cases, n, Live(map[], ticks, issued)).log|))
    ensures var m := S.Reached(S.StepOf(e, wired), cases, n, Live(map[], ticks, issued));
            || (&& found == Written(rt, c, |m.log|)
                && LogOf(c, found) == Some(m.log)
                && P.Replay(S.UNREAD, m.log, |m.log|).states == m.live.states)
            || Broken(rt, found, Written(rt, c, |m.log|))
  {
    var m := S.Reached(S.StepOf(e, wired), cases, n, Live(map[], ticks, issued));
    WrittenVerifies(rt, c, |m.log|);
    SameTipSameChain(rt, found, Written(rt, c, |m.log|));
    LogWritten(rt, c, m.log, |m.log|);
    assert m.log[..|m.log|] == m.log;
    S.LogDeterminesTarget(e, wired, cases, n, ticks, issued);
  }

  /** Every log has a rendering: its rows numbered in their payloads. */
  lemma RenderingExists(log: seq<Entry>) returns (c: Rendering)
    ensures Renders(c, log)
  {
    c := Rendering(
      _ => [],
      (i: nat) => map[[] := Int(i)],
      _ => [],
      (kind: Text, payload: Dict) => ParsedBack(log, payload));
    forall i | 0 <= i < |log| ensures c.parse(c.kind(i), c.payload(i)) == Some(log[i]) {
      var payload: Dict := map[[] := Int(i)];
      assert payload[[]] == Int(i);
    }
  }

  function ParsedBack(log: seq<Entry>, payload: Dict): Option<Entry> {
    if [] in payload && payload[[]].Int? && 0 <= payload[[]].i < |log| then Some(log[payload[[]].i]) else None
  }
}
