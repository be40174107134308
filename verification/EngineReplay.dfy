/** Replaying an audit log: the log alone determines the state of the simulated target. */
module EngineReplay {
  import opened Options
  import opened Actions
  import opened Engine
  import opened EngineCalls

  /** What a reader of the log rebuilds: the target, and the subject of the case last received. */
  datatype Replica = Replica(states: States, subject: string)

  /** The target once the case of a brokered action has a state. */
  function Opened(r: Replica, caseId: string): States {
    if caseId in r.states then r.states else r.states[caseId := InitialState(r.subject)]
  }

  /** One row read.  Only received cases and action rows say anything about the target. */
  function Played(r: Replica, row: Entry): Replica {
    match row
    case CaseReceived(_, subject, _) => r.(subject := subject)
    case ActionExecuted(id, result) =>
      var states := Opened(r, id);
      if result.success && Implemented(result.action) then
        r.(states := states[id := Effect(result.action, states[id])])
      else r.(states := states)
    case ActionRejected(id, failure) =>
      if failure.message == Refused(NotImplemented) then r.(states := Opened(r, id)) else r
    case _ => r
  }

  /** The first n rows read in order. */
  function Replay(r: Replica, rows: seq<Entry>, n: nat): Replica
    requires n <= |rows|
  {
    if n == 0 then r else Played(Replay(r, rows, n - 1), rows[n - 1])
  }

  lemma {:induction false} ReplayPrefix(r: Replica, a: seq<Entry>, b: seq<Entry>, n: nat)
    requires n <= |a|
    ensures Replay(r, a + b, n) == Replay(r, a, n)
  {
    if n > 0 {
      ReplayPrefix(r, a, b, n - 1);
    }
  }

  lemma {:induction false} ReplayJoined(r: Replica, a: seq<Entry>, b: seq<Entry>, n: nat)
    requires n <= |b|
    ensures Replay(r, a + b, |a| + n) == Replay(Replay(r, a, |a|), b, n)
  {
    if n == 0 {
      ReplayPrefix(r, a, b, |a|);
    } else {
      ReplayJoined(r, a, b, n - 1);
    }
  }

  /** An executed row states what the log has established before it and establishes after it. */
  predicate Recorded(r: Replica, row: Entry) {
    row.ActionExecuted? ==>
      && row.result.before == Some(Opened(r, row.caseId)[row.caseId])
      && row.caseId in Played(r, row).states
      && row.result.after == Some(Played(r, row).states[row.caseId])
  }

  predicate RecordedAll(r: Replica, rows: seq<Entry>) {
    forall i | 0 <= i < |rows| :: Recorded(Replay(r, rows, i), rows[i])
  }

  lemma RecordedJoined(r: Replica, a: seq<Entry>, b: seq<Entry>)
    requires RecordedAll(r, a) && RecordedAll(Replay(r, a, |a|), b)
    ensures RecordedAll(r, a + b)
  {
    forall i | 0 <= i < |a + b|
      ensures Recorded(Replay(r, a + b, i), (a + b)[i])
    {
      if i < |a| {
        ReplayPrefix(r, a, b, i);
      } else {
        ReplayJoined(r, a, b, i - |a|);
        assert Recorded(Replay(Replay(r, a, |a|), b, i - |a|), b[i - |a|]);
      }
    }
  }

  /** Rows that say nothing about the target. */
  predicate Quiet(rows: seq<Entry>) {
    forall i | 0 <= i < |rows| ::
      !rows[i].CaseReceived? && !rows[i].ActionExecuted? && !rows[i].ActionRejected?
  }

  lemma {:induction false} QuietReplay(r: Replica, rows: seq<Entry>, n: nat)
    requires n <= |rows| && Quiet(rows)
    ensures Replay(r, rows, n) == r
    ensures RecordedAll(r, rows)
  {
    if n > 0 {
      QuietReplay(r, rows, n - 1);
    }
  }

  /** What the broker does to the target, the row it leads to says. */
  lemma BrokeringPlayed(e: Setup, c: Case, token: Token, action: string, states: States, ticks: nat)
    ensures var step := Brokering(e.gate, e.world, e.fails, c, token, action, states, ticks);
            var r := Replica(states, c.subjectId);
            var row := RowOf(c, action, step.outcome);
            Played(r, row) == r.(states := step.states) && Recorded(r, row)
  {
  }

  /** Rows that leave the reader with the target as it is and the case's subject. */
  predicate Leads(from: Replica, rows: seq<Entry>, to: Replica) {
    Replay(from, rows, |rows|) == to && RecordedAll(from, rows)
  }

  lemma LeadsJoined(x: Replica, a: seq<Entry>, y: Replica, b: seq<Entry>, z: Replica)
    requires Leads(x, a, y) && Leads(y, b, z)
    ensures Leads(x, a + b, z)
  {
    ReplayJoined(x, a, b, |b|);
    RecordedJoined(x, a, b);
  }

  /** One more brokered action is one more row, played on what the rows before it led to. */
  lemma RunningStep(e: Setup, c: Case, token: Token, actions: seq<string>, n: nat, states: States, ticks: nat)
    requires 0 < n <= |actions|
    ensures var before := Running(e, c, token, actions, n - 1, states, ticks);
            var run := Running(e, c, token, actions, n, states, ticks);
            && |ActionRows(c, actions, run.outcomes)| == n
            && ActionRows(c, actions, run.outcomes)
               == ActionRows(c, actions, before.outcomes) + [ActionRows(c, actions, run.outcomes)[n - 1]]
            && var row := ActionRows(c, actions, run.outcomes)[n - 1];
               && Played(Replica(before.states, c.subjectId), row) == Replica(run.states, c.subjectId)
               && Recorded(Replica(before.states, c.subjectId), row)
  {
    var before := Running(e, c, token, actions, n - 1, states, ticks);
    var step := Brokering(e.gate, e.world, e.fails, c, token, actions[n - 1], before.states, before.ticks);
    OneMore(c, actions, before.outcomes, step.outcome);
    BrokeringPlayed(e, c, token, actions[n - 1], before.states, before.ticks);
  }

  lemma LeadsOn(x: Replica, rows: seq<Entry>, y: Replica, row: Entry, z: Replica)
    requires Leads(x, rows, y) && Played(y, row) == z && Recorded(y, row)
    ensures Leads(x, rows + [row], z)
  {
    var one := [row];
    assert Replay(y, one, 0) == y;
    assert Replay(y, one, 1) == Played(Replay(y, one, 0), row);
    LeadsJoined(x, rows, y, one, z);
  }

  lemma {:induction false} RunningReplay(e: Setup, c: Case, token: Token, actions: seq<string>, n: nat,
                                         states: States, ticks: nat)
    requires n <= |actions|
    ensures var run := Running(e, c, token, actions, n, states, ticks);
            Leads(Replica(states, c.subjectId), ActionRows(c, actions, run.outcomes), Replica(run.states, c.subjectId))
  {
    var run := Running(e, c, token, actions, n, states, ticks);
    if n == 0 {
      assert ActionRows(c, actions, run.outcomes) == [];
    } else {
      RunningReplay(e, c, token, actions, n - 1, states, ticks);
      RunningStep(e, c, token, actions, n, states, ticks);
      var before := Running(e, c, token, actions, n - 1, states, ticks);
      LeadsOn(Replica(states, c.subjectId), ActionRows(c, actions, before.outcomes),
              Replica(before.states, c.subjectId), ActionRows(c, actions, run.outcomes)[n - 1],
              Replica(run.states, c.subjectId));
    }
  }

  /** A received case, then rows that say nothing. */
  lemma OpeningReplay(r: Replica, c: Case, rows: seq<Entry>)
    requires Quiet(rows)
    ensures Leads(r, [Received(c)] + rows, r.(subject := c.subjectId))
  {
    var one := [Received(c)];
    assert Replay(r, one, 1) == Played(Replay(r, one, 0), one[0]);
    QuietReplay(Replay(r, one, 1), rows, |rows|);
    LeadsJoined(r, one, Replay(r, one, 1), rows, Replay(r, one, 1));
  }

  lemma StoppedReplay(e: Setup, c: Case, r: Replica)
    requires TakenIn(e, c).Stopped?
    ensures Leads(r, TakenIn(e, c).rows, r.(subject := c.subjectId))
  {
    var rows := TakenIn(e, c).rows;
    assert rows == [Received(c)] + rows[1..];
    OpeningReplay(r, c, rows[1..]);
  }

  lemma IntakeReplay(mode: Mode, c: Case, ev: Evidence, a: Assessment, p: Proposal, v: Verification, r: Replica)
    ensures Leads(r, IntakeRows(mode, c, ev, a, p, v), r.(subject := c.subjectId))
  {
    var rows := IntakeRows(mode, c, ev, a, p, v);
    assert rows == [Received(c)] + rows[1..];
    OpeningReplay(r, c, rows[1..]);
  }

  lemma QuietLeads(r: Replica, rows: seq<Entry>)
    requires Quiet(rows)
    ensures Leads(r, rows, r)
  {
    QuietReplay(r, rows, |rows|);
  }

  lemma ConcludingQuiet(e: Setup, c: Case, t: Intake, p: Proposal, a: Authorization, results: seq<ActionResult>,
                        live: Live)
    requires t.Ready?
    ensures Quiet(Concluding(e, c, t, p, a, results, live).rows)
    ensures Concluding(e, c, t, p, a, results, live).live.states == live.states
  {
  }

  /** The action rows of a call lead to the target its run leaves. */
  lemma ActingReplay(e: Setup, c: Case, t: Intake, live: Live)
    requires t.Ready?
    ensures var run := RunOf(e, c, t, live);
            Leads(Replica(live.states, c.subjectId),
                  ActionRows(c, Downgraded(t.proposal, t.verification).actions, run.outcomes),
                  Replica(run.states, c.subjectId))
  {
    var run := RunOf(e, c, t, live);
    if Cleared(t) {
      ClearedRun(e, c, t, live);
      RunningReplay(e, c, TokenIn(e, c, t, live), t.proposal.actions, |t.proposal.actions|, live.states,
                    live.ticks + 1);
    } else {
      UnclearedRun(e, c, t, live);
      QuietLeads(Replica(live.states, c.subjectId), []);
    }
  }

  lemma SimulatedReplay(e: Setup, c: Case, live: Live, subject: string)
    requires !IsReadOnly(e.mode) && TakenIn(e, c).Ready?
    ensures var call := Calling(e, true, c, live);
            Leads(Replica(live.states, subject), call.rows, Replica(call.live.states, c.subjectId))
  {
    var t := TakenIn(e, c);
    var p := Downgraded(t.proposal, t.verification);
    var a := Authorizing(e, c, p, t.verification, live);
    var run := RunOf(e, c, t, live);
    var ready := Live(run.states, run.ticks, Authorized(a, live).issued);
    var end := Concluding(e, c, t, p, a, Results(p.actions, run.outcomes), ready);
    SimulatedRows(e, c, live);
    ConcludingQuiet(e, c, t, p, a, Results(p.actions, run.outcomes), ready);
    ActingReplay(e, c, t, live);
    IntakeReplay(e.mode, c, t.evidence, t.assessment, t.proposal, t.verification, Replica(live.states, subject));
    Chained(Replica(live.states, subject), IntakeRows(e.mode, c, t.evidence, t.assessment, t.proposal, t.verification),
            Replica(live.states, c.subjectId), AuthorizationRow(e.mode, c, true, TokenOf(a), ErrorOf(a)),
            ActionRows(c, p.actions, run.outcomes), Replica(run.states, c.subjectId), end.rows);
  }

  lemma Chained(x: Replica, intake: seq<Entry>, y: Replica, auth: Entry, acts: seq<Entry>, z: Replica, end: seq<Entry>)
    requires Leads(x, intake, y) && Quiet([auth]) && Leads(y, acts, z) && Quiet(end)
    ensures Leads(x, intake + [auth] + acts + end, z)
  {
    QuietLeads(y, [auth]);
    QuietLeads(z, end);
    LeadsJoined(x, intake, y, [auth], y);
    LeadsJoined(x, intake + [auth], y, acts, z);
    LeadsJoined(x, intake + [auth] + acts, z, end, z);
  }

  lemma ReadOnlyReplay(e: Setup, wired: bool, c: Case, r: Replica)
    requires IsReadOnly(e.mode) && TakenIn(e, c).Ready?
    ensures forall live: Live :: Leads(r, Calling(e, wired, c, live).rows, r.(subject := c.subjectId))
  {
    forall live: Live
      ensures Leads(r, Calling(e, wired, c, live).rows, r.(subject := c.subjectId))
    {
      var t := TakenIn(e, c);
      IntakeReplay(e.mode, c, t.evidence, t.assessment, t.proposal, t.verification, r);
      QuietLeads(r.(subject := c.subjectId), Observing(e, c, t, live).rows);
      LeadsJoined(r, IntakeRows(e.mode, c, t.evidence, t.assessment, t.proposal, t.verification),
                  r.(subject := c.subjectId), Observing(e, c, t, live).rows, r.(subject := c.subjectId));
    }
  }

  /** Reading the rows of any call, returning or raising, leads from the target before it to the one after. */
  lemma CallReplays(e: Setup, wired: bool, c: Case, live: Live, subject: string)
    ensures var call := Calling(e, wired, c, live);
            Leads(Replica(live.states, subject), call.rows, Replica(call.live.states, c.subjectId))
  {
    var t := TakenIn(e, c);
    var r := Replica(live.states, subject);
    if t.Stopped? {
      StoppedReplay(e, c, r);
    } else if IsReadOnly(e.mode) {
      ReadOnlyReplay(e, wired, c, r);
      ReadOnlyCall(e, wired, c, live);
    } else if wired {
      SimulatedReplay(e, c, live, subject);
    } else {
      IntakeReplay(e.mode, c, t.evidence, t.assessment, t.proposal, t.verification, r);
      UnwiredRows(e, c, live);
    }
  }

  lemma UnwiredRows(e: Setup, c: Case, live: Live)
    requires !IsReadOnly(e.mode) && TakenIn(e, c).Ready?
    ensures var t := TakenIn(e, c);
            Calling(e, false, c, live) ==
            Call(IntakeRows(e.mode, c, t.evidence, t.assessment, t.proposal, t.verification), live,
                 Raised(UnsafeWiring))
  {
    var t := TakenIn(e, c);
    var rows := IntakeRows(e.mode, c, t.evidence, t.assessment, t.proposal, t.verification);
    assert rows + [] == rows;
  }
}
