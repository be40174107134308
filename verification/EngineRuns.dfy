/** Runs of the engine over any list of cases, returning and raising calls alike. */
module EngineRuns {
  import opened Actions
  import opened Engine
  import opened EngineCalls
  import opened EngineReplay
  import opened EngineSafety

  datatype Moment = Moment(log: seq<Entry>, live: Live)

  type Step = (Case, Live) -> Call

  /** The engine as a step. */
  function StepOf(e: Setup, wired: bool): Step {
    (c: Case, live: Live) => Calling(e, wired, c, live)
  }

  /** The first n calls, made one after the other whatever each of them ended in. */
  function Reached(step: Step, cases: seq<Case>, n: nat, start: Live): Moment
    requires n <= |cases|
  {
    if n == 0 then Moment([], start)
    else
      var before := Reached(step, cases, n - 1, start);
      var call := step(cases[n - 1], before.live);
      Moment(before.log + call.rows, call.live)
  }

  /** Call number i of a run. */
  function CallAt(step: Step, cases: seq<Case>, i: nat, start: Live): Call
    requires i < |cases|
  {
    step(cases[i], Reached(step, cases, i, start).live)
  }

  predicate Returns(step: Step, cases: seq<Case>, i: nat, start: Live)
    requires i < |cases|
  {
    CallAt(step, cases, i, start).outcome.Completed?
  }

  predicate AllReturn(step: Step, cases: seq<Case>, n: nat, start: Live)
    requires n <= |cases|
  {
    forall i | 0 <= i < n :: Returns(step, cases, i, start)
  }

  // ---------- the log determines the target ----------

  const UNREAD := Replica(map[], "")

  ghost predicate Replays(step: Step) {
    forall c: Case, live: Live, subject: string ::
      Leads(Replica(live.states, subject), step(c, live).rows, Replica(step(c, live).live.states, c.subjectId))
  }

  lemma {:induction false} ReplayedRun(step: Step, cases: seq<Case>, n: nat, start: Live)
    requires n <= |cases| && Replays(step) && start.states == map[]
    ensures var m := Reached(step, cases, n, start);
            Replay(UNREAD, m.log, |m.log|).states == m.live.states && RecordedAll(UNREAD, m.log)
  {
    if n > 0 {
      ReplayedRun(step, cases, n - 1, start);
      var before := Reached(step, cases, n - 1, start);
      var call := step(cases[n - 1], before.live);
      var subject := Replay(UNREAD, before.log, |before.log|).subject;
      LeadsJoined(UNREAD, before.log, Replica(before.live.states, subject), call.rows,
                  Replica(call.live.states, cases[n - 1].subjectId));
    }
  }

  /**
   Replaying the log of any run, raising calls included, from an empty target rebuilds the target exactly,
   and every executed row states what the rows before it had established and what it established.
   */
  lemma LogDeterminesTarget(e: Setup, wired: bool, cases: seq<Case>, n: nat, ticks: nat, issued: nat)
    requires n <= |cases|
    ensures var m := Reached(StepOf(e, wired), cases, n, Live(map[], ticks, issued));
            Replay(UNREAD, m.log, |m.log|).states == m.live.states && RecordedAll(UNREAD, m.log)
  {
    var step := StepOf(e, wired);
    forall c: Case, live: Live, subject: string
      ensures Leads(Replica(live.states, subject), step(c, live).rows,
                    Replica(step(c, live).live.states, c.subjectId))
    {
      CallReplays(e, wired, c, live, subject);
    }
    ReplayedRun(step, cases, n, Live(map[], ticks, issued));
  }

  // ---------- no action without verification and authorization ----------

  lemma VouchesShifted(log: seq<Entry>, rows: seq<Entry>, v: int, a: int, i: int)
    requires Vouches(rows, v, a, i)
    ensures Vouches(log + rows, |log| + v, |log| + a, |log| + i)
  {
    var all := log + rows;
    forall j | |log| + v <= j <= |log| + i
      ensures !all[j].CaseReceived?
    {
      assert all[j] == rows[j - |log|];
    }
  }

  lemma VouchesKept(log: seq<Entry>, rows: seq<Entry>, v: int, a: int, i: int)
    requires Vouches(log, v, a, i)
    ensures Vouches(log + rows, v, a, i)
  {
  }

  lemma JustifiedJoined(log: seq<Entry>, rows: seq<Entry>)
    requires AllJustified(log) && AllJustified(rows)
    ensures AllJustified(log + rows)
  {
    var all := log + rows;
    forall i | 0 <= i < |all|
      ensures Justified(all, i)
    {
      if IsActionRow(all[i]) {
        if i < |log| {
          assert Justified(log, i);
          var v, a :| Vouches(log, v, a, i);
          VouchesKept(log, rows, v, a, i);
        } else {
          assert Justified(rows, i - |log|);
          var v, a :| Vouches(rows, v, a, i - |log|);
          VouchesShifted(log, rows, v, a, i - |log|);
        }
      }
    }
  }

  lemma {:induction false} JustifiedRun(step: Step, cases: seq<Case>, n: nat, start: Live)
    requires n <= |cases| && forall c: Case, live: Live :: AllJustified(step(c, live).rows)
    ensures AllJustified(Reached(step, cases, n, start).log)
  {
    if n > 0 {
      JustifiedRun(step, cases, n - 1, start);
      var before := Reached(step, cases, n - 1, start);
      JustifiedJoined(before.log, step(cases[n - 1], before.live).rows);
    }
  }

  /** In every run an action row follows in its call a passed verification and an authorization issued for it. */
  lemma EveryActionJustified(e: Setup, wired: bool, cases: seq<Case>, n: nat, start: Live)
    requires n <= |cases|
    ensures AllJustified(Reached(StepOf(e, wired), cases, n, start).log)
  {
    forall c: Case, live: Live
      ensures AllJustified(StepOf(e, wired)(c, live).rows)
    {
      CallJustified(e, wired, c, live);
    }
    JustifiedRun(StepOf(e, wired), cases, n, start);
  }

  lemma SoundJoined(log: seq<Entry>, rows: seq<Entry>)
    requires AllSound(log) && AllSound(rows)
    ensures AllSound(log + rows)
  {
    var all := log + rows;
    forall i | 0 <= i < |all|
      ensures AuthorizationSound(all, i)
    {
      if i < |log| {
        assert AuthorizationSound(log, i);
      } else {
        assert AuthorizationSound(rows, i - |log|);
      }
    }
  }

  lemma {:induction false} SoundRun(step: Step, cases: seq<Case>, n: nat, start: Live)
    requires n <= |cases| && forall c: Case, live: Live :: AllSound(step(c, live).rows)
    ensures AllSound(Reached(step, cases, n, start).log)
  {
    if n > 0 {
      SoundRun(step, cases, n - 1, start);
      var before := Reached(step, cases, n - 1, start);
      SoundJoined(before.log, step(cases[n - 1], before.live).rows);
    }
  }

  /** In every run no authorization fails, and a token means simulation, a passed verification and those actions. */
  lemma EveryAuthorizationSound(e: Setup, wired: bool, cases: seq<Case>, n: nat, start: Live)
    requires n <= |cases|
    ensures AllSound(Reached(StepOf(e, wired), cases, n, start).log)
  {
    forall c: Case, live: Live
      ensures AllSound(StepOf(e, wired)(c, live).rows)
    {
      CallSound(e, wired, c, live);
    }
    SoundRun(StepOf(e, wired), cases, n, start);
  }

  // ---------- read-only runs ----------

  /** Row i of a read-only log is stage i mod 8 of case i div 8. */
  predicate InStep(log: seq<Entry>, cases: seq<Case>, i: nat)
    requires i < |log| && i / 8 < |cases|
  {
    StageOf(log[i]) == READ_ONLY_TRACE[i % 8] && log[i].caseId == cases[i / 8].caseId
  }

  lemma InStepJoined(log: seq<Entry>, rows: seq<Entry>, cases: seq<Case>, n: nat)
    requires n < |cases| && |log| == 8 * n
    requires forall i | 0 <= i < 8 * n :: InStep(log, cases, i)
    requires Follows(rows, READ_ONLY_TRACE) && AllFor(cases[n], rows)
    ensures forall i | 0 <= i < 8 * n + 8 :: InStep(log + rows, cases, i)
  {
    forall i | 0 <= i < 8 * n + 8
      ensures InStep(log + rows, cases, i)
    {
      if i < 8 * n {
        assert InStep(log, cases, i);
      } else {
        assert (log + rows)[i] == rows[i - 8 * n];
        assert StageOf(rows[i - 8 * n]) == READ_ONLY_TRACE[i - 8 * n];
      }
    }
  }

  /** What a returning read-only call does. */
  predicate Observes(c: Case, live: Live, call: Call) {
    && Follows(call.rows, READ_ONLY_TRACE)
    && AllFor(c, call.rows)
    && call.live.states == live.states && call.live.ticks == live.ticks
  }

  lemma {:induction false} ObservingRun(step: Step, cases: seq<Case>, n: nat, start: Live)
    requires n <= |cases| && AllReturn(step, cases, n, start)
    requires forall c: Case, live: Live | step(c, live).outcome.Completed? :: Observes(c, live, step(c, live))
    ensures var m := Reached(step, cases, n, start);
            && |m.log| == 8 * n
            && (forall i | 0 <= i < 8 * n :: InStep(m.log, cases, i))
            && m.live.states == start.states && m.live.ticks == start.ticks
  {
    if n > 0 {
      ObservingRun(step, cases, n - 1, start);
      var before := Reached(step, cases, n - 1, start);
      assert Returns(step, cases, n - 1, start);
      var call := step(cases[n - 1], before.live);
      assert Observes(cases[n - 1], before.live, call);
      InStepJoined(before.log, call.rows, cases, n - 1);
    }
  }

  /** A read-only run appends exactly the eight stages per case and never touches target or clock. */
  lemma ReadOnlyRun(e: Setup, wired: bool, cases: seq<Case>, n: nat, start: Live)
    requires n <= |cases| && IsReadOnly(e.mode) && AllReturn(StepOf(e, wired), cases, n, start)
    ensures var m := Reached(StepOf(e, wired), cases, n, start);
            && |m.log| == 8 * n
            && (forall i | 0 <= i < 8 * n :: InStep(m.log, cases, i))
            && m.live.states == start.states && m.live.ticks == start.ticks
  {
    var step := StepOf(e, wired);
    forall c: Case, live: Live | step(c, live).outcome.Completed?
      ensures Observes(c, live, step(c, live))
    {
      ReturnsExactly(e, wired, c, live);
      ReadOnlyCall(e, wired, c, live);
    }
    ObservingRun(step, cases, n, start);
  }

  // ---------- simulation runs ----------

  /** How many actions the call for a case brokers. */
  function Brokers(e: Setup): Case -> nat {
    (c: Case) => if TakenIn(e, c).Ready? then Brokerable(TakenIn(e, c)) else 0
  }

  function SegmentLength(k: nat): nat {
    if k == 0 then 7 else 8 + k
  }

  /** One returning simulated call: intake, authorization, k actions, the check if there were any, the final row. */
  predicate Segment(rows: seq<Entry>, c: Case, k: nat) {
    && |rows| == SegmentLength(k)
    && ActsOn(rows, k)
    && AllFor(c, rows)
    && (k > 0 ==> StageOf(rows[6 + k]) == POST_ACTION_VERIFIED)
    && StageOf(rows[|rows| - 1]) == DECISION_FINALIZED
  }

  /** A log that parses, from its end, into one segment per case. */
  predicate Segmented(brokers: Case -> nat, cases: seq<Case>, n: nat, log: seq<Entry>)
    requires n <= |cases|
  {
    if n == 0 then log == []
    else
      var k := brokers(cases[n - 1]);
      var size := SegmentLength(k);
      && size <= |log|
      && Segmented(brokers, cases, n - 1, log[..|log| - size])
      && Segment(log[|log| - size..], cases[n - 1], k)
  }

  lemma {:induction false} SegmentedRun(step: Step, brokers: Case -> nat, cases: seq<Case>, n: nat, start: Live)
    requires n <= |cases| && AllReturn(step, cases, n, start)
    requires forall c: Case, live: Live | step(c, live).outcome.Completed? :: Segment(step(c, live).rows, c, brokers(c))
    ensures Segmented(brokers, cases, n, Reached(step, cases, n, start).log)
  {
    if n > 0 {
      SegmentedRun(step, brokers, cases, n - 1, start);
      var before := Reached(step, cases, n - 1, start);
      assert Returns(step, cases, n - 1, start);
      var rows := step(cases[n - 1], before.live).rows;
      assert Segment(rows, cases[n - 1], brokers(cases[n - 1]));
      assert (before.log + rows)[..|before.log|] == before.log;
      assert (before.log + rows)[|before.log|..] == rows;
    }
  }

  lemma SimulatedSegment(e: Setup, c: Case, live: Live)
    requires !IsReadOnly(e.mode) && Calling(e, true, c, live).outcome.Completed?
    ensures Segment(Calling(e, true, c, live).rows, c, Brokers(e)(c))
  {
    ReturnsExactly(e, true, c, live);
    SimulatedTrace(e, c, live);
  }

  /** The log of a simulation run parses into one segment per case, of the length its proposal determines. */
  lemma SimulationRun(e: Setup, cases: seq<Case>, n: nat, start: Live)
    requires n <= |cases| && !IsReadOnly(e.mode) && AllReturn(StepOf(e, true), cases, n, start)
    ensures Segmented(Brokers(e), cases, n, Reached(StepOf(e, true), cases, n, start).log)
  {
    var step := StepOf(e, true);
    forall c: Case, live: Live | step(c, live).outcome.Completed?
      ensures Segment(step(c, live).rows, c, Brokers(e)(c))
    {
      SimulatedSegment(e, c, live);
    }
    SegmentedRun(step, Brokers(e), cases, n, start);
  }

  // ---------- conservation over a run ----------

  /** The broker invocations and the operational effects the decisions of a run report, summed. */
  function Invocations(step: Step, cases: seq<Case>, n: nat, start: Live): nat
    requires n <= |cases| && AllReturn(step, cases, n, start)
  {
    if n == 0 then 0
    else
      assert Returns(step, cases, n - 1, start);
      Invocations(step, cases, n - 1, start) + CallAt(step, cases, n - 1, start).outcome.value.brokerInvocations
  }

  function Operations(step: Step, cases: seq<Case>, n: nat, start: Live): nat
    requires n <= |cases| && AllReturn(step, cases, n, start)
  {
    if n == 0 then 0
    else
      assert Returns(step, cases, n - 1, start);
      Operations(step, cases, n - 1, start) + CallAt(step, cases, n - 1, start).outcome.value.operationalEffects
  }

  lemma {:induction false} ConservedRun(step: Step, cases: seq<Case>, n: nat, start: Live)
    requires n <= |cases| && AllReturn(step, cases, n, start)
    requires forall c: Case, live: Live | step(c, live).outcome.Completed? ::
               Conserves(step(c, live).rows, step(c, live).outcome.value)
    ensures var log := Reached(step, cases, n, start).log;
            && Count(log, IsActionRow) == Invocations(step, cases, n, start)
            && Count(log, IsEffectRow) == Operations(step, cases, n, start)
  {
    if n > 0 {
      ConservedRun(step, cases, n - 1, start);
      var before := Reached(step, cases, n - 1, start);
      assert Returns(step, cases, n - 1, start);
      var call := step(cases[n - 1], before.live);
      assert Conserves(call.rows, call.outcome.value);
      CountJoined(before.log, call.rows, IsActionRow);
      CountJoined(before.log, call.rows, IsEffectRow);
    }
  }

  /** The decisions of a run report as many invocations and effects as its log has action rows and successful ones. */
  lemma RunConservation(e: Setup, wired: bool, cases: seq<Case>, n: nat, start: Live)
    requires n <= |cases| && AllReturn(StepOf(e, wired), cases, n, start)
    ensures var log := Reached(StepOf(e, wired), cases, n, start).log;
            && Count(log, IsActionRow) == Invocations(StepOf(e, wired), cases, n, start)
            && Count(log, IsEffectRow) == Operations(StepOf(e, wired), cases, n, start)
  {
    var step := StepOf(e, wired);
    forall c: Case, live: Live | step(c, live).outcome.Completed?
      ensures Conserves(step(c, live).rows, step(c, live).outcome.value)
    {
      CallConserves(e, wired, c, live);
    }
    ConservedRun(step, cases, n, start);
  }

  // ---------- the run itself ----------

  /** One call, as the step of a run. */
  method ProcessNext(engine: DecisionFirewallEngine, c: Case, ghost step: Step) returns (outcome: Attempt<Decision>)
    requires engine.Valid() && step == StepOf(engine.setup, engine.Wired())
    modifies engine.Touched()
    ensures var call := step(c, old(engine.Now()));
            && outcome == call.outcome
            && engine.audit.rows == old(engine.audit.rows) + call.rows
            && engine.Now() == call.live
  {
    outcome := engine.Process(c);
  }

  /** What a run over all cases ends in: every decision, or the fault of the first call that raised. */
  ghost predicate Ends(step: Step, cases: seq<Case>, start: Live, decisions: Attempt<seq<Decision>>, log: seq<Entry>,
                       calls: nat)
  {
    && calls <= |cases|
    && log == Reached(step, cases, calls, start).log
    && match decisions
       case Completed(done) =>
         && calls == |cases| == |done|
         && forall i | 0 <= i < |cases| :: CallAt(step, cases, i, start).outcome == Completed(done[i])
       case Raised(fault) =>
         && calls > 0
         && AllReturn(step, cases, calls - 1, start)
         && CallAt(step, cases, calls - 1, start).outcome == Raised(fault)
  }

  /** The cases one after the other: the first call, and if it returns the rest from where it left things. */
  function Told(step: Step, cases: seq<Case>, start: Live): (Attempt<seq<Decision>>, seq<Entry>) {
    if cases == [] then (Completed([]), [])
    else
      var call := step(cases[0], start);
      match call.outcome
      case Raised(fault) => (Raised(fault), call.rows)
      case Completed(decision) =>
        var (rest, rows) := Told(step, cases[1..], call.live);
        (match rest case Raised(fault) => Raised(fault) case Completed(ds) => Completed([decision] + ds),
         call.rows + rows)
  }

  lemma {:induction false} ReachedShifted(step: Step, cases: seq<Case>, n: nat, start: Live)
    requires n < |cases|
    ensures var call := step(cases[0], start);
            var rest := Reached(step, cases[1..], n, call.live);
            Reached(step, cases, n + 1, start) == Moment(call.rows + rest.log, rest.live)
  {
    var call := step(cases[0], start);
    if n == 0 {
      assert Reached(step, cases, 0, start) == Moment([], start);
      assert [] + call.rows == call.rows && call.rows + [] == call.rows;
    } else {
      ReachedShifted(step, cases, n - 1, start);
      var before := Reached(step, cases[1..], n - 1, call.live);
      var next := step(cases[n], before.live);
      assert cases[1..][n - 1] == cases[n];
      assert (call.rows + before.log) + next.rows == call.rows + (before.log + next.rows);
    }
  }

  lemma CallShifted(step: Step, cases: seq<Case>, i: nat, start: Live)
    requires i + 1 < |cases|
    ensures CallAt(step, cases, i + 1, start) == CallAt(step, cases[1..], i, step(cases[0], start).live)
  {
    ReachedShifted(step, cases, i, start);
  }

  lemma EndsShifted(step: Step, cases: seq<Case>, start: Live, decisions: Attempt<seq<Decision>>, log: seq<Entry>,
                    calls: nat)
    requires cases != [] && Ends(step, cases, start, decisions, log, calls) && step(cases[0], start).outcome.Completed?
    ensures calls > 0
    ensures var call := step(cases[0], start);
            var rest := Reached(step, cases[1..], calls - 1, call.live).log;
            && log == call.rows + rest
            && (decisions.Completed? ==> decisions.value != [] && decisions.value[0] == call.outcome.value)
            && Ends(step, cases[1..], call.live,
                    if decisions.Completed? then Completed(decisions.value[1..]) else decisions, rest, calls - 1)
  {
    var call := step(cases[0], start);
    ReachedShifted(step, cases, calls - 1, start);
    assert CallAt(step, cases, 0, start) == call;
    forall i | 0 <= i < |cases| - 1
      ensures CallAt(step, cases, i + 1, start) == CallAt(step, cases[1..], i, call.live)
    {
      CallShifted(step, cases, i, start);
    }
    if decisions.Raised? {
      forall i | 0 <= i < calls - 2 ensures Returns(step, cases[1..], i, call.live) {
        assert Returns(step, cases, i + 1, start);
      }
    }
  }

  /** What a run ends in is what going through the cases one by one tells: every decision, or the first fault. */
  lemma {:induction false} EndsAsTold(step: Step, cases: seq<Case>, start: Live, decisions: Attempt<seq<Decision>>,
                                      log: seq<Entry>, calls: nat)
    requires Ends(step, cases, start, decisions, log, calls)
    ensures (decisions, log) == Told(step, cases, start)
    decreases |cases|
  {
    if cases != [] {
      var call := step(cases[0], start);
      assert Reached(step, cases, 0, start) == Moment([], start);
      assert CallAt(step, cases, 0, start) == call;
      if call.outcome.Completed? {
        EndsShifted(step, cases, start, decisions, log, calls);
        EndsAsTold(step, cases[1..], call.live,
                   if decisions.Completed? then Completed(decisions.value[1..]) else decisions,
                   Reached(step, cases[1..], calls - 1, call.live).log, calls - 1);
        if decisions.Completed? {
          assert decisions.value == [decisions.value[0]] + decisions.value[1..];
        }
      } else {
        FirstRaises(step, cases, start, decisions, log, calls);
      }
    }
  }

  lemma FirstRaises(step: Step, cases: seq<Case>, start: Live, decisions: Attempt<seq<Decision>>, log: seq<Entry>,
                    calls: nat)
    requires cases != [] && Ends(step, cases, start, decisions, log, calls) && step(cases[0], start).outcome.Raised?
    ensures var call := step(cases[0], start); decisions == Raised(call.outcome.fault) && log == call.rows
  {
    assert Reached(step, cases, 0, start) == Moment([], start);
    assert CallAt(step, cases, 0, start) == step(cases[0], start);
    assert !Returns(step, cases, 0, start);
    assert calls == 1;
    ReachedShifted(step, cases, 0, start);
    assert Reached(step, cases[1..], 0, step(cases[0], start).live).log == [];
  }

  /** What holds after n returning calls. */
  ghost predicate Going(step: Step, cases: seq<Case>, n: nat, start: Live, done: seq<Decision>, now: Moment) {
    && n == |done| <= |cases|
    && now == Reached(step, cases, n, start)
    && forall i | 0 <= i < n :: CallAt(step, cases, i, start).outcome == Completed(done[i])
  }

  lemma GoingOn(step: Step, cases: seq<Case>, n: nat, start: Live, done: seq<Decision>, now: Moment)
    requires n < |cases| && Going(step, cases, n, start, done, now)
    ensures var call := step(cases[n], now.live);
            var next := Moment(now.log + call.rows, call.live);
            && (call.outcome.Completed? ==> Going(step, cases, n + 1, start, done + [call.outcome.value], next))
            && (call.outcome.Raised? ==> Ends(step, cases, start, Raised(call.outcome.fault), next.log, n + 1))
  {
    forall i | 0 <= i < n
      ensures Returns(step, cases, i, start)
    {
      assert CallAt(step, cases, i, start).outcome == Completed(done[i]);
    }
  }

  method ProcessAll(engine: DecisionFirewallEngine, cases: seq<Case>, ghost step: Step, ghost start: Live)
    returns (decisions: Attempt<seq<Decision>>, calls: nat)
    requires engine.Valid() && step == StepOf(engine.setup, engine.Wired())
    requires engine.audit.rows == [] && engine.Now() == start
    modifies engine.Touched()
    ensures Ends(step, cases, start, decisions, engine.audit.rows, calls)
  {
    var done: seq<Decision> := [];
    for n := 0 to |cases|
      invariant engine.Valid() && step == StepOf(engine.setup, engine.Wired())
      invariant Going(step, cases, n, start, done, Moment(engine.audit.rows, engine.Now()))
    {
      GoingOn(step, cases, n, start, done, Moment(engine.audit.rows, engine.Now()));
      var outcome := ProcessNext(engine, cases[n], step);
      if outcome.Raised? {
        return Raised(outcome.fault), n + 1;
      }
      done := done + [outcome.value];
    }
    return Completed(done), |cases|;
  }

  /** A fresh engine over all cases; the first call that raises ends the run. */
  method RunEngine(setup: Setup, cases: seq<Case>)
    returns (decisions: Attempt<seq<Decision>>, log: seq<Entry>, calls: nat)
    ensures Ends(StepOf(setup, !IsReadOnly(setup.mode)), cases, Live(map[], 0, 0), decisions, log, calls)
  {
    var audit := new AuditTrail();
    var environment := new Environment(setup.world);
    var engine := new DecisionFirewallEngine(setup, audit, environment);
    decisions, calls := ProcessAll(engine, cases, StepOf(setup, !IsReadOnly(setup.mode)), Live(map[], 0, 0));
    log := audit.rows;
  }
}
