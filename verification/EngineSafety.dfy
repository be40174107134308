/** Authorization, expiry and conservation inside one call of the engine. */
module EngineSafety {
  import opened Options
  import opened Actions
  import opened Engine
  import opened EngineCalls

  // ---------- where the rows of a simulated call come from ----------

  /** What the authorization row of a wired simulated call says. */
  function AuthorizedRow(e: Setup, c: Case, t: Intake, live: Live): Entry
    requires t.Ready?
  {
    if Cleared(t) then
      AuthorizationEvaluated(c.caseId, e.mode, true, true, TokenIn(e, c, t, live).grant.tokenId, t.proposal.actions,
                             None)
    else AuthorizationEvaluated(c.caseId, e.mode, true, false, "", [], None)
  }

  lemma AuthorizedRowMeaning(e: Setup, c: Case, t: Intake, live: Live)
    requires t.Ready?
    ensures var a := Authorizing(e, c, Downgraded(t.proposal, t.verification), t.verification, live);
            AuthorizationRow(e.mode, c, true, TokenOf(a), ErrorOf(a)) == AuthorizedRow(e, c, t, live)
  {
    FailSafe(e, c, t, live);
  }

  /** The action rows of a wired simulated call. */
  function ActedRows(e: Setup, c: Case, t: Intake, live: Live): (rows: seq<Entry>)
    requires t.Ready?
  {
    ActionRows(c, Downgraded(t.proposal, t.verification).actions, RunOf(e, c, t, live).outcomes)
  }

  /** The named rows of a wired simulated call. */
  predicate HasRows(rows: seq<Entry>, intake: seq<Entry>, auth: Entry, acts: seq<Entry>) {
    && |rows| >= 6 + |acts|
    && |intake| == 5
    && rows[3] == intake[3] && rows[4] == intake[4] && rows[5] == auth
    && forall i | 0 <= i < |acts| :: rows[6 + i] == acts[i]
  }

  lemma RowsAt(e: Setup, c: Case, live: Live)
    requires !IsReadOnly(e.mode) && TakenIn(e, c).Ready?
    ensures var t := TakenIn(e, c);
            HasRows(Calling(e, true, c, live).rows,
                    IntakeRows(e.mode, c, t.evidence, t.assessment, t.proposal, t.verification),
                    AuthorizedRow(e, c, t, live), ActedRows(e, c, t, live))
  {
    var t := TakenIn(e, c);
    SimulatedRows(e, c, live);
    AuthorizedRowMeaning(e, c, t, live);
    var p := Downgraded(t.proposal, t.verification);
    var a := Authorizing(e, c, p, t.verification, live);
    var run := RunOf(e, c, t, live);
    var ready := Live(run.states, run.ticks, Authorized(a, live).issued);
    var end := Concluding(e, c, t, p, a, Results(p.actions, run.outcomes), ready);
    PartsAt(IntakeRows(e.mode, c, t.evidence, t.assessment, t.proposal, t.verification),
            AuthorizedRow(e, c, t, live), ActedRows(e, c, t, live), end.rows);
  }

  lemma PartsAt(intake: seq<Entry>, auth: Entry, acts: seq<Entry>, end: seq<Entry>)
    requires |intake| == 5
    ensures HasRows(intake + [auth] + acts + end, intake, auth, acts)
  {
  }

  /** Each action row comes from the outcome of its own action. */
  lemma ActedRow(e: Setup, c: Case, t: Intake, live: Live, i: nat)
    requires t.Ready? && i < Brokerable(t)
    ensures |ActedRows(e, c, t, live)| == Brokerable(t)
    ensures |RunOf(e, c, t, live).outcomes| == Brokerable(t)
    ensures var outcome := RunOf(e, c, t, live).outcomes[i];
            && ActedRows(e, c, t, live)[i] == RowOf(c, t.proposal.actions[i], outcome)
            && OutcomeExact(e, c, TokenIn(e, c, t, live), t.proposal.actions[i], live.ticks + 1 + i, outcome)
  {
    FailSafe(e, c, t, live);
    ClearedRun(e, c, t, live);
  }

  // ---------- no action without verification and authorization ----------

  /** The action an action row is about. */
  function ActionOf(row: Entry): string
    requires row.ActionExecuted? || row.ActionRejected?
  {
    if row.ActionExecuted? then row.result.action else row.failure.action
  }

  /**
   Rows v and a, earlier in the same call, vouch for the action row i: the verifier passed the case,
   and a token permitting the action was issued for it.
   */
  predicate Vouches(log: seq<Entry>, v: int, a: int, i: int) {
    && 0 <= v < a < i < |log|
    && (log[i].ActionExecuted? || log[i].ActionRejected?)
    && log[v].IndependentlyVerified? && log[v].verification.passed && log[v].caseId == log[i].caseId
    && log[a].AuthorizationEvaluated? && log[a].issued && log[a].caseId == log[i].caseId
    && ActionOf(log[i]) in log[a].permitted
    && (forall j | v <= j <= i :: !log[j].CaseReceived?)
  }

  ghost predicate Justified(log: seq<Entry>, i: int)
    requires 0 <= i < |log|
  {
    log[i].ActionExecuted? || log[i].ActionRejected? ==> exists v, a :: Vouches(log, v, a, i)
  }

  ghost predicate AllJustified(log: seq<Entry>) {
    forall i | 0 <= i < |log| :: Justified(log, i)
  }

  predicate NamesAll(acts: seq<Entry>, actions: seq<string>) {
    && |acts| == |actions|
    && forall i | 0 <= i < |acts| :: ActionStage(StageOf(acts[i])) && ActionOf(acts[i]) == actions[i]
  }

  /** Every brokered action, executed or refused, is reported under its own name. */
  lemma ActedNamed(e: Setup, c: Case, t: Intake, live: Live)
    requires t.Ready?
    ensures NamesAll(ActedRows(e, c, t, live), if Cleared(t) then t.proposal.actions else [])
  {
    var acts := ActedRows(e, c, t, live);
    if Cleared(t) {
      ActedRow(e, c, t, live, 0);
      forall i | 0 <= i < |acts|
        ensures ActionStage(StageOf(acts[i])) && ActionOf(acts[i]) == t.proposal.actions[i]
      {
        ActedRow(e, c, t, live, i);
      }
    } else {
      UnclearedRun(e, c, t, live);
    }
  }

  lemma SimulatedJustified(e: Setup, c: Case, live: Live)
    requires !IsReadOnly(e.mode) && TakenIn(e, c).Ready?
    ensures AllJustified(Calling(e, true, c, live).rows)
  {
    var t := TakenIn(e, c);
    var call := Calling(e, true, c, live);
    RowsAt(e, c, live);
    ActedNamed(e, c, t, live);
    SimulatedTrace(e, c, live);
    JustifiedByShape(c, call.rows, SupportsAll(t.proposal.actions), call.outcome,
                     IntakeRows(e.mode, c, t.evidence, t.assessment, t.proposal, t.verification),
                     AuthorizedRow(e, c, t, live), ActedRows(e, c, t, live),
                     if Cleared(t) then t.proposal.actions else []);
  }

  /** Action rows stand between the authorization and the check after the actions only. */
  lemma ActionsInside(c: Case, rows: seq<Entry>, k: nat, supported: bool, outcome: Attempt<Decision>)
    requires SimulatedShape(rows, c, k, supported, outcome)
    ensures forall i | 0 <= i < |rows| && !(6 <= i < 6 + k) :: !ActionStage(StageOf(rows[i]))
    ensures forall i | 4 <= i < |rows| :: StageOf(rows[i]) != CASE_RECEIVED
  {
    assert forall i | 0 <= i < 5 :: !ActionStage(INTAKE[i]);
    assert StageOf(rows[4]) == INTAKE[4];
  }

  lemma JustifiedByShape(c: Case, rows: seq<Entry>, supported: bool, outcome: Attempt<Decision>,
                         intake: seq<Entry>, auth: Entry, acts: seq<Entry>, actions: seq<string>)
    requires SimulatedShape(rows, c, |acts|, supported, outcome) && HasRows(rows, intake, auth, acts)
    requires NamesAll(acts, actions)
    requires acts != [] ==>
               && intake[4].IndependentlyVerified? && intake[4].verification.passed
               && auth.AuthorizationEvaluated? && auth.issued && auth.permitted == actions
    ensures AllJustified(rows)
  {
    ActionsInside(c, rows, |acts|, supported, outcome);
    forall i | 0 <= i < |rows|
      ensures Justified(rows, i)
    {
      if ActionStage(StageOf(rows[i])) {
        assert rows[6 + (i - 6)] == acts[i - 6];
        assert actions[i - 6] in actions;
        assert Vouches(rows, 4, 5, i);
      }
    }
  }

  lemma NoActionsJustified(rows: seq<Entry>)
    requires forall i | 0 <= i < |rows| :: !ActionStage(StageOf(rows[i]))
    ensures AllJustified(rows)
  {
    forall i | 0 <= i < |rows|
      ensures Justified(rows, i)
    {
      assert !ActionStage(StageOf(rows[i]));
    }
  }

  /** Stages of a call that brokers nothing. */
  lemma QuietStages(rows: seq<Entry>, stages: seq<Stage>)
    requires Follows(rows, stages) && forall i | 0 <= i < |stages| :: !ActionStage(stages[i])
    ensures AllJustified(rows)
  {
    NoActionsJustified(rows);
  }

  lemma CallJustified(e: Setup, wired: bool, c: Case, live: Live)
    ensures AllJustified(Calling(e, wired, c, live).rows)
  {
    var rows := Calling(e, wired, c, live).rows;
    if TakenIn(e, c).Stopped? {
      StoppedTrace(e, wired, c, live);
      QuietStages(rows, INTAKE[..|rows|]);
    } else if IsReadOnly(e.mode) {
      ReadOnlyCall(e, wired, c, live);
      QuietStages(rows, READ_ONLY_TRACE);
    } else if wired {
      SimulatedJustified(e, c, live);
    } else {
      UnwiredTrace(e, c, live);
      QuietStages(rows, INTAKE);
    }
  }

  // ---------- what the authorization row says ----------

  /** A token is issued exactly in simulation for a passed verification of a proposal with actions, and permits them. */
  predicate AuthorizationSound(log: seq<Entry>, i: int)
    requires 0 <= i < |log|
  {
    log[i].AuthorizationEvaluated? ==>
      && i >= 2
      && log[i].error == None
      && (log[i].issued <==>
            && log[i].mode == SyntheticSimulation
            && log[i - 1].IndependentlyVerified? && log[i - 1].verification.passed
            && log[i - 2].PolicyProposed? && log[i - 2].proposal.actions != [])
      && log[i].permitted == if log[i].issued then log[i - 2].proposal.actions else []
  }

  predicate AllSound(log: seq<Entry>) {
    forall i | 0 <= i < |log| :: AuthorizationSound(log, i)
  }

  lemma SoundWithout(rows: seq<Entry>, stages: seq<Stage>)
    requires Follows(rows, stages) && forall i | 0 <= i < |stages| :: stages[i] != AUTHORIZATION_EVALUATED
    ensures AllSound(rows)
  {
    forall i | 0 <= i < |rows|
      ensures AuthorizationSound(rows, i)
    {
      assert StageOf(rows[i]) == stages[i];
    }
  }

  lemma SoundAt(rows: seq<Entry>, at: nat)
    requires at < |rows| && AuthorizationSound(rows, at)
    requires forall i | 0 <= i < |rows| && i != at :: StageOf(rows[i]) != AUTHORIZATION_EVALUATED
    ensures AllSound(rows)
  {
    forall i | 0 <= i < |rows|
      ensures AuthorizationSound(rows, i)
    {
      if i != at {
        assert StageOf(rows[i]) != AUTHORIZATION_EVALUATED;
      }
    }
  }

  lemma SimulatedSound(e: Setup, c: Case, live: Live)
    requires !IsReadOnly(e.mode) && TakenIn(e, c).Ready?
    ensures AllSound(Calling(e, true, c, live).rows)
  {
    var t := TakenIn(e, c);
    var call := Calling(e, true, c, live);
    RowsAt(e, c, live);
    SimulatedTrace(e, c, live);
    OneAuthorization(c, call.rows, Brokerable(t), SupportsAll(t.proposal.actions), call.outcome);
    SoundAt(call.rows, 5);
  }

  lemma OneAuthorization(c: Case, rows: seq<Entry>, k: nat, supported: bool, outcome: Attempt<Decision>)
    requires SimulatedShape(rows, c, k, supported, outcome)
    ensures forall i | 0 <= i < |rows| && i != 5 :: StageOf(rows[i]) != AUTHORIZATION_EVALUATED
  {
    forall i | 0 <= i < |rows| && i != 5
      ensures StageOf(rows[i]) != AUTHORIZATION_EVALUATED
    {
      if i < 5 {
        assert StageOf(rows[i]) == INTAKE[i];
      } else if i < 6 + k {
        assert ActionStage(StageOf(rows[i]));
      }
    }
  }

  lemma ReadOnlySound(e: Setup, wired: bool, c: Case, live: Live)
    requires IsReadOnly(e.mode) && TakenIn(e, c).Ready?
    ensures AllSound(Calling(e, wired, c, live).rows)
  {
    ReadOnlyCall(e, wired, c, live);
    var rows := Calling(e, wired, c, live).rows;
    assert StageOf(rows[5]) == READ_ONLY_TRACE[5];
    assert StageOf(rows[6]) == READ_ONLY_TRACE[6];
    forall i | 0 <= i < |rows| && i != 6
      ensures StageOf(rows[i]) != AUTHORIZATION_EVALUATED
    {
      assert StageOf(rows[i]) == READ_ONLY_TRACE[i];
    }
    SoundAt(rows, 6);
  }

  lemma CallSound(e: Setup, wired: bool, c: Case, live: Live)
    ensures AllSound(Calling(e, wired, c, live).rows)
  {
    var rows := Calling(e, wired, c, live).rows;
    if TakenIn(e, c).Stopped? {
      StoppedTrace(e, wired, c, live);
      SoundWithout(rows, INTAKE[..|rows|]);
    } else if IsReadOnly(e.mode) {
      ReadOnlySound(e, wired, c, live);
    } else if wired {
      SimulatedSound(e, c, live);
    } else {
      UnwiredTrace(e, c, live);
      SoundWithout(rows, INTAKE);
    }
  }

  // ---------- expiry ----------

  ghost predicate Monotone(w: World) {
    forall i: nat, j: nat | i <= j :: w.clock(i) <= w.clock(j)
  }

  /** When the lifetime of the token of a call ends: whole seconds from the second the gate read. */
  function Deadline(e: Setup, live: Live): int {
    (e.world.clock(live.ticks) / MICROSECONDS + e.gate.ttl) * MICROSECONDS
  }

  /** An implemented action is executed exactly when its own reading of the clock is not past the deadline. */
  lemma ExecutedExactly(e: Setup, c: Case, live: Live, i: nat)
    requires !IsReadOnly(e.mode) && TakenIn(e, c).Ready?
    requires i < Brokerable(TakenIn(e, c)) && Implemented(TakenIn(e, c).proposal.actions[i])
    ensures var rows := Calling(e, true, c, live).rows;
            && |rows| > 6 + i
            && (rows[6 + i].ActionExecuted? <==> e.world.clock(live.ticks + 1 + i) <= Deadline(e, live))
            && (rows[6 + i].ActionRejected? <==> !rows[6 + i].ActionExecuted?)
            && (rows[6 + i].ActionRejected? ==> rows[6 + i].failure.message == Refused(Expired))
  {
    RowsAt(e, c, live);
    ActedRow(e, c, TakenIn(e, c), live, i);
  }

  /** How many flags are set before the first that is not. */
  function Lead(flags: seq<bool>): (m: nat)
    ensures m <= |flags|
    ensures forall i | 0 <= i < m :: flags[i]
    ensures m < |flags| ==> !flags[m]
  {
    if flags == [] || !flags[0] then 0 else 1 + Lead(flags[1..])
  }

  /** The k action rows of a call: m executed ones, the rest rejected. */
  predicate CutAt(rows: seq<Entry>, k: nat, m: nat) {
    && |rows| >= 6 + k && m <= k
    && (forall i | 6 <= i < 6 + m :: rows[i].ActionExecuted?)
    && (forall i | 6 + m <= i < 6 + k :: rows[i].ActionRejected?)
  }

  /** If action i was not executed, action j was rejected. */
  predicate StaysLate(rows: seq<Entry>, i: nat, j: nat) {
    |rows| > 6 + i && |rows| > 6 + j && (!rows[6 + i].ActionExecuted? ==> rows[6 + j].ActionRejected?)
  }

  lemma CutExists(rows: seq<Entry>, k: nat) returns (m: nat)
    requires |rows| >= 6 + k
    requires forall i: nat, j: nat | i <= j < k :: StaysLate(rows, i, j)
    ensures CutAt(rows, k, m)
  {
    var flags := seq(k, i requires 0 <= i < k => rows[6 + i].ActionExecuted?);
    m := Lead(flags);
    forall i | 6 <= i < 6 + m
      ensures rows[i].ActionExecuted?
    {
      assert flags[i - 6];
    }
    forall i | 6 + m <= i < 6 + k
      ensures rows[i].ActionRejected?
    {
      assert !flags[m];
      assert StaysLate(rows, m, i - 6);
    }
  }

  /** Once an action came too late, so does every later one. */
  lemma LateStaysLate(e: Setup, c: Case, live: Live, i: nat, j: nat)
    requires !IsReadOnly(e.mode) && TakenIn(e, c).Ready? && Monotone(e.world)
    requires SupportsAll(TakenIn(e, c).proposal.actions) && i <= j < Brokerable(TakenIn(e, c))
    ensures StaysLate(Calling(e, true, c, live).rows, i, j)
  {
    ExecutedExactly(e, c, live, i);
    ExecutedExactly(e, c, live, j);
    assert e.world.clock(live.ticks + 1 + i) <= e.world.clock(live.ticks + 1 + j);
  }

  /** Under a clock that never runs back the action rows of a call are an executed prefix and a rejected rest. */
  lemma ExecutedPrefix(e: Setup, c: Case, live: Live) returns (m: nat)
    requires !IsReadOnly(e.mode) && TakenIn(e, c).Ready? && Monotone(e.world)
    requires SupportsAll(TakenIn(e, c).proposal.actions)
    ensures CutAt(Calling(e, true, c, live).rows, Brokerable(TakenIn(e, c)), m)
  {
    var k := Brokerable(TakenIn(e, c));
    var rows := Calling(e, true, c, live).rows;
    forall i: nat, j: nat | i <= j < k
      ensures StaysLate(rows, i, j)
    {
      LateStaysLate(e, c, live, i, j);
    }
    SimulatedTrace(e, c, live);
    m := CutExists(rows, k);
  }

  // ---------- conservation ----------

  predicate IsActionRow(row: Entry) {
    row.ActionExecuted? || row.ActionRejected?
  }

  predicate IsEffectRow(row: Entry) {
    row.ActionExecuted? && row.result.success
  }

  function Count(rows: seq<Entry>, p: Entry -> bool): nat {
    if rows == [] then 0 else Count(rows[..|rows| - 1], p) + if p(rows[|rows| - 1]) then 1 else 0
  }

  lemma {:induction false} CountJoined(a: seq<Entry>, b: seq<Entry>, p: Entry -> bool)
    ensures Count(a + b, p) == Count(a, p) + Count(b, p)
  {
    if b == [] {
      assert a + b == a;
    } else {
      var front := b[..|b| - 1];
      assert (a + b)[..|a + b| - 1] == a + front;
      CountJoined(a, front, p);
    }
  }

  lemma {:induction false} CountNone(rows: seq<Entry>, p: Entry -> bool)
    requires forall i | 0 <= i < |rows| :: !p(rows[i])
    ensures Count(rows, p) == 0
  {
    if rows != [] {
      CountNone(rows[..|rows| - 1], p);
    }
  }

  lemma {:induction false} CountAll(rows: seq<Entry>, p: Entry -> bool)
    requires forall i | 0 <= i < |rows| :: p(rows[i])
    ensures Count(rows, p) == |rows|
  {
    if rows != [] {
      CountAll(rows[..|rows| - 1], p);
    }
  }

  /** Successful results and successful rows are the same ones. */
  lemma {:induction false} EffectsCounted(rows: seq<Entry>, results: seq<ActionResult>)
    requires |rows| == |results|
    requires forall i | 0 <= i < |rows| :: IsEffectRow(rows[i]) <==> results[i].success
    ensures Count(rows, IsEffectRow) == Effects(results)
  {
    if rows != [] {
      EffectsCounted(rows[..|rows| - 1], results[..|results| - 1]);
    }
  }

  lemma {:induction false} EffectsFull(results: seq<ActionResult>)
    ensures Effects(results) == |results| <==> forall i | 0 <= i < |results| :: results[i].success
  {
    if results != [] {
      var n := |results| - 1;
      EffectsFull(results[..n]);
      assert forall i | 0 <= i < n :: results[..n][i] == results[i];
    }
  }

  /** The check after an implemented action passes exactly when the action succeeded. */
  lemma CheckIsSuccess(e: Setup, c: Case, token: Token, action: string, tick: nat, outcome: Outcome)
    requires Implemented(action) && OutcomeExact(e, c, token, action, tick, outcome)
    ensures var r := ResultOf(action, outcome);
            && r.action == action
            && (CheckPasses(r) <==> r.success)
            && (r.success <==> IsEffectRow(RowOf(c, action, outcome)))
  {
  }

  /** The counters of a decision, against the rows its call appended. */
  predicate Conserves(rows: seq<Entry>, d: Decision) {
    && d.brokerInvocations == |d.results| == Count(rows, IsActionRow)
    && d.operationalEffects == Count(rows, IsEffectRow)
    && d.operationalEffects <= d.brokerInvocations
    && d.postAction.applicable == (d.brokerInvocations > 0)
    && (d.postAction.status.NotApplicable? <==> d.brokerInvocations == 0)
    && (d.postAction.status.Verified? <==> d.operationalEffects == d.brokerInvocations > 0)
    && (d.postAction.status.Failed? <==> d.operationalEffects < d.brokerInvocations)
  }

  lemma ResultsChecked(e: Setup, c: Case, token: Token, actions: seq<string>, ticks: nat, run: Run)
    requires RunExact(e, c, token, actions, |actions|, ticks, run) && SupportsAll(actions)
    ensures var results := Results(actions, run.outcomes);
            && AllImplemented(results)
            && (ChecksPass(results) <==> Effects(results) == |results|)
            && Effects(results) == Count(ActionRows(c, actions, run.outcomes), IsEffectRow)
            && Count(ActionRows(c, actions, run.outcomes), IsActionRow) == |results|
  {
    var results := Results(actions, run.outcomes);
    var rows := ActionRows(c, actions, run.outcomes);
    forall i | 0 <= i < |actions|
      ensures Implemented(results[i].action) && (CheckPasses(results[i]) <==> results[i].success)
      ensures IsEffectRow(rows[i]) <==> results[i].success
    {
      assert OutcomeExact(e, c, token, actions[i], ticks + i, run.outcomes[i]);
      CheckIsSuccess(e, c, token, actions[i], ticks + i, run.outcomes[i]);
    }
    EffectsCounted(rows, results);
    EffectsFull(results);
    CountAll(rows, IsActionRow);
  }

  lemma CountedParts(intake: seq<Entry>, auth: Entry, acts: seq<Entry>, end: seq<Entry>)
    requires forall i | 0 <= i < |intake| :: !IsActionRow(intake[i])
    requires !IsActionRow(auth)
    requires forall i | 0 <= i < |end| :: !IsActionRow(end[i])
    ensures Count(intake + [auth] + acts + end, IsActionRow) == Count(acts, IsActionRow)
    ensures Count(intake + [auth] + acts + end, IsEffectRow) == Count(acts, IsEffectRow)
  {
    Surrounded(intake, auth, acts, end, IsActionRow);
    Surrounded(intake, auth, acts, end, IsEffectRow);
  }

  lemma Surrounded(intake: seq<Entry>, auth: Entry, acts: seq<Entry>, end: seq<Entry>, p: Entry -> bool)
    requires forall i | 0 <= i < |intake| :: !p(intake[i])
    requires !p(auth)
    requires forall i | 0 <= i < |end| :: !p(end[i])
    ensures Count(intake + [auth] + acts + end, p) == Count(acts, p)
  {
    CountNone(intake, p);
    CountNone([auth], p);
    CountNone(end, p);
    CountJoined(intake, [auth], p);
    CountJoined(intake + [auth], acts, p);
    CountJoined(intake + [auth] + acts, end, p);
  }

  /** What the run of a returning simulated call conserves. */
  lemma RunConserves(e: Setup, c: Case, t: Intake, live: Live)
    requires t.Ready? && (Cleared(t) ==> SupportsAll(t.proposal.actions))
    ensures var actions := Downgraded(t.proposal, t.verification).actions;
            var run := RunOf(e, c, t, live);
            var results := Results(actions, run.outcomes);
            var rows := ActionRows(c, actions, run.outcomes);
            && AllImplemented(results)
            && (ChecksPass(results) <==> Effects(results) == |results|)
            && Effects(results) == Count(rows, IsEffectRow)
            && Count(rows, IsActionRow) == |results|
  {
    if Cleared(t) {
      ClearedRun(e, c, t, live);
      ResultsChecked(e, c, TokenIn(e, c, t, live), t.proposal.actions, live.ticks + 1, RunOf(e, c, t, live));
    } else {
      UnclearedRun(e, c, t, live);
      var run := RunOf(e, c, t, live);
      assert Results([], run.outcomes) == [] && ActionRows(c, [], run.outcomes) == [];
    }
  }

  lemma ConcludingConserves(e: Setup, c: Case, t: Intake, p: Proposal, a: Authorization, results: seq<ActionResult>,
                            live: Live, rows: seq<Entry>)
    requires t.Ready? && AllImplemented(results)
    requires ChecksPass(results) <==> Effects(results) == |results|
    requires Effects(results) == Count(rows, IsEffectRow) && Count(rows, IsActionRow) == |results|
    ensures var end := Concluding(e, c, t, p, a, results, live);
            && end.outcome.Completed?
            && Conserves(rows, end.outcome.value)
            && forall i | 0 <= i < |end.rows| :: !IsActionRow(end.rows[i])
  {
  }

  lemma SimulatedConserves(e: Setup, c: Case, live: Live)
    requires !IsReadOnly(e.mode) && Calling(e, true, c, live).outcome.Completed?
    ensures Conserves(Calling(e, true, c, live).rows, Calling(e, true, c, live).outcome.value)
  {
    ReturnsExactly(e, true, c, live);
    var t := TakenIn(e, c);
    var p := Downgraded(t.proposal, t.verification);
    var a := Authorizing(e, c, p, t.verification, live);
    var run := RunOf(e, c, t, live);
    var ready := Live(run.states, run.ticks, Authorized(a, live).issued);
    var acts := ActionRows(c, p.actions, run.outcomes);
    var end := Concluding(e, c, t, p, a, Results(p.actions, run.outcomes), ready);
    RunConserves(e, c, t, live);
    SimulatedRows(e, c, live);
    ConcludingConserves(e, c, t, p, a, Results(p.actions, run.outcomes), ready, acts);
    CountedParts(IntakeRows(e.mode, c, t.evidence, t.assessment, t.proposal, t.verification),
                 AuthorizationRow(e.mode, c, true, TokenOf(a), ErrorOf(a)), acts, end.rows);
  }

  lemma ReadOnlyConserves(e: Setup, wired: bool, c: Case, live: Live)
    requires IsReadOnly(e.mode) && TakenIn(e, c).Ready?
    ensures Calling(e, wired, c, live).outcome.Completed?
    ensures Conserves(Calling(e, wired, c, live).rows, Calling(e, wired, c, live).outcome.value)
  {
    ReadOnlyCall(e, wired, c, live);
    var rows := Calling(e, wired, c, live).rows;
    forall i | 0 <= i < |rows|
      ensures !IsActionRow(rows[i])
    {
      assert StageOf(rows[i]) == READ_ONLY_TRACE[i];
    }
    CountNone(rows, IsActionRow);
    CountNone(rows, IsEffectRow);
  }

  /** In every returning call the counters, the results, the rows and the status of the last check agree. */
  lemma CallConserves(e: Setup, wired: bool, c: Case, live: Live)
    requires Calling(e, wired, c, live).outcome.Completed?
    ensures Conserves(Calling(e, wired, c, live).rows, Calling(e, wired, c, live).outcome.value)
  {
    ReturnsExactly(e, wired, c, live);
    if IsReadOnly(e.mode) {
      ReadOnlyConserves(e, wired, c, live);
    } else {
      SimulatedConserves(e, c, live);
    }
  }
}
