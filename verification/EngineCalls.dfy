/** What one call of the engine guarantees, for every advisor, clock, target and mode. */
module EngineCalls {
  import opened Options
  import opened Actions
  import opened Engine

  // ---------- the loop over the actions ----------

  /** What becomes of action k when the token was issued for it: its clock reading and its support decide alone. */
  predicate OutcomeExact(e: Setup, c: Case, token: Token, action: string, tick: nat, outcome: Outcome) {
    if IsExpired(token, e.world.clock(tick)) then outcome == Rejected(Expired)
    else if e.fails(c.caseId, action) || Implemented(action) then
      && outcome.Executed?
      && outcome.result.action == action
      && outcome.result.before.Some? && outcome.result.after.Some?
      && outcome.result.success == !e.fails(c.caseId, action)
      && outcome.result.after.value
         == if outcome.result.success && Implemented(action) then Effect(action, outcome.result.before.value)
            else outcome.result.before.value
    else outcome == Rejected(NotImplemented)
  }

  lemma BrokeringExact(e: Setup, c: Case, token: Token, action: string, states: States, ticks: nat)
    requires Mismatch(e.gate, token, c.caseId, action) == None
    ensures var step := Brokering(e.gate, e.world, e.fails, c, token, action, states, ticks);
            step.ticks == ticks + 1 && OutcomeExact(e, c, token, action, ticks, step.outcome)
  {
  }

  /** The loop over the actions reads the clock once for each, in order, starting at reading `ticks`. */
  predicate RunExact(e: Setup, c: Case, token: Token, actions: seq<string>, n: nat, ticks: nat, run: Run)
    requires n <= |actions|
  {
    && run.ticks == ticks + n
    && |run.outcomes| == n
    && forall i | 0 <= i < n :: OutcomeExact(e, c, token, actions[i], ticks + i, run.outcomes[i])
  }

  predicate Matches(e: Setup, c: Case, token: Token, actions: seq<string>) {
    forall i | 0 <= i < |actions| :: Mismatch(e.gate, token, c.caseId, actions[i]) == None
  }

  lemma {:induction false} RunningExact(e: Setup, c: Case, token: Token, actions: seq<string>, n: nat,
                                        states: States, ticks: nat)
    requires n <= |actions| && Matches(e, c, token, actions)
    ensures RunExact(e, c, token, actions, n, ticks, Running(e, c, token, actions, n, states, ticks))
  {
    if n > 0 {
      RunningExact(e, c, token, actions, n - 1, states, ticks);
      var before := Running(e, c, token, actions, n - 1, states, ticks);
      BrokeringExact(e, c, token, actions[n - 1], before.states, before.ticks);
    }
  }

  /** The gate's own token is never refused for its signature, its case or the action. */
  lemma TokenMatches(e: Setup, c: Case, p: Proposal, id: string, now: int)
    ensures Matches(e, c, TokenFor(e.gate, c, p, id, now), p.actions)
  {
    forall i | 0 <= i < |p.actions|
      ensures Mismatch(e.gate, TokenFor(e.gate, c, p, id, now), c.caseId, p.actions[i]) == None
    {
      IssuedTokenMatches(e.gate, c, p, id, now, p.actions[i]);
    }
  }

  // ---------- the fail-safe downgrade ----------

  /** Some of the actions the policy proposed survive to authorization only when the verifier passed them. */
  predicate Cleared(t: Intake)
    requires t.Ready?
  {
    t.verification.passed && t.proposal.actions != []
  }

  /** Whatever policy and verifier answer, the gate never raises, and issues exactly for a cleared proposal. */
  lemma FailSafe(e: Setup, c: Case, t: Intake, live: Live)
    requires t.Ready?
    ensures var p := Downgraded(t.proposal, t.verification);
            var a := Authorizing(e, c, p, t.verification, live);
            && !a.Error?
            && (a.Issued? <==> Cleared(t))
            && (a.Issued? ==> p == t.proposal && a.token.grant.permitted == t.proposal.actions
                              && a.token.grant.caseId == c.caseId)
            && (!a.Issued? ==> p.actions == [])
  {
  }

  // ---------- the shape of a call ----------

  datatype Stage =
    | CASE_RECEIVED
    | EVIDENCE_ASSESSED
    | MODEL_ASSESSED
    | POLICY_PROPOSED
    | INDEPENDENTLY_VERIFIED
    | EXECUTION_SUPPRESSED
    | AUTHORIZATION_EVALUATED
    | ACTION_EXECUTED
    | ACTION_REJECTED
    | POST_ACTION_VERIFIED
    | DECISION_FINALIZED

  function StageOf(row: Entry): Stage {
    match row
    case CaseReceived(_, _, _) => CASE_RECEIVED
    case EvidenceAssessed(_, _) => EVIDENCE_ASSESSED
    case ModelAssessed(_, _) => MODEL_ASSESSED
    case PolicyProposed(_, _, _) => POLICY_PROPOSED
    case IndependentlyVerified(_, _) => INDEPENDENTLY_VERIFIED
    case ExecutionSuppressed(_, _, _) => EXECUTION_SUPPRESSED
    case AuthorizationEvaluated(_, _, _, _, _, _, _) => AUTHORIZATION_EVALUATED
    case ActionExecuted(_, _) => ACTION_EXECUTED
    case ActionRejected(_, _) => ACTION_REJECTED
    case PostActionVerified(_, _) => POST_ACTION_VERIFIED
    case DecisionFinalized(_, _, _, _) => DECISION_FINALIZED
  }

  const INTAKE := [CASE_RECEIVED, EVIDENCE_ASSESSED, MODEL_ASSESSED, POLICY_PROPOSED, INDEPENDENTLY_VERIFIED]

  const READ_ONLY_TRACE := INTAKE + [EXECUTION_SUPPRESSED, AUTHORIZATION_EVALUATED, DECISION_FINALIZED]

  predicate Follows(rows: seq<Entry>, stages: seq<Stage>) {
    |rows| == |stages| && forall i | 0 <= i < |rows| :: StageOf(rows[i]) == stages[i]
  }

  /** Every row of a call names its case. */
  predicate AllFor(c: Case, rows: seq<Entry>) {
    forall i | 0 <= i < |rows| :: rows[i].caseId == c.caseId
  }

  predicate ActionStage(s: Stage) {
    s == ACTION_EXECUTED || s == ACTION_REJECTED
  }

  /** Five intake rows, the authorization, then k action rows. */
  predicate ActsOn(rows: seq<Entry>, k: nat) {
    && |rows| >= 6 + k
    && (forall i | 0 <= i < 5 :: StageOf(rows[i]) == INTAKE[i])
    && StageOf(rows[5]) == AUTHORIZATION_EVALUATED
    && forall i | 6 <= i < 6 + k :: ActionStage(StageOf(rows[i]))
  }

  /** How many actions a call brokers: all of a cleared proposal's, or none. */
  function Brokerable(t: Intake): nat
    requires t.Ready?
  {
    if Cleared(t) then |t.proposal.actions| else 0
  }

  predicate SupportsAll(actions: seq<string>) {
    forall i | 0 <= i < |actions| :: Implemented(actions[i])
  }

  /** A raising advisor leaves a proper, non-empty prefix of the intake. */
  lemma StoppedTrace(e: Setup, wired: bool, c: Case, live: Live)
    requires TakenIn(e, c).Stopped?
    ensures var call := Calling(e, wired, c, live);
            && call.outcome == Raised(AdvisorFault)
            && call.live == live
            && 0 < |call.rows| < 5
            && Follows(call.rows, INTAKE[..|call.rows|])
            && AllFor(c, call.rows)
  {
  }

  /** A read-only call appends exactly the eight stages and leaves target and clock alone, whatever is wired up. */
  lemma ReadOnlyCall(e: Setup, wired: bool, c: Case, live: Live)
    requires IsReadOnly(e.mode) && TakenIn(e, c).Ready?
    ensures var t := TakenIn(e, c);
            var call := Calling(e, wired, c, live);
            && Follows(call.rows, READ_ONLY_TRACE)
            && AllFor(c, call.rows)
            && call.live == live.(issued := live.issued + 1)
            && call.outcome.Completed?
            && var d := call.outcome.value;
               && d.token == None && !d.attempted && d.brokerInvocations == 0 && d.operationalEffects == 0
               && d.results == [] && d.postAction == NOTHING_TO_CHECK && d.proposal.actions == []
               && d.counterfactual == (if Cleared(t) then t.proposal.actions else [])
               && !call.rows[6].issued && call.rows[6].permitted == [] && call.rows[6].error == None
  {
  }

  /** The run of the actions inside a simulated call. */
  function RunOf(e: Setup, c: Case, t: Intake, live: Live): Run
    requires t.Ready?
  {
    var p := Downgraded(t.proposal, t.verification);
    var a := Authorizing(e, c, p, t.verification, live);
    Acting(e, c, a, p, Authorized(a, live))
  }

  /** The token of a cleared proposal. */
  function TokenIn(e: Setup, c: Case, t: Intake, live: Live): Token
    requires t.Ready?
  {
    TokenFor(e.gate, c, t.proposal, e.world.ids(live.issued), e.world.clock(live.ticks))
  }

  lemma ClearedAuthorizing(e: Setup, c: Case, t: Intake, live: Live)
    requires t.Ready? && Cleared(t)
    ensures Downgraded(t.proposal, t.verification) == t.proposal
    ensures Authorizing(e, c, t.proposal, t.verification, live) == Issued(TokenIn(e, c, t, live))
  {
  }

  /** A cleared proposal is run under its own token, the clock read once for the token, then once per action. */
  lemma ClearedRun(e: Setup, c: Case, t: Intake, live: Live)
    requires t.Ready? && Cleared(t)
    ensures var actions := t.proposal.actions;
            && RunOf(e, c, t, live)
               == Running(e, c, TokenIn(e, c, t, live), actions, |actions|, live.states, live.ticks + 1)
            && RunExact(e, c, TokenIn(e, c, t, live), actions, |actions|, live.ticks + 1, RunOf(e, c, t, live))
  {
    ClearedAuthorizing(e, c, t, live);
    TokenMatches(e, c, t.proposal, e.world.ids(live.issued), e.world.clock(live.ticks));
    RunningExact(e, c, TokenIn(e, c, t, live), t.proposal.actions, |t.proposal.actions|, live.states, live.ticks + 1);
  }

  /** Any other proposal runs nothing. */
  lemma UnclearedRun(e: Setup, c: Case, t: Intake, live: Live)
    requires t.Ready? && !Cleared(t)
    ensures RunOf(e, c, t, live) == Run(live.states, live.ticks, [])
    ensures Downgraded(t.proposal, t.verification).actions == []
  {
  }

  /** Every brokered action, executed or refused, is reported under its own name. */
  lemma ResultsNamed(e: Setup, c: Case, token: Token, actions: seq<string>, ticks: nat, run: Run)
    requires RunExact(e, c, token, actions, |actions|, ticks, run)
    ensures AllImplemented(Results(actions, run.outcomes)) <==> SupportsAll(actions)
  {
    forall i | 0 <= i < |actions|
      ensures Results(actions, run.outcomes)[i].action == actions[i]
    {
      assert OutcomeExact(e, c, token, actions[i], ticks + i, run.outcomes[i]);
    }
  }

  /** The rows of a simulated call, part by part. */
  lemma SimulatedRows(e: Setup, c: Case, live: Live)
    requires !IsReadOnly(e.mode) && TakenIn(e, c).Ready?
    ensures var t := TakenIn(e, c);
            var p := Downgraded(t.proposal, t.verification);
            var a := Authorizing(e, c, p, t.verification, live);
            var run := RunOf(e, c, t, live);
            var ready := Live(run.states, run.ticks, Authorized(a, live).issued);
            var results := Results(p.actions, run.outcomes);
            var end := Concluding(e, c, t, p, a, results, ready);
            Calling(e, true, c, live) ==
            Call(IntakeRows(e.mode, c, t.evidence, t.assessment, t.proposal, t.verification)
                   + [AuthorizationRow(e.mode, c, true, TokenOf(a), ErrorOf(a))]
                   + ActionRows(c, p.actions, run.outcomes) + end.rows,
                 end.live, end.outcome)
  {
    var t := TakenIn(e, c);
    var p := Downgraded(t.proposal, t.verification);
    var a := Authorizing(e, c, p, t.verification, live);
    var run := RunOf(e, c, t, live);
    var ready := Live(run.states, run.ticks, Authorized(a, live).issued);
    var results := Results(p.actions, run.outcomes);
    var end := Concluding(e, c, t, p, a, results, ready);
    assert Simulating(e, true, c, t, live).rows ==
           [AuthorizationRow(e.mode, c, true, TokenOf(a), ErrorOf(a))] + ActionRows(c, p.actions, run.outcomes)
           + end.rows;
    Joined(IntakeRows(e.mode, c, t.evidence, t.assessment, t.proposal, t.verification),
           [AuthorizationRow(e.mode, c, true, TokenOf(a), ErrorOf(a))], ActionRows(c, p.actions, run.outcomes),
           end.rows);
  }

  lemma Joined(a: seq<Entry>, b: seq<Entry>, c: seq<Entry>, d: seq<Entry>)
    ensures a + (b + c + d) == a + b + c + d
  {
  }

  /** The check after the actions raises exactly on one without an expected state. */
  lemma RaisesExactly(e: Setup, c: Case, t: Intake, live: Live)
    requires t.Ready?
    ensures var results := Results(Downgraded(t.proposal, t.verification).actions, RunOf(e, c, t, live).outcomes);
            && |results| == Brokerable(t)
            && Downgraded(t.proposal, t.verification).actions == (if Cleared(t) then t.proposal.actions else [])
            && (AllImplemented(results) <==> (Brokerable(t) == 0 || SupportsAll(t.proposal.actions)))
  {
    if Cleared(t) {
      ClearedRun(e, c, t, live);
      ResultsNamed(e, c, TokenIn(e, c, t, live), t.proposal.actions, live.ticks + 1, RunOf(e, c, t, live));
    } else {
      UnclearedRun(e, c, t, live);
    }
  }

  lemma IntakeTrace(mode: Mode, c: Case, ev: Evidence, a: Assessment, p: Proposal, v: Verification)
    ensures Follows(IntakeRows(mode, c, ev, a, p, v), INTAKE) && AllFor(c, IntakeRows(mode, c, ev, a, p, v))
  {
  }

  lemma ActionRowsTrace(c: Case, actions: seq<string>, outcomes: seq<Outcome>)
    requires |outcomes| <= |actions|
    ensures var rows := ActionRows(c, actions, outcomes);
            AllFor(c, rows) && forall i | 0 <= i < |rows| :: ActionStage(StageOf(rows[i]))
  {
  }

  lemma ConcludingTrace(e: Setup, c: Case, t: Intake, p: Proposal, a: Authorization, results: seq<ActionResult>,
                        live: Live)
    requires t.Ready?
    ensures var end := Concluding(e, c, t, p, a, results, live);
            && AllFor(c, end.rows)
            && end.outcome.Completed? == AllImplemented(results)
            && (end.outcome.Raised? ==> end.outcome.fault == NoExpectedState && end.rows == [])
            && (end.outcome.Completed? && results == [] ==> Follows(end.rows, [DECISION_FINALIZED]))
            && (end.outcome.Completed? && results != [] ==>
                  Follows(end.rows, [POST_ACTION_VERIFIED, DECISION_FINALIZED]))
  {
  }

  /**
   The shape of a simulated call: intake, authorization and one row per brokered action always; the check after the
   actions exactly when there were any, and the final row.  It raises exactly on an action without an expected state.
   */
  predicate SimulatedShape(rows: seq<Entry>, c: Case, k: nat, supported: bool, outcome: Attempt<Decision>) {
    && ActsOn(rows, k)
    && AllFor(c, rows)
    && outcome.Completed? == (k == 0 || supported)
    && (outcome.Raised? ==> outcome.fault == NoExpectedState && |rows| == 6 + k)
    && (outcome.Completed? && k == 0 ==> |rows| == 7 && StageOf(rows[6]) == DECISION_FINALIZED)
    && (outcome.Completed? && k > 0 ==>
          && |rows| == 8 + k
          && StageOf(rows[6 + k]) == POST_ACTION_VERIFIED
          && StageOf(rows[7 + k]) == DECISION_FINALIZED)
  }

  /** What the rows after the last action are. */
  predicate EndShape(end: seq<Entry>, k: nat, supported: bool, outcome: Attempt<Decision>) {
    && outcome.Completed? == (k == 0 || supported)
    && (outcome.Raised? ==> outcome.fault == NoExpectedState && end == [])
    && (outcome.Completed? && k == 0 ==> Follows(end, [DECISION_FINALIZED]))
    && (outcome.Completed? && k > 0 ==> Follows(end, [POST_ACTION_VERIFIED, DECISION_FINALIZED]))
  }

  lemma FromParts(c: Case, intake: seq<Entry>, auth: Entry, acts: seq<Entry>, end: seq<Entry>, supported: bool,
                  outcome: Attempt<Decision>)
    requires Follows(intake, INTAKE) && StageOf(auth) == AUTHORIZATION_EVALUATED
    requires forall i | 0 <= i < |acts| :: ActionStage(StageOf(acts[i]))
    requires AllFor(c, intake) && auth.caseId == c.caseId && AllFor(c, acts) && AllFor(c, end)
    requires EndShape(end, |acts|, supported, outcome)
    ensures SimulatedShape(intake + [auth] + acts + end, c, |acts|, supported, outcome)
  {
    var rows := intake + [auth] + acts + end;
    assert forall i | 0 <= i < 5 :: rows[i] == intake[i];
    assert rows[5] == auth;
    assert forall i | 6 <= i < 6 + |acts| :: rows[i] == acts[i - 6];
    assert forall i | 6 + |acts| <= i < |rows| :: rows[i] == end[i - 6 - |acts|];
  }

  /** The end of a simulated call, run and check together. */
  lemma SimulatedEnd(e: Setup, c: Case, t: Intake, live: Live, after: Live)
    requires t.Ready?
    ensures var p := Downgraded(t.proposal, t.verification);
            var a := Authorizing(e, c, p, t.verification, live);
            var end := Concluding(e, c, t, p, a, Results(p.actions, RunOf(e, c, t, live).outcomes), after);
            && |RunOf(e, c, t, live).outcomes| == Brokerable(t)
            && AllFor(c, end.rows) && EndShape(end.rows, Brokerable(t), SupportsAll(t.proposal.actions), end.outcome)
  {
    var p := Downgraded(t.proposal, t.verification);
    var a := Authorizing(e, c, p, t.verification, live);
    RaisesExactly(e, c, t, live);
    ConcludingTrace(e, c, t, p, a, Results(p.actions, RunOf(e, c, t, live).outcomes), after);
  }

  /** The parts of a simulated call, as named by `SimulatedRows`, have the shape. */
  lemma SimulatedParts(e: Setup, c: Case, t: Intake, live: Live, after: Live)
    requires t.Ready?
    ensures var p := Downgraded(t.proposal, t.verification);
            var a := Authorizing(e, c, p, t.verification, live);
            var run := RunOf(e, c, t, live);
            var end := Concluding(e, c, t, p, a, Results(p.actions, run.outcomes), after);
            SimulatedShape(
              IntakeRows(e.mode, c, t.evidence, t.assessment, t.proposal, t.verification)
                + [AuthorizationRow(e.mode, c, true, TokenOf(a), ErrorOf(a))]
                + ActionRows(c, p.actions, run.outcomes) + end.rows,
              c, Brokerable(t), SupportsAll(t.proposal.actions), end.outcome)
  {
    var p := Downgraded(t.proposal, t.verification);
    var a := Authorizing(e, c, p, t.verification, live);
    var run := RunOf(e, c, t, live);
    var end := Concluding(e, c, t, p, a, Results(p.actions, run.outcomes), after);
    IntakeTrace(e.mode, c, t.evidence, t.assessment, t.proposal, t.verification);
    SimulatedEnd(e, c, t, live, after);
    ActionRowsTrace(c, p.actions, run.outcomes);
    FromParts(c, IntakeRows(e.mode, c, t.evidence, t.assessment, t.proposal, t.verification),
              AuthorizationRow(e.mode, c, true, TokenOf(a), ErrorOf(a)), ActionRows(c, p.actions, run.outcomes),
              end.rows, SupportsAll(t.proposal.actions), end.outcome);
  }

  lemma SimulatedTrace(e: Setup, c: Case, live: Live)
    requires !IsReadOnly(e.mode) && TakenIn(e, c).Ready?
    ensures var t := TakenIn(e, c);
            var call := Calling(e, true, c, live);
            SimulatedShape(call.rows, c, Brokerable(t), SupportsAll(t.proposal.actions), call.outcome)
  {
    var t := TakenIn(e, c);
    var a := Authorizing(e, c, Downgraded(t.proposal, t.verification), t.verification, live);
    var run := RunOf(e, c, t, live);
    SimulatedRows(e, c, live);
    SimulatedParts(e, c, t, live, Live(run.states, run.ticks, Authorized(a, live).issued));
  }

  /** Without the wiring a simulated call stops after the intake, having touched nothing. */
  lemma UnwiredTrace(e: Setup, c: Case, live: Live)
    requires !IsReadOnly(e.mode) && TakenIn(e, c).Ready?
    ensures var call := Calling(e, false, c, live);
            && call.outcome == Raised(UnsafeWiring) && call.live == live
            && Follows(call.rows, INTAKE) && AllFor(c, call.rows)
  {
  }

  /** When a call returns: nothing raised on the way in, and no brokered action is unknown to the final check. */
  lemma ReturnsExactly(e: Setup, wired: bool, c: Case, live: Live)
    ensures Calling(e, wired, c, live).outcome.Completed? <==>
            var t := TakenIn(e, c);
            t.Ready? && (IsReadOnly(e.mode) || (wired && (!Cleared(t) || SupportsAll(t.proposal.actions))))
  {
    var t := TakenIn(e, c);
    if t.Ready? && !IsReadOnly(e.mode) && wired {
      SimulatedTrace(e, c, live);
    }
  }
}
