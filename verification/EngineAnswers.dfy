/** What one call answers, in literals: the decision field by field, every row, and what became of the target. */
module EngineAnswers {
  import opened Options
  import opened Actions
  import opened Engine
  import opened EngineCalls

  /** What the four advisors answer about a case. */
  predicate Advised(e: Setup, c: Case, ev: Evidence, a: Assessment, p: Proposal, v: Verification) {
    && e.advisors.assess(c) == Completed(ev)
    && e.advisors.model(c) == Completed(a)
    && e.advisors.propose(c, a, ev) == Completed(p)
    && e.advisors.verify(c, a, ev, p) == Completed(v)
  }

  predicate ReadOnly(e: Setup) {
    e.mode != SyntheticSimulation
  }

  /** The policy proposed actions that the verifier did not pass. */
  predicate Unpassed(p: Proposal, v: Verification) {
    p.actions != [] && !v.passed
  }

  /** The proposal of a decision, from the policy's. */
  predicate ProposalTold(e: Setup, p: Proposal, v: Verification, told: Proposal) {
    if Unpassed(p, v) then
      told == Proposal(
        "INVESTIGATE", [], [], ["resolve_independent_verifier_failure", "collect_additional_evidence"],
        p.rationale + ["Independent verification failed; the action proposal was downgraded to investigation."],
        p.rules + ["FAIL-SAFE-VERIFIER-DOWNGRADE"], p.evidenceIds,
        if ReadOnly(e) then "read_only_observation" else "read_only_automation", map[])
    else if ReadOnly(e) then
      told == Proposal(p.disposition, [], p.humanActions, p.investigationActions, p.rationale, p.rules, p.evidenceIds,
                       "read_only_observation", map[])
    else told == p
  }

  /** The part of a decision that does not depend on what became of the actions. */
  predicate DecisionTold(e: Setup, c: Case, ev: Evidence, a: Assessment, p: Proposal, v: Verification, d: Decision) {
    && d.caseId == c.caseId && d.subjectId == c.subjectId && d.mode == e.mode
    && d.evidence == ev && d.assessment == a && d.verification == v
    && d.originalDisposition == p.disposition
    && d.finalDisposition == d.proposal.disposition
    && ProposalTold(e, p, v, d.proposal)
    && d.counterfactual == (if ReadOnly(e) && !Unpassed(p, v) then p.actions else [])
    && d.authorizationError == None
    && d.attempted == !ReadOnly(e)
  }

  // ---------- the intake ----------

  predicate IntakeTold(e: Setup, c: Case, ev: Evidence, a: Assessment, p: Proposal, v: Verification, rows: seq<Entry>) {
    && |rows| == 5
    && rows[0] == CaseReceived(c.caseId, c.subjectId, c.eventIds)
    && rows[1] == EvidenceAssessed(c.caseId, ev)
    && rows[2] == ModelAssessed(c.caseId, a)
    && rows[3] == (if ReadOnly(e)
                   then PolicyProposed(c.caseId, Proposal(p.disposition, [], p.humanActions, p.investigationActions,
                                                          p.rationale, p.rules, p.evidenceIds, p.authority,
                                                          p.rollbackPlan), Some(p.actions))
                   else PolicyProposed(c.caseId, p, None))
    && rows[4] == IndependentlyVerified(c.caseId, v)
  }

  lemma IntakeAnswers(e: Setup, c: Case, ev: Evidence, a: Assessment, p: Proposal, v: Verification)
    ensures Advised(e, c, ev, a, p, v) ==> TakenIn(e, c) == Ready(ev, a, p, v)
    ensures IntakeTold(e, c, ev, a, p, v, IntakeRows(e.mode, c, ev, a, p, v))
  {
  }

  lemma DowngradedTold(e: Setup, p: Proposal, v: Verification)
    ensures ReadOnly(e) ==> ProposalTold(e, p, v, Observed(Downgraded(p, v)))
    ensures !ReadOnly(e) ==> ProposalTold(e, p, v, Downgraded(p, v))
    ensures Downgraded(p, v).actions == if Unpassed(p, v) then [] else p.actions
    ensures Downgraded(p, v).disposition == if Unpassed(p, v) then "INVESTIGATE" else p.disposition
  {
  }

  // ---------- a read-only call ----------

  /** Nothing is authorized, run or checked. */
  predicate NothingDone(d: Decision) {
    && d.token == None && d.results == [] && d.brokerInvocations == 0 && d.operationalEffects == 0
    && d.postAction == PostAction(false, NotApplicable, None, [])
  }

  predicate ReadOnlyRows(e: Setup, c: Case, d: Decision, rows: seq<Entry>) {
    && |rows| == 3
    && rows[0] == ExecutionSuppressed(c.caseId, e.mode, d.counterfactual)
    && rows[1] == AuthorizationEvaluated(c.caseId, e.mode, false, false, "", [], None)
    && rows[2] == DecisionFinalized(c.caseId, d.decisionId, d.finalDisposition, e.seal(d))
  }

  lemma ObservingTold(e: Setup, c: Case, live: Live, ev: Evidence, a: Assessment, p: Proposal, v: Verification)
    requires ReadOnly(e)
    ensures var call := Observing(e, c, Ready(ev, a, p, v), live);
            && call.outcome.Completed?
            && DecisionTold(e, c, ev, a, p, v, call.outcome.value)
            && NothingDone(call.outcome.value)
            && call.outcome.value.decisionId == e.world.ids(live.issued)
            && ReadOnlyRows(e, c, call.outcome.value, call.rows)
            && call.live == Live(live.states, live.ticks, live.issued + 1)
  {
    DowngradedTold(e, p, v);
  }

  /** A call in one of the two read-only modes. */
  lemma ReadOnlyAnswers(e: Setup, wired: bool, c: Case, live: Live,
                        ev: Evidence, a: Assessment, p: Proposal, v: Verification)
    requires Advised(e, c, ev, a, p, v) && ReadOnly(e)
    ensures var call := Calling(e, wired, c, live);
            && call.outcome.Completed?
            && DecisionTold(e, c, ev, a, p, v, call.outcome.value)
            && NothingDone(call.outcome.value)
            && call.outcome.value.decisionId == e.world.ids(live.issued)
            && |call.rows| == 8
            && IntakeTold(e, c, ev, a, p, v, call.rows[..5])
            && ReadOnlyRows(e, c, call.outcome.value, call.rows[5..])
            && call.live == Live(live.states, live.ticks, live.issued + 1)
  {
    IntakeAnswers(e, c, ev, a, p, v);
    ObservingTold(e, c, live, ev, a, p, v);
    var intake := IntakeRows(e.mode, c, ev, a, p, v);
    var rest := Observing(e, c, Ready(ev, a, p, v), live).rows;
    assert (intake + rest)[..5] == intake && (intake + rest)[5..] == rest;
  }

  // ---------- one brokered action ----------

  /** The state of the case as the broker finds or first makes it. */
  function Found(c: Case, states: States): IdentityState {
    if c.caseId in states then states[c.caseId] else IdentityState(c.subjectId, 2, false, "baseline", true)
  }

  /** The state an action leaves and the way back it names; none when the target does not know it. */
  function Left(action: string, s: IdentityState): Option<(IdentityState, string)> {
    if action == "revoke_active_sessions" then
      Some((IdentityState(s.subjectId, 0, s.stepUpRequired, s.monitoringLevel, s.accountEnabled),
            "reauthentication_required"))
    else if action == "force_step_up_auth" then
      Some((IdentityState(s.subjectId, s.activeSessions, true, s.monitoringLevel, s.accountEnabled),
            "remove_temporary_step_up_policy"))
    else if action == "increase_monitoring" then
      Some((IdentityState(s.subjectId, s.activeSessions, s.stepUpRequired, "enhanced", s.accountEnabled),
            "restore_baseline_monitoring"))
    else None
  }

  /** What an action that reads the clock at `now` makes of the target, and how result and row report it. */
  predicate ActionTold(e: Setup, c: Case, expiresAt: int, action: string, now: int, before: States, after: States,
                       result: ActionResult, row: Entry)
  {
    if now > expiresAt * 1_000_000 then
      && after == before
      && result == ActionResult(action, false, None, None, Refused(Expired), "none")
      && row == ActionRejected(c.caseId, result)
    else
      var s := Found(c, before);
      if e.fails(c.caseId, action) then
        && after == before[c.caseId := s]
        && result == ActionResult(action, false, Some(s), Some(s), DownstreamFailure, "not_required_no_change")
        && row == ActionExecuted(c.caseId, result)
      else
        match Left(action, s)
        case Some((t, rollback)) =>
          && after == before[c.caseId := t]
          && result == ActionResult(action, true, Some(s), Some(t), Applied, rollback)
          && row == ActionExecuted(c.caseId, result)
        case None =>
          && after == before[c.caseId := s]
          && result == ActionResult(action, false, None, None, Refused(NotImplemented), "none")
          && row == ActionRejected(c.caseId, result)
  }

  lemma EnsuredTold(c: Case, states: States)
    ensures Ensured(states, c) == states[c.caseId := Found(c, states)]
  {
  }

  lemma ApplyingTold(fails: bool, action: string, s: IdentityState)
    ensures Applying(fails, action, s) ==
            if fails then
              Some(ActionResult(action, false, Some(s), Some(s), DownstreamFailure, "not_required_no_change"))
            else match Left(action, s)
                 case Some((t, rollback)) => Some(ActionResult(action, true, Some(s), Some(t), Applied, rollback))
                 case None => None
    ensures Implemented(action) <==> Left(action, s).Some?
    ensures Implemented(action) ==> Effect(action, s) == Left(action, s).value.0
  {
  }

  lemma BrokeringTold(e: Setup, c: Case, token: Token, action: string, states: States, ticks: nat)
    requires Mismatch(e.gate, token, c.caseId, action) == None
    ensures var step := Brokering(e.gate, e.world, e.fails, c, token, action, states, ticks);
            && step.ticks == ticks + 1
            && ActionTold(e, c, token.grant.expiresAt, action, e.world.clock(ticks), states, step.states,
                          ResultOf(action, step.outcome), RowOf(c, action, step.outcome))
  {
    EnsuredTold(c, states);
    ApplyingTold(e.fails(c.caseId, action), action, Found(c, states));
  }

  // ---------- the loop over the actions ----------

  lemma {:induction false} RunningPrefix(e: Setup, c: Case, token: Token, actions: seq<string>, k: nat, n: nat,
                                         states: States, ticks: nat)
    requires k <= n <= |actions|
    ensures Running(e, c, token, actions, k, states, ticks).outcomes
         == Running(e, c, token, actions, n, states, ticks).outcomes[..k]
  {
    var run := Running(e, c, token, actions, n, states, ticks);
    if k == n {
      assert run.outcomes[..k] == run.outcomes;
    } else {
      RunningPrefix(e, c, token, actions, k, n - 1, states, ticks);
    }
  }

  /** The target after each of the actions. */
  function Targets(e: Setup, c: Case, token: Token, actions: seq<string>, states: States, ticks: nat): seq<States> {
    seq(|actions| + 1, k requires 0 <= k < |actions| + 1 => Running(e, c, token, actions, k, states, ticks).states)
  }

  /** Every action is told from the target it found to the target it left, each finding what the one before it left. */
  predicate ActionsTold(e: Setup, c: Case, expiresAt: int, actions: seq<string>, ticks: nat, targets: seq<States>,
                        results: seq<ActionResult>, rows: seq<Entry>)
  {
    && |targets| == |actions| + 1 && |results| == |actions| && |rows| == |actions|
    && forall k | 0 <= k < |actions| ::
         ActionTold(e, c, expiresAt, actions[k], e.world.clock(ticks + k), targets[k], targets[k + 1], results[k],
                    rows[k])
  }

  /** A whole run of actions: from the target it starts at to the one it leaves, the clock read once for each. */
  predicate RunIsTold(e: Setup, c: Case, expiresAt: int, actions: seq<string>, states: States, ticks: nat, run: Run,
                      targets: seq<States>)
    requires |run.outcomes| == |actions|
  {
    && ActionsTold(e, c, expiresAt, actions, ticks, targets, Results(actions, run.outcomes),
                   ActionRows(c, actions, run.outcomes))
    && targets[0] == states && targets[|actions|] == run.states && run.ticks == ticks + |actions|
  }

  lemma RunTold(e: Setup, c: Case, token: Token, actions: seq<string>, states: States, ticks: nat)
    requires Matches(e, c, token, actions)
    ensures RunIsTold(e, c, token.grant.expiresAt, actions, states, ticks,
                      Running(e, c, token, actions, |actions|, states, ticks),
                      Targets(e, c, token, actions, states, ticks))
  {
    var run := Running(e, c, token, actions, |actions|, states, ticks);
    RunningExact(e, c, token, actions, |actions|, states, ticks);
    forall k | 0 <= k < |actions|
      ensures ActionTold(e, c, token.grant.expiresAt, actions[k], e.world.clock(ticks + k),
                         Running(e, c, token, actions, k, states, ticks).states,
                         Running(e, c, token, actions, k + 1, states, ticks).states,
                         Results(actions, run.outcomes)[k], ActionRows(c, actions, run.outcomes)[k])
    {
      RunStepTold(e, c, token, actions, k, states, ticks);
    }
  }

  lemma RunStepTold(e: Setup, c: Case, token: Token, actions: seq<string>, k: nat, states: States, ticks: nat)
    requires Matches(e, c, token, actions) && k < |actions|
    ensures var run := Running(e, c, token, actions, |actions|, states, ticks);
            ActionTold(e, c, token.grant.expiresAt, actions[k], e.world.clock(ticks + k),
                       Running(e, c, token, actions, k, states, ticks).states,
                       Running(e, c, token, actions, k + 1, states, ticks).states,
                       ResultOf(actions[k], run.outcomes[k]), RowOf(c, actions[k], run.outcomes[k]))
  {
    var before := Running(e, c, token, actions, k, states, ticks);
    RunningExact(e, c, token, actions, k, states, ticks);
    BrokeringTold(e, c, token, actions[k], before.states, before.ticks);
    RunningPrefix(e, c, token, actions, k + 1, |actions|, states, ticks);
    var run := Running(e, c, token, actions, |actions|, states, ticks);
    assert run.outcomes[k] == run.outcomes[..k + 1][k];
  }

  // ---------- a simulated call ----------

  /** What an issued token grants: this case and exactly these actions, from the second of the reading on. */
  predicate GrantTold(e: Setup, c: Case, p: Proposal, id: string, now: int, g: Grant) {
    && g.tokenId == id
    && g.caseId == c.caseId
    && g.decisionHash == e.gate.digest(c.caseId, p.disposition, p.actions, p.rules, p.evidenceIds)
    && g.permitted == p.actions
    && g.issuedAt * 1_000_000 <= now < (g.issuedAt + 1) * 1_000_000
    && g.expiresAt == g.issuedAt + e.gate.ttl
  }

  lemma GrantIsTold(e: Setup, c: Case, p: Proposal, id: string, now: int)
    ensures GrantTold(e, c, p, id, now, TokenFor(e.gate, c, p, id, now).grant)
  {
    IssuedTokenLifetime(e.gate, c, p, id, now, now);
  }

  /** One check: the field of the state the action is about, the value it should have and the value it has. */
  predicate CheckTold(r: ActionResult, check: Check) {
    && check.action == r.action
    && (r.action == "revoke_active_sessions" ==>
          && check.field == "active_sessions" && check.expected == Amount(0)
          && check.actual == if r.after.Some? then Some(Amount(r.after.value.activeSessions)) else None)
    && (r.action == "force_step_up_auth" ==>
          && check.field == "step_up_required" && check.expected == Flag(true)
          && check.actual == if r.after.Some? then Some(Flag(r.after.value.stepUpRequired)) else None)
    && (r.action == "increase_monitoring" ==>
          && check.field == "monitoring_level" && check.expected == Level("enhanced")
          && check.actual == if r.after.Some? then Some(Level(r.after.value.monitoringLevel)) else None)
    && (check.passed <==> r.success && check.actual == Some(check.expected))
  }

  lemma CheckIsTold(r: ActionResult)
    requires Implemented(r.action)
    ensures CheckTold(r, CheckOf(r))
  {
  }

  predicate ChecksTold(results: seq<ActionResult>, a: PostAction) {
    && a.applicable == (results != [])
    && |a.checks| == |results|
    && (forall k | 0 <= k < |results| :: CheckTold(results[k], a.checks[k]))
    && a.passed == Some(forall k | 0 <= k < |results| :: a.checks[k].passed)
    && a.status == if results == [] then NotApplicable else if a.passed == Some(true) then Verified else Failed
  }

  lemma ChecksAreTold(results: seq<ActionResult>)
    requires AllImplemented(results)
    ensures ChecksTold(results, PostActionOf(results))
  {
    forall k | 0 <= k < |results| ensures CheckTold(results[k], Checks(results)[k]) {
      CheckIsTold(results[k]);
    }
  }

  function Successes(results: seq<ActionResult>): set<int> {
    set k | 0 <= k < |results| && results[k].success
  }

  lemma {:induction false} EffectsTold(results: seq<ActionResult>)
    ensures Effects(results) == |Successes(results)|
  {
    if results == [] {
      assert Successes(results) == {};
    } else {
      var n := |results| - 1;
      var before := Successes(results[..n]);
      EffectsTold(results[..n]);
      assert Successes(results) == if results[n].success then before + {n} else before;
      assert n !in before;
    }
  }

  /** What a decision says of the results of its actions. */
  predicate ResultsTold(d: Decision) {
    && ChecksTold(d.results, d.postAction)
    && d.brokerInvocations == |d.results|
    && d.operationalEffects == |Successes(d.results)|
  }

  /** The last rows: the check when there were results, then the decision. */
  predicate EndTold(e: Setup, c: Case, d: Decision, rows: seq<Entry>) {
    var final := DecisionFinalized(c.caseId, d.decisionId, d.finalDisposition, e.seal(d));
    rows == if d.results == [] then [final] else [PostActionVerified(c.caseId, d.postAction), final]
  }

  /** The end of a simulated call. */
  predicate Concluded(e: Setup, c: Case, live: Live, ev: Evidence, a: Assessment, p: Proposal, v: Verification,
                      auth: Authorization, results: seq<ActionResult>, call: Call)
  {
    && call.outcome.Completed?
    && var d := call.outcome.value;
       && DecisionTold(e, c, ev, a, p, v, d)
       && d.decisionId == e.world.ids(live.issued)
       && d.results == results && ResultsTold(d)
       && d.token == (if auth.Issued? then Some(auth.token.grant) else None)
       && EndTold(e, c, d, call.rows)
       && call.live == Live(live.states, live.ticks, live.issued + 1)
  }

  lemma ConcludingTold(e: Setup, c: Case, live: Live, ev: Evidence, a: Assessment, p: Proposal, v: Verification,
                       auth: Authorization, results: seq<ActionResult>)
    requires !ReadOnly(e) && AllImplemented(results) && !auth.Error?
    ensures Concluded(e, c, live, ev, a, p, v, auth, results,
                      Concluding(e, c, Ready(ev, a, p, v), Downgraded(p, v), auth, results, live))
  {
    DowngradedTold(e, p, v);
    ChecksAreTold(results);
    EffectsTold(results);
  }

  lemma CompletedTold(e: Setup, c: Case, live: Live, ev: Evidence, a: Assessment, p: Proposal, v: Verification,
                      q: Proposal, auth: Authorization, results: seq<ActionResult>, call: Call)
    requires !ReadOnly(e) && !auth.Error? && q == Downgraded(p, v) && call.outcome.Completed?
    requires call == Concluding(e, c, Ready(ev, a, p, v), q, auth, results, live)
    ensures Concluded(e, c, live, ev, a, p, v, auth, results, call)
  {
    ConcludingTold(e, c, live, ev, a, p, v, auth, results);
  }

  lemma Sliced(a: seq<Entry>, b: Entry, c: seq<Entry>, d: seq<Entry>)
    requires |a| == 5
    ensures var rows := a + [b] + c + d;
            && |rows| == 6 + |c| + |d|
            && rows[..5] == a && rows[5] == b && rows[6..6 + |c|] == c && rows[6 + |c|..] == d
  {
  }

  /** A simulated call without a token: nothing is run. */
  predicate DeclinedTold(e: Setup, c: Case, live: Live, ev: Evidence, a: Assessment, p: Proposal, v: Verification,
                         d: Decision, call: Call)
  {
    && DecisionTold(e, c, ev, a, p, v, d)
    && d.token == None && d.results == [] && ResultsTold(d)
    && d.decisionId == e.world.ids(live.issued)
    && |call.rows| == 7
    && IntakeTold(e, c, ev, a, p, v, call.rows[..5])
    && call.rows[5] == AuthorizationEvaluated(c.caseId, e.mode, true, false, "", [], None)
    && EndTold(e, c, d, call.rows[6..])
    && call.live == Live(live.states, live.ticks, live.issued + 1)
  }

  lemma DeclinedAssembled(e: Setup, c: Case, live: Live, ev: Evidence, a: Assessment, p: Proposal, v: Verification,
                          intake: seq<Entry>, end: Call, call: Call)
    requires IntakeTold(e, c, ev, a, p, v, intake)
    requires Concluded(e, c, live, ev, a, p, v, Declined, [], end)
    requires call == Call(intake
                            + [AuthorizationEvaluated(c.caseId, e.mode, true, false, "", [], None)] + [] + end.rows,
                          end.live, end.outcome)
    ensures call.outcome.Completed? && DeclinedTold(e, c, live, ev, a, p, v, call.outcome.value, call)
  {
    Sliced(intake, AuthorizationEvaluated(c.caseId, e.mode, true, false, "", [], None), [], end.rows);
  }

  lemma DeclinedAnswers(e: Setup, wired: bool, c: Case, live: Live,
                        ev: Evidence, a: Assessment, p: Proposal, v: Verification)
    requires Advised(e, c, ev, a, p, v) && !ReadOnly(e) && (p.actions == [] || !v.passed)
    requires Calling(e, wired, c, live).outcome.Completed?
    ensures DeclinedTold(e, c, live, ev, a, p, v, Calling(e, wired, c, live).outcome.value, Calling(e, wired, c, live))
  {
    var call := Calling(e, wired, c, live);
    var end := Concluding(e, c, Ready(ev, a, p, v), Downgraded(p, v), Declined, [], live);
    IntakeAnswers(e, c, ev, a, p, v);
    WiredCall(e, wired, c, live, Ready(ev, a, p, v));
    DeclinedCall(e, c, live, ev, a, p, v);
    CompletedTold(e, c, live, ev, a, p, v, Downgraded(p, v), Declined, [], end);
    DeclinedAssembled(e, c, live, ev, a, p, v, IntakeRows(e.mode, c, ev, a, p, v), end, call);
  }

  lemma DeclinedCall(e: Setup, c: Case, live: Live, ev: Evidence, a: Assessment, p: Proposal, v: Verification)
    requires Advised(e, c, ev, a, p, v) && !ReadOnly(e) && (p.actions == [] || !v.passed)
    ensures var end := Concluding(e, c, Ready(ev, a, p, v), Downgraded(p, v), Declined, [], live);
            Calling(e, true, c, live) ==
            Call(IntakeRows(e.mode, c, ev, a, p, v)
                   + [AuthorizationEvaluated(c.caseId, e.mode, true, false, "", [], None)] + [] + end.rows,
                 end.live, end.outcome)
  {
    IntakeAnswers(e, c, ev, a, p, v);
    UnclearedRun(e, c, Ready(ev, a, p, v), live);
    SimulatedRows(e, c, live);
  }

  /** A simulated call under a token: every action is run in order, checked and counted. */
  predicate ClearedTold(e: Setup, c: Case, live: Live, ev: Evidence, a: Assessment, p: Proposal, v: Verification,
                        d: Decision, call: Call, targets: seq<States>)
  {
    var n := |p.actions|;
    && DecisionTold(e, c, ev, a, p, v, d)
    && d.token.Some?
    && GrantTold(e, c, p, e.world.ids(live.issued), e.world.clock(live.ticks), d.token.value)
    && |d.results| == n && ResultsTold(d)
    && d.decisionId == e.world.ids(live.issued + 1)
    && |call.rows| == n + 8
    && IntakeTold(e, c, ev, a, p, v, call.rows[..5])
    && call.rows[5] == AuthorizationEvaluated(c.caseId, e.mode, true, true, d.token.value.tokenId, p.actions, None)
    && ActionsTold(e, c, d.token.value.expiresAt, p.actions, live.ticks + 1, targets, d.results, call.rows[6..6 + n])
    && EndTold(e, c, d, call.rows[6 + n..])
    && targets[0] == live.states
    && call.live == Live(targets[n], live.ticks + 1 + n, live.issued + 2)
  }

  /** The run of the actions in such a call, and its end. */
  function ClearedRunning(e: Setup, c: Case, live: Live, t: Intake): Run
    requires t.Ready?
  {
    Running(e, c, TokenIn(e, c, t, live), t.proposal.actions, |t.proposal.actions|, live.states, live.ticks + 1)
  }

  function ClearedEnd(e: Setup, c: Case, live: Live, t: Intake, run: Run): Call
    requires t.Ready? && |run.outcomes| == |t.proposal.actions|
  {
    Concluding(e, c, t, t.proposal, Issued(TokenIn(e, c, t, live)), Results(t.proposal.actions, run.outcomes),
               Live(run.states, run.ticks, live.issued + 1))
  }

  lemma ClearedCall(e: Setup, c: Case, live: Live, ev: Evidence, a: Assessment, p: Proposal, v: Verification)
    requires Advised(e, c, ev, a, p, v) && !ReadOnly(e) && p.actions != [] && v.passed
    ensures var t := Ready(ev, a, p, v);
            var token, run := TokenIn(e, c, t, live), ClearedRunning(e, c, live, t);
            var end := ClearedEnd(e, c, live, t, run);
            Calling(e, true, c, live) ==
            Call(IntakeRows(e.mode, c, ev, a, p, v)
                   + [AuthorizationEvaluated(c.caseId, e.mode, true, true, token.grant.tokenId, p.actions, None)]
                   + ActionRows(c, p.actions, run.outcomes) + end.rows,
                 end.live, end.outcome)
  {
    var t := Ready(ev, a, p, v);
    IntakeAnswers(e, c, ev, a, p, v);
    ClearedRun(e, c, t, live);
    ClearedAuthorizing(e, c, t, live);
    SimulatedRows(e, c, live);
  }

  lemma ClearedGrant(e: Setup, c: Case, live: Live, p: Proposal, token: Token)
    requires token == TokenFor(e.gate, c, p, e.world.ids(live.issued), e.world.clock(live.ticks))
    ensures GrantTold(e, c, p, e.world.ids(live.issued), e.world.clock(live.ticks), token.grant)
    ensures Matches(e, c, token, p.actions)
  {
    TokenMatches(e, c, p, e.world.ids(live.issued), e.world.clock(live.ticks));
    GrantIsTold(e, c, p, e.world.ids(live.issued), e.world.clock(live.ticks));
  }

  lemma ClearedAssembled(e: Setup, c: Case, live: Live, ev: Evidence, a: Assessment, p: Proposal, v: Verification,
                         token: Token, run: Run, targets: seq<States>, intake: seq<Entry>, end: Call, call: Call)
    requires |run.outcomes| == |p.actions| && p.actions != []
    requires IntakeTold(e, c, ev, a, p, v, intake)
    requires GrantTold(e, c, p, e.world.ids(live.issued), e.world.clock(live.ticks), token.grant)
    requires RunIsTold(e, c, token.grant.expiresAt, p.actions, live.states, live.ticks + 1, run, targets)
    requires Concluded(e, c, Live(run.states, run.ticks, live.issued + 1), ev, a, p, v, Issued(token),
                       Results(p.actions, run.outcomes), end)
    requires call == Call(intake
                            + [AuthorizationEvaluated(c.caseId, e.mode, true, true, token.grant.tokenId,
                                                      p.actions, None)]
                            + ActionRows(c, p.actions, run.outcomes) + end.rows,
                          end.live, end.outcome)
    ensures call.outcome.Completed? && ClearedTold(e, c, live, ev, a, p, v, call.outcome.value, call, targets)
  {
    Sliced(intake, AuthorizationEvaluated(c.caseId, e.mode, true, true, token.grant.tokenId, p.actions, None),
           ActionRows(c, p.actions, run.outcomes), end.rows);
  }

  lemma ClearedEnded(e: Setup, c: Case, live: Live, ev: Evidence, a: Assessment, p: Proposal, v: Verification,
                     token: Token, run: Run, end: Call)
    requires !ReadOnly(e) && p.actions != [] && v.passed && |run.outcomes| == |p.actions|
    requires token == TokenIn(e, c, Ready(ev, a, p, v), live)
    requires end == ClearedEnd(e, c, live, Ready(ev, a, p, v), run) && end.outcome.Completed?
    ensures Concluded(e, c, Live(run.states, run.ticks, live.issued + 1), ev, a, p, v, Issued(token),
                      Results(p.actions, run.outcomes), end)
  {
    ClearedAuthorizing(e, c, Ready(ev, a, p, v), live);
    CompletedTold(e, c, Live(run.states, run.ticks, live.issued + 1), ev, a, p, v, p, Issued(token),
                  Results(p.actions, run.outcomes), end);
  }

  lemma ClearedTell(e: Setup, c: Case, live: Live, ev: Evidence, a: Assessment, p: Proposal, v: Verification,
                    token: Token, run: Run, intake: seq<Entry>, end: Call, call: Call)
    returns (targets: seq<States>)
    requires p.actions != [] && IntakeTold(e, c, ev, a, p, v, intake)
    requires token == TokenFor(e.gate, c, p, e.world.ids(live.issued), e.world.clock(live.ticks))
    requires run == Running(e, c, token, p.actions, |p.actions|, live.states, live.ticks + 1)
    requires Concluded(e, c, Live(run.states, run.ticks, live.issued + 1), ev, a, p, v, Issued(token),
                       Results(p.actions, run.outcomes), end)
    requires call == Call(intake
                            + [AuthorizationEvaluated(c.caseId, e.mode, true, true, token.grant.tokenId,
                                                      p.actions, None)]
                            + ActionRows(c, p.actions, run.outcomes) + end.rows,
                          end.live, end.outcome)
    ensures call.outcome.Completed? && ClearedTold(e, c, live, ev, a, p, v, call.outcome.value, call, targets)
  {
    ClearedGrant(e, c, live, p, token);
    targets := ClearedTargets(e, c, live, p, token, run);
    ClearedAssembled(e, c, live, ev, a, p, v, token, run, targets, intake, end, call);
  }

  lemma ClearedParts(e: Setup, wired: bool, c: Case, live: Live,
                     ev: Evidence, a: Assessment, p: Proposal, v: Verification)
    returns (token: Token, run: Run, intake: seq<Entry>, end: Call, call: Call)
    requires Advised(e, c, ev, a, p, v) && !ReadOnly(e) && p.actions != [] && v.passed
    requires Calling(e, wired, c, live).outcome.Completed?
    ensures call == Calling(e, wired, c, live)
    ensures IntakeTold(e, c, ev, a, p, v, intake)
    ensures token == TokenIn(e, c, Ready(ev, a, p, v), live)
    ensures run == ClearedRunning(e, c, live, Ready(ev, a, p, v))
    ensures |run.outcomes| == |p.actions| && end == ClearedEnd(e, c, live, Ready(ev, a, p, v), run)
    ensures call == Call(intake
                           + [AuthorizationEvaluated(c.caseId, e.mode, true, true, token.grant.tokenId,
                                                     p.actions, None)]
                           + ActionRows(c, p.actions, run.outcomes) + end.rows,
                         end.live, end.outcome)
  {
    var t := Ready(ev, a, p, v);
    token, run, intake := TokenIn(e, c, t, live), ClearedRunning(e, c, live, t), IntakeRows(e.mode, c, ev, a, p, v);
    end, call := ClearedEnd(e, c, live, t, run), Calling(e, true, c, live);
    IntakeAnswers(e, c, ev, a, p, v);
    WiredCall(e, wired, c, live, t);
    ClearedCall(e, c, live, ev, a, p, v);
  }

  lemma ClearedTerms(e: Setup, c: Case, live: Live, t: Intake)
    requires t.Ready?
    ensures var p, token := t.proposal, TokenIn(e, c, t, live);
            && token == TokenFor(e.gate, c, p, e.world.ids(live.issued), e.world.clock(live.ticks))
            && ClearedRunning(e, c, live, t)
               == Running(e, c, token, p.actions, |p.actions|, live.states, live.ticks + 1)
  {
  }

  lemma ClearedAnswers(e: Setup, wired: bool, c: Case, live: Live,
                       ev: Evidence, a: Assessment, p: Proposal, v: Verification)
    returns (targets: seq<States>, call: Call)
    requires Advised(e, c, ev, a, p, v) && !ReadOnly(e) && p.actions != [] && v.passed
    requires Calling(e, wired, c, live).outcome.Completed?
    ensures call == Calling(e, wired, c, live)
    ensures call.outcome.Completed? && ClearedTold(e, c, live, ev, a, p, v, call.outcome.value, call, targets)
  {
    var token, run, intake, end, same := ClearedParts(e, wired, c, live, ev, a, p, v);
    call := same;
    ClearedTerms(e, c, live, Ready(ev, a, p, v));
    ClearedEnded(e, c, live, ev, a, p, v, token, run, end);
    targets := ClearedTell(e, c, live, ev, a, p, v, token, run, intake, end, call);
  }

  lemma ClearedTargets(e: Setup, c: Case, live: Live, p: Proposal, token: Token, run: Run)
    returns (targets: seq<States>)
    requires Matches(e, c, token, p.actions)
    requires run == Running(e, c, token, p.actions, |p.actions|, live.states, live.ticks + 1)
    ensures RunIsTold(e, c, token.grant.expiresAt, p.actions, live.states, live.ticks + 1, run, targets)
  {
    targets := Targets(e, c, token, p.actions, live.states, live.ticks + 1);
    RunTold(e, c, token, p.actions, live.states, live.ticks + 1);
  }

  lemma WiredCall(e: Setup, wired: bool, c: Case, live: Live, t: Intake)
    requires TakenIn(e, c) == t && t.Ready? && !ReadOnly(e) && Calling(e, wired, c, live).outcome.Completed?
    ensures wired
  {
  }

  // ---------- calls that raise ----------

  /** An advisor that raises leaves the rows up to it and nothing else. */
  lemma AdvisorAnswers(e: Setup, wired: bool, c: Case, live: Live)
    ensures e.advisors.assess(c).Raised? ==>
              Calling(e, wired, c, live) ==
              Call([CaseReceived(c.caseId, c.subjectId, c.eventIds)], live, Raised(AdvisorFault))
    ensures e.advisors.assess(c).Completed? && e.advisors.model(c).Raised? ==>
              Calling(e, wired, c, live) ==
              Call([CaseReceived(c.caseId, c.subjectId, c.eventIds),
                    EvidenceAssessed(c.caseId, e.advisors.assess(c).value)], live, Raised(AdvisorFault))
  {
  }

  lemma PolicyAnswers(e: Setup, wired: bool, c: Case, live: Live, ev: Evidence, a: Assessment, p: Proposal)
    requires e.advisors.assess(c) == Completed(ev) && e.advisors.model(c) == Completed(a)
    ensures e.advisors.propose(c, a, ev).Raised? ==>
              Calling(e, wired, c, live) ==
              Call([CaseReceived(c.caseId, c.subjectId, c.eventIds), EvidenceAssessed(c.caseId, ev),
                    ModelAssessed(c.caseId, a)], live, Raised(AdvisorFault))
    ensures e.advisors.propose(c, a, ev) == Completed(p) && e.advisors.verify(c, a, ev, p).Raised? ==>
              var call := Calling(e, wired, c, live);
              && |call.rows| == 4 && call.live == live && call.outcome == Raised(AdvisorFault)
              && forall v :: IntakeTold(e, c, ev, a, p, v, call.rows + [IndependentlyVerified(c.caseId, v)])
  {
  }

  /** Without its wiring a simulated call stops after the intake. */
  lemma UnwiredAnswers(e: Setup, c: Case, live: Live, ev: Evidence, a: Assessment, p: Proposal, v: Verification)
    requires Advised(e, c, ev, a, p, v) && !ReadOnly(e)
    ensures var call := Calling(e, false, c, live);
            && IntakeTold(e, c, ev, a, p, v, call.rows) && call.live == live && call.outcome == Raised(UnsafeWiring)
  {
    IntakeAnswers(e, c, ev, a, p, v);
  }

  /** A call that raises after its actions has told and run all of them. */
  predicate UncheckedTold(e: Setup, c: Case, live: Live, ev: Evidence, a: Assessment, p: Proposal, v: Verification,
                          g: Grant, results: seq<ActionResult>, call: Call, targets: seq<States>)
  {
    var n := |p.actions|;
    && call.outcome == Raised(NoExpectedState)
    && GrantTold(e, c, p, e.world.ids(live.issued), e.world.clock(live.ticks), g)
    && |call.rows| == n + 6
    && IntakeTold(e, c, ev, a, p, v, call.rows[..5])
    && call.rows[5] == AuthorizationEvaluated(c.caseId, e.mode, true, true, g.tokenId, p.actions, None)
    && ActionsTold(e, c, g.expiresAt, p.actions, live.ticks + 1, targets, results, call.rows[6..6 + n])
    && targets[0] == live.states
    && call.live == Live(targets[n], live.ticks + 1 + n, live.issued + 1)
  }

  lemma UncheckedTell(e: Setup, c: Case, live: Live, ev: Evidence, a: Assessment, p: Proposal, v: Verification,
                      token: Token, run: Run, intake: seq<Entry>, call: Call)
    returns (targets: seq<States>)
    requires IntakeTold(e, c, ev, a, p, v, intake)
    requires token == TokenFor(e.gate, c, p, e.world.ids(live.issued), e.world.clock(live.ticks))
    requires run == Running(e, c, token, p.actions, |p.actions|, live.states, live.ticks + 1)
    requires call == Call(intake
                            + [AuthorizationEvaluated(c.caseId, e.mode, true, true, token.grant.tokenId,
                                                      p.actions, None)]
                            + ActionRows(c, p.actions, run.outcomes) + [],
                          Live(run.states, run.ticks, live.issued + 1), Raised(NoExpectedState))
    ensures UncheckedTold(e, c, live, ev, a, p, v, token.grant, Results(p.actions, run.outcomes), call, targets)
  {
    ClearedGrant(e, c, live, p, token);
    targets := ClearedTargets(e, c, live, p, token, run);
    Sliced(intake, AuthorizationEvaluated(c.caseId, e.mode, true, true, token.grant.tokenId, p.actions, None),
           ActionRows(c, p.actions, run.outcomes), []);
  }

  lemma UncheckedParts(e: Setup, c: Case, live: Live, ev: Evidence, a: Assessment, p: Proposal, v: Verification)
    returns (token: Token, run: Run, intake: seq<Entry>, call: Call)
    requires Advised(e, c, ev, a, p, v) && !ReadOnly(e) && p.actions != [] && v.passed
    requires Calling(e, true, c, live).outcome.Raised?
    ensures call == Calling(e, true, c, live)
    ensures IntakeTold(e, c, ev, a, p, v, intake)
    ensures token == TokenIn(e, c, Ready(ev, a, p, v), live)
    ensures run == ClearedRunning(e, c, live, Ready(ev, a, p, v)) && |run.outcomes| == |p.actions|
    ensures call == Call(intake
                           + [AuthorizationEvaluated(c.caseId, e.mode, true, true, token.grant.tokenId,
                                                     p.actions, None)]
                           + ActionRows(c, p.actions, run.outcomes) + [],
                         Live(run.states, run.ticks, live.issued + 1), Raised(NoExpectedState))
  {
    var t := Ready(ev, a, p, v);
    token, run, intake := TokenIn(e, c, t, live), ClearedRunning(e, c, live, t), IntakeRows(e.mode, c, ev, a, p, v);
    call := Calling(e, true, c, live);
    IntakeAnswers(e, c, ev, a, p, v);
    ClearedCall(e, c, live, ev, a, p, v);
  }

  lemma UncheckedAnswers(e: Setup, c: Case, live: Live, ev: Evidence, a: Assessment, p: Proposal, v: Verification)
    returns (g: Grant, results: seq<ActionResult>, targets: seq<States>, call: Call)
    requires Advised(e, c, ev, a, p, v) && !ReadOnly(e) && p.actions != [] && v.passed
    requires Calling(e, true, c, live).outcome.Raised?
    ensures call == Calling(e, true, c, live)
    ensures UncheckedTold(e, c, live, ev, a, p, v, g, results, call, targets)
  {
    var token, run, intake, same := UncheckedParts(e, c, live, ev, a, p, v);
    ClearedTerms(e, c, live, Ready(ev, a, p, v));
    g, results, call := token.grant, Results(p.actions, run.outcomes), same;
    targets := UncheckedTell(e, c, live, ev, a, p, v, token, run, intake, call);
  }
}
