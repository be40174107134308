/**
 The decision engine: one call of `process` from intake to the final audit row.
 The advisors (evidence, model, policy, verifier) are arbitrary functions that may raise.
 `Calling` says what one call appends, changes and answers; `Process` is proved against it.
 */
module Engine {
  import opened Options
  import opened Actions

  datatype Mode = SyntheticSimulation | HistoricalReplay | ShadowReadOnly

  predicate IsReadOnly(mode: Mode) {
    mode == HistoricalReplay || mode == ShadowReadOnly
  }

  datatype Fault = AdvisorFault | UnsafeWiring | NoExpectedState

  datatype Attempt<+T> = Raised(fault: Fault) | Completed(value: T)

  datatype Evidence = Evidence(content: string)

  datatype Assessment = Assessment(content: string)

  datatype Advisors = Advisors(
    assess: Case -> Attempt<Evidence>,
    model: Case -> Attempt<Assessment>,
    propose: (Case, Assessment, Evidence) -> Attempt<Proposal>,
    verify: (Case, Assessment, Evidence, Proposal) -> Attempt<Verification>
  )

  datatype Status = Verified | Failed | NotApplicable

  /** `passed` is absent where the mode leaves nothing to check. */
  datatype PostAction = PostAction(applicable: bool, status: Status, passed: Option<bool>, checks: seq<Check>)

  datatype Decision = Decision(
    decisionId: string,
    caseId: string,
    subjectId: string,
    mode: Mode,
    originalDisposition: string,
    finalDisposition: string,
    counterfactual: seq<string>,
    evidence: Evidence,
    assessment: Assessment,
    proposal: Proposal,
    verification: Verification,
    token: Option<Grant>,
    authorizationError: Option<AuthError>,
    results: seq<ActionResult>,
    postAction: PostAction,
    attempted: bool,
    brokerInvocations: nat,
    operationalEffects: nat
  )

  /** One audit row per event type, with the payload the engine gives it. */
  datatype Entry =
    | CaseReceived(caseId: string, subjectId: string, eventIds: seq<string>)
    | EvidenceAssessed(caseId: string, evidence: Evidence)
    | ModelAssessed(caseId: string, assessment: Assessment)
    | PolicyProposed(caseId: string, proposal: Proposal, counterfactual: Option<seq<string>>)
    | IndependentlyVerified(caseId: string, verification: Verification)
    | ExecutionSuppressed(caseId: string, mode: Mode, suppressed: seq<string>)
    | AuthorizationEvaluated(caseId: string, mode: Mode, attempted: bool, issued: bool, tokenId: string,
                             permitted: seq<string>, error: Option<AuthError>)
    | ActionExecuted(caseId: string, result: ActionResult)
    | ActionRejected(caseId: string, failure: ActionResult)
    | PostActionVerified(caseId: string, postAction: PostAction)
    | DecisionFinalized(caseId: string, decisionId: string, disposition: string, recordHash: string)

  datatype Setup = Setup(
    mode: Mode,
    gate: GateConfig,
    world: World,
    fails: (string, string) -> bool,
    advisors: Advisors,
    seal: Decision -> string
  )

  /** What a call reads and changes besides the log. */
  datatype Live = Live(states: States, ticks: nat, issued: nat)

  datatype Call = Call(rows: seq<Entry>, live: Live, outcome: Attempt<Decision>)

  // ---------- intake: the first five rows ----------

  datatype Intake =
    | Stopped(rows: seq<Entry>)
    | Ready(evidence: Evidence, assessment: Assessment, proposal: Proposal, verification: Verification)

  function Received(c: Case): Entry {
    CaseReceived(c.caseId, c.subjectId, c.eventIds)
  }

  /** A read-only mode reports the proposed actions as counterfactual. */
  function Proposed(mode: Mode, c: Case, p: Proposal): Entry {
    if IsReadOnly(mode) then PolicyProposed(c.caseId, p.(actions := []), Some(p.actions))
    else PolicyProposed(c.caseId, p, None)
  }

  function IntakeRows(mode: Mode, c: Case, ev: Evidence, a: Assessment, p: Proposal, v: Verification): seq<Entry> {
    [Received(c), EvidenceAssessed(c.caseId, ev), ModelAssessed(c.caseId, a), Proposed(mode, c, p),
     IndependentlyVerified(c.caseId, v)]
  }

  function TakenIn(e: Setup, c: Case): Intake {
    match e.advisors.assess(c)
    case Raised(_) => Stopped([Received(c)])
    case Completed(ev) =>
      match e.advisors.model(c)
      case Raised(_) => Stopped([Received(c), EvidenceAssessed(c.caseId, ev)])
      case Completed(a) =>
        match e.advisors.propose(c, a, ev)
        case Raised(_) => Stopped([Received(c), EvidenceAssessed(c.caseId, ev), ModelAssessed(c.caseId, a)])
        case Completed(p) =>
          match e.advisors.verify(c, a, ev, p)
          case Raised(_) =>
            Stopped([Received(c), EvidenceAssessed(c.caseId, ev), ModelAssessed(c.caseId, a), Proposed(e.mode, c, p)])
          case Completed(v) => Ready(ev, a, p, v)
  }

  // ---------- the proposal that is acted on ----------

  const INVESTIGATE := "INVESTIGATE"
  const DOWNGRADE_STEPS := ["resolve_independent_verifier_failure", "collect_additional_evidence"]
  const DOWNGRADE_REASON :=
    "Independent verification failed; the action proposal was downgraded to investigation."
  const DOWNGRADE_RULE := "FAIL-SAFE-VERIFIER-DOWNGRADE"
  const INVESTIGATOR := "read_only_automation"
  const OBSERVER := "read_only_observation"

  /** Actions that the independent verifier did not pass are downgraded to an investigation. */
  function Downgraded(p: Proposal, v: Verification): Proposal {
    if p.actions != [] && !v.passed then
      Proposal(INVESTIGATE, [], [], DOWNGRADE_STEPS, p.rationale + [DOWNGRADE_REASON], p.rules + [DOWNGRADE_RULE],
               p.evidenceIds, INVESTIGATOR, map[])
    else p
  }

  function Observed(p: Proposal): Proposal {
    p.(actions := [], authority := OBSERVER, rollbackPlan := map[])
  }

  // ---------- the action loop ----------

  datatype Run = Run(states: States, ticks: nat, outcomes: seq<Outcome>)

  /** The first n actions, brokered in order. */
  function Running(e: Setup, c: Case, token: Token, actions: seq<string>, n: nat, states: States, ticks: nat): (r: Run)
    requires n <= |actions|
    ensures |r.outcomes| == n
  {
    if n == 0 then Run(states, ticks, [])
    else
      var before := Running(e, c, token, actions, n - 1, states, ticks);
      var step := Brokering(e.gate, e.world, e.fails, c, token, actions[n - 1], before.states, before.ticks);
      Run(step.states, step.ticks, before.outcomes + [step.outcome])
  }

  const NO_ROLLBACK := "none"

  function ResultOf(action: string, outcome: Outcome): ActionResult {
    match outcome
    case Executed(result) => result
    case Rejected(error) => ActionResult(action, false, None, None, Refused(error), NO_ROLLBACK)
  }

  function RowOf(c: Case, action: string, outcome: Outcome): Entry {
    match outcome
    case Executed(result) => ActionExecuted(c.caseId, result)
    case Rejected(_) => ActionRejected(c.caseId, ResultOf(action, outcome))
  }

  function Results(actions: seq<string>, outcomes: seq<Outcome>): (r: seq<ActionResult>)
    requires |outcomes| <= |actions|
    ensures |r| == |outcomes|
  {
    seq(|outcomes|, i requires 0 <= i < |outcomes| => ResultOf(actions[i], outcomes[i]))
  }

  function ActionRows(c: Case, actions: seq<string>, outcomes: seq<Outcome>): (r: seq<Entry>)
    requires |outcomes| <= |actions|
    ensures |r| == |outcomes|
  {
    seq(|outcomes|, i requires 0 <= i < |outcomes| => RowOf(c, actions[i], outcomes[i]))
  }

  /** How many of the results succeeded. */
  function Effects(results: seq<ActionResult>): (n: nat)
    ensures n <= |results|
  {
    if results == [] then 0
    else Effects(results[..|results| - 1]) + if results[|results| - 1].success then 1 else 0
  }

  // ---------- the check after the actions ----------

  function Checks(results: seq<ActionResult>): (checks: seq<Check>)
    requires AllImplemented(results)
  {
    seq(|results|, i requires 0 <= i < |results| => CheckOf(results[i]))
  }

  predicate ChecksPass(results: seq<ActionResult>)
    requires AllImplemented(results)
  {
    forall i | 0 <= i < |results| :: CheckPasses(results[i])
  }

  function PostActionOf(results: seq<ActionResult>): PostAction
    requires AllImplemented(results)
  {
    PostAction(
      results != [],
      if results == [] then NotApplicable else if ChecksPass(results) then Verified else Failed,
      Some(ChecksPass(results)),
      Checks(results))
  }

  const NOTHING_TO_CHECK := PostAction(false, NotApplicable, None, [])

  // ---------- one call ----------

  function Finalized(e: Setup, d: Decision): Entry {
    DecisionFinalized(d.caseId, d.decisionId, d.finalDisposition, e.seal(d))
  }

  function AuthorizationRow(mode: Mode, c: Case, attempted: bool, token: Option<Token>, error: Option<AuthError>): Entry
  {
    AuthorizationEvaluated(
      c.caseId, mode, attempted, token.Some?,
      if token.Some? then token.value.grant.tokenId else "",
      if token.Some? then token.value.grant.permitted else [],
      error)
  }

  function GrantOf(token: Option<Token>): Option<Grant> {
    if token.Some? then Some(token.value.grant) else None
  }

  function ObservedDecision(e: Setup, c: Case, t: Intake, issued: nat): Decision
    requires t.Ready?
  {
    var p := Downgraded(t.proposal, t.verification);
    Decision(e.world.ids(issued), c.caseId, c.subjectId, e.mode, t.proposal.disposition, p.disposition, p.actions,
             t.evidence, t.assessment, Observed(p), t.verification, None, None, [], NOTHING_TO_CHECK, false, 0, 0)
  }

  /** A call in a read-only mode, after its intake. */
  function Observing(e: Setup, c: Case, t: Intake, live: Live): Call
    requires t.Ready?
  {
    var d := ObservedDecision(e, c, t, live.issued);
    Call([ExecutionSuppressed(c.caseId, e.mode, d.counterfactual),
          AuthorizationRow(e.mode, c, false, None, None),
          Finalized(e, d)],
         live.(issued := live.issued + 1),
         Completed(d))
  }

  function TokenOf(a: Authorization): Option<Token> {
    if a.Issued? then Some(a.token) else None
  }

  function ErrorOf(a: Authorization): Option<AuthError> {
    if a.Error? then Some(a.error) else None
  }

  function Authorizing(e: Setup, c: Case, p: Proposal, v: Verification, live: Live): Authorization {
    if p.actions == [] then Declined
    else if !v.passed then Error(VerificationFailed)
    else Issued(TokenFor(e.gate, c, p, e.world.ids(live.issued), e.world.clock(live.ticks)))
  }

  /** What the gate leaves: one reading of each source per token. */
  function Authorized(a: Authorization, live: Live): Live {
    if a.Issued? then live.(ticks := live.ticks + 1, issued := live.issued + 1) else live
  }

  /** The loop over the actions of the proposal, entered only with a token. */
  function Acting(e: Setup, c: Case, a: Authorization, p: Proposal, live: Live): (r: Run)
    ensures |r.outcomes| == if a.Issued? then |p.actions| else 0
  {
    if a.Issued? then Running(e, c, a.token, p.actions, |p.actions|, live.states, live.ticks)
    else Run(live.states, live.ticks, [])
  }

  function SimulatedDecision(e: Setup, c: Case, t: Intake, p: Proposal, a: Authorization,
                             results: seq<ActionResult>, issued: nat): Decision
    requires t.Ready? && AllImplemented(results)
  {
    Decision(e.world.ids(issued), c.caseId, c.subjectId, e.mode, t.proposal.disposition, p.disposition, [],
             t.evidence, t.assessment, p, t.verification, GrantOf(TokenOf(a)), ErrorOf(a), results,
             PostActionOf(results), true, |results|, Effects(results))
  }

  /** The end of a call in the simulation mode: a result without an expected state makes the check raise. */
  function Concluding(e: Setup, c: Case, t: Intake, p: Proposal, a: Authorization, results: seq<ActionResult>,
                      live: Live): Call
    requires t.Ready?
  {
    if !AllImplemented(results) then Call([], live, Raised(NoExpectedState))
    else
      var d := SimulatedDecision(e, c, t, p, a, results, live.issued);
      Call((if results == [] then [] else [PostActionVerified(c.caseId, d.postAction)]) + [Finalized(e, d)],
           live.(issued := live.issued + 1),
           Completed(d))
  }

  /** A call in the simulation mode, after its intake. */
  function Simulating(e: Setup, wired: bool, c: Case, t: Intake, live: Live): Call
    requires t.Ready?
  {
    var p := Downgraded(t.proposal, t.verification);
    if !wired then Call([], live, Raised(UnsafeWiring))
    else
      var a := Authorizing(e, c, p, t.verification, live);
      var ready := Authorized(a, live);
      var run := Acting(e, c, a, p, ready);
      var call := Concluding(e, c, t, p, a, Results(p.actions, run.outcomes),
                             Live(run.states, run.ticks, ready.issued));
      call.(rows := [AuthorizationRow(e.mode, c, true, TokenOf(a), ErrorOf(a))]
                    + ActionRows(c, p.actions, run.outcomes) + call.rows)
  }

  function Deciding(e: Setup, wired: bool, c: Case, t: Intake, live: Live): Call
    requires t.Ready?
  {
    if IsReadOnly(e.mode) then Observing(e, c, t, live) else Simulating(e, wired, c, t, live)
  }

  /** One call of `process`; `wired` says whether gate, target and broker are all present. */
  function Calling(e: Setup, wired: bool, c: Case, live: Live): Call {
    var t := TakenIn(e, c);
    if t.Stopped? then Call(t.rows, live, Raised(AdvisorFault))
    else
      var call := Deciding(e, wired, c, t, live);
      call.(rows := IntakeRows(e.mode, c, t.evidence, t.assessment, t.proposal, t.verification) + call.rows)
  }

  // ---------- the engine object ----------

  class AuditTrail {
    var rows: seq<Entry>

    constructor ()
      ensures rows == []
    {
      rows := [];
    }

    method Append(row: Entry)
      modifies this
      ensures rows == old(rows) + [row]
    {
      rows := rows + [row];
    }
  }

  class DecisionFirewallEngine {
    const setup: Setup
    const audit: AuditTrail
    const environment: Environment
    const postActionVerifier: PostActionVerifier
    var gate: AuthorizationGate?
    var target: SimulatedIdentityProvider?
    var broker: ActionBroker?

    predicate Wired()
      reads this
    {
      gate != null && target != null && broker != null
    }

    ghost predicate Valid()
      reads this
    {
      && environment.world == setup.world
      && (gate != null ==> gate.environment == environment && gate.config == setup.gate)
      && (target != null ==> target.fails == setup.fails)
      && (broker != null ==> broker.gate == gate && broker.target == target)
    }

    ghost function Now(): Live
      reads this, target, environment
    {
      Live(if target == null then map[] else target.states, environment.ticks, environment.issued)
    }

    ghost function Touched(): set<object>
      reads this
    {
      {audit, environment} + if target == null then {} else {target}
    }

    constructor (setup: Setup, audit: AuditTrail, environment: Environment)
      requires environment.world == setup.world
      ensures Valid() && this.setup == setup
      ensures Wired() <==> !IsReadOnly(setup.mode)
      ensures IsReadOnly(setup.mode) ==> gate == null && target == null && broker == null
      ensures this.audit == audit && this.environment == environment
      ensures Now() == Live(map[], environment.ticks, environment.issued)
      ensures target != null ==> fresh(target)
    {
      this.setup, this.audit, this.environment := setup, audit, environment;
      postActionVerifier := new PostActionVerifier();
      gate, target, broker := null, null, null;
      new;
      if !IsReadOnly(setup.mode) {
        var g := new AuthorizationGate(setup.gate, environment);
        var t := new SimulatedIdentityProvider(setup.fails);
        var b := new ActionBroker(g, t);
        gate, target, broker := g, t, b;
      }
    }

    /** Answers false where the source raises `SafetyInvariantError`. */
    method RequireSimulationWiring() returns (ok: bool)
      ensures ok <==> !IsReadOnly(setup.mode) && Wired()
    {
      if IsReadOnly(setup.mode) {
        return false;
      }
      return gate != null && broker != null && target != null;
    }

    method TakeIn(c: Case) returns (t: Intake)
      requires Valid()
      modifies audit
      ensures t == TakenIn(setup, c)
      ensures audit.rows == old(audit.rows)
                + if t.Stopped? then t.rows
                  else IntakeRows(setup.mode, c, t.evidence, t.assessment, t.proposal, t.verification)
    {
      ghost var start := audit.rows;
      audit.Append(Received(c));
      var evidence := setup.advisors.assess(c);
      if evidence.Raised? {
        return Stopped([Received(c)]);
      }
      audit.Append(EvidenceAssessed(c.caseId, evidence.value));
      var assessment := setup.advisors.model(c);
      if assessment.Raised? {
        return Stopped([Received(c), EvidenceAssessed(c.caseId, evidence.value)]);
      }
      audit.Append(ModelAssessed(c.caseId, assessment.value));
      var proposal := setup.advisors.propose(c, assessment.value, evidence.value);
      if proposal.Raised? {
        return Stopped([Received(c), EvidenceAssessed(c.caseId, evidence.value),
                        ModelAssessed(c.caseId, assessment.value)]);
      }
      if IsReadOnly(setup.mode) {
        audit.Append(PolicyProposed(c.caseId, proposal.value.(actions := []), Some(proposal.value.actions)));
      } else {
        audit.Append(PolicyProposed(c.caseId, proposal.value, None));
      }
      assert audit.rows == start + [Received(c), EvidenceAssessed(c.caseId, evidence.value),
                                    ModelAssessed(c.caseId, assessment.value), Proposed(setup.mode, c, proposal.value)];
      var verification := setup.advisors.verify(c, assessment.value, evidence.value, proposal.value);
      if verification.Raised? {
        return Stopped([Received(c), EvidenceAssessed(c.caseId, evidence.value),
                        ModelAssessed(c.caseId, assessment.value), Proposed(setup.mode, c, proposal.value)]);
      }
      audit.Append(IndependentlyVerified(c.caseId, verification.value));
      t := Ready(evidence.value, assessment.value, proposal.value, verification.value);
      assert audit.rows == start + IntakeRows(setup.mode, c, t.evidence, t.assessment, t.proposal, t.verification);
    }

    method Observe(c: Case, t: Intake) returns (outcome: Attempt<Decision>)
      requires Valid() && t.Ready?
      modifies audit, environment
      ensures var call := Observing(setup, c, t, old(Now()));
              audit.rows == old(audit.rows) + call.rows && Now() == call.live && outcome == call.outcome
    {
      ghost var start, issued := audit.rows, environment.issued;
      var proposal := Downgraded(t.proposal, t.verification);
      var counterfactual := proposal.actions;
      proposal := Observed(proposal);
      audit.Append(ExecutionSuppressed(c.caseId, setup.mode, counterfactual));
      audit.Append(AuthorizationRow(setup.mode, c, false, None, None));
      var id := environment.FreshId();
      var d := Decision(id, c.caseId, c.subjectId, setup.mode, t.proposal.disposition, proposal.disposition,
                        counterfactual, t.evidence, t.assessment, proposal, t.verification, None, None, [],
                        NOTHING_TO_CHECK, false, 0, 0);
      assert d == ObservedDecision(setup, c, t, issued);
      audit.Append(DecisionFinalized(c.caseId, id, proposal.disposition, setup.seal(d)));
      Three(start, ExecutionSuppressed(c.caseId, setup.mode, counterfactual),
            AuthorizationRow(setup.mode, c, false, None, None), Finalized(setup, d));
      return Completed(d);
    }

    /** The loop over the actions of an authorized proposal. */
    method Act(c: Case, p: Proposal, token: Token, ghost live: Live)
      returns (results: seq<ActionResult>, invocations: nat)
      requires Valid() && Wired() && live == Now()
      modifies audit, environment`ticks, target
      ensures var run := Running(setup, c, token, p.actions, |p.actions|, live.states, live.ticks);
              && audit.rows == old(audit.rows) + ActionRows(c, p.actions, run.outcomes)
              && results == Results(p.actions, run.outcomes)
              && Now() == Live(run.states, run.ticks, live.issued)
      ensures invocations == |p.actions|
    {
      results, invocations := [], 0;
      for n := 0 to |p.actions|
        invariant invocations == n
        invariant var run := Running(setup, c, token, p.actions, n, live.states, live.ticks);
                  && audit.rows == old(audit.rows) + ActionRows(c, p.actions, run.outcomes)
                  && results == Results(p.actions, run.outcomes)
                  && Now() == Live(run.states, run.ticks, live.issued)
      {
        var action := p.actions[n];
        ghost var run := Running(setup, c, token, p.actions, n, live.states, live.ticks);
        invocations := invocations + 1;
        var outcome := broker.Execute(c, action, Some(token));
        match outcome {
          case Executed(result) =>
            results := results + [result];
            audit.Append(ActionExecuted(c.caseId, result));
          case Rejected(error) =>
            var failure := ActionResult(action, false, None, None, Refused(error), NO_ROLLBACK);
            results := results + [failure];
            audit.Append(ActionRejected(c.caseId, failure));
        }
        OneMore(c, p.actions, run.outcomes, outcome);
      }
    }

    method Authorize(c: Case, p: Proposal, v: Verification) returns (a: Authorization)
      requires Valid() && Wired()
      modifies audit, environment
      ensures a == Authorizing(setup, c, p, v, old(Now()))
      ensures audit.rows == old(audit.rows) + [AuthorizationRow(setup.mode, c, true, TokenOf(a), ErrorOf(a))]
      ensures Now() == Authorized(a, old(Now()))
    {
      a := gate.Authorize(c, p, v);
      audit.Append(AuthorizationRow(setup.mode, c, true, TokenOf(a), ErrorOf(a)));
    }

    /** None where the source looks up an action without an expected state. */
    method CheckActions(results: seq<ActionResult>) returns (r: Option<PostAction>)
      ensures r == if AllImplemented(results) then Some(PostActionOf(results)) else None
    {
      var check := postActionVerifier.Verify(results);
      if check.None? {
        return None;
      }
      assert check.value.checks == Checks(results);
      return Some(PostAction(
        results != [],
        if results == [] then NotApplicable else if check.value.passed then Verified else Failed,
        Some(check.value.passed), check.value.checks));
    }

    /** From the check after the actions to the last row. */
    method Conclude(c: Case, t: Intake, p: Proposal, a: Authorization, results: seq<ActionResult>, invocations: nat)
      returns (outcome: Attempt<Decision>)
      requires Valid() && t.Ready? && invocations == |results|
      modifies audit, environment
      ensures var call := Concluding(setup, c, t, p, a, results, old(Now()));
              audit.rows == old(audit.rows) + call.rows && Now() == call.live && outcome == call.outcome
    {
      var postAction := CheckActions(results);
      if postAction.None? {
        return Raised(NoExpectedState);
      }
      ghost var start := audit.rows;
      if results != [] {
        audit.Append(PostActionVerified(c.caseId, postAction.value));
      }
      var effects := CountEffects(results);
      ghost var issued := environment.issued;
      var id := environment.FreshId();
      var d := Decision(id, c.caseId, c.subjectId, setup.mode, t.proposal.disposition, p.disposition, [],
                        t.evidence, t.assessment, p, t.verification, GrantOf(TokenOf(a)), ErrorOf(a),
                        results, postAction.value, true, invocations, effects);
      assert d == SimulatedDecision(setup, c, t, p, a, results, issued);
      audit.Append(DecisionFinalized(c.caseId, id, p.disposition, setup.seal(d)));
      Closing(start, [PostActionVerified(c.caseId, postAction.value)], [Finalized(setup, d)], []);
      return Completed(d);
    }

    method Simulate(c: Case, t: Intake) returns (outcome: Attempt<Decision>)
      requires Valid() && t.Ready? && !IsReadOnly(setup.mode)
      modifies Touched()
      ensures var call := Simulating(setup, Wired(), c, t, old(Now()));
              audit.rows == old(audit.rows) + call.rows && Now() == call.live && outcome == call.outcome
    {
      var proposal := Downgraded(t.proposal, t.verification);
      var ok := RequireSimulationWiring();
      if !ok {
        return Raised(UnsafeWiring);
      }
      ghost var start := audit.rows;
      var a := Authorize(c, proposal, t.verification);
      ghost var ready := Now();
      var results, invocations := [], 0;
      if a.Issued? {
        results, invocations := Act(c, proposal, a.token, ready);
      }
      ghost var run := Acting(setup, c, a, proposal, ready);
      ghost var rows := ActionRows(c, proposal.actions, run.outcomes);
      assert results == Results(proposal.actions, run.outcomes);
      ghost var after := Now();
      outcome := Conclude(c, t, proposal, a, results, invocations);
      Closing(start, [AuthorizationRow(setup.mode, c, true, TokenOf(a), ErrorOf(a))], rows,
              Concluding(setup, c, t, proposal, a, results, after).rows);
    }

    method Process(c: Case) returns (outcome: Attempt<Decision>)
      requires Valid()
      modifies Touched()
      ensures var call := Calling(setup, Wired(), c, old(Now()));
              audit.rows == old(audit.rows) + call.rows && Now() == call.live && outcome == call.outcome
    {
      ghost var start := audit.rows;
      var t := TakeIn(c);
      if t.Stopped? {
        return Raised(AdvisorFault);
      }
      ghost var taken := audit.rows;
      ghost var live := Now();
      if IsReadOnly(setup.mode) {
        outcome := Observe(c, t);
      } else {
        outcome := Simulate(c, t);
      }
      Closing(start, IntakeRows(setup.mode, c, t.evidence, t.assessment, t.proposal, t.verification),
              Deciding(setup, Wired(), c, t, live).rows, []);
    }
  }

  method CountEffects(results: seq<ActionResult>) returns (n: nat)
    ensures n == Effects(results)
  {
    n := 0;
    for i := 0 to |results|
      invariant n == Effects(results[..i])
    {
      assert results[..i + 1][..i] == results[..i];
      if results[i].success {
        n := n + 1;
      }
    }
    assert results[..|results|] == results;
  }

  lemma Closing(start: seq<Entry>, a: seq<Entry>, b: seq<Entry>, c: seq<Entry>)
    ensures start + a + b + c == start + (a + b + c)
    ensures start + a + b == start + (a + b)
    ensures c == [] ==> a + b + c == a + b
  {
  }

  lemma Three(start: seq<Entry>, a: Entry, b: Entry, c: Entry)
    ensures start + [a] + [b] + [c] == start + [a, b, c]
  {
  }

  lemma OneMore(c: Case, actions: seq<string>, outcomes: seq<Outcome>, next: Outcome)
    requires |outcomes| < |actions|
    ensures Results(actions, outcomes + [next]) == Results(actions, outcomes) + [ResultOf(actions[|outcomes|], next)]
    ensures ActionRows(c, actions, outcomes + [next])
         == ActionRows(c, actions, outcomes) + [RowOf(c, actions[|outcomes|], next)]
  {
  }
}
