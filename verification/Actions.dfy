/**
 Authorization tokens, the action broker, the simulated target and the check made
 after actions ran.  Each class is proved against the function that specifies it.
 */
module Actions {
  import opened Options

  datatype Case = Case(caseId: string, subjectId: string, eventIds: seq<string>)

  datatype Proposal = Proposal(
    disposition: string,
    actions: seq<string>,
    humanActions: seq<string>,
    investigationActions: seq<string>,
    rationale: seq<string>,
    rules: seq<string>,
    evidenceIds: seq<string>,
    authority: string,
    rollbackPlan: map<string, string>
  )

  datatype EligibilityCheck = EligibilityCheck(check: string, passed: bool, detail: string)

  datatype Verification = Verification(passed: bool, checks: seq<EligibilityCheck>, reasons: seq<string>)

  /** What an `AuthorizationError` says. */
  datatype AuthError =
    | VerificationFailed
    | NoToken
    | BadSignature
    | WrongCase
    | NotPermitted
    | Expired
    | NotImplemented

  /** The signed part of a token; times are whole seconds. */
  datatype Grant = Grant(
    tokenId: string,
    caseId: string,
    decisionHash: string,
    permitted: seq<string>,
    issuedAt: int,
    expiresAt: int
  )

  datatype Token = Token(grant: Grant, signature: string)

  const MICROSECONDS := 1_000_000

  /** What the gate is configured with: lifetime in seconds, HMAC and the digest of a decision. */
  datatype GateConfig = GateConfig(
    ttl: int,
    sign: Grant -> string,
    digest: (string, string, seq<string>, seq<string>, seq<string>) -> string
  )

  /** The readings of the clock, in microseconds, and of the identifier source, in the order they are taken. */
  datatype World = World(clock: nat -> int, ids: nat -> string)

  class Environment {
    const world: World
    var ticks: nat
    var issued: nat

    constructor (world: World)
      ensures this.world == world && ticks == 0 && issued == 0
    {
      this.world := world;
      ticks, issued := 0, 0;
    }

    method Now() returns (t: int)
      modifies this`ticks
      ensures t == world.clock(old(ticks)) && ticks == old(ticks) + 1
    {
      t := world.clock(ticks);
      ticks := ticks + 1;
    }

    method FreshId() returns (id: string)
      modifies this`issued
      ensures id == world.ids(old(issued)) && issued == old(issued) + 1
    {
      id := world.ids(issued);
      issued := issued + 1;
    }
  }

  // ---------- authorization ----------

  function GrantFor(g: GateConfig, c: Case, p: Proposal, id: string, now: int): Grant {
    var issuedAt := now / MICROSECONDS;
    Grant(id, c.caseId, g.digest(c.caseId, p.disposition, p.actions, p.rules, p.evidenceIds),
          p.actions, issuedAt, issuedAt + g.ttl)
  }

  function TokenFor(g: GateConfig, c: Case, p: Proposal, id: string, now: int): Token {
    var grant := GrantFor(g, c, p, id, now);
    Token(grant, g.sign(grant))
  }

  /** What a token is refused for before the clock is consulted. */
  function Mismatch(g: GateConfig, token: Token, caseId: string, action: string): Option<AuthError> {
    if g.sign(token.grant) != token.signature then Some(BadSignature)
    else if token.grant.caseId != caseId then Some(WrongCase)
    else if action !in token.grant.permitted then Some(NotPermitted)
    else None
  }

  predicate IsExpired(token: Token, now: int) {
    now > token.grant.expiresAt * MICROSECONDS
  }

  datatype Authorization = Declined | Issued(token: Token) | Error(error: AuthError)

  class AuthorizationGate {
    const config: GateConfig
    const environment: Environment

    constructor (config: GateConfig, environment: Environment)
      ensures this.config == config && this.environment == environment
    {
      this.config, this.environment := config, environment;
    }

    method Authorize(c: Case, p: Proposal, v: Verification) returns (r: Authorization)
      modifies environment
      ensures p.actions == [] ==> r == Declined
      ensures p.actions != [] && !v.passed ==> r == Error(VerificationFailed)
      ensures p.actions != [] && v.passed ==>
                r == Issued(TokenFor(config, c, p, environment.world.ids(old(environment.issued)),
                                     environment.world.clock(old(environment.ticks))))
      ensures r.Issued? ==>
                && var g, now := r.token.grant, environment.world.clock(old(environment.ticks));
                && g.tokenId == environment.world.ids(old(environment.issued))
                && g.caseId == c.caseId && g.permitted == p.actions
                && g.decisionHash == config.digest(c.caseId, p.disposition, p.actions, p.rules, p.evidenceIds)
                && g.issuedAt * 1_000_000 <= now < (g.issuedAt + 1) * 1_000_000
                && g.expiresAt == g.issuedAt + config.ttl
                && r.token.signature == config.sign(g)
      ensures environment.ticks == old(environment.ticks) + if r.Issued? then 1 else 0
      ensures environment.issued == old(environment.issued) + if r.Issued? then 1 else 0
    {
      if p.actions == [] {
        return Declined;
      }
      if !v.passed {
        return Error(VerificationFailed);
      }
      var now := environment.Now();
      var id := environment.FreshId();
      var grant := GrantFor(config, c, p, id, now);
      return Issued(Token(grant, config.sign(grant)));
    }

    method Validate(token: Token, caseId: string, action: string) returns (refusal: Option<AuthError>)
      modifies environment`ticks
      ensures var mismatch := Mismatch(config, token, caseId, action);
              if mismatch.Some? then refusal == mismatch && environment.ticks == old(environment.ticks)
              else
                && environment.ticks == old(environment.ticks) + 1
                && refusal == if IsExpired(token, environment.world.clock(old(environment.ticks))) then Some(Expired)
                              else None
      ensures refusal == if token.signature != config.sign(token.grant) then Some(BadSignature)
                         else if caseId != token.grant.caseId then Some(WrongCase)
                         else if action !in token.grant.permitted then Some(NotPermitted)
                         else if environment.world.clock(old(environment.ticks)) > 1_000_000 * token.grant.expiresAt
                         then Some(Expired) else None
    {
      if config.sign(token.grant) != token.signature {
        return Some(BadSignature);
      }
      if token.grant.caseId != caseId {
        return Some(WrongCase);
      }
      if action !in token.grant.permitted {
        return Some(NotPermitted);
      }
      var now := environment.Now();
      if IsExpired(token, now) {
        return Some(Expired);
      }
      return None;
    }
  }

  /** Signature, case and action checks never refuse a token the gate issued for the case and one of its actions. */
  lemma IssuedTokenMatches(g: GateConfig, c: Case, p: Proposal, id: string, now: int, action: string)
    requires action in p.actions
    ensures Mismatch(g, TokenFor(g, c, p, id, now), c.caseId, action) == None
  {
  }

  /** An issued token lives from the start of the second it was issued in for the configured lifetime. */
  lemma IssuedTokenLifetime(g: GateConfig, c: Case, p: Proposal, id: string, now: int, later: int)
    ensures var second := now / MICROSECONDS * MICROSECONDS;
            && second <= now < second + MICROSECONDS
            && (IsExpired(TokenFor(g, c, p, id, now), later) <==> later > second + g.ttl * MICROSECONDS)
  {
  }

  // ---------- the simulated target ----------

  datatype IdentityState = IdentityState(
    subjectId: string,
    activeSessions: int,
    stepUpRequired: bool,
    monitoringLevel: string,
    accountEnabled: bool
  )

  type States = map<string, IdentityState>

  datatype Message = Applied | DownstreamFailure | Refused(error: AuthError)

  datatype ActionResult = ActionResult(
    action: string,
    success: bool,
    before: Option<IdentityState>,
    after: Option<IdentityState>,
    message: Message,
    rollback: string
  )

  function InitialState(subjectId: string): IdentityState {
    IdentityState(subjectId, 2, false, "baseline", true)
  }

  const REVOKE := "revoke_active_sessions"
  const STEP_UP := "force_step_up_auth"
  const MONITOR := "increase_monitoring"

  predicate Implemented(action: string) {
    action == REVOKE || action == STEP_UP || action == MONITOR
  }

  /** The effect of an implemented action on the state of one case. */
  function Effect(action: string, s: IdentityState): IdentityState
    requires Implemented(action)
  {
    if action == REVOKE then s.(activeSessions := 0)
    else if action == STEP_UP then s.(stepUpRequired := true)
    else s.(monitoringLevel := "enhanced")
  }

  function Rollback(action: string): string
    requires Implemented(action)
  {
    if action == REVOKE then "reauthentication_required"
    else if action == STEP_UP then "remove_temporary_step_up_policy"
    else "restore_baseline_monitoring"
  }

  function Ensured(states: States, c: Case): States {
    if c.caseId in states then states else states[c.caseId := InitialState(c.subjectId)]
  }

  /** The result of applying an action to a state; none when the target does not implement it. */
  function Applying(fails: bool, action: string, s: IdentityState): Option<ActionResult> {
    if fails then Some(ActionResult(action, false, Some(s), Some(s), DownstreamFailure, "not_required_no_change"))
    else if !Implemented(action) then None
    else Some(ActionResult(action, true, Some(s), Some(Effect(action, s)), Applied, Rollback(action)))
  }

  class SimulatedIdentityProvider {
    const fails: (string, string) -> bool
    var states: States

    constructor (fails: (string, string) -> bool)
      ensures this.fails == fails && states == map[]
    {
      this.fails := fails;
      states := map[];
    }

    method InitializeCase(c: Case)
      modifies this
      ensures states == Ensured(old(states), c)
      ensures c.caseId in old(states) ==> states == old(states)
      ensures c.caseId !in old(states) ==>
                states == old(states)[c.caseId := IdentityState(c.subjectId, 2, false, "baseline", true)]
    {
      if c.caseId !in states {
        states := states[c.caseId := InitialState(c.subjectId)];
      }
    }

    method Apply(caseId: string, action: string) returns (r: Option<ActionResult>)
      requires caseId in states
      modifies this
      ensures r == Applying(fails(caseId, action), action, old(states)[caseId])
      ensures states == if r.Some? && r.value.success then old(states)[caseId := Effect(action, old(states)[caseId])]
                        else old(states)
      ensures var s := old(states)[caseId];
              if fails(caseId, action) then
                && states == old(states)
                && r == Some(ActionResult(action, false, Some(s), Some(s), DownstreamFailure, "not_required_no_change"))
              else if action == "revoke_active_sessions" then
                && states == old(states)[caseId := s.(activeSessions := 0)]
                && r == Some(ActionResult(action, true, Some(s), Some(s.(activeSessions := 0)), Applied,
                                          "reauthentication_required"))
              else if action == "force_step_up_auth" then
                && states == old(states)[caseId := s.(stepUpRequired := true)]
                && r == Some(ActionResult(action, true, Some(s), Some(s.(stepUpRequired := true)), Applied,
                                          "remove_temporary_step_up_policy"))
              else if action == "increase_monitoring" then
                && states == old(states)[caseId := s.(monitoringLevel := "enhanced")]
                && r == Some(ActionResult(action, true, Some(s), Some(s.(monitoringLevel := "enhanced")), Applied,
                                          "restore_baseline_monitoring"))
              else r == None && states == old(states)
    {
      var state := states[caseId];
      var before := state;
      if fails(caseId, action) {
        return Some(ActionResult(action, false, Some(before), Some(state), DownstreamFailure,
                                 "not_required_no_change"));
      }
      var rollback;
      if action == REVOKE {
        state := state.(activeSessions := 0);
        rollback := "reauthentication_required";
      } else if action == STEP_UP {
        state := state.(stepUpRequired := true);
        rollback := "remove_temporary_step_up_policy";
      } else if action == MONITOR {
        state := state.(monitoringLevel := "enhanced");
        rollback := "restore_baseline_monitoring";
      } else {
        return None;
      }
      states := states[caseId := state];
      return Some(ActionResult(action, true, Some(before), Some(state), Applied, rollback));
    }
  }

  // ---------- the broker ----------

  /** What one brokered action leaves behind: the target, the clock, and the result or the refusal. */
  datatype Brokered = Brokered(states: States, ticks: nat, outcome: Outcome)

  datatype Outcome = Executed(result: ActionResult) | Rejected(error: AuthError)

  function Brokering(g: GateConfig, w: World, fails: (string, string) -> bool,
                     c: Case, token: Token, action: string, states: States, ticks: nat): Brokered {
    var mismatch := Mismatch(g, token, c.caseId, action);
    if mismatch.Some? then Brokered(states, ticks, Rejected(mismatch.value))
    else if IsExpired(token, w.clock(ticks)) then Brokered(states, ticks + 1, Rejected(Expired))
    else
      var ready := Ensured(states, c);
      match Applying(fails(c.caseId, action), action, ready[c.caseId])
      case None => Brokered(ready, ticks + 1, Rejected(NotImplemented))
      case Some(result) =>
        Brokered(if result.success then ready[c.caseId := Effect(action, ready[c.caseId])] else ready,
                 ticks + 1, Executed(result))
  }

  class ActionBroker {
    const gate: AuthorizationGate
    const target: SimulatedIdentityProvider

    constructor (gate: AuthorizationGate, target: SimulatedIdentityProvider)
      ensures this.gate == gate && this.target == target
    {
      this.gate, this.target := gate, target;
    }

    method Execute(c: Case, action: string, token: Option<Token>) returns (outcome: Outcome)
      modifies gate.environment`ticks, target
      ensures token.None? ==>
                outcome == Rejected(NoToken) && target.states == old(target.states)
                && gate.environment.ticks == old(gate.environment.ticks)
      ensures token.Some? ==>
                Brokered(target.states, gate.environment.ticks, outcome) ==
                Brokering(gate.config, gate.environment.world, target.fails, c, token.value, action,
                          old(target.states), old(gate.environment.ticks))
    {
      if token.None? {
        return Rejected(NoToken);
      }
      var refusal := gate.Validate(token.value, c.caseId, action);
      if refusal.Some? {
        return Rejected(refusal.value);
      }
      target.InitializeCase(c);
      var result := target.Apply(c.caseId, action);
      if result.None? {
        return Rejected(NotImplemented);
      }
      return Executed(result.value);
    }
  }

  // ---------- the check after the actions ----------

  datatype StateValue = Amount(n: int) | Flag(b: bool) | Level(s: string)

  /** `actual` is absent when there is no state after the action. */
  datatype Check = Check(action: string, passed: bool, field: string, expected: StateValue, actual: Option<StateValue>)

  const ACTIVE_SESSIONS := "active_sessions"
  const STEP_UP_REQUIRED := "step_up_required"
  const MONITORING_LEVEL := "monitoring_level"
  const ENHANCED := "enhanced"

  /** The field of the state an action is checked by, and the value it should have. */
  function ExpectedState(action: string): (string, StateValue)
    requires Implemented(action)
  {
    if action == REVOKE then (ACTIVE_SESSIONS, Amount(0))
    else if action == STEP_UP then (STEP_UP_REQUIRED, Flag(true))
    else (MONITORING_LEVEL, Level(ENHANCED))
  }

  /** That field of a state. */
  function ActualState(action: string, s: IdentityState): StateValue
    requires Implemented(action)
  {
    if action == REVOKE then Amount(s.activeSessions)
    else if action == STEP_UP then Flag(s.stepUpRequired)
    else Level(s.monitoringLevel)
  }

  /** The check of one result. */
  function CheckOf(r: ActionResult): Check
    requires Implemented(r.action)
  {
    Check(r.action, CheckPasses(r), ExpectedState(r.action).0, ExpectedState(r.action).1,
          if r.after.None? then None else Some(ActualState(r.action, r.after.value)))
  }

  /** The state an action is expected to leave. */
  predicate Reached(action: string, s: IdentityState)
    requires Implemented(action)
  {
    if action == REVOKE then s.activeSessions == 0
    else if action == STEP_UP then s.stepUpRequired
    else s.monitoringLevel == ENHANCED
  }

  predicate CheckPasses(r: ActionResult)
    requires Implemented(r.action)
  {
    r.success && r.after.Some? && Reached(r.action, r.after.value)
  }

  predicate AllImplemented(results: seq<ActionResult>) {
    forall i | 0 <= i < |results| :: Implemented(results[i].action)
  }

  datatype PostCheck = PostCheck(passed: bool, checks: seq<Check>)

  class PostActionVerifier {
    constructor () {
    }

    /** None stands for the lookup error on an action without an expected state. */
    method Verify(results: seq<ActionResult>) returns (r: Option<PostCheck>)
      ensures r.Some? <==> AllImplemented(results)
      ensures r.Some? ==>
                && |r.value.checks| == |results|
                && (forall i | 0 <= i < |results| :: r.value.checks[i] == CheckOf(results[i]))
                && (r.value.passed <==> forall i | 0 <= i < |results| :: CheckPasses(results[i]))
    {
      var checks: seq<Check> := [];
      var passed := true;
      for n := 0 to |results|
        invariant |checks| == n
        invariant forall i | 0 <= i < n :: Implemented(results[i].action)
        invariant forall i | 0 <= i < n :: checks[i] == CheckOf(results[i])
        invariant passed <==> forall i | 0 <= i < n :: CheckPasses(results[i])
      {
        var result := results[n];
        if !Implemented(result.action) {
          return None;
        }
        var (field, expected) := ExpectedState(result.action);
        var actual := if result.after.None? then None else Some(ActualState(result.action, result.after.value));
        var check := result.success && actual == Some(expected);
        checks := checks + [Check(result.action, check, field, expected, actual)];
        passed := passed && check;
      }
      return Some(PostCheck(passed, checks));
    }
  }
}
