/** Evidence assessment: one loop over the events of a case, then a weighted score with penalties, over exact reals. */
module Evidence {
  import opened FeatureContract
  import opened Events

  const POSITIVE: set<Key> := {
    ThreatIp, TokenReuse, CredentialDumping, LateralMovement, EdrMalware, MfaFatigue, OauthGrant, UnusualAdminAction,
    NewDevice, ImpossibleTravel}

  const BENIGN: set<Key> := {KnownVpn, ApprovedTravel, MaintenanceWindow, ServiceAccountBaseline, StrongMfa}

  const EXPECTED_COUNT := 7

  /** The expected sources, in the order of their names. */
  function ExpectedAt(i: nat): Source
    requires i < EXPECTED_COUNT
  {
    if i == 0 then AssetInventory
    else if i == 1 then ChangeManagement
    else if i == 2 then Endpoint
    else if i == 3 then Identity
    else if i == 4 then Network
    else if i == 5 then ThreatIntel
    else UserContext
  }

  datatype Reason =
    | NoEvents
    | LacksProvenance
    | NotVerified
    | Stale
    | MissingSources(sources: seq<Source>)
    | Conflicting
    | Instructional
    | MeetsBaseline

  datatype Assessment = Assessment(
    quality: real,
    provenance: real,
    integrity: real,
    freshness: real,
    diversity: real,
    trust: real,
    supporting: nat,
    positiveIds: seq<string>,
    benignIds: seq<string>,
    missing: seq<Source>,
    conflicts: nat,
    poisoned: bool,
    poisonedIds: seq<string>,
    reasons: seq<Reason>
  )

  // ---------- one event ----------

  predicate IsProvenanced(e: Event) {
    e.provenance != ""
  }

  predicate IsVerified(e: Event) {
    e.integrity == Verified
  }

  predicate IsPositive(e: Event) {
    exists k | k in POSITIVE :: Raises(e, k)
  }

  predicate IsBenign(e: Event) {
    exists k | k in BENIGN :: Raises(e, k)
  }

  predicate IsConflicting(e: Event) {
    Raises(e, SourceConflict)
  }

  predicate IsInstructional(e: Event) {
    e.instructional
  }

  function One(flag: bool): real {
    if flag then 1.0 else 0.0
  }

  function ProvenanceValue(e: Event): real {
    One(IsProvenanced(e))
  }

  function IntegrityValue(e: Event): real {
    One(IsVerified(e))
  }

  /** How long the event took to be collected; never negative. */
  function Delay(e: Event): real {
    Max(0.0, e.collectedAt - e.observedAt)
  }

  /** Full credit below five minutes, none from two hours on, linear between. */
  function Freshness(e: Event): (x: real)
    ensures 0.0 <= x <= 1.0
    ensures Delay(e) <= 300.0 ==> x == 1.0
    ensures Delay(e) >= 7200.0 ==> x == 0.0
  {
    Clamp(1.0 - Max(0.0, Delay(e) - 300.0) / 6900.0)
  }

  function Trust(e: Event): real {
    e.trust
  }

  /** What the loop needs of an event. */
  predicate Assessable(e: Event) {
    Admissible(e) && Conflict(e.source, e.attributes).Ok?
  }

  predicate AllAssessable(events: seq<Event>) {
    forall i | 0 <= i < |events| :: Assessable(events[i])
  }

  // ---------- all events ----------

  function SourcesOf(events: seq<Event>): set<Source> {
    set i | 0 <= i < |events| :: events[i].source
  }

  function SupportersOf(events: seq<Event>): set<Source> {
    set i | 0 <= i < |events| && IsPositive(events[i]) :: events[i].source
  }

  /** What the loop over the events gathers. */
  datatype Summary = Summary(
    provenance: real,
    integrity: real,
    freshness: real,
    trust: real,
    sources: set<Source>,
    supporters: set<Source>,
    positiveIds: seq<string>,
    benignIds: seq<string>,
    poisonedIds: seq<string>,
    conflicts: nat
  )

  function SummaryOf(events: seq<Event>): Summary {
    Summary(
      Total(events, ProvenanceValue), Total(events, IntegrityValue), Total(events, Freshness), Total(events, Trust),
      SourcesOf(events), SupportersOf(events),
      Ids(events, IsPositive), Ids(events, IsBenign), Ids(events, IsInstructional), |Ids(events, IsConflicting)|)
  }

  /** Which of the first n expected sources sent nothing. */
  function MissingUpTo(sources: set<Source>, n: nat): seq<Source>
    requires n <= EXPECTED_COUNT
  {
    if n == 0 then []
    else if ExpectedAt(n - 1) in sources then MissingUpTo(sources, n - 1)
    else MissingUpTo(sources, n - 1) + [ExpectedAt(n - 1)]
  }

  function Missing(sources: set<Source>): seq<Source> {
    MissingUpTo(sources, EXPECTED_COUNT)
  }

  function Weighted(provenance: real, integrity: real, freshness: real, diversity: real, trust: real): real {
    0.27 * provenance + 0.23 * integrity + 0.18 * freshness + 0.17 * diversity + 0.15 * trust
  }

  function Penalty(conflicts: nat, poisoned: bool, missing: nat): real {
    Min(0.25, 0.10 * conflicts as real) + (if poisoned then 0.30 else 0.0) + if missing >= 2 then 0.12 else 0.0
  }

  function AddIf(reasons: seq<Reason>, flag: bool, reason: Reason): seq<Reason> {
    if flag then reasons + [reason] else reasons
  }

  function Findings(provenance: real, integrity: real, freshness: real, missing: seq<Source>, conflicts: nat,
                    poisoned: bool): seq<Reason>
  {
    var r1 := AddIf([], provenance < 1.0, LacksProvenance);
    var r2 := AddIf(r1, integrity < 1.0, NotVerified);
    var r3 := AddIf(r2, freshness < 0.80, Stale);
    var r4 := AddIf(r3, missing != [], MissingSources(missing));
    var r5 := AddIf(r4, conflicts > 0, Conflicting);
    AddIf(r5, poisoned, Instructional)
  }

  function ReasonsFor(provenance: real, integrity: real, freshness: real, missing: seq<Source>, conflicts: nat,
                      poisoned: bool): seq<Reason>
  {
    var found := Findings(provenance, integrity, freshness, missing, conflicts, poisoned);
    if found == [] then [MeetsBaseline] else found
  }

  /** The assessment of n events, from what the loop gathered. */
  function Judged(n: nat, s: Summary): Assessment
    requires n > 0
  {
    var provenance := s.provenance / n as real;
    var integrity := s.integrity / n as real;
    var freshness := s.freshness / n as real;
    var diversity := Clamp(|s.sources| as real / EXPECTED_COUNT as real);
    var trust := s.trust / n as real;
    var missing := Missing(s.sources);
    var poisoned := s.poisonedIds != [];
    Assessment(
      Clamp(Weighted(provenance, integrity, freshness, diversity, trust)
            - Penalty(s.conflicts, poisoned, |missing|)),
      provenance, integrity, freshness, diversity, trust, |s.supporters|, s.positiveIds, s.benignIds, missing,
      s.conflicts, poisoned, s.poisonedIds,
      ReasonsFor(provenance, integrity, freshness, missing, s.conflicts, poisoned))
  }

  const NO_EVENTS: Assessment :=
    Assessment(0.0, 0.0, 0.0, 0.0, 0.0, 0.0, 0, [], [], Missing({}), 0, false, [], [NoEvents])

  function Assessed(events: seq<Event>): Assessment {
    if events == [] then NO_EVENTS else Judged(|events|, SummaryOf(events))
  }

  // ---------- the loop ----------

  /** A summary with one more event. */
  function Added(s: Summary, e: Event): Summary {
    AddedAs(s, e, IsPositive(e), IsBenign(e), IsConflicting(e))
  }

  function AddedAs(s: Summary, e: Event, positive: bool, benign: bool, conflict: bool): Summary {
    Summary(
      s.provenance + ProvenanceValue(e), s.integrity + IntegrityValue(e), s.freshness + Freshness(e),
      s.trust + e.trust, s.sources + {e.source},
      if positive then s.supporters + {e.source} else s.supporters,
      if positive then s.positiveIds + [e.id] else s.positiveIds,
      if benign then s.benignIds + [e.id] else s.benignIds,
      if e.instructional then s.poisonedIds + [e.id] else s.poisonedIds,
      if conflict then s.conflicts + 1 else s.conflicts)
  }

  lemma SourcesAdded(events: seq<Event>, e: Event)
    ensures SourcesOf(events + [e]) == SourcesOf(events) + {e.source}
    ensures SupportersOf(events + [e])
         == if IsPositive(e) then SupportersOf(events) + {e.source} else SupportersOf(events)
  {
    var more := events + [e];
    assert more[|events|] == e;
    assert forall i | 0 <= i < |events| :: more[i] == events[i];
  }

  lemma SummaryAdded(events: seq<Event>, e: Event)
    ensures SummaryOf(events + [e]) == Added(SummaryOf(events), e)
  {
    assert (events + [e])[..|events|] == events;
    SourcesAdded(events, e);
  }

  /** Whether one of the indicators was read as true. */
  predicate AnyTrue(modeled: map<Key, Modeled>, indicators: set<Key>) {
    exists k | k in indicators :: k in modeled && modeled[k] == Flag(true)
  }

  lemma PositiveFlags()
    ensures forall k | k in POSITIVE :: IsFlag(k)
  {
  }

  lemma AnyTrueExactly(e: Event, indicators: set<Key>)
    requires Accepts(e.source, e.attributes) && forall k | k in indicators :: IsFlag(k)
    ensures AnyTrue(Projection(e.source, e.attributes), indicators) <==> exists k | k in indicators :: Raises(e, k)
  {
    forall k | k in indicators
      ensures k in Projection(e.source, e.attributes) && Projection(e.source, e.attributes)[k] == Flag(true)
         <==> Raises(e, k)
    {
      ReadsTrue(e, k);
    }
  }

  lemma PositiveRead(e: Event)
    requires Accepts(e.source, e.attributes)
    ensures AnyTrue(Projection(e.source, e.attributes), POSITIVE) == IsPositive(e)
  {
    PositiveFlags();
    AnyTrueExactly(e, POSITIVE);
  }

  lemma BenignRead(e: Event)
    requires Accepts(e.source, e.attributes)
    ensures AnyTrue(Projection(e.source, e.attributes), BENIGN) == IsBenign(e)
  {
    AnyTrueExactly(e, BENIGN);
  }

  lemma ConflictRead(e: Event)
    requires Conflict(e.source, e.attributes).Ok?
    ensures Conflict(e.source, e.attributes) == Ok(IsConflicting(e))
  {
  }

  /** The error of the first event that cannot be assessed. */
  ghost predicate FirstError(events: seq<Event>, error: ContractError) {
    exists i | 0 <= i < |events| ::
      && AllAssessable(events[..i])
      && if Selected(events[i].source, events[i].attributes).Err?
         then Selected(events[i].source, events[i].attributes).error == error
         else Conflict(events[i].source, events[i].attributes) == Err(error)
  }

  method AddEvent(s: Summary, e: Event, positive: bool, benign: bool, conflict: bool) returns (t: Summary)
    ensures t == AddedAs(s, e, positive, benign, conflict)
  {
    var delay := Max(0.0, e.collectedAt - e.observedAt);
    var freshness := Clamp(1.0 - Max(0.0, delay - 300.0) / 6900.0);
    var positiveIds, supporters := s.positiveIds, s.supporters;
    if positive {
      positiveIds := positiveIds + [e.id];
      supporters := supporters + {e.source};
    }
    var benignIds := s.benignIds;
    if benign {
      benignIds := benignIds + [e.id];
    }
    var conflicts := s.conflicts;
    if conflict {
      conflicts := conflicts + 1;
    }
    var poisonedIds := s.poisonedIds;
    if e.instructional {
      poisonedIds := poisonedIds + [e.id];
    }
    var provenance, integrity := s.provenance + One(e.provenance != ""), s.integrity + One(e.integrity == Verified);
    assert provenance == s.provenance + ProvenanceValue(e) && integrity == s.integrity + IntegrityValue(e);
    assert freshness == Freshness(e);
    t := Summary(provenance, integrity, s.freshness + freshness, s.trust + e.trust, s.sources + {e.source},
                 supporters, positiveIds, benignIds, poisonedIds, conflicts);
  }

  method Summarize(events: seq<Event>) returns (r: Result<Summary>)
    ensures r.Ok? <==> AllAssessable(events)
    ensures r.Ok? ==> r.value == SummaryOf(events)
    ensures r.Err? ==> FirstError(events, r.error)
  {
    var s := Summary(0.0, 0.0, 0.0, 0.0, {}, {}, [], [], [], 0);
    for n := 0 to |events|
      invariant AllAssessable(events[..n])
      invariant s == SummaryOf(events[..n])
    {
      var event := events[n];
      var modeled := SelectModeledAttributes(event.source, event.attributes);
      if modeled.Err? {
        assert !Assessable(event);
        return Err(modeled.error);
      }
      var conflict := Conflict(event.source, event.attributes);
      if conflict.Err? {
        assert !Assessable(event);
        return Err(conflict.error);
      }
      assert events[..n + 1] == events[..n] + [event];
      SummaryAdded(events[..n], event);
      PositiveRead(event);
      BenignRead(event);
      ConflictRead(event);
      s := AddEvent(s, event, AnyTrue(modeled.value, POSITIVE), AnyTrue(modeled.value, BENIGN), conflict.value);
    }
    assert events[..|events|] == events;
    return Ok(s);
  }

  method CollectMissing(sources: set<Source>) returns (missing: seq<Source>)
    ensures missing == Missing(sources)
  {
    missing := [];
    for i := 0 to EXPECTED_COUNT
      invariant missing == MissingUpTo(sources, i)
    {
      if ExpectedAt(i) !in sources {
        missing := missing + [ExpectedAt(i)];
      }
    }
  }

  /** Reads the score off the sums: weights, then one penalty after the other. */
  method Score(provenance: real, integrity: real, freshness: real, diversity: real, trust: real,
               conflicts: nat, poisoned: bool, missing: nat) returns (quality: real)
    ensures quality == Clamp(Weighted(provenance, integrity, freshness, diversity, trust)
                             - Penalty(conflicts, poisoned, missing))
    ensures var raw := 0.27 * provenance + 0.23 * integrity + 0.18 * freshness + 0.17 * diversity + 0.15 * trust
                       - (if conflicts >= 3 then 0.25 else 0.10 * conflicts as real)
                       - (if poisoned then 0.30 else 0.0) - (if missing >= 2 then 0.12 else 0.0);
            quality == if raw < 0.0 then 0.0 else if raw > 1.0 then 1.0 else raw
  {
    quality := 0.27 * provenance + 0.23 * integrity + 0.18 * freshness + 0.17 * diversity + 0.15 * trust;
    quality := quality - Min(0.25, 0.10 * conflicts as real);
    if poisoned {
      quality := quality - 0.30;
    }
    if missing >= 2 {
      quality := quality - 0.12;
    }
    quality := Clamp(quality);
  }

  method CollectReasons(provenance: real, integrity: real, freshness: real, missing: seq<Source>, conflicts: nat,
                        poisoned: bool) returns (reasons: seq<Reason>)
    ensures reasons == ReasonsFor(provenance, integrity, freshness, missing, conflicts, poisoned)
  {
    reasons := [];
    if provenance < 1.0 {
      reasons := reasons + [LacksProvenance];
    }
    ghost var r1 := AddIf([], provenance < 1.0, LacksProvenance);
    assert reasons == r1;
    if integrity < 1.0 {
      reasons := reasons + [NotVerified];
    }
    ghost var r2 := AddIf(r1, integrity < 1.0, NotVerified);
    assert reasons == r2;
    if freshness < 0.80 {
      reasons := reasons + [Stale];
    }
    ghost var r3 := AddIf(r2, freshness < 0.80, Stale);
    assert reasons == r3;
    if missing != [] {
      reasons := reasons + [MissingSources(missing)];
    }
    ghost var r4 := AddIf(r3, missing != [], MissingSources(missing));
    assert reasons == r4;
    if conflicts > 0 {
      reasons := reasons + [Conflicting];
    }
    ghost var r5 := AddIf(r4, conflicts > 0, Conflicting);
    assert reasons == r5;
    if poisoned {
      reasons := reasons + [Instructional];
    }
    assert reasons == Findings(provenance, integrity, freshness, missing, conflicts, poisoned);
    if reasons == [] {
      reasons := [MeetsBaseline];
    }
  }

  method AssessEvidence(events: seq<Event>) returns (r: Result<Assessment>)
    ensures r.Ok? <==> AllAssessable(events)
    ensures r.Ok? ==> r.value == Assessed(events)
    ensures r.Err? ==> FirstError(events, r.error)
  {
    if events == [] {
      return Ok(NO_EVENTS);
    }
    var summary := Summarize(events);
    if summary.Err? {
      return Err(summary.error);
    }
    var s, n := summary.value, |events| as real;
    var provenance, integrity, freshness := s.provenance / n, s.integrity / n, s.freshness / n;
    var diversity := Clamp(|s.sources| as real / EXPECTED_COUNT as real);
    var trust := s.trust / n;
    var missing := CollectMissing(s.sources);
    var poisoned := s.poisonedIds != [];
    var quality := Score(provenance, integrity, freshness, diversity, trust, s.conflicts, poisoned, |missing|);
    var reasons := CollectReasons(provenance, integrity, freshness, missing, s.conflicts, poisoned);
    return Ok(Assessment(quality, provenance, integrity, freshness, diversity, trust, |s.supporters|, s.positiveIds,
                         s.benignIds, missing, s.conflicts, poisoned, s.poisonedIds, reasons));
  }
}
