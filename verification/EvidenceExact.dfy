/** The assessment of a case read straight off its events: counts, sums, weights and penalties, in numbers. */
module EvidenceExact {
  import opened FeatureContract
  import opened Events
  import opened Evidence

  /** The places of the events with a property. */
  function Places(events: seq<Event>, p: Event -> bool): set<int> {
    set i | 0 <= i < |events| && p(events[i])
  }

  function Sum(xs: seq<real>): real {
    if xs == [] then 0.0 else xs[0] + Sum(xs[1..])
  }

  lemma {:induction false} SumSnoc(xs: seq<real>, x: real)
    ensures Sum(xs + [x]) == Sum(xs) + x
  {
    if xs == [] {
      assert [x][1..] == [];
    } else {
      assert (xs + [x])[1..] == xs[1..] + [x];
      SumSnoc(xs[1..], x);
    }
  }

  lemma {:induction false} TotalIsSum(events: seq<Event>, f: Event -> real, xs: seq<real>)
    requires |xs| == |events| && forall i | 0 <= i < |xs| :: xs[i] == f(events[i])
    ensures Total(events, f) == Sum(xs)
  {
    if events != [] {
      var n := |events| - 1;
      TotalIsSum(events[..n], f, xs[..n]);
      SumSnoc(xs[..n], xs[n]);
      assert xs == xs[..n] + [xs[n]];
    }
  }

  lemma PlacesSnoc(events: seq<Event>, p: Event -> bool)
    requires events != []
    ensures var n := |events| - 1;
            |Places(events, p)| == |Places(events[..n], p)| + if p(events[n]) then 1 else 0
  {
    var n := |events| - 1;
    var before := Places(events[..n], p);
    assert Places(events, p) == if p(events[n]) then before + {n} else before;
    assert n !in before;
  }

  lemma {:induction false} OnesCounted(events: seq<Event>, p: Event -> bool, f: Event -> real)
    requires forall e: Event :: f(e) == One(p(e))
    ensures Total(events, f) == |Places(events, p)| as real
  {
    if events == [] {
      assert Places(events, p) == {};
    } else {
      PlacesSnoc(events, p);
      OnesCounted(events[..|events| - 1], p, f);
    }
  }

  lemma {:induction false} IdsCounted(events: seq<Event>, p: Event -> bool)
    ensures |Ids(events, p)| == |Places(events, p)|
  {
    if events == [] {
      assert Places(events, p) == {};
    } else {
      PlacesSnoc(events, p);
      IdsCounted(events[..|events| - 1], p);
    }
  }

  lemma SamePlaces(events: seq<Event>, p: Event -> bool, q: Event -> bool)
    requires forall i | 0 <= i < |events| :: p(events[i]) == q(events[i])
    ensures Places(events, p) == Places(events, q)
  {
  }

  // ---------- single events ----------

  /** Full credit up to five minutes from observation to collection, none from two hours on, evenly falling between. */
  function FreshScore(e: Event): real {
    var delay := e.collectedAt - e.observedAt;
    if delay <= 300.0 then 1.0
    else if delay >= 7200.0 then 0.0
    else (7200.0 - delay) / 6900.0
  }

  lemma FreshnessIsScore(e: Event)
    ensures Freshness(e) == FreshScore(e)
  {
    var delay := e.collectedAt - e.observedAt;
    if 300.0 < delay < 7200.0 {
      assert (7200.0 - delay) / 6900.0 == 1.0 - (delay - 300.0) / 6900.0;
    }
  }

  function FreshScores(events: seq<Event>): seq<real> {
    seq(|events|, i requires 0 <= i < |events| => FreshScore(events[i]))
  }

  function TrustScores(events: seq<Event>): seq<real> {
    seq(|events|, i requires 0 <= i < |events| => events[i].trust)
  }

  predicate StatesTrue(e: Event, key: Key) {
    key in e.attributes && e.attributes[key] == Bool(true)
  }

  predicate Suspicious(e: Event) {
    || StatesTrue(e, ThreatIp) || StatesTrue(e, TokenReuse) || StatesTrue(e, CredentialDumping)
    || StatesTrue(e, LateralMovement) || StatesTrue(e, EdrMalware) || StatesTrue(e, MfaFatigue)
    || StatesTrue(e, OauthGrant) || StatesTrue(e, UnusualAdminAction) || StatesTrue(e, NewDevice)
    || StatesTrue(e, ImpossibleTravel)
  }

  predicate Reassuring(e: Event) {
    || StatesTrue(e, KnownVpn) || StatesTrue(e, ApprovedTravel) || StatesTrue(e, MaintenanceWindow)
    || StatesTrue(e, ServiceAccountBaseline) || StatesTrue(e, StrongMfa)
  }

  lemma IndicatorsSpelled(e: Event)
    ensures IsPositive(e) == Suspicious(e) && IsBenign(e) == Reassuring(e)
  {
    forall k ensures Raises(e, k) == StatesTrue(e, k) {
    }
    if Suspicious(e) {
      var k :| k in POSITIVE && StatesTrue(e, k);
    }
    if Reassuring(e) {
      var k :| k in BENIGN && StatesTrue(e, k);
    }
  }

  /** A conflict is reported by the network alone, as a truth value. */
  lemma ConflictSpelled(e: Event)
    requires ValidSource(e.source)
    ensures var read := Conflict(e.source, e.attributes);
            if SourceConflict !in e.attributes then read == Ok(false)
            else if e.source != Network then read == Err(NotAuthorized(SourceConflict))
            else match e.attributes[SourceConflict]
                 case Bool(b) => read == Ok(b)
                 case _ => read == Err(NotBoolean(EventField, SourceConflict))
  {
  }

  // ---------- sources ----------

  const EXPECTED: seq<Source> :=
    [AssetInventory, ChangeManagement, Endpoint, Identity, Network, ThreatIntel, UserContext]

  function Sources(events: seq<Event>): set<Source> {
    set e | e in events :: e.source
  }

  /** The listed sources that none of the events come from, in the order of the list. */
  function Absent(listed: seq<Source>, events: seq<Event>): seq<Source> {
    if listed == [] then []
    else (if listed[0] in Sources(events) then [] else [listed[0]]) + Absent(listed[1..], events)
  }

  lemma SourcesSame(events: seq<Event>)
    ensures SourcesOf(events) == Sources(events)
    ensures SupportersOf(events) == set e | e in events && Suspicious(e) :: e.source
  {
    forall e ensures IsPositive(e) == Suspicious(e) {
      IndicatorsSpelled(e);
    }
    forall s | s in SourcesOf(events) ensures s in Sources(events) {
      var i :| 0 <= i < |events| && events[i].source == s;
      assert events[i] in events;
    }
    var supporters := set e | e in events && Suspicious(e) :: e.source;
    forall s | s in SupportersOf(events) ensures s in supporters {
      var i :| 0 <= i < |events| && IsPositive(events[i]) && events[i].source == s;
      assert events[i] in events;
    }
    forall s | s in supporters ensures s in SupportersOf(events) {
      var e :| e in events && Suspicious(e) && e.source == s;
      var i :| 0 <= i < |events| && events[i] == e;
    }
  }

  lemma {:induction false} AbsentSnoc(listed: seq<Source>, s: Source, events: seq<Event>)
    ensures Absent(listed + [s], events) == Absent(listed, events) + if s in Sources(events) then [] else [s]
  {
    if listed == [] {
      assert [s][1..] == [];
    } else {
      assert (listed + [s])[1..] == listed[1..] + [s];
      AbsentSnoc(listed[1..], s, events);
    }
  }

  lemma {:induction false} MissingIsAbsent(events: seq<Event>, n: nat)
    requires n <= EXPECTED_COUNT
    ensures |EXPECTED| == EXPECTED_COUNT
    ensures MissingUpTo(SourcesOf(events), n) == Absent(EXPECTED[..n], events)
  {
    SourcesSame(events);
    if n > 0 {
      MissingIsAbsent(events, n - 1);
      AbsentSnoc(EXPECTED[..n - 1], EXPECTED[n - 1], events);
      assert EXPECTED[..n] == EXPECTED[..n - 1] + [EXPECTED[n - 1]];
      assert ExpectedAt(n - 1) == EXPECTED[n - 1];
    }
  }

  lemma MissingSpelled(events: seq<Event>)
    ensures Missing(SourcesOf(events)) == Absent(EXPECTED, events)
  {
    MissingIsAbsent(events, EXPECTED_COUNT);
    assert EXPECTED[..EXPECTED_COUNT] == EXPECTED;
  }

  // ---------- lists of identifiers ----------

  /** The identifiers of the events with a property, in the order of the events. */
  function Carried(events: seq<Event>, p: Event -> bool): seq<string> {
    if events == [] then []
    else (if p(events[0]) then [events[0].id] else []) + Carried(events[1..], p)
  }

  lemma {:induction false} IdsCarried(events: seq<Event>, p: Event -> bool)
    ensures Ids(events, p) == Carried(events, p)
    decreases |events|
  {
    if events != [] {
      IdsCarried(events[1..], p);
      IdsJoined(events[..1], events[1..], p);
      assert events == events[..1] + events[1..];
      assert events[..1][..0] == [];
    }
  }

  lemma {:induction false} CarriedSame(events: seq<Event>, p: Event -> bool, q: Event -> bool)
    requires forall e: Event :: p(e) == q(e)
    ensures Carried(events, p) == Carried(events, q)
  {
    if events != [] {
      CarriedSame(events[1..], p, q);
    }
  }

  // ---------- the assessment ----------

  function HasProvenance(): Event -> bool {
    (e: Event) => e.provenance != ""
  }

  function PassedIntegrity(): Event -> bool {
    (e: Event) => e.integrity == Verified
  }

  function ReportsConflict(): Event -> bool {
    (e: Event) => StatesTrue(e, SourceConflict)
  }

  function Instructs(): Event -> bool {
    (e: Event) => e.instructional
  }

  /** The sum before it is cut to the unit interval. */
  function RawQuality(events: seq<Event>): real
    requires events != []
  {
    var n := |events| as real;
    var sources, conflicts := |Sources(events)|, |Places(events, ReportsConflict())|;
    0.27 * (|Places(events, HasProvenance())| as real / n)
    + 0.23 * (|Places(events, PassedIntegrity())| as real / n)
    + 0.18 * (Sum(FreshScores(events)) / n)
    + 0.17 * (if sources < 7 then sources as real / 7.0 else 1.0)
    + 0.15 * (Sum(TrustScores(events)) / n)
    - (if conflicts >= 3 then 0.25 else 0.10 * conflicts as real)
    - (if Places(events, Instructs()) != {} then 0.30 else 0.0)
    - (if |Absent(EXPECTED, events)| >= 2 then 0.12 else 0.0)
  }

  lemma AveragesSpelled(events: seq<Event>)
    requires events != []
    ensures var a, n := Assessed(events), |events| as real;
            && a.provenance == |Places(events, HasProvenance())| as real / n
            && a.integrity == |Places(events, PassedIntegrity())| as real / n
            && a.freshness == Sum(FreshScores(events)) / n
            && a.trust == Sum(TrustScores(events)) / n
            && a.diversity == (if |Sources(events)| < 7 then |Sources(events)| as real / 7.0 else 1.0)
  {
    OnesCounted(events, IsProvenanced, ProvenanceValue);
    SamePlaces(events, IsProvenanced, HasProvenance());
    OnesCounted(events, IsVerified, IntegrityValue);
    SamePlaces(events, IsVerified, PassedIntegrity());
    forall e: Event ensures Freshness(e) == FreshScore(e) {
      FreshnessIsScore(e);
    }
    TotalIsSum(events, Freshness, FreshScores(events));
    TotalIsSum(events, Trust, TrustScores(events));
    SourcesSame(events);
  }

  /** The other parts of an assessment. */
  lemma ListsSpelled(events: seq<Event>)
    requires events != []
    ensures var a := Assessed(events);
            && a.supporting == |set e | e in events && Suspicious(e) :: e.source|
            && a.positiveIds == Carried(events, (e: Event) => Suspicious(e))
            && a.benignIds == Carried(events, (e: Event) => Reassuring(e))
            && a.missing == Absent(EXPECTED, events)
            && a.conflicts == |Places(events, ReportsConflict())|
            && a.poisonedIds == Carried(events, Instructs())
            && (a.poisoned <==> Places(events, Instructs()) != {})
  {
    SourcesSame(events);
    MissingSpelled(events);
    forall e: Event ensures IsPositive(e) == Suspicious(e) && IsBenign(e) == Reassuring(e) {
      IndicatorsSpelled(e);
    }
    IdsCarried(events, IsPositive);
    CarriedSame(events, IsPositive, (e: Event) => Suspicious(e));
    IdsCarried(events, IsBenign);
    CarriedSame(events, IsBenign, (e: Event) => Reassuring(e));
    IdsCarried(events, IsInstructional);
    CarriedSame(events, IsInstructional, Instructs());
    IdsCounted(events, IsInstructional);
    SamePlaces(events, IsInstructional, Instructs());
    IdsCounted(events, IsConflicting);
    SamePlaces(events, IsConflicting, ReportsConflict());
  }

  /**
   The quality of a case.  Five averages over its events count 27, 23, 18, 17 and 15 hundredths; each conflict takes off
   a tenth, at most a quarter in all, an instructing event 0.30, and two or more absent sources 0.12; the rest is cut to
   the unit interval.
   */
  lemma QualityExactly(events: seq<Event>)
    requires events != []
    ensures var raw := RawQuality(events);
            Assessed(events).quality == if raw < 0.0 then 0.0 else if raw > 1.0 then 1.0 else raw
  {
    AveragesSpelled(events);
    ListsSpelled(events);
  }

  function Given(flag: bool, reason: Reason): seq<Reason> {
    if flag then [reason] else []
  }

  lemma FindingsSpelled(provenance: real, integrity: real, freshness: real, missing: seq<Source>, conflicts: nat,
                        poisoned: bool)
    ensures Findings(provenance, integrity, freshness, missing, conflicts, poisoned)
         == Given(provenance < 1.0, LacksProvenance) + Given(integrity < 1.0, NotVerified)
          + Given(freshness < 0.80, Stale) + Given(missing != [], MissingSources(missing))
          + Given(conflicts > 0, Conflicting) + Given(poisoned, Instructional)
  {
    forall rs: seq<Reason>, flag, reason ensures AddIf(rs, flag, reason) == rs + Given(flag, reason) {
    }
    assert [] + Given(provenance < 1.0, LacksProvenance) == Given(provenance < 1.0, LacksProvenance);
  }

  /** The reasons, each under its own condition, in this order. */
  lemma ReasonsSpelled(events: seq<Event>)
    requires events != []
    ensures var a := Assessed(events);
            var given := Given(a.provenance < 1.0, LacksProvenance) + Given(a.integrity < 1.0, NotVerified)
                       + Given(a.freshness < 0.80, Stale) + Given(a.missing != [], MissingSources(a.missing))
                       + Given(a.conflicts > 0, Conflicting) + Given(a.poisoned, Instructional);
            a.reasons == if given == [] then [MeetsBaseline] else given
  {
    var a := Assessed(events);
    FindingsSpelled(a.provenance, a.integrity, a.freshness, a.missing, a.conflicts, a.poisoned);
  }

  /** Without events there is nothing, and every source is missing. */
  lemma NothingAssessed()
    ensures var a := Assessed([]);
            && a.quality == a.provenance == a.integrity == a.freshness == a.diversity == a.trust == 0.0
            && a.supporting == 0 && a.conflicts == 0 && !a.poisoned
            && a.positiveIds == [] && a.benignIds == [] && a.poisonedIds == []
            && a.missing == EXPECTED && a.reasons == [NoEvents]
  {
    MissingSpelled([]);
    assert SourcesOf([]) == {};
    assert Absent(EXPECTED, []) == EXPECTED by {
      AllAbsent(EXPECTED);
    }
  }

  lemma {:induction false} AllAbsent(listed: seq<Source>)
    ensures Absent(listed, []) == listed
  {
    if listed != [] {
      AllAbsent(listed[1..]);
      assert listed == [listed[0]] + listed[1..];
    }
  }
}
