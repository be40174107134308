/** Bounds, monotonicity and order independence of the evidence assessment, over exact reals. */
module EvidenceLaws {
  import opened FeatureContract
  import opened Events
  import opened Evidence

  // ---------- arithmetic of the averages ----------

  lemma AverageMonotone(x: real, y: real, n: real)
    requires x <= y && n > 0.0
    ensures x / n <= y / n
  {
    assert y / n - x / n == (y - x) / n;
  }

  lemma AverageInUnit(x: real, n: real)
    requires 0.0 <= x <= n && n > 0.0
    ensures 0.0 <= x / n <= 1.0
    ensures x / n == 1.0 <==> x == n
  {
    AverageMonotone(0.0, x, n);
    AverageMonotone(x, n, n);
    assert x / n * n == x;
  }

  predicate TrustInUnit(events: seq<Event>) {
    forall i | 0 <= i < |events| :: 0.0 <= events[i].trust <= 1.0
  }

  /** Every average of the assessment lies in the unit interval. */
  lemma AveragesInUnit(events: seq<Event>)
    requires events != [] && TrustInUnit(events)
    ensures var a := Assessed(events);
            && 0.0 <= a.provenance <= 1.0
            && 0.0 <= a.integrity <= 1.0
            && 0.0 <= a.freshness <= 1.0
            && 0.0 <= a.diversity <= 1.0
            && 0.0 <= a.trust <= 1.0
  {
    var n := |events| as real;
    TotalBounds(events, ProvenanceValue);
    TotalBounds(events, IntegrityValue);
    TotalBounds(events, Freshness);
    TotalBounds(events, Trust);
    AverageInUnit(Total(events, ProvenanceValue), n);
    AverageInUnit(Total(events, IntegrityValue), n);
    AverageInUnit(Total(events, Freshness), n);
    AverageInUnit(Total(events, Trust), n);
  }

  /** The quality lies in the unit interval, and no weighing of the evidence makes up for a penalty. */
  lemma QualityBound(events: seq<Event>)
    requires TrustInUnit(events)
    ensures var a := Assessed(events);
            && 0.0 <= a.quality <= 1.0
            && a.quality <= 1.0 - Min(0.25, 0.10 * a.conflicts as real)
                                - (if a.poisoned then 0.30 else 0.0)
                                - (if |a.missing| >= 2 then 0.12 else 0.0)
  {
    if events == [] {
    } else {
      AveragesInUnit(events);
      var a := Assessed(events);
    }
  }

  /** A source is missing exactly when it is expected and no event came from it. */
  lemma MissingExactly(events: seq<Event>, source: Source)
    ensures source in Missing(SourcesOf(events)) <==>
            && (exists n | 0 <= n < EXPECTED_COUNT :: ExpectedAt(n) == source)
            && (forall i | 0 <= i < |events| :: events[i].source != source)
  {
    MissingUpToExactly(SourcesOf(events), source, EXPECTED_COUNT);
    assert source !in SourcesOf(events) <==> forall i | 0 <= i < |events| :: events[i].source != source;
  }

  lemma {:induction false} MissingUpToExactly(sources: set<Source>, source: Source, n: nat)
    requires n <= EXPECTED_COUNT
    ensures source in MissingUpTo(sources, n) <==>
            (exists k | 0 <= k < n :: ExpectedAt(k) == source) && source !in sources
  {
    if n > 0 {
      MissingUpToExactly(sources, source, n - 1);
    }
  }

  // ---------- what the reasons say about the events ----------

  lemma {:induction false} TotalOnes(events: seq<Event>, p: Event -> bool, f: Event -> real)
    requires forall e: Event :: f(e) == One(p(e))
    ensures Total(events, f) <= |events| as real
    ensures Total(events, f) == |events| as real <==> forall i | 0 <= i < |events| :: p(events[i])
  {
    if events != [] {
      var n := |events| - 1;
      TotalOnes(events[..n], p, f);
      assert f(events[n]) == One(p(events[n]));
      assert forall i | 0 <= i < n :: events[..n][i] == events[i];
    }
  }

  lemma AverageOfOnes(events: seq<Event>, p: Event -> bool, f: Event -> real)
    requires events != [] && forall e: Event :: f(e) == One(p(e))
    ensures Total(events, f) / |events| as real < 1.0 <==> exists i | 0 <= i < |events| :: !p(events[i])
  {
    TotalOnes(events, p, f);
    forall i | 0 <= i < |events|
      ensures 0.0 <= f(events[i]) <= 1.0
    {
      assert f(events[i]) == One(p(events[i]));
    }
    TotalBounds(events, f);
    AverageInUnit(Total(events, f), |events| as real);
  }

  lemma FindingsExactly(provenance: real, integrity: real, freshness: real, missing: seq<Source>, conflicts: nat,
                        poisoned: bool, r: Reason)
    ensures r in ReasonsFor(provenance, integrity, freshness, missing, conflicts, poisoned) <==>
            match r
            case LacksProvenance => provenance < 1.0
            case NotVerified => integrity < 1.0
            case Stale => freshness < 0.80
            case MissingSources(sources) => missing != [] && sources == missing
            case Conflicting => conflicts > 0
            case Instructional => poisoned
            case MeetsBaseline => provenance >= 1.0 && integrity >= 1.0 && freshness >= 0.80 && missing == []
                                  && conflicts == 0 && !poisoned
            case NoEvents => false
  {
    var r1 := AddIf([], provenance < 1.0, LacksProvenance);
    var r2 := AddIf(r1, integrity < 1.0, NotVerified);
    var r3 := AddIf(r2, freshness < 0.80, Stale);
    var r4 := AddIf(r3, missing != [], MissingSources(missing));
    var r5 := AddIf(r4, conflicts > 0, Conflicting);
    var found := AddIf(r5, poisoned, Instructional);
    AddedOnly([], provenance < 1.0, LacksProvenance, r);
    AddedOnly(r1, integrity < 1.0, NotVerified, r);
    AddedOnly(r2, freshness < 0.80, Stale, r);
    AddedOnly(r3, missing != [], MissingSources(missing), r);
    AddedOnly(r4, conflicts > 0, Conflicting, r);
    AddedOnly(r5, poisoned, Instructional, r);
    assert found == Findings(provenance, integrity, freshness, missing, conflicts, poisoned);
  }

  lemma AddedOnly(reasons: seq<Reason>, flag: bool, reason: Reason, r: Reason)
    ensures r in AddIf(reasons, flag, reason) <==> r in reasons || (flag && r == reason)
    ensures AddIf(reasons, flag, reason) == [] <==> reasons == [] && !flag
  {
  }

  /** The reasons of an assessment, read as statements about single events. */
  lemma ReasonsAboutEvents(events: seq<Event>)
    requires events != []
    ensures var a := Assessed(events);
            && (LacksProvenance in a.reasons <==> exists i | 0 <= i < |events| :: !IsProvenanced(events[i]))
            && (NotVerified in a.reasons <==> exists i | 0 <= i < |events| :: !IsVerified(events[i]))
            && (Conflicting in a.reasons <==> exists i | 0 <= i < |events| :: IsConflicting(events[i]))
            && (Instructional in a.reasons <==> exists i | 0 <= i < |events| :: IsInstructional(events[i]))
            && (MissingSources(a.missing) in a.reasons <==> a.missing != [])
  {
    var a := Assessed(events);
    AverageOfOnes(events, IsProvenanced, ProvenanceValue);
    AverageOfOnes(events, IsVerified, IntegrityValue);
    IdsEmpty(events, IsConflicting);
    IdsEmpty(events, IsInstructional);
    FindingsExactly(a.provenance, a.integrity, a.freshness, a.missing, a.conflicts, a.poisoned, LacksProvenance);
    FindingsExactly(a.provenance, a.integrity, a.freshness, a.missing, a.conflicts, a.poisoned, NotVerified);
    FindingsExactly(a.provenance, a.integrity, a.freshness, a.missing, a.conflicts, a.poisoned, Conflicting);
    FindingsExactly(a.provenance, a.integrity, a.freshness, a.missing, a.conflicts, a.poisoned, Instructional);
    FindingsExactly(a.provenance, a.integrity, a.freshness, a.missing, a.conflicts, a.poisoned,
                    MissingSources(a.missing));
  }

  // ---------- when the quality is perfect ----------

  lemma {:induction false} TotalFull(events: seq<Event>, f: Event -> real)
    requires forall i | 0 <= i < |events| :: 0.0 <= f(events[i]) <= 1.0
    ensures Total(events, f) == |events| as real <==> forall i | 0 <= i < |events| :: f(events[i]) == 1.0
  {
    if events != [] {
      var n := |events| - 1;
      TotalFull(events[..n], f);
      TotalBounds(events[..n], f);
      assert forall i | 0 <= i < n :: events[..n][i] == events[i];
    }
  }

  /** An average of values in the unit interval is one exactly when every value is. */
  lemma AverageFull(events: seq<Event>, f: Event -> real)
    requires events != [] && forall i | 0 <= i < |events| :: 0.0 <= f(events[i]) <= 1.0
    ensures Total(events, f) / |events| as real == 1.0 <==> forall i | 0 <= i < |events| :: f(events[i]) == 1.0
  {
    TotalFull(events, f);
    TotalBounds(events, f);
    AverageInUnit(Total(events, f), |events| as real);
  }

  predicate Flawless(e: Event) {
    && IsProvenanced(e) && IsVerified(e) && Freshness(e) == 1.0 && e.trust == 1.0
    && !IsConflicting(e) && !IsInstructional(e)
  }

  /** The quality is one exactly when no event has a flaw, seven sources reported, and at most one expected did not. */
  lemma QualityPerfect(events: seq<Event>)
    requires events != [] && TrustInUnit(events)
    ensures Assessed(events).quality == 1.0 <==>
            && (forall i | 0 <= i < |events| :: Flawless(events[i]))
            && |SourcesOf(events)| >= EXPECTED_COUNT
            && |Missing(SourcesOf(events))| < 2
  {
    var a := Assessed(events);
    AveragesInUnit(events);
    IdsEmpty(events, IsConflicting);
    IdsEmpty(events, IsInstructional);
    AveragesFull(events);
    forall i | 0 <= i < |events|
      ensures Flawless(events[i]) <==>
              && ProvenanceValue(events[i]) == IntegrityValue(events[i]) == Freshness(events[i]) == 1.0
              && Trust(events[i]) == 1.0 && !IsConflicting(events[i]) && !IsInstructional(events[i])
    {
    }
  }

  lemma AveragesFull(events: seq<Event>)
    requires events != [] && TrustInUnit(events)
    ensures var a := Assessed(events);
            && (a.provenance == 1.0 <==> forall i | 0 <= i < |events| :: ProvenanceValue(events[i]) == 1.0)
            && (a.integrity == 1.0 <==> forall i | 0 <= i < |events| :: IntegrityValue(events[i]) == 1.0)
            && (a.freshness == 1.0 <==> forall i | 0 <= i < |events| :: Freshness(events[i]) == 1.0)
            && (a.trust == 1.0 <==> forall i | 0 <= i < |events| :: Trust(events[i]) == 1.0)
            && (a.diversity == 1.0 <==> |SourcesOf(events)| >= EXPECTED_COUNT)
  {
    AverageFull(events, ProvenanceValue);
    AverageFull(events, IntegrityValue);
    AverageFull(events, Freshness);
    AverageFull(events, Trust);
  }

  // ---------- order independence ----------

  lemma SourcesPermuted(a: seq<Event>, b: seq<Event>)
    requires Permuted(a, b)
    ensures SourcesOf(a) == SourcesOf(b) && SupportersOf(a) == SupportersOf(b)
  {
    SourcesWithin(a, b);
    PermutedMembers(a, b);
    SourcesWithin(b, a);
  }

  lemma SourcesWithin(a: seq<Event>, b: seq<Event>)
    requires Permuted(a, b)
    ensures SourcesOf(a) <= SourcesOf(b) && SupportersOf(a) <= SupportersOf(b)
  {
    PermutedMembers(a, b);
    forall i | 0 <= i < |a|
      ensures a[i].source in SourcesOf(b)
      ensures IsPositive(a[i]) ==> a[i].source in SupportersOf(b)
    {
      assert a[i] in b;
      var j :| 0 <= j < |b| && b[j] == a[i];
    }
  }

  /** The same assessment with its identifier lists left open. */
  function Unlisted(a: Assessment): Assessment {
    a.(positiveIds := [], benignIds := [], poisonedIds := [])
  }

  lemma SummaryPermuted(a: seq<Event>, b: seq<Event>)
    requires Permuted(a, b)
    ensures var x, y := SummaryOf(a), SummaryOf(b);
            && x.(positiveIds := [], benignIds := [], poisonedIds := [])
               == y.(positiveIds := [], benignIds := [], poisonedIds := [])
            && multiset(x.positiveIds) == multiset(y.positiveIds)
            && multiset(x.benignIds) == multiset(y.benignIds)
            && multiset(x.poisonedIds) == multiset(y.poisonedIds)
            && (x.poisonedIds == [] <==> y.poisonedIds == [])
  {
    TotalPermuted(a, b, ProvenanceValue);
    TotalPermuted(a, b, IntegrityValue);
    TotalPermuted(a, b, Freshness);
    TotalPermuted(a, b, Trust);
    SourcesPermuted(a, b);
    IdsPermuted(a, b, IsPositive);
    IdsPermuted(a, b, IsBenign);
    IdsPermuted(a, b, IsInstructional);
    IdsPermuted(a, b, IsConflicting);
    SameLength(Ids(a, IsConflicting), Ids(b, IsConflicting));
    SameLength(Ids(a, IsInstructional), Ids(b, IsInstructional));
  }

  lemma SameLength(x: seq<string>, y: seq<string>)
    requires multiset(x) == multiset(y)
    ensures |x| == |y|
  {
    assert |multiset(x)| == |x| && |multiset(y)| == |y|;
  }

  /**
   Reordering the events changes neither whether the assessment succeeds nor any score, count, missing source or
   reason; each identifier list is reordered along.
   */
  lemma OrderIndependent(a: seq<Event>, b: seq<Event>)
    requires Permuted(a, b)
    ensures AllAssessable(a) <==> AllAssessable(b)
    ensures Unlisted(Assessed(a)) == Unlisted(Assessed(b))
    ensures multiset(Assessed(a).positiveIds) == multiset(Assessed(b).positiveIds)
    ensures multiset(Assessed(a).benignIds) == multiset(Assessed(b).benignIds)
    ensures multiset(Assessed(a).poisonedIds) == multiset(Assessed(b).poisonedIds)
  {
    PermutedMembers(a, b);
    if AllAssessable(a) {
      AssessablePermuted(a, b);
    }
    if AllAssessable(b) {
      AssessablePermuted(b, a);
    }
    if a != [] {
      SummaryPermuted(a, b);
    }
  }

  lemma AssessablePermuted(a: seq<Event>, b: seq<Event>)
    requires Permuted(a, b) && AllAssessable(a)
    ensures AllAssessable(b)
  {
    PermutedMembers(a, b);
    forall i | 0 <= i < |b|
      ensures Assessable(b[i])
    {
      assert b[i] in a;
    }
  }

  // ---------- monotonicity ----------

  /** The same event from the same source with nothing about it worse. */
  predicate NoWorse(e: Event, better: Event) {
    && better.source == e.source
    && (IsProvenanced(e) ==> IsProvenanced(better))
    && (IsVerified(e) ==> IsVerified(better))
    && Delay(better) <= Delay(e)
    && e.trust <= better.trust
    && (IsConflicting(better) ==> IsConflicting(e))
    && (IsInstructional(better) ==> IsInstructional(e))
  }

  predicate AllNoWorse(events: seq<Event>, better: seq<Event>) {
    |events| == |better| && forall i | 0 <= i < |events| :: NoWorse(events[i], better[i])
  }

  lemma FreshnessMonotone(e: Event, better: Event)
    requires Delay(better) <= Delay(e)
    ensures Freshness(e) <= Freshness(better)
  {
    AverageMonotone(Max(0.0, Delay(better) - 300.0), Max(0.0, Delay(e) - 300.0), 6900.0);
  }

  lemma {:induction false} FewerIds(events: seq<Event>, better: seq<Event>, p: Event -> bool)
    requires |events| == |better| && forall i | 0 <= i < |events| :: p(better[i]) ==> p(events[i])
    ensures |Ids(better, p)| <= |Ids(events, p)|
  {
    if events != [] {
      FewerIds(events[..|events| - 1], better[..|better| - 1], p);
    }
  }

  lemma SameSources(events: seq<Event>, better: seq<Event>)
    requires AllNoWorse(events, better)
    ensures SourcesOf(events) == SourcesOf(better)
  {
    forall i | 0 <= i < |events|
      ensures events[i].source in SourcesOf(better) && better[i].source in SourcesOf(events)
    {
      assert NoWorse(events[i], better[i]);
    }
  }

  /** How a value of an event compares across an improvement. */
  ghost predicate Rises(f: Event -> real) {
    forall e: Event, better: Event | NoWorse(e, better) :: f(e) <= f(better)
  }

  lemma AverageRises(events: seq<Event>, better: seq<Event>, f: Event -> real)
    requires AllNoWorse(events, better) && events != [] && Rises(f)
    ensures Total(events, f) / |events| as real <= Total(better, f) / |better| as real
  {
    forall i | 0 <= i < |events|
      ensures f(events[i]) <= f(better[i])
    {
      assert NoWorse(events[i], better[i]);
    }
    TotalMonotone(events, better, f);
    AverageMonotone(Total(events, f), Total(better, f), |events| as real);
  }

  lemma FreshnessRises()
    ensures Rises(Freshness)
  {
    forall e: Event, better: Event | NoWorse(e, better)
      ensures Freshness(e) <= Freshness(better)
    {
      FreshnessMonotone(e, better);
    }
  }

  lemma AveragesMonotone(events: seq<Event>, better: seq<Event>)
    requires AllNoWorse(events, better) && events != []
    ensures var a, b := Assessed(events), Assessed(better);
            && a.provenance <= b.provenance
            && a.integrity <= b.integrity
            && a.freshness <= b.freshness
            && a.trust <= b.trust
            && a.diversity == b.diversity
  {
    FreshnessRises();
    AverageRises(events, better, ProvenanceValue);
    AverageRises(events, better, IntegrityValue);
    AverageRises(events, better, Freshness);
    AverageRises(events, better, Trust);
    SameSources(events, better);
  }

  lemma PenaltyMonotone(conflicts: nat, fewer: nat, poisoned: bool, cleaner: bool, missing: nat)
    requires fewer <= conflicts && (cleaner ==> poisoned)
    ensures Penalty(fewer, cleaner, missing) <= Penalty(conflicts, poisoned, missing)
  {
  }

  /** Improving events, clearing conflicts or clearing poison never lowers the quality. */
  lemma QualityMonotone(events: seq<Event>, better: seq<Event>)
    requires AllNoWorse(events, better)
    ensures Assessed(events).quality <= Assessed(better).quality
  {
    if events != [] {
      var a, b := Assessed(events), Assessed(better);
      AveragesMonotone(events, better);
      SameSources(events, better);
      forall i | 0 <= i < |events|
        ensures IsConflicting(better[i]) ==> IsConflicting(events[i])
        ensures IsInstructional(better[i]) ==> IsInstructional(events[i])
      {
        assert NoWorse(events[i], better[i]);
      }
      FewerIds(events, better, IsConflicting);
      FewerIds(events, better, IsInstructional);
      PenaltyMonotone(a.conflicts, b.conflicts, a.poisoned, b.poisoned, |a.missing|);
      ScoreMonotone(a, b);
    }
  }

  lemma ScoreMonotone(a: Assessment, b: Assessment)
    requires a.provenance <= b.provenance && a.integrity <= b.integrity && a.freshness <= b.freshness
    requires a.diversity <= b.diversity && a.trust <= b.trust
    ensures Weighted(a.provenance, a.integrity, a.freshness, a.diversity, a.trust)
         <= Weighted(b.provenance, b.integrity, b.freshness, b.diversity, b.trust)
  {
  }
}
