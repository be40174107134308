/** What the extracted features mean, and how they behave when events are added, merged or reordered. */
module FeatureLaws {
  import opened Options
  import opened FeatureContract
  import opened Events
  import opened Features

  // ---------- what the values mean ----------

  /** The largest failed-login count any event states; 0 without one. */
  function Largest(events: seq<Event>): (n: nat)
    ensures forall i | 0 <= i < |events| :: Logins(events[i]).Some? ==> Logins(events[i]).value <= n
    ensures n == 0 || exists i | 0 <= i < |events| :: Logins(events[i]) == Some(n)
  {
    if events == [] then 0
    else
      var k := |events| - 1;
      var n := Largest(events[..k]);
      assert forall i | 0 <= i < k :: events[..k][i] == events[i];
      if Logins(events[k]).Some? && Logins(events[k]).value > n then Logins(events[k]).value else n
  }

  /** Failed-login intensity is the largest count over twenty, capped at one. */
  lemma {:induction false} IntensityMeaning(c: Context, events: seq<Event>)
    ensures ValueOf(c, events, Intensity) == Min(1.0, Largest(events) as real / 20.0)
  {
    if events != [] {
      IntensityMeaning(c, events[..|events| - 1]);
    }
  }

  /** A flag feature is one exactly when some event states the flag as true, and zero otherwise. */
  lemma {:induction false} FlagMeaning(c: Context, events: seq<Event>, key: Key)
    ensures ValueOf(c, events, Of(key)) == 1.0 || ValueOf(c, events, Of(key)) == 0.0
    ensures ValueOf(c, events, Of(key)) == 1.0 <==> exists i | 0 <= i < |events| :: Raises(events[i], key)
  {
    if events != [] {
      var n := |events| - 1;
      FlagMeaning(c, events[..n], key);
      assert forall i | 0 <= i < n :: events[..n][i] == events[i];
    }
  }

  /** The case's own features do not depend on the events. */
  lemma {:induction false} OwnMeaning(c: Context, events: seq<Event>, f: Feature)
    requires 0.0 <= c.criticality && (f == GlobalAdmin || f == Criticality)
    ensures ValueOf(c, events, f) == CaseValue(c, f)
  {
    if events != [] {
      OwnMeaning(c, events[..|events| - 1], f);
    }
  }

  /** So the case's privilege and criticality are what these features say, whatever its events state. */
  lemma OwnFeatures(c: Case, features: Features)
    requires HasFeatures(c) && Describes(OwnContext(c.fields).value, c.events, features)
    ensures var own := OwnContext(c.fields).value;
            && features.values[GlobalAdmin] == (if own.privilegeLevel == GLOBAL_ADMIN then 1.0 else 0.0)
            && features.values[Criticality] == own.criticality
  {
    var own := OwnContext(c.fields).value;
    OwnMeaning(own, c.events, GlobalAdmin);
    OwnMeaning(own, c.events, Criticality);
  }

  // ---------- merging and adding events ----------

  /** Values of a merged event list are the larger of the parts, feature by feature; traces are joined. */
  lemma MergedEvents(c: Context, a: seq<Event>, b: seq<Event>, f: Feature)
    ensures ValueOf(c, a + b, f) == Max(ValueOf(c, a, f), ValueOf(c, b, f))
    ensures Ids(a + b, Mentioning(f)) == Ids(a, Mentioning(f)) + Ids(b, Mentioning(f))
  {
    IdsJoined(a, b, Mentioning(f));
    MergedValues(c, a, b, f);
  }

  lemma {:induction false} AtLeastOwn(c: Context, events: seq<Event>, f: Feature)
    ensures ValueOf(c, events, f) >= CaseValue(c, f)
  {
    if events != [] {
      AtLeastOwn(c, events[..|events| - 1], f);
    }
  }

  lemma {:induction false} MergedValues(c: Context, a: seq<Event>, b: seq<Event>, f: Feature)
    ensures ValueOf(c, a + b, f) == Max(ValueOf(c, a, f), ValueOf(c, b, f))
  {
    if b == [] {
      assert a + b == a;
      AtLeastOwn(c, a, f);
    } else {
      var front := b[..|b| - 1];
      assert (a + b)[..|a + b| - 1] == a + front;
      MergedValues(c, a, front, f);
    }
  }

  /** Adding an event anywhere never lowers a feature. */
  lemma AddedEvent(c: Context, a: seq<Event>, e: Event, b: seq<Event>, f: Feature)
    ensures ValueOf(c, a + b, f) <= ValueOf(c, a + [e] + b, f)
    ensures EventValue(e, f) <= ValueOf(c, a + [e] + b, f)
  {
    MergedValues(c, a, b, f);
    MergedValues(c, a, [e], f);
    MergedValues(c, a + [e], b, f);
    assert [e][..0] == [];
  }

  // ---------- the order of the events ----------

  lemma {:induction false} ValuesPermuted(c: Context, a: seq<Event>, b: seq<Event>, f: Feature)
    requires Permuted(a, b)
    ensures ValueOf(c, a, f) == ValueOf(c, b, f)
    decreases |a|
  {
    PermutedMembers(a, b);
    if a != [] {
      var x, y := SplitLast(a, b);
      var e := a[|a| - 1];
      ValuesPermuted(c, a[..|a| - 1], x + y, f);
      MergedValues(c, x, y, f);
      MergedValues(c, x, [e], f);
      MergedValues(c, x + [e], y, f);
      MergedValues(c, a[..|a| - 1], [e], f);
      AtLeastOwn(c, x, f);
      assert [e][..0] == [];
    }
  }

  lemma HasFeaturesPermuted(c: Case, events: seq<Event>)
    requires Permuted(c.events, events) && HasFeatures(c)
    ensures HasFeatures(c.(events := events))
  {
    PermutedMembers(c.events, events);
    var own := OwnContext(c.fields).value;
    forall i | 0 <= i < |events|
      ensures Agrees(own, events[i]) && Admissible(events[i])
    {
      assert events[i] in c.events;
    }
    var i :| 0 <= i < |c.events| && c.events[i].source == AssetInventory;
    assert c.events[i] in events;
  }

  /** Reordering the events changes neither whether features exist nor their values; traces are reordered along. */
  lemma OrderIndependent(c: Case, events: seq<Event>, x: Features, y: Features)
    requires Permuted(c.events, events) && HasFeatures(c)
    requires Describes(OwnContext(c.fields).value, c.events, x)
    requires Describes(OwnContext(c.fields).value, events, y)
    ensures HasFeatures(c.(events := events))
    ensures x.values == y.values
    ensures forall f: Feature | IsFeature(f) :: multiset(Listed(x.trace, f)) == multiset(Listed(y.trace, f))
  {
    HasFeaturesPermuted(c, events);
    var own := OwnContext(c.fields).value;
    forall f: Feature | IsFeature(f)
      ensures x.values[f] == y.values[f]
      ensures multiset(Listed(x.trace, f)) == multiset(Listed(y.trace, f))
    {
      ValuesPermuted(own, c.events, events, f);
      IdsPermuted(c.events, events, Mentioning(f));
    }
  }

  // ---------- what the features ignore ----------

  /** Two events that differ in nothing a feature reads. */
  predicate SameModeled(e: Event, d: Event) {
    && e.id == d.id && e.source == d.source
    && (forall k | k in e.attributes :: IsModeled(k) ==> k in d.attributes && d.attributes[k] == e.attributes[k])
    && (forall k | k in d.attributes :: IsModeled(k) ==> k in e.attributes)
  }

  predicate AllSameModeled(a: seq<Event>, b: seq<Event>) {
    |a| == |b| && forall i | 0 <= i < |a| :: SameModeled(a[i], b[i])
  }

  /** Free text, provenance, times, trust and every attribute outside the table leave the features alone. */
  lemma {:induction false} IgnoresTheRest(c: Context, a: seq<Event>, b: seq<Event>, f: Feature)
    requires AllSameModeled(a, b) && IsFeature(f)
    ensures ValueOf(c, a, f) == ValueOf(c, b, f)
    ensures Ids(a, Mentioning(f)) == Ids(b, Mentioning(f))
  {
    if a != [] {
      var n := |a| - 1;
      assert AllSameModeled(a[..n], b[..n]);
      IgnoresTheRest(c, a[..n], b[..n], f);
      assert SameModeled(a[n], b[n]);
    }
  }

  lemma {:induction false} ComplaintAlike(e: Event, d: Event, i: nat)
    requires SameModeled(e, d) && i <= MODELED_COUNT
    ensures Complaint(e.source, e.attributes, i) == Complaint(d.source, d.attributes, i)
    decreases MODELED_COUNT - i
  {
    if i < MODELED_COUNT {
      ComplaintAlike(e, d, i + 1);
      RankExact(i);
      var name := ModeledAt(i);
      assert IsModeled(name);
      assert name in e.attributes <==> name in d.attributes;
    }
  }

  /** What selecting the modeled attributes answers is the same. */
  lemma SelectedAlike(e: Event, d: Event)
    requires SameModeled(e, d)
    ensures Selected(e.source, e.attributes) == Selected(d.source, d.attributes)
    ensures Admissible(e) <==> Admissible(d)
  {
    ComplaintAlike(e, d, 0);
    if Accepts(e.source, e.attributes) {
      assert Projection(e.source, e.attributes) == Projection(d.source, d.attributes);
    }
  }

  lemma {:induction false} AdmissibleAlike(a: seq<Event>, b: seq<Event>)
    requires AllSameModeled(a, b)
    ensures AllAdmissible(a) <==> AllAdmissible(b)
  {
    forall i | 0 <= i < |a| ensures Admissible(a[i]) <==> Admissible(b[i]) {
      SelectedAlike(a[i], b[i]);
    }
  }

  lemma FirstComplaintAlike(a: seq<Event>, b: seq<Event>, error: ContractError)
    requires AllSameModeled(a, b) && FirstComplaint(a, error)
    ensures FirstComplaint(b, error)
  {
    var i :| 0 <= i < |a| && AllAdmissible(a[..i]) && Selected(a[i].source, a[i].attributes) == Err(error);
    assert AllSameModeled(a[..i], b[..i]);
    AdmissibleAlike(a[..i], b[..i]);
    SelectedAlike(a[i], b[i]);
  }

  lemma SameModeledBack(a: seq<Event>, b: seq<Event>)
    requires AllSameModeled(a, b)
    ensures AllSameModeled(b, a)
  {
    forall i | 0 <= i < |b| ensures SameModeled(b[i], a[i]) {
      assert SameModeled(a[i], b[i]);
    }
  }

  /** The inventory events say the same; the attributes of the others need only agree where features read them. */
  predicate SameInventory(a: seq<Event>, b: seq<Event>) {
    |a| == |b| && forall i | 0 <= i < |a| :: a[i].source == AssetInventory ==> a[i].attributes == b[i].attributes
  }

  /** Nor do they decide whether the events are accepted, what the complaint is, or whether a case has features. */
  lemma AcceptsTheRest(c: Case, events: seq<Event>)
    requires AllSameModeled(c.events, events)
    ensures AllAdmissible(c.events) <==> AllAdmissible(events)
    ensures forall error :: FirstComplaint(c.events, error) <==> FirstComplaint(events, error)
    ensures SameInventory(c.events, events) ==> (HasFeatures(c) <==> HasFeatures(c.(events := events)))
  {
    AdmissibleAlike(c.events, events);
    SameModeledBack(c.events, events);
    forall error ensures FirstComplaint(c.events, error) <==> FirstComplaint(events, error) {
      if FirstComplaint(c.events, error) {
        FirstComplaintAlike(c.events, events, error);
      }
      if FirstComplaint(events, error) {
        FirstComplaintAlike(events, c.events, error);
      }
    }
    if SameInventory(c.events, events) && OwnContext(c.fields).Ok? {
      InventoryAlike(OwnContext(c.fields).value, c.events, events);
    }
  }

  lemma InventoryAlike(c: Context, a: seq<Event>, b: seq<Event>)
    requires AllSameModeled(a, b) && SameInventory(a, b)
    ensures InventoryAgrees(c, a) <==> InventoryAgrees(c, b)
  {
    forall i | 0 <= i < |a|
      ensures a[i].source == b[i].source && (Agrees(c, a[i]) <==> Agrees(c, b[i]))
    {
      assert SameModeled(a[i], b[i]);
    }
  }

  /** Every feature of a case lies in the unit interval. */
  lemma FeaturesInUnit(c: Case, features: Features)
    requires HasFeatures(c) && Describes(OwnContext(c.fields).value, c.events, features)
    ensures forall f: Feature | f in features.values :: 0.0 <= features.values[f] <= 1.0
  {
    forall f: Feature | f in features.values
      ensures 0.0 <= features.values[f] <= 1.0
    {
      ValueInUnit(OwnContext(c.fields).value, c.events, f);
    }
  }
}
