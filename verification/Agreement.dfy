/** The evidence assessment and the feature extraction read the same events and cannot disagree about them. */
module Agreement {
  import opened FeatureContract
  import opened Events
  import E = Evidence
  import opened Features
  import FeatureLaws

  /** An identifier of an event of the list. */
  predicate Names(events: seq<Event>, id: string) {
    exists i | 0 <= i < |events| :: events[i].id == id
  }

  /** A positive indicator whose feature is one. */
  predicate RaisedIndicator(features: Features, key: Key) {
    key in E.POSITIVE && Of(key) in features.values && features.values[Of(key)] == 1.0
  }

  lemma IndicatorRaised(c: Context, events: seq<Event>, features: Features, key: Key)
    requires Describes(c, events, features) && key in E.POSITIVE
    ensures RaisedIndicator(features, key) <==> exists i | 0 <= i < |events| :: Raises(events[i], key)
  {
    E.PositiveFlags();
    assert IsFeature(Of(key));
    FeatureLaws.FlagMeaning(c, events, key);
  }

  /** Positive evidence exists exactly when the feature of some positive indicator is one. */
  lemma PositiveAgree(c: Context, events: seq<Event>, features: Features)
    requires Describes(c, events, features)
    ensures E.Assessed(events).positiveIds != [] <==> exists key | key in E.POSITIVE :: RaisedIndicator(features, key)
  {
    IdsEmpty(events, E.IsPositive);
    if E.Assessed(events).positiveIds != [] {
      var i :| 0 <= i < |events| && E.IsPositive(events[i]);
      var key :| key in E.POSITIVE && Raises(events[i], key);
      IndicatorRaised(c, events, features, key);
    }
    if key :| key in E.POSITIVE && RaisedIndicator(features, key) {
      IndicatorRaised(c, events, features, key);
      var i :| 0 <= i < |events| && Raises(events[i], key);
      assert E.IsPositive(events[i]);
    }
  }

  /** Every positive event is in the trace of a raised positive indicator. */
  lemma PositiveTraced(c: Context, events: seq<Event>, features: Features, id: string)
    requires Describes(c, events, features) && id in E.Assessed(events).positiveIds
    ensures exists key | key in E.POSITIVE :: RaisedIndicator(features, key) && id in Listed(features.trace, Of(key))
  {
    IdsExactly(events, E.IsPositive, id);
    var i :| 0 <= i < |events| && E.IsPositive(events[i]) && events[i].id == id;
    var key :| key in E.POSITIVE && Raises(events[i], key);
    IndicatorRaised(c, events, features, key);
    E.PositiveFlags();
    assert IsFeature(Of(key));
    assert Mentioning(Of(key))(events[i]);
    IdsExactly(events, Mentioning(Of(key)), id);
  }

  /** And conversely the trace of a raised positive indicator holds a positive event. */
  lemma TracedPositive(c: Context, events: seq<Event>, features: Features, key: Key)
    requires Describes(c, events, features) && RaisedIndicator(features, key)
    ensures exists id :: id in Listed(features.trace, Of(key)) && id in E.Assessed(events).positiveIds
  {
    E.PositiveFlags();
    assert IsFeature(Of(key));
    IndicatorRaised(c, events, features, key);
    var i :| 0 <= i < |events| && Raises(events[i], key);
    var id := events[i].id;
    assert E.IsPositive(events[i]);
    assert Mentioning(Of(key))(events[i]);
    IdsExactly(events, E.IsPositive, id);
    IdsExactly(events, Mentioning(Of(key)), id);
  }

  /** Traces name events of the case only. */
  lemma TracesNameEvents(c: Context, events: seq<Event>, features: Features, f: Feature, id: string)
    requires Describes(c, events, features) && IsFeature(f) && id in Listed(features.trace, f)
    ensures Names(events, id)
  {
    IdsExactly(events, Mentioning(f), id);
  }

  const SUPPORTERS: set<Source> := {Identity, Network, ThreatIntel, Endpoint}

  /** An admissible event raises a positive indicator from one of four sources only. */
  lemma PositiveSource(e: Event, key: Key)
    requires Admissible(e) && key in E.POSITIVE && Raises(e, key)
    ensures e.source in SUPPORTERS
  {
    E.PositiveFlags();
    assert IsModeled(key);
    assert Reading(e.source, key, e.attributes[key]).Ok?;
    assert e.source in Authority(key);
  }

  /** Independent support comes from at most four sources. */
  lemma SupportersKnown(events: seq<Event>)
    requires AllAdmissible(events)
    ensures E.SupportersOf(events) <= SUPPORTERS
    ensures E.Assessed(events).supporting <= 4
  {
    forall i | 0 <= i < |events| && E.IsPositive(events[i])
      ensures events[i].source in SUPPORTERS
    {
      var key :| key in E.POSITIVE && Raises(events[i], key);
      PositiveSource(events[i], key);
    }
    Subset(E.SupportersOf(events), SUPPORTERS);
  }

  lemma Subset(a: set<Source>, b: set<Source>)
    requires a <= b
    ensures |a| <= |b|
  {
    assert b == a + (b - a);
  }

  predicate FromNetwork(e: Event) {
    e.source == Network
  }

  lemma {:induction false} FewerIds(events: seq<Event>, p: Event -> bool, q: Event -> bool)
    requires forall i | 0 <= i < |events| :: p(events[i]) ==> q(events[i])
    ensures |Ids(events, p)| <= |Ids(events, q)|
  {
    if events != [] {
      FewerIds(events[..|events| - 1], p, q);
    }
  }

  /** There are at most as many conflicts as network events. */
  lemma ConflictsBounded(events: seq<Event>)
    requires E.AllAssessable(events)
    ensures E.Assessed(events).conflicts <= |Ids(events, FromNetwork)|
  {
    forall i | 0 <= i < |events|
      ensures E.IsConflicting(events[i]) ==> FromNetwork(events[i])
    {
      assert E.Assessable(events[i]);
    }
    FewerIds(events, E.IsConflicting, FromNetwork);
  }

  /** With an agreeing inventory, extraction succeeds on what can be assessed, and conversely given the conflicts. */
  lemma SucceedTogether(c: Case)
    requires OwnContext(c.fields).Ok? && InventoryAgrees(OwnContext(c.fields).value, c.events)
    ensures E.AllAssessable(c.events) <==>
            HasFeatures(c) && forall i | 0 <= i < |c.events| :: Conflict(c.events[i].source, c.events[i].attributes).Ok?
  {
    if HasFeatures(c) && forall i | 0 <= i < |c.events| :: Conflict(c.events[i].source, c.events[i].attributes).Ok? {
      forall i | 0 <= i < |c.events|
        ensures E.Assessable(c.events[i])
      {
        assert Admissible(c.events[i]);
      }
    }
    if E.AllAssessable(c.events) {
      forall i | 0 <= i < |c.events|
        ensures Admissible(c.events[i]) && Conflict(c.events[i].source, c.events[i].attributes).Ok?
      {
        assert E.Assessable(c.events[i]);
      }
    }
  }
}
