/** Feature extraction: one loop over the events of a case, specified feature by feature. */
module Features {
  import opened Options
  import opened FeatureContract
  import opened Events

  datatype Feature = Intensity | GlobalAdmin | Criticality | Of(key: Key)

  /** The twenty features of the model. */
  predicate IsFeature(f: Feature) {
    f.Of? ==> IsFlag(f.key)
  }

  type Values = map<Feature, real>

  type Traces = map<Feature, seq<string>>

  datatype Features = Features(values: Values, trace: Traces)

  const GLOBAL_ADMIN := "global_admin"

  // ---------- what each feature is ----------

  function Logins(e: Event): Option<nat> {
    if FailedLogins !in e.attributes then None
    else
      match Reading(e.source, FailedLogins, e.attributes[FailedLogins])
      case Ok(Count(n)) => Some(n)
      case _ => None
  }

  /** What one event contributes to a feature. */
  function EventValue(e: Event, f: Feature): (x: real)
    ensures 0.0 <= x <= 1.0
  {
    match f
    case Intensity => if Logins(e).Some? then Min(Logins(e).value as real / 20.0, 1.0) else 0.0
    case Of(key) => if Raises(e, key) then 1.0 else 0.0
    case _ => 0.0
  }

  /** What the case itself contributes. */
  function CaseValue(c: Context, f: Feature): real {
    match f
    case GlobalAdmin => if c.privilegeLevel == GLOBAL_ADMIN then 1.0 else 0.0
    case Criticality => c.criticality
    case _ => 0.0
  }

  function ValueOf(c: Context, events: seq<Event>, f: Feature): real {
    if events == [] then CaseValue(c, f)
    else Max(ValueOf(c, events[..|events| - 1], f), EventValue(events[|events| - 1], f))
  }

  /** The events a feature is traced to while they are read: those that state its attribute, true or not. */
  predicate States(e: Event, f: Feature) {
    match f
    case Intensity => FailedLogins in e.attributes
    case Of(key) => key in e.attributes
    case _ => false
  }

  /** All events a feature is traced to: the case's own features to its inventory. */
  predicate Mentions(e: Event, f: Feature) {
    if f == GlobalAdmin || f == Criticality then e.source == AssetInventory else States(e, f)
  }

  function Stating(f: Feature): Event -> bool {
    (e: Event) => States(e, f)
  }

  function Mentioning(f: Feature): Event -> bool {
    (e: Event) => Mentions(e, f)
  }

  function Listed(trace: Traces, f: Feature): seq<string> {
    if f in trace then trace[f] else []
  }

  // ---------- which cases have features ----------

  function InventoryOf(events: seq<Event>): seq<Attributes> {
    if events == [] then []
    else
      InventoryOf(events[..|events| - 1])
      + if events[|events| - 1].source == AssetInventory then [events[|events| - 1].attributes] else []
  }

  /** What an inventory event must not contradict. */
  predicate Agrees(c: Context, e: Event) {
    e.source == AssetInventory ==> InventoryComplaint(c, e.attributes).None?
  }

  /** Some inventory event, and every one states the case's own fields. */
  predicate InventoryAgrees(c: Context, events: seq<Event>) {
    && (exists i | 0 <= i < |events| :: events[i].source == AssetInventory)
    && AllAgree(c, events)
  }

  predicate AllAgree(c: Context, events: seq<Event>) {
    forall i | 0 <= i < |events| :: Agrees(c, events[i])
  }

  lemma AllAgreeSplit(c: Context, events: seq<Event>)
    requires events != []
    ensures AllAgree(c, events) <==> AllAgree(c, events[..|events| - 1]) && Agrees(c, events[|events| - 1])
  {
    var n := |events| - 1;
    assert forall i | 0 <= i < n :: events[..n][i] == events[i];
  }

  predicate Unopposed(c: Context, inventory: seq<Attributes>) {
    forall i | 0 <= i < |inventory| :: InventoryComplaint(c, inventory[i]).None?
  }

  lemma {:induction false} InventoryPresent(events: seq<Event>)
    ensures InventoryOf(events) != [] <==> exists i | 0 <= i < |events| :: events[i].source == AssetInventory
  {
    if events != [] {
      var n := |events| - 1;
      InventoryPresent(events[..n]);
      assert forall i | 0 <= i < n :: events[..n][i] == events[i];
    }
  }

  lemma {:induction false} InventoryUnopposed(c: Context, events: seq<Event>)
    ensures Unopposed(c, InventoryOf(events)) <==> AllAgree(c, events)
  {
    if events != [] {
      var n := |events| - 1;
      InventoryUnopposed(c, events[..n]);
      AllAgreeSplit(c, events);
      UnopposedMore(c, InventoryOf(events[..n]), events[n].attributes);
      if events[n].source != AssetInventory {
        assert InventoryOf(events) == InventoryOf(events[..n]);
      }
    }
  }

  lemma UnopposedMore(c: Context, inventory: seq<Attributes>, a: Attributes)
    ensures Unopposed(c, inventory + [a]) <==> Unopposed(c, inventory) && InventoryComplaint(c, a).None?
  {
    var more := inventory + [a];
    assert more[|inventory|] == a;
    assert forall i | 0 <= i < |inventory| :: more[i] == inventory[i];
  }

  predicate AllAdmissible(events: seq<Event>) {
    forall i | 0 <= i < |events| :: Admissible(events[i])
  }

  predicate HasFeatures(c: Case) {
    && OwnContext(c.fields).Ok?
    && InventoryAgrees(OwnContext(c.fields).value, c.events)
    && AllAdmissible(c.events)
  }

  /** What the features of a case are, each by itself. */
  ghost predicate Describes(c: Context, events: seq<Event>, features: Features) {
    && Valued(c, events, features.values)
    && (forall f: Feature | IsFeature(f) :: Listed(features.trace, f) == Ids(events, Mentioning(f)))
  }

  // ---------- the loop ----------

  ghost predicate Complete(values: Values) {
    forall f: Feature :: f in values <==> IsFeature(f)
  }

  /** The values after the given events. */
  ghost predicate Valued(c: Context, events: seq<Event>, values: Values) {
    Complete(values) && forall f: Feature | f in values :: values[f] == ValueOf(c, events, f)
  }

  /** The traces after the given events. */
  ghost predicate Traced(events: seq<Event>, trace: Traces) {
    Tidy(trace) && forall f: Feature | IsFeature(f) :: Listed(trace, f) == Ids(events, Stating(f))
  }

  /** A trace only has entries for features, and only once something was listed. */
  ghost predicate Tidy(trace: Traces) {
    forall f: Feature | f in trace :: IsFeature(f) && trace[f] != []
  }

  method StartingValues(c: Context) returns (values: Values)
    ensures Complete(values) && forall f: Feature | f in values :: values[f] == CaseValue(c, f)
  {
    values := map[Intensity := 0.0, GlobalAdmin := 0.0, Criticality := 0.0];
    for i := 0 to FLAG_COUNT
      invariant forall f: Feature :: f in values <==> (f.Of? ==> Rank(f.key) < i)
      invariant forall f: Feature | f in values :: values[f] == 0.0
    {
      RankExact(i);
      values := values[Of(ModeledAt(i)) := 0.0];
    }
    values := values[GlobalAdmin := if c.privilegeLevel == GLOBAL_ADMIN then 1.0 else 0.0];
    values := values[Criticality := c.criticality];
  }

  /** The part of an event that the loop over the first n flags has taken in, and its count. */
  predicate Taken(f: Feature, n: nat) {
    f == Intensity || (f.Of? && Rank(f.key) < n)
  }

  ghost predicate ValuesAbsorbed(e: Event, n: nat, values: Values, newValues: Values) {
    && newValues.Keys == values.Keys
    && forall f: Feature | f in newValues ::
         newValues[f] == if Taken(f, n) then Max(values[f], EventValue(e, f)) else values[f]
  }

  ghost predicate TraceAbsorbed(e: Event, n: nat, trace: Traces, newTrace: Traces) {
    && Tidy(newTrace)
    && forall f: Feature | IsFeature(f) ::
         Listed(newTrace, f) == if Taken(f, n) && States(e, f) then Listed(trace, f) + [e.id] else Listed(trace, f)
  }

  lemma TakenMore(n: nat)
    requires n < FLAG_COUNT
    ensures IsFeature(Of(ModeledAt(n)))
    ensures forall f: Feature :: Taken(f, n + 1) <==> Taken(f, n) || f == Of(ModeledAt(n))
    ensures !Taken(Of(ModeledAt(n)), n)
  {
    RankExact(n);
    forall f: Feature
      ensures Taken(f, n + 1) <==> Taken(f, n) || f == Of(ModeledAt(n))
    {
      if f.Of? {
        assert Rank(f.key) == n <==> f.key == ModeledAt(n);
      }
    }
  }

  /** Its trace extended if the event states it at all. */
  lemma MentionAbsorbed(e: Event, n: nat, trace: Traces, t: Traces)
    requires n < FLAG_COUNT && TraceAbsorbed(e, n, trace, t)
    ensures var f := Of(ModeledAt(n));
            TraceAbsorbed(e, n + 1, trace, if States(e, f) then t[f := Listed(t, f) + [e.id]] else t)
  {
    TakenMore(n);
  }

  lemma CountRead(e: Event)
    requires Accepts(e.source, e.attributes)
    ensures var modeled := Projection(e.source, e.attributes);
            && (FailedLogins in modeled <==> FailedLogins in e.attributes)
            && (FailedLogins in modeled ==>
                  modeled[FailedLogins].Count? && Logins(e) == Some(modeled[FailedLogins].n))
  {
  }

  method AbsorbCount(e: Event, modeled: map<Key, Modeled>, values: Values, trace: Traces)
    returns (newValues: Values, newTrace: Traces)
    requires Accepts(e.source, e.attributes) && modeled == Projection(e.source, e.attributes)
    requires Complete(values) && Tidy(trace)
    requires forall f: Feature | f in values :: values[f] >= 0.0
    ensures ValuesAbsorbed(e, 0, values, newValues) && TraceAbsorbed(e, 0, trace, newTrace)
  {
    newValues, newTrace := values, trace;
    CountRead(e);
    if FailedLogins in modeled {
      newValues := newValues[Intensity :=
        Max(newValues[Intensity], Min(modeled[FailedLogins].n as real / 20.0, 1.0))];
      newTrace := newTrace[Intensity := Listed(newTrace, Intensity) + [e.id]];
    }
  }

  method Absorb(e: Event, modeled: map<Key, Modeled>, values: Values, trace: Traces)
    returns (newValues: Values, newTrace: Traces)
    requires Accepts(e.source, e.attributes) && modeled == Projection(e.source, e.attributes)
    requires Complete(values) && Tidy(trace)
    requires forall f: Feature | f in values :: values[f] >= 0.0
    ensures ValuesAbsorbed(e, FLAG_COUNT, values, newValues) && TraceAbsorbed(e, FLAG_COUNT, trace, newTrace)
  {
    newValues, newTrace := AbsorbCount(e, modeled, values, trace);
    for i := 0 to FLAG_COUNT
      invariant ValuesAbsorbed(e, i, values, newValues) && TraceAbsorbed(e, i, trace, newTrace)
    {
      var key := ModeledAt(i);
      RankExact(i);
      MentionAbsorbed(e, i, trace, newTrace);
      ReadsTrue(e, key);
      if key in modeled {
        var numeric := if modeled[key].set_ then 1.0 else 0.0;
        assert numeric == EventValue(e, Of(key));
        newTrace := newTrace[Of(key) := Listed(newTrace, Of(key)) + [e.id]];
        if numeric > newValues[Of(key)] {
          newValues := newValues[Of(key) := numeric];
        } else {
          assert newValues == newValues[Of(key) := Max(newValues[Of(key)], numeric)];
        }
      } else {
        assert newValues == newValues[Of(key) := Max(newValues[Of(key)], EventValue(e, Of(key)))];
      }
    }
  }

  method CollectInventory(events: seq<Event>) returns (inventory: seq<Attributes>)
    ensures inventory == InventoryOf(events)
  {
    inventory := [];
    for n := 0 to |events|
      invariant inventory == InventoryOf(events[..n])
    {
      assert events[..n + 1][..n] == events[..n];
      if events[n].source == AssetInventory {
        inventory := inventory + [events[n].attributes];
      }
    }
    assert events[..|events|] == events;
  }

  /** The case's own features are traced to the inventory events, once all events were read. */
  method TraceInventory(events: seq<Event>, trace: Traces) returns (newTrace: Traces)
    requires forall f: Feature | IsFeature(f) :: Listed(trace, f) == Ids(events, Stating(f))
    ensures forall f: Feature | IsFeature(f) :: Listed(newTrace, f) == Ids(events, Mentioning(f))
  {
    var ids: seq<string> := [];
    for n := 0 to |events|
      invariant ids == Ids(events[..n], Mentioning(GlobalAdmin))
    {
      assert events[..n + 1][..n] == events[..n];
      if events[n].source == AssetInventory {
        ids := ids + [events[n].id];
      }
    }
    assert events[..|events|] == events;
    newTrace := trace[GlobalAdmin := Listed(trace, GlobalAdmin) + ids];
    newTrace := newTrace[Criticality := Listed(newTrace, Criticality) + ids];
    forall f: Feature | IsFeature(f)
      ensures Listed(newTrace, f) == Ids(events, Mentioning(f))
    {
      OwnOrStated(events, f);
    }
  }

  /** The two case features are stated by no event; every other feature is traced to the events that state it. */
  lemma {:induction false} OwnOrStated(events: seq<Event>, f: Feature)
    ensures f == GlobalAdmin || f == Criticality ==>
              Ids(events, Stating(f)) == [] && Ids(events, Mentioning(f)) == Ids(events, Mentioning(GlobalAdmin))
    ensures f != GlobalAdmin && f != Criticality ==> Ids(events, Mentioning(f)) == Ids(events, Stating(f))
  {
    if events != [] {
      OwnOrStated(events[..|events| - 1], f);
    }
  }

  lemma {:induction false} ValueInUnit(c: Context, events: seq<Event>, f: Feature)
    requires 0.0 <= c.criticality <= 1.0
    ensures 0.0 <= ValueOf(c, events, f) <= 1.0
  {
    if events != [] {
      ValueInUnit(c, events[..|events| - 1], f);
    }
  }

  lemma ValuesGathered(c: Context, events: seq<Event>, e: Event, values: Values, v: Values)
    requires 0.0 <= c.criticality <= 1.0
    requires Valued(c, events, values) && ValuesAbsorbed(e, FLAG_COUNT, values, v)
    ensures Valued(c, events + [e], v)
  {
    var more := events + [e];
    assert more[..|more| - 1] == events;
    forall f: Feature | f in v
      ensures v[f] == ValueOf(c, more, f)
    {
      ValueInUnit(c, events, f);
      assert values[f] == ValueOf(c, events, f);
    }
  }

  lemma TracesGathered(events: seq<Event>, e: Event, trace: Traces, t: Traces)
    requires Traced(events, trace) && TraceAbsorbed(e, FLAG_COUNT, trace, t)
    ensures Traced(events + [e], t)
  {
    var more := events + [e];
    assert more[..|more| - 1] == events;
    forall f: Feature | IsFeature(f)
      ensures Listed(t, f) == Ids(more, Stating(f))
    {
      assert Listed(trace, f) == Ids(events, Stating(f));
    }
  }

  /** The complaint of the first inventory event that has one. */
  predicate FirstOpposed(c: Context, events: seq<Event>, error: ContractError) {
    exists i | 0 <= i < |events| ::
      && AllAgree(c, events[..i])
      && events[i].source == AssetInventory && InventoryComplaint(c, events[i].attributes) == Some(error)
  }

  /** Why a case is refused before its events are read: its own fields, no inventory, or what an inventory says. */
  predicate RefusesCase(c: Case, error: ContractError) {
    match OwnContext(c.fields)
    case Err(own) => error == own
    case Ok(own) =>
      if forall i | 0 <= i < |c.events| :: c.events[i].source != AssetInventory then error == NoInventory
      else FirstOpposed(own, c.events, error)
  }

  lemma {:induction false} OpposedEvent(c: Context, events: seq<Event>, k: nat, error: ContractError)
    requires k < |InventoryOf(events)| && InventoryComplaint(c, InventoryOf(events)[k]) == Some(error)
    requires Unopposed(c, InventoryOf(events)[..k])
    ensures FirstOpposed(c, events, error)
  {
    var n := |events| - 1;
    var init, before := events[..n], InventoryOf(events[..n]);
    if k < |before| {
      assert before[..k] == InventoryOf(events)[..k] && before[k] == InventoryOf(events)[k];
      OpposedEvent(c, init, k, error);
      var i :| 0 <= i < n && AllAgree(c, init[..i]) && init[i].source == AssetInventory
               && InventoryComplaint(c, init[i].attributes) == Some(error);
      assert init[..i] == events[..i] && init[i] == events[i];
    } else {
      assert InventoryOf(events)[..k] == before;
      InventoryUnopposed(c, init);
    }
  }

  /** The case fields against its inventory events. */
  method ValidateCase(c: Case) returns (r: Result<Context>)
    ensures r.Err? ==> RefusesCase(c, r.error)
    ensures r.Ok? <==> OwnContext(c.fields).Ok? && InventoryAgrees(OwnContext(c.fields).value, c.events)
    ensures r.Ok? ==> r == OwnContext(c.fields) && 0.0 <= r.value.criticality <= 1.0
  {
    var inventory := CollectInventory(c.events);
    r := ValidateContext(c.fields, inventory);
    InventoryPresent(c.events);
    if OwnContext(c.fields).Ok? {
      var own := OwnContext(c.fields).value;
      InventoryUnopposed(own, c.events);
      if inventory != [] && r.Err? {
        ghost var k :| 0 <= k < |inventory| && InventoryComplaint(own, inventory[k]) == Some(r.error)
                       && forall j | 0 <= j < k :: InventoryComplaint(own, inventory[j]).None?;
        OpposedEvent(own, c.events, k, r.error);
      }
    }
  }

  /** The loop over the events: the complaint of the first event that has one, or every value and trace. */
  method Gather(c: Context, events: seq<Event>) returns (r: Result<Features>)
    requires 0.0 <= c.criticality <= 1.0
    ensures r.Ok? <==> AllAdmissible(events)
    ensures r.Ok? ==> Valued(c, events, r.value.values) && Traced(events, r.value.trace)
    ensures r.Err? ==> FirstComplaint(events, r.error)
  {
    var values := StartingValues(c);
    var trace: Traces := map[];
    for n := 0 to |events|
      invariant Valued(c, events[..n], values) && Traced(events[..n], trace)
      invariant AllAdmissible(events[..n])
    {
      var event := events[n];
      var modeled := SelectModeledAttributes(event.source, event.attributes);
      if modeled.Err? {
        assert !Admissible(event);
        return Err(modeled.error);
      }
      assert events[..n] + [event] == events[..n + 1];
      ghost var v, t := values, trace;
      values, trace := Absorb(event, modeled.value, values, trace);
      ValuesGathered(c, events[..n], event, v, values);
      TracesGathered(events[..n], event, t, trace);
    }
    assert events[..|events|] == events;
    return Ok(Features(values, trace));
  }

  /** The error of the first event that is not admissible. */
  ghost predicate FirstComplaint(events: seq<Event>, error: ContractError) {
    exists i | 0 <= i < |events| ::
      AllAdmissible(events[..i]) && Selected(events[i].source, events[i].attributes) == Err(error)
  }

  method ExtractFeatures(c: Case) returns (r: Result<Features>)
    ensures r.Ok? <==> HasFeatures(c)
    ensures r.Ok? ==> Describes(OwnContext(c.fields).value, c.events, r.value)
    ensures r.Err? ==>
              if OwnContext(c.fields).Ok? && InventoryAgrees(OwnContext(c.fields).value, c.events)
              then FirstComplaint(c.events, r.error)
              else RefusesCase(c, r.error)
  {
    var context := ValidateCase(c);
    if context.Err? {
      return Err(context.error);
    }
    r := Gather(context.value, c.events);
    if r.Ok? {
      var traces := TraceInventory(c.events, r.value.trace);
      r := Ok(Features(r.value.values, traces));
    }
  }
}
