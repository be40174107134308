/** The contract and the features in literals: the attributes, the order of complaints, every value and trace. */
module FeaturesSpelled {
  import opened Options
  import opened FeatureContract
  import opened Events
  import opened EvidenceExact
  import opened Features
  import opened FeatureLaws

  // ---------- the table ----------

  /** The modeled attributes in order, each with the sources that may state it. */
  const TABLE: seq<(Key, set<Source>)> := [
    (NewDevice, {Identity}), (ImpossibleTravel, {Identity}), (ThreatIp, {Network, ThreatIntel}),
    (MfaFatigue, {Identity}), (TokenReuse, {Identity}), (CredentialDumping, {Endpoint}),
    (LateralMovement, {Network}), (UnusualAdminAction, {Endpoint}), (EdrMalware, {Endpoint}),
    (AfterHours, {Identity}), (KnownVpn, {Network}), (ApprovedTravel, {UserContext}),
    (MaintenanceWindow, {ChangeManagement}), (ServiceAccountBaseline, {ChangeManagement}),
    (StrongMfa, {Identity}), (DeviceNoncompliant, {Endpoint}), (OauthGrant, {Identity}), (FailedLogins, {Identity})]

  lemma TableSpelled(i: nat)
    requires i < 18
    ensures |TABLE| == MODELED_COUNT == 18
    ensures TABLE[i] == (ModeledAt(i), Authority(ModeledAt(i)))
  {
  }

  /** What is wrong with one attribute of the table. */
  function Wrong(source: Source, entry: (Key, set<Source>), value: Value): Option<ContractError> {
    if source !in entry.1 then Some(NotAuthorized(entry.0))
    else if entry.0 != FailedLogins then
      if value.Bool? then None else Some(NotBoolean(EventField, entry.0))
    else
      match value
      case Int(n) => if 0 <= n <= 1_000_000 then None else Some(NotInRange(FailedLogins))
      case Real(r) =>
        if r.Floor as real != r then Some(NotInteger(FailedLogins))
        else if 0.0 <= r <= 1_000_000.0 then None else Some(NotInRange(FailedLogins))
      case NonFinite => Some(NotInRange(FailedLogins))
      case _ => Some(NotInteger(FailedLogins))
  }

  /** What is wrong with the first attribute that has something wrong, in the order of the table. */
  function FirstWrong(table: seq<(Key, set<Source>)>, source: Source, a: Attributes): Option<ContractError> {
    if table == [] then None
    else
      var wrong := if table[0].0 in a then Wrong(source, table[0], a[table[0].0]) else None;
      if wrong.Some? then wrong else FirstWrong(table[1..], source, a)
  }

  lemma ReadingSpelled(source: Source, i: nat, value: Value)
    requires i < 18
    ensures var reading := Reading(source, TABLE[i].0, value);
            && (reading.Err? <==> Wrong(source, TABLE[i], value).Some?)
            && (reading.Err? ==> Wrong(source, TABLE[i], value) == Some(reading.error))
            && (reading.Ok? ==>
                  match value
                  case Bool(b) => reading == Ok(Flag(b))
                  case Int(n) => n >= 0 && reading == Ok(Count(n))
                  case Real(r) => r.Floor >= 0 && reading == Ok(Count(r.Floor))
                  case _ => false)
  {
    TableSpelled(i);
  }

  lemma {:induction false} ComplaintFrom(source: Source, a: Attributes, i: nat)
    requires i <= 18
    ensures Complaint(source, a, i) == FirstWrong(TABLE[i..], source, a)
    decreases 18 - i
  {
    if i < 18 {
      TableSpelled(i);
      ComplaintFrom(source, a, i + 1);
      assert TABLE[i..][0] == TABLE[i] && TABLE[i..][1..] == TABLE[i + 1..];
      if TABLE[i].0 in a {
        ReadingSpelled(source, i, a[TABLE[i].0]);
      }
    }
  }

  /** The complaint about an event is that of the first wrong attribute. */
  lemma ComplaintSpelled(source: Source, a: Attributes)
    requires ValidSource(source)
    ensures Selected(source, a).Err? <==> FirstWrong(TABLE, source, a).Some?
    ensures Selected(source, a).Err? ==> FirstWrong(TABLE, source, a) == Some(Selected(source, a).error)
  {
    ComplaintFrom(source, a, 0);
    assert TABLE[0..] == TABLE;
  }

  // ---------- identifiers ----------

  predicate LetterOrDigit(c: char) {
    'a' <= c <= 'z' || 'A' <= c <= 'Z' || '0' <= c <= '9'
  }

  lemma IdentifierSpelled(s: string)
    ensures IsIdentifier(s) <==>
            && s != "" && |s| < 129 && LetterOrDigit(s[0])
            && forall c | c in s :: LetterOrDigit(c) || c in {'.', '_', ':', '-'}
  {
    if IsIdentifier(s) {
      forall c | c in s ensures LetterOrDigit(c) || c in {'.', '_', ':', '-'} {
        var i :| 0 <= i < |s| && s[i] == c;
      }
    }
    assert forall i | 0 <= i < |s| :: s[i] in s;
  }

  /** Sources are known by constructor, or by a name that is an identifier. */
  lemma SourceSpelled(source: Source, a: Attributes)
    ensures Selected(source, a) == Err(BadSourceType) <==> source.OtherSource? && !IsIdentifier(source.name)
  {
    if ValidSource(source) && Complaint(source, a, 0).Some? {
      ComplaintFrom(source, a, 0);
      NeverBadSource(TABLE, source, a);
      assert TABLE[0..] == TABLE;
    }
  }

  lemma {:induction false} NeverBadSource(table: seq<(Key, set<Source>)>, source: Source, a: Attributes)
    ensures FirstWrong(table, source, a) != Some(BadSourceType)
  {
    if table != [] {
      NeverBadSource(table[1..], source, a);
    }
  }

  // ---------- case context ----------

  /** The first check that does not hold. */
  function FirstFailing(checks: seq<(bool, ContractError)>): Option<ContractError> {
    if checks == [] then None else if !checks[0].0 then Some(checks[0].1) else FirstFailing(checks[1..])
  }

  lemma FailingStep(check: (bool, ContractError), rest: seq<(bool, ContractError)>)
    ensures FirstFailing([check] + rest) == if check.0 then FirstFailing(rest) else Some(check.1)
  {
    assert ([check] + rest)[1..] == rest;
  }

  predicate Named(v: Value) {
    v.Text? && IsIdentifier(v.text)
  }

  predicate Numeric(v: Value) {
    v.Int? || v.Real? || v.NonFinite?
  }

  predicate WithinUnit(v: Value) {
    (v.Int? && 0 <= v.n <= 1) || (v.Real? && 0.0 <= v.r <= 1.0)
  }

  function UnitValue(v: Value): real
    requires WithinUnit(v)
  {
    if v.Int? then v.n as real else v.r
  }

  /** Four fields in order. */
  function FieldChecks(place: Place, assetId: Value, privilege: Value, breakGlass: Value, criticality: Value)
    : seq<(bool, ContractError)>
  {
    [(Named(assetId), NotIdentifier(place, AssetId))]
    + ([(Named(privilege), NotIdentifier(place, PrivilegeLevel))]
       + ([(breakGlass.Bool?, NotBoolean(place, BreakGlass))]
          + ([(Numeric(criticality), NotNumeric(place, AssetCriticality))]
             + [(WithinUnit(criticality), NotInUnitInterval(place, AssetCriticality))])))
  }

  lemma FieldsFailing(place: Place, assetId: Value, privilege: Value, breakGlass: Value, criticality: Value)
    ensures FirstFailing(FieldChecks(place, assetId, privilege, breakGlass, criticality)) ==
            if !Named(assetId) then Some(NotIdentifier(place, AssetId))
            else if !Named(privilege) then Some(NotIdentifier(place, PrivilegeLevel))
            else if !breakGlass.Bool? then Some(NotBoolean(place, BreakGlass))
            else if !Numeric(criticality) then Some(NotNumeric(place, AssetCriticality))
            else if !WithinUnit(criticality) then Some(NotInUnitInterval(place, AssetCriticality))
            else None
  {
    var e := [(WithinUnit(criticality), NotInUnitInterval(place, AssetCriticality))];
    var d := [(Numeric(criticality), NotNumeric(place, AssetCriticality))] + e;
    var c := [(breakGlass.Bool?, NotBoolean(place, BreakGlass))] + d;
    var b := [(Named(privilege), NotIdentifier(place, PrivilegeLevel))] + c;
    FailingStep((WithinUnit(criticality), NotInUnitInterval(place, AssetCriticality)), []);
    assert e + [] == e;
    FailingStep((Numeric(criticality), NotNumeric(place, AssetCriticality)), e);
    FailingStep((breakGlass.Bool?, NotBoolean(place, BreakGlass)), d);
    FailingStep((Named(privilege), NotIdentifier(place, PrivilegeLevel)), c);
    FailingStep((Named(assetId), NotIdentifier(place, AssetId)), b);
  }

  /** The case's own context: its four fields, or the first complaint about them. */
  lemma OwnSpelled(f: Fields)
    ensures var failing := FirstFailing(FieldChecks(CaseField, f.assetId, f.privilegeLevel, f.breakGlass,
                                                    f.assetCriticality));
            match OwnContext(f)
            case Err(error) => failing == Some(error)
            case Ok(own) =>
              && failing == None
              && f.assetId == Text(own.assetId) && f.privilegeLevel == Text(own.privilegeLevel)
              && f.breakGlass == Bool(own.breakGlass) && own.criticality == UnitValue(f.assetCriticality)
  {
    FieldsFailing(CaseField, f.assetId, f.privilegeLevel, f.breakGlass, f.assetCriticality);
  }

  /** An inventory assertion: all four attributes, each as it must be, then each as in the case. */
  lemma InventorySpelled(own: Context, a: Attributes)
    ensures var complaint := InventoryComplaint(own, a);
            if AssetId !in a || PrivilegeLevel !in a || BreakGlass !in a || AssetCriticality !in a then
              complaint == Some(IncompleteInventory)
            else
              var failing := FirstFailing(FieldChecks(InventoryField, a[AssetId], a[PrivilegeLevel], a[BreakGlass],
                                                      a[AssetCriticality]));
              if failing.Some? then complaint == failing
              else
                WithinUnit(a[AssetCriticality]) &&
                complaint ==
                if a[AssetId] != Text(own.assetId) then Some(Disagrees(AssetId))
                else if a[PrivilegeLevel] != Text(own.privilegeLevel) then Some(Disagrees(PrivilegeLevel))
                else if a[BreakGlass] != Bool(own.breakGlass) then Some(Disagrees(BreakGlass))
                else if UnitValue(a[AssetCriticality]) != own.criticality then Some(Disagrees(AssetCriticality))
                else None
  {
    if AssetId in a && PrivilegeLevel in a && BreakGlass in a && AssetCriticality in a {
      FieldsFailing(InventoryField, a[AssetId], a[PrivilegeLevel], a[BreakGlass], a[AssetCriticality]);
    }
  }

  // ---------- values and traces ----------

  /** The twenty features. */
  lemma FeaturesListed(f: Feature)
    ensures IsFeature(f) <==>
            f in {Intensity, GlobalAdmin, Criticality,
                  Of(NewDevice), Of(ImpossibleTravel), Of(ThreatIp), Of(MfaFatigue), Of(TokenReuse),
                  Of(CredentialDumping), Of(LateralMovement), Of(UnusualAdminAction), Of(EdrMalware), Of(AfterHours),
                  Of(KnownVpn), Of(ApprovedTravel), Of(MaintenanceWindow), Of(ServiceAccountBaseline), Of(StrongMfa),
                  Of(DeviceNoncompliant), Of(OauthGrant)}
  {
  }

  /** The failed logins an accepted event states; zero if none. */
  function LoginCount(e: Event): real {
    if FailedLogins !in e.attributes then 0.0
    else match e.attributes[FailedLogins] case Int(n) => n as real case Real(r) => r case _ => 0.0
  }

  function LoginScore(e: Event): real {
    if LoginCount(e) >= 20.0 then 1.0 else LoginCount(e) / 20.0
  }

  lemma LoginSpelled(e: Event)
    requires Admissible(e)
    ensures EventValue(e, Intensity) == LoginScore(e) >= 0.0
  {
    if FailedLogins in e.attributes {
      TableSpelled(17);
      ReadingSpelled(e.source, 17, e.attributes[FailedLogins]);
      assert Rank(FailedLogins) == 17;
    }
  }

  predicate NoScoreAbove(events: seq<Event>, x: real) {
    x >= 0.0 && forall i | 0 <= i < |events| :: LoginScore(events[i]) <= x
  }

  predicate ScoreOfOne(events: seq<Event>, x: real) {
    x == 0.0 || exists i | 0 <= i < |events| :: LoginScore(events[i]) == x
  }

  lemma ScoresSnoc(events: seq<Event>, e: Event, x: real)
    requires NoScoreAbove(events, x) && ScoreOfOne(events, x)
    ensures NoScoreAbove(events + [e], Max(x, LoginScore(e))) && ScoreOfOne(events + [e], Max(x, LoginScore(e)))
  {
    var more := events + [e];
    assert more[|events|] == e && forall i | 0 <= i < |events| :: more[i] == events[i];
    if x >= LoginScore(e) && x != 0.0 {
      var i :| 0 <= i < |events| && LoginScore(events[i]) == x;
      assert LoginScore(more[i]) == x;
    }
  }

  /** The intensity is the largest score an event has; zero when none has any. */
  lemma {:induction false} IntensitySpelled(c: Context, events: seq<Event>)
    requires AllAdmissible(events)
    ensures NoScoreAbove(events, ValueOf(c, events, Intensity)) && ScoreOfOne(events, ValueOf(c, events, Intensity))
  {
    if events != [] {
      var n := |events| - 1;
      assert forall i | 0 <= i < n :: events[..n][i] == events[i];
      IntensitySpelled(c, events[..n]);
      LoginSpelled(events[n]);
      ScoresSnoc(events[..n], events[n], ValueOf(c, events[..n], Intensity));
      assert events == events[..n] + [events[n]];
    }
  }

  /** A flag is one when some event states it as true, zero otherwise. */
  lemma FlagSpelled(c: Context, events: seq<Event>, key: Key)
    ensures ValueOf(c, events, Of(key)) == if exists e | e in events :: StatesTrue(e, key) then 1.0 else 0.0
  {
    FlagMeaning(c, events, key);
    forall e: Event ensures Raises(e, key) == StatesTrue(e, key) {
    }
    if e :| e in events && StatesTrue(e, key) {
      var i :| 0 <= i < |events| && events[i] == e;
      assert Raises(events[i], key);
    }
    if i :| 0 <= i < |events| && Raises(events[i], key) {
      assert events[i] in events && StatesTrue(events[i], key);
    }
  }

  /** The case's own features. */
  lemma OwnValuesSpelled(c: Context, events: seq<Event>)
    requires 0.0 <= c.criticality <= 1.0
    ensures ValueOf(c, events, GlobalAdmin) == if c.privilegeLevel == "global_admin" then 1.0 else 0.0
    ensures ValueOf(c, events, Criticality) == c.criticality
  {
    OwnMeaning(c, events, GlobalAdmin);
    OwnMeaning(c, events, Criticality);
  }

  function StatingAttribute(key: Key): Event -> bool {
    (e: Event) => key in e.attributes
  }

  function FromInventory(): Event -> bool {
    (e: Event) => e.source == AssetInventory
  }

  /** Traces list the events that state the attribute, true or not; the case's own features its inventory events. */
  lemma TracesSpelled(events: seq<Event>, key: Key)
    ensures Ids(events, Mentioning(Of(key))) == Carried(events, StatingAttribute(key))
    ensures Ids(events, Mentioning(Intensity)) == Carried(events, StatingAttribute(FailedLogins))
    ensures Ids(events, Mentioning(GlobalAdmin)) == Ids(events, Mentioning(Criticality))
         == Carried(events, FromInventory())
  {
    IdsCarried(events, Mentioning(Of(key)));
    CarriedSame(events, Mentioning(Of(key)), StatingAttribute(key));
    IdsCarried(events, Mentioning(Intensity));
    CarriedSame(events, Mentioning(Intensity), StatingAttribute(FailedLogins));
    IdsCarried(events, Mentioning(GlobalAdmin));
    CarriedSame(events, Mentioning(GlobalAdmin), FromInventory());
    IdsCarried(events, Mentioning(Criticality));
    CarriedSame(events, Mentioning(Criticality), FromInventory());
  }

  /** Everything an extraction answers, feature by feature. */
  lemma FeaturesAnswered(c: Case, features: Features)
    requires HasFeatures(c) && Describes(OwnContext(c.fields).value, c.events, features)
    ensures forall f :: f in features.values <==> IsFeature(f)
    ensures c.fields.privilegeLevel.Text? && WithinUnit(c.fields.assetCriticality)
    ensures features.values[GlobalAdmin] == if c.fields.privilegeLevel == Text("global_admin") then 1.0 else 0.0
    ensures features.values[Criticality] == UnitValue(c.fields.assetCriticality)
    ensures NoScoreAbove(c.events, features.values[Intensity]) && ScoreOfOne(c.events, features.values[Intensity])
    ensures forall key | IsFlag(key) ::
              && features.values[Of(key)] == (if exists e | e in c.events :: StatesTrue(e, key) then 1.0 else 0.0)
              && Listed(features.trace, Of(key)) == Carried(c.events, StatingAttribute(key))
    ensures Listed(features.trace, Intensity) == Carried(c.events, StatingAttribute(FailedLogins))
    ensures Listed(features.trace, GlobalAdmin) == Listed(features.trace, Criticality)
         == Carried(c.events, FromInventory())
  {
    var own := OwnContext(c.fields).value;
    OwnSpelled(c.fields);
    FieldsFailing(CaseField, c.fields.assetId, c.fields.privilegeLevel, c.fields.breakGlass, c.fields.assetCriticality);
    OwnValuesSpelled(own, c.events);
    IntensitySpelled(own, c.events);
    TracesSpelled(c.events, NewDevice);
    forall key | IsFlag(key)
      ensures features.values[Of(key)] == (if exists e | e in c.events :: StatesTrue(e, key) then 1.0 else 0.0)
      ensures Listed(features.trace, Of(key)) == Carried(c.events, StatingAttribute(key))
    {
      assert IsFeature(Of(key));
      FlagSpelled(own, c.events, key);
      TracesSpelled(c.events, key);
    }
  }
}
