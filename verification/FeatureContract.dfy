/**
 The typed, source-authorized boundary between event attributes and the model.
 Attribute and source names are constructors; `Other` stands for every name the tables do not list.
 */
module FeatureContract {
  import opened Options

  datatype Result<+T> = Ok(value: T) | Err(error: ContractError)

  datatype Key =
    | NewDevice | ImpossibleTravel | ThreatIp | MfaFatigue | TokenReuse | CredentialDumping | LateralMovement
    | UnusualAdminAction | EdrMalware | AfterHours | KnownVpn | ApprovedTravel | MaintenanceWindow
    | ServiceAccountBaseline | StrongMfa | DeviceNoncompliant | OauthGrant
    | FailedLogins
    | SourceConflict
    | AssetId | PrivilegeLevel | BreakGlass | AssetCriticality
    | Other(name: string)

  datatype Source =
    | Identity | Network | ThreatIntel | Endpoint | UserContext | ChangeManagement | AssetInventory
    | OtherSource(name: string)

  /** A Python value as the contract can tell values apart; `Opaque` is neither boolean, number nor text. */
  datatype Value = Bool(flag: bool) | Int(n: int) | Real(r: real) | NonFinite | Text(text: string) | Opaque

  type Attributes = map<Key, Value>

  datatype Place = CaseField | InventoryField | EventField

  datatype ContractError =
    | NotIdentifier(place: Place, key: Key)
    | NotBoolean(place: Place, key: Key)
    | NotNumeric(place: Place, key: Key)
    | NotInUnitInterval(place: Place, key: Key)
    | NotInteger(key: Key)
    | NotInRange(key: Key)
    | NotAuthorized(key: Key)
    | BadSourceType
    | NoInventory
    | IncompleteInventory
    | Disagrees(key: Key)

  const MAX_FAILED_LOGINS := 1_000_000

  const FLAG_COUNT := 17

  const MODELED_COUNT := 18

  /** The table of modeled attributes: the flags, then the one count. */
  function ModeledAt(i: nat): Key
    requires i < MODELED_COUNT
  {
    if i == 0 then NewDevice
    else if i == 1 then ImpossibleTravel
    else if i == 2 then ThreatIp
    else if i == 3 then MfaFatigue
    else if i == 4 then TokenReuse
    else if i == 5 then CredentialDumping
    else if i == 6 then LateralMovement
    else if i == 7 then UnusualAdminAction
    else if i == 8 then EdrMalware
    else if i == 9 then AfterHours
    else if i == 10 then KnownVpn
    else if i == 11 then ApprovedTravel
    else if i == 12 then MaintenanceWindow
    else if i == 13 then ServiceAccountBaseline
    else if i == 14 then StrongMfa
    else if i == 15 then DeviceNoncompliant
    else if i == 16 then OauthGrant
    else FailedLogins
  }

  /** The place of an attribute in the table; past its end for every other attribute. */
  function Rank(key: Key): (i: nat)
    ensures i <= MODELED_COUNT
  {
    match key
    case NewDevice => 0
    case ImpossibleTravel => 1
    case ThreatIp => 2
    case MfaFatigue => 3
    case TokenReuse => 4
    case CredentialDumping => 5
    case LateralMovement => 6
    case UnusualAdminAction => 7
    case EdrMalware => 8
    case AfterHours => 9
    case KnownVpn => 10
    case ApprovedTravel => 11
    case MaintenanceWindow => 12
    case ServiceAccountBaseline => 13
    case StrongMfa => 14
    case DeviceNoncompliant => 15
    case OauthGrant => 16
    case FailedLogins => 17
    case _ => MODELED_COUNT
  }

  /** The table lists every modeled attribute once. */
  lemma RankExact(i: nat)
    requires i < MODELED_COUNT
    ensures forall k: Key :: Rank(k) == i <==> k == ModeledAt(i)
  {
  }

  predicate IsFlag(key: Key) {
    Rank(key) < FLAG_COUNT
  }

  predicate IsModeled(key: Key) {
    Rank(key) < MODELED_COUNT
  }

  /** Which sources may state a modeled attribute; the empty set for every other attribute. */
  function Authority(key: Key): set<Source> {
    match key
    case NewDevice | ImpossibleTravel | MfaFatigue | TokenReuse | AfterHours | StrongMfa | OauthGrant => {Identity}
    case ThreatIp => {Network, ThreatIntel}
    case CredentialDumping | UnusualAdminAction | EdrMalware | DeviceNoncompliant => {Endpoint}
    case LateralMovement | KnownVpn => {Network}
    case ApprovedTravel => {UserContext}
    case MaintenanceWindow | ServiceAccountBaseline => {ChangeManagement}
    case FailedLogins => {Identity}
    case _ => {}
  }

  // ---------- identifiers ----------

  predicate Alphanumeric(c: char) {
    'A' <= c <= 'Z' || 'a' <= c <= 'z' || '0' <= c <= '9'
  }

  /** One to 128 letters, digits, dots, underscores, colons and hyphens, the first a letter or a digit. */
  predicate IsIdentifier(s: string) {
    && 1 <= |s| <= 128
    && Alphanumeric(s[0])
    && forall i | 0 < i < |s| :: Alphanumeric(s[i]) || s[i] == '.' || s[i] == '_' || s[i] == ':' || s[i] == '-'
  }

  predicate ValidSource(source: Source) {
    source.OtherSource? ==> IsIdentifier(source.name)
  }

  // ---------- modeled attributes ----------

  datatype Modeled = Flag(set_: bool) | Count(n: nat)

  function InRange(n: int): Result<Modeled> {
    if 0 <= n <= MAX_FAILED_LOGINS then Ok(Count(n)) else Err(NotInRange(FailedLogins))
  }

  /** What one modeled attribute of an event counts as. */
  function Reading(source: Source, key: Key, value: Value): Result<Modeled> {
    if source !in Authority(key) then Err(NotAuthorized(key))
    else if key != FailedLogins then
      if value.Bool? then Ok(Flag(value.flag)) else Err(NotBoolean(EventField, key))
    else
      match value
      case Int(n) => InRange(n)
      case Real(r) => if r == r.Floor as real then InRange(r.Floor) else Err(NotInteger(key))
      case NonFinite => Err(NotInRange(key))
      case _ => Err(NotInteger(key))
  }

  /** The attributes of the table from place i on are as they must be. */
  predicate AcceptsFrom(source: Source, a: Attributes, i: nat) {
    forall k | k in a :: i <= Rank(k) < MODELED_COUNT ==> Reading(source, k, a[k]).Ok?
  }

  predicate Accepts(source: Source, a: Attributes) {
    AcceptsFrom(source, a, 0)
  }

  /** The first complaint about the modeled attributes, in table order from i. */
  function Complaint(source: Source, a: Attributes, i: nat): (r: Option<ContractError>)
    requires i <= MODELED_COUNT
    ensures r.None? <==> AcceptsFrom(source, a, i)
    decreases MODELED_COUNT - i
  {
    if i == MODELED_COUNT then None
    else
      RankExact(i);
      var name := ModeledAt(i);
      var rest := Complaint(source, a, i + 1);
      if name in a && Reading(source, name, a[name]).Err? then Some(Reading(source, name, a[name]).error)
      else rest
  }

  /** The modeled attributes of an event, read. */
  ghost function Projection(source: Source, a: Attributes): map<Key, Modeled>
    requires Accepts(source, a)
  {
    map k | k in a && IsModeled(k) :: Reading(source, k, a[k]).value
  }

  /** What `select_modeled_attributes` answers. */
  ghost function Selected(source: Source, a: Attributes): Result<map<Key, Modeled>> {
    if !ValidSource(source) then Err(BadSourceType)
    else
      var complaint := Complaint(source, a, 0);
      if complaint.Some? then Err(complaint.value) else Ok(Projection(source, a))
  }

  /** The readings of the attributes at the first i places of the table. */
  predicate ReadUpTo(source: Source, a: Attributes, i: nat, modeled: map<Key, Modeled>) {
    && (forall k | k in modeled :: k in a && Rank(k) < i && Reading(source, k, a[k]) == Ok(modeled[k]))
    && (forall k | k in a :: Rank(k) < i ==> k in modeled)
  }

  lemma ReadOneMore(source: Source, a: Attributes, i: nat, modeled: map<Key, Modeled>)
    requires i < MODELED_COUNT && ReadUpTo(source, a, i, modeled)
    ensures var name := ModeledAt(i);
            if name !in a then ReadUpTo(source, a, i + 1, modeled)
            else Reading(source, name, a[name]).Ok? ==>
                   ReadUpTo(source, a, i + 1, modeled[name := Reading(source, name, a[name]).value])
  {
    RankExact(i);
  }

  lemma AllRead(source: Source, a: Attributes, modeled: map<Key, Modeled>)
    requires Accepts(source, a) && ReadUpTo(source, a, MODELED_COUNT, modeled)
    ensures modeled == Projection(source, a)
  {
  }

  method SelectModeledAttributes(source: Source, a: Attributes) returns (r: Result<map<Key, Modeled>>)
    ensures r == Selected(source, a)
  {
    if !ValidSource(source) {
      return Err(BadSourceType);
    }
    var modeled: map<Key, Modeled> := map[];
    for i := 0 to MODELED_COUNT
      invariant Complaint(source, a, 0) == Complaint(source, a, i)
      invariant ReadUpTo(source, a, i, modeled)
    {
      var name := ModeledAt(i);
      ReadOneMore(source, a, i, modeled);
      if name in a {
        var reading := Reading(source, name, a[name]);
        if reading.Err? {
          return Err(reading.error);
        }
        modeled := modeled[name := reading.value];
      }
    }
    AllRead(source, a, modeled);
    return Ok(modeled);
  }

  // ---------- evidence attributes ----------

  /** What `select_evidence_attributes` answers: whether the event reports a source conflict. */
  function Conflict(source: Source, a: Attributes): Result<bool> {
    if !ValidSource(source) then Err(BadSourceType)
    else if SourceConflict !in a then Ok(false)
    else if source != Network then Err(NotAuthorized(SourceConflict))
    else if !a[SourceConflict].Bool? then Err(NotBoolean(EventField, SourceConflict))
    else Ok(a[SourceConflict].flag)
  }

  // ---------- case context ----------

  function Identifier(value: Value, place: Place, key: Key): Result<string> {
    if value.Text? && IsIdentifier(value.text) then Ok(value.text) else Err(NotIdentifier(place, key))
  }

  function InUnit(value: Value, place: Place, key: Key): (r: Result<real>)
    ensures r.Ok? ==> 0.0 <= r.value <= 1.0
  {
    match value
    case Int(n) => if 0 <= n <= 1 then Ok(n as real) else Err(NotInUnitInterval(place, key))
    case Real(x) => if 0.0 <= x <= 1.0 then Ok(x) else Err(NotInUnitInterval(place, key))
    case NonFinite => Err(NotInUnitInterval(place, key))
    case _ => Err(NotNumeric(place, key))
  }

  /** The fields of a case that features and policy read. */
  datatype Fields = Fields(assetId: Value, privilegeLevel: Value, breakGlass: Value, assetCriticality: Value)

  datatype Context = Context(assetId: string, privilegeLevel: string, breakGlass: bool, criticality: real)

  function OwnContext(f: Fields): Result<Context> {
    var assetId := Identifier(f.assetId, CaseField, AssetId);
    if assetId.Err? then Err(assetId.error) else
    var privilege := Identifier(f.privilegeLevel, CaseField, PrivilegeLevel);
    if privilege.Err? then Err(privilege.error) else
    if !f.breakGlass.Bool? then Err(NotBoolean(CaseField, BreakGlass)) else
    var criticality := InUnit(f.assetCriticality, CaseField, AssetCriticality);
    if criticality.Err? then Err(criticality.error) else
    Ok(Context(assetId.value, privilege.value, f.breakGlass.flag, criticality.value))
  }

  /** What is wrong with one inventory assertion about a case. */
  function InventoryComplaint(c: Context, a: Attributes): Option<ContractError> {
    if AssetId !in a || PrivilegeLevel !in a || BreakGlass !in a || AssetCriticality !in a then
      Some(IncompleteInventory)
    else
      var assetId := Identifier(a[AssetId], InventoryField, AssetId);
      if assetId.Err? then Some(assetId.error) else
      var privilege := Identifier(a[PrivilegeLevel], InventoryField, PrivilegeLevel);
      if privilege.Err? then Some(privilege.error) else
      if !a[BreakGlass].Bool? then Some(NotBoolean(InventoryField, BreakGlass)) else
      var criticality := InUnit(a[AssetCriticality], InventoryField, AssetCriticality);
      if criticality.Err? then Some(criticality.error)
      else if assetId.value != c.assetId then Some(Disagrees(AssetId))
      else if privilege.value != c.privilegeLevel then Some(Disagrees(PrivilegeLevel))
      else if a[BreakGlass].flag != c.breakGlass then Some(Disagrees(BreakGlass))
      else if criticality.value != c.criticality then Some(Disagrees(AssetCriticality))
      else None
  }

  method ValidateContext(f: Fields, inventory: seq<Attributes>) returns (r: Result<Context>)
    ensures OwnContext(f).Err? ==> r == OwnContext(f)
    ensures OwnContext(f).Ok? && inventory == [] ==> r == Err(NoInventory)
    ensures r.Ok? ==> r == OwnContext(f) && inventory != []
                      && forall i | 0 <= i < |inventory| :: InventoryComplaint(r.value, inventory[i]).None?
    ensures OwnContext(f).Ok? && inventory != [] && r.Err? ==>
              exists i | 0 <= i < |inventory| ::
                && InventoryComplaint(OwnContext(f).value, inventory[i]) == Some(r.error)
                && forall j | 0 <= j < i :: InventoryComplaint(OwnContext(f).value, inventory[j]).None?
  {
    var own := OwnContext(f);
    if own.Err? {
      return own;
    }
    if inventory == [] {
      return Err(NoInventory);
    }
    for i := 0 to |inventory|
      invariant forall j | 0 <= j < i :: InventoryComplaint(own.value, inventory[j]).None?
    {
      var complaint := InventoryComplaint(own.value, inventory[i]);
      if complaint.Some? {
        return Err(complaint.value);
      }
    }
    return own;
  }

  /** An inventory assertion passes exactly when it states the case's own four fields; criticalities as numbers. */
  lemma AgreesExactly(f: Fields, a: Attributes)
    requires OwnContext(f).Ok?
    ensures InventoryComplaint(OwnContext(f).value, a).None? <==>
            && AssetId in a && a[AssetId] == f.assetId
            && PrivilegeLevel in a && a[PrivilegeLevel] == f.privilegeLevel
            && BreakGlass in a && a[BreakGlass] == f.breakGlass
            && AssetCriticality in a
            && InUnit(a[AssetCriticality], InventoryField, AssetCriticality)
               == Ok(InUnit(f.assetCriticality, CaseField, AssetCriticality).value)
  {
  }
}
