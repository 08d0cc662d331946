/**
 * The records of the dispatch core: incidents, responders, users and audit entries,
 * with their documented status values and column defaults.
 */
module Entities {
  import opened Wrappers
  import Strings

  type Id = string

  /** A point in time, in milliseconds (JavaScript's `Date.getTime()`). */
  type Time = int

  /** A WGS84 position in degrees. */
  datatype Point = Point(lat: real, lon: real)

  /**
   * A distance between two points, left uninterpreted. The queries use two: the
   * geodesic one in metres (`ST_Distance`/`ST_DWithin` on `::geography`) for radius
   * tests and reported distances, and the planar `<->` one in degrees for ordering.
   */
  type Metric = (Point, Point) -> real

  /** A victim breadcrumb: {latitude, longitude, timestamp, accuracy?}. */
  datatype Breadcrumb = Breadcrumb(latitude: real, longitude: real, timestamp: Time, accuracy: Option<real>)

  /** A responder trail point: {latitude, longitude, timestamp, speed?}. */
  datatype TrailPoint = TrailPoint(latitude: real, longitude: real, timestamp: Time, speed: Option<real>)

  /**
   * Incident status. The first six are the values the entity documents; `OnTheWay`
   * is the value the accept and dispatch paths actually write.
   */
  datatype IncidentStatus = Active | Acknowledged | Dispatched | Resolved | FalseAlarm | Expired | OnTheWay

  /** The column text of each incident status. */
  function IncidentStatusName(s: IncidentStatus): string {
    match s
    case Active => "active"
    case Acknowledged => "acknowledged"
    case Dispatched => "dispatched"
    case Resolved => "resolved"
    case FalseAlarm => "false_alarm"
    case Expired => "expired"
    case OnTheWay => "on_the_way"
  }

  /** The statuses listed in the entity's documentation of the lifecycle. */
  predicate DocumentedIncidentStatus(s: IncidentStatus) {
    s in {Active, Acknowledged, Dispatched, Resolved, FalseAlarm, Expired}
  }

  /** `on_the_way` is written by the code but is not a documented incident status. */
  lemma OnTheWayUndocumented()
    ensures !DocumentedIncidentStatus(IncidentStatus.OnTheWay)
    ensures IncidentStatusName(IncidentStatus.OnTheWay) == "on_the_way"
  {
  }

  datatype Severity = Critical | High | Medium | Low

  /** Responder status; the column holds one of these four documented values. */
  datatype ResponderStatus = Available | OnTheWay | Busy | OffDuty

  const DefaultIncidentStatus: IncidentStatus := Active
  const DefaultSeverity: Severity := High
  const DefaultResponderStatus: ResponderStatus := OffDuty

  /** User account status (`active`, `suspended`, `deleted`). */
  datatype AccountStatus = AccountActive | Suspended | Deleted

  datatype Incident = Incident(
    id: Id,
    userId: Id,
    latitude: real,
    longitude: real,
    /** The PostGIS point the spatial queries use, written once at creation. */
    location: Point,
    status: IncidentStatus,
    severity: Severity,
    triggerType: Option<string>,
    breadcrumbs: Option<seq<Breadcrumb>>,
    deviceInfo: Option<string>,
    responderId: Option<Id>,
    responderAcceptedAt: Option<Time>,
    responderArrivedAt: Option<Time>,
    responseTimeMinutes: Option<real>,
    responderTrail: Option<seq<TrailPoint>>,
    acknowledgedAt: Option<Time>,
    dispatchedAt: Option<Time>,
    resolvedAt: Option<Time>,
    resolutionNotes: Option<string>,
    etaMinutes: Option<int>,
    createdAt: Time)

  datatype Responder = Responder(
    id: Id,
    name: string,
    phone: string,
    badgeNumber: Option<string>,
    kind: string,
    department: Option<string>,
    status: ResponderStatus,
    passwordHash: Option<string>,
    lastLoginAt: Option<Time>,
    loginAttempts: int,
    deviceId: Option<string>,
    currentLatitude: Option<real>,
    currentLongitude: Option<real>,
    lastLocationUpdate: Option<Time>,
    /** The PostGIS point the spatial queries use; null until the first location ping. */
    location: Option<Point>,
    totalIncidentsHandled: int,
    isActive: bool)

  /**
   * A user. `nik`, `bloodType` and `address` are the profile fields the incident
   * service reads; the user entity does not declare them, so they are optional here.
   */
  datatype User = User(
    id: Id,
    phone: string,
    name: string,
    status: AccountStatus,
    nik: Option<string>,
    bloodType: Option<string>,
    address: Option<string>,
    lastLoginAt: Option<Time>,
    loginAttempts: int)

  datatype AuditAction =
    | LoginFailedOtp | Register | Login
    | ResponderRegistered | SecurityAlertDeviceMismatch | LoginFailedCred | DeviceBound

  datatype AuditEntry = AuditEntry(userId: Option<Id>, userType: string, action: AuditAction, deviceId: Option<string>)

  /** JavaScript truthiness of an optional string: absent and "" are falsy. */
  predicate Truthy(s: Option<string>) {
    s.Some? && s.value != ""
  }

  /** A responder row with the column defaults and the given registration data. */
  function NewResponder(id: Id, name: string, phone: string, badge: string, kind: string,
                        department: Option<string>, passwordHash: string): (r: Responder)
    ensures r.status == OffDuty && r.loginAttempts == 0 && r.totalIncidentsHandled == 0 && r.isActive
    ensures r.deviceId.None? && r.lastLoginAt.None?
    ensures r.currentLatitude.None? && r.currentLongitude.None? && r.lastLocationUpdate.None? && r.location.None?
    ensures r.id == id && r.name == name && r.badgeNumber == Some(badge) && r.passwordHash == Some(passwordHash)
  {
    Responder(id, name, phone, Some(badge), kind, department, DefaultResponderStatus, Some(passwordHash),
              None, 0, None, None, None, None, None, 0, true)
  }

  /**
   * The BeforeInsert/BeforeUpdate listener: a non-empty name is upper-cased before
   * every `save`; nothing else changes.
   */
  function HandleNameCase(r: Responder): (r': Responder)
    ensures r' == r.(name := r'.name)
    ensures |r'.name| == |r.name|
    ensures r.name == "" ==> r'.name == ""
    ensures forall k :: 0 <= k < |r.name| && !('a' <= r.name[k] <= 'z') ==> r'.name[k] == r.name[k]
    ensures forall k :: 0 <= k < |r'.name| ==> !('a' <= r'.name[k] <= 'z')
  {
    if r.name != "" then
      var u := Strings.ToUpper(r.name);
      UpperFacts(r.name);
      r.(name := u)
    else r
  }

  lemma {:induction false} UpperFacts(s: string)
    ensures forall k :: 0 <= k < |s| && !('a' <= s[k] <= 'z') ==> Strings.ToUpper(s)[k] == s[k]
    ensures forall k :: 0 <= k < |s| ==> !('a' <= Strings.ToUpper(s)[k] <= 'z')
    decreases |s|
  {
    if |s| > 0 {
      UpperFacts(s[1..]);
      var u := Strings.ToUpper(s);
      assert u == [Strings.UpperChar(s[0])] + Strings.ToUpper(s[1..]);
      forall k | 1 <= k < |s| ensures u[k] == Strings.ToUpper(s[1..])[k - 1] && s[k] == s[1..][k - 1] { }
    }
  }

  /** The listener runs on every save; running it again changes nothing. */
  lemma HandleNameCaseIdempotent(r: Responder)
    ensures HandleNameCase(HandleNameCase(r)) == HandleNameCase(r)
  {
    if r.name != "" {
      Strings.ToUpperIdempotent(r.name);
    }
  }
}
