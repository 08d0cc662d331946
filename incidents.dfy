/**
 * The incident service: creating an incident behind the profile guard, the victim's
 * own lookups, breadcrumb updates, cancellation, the assigned-responder report and
 * the nearest-responder query. Creation does not assign a responder: the service
 * has no automatic assignment.
 */
module Incidents {
  import opened Wrappers
  import opened Entities
  import opened Sequences
  import opened Trail
  import opened Database
  import opened Lifecycle

  const MaxBreadcrumbs: nat := 30
  const DefaultMaxDistanceKm: real := 50.0
  const DefaultTriggerType: string := "manual"

  /** The errors the service throws. */
  datatype ServiceError = UserNotFound | ProfileIncomplete | NotFoundOrDenied | NotActive

  /** An incident-creation request. */
  datatype IncidentRequest = IncidentRequest(
    userId: Id,
    latitude: real,
    longitude: real,
    breadcrumbs: Option<seq<Breadcrumb>>,
    triggerType: Option<string>,
    deviceInfo: Option<string>)

  /** The profiling guard: NIK, blood type and address are all present and non-empty. */
  predicate ProfileComplete(u: User) {
    Truthy(u.nik) && Truthy(u.bloodType) && Truthy(u.address)
  }

  /** `trigger_type || "manual"`. */
  function TriggerOrDefault(t: Option<string>): string {
    if Truthy(t) then t.value else DefaultTriggerType
  }

  /** The incident `createIncident` saves for a request, before any guard. */
  function NewIncident(req: IncidentRequest, id: Id, now: Time): Incident {
    Incident(id, req.userId, req.latitude, req.longitude, Point(req.latitude, req.longitude),
             Active, High, Some(TriggerOrDefault(req.triggerType)), Some(req.breadcrumbs.GetOr([])),
             req.deviceInfo, None, None, None, None, None, None, None, None, None, None, now)
  }

  /**
   * createIncident: the user must exist and have a complete profile; the new incident
   * starts `active` with severity `high`, no responder, the request's breadcrumbs
   * stored as given (not capped) or none, and trigger type `manual` by default.
   */
  function CreateResult(users: seq<User>, req: IncidentRequest, id: Id, now: Time): (r: Result<Incident, ServiceError>)
    ensures UserById(users, req.userId).None? ==> r == Err(UserNotFound)
    ensures UserById(users, req.userId).Some? && !ProfileComplete(UserById(users, req.userId).value) ==>
              r == Err(ProfileIncomplete)
    ensures r.Ok? <==> UserById(users, req.userId).Some? && ProfileComplete(UserById(users, req.userId).value)
    ensures r.Ok? ==> r.value.id == id && r.value.userId == req.userId && r.value.createdAt == now
    ensures r.Ok? ==> r.value.status == Active && r.value.severity == High
    ensures r.Ok? ==> r.value.latitude == req.latitude && r.value.longitude == req.longitude
    ensures r.Ok? ==> r.value.breadcrumbs == Some(if req.breadcrumbs.Some? then req.breadcrumbs.value else [])
    ensures r.Ok? ==> r.value.triggerType == Some(if Truthy(req.triggerType) then req.triggerType.value else "manual")
    ensures r.Ok? ==> r.value.responderId.None? && r.value.responderTrail.None? && r.value.resolvedAt.None?
  {
    match UserById(users, req.userId)
    case None => Err(UserNotFound)
    case Some(u) => if !ProfileComplete(u) then Err(ProfileIncomplete) else Ok(NewIncident(req, id, now))
  }

  /** The WHERE clause of `getIncidentById`: the id, and the owner only when a user id is truthy. */
  predicate Matches(i: Incident, incidentId: Id, userId: Option<Id>) {
    i.id == incidentId && (Truthy(userId) ==> i.userId == userId.value)
  }

  function IncidentPos(rows: seq<Incident>, incidentId: Id, userId: Option<Id>): (r: Option<nat>)
    ensures r.Some? ==> r.value < |rows| && Matches(rows[r.value], incidentId, userId)
    ensures r.None? <==> forall k :: 0 <= k < |rows| ==> !Matches(rows[k], incidentId, userId)
  {
    FindFirst(rows, (i: Incident) => Matches(i, incidentId, userId))
  }

  /** getIncidentById: a user id restricts the answer to that user's own incident. */
  function GetIncidentById(rows: seq<Incident>, incidentId: Id, userId: Option<Id>): (r: Option<Incident>)
    ensures r.Some? ==> r.value in rows && r.value.id == incidentId
    ensures r.Some? && Truthy(userId) ==> r.value.userId == userId.value
    ensures r.None? <==> forall i :: i in rows ==> !Matches(i, incidentId, userId)
  {
    match IncidentPos(rows, incidentId, userId)
    case None => None
    case Some(k) => Some(rows[k])
  }

  /** ORDER BY created_at DESC, as an ascending key. */
  function NewestFirst(i: Incident): real {
    -(i.createdAt as real)
  }

  predicate ActiveOf(i: Incident, userId: Id) {
    i.userId == userId && i.status == Active
  }

  /** getUserActiveIncident: the user's `active` incident created last, or none. */
  function GetUserActiveIncident(rows: seq<Incident>, userId: Id): (r: Option<Incident>)
    ensures r.Some? ==> r.value in rows && r.value.userId == userId && r.value.status == Active
    ensures r.Some? ==> forall i :: i in rows && ActiveOf(i, userId) ==> i.createdAt <= r.value.createdAt
    ensures r.None? <==> forall i :: i in rows ==> !ActiveOf(i, userId)
  {
    var mine := Filter(rows, (i: Incident) => ActiveOf(i, userId));
    var sorted := SortBy(mine, NewestFirst);
    if |sorted| == 0 then None
    else
      assert sorted[0] in multiset(mine);
      assert forall i :: i in rows && ActiveOf(i, userId) ==> i.createdAt <= sorted[0].createdAt by {
        forall i | i in rows && ActiveOf(i, userId) ensures i.createdAt <= sorted[0].createdAt {
          assert i in multiset(sorted);
          SortedHeadIsLeast(sorted, NewestFirst, i);
        }
      }
      Some(sorted[0])
  }

  /** Push a breadcrumb onto the stored ones (none counts as empty), keep the last 30, move the incident. */
  function WithBreadcrumb(i: Incident, b: Breadcrumb): (r: Incident)
    ensures r.breadcrumbs.Some? && |r.breadcrumbs.value| <= MaxBreadcrumbs
    ensures r.breadcrumbs.value == AppendBounded(i.breadcrumbs.GetOr([]), b, MaxBreadcrumbs)
    ensures r.breadcrumbs.value[|r.breadcrumbs.value| - 1] == b
    ensures r.latitude == b.latitude && r.longitude == b.longitude
    ensures r == i.(breadcrumbs := r.breadcrumbs, latitude := r.latitude, longitude := r.longitude)
  {
    i.(breadcrumbs := Some(AppendBounded(i.breadcrumbs.GetOr([]), b, MaxBreadcrumbs)),
       latitude := b.latitude, longitude := b.longitude)
  }

  /**
   * updateBreadcrumbs: the incident must be the user's own and `active`; then only its
   * breadcrumbs and coordinates change. The PostGIS point stays where it was created.
   */
  function BreadcrumbResult(rows: seq<Incident>, incidentId: Id, userId: Id, b: Breadcrumb): (r: Result<seq<Incident>, ServiceError>)
    ensures IncidentPos(rows, incidentId, Some(userId)).None? ==> r == Err(NotFoundOrDenied)
    ensures r.Ok? <==> IncidentPos(rows, incidentId, Some(userId)).Some? &&
                       rows[IncidentPos(rows, incidentId, Some(userId)).value].status == Active
    ensures r.Err? ==> r.error in {NotFoundOrDenied, NotActive}
    ensures r.Ok? ==> var k := IncidentPos(rows, incidentId, Some(userId)).value;
                      r.value == rows[k := WithBreadcrumb(rows[k], b)]
    ensures IncidentPos(rows, incidentId, Some(userId)).Some? ==>
              var k := IncidentPos(rows, incidentId, Some(userId)).value;
              (r.Ok? <==> Next(rows[k].status, LocationUpdate).Some?) &&
              (r.Ok? ==> r.value[k].status == Next(rows[k].status, LocationUpdate).value)
  {
    match IncidentPos(rows, incidentId, Some(userId))
    case None => Err(NotFoundOrDenied)
    case Some(k) =>
      if rows[k].status != Active then Err(NotActive)
      else Ok(rows[k := WithBreadcrumb(rows[k], b)])
  }

  /** cancelIncident: only the owner's `active` incident becomes a false alarm. */
  function CancelResult(rows: seq<Incident>, incidentId: Id, userId: Id, now: Time): (r: Result<seq<Incident>, ServiceError>)
    ensures IncidentPos(rows, incidentId, Some(userId)).None? ==> r == Err(NotFoundOrDenied)
    ensures r.Ok? <==> IncidentPos(rows, incidentId, Some(userId)).Some? &&
                       rows[IncidentPos(rows, incidentId, Some(userId)).value].status == Active
    ensures r.Err? ==> r.error in {NotFoundOrDenied, NotActive}
    ensures r.Ok? ==> var k := IncidentPos(rows, incidentId, Some(userId)).value;
                      |r.value| == |rows| && r.value[k].status == FalseAlarm &&
                      r.value[k].resolvedAt == Some(now) &&
                      r.value == rows[k := Cancelled(rows[k], now)]
  {
    match IncidentPos(rows, incidentId, Some(userId))
    case None => Err(NotFoundOrDenied)
    case Some(k) =>
      if rows[k].status != Active then Err(NotActive)
      else Ok(rows[k := Cancelled(rows[k], now)])
  }

  datatype History = History(incidents: seq<Incident>, total: nat)

  predicate OwnedBy(i: Incident, userId: Id) {
    i.userId == userId
  }

  /** The user's own incidents, in table order. */
  function Mine(rows: seq<Incident>, userId: Id): (r: seq<Incident>)
    ensures forall i :: i in r <==> i in rows && i.userId == userId
  {
    Filter(rows, (i: Incident) => OwnedBy(i, userId))
  }

  /** `s` lists exactly the user's incidents, each as often as the table holds it, newest first. */
  predicate HistoryOrder(rows: seq<Incident>, userId: Id, s: seq<Incident>) {
    multiset(s) == multiset(Mine(rows, userId)) && SortedBy(s, NewestFirst)
  }

  /**
   * getUserIncidentHistory: the user's incidents newest first, skipping `offset` and
   * taking `limit` of them (all of them when the limit is 0), with the count of all.
   */
  function GetUserIncidentHistory(rows: seq<Incident>, userId: Id, limit: nat, offset: nat): (r: History)
    ensures r.total == |Mine(rows, userId)|
    ensures exists s :: HistoryOrder(rows, userId, s) && r.incidents == Window(s, offset, limit)
    ensures forall i :: i in r.incidents ==> i in rows && i.userId == userId
    ensures SortedBy(r.incidents, NewestFirst)
    ensures |r.incidents| == if limit == 0 then Max(0, r.total - offset) else Min(limit, Max(0, r.total - offset))
  {
    var mine := Mine(rows, userId);
    var sorted := SortBy(mine, NewestFirst);
    SortByKeepsMembers(mine, NewestFirst);
    WindowOfSorted(sorted, NewestFirst, offset, limit);
    assert HistoryOrder(rows, userId, sorted);
    var page := Window(sorted, offset, limit);
    forall i | i in page ensures i in rows && i.userId == userId {
      assert i in sorted;
    }
    History(page, |mine|)
  }

  /** The public fields of a responder shown to a victim. */
  datatype ResponderView = ResponderView(
    id: Id, name: string, phone: string, kind: string, badgeNumber: Option<string>,
    status: ResponderStatus, currentLatitude: Option<real>, currentLongitude: Option<real>)

  function ViewOf(r: Responder): ResponderView {
    ResponderView(r.id, r.name, r.phone, r.kind, r.badgeNumber, r.status, r.currentLatitude, r.currentLongitude)
  }

  /** The status shown to the victim: `searching` before any responder is assigned. */
  datatype Tracking = Searching | Tracking(status: IncidentStatus)

  datatype ResponderInfo = ResponderInfo(
    responder: Option<ResponderView>, etaMinutes: Option<int>, distanceKm: Option<real>, status: Tracking)

  /** `eta_minutes || null`: a zero ETA is reported as none. */
  function EtaOrNull(eta: Option<int>): Option<int> {
    if eta.Some? && eta.value != 0 then eta else None
  }

  /**
   * getIncidentResponder: fails for an incident the user does not own; `searching`
   * with nothing else while no responder is assigned; otherwise the incident's status,
   * its ETA, the responder when the row exists, and the geodesic distance in km when
   * the responder has reported a position.
   */
  function GetIncidentResponder(incidents: seq<Incident>, responders: seq<Responder>, incidentId: Id, userId: Id,
                                geo: Metric): (r: Result<ResponderInfo, ServiceError>)
    ensures GetIncidentById(incidents, incidentId, Some(userId)).None? <==> r == Err(NotFoundOrDenied)
    ensures r.Ok? ==> var i := GetIncidentById(incidents, incidentId, Some(userId)).value;
              (!Truthy(i.responderId) <==> r.value.status == Searching) &&
              (!Truthy(i.responderId) ==> r.value == ResponderInfo(None, None, None, Searching)) &&
              (Truthy(i.responderId) ==>
                 r.value.status == Tracking(i.status) && r.value.etaMinutes == EtaOrNull(i.etaMinutes) &&
                 (r.value.responder.Some? <==> ResponderIndex(responders, i.responderId.value).Some?) &&
                 (r.value.distanceKm.Some? ==> r.value.responder.Some?))
    ensures r.Ok? && r.value.responder.Some? ==>
              r.value.responder.value.id == GetIncidentById(incidents, incidentId, Some(userId)).value.responderId.value
    ensures r.Ok? && r.value.status.Tracking? ==>
              var i := GetIncidentById(incidents, incidentId, Some(userId)).value;
              ResponderIndex(responders, i.responderId.value).Some? ==>
                var x := responders[ResponderIndex(responders, i.responderId.value).value];
                && r.value.responder == Some(ViewOf(x))
                && (r.value.distanceKm.Some? <==> x.currentLatitude.Some? && x.currentLongitude.Some?)
                && (r.value.distanceKm.Some? ==>
                      r.value.distanceKm.value ==
                      geo(Point(i.latitude, i.longitude), Point(x.currentLatitude.value, x.currentLongitude.value)) / 1000.0)
  {
    match GetIncidentById(incidents, incidentId, Some(userId))
    case None => Err(NotFoundOrDenied)
    case Some(i) =>
      if !Truthy(i.responderId) then Ok(ResponderInfo(None, None, None, Searching))
      else
        match ResponderIndex(responders, i.responderId.value)
        case None => Ok(ResponderInfo(None, EtaOrNull(i.etaMinutes), None, Tracking(i.status)))
        case Some(k) =>
          var resp := responders[k];
          var distance :=
            if resp.currentLatitude.Some? && resp.currentLongitude.Some?
            then Some(geo(Point(i.latitude, i.longitude), Point(resp.currentLatitude.value, resp.currentLongitude.value)) / 1000.0)
            else None;
          Ok(ResponderInfo(Some(ViewOf(resp)), EtaOrNull(i.etaMinutes), distance, Tracking(i.status)))
  }

  /**
   * The WHERE clause of findNearestResponder: available, active, located, of the
   * requested kind when one is given, and within `maxKm` kilometres.
   */
  predicate NearestCandidate(r: Responder, p: Point, kind: Option<string>, maxKm: real, geo: Metric) {
    && r.status == Available
    && r.isActive
    && r.location.Some?
    && (Truthy(kind) ==> r.kind == kind.value)
    && geo(r.location.value, p) <= maxKm * 1000.0
  }

  /** ORDER BY location <-> point. */
  function PlanarKey(r: Responder, p: Point, planar: Metric): real {
    if r.location.Some? then planar(r.location.value, p) else 0.0
  }

  /** A responder with the geodesic distance the query reports, in km. */
  datatype Nearby = Nearby(responder: Responder, distanceKm: real)

  /**
   * findNearestResponder: a candidate that no other candidate precedes in the planar
   * order, with its geodesic distance; none exactly when there is no candidate.
   */
  function FindNearestResponder(rows: seq<Responder>, p: Point, kind: Option<string>, maxKm: real,
                                geo: Metric, planar: Metric): (r: Option<Nearby>)
    ensures r.Some? ==> r.value.responder in rows && NearestCandidate(r.value.responder, p, kind, maxKm, geo)
    ensures r.Some? ==> r.value.distanceKm == geo(r.value.responder.location.value, p) / 1000.0
    ensures r.Some? ==> forall c :: c in rows && NearestCandidate(c, p, kind, maxKm, geo) ==>
                          planar(r.value.responder.location.value, p) <= planar(c.location.value, p)
    ensures r.None? <==> forall c :: c in rows ==> !NearestCandidate(c, p, kind, maxKm, geo)
  {
    var key := (c: Responder) => PlanarKey(c, p, planar);
    var candidates := Filter(rows, (c: Responder) => NearestCandidate(c, p, kind, maxKm, geo));
    var sorted := SortBy(candidates, key);
    var top := Take(sorted, 1);
    if |top| == 0 then None
    else
      var best := top[0];
      assert best in multiset(candidates);
      assert forall c :: c in rows && NearestCandidate(c, p, kind, maxKm, geo) ==>
               planar(best.location.value, p) <= planar(c.location.value, p) by {
        forall c | c in rows && NearestCandidate(c, p, kind, maxKm, geo)
          ensures planar(best.location.value, p) <= planar(c.location.value, p)
        {
          assert c in multiset(sorted);
          SortedHeadIsLeast(sorted, key, c);
        }
      }
      Some(Nearby(best, geo(best.location.value, p) / 1000.0))
  }

  /** createIncident on the store: the incident table gains the new incident and nothing else changes. */
  method CreateIncident(db: Store, req: IncidentRequest, id: Id, now: Time) returns (r: Result<Incident, ServiceError>)
    requires db.Valid()
    requires forall i :: i in db.incidents ==> i.id != id
    modifies db`incidents
    ensures db.Valid()
    ensures r == CreateResult(db.users, req, id, now)
    ensures r.Ok? ==> db.incidents == old(db.incidents) + [r.value]
    ensures r.Err? ==> db.incidents == old(db.incidents)
  {
    var user := UserById(db.users, req.userId);
    if user.None? {
      return Err(UserNotFound);
    }
    if !ProfileComplete(user.value) {
      return Err(ProfileIncomplete);
    }
    var incident := NewIncident(req, id, now);
    db.incidents := db.incidents + [incident];
    r := Ok(incident);
  }

  /** updateBreadcrumbs on the store: read the incident, check it, write back the capped trail. */
  method UpdateBreadcrumbs(db: Store, incidentId: Id, userId: Id, b: Breadcrumb) returns (r: Result<(), ServiceError>)
    requires db.Valid()
    modifies db`incidents
    ensures db.Valid()
    ensures BreadcrumbResult(old(db.incidents), incidentId, userId, b).Ok? ==>
              r.Ok? && db.incidents == BreadcrumbResult(old(db.incidents), incidentId, userId, b).value
    ensures BreadcrumbResult(old(db.incidents), incidentId, userId, b).Err? ==>
              r == Err(BreadcrumbResult(old(db.incidents), incidentId, userId, b).error) && db.incidents == old(db.incidents)
  {
    var k := IncidentPos(db.incidents, incidentId, Some(userId));
    if k.None? {
      return Err(NotFoundOrDenied);
    }
    var incident := db.incidents[k.value];
    if incident.status != Active {
      return Err(NotActive);
    }
    ReplaceKeepsIncidentIds(db.incidents, k.value, WithBreadcrumb(incident, b));
    db.incidents := db.incidents[k.value := WithBreadcrumb(incident, b)];
    r := Ok(());
  }

  /** cancelIncident on the store. */
  method CancelIncident(db: Store, incidentId: Id, userId: Id, now: Time) returns (r: Result<(), ServiceError>)
    requires db.Valid()
    modifies db`incidents
    ensures db.Valid()
    ensures CancelResult(old(db.incidents), incidentId, userId, now).Ok? ==>
              r.Ok? && db.incidents == CancelResult(old(db.incidents), incidentId, userId, now).value
    ensures CancelResult(old(db.incidents), incidentId, userId, now).Err? ==>
              r == Err(CancelResult(old(db.incidents), incidentId, userId, now).error) && db.incidents == old(db.incidents)
  {
    var k := IncidentPos(db.incidents, incidentId, Some(userId));
    if k.None? {
      return Err(NotFoundOrDenied);
    }
    var incident := db.incidents[k.value];
    if incident.status != Active {
      return Err(NotActive);
    }
    ReplaceKeepsIncidentIds(db.incidents, k.value, Cancelled(incident, now));
    db.incidents := db.incidents[k.value := Cancelled(incident, now)];
    r := Ok(());
  }
}
