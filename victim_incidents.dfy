/**
 * The victim's incident controller. Each handler checks the caller and the request,
 * delegates to the incident service and turns a thrown error into 500; here each is a
 * function from the request and the tables to the reply and the new incident table.
 */
module VictimIncidents {
  import opened Wrappers
  import opened Entities
  import opened Sequences
  import opened Database
  import opened Http
  import opened Incidents

  const PanicResponderKind: string := "police"
  const DefaultPageSize: int := 10
  const DefaultOffset: int := 0

  /** A reply together with the incident table after the handler. */
  datatype Outcome<+T> = Outcome(reply: Reply<T>, incidents: seq<Incident>)

  /** The panic request body. */
  datatype PanicBody = PanicBody(
    latitude: Field, longitude: Field, breadcrumbs: Option<seq<Breadcrumb>>,
    triggerType: Option<string>, deviceInfo: Option<string>)

  datatype NearestView = NearestView(id: Id, name: string, kind: string, distanceKm: real)

  datatype PanicData = PanicData(
    incidentId: Id, status: IncidentStatus, severity: Severity, createdAt: Time, nearestResponder: Option<NearestView>)

  function NearestViewOf(n: Option<Nearby>): (r: Option<NearestView>)
    ensures r.None? <==> n.None?
    ensures r.Some? ==> r.value == NearestView(n.value.responder.id, n.value.responder.name,
                                                n.value.responder.kind, n.value.distanceKm)
  {
    match n
    case None => None
    case Some(x) => Some(NearestView(x.responder.id, x.responder.name, x.responder.kind, x.distanceKm))
  }

  /** The coordinate guard of the panic and location handlers: both values truthy. */
  predicate CoordinatesGiven(latitude: Field, longitude: Field) {
    FieldTruthy(latitude) && FieldTruthy(longitude)
  }

  /**
   * triggerPanicButton: 401 without a caller and 400 without truthy coordinates, both
   * with no incident created; a failed creation is 500 with none created; otherwise
   * 201, the new incident appended, and the nearest police responder within 50 km
   * reported but not assigned.
   */
  function TriggerPanicButton(users: seq<User>, incidents: seq<Incident>, responders: seq<Responder>,
                              userId: Option<Id>, body: PanicBody, id: Id, now: Time,
                              geo: Metric, planar: Metric): (r: Outcome<PanicData>)
    ensures !Truthy(userId) ==> r == Outcome(Fail(UNAUTHORIZED), incidents)
    ensures Truthy(userId) && !CoordinatesGiven(body.latitude, body.longitude) ==> r == Outcome(Fail(BAD_REQUEST), incidents)
    ensures r.reply.code != CREATED ==> r.incidents == incidents && r.reply.data.None?
    ensures r.reply.code == CREATED <==>
              Truthy(userId) && CoordinatesGiven(body.latitude, body.longitude) &&
              CreateResult(users, PanicRequest(userId.value, body), id, now).Ok?
    ensures r.reply.code == CREATED ==>
              var created := CreateResult(users, PanicRequest(userId.value, body), id, now).value;
              var p := Point(ParseFloat(body.latitude), ParseFloat(body.longitude));
              && r.incidents == incidents + [created]
              && created.responderId.None?
              && r.reply.data == Some(PanicData(id, Active, High, now,
                   NearestViewOf(FindNearestResponder(responders, p, Some(PanicResponderKind), DefaultMaxDistanceKm, geo, planar))))
  {
    if !Truthy(userId) then Outcome(Fail(UNAUTHORIZED), incidents)
    else if !CoordinatesGiven(body.latitude, body.longitude) then Outcome(Fail(BAD_REQUEST), incidents)
    else
      match CreateResult(users, PanicRequest(userId.value, body), id, now)
      case Err(_) => Outcome(Fail(SERVER_ERROR), incidents)
      case Ok(created) =>
        var p := Point(ParseFloat(body.latitude), ParseFloat(body.longitude));
        var nearest := FindNearestResponder(responders, p, Some(PanicResponderKind), DefaultMaxDistanceKm, geo, planar);
        Outcome(Reply(CREATED, Some(PanicData(created.id, created.status, created.severity, created.createdAt,
                                              NearestViewOf(nearest)))),
                incidents + [created])
  }

  /** The service request the panic handler builds. */
  function PanicRequest(userId: Id, body: PanicBody): IncidentRequest
    requires body.latitude != Missing && body.longitude != Missing
  {
    IncidentRequest(userId, ParseFloat(body.latitude), ParseFloat(body.longitude), body.breadcrumbs,
                    body.triggerType, body.deviceInfo)
  }

  /** A zero coordinate is falsy, so a panic at latitude 0 is refused before anything is stored. */
  lemma PanicAtZeroLatitudeRefused(users: seq<User>, incidents: seq<Incident>, responders: seq<Responder>,
                                   userId: Id, body: PanicBody, id: Id, now: Time, geo: Metric, planar: Metric)
    requires userId != "" && body.latitude == Num(0.0)
    ensures TriggerPanicButton(users, incidents, responders, Some(userId), body, id, now, geo, planar)
            == Outcome(Fail(BAD_REQUEST), incidents)
  {
  }

  /**
   * The victim's updateLocation: 401, then 400, then the breadcrumb stamped now goes
   * through the service; a service error is 500 with nothing changed.
   */
  function UpdateLocation(incidents: seq<Incident>, userId: Option<Id>, incidentId: Id,
                          latitude: Field, longitude: Field, accuracy: Field, now: Time): (r: Outcome<()>)
    ensures !Truthy(userId) ==> r == Outcome(Fail(UNAUTHORIZED), incidents)
    ensures Truthy(userId) && !CoordinatesGiven(latitude, longitude) ==> r == Outcome(Fail(BAD_REQUEST), incidents)
    ensures r.reply.code != OK ==> r.incidents == incidents
    ensures Truthy(userId) && CoordinatesGiven(latitude, longitude) ==>
              var b := Breadcrumb(ParseFloat(latitude), ParseFloat(longitude), now, FieldValue(accuracy));
              var res := BreadcrumbResult(incidents, incidentId, userId.value, b);
              (res.Err? ==> r == Outcome(Fail(SERVER_ERROR), incidents)) &&
              (res.Ok? ==> r == Outcome(Reply(OK, Some(())), res.value))
  {
    if !Truthy(userId) then Outcome(Fail(UNAUTHORIZED), incidents)
    else if !CoordinatesGiven(latitude, longitude) then Outcome(Fail(BAD_REQUEST), incidents)
    else
      var b := Breadcrumb(ParseFloat(latitude), ParseFloat(longitude), now, FieldValue(accuracy));
      match BreadcrumbResult(incidents, incidentId, userId.value, b)
      case Err(_) => Outcome(Fail(SERVER_ERROR), incidents)
      case Ok(rows) => Outcome(Reply(OK, Some(())), rows)
  }

  /** After an accepted location update the incident's last breadcrumb is the new one, stamped now. */
  lemma LocationUpdateStampsNow(incidents: seq<Incident>, userId: Id, incidentId: Id,
                                latitude: Field, longitude: Field, accuracy: Field, now: Time)
    requires userId != ""
    requires UpdateLocation(incidents, Some(userId), incidentId, latitude, longitude, accuracy, now).reply.code == OK
    ensures var k := IncidentPos(incidents, incidentId, Some(userId)).value;
            var after := UpdateLocation(incidents, Some(userId), incidentId, latitude, longitude, accuracy, now).incidents;
            var crumbs := after[k].breadcrumbs.value;
            |crumbs| <= MaxBreadcrumbs && crumbs[|crumbs| - 1].timestamp == now &&
            crumbs[|crumbs| - 1].latitude == ParseFloat(latitude) && after[k].longitude == ParseFloat(longitude)
  {
  }

  datatype ResponderSummary = ResponderSummary(id: Id, name: string, kind: string, status: ResponderStatus)

  datatype ActiveData = ActiveData(
    incidentId: Id, status: IncidentStatus, severity: Severity, latitude: real, longitude: real,
    createdAt: Time, responder: Option<ResponderSummary>, etaMinutes: Option<int>)

  /** The `responder` relation of an incident: the row its responder id names, if any. */
  function ResponderOf(responders: seq<Responder>, i: Incident): (r: Option<Responder>)
    ensures r.Some? ==> i.responderId.Some? && r.value in responders && r.value.id == i.responderId.value
    ensures r.None? <==> i.responderId.None? || ResponderIndex(responders, i.responderId.value).None?
  {
    if i.responderId.None? then None
    else
      match ResponderIndex(responders, i.responderId.value)
      case None => None
      case Some(k) => Some(responders[k])
  }

  /**
   * getActiveIncident: 401, 404 when the user has no active incident, else the newest
   * one with its position, creation time, ETA and a summary of its responder.
   */
  function GetActiveIncident(incidents: seq<Incident>, responders: seq<Responder>, userId: Option<Id>): (r: Reply<ActiveData>)
    ensures !Truthy(userId) ==> r == Fail(UNAUTHORIZED)
    ensures Truthy(userId) ==> (r == Fail(NOT_FOUND) <==> forall i :: i in incidents ==> !ActiveOf(i, userId.value))
    ensures r.code == OK <==> r.data.Some?
    ensures r.data.Some? ==>
              var i := GetUserActiveIncident(incidents, userId.value).value;
              && r.data.value.incidentId == i.id && r.data.value.status == Active
              && r.data.value.severity == i.severity && r.data.value.createdAt == i.createdAt
              && r.data.value.latitude == i.latitude && r.data.value.longitude == i.longitude
              && r.data.value.etaMinutes == i.etaMinutes
              && (r.data.value.responder.Some? <==> ResponderOf(responders, i).Some?)
              && (r.data.value.responder.Some? ==>
                    var x := ResponderOf(responders, i).value;
                    r.data.value.responder.value == ResponderSummary(x.id, x.name, x.kind, x.status))
  {
    if !Truthy(userId) then Fail(UNAUTHORIZED)
    else
      match GetUserActiveIncident(incidents, userId.value)
      case None => Fail(NOT_FOUND)
      case Some(i) =>
        var resp := match ResponderOf(responders, i)
                    case None => None
                    case Some(x) => Some(ResponderSummary(x.id, x.name, x.kind, x.status));
        Reply(OK, Some(ActiveData(i.id, i.status, i.severity, i.latitude, i.longitude, i.createdAt, resp, i.etaMinutes)))
  }

  /** The responder part of the incident details: id, name, type, badge number and status. */
  datatype ResponderCard = ResponderCard(id: Id, name: string, kind: string, badgeNumber: Option<string>,
                                         status: ResponderStatus)

  datatype IncidentDetail = IncidentDetail(
    incidentId: Id, status: IncidentStatus, severity: Severity, latitude: real, longitude: real,
    breadcrumbs: Option<seq<Breadcrumb>>, triggerType: Option<string>, createdAt: Time,
    responder: Option<ResponderCard>, etaMinutes: Option<int>,
    acknowledgedAt: Option<Time>, dispatchedAt: Option<Time>, resolvedAt: Option<Time>)

  function CardOf(x: Responder): ResponderCard {
    ResponderCard(x.id, x.name, x.kind, x.badgeNumber, x.status)
  }

  /**
   * The victim's getIncidentById: 401, 404 unless the incident is the caller's own,
   * else 200 with its details and a card of its responder when one is loaded.
   */
  function GetIncident(incidents: seq<Incident>, responders: seq<Responder>, userId: Option<Id>,
                       incidentId: Id): (r: Reply<IncidentDetail>)
    ensures !Truthy(userId) ==> r == Fail(UNAUTHORIZED)
    ensures Truthy(userId) ==> (r == Fail(NOT_FOUND) <==> forall i :: i in incidents ==> !Matches(i, incidentId, userId))
    ensures r.code == OK <==> r.data.Some?
    ensures r.data.Some? ==>
              var i := GetIncidentById(incidents, incidentId, userId).value;
              var d := r.data.value;
              && i in incidents && i.id == incidentId && i.userId == userId.value
              && d.incidentId == i.id && d.status == i.status && d.severity == i.severity
              && d.latitude == i.latitude && d.longitude == i.longitude && d.breadcrumbs == i.breadcrumbs
              && d.triggerType == i.triggerType && d.createdAt == i.createdAt && d.etaMinutes == i.etaMinutes
              && d.acknowledgedAt == i.acknowledgedAt && d.dispatchedAt == i.dispatchedAt && d.resolvedAt == i.resolvedAt
              && (d.responder.Some? <==> ResponderOf(responders, i).Some?)
              && (d.responder.Some? ==>
                    var x := ResponderOf(responders, i).value;
                    d.responder.value == ResponderCard(x.id, x.name, x.kind, x.badgeNumber, x.status))
  {
    if !Truthy(userId) then Fail(UNAUTHORIZED)
    else
      match GetIncidentById(incidents, incidentId, userId)
      case None => Fail(NOT_FOUND)
      case Some(i) =>
        var card := match ResponderOf(responders, i)
                    case None => None
                    case Some(x) => Some(CardOf(x));
        Reply(OK, Some(IncidentDetail(i.id, i.status, i.severity, i.latitude, i.longitude, i.breadcrumbs,
                                      i.triggerType, i.createdAt, card, i.etaMinutes,
                                      i.acknowledgedAt, i.dispatchedAt, i.resolvedAt)))
  }

  /** The victim's cancelIncident: 401, 500 when the service refuses, else 200 with the incident cancelled. */
  function CancelIncident(incidents: seq<Incident>, userId: Option<Id>, incidentId: Id, now: Time): (r: Outcome<()>)
    ensures !Truthy(userId) ==> r == Outcome(Fail(UNAUTHORIZED), incidents)
    ensures Truthy(userId) && CancelResult(incidents, incidentId, userId.value, now).Err? ==>
              r == Outcome(Fail(SERVER_ERROR), incidents)
    ensures Truthy(userId) && CancelResult(incidents, incidentId, userId.value, now).Ok? ==>
              r == Outcome(Reply(OK, Some(())), CancelResult(incidents, incidentId, userId.value, now).value)
  {
    if !Truthy(userId) then Outcome(Fail(UNAUTHORIZED), incidents)
    else
      match CancelResult(incidents, incidentId, userId.value, now)
      case Err(_) => Outcome(Fail(SERVER_ERROR), incidents)
      case Ok(rows) => Outcome(Reply(OK, Some(())), rows)
  }

  /** getResponderInfo: 401, 500 when the service refuses, else 200 with its report. */
  function GetResponderInfo(incidents: seq<Incident>, responders: seq<Responder>, userId: Option<Id>, incidentId: Id,
                            geo: Metric): (r: Reply<ResponderInfo>)
    ensures !Truthy(userId) ==> r == Fail(UNAUTHORIZED)
    ensures Truthy(userId) ==>
              var res := GetIncidentResponder(incidents, responders, incidentId, userId.value, geo);
              (res.Err? ==> r == Fail(SERVER_ERROR)) && (res.Ok? ==> r == Reply(OK, Some(res.value)))
  {
    if !Truthy(userId) then Fail(UNAUTHORIZED)
    else
      match GetIncidentResponder(incidents, responders, incidentId, userId.value, geo)
      case Err(_) => Fail(SERVER_ERROR)
      case Ok(info) => Reply(OK, Some(info))
  }

  /** `parseInt(v) || d`: a value that does not parse (none) or parses to 0 takes the default. */
  function IntOr(parsed: Option<int>, d: int): (r: int)
    ensures parsed.None? || parsed.value == 0 ==> r == d
    ensures parsed.Some? && parsed.value != 0 ==> r == parsed.value
  {
    if parsed.Some? && parsed.value != 0 then parsed.value else d
  }

  datatype Page = Page(limit: int, offset: int)

  /** The paging of the history handler: limit 10 and offset 0 unless given as non-zero integers. */
  function HistoryPaging(limit: Option<int>, offset: Option<int>): (r: Page)
    ensures r.limit != 0
    ensures limit.None? || limit.value == 0 ==> r.limit == DefaultPageSize
    ensures offset.None? || offset.value == 0 ==> r.offset == DefaultOffset
    ensures limit.Some? && limit.value != 0 ==> r.limit == limit.value
    ensures offset.Some? && offset.value != 0 ==> r.offset == offset.value
  {
    Page(IntOr(limit, DefaultPageSize), IntOr(offset, DefaultOffset))
  }

  /** The responder part of a history entry: name and type only. */
  datatype ResponderBrief = ResponderBrief(name: string, kind: string)

  /** One entry of the history reply. */
  datatype HistoryEntry = HistoryEntry(
    incidentId: Id, status: IncidentStatus, severity: Severity, latitude: real, longitude: real,
    createdAt: Time, resolvedAt: Option<Time>, responder: Option<ResponderBrief>)

  /** `e` is the history entry of incident `i`: its fields, and the brief of its loaded responder if any. */
  predicate Lists(e: HistoryEntry, i: Incident, responders: seq<Responder>) {
    && e.incidentId == i.id && e.status == i.status && e.severity == i.severity
    && e.latitude == i.latitude && e.longitude == i.longitude
    && e.createdAt == i.createdAt && e.resolvedAt == i.resolvedAt
    && (e.responder.Some? <==> ResponderOf(responders, i).Some?)
    && (e.responder.Some? ==> e.responder.value == ResponderBrief(ResponderOf(responders, i).value.name,
                                                                  ResponderOf(responders, i).value.kind))
  }

  function EntryOf(i: Incident, responders: seq<Responder>): (e: HistoryEntry)
    ensures Lists(e, i, responders)
  {
    var brief := match ResponderOf(responders, i)
                 case None => None
                 case Some(x) => Some(ResponderBrief(x.name, x.kind));
    HistoryEntry(i.id, i.status, i.severity, i.latitude, i.longitude, i.createdAt, i.resolvedAt, brief)
  }

  /** `incidents.map(...)` of the history handler. */
  function EntriesOf(rows: seq<Incident>, responders: seq<Responder>): (es: seq<HistoryEntry>)
    ensures |es| == |rows|
    ensures forall k :: 0 <= k < |rows| ==> Lists(es[k], rows[k], responders)
  {
    seq(|rows|, k requires 0 <= k < |rows| => EntryOf(rows[k], responders))
  }

  /**
   * The history reply: the entries of one page of the caller's incidents, the total
   * and the paging. `incidents` is the page the service returned; the reply lists
   * `entries`, one per incident of the page.
   */
  datatype HistoryData = HistoryData(incidents: seq<Incident>, entries: seq<HistoryEntry>, total: nat,
                                     limit: int, offset: int)

  /** One page of the caller's history: newest first, each with its responder brief, the total and the paging echoed. */
  function HistoryOf(incidents: seq<Incident>, responders: seq<Responder>, userId: Id, page: Page): (d: HistoryData)
    requires page.limit >= 0 && page.offset >= 0
    ensures d.limit == page.limit && d.offset == page.offset
    ensures d.total == |Mine(incidents, userId)|
    ensures exists s :: HistoryOrder(incidents, userId, s) && d.incidents == Window(s, page.offset, page.limit)
    ensures page.limit > 0 ==> |d.incidents| == Min(page.limit, Max(0, d.total - page.offset))
    ensures forall i :: i in d.incidents ==> i in incidents && i.userId == userId
    ensures SortedBy(d.incidents, NewestFirst)
    ensures |d.entries| == |d.incidents|
    ensures forall k :: 0 <= k < |d.entries| ==> Lists(d.entries[k], d.incidents[k], responders)
  {
    var h := GetUserIncidentHistory(incidents, userId, page.limit, page.offset);
    HistoryData(h.incidents, EntriesOf(h.incidents, responders), h.total, page.limit, page.offset)
  }

  /**
   * getIncidentHistory: 401 without a caller; a negative limit or offset is refused by
   * the database, which is 500; otherwise one page of the caller's history with the paging.
   */
  function GetIncidentHistory(incidents: seq<Incident>, responders: seq<Responder>, userId: Option<Id>,
                              limit: Option<int>, offset: Option<int>): (r: Reply<HistoryData>)
    ensures !Truthy(userId) ==> r == Fail(UNAUTHORIZED)
    ensures Truthy(userId) && (HistoryPaging(limit, offset).limit < 0 || HistoryPaging(limit, offset).offset < 0) ==>
              r == Fail(SERVER_ERROR)
    ensures r.code == OK <==> r.data.Some?
    ensures r.data.Some? ==>
              var page := HistoryPaging(limit, offset);
              && Truthy(userId) && page.limit > 0 && page.offset >= 0
              && r.data.value == HistoryOf(incidents, responders, userId.value, page)
  {
    var page := HistoryPaging(limit, offset);
    if !Truthy(userId) then Fail(UNAUTHORIZED)
    else if page.limit < 0 || page.offset < 0 then Fail(SERVER_ERROR)
    else Reply(OK, Some(HistoryOf(incidents, responders, userId.value, page)))
  }

  /**
   * Without paging parameters the page is the first ten of the caller's incidents in
   * newest-first order (all of them when there are fewer).
   */
  lemma DefaultHistoryPage(incidents: seq<Incident>, responders: seq<Responder>, userId: Id)
    requires userId != ""
    ensures var r := GetIncidentHistory(incidents, responders, Some(userId), None, None);
            && r.code == OK && r.data.value.limit == 10 && r.data.value.offset == 0
            && |r.data.value.incidents| == Min(10, r.data.value.total)
            && exists s :: HistoryOrder(incidents, userId, s) && r.data.value.incidents == Take(s, 10)
  {
    assert HistoryPaging(None, None) == Page(10, 0);
    var d := HistoryOf(incidents, responders, userId, Page(10, 0));
    assert GetIncidentHistory(incidents, responders, Some(userId), None, None) == Reply(OK, Some(d));
    var s :| HistoryOrder(incidents, userId, s) && d.incidents == Window(s, 0, 10);
    assert Skip(s, 0) == s;
    assert d.incidents == Take(s, 10);
  }
}
