/**
 * The responder's incident controller: the nearby-incident query, accepting an
 * incident, the location ping that feeds the responder trail, and resolution.
 * The three handlers that write act on the store; none of them is atomic in the
 * system and none guarantees that a responder handles one incident at a time.
 */
module ResponderIncidents {
  import opened Wrappers
  import opened Entities
  import opened Sequences
  import opened Trail
  import opened Database
  import opened Lifecycle
  import opened Http

  const DefaultRadiusMeters: real := 5000.0
  const MaxTrailPoints: nat := 50

  /** An incident row of the nearby query with its geodesic distance in metres. */
  datatype NearbyIncident = NearbyIncident(incident: Incident, distanceMeters: real)

  /** `radius = 5000` applies only when the parameter is absent. */
  function RadiusOrDefault(radius: Field): (r: real)
    ensures radius == Missing ==> r == DefaultRadiusMeters
    ensures radius != Missing ==> r == ParseFloat(radius)
  {
    if radius == Missing then DefaultRadiusMeters else ParseFloat(radius)
  }

  /** The WHERE clause: `active` and within `rad` metres of `q`. */
  predicate NearbyActive(i: Incident, q: Point, rad: real, geo: Metric) {
    i.status == Active && geo(i.location, q) <= rad
  }

  function IncidentsOf(xs: seq<NearbyIncident>): (r: seq<Incident>)
    ensures |r| == |xs| && forall k :: 0 <= k < |xs| ==> r[k] == xs[k].incident
  {
    seq(|xs|, k requires 0 <= k < |xs| => xs[k].incident)
  }

  /**
   * getNearbyIncidents: 400 unless both coordinates are truthy; otherwise exactly the
   * active incidents within the radius, each once, nearest first, with their distances.
   */
  function GetNearbyIncidents(rows: seq<Incident>, latitude: Field, longitude: Field, radius: Field, geo: Metric)
    : (r: Reply<seq<NearbyIncident>>)
    ensures !FieldTruthy(latitude) || !FieldTruthy(longitude) <==> r == Fail(BAD_REQUEST)
    ensures r.code == OK <==> r.data.Some?
    ensures r.data.Some? ==>
              var q := Point(ParseFloat(latitude), ParseFloat(longitude));
              var rad := RadiusOrDefault(radius);
              var found := r.data.value;
              (forall i :: i in IncidentsOf(found) <==> i in rows && NearbyActive(i, q, rad, geo)) &&
              multiset(IncidentsOf(found)) == multiset(Filter(rows, (i: Incident) => NearbyActive(i, q, rad, geo))) &&
              (forall k :: 0 <= k < |found| ==> found[k].distanceMeters == geo(found[k].incident.location, q)) &&
              (forall a, b :: 0 <= a < b < |found| ==> found[a].distanceMeters <= found[b].distanceMeters)
  {
    if !FieldTruthy(latitude) || !FieldTruthy(longitude) then Fail(BAD_REQUEST)
    else Reply(OK, Some(NearbyOf(rows, Point(ParseFloat(latitude), ParseFloat(longitude)), RadiusOrDefault(radius), geo)))
  }

  /** The rows of the nearby query around `q`: the active incidents within `rad`, nearest first. */
  function NearbyOf(rows: seq<Incident>, q: Point, rad: real, geo: Metric): (found: seq<NearbyIncident>)
    ensures forall i :: i in IncidentsOf(found) <==> i in rows && NearbyActive(i, q, rad, geo)
    ensures multiset(IncidentsOf(found)) == multiset(Filter(rows, (i: Incident) => NearbyActive(i, q, rad, geo)))
    ensures forall k :: 0 <= k < |found| ==> found[k].distanceMeters == geo(found[k].incident.location, q)
    ensures forall a, b :: 0 <= a < b < |found| ==> found[a].distanceMeters <= found[b].distanceMeters
  {
    var key := (i: Incident) => geo(i.location, q);
    var hits := Filter(rows, (i: Incident) => NearbyActive(i, q, rad, geo));
    var sorted := SortBy(hits, key);
    SortByKeepsMembers(hits, key);
    var found := seq(|sorted|, k requires 0 <= k < |sorted| => NearbyIncident(sorted[k], key(sorted[k])));
    assert IncidentsOf(found) == sorted;
    found
  }

  /** The acceptance query: the incident with this id, provided it is still `active`. */
  function ActiveIncidentPos(rows: seq<Incident>, incidentId: Id): (r: Option<nat>)
    ensures r.Some? ==> r.value < |rows| && rows[r.value].id == incidentId && rows[r.value].status == Active
    ensures r.None? <==> forall k :: 0 <= k < |rows| ==> !(rows[k].id == incidentId && rows[k].status == Active)
  {
    FindFirst(rows, (i: Incident) => i.id == incidentId && i.status == Active)
  }

  datatype Acceptance = Acceptance(incidentId: Id, status: IncidentStatus, victimLatitude: real, victimLongitude: real)

  /**
   * acceptIncident: 401 without a caller, 404 unless the incident is `active`, both
   * with nothing changed; otherwise the incident is accepted by the caller and every
   * responder row with the caller's id goes `on_the_way`, whatever its status was.
   */
  method AcceptIncident(db: Store, responderId: Option<Id>, incidentId: Id, now: Time) returns (r: Reply<Acceptance>)
    requires db.Valid()
    modifies db`incidents, db`responders
    ensures db.Valid()
    ensures !Truthy(responderId) ==>
              r == Fail(UNAUTHORIZED) && db.incidents == old(db.incidents) && db.responders == old(db.responders)
    ensures Truthy(responderId) && ActiveIncidentPos(old(db.incidents), incidentId).None? ==>
              r == Fail(NOT_FOUND) && db.incidents == old(db.incidents) && db.responders == old(db.responders)
    ensures Truthy(responderId) && ActiveIncidentPos(old(db.incidents), incidentId).Some? ==>
              var k := ActiveIncidentPos(old(db.incidents), incidentId).value;
              var accepted := Accepted(old(db.incidents)[k], responderId.value, now);
              && r == Reply(OK, Some(Acceptance(incidentId, IncidentStatus.OnTheWay, accepted.latitude, accepted.longitude)))
              && db.incidents == old(db.incidents)[k := accepted]
              && db.responders == SetResponderStatus(old(db.responders), responderId.value, ResponderStatus.OnTheWay)
  {
    if !Truthy(responderId) {
      return Fail(UNAUTHORIZED);
    }
    var k := ActiveIncidentPos(db.incidents, incidentId);
    if k.None? {
      return Fail(NOT_FOUND);
    }
    var accepted := Accepted(db.incidents[k.value], responderId.value, now);
    ReplaceKeepsIncidentIds(db.incidents, k.value, accepted);
    db.incidents := db.incidents[k.value := accepted];
    SetStatusKeepsIds(db.responders, responderId.value, ResponderStatus.OnTheWay);
    db.responders := SetResponderStatus(db.responders, responderId.value, ResponderStatus.OnTheWay);
    r := Reply(OK, Some(Acceptance(accepted.id, accepted.status, accepted.latitude, accepted.longitude)));
  }

  lemma SetStatusKeepsIds(rows: seq<Responder>, id: Id, status: ResponderStatus)
    requires UniqueResponderIds(rows)
    ensures UniqueResponderIds(SetResponderStatus(rows, id, status))
  {
  }

  /** The responder row after a location ping: current position, ping time and PostGIS point. */
  function Moved(r: Responder, lat: real, lon: real, now: Time): (r': Responder)
    ensures r'.currentLatitude == Some(lat) && r'.currentLongitude == Some(lon)
    ensures r'.lastLocationUpdate == Some(now) && r'.location == Some(Point(lat, lon))
    ensures r' == r.(currentLatitude := r'.currentLatitude, currentLongitude := r'.currentLongitude,
                     lastLocationUpdate := r'.lastLocationUpdate, location := r'.location)
  {
    r.(currentLatitude := Some(lat), currentLongitude := Some(lon), lastLocationUpdate := Some(now),
       location := Some(Point(lat, lon)))
  }

  /** The two location writes of a ping, applied to every row with the responder's id. */
  function MoveResponder(rows: seq<Responder>, id: Id, lat: real, lon: real, now: Time): (r: seq<Responder>)
    ensures |r| == |rows|
    ensures forall k :: 0 <= k < |rows| && rows[k].id == id ==> r[k] == Moved(rows[k], lat, lon, now)
    ensures forall k :: 0 <= k < |rows| && rows[k].id != id ==> r[k] == rows[k]
  {
    seq(|rows|, k requires 0 <= k < |rows| => if rows[k].id == id then Moved(rows[k], lat, lon, now) else rows[k])
  }

  /** The incident a responder is heading to: the first one it is bound to that is `on_the_way`. */
  function HeadingTo(rows: seq<Incident>, responderId: Id): (r: Option<nat>)
    ensures r.Some? ==> r.value < |rows| && rows[r.value].responderId == Some(responderId) &&
                        rows[r.value].status == IncidentStatus.OnTheWay
    ensures r.None? <==> forall k :: 0 <= k < |rows| ==>
                           !(rows[k].responderId == Some(responderId) && rows[k].status == IncidentStatus.OnTheWay)
  {
    FindFirst(rows, (i: Incident) => i.responderId == Some(responderId) && i.status == IncidentStatus.OnTheWay)
  }

  /** Append a trail point to the stored trail (none counts as empty) and keep the last 50. */
  function WithTrailPoint(i: Incident, p: TrailPoint): (r: Incident)
    ensures r.responderTrail.Some? && |r.responderTrail.value| <= MaxTrailPoints
    ensures r.responderTrail.value == AppendBounded(i.responderTrail.GetOr([]), p, MaxTrailPoints)
    ensures r.responderTrail.value[|r.responderTrail.value| - 1] == p
    ensures r == i.(responderTrail := r.responderTrail)
  {
    i.(responderTrail := Some(AppendBounded(i.responderTrail.GetOr([]), p, MaxTrailPoints)))
  }

  /** The trail update of a ping: only the incident the responder is heading to changes. */
  function TrackTrail(rows: seq<Incident>, responderId: Id, p: TrailPoint): (r: seq<Incident>)
    ensures HeadingTo(rows, responderId).None? ==> r == rows
    ensures HeadingTo(rows, responderId).Some? ==>
              var k := HeadingTo(rows, responderId).value;
              r == rows[k := WithTrailPoint(rows[k], p)]
  {
    match HeadingTo(rows, responderId)
    case None => rows
    case Some(k) => rows[k := WithTrailPoint(rows[k], p)]
  }

  /**
   * The responder's updateLocation: 400 without a caller or a truthy coordinate, with
   * nothing changed; otherwise the caller's rows move to the point and, when it is
   * heading to an incident, that incident's trail gains the point, stamped now, with
   * `speed || 0`.
   */
  method UpdateLocation(db: Store, responderId: Option<Id>, latitude: Field, longitude: Field, speed: Field, now: Time)
    returns (code: int)
    requires db.Valid()
    modifies db`incidents, db`responders
    ensures db.Valid()
    ensures !Truthy(responderId) || !FieldTruthy(latitude) || !FieldTruthy(longitude) ==>
              code == BAD_REQUEST && db.incidents == old(db.incidents) && db.responders == old(db.responders)
    ensures Truthy(responderId) && FieldTruthy(latitude) && FieldTruthy(longitude) ==>
              var lat := ParseFloat(latitude);
              var lon := ParseFloat(longitude);
              && code == OK
              && db.responders == MoveResponder(old(db.responders), responderId.value, lat, lon, now)
              && db.incidents == TrackTrail(old(db.incidents), responderId.value,
                                            TrailPoint(lat, lon, now, Some(FloatOr(speed, 0.0))))
  {
    if !Truthy(responderId) || !FieldTruthy(latitude) || !FieldTruthy(longitude) {
      return BAD_REQUEST;
    }
    var id := responderId.value;
    var lat := ParseFloat(latitude);
    var lon := ParseFloat(longitude);
    db.responders := MoveResponder(db.responders, id, lat, lon, now);
    var k := HeadingTo(db.incidents, id);
    if k.Some? {
      var point := TrailPoint(lat, lon, now, Some(FloatOr(speed, 0.0)));
      ReplaceKeepsIncidentIds(db.incidents, k.value, WithTrailPoint(db.incidents[k.value], point));
      db.incidents := db.incidents[k.value := WithTrailPoint(db.incidents[k.value], point)];
    }
    code := OK;
  }

  /** The resolution query: the incident with this id, provided the caller is its responder. */
  function AssignedPos(rows: seq<Incident>, incidentId: Id, responderId: Id): (r: Option<nat>)
    ensures r.Some? ==> r.value < |rows| && rows[r.value].id == incidentId && rows[r.value].responderId == Some(responderId)
    ensures r.None? <==> forall k :: 0 <= k < |rows| ==>
                           !(rows[k].id == incidentId && rows[k].responderId == Some(responderId))
  {
    FindFirst(rows, (i: Incident) => i.id == incidentId && i.responderId == Some(responderId))
  }

  /** Back to `available` with one more incident handled. */
  function Released(r: Responder): (r': Responder)
    ensures r'.status == Available && r'.totalIncidentsHandled == r.totalIncidentsHandled + 1
    ensures r' == r.(status := r'.status, totalIncidentsHandled := r'.totalIncidentsHandled)
  {
    r.(status := Available, totalIncidentsHandled := r.totalIncidentsHandled + 1)
  }

  function ReleaseResponder(rows: seq<Responder>, id: Id): (r: seq<Responder>)
    ensures |r| == |rows|
    ensures forall k :: 0 <= k < |rows| && rows[k].id == id ==> r[k] == Released(rows[k])
    ensures forall k :: 0 <= k < |rows| && rows[k].id != id ==> r[k] == rows[k]
  {
    seq(|rows|, k requires 0 <= k < |rows| => if rows[k].id == id then Released(rows[k]) else rows[k])
  }

  /**
   * resolveIncident: 404 with nothing changed unless the caller is the incident's
   * responder; otherwise the incident is resolved whatever its status, and the caller
   * is `available` again with one more incident handled. The reply carries the
   * response time in minutes.
   */
  method ResolveIncident(db: Store, responderId: Id, incidentId: Id, notes: Option<string>, now: Time)
    returns (r: Reply<real>)
    requires db.Valid()
    modifies db`incidents, db`responders
    ensures db.Valid()
    ensures AssignedPos(old(db.incidents), incidentId, responderId).None? ==>
              r == Fail(NOT_FOUND) && db.incidents == old(db.incidents) && db.responders == old(db.responders)
    ensures AssignedPos(old(db.incidents), incidentId, responderId).Some? ==>
              var k := AssignedPos(old(db.incidents), incidentId, responderId).value;
              var resolved := ResolvedAt(old(db.incidents)[k], notes, now);
              && r == Reply(OK, Some(resolved.responseTimeMinutes.value))
              && db.incidents == old(db.incidents)[k := resolved]
              && db.responders == ReleaseResponder(old(db.responders), responderId)
  {
    var k := AssignedPos(db.incidents, incidentId, responderId);
    if k.None? {
      return Fail(NOT_FOUND);
    }
    var resolved := ResolvedAt(db.incidents[k.value], notes, now);
    ReplaceKeepsIncidentIds(db.incidents, k.value, resolved);
    db.incidents := db.incidents[k.value := resolved];
    db.responders := ReleaseResponder(db.responders, responderId);
    r := Reply(OK, Some(resolved.responseTimeMinutes.value));
  }

  /** With unique ids, resolution counts exactly one more handled incident for the responder. */
  lemma ReleaseCountsOne(rows: seq<Responder>, id: Id)
    requires UniqueResponderIds(rows)
    requires ResponderIndex(rows, id).Some?
    ensures var k := ResponderIndex(rows, id).value;
            var after := ReleaseResponder(rows, id);
            UniqueResponderIds(after) && after[k].status == Available &&
            after[k].totalIncidentsHandled == rows[k].totalIncidentsHandled + 1 &&
            forall j :: 0 <= j < |rows| && j != k ==> after[j] == rows[j]
  {
  }
}
