/**
 * The command-centre service: the dashboard counters with the deployment rate, the
 * live incident list, the three nearest available responders of an incident, and
 * manual dispatch. Dispatch guards the responder's status only.
 */
module Console {
  import opened Wrappers
  import opened Entities
  import opened Sequences
  import opened Database
  import opened Lifecycle
  import Incidents

  datatype ConsoleError = IncidentOrResponderNotFound | ResponderNotAvailable | IncidentNotFound

  /**
   * The deployment rate in percent: 0 when there are no responders, otherwise the
   * share of responders that are not counted as available.
   */
  function DeploymentRate(total: nat, available: nat): (r: real)
    requires available <= total
    ensures total == 0 ==> r == 0.0
    ensures total > 0 ==> r * total as real == (total - available) as real * 100.0
    ensures 0.0 <= r <= 100.0
    ensures total > 0 && available == 0 ==> r == 100.0
    ensures available == total ==> r == 0.0
  {
    if total > 0 then (total - available) as real / total as real * 100.0 else 0.0
  }

  /** The counters of the dashboard summary. */
  datatype Stats = Stats(
    totalToday: nat, active: nat, responding: nat, resolvedToday: nat,
    totalResponders: nat, online: nat, deploymentRate: real)

  /** `Between(start, end)`: both ends included. */
  predicate Between(t: Time, start: Time, end: Time) {
    start <= t <= end
  }

  predicate Online(r: Responder) {
    r.status == Available && r.isActive
  }

  /**
   * getStatsSummary: today's incidents, the active and responding ones, those resolved
   * today, all responders and the online ones, and the deployment rate over them.
   */
  function StatsSummary(incidents: seq<Incident>, responders: seq<Responder>, todayStart: Time, now: Time): (r: Stats)
    ensures r.totalToday == |Filter(incidents, (i: Incident) => Between(i.createdAt, todayStart, now))|
    ensures r.active == |Filter(incidents, (i: Incident) => i.status == Active)|
    ensures r.responding == |Filter(incidents, (i: Incident) => i.status == IncidentStatus.OnTheWay)|
    ensures r.resolvedToday == |Filter(incidents, (i: Incident) =>
                                  i.status == Resolved && i.resolvedAt.Some? && Between(i.resolvedAt.value, todayStart, now))|
    ensures r.totalResponders == |responders| && r.online == |Filter(responders, Online)|
    ensures r.online <= r.totalResponders
    ensures r.active + r.responding <= |incidents|
    ensures r.deploymentRate == DeploymentRate(r.totalResponders, r.online)
  {
    var online := |Filter(responders, Online)|;
    var active := Filter(incidents, (i: Incident) => i.status == Active);
    var responding := Filter(incidents, (i: Incident) => i.status == IncidentStatus.OnTheWay);
    DisjointFilters(incidents, (i: Incident) => i.status == Active, (i: Incident) => i.status == IncidentStatus.OnTheWay);
    Stats(
      |Filter(incidents, (i: Incident) => Between(i.createdAt, todayStart, now))|,
      |active|,
      |responding|,
      |Filter(incidents, (i: Incident) => i.status == Resolved && i.resolvedAt.Some? && Between(i.resolvedAt.value, todayStart, now))|,
      |responders|,
      online,
      DeploymentRate(|responders|, online))
  }

  /** Two WHERE clauses that never hold together select no more rows between them than there are. */
  lemma {:induction false} DisjointFilters<T(!new)>(s: seq<T>, p: T -> bool, q: T -> bool)
    requires forall x :: !(p(x) && q(x))
    ensures |Filter(s, p)| + |Filter(s, q)| <= |s|
    decreases |s|
  {
    if |s| > 0 {
      DisjointFilters(s[1..], p, q);
    }
  }

  predicate Live(i: Incident) {
    i.status == Active || i.status == IncidentStatus.OnTheWay
  }

  /** getLiveIncidents: exactly the `active` and `on_the_way` incidents, each once, newest first. */
  function GetLiveIncidents(rows: seq<Incident>): (r: seq<Incident>)
    ensures forall i :: i in r <==> i in rows && Live(i)
    ensures multiset(r) == multiset(Filter(rows, Live))
    ensures forall a, b :: 0 <= a < b < |r| ==> r[a].createdAt >= r[b].createdAt
  {
    var live := Filter(rows, Live);
    var sorted := SortBy(live, Incidents.NewestFirst);
    SortByKeepsMembers(live, Incidents.NewestFirst);
    NewestFirstIsDescending(sorted);
    sorted
  }

  /** Ascending on the negated creation time is descending on the creation time. */
  lemma NewestFirstIsDescending(s: seq<Incident>)
    requires SortedBy(s, Incidents.NewestFirst)
    ensures forall a, b :: 0 <= a < b < |s| ==> s[a].createdAt >= s[b].createdAt
  {
    forall a, b | 0 <= a < b < |s| ensures s[a].createdAt >= s[b].createdAt {
      assert Incidents.NewestFirst(s[a]) <= Incidents.NewestFirst(s[b]);
    }
  }

  /** The WHERE clause of the intelligence query. */
  predicate Deployable(r: Responder) {
    r.isActive && r.status == Available && r.location.Some?
  }

  /** The planar `<->` distance to `q`, the query's ordering. */
  function PlanarTo(r: Responder, q: Point, planar: Metric): real {
    if r.location.Some? then planar(r.location.value, q) else 0.0
  }

  datatype Suggestion = Suggestion(responder: Responder, distanceKm: real)

  datatype Intelligence = Intelligence(incident: Incident, nearby: seq<Suggestion>)

  const SuggestionCount: nat := 3

  function ResponderOf(s: seq<Suggestion>): (r: seq<Responder>)
    ensures |r| == |s| && forall k :: 0 <= k < |s| ==> r[k] == s[k].responder
  {
    seq(|s|, k requires 0 <= k < |s| => s[k].responder)
  }

  /** The query's ORDER BY key from point `q`. */
  function PlanarKeyFrom(q: Point, planar: Metric): Responder -> real {
    (c: Responder) => PlanarTo(c, q, planar)
  }

  /**
   * The responders the intelligence query picks around `q`: up to three deployable
   * ones, nearest first in the planar order, none farther than one left out.
   */
  function Nearest(responders: seq<Responder>, q: Point, planar: Metric): (picked: seq<Responder>)
    ensures |picked| == Min(SuggestionCount, |Filter(responders, Deployable)|)
    ensures multiset(picked) <= multiset(Filter(responders, Deployable))
    ensures forall c :: c in picked ==> c in responders && Deployable(c)
    ensures forall a, b :: 0 <= a < b < |picked| ==> PlanarTo(picked[a], q, planar) <= PlanarTo(picked[b], q, planar)
    ensures forall x, c :: x in picked && c in responders && Deployable(c) && c !in picked ==>
                           PlanarTo(x, q, planar) <= PlanarTo(c, q, planar)
  {
    var key := PlanarKeyFrom(q, planar);
    var all := Filter(responders, Deployable);
    var sorted := SortBy(all, key);
    SortByKeepsMembers(all, key);
    TopAreNearest(sorted, key, SuggestionCount, responders);
    var top := Take(sorted, SuggestionCount);
    SortedSlice(sorted, key, 0, |top|);
    assert top == sorted[0..|top|];
    TakeIsSubMultiset(sorted, SuggestionCount);
    top
  }

  /** The geodesic distance to `q` in km that the query reports (`ST_Distance / 1000`). */
  function DistanceKm(c: Responder, q: Point, geo: Metric): real {
    if c.location.Some? then geo(c.location.value, q) / 1000.0 else 0.0
  }

  /** The suggestion list: the Nearest responders, each with its geodesic distance in km. */
  function Suggestions(responders: seq<Responder>, q: Point, geo: Metric, planar: Metric): (nearby: seq<Suggestion>)
    ensures ResponderOf(nearby) == Nearest(responders, q, planar)
    ensures forall k :: 0 <= k < |nearby| ==> nearby[k].distanceKm == DistanceKm(nearby[k].responder, q, geo)
  {
    var top := Nearest(responders, q, planar);
    var nearby := seq(|top|, k requires 0 <= k < |top| => Suggestion(top[k], DistanceKm(top[k], q, geo)));
    assert ResponderOf(nearby) == top;
    nearby
  }

  /**
   * getIncidentIntelligence: an error for an unknown incident; otherwise the incident
   * with the Nearest responders to its current coordinates, each with its distance.
   */
  function GetIncidentIntelligence(incidents: seq<Incident>, responders: seq<Responder>, incidentId: Id,
                                   geo: Metric, planar: Metric): (r: Result<Intelligence, ConsoleError>)
    ensures IncidentIndex(incidents, incidentId).None? <==> r == Err(IncidentNotFound)
    ensures r.Ok? ==>
              var i := incidents[IncidentIndex(incidents, incidentId).value];
              var q := Point(i.latitude, i.longitude);
              && r.value.incident == i
              && ResponderOf(r.value.nearby) == Nearest(responders, q, planar)
              && (forall k :: 0 <= k < |r.value.nearby| ==>
                                 r.value.nearby[k].distanceKm == DistanceKm(r.value.nearby[k].responder, q, geo))
  {
    match IncidentIndex(incidents, incidentId)
    case None => Err(IncidentNotFound)
    case Some(n) =>
      var i := incidents[n];
      Ok(Intelligence(i, Suggestions(responders, Point(i.latitude, i.longitude), geo, planar)))
  }

  /** What the first n of the sorted deployable responders hold is deployable and no farther than the rest. */
  lemma TopAreNearest(sorted: seq<Responder>, key: Responder -> real, n: nat, responders: seq<Responder>)
    requires SortedBy(sorted, key)
    requires forall c :: c in sorted <==> c in responders && Deployable(c)
    ensures forall c :: c in Take(sorted, n) ==> c in responders && Deployable(c)
    ensures forall x, c :: x in Take(sorted, n) && c in responders && Deployable(c) && c !in Take(sorted, n) ==>
                             key(x) <= key(c)
  {
    var top := Take(sorted, n);
    forall c | c in top ensures c in sorted {
      var k :| 0 <= k < |top| && top[k] == c;
      assert sorted[k] == c;
    }
    forall x, c | x in top && c in responders && Deployable(c) && c !in top ensures key(x) <= key(c) {
      SortedPrefixIsLeast(sorted, key, n, x, c);
    }
  }

  /**
   * manualDispatch: an error when the incident or the responder is missing, or when the
   * responder is not `available`, with nothing changed; otherwise the incident, whatever
   * its status, is bound to the responder and `on_the_way`, and the responder is `busy`.
   */
  method ManualDispatch(db: Store, incidentId: Id, responderId: Id, now: Time) returns (r: Result<(), ConsoleError>)
    requires db.Valid()
    modifies db`incidents, db`responders
    ensures db.Valid()
    ensures IncidentIndex(old(db.incidents), incidentId).None? || ResponderIndex(old(db.responders), responderId).None? ==>
              r == Err(IncidentOrResponderNotFound) && db.incidents == old(db.incidents) && db.responders == old(db.responders)
    ensures IncidentIndex(old(db.incidents), incidentId).Some? && ResponderIndex(old(db.responders), responderId).Some? ==>
              var k := IncidentIndex(old(db.incidents), incidentId).value;
              var j := ResponderIndex(old(db.responders), responderId).value;
              && (old(db.responders)[j].status != Available ==>
                    r == Err(ResponderNotAvailable) && db.incidents == old(db.incidents) && db.responders == old(db.responders))
              && (old(db.responders)[j].status == Available ==>
                    && r == Ok(())
                    && db.incidents == old(db.incidents)[k := DispatchedTo(old(db.incidents)[k], responderId, now)]
                    && db.responders == old(db.responders)[j := old(db.responders)[j].(status := Busy)])
  {
    var k := IncidentIndex(db.incidents, incidentId);
    var j := ResponderIndex(db.responders, responderId);
    if k.None? || j.None? {
      return Err(IncidentOrResponderNotFound);
    }
    if db.responders[j.value].status != Available {
      return Err(ResponderNotAvailable);
    }
    var dispatched := DispatchedTo(db.incidents[k.value], responderId, now);
    ReplaceKeepsIncidentIds(db.incidents, k.value, dispatched);
    db.incidents := db.incidents[k.value := dispatched];
    SetStatusOfOne(db.responders, j.value, Busy);
    db.responders := SetResponderStatus(db.responders, responderId, Busy);
    r := Ok(());
  }

  /** With unique ids, setting a responder's status by id rewrites exactly its row. */
  lemma SetStatusOfOne(rows: seq<Responder>, j: nat, status: ResponderStatus)
    requires UniqueResponderIds(rows) && j < |rows|
    ensures SetResponderStatus(rows, rows[j].id, status) == rows[j := rows[j].(status := status)]
    ensures UniqueResponderIds(SetResponderStatus(rows, rows[j].id, status))
  {
    var after := SetResponderStatus(rows, rows[j].id, status);
    assert forall k :: 0 <= k < |rows| && k != j ==> rows[k].id != rows[j].id;
  }
}
