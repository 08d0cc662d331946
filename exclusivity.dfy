/**
 * Concrete runs showing what the write paths do not guard: a responder can hold two
 * incidents at once, dispatch reopens a resolved incident, and resolution closes a
 * cancelled one. Each run starts from a fresh store.
 */
module Exclusivity {
  import opened Wrappers
  import opened Entities
  import opened Database
  import opened Http
  import Incidents
  import ResponderIncidents
  import Console
  import Lifecycle

  function SampleIncident(id: Id): (i: Incident)
    ensures i.id == id && i.status == Active && i.responderId.None?
  {
    Incidents.NewIncident(Incidents.IncidentRequest("u1", -6.2, 106.8, None, None, None), id, 0)
  }

  function SampleResponder(id: Id): (r: Responder)
    ensures r.id == id && r.status == Available && r.totalIncidentsHandled == 0
  {
    NewResponder(id, "RESPONDER", "0800", "B-1", "police", None, "hash").(status := Available)
  }

  /** acceptIncident does not look at the responder: one responder accepts two incidents in a row. */
  method DoubleAccept() returns (first: Reply<ResponderIncidents.Acceptance>, second: Reply<ResponderIncidents.Acceptance>,
                                 incidents: seq<Incident>)
    ensures first.code == OK && second.code == OK
    ensures |incidents| == 2
    ensures incidents[0].responderId == Some("r1") && incidents[1].responderId == Some("r1")
    ensures incidents[0].status == IncidentStatus.OnTheWay && incidents[1].status == IncidentStatus.OnTheWay
  {
    var a, b := SampleIncident("a"), SampleIncident("b");
    var db := new Store([], [a, b], [SampleResponder("r1")]);
    assert ResponderIncidents.ActiveIncidentPos(db.incidents, "a") == Some(0);
    first := ResponderIncidents.AcceptIncident(db, Some("r1"), "a", 1000);
    assert db.incidents == [Lifecycle.Accepted(a, "r1", 1000), b];
    assert db.incidents[0].status == IncidentStatus.OnTheWay;
    assert db.incidents[1].id == "b" && db.incidents[1].status == Active;
    var pos := ResponderIncidents.ActiveIncidentPos(db.incidents, "b");
    assert pos.Some? && pos.value != 0;
    second := ResponderIncidents.AcceptIncident(db, Some("r1"), "b", 2000);
    assert db.incidents == [Lifecycle.Accepted(a, "r1", 1000), Lifecycle.Accepted(b, "r1", 2000)];
    incidents := db.incidents;
  }

  /** manualDispatch guards only the responder: a resolved incident goes back to `on_the_way`. */
  method DispatchReopensResolved() returns (r: Result<(), Console.ConsoleError>, incident: Incident, responder: Responder)
    ensures r.Ok?
    ensures incident.status == IncidentStatus.OnTheWay && incident.responderId == Some("r1")
    ensures responder.status == Busy
  {
    var closed := SampleIncident("a").(status := Resolved, resolvedAt := Some(500));
    var db := new Store([], [closed], [SampleResponder("r1")]);
    r := Console.ManualDispatch(db, "a", "r1", 1000);
    incident := db.incidents[0];
    responder := db.responders[0];
  }

  /** resolveIncident checks the responder, not the status: a false alarm bound to it becomes resolved. */
  method ResolveAfterCancel() returns (r: Reply<real>, incident: Incident, responder: Responder)
    ensures r.code == OK
    ensures incident.status == Resolved
    ensures responder.status == Available && responder.totalIncidentsHandled == 1
  {
    var cancelled := SampleIncident("a").(status := FalseAlarm, responderId := Some("r1"));
    var db := new Store([], [cancelled], [SampleResponder("r1").(status := Busy)]);
    r := ResponderIncidents.ResolveIncident(db, "r1", "a", None, 60000);
    incident := db.incidents[0];
    responder := db.responders[0];
  }
}
