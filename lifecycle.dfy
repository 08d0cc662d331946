/**
 * The incident lifecycle as the code drives it. Status is guarded in only three
 * places (cancellation, acceptance and the victim's location updates all demand
 * `active`); operator dispatch and responder resolution write their status whatever
 * the incident's current status is.
 */
module Lifecycle {
  import opened Wrappers
  import opened Entities

  /** The operations that change an incident after its creation. */
  datatype Event =
    | Cancel          // victim cancels: false alarm
    | Accept          // a responder accepts the incident
    | Dispatch        // an operator assigns a responder by hand
    | Resolve         // the assigned responder resolves it
    | LocationUpdate  // the victim sends a breadcrumb

  /** The status an operation leaves the incident in, or None when its status guard refuses. */
  function Next(s: IncidentStatus, e: Event): (r: Option<IncidentStatus>)
    ensures e == Cancel || e == Accept || e == LocationUpdate ==> (r.Some? <==> s == Active)
    ensures e == Dispatch || e == Resolve ==> r.Some?
    ensures e == Cancel && r.Some? ==> r.value == FalseAlarm
    ensures (e == Accept || e == Dispatch) && r.Some? ==> r.value == IncidentStatus.OnTheWay
    ensures e == Resolve && r.Some? ==> r.value == Resolved
    ensures e == LocationUpdate && r.Some? ==> r.value == s
    ensures r.Some? ==> r.value != Acknowledged && r.value != Dispatched && r.value != Expired
    ensures r.Some? && r.value == Active ==> s == Active
  {
    match e
    case Cancel => if s == Active then Some(FalseAlarm) else None
    case Accept => if s == Active then Some(IncidentStatus.OnTheWay) else None
    case LocationUpdate => if s == Active then Some(s) else None
    case Dispatch => Some(IncidentStatus.OnTheWay)
    case Resolve => Some(Resolved)
  }

  /** The terminal statuses are not final in the code: dispatch and resolution leave them. */
  lemma TerminalStatusesReopen()
    ensures Next(Resolved, Dispatch) == Some(IncidentStatus.OnTheWay)
    ensures Next(FalseAlarm, Dispatch) == Some(IncidentStatus.OnTheWay)
    ensures Next(Expired, Resolve) == Some(Resolved)
    ensures Next(Resolved, Cancel).None? && Next(IncidentStatus.OnTheWay, Cancel).None?
  {
  }

  const CancelNote: string := "Cancelled by user (false alarm)"
  const DefaultResolveNote: string := "Resolved by responder"

  /** Minutes from creation to `now`: (now - created_at) / 60000. */
  function ResponseTimeMinutes(createdAt: Time, now: Time): (r: real)
    ensures createdAt as real + r * 60000.0 == now as real
    ensures createdAt <= now ==> r >= 0.0
  {
    (now - createdAt) as real / 60000.0
  }

  /** Cancellation: `false_alarm`, resolved now, with the fixed note; nothing else changes. */
  function Cancelled(i: Incident, now: Time): (r: Incident)
    requires i.status == Active
    ensures Next(i.status, Cancel) == Some(r.status)
    ensures r.resolvedAt == Some(now) && r.resolutionNotes == Some(CancelNote)
    ensures r == i.(status := r.status, resolvedAt := r.resolvedAt, resolutionNotes := r.resolutionNotes)
  {
    i.(status := FalseAlarm, resolvedAt := Some(now), resolutionNotes := Some(CancelNote))
  }

  /** Acceptance: `on_the_way`, bound to the caller, accepted now; nothing else changes. */
  function Accepted(i: Incident, responderId: Id, now: Time): (r: Incident)
    requires i.status == Active
    ensures Next(i.status, Accept) == Some(r.status)
    ensures r.responderId == Some(responderId) && r.responderAcceptedAt == Some(now)
    ensures r == i.(status := r.status, responderId := r.responderId, responderAcceptedAt := r.responderAcceptedAt)
  {
    i.(status := IncidentStatus.OnTheWay, responderId := Some(responderId), responderAcceptedAt := Some(now))
  }

  /** Manual dispatch: bound to the chosen responder, `on_the_way`, dispatched now, from any status. */
  function DispatchedTo(i: Incident, responderId: Id, now: Time): (r: Incident)
    ensures Next(i.status, Dispatch) == Some(r.status)
    ensures r.responderId == Some(responderId) && r.dispatchedAt == Some(now)
    ensures r == i.(status := r.status, responderId := r.responderId, dispatchedAt := r.dispatchedAt)
  {
    i.(responderId := Some(responderId), status := IncidentStatus.OnTheWay, dispatchedAt := Some(now))
  }

  /** `notes || "Resolved by responder"`. */
  function NotesOrDefault(notes: Option<string>): (r: string)
    ensures Truthy(notes) ==> r == notes.value
    ensures !Truthy(notes) ==> r == DefaultResolveNote
  {
    if Truthy(notes) then notes.value else DefaultResolveNote
  }

  /**
   * Resolution: `resolved`, resolved now, with the notes and the response time in
   * minutes since creation; nothing else changes, whatever the status was.
   */
  function ResolvedAt(i: Incident, notes: Option<string>, now: Time): (r: Incident)
    ensures Next(i.status, Resolve) == Some(r.status)
    ensures r.resolvedAt == Some(now) && r.resolutionNotes == Some(NotesOrDefault(notes))
    ensures r.responseTimeMinutes.Some? && i.createdAt as real + r.responseTimeMinutes.value * 60000.0 == now as real
    ensures r == i.(status := r.status, resolvedAt := r.resolvedAt, resolutionNotes := r.resolutionNotes,
                    responseTimeMinutes := r.responseTimeMinutes)
  {
    i.(status := Resolved, resolvedAt := Some(now), resolutionNotes := Some(NotesOrDefault(notes)),
       responseTimeMinutes := Some(ResponseTimeMinutes(i.createdAt, now)))
  }
}
