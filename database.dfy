/**
 * The in-memory store the services read and write through their repositories: one
 * table per entity, each a sequence of rows in scan order, and the append-only audit
 * log. Primary keys are unique.
 */
module Database {
  import opened Wrappers
  import opened Entities
  import opened Sequences

  predicate UniqueIncidentIds(rows: seq<Incident>) {
    forall i, j :: 0 <= i < j < |rows| ==> rows[i].id != rows[j].id
  }

  predicate UniqueResponderIds(rows: seq<Responder>) {
    forall i, j :: 0 <= i < j < |rows| ==> rows[i].id != rows[j].id
  }

  /** The responder phone column is declared unique. */
  predicate UniqueResponderPhones(rows: seq<Responder>) {
    forall i, j :: 0 <= i < j < |rows| ==> rows[i].phone != rows[j].phone
  }

  predicate UniqueUserIds(rows: seq<User>) {
    forall i, j :: 0 <= i < j < |rows| ==> rows[i].id != rows[j].id
  }

  /** `findOneBy({ id })` on the incident table. */
  function IncidentIndex(rows: seq<Incident>, id: Id): (r: Option<nat>)
    ensures r.Some? ==> r.value < |rows| && rows[r.value].id == id
    ensures r.None? <==> forall k :: 0 <= k < |rows| ==> rows[k].id != id
  {
    FindFirst(rows, (i: Incident) => i.id == id)
  }

  /** `findOneBy({ id })` on the responder table. */
  function ResponderIndex(rows: seq<Responder>, id: Id): (r: Option<nat>)
    ensures r.Some? ==> r.value < |rows| && rows[r.value].id == id
    ensures r.None? <==> forall k :: 0 <= k < |rows| ==> rows[k].id != id
  {
    FindFirst(rows, (x: Responder) => x.id == id)
  }

  /** `findOne({ where: { id } })` on the user table. */
  function UserById(rows: seq<User>, id: Id): (r: Option<User>)
    ensures r.Some? ==> r.value in rows && r.value.id == id
    ensures r.None? <==> forall k :: 0 <= k < |rows| ==> rows[k].id != id
  {
    match FindFirst(rows, (u: User) => u.id == id)
    case None => None
    case Some(k) => Some(rows[k])
  }

  /** `responderRepository.update(id, { status })`: every row with that id gets the status. */
  function SetResponderStatus(rows: seq<Responder>, id: Id, status: ResponderStatus): (r: seq<Responder>)
    ensures |r| == |rows|
    ensures forall k :: 0 <= k < |rows| && rows[k].id == id ==> r[k] == rows[k].(status := status)
    ensures forall k :: 0 <= k < |rows| && rows[k].id != id ==> r[k] == rows[k]
  {
    seq(|rows|, k requires 0 <= k < |rows| => if rows[k].id == id then rows[k].(status := status) else rows[k])
  }

  /** Rewriting one row without touching its key keeps keys unique. */
  lemma ReplaceKeepsIncidentIds(rows: seq<Incident>, k: nat, row: Incident)
    requires UniqueIncidentIds(rows) && k < |rows| && row.id == rows[k].id
    ensures UniqueIncidentIds(rows[k := row])
  {
  }

  lemma ReplaceKeepsUserIds(rows: seq<User>, k: nat, row: User)
    requires UniqueUserIds(rows) && k < |rows| && row.id == rows[k].id
    ensures UniqueUserIds(rows[k := row])
  {
  }

  lemma ReplaceKeepsResponderIds(rows: seq<Responder>, k: nat, row: Responder)
    requires UniqueResponderIds(rows) && UniqueResponderPhones(rows)
    requires k < |rows| && row.id == rows[k].id && row.phone == rows[k].phone
    ensures UniqueResponderIds(rows[k := row]) && UniqueResponderPhones(rows[k := row])
  {
  }

  lemma AppendKeepsUserIds(rows: seq<User>, row: User)
    requires UniqueUserIds(rows) && forall u :: u in rows ==> u.id != row.id
    ensures UniqueUserIds(rows + [row])
  {
    var t := rows + [row];
    forall i, j | 0 <= i < j < |t| ensures t[i].id != t[j].id {
      if j == |rows| {
        assert t[i] in rows;
      }
    }
  }

  lemma AppendKeepsResponderIds(rows: seq<Responder>, row: Responder)
    requires UniqueResponderIds(rows) && forall x :: x in rows ==> x.id != row.id
    requires UniqueResponderPhones(rows) && forall x :: x in rows ==> x.phone != row.phone
    ensures UniqueResponderIds(rows + [row]) && UniqueResponderPhones(rows + [row])
  {
    var t := rows + [row];
    forall i, j | 0 <= i < j < |t| ensures t[i].id != t[j].id && t[i].phone != t[j].phone {
      if j == |rows| {
        assert t[i] in rows;
      }
    }
  }

  class Store {
    var users: seq<User>
    var incidents: seq<Incident>
    var responders: seq<Responder>
    var audit: seq<AuditEntry>

    ghost predicate Valid()
      reads this
    {
      UniqueUserIds(users) && UniqueIncidentIds(incidents) && UniqueResponderIds(responders) &&
      UniqueResponderPhones(responders)
    }

    constructor (users: seq<User>, incidents: seq<Incident>, responders: seq<Responder>)
      requires UniqueUserIds(users) && UniqueIncidentIds(incidents) && UniqueResponderIds(responders)
      requires UniqueResponderPhones(responders)
      ensures Valid()
      ensures this.users == users && this.incidents == incidents && this.responders == responders
      ensures audit == []
    {
      this.users := users;
      this.incidents := incidents;
      this.responders := responders;
      this.audit := [];
    }
  }
}
