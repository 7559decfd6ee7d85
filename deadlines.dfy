/** The deadline endpoints, including "my deadlines": the deadlines of every
    organization the caller is a member of. */
module Deadlines {
  import opened Responses
  import opened Models
  import opened Database

  /** The caller has at least one membership. */
  predicate InSomeOrganization(ms: Memberships, userId: int) {
    exists k :: k in ms && k.1 == userId
  }

  /** `GET /deadlines/my_deadlines`. Without memberships the caller gets a
      404 first; otherwise the result is exactly the deadlines of the
      caller's organizations, and none is another 404. */
  function MyDeadlines(db: Db, caller: Identity): (r: Result<map<int, Deadline>>)
    reads db
    ensures !InSomeOrganization(db.memberships, caller.userId) ==> r == Err(NotFound, "User not part of any organization")
    ensures InSomeOrganization(db.memberships, caller.userId)
            && (forall id :: id in db.deadlines ==> (db.deadlines[id].organizationId, caller.userId) !in db.memberships) ==>
      r == Err(NotFound, "User has no deadlines in their organization")
    ensures r.Ok? <==> InSomeOrganization(db.memberships, caller.userId)
                       && exists id :: id in db.deadlines && (db.deadlines[id].organizationId, caller.userId) in db.memberships
    ensures r.Ok? ==> forall id :: id in r.value <==>
              id in db.deadlines && (db.deadlines[id].organizationId, caller.userId) in db.memberships
    ensures r.Ok? ==> forall id :: id in r.value ==> id in db.deadlines && r.value[id] == db.deadlines[id]
  {
    if !exists k :: k in db.memberships && k.1 == caller.userId then
      Err(NotFound, "User not part of any organization")
    else
      var orgIds := set k | k in db.memberships && k.1 == caller.userId :: k.0;
      if exists id :: id in db.deadlines && db.deadlines[id].organizationId in orgIds then
        Ok(map id | id in db.deadlines && db.deadlines[id].organizationId in orgIds :: db.deadlines[id])
      else Err(NotFound, "User has no deadlines in their organization")
  }

  /** `GET /deadlines/`. */
  function ReadDeadlines(db: Db): (r: Result<map<int, Deadline>>)
    reads db
    ensures r.Err? <==> db.deadlines == map[]
    ensures r.Err? ==> r == Err(NotFound, "No deadlines found")
    ensures r.Ok? ==> r.value == db.deadlines
  {
    if db.deadlines == map[] then Err(NotFound, "No deadlines found") else Ok(db.deadlines)
  }

  /** `GET /deadlines/{deadline_id}`. */
  function ReadDeadline(db: Db, deadlineId: int): (r: Result<Deadline>)
    reads db
    ensures r.Ok? <==> deadlineId in db.deadlines
    ensures r.Ok? ==> r.value == db.deadlines[deadlineId]
    ensures r.Err? ==> r == Err(NotFound, "Deadline not found")
  {
    if deadlineId in db.deadlines then Ok(db.deadlines[deadlineId]) else Err(NotFound, "Deadline not found")
  }

  /** `POST /deadlines/`: records the request's fields with the caller as
      creator; there is no membership or organization check. The handler
      replies with the whole new row; the model returns its id, from which
      the row is `db.deadlines[id]`. */
  method CreateDeadline(db: Db, caller: Identity, eventType: EventType, name: string,
                        description: Option<string>, date: int, organizationId: int)
    returns (r: Result<int>)
    requires db.Valid()
    modifies db`deadlines, db`nextDeadlineId
    ensures db.Valid()
    ensures r.Ok?
    ensures r.value !in old(db.deadlines)
    ensures db.deadlines == old(db.deadlines)[r.value :=
              Deadline(eventType, name, description, date, organizationId, caller.userId)]
  {
    var id := db.nextDeadlineId;
    db.deadlines := db.deadlines[id := Deadline(eventType, name, description, date, organizationId, caller.userId)];
    db.nextDeadlineId := id + 1;
    r := Ok(id);
  }

  /** `PUT /deadlines/{deadline_id}`: a missing deadline is a 404; otherwise
      type, name, description and date are overwritten, while the
      organization and creator stay. */
  method UpdateDeadline(db: Db, deadlineId: int, eventType: EventType, name: string,
                        description: Option<string>, date: int)
    returns (r: Result<Deadline>)
    requires db.Valid()
    modifies db`deadlines
    ensures db.Valid()
    ensures r.Ok? <==> deadlineId in old(db.deadlines)
    ensures r.Err? ==> r == Err(NotFound, "Deadline not found") && db.deadlines == old(db.deadlines)
    ensures r.Ok? ==>
      && r.value == Deadline(eventType, name, description, date,
                             old(db.deadlines)[deadlineId].organizationId, old(db.deadlines)[deadlineId].createdBy)
      && db.deadlines == old(db.deadlines)[deadlineId := r.value]
  {
    if deadlineId !in db.deadlines {
      return Err(NotFound, "Deadline not found");
    }
    var d := db.deadlines[deadlineId].(eventType := eventType, name := name, description := description, date := date);
    db.deadlines := db.deadlines[deadlineId := d];
    r := Ok(d);
  }

  /** `DELETE /deadlines/{deadline_id}`: a missing deadline is a 404;
      otherwise exactly that deadline is removed. */
  method DeleteDeadline(db: Db, deadlineId: int) returns (r: Result<()>)
    requires db.Valid()
    modifies db`deadlines
    ensures db.Valid()
    ensures r.Ok? <==> deadlineId in old(db.deadlines)
    ensures r.Err? ==> r == Err(NotFound, "Deadline not found") && db.deadlines == old(db.deadlines)
    ensures r.Ok? ==> db.deadlines == old(db.deadlines) - {deadlineId}
  {
    if deadlineId !in db.deadlines {
      return Err(NotFound, "Deadline not found");
    }
    db.deadlines := db.deadlines - {deadlineId};
    r := Ok(());
  }
}
