/** The invitation endpoints: an owner invites a registered, not-yet-member
    email; the invitee declines; callers list the invitations addressed to
    them and those they sent. */
module OrganizationInvitations {
  import opened Responses
  import opened Models
  import opened Database

  /** Some registered user has this email. */
  predicate EmailRegistered(users: map<int, User>, email: string) {
    exists id :: id in users && users[id].email == email
  }

  /** The registered user with this email is already a member of `org`. */
  predicate EmailIsMember(users: map<int, User>, ms: Memberships, org: int, email: string) {
    exists id :: id in users && users[id].email == email && (org, id) in ms
  }

  /** `POST /organization-invitations/`. The errors come in the order 403
      (caller is not an owner), 404 (no user has the email), 400 (that user
      is already a member). Success adds one pending invitation under a fresh
      id; memberships are untouched, and the same email may be invited again.
      The handler replies with a fixed message; the model returns the new
      invitation's id instead so that callers can refer to the new row. */
  method InviteUser(db: Db, caller: Identity, organizationId: int, email: string, role: Role)
    returns (r: Result<int>)
    requires db.Valid()
    modifies db`invitations, db`nextInvitationId
    ensures db.Valid()
    ensures !IsOwner(db.memberships, organizationId, caller.userId) ==>
      r == Err(Forbidden, "No permission to invite users to this organization")
    ensures IsOwner(db.memberships, organizationId, caller.userId) && !EmailRegistered(db.users, email) ==>
      r == Err(NotFound, "User with this email does not exist")
    ensures IsOwner(db.memberships, organizationId, caller.userId) && EmailIsMember(db.users, db.memberships, organizationId, email) ==>
      r == Err(BadRequest, "User is already a member of this organization")
    ensures r.Err? ==> db.invitations == old(db.invitations) && db.nextInvitationId == old(db.nextInvitationId)
    ensures r.Ok? <==> IsOwner(db.memberships, organizationId, caller.userId) && EmailRegistered(db.users, email)
                       && !EmailIsMember(db.users, db.memberships, organizationId, email)
    ensures r.Ok? ==>
      && r.value !in old(db.invitations)
      && db.invitations == old(db.invitations)[r.value := Invitation(organizationId, email, role, Pending, caller.userId)]
  {
    if !IsOwner(db.memberships, organizationId, caller.userId) {
      return Err(Forbidden, "No permission to invite users to this organization");
    }
    if !EmailRegistered(db.users, email) {
      return Err(NotFound, "User with this email does not exist");
    }
    var invited :| invited in db.users && db.users[invited].email == email;
    if (organizationId, invited) in db.memberships {
      return Err(BadRequest, "User is already a member of this organization");
    }
    var id := db.nextInvitationId;
    db.invitations := db.invitations[id := Invitation(organizationId, email, role, Pending, caller.userId)];
    db.nextInvitationId := id + 1;
    r := Ok(id);
  }

  /** The invitation `invitationId` exists and is addressed to the caller. */
  predicate AddressedTo(invitations: map<int, Invitation>, invitationId: int, caller: Identity) {
    invitationId in invitations && invitations[invitationId].email == caller.email
  }

  /** `POST /organization-invitations/{invitation_id}/decline`: only an
      invitation addressed to the caller's email is found (else 404); its
      status becomes `Declined` whatever it was, and nothing else changes. */
  method DeclineInvitation(db: Db, caller: Identity, invitationId: int) returns (r: Result<()>)
    requires db.Valid()
    modifies db`invitations
    ensures db.Valid()
    ensures r.Ok? <==> AddressedTo(old(db.invitations), invitationId, caller)
    ensures r.Err? ==> r == Err(NotFound, "Invitation not found") && db.invitations == old(db.invitations)
    ensures r.Ok? ==>
      db.invitations == old(db.invitations)[invitationId := old(db.invitations)[invitationId].(status := Declined)]
  {
    if !AddressedTo(db.invitations, invitationId, caller) {
      return Err(NotFound, "Invitation not found");
    }
    db.invitations := db.invitations[invitationId := db.invitations[invitationId].(status := Declined)];
    r := Ok(());
  }

  /** `GET /organization-invitations/my`: exactly the invitations addressed
      to the caller's email; none is a 404. */
  function MyInvitations(db: Db, caller: Identity): (r: Result<map<int, Invitation>>)
    reads db
    ensures r.Err? <==> forall id :: id in db.invitations ==> db.invitations[id].email != caller.email
    ensures r.Err? ==> r == Err(NotFound, "No invitations found")
    ensures r.Ok? ==> forall id :: id in r.value <==> id in db.invitations && db.invitations[id].email == caller.email
    ensures r.Ok? ==> forall id :: id in r.value ==> r.value[id] == db.invitations[id]
  {
    if exists id :: id in db.invitations && db.invitations[id].email == caller.email then
      Ok(map id | id in db.invitations && db.invitations[id].email == caller.email :: db.invitations[id])
    else Err(NotFound, "No invitations found")
  }

  /** `GET /organization-invitations/sent`: exactly the invitations the
      caller sent; none is a 404. */
  function SentInvitations(db: Db, caller: Identity): (r: Result<map<int, Invitation>>)
    reads db
    ensures r.Err? <==> forall id :: id in db.invitations ==> db.invitations[id].invitedBy != caller.userId
    ensures r.Err? ==> r == Err(NotFound, "No sent invitations found")
    ensures r.Ok? ==> forall id :: id in r.value <==> id in db.invitations && db.invitations[id].invitedBy == caller.userId
    ensures r.Ok? ==> forall id :: id in r.value ==> r.value[id] == db.invitations[id]
  {
    if exists id :: id in db.invitations && db.invitations[id].invitedBy == caller.userId then
      Ok(map id | id in db.invitations && db.invitations[id].invitedBy == caller.userId :: db.invitations[id])
    else Err(NotFound, "No sent invitations found")
  }
}
