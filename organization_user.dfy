/** The membership endpoints: the owner-gated direct add and removal (the
    removal notifies the removed user), the ungated role update, and the
    plain create, delete and read endpoints of the membership table. */
module OrganizationUsers {
  import opened Responses
  import opened Models
  import opened Database

  /** The message the removed user receives. */
  function RemovalMessage(organizationName: string): string {
    "You have been removed from organization " + organizationName + "."
  }

  /** `/organization_users/me`: exactly the caller's memberships; none is a 404. */
  function CurrentUserOrganizations(db: Db, caller: Identity): (r: Result<Memberships>)
    reads db
    ensures r.Err? <==> forall k :: k in db.memberships ==> k.1 != caller.userId
    ensures r.Err? ==> r == Err(NotFound, "User is not part of any organization")
    ensures r.Ok? ==> forall k :: k in r.value <==> k in db.memberships && k.1 == caller.userId
    ensures r.Ok? ==> forall k :: k in r.value ==> r.value[k] == db.memberships[k]
  {
    if exists k :: k in db.memberships && k.1 == caller.userId then
      Ok(map k | k in db.memberships && k.1 == caller.userId :: db.memberships[k])
    else Err(NotFound, "User is not part of any organization")
  }

  /** `GET /organization_users/{organization_id}/{user_id}/role`. */
  function UserRole(db: Db, organizationId: int, userId: int): (r: Result<Role>)
    reads db
    ensures r.Ok? <==> (organizationId, userId) in db.memberships
    ensures r.Ok? ==> r.value == db.memberships[(organizationId, userId)]
    ensures r.Err? ==> r == Err(NotFound, "User not found in the organization")
  {
    if (organizationId, userId) in db.memberships then Ok(db.memberships[(organizationId, userId)])
    else Err(NotFound, "User not found in the organization")
  }

  /** `POST /organization_users/invite`: an owner of the organization adds a
      user directly. The owner check comes first (403), then the duplicate
      check (400); whether the invited user exists is NOT checked. The form
      field `role` defaults to `user`; the caller passes it explicitly here. */
  method InviteUserToOrganization(db: Db, caller: Identity, organizationId: int, invitedUserId: int, role: Role)
    returns (r: Result<()>)
    requires db.Valid()
    modifies db`memberships
    ensures db.Valid()
    ensures !IsOwner(old(db.memberships), organizationId, caller.userId) ==>
      r == Err(Forbidden, "No permission to invite users to this organization") && db.memberships == old(db.memberships)
    ensures IsOwner(old(db.memberships), organizationId, caller.userId) && (organizationId, invitedUserId) in old(db.memberships) ==>
      r == Err(BadRequest, "User already exists in the organization") && db.memberships == old(db.memberships)
    ensures r.Ok? <==> IsOwner(old(db.memberships), organizationId, caller.userId) && (organizationId, invitedUserId) !in old(db.memberships)
    ensures r.Ok? ==> db.memberships == old(db.memberships)[(organizationId, invitedUserId) := role]
  {
    if !IsOwner(db.memberships, organizationId, caller.userId) {
      return Err(Forbidden, "No permission to invite users to this organization");
    }
    if (organizationId, invitedUserId) in db.memberships {
      return Err(BadRequest, "User already exists in the organization");
    }
    db.memberships := db.memberships[(organizationId, invitedUserId) := role];
    r := Ok(());
  }

  /** `DELETE /organization_users/RemoveUserFromOrganization`. Checks, in
      order: the caller is an owner (403), the organization exists (404), the
      target is a member (404). Success deletes exactly that membership and
      adds one unread notification for the removed user. There is no
      last-owner or self-removal guard. */
  method RemoveUserFromOrganization(db: Db, caller: Identity, organizationId: int, userId: int)
    returns (r: Result<()>)
    requires db.Valid()
    modifies db`memberships, db`notifications, db`nextNotificationId
    ensures db.Valid()
    ensures !IsOwner(old(db.memberships), organizationId, caller.userId) ==>
      r == Err(Forbidden, "No permission to remove users from this organization")
    ensures IsOwner(old(db.memberships), organizationId, caller.userId) && organizationId !in db.organizations ==>
      r == Err(NotFound, "Organization not found")
    ensures IsOwner(old(db.memberships), organizationId, caller.userId) && organizationId in db.organizations
            && (organizationId, userId) !in old(db.memberships) ==>
      r == Err(NotFound, "User not found in the organization")
    ensures r.Err? ==>
      && db.memberships == old(db.memberships) && db.notifications == old(db.notifications)
      && db.nextNotificationId == old(db.nextNotificationId)
    ensures r.Ok? <==> IsOwner(old(db.memberships), organizationId, caller.userId) && organizationId in db.organizations
                       && (organizationId, userId) in old(db.memberships)
    ensures r.Ok? ==>
      && db.memberships == old(db.memberships) - {(organizationId, userId)}
      && old(db.nextNotificationId) !in old(db.notifications)
      && db.notifications == old(db.notifications)[old(db.nextNotificationId) :=
           Notification(userId, RemovalMessage(db.organizations[organizationId].name), Unread)]
  {
    if !IsOwner(db.memberships, organizationId, caller.userId) {
      return Err(Forbidden, "No permission to remove users from this organization");
    }
    if organizationId !in db.organizations {
      return Err(NotFound, "Organization not found");
    }
    if (organizationId, userId) !in db.memberships {
      return Err(NotFound, "User not found in the organization");
    }
    db.memberships := db.memberships - {(organizationId, userId)};
    var id := db.nextNotificationId;
    db.notifications := db.notifications[id := Notification(userId, RemovalMessage(db.organizations[organizationId].name), Unread)];
    db.nextNotificationId := id + 1;
    r := Ok(());
  }

  /** `PUT /organization_users/{organization_id}/{user_id}/role`: no caller
      check; a missing pair is a 404, otherwise only that pair's role changes.
      As in the invite endpoint, `role` defaults to `user` in the request form. */
  method UpdateUserRole(db: Db, organizationId: int, userId: int, role: Role) returns (r: Result<()>)
    requires db.Valid()
    modifies db`memberships
    ensures db.Valid()
    ensures r.Ok? <==> (organizationId, userId) in old(db.memberships)
    ensures r.Err? ==> r == Err(NotFound, "User not found in the organization") && db.memberships == old(db.memberships)
    ensures r.Ok? ==> db.memberships == old(db.memberships)[(organizationId, userId) := role]
  {
    if (organizationId, userId) !in db.memberships {
      return Err(NotFound, "User not found in the organization");
    }
    db.memberships := db.memberships[(organizationId, userId) := role];
    r := Ok(());
  }

  /** `GET /organization_users/`: the whole table; an empty one is a 404. */
  function ReadOrganizationUsers(db: Db): (r: Result<Memberships>)
    reads db
    ensures r.Err? <==> db.memberships == map[]
    ensures r.Err? ==> r == Err(NotFound, "No users found in the organization")
    ensures r.Ok? ==> r.value == db.memberships
  {
    if db.memberships == map[] then Err(NotFound, "No users found in the organization")
    else Ok(db.memberships)
  }

  /** `GET /organization_users/{organization_id}`: exactly the memberships of
      one organization; none is a 404. */
  function ReadOrganizationUser(db: Db, organizationId: int): (r: Result<Memberships>)
    reads db
    ensures r.Err? <==> forall k :: k in db.memberships ==> k.0 != organizationId
    ensures r.Err? ==> r == Err(NotFound, "No users found in the organization")
    ensures r.Ok? ==> forall k :: k in r.value <==> k in db.memberships && k.0 == organizationId
    ensures r.Ok? ==> forall k :: k in r.value ==> r.value[k] == db.memberships[k]
  {
    if exists k :: k in db.memberships && k.0 == organizationId then
      Ok(map k | k in db.memberships && k.0 == organizationId :: db.memberships[k])
    else Err(NotFound, "No users found in the organization")
  }

  /** `POST /organization_users/`: unlike the invite endpoint, a missing user
      is a 404 and is checked before the duplicate (400); there is no caller
      check. `role` defaults to `user` in the request form. */
  method CreateOrganizationUser(db: Db, organizationId: int, userId: int, role: Role) returns (r: Result<()>)
    requires db.Valid()
    modifies db`memberships
    ensures db.Valid()
    ensures userId !in db.users ==> r == Err(NotFound, "User does not exist")
    ensures userId in db.users && (organizationId, userId) in old(db.memberships) ==>
      r == Err(BadRequest, "User already exists in the organization")
    ensures r.Err? ==> db.memberships == old(db.memberships)
    ensures r.Ok? <==> userId in db.users && (organizationId, userId) !in old(db.memberships)
    ensures r.Ok? ==> db.memberships == old(db.memberships)[(organizationId, userId) := role]
  {
    if userId !in db.users {
      return Err(NotFound, "User does not exist");
    }
    if (organizationId, userId) in db.memberships {
      return Err(BadRequest, "User already exists in the organization");
    }
    db.memberships := db.memberships[(organizationId, userId) := role];
    r := Ok(());
  }

  /** `DELETE /organization_users/{organization_id}/{user_id}`: removes the
      pair without any notification, or is a 404. */
  method DeleteOrganizationUser(db: Db, organizationId: int, userId: int) returns (r: Result<()>)
    requires db.Valid()
    modifies db`memberships
    ensures db.Valid()
    ensures r.Ok? <==> (organizationId, userId) in old(db.memberships)
    ensures r.Err? ==> r == Err(NotFound, "User not found in the organization") && db.memberships == old(db.memberships)
    ensures r.Ok? ==> db.memberships == old(db.memberships) - {(organizationId, userId)}
  {
    if (organizationId, userId) !in db.memberships {
      return Err(NotFound, "User not found in the organization");
    }
    db.memberships := db.memberships - {(organizationId, userId)};
    r := Ok(());
  }
}
