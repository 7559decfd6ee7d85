/** Request sequences the repository's tests drive, stated as client methods
    whose postconditions follow from the endpoints' contracts alone. */
module Scenarios {
  import opened Responses
  import opened Models
  import opened Database
  import opened Organizations
  import opened OrganizationUsers
  import opened OrganizationInvitations
  import opened Notifications
  import opened Users

  /** An owner creates an organization and invites another registered user
      by email; the invitation shows among the owner's sent ones; the
      invitee declines it. */
  method InviteThenDecline(db: Db, owner: Identity, invitee: Identity, name: string)
    returns (organizationId: int, invitationId: int)
    requires db.Valid()
    requires !NameInUse(db.organizations, name)
    requires forall k :: k in db.memberships ==> k.0 != db.nextOrganizationId
    requires invitee.userId in db.users && db.users[invitee.userId].email == invitee.email
    requires invitee.userId != owner.userId
    modifies db
    ensures db.Valid()
    ensures UserRole(db, organizationId, owner.userId) == Ok(OwnerRole)
    ensures invitationId in db.invitations
    ensures db.invitations[invitationId] == Invitation(organizationId, invitee.email, MemberRole, Declined, owner.userId)
    ensures (organizationId, invitee.userId) !in db.memberships
  {
    var created := CreateOrganization(db, owner, name);
    organizationId := created.value;
    assert !EmailIsMember(db.users, db.memberships, organizationId, invitee.email) by {
      forall id | id in db.users && db.users[id].email == invitee.email
        ensures (organizationId, id) !in db.memberships
      {
        assert id == invitee.userId;
      }
    }
    var invited := InviteUser(db, owner, organizationId, invitee.email, MemberRole);
    assert invited.Ok?;
    invitationId := invited.value;
    assert invitationId in db.invitations && db.invitations[invitationId].invitedBy == owner.userId;
    var sent := SentInvitations(db, owner);
    assert sent.Ok? && invitationId in sent.value;
    var mine := MyInvitations(db, invitee);
    assert mine.Ok? && invitationId in mine.value;
    var declined := DeclineInvitation(db, invitee, invitationId);
    assert declined.Ok?;
  }

  /** A member who is not an owner cannot invite: 403 and no invitation. */
  method NonOwnerCannotInvite(db: Db, member: Identity, organizationId: int, email: string)
    returns (r: Result<int>)
    requires db.Valid()
    requires (organizationId, member.userId) in db.memberships
    requires db.memberships[(organizationId, member.userId)] == MemberRole
    modifies db
    ensures db.Valid()
    ensures r == Err(Forbidden, "No permission to invite users to this organization")
    ensures db.invitations == old(db.invitations)
  {
    r := InviteUser(db, member, organizationId, email, MemberRole);
  }

  /** The creator of an organization removes themselves (there is no
      self-removal guard): they no longer have a role there and have been
      sent exactly one unread notification. */
  method CreatorRemovesSelf(db: Db, owner: Identity, name: string) returns (notificationId: int)
    requires db.Valid()
    requires !NameInUse(db.organizations, name)
    requires forall k :: k in db.memberships ==> k.0 != db.nextOrganizationId
    modifies db
    ensures db.Valid()
    ensures UserRole(db, old(db.nextOrganizationId), owner.userId).Err?
    ensures notificationId !in old(db.notifications)
    ensures db.notifications == old(db.notifications)[notificationId :=
              Notification(owner.userId, RemovalMessage(name), Unread)]
  {
    var created := CreateOrganization(db, owner, name);
    var org := created.value;
    notificationId := db.nextNotificationId;
    var removed := RemoveUserFromOrganization(db, owner, org, owner.userId);
    assert removed.Ok?;
  }

  /** Marking one of the caller's notifications read twice leaves the same
      state as marking it once, and the second call succeeds too. */
  method MarkReadTwice(db: Db, caller: Identity, notificationId: int) returns (second: Result<Notification>)
    requires db.Valid()
    requires notificationId in db.notifications && db.notifications[notificationId].userId == caller.userId
    modifies db
    ensures db.Valid()
    ensures second.Ok? && second.value.status == Read
    ensures db.notifications == old(db.notifications)[notificationId :=
              old(db.notifications)[notificationId].(status := Read)]
  {
    var first := MarkNotificationAsRead(db, caller, notificationId);
    second := MarkNotificationAsRead(db, caller, notificationId);
  }

  /** There is no duplicate-invitation check: an owner who invites the same
      registered non-member twice gets two distinct pending invitations. */
  method InviteTwice(db: Db, owner: Identity, organizationId: int, email: string, role: Role)
    returns (first: int, second: int)
    requires db.Valid()
    requires IsOwner(db.memberships, organizationId, owner.userId)
    requires EmailRegistered(db.users, email)
    requires !EmailIsMember(db.users, db.memberships, organizationId, email)
    modifies db
    ensures db.Valid()
    ensures first != second
    ensures db.invitations == old(db.invitations)
              [first := Invitation(organizationId, email, role, Pending, owner.userId)]
              [second := Invitation(organizationId, email, role, Pending, owner.userId)]
  {
    var r1 := InviteUser(db, owner, organizationId, email, role);
    first := r1.value;
    var r2 := InviteUser(db, owner, organizationId, email, role);
    second := r2.value;
  }

  /** After deleting all of their notifications the caller's list is a 404,
      while every other user's notifications are still listed unchanged. */
  method ClearMyNotifications(db: Db, caller: Identity, other: Identity) returns (r: Result<()>)
    requires db.Valid()
    requires other.userId != caller.userId
    modifies db
    ensures db.Valid()
    ensures MyNotifications(db, caller) == Err(NotFound, "No notifications found for this user")
    ensures MyNotifications(db, other) == old(MyNotifications(db, other))
  {
    ghost var before := db.notifications;
    r := DeleteAllMyNotifications(db, caller);
    assert forall id :: id in before && before[id].userId == other.userId ==>
      id in db.notifications && db.notifications[id] == before[id];
    assert forall id :: id in db.notifications ==> id in before && db.notifications[id] == before[id];
    assert (map id | id in db.notifications && db.notifications[id].userId == other.userId :: db.notifications[id])
        == (map id | id in before && before[id].userId == other.userId :: before[id]);
  }

  /** Deleting an organization that no invitation points at leaves it
      without members and without a readable row, and a user deleting their
      account leaves no invitation sent by them and no membership. */
  method DeleteOrganizationThenUser(db: Db, organizationId: int, caller: Identity)
    requires db.Valid()
    requires organizationId in db.organizations && caller.userId in db.users
    requires !OrganizationHasInvitations(db.invitations, organizationId)
    modifies db
    ensures db.Valid()
    ensures ReadOrganization(db, organizationId) == Err(NotFound, "Organization not found")
    ensures ReadOrganizationUser(db, organizationId) == Err(NotFound, "No users found in the organization")
    ensures caller.userId !in db.users
    ensures SentInvitations(db, caller) == Err(NotFound, "No sent invitations found")
    ensures CurrentUserOrganizations(db, caller) == Err(NotFound, "User is not part of any organization")
  {
    var deleted := DeleteOrganization(db, organizationId);
    var gone := DeleteUser(db, caller, caller.userId);
  }
}
