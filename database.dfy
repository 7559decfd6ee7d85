/** The store every router works on: one table per map, keyed by primary
    key. Memberships are keyed by the composite key
    `(organization_id, user_id)`, so at most one row exists per pair. */
module Database {
  import opened RankService
  import opened Models

  /** The membership table. */
  type Memberships = map<(int, int), Role>

  /** The owner guard: `uid` holds an `owner` membership in `org`. */
  predicate IsOwner(ms: Memberships, org: int, uid: int) {
    (org, uid) in ms && ms[(org, uid)] == OwnerRole
  }

  /** Some user other than `id` already has this username. */
  predicate UsernameTaken(users: map<int, User>, id: int, name: string) {
    exists other :: other in users && other != id && users[other].username == name
  }

  /** Some user other than `id` already has this email. */
  predicate EmailTaken(users: map<int, User>, id: int, email: string) {
    exists other :: other in users && other != id && users[other].email == email
  }

  /** Some organization other than `id` already has this name. */
  predicate OrganizationNameTaken(orgs: map<int, Organization>, id: int, name: string) {
    exists other :: other in orgs && other != id && orgs[other].name == name
  }

  /** The invariants the store keeps: every cached rank agrees with its
      score, and the unique columns (username, email, organization name)
      hold no duplicates. */
  ghost predicate ValidUsers(users: map<int, User>) {
    && (forall id :: id in users ==> users[id].rank == RankForScore(users[id].score))
    && (forall a, b :: a in users && b in users && a != b ==>
          users[a].username != users[b].username && users[a].email != users[b].email)
  }

  ghost predicate ValidOrganizations(orgs: map<int, Organization>) {
    forall a, b :: a in orgs && b in orgs && a != b ==> orgs[a].name != orgs[b].name
  }

  /** Every key of `m` lies below `next`, so `next` is a fresh key. */
  ghost predicate KeysBelow<T>(m: map<int, T>, next: int) {
    forall id :: id in m ==> id < next
  }

  class Db {
    var users: map<int, User>
    var organizations: map<int, Organization>
    var memberships: Memberships
    var invitations: map<int, Invitation>
    var notifications: map<int, Notification>
    var channels: map<int, Channel>
    var topics: map<int, Topic>
    var deadlines: map<int, Deadline>

    // Next primary key of each table whose rows the routers insert.
    var nextOrganizationId: int
    var nextInvitationId: int
    var nextNotificationId: int
    var nextChannelId: int
    var nextTopicId: int
    var nextDeadlineId: int

    ghost predicate Valid()
      reads this
    {
      && ValidUsers(users)
      && ValidOrganizations(organizations)
      && KeysBelow(organizations, nextOrganizationId)
      && KeysBelow(invitations, nextInvitationId)
      && KeysBelow(notifications, nextNotificationId)
      && KeysBelow(channels, nextChannelId)
      && KeysBelow(topics, nextTopicId)
      && KeysBelow(deadlines, nextDeadlineId)
    }

    /** A store holding the registered users and nothing else. */
    constructor (registered: map<int, User>)
      requires ValidUsers(registered)
      ensures Valid()
      ensures users == registered
      ensures organizations == map[] && memberships == map[] && invitations == map[]
      ensures notifications == map[] && channels == map[] && topics == map[] && deadlines == map[]
    {
      users := registered;
      organizations, memberships, invitations := map[], map[], map[];
      notifications, channels, topics, deadlines := map[], map[], map[], map[];
      nextOrganizationId, nextInvitationId, nextNotificationId := 1, 1, 1;
      nextChannelId, nextTopicId, nextDeadlineId := 1, 1, 1;
    }
  }
}
