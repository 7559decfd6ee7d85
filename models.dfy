/** The rows of the relational tables the routers read and write. Each
    table's primary key is the key of the map that holds it in `Database.Db`,
    so a row here carries only its other columns. */
module Models {
  import opened Responses
  import opened RankService

  /** Role of a membership (`UserRoleEnum`); `MemberRole` is the source's `user`. */
  datatype Role = OwnerRole | MemberRole

  /** Lifecycle of an invitation; a new one is `Pending`. */
  datatype InvitationStatus = Pending | Accepted | Declined

  /** A new notification is `Unread`. */
  datatype NotificationStatus = Unread | Read

  /** Kind of a deadline (`EventTypeEnum`: exam, assignment). */
  datatype EventType = Exam | Assignment

  /** A stored password credential. Hashing is abstract: the digest of a
      password is the only credential that password verifies against. */
  datatype Credential = Digest(secret: string)

  function Hash(password: string): Credential {
    Digest(password)
  }

  predicate Verify(password: string, hash: Credential) {
    hash == Digest(password)
  }

  lemma VerifyHash(p: string, q: string)
    ensures Verify(p, Hash(q)) <==> p == q
  {
  }

  datatype User = User(
    username: string,
    email: string,
    firstName: string,
    lastName: string,
    passwordHash: Credential,
    score: int,
    rank: Rank)

  datatype Organization = Organization(name: string)

  datatype Invitation = Invitation(
    organizationId: int,
    email: string,
    role: Role,
    status: InvitationStatus,
    invitedBy: int)

  datatype Notification = Notification(userId: int, message: string, status: NotificationStatus)

  datatype Channel = Channel(name: string, organizationId: int)

  datatype Topic = Topic(name: string, channelId: int, organizationId: int)

  /** `date` stands for the event's timestamp. */
  datatype Deadline = Deadline(
    eventType: EventType,
    name: string,
    description: Option<string>,
    date: int,
    organizationId: int,
    createdBy: int)
}
