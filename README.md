# EduNotes API: organization bookkeeping and ranking, in Dafny

This project models the request handlers of the EduNotes API, a FastAPI
backend in which organizations hold members, invitations, channels, topics
and deadlines, and users carry a score from which a five-tier rank is
derived. Each handler is a short transaction. It reads the relational
store, checks its preconditions in a fixed order, then inserts, deletes or
assigns fields. It answers either with a value or with an HTTP status code
and a detail message.

The model has these parts:

- `Database.Db` is the store. It is a class with one `map` field per table
  (users, organizations, memberships keyed by `(organization_id, user_id)`,
  invitations, notifications, channels, topics, deadlines) and one id
  counter per table that has a generated key. `Db.Valid()` is the invariant
  every handler keeps:
  - every user's rank equals the rank of their score;
  - usernames, emails and organization names are unique;
  - every counter lies above the keys of its table.
- Each router file becomes one module of methods that take the store
  `db: Db`, as the handlers take the `db_dependency` session. A method's
  `modifies` clause names the exact tables it may write, so every contract
  also says that nothing else changes. Read-only handlers are functions
  that `reads db`. The exception is the leaderboard,
  `Ranking.AllUsersScore`: it is a method with no `modifies` clause,
  because it builds its sorted list in a loop.
- The authenticated caller is the plain input `Identity(userId, username, email)`.
- Every handler returns `Result<T>`: `Ok(value)` or `Err(code, detail)`,
  with the detail strings of the source.
- `RankService` is the rank threshold table and the scan over it.
- `Scenarios` chains several handlers into client sequences. Each sequence's
  outcome follows from the handlers' contracts alone. The sequences are:
  - create an organization, invite, list, decline;
  - an owner removes themselves;
  - mark a notification read twice;
  - invite twice;
  - clear the caller's notifications;
  - delete an organization, then a user.

What the contracts state:

- The full error precedence of each handler, with its exact code and
  detail.
- The success condition as an if-and-only-if, and the new content of every
  table the handler writes.
- Filters return exactly the matching rows, characterised in both
  directions.
- The leaderboard is sorted by descending score and lists every user
  exactly once.
- The rank function picks the tier of the greatest threshold the score
  reaches. It is monotone, and its five tiers have the stated bounds.
- The score never moves except through the increase and decrease handlers.
  n increases move it by exactly n, and a decrease undoes an increase.

Some commits fail on a constraint that the code does not check first.
These are modelled as the failure they cause at commit, an `Err(500,
"Internal Server Error")` that changes nothing:

- the unique organization name in `update_organization`;
- the unique username and email in `update_user`;
- the membership primary key in `create_organization`;
- `delete_channel` while topics still belong to the channel. The
  `Channel.topics` relationship (models/channel.py:16) has no delete
  cascade, so the ORM sets the topics' non-nullable `channel_id`
  (models/topic.py:11) to null;
- `delete_organization` while invitations still point at the organization.
  This follows from `Organization.invitations` (models/organization.py:12)
  and the non-nullable `organization_id` (models/organization_invitations.py:20).

`delete_user` also removes the user's memberships. The `delete-orphan`
cascade of `User.organizations` (models/user.py:23) does that.

The tests run on SQLite, which does not enforce foreign keys by default. So
beyond the ORM behaviour above, the model enforces no foreign key and applies
no `ON DELETE CASCADE`.

The code differs from the behaviour one might expect of such a system in
three places. The model follows the code:

- An invitation can be declined whatever its status, including one already
  declined or accepted, so `DeclineInvitation` does not check the status.
- `delete_user` removes the user's sent invitations, memberships and row,
  but not the user's notifications or deadlines.
- No handler accepts an invitation, so acceptance is not modelled.

## Model

| member | source | states |
|---|---|---|
| RankService.ScanDown | services/rank_service.py:12-15 | the reversed scan over a prefix of the table returns the tier of some entry whose threshold the score reaches, or `incompetent` when it reaches none |
| RankService.RankForScore | services/rank_service.py:3-15 | `get_rank_for_score` over `RANK_THRESHOLD`: the tier of some reached threshold, or `incompetent` for a score below every threshold (a negative one); the lemmas below pin down which tier |
| RankService.ScanDownFindsLastReached | services/rank_service.py:12-14 | scanning the table from the end returns the tier of the last entry whose threshold the score reaches |
| RankService.ScanDownNoneReached | services/rank_service.py:12-15 | when no threshold is reached the scan falls through to `incompetent` |
| RankService.RankIsGreatestReachedThreshold | services/rank_service.py:3-15 | a negative score is `incompetent`; otherwise the rank is the tier of the greatest threshold at most the score, so every integer gets exactly one rank |
| RankService.RankTiers | services/rank_service.py:3-15 | master iff score >= 40, expert iff 30..39, specialist iff 20..29, beginner iff 10..19, incompetent iff score < 10 (negatives included) |
| RankService.RankMonotone | services/rank_service.py:3-12 | a higher score never gets a lower tier |
| Models.Hash | routers/users.py:27 | abstract stand-in for bcrypt hashing: the credential made from a password, taken as an ideal one-to-one digest; it has no contract of its own, and `Models.VerifyHash` states its property |
| Models.Verify | routers/users.py:25 | abstract stand-in for bcrypt's check: under the ideal digest a password verifies against exactly its own credential, as `Models.VerifyHash` states; no contract of its own |
| Models.VerifyHash | routers/users.py:25-27 | under the ideal digest, the abstract password check accepts exactly the password the credential was made from (bcrypt's 72-byte cut is not modelled) |
| Database.Db.constructor | models/user.py:11-15 | a store holding registered users with unique usernames and emails and nothing else satisfies the store invariant |
| Ranking.AdjustScore | routers/ranking.py:40-41 | the row after `score += delta; rank = get_rank_for_score(score)`; a plain definition whose properties are the contract of `Ranking.AdjustScoreKeepsRankInSync` |
| Ranking.Increased | routers/ranking.py:35-45 | the row after n successive `increase_score` calls; a plain definition related to one adjustment by n in `Ranking.IncreasedMovesByN` |
| Ranking.AdjustScoreKeepsRankInSync | routers/ranking.py:40-41 | adjusting a score by a delta moves it by exactly that delta, resets the rank to the rank of the new score and changes no other field |
| Ranking.IncreasedMovesByN | routers/ranking.py:35-45 | with no guard against repetition, n successive increases equal one adjustment by n |
| Ranking.DecreaseUndoesIncrease | routers/ranking.py:35-57 | `decrease_score` (-1) after `increase_score` (+1) restores the user row, rank included |
| Ranking.MyScore | routers/ranking.py:12-19 | the caller's username, score and rank, or 404 "User not found" exactly when the caller has no row |
| Ranking.UserScore | routers/ranking.py:28-33 | the user's username and score, or 404 "User not found" exactly when the id is absent |
| Ranking.InsertByScoreContents | routers/ranking.py:23 | inserting an entry into the leaderboard adds exactly that entry (multiset) |
| Ranking.InsertByScoreSorted | routers/ranking.py:23 | inserting into a list sorted by descending score keeps it sorted |
| Ranking.InsertKeepsListExact | routers/ranking.py:23 | inserting a user's entry extends a list holding exactly the users seen so far by exactly that user |
| Ranking.AllUsersScore | routers/ranking.py:21-26 | 404 "No users found" iff there are no users; otherwise a list sorted by descending score with one entry per user, each entry matching that user's row |
| Ranking.IncreaseScore | routers/ranking.py:35-45 | unknown id: 404 and no change; otherwise only that user's row changes, score + 1 and rank recomputed, and the reply carries the new score and rank |
| Ranking.DecreaseScore | routers/ranking.py:47-57 | unknown id: 404 and no change; otherwise only that user's row changes, score - 1 (it may go negative) and rank recomputed |
| OrganizationUsers.CurrentUserOrganizations | routers/organization_user.py:18-30 | exactly the caller's memberships, or 404 iff there are none |
| OrganizationUsers.UserRole | routers/organization_user.py:32-41 | the stored role of the pair, or 404 iff the pair is absent |
| OrganizationUsers.InviteUserToOrganization | routers/organization_user.py:44-82 | a non-owner caller gets 403 before the duplicate check (400); success iff the caller is an owner and the pair is new, adding exactly that pair; the invited user's existence is not checked |
| OrganizationUsers.RemoveUserFromOrganization | routers/organization_user.py:84-120 | 403, then 404 for the organization, then 404 for the member, each with no change; success deletes exactly that pair and adds exactly one unread notification naming the organization for the removed user; no self- or last-owner guard |
| OrganizationUsers.UpdateUserRole | routers/organization_user.py:122-146 | no caller check; 404 iff the pair is absent, otherwise only that pair's role changes |
| OrganizationUsers.ReadOrganizationUsers | routers/organization_user.py:150-159 | the whole membership table, 404 iff empty |
| OrganizationUsers.ReadOrganizationUser | routers/organization_user.py:161-170 | exactly the memberships of the organization, 404 iff none |
| OrganizationUsers.CreateOrganizationUser | routers/organization_user.py:172-200 | 404 "User does not exist" before 400 for a duplicate pair; success iff the user exists and the pair is new, adding exactly that pair |
| OrganizationUsers.DeleteOrganizationUser | routers/organization_user.py:202-217 | 404 iff the pair is absent; otherwise exactly that pair is removed and no notification is sent |
| OrganizationInvitations.InviteUser | routers/organization_invitations.py:14-44 | 403, then 404 for an unregistered email, then 400 for an existing member; success iff none applies, adding one pending invitation from the caller under a fresh id; memberships untouched and no duplicate-invitation check |
| OrganizationInvitations.DeclineInvitation | routers/organization_invitations.py:46-56 | 404 unless the invitation exists and is addressed to the caller's email; otherwise its status becomes declined whatever it was, and nothing else changes |
| OrganizationInvitations.MyInvitations | routers/organization_invitations.py:58-65 | exactly the invitations addressed to the caller's email, 404 iff none |
| OrganizationInvitations.SentInvitations | routers/organization_invitations.py:67-74 | exactly the invitations the caller sent, 404 iff none |
| Notifications.MyNotifications | routers/notifications.py:13-18 | exactly the caller's notifications, 404 iff none |
| Notifications.MarkNotificationAsRead | routers/notifications.py:20-33 | 404 unless the notification is the caller's; otherwise only its status becomes read (idempotent) and every other notification is unchanged |
| Notifications.DeleteMyNotification | routers/notifications.py:35-47 | same owner scoping; removes exactly that notification |
| Notifications.DeleteAllMyNotifications | routers/notifications.py:49-58 | 404 iff the caller has none; otherwise the loop removes all of the caller's notifications and none of anyone else's |
| Notifications.ReadNotifications | routers/notifications.py:62-67 | every notification, 404 iff there are none |
| Notifications.GetNotification | routers/notifications.py:69-74 | not scoped to the caller: the notification, or 404 iff the id is absent |
| Organizations.MyOrganizations | routers/organizations.py:14-22 | exactly the organizations in which the caller has a membership, 404 iff none |
| Organizations.ReadOrganizations | routers/organizations.py:26-31 | every organization, 404 iff none |
| Organizations.ReadOrganization | routers/organizations.py:33-38 | the organization, or 404 iff absent |
| Organizations.CreateOrganization | routers/organizations.py:40-60 | a name in use gives 400 and adds nothing; otherwise the organization is added under a fresh id and the caller becomes its owner (or the membership insert fails with 500 when that pair already exists) |
| Organizations.DeleteOrganization | routers/organizations.py:62-72 | no authorization check; 404 if absent, then 500 at commit while any invitation points at it, each with no change; otherwise the organization and exactly its memberships are deleted, other memberships kept |
| Organizations.UpdateOrganization | routers/organizations.py:76-88 | no authorization check; 404 iff absent; an empty or missing name changes nothing; a name another organization holds fails at commit (500); otherwise only the name changes |
| Channels.ChannelsInOrganization | routers/channels.py:15-24 | exactly the organization's channels, 404 iff none |
| Channels.ReadChannels | routers/channels.py:29-38 | every channel, 404 iff none |
| Channels.ReadChannel | routers/channels.py:40-49 | the channel, or 404 iff absent |
| Channels.CreateChannel | routers/channels.py:51-70 | a name used by any channel gives 400 before a missing organization gives 404; success adds exactly one channel with the given name and organization |
| Channels.DeleteChannel | routers/channels.py:73-97 | 404 for a missing channel before the owner check (403), then 500 at commit while any topic belongs to the channel, each with no change; success iff the caller owns the channel's organization and no topic remains, removing exactly that channel |
| Channels.UpdateChannel | routers/channels.py:99-117 | 404 if missing; a non-empty name renames; a non-zero organization id moves the channel only if that organization exists, otherwise 404 with nothing changed |
| Topics.TopicsInChannel | routers/topics.py:14-19 | exactly the channel's topics, 404 iff none |
| Topics.ReadTopics | routers/topics.py:23-28 | every topic, 404 iff none |
| Topics.ReadTopic | routers/topics.py:30-35 | the topic, or 404 iff absent |
| Topics.CreateTopic | routers/topics.py:37-57 | 400 for a used name, then 404 for the organization, then 404 for the channel; success adds one topic without checking that the channel belongs to the organization |
| Topics.DeleteTopic | routers/topics.py:59-66 | 404 iff absent; otherwise removes exactly that topic |
| Topics.UpdatedTopic | routers/topics.py:74-79 | the topic a partial update produces; a plain definition whose properties are the contract of `Topics.UpdatedTopicFields` |
| Topics.UpdatedTopicFields | routers/topics.py:74-79 | each truthy field is overwritten and an update with no truthy field leaves the topic unchanged |
| Topics.UpdateTopic | routers/topics.py:68-84 | 404 iff absent; otherwise only that topic changes, its truthy fields overwritten without validating the channel or organization |
| Deadlines.MyDeadlines | routers/deadlines.py:15-24 | 404 "User not part of any organization" iff the caller has no membership; otherwise exactly the deadlines of the caller's organizations, with 404 iff there are none |
| Deadlines.ReadDeadlines | routers/deadlines.py:27-32 | every deadline, 404 iff none |
| Deadlines.ReadDeadline | routers/deadlines.py:34-39 | the deadline, or 404 iff absent |
| Deadlines.CreateDeadline | routers/deadlines.py:41-54 | always succeeds, adding one deadline with the request's fields and the caller as creator, with no membership check |
| Deadlines.UpdateDeadline | routers/deadlines.py:56-69 | 404 iff absent; otherwise type, name, description and date are overwritten, the organization and creator kept |
| Deadlines.DeleteDeadline | routers/deadlines.py:71-79 | 404 iff absent; otherwise exactly that deadline is removed |
| Users.ChangePassword | routers/users.py:19-33 | 404 for a missing caller row, then 400 for a wrong old password, each with no change; otherwise only the caller's hash becomes the hash of the new password |
| Users.ChangedPasswordVerifies | routers/users.py:25-28 | after a change the new password verifies and, under the ideal digest, a different old one no longer does |
| Users.ReadUsers | routers/users.py:58-67 | every user, 404 iff none |
| Users.ReadUser | routers/users.py:69-78 | the user, or 404 iff absent |
| Users.DeleteUser | routers/users.py:80-94 | the path id is ignored: 404 iff the caller has no row; otherwise every invitation the caller sent (and no other), the caller's row and, by the ORM cascade, exactly the caller's memberships are deleted |
| Users.UpdatedUser | routers/users.py:104-113 | the row a partial update produces; a plain definition whose properties are the contract of `Users.UpdatedUserKeeps` and `Users.UpdateUser` |
| Users.UpdatedUserKeeps | routers/users.py:104-113 | a partial update never touches score or rank, and an update giving no field leaves the row unchanged |
| Users.UpdateUser | routers/users.py:95-120 | 404 iff absent; a username or email another user holds fails at commit (500) with no change; otherwise only that row changes, each given field assigned and the hash set only for a non-empty password |
| Scenarios.InviteThenDecline | routers/organization_invitations.py:14-56 | after creating an organization the creator is its owner; inviting another registered user gives an invitation that ends declined, and it creates no membership |
| Scenarios.NonOwnerCannotInvite | routers/organization_invitations.py:16-22 | a plain member's invite is a 403 and adds no invitation |
| Scenarios.CreatorRemovesSelf | routers/organization_user.py:84-120 | the creator can remove themselves; they then have no role in the organization and exactly one new unread notification naming it |
| Scenarios.MarkReadTwice | routers/notifications.py:20-33 | marking the caller's notification read twice succeeds both times and leaves the state of a single mark |
| Scenarios.InviteTwice | routers/organization_invitations.py:14-44 | the same email can be invited twice, giving two distinct pending invitations |
| Scenarios.ClearMyNotifications | routers/notifications.py:49-58 | after deleting all of their notifications the caller's list is a 404 and every other user's list is unchanged |
| Scenarios.DeleteOrganizationThenUser | routers/organizations.py:62-72 | a deleted organization that no invitation points at is unreadable and has no members; a deleted user has no row, no sent invitations and no memberships |

## Left out

- Authentication: JWT decoding, bcrypt hashing and the login and register
  handlers are not modelled. The caller's identity is an input. Hashing is
  an ideal one-to-one digest for which `Verify(p, Hash(p))` holds.
- Models.Verify, Models.VerifyHash, Users.ChangedPasswordVerifies: the
  credential is an ideal one-to-one digest of the whole password. The
  per-hash salt of bcrypt is not modelled, nor its cut of a password to
  the first 72 bytes. So in the model two passwords that share their first
  72 bytes are told apart, whereas bcrypt accepts either. The `==>` half of
  `VerifyHash` and the claim that the old password stops verifying after a
  change hold only for passwords that differ within those 72 bytes.
- The notes router (image upload and file writes), the AI summary router
  (HTTP, OCR, an LLM) and `update_user_avatar` (file I/O and random names)
  are not modelled. They are I/O.
- Note like and dislike handlers are not modelled, because they are not
  in the routers. Neither is invitation acceptance, which has no handler.
- Timestamps are not modelled: `created_at`, `updated_at` and the clock.
  A deadline's date is an integer.
- Notes, note likes and AI summaries are not tables of the model. So
  `delete_user`'s ORM cascade to the user's notes is not modelled. Also
  not modelled is the commit failure that `delete_topic` would meet while
  notes or summaries still point at the topic: `Topic.notes` and
  `Topic.ai_summaries` have no delete cascade.
- Database-side `ON DELETE CASCADE` is not modelled, because SQLite (the
  tests' engine) does not enforce foreign keys by default. Deleting an
  organization therefore keeps its channels, topics and deadlines.
  `passive_deletes` stops the ORM from touching them. Deleting a user keeps
  their notifications and the deadlines they created.
- Two relationships name a `back_populates` attribute that the other class
  does not declare: `Notification.user` (models/notifications.py:20) and
  `Deadline.organization` (models/deadline.py:23). The model treats both
  as plain foreign keys with no ORM effect on delete.
- The form default `role = user` of `invite_user_to_organization`,
  `update_user_role` and `create_organization_user` is not modelled
  (routers/organization_user.py:50, 127, 177). The model's callers always
  pass the role, so a request that omits it is the call with `MemberRole`.
- Each handler runs as one atomic step. The separate commits, such as
  remove-then-notify in `remove_user_from_organization` and the two
  inserts of `create_organization`, are not interleaved with other
  requests. There is no concurrency to model.
- Ids are never reused, whereas SQLite may hand out a deleted id again.
  The model takes each new id from a per-table counter.
- The HTTP layer is not modelled: routing, request validation (422),
  authentication failures (401) and the `StandardResponse` envelope.
  Results are `Ok(value)` or `Err(code, detail)`. A list reply is a map
  from id to row, because the routers promise no order except on the
  leaderboard.
- Ranking.AllUsersScore: the order among users with equal scores is not
  stated, because `ORDER BY score DESC` leaves it to the database.
- The wire strings of ranks (the enum values) are not modelled. `RankEnum`
  is imported from `models/user.py`, but that file defines neither it nor a
  `rank` column. The tiers are an ordered datatype, and the rank is a field
  of the user row.
- The `routes/` package, `models.py` and `schemas.py` are not modelled.
  They are a legacy copy that the application does not mount.
