/** The user endpoints: password change, the plain reads, self-deletion
    (which first deletes the invitations the user sent) and the partial
    profile update. */
module Users {
  import opened Responses
  import opened RankService
  import opened Models
  import opened Database

  /** `PUT /users/{user_id}/change_password`: acts on the caller's own row.
      A missing row is a 404; a wrong old password is a 400 and leaves the
      hash; otherwise the hash becomes that of the new password. */
  method ChangePassword(db: Db, caller: Identity, oldPassword: string, newPassword: string) returns (r: Result<()>)
    requires db.Valid()
    modifies db`users
    ensures db.Valid()
    ensures caller.userId !in old(db.users) ==> r == Err(NotFound, "User not found")
    ensures caller.userId in old(db.users) && !Verify(oldPassword, old(db.users)[caller.userId].passwordHash) ==>
      r == Err(BadRequest, "Old password is incorrect")
    ensures r.Err? ==> db.users == old(db.users)
    ensures r.Ok? <==> caller.userId in old(db.users) && Verify(oldPassword, old(db.users)[caller.userId].passwordHash)
    ensures r.Ok? ==>
      db.users == old(db.users)[caller.userId := old(db.users)[caller.userId].(passwordHash := Hash(newPassword))]
  {
    if caller.userId !in db.users {
      return Err(NotFound, "User not found");
    }
    var u := db.users[caller.userId];
    if !Verify(oldPassword, u.passwordHash) {
      return Err(BadRequest, "Old password is incorrect");
    }
    db.users := db.users[caller.userId := u.(passwordHash := Hash(newPassword))];
    r := Ok(());
  }

  /** After a successful change the new password verifies and the old one
      no longer does, unless the two are equal. */
  lemma ChangedPasswordVerifies(u: User, oldPassword: string, newPassword: string)
    requires Verify(oldPassword, u.passwordHash)
    ensures Verify(newPassword, u.(passwordHash := Hash(newPassword)).passwordHash)
    ensures oldPassword != newPassword ==> !Verify(oldPassword, u.(passwordHash := Hash(newPassword)).passwordHash)
  {
    VerifyHash(newPassword, newPassword);
    VerifyHash(oldPassword, newPassword);
  }

  /** `GET /users/`. */
  function ReadUsers(db: Db): (r: Result<map<int, User>>)
    reads db
    ensures r.Err? <==> db.users == map[]
    ensures r.Err? ==> r == Err(NotFound, "Users not found")
    ensures r.Ok? ==> r.value == db.users
  {
    if db.users == map[] then Err(NotFound, "Users not found") else Ok(db.users)
  }

  /** `GET /users/{user_id}`. */
  function ReadUser(db: Db, userId: int): (r: Result<User>)
    reads db
    ensures r.Ok? <==> userId in db.users
    ensures r.Ok? ==> r.value == db.users[userId]
    ensures r.Err? ==> r == Err(NotFound, "User not found")
  {
    if userId in db.users then Ok(db.users[userId]) else Err(NotFound, "User not found")
  }

  /** The memberships of every user but `userId`. */
  function MembershipsOfOthers(ms: Memberships, userId: int): Memberships {
    map k | k in ms && k.1 != userId :: ms[k]
  }

  /** The invitations not sent by `userId`. */
  function InvitationsNotSentBy(invitations: map<int, Invitation>, userId: int): map<int, Invitation> {
    map id | id in invitations && invitations[id].invitedBy != userId :: invitations[id]
  }

  /** `DELETE /users/{user_id}`: deletes the CALLER's row, whatever the path
      id says. A missing row is a 404; otherwise every invitation the caller
      sent, and no other, is deleted first, then the row, and the ORM's
      `delete-orphan` cascade on the user's memberships removes those too. */
  method DeleteUser(db: Db, caller: Identity, pathUserId: int) returns (r: Result<User>)
    requires db.Valid()
    modifies db`users, db`invitations, db`memberships
    ensures db.Valid()
    ensures r.Ok? <==> caller.userId in old(db.users)
    ensures r.Err? ==>
      && r == Err(NotFound, "User not found")
      && db.users == old(db.users) && db.invitations == old(db.invitations) && db.memberships == old(db.memberships)
    ensures r.Ok? ==>
      && r.value == old(db.users)[caller.userId]
      && db.users == old(db.users) - {caller.userId}
      && db.invitations == InvitationsNotSentBy(old(db.invitations), caller.userId)
      && db.memberships == MembershipsOfOthers(old(db.memberships), caller.userId)
  {
    if caller.userId !in db.users {
      return Err(NotFound, "User not found");
    }
    var u := db.users[caller.userId];
    db.invitations := InvitationsNotSentBy(db.invitations, caller.userId);
    db.users := db.users - {caller.userId};
    db.memberships := MembershipsOfOthers(db.memberships, caller.userId);
    r := Ok(u);
  }

  /** The row after a partial update: username, email, first and last name
      change when given; the hash changes only for a non-empty password. */
  function UpdatedUser(u: User, username: Option<string>, email: Option<string>, firstName: Option<string>,
                       lastName: Option<string>, password: Option<string>): User {
    u.(username := if username.Some? then username.value else u.username,
       email := if email.Some? then email.value else u.email,
       firstName := if firstName.Some? then firstName.value else u.firstName,
       lastName := if lastName.Some? then lastName.value else u.lastName,
       passwordHash := if Truthy(password) then Hash(password.value) else u.passwordHash)
  }

  /** A partial update never touches score or rank, and an update that gives
      nothing (or only an empty password) leaves the row as it was. */
  lemma UpdatedUserKeeps(u: User, username: Option<string>, email: Option<string>, firstName: Option<string>,
                         lastName: Option<string>, password: Option<string>)
    ensures UpdatedUser(u, username, email, firstName, lastName, password).score == u.score
    ensures UpdatedUser(u, username, email, firstName, lastName, password).rank == u.rank
    ensures username.None? && email.None? && firstName.None? && lastName.None? && !Truthy(password) ==>
              UpdatedUser(u, username, email, firstName, lastName, password) == u
  {
  }

  /** The update would give another user's username or email to `userId`. */
  predicate UpdateCollides(users: map<int, User>, userId: int, username: Option<string>, email: Option<string>) {
    || (username.Some? && UsernameTaken(users, userId, username.value))
    || (email.Some? && EmailTaken(users, userId, email.value))
  }

  /** `PUT /users/{user_id}`: a missing user is a 404; otherwise the given
      fields are assigned. The unique username and email columns reject, at
      commit, a value another user holds (500, no change). */
  method UpdateUser(db: Db, userId: int, username: Option<string>, email: Option<string>,
                    firstName: Option<string>, lastName: Option<string>, password: Option<string>)
    returns (r: Result<User>)
    requires db.Valid()
    modifies db`users
    ensures db.Valid()
    ensures userId !in old(db.users) ==> r == Err(NotFound, "User not found")
    ensures userId in old(db.users) && UpdateCollides(old(db.users), userId, username, email) ==>
      r == Err(ServerError, "Internal Server Error")
    ensures r.Err? ==> db.users == old(db.users)
    ensures r.Ok? <==> userId in old(db.users) && !UpdateCollides(old(db.users), userId, username, email)
    ensures r.Ok? ==>
      && r.value == UpdatedUser(old(db.users)[userId], username, email, firstName, lastName, password)
      && db.users == old(db.users)[userId := r.value]
  {
    if userId !in db.users {
      return Err(NotFound, "User not found");
    }
    if UpdateCollides(db.users, userId, username, email) {
      return Err(ServerError, "Internal Server Error");
    }
    var u := UpdatedUser(db.users[userId], username, email, firstName, lastName, password);
    db.users := db.users[userId := u];
    r := Ok(u);
  }
}
