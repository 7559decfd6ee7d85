/** The notification endpoints. Every operation on "my" notifications is
    scoped to the caller: another user's notification is reported as not
    found. Looking one up by id is not scoped. */
module Notifications {
  import opened Responses
  import opened Models
  import opened Database

  /** The notification `id` exists and belongs to `userId`. */
  predicate OwnedBy(ns: map<int, Notification>, id: int, userId: int) {
    id in ns && ns[id].userId == userId
  }

  /** `GET /notifications/my`: exactly the caller's notifications; none is a 404. */
  function MyNotifications(db: Db, caller: Identity): (r: Result<map<int, Notification>>)
    reads db
    ensures r.Err? <==> forall id :: id in db.notifications ==> db.notifications[id].userId != caller.userId
    ensures r.Err? ==> r == Err(NotFound, "No notifications found for this user")
    ensures r.Ok? ==> forall id :: id in r.value <==> OwnedBy(db.notifications, id, caller.userId)
    ensures r.Ok? ==> forall id :: id in r.value ==> id in db.notifications && r.value[id] == db.notifications[id]
  {
    if exists id :: id in db.notifications && db.notifications[id].userId == caller.userId then
      Ok(map id | id in db.notifications && db.notifications[id].userId == caller.userId :: db.notifications[id])
    else Err(NotFound, "No notifications found for this user")
  }

  /** `PUT /notifications/{notification_id}/read`: the caller's own
      notification becomes `Read` (again `Read` if it already was); every
      other notification is unchanged. */
  method MarkNotificationAsRead(db: Db, caller: Identity, notificationId: int) returns (r: Result<Notification>)
    requires db.Valid()
    modifies db`notifications
    ensures db.Valid()
    ensures r.Ok? <==> OwnedBy(old(db.notifications), notificationId, caller.userId)
    ensures r.Err? ==> r == Err(NotFound, "Notification not found") && db.notifications == old(db.notifications)
    ensures r.Ok? ==>
      && r.value == old(db.notifications)[notificationId].(status := Read)
      && db.notifications == old(db.notifications)[notificationId := r.value]
  {
    if !OwnedBy(db.notifications, notificationId, caller.userId) {
      return Err(NotFound, "Notification not found");
    }
    var n := db.notifications[notificationId].(status := Read);
    db.notifications := db.notifications[notificationId := n];
    r := Ok(n);
  }

  /** `DELETE /notifications/{notification_id}`: same scoping; removes
      exactly that one notification. */
  method DeleteMyNotification(db: Db, caller: Identity, notificationId: int) returns (r: Result<()>)
    requires db.Valid()
    modifies db`notifications
    ensures db.Valid()
    ensures r.Ok? <==> OwnedBy(old(db.notifications), notificationId, caller.userId)
    ensures r.Err? ==> r == Err(NotFound, "Notification not found") && db.notifications == old(db.notifications)
    ensures r.Ok? ==> db.notifications == old(db.notifications) - {notificationId}
  {
    if !OwnedBy(db.notifications, notificationId, caller.userId) {
      return Err(NotFound, "Notification not found");
    }
    db.notifications := db.notifications - {notificationId};
    r := Ok(());
  }

  /** The notifications that do not belong to `userId`. */
  function OthersNotifications(ns: map<int, Notification>, userId: int): map<int, Notification> {
    map id | id in ns && ns[id].userId != userId :: ns[id]
  }

  /** `DELETE /notifications/`: deletes the caller's notifications one by one
      and none of anyone else's; having none is a 404. */
  method DeleteAllMyNotifications(db: Db, caller: Identity) returns (r: Result<()>)
    requires db.Valid()
    modifies db`notifications
    ensures db.Valid()
    ensures r.Ok? <==> exists id :: OwnedBy(old(db.notifications), id, caller.userId)
    ensures r.Err? ==> r == Err(NotFound, "No notifications found for this user") && db.notifications == old(db.notifications)
    ensures r.Ok? ==> db.notifications == OthersNotifications(old(db.notifications), caller.userId)
  {
    if !exists id :: id in db.notifications && db.notifications[id].userId == caller.userId {
      return Err(NotFound, "No notifications found for this user");
    }
    var mine := set id | id in db.notifications && db.notifications[id].userId == caller.userId;
    while mine != {}
      invariant db.Valid()
      invariant mine <= db.notifications.Keys
      invariant forall id :: id in mine ==> OwnedBy(old(db.notifications), id, caller.userId)
      invariant forall id :: id in db.notifications ==> id in old(db.notifications) && db.notifications[id] == old(db.notifications)[id]
      invariant forall id :: id in old(db.notifications) && old(db.notifications)[id].userId != caller.userId ==> id in db.notifications
      invariant forall id :: id in db.notifications && db.notifications[id].userId == caller.userId ==> id in mine
      decreases mine
    {
      var id := PickFrom(mine);
      db.notifications := db.notifications - {id};
      mine := mine - {id};
    }
    ghost var others := OthersNotifications(old(db.notifications), caller.userId);
    forall id ensures id in db.notifications <==> id in others {
      if id in db.notifications {
        assert id !in mine;
      }
    }
    assert db.notifications.Keys == others.Keys;
    assert forall id :: id in others ==> db.notifications[id] == others[id];
    assert db.notifications == others;
    r := Ok(());
  }

  /** `GET /notifications/`: every notification; none at all is a 404. */
  function ReadNotifications(db: Db): (r: Result<map<int, Notification>>)
    reads db
    ensures r.Err? <==> db.notifications == map[]
    ensures r.Err? ==> r == Err(NotFound, "No notifications found")
    ensures r.Ok? ==> r.value == db.notifications
  {
    if db.notifications == map[] then Err(NotFound, "No notifications found") else Ok(db.notifications)
  }

  /** `GET /notifications/{notification_id}`: not scoped to the caller; only
      a missing id is a 404. */
  function GetNotification(db: Db, notificationId: int): (r: Result<Notification>)
    reads db
    ensures r.Ok? <==> notificationId in db.notifications
    ensures r.Ok? ==> r.value == db.notifications[notificationId]
    ensures r.Err? ==> r == Err(NotFound, "Notification not found")
  {
    if notificationId in db.notifications then Ok(db.notifications[notificationId])
    else Err(NotFound, "Notification not found")
  }
}
