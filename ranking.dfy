/** The ranking endpoints: score queries, the score leaderboard, and the
    two unauthenticated score adjustments (no caller check at all) that recompute the cached rank. */
module Ranking {
  import opened Responses
  import opened RankService
  import opened Models
  import opened Database

  /** What `/ranking/my` reports. */
  datatype ScoreView = ScoreView(username: string, score: int, rank: Rank)

  /** One leaderboard line; the response shows its username and score. */
  datatype ScoreEntry = ScoreEntry(userId: int, username: string, score: int)

  /** What a score adjustment reports. */
  datatype ScoreChange = ScoreChange(username: string, newScore: int, currentRank: Rank)

  /** The user row after its score moved by `delta` and its rank was recomputed. */
  function AdjustScore(u: User, delta: int): User {
    u.(score := u.score + delta, rank := RankForScore(u.score + delta))
  }

  /** The user row after `n` successive `increase_score` calls. */
  function Increased(u: User, n: nat): User {
    if n == 0 then u else AdjustScore(Increased(u, n - 1), 1)
  }

  /** An adjustment keeps the cached rank equal to the rank of the score and
      touches no other column. */
  lemma AdjustScoreKeepsRankInSync(u: User, delta: int)
    ensures AdjustScore(u, delta).rank == RankForScore(AdjustScore(u, delta).score)
    ensures AdjustScore(u, delta).score == u.score + delta
    ensures AdjustScore(u, delta).(score := u.score, rank := u.rank) == u
  {
  }

  /** There is no guard against repetition: `n` increases move the score by
      exactly `n`, and the rank is that of the final score. */
  lemma {:induction false} IncreasedMovesByN(u: User, n: nat)
    requires u.rank == RankForScore(u.score)
    ensures Increased(u, n) == AdjustScore(u, n)
  {
    if n > 0 {
      IncreasedMovesByN(u, n - 1);
      var v := AdjustScore(u, n - 1);
      assert AdjustScore(v, 1).score == u.score + n;
    }
  }

  /** A decrease undoes an increase, restoring the row when its rank was in sync. */
  lemma DecreaseUndoesIncrease(u: User)
    requires u.rank == RankForScore(u.score)
    ensures AdjustScore(AdjustScore(u, 1), -1) == u
  {
  }

  /** `/ranking/my`: the caller's own score and rank. */
  function MyScore(db: Db, caller: Identity): (r: Result<ScoreView>)
    reads db
    ensures r.Ok? <==> caller.userId in db.users
    ensures r.Ok? ==> r.value == ScoreView(db.users[caller.userId].username,
                                           db.users[caller.userId].score,
                                           db.users[caller.userId].rank)
    ensures r.Err? ==> r == Err(NotFound, "User not found")
  {
    if caller.userId !in db.users then Err(NotFound, "User not found")
    else
      var u := db.users[caller.userId];
      Ok(ScoreView(u.username, u.score, u.rank))
  }

  /** `/ranking/{user_id}`: another user's username and score. */
  function UserScore(db: Db, userId: int): (r: Result<(string, int)>)
    reads db
    ensures r.Ok? <==> userId in db.users
    ensures r.Ok? ==> r.value == (db.users[userId].username, db.users[userId].score)
    ensures r.Err? ==> r == Err(NotFound, "User not found")
  {
    if userId in db.users then Ok((db.users[userId].username, db.users[userId].score))
    else Err(NotFound, "User not found")
  }

  /** Scores never increase along the list. */
  predicate SortedByScoreDesc(s: seq<ScoreEntry>) {
    forall i, j :: 0 <= i < j < |s| ==> s[i].score >= s[j].score
  }

  /** Places `e` before the first entry with a lower score. */
  function InsertByScore(s: seq<ScoreEntry>, e: ScoreEntry): seq<ScoreEntry> {
    if s == [] || s[0].score <= e.score then [e] + s
    else [s[0]] + InsertByScore(s[1..], e)
  }

  lemma {:induction false} InsertByScoreContents(s: seq<ScoreEntry>, e: ScoreEntry)
    ensures multiset(InsertByScore(s, e)) == multiset(s) + multiset{e}
  {
    if s != [] && s[0].score > e.score {
      InsertByScoreContents(s[1..], e);
      assert s == [s[0]] + s[1..];
    }
  }

  lemma {:induction false} InsertByScoreSorted(s: seq<ScoreEntry>, e: ScoreEntry)
    requires SortedByScoreDesc(s)
    ensures SortedByScoreDesc(InsertByScore(s, e))
  {
    if s != [] && s[0].score > e.score {
      InsertByScoreSorted(s[1..], e);
      InsertByScoreContents(s[1..], e);
      var t := InsertByScore(s[1..], e);
      forall k | 0 <= k < |t| ensures s[0].score >= t[k].score {
        assert t[k] in multiset(t);
        assert t[k] in multiset(s[1..]) || t[k] == e;
      }
    }
  }

  function EntryOf(users: map<int, User>, id: int): ScoreEntry
    requires id in users
  {
    ScoreEntry(id, users[id].username, users[id].score)
  }

  /** `s` lists exactly the users whose ids are in `done`, each once. */
  ghost predicate ListsExactly(s: seq<ScoreEntry>, done: set<int>, users: map<int, User>)
    requires done <= users.Keys
  {
    && |s| == |done|
    && (forall i :: 0 <= i < |s| ==> s[i].userId in done && s[i] == EntryOf(users, s[i].userId))
    && (forall id :: id in done ==> EntryOf(users, id) in s)
  }

  /** Inserting one more user keeps the list exact. */
  lemma InsertKeepsListExact(s: seq<ScoreEntry>, done: set<int>, users: map<int, User>, id: int)
    requires done <= users.Keys && id in users && id !in done
    requires ListsExactly(s, done, users)
    ensures ListsExactly(InsertByScore(s, EntryOf(users, id)), done + {id}, users)
  {
    var e := EntryOf(users, id);
    InsertByScoreContents(s, e);
    var t := InsertByScore(s, e);
    forall i | 0 <= i < |t| ensures t[i].userId in done + {id} && t[i] == EntryOf(users, t[i].userId) {
      assert t[i] in multiset(t);
      if t[i] != e {
        assert t[i] in multiset(s);
        var j :| 0 <= j < |s| && s[j] == t[i];
      }
    }
    forall x | x in done + {id} ensures EntryOf(users, x) in t {
      if x == id {
        assert e in multiset(t);
      } else {
        assert EntryOf(users, x) in multiset(s);
        assert EntryOf(users, x) in multiset(t);
      }
    }
    assert |t| == |multiset(t)| == |multiset(s)| + 1;
  }

  /** `/ranking/`: every user exactly once, highest score first; an empty
      user table is reported as 404. The database's `ORDER BY score DESC` is
      modelled by inserting the users one by one into a sorted list. */
  method AllUsersScore(db: Db) returns (r: Result<seq<ScoreEntry>>)
    ensures r.Err? <==> db.users == map[]
    ensures r.Err? ==> r == Err(NotFound, "No users found")
    ensures r.Ok? ==> SortedByScoreDesc(r.value)
    ensures r.Ok? ==> |r.value| == |db.users|
    ensures r.Ok? ==> forall i :: 0 <= i < |r.value| ==>
              r.value[i].userId in db.users && r.value[i] == EntryOf(db.users, r.value[i].userId)
    ensures r.Ok? ==> forall id :: id in db.users ==> EntryOf(db.users, id) in r.value
  {
    var users := db.users;
    if users == map[] {
      return Err(NotFound, "No users found");
    }
    var s: seq<ScoreEntry> := [];
    var done: set<int> := {};
    var todo := users.Keys;
    while todo != {}
      invariant done + todo == users.Keys && done !! todo
      invariant SortedByScoreDesc(s)
      invariant ListsExactly(s, done, users)
      decreases todo
    {
      var id := PickFrom(todo);
      InsertByScoreSorted(s, EntryOf(users, id));
      InsertKeepsListExact(s, done, users, id);
      s := InsertByScore(s, EntryOf(users, id));
      done := done + {id};
      todo := todo - {id};
    }
    assert done == users.Keys;
    return Ok(s);
  }

  /** `POST /ranking/{user_id}/increase_score`: the target user's score goes
      up by one and the rank follows; an unknown user is a 404 with no change. */
  method IncreaseScore(db: Db, userId: int) returns (r: Result<ScoreChange>)
    requires db.Valid()
    modifies db`users
    ensures db.Valid()
    ensures userId !in old(db.users) ==> r == Err(NotFound, "User not found") && db.users == old(db.users)
    ensures userId in old(db.users) ==>
      && db.users == old(db.users)[userId := AdjustScore(old(db.users)[userId], 1)]
      && r == Ok(ScoreChange(db.users[userId].username, db.users[userId].score, db.users[userId].rank))
  {
    if userId !in db.users {
      return Err(NotFound, "User not found");
    }
    var u := AdjustScore(db.users[userId], 1);
    db.users := db.users[userId := u];
    r := Ok(ScoreChange(u.username, u.score, u.rank));
  }

  /** `POST /ranking/{user_id}/decrease_score`: as increase, by minus one;
      the score may go negative. */
  method DecreaseScore(db: Db, userId: int) returns (r: Result<ScoreChange>)
    requires db.Valid()
    modifies db`users
    ensures db.Valid()
    ensures userId !in old(db.users) ==> r == Err(NotFound, "User not found") && db.users == old(db.users)
    ensures userId in old(db.users) ==>
      && db.users == old(db.users)[userId := AdjustScore(old(db.users)[userId], -1)]
      && r == Ok(ScoreChange(db.users[userId].username, db.users[userId].score, db.users[userId].rank))
  {
    if userId !in db.users {
      return Err(NotFound, "User not found");
    }
    var u := AdjustScore(db.users[userId], -1);
    db.users := db.users[userId := u];
    r := Ok(ScoreChange(u.username, u.score, u.rank));
  }
}
