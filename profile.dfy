/** `GET /api/user/profile` reports the signed-in user's row with three statistics: the
    number of questions attempted, the number answered correctly and the rank by coins.
    `PUT /api/user/profile` overwrites the two display fields. */
module ProfileRoute {
  import opened Collections
  import opened Schema

  /** The read that throws, if one does. */
  datatype ReadFault = NoFault | UserReadFails | StatsReadFails | RankReadFails

  datatype Stats = Stats(totalQuestions: int, correctAnswers: int, rank: int)

  /** The selected columns of the user row (the credential hash is not among them) and the
      statistics. */
  datatype ProfileBody = ProfileBody(
    id: int,
    username: string,
    email: string,
    fullName: Option<string>,
    profilePicture: Option<string>,
    coins: int,
    stats: Stats)

  /** JavaScript `x || 0` for a number that SQL may report as `NULL`. */
  function OrZero(x: Option<int>): (n: int)
    ensures x.Some? ==> n == x.value
    ensures x.None? ==> n == 0
  {
    if x.None? || x.value == 0 then 0 else x.value
  }

  /** `up.user_id = ?` */
  function OwnedBy(userId: int): Attempt -> bool
  {
    (a: Attempt) => a.userId == userId
  }

  /** `up.user_id = ?` and `up.is_correct = 1` */
  function CorrectBy(userId: int): Attempt -> bool
  {
    (a: Attempt) => a.userId == userId && a.isCorrect
  }

  /** `coins > ?` */
  function RicherThan(coins: int): User -> bool
  {
    (v: User) => v.coins > coins
  }

  /** `COUNT(up.id) ... WHERE up.user_id = ?`. */
  function Attempted(progress: seq<Attempt>, userId: int): (n: nat)
    ensures n == 0 <==> forall i :: 0 <= i < |progress| ==> progress[i].userId != userId
  {
    CountZero(progress, OwnedBy(userId));
    Count(progress, OwnedBy(userId))
  }

  /** `SUM(CASE WHEN up.is_correct = 1 THEN 1 ELSE 0 END) ... WHERE up.user_id = ?`: `NULL`
      over no rows, the number of correct rows otherwise. */
  function CorrectSum(progress: seq<Attempt>, userId: int): (r: Option<int>)
    ensures r.None? <==> Attempted(progress, userId) == 0
    ensures r.Some? ==> 0 <= r.value <= Attempted(progress, userId)
  {
    CountMonotone(progress, CorrectBy(userId), OwnedBy(userId));
    if Attempted(progress, userId) == 0 then None
    else Some(Count(progress, CorrectBy(userId)))
  }

  /** `SELECT COUNT(*) + 1 FROM users WHERE coins > ?`: one more than the number of users
      with strictly more coins. */
  function Rank(users: seq<User>, coins: int): (r: int)
    ensures 1 <= r <= |users| + 1
  {
    Count(users, RicherThan(coins)) + 1
  }

  /** The GET handler; it reads and never writes. */
  function GetProfile(db: Db, session: Option<int>, fault: ReadFault): (r: Response<ProfileBody>)
    ensures r.Success? ==> r.status == OK && fault == NoFault
    ensures r.Success? || r.status in {UNAUTHORIZED, NOT_FOUND, SERVER_ERROR}
  {
    if session.None? then Failure(UNAUTHORIZED)
    else if fault == UserReadFails then Failure(SERVER_ERROR)
    else match FindUser(db.users, session.value)
      case None => Failure(NOT_FOUND)
      case Some(u) =>
        if !fault.NoFault? then Failure(SERVER_ERROR)
        else
          var stats := Stats(OrZero(Some(Attempted(db.progress, u.id))),
                             OrZero(CorrectSum(db.progress, u.id)),
                             OrZero(Some(Rank(db.users, u.coins))));
          Success(OK, ProfileBody(u.id, u.username, u.email, u.fullName, u.profilePicture, u.coins, stats))
  }

  /** No session gives 401; an id with no user row gives 404. */
  lemma GetProfileRejects(db: Db, session: Option<int>, fault: ReadFault)
    ensures session.None? ==> GetProfile(db, session, fault) == Failure(UNAUTHORIZED)
    ensures session.Some? && fault != UserReadFails
            && (forall i :: 0 <= i < |db.users| ==> db.users[i].id != session.value) ==>
              GetProfile(db, session, fault) == Failure(NOT_FOUND)
  {
  }

  /** A successful read reports the user's own row and, as statistics, the number of the
      user's progress rows, the number of those that are correct (0 when there are none,
      where SQL's `SUM` is `NULL`), and one more than the number of users with strictly
      more coins; so the correct answers never exceed the attempts and the rank lies
      between 1 and the number of users. */
  lemma GetProfileReports(db: Db, userId: int)
    requires FindUser(db.users, userId).Some?
    ensures var u := FindUser(db.users, userId).value;
            var r := GetProfile(db, Some(userId), NoFault);
            && r.Success?
            && r.body == ProfileBody(u.id, u.username, u.email, u.fullName, u.profilePicture, u.coins, r.body.stats)
            && r.body.stats.totalQuestions == Count(db.progress, OwnedBy(userId))
            && r.body.stats.correctAnswers == Count(db.progress, CorrectBy(userId))
            && r.body.stats.rank == 1 + Count(db.users, RicherThan(u.coins))
            && 0 <= r.body.stats.correctAnswers <= r.body.stats.totalQuestions
            && 1 <= r.body.stats.rank <= |db.users|
  {
    var u := FindUser(db.users, userId).value;
    CountMonotone(db.progress, CorrectBy(userId), OwnedBy(userId));
    if Attempted(db.progress, userId) == 0 {
      assert Count(db.progress, CorrectBy(userId)) == 0;
    }
    FindUserIsRow(db.users, userId);
    RankAtMostSize(db.users, u);
  }

  /** The user's own row is never counted above it, so the rank is at most the number of
      users. */
  lemma RankAtMostSize(users: seq<User>, u: User)
    requires u in users
    ensures 1 <= Rank(users, u.coins) <= |users|
  {
    var k :| 0 <= k < |users| && users[k] == u;
    CountSplitAt(users, k, RicherThan(u.coins));
  }

  /** Tied users share a rank and the next balance down skips the tied places: balances
      50, 50 and 30 rank 1, 1 and 3. */
  lemma TiedRanksExample(a: User, b: User, c: User)
    requires a.coins == 50 && b.coins == 50 && c.coins == 30
    ensures Rank([a, b, c], 50) == 1 && Rank([a, b, c], 30) == 3
  {
    var s := [a, b, c];
    assert s[1..] == [b, c] && [b, c][1..] == [c] && [c][1..] == [];
    assert Count([c], RicherThan(50)) == 0 && Count([c], RicherThan(30)) == 0;
    assert Count([b, c], RicherThan(50)) == 0 && Count([b, c], RicherThan(30)) == 1;
    assert Count(s, RicherThan(50)) == 0 && Count(s, RicherThan(30)) == 2;
  }

  /** A richest user ranks first. */
  lemma RichestRanksFirst(users: seq<User>, u: User)
    requires forall i :: 0 <= i < |users| ==> users[i].coins <= u.coins
    ensures Rank(users, u.coins) == 1
  {
    CountZero(users, RicherThan(u.coins));
  }

  // PUT

  /** The update statement that throws, if it does. */
  datatype UpdateFault = UpdateSucceeds | UpdateFails

  /** `UPDATE users SET full_name = ?, profile_picture = ? WHERE id = ?`. */
  function SetDisplay(users: seq<User>, id: int, fullName: Option<string>, picture: Option<string>): (r: seq<User>)
    ensures |r| == |users|
    ensures forall i :: 0 <= i < |users| && users[i].id != id ==> r[i] == users[i]
    ensures forall i :: 0 <= i < |users| && users[i].id == id ==>
              r[i] == users[i].(fullName := fullName, profilePicture := picture)
  {
    seq(|users|, i requires 0 <= i < |users| =>
      if users[i].id == id then users[i].(fullName := fullName, profilePicture := picture) else users[i])
  }

  /** The PUT handler: both fields go through `|| null`, and the answer is 200 whether or
      not a row has that id. */
  function UpdateProfile(db: Db, session: Option<int>, fullName: Option<string>, picture: Option<string>, fault: UpdateFault): (out: (Db, Response<()>))
    ensures out.1.Failure? ==> out.0 == db
    ensures out.0 == db.(users := out.0.users)
    ensures out.1.Success? ==> out.1.status == OK
    ensures out.1.Success? || out.1.status in {UNAUTHORIZED, SERVER_ERROR}
    ensures session.Some? && fault == UpdateSucceeds ==> out.1 == Success(OK, ())
  {
    if session.None? then (db, Failure(UNAUTHORIZED))
    else if fault == UpdateFails then (db, Failure(SERVER_ERROR))
    else (db.(users := SetDisplay(db.users, session.value, OrNull(fullName), OrNull(picture))), Success(OK, ()))
  }

  /** Without a session the answer is 401 and nothing changes; a signed-in update that
      does not throw always answers 200, whether or not a row has the session's id; the
      update sets
      the two display fields of the signed-in user's row, mapping empty or missing values
      to null, and leaves the coins, username, email and every other row as they were. */
  lemma UpdateProfileSets(db: Db, session: Option<int>, fullName: Option<string>, picture: Option<string>, fault: UpdateFault)
    ensures session.None? ==> UpdateProfile(db, session, fullName, picture, fault) == (db, Failure(UNAUTHORIZED))
    ensures session.Some? && fault == UpdateSucceeds ==> UpdateProfile(db, session, fullName, picture, fault).1 == Success(OK, ())
    ensures var (after, r) := UpdateProfile(db, session, fullName, picture, fault);
            r.Success? ==>
              && r.status == OK && session.Some? && fault == UpdateSucceeds
              && |after.users| == |db.users|
              && forall i :: 0 <= i < |db.users| ==>
                   && after.users[i].id == db.users[i].id
                   && after.users[i].username == db.users[i].username
                   && after.users[i].email == db.users[i].email
                   && after.users[i].password == db.users[i].password
                   && after.users[i].coins == db.users[i].coins
                   && (db.users[i].id != session.value ==> after.users[i] == db.users[i])
                   && (db.users[i].id == session.value ==>
                         after.users[i].fullName == OrNull(fullName) && after.users[i].profilePicture == OrNull(picture))
  {
  }

  /** Sending the same body twice leaves the store as sending it once. */
  lemma UpdateProfileIdempotent(db: Db, session: Option<int>, fullName: Option<string>, picture: Option<string>)
    ensures var once := UpdateProfile(db, session, fullName, picture, UpdateSucceeds).0;
            UpdateProfile(once, session, fullName, picture, UpdateSucceeds).0 == once
  {
    var once := UpdateProfile(db, session, fullName, picture, UpdateSucceeds).0;
    var twice := UpdateProfile(once, session, fullName, picture, UpdateSucceeds).0;
    if session.Some? {
      assert twice.users == once.users;
    }
  }

  /** The update keeps the store's constraints: it touches no key and no balance. */
  lemma UpdateProfileKeepsValid(db: Db, session: Option<int>, fullName: Option<string>, picture: Option<string>, fault: UpdateFault)
    requires Valid(db)
    ensures Valid(UpdateProfile(db, session, fullName, picture, fault).0)
  {
    var after := UpdateProfile(db, session, fullName, picture, fault).0;
    if session.Some? && fault == UpdateSucceeds {
      forall i, j | 0 <= i < j < |after.users|
        ensures after.users[i].id != after.users[j].id
        ensures after.users[i].username != after.users[j].username
        ensures after.users[i].email != after.users[j].email
      {
        assert after.users[i].id == db.users[i].id && after.users[j].id == db.users[j].id;
        assert after.users[i].username == db.users[i].username && after.users[j].username == db.users[j].username;
        assert after.users[i].email == db.users[i].email && after.users[j].email == db.users[j].email;
      }
    }
  }
}
