/** `POST /api/auth/register`: validates the three required fields, refuses a username or
    an email that any user already has, and inserts a user holding the credential hash
    and no coins. The hash function is a parameter: only its result is stored. */
module RegisterRoute {
  import opened Collections
  import opened Schema

  /** The statement that throws, if one does. */
  datatype RegisterFault = NoFault | LookupFails | HashFails | InsertFails

  /** `username = ? OR email = ?`: the user clashes with the request. */
  predicate Clashes(u: User, username: string, email: string)
  {
    u.username == username || u.email == email
  }

  /** `SELECT COUNT(*) FROM users WHERE username = ? OR email = ?` is not zero. */
  predicate Taken(users: seq<User>, username: string, email: string)
    ensures Taken(users, username, email) <==> exists i :: 0 <= i < |users| && Clashes(users[i], username, email)
  {
    CountZero(users, u => Clashes(u, username, email));
    Count(users, u => Clashes(u, username, email)) > 0
  }

  /** The row the insert adds: the next `AUTO_INCREMENT` id, the credential hash,
      `fullName || null`, no picture and no coins. */
  function NewUser(db: Db, username: string, email: string, hashed: string, fullName: Option<string>): (u: User)
    ensures Valid(db) ==> forall i :: 0 <= i < |db.users| ==> db.users[i].id < u.id
    ensures u.coins == 0 && u.profilePicture.None? && u.password == hashed
  {
    User(db.nextUserId, username, email, hashed, OrNull(fullName), None, 0)
  }

  /** The handler, run as one sequential step on `db`. Only a success changes the store,
      and then only the users table and its counter. */
  function Register(db: Db, username: Option<string>, email: Option<string>, password: Option<string>,
                    fullName: Option<string>, hash: string -> string, fault: RegisterFault): (out: (Db, Response<()>))
    ensures out.1.Failure? ==> out.0 == db
    ensures out.1.Success? ==> out.1.status == CREATED && fault == NoFault
    ensures out.1.Success? || out.1.status in {BAD_REQUEST, CONFLICT, SERVER_ERROR}
    ensures out.0 == db.(users := out.0.users, nextUserId := out.0.nextUserId)
  {
    if IsFalsyText(username) || IsFalsyText(email) || IsFalsyText(password) then (db, Failure(BAD_REQUEST))
    else if fault == LookupFails then (db, Failure(SERVER_ERROR))
    else if Taken(db.users, username.value, email.value) then (db, Failure(CONFLICT))
    else if !fault.NoFault? then (db, Failure(SERVER_ERROR))
    else
      var u := NewUser(db, username.value, email.value, hash(password.value), fullName);
      (db.(users := db.users + [u], nextUserId := db.nextUserId + 1), Success(CREATED, ()))
  }

  /** A missing or empty username, email or password gives 400, and a username or email
      that some user already has gives 409; neither inserts anything. */
  lemma RegisterRejects(db: Db, username: Option<string>, email: Option<string>, password: Option<string>,
                        fullName: Option<string>, hash: string -> string, fault: RegisterFault)
    ensures IsFalsyText(username) || IsFalsyText(email) || IsFalsyText(password) ==>
              Register(db, username, email, password, fullName, hash, fault) == (db, Failure(BAD_REQUEST))
    ensures !IsFalsyText(username) && !IsFalsyText(email) && !IsFalsyText(password) && fault != LookupFails
            && (exists i :: 0 <= i < |db.users| && Clashes(db.users[i], username.value, email.value)) ==>
              Register(db, username, email, password, fullName, hash, fault) == (db, Failure(CONFLICT))
  {
    if !IsFalsyText(username) && !IsFalsyText(email) && !IsFalsyText(password)
       && exists i :: 0 <= i < |db.users| && Clashes(db.users[i], username.value, email.value)
    {
      var i :| 0 <= i < |db.users| && Clashes(db.users[i], username.value, email.value);
      CountPositive(db.users, u => Clashes(u, username.value, email.value), i);
    }
  }

  /** Registration succeeds exactly when the three fields are set, no user has the
      username or the email and no statement fails; it then appends exactly one user,
      with the next id, the hash of the password, `fullName` or null, and 0 coins. */
  lemma RegisterInserts(db: Db, username: Option<string>, email: Option<string>, password: Option<string>,
                        fullName: Option<string>, hash: string -> string, fault: RegisterFault)
    ensures var (after, r) := Register(db, username, email, password, fullName, hash, fault);
            && (r.Success? <==>
                  && !IsFalsyText(username) && !IsFalsyText(email) && !IsFalsyText(password)
                  && fault == NoFault
                  && forall i :: 0 <= i < |db.users| ==> !Clashes(db.users[i], username.value, email.value))
            && (r.Success? ==>
                  && after.users == db.users + [User(db.nextUserId, username.value, email.value,
                                                     hash(password.value), OrNull(fullName), None, 0)]
                  && after.nextUserId == db.nextUserId + 1)
  {
    if !IsFalsyText(username) && !IsFalsyText(email) {
      CountZero(db.users, u => Clashes(u, username.value, email.value));
    }
  }

  /** A registration that succeeds keeps the store's constraints: the new id is above
      every other, and the clash check keeps usernames and emails unique. */
  lemma RegisterKeepsValid(db: Db, username: Option<string>, email: Option<string>, password: Option<string>,
                           fullName: Option<string>, hash: string -> string, fault: RegisterFault)
    requires Valid(db)
    ensures Valid(Register(db, username, email, password, fullName, hash, fault).0)
  {
    var (after, r) := Register(db, username, email, password, fullName, hash, fault);
    if r.Success? {
      RegisterInserts(db, username, email, password, fullName, hash, fault);
      var n := |db.users|;
      forall i, j | 0 <= i < j < |after.users|
        ensures after.users[i].id != after.users[j].id
        ensures after.users[i].username != after.users[j].username
        ensures after.users[i].email != after.users[j].email
      {
        if j == n {
          assert after.users[i] == db.users[i];
          assert !Clashes(db.users[i], username.value, email.value);
        }
      }
    }
  }

  /** Registering the same username twice in a row, even with another email, is refused
      the second time with 409 (an empty email is refused with 400 before the lookup). */
  lemma SecondRegistrationConflicts(db: Db, username: string, email: string, otherEmail: string, password: string,
                                    fullName: Option<string>, hash: string -> string, again: RegisterFault)
    requires Register(db, Some(username), Some(email), Some(password), fullName, hash, NoFault).1.Success?
    requires otherEmail != "" && again != LookupFails
    ensures var after := Register(db, Some(username), Some(email), Some(password), fullName, hash, NoFault).0;
            Register(after, Some(username), Some(otherEmail), Some(password), fullName, hash, again)
            == (after, Failure(CONFLICT))
  {
    RegisterInserts(db, Some(username), Some(email), Some(password), fullName, hash, NoFault);
    var after := Register(db, Some(username), Some(email), Some(password), fullName, hash, NoFault).0;
    var n := |db.users|;
    assert after.users[n].username == username;
    assert Clashes(after.users[n], username, otherEmail);
    RegisterRejects(after, Some(username), Some(otherEmail), Some(password), fullName, hash, again);
  }
}
