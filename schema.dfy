/** The relational store the route handlers share: one datatype per table row, a snapshot
    of all seven tables, the key constraints the handlers keep, and the pieces of request
    handling every route uses (HTTP responses, JavaScript truthiness, lookups by key). */
module Schema {
  import opened Collections

  /** A row of `users`. `password` holds the credential hash written at registration. */
  datatype User = User(
    id: int,
    username: string,
    email: string,
    password: string,
    fullName: Option<string>,
    profilePicture: Option<string>,
    coins: int)

  /** A row of `questions`; a question need not belong to a test series. */
  datatype Question = Question(
    id: int,
    topicId: int,
    testSeriesId: Option<int>,
    correctOption: string,
    coinsReward: int,
    explanation: string)

  /** A row of `user_progress`: the recorded attempt of one user at one question. */
  datatype Attempt = Attempt(
    userId: int,
    questionId: int,
    userAnswer: string,
    isCorrect: bool,
    coinsEarned: int)

  /** A row of `user_test_series`: the user may open the test series. */
  datatype Entitlement = Entitlement(userId: int, testSeriesId: int)

  datatype TestSeries = TestSeries(id: int, name: string, description: string, coinCost: int)

  datatype Category = Category(id: int, name: string, description: string, icon: string, color: string)

  datatype Topic = Topic(id: int, categoryId: int, name: string, description: string)

  /** The whole store. Each table is a sequence of rows in storage order; `nextUserId` is
      the `AUTO_INCREMENT` counter of `users`. */
  datatype Db = Db(
    users: seq<User>,
    nextUserId: int,
    questions: seq<Question>,
    progress: seq<Attempt>,
    entitlements: seq<Entitlement>,
    series: seq<TestSeries>,
    categories: seq<Category>,
    topics: seq<Topic>)

  /** What a handler answers: an HTTP status and, on success, the JSON payload. */
  datatype Response<+T> = Success(status: int, body: T) | Failure(status: int)

  const OK := 200
  const CREATED := 201
  const BAD_REQUEST := 400
  const UNAUTHORIZED := 401
  const NOT_FOUND := 404
  const CONFLICT := 409
  const SERVER_ERROR := 500

  /** JavaScript `!x` for a numeric field of a JSON body: absent, `null` and `0` are falsy. */
  predicate IsFalsyId(x: Option<int>)
  {
    x.None? || x.value == 0
  }

  /** JavaScript `!x` for a string field of a JSON body: absent, `null` and `""` are falsy. */
  predicate IsFalsyText(x: Option<string>)
  {
    x.None? || x.value == ""
  }

  /** JavaScript `x || null` for a string field. */
  function OrNull(x: Option<string>): (r: Option<string>)
    ensures r.None? <==> IsFalsyText(x)
    ensures r.Some? ==> r == x
  {
    if IsFalsyText(x) then None else x
  }

  /** `toUpperCase` restricted to ASCII letters. */
  function UpperChar(c: char): char
  {
    if 'a' <= c <= 'z' then (c as int - 32) as char else c
  }

  /** `toUpperCase` of a string, character by character; `UpperRemovesLowercase` states
      what it does. */
  function Upper(s: string): string
  {
    seq(|s|, i requires 0 <= i < |s| => UpperChar(s[i]))
  }

  predicate IsLowerAscii(c: char)
  {
    'a' <= c <= 'z'
  }

  /** Upper-casing turns each lower-case ASCII letter into its own capital, so none is
      left, and keeps every other character. */
  lemma UpperRemovesLowercase(s: string)
    ensures |Upper(s)| == |s|
    ensures forall i :: 0 <= i < |s| && IsLowerAscii(s[i]) ==>
              'A' <= Upper(s)[i] <= 'Z' && Upper(s)[i] as int - 'A' as int == s[i] as int - 'a' as int
    ensures forall i :: 0 <= i < |s| ==> !IsLowerAscii(Upper(s)[i])
    ensures forall i :: 0 <= i < |s| && !IsLowerAscii(s[i]) ==> Upper(s)[i] == s[i]
  {
  }

  /** `SELECT ... FROM users WHERE id = ?`, first row. */
  function FindUser(users: seq<User>, id: int): (r: Option<User>)
    ensures r.Some? ==> r.value.id == id
    ensures r.None? <==> forall i :: 0 <= i < |users| ==> users[i].id != id
  {
    if users == [] then None
    else if users[0].id == id then Some(users[0])
    else FindUser(users[1..], id)
  }

  /** The row found is one of the table's rows. */
  lemma {:induction false} FindUserIsRow(users: seq<User>, id: int)
    ensures FindUser(users, id).Some? ==> FindUser(users, id).value in users
  {
    if users != [] && users[0].id != id {
      FindUserIsRow(users[1..], id);
    }
  }

  /** `UPDATE users SET coins = coins + delta WHERE id = ?`: every row with that id. */
  function AddCoins(users: seq<User>, id: int, delta: int): (r: seq<User>)
    ensures |r| == |users|
    ensures forall i :: 0 <= i < |users| && users[i].id != id ==> r[i] == users[i]
    ensures forall i :: 0 <= i < |users| && users[i].id == id ==>
              r[i] == users[i].(coins := users[i].coins + delta)
  {
    seq(|users|, i requires 0 <= i < |users| =>
      if users[i].id == id then users[i].(coins := users[i].coins + delta) else users[i])
  }

  /** `UPDATE users SET coins = coins - amount WHERE id = ?`: every row with that id. */
  function SubtractCoins(users: seq<User>, id: int, amount: int): (r: seq<User>)
    ensures |r| == |users|
    ensures forall i :: 0 <= i < |users| && users[i].id != id ==> r[i] == users[i]
    ensures forall i :: 0 <= i < |users| && users[i].id == id ==>
              r[i] == users[i].(coins := users[i].coins - amount)
  {
    seq(|users|, i requires 0 <= i < |users| =>
      if users[i].id == id then users[i].(coins := users[i].coins - amount) else users[i])
  }

  /** A looked-up user row with `delta` added to its balance. */
  function WithCoinsAdded(row: Option<User>, delta: int): Option<User>
  {
    match row
    case None => None
    case Some(u) => Some(u.(coins := u.coins + delta))
  }

  /** Two credits add up. */
  lemma WithCoinsAddedTwice(row: Option<User>, a: int, b: int)
    ensures WithCoinsAdded(WithCoinsAdded(row, a), b) == WithCoinsAdded(row, a + b)
  {
  }

  /** The row the store reports for `id` after adding `delta` is the old one with its
      balance raised by `delta`, and there is such a row exactly when there was one. */
  lemma {:induction false} AddCoinsBalance(users: seq<User>, id: int, delta: int)
    ensures FindUser(AddCoins(users, id, delta), id) == WithCoinsAdded(FindUser(users, id), delta)
  {
    if users != [] && users[0].id != id {
      var r := AddCoins(users, id, delta);
      assert r[0] == users[0];
      assert r[1..] == AddCoins(users[1..], id, delta);
      AddCoinsBalance(users[1..], id, delta);
    }
  }

  /** The row the store reports for `id` after the debit is the old one with its balance
      lowered by `amount`. */
  lemma {:induction false} SubtractCoinsBalance(users: seq<User>, id: int, amount: int, u: User)
    requires FindUser(users, id) == Some(u)
    ensures FindUser(SubtractCoins(users, id, amount), id) == Some(u.(coins := u.coins - amount))
  {
    if users[0].id != id {
      var r := SubtractCoins(users, id, amount);
      assert r[0] == users[0];
      assert r[1..] == SubtractCoins(users[1..], id, amount);
      SubtractCoinsBalance(users[1..], id, amount, u);
    }
  }

  // Key constraints

  predicate UserKeysUnique(users: seq<User>)
  {
    forall i, j :: 0 <= i < j < |users| ==>
      users[i].id != users[j].id
      && users[i].username != users[j].username
      && users[i].email != users[j].email
  }

  predicate AttemptsUnique(progress: seq<Attempt>)
  {
    forall i, j :: 0 <= i < j < |progress| ==>
      progress[i].userId != progress[j].userId || progress[i].questionId != progress[j].questionId
  }

  predicate EntitlementsUnique(entitlements: seq<Entitlement>)
  {
    forall i, j :: 0 <= i < j < |entitlements| ==> entitlements[i] != entitlements[j]
  }

  /** The constraints every handler keeps: primary keys and the unique username and
      email are unique, at most one attempt per (user, question) and one entitlement per
      (user, series), balances are never negative, rewards and prices are not negative,
      and the `AUTO_INCREMENT` counter is above every user id. */
  ghost predicate Valid(db: Db)
  {
    && UserKeysUnique(db.users)
    && (forall i :: 0 <= i < |db.users| ==> db.users[i].id < db.nextUserId && db.users[i].coins >= 0)
    && (forall i, j :: 0 <= i < j < |db.questions| ==> db.questions[i].id != db.questions[j].id)
    && (forall i :: 0 <= i < |db.questions| ==> db.questions[i].coinsReward >= 0)
    && AttemptsUnique(db.progress)
    && EntitlementsUnique(db.entitlements)
    && (forall i, j :: 0 <= i < j < |db.series| ==> db.series[i].id != db.series[j].id)
    && (forall i :: 0 <= i < |db.series| ==> db.series[i].coinCost >= 0)
    && (forall i, j :: 0 <= i < j < |db.categories| ==> db.categories[i].id != db.categories[j].id)
    && (forall i, j :: 0 <= i < j < |db.topics| ==> db.topics[i].id != db.topics[j].id)
  }
}
