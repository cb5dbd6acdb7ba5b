/** `POST /api/test-series/purchase`: a guard chain (session, request field, duplicate,
    existence, balance) and then, inside a transaction, the debit and the entitlement
    insert, undone together by `ROLLBACK` when either statement or the commit fails. */
module PurchaseRoute {
  import opened Collections
  import opened Schema

  /** The store statement that throws, if one does. */
  datatype PurchaseFault =
    | NoFault
    | EntitlementReadFails
    | SeriesReadFails
    | UserReadFails
    | BeginFails
    | DebitFails
    | InsertFails
    | CommitFails

  datatype PurchaseBody = PurchaseBody(seriesName: string, remainingCoins: int)

  /** The statements between `START TRANSACTION` and `COMMIT`, and the commit itself. */
  predicate InTransaction(fault: PurchaseFault)
  {
    fault.DebitFails? || fault.InsertFails? || fault.CommitFails?
  }

  /** `SELECT id, name, coin_cost FROM test_series WHERE id = ?`, first row. */
  function FindSeries(series: seq<TestSeries>, id: int): (r: Option<TestSeries>)
    ensures r.Some? ==> r.value in series && r.value.id == id
    ensures r.None? <==> forall i :: 0 <= i < |series| ==> series[i].id != id
  {
    if series == [] then None
    else if series[0].id == id then Some(series[0])
    else FindSeries(series[1..], id)
  }

  /** `SELECT id FROM user_test_series WHERE user_id = ? AND test_series_id = ?` is not empty. */
  predicate HasEntitlement(entitlements: seq<Entitlement>, userId: int, seriesId: int)
  {
    Entitlement(userId, seriesId) in entitlements
  }

  /** The statements of a successful purchase: the debit and the entitlement insert. */
  function Buy(db: Db, u: User, s: TestSeries): (bought: Db)
    ensures bought == db.(users := bought.users, entitlements := bought.entitlements)
    ensures bought.entitlements == db.entitlements + [Entitlement(u.id, s.id)]
  {
    db.(users := SubtractCoins(db.users, u.id, s.coinCost),
        entitlements := db.entitlements + [Entitlement(u.id, s.id)])
  }

  /** The handler, run as one sequential step on `db`. A failure changes nothing: the
      checks before the transaction write nothing, and `ROLLBACK` undoes a debit or an
      insert that the transaction made before a later statement threw. */
  function Purchase(db: Db, session: Option<int>, testSeriesId: Option<int>, fault: PurchaseFault): (out: (Db, Response<PurchaseBody>))
    ensures out.1.Failure? ==> out.0 == db
    ensures out.1.Success? ==> out.1.status == OK && fault == NoFault
    ensures out.1.Success? || out.1.status in {UNAUTHORIZED, BAD_REQUEST, NOT_FOUND, CONFLICT, SERVER_ERROR}
  {
    if session.None? then (db, Failure(UNAUTHORIZED))
    else if IsFalsyId(testSeriesId) then (db, Failure(BAD_REQUEST))
    else
      var userId, seriesId := session.value, testSeriesId.value;
      if fault == EntitlementReadFails then (db, Failure(SERVER_ERROR))
      else if HasEntitlement(db.entitlements, userId, seriesId) then (db, Failure(CONFLICT))
      else if fault == SeriesReadFails then (db, Failure(SERVER_ERROR))
      else match FindSeries(db.series, seriesId)
        case None => (db, Failure(NOT_FOUND))
        case Some(s) =>
          if fault == UserReadFails then (db, Failure(SERVER_ERROR))
          else match FindUser(db.users, userId)
            // `users[0]` is undefined and reading its `coins` throws
            case None => (db, Failure(SERVER_ERROR))
            case Some(u) =>
              if u.coins < s.coinCost then (db, Failure(BAD_REQUEST))
              else if fault == BeginFails || InTransaction(fault) then (db, Failure(SERVER_ERROR))
              else (Buy(db, u, s), Success(OK, PurchaseBody(s.name, u.coins - s.coinCost)))
  }

  /** The guards run in a fixed order and none of them changes the store: no session gives
      401, a falsy series id 400, an entitlement the buyer already holds 409 (before the
      series is even looked up), an unknown series 404, and a balance below the price 400. */
  lemma PurchaseRejects(db: Db, session: Option<int>, testSeriesId: Option<int>, fault: PurchaseFault)
    ensures session.None? ==> Purchase(db, session, testSeriesId, fault) == (db, Failure(UNAUTHORIZED))
    ensures session.Some? && IsFalsyId(testSeriesId) ==> Purchase(db, session, testSeriesId, fault) == (db, Failure(BAD_REQUEST))
    ensures session.Some? && !IsFalsyId(testSeriesId) && fault != EntitlementReadFails
            && HasEntitlement(db.entitlements, session.value, testSeriesId.value) ==>
              Purchase(db, session, testSeriesId, fault) == (db, Failure(CONFLICT))
    ensures session.Some? && !IsFalsyId(testSeriesId) && fault !in {EntitlementReadFails, SeriesReadFails}
            && !HasEntitlement(db.entitlements, session.value, testSeriesId.value)
            && FindSeries(db.series, testSeriesId.value).None? ==>
              Purchase(db, session, testSeriesId, fault) == (db, Failure(NOT_FOUND))
    ensures session.Some? && !IsFalsyId(testSeriesId) && fault !in {EntitlementReadFails, SeriesReadFails, UserReadFails}
            && !HasEntitlement(db.entitlements, session.value, testSeriesId.value)
            && FindSeries(db.series, testSeriesId.value).Some?
            && FindUser(db.users, session.value).Some?
            && FindUser(db.users, session.value).value.coins < FindSeries(db.series, testSeriesId.value).value.coinCost ==>
              Purchase(db, session, testSeriesId, fault) == (db, Failure(BAD_REQUEST))
  {
  }

  /** A purchase succeeds exactly when the buyer is signed in, holds no entitlement to the
      series, the series and the buyer's row exist, the balance covers the price and no
      statement fails; it then debits the price and adds the entitlement. */
  lemma PurchaseSucceeds(db: Db, userId: int, seriesId: int, fault: PurchaseFault, s: TestSeries, u: User)
    requires seriesId != 0
    requires FindSeries(db.series, seriesId) == Some(s) && FindUser(db.users, userId) == Some(u)
    ensures Purchase(db, Some(userId), Some(seriesId), fault).1.Success? <==>
              fault == NoFault && !HasEntitlement(db.entitlements, userId, seriesId) && u.coins >= s.coinCost
    ensures Purchase(db, Some(userId), Some(seriesId), fault).1.Success? ==>
              Purchase(db, Some(userId), Some(seriesId), fault)
              == (Buy(db, u, s), Success(OK, PurchaseBody(s.name, u.coins - s.coinCost)))
  {
  }

  /** Only a signed-in buyer with a non-falsy series id, an existing series and an
      existing user row can succeed. */
  lemma PurchaseSuccessNeeds(db: Db, session: Option<int>, testSeriesId: Option<int>, fault: PurchaseFault)
    requires Purchase(db, session, testSeriesId, fault).1.Success?
    ensures session.Some? && !IsFalsyId(testSeriesId)
    ensures FindSeries(db.series, testSeriesId.value).Some? && FindUser(db.users, session.value).Some?
  {
  }

  /** Debiting an affordable price and adding a new entitlement keeps the store valid. */
  lemma BuyKeepsValid(db: Db, u: User, s: TestSeries)
    requires Valid(db) && FindUser(db.users, u.id) == Some(u) && u.coins >= s.coinCost
    requires !HasEntitlement(db.entitlements, u.id, s.id)
    ensures Valid(Buy(db, u, s))
  {
    DebitKeepsUsersValid(db.users, db.nextUserId, u, s.coinCost);
    var added := db.entitlements + [Entitlement(u.id, s.id)];
    assert EntitlementsUnique(added) by {
      forall i, j | 0 <= i < j < |added| ensures added[i] != added[j] {
        if j == |db.entitlements| {
          assert added[i] == db.entitlements[i];
        }
      }
    }
  }

  /** The debit keeps keys unique, ids below the counter and, for an affordable price,
      every balance non-negative. */
  lemma DebitKeepsUsersValid(users: seq<User>, nextUserId: int, u: User, amount: int)
    requires UserKeysUnique(users)
    requires forall i :: 0 <= i < |users| ==> users[i].id < nextUserId && users[i].coins >= 0
    requires FindUser(users, u.id) == Some(u) && u.coins >= amount
    ensures var debited := SubtractCoins(users, u.id, amount);
            && UserKeysUnique(debited)
            && forall i :: 0 <= i < |debited| ==> debited[i].id < nextUserId && debited[i].coins >= 0
  {
    var debited := SubtractCoins(users, u.id, amount);
    FindUserIsRow(users, u.id);
    forall i | 0 <= i < |users| && users[i].id == u.id ensures users[i] == u {
      var k :| 0 <= k < |users| && users[k] == u;
      assert !(k < i || i < k);
    }
    forall i, j | 0 <= i < j < |debited|
      ensures debited[i].id != debited[j].id
      ensures debited[i].username != debited[j].username
      ensures debited[i].email != debited[j].email
    {
      assert debited[i].id == users[i].id && debited[j].id == users[j].id;
      assert debited[i].username == users[i].username && debited[j].username == users[j].username;
      assert debited[i].email == users[i].email && debited[j].email == users[j].email;
    }
  }

  lemma PurchaseKeepsValid(db: Db, session: Option<int>, testSeriesId: Option<int>, fault: PurchaseFault)
    requires Valid(db)
    ensures Valid(Purchase(db, session, testSeriesId, fault).0)
  {
    if Purchase(db, session, testSeriesId, fault).1.Success? {
      PurchaseSuccessNeeds(db, session, testSeriesId, fault);
      var s, u := FindSeries(db.series, testSeriesId.value).value, FindUser(db.users, session.value).value;
      PurchaseSucceeds(db, session.value, testSeriesId.value, fault, s, u);
      BuyKeepsValid(db, u, s);
    }
  }

  /** A successful purchase lowers the buyer's balance by exactly the price, to a value
      that is not negative when the store was valid; `remainingCoins` is the balance the
      store then holds; the entitlement is the one new row; no other user row changes. */
  lemma PurchaseDebitsExactly(db: Db, userId: int, seriesId: int, fault: PurchaseFault, s: TestSeries, u: User)
    requires seriesId != 0
    requires FindSeries(db.series, seriesId) == Some(s) && FindUser(db.users, userId) == Some(u)
    requires Purchase(db, Some(userId), Some(seriesId), fault).1.Success?
    ensures var (after, r) := Purchase(db, Some(userId), Some(seriesId), fault);
            && FindUser(after.users, userId) == Some(u.(coins := u.coins - s.coinCost))
            && r.body.remainingCoins == u.coins - s.coinCost >= 0
            && after.entitlements == db.entitlements + [Entitlement(userId, seriesId)]
            && |after.users| == |db.users|
            && forall i :: 0 <= i < |db.users| && db.users[i].id != userId ==> after.users[i] == db.users[i]
  {
    PurchaseSucceeds(db, userId, seriesId, fault, s, u);
    SubtractCoinsBalance(db.users, userId, s.coinCost, u);
  }

  /** Debit and entitlement happen together or not at all, whichever statement fails:
      the entitlement table changes exactly when the purchase succeeds, the balance table
      changes only then, and a failure leaves the store as it was. */
  lemma DebitAndEntitlementTogether(db: Db, session: Option<int>, testSeriesId: Option<int>, fault: PurchaseFault)
    ensures var (after, r) := Purchase(db, session, testSeriesId, fault);
            && (after.entitlements != db.entitlements <==> r.Success?)
            && (after.users != db.users ==> after.entitlements != db.entitlements)
            && (after == db <==> r.Failure?)
  {
    var (after, r) := Purchase(db, session, testSeriesId, fault);
    if r.Success? {
      PurchaseSuccessNeeds(db, session, testSeriesId, fault);
      var s, u := FindSeries(db.series, testSeriesId.value).value, FindUser(db.users, session.value).value;
      PurchaseSucceeds(db, session.value, testSeriesId.value, fault, s, u);
      assert |after.entitlements| == |db.entitlements| + 1;
    }
  }

  /** Once a purchase has succeeded, buying the same series again never debits a second
      time: the store is left as it is and the answer is 409 (or 500 when the duplicate
      check itself cannot be read). */
  lemma RepeatPurchaseNeverDebitsTwice(db: Db, userId: int, seriesId: int, fault: PurchaseFault, again: PurchaseFault)
    requires Purchase(db, Some(userId), Some(seriesId), fault).1.Success?
    ensures var bought := Purchase(db, Some(userId), Some(seriesId), fault).0;
            Purchase(bought, Some(userId), Some(seriesId), again)
            == (bought, Failure(if again == EntitlementReadFails then SERVER_ERROR else CONFLICT))
  {
    PurchaseSuccessNeeds(db, Some(userId), Some(seriesId), fault);
    var s, u := FindSeries(db.series, seriesId).value, FindUser(db.users, userId).value;
    PurchaseSucceeds(db, userId, seriesId, fault, s, u);
    var bought := Buy(db, u, s);
    assert bought.entitlements[|db.entitlements|] == Entitlement(userId, seriesId);
  }

  /** A series that costs 20 coins and a buyer who holds 15: the purchase is refused with
      400 and nothing changes. */
  lemma InsufficientFundsScenario(db: Db, userId: int, seriesId: int, u: User, s: TestSeries)
    requires seriesId != 0
    requires FindSeries(db.series, seriesId) == Some(s) && s.coinCost == 20
    requires FindUser(db.users, userId) == Some(u) && u.coins == 15
    requires !HasEntitlement(db.entitlements, userId, seriesId)
    ensures Purchase(db, Some(userId), Some(seriesId), NoFault) == (db, Failure(BAD_REQUEST))
  {
  }
}
