/** The database the writing handlers share, as an object whose tables they update in
    place. Each handler is a method that runs its statements in the source's order —
    the guards, then each `UPDATE` or `INSERT` as an assignment to the table it writes —
    and is proved to leave the store and answer exactly as the route's step function
    says, so every property proved of the step functions holds of the methods. */
module Store {
  import opened Collections
  import opened Schema
  import AnswerRoute
  import PurchaseRoute
  import RegisterRoute
  import ProfileRoute

  class Store {
    var users: seq<User>
    var nextUserId: int
    var questions: seq<Question>
    var progress: seq<Attempt>
    var entitlements: seq<Entitlement>
    var series: seq<TestSeries>
    var categories: seq<Category>
    var topics: seq<Topic>

    /** The tables as a value. */
    function Snapshot(): Db
      reads this
    {
      Db(users, nextUserId, questions, progress, entitlements, series, categories, topics)
    }

    /** The store's key, balance and price constraints hold. */
    ghost predicate Valid()
      reads this
    {
      Schema.Valid(Snapshot())
    }

    constructor (db: Db)
      requires Schema.Valid(db)
      ensures Snapshot() == db && Valid()
    {
      users, nextUserId, questions, progress := db.users, db.nextUserId, db.questions, db.progress;
      entitlements, series, categories, topics := db.entitlements, db.series, db.categories, db.topics;
    }

    /** `POST /api/questions/answer`. The statements run without a transaction: when the
        progress write throws, the credit already made stays. */
    method SubmitAnswer(session: Option<int>, questionId: Option<int>, userAnswer: Option<string>,
                        fault: AnswerRoute.AnswerFault) returns (r: Response<AnswerRoute.AnswerBody>)
      requires Valid()
      modifies this
      ensures Valid()
      ensures (Snapshot(), r) == AnswerRoute.Submit(old(Snapshot()), session, questionId, userAnswer, fault)
    {
      ghost var before := Snapshot();
      AnswerRoute.SubmitKeepsValid(before, session, questionId, userAnswer, fault);
      if session.None? {
        return Failure(UNAUTHORIZED);
      }
      if IsFalsyId(questionId) || IsFalsyText(userAnswer) {
        return Failure(BAD_REQUEST);
      }
      if fault == AnswerRoute.QuestionReadFails {
        return Failure(SERVER_ERROR);
      }
      var found := AnswerRoute.FindQuestion(questions, questionId.value);
      if found.None? {
        return Failure(NOT_FOUND);
      }
      var q, userId, qid, answer := found.value, session.value, questionId.value, userAnswer.value;
      var isCorrect := Upper(answer) == q.correctOption;
      if fault == AnswerRoute.AttemptReadFails {
        return Failure(SERVER_ERROR);
      }
      var existing := AnswerRoute.HasAttempt(progress, userId, qid);
      var earned := 0;
      if !existing && isCorrect {
        if fault == AnswerRoute.CreditFails {
          return Failure(SERVER_ERROR);
        }
        users := AddCoins(users, userId, q.coinsReward);
        earned := q.coinsReward;
      }
      if fault == AnswerRoute.RecordFails {
        return Failure(SERVER_ERROR);
      }
      if existing {
        progress := AnswerRoute.UpdateAttempts(progress, userId, qid, answer, isCorrect);
      } else {
        progress := progress + [Attempt(userId, qid, answer, isCorrect, earned)];
      }
      r := Success(OK, AnswerRoute.AnswerBody(isCorrect, earned, q.correctOption, q.explanation));
    }

    /** `POST /api/test-series/purchase`. The debit and the entitlement insert run between
        `START TRANSACTION` and `COMMIT`; when either of them or the commit throws, the
        rollback puts both tables back as they were at the start of the transaction. */
    method Purchase(session: Option<int>, testSeriesId: Option<int>, fault: PurchaseRoute.PurchaseFault)
      returns (r: Response<PurchaseRoute.PurchaseBody>)
      requires Valid()
      modifies this
      ensures Valid()
      ensures (Snapshot(), r) == PurchaseRoute.Purchase(old(Snapshot()), session, testSeriesId, fault)
    {
      ghost var before := Snapshot();
      PurchaseRoute.PurchaseKeepsValid(before, session, testSeriesId, fault);
      if session.None? {
        return Failure(UNAUTHORIZED);
      }
      if IsFalsyId(testSeriesId) {
        return Failure(BAD_REQUEST);
      }
      var userId, seriesId := session.value, testSeriesId.value;
      if fault == PurchaseRoute.EntitlementReadFails {
        return Failure(SERVER_ERROR);
      }
      if PurchaseRoute.HasEntitlement(entitlements, userId, seriesId) {
        return Failure(CONFLICT);
      }
      if fault == PurchaseRoute.SeriesReadFails {
        return Failure(SERVER_ERROR);
      }
      var foundSeries := PurchaseRoute.FindSeries(series, seriesId);
      if foundSeries.None? {
        return Failure(NOT_FOUND);
      }
      var s := foundSeries.value;
      if fault == PurchaseRoute.UserReadFails {
        return Failure(SERVER_ERROR);
      }
      var foundUser := FindUser(users, userId);
      if foundUser.None? {
        // `user[0].coins` on an empty result throws
        return Failure(SERVER_ERROR);
      }
      var u := foundUser.value;
      if u.coins < s.coinCost {
        return Failure(BAD_REQUEST);
      }
      if fault == PurchaseRoute.BeginFails {
        return Failure(SERVER_ERROR);
      }
      var savedUsers, savedEntitlements := users, entitlements;
      if fault == PurchaseRoute.DebitFails {
        users, entitlements := savedUsers, savedEntitlements;
        return Failure(SERVER_ERROR);
      }
      users := SubtractCoins(users, userId, s.coinCost);
      if fault == PurchaseRoute.InsertFails {
        users, entitlements := savedUsers, savedEntitlements;
        return Failure(SERVER_ERROR);
      }
      entitlements := entitlements + [Entitlement(userId, seriesId)];
      if fault == PurchaseRoute.CommitFails {
        users, entitlements := savedUsers, savedEntitlements;
        return Failure(SERVER_ERROR);
      }
      r := Success(OK, PurchaseRoute.PurchaseBody(s.name, u.coins - s.coinCost));
      PurchaseRoute.PurchaseSucceeds(before, userId, seriesId, fault, s, u);
      assert Snapshot() == PurchaseRoute.Buy(before, u, s);
    }

    /** `POST /api/auth/register`; `hash` computes the stored credential hash. */
    method Register(username: Option<string>, email: Option<string>, password: Option<string>,
                    fullName: Option<string>, hash: string -> string, fault: RegisterRoute.RegisterFault)
      returns (r: Response<()>)
      requires Valid()
      modifies this
      ensures Valid()
      ensures (Snapshot(), r) == RegisterRoute.Register(old(Snapshot()), username, email, password, fullName, hash, fault)
    {
      ghost var before := Snapshot();
      RegisterRoute.RegisterKeepsValid(before, username, email, password, fullName, hash, fault);
      if IsFalsyText(username) || IsFalsyText(email) || IsFalsyText(password) {
        return Failure(BAD_REQUEST);
      }
      if fault == RegisterRoute.LookupFails {
        return Failure(SERVER_ERROR);
      }
      if RegisterRoute.Taken(users, username.value, email.value) {
        return Failure(CONFLICT);
      }
      if !fault.NoFault? {
        return Failure(SERVER_ERROR);
      }
      var hashed := hash(password.value);
      users := users + [User(nextUserId, username.value, email.value, hashed, OrNull(fullName), None, 0)];
      nextUserId := nextUserId + 1;
      r := Success(CREATED, ());
    }

    /** `PUT /api/user/profile`. */
    method UpdateProfile(session: Option<int>, fullName: Option<string>, picture: Option<string>,
                         fault: ProfileRoute.UpdateFault) returns (r: Response<()>)
      requires Valid()
      modifies this
      ensures Valid()
      ensures (Snapshot(), r) == ProfileRoute.UpdateProfile(old(Snapshot()), session, fullName, picture, fault)
    {
      ghost var before := Snapshot();
      ProfileRoute.UpdateProfileKeepsValid(before, session, fullName, picture, fault);
      if session.None? {
        return Failure(UNAUTHORIZED);
      }
      if fault == ProfileRoute.UpdateFails {
        return Failure(SERVER_ERROR);
      }
      users := ProfileRoute.SetDisplay(users, session.value, OrNull(fullName), OrNull(picture));
      r := Success(OK, ());
    }
  }
}
