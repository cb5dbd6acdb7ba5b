/** `POST /api/questions/answer`: checks a submitted option against the question, credits
    the reward on a first correct attempt, and inserts or updates the one progress row of
    the (user, question) pair. The route runs its statements without a transaction. */
module AnswerRoute {
  import opened Collections
  import opened Schema

  /** The store statement that throws, if one does; the handler's `catch` answers 500
      and whatever the earlier statements wrote stays written. */
  datatype AnswerFault = NoFault | QuestionReadFails | AttemptReadFails | CreditFails | RecordFails

  datatype AnswerBody = AnswerBody(
    isCorrect: bool,
    coinsEarned: int,
    correctOption: string,
    explanation: string)

  /** `SELECT ... FROM questions WHERE id = ?`, first row. */
  function FindQuestion(questions: seq<Question>, id: int): (r: Option<Question>)
    ensures r.Some? ==> r.value.id == id
    ensures r.None? <==> forall i :: 0 <= i < |questions| ==> questions[i].id != id
  {
    if questions == [] then None
    else if questions[0].id == id then Some(questions[0])
    else FindQuestion(questions[1..], id)
  }

  /** The question found is one of the table's rows. */
  lemma {:induction false} FindQuestionIsRow(questions: seq<Question>, id: int)
    ensures FindQuestion(questions, id).Some? ==> FindQuestion(questions, id).value in questions
  {
    if questions != [] && questions[0].id != id {
      FindQuestionIsRow(questions[1..], id);
    }
  }

  predicate IsAttemptOf(a: Attempt, userId: int, questionId: int)
  {
    a.userId == userId && a.questionId == questionId
  }

  /** `SELECT id FROM user_progress WHERE user_id = ? AND question_id = ?` is not empty. */
  predicate HasAttempt(progress: seq<Attempt>, userId: int, questionId: int)
  {
    exists i | 0 <= i < |progress| :: IsAttemptOf(progress[i], userId, questionId)
  }

  /** The first progress row of the pair, if any. */
  function AttemptOf(progress: seq<Attempt>, userId: int, questionId: int): (r: Option<Attempt>)
    ensures r.Some? <==> HasAttempt(progress, userId, questionId)
    ensures r.Some? ==> r.value in progress && IsAttemptOf(r.value, userId, questionId)
  {
    if progress == [] then None
    else if IsAttemptOf(progress[0], userId, questionId) then Some(progress[0])
    else
      var r := AttemptOf(progress[1..], userId, questionId);
      assert HasAttempt(progress, userId, questionId) ==> HasAttempt(progress[1..], userId, questionId) by {
        if HasAttempt(progress, userId, questionId) {
          var i :| 0 <= i < |progress| && IsAttemptOf(progress[i], userId, questionId);
          assert progress[1..][i - 1] == progress[i];
        }
      }
      r
  }

  /** Exactly one progress row records the pair. */
  ghost predicate ExactlyOneAttempt(progress: seq<Attempt>, userId: int, questionId: int)
  {
    && HasAttempt(progress, userId, questionId)
    && forall i, j :: 0 <= i < |progress| && 0 <= j < |progress|
         && IsAttemptOf(progress[i], userId, questionId) && IsAttemptOf(progress[j], userId, questionId)
         ==> i == j
  }

  /** `UPDATE user_progress SET user_answer = ?, is_correct = ? WHERE user_id = ? AND
      question_id = ?`; `coins_earned` is not touched. */
  function UpdateAttempts(progress: seq<Attempt>, userId: int, questionId: int, answer: string, isCorrect: bool): (r: seq<Attempt>)
    ensures |r| == |progress|
    ensures forall i :: 0 <= i < |progress| ==>
              r[i] == if IsAttemptOf(progress[i], userId, questionId)
                      then progress[i].(userAnswer := answer, isCorrect := isCorrect)
                      else progress[i]
  {
    seq(|progress|, i requires 0 <= i < |progress| =>
      if IsAttemptOf(progress[i], userId, questionId)
      then progress[i].(userAnswer := answer, isCorrect := isCorrect)
      else progress[i])
  }

  /** Insert the attempt if the pair has no row yet, otherwise update its row. */
  function RecordAttempt(progress: seq<Attempt>, userId: int, questionId: int, answer: string, isCorrect: bool, coinsEarned: int): (r: seq<Attempt>)
    ensures |r| == |progress| + (if HasAttempt(progress, userId, questionId) then 0 else 1)
    ensures forall i :: 0 <= i < |progress| && !IsAttemptOf(progress[i], userId, questionId) ==> r[i] == progress[i]
  {
    if HasAttempt(progress, userId, questionId)
    then UpdateAttempts(progress, userId, questionId, answer, isCorrect)
    else progress + [Attempt(userId, questionId, answer, isCorrect, coinsEarned)]
  }

  /** The coins a submission earns: the reward, when the pair has no progress row yet and
      the upper-cased submission equals the stored option; nothing otherwise. */
  function Earned(db: Db, userId: int, questionId: int, q: Question, answer: string): (e: int)
    ensures e == 0 || e == q.coinsReward
    ensures e != 0 ==> !HasAttempt(db.progress, userId, questionId) && Upper(answer) == q.correctOption
  {
    if !HasAttempt(db.progress, userId, questionId) && Upper(answer) == q.correctOption
    then q.coinsReward else 0
  }

  /** The store after the balance statement, which runs only for a first correct answer. */
  function Credited(db: Db, userId: int, questionId: int, q: Question, answer: string): (c: Db)
    ensures c == db.(users := c.users)
    ensures FindUser(c.users, userId) == WithCoinsAdded(FindUser(db.users, userId), Earned(db, userId, questionId, q, answer))
  {
    if !HasAttempt(db.progress, userId, questionId) && Upper(answer) == q.correctOption
    then AddCoinsBalance(db.users, userId, q.coinsReward); db.(users := AddCoins(db.users, userId, q.coinsReward))
    else db
  }

  /** The store after the balance statement and the progress insert or update. */
  function Recorded(db: Db, userId: int, questionId: int, q: Question, answer: string): (r: Db)
    ensures r == db.(users := r.users, progress := r.progress)
    ensures FindUser(r.users, userId) == WithCoinsAdded(FindUser(db.users, userId), Earned(db, userId, questionId, q, answer))
  {
    Credited(db, userId, questionId, q, answer).(progress :=
      RecordAttempt(db.progress, userId, questionId, answer, Upper(answer) == q.correctOption,
                    Earned(db, userId, questionId, q, answer)))
  }

  /** The handler, run as one sequential step on `db`. `session` is the authenticated user
      id, if any; the request fields are absent (`None`) or carry their JSON value. Only the
      balance and progress tables can change, and a failure changes nothing unless it is
      the progress write that fails after the credit. */
  function Submit(db: Db, session: Option<int>, questionId: Option<int>, userAnswer: Option<string>, fault: AnswerFault): (out: (Db, Response<AnswerBody>))
    ensures out.0 == db.(users := out.0.users, progress := out.0.progress)
    ensures out.1.Failure? && fault != RecordFails ==> out.0 == db
    ensures out.1.Success? ==> out.1.status == OK && fault !in {QuestionReadFails, AttemptReadFails, RecordFails}
    ensures out.1.Success? || out.1.status in {UNAUTHORIZED, BAD_REQUEST, NOT_FOUND, SERVER_ERROR}
  {
    if session.None? then (db, Failure(UNAUTHORIZED))
    else if IsFalsyId(questionId) || IsFalsyText(userAnswer) then (db, Failure(BAD_REQUEST))
    else if fault == QuestionReadFails then (db, Failure(SERVER_ERROR))
    else match FindQuestion(db.questions, questionId.value)
      case None => (db, Failure(NOT_FOUND))
      case Some(q) =>
        var userId, qid, answer := session.value, questionId.value, userAnswer.value;
        var isCorrect := Upper(answer) == q.correctOption;
        if fault == AttemptReadFails then (db, Failure(SERVER_ERROR))
        else if !HasAttempt(db.progress, userId, qid) && isCorrect && fault == CreditFails then (db, Failure(SERVER_ERROR))
        else if fault == RecordFails then (Credited(db, userId, qid, q, answer), Failure(SERVER_ERROR))
        else
          (Recorded(db, userId, qid, q, answer),
           Success(OK, AnswerBody(isCorrect, Earned(db, userId, qid, q, answer), q.correctOption, q.explanation)))
  }

  /** The guards run in order: no session gives 401, a falsy question id or answer gives
      400, an unknown question gives 404, and none of them changes the store. */
  lemma SubmitRejects(db: Db, session: Option<int>, questionId: Option<int>, userAnswer: Option<string>, fault: AnswerFault)
    ensures session.None? ==> Submit(db, session, questionId, userAnswer, fault) == (db, Failure(UNAUTHORIZED))
    ensures session.Some? && (IsFalsyId(questionId) || IsFalsyText(userAnswer)) ==>
              Submit(db, session, questionId, userAnswer, fault) == (db, Failure(BAD_REQUEST))
    ensures session.Some? && !IsFalsyId(questionId) && !IsFalsyText(userAnswer)
            && fault != QuestionReadFails && FindQuestion(db.questions, questionId.value).None? ==>
              Submit(db, session, questionId, userAnswer, fault) == (db, Failure(NOT_FOUND))
  {
  }

  /** A successful answer names an existing question, echoes its correct option and
      explanation, is correct exactly when the upper-cased submission equals the stored
      option, reports the coins `Earned` and leaves the store `Recorded`. */
  lemma SubmitSucceeds(db: Db, session: Option<int>, questionId: Option<int>, userAnswer: Option<string>, fault: AnswerFault)
    requires Submit(db, session, questionId, userAnswer, fault).1.Success?
    ensures session.Some? && !IsFalsyId(questionId) && !IsFalsyText(userAnswer)
    ensures FindQuestion(db.questions, questionId.value).Some?
    ensures var userId, qid, answer := session.value, questionId.value, userAnswer.value;
            var q := FindQuestion(db.questions, qid).value;
            Submit(db, session, questionId, userAnswer, fault)
            == (Recorded(db, userId, qid, q, answer),
                Success(OK, AnswerBody(Upper(answer) == q.correctOption, Earned(db, userId, qid, q, answer),
                                       q.correctOption, q.explanation)))
  {
  }

  /** With no store failure, a signed-in submission with both fields set for an existing
      question succeeds. */
  lemma SubmitWithoutFault(db: Db, userId: int, questionId: int, answer: string)
    requires questionId != 0 && answer != ""
    requires FindQuestion(db.questions, questionId).Some?
    ensures Submit(db, Some(userId), Some(questionId), Some(answer), NoFault).1.Success?
  {
  }

  /** A failed progress write after a first correct answer keeps the credit. */
  lemma SubmitRecordFails(db: Db, userId: int, questionId: int, answer: string)
    requires questionId != 0 && answer != ""
    requires FindQuestion(db.questions, questionId).Some?
    ensures var q := FindQuestion(db.questions, questionId).value;
            Submit(db, Some(userId), Some(questionId), Some(answer), RecordFails)
            == (Credited(db, userId, questionId, q, answer), Failure(SERVER_ERROR))
  {
  }

  lemma RecordAttemptKeepsUnique(progress: seq<Attempt>, userId: int, questionId: int, answer: string, isCorrect: bool, coinsEarned: int)
    requires AttemptsUnique(progress)
    ensures AttemptsUnique(RecordAttempt(progress, userId, questionId, answer, isCorrect, coinsEarned))
  {
  }

  /** Crediting a non-negative reward keeps keys unique and balances non-negative. */
  lemma CreditKeepsUsersValid(users: seq<User>, nextUserId: int, userId: int, reward: int)
    requires UserKeysUnique(users) && reward >= 0
    requires forall i :: 0 <= i < |users| ==> users[i].id < nextUserId && users[i].coins >= 0
    ensures var credited := AddCoins(users, userId, reward);
            && UserKeysUnique(credited)
            && forall i :: 0 <= i < |credited| ==> credited[i].id < nextUserId && credited[i].coins >= 0
  {
    var credited := AddCoins(users, userId, reward);
    forall i, j | 0 <= i < j < |credited|
      ensures credited[i].id != credited[j].id
      ensures credited[i].username != credited[j].username
      ensures credited[i].email != credited[j].email
    {
      assert credited[i].id == users[i].id && credited[j].id == users[j].id;
      assert credited[i].username == users[i].username && credited[j].username == users[j].username;
      assert credited[i].email == users[i].email && credited[j].email == users[j].email;
    }
  }

  /** Every outcome, the partial one after a failed progress write included, keeps the
      store's constraints. */
  lemma SubmitKeepsValid(db: Db, session: Option<int>, questionId: Option<int>, userAnswer: Option<string>, fault: AnswerFault)
    requires Valid(db)
    ensures Valid(Submit(db, session, questionId, userAnswer, fault).0)
  {
    var (after, r) := Submit(db, session, questionId, userAnswer, fault);
    if after != db {
      var userId, qid, answer := session.value, questionId.value, userAnswer.value;
      var q := FindQuestion(db.questions, qid).value;
      FindQuestionIsRow(db.questions, qid);
      CreditKeepsUsersValid(db.users, db.nextUserId, userId, q.coinsReward);
      RecordAttemptKeepsUnique(db.progress, userId, qid, answer, Upper(answer) == q.correctOption, Earned(db, userId, qid, q, answer));
    }
  }

  /** On success the reward is credited exactly when the pair had no progress row and the
      answer is correct; the submitter's balance rises by exactly `coinsEarned` and every
      other user row stays as it was. */
  lemma SubmitSettlesCoins(db: Db, session: Option<int>, questionId: Option<int>, userAnswer: Option<string>, fault: AnswerFault)
    requires Submit(db, session, questionId, userAnswer, fault).1.Success?
    ensures var (after, r) := Submit(db, session, questionId, userAnswer, fault);
            var userId, q := session.value, FindQuestion(db.questions, questionId.value).value;
            && r.body.coinsEarned == (if !HasAttempt(db.progress, userId, questionId.value) && r.body.isCorrect then q.coinsReward else 0)
            && FindUser(after.users, userId) == WithCoinsAdded(FindUser(db.users, userId), r.body.coinsEarned)
            && |after.users| == |db.users|
            && forall i :: 0 <= i < |db.users| && db.users[i].id != userId ==> after.users[i] == db.users[i]
  {
    SubmitSucceeds(db, session, questionId, userAnswer, fault);
    var userId, q := session.value, FindQuestion(db.questions, questionId.value).value;
    AddCoinsBalance(db.users, userId, q.coinsReward);
  }

  /** After a successful call the pair has exactly one progress row. It holds the raw
      submission and its correctness; its `coins_earned` is what this call credited when
      the row is new and is kept when the row existed. Rows of other pairs are unchanged. */
  lemma SubmitRecordsOneAttempt(db: Db, session: Option<int>, questionId: Option<int>, userAnswer: Option<string>, fault: AnswerFault)
    requires AttemptsUnique(db.progress)
    requires Submit(db, session, questionId, userAnswer, fault).1.Success?
    ensures var (after, r) := Submit(db, session, questionId, userAnswer, fault);
            var userId, questionId := session.value, questionId.value;
            var earned := match AttemptOf(db.progress, userId, questionId)
                          case None => r.body.coinsEarned
                          case Some(a) => a.coinsEarned;
            && ExactlyOneAttempt(after.progress, userId, questionId)
            && AttemptOf(after.progress, userId, questionId)
               == Some(Attempt(userId, questionId, userAnswer.value, r.body.isCorrect, earned))
            && |after.progress| == |db.progress| + (if HasAttempt(db.progress, userId, questionId) then 0 else 1)
            && forall i :: 0 <= i < |db.progress| && !IsAttemptOf(db.progress[i], userId, questionId) ==>
                 after.progress[i] == db.progress[i]
  {
    SubmitSucceeds(db, session, questionId, userAnswer, fault);
    var userId, qid, answer := session.value, questionId.value, userAnswer.value;
    var q := FindQuestion(db.questions, qid).value;
    var isCorrect := Upper(answer) == q.correctOption;
    RecordAttemptIsOne(db.progress, userId, qid, answer, isCorrect, Earned(db, userId, qid, q, answer));
  }

  /** The insert-or-update leaves exactly one row for a pair that had at most one. */
  lemma RecordAttemptIsOne(progress: seq<Attempt>, userId: int, questionId: int, answer: string, isCorrect: bool, coinsEarned: int)
    requires AttemptsUnique(progress)
    ensures var recorded := RecordAttempt(progress, userId, questionId, answer, isCorrect, coinsEarned);
            var earned := match AttemptOf(progress, userId, questionId)
                          case None => coinsEarned
                          case Some(a) => a.coinsEarned;
            && ExactlyOneAttempt(recorded, userId, questionId)
            && AttemptOf(recorded, userId, questionId) == Some(Attempt(userId, questionId, answer, isCorrect, earned))
            && |recorded| == |progress| + (if HasAttempt(progress, userId, questionId) then 0 else 1)
            && forall i :: 0 <= i < |progress| && !IsAttemptOf(progress[i], userId, questionId) ==>
                 recorded[i] == progress[i]
  {
    var recorded := RecordAttempt(progress, userId, questionId, answer, isCorrect, coinsEarned);
    if HasAttempt(progress, userId, questionId) {
      var k :| 0 <= k < |progress| && IsAttemptOf(progress[k], userId, questionId);
      assert recorded[k] == progress[k].(userAnswer := answer, isCorrect := isCorrect);
      AttemptOfIsOnly(progress, userId, questionId, k);
      AttemptOfIsOnly(recorded, userId, questionId, k);
    } else {
      var n := |progress|;
      assert recorded[n] == Attempt(userId, questionId, answer, isCorrect, coinsEarned);
      AttemptOfIsOnly(recorded, userId, questionId, n);
    }
  }

  /** When the pair's only row sits at index `k`, it is the row the lookup finds. */
  lemma {:induction false} AttemptOfIsOnly(progress: seq<Attempt>, userId: int, questionId: int, k: nat)
    requires k < |progress| && IsAttemptOf(progress[k], userId, questionId)
    requires forall i :: 0 <= i < |progress| && i != k ==> !IsAttemptOf(progress[i], userId, questionId)
    ensures AttemptOf(progress, userId, questionId) == Some(progress[k])
    ensures ExactlyOneAttempt(progress, userId, questionId)
  {
    if k > 0 {
      AttemptOfIsOnly(progress[1..], userId, questionId, k - 1);
    }
  }

  /** A resubmission credits nothing: the balance table is untouched and the answer
      reports zero coins, whatever the answer and whatever the correctness. */
  lemma ResubmissionCreditsNothing(db: Db, userId: int, questionId: Option<int>, userAnswer: Option<string>, fault: AnswerFault)
    requires questionId.Some? && HasAttempt(db.progress, userId, questionId.value)
    ensures var (after, r) := Submit(db, Some(userId), questionId, userAnswer, fault);
            && after.users == db.users
            && (r.Success? ==> r.body.coinsEarned == 0)
  {
  }

  /** Submits each answer in turn for one (user, question) pair, with no store failure;
      returns the store afterwards and the coins the responses reported. */
  function SubmitAll(db: Db, userId: int, questionId: int, answers: seq<string>): (Db, int)
    decreases |answers|
  {
    if answers == [] then (db, 0)
    else
      var (next, r) := Submit(db, Some(userId), Some(questionId), Some(answers[0]), NoFault);
      var (last, rest) := SubmitAll(next, userId, questionId, answers[1..]);
      (last, (if r.Success? then r.body.coinsEarned else 0) + rest)
  }

  /** However many answers are submitted for one pair with no store failure, right or
      wrong in any order, the reward is credited at most once (a failed progress write
      breaks this, see `RetryAfterRecordFailureCreditsTwice`): the coins reported are either nothing or the
      question's reward, nothing when the pair already had a row, the full reward when
      the first submission is a correct one for a pair with no row, and the balance rises
      by exactly the coins reported. */
  lemma {:induction false} CreditAtMostOnce(db: Db, userId: int, questionId: int, answers: seq<string>)
    ensures var (after, total) := SubmitAll(db, userId, questionId, answers);
            && (total == 0
                || (FindQuestion(db.questions, questionId).Some?
                    && total == FindQuestion(db.questions, questionId).value.coinsReward))
            && (HasAttempt(db.progress, userId, questionId) ==> total == 0)
            && (questionId != 0 && answers != [] && answers[0] != ""
                && FindQuestion(db.questions, questionId).Some?
                && !HasAttempt(db.progress, userId, questionId)
                && Upper(answers[0]) == FindQuestion(db.questions, questionId).value.correctOption
                ==> total == FindQuestion(db.questions, questionId).value.coinsReward)
            && FindUser(after.users, userId) == WithCoinsAdded(FindUser(db.users, userId), total)
            && after.questions == db.questions
    decreases |answers|
  {
    if answers != [] {
      var (next, r) := Submit(db, Some(userId), Some(questionId), Some(answers[0]), NoFault);
      CreditAtMostOnce(next, userId, questionId, answers[1..]);
      var (last, rest) := SubmitAll(next, userId, questionId, answers[1..]);
      if r.Success? {
        SubmitSettlesCoins(db, Some(userId), Some(questionId), Some(answers[0]), NoFault);
        SubmittedPairHasAttempt(db, userId, questionId, answers[0]);
        WithCoinsAddedTwice(FindUser(db.users, userId), r.body.coinsEarned, rest);
      }
    }
  }

  /** A successful submission leaves a row for the pair. */
  lemma SubmittedPairHasAttempt(db: Db, userId: int, questionId: int, answer: string)
    requires Submit(db, Some(userId), Some(questionId), Some(answer), NoFault).1.Success?
    ensures HasAttempt(Submit(db, Some(userId), Some(questionId), Some(answer), NoFault).0.progress, userId, questionId)
  {
    SubmitSucceeds(db, Some(userId), Some(questionId), Some(answer), NoFault);
    var q := FindQuestion(db.questions, questionId).value;
    var after := Recorded(db, userId, questionId, q, answer);
    if HasAttempt(db.progress, userId, questionId) {
      var k :| 0 <= k < |db.progress| && IsAttemptOf(db.progress[k], userId, questionId);
      assert IsAttemptOf(after.progress[k], userId, questionId);
    } else {
      assert IsAttemptOf(after.progress[|db.progress|], userId, questionId);
    }
  }

  /** Without a transaction, a store failure on the progress write keeps the credit but
      leaves no row, so retrying the same correct answer credits the reward a second time. */
  lemma RetryAfterRecordFailureCreditsTwice(db: Db, userId: int, questionId: int, answer: string)
    requires questionId != 0 && answer != ""
    requires FindQuestion(db.questions, questionId).Some?
    requires Upper(answer) == FindQuestion(db.questions, questionId).value.correctOption
    requires !HasAttempt(db.progress, userId, questionId)
    ensures var reward := FindQuestion(db.questions, questionId).value.coinsReward;
            var (failed, r1) := Submit(db, Some(userId), Some(questionId), Some(answer), RecordFails);
            var (retried, r2) := Submit(failed, Some(userId), Some(questionId), Some(answer), NoFault);
            && r1 == Failure(SERVER_ERROR)
            && r2.Success? && r2.body.coinsEarned == reward
            && FindUser(retried.users, userId) == WithCoinsAdded(FindUser(db.users, userId), 2 * reward)
  {
    var q := FindQuestion(db.questions, questionId).value;
    SubmitRecordFails(db, userId, questionId, answer);
    var failed := Credited(db, userId, questionId, q, answer);
    assert failed == db.(users := AddCoins(db.users, userId, q.coinsReward));
    AddCoinsBalance(db.users, userId, q.coinsReward);
    assert FindUser(failed.users, userId) == WithCoinsAdded(FindUser(db.users, userId), q.coinsReward);
    SubmitWithoutFault(failed, userId, questionId, answer);
    SubmitSettlesCoins(failed, Some(userId), Some(questionId), Some(answer), NoFault);
    var retried := Submit(failed, Some(userId), Some(questionId), Some(answer), NoFault).0;
    assert FindUser(retried.users, userId) == WithCoinsAdded(FindUser(failed.users, userId), q.coinsReward);
    WithCoinsAddedTwice(FindUser(db.users, userId), q.coinsReward, q.coinsReward);
  }

  /** Only the submission is upper-cased: a stored correct option that holds a lower-case
      letter is matched by no submission at all. */
  lemma LowercaseCorrectOptionNeverMatches(db: Db, session: Option<int>, questionId: Option<int>, userAnswer: Option<string>, fault: AnswerFault)
    requires Submit(db, session, questionId, userAnswer, fault).1.Success?
    requires var q := FindQuestion(db.questions, questionId.value).value;
             exists i :: 0 <= i < |q.correctOption| && IsLowerAscii(q.correctOption[i])
    ensures !Submit(db, session, questionId, userAnswer, fault).1.body.isCorrect
  {
    SubmitSucceeds(db, session, questionId, userAnswer, fault);
    var q := FindQuestion(db.questions, questionId.value).value;
    var i :| 0 <= i < |q.correctOption| && IsLowerAscii(q.correctOption[i]);
    UpperRemovesLowercase(userAnswer.value);
  }

  /** A question whose correct option is "B" and whose reward is 5: submitting "b" is
      correct and credits 5; resubmitting "A" is wrong, credits nothing, and the stored
      attempt then holds "A" and "incorrect" while keeping the 5 coins it recorded. */
  lemma LowercaseThenWrongScenario(db: Db, userId: int, questionId: int)
    requires questionId != 0
    requires FindQuestion(db.questions, questionId).Some?
    requires FindQuestion(db.questions, questionId).value.correctOption == "B"
    requires FindQuestion(db.questions, questionId).value.coinsReward == 5
    requires AttemptsUnique(db.progress) && !HasAttempt(db.progress, userId, questionId)
    ensures var (first, r1) := Submit(db, Some(userId), Some(questionId), Some("b"), NoFault);
            var (second, r2) := Submit(first, Some(userId), Some(questionId), Some("A"), NoFault);
            && r1.Success? && r1.body.isCorrect && r1.body.coinsEarned == 5
            && r2.Success? && !r2.body.isCorrect && r2.body.coinsEarned == 0
            && FindUser(second.users, userId) == WithCoinsAdded(FindUser(db.users, userId), 5)
            && AttemptOf(second.progress, userId, questionId) == Some(Attempt(userId, questionId, "A", false, 5))
  {
    assert Upper("b") == "B";
    assert Upper("A") == "A";
    SubmitWithoutFault(db, userId, questionId, "b");
    var (first, r1) := Submit(db, Some(userId), Some(questionId), Some("b"), NoFault);
    SubmitSucceeds(db, Some(userId), Some(questionId), Some("b"), NoFault);
    SubmitSettlesCoins(db, Some(userId), Some(questionId), Some("b"), NoFault);
    SubmitRecordsOneAttempt(db, Some(userId), Some(questionId), Some("b"), NoFault);
    SubmitKeepsUnique(db, Some(userId), Some(questionId), Some("b"), NoFault);
    SubmitWithoutFault(first, userId, questionId, "A");
    SubmitSucceeds(first, Some(userId), Some(questionId), Some("A"), NoFault);
    SubmitSettlesCoins(first, Some(userId), Some(questionId), Some("A"), NoFault);
    SubmitRecordsOneAttempt(first, Some(userId), Some(questionId), Some("A"), NoFault);
  }

  /** Any outcome keeps at most one progress row per pair. */
  lemma SubmitKeepsUnique(db: Db, session: Option<int>, questionId: Option<int>, userAnswer: Option<string>, fault: AnswerFault)
    requires AttemptsUnique(db.progress)
    ensures AttemptsUnique(Submit(db, session, questionId, userAnswer, fault).0.progress)
  {
    var after := Submit(db, session, questionId, userAnswer, fault).0;
    if after.progress != db.progress {
      var userId, qid, answer := session.value, questionId.value, userAnswer.value;
      var q := FindQuestion(db.questions, qid).value;
      RecordAttemptKeepsUnique(db.progress, userId, qid, answer, Upper(answer) == q.correctOption, Earned(db, userId, qid, q, answer));
    }
  }
}
