# Quiz coins and test series: a verified model of the route handlers

The application is a quiz site. Signed-in users answer multiple-choice questions. A correct
first attempt at a question earns its coin reward; a wrong first answer forfeits the
reward for good. Coins buy access to test series. A
leaderboard ranks users by coins, and a profile page shows each user's statistics. This
project models the seven server route handlers that read and write the MySQL store:

- answer settlement (`POST /api/questions/answer`);
- test-series purchase (`POST /api/test-series/purchase`);
- registration (`POST /api/auth/register`);
- the profile read and update (`GET`/`PUT /api/user/profile`);
- the leaderboard (`GET /api/leaderboard`);
- the category catalogue (`GET /api/categories`);
- the test-series listing (`GET /api/test-series`).

## Structure

- `schema.dfy` (`Schema`): one datatype per table row and the whole store `Db`, a value
  with one sequence per table and the `AUTO_INCREMENT` counter of `users`. It also holds
  the HTTP responses and JavaScript truthiness (`!x`, `x || null`). Lookups by key and
  the two balance updates are here too. `Valid` is the set of key, balance and price
  constraints that every writing handler keeps.
- `answer.dfy`, `purchase.dfy`, `register.dfy`, `profile.dfy`: each handler is a step
  function `(store, request, fault) -> (store', response)`. Each guard and each SQL
  statement appears in the source's order. `fault` names the store statement that
  throws, if one does; the handler's `catch` then answers 500. The lemmas beside each
  function state the guard outcomes, a closed form of success and the preserved
  constraints, along with cross-request properties such as "a question pays at most
  once".
- `store.dfy` (`Store.Store`): a class with one field per table. Its methods
  `SubmitAnswer`, `Purchase`, `Register` and `UpdateProfile` run the handlers'
  statements in place: guards with early returns, then each `UPDATE`/`INSERT` as an
  assignment to its table. `Purchase` saves both tables at `START TRANSACTION` and
  restores them on every failure after it (the `ROLLBACK`). Each method is proved to
  leave exactly the store and answer its step function gives and to keep `Valid`, so
  the step-function lemmas hold of the methods.
- `leaderboard.dfy`, `categories.dfy`, `test_series.dfy`: the read-only handlers as pure
  functions of the store.
- `collections.dfy` (`COUNT`, `filter`, projection) and `sorting.dfy` (`ORDER BY` as a
  stable insertion sort; code-point order on strings) are shared helpers.

Every handler is modelled as one atomic sequential step on the store. Two behaviours of
the code as written are proved rather than hidden:

- The answer route has no transaction. If the progress write fails after the credit,
  the credit stays, and a retry of the same correct answer pays a second time
  (`AnswerRoute.RetryAfterRecordFailureCreditsTwice`).
- The comparison upper-cases only the submission. A stored option with a lower-case
  letter therefore never matches (`AnswerRoute.LowercaseCorrectOptionNeverMatches`).

## Model

| member | source | states |
|---|---|---|
| Schema.OrNull | src/app/api/auth/register/route.ts:43 | an absent or empty field becomes null, and any other value is kept |
| Schema.IsFalsyId | src/app/api/test-series/purchase/route.ts:27 | (no contract of its own) `!x` on a numeric field: absent, null or 0; `PurchaseRejects` and `SubmitRejects` state the 400 it guards |
| Schema.IsFalsyText | src/app/api/auth/register/route.ts:14 | (no contract of its own) `!x` on a string field: absent, null or empty; `OrNull` and `RegisterRejects` state its meaning |
| Schema.Upper | src/app/api/questions/answer/route.ts:42 | (no contract of its own) `toUpperCase` character by character; `UpperRemovesLowercase` states its content |
| Collections.Count | src/app/api/user/profile/route.ts:50 | an SQL `COUNT` over the rows meeting a condition never exceeds the number of rows |
| Collections.Filter | src/app/api/categories/route.ts:53 | `filter` keeps as many elements as satisfy the condition, every one of them satisfies it (with `FilterExact`: exactly the elements of the input that do) |
| Collections.Map | src/app/api/categories/route.ts:51 | `map` keeps the length and puts the image of each element at its position |
| Sorting.SortBy | src/app/api/leaderboard/route.ts:25 | `ORDER BY` (every one in the handlers) returns a reordering of the rows of the same length, ordered by the key whenever the key is a total preorder |
| Schema.UpperRemovesLowercase | src/app/api/questions/answer/route.ts:42 | upper-casing keeps the length, turns each lower-case ASCII letter into its own capital (so none is left) and keeps every other character |
| Schema.FindUser | src/app/api/test-series/purchase/route.ts:58-63 | the row found by `WHERE id = ?` has that id; there is none exactly when no row has the id |
| Schema.AddCoins | src/app/api/questions/answer/route.ts:57-60 | `coins = coins + ?` raises the balance of the rows with that id by the reward and leaves every other row as it was |
| Schema.SubtractCoins | src/app/api/test-series/purchase/route.ts:82-85 | `coins = coins - ?` lowers the balance of the rows with that id by the price and leaves every other row as it was |
| Schema.AddCoinsBalance | src/app/api/questions/answer/route.ts:57-60 | after the credit, the user found by id is the old row with its balance raised by exactly the delta |
| Schema.SubtractCoinsBalance | src/app/api/test-series/purchase/route.ts:82-85 | after the debit, the user found by id is the old row with its balance lowered by exactly the price |
| AnswerRoute.FindQuestion | src/app/api/questions/answer/route.ts:32-39 | the question found has the requested id; none exactly when no row has it (the 404 case) |
| AnswerRoute.HasAttempt | src/app/api/questions/answer/route.ts:45-53 | (no contract of its own) the pair has a progress row; `AttemptOf` states the lookup it stands for |
| AnswerRoute.Earned | src/app/api/questions/answer/route.ts:50-61 | the coins a submission earns are 0 or the reward, and nonzero only on a first attempt whose upper-cased answer equals the stored option |
| AnswerRoute.Credited | src/app/api/questions/answer/route.ts:50-61 | the balance statement changes only the users table, and the user found by id afterwards has exactly the earned coins added |
| AnswerRoute.RecordAttempt | src/app/api/questions/answer/route.ts:63-82 | the insert-or-update grows the table by one row only when the pair had none, and leaves every row of another pair in place |
| AnswerRoute.Recorded | src/app/api/questions/answer/route.ts:50-82 | the credit and the progress write change only the users and progress tables, and the user ends with exactly the earned coins added |
| AnswerRoute.AttemptOf | src/app/api/questions/answer/route.ts:45-48 | a progress row of the pair is found exactly when the pair has one, and it is a row of the table for that pair |
| AnswerRoute.UpdateAttempts | src/app/api/questions/answer/route.ts:74-81 | the progress update rewrites answer and correctness of the pair's rows only, keeping `coins_earned` |
| AnswerRoute.Submit | src/app/api/questions/answer/route.ts:14-97 | only balances and progress can change; every failure except the progress write leaves the store unchanged; success is 200, and otherwise the status is 401, 400, 404 or 500 |
| AnswerRoute.SubmitRejects | src/app/api/questions/answer/route.ts:18-39 | no session gives 401, a falsy id or answer gives 400, an unknown question gives 404, in that order, and none of them writes |
| AnswerRoute.SubmitSucceeds | src/app/api/questions/answer/route.ts:41-89 | a success had a session, a truthy id and answer and a known question; it records the attempt and answers correctness, coins earned, correct option and explanation |
| AnswerRoute.SubmitWithoutFault | src/app/api/questions/answer/route.ts:41-89 | a known question with a truthy id and answer and no failing statement always succeeds |
| AnswerRoute.SubmitRecordFails | src/app/api/questions/answer/route.ts:53-96 | when the progress write throws, the credit already made stays and the answer is 500 |
| AnswerRoute.RecordAttemptKeepsUnique | src/app/api/questions/answer/route.ts:63-82 | inserting when no row exists and updating otherwise keeps at most one progress row per (user, question) |
| AnswerRoute.CreditKeepsUsersValid | src/app/api/questions/answer/route.ts:53-61 | a non-negative credit keeps user keys unique and balances non-negative |
| AnswerRoute.SubmitKeepsValid | src/app/api/questions/answer/route.ts:14-97 | every outcome of the handler, failures included, keeps the store's constraints |
| AnswerRoute.SubmitSettlesCoins | src/app/api/questions/answer/route.ts:50-89 | `coinsEarned` is the reward on a correct first attempt (the pair has no progress row yet) and 0 otherwise, so a wrong first answer forfeits the reward; the user's balance rises by exactly that amount and no other user changes |
| AnswerRoute.SubmitRecordsOneAttempt | src/app/api/questions/answer/route.ts:63-82 | after a success the pair has exactly one progress row, holding the submitted answer and its correctness; a first attempt keeps the coins it earned and a repeat keeps the original ones; every other row is unchanged |
| AnswerRoute.RecordAttemptIsOne | src/app/api/questions/answer/route.ts:63-82 | the insert-or-update leaves exactly one row for the pair with the new answer and correctness, and grows the table only on a first attempt |
| AnswerRoute.ResubmissionCreditsNothing | src/app/api/questions/answer/route.ts:53 | once the pair has a progress row, any further submission leaves every balance unchanged and earns 0 |
| AnswerRoute.CreditAtMostOnce | src/app/api/questions/answer/route.ts:50-61 | over any sequence of fault-free submissions of one question by one user (no store statement throws), the total credited is 0 or the reward once; it is the reward when the first one is a correct first attempt; the balance rises by exactly the total |
| AnswerRoute.SubmitAll | src/app/api/questions/answer/route.ts:50-82 | (no contract of its own) the same request repeated, each with no store failure, summing the coins reported; `CreditAtMostOnce` states what it gives |
| AnswerRoute.SubmittedPairHasAttempt | src/app/api/questions/answer/route.ts:63-72 | after a successful submission the pair has a progress row |
| AnswerRoute.RetryAfterRecordFailureCreditsTwice | src/app/api/questions/answer/route.ts:57-96 | a correct first answer whose progress write fails, retried, is paid twice: the balance rises by twice the reward |
| AnswerRoute.LowercaseCorrectOptionNeverMatches | src/app/api/questions/answer/route.ts:42 | a stored option holding a lower-case letter is never matched by any submission |
| AnswerRoute.LowercaseThenWrongScenario | src/app/api/questions/answer/route.ts:42-82 | answering "b" to a question whose option is "B" pays 5; a later wrong "A" pays nothing, and the row records "A", incorrect, with the 5 coins kept |
| AnswerRoute.SubmitKeepsUnique | src/app/api/questions/answer/route.ts:63-82 | every outcome keeps at most one progress row per (user, question) |
| PurchaseRoute.FindSeries | src/app/api/test-series/purchase/route.ts:48-55 | the series found is a row with the requested id; none exactly when no row has it |
| PurchaseRoute.HasEntitlement | src/app/api/test-series/purchase/route.ts:35-40 | (no contract of its own) the buyer already holds an entitlement row for the series, the 409 condition of `PurchaseRejects` |
| PurchaseRoute.Buy | src/app/api/test-series/purchase/route.ts:82-91 | the transaction's writes change only the balances and the entitlements; the entitlements become the old ones followed by exactly one row for the buyer and the series |
| PurchaseRoute.Purchase | src/app/api/test-series/purchase/route.ts:17-117 | every failure leaves the store unchanged (the rollback); success is 200 with no failing statement; otherwise the status is 401, 400, 404, 409 or 500 |
| PurchaseRoute.PurchaseRejects | src/app/api/test-series/purchase/route.ts:21-72 | the checks run in order: 401 without a session, 400 for a falsy id, 409 for an owned series, 404 for an unknown series, 400 for too few coins; none writes |
| PurchaseRoute.PurchaseSucceeds | src/app/api/test-series/purchase/route.ts:35-102 | for a known user and series, success happens exactly when nothing fails, the series is not owned and `coins >= coin_cost`; it then debits, records the entitlement and reports the name and remaining coins |
| PurchaseRoute.PurchaseSuccessNeeds | src/app/api/test-series/purchase/route.ts:21-64 | a success had a session, a truthy id, a known series and a user row |
| PurchaseRoute.BuyKeepsValid | src/app/api/test-series/purchase/route.ts:67-91 | an affordable debit and a new entitlement keep the store's constraints |
| PurchaseRoute.DebitKeepsUsersValid | src/app/api/test-series/purchase/route.ts:67-85 | a debit of at most the balance keeps user keys unique and balances non-negative |
| PurchaseRoute.PurchaseKeepsValid | src/app/api/test-series/purchase/route.ts:17-117 | every outcome keeps the store's constraints; in particular a balance never goes negative |
| PurchaseRoute.PurchaseDebitsExactly | src/app/api/test-series/purchase/route.ts:58-101 | the buyer's balance drops by exactly the price and `remainingCoins` equals the new, non-negative balance; exactly one entitlement is added; no other user changes |
| PurchaseRoute.DebitAndEntitlementTogether | src/app/api/test-series/purchase/route.ts:75-110 | the entitlements change exactly on success, a debit never happens without the entitlement, and the store changes exactly when the purchase succeeds |
| PurchaseRoute.RepeatPurchaseNeverDebitsTwice | src/app/api/test-series/purchase/route.ts:35-45 | buying the same series again after a success is refused with 409 (500 if the read fails) and changes nothing |
| PurchaseRoute.InsufficientFundsScenario | src/app/api/test-series/purchase/route.ts:67-72 | 15 coins against a price of 20 gives 400 and no change |
| RegisterRoute.Register | src/app/api/auth/register/route.ts:9-57 | only a success changes the store, and then only the users and the counter; success is 201; otherwise 400, 409 or 500 |
| RegisterRoute.Taken | src/app/api/auth/register/route.ts:22-27 | the clash lookup finds a row exactly when some stored user has the username or the email |
| RegisterRoute.NewUser | src/app/api/auth/register/route.ts:38-44 | the inserted row takes an id above every stored id (in a valid store), stores the hash, and starts with no coins and no picture |
| RegisterRoute.RegisterRejects | src/app/api/auth/register/route.ts:14-32 | a missing or empty username, email or password gives 400; a username or email some user has gives 409; neither writes |
| RegisterRoute.RegisterInserts | src/app/api/auth/register/route.ts:14-49 | success happens exactly when the fields are set, nothing fails and no user has the username or email; it appends one user with the next id, the hash, the full name or null, no picture and 0 coins |
| RegisterRoute.RegisterKeepsValid | src/app/api/auth/register/route.ts:22-44 | registration keeps ids, usernames and emails unique and the counter above every id |
| RegisterRoute.SecondRegistrationConflicts | src/app/api/auth/register/route.ts:22-32 | registering the same username again, even with another email, gives 409 |
| ProfileRoute.OrZero | src/app/api/user/profile/route.ts:72-74 | a null statistic reads as 0, any other value as itself |
| ProfileRoute.Attempted | src/app/api/user/profile/route.ts:47-56 | `COUNT(*)` of the user's progress rows is 0 exactly when no progress row belongs to the user |
| ProfileRoute.CorrectSum | src/app/api/user/profile/route.ts:47-56 | `SUM(is_correct)` is null exactly when the user has no progress row, and otherwise lies between 0 and the number of attempts |
| ProfileRoute.Rank | src/app/api/user/profile/route.ts:59-67 | the rank formula gives a value from 1 to one more than the number of users |
| ProfileRoute.GetProfile | src/app/api/user/profile/route.ts:25-86 | a success is 200 with no failing read; otherwise 401, 404 or 500 |
| ProfileRoute.GetProfileRejects | src/app/api/user/profile/route.ts:29-44 | no session gives 401; an id with no user row gives 404 |
| ProfileRoute.GetProfileReports | src/app/api/user/profile/route.ts:33-78 | the body is the user's row without the hash; attempts count the user's progress rows; correct answers count the correct ones (0 where `SUM` is null); rank is one more than the number of richer users; correct ≤ attempts and 1 ≤ rank ≤ number of users |
| ProfileRoute.RankAtMostSize | src/app/api/user/profile/route.ts:59-67 | the rank of a stored user lies between 1 and the number of users |
| ProfileRoute.TiedRanksExample | src/app/api/user/profile/route.ts:62 | balances 50, 50 and 30 rank 1, 1 and 3 |
| ProfileRoute.RichestRanksFirst | src/app/api/user/profile/route.ts:62 | a user nobody out-earns ranks 1 |
| ProfileRoute.SetDisplay | src/app/api/user/profile/route.ts:99-106 | the update sets the two display fields of the rows with the session's id and leaves every other row |
| ProfileRoute.UpdateProfile | src/app/api/user/profile/route.ts:88-116 | only the users table can change; a failure changes nothing; success is 200, otherwise 401 or 500; a signed-in update that does not throw always answers 200 |
| ProfileRoute.UpdateProfileSets | src/app/api/user/profile/route.ts:92-108 | no session gives 401; a signed-in update with no failing statement succeeds with 200; a success sets the user's full name and picture (empty becomes null) and keeps ids, usernames, emails, hashes, balances and other rows |
| ProfileRoute.UpdateProfileIdempotent | src/app/api/user/profile/route.ts:99-106 | sending the same update twice leaves the store as sending it once |
| ProfileRoute.UpdateProfileKeepsValid | src/app/api/user/profile/route.ts:99-106 | the update keeps the store's constraints |
| LeaderboardRoute.CoinsDescIsSortKey | src/app/api/leaderboard/route.ts:25 | `ORDER BY coins DESC` is a total preorder |
| LeaderboardRoute.ByCoins | src/app/api/leaderboard/route.ts:23-26 | the ordered users are a reordering of the table with non-increasing balances |
| LeaderboardRoute.WindowRank | src/app/api/leaderboard/route.ts:23-26 | `RANK()` of the row at position i lies between 1 and i + 1 |
| LeaderboardRoute.Ranked | src/app/api/leaderboard/route.ts:23-26 | one ranked row per user, each rank between 1 and the row's 1-based position |
| LeaderboardRoute.Leaderboard | src/app/api/leaderboard/route.ts:13-39 | a failure is 500; a success is 200 with min(50, number of users) rows |
| LeaderboardRoute.LeaderboardListsTop | src/app/api/leaderboard/route.ts:15-26 | the rows are the first rows of a reordering of the whole table, sorted by coins, highest first |
| LeaderboardRoute.LeaderboardOrdered | src/app/api/leaderboard/route.ts:25-26 | rows come in non-increasing coin order, and no user left out has more coins than a listed row |
| LeaderboardRoute.WindowRankCountsRicher | src/app/api/leaderboard/route.ts:23 | in rows ordered by coins, `RANK()` of a row is one more than the number of rows with more coins |
| LeaderboardRoute.LeaderboardRankIsProfileRank | src/app/api/leaderboard/route.ts:23 | each listed rank equals the profile's rank: one more than the number of richer users in the whole table |
| LeaderboardRoute.LeaderboardRanks | src/app/api/leaderboard/route.ts:23-26 | the first rank is 1, each rank is between 1 and the row's position, ranks never decrease, equal balances share a rank |
| CategoriesRoute.ByIdIsSortKey | src/app/api/categories/route.ts:28 | `ORDER BY id` is a total preorder |
| CategoriesRoute.ByCategoryThenNameIsSortKey | src/app/api/categories/route.ts:45 | `ORDER BY t.category_id, t.name` is a total preorder |
| CategoriesRoute.TopicRowOf | src/app/api/categories/route.ts:34-48 | (no contract of its own) a topic with its question count; `TopicRowsAreTopics` states what the rows hold |
| CategoriesRoute.TopicRows | src/app/api/categories/route.ts:34-54 | the topic read has one row per topic, ordered by category id and then name |
| CategoriesRoute.EntryOf | src/app/api/categories/route.ts:50-54 | (no contract of its own) a category with its filtered topics; `CategoryTopicsExact` states which |
| CategoriesRoute.Categories | src/app/api/categories/route.ts:21-64 | a failure is 500; a success is 200 with one entry per category |
| CategoriesRoute.CategoriesListed | src/app/api/categories/route.ts:24-54 | the entries are exactly the categories, each as often as stored, in ascending id order |
| CategoriesRoute.TopicRowsAreTopics | src/app/api/categories/route.ts:34-48 | the topics read has one row per topic, carrying that topic's question count, and nothing else |
| CategoriesRoute.CategoryTopicsExact | src/app/api/categories/route.ts:41-54 | a category's topics are exactly the topics with its id as `category_id`, each with the number of its questions (0 when none) |
| CategoriesRoute.CategoryTopicsByName | src/app/api/categories/route.ts:45-53 | within a category the topics come in name order |
| CategoriesRoute.TopicListedOnce | src/app/api/categories/route.ts:44-54 | with unique topic ids, a topic is listed exactly once under a category with its `category_id` and nowhere else |
| TestSeriesRoute.ByNameIsSortKey | src/app/api/test-series/route.ts:39 | `ORDER BY ts.name` is a total preorder |
| TestSeriesRoute.QuestionsIn | src/app/api/test-series/route.ts:20-49 | the series joins no question row exactly when no question belongs to it |
| TestSeriesRoute.EntitlementsFor | src/app/api/test-series/route.ts:20-49 | (no contract of its own) the caller's entitlement rows for the series; `EntitledCounts` states their meaning |
| TestSeriesRoute.AnonymousRowOf | src/app/api/test-series/route.ts:20-49 | (no contract of its own) the anonymous row; `AnonymousCounts` states its contents |
| TestSeriesRoute.SessionRowOf | src/app/api/test-series/route.ts:20-49 | (no contract of its own) the signed-in row; `SessionFlags` and `DuplicateEntitlementDoublesCount` state its contents |
| TestSeriesRoute.TestSeriesList | src/app/api/test-series/route.ts:16-64 | a failure is 500; a success is 200 with one row per test series |
| TestSeriesRoute.TestSeriesListed | src/app/api/test-series/route.ts:20-48 | the rows are the series, each as often as stored, with id, name, description and price, in name order, for either caller |
| TestSeriesRoute.AnonymousCounts | src/app/api/test-series/route.ts:42-49 | without a session each row counts the series' questions and has no `purchased` field |
| TestSeriesRoute.SessionFlags | src/app/api/test-series/route.ts:32-41 | with a session `purchased` is 1 exactly when the caller owns the series and 0 otherwise; with at most one entitlement per series the count is the number of questions |
| TestSeriesRoute.EntitledCounts | src/app/api/test-series/route.ts:34-37 | some entitlement row joins exactly when the caller owns the series, and at most one does when entitlements are unique |
| TestSeriesRoute.DuplicateEntitlementDoublesCount | src/app/api/test-series/route.ts:27-38 | a duplicated entitlement row makes the signed-in count twice the number of questions |
| TestSeriesRoute.PurchaseShowsInListing | src/app/api/test-series/route.ts:34-37 | after a successful purchase the buyer's listing shows the series as purchased |
| Store.Store.SubmitAnswer | src/app/api/questions/answer/route.ts:14-97 | runs the answer handler in place; the new tables and the answer are those of `AnswerRoute.Submit`, and the constraints still hold |
| Store.Store.Purchase | src/app/api/test-series/purchase/route.ts:17-117 | runs the purchase in place, restoring both tables on a failure inside the transaction; the result is that of `PurchaseRoute.Purchase`, and the constraints still hold |
| Store.Store.Register | src/app/api/auth/register/route.ts:9-57 | runs registration in place; the result is that of `RegisterRoute.Register`, and the constraints still hold |
| Store.Store.UpdateProfile | src/app/api/user/profile/route.ts:88-116 | runs the profile update in place; the result is that of `ProfileRoute.UpdateProfile`, and the constraints still hold |

## Left out

- Concurrency: each handler is one atomic step. In the purchase route, the duplicate
  and affordability checks run before `START TRANSACTION`. The answer route has no
  transaction. Neither prevents a double award or a double debit under concurrent
  requests, and the model does not claim they do.
- `executeQuery` (src/lib/db.ts:27-35) sends each statement through the pool, so
  `START TRANSACTION`, the writes, `COMMIT` and `ROLLBACK` may run on different
  connections. The model assumes they share one, as the code intends.
- Store failures, session lookup, request parsing, bcrypt and logging are not modelled
  as code. A failure is a `fault` parameter naming the statement that throws. The
  session is the signed-in user's id or none. The request fields are absent or carry a
  value of the expected JSON type. A non-string answer, whose `toUpperCase` would throw,
  is not modelled. The password hash is a function parameter whose result is stored.
- Schema.UpperRemovesLowercase: upper-casing is modelled on ASCII letters only. JavaScript
  `toUpperCase` also maps other Unicode letters, some of them to longer strings.
- LeaderboardRoute.LeaderboardListsTop: users with equal balances are listed in storage
  order. SQL leaves their order open, so the lemma fixes one of the orders SQL allows.
- RegisterRoute.RegisterRejects and RegisterRoute.RegisterInserts: the clash check
  `username = ? OR email = ?` compares strings exactly, code point by code point. Under a
  case-insensitive collation MySQL also finds "Bob" for "bob" and answers 409 where the
  model answers 201; the collation is not modelled.
- CategoriesRoute.CategoryTopicsByName and TestSeriesRoute.TestSeriesListed: `ORDER BY
  name` is code-point order. The database's collation (often case- and
  accent-insensitive) is not modelled.
- TestSeriesRoute.SessionFlags: the signed-in query selects `uts.id` outside `GROUP BY`.
  Under MySQL's `ONLY_FULL_GROUP_BY` mode it is rejected, which would give 500. The model
  takes the permissive mode, where every row of a group agrees on the flag.
- `GROUP BY t.id` and `GROUP BY ts.id` give one row per topic or series. The model
  produces one row per stored row, which is the same when ids are unique (`Valid`).
- Timestamps (`created_at`, `attempt_time = CURRENT_TIMESTAMP`) are not modelled.
  Neither the profile nor the test-series rows carry `created_at`.
- Balances, rewards and prices are unbounded integers. MySQL column widths and overflow
  are not modelled.
- `db-check`, authentication (`src/lib/auth.ts`), the question-listing and public
  user routes, and all React pages are not part of this model.
