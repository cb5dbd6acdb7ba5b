/** `GET /api/test-series`: every test series in name order with its number of questions.
    A signed-in caller also gets a `purchased` flag (1 or 0) from a second `LEFT JOIN` on
    that caller's entitlements; an anonymous caller gets no such field. */
module TestSeriesRoute {
  import opened Collections
  import opened Sorting
  import opened Schema
  import PurchaseRoute

  /** A row of the answer; `purchased` is absent for an anonymous caller. */
  datatype SeriesRow = SeriesRow(
    id: int,
    name: string,
    description: string,
    coinCost: int,
    questionCount: nat,
    purchased: Option<int>)

  /** `ORDER BY ts.name` */
  predicate ByName(a: TestSeries, b: TestSeries)
  {
    LexLe(a.name, b.name)
  }

  lemma ByNameIsSortKey()
    ensures TotalPreorder(ByName)
  {
    forall a: TestSeries, b: TestSeries ensures ByName(a, b) || ByName(b, a) {
      LexLeTotal(a.name, b.name);
    }
    forall a: TestSeries, b: TestSeries, c: TestSeries | ByName(a, b) && ByName(b, c) ensures ByName(a, c) {
      LexLeTransitive(a.name, b.name, c.name);
    }
  }

  /** `q.test_series_id = ts.id` */
  function OfSeries(seriesId: int): Question -> bool
  {
    (q: Question) => q.testSeriesId == Some(seriesId)
  }

  /** `uts.test_series_id = ts.id AND uts.user_id = ?` */
  function EntitledTo(userId: int, seriesId: int): Entitlement -> bool
  {
    (e: Entitlement) => e.userId == userId && e.testSeriesId == seriesId
  }

  /** The number of question rows the series joins with. */
  function QuestionsIn(questions: seq<Question>, seriesId: int): (n: nat)
    ensures n == 0 <==> forall i :: 0 <= i < |questions| ==> questions[i].testSeriesId != Some(seriesId)
  {
    CountZero(questions, OfSeries(seriesId));
    Count(questions, OfSeries(seriesId))
  }

  /** The number of entitlement rows the series joins with for the caller. */
  function EntitlementsFor(entitlements: seq<Entitlement>, userId: int, seriesId: int): nat
  {
    Count(entitlements, EntitledTo(userId, seriesId))
  }

  /** Anonymous read: `COUNT(q.id)` over the series' question rows. */
  function AnonymousRowOf(questions: seq<Question>): TestSeries -> SeriesRow
  {
    (s: TestSeries) => SeriesRow(s.id, s.name, s.description, s.coinCost, QuestionsIn(questions, s.id), None)
  }

  /** Signed-in read. The two `LEFT JOIN`s pair every question row of the series with
      every matching entitlement row (one `NULL` row when there is none), so `COUNT(q.id)`
      is the number of questions times the number of entitlement rows, or times 1 when
      there are none; `uts.id IS NOT NULL` holds on the group's rows exactly when some
      entitlement row matched. */
  function SessionRowOf(db: Db, userId: int): TestSeries -> SeriesRow
  {
    (s: TestSeries) =>
      var owned := EntitlementsFor(db.entitlements, userId, s.id);
      SeriesRow(s.id, s.name, s.description, s.coinCost,
                QuestionsIn(db.questions, s.id) * (if owned == 0 then 1 else owned),
                Some(if owned > 0 then 1 else 0))
  }

  /** The handler; it only reads. `fault` stands for the session lookup or the read
      throwing. */
  function TestSeriesList(db: Db, session: Option<int>, fault: bool): (r: Response<seq<SeriesRow>>)
    ensures fault <==> r == Failure(SERVER_ERROR)
    ensures r.Success? ==> r.status == OK && |r.body| == |db.series|
  {
    if fault then Failure(SERVER_ERROR)
    else
      var sorted := SortBy(db.series, ByName);
      Success(OK, Map(sorted, if session.None? then AnonymousRowOf(db.questions) else SessionRowOf(db, session.value)))
  }

  /** One row per test series (each as often as it is stored), carrying its id, name,
      description and price, in name order, for either kind of caller. */
  lemma TestSeriesListed(db: Db, session: Option<int>)
    ensures var rows, sorted := TestSeriesList(db, session, false).body, SortBy(db.series, ByName);
            && multiset(sorted) == multiset(db.series)
            && (forall i :: 0 <= i < |rows| ==>
                  && rows[i].id == sorted[i].id && rows[i].name == sorted[i].name
                  && rows[i].description == sorted[i].description && rows[i].coinCost == sorted[i].coinCost)
            && forall i, j :: 0 <= i < j < |rows| ==> LexLe(rows[i].name, rows[j].name)
  {
    ByNameIsSortKey();
  }

  /** An anonymous caller gets, for each series, the number of questions in it and no
      `purchased` field. */
  lemma AnonymousCounts(db: Db)
    ensures var rows := TestSeriesList(db, None, false).body;
            forall i :: 0 <= i < |rows| ==>
              rows[i].questionCount == Count(db.questions, OfSeries(rows[i].id)) && rows[i].purchased.None?
  {
  }

  /** A signed-in caller gets `purchased` 1 exactly when it holds an entitlement to the
      series and 0 otherwise, and, as long as it holds at most one entitlement per series
      (which the store's constraints guarantee), the number of questions in the series. */
  lemma SessionFlags(db: Db, userId: int)
    ensures var rows := TestSeriesList(db, Some(userId), false).body;
            forall i :: 0 <= i < |rows| ==>
              && rows[i].purchased == Some(if Entitlement(userId, rows[i].id) in db.entitlements then 1 else 0)
              && (EntitlementsUnique(db.entitlements) ==>
                    rows[i].questionCount == Count(db.questions, OfSeries(rows[i].id)))
  {
    var rows := TestSeriesList(db, Some(userId), false).body;
    forall i | 0 <= i < |rows|
      ensures rows[i].purchased == Some(if Entitlement(userId, rows[i].id) in db.entitlements then 1 else 0)
      ensures EntitlementsUnique(db.entitlements) ==> rows[i].questionCount == Count(db.questions, OfSeries(rows[i].id))
    {
      EntitledCounts(db.entitlements, userId, rows[i].id);
    }
  }

  /** The entitlement rows that match number at least one exactly when the entitlement
      is held, and at most one when no entitlement is stored twice. */
  lemma EntitledCounts(entitlements: seq<Entitlement>, userId: int, seriesId: int)
    ensures EntitlementsFor(entitlements, userId, seriesId) > 0 <==> Entitlement(userId, seriesId) in entitlements
    ensures EntitlementsUnique(entitlements) ==> EntitlementsFor(entitlements, userId, seriesId) <= 1
  {
    var p := EntitledTo(userId, seriesId);
    CountZero(entitlements, p);
    if Entitlement(userId, seriesId) in entitlements {
      var k :| 0 <= k < |entitlements| && entitlements[k] == Entitlement(userId, seriesId);
      assert p(entitlements[k]);
    }
    if EntitlementsUnique(entitlements) {
      CountAtMostOne(entitlements, p);
    }
  }

  /** A stored duplicate entitlement multiplies the count: one question and the same
      entitlement stored twice list 2 questions for the signed-in owner. */
  lemma DuplicateEntitlementDoublesCount(db: Db, userId: int, s: TestSeries, q: Question)
    requires db.series == [s] && db.questions == [q] && q.testSeriesId == Some(s.id)
    requires db.entitlements == [Entitlement(userId, s.id), Entitlement(userId, s.id)]
    ensures TestSeriesList(db, Some(userId), false).body[0].questionCount == 2
    ensures TestSeriesList(db, None, false).body[0].questionCount == 1
  {
    var e := Entitlement(userId, s.id);
    assert db.entitlements[1..] == [e] && [e][1..] == [];
    assert Count([e], EntitledTo(userId, s.id)) == 1;
    assert EntitlementsFor(db.entitlements, userId, s.id) == 2;
    assert db.questions[1..] == [];
    assert QuestionsIn(db.questions, s.id) == 1;
  }

  /** After a successful purchase the buyer's listing flags the bought series as
      purchased. */
  lemma PurchaseShowsInListing(db: Db, userId: int, seriesId: int, fault: PurchaseRoute.PurchaseFault)
    requires PurchaseRoute.Purchase(db, Some(userId), Some(seriesId), fault).1.Success?
    ensures var after := PurchaseRoute.Purchase(db, Some(userId), Some(seriesId), fault).0;
            var rows := TestSeriesList(after, Some(userId), false).body;
            forall i :: 0 <= i < |rows| && rows[i].id == seriesId ==> rows[i].purchased == Some(1)
  {
    var after := PurchaseRoute.Purchase(db, Some(userId), Some(seriesId), fault).0;
    PurchaseRoute.PurchaseSuccessNeeds(db, Some(userId), Some(seriesId), fault);
    var s := PurchaseRoute.FindSeries(db.series, seriesId).value;
    var u := FindUser(db.users, userId).value;
    PurchaseRoute.PurchaseSucceeds(db, userId, seriesId, fault, s, u);
    assert Entitlement(userId, seriesId) in after.entitlements;
    SessionFlags(after, userId);
  }
}
