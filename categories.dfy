/** `GET /api/categories`: every category in id order, each carrying the topics that belong
    to it, each topic with the number of its questions. Two reads (categories, and topics
    joined with their question counts) are combined in memory. */
module CategoriesRoute {
  import opened Collections
  import opened Sorting
  import opened Schema

  /** A row of the topics read: the topic's columns and `COUNT(q.id)`. */
  datatype TopicRow = TopicRow(id: int, categoryId: int, name: string, description: string, questionCount: nat)

  /** A category with its `topics` list. */
  datatype CategoryEntry = CategoryEntry(category: Category, topics: seq<TopicRow>)

  /** `ORDER BY id` */
  predicate ById(a: Category, b: Category)
  {
    a.id <= b.id
  }

  /** `ORDER BY t.category_id, t.name` */
  predicate ByCategoryThenName(a: TopicRow, b: TopicRow)
  {
    a.categoryId < b.categoryId || (a.categoryId == b.categoryId && LexLe(a.name, b.name))
  }

  lemma ByIdIsSortKey()
    ensures TotalPreorder(ById)
  {
  }

  lemma ByCategoryThenNameIsSortKey()
    ensures TotalPreorder(ByCategoryThenName)
  {
    forall a: TopicRow, b: TopicRow ensures ByCategoryThenName(a, b) || ByCategoryThenName(b, a) {
      LexLeTotal(a.name, b.name);
    }
    forall a: TopicRow, b: TopicRow, c: TopicRow | ByCategoryThenName(a, b) && ByCategoryThenName(b, c)
      ensures ByCategoryThenName(a, c)
    {
      if a.categoryId == b.categoryId == c.categoryId {
        LexLeTransitive(a.name, b.name, c.name);
      }
    }
  }

  /** `q.topic_id = t.id` */
  function OfTopic(topicId: int): Question -> bool
  {
    (q: Question) => q.topicId == topicId
  }

  /** `topic.category_id === category.id` */
  function InCategory(categoryId: int): TopicRow -> bool
  {
    (t: TopicRow) => t.categoryId == categoryId
  }

  /** The row `LEFT JOIN questions ... GROUP BY t.id` gives a topic: `COUNT(q.id)` counts
      its questions and is 0 when it has none. */
  function TopicRowOf(questions: seq<Question>): Topic -> TopicRow
  {
    (t: Topic) => TopicRow(t.id, t.categoryId, t.name, t.description, Count(questions, OfTopic(t.id)))
  }

  /** The topics read: one row per topic, in `category_id, name` order. */
  function TopicRows(db: Db): (rows: seq<TopicRow>)
    ensures |rows| == |db.topics|
    ensures Ordered(rows, ByCategoryThenName)
  {
    ByCategoryThenNameIsSortKey();
    SortBy(Map(db.topics, TopicRowOf(db.questions)), ByCategoryThenName)
  }

  /** `categories.map(category => ({...category, topics: topics.filter(...)}))` */
  function EntryOf(rows: seq<TopicRow>): Category -> CategoryEntry
  {
    (c: Category) => CategoryEntry(c, Filter(rows, InCategory(c.id)))
  }

  /** The handler; it only reads. `fault` stands for either read throwing. */
  function Categories(db: Db, fault: bool): (r: Response<seq<CategoryEntry>>)
    ensures fault <==> r == Failure(SERVER_ERROR)
    ensures r.Success? ==> r.status == OK && |r.body| == |db.categories|
  {
    if fault then Failure(SERVER_ERROR)
    else Success(OK, Map(SortBy(db.categories, ById), EntryOf(TopicRows(db))))
  }

  /** The answer lists exactly the categories (each as often as it is stored), in
      ascending id order. */
  lemma CategoriesListed(db: Db)
    ensures var body := Categories(db, false).body;
            && multiset(Map(body, (e: CategoryEntry) => e.category)) == multiset(db.categories)
            && forall i, j :: 0 <= i < j < |body| ==> body[i].category.id <= body[j].category.id
  {
    var sorted := SortBy(db.categories, ById);
    var body := Categories(db, false).body;
    ByIdIsSortKey();
    assert Map(body, (e: CategoryEntry) => e.category) == sorted;
  }

  /** The topic rows are the topics, each with its question count, and nothing else. */
  lemma TopicRowsAreTopics(db: Db)
    ensures forall x :: x in TopicRows(db) <==>
              exists k :: 0 <= k < |db.topics| && x == TopicRowOf(db.questions)(db.topics[k])
  {
    var mapped := Map(db.topics, TopicRowOf(db.questions));
    assert forall x :: x in TopicRows(db) <==> x in mapped by {
      forall x ensures x in TopicRows(db) <==> x in mapped {
        assert x in multiset(TopicRows(db)) <==> x in multiset(mapped);
      }
    }
  }

  /** A category's topics are exactly the topics whose `category_id` is its id, each
      carrying the number of questions with its id as `topic_id`; a topic whose category
      is missing appears under no category. */
  lemma CategoryTopicsExact(db: Db, i: nat)
    requires i < |db.categories|
    ensures var e := Categories(db, false).body[i];
            forall x :: x in e.topics <==>
              && x.categoryId == e.category.id
              && (exists k :: 0 <= k < |db.topics| && x == TopicRowOf(db.questions)(db.topics[k]))
              && x.questionCount == Count(db.questions, OfTopic(x.id))
  {
    var e := Categories(db, false).body[i];
    FilterExact(TopicRows(db), InCategory(e.category.id));
    TopicRowsAreTopics(db);
  }

  /** Within a category, topics come in name order: filtering keeps the read's order. */
  lemma CategoryTopicsByName(db: Db, i: nat)
    requires i < |db.categories|
    ensures var topics := Categories(db, false).body[i].topics;
            forall a, b :: 0 <= a < b < |topics| ==> LexLe(topics[a].name, topics[b].name)
  {
    var e := Categories(db, false).body[i];
    ByCategoryThenNameIsSortKey();
    FilterOrdered(TopicRows(db), InCategory(e.category.id), ByCategoryThenName);
  }

  /** `t.id = ?` among the listed rows. */
  function HasTopicId(id: int): TopicRow -> bool
  {
    (x: TopicRow) => x.id == id
  }

  /** `t.category_id = ? AND t.id = ?` on a stored topic. */
  function IsTopicIn(categoryId: int, id: int): Topic -> bool
  {
    (t: Topic) => t.categoryId == categoryId && t.id == id
  }

  /** With topic ids unique, a topic is listed exactly once under each category whose id
      is its `category_id`, and not at all under any other category. */
  lemma TopicListedOnce(db: Db, i: nat, k: nat)
    requires i < |db.categories| && k < |db.topics|
    requires forall a, b :: 0 <= a < b < |db.topics| ==> db.topics[a].id != db.topics[b].id
    ensures var e, t := Categories(db, false).body[i], db.topics[k];
            Count(e.topics, HasTopicId(t.id)) == if e.category.id == t.categoryId then 1 else 0
  {
    var e, t := Categories(db, false).body[i], db.topics[k];
    var c := e.category.id;
    var mapped := Map(db.topics, TopicRowOf(db.questions));
    var both := (x: TopicRow) => x.categoryId == c && x.id == t.id;
    CountFilter(TopicRows(db), InCategory(c), HasTopicId(t.id), both);
    CountSortBy(mapped, ByCategoryThenName, both);
    CountMap(db.topics, TopicRowOf(db.questions), both, IsTopicIn(c, t.id));
    CountSplitAt(db.topics, k, IsTopicIn(c, t.id));
    var before, after := db.topics[..k], db.topics[k + 1..];
    forall a | 0 <= a < |before| ensures !IsTopicIn(c, t.id)(before[a]) {
      assert before[a] == db.topics[a];
    }
    forall a | 0 <= a < |after| ensures !IsTopicIn(c, t.id)(after[a]) {
      assert after[a] == db.topics[k + 1 + a];
    }
    CountZero(before, IsTopicIn(c, t.id));
    CountZero(after, IsTopicIn(c, t.id));
  }
}
