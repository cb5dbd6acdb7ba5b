/** `GET /api/leaderboard`: the users sorted by coins, highest first, each with its
    `RANK() OVER (ORDER BY coins DESC)`, cut to the first 50 rows. Ranking is
    competition ranking: rows with the same balance (peers) share a rank, and a rank is one
    more than the number of rows before the row's peers. */
module LeaderboardRoute {
  import opened Collections
  import opened Sorting
  import opened Schema
  import ProfileRoute

  const LIMIT := 50

  /** A row of the answer: the selected columns and the rank. */
  datatype LeaderRow = LeaderRow(
    id: int,
    username: string,
    fullName: Option<string>,
    profilePicture: Option<string>,
    coins: int,
    rank: int)

  /** `ORDER BY coins DESC`: `a` may come before `b`. */
  predicate CoinsDesc(a: User, b: User)
  {
    a.coins >= b.coins
  }

  lemma CoinsDescIsSortKey()
    ensures TotalPreorder(CoinsDesc)
  {
  }

  /** The users in leaderboard order. SQL leaves the order of equal balances open; this
      model keeps their storage order. */
  function ByCoins(users: seq<User>): (sorted: seq<User>)
    ensures multiset(sorted) == multiset(users)
    ensures forall i, j :: 0 <= i < j < |sorted| ==> sorted[i].coins >= sorted[j].coins
  {
    CoinsDescIsSortKey();
    SortBy(users, CoinsDesc)
  }

  /** A row is not a peer of a row with `coins` when its balance differs. */
  function NotPeerOf(coins: int): User -> bool
  {
    (v: User) => v.coins != coins
  }

  /** `RANK()` of row `i` of the ordered rows: one more than the number of rows before it
      that are not its peers. */
  function WindowRank(sorted: seq<User>, i: nat): (rank: int)
    requires i < |sorted|
    ensures 1 <= rank <= i + 1
  {
    Count(sorted[..i], NotPeerOf(sorted[i].coins)) + 1
  }

  function RowOf(u: User, rank: int): LeaderRow
  {
    LeaderRow(u.id, u.username, u.fullName, u.profilePicture, u.coins, rank)
  }

  /** Every user in leaderboard order with its rank, before the limit. */
  function Ranked(users: seq<User>): (rows: seq<LeaderRow>)
    ensures |rows| == |users|
    ensures forall i :: 0 <= i < |rows| ==> 1 <= rows[i].rank <= i + 1
  {
    var sorted := ByCoins(users);
    seq(|sorted|, i requires 0 <= i < |sorted| => RowOf(sorted[i], WindowRank(sorted, i)))
  }

  /** The handler; it only reads. The window function ranks the whole table before
      `LIMIT 50` cuts the rows. */
  function Leaderboard(db: Db, fault: bool): (r: Response<seq<LeaderRow>>)
    ensures fault <==> r == Failure(SERVER_ERROR)
    ensures r.Success? ==> r.status == OK && |r.body| == if |db.users| < LIMIT then |db.users| else LIMIT
  {
    if fault then Failure(SERVER_ERROR)
    else
      var rows := Ranked(db.users);
      Success(OK, if |rows| < LIMIT then rows else rows[..LIMIT])
  }

  /** The listed rows are the first rows of the users sorted by coins: a reordering of the
      whole table, highest balance first. */
  lemma LeaderboardListsTop(db: Db)
    ensures var rows, sorted := Leaderboard(db, false).body, ByCoins(db.users);
            && multiset(sorted) == multiset(db.users)
            && (forall i :: 0 <= i < |rows| ==> rows[i] == RowOf(sorted[i], rows[i].rank))
            && (forall i, j :: 0 <= i < j < |sorted| ==> sorted[i].coins >= sorted[j].coins)
  {
    CoinsDescIsSortKey();
  }

  /** Rows come highest balance first; no user left out of the list has more coins than
      a listed row. */
  lemma LeaderboardOrdered(db: Db)
    ensures var rows := Leaderboard(db, false).body;
            && (forall i, j :: 0 <= i < j < |rows| ==> rows[i].coins >= rows[j].coins)
            && forall i, k :: 0 <= i < |rows| && |rows| <= k < |db.users| ==> ByCoins(db.users)[k].coins <= rows[i].coins
  {
    LeaderboardListsTop(db);
  }

  /** In rows ordered by coins, the rows before row `i` that are not its peers are
      exactly the rows with more coins, and no row after it has more. */
  lemma {:induction false} WindowRankCountsRicher(sorted: seq<User>, i: nat)
    requires i < |sorted|
    requires forall a, b :: 0 <= a < b < |sorted| ==> sorted[a].coins >= sorted[b].coins
    ensures WindowRank(sorted, i) == ProfileRoute.Rank(sorted, sorted[i].coins)
  {
    var c := sorted[i].coins;
    var before := sorted[..i];
    forall j | 0 <= j < |before| ensures NotPeerOf(c)(before[j]) == ProfileRoute.RicherThan(c)(before[j]) {
      assert before[j] == sorted[j];
    }
    CountSame(before, NotPeerOf(c), ProfileRoute.RicherThan(c));
    var after := sorted[i + 1..];
    forall j | 0 <= j < |after| ensures !ProfileRoute.RicherThan(c)(after[j]) {
      assert after[j] == sorted[i + 1 + j];
    }
    CountZero(after, ProfileRoute.RicherThan(c));
    CountSplitAt(sorted, i, ProfileRoute.RicherThan(c));
  }

  /** Each row's rank is the profile's rank formula over the whole table: one more than
      the number of users with strictly more coins. */
  lemma LeaderboardRankIsProfileRank(db: Db)
    ensures var rows := Leaderboard(db, false).body;
            forall i :: 0 <= i < |rows| ==> rows[i].rank == ProfileRoute.Rank(db.users, rows[i].coins)
  {
    var rows, sorted := Leaderboard(db, false).body, ByCoins(db.users);
    LeaderboardListsTop(db);
    forall i | 0 <= i < |rows| ensures rows[i].rank == ProfileRoute.Rank(db.users, rows[i].coins) {
      assert rows[i] == Ranked(db.users)[i];
      WindowRankCountsRicher(sorted, i);
      CountSortBy(db.users, CoinsDesc, ProfileRoute.RicherThan(sorted[i].coins));
    }
  }

  /** Competition ranking down the list: the first row ranks 1, a row's rank never exceeds
      its 1-based position, ranks never decrease, and rows with equal balances share a rank. */
  lemma LeaderboardRanks(db: Db)
    ensures var rows := Leaderboard(db, false).body;
            && (|rows| > 0 ==> rows[0].rank == 1)
            && (forall i :: 0 <= i < |rows| ==> 1 <= rows[i].rank <= i + 1)
            && (forall i, j :: 0 <= i < j < |rows| ==> rows[i].rank <= rows[j].rank)
            && (forall i, j :: 0 <= i < |rows| && 0 <= j < |rows| && rows[i].coins == rows[j].coins ==>
                  rows[i].rank == rows[j].rank)
  {
    var rows, sorted := Leaderboard(db, false).body, ByCoins(db.users);
    LeaderboardOrdered(db);
    LeaderboardRankIsProfileRank(db);
    forall i | 0 <= i < |rows| ensures 1 <= rows[i].rank <= i + 1 {
      assert rows[i] == Ranked(db.users)[i];
      assert rows[i].rank == WindowRank(sorted, i);
    }
    forall i, j | 0 <= i < j < |rows| ensures rows[i].rank <= rows[j].rank {
      var ci, cj := rows[i].coins, rows[j].coins;
      CountMonotone(db.users, ProfileRoute.RicherThan(ci), ProfileRoute.RicherThan(cj));
    }
  }
}
