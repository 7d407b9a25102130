/** The profile service (profile.service.ts): per-user statistics and the
    paginated session history, both over the user's submitted sessions. */
module Profile {
  import opened Difficulty
  import opened Query
  import opened Sessions

  datatype DifficultyCounts = DifficultyCounts(easy: nat, medium: nat, hard: nat)

  datatype UserStats = UserStats(
    totalGames: nat,
    averageAccuracy: real,
    highestScore: int,
    totalScore: int,
    gamesByDifficulty: DifficultyCounts)

  datatype SessionPage = SessionPage(data: seq<Session>, total: nat, page: int, limit: int, totalPages: nat)

  /** The query `where: { userId, submittedCode: { not: null } }`. */
  function UserGames(table: seq<Session>, userId: UserId): (games: seq<Session>)
    ensures forall i :: 0 <= i < |games| ==> games[i].userId == userId && Submitted(games[i])
    ensures forall x :: multiset(games)[x] == (if x.userId == userId && Submitted(x) then multiset(table)[x] else 0)
  {
    Filter(table, (s: Session) => s.userId == userId && Submitted(s))
  }

  /** `s.accuracy || 0` */
  function AccuracyOrZero(s: Session): real
  {
    if s.accuracy.Some? then s.accuracy.value else 0.0
  }

  function SumScores(games: seq<Session>): int
  {
    if |games| == 0 then 0 else ScoreOrZero(games[0]) + SumScores(games[1..])
  }

  function SumAccuracy(games: seq<Session>): real
  {
    if |games| == 0 then 0.0 else AccuracyOrZero(games[0]) + SumAccuracy(games[1..])
  }

  /** `Math.max(...sessions.map(s => s.score || 0))` on a non-empty list. */
  function HighestScore(games: seq<Session>): (h: int)
    requires |games| > 0
    ensures forall i :: 0 <= i < |games| ==> ScoreOrZero(games[i]) <= h
    ensures exists i :: 0 <= i < |games| && ScoreOrZero(games[i]) == h
  {
    if |games| == 1 then ScoreOrZero(games[0])
    else
      var rest := HighestScore(games[1..]);
      assert forall i :: 1 <= i < |games| ==> games[i] == games[1..][i - 1];
      if ScoreOrZero(games[0]) >= rest then ScoreOrZero(games[0]) else rest
  }

  /** `sessions.filter(s => s.difficulty === d).length` */
  function CountDifficulty(games: seq<Session>, d: string): (n: nat)
    ensures n <= |games|
  {
    if |games| == 0 then 0
    else (if games[0].difficulty == d then 1 else 0) + CountDifficulty(games[1..], d)
  }

  /** Sessions whose difficulty is none of the three counted names. */
  function CountUnknown(games: seq<Session>): (n: nat)
    ensures n <= |games|
  {
    if |games| == 0 then 0
    else (if Known(games[0].difficulty) then 0 else 1) + CountUnknown(games[1..])
  }

  /** getUserStats. */
  function GetUserStats(table: seq<Session>, userId: UserId): (st: UserStats)
    ensures |UserGames(table, userId)| == 0 ==>
      st == UserStats(0, 0.0, 0, 0, DifficultyCounts(0, 0, 0))
    ensures st.totalGames == |UserGames(table, userId)|
    ensures st.totalScore == SumScores(UserGames(table, userId))
    ensures var games := UserGames(table, userId);
      |games| > 0 ==>
        && (forall i :: 0 <= i < |games| ==> ScoreOrZero(games[i]) <= st.highestScore)
        && (exists i :: 0 <= i < |games| && ScoreOrZero(games[i]) == st.highestScore)
  {
    var games := UserGames(table, userId);
    if |games| == 0 then
      UserStats(0, 0.0, 0, 0, DifficultyCounts(0, 0, 0))
    else
      var totalGames := |games|;
      var averageAccuracy := SumAccuracy(games) / totalGames as real;
      var highestScore := HighestScore(games);
      var totalScore := SumScores(games);
      var counts := DifficultyCounts(
        CountDifficulty(games, "easy"), CountDifficulty(games, "medium"), CountDifficulty(games, "hard"));
      UserStats(totalGames, averageAccuracy, highestScore, totalScore, counts)
  }

  /** Every session is counted once: under one of the three names, or as unknown. */
  lemma {:induction false} CountsPartition(games: seq<Session>)
    ensures CountDifficulty(games, "easy") + CountDifficulty(games, "medium")
          + CountDifficulty(games, "hard") + CountUnknown(games) == |games|
  {
    if |games| > 0 {
      CountsPartition(games[1..]);
    }
  }

  lemma {:induction false} CountUnknownZero(games: seq<Session>)
    ensures CountUnknown(games) == 0 <==> forall i :: 0 <= i < |games| ==> Known(games[i].difficulty)
  {
    if |games| > 0 {
      CountUnknownZero(games[1..]);
      assert forall i :: 1 <= i < |games| ==> games[i] == games[1..][i - 1];
    }
  }

  /** The per-difficulty counts sum to at most totalGames, with equality
      exactly when every counted session has a known difficulty name. */
  lemma DifficultyCountsBound(table: seq<Session>, userId: UserId)
    ensures var st := GetUserStats(table, userId);
            var c := st.gamesByDifficulty;
      && c.easy + c.medium + c.hard <= st.totalGames
      && (c.easy + c.medium + c.hard == st.totalGames <==>
          forall i :: 0 <= i < |UserGames(table, userId)| ==> Known(UserGames(table, userId)[i].difficulty))
  {
    var games := UserGames(table, userId);
    CountsPartition(games);
    CountUnknownZero(games);
  }

  lemma {:induction false} SumAccuracyBounds(games: seq<Session>)
    requires forall i :: 0 <= i < |games| ==> 0.0 <= AccuracyOrZero(games[i]) <= 100.0
    ensures 0.0 <= SumAccuracy(games) <= 100.0 * |games| as real
  {
    if |games| > 0 {
      assert forall i :: 0 <= i < |games| - 1 ==> games[1..][i] == games[i + 1];
      SumAccuracyBounds(games[1..]);
    }
  }

  /** The average accuracy lies in [0, 100] when every counted accuracy does. */
  lemma AverageAccuracyBounds(table: seq<Session>, userId: UserId)
    requires var games := UserGames(table, userId);
      forall i :: 0 <= i < |games| ==> 0.0 <= AccuracyOrZero(games[i]) <= 100.0
    ensures 0.0 <= GetUserStats(table, userId).averageAccuracy <= 100.0
  {
    var games := UserGames(table, userId);
    if |games| > 0 {
      SumAccuracyBounds(games);
      QuotientBound(SumAccuracy(games), |games| as real, 100.0);
    }
  }

  lemma QuotientBound(a: real, n: real, c: real)
    requires n > 0.0 && 0.0 <= a <= c * n
    ensures 0.0 <= a / n <= c
  {
    var q := a / n;
    assert q * n == a;
  }

  /** Math.ceil(a / b) for a positive divisor. */
  function CeilDiv(a: nat, b: nat): (q: nat)
    requires b > 0
    ensures q * b >= a
    ensures q == 0 || (q - 1) * b < a
  {
    (a + b - 1) / b
  }

  /** The user's submitted sessions ordered by `createdAt` descending. */
  function Ordered(table: seq<Session>, userId: UserId): (ordered: seq<Session>)
    ensures SortedDesc(ordered, CreatedKey)
    ensures multiset(ordered) == multiset(UserGames(table, userId))
    ensures |ordered| == |UserGames(table, userId)|
  {
    SortDesc(UserGames(table, userId), CreatedKey)
  }

  /** `skip = (page - 1) * limit` */
  function SkipOf(page: int, limit: int): (skip: nat)
    requires page >= 1 && limit >= 1
  {
    (page - 1) * limit
  }

  /** One page: `skip` rows dropped, then at most `limit` taken. */
  function PageOf(ordered: seq<Session>, skip: nat, limit: nat): (data: seq<Session>)
    requires SortedDesc(ordered, CreatedKey)
    ensures |data| <= limit
    ensures SortedDesc(data, CreatedKey)
    ensures |data| > 0 <==> skip < |ordered| && limit > 0
    ensures forall i :: 0 <= i < |data| ==> skip + i < |ordered| && data[i] == ordered[skip + i]
    ensures skip < |ordered| ==> |data| == limit || skip + |data| == |ordered|
  {
    SkipSorted(ordered, skip, CreatedKey);
    TakeKeepsTop(Skip(ordered, skip), limit, CreatedKey);
    Take(Skip(ordered, skip), limit)
  }

  /** getUserSessions. */
  function GetUserSessions(table: seq<Session>, userId: UserId, page: int, limit: int): (r: SessionPage)
    requires page >= 1 && limit >= 1
    ensures r.page == page && r.limit == limit
    ensures r.total == |UserGames(table, userId)|
    ensures r.totalPages == CeilDiv(r.total, limit)
    ensures |r.data| <= limit
    ensures SortedDesc(r.data, CreatedKey)
    ensures forall i :: 0 <= i < |r.data| ==>
      SkipOf(page, limit) + i < r.total && r.data[i] == Ordered(table, userId)[SkipOf(page, limit) + i]
  {
    var ordered := Ordered(table, userId);
    var total := |UserGames(table, userId)|;
    var totalPages := CeilDiv(total, limit);
    var data := PageOf(ordered, SkipOf(page, limit), limit);
    SessionPage(data, total, page, limit, totalPages)
  }

  /** A page is non-empty exactly when its number is at most totalPages. */
  lemma PageNonEmptyIff(table: seq<Session>, userId: UserId, page: int, limit: int)
    requires page >= 1 && limit >= 1
    ensures var r := GetUserSessions(table, userId, page, limit);
            |r.data| > 0 <==> page <= r.totalPages
  {
    var total := |UserGames(table, userId)|;
    var pages := CeilDiv(total, limit);
    SkipBelowTotalIff(page, limit, total, pages);
    var data := PageOf(Ordered(table, userId), SkipOf(page, limit), limit);
    assert |data| > 0 <==> SkipOf(page, limit) < total;
    assert GetUserSessions(table, userId, page, limit) == SessionPage(data, total, page, limit, pages);
  }

  lemma SkipBelowTotalIff(page: int, limit: int, total: nat, pages: nat)
    requires page >= 1 && limit >= 1
    requires pages * limit >= total
    requires pages == 0 || (pages - 1) * limit < total
    ensures SkipOf(page, limit) < total <==> page <= pages
  {
    var p := page - 1;
    if page <= pages {
      MulLe(p, pages - 1, limit);
    } else {
      MulLe(pages, p, limit);
    }
  }

  lemma MulLe(a: nat, b: nat, c: nat)
    requires a <= b
    ensures a * c <= b * c
  {
  }

  /** Every session of the ordered history appears on exactly the page and
      slot pagination assigns it: index i is slot i % limit of page i / limit + 1. */
  lemma PagesCoverHistory(table: seq<Session>, userId: UserId, limit: int, i: nat)
    requires limit >= 1
    requires i < |UserGames(table, userId)|
    ensures var r := GetUserSessions(table, userId, i / limit + 1, limit);
            i % limit < |r.data| && r.data[i % limit] == Ordered(table, userId)[i]
  {
    PageAndSlot(i, limit);
    SlotOnPage(table, userId, i / limit + 1, limit, i % limit);
  }

  /** Index i sits at slot i % limit after skipping the pages before i / limit + 1. */
  lemma PageAndSlot(i: nat, limit: int)
    requires limit >= 1
    ensures 0 <= i % limit < limit
    ensures SkipOf(i / limit + 1, limit) + i % limit == i
  {
  }

  lemma SlotOnPage(table: seq<Session>, userId: UserId, page: int, limit: int, slot: nat)
    requires page >= 1 && limit >= 1
    requires slot < limit && SkipOf(page, limit) + slot < |UserGames(table, userId)|
    ensures var r := GetUserSessions(table, userId, page, limit);
            slot < |r.data| && r.data[slot] == Ordered(table, userId)[SkipOf(page, limit) + slot]
  {
    var ordered := Ordered(table, userId);
    PageSlot(ordered, SkipOf(page, limit), slot, limit);
    assert GetUserSessions(table, userId, page, limit).data == PageOf(ordered, SkipOf(page, limit), limit);
  }

  lemma PageSlot(ordered: seq<Session>, skip: nat, slot: nat, limit: nat)
    requires SortedDesc(ordered, CreatedKey)
    requires slot < limit && skip + slot < |ordered|
    ensures slot < |PageOf(ordered, skip, limit)|
    ensures PageOf(ordered, skip, limit)[slot] == ordered[skip + slot]
  {
  }

  /** Statistics and the session history count the same sessions. */
  lemma StatsAgreeWithHistory(table: seq<Session>, userId: UserId, page: int, limit: int)
    requires page >= 1 && limit >= 1
    ensures GetUserStats(table, userId).totalGames == GetUserSessions(table, userId, page, limit).total
  {
  }
}
