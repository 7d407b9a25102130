/** The game service (game.service.ts): startGame, submitGame and
    getLeaderboard over a session store. Each call is one atomic step from a
    store to a store and a response. */
module Game {
  import opened Difficulty
  import opened CodeGen
  import opened Scoring
  import opened Accuracy
  import opened Query
  import opened Sessions

  /** The three BadRequestException messages of submitGame. */
  datatype SubmitError = SessionNotFound | NotYourGame | AlreadySubmitted

  datatype Result<T> = Ok(value: T) | Err(error: SubmitError)

  datatype SubmitRequest = SubmitRequest(gameId: Id, submittedCode: string, timeTaken: int)
  datatype SubmitResponse = SubmitResponse(accuracy: real, score: int, correctCode: string)
  datatype StartResponse = StartResponse(gameId: Id, difficulty: string, code: string)

  datatype Started = Started(store: Store, response: StartResponse)
  datatype Outcome = Outcome(store: Store, result: Result<SubmitResponse>)

  /** The leaderboard's `take: 20`. */
  const LeaderboardSize: nat := 20

  /** startGame. The database assigns `newId` and `now`; the id is fresh. */
  function StartGame(store: Store, userId: UserId, difficulty: string, draws: seq<Draw>, newId: Id, now: int): (r: Started)
    requires newId !in store
    requires CodeLength(difficulty) <= |draws|
    ensures r.store.Keys == store.Keys + {newId}
    ensures forall id :: id in store ==> r.store[id] == store[id]
    ensures r.response.gameId == newId && r.response.difficulty == difficulty
    ensures r.store[newId].generatedCode == r.response.code
    ensures |r.response.code| == CodeLength(difficulty) && InAlphabet(r.response.code)
    ensures r.store[newId] ==
      Session(newId, userId, difficulty, r.response.code, None, None, None, None, now)
    ensures !Submitted(r.store[newId]) && !Locked(r.store[newId])
  {
    var code := GenerateCode(difficulty, draws);
    var game := Session(newId, userId, difficulty, code, None, None, None, None, now);
    Started(store[newId := game], StartResponse(newId, difficulty, code))
  }

  /** The accepted-submission update of session `s`: accuracy against the
      upper-cased submission, maxTime from the stored difficulty, the score,
      and the four fields written (the submission stored as sent). */
  function Grade(s: Session, req: SubmitRequest): (r: (Session, SubmitResponse))
    requires |s.generatedCode| > 0
    ensures r.1.correctCode == s.generatedCode
    ensures r.1.accuracy == Percent(Matches(s.generatedCode, Upper(req.submittedCode)), |s.generatedCode|)
    ensures 0.0 <= r.1.accuracy <= 100.0 && r.1.score >= 0
    ensures r.0 == s.(submittedCode := Some(req.submittedCode), accuracy := Some(r.1.accuracy),
                      score := Some(r.1.score), timeTaken := Some(req.timeTaken))
  {
    var accuracy := AccuracyOf(s.generatedCode, req.submittedCode);
    var maxTime := MaxTime(s.difficulty);
    var score := CalculateScore(s.difficulty, accuracy, req.timeTaken, maxTime);
    (s.(submittedCode := Some(req.submittedCode), accuracy := Some(accuracy),
        score := Some(score), timeTaken := Some(req.timeTaken)),
     SubmitResponse(accuracy, score, s.generatedCode))
  }

  /** What an accepted submission does to `before`: only the four submission
      fields change, the accuracy is the positional match percentage against
      the upper-cased submission, and the response reports the stored code. */
  predicate Accepted(before: Session, req: SubmitRequest, after: Session, resp: SubmitResponse)
  {
    && |before.generatedCode| > 0
    && resp.accuracy == Percent(Matches(before.generatedCode, Upper(req.submittedCode)), |before.generatedCode|)
    && after.id == before.id && after.userId == before.userId
    && after.difficulty == before.difficulty && after.generatedCode == before.generatedCode
    && after.createdAt == before.createdAt
    && after.submittedCode == Some(req.submittedCode)
    && after.timeTaken == Some(req.timeTaken)
    && after.accuracy == Some(resp.accuracy) && after.score == Some(resp.score)
    && resp.correctCode == before.generatedCode
    && 0.0 <= resp.accuracy <= 100.0 && resp.score >= 0
  }

  /** submitGame as written: not found, then not the owner, then the
      truthiness test on submittedCode, then grade and update. */
  function SubmitGame(store: Store, userId: UserId, req: SubmitRequest): (r: Outcome)
    requires req.gameId in store ==> |store[req.gameId].generatedCode| > 0
    ensures req.gameId !in store ==> r == Outcome(store, Err(SessionNotFound))
    ensures req.gameId in store && store[req.gameId].userId != userId ==>
      r == Outcome(store, Err(NotYourGame))
    ensures req.gameId in store && store[req.gameId].userId == userId && Locked(store[req.gameId]) ==>
      r == Outcome(store, Err(AlreadySubmitted))
    ensures r.result.Err? ==> r.store == store
    ensures r.result.Ok? <==>
      req.gameId in store && store[req.gameId].userId == userId && !Locked(store[req.gameId])
    ensures r.result.Ok? ==>
      && req.gameId in r.store
      && r.store == store[req.gameId := r.store[req.gameId]]
      && Accepted(store[req.gameId], req, r.store[req.gameId], r.result.value)
  {
    if req.gameId !in store then Outcome(store, Err(SessionNotFound))
    else
      var game := store[req.gameId];
      if game.userId != userId then Outcome(store, Err(NotYourGame))
      else if Locked(game) then Outcome(store, Err(AlreadySubmitted))
      else
        var (updated, response) := Grade(game, req);
        Outcome(store[req.gameId := updated], Ok(response))
  }

  /** submitGame with the already-submitted test changed so that a session is
      write-once: any non-null submittedCode, the empty string included, locks. */
  function SubmitGameOnce(store: Store, userId: UserId, req: SubmitRequest): (r: Outcome)
    requires req.gameId in store ==> |store[req.gameId].generatedCode| > 0
    ensures req.gameId !in store ==> r == Outcome(store, Err(SessionNotFound))
    ensures req.gameId in store && store[req.gameId].userId != userId ==>
      r == Outcome(store, Err(NotYourGame))
    ensures req.gameId in store && store[req.gameId].userId == userId && Submitted(store[req.gameId]) ==>
      r == Outcome(store, Err(AlreadySubmitted))
    ensures r.result.Err? ==> r.store == store
    ensures r.result.Ok? <==>
      req.gameId in store && store[req.gameId].userId == userId && !Submitted(store[req.gameId])
    ensures r.result.Ok? ==>
      && req.gameId in r.store
      && r.store == store[req.gameId := r.store[req.gameId]]
      && Accepted(store[req.gameId], req, r.store[req.gameId], r.result.value)
  {
    if req.gameId !in store then Outcome(store, Err(SessionNotFound))
    else
      var game := store[req.gameId];
      if game.userId != userId then Outcome(store, Err(NotYourGame))
      else if Submitted(game) then Outcome(store, Err(AlreadySubmitted))
      else
        var (updated, response) := Grade(game, req);
        Outcome(store[req.gameId := updated], Ok(response))
  }

  /** Every store the service can build keeps each session well formed, and
      so always meets submitGame's requirement of a non-empty code. */
  lemma ValidStoreAllowsSubmit(store: Store, req: SubmitRequest)
    requires ValidStore(store)
    ensures req.gameId in store ==> |store[req.gameId].generatedCode| > 0
  {
    if req.gameId in store {
      TierTable(store[req.gameId].difficulty);
    }
  }

  lemma StartPreservesValid(store: Store, userId: UserId, difficulty: string, draws: seq<Draw>, newId: Id, now: int)
    requires ValidStore(store)
    requires newId !in store
    requires CodeLength(difficulty) <= |draws|
    ensures ValidStore(StartGame(store, userId, difficulty, draws, newId, now).store)
  {
  }

  lemma SubmitPreservesValid(store: Store, userId: UserId, req: SubmitRequest)
    requires ValidStore(store)
    ensures ValidStore(SubmitGame(store, userId, req).store)
    ensures ValidStore(SubmitGameOnce(store, userId, req).store)
  {
    ValidStoreAllowsSubmit(store, req);
  }

  /** The score submitGame stores, in closed form: with m matching positions,
      code length L and T = base + time bonus, round(T * m / L) is
      (2*T*m + L) div (2*L). */
  lemma SubmitScoreClosedForm(store: Store, userId: UserId, req: SubmitRequest)
    requires req.gameId in store && |store[req.gameId].generatedCode| > 0
    requires store[req.gameId].userId == userId && !Locked(store[req.gameId])
    ensures var s := store[req.gameId];
            var m := Matches(s.generatedCode, Upper(req.submittedCode));
            var L := |s.generatedCode|;
            var T := BaseScore(s.difficulty) + TimeBonus(MaxTime(s.difficulty), req.timeTaken);
            SubmitGame(store, userId, req).result.value.score == (2 * T * m + L) / (2 * L)
  {
    var s := store[req.gameId];
    var m := Matches(s.generatedCode, Upper(req.submittedCode));
    var resp := SubmitGame(store, userId, req).result.value;
    assert resp == Grade(s, req).1;
    assert resp.accuracy == Percent(m, |s.generatedCode|);
    ScoreOfPercent(s.difficulty, m, |s.generatedCode|, req.timeTaken);
  }

  /** The closed form of calculateScore at an accuracy of m out of L positions. */
  lemma ScoreOfPercent(difficulty: string, m: nat, L: nat, timeTaken: int)
    requires L > 0
    ensures var T := BaseScore(difficulty) + TimeBonus(MaxTime(difficulty), timeTaken);
            CalculateScore(difficulty, Percent(m, L), timeTaken, MaxTime(difficulty)) == (2 * T * m + L) / (2 * L)
  {
    var T := BaseScore(difficulty) + TimeBonus(MaxTime(difficulty), timeTaken);
    RoundedScoreIsDiv(T, m, L);
  }

  lemma RoundedScoreIsDiv(T: nat, m: nat, L: nat)
    requires L > 0
    ensures Round(T as real * (Percent(m, L) / 100.0)) == (2 * T * m + L) / (2 * L)
  {
    var x := T as real * (Percent(m, L) / 100.0);
    assert Percent(m, L) / 100.0 == m as real / L as real;
    assert x == T as real * (m as real / L as real);
    assert x + 0.5 == (2 * T * m + L) as real / (2 * L) as real by {
      var y := (2 * T * m + L) as real / (2 * L) as real;
      assert y * (2 * L) as real == (2 * T * m + L) as real;
      assert (x + 0.5) * (2 * L) as real == 2.0 * (T * m) as real + L as real by {
        assert x * L as real == (T * m) as real;
      }
      DivideOut(x + 0.5, y, (2 * L) as real);
      DivideOut(y, x + 0.5, (2 * L) as real);
    }
    FloorOfQuotient(2 * T * m + L, 2 * L);
  }

  /** Floor of an exact quotient of naturals is their integer division. */
  lemma FloorOfQuotient(a: nat, b: nat)
    requires b > 0
    ensures (a as real / b as real).Floor == a / b
  {
    var q := a / b;
    var r := a % b;
    DivModNat(a, b);
    CastMulAdd(q, b, r);
    var x := a as real / b as real;
    assert x * b as real == a as real;
    BetweenByMultiple(x, q as real, b as real, r as real);
  }

  lemma DivModNat(a: nat, b: nat)
    requires b > 0
    ensures a == (a / b) * b + a % b && 0 <= a % b < b && a / b >= 0
  {
  }

  lemma CastMulAdd(q: int, b: int, r: int)
    ensures (q * b + r) as real == q as real * b as real + r as real
  {
  }

  lemma BetweenByMultiple(x: real, q: real, b: real, r: real)
    requires b > 0.0 && 0.0 <= r < b
    requires x * b == q * b + r
    ensures q <= x < q + 1.0
  {
    var u := x - q;
    assert u * b == x * b - q * b;
    assert u * b == r;
    ProductSign(u, b);
  }

  lemma ProductSign(u: real, b: real)
    requires b > 0.0
    ensures u * b >= 0.0 ==> u >= 0.0
    ensures u * b < b ==> u < 1.0
  {
  }

  lemma DivideOut(x: real, y: real, b: real)
    requires b > 0.0
    ensures x * b <= y * b ==> x <= y
    ensures x * b < y * b ==> x < y
  {
    if x > y {
      assert x * b - y * b == (x - y) * b;
    }
  }

  /** After a submission with a non-empty code, every later submit on that
      session fails (not the owner, or already submitted) and changes nothing. */
  lemma SecondSubmitRejected(store: Store, userId: UserId, req: SubmitRequest, userId2: UserId, req2: SubmitRequest)
    requires req.gameId in store && |store[req.gameId].generatedCode| > 0
    requires store[req.gameId].userId == userId && !Locked(store[req.gameId])
    requires req.submittedCode != ""
    requires req2.gameId == req.gameId
    ensures var after := SubmitGame(store, userId, req).store;
            var again := SubmitGame(after, userId2, req2);
            again.result.Err? && again.store == after
            && (userId2 == userId ==> again.result.error == AlreadySubmitted)
  {
  }

  /** The finding: an empty-string submission is accepted but does not lock
      the session, and its response discloses the code. Submitting that code
      next is accepted too, scores 100 and overwrites the first result. */
  lemma EmptySubmissionReopens(store: Store, userId: UserId, id: Id, t1: int, t2: int)
    requires ValidStore(store)
    requires id in store && store[id].userId == userId && !Locked(store[id])
    ensures var first := SubmitGame(store, userId, SubmitRequest(id, "", t1));
            && first.result.Ok?
            && !Locked(first.store[id])
            && var code := first.result.value.correctCode;
               var second := SubmitGame(first.store, userId, SubmitRequest(id, code, t2));
               && second.result.Ok?
               && second.result.value.accuracy == 100.0
               && second.store[id].submittedCode == Some(code)
  {
    var s := store[id];
    TierTable(s.difficulty);
    var code := s.generatedCode;
    assert Upper(code) == code;
    assert Upper(code)[..|code|] == code;
    FullAccuracyIff(code, code);
  }

  /** With the corrected guard a session is write-once: after any accepted
      submission, every later submit on it fails and changes nothing. */
  lemma SubmitOnceIsWriteOnce(store: Store, userId: UserId, req: SubmitRequest, userId2: UserId, req2: SubmitRequest)
    requires req.gameId in store && |store[req.gameId].generatedCode| > 0
    requires store[req.gameId].userId == userId && !Submitted(store[req.gameId])
    requires req2.gameId == req.gameId
    ensures var after := SubmitGameOnce(store, userId, req).store;
            var again := SubmitGameOnce(after, userId2, req2);
            again.result.Err? && again.store == after
            && (userId2 == userId ==> again.result.error == AlreadySubmitted)
  {
  }

  /** getLeaderboard: submitted sessions, highest score first, at most 20. */
  function Leaderboard(rows: seq<Session>): (top: seq<Session>)
    ensures |top| <= LeaderboardSize
    ensures forall i :: 0 <= i < |top| ==> Submitted(top[i])
    ensures SortedDesc(top, ScoreOrZero)
    ensures multiset(top) <= multiset(rows)
    ensures |Filter(rows, Submitted)| <= LeaderboardSize ==>
      multiset(top) == multiset(Filter(rows, Submitted))
    ensures |Filter(rows, Submitted)| >= LeaderboardSize ==> |top| == LeaderboardSize
    ensures forall x, y :: x in rows && Submitted(x) && x !in top && y in top ==> ScoreOrZero(x) <= ScoreOrZero(y)
  {
    var top := Take(SortDesc(Filter(rows, Submitted), ScoreOrZero), LeaderboardSize);
    TopOfFilter(rows, Submitted, ScoreOrZero, LeaderboardSize);
    assert forall i :: 0 <= i < |top| ==> Submitted(top[i]);
    top
  }
}
