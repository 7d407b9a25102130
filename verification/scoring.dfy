/** Score calculation (game.service.ts calculateScore). Floating point is
    replaced by exact reals; JavaScript's Math.round is Floor(x + 1/2). */
module Scoring {
  import opened Difficulty

  /** Math.max(0, maxTime - timeTaken) * 2. */
  function TimeBonus(maxTime: int, timeTaken: int): (bonus: int)
    ensures bonus >= 0
    ensures bonus == 0 <==> timeTaken >= maxTime
    ensures timeTaken <= maxTime ==> bonus == 2 * (maxTime - timeTaken)
  {
    (if maxTime - timeTaken > 0 then maxTime - timeTaken else 0) * 2
  }

  /** Math.round: the nearest integer, halves rounded up. */
  function Round(x: real): (n: int)
    ensures x - 0.5 < n as real <= x + 0.5
  {
    (x + 0.5).Floor
  }

  /** calculateScore: the base plus the time bonus, scaled by accuracy / 100
      and rounded. `maxTime` is supplied by the caller, as in the source. */
  function CalculateScore(difficulty: string, accuracy: real, timeTaken: int, maxTime: int): (score: int)
    ensures accuracy >= 0.0 ==> score >= 0
  {
    var total := (BaseScore(difficulty) + TimeBonus(maxTime, timeTaken)) as real;
    assert total >= 0.0;
    assert accuracy >= 0.0 ==> total * (accuracy / 100.0) >= 0.0;
    Round(total * (accuracy / 100.0))
  }

  lemma RoundMonotone(x: real, y: real)
    requires x <= y
    ensures Round(x) <= Round(y)
  {
  }

  /** For fixed difficulty and time the score is non-decreasing in accuracy. */
  lemma ScoreMonotoneInAccuracy(difficulty: string, a1: real, a2: real, timeTaken: int, maxTime: int)
    requires a1 <= a2
    ensures CalculateScore(difficulty, a1, timeTaken, maxTime) <= CalculateScore(difficulty, a2, timeTaken, maxTime)
  {
    var total := (BaseScore(difficulty) + TimeBonus(maxTime, timeTaken)) as real;
    MulMonotone(total, a1 / 100.0, a2 / 100.0);
    RoundMonotone(total * (a1 / 100.0), total * (a2 / 100.0));
  }

  /** For fixed non-negative accuracy the score is non-increasing in the time taken. */
  lemma ScoreAntitoneInTime(difficulty: string, accuracy: real, t1: int, t2: int, maxTime: int)
    requires accuracy >= 0.0
    requires t1 <= t2
    ensures CalculateScore(difficulty, accuracy, t2, maxTime) <= CalculateScore(difficulty, accuracy, t1, maxTime)
  {
    var slow := (BaseScore(difficulty) + TimeBonus(maxTime, t2)) as real;
    var fast := (BaseScore(difficulty) + TimeBonus(maxTime, t1)) as real;
    assert slow <= fast;
    MulMonotone(accuracy / 100.0, slow, fast);
    assert slow * (accuracy / 100.0) <= fast * (accuracy / 100.0);
    RoundMonotone(slow * (accuracy / 100.0), fast * (accuracy / 100.0));
  }

  lemma MulMonotone(k: real, x: real, y: real)
    requires k >= 0.0 && x <= y
    ensures k * x <= k * y
  {
    assert k * y - k * x == k * (y - x);
  }

  /** Worked examples for the easy tier at full accuracy:
      10 seconds earns 200, 90 seconds (over the 60-second budget) earns 100. */
  lemma EasyExamples()
    ensures CalculateScore("easy", 100.0, 10, MaxTime("easy")) == 200
    ensures CalculateScore("easy", 100.0, 90, MaxTime("easy")) == 100
  {
  }
}
