/** The difficulty tiers of the game service. A difficulty is a free string:
    "easy" and "medium" are recognised, and every other string, "hard"
    included, falls through to the hard values. Nothing is rejected. */
module Difficulty {

  /** Length of the challenge code (game.service.ts generateCode). */
  function CodeLength(difficulty: string): nat
  {
    if difficulty == "easy" then 6 else if difficulty == "medium" then 9 else 12
  }

  /** Base score before the time bonus (game.service.ts calculateScore). */
  function BaseScore(difficulty: string): nat
  {
    if difficulty == "easy" then 100 else if difficulty == "medium" then 200 else 300
  }

  /** Time budget in seconds, derived from the stored difficulty at submit time. */
  function MaxTime(difficulty: string): nat
  {
    if difficulty == "easy" then 60 else if difficulty == "medium" then 90 else 120
  }

  /** The three tier names the profile statistics count. */
  predicate Known(difficulty: string)
  {
    difficulty == "easy" || difficulty == "medium" || difficulty == "hard"
  }

  /** The tier table, with the fall-through: any string other than "easy" or
      "medium" gets the hard values, whether or not it is "hard". */
  lemma TierTable(difficulty: string)
    ensures difficulty == "easy" ==>
      CodeLength(difficulty) == 6 && BaseScore(difficulty) == 100 && MaxTime(difficulty) == 60
    ensures difficulty == "medium" ==>
      CodeLength(difficulty) == 9 && BaseScore(difficulty) == 200 && MaxTime(difficulty) == 90
    ensures difficulty != "easy" && difficulty != "medium" ==>
      CodeLength(difficulty) == 12 && BaseScore(difficulty) == 300 && MaxTime(difficulty) == 120
    ensures 6 <= CodeLength(difficulty) <= 12
  {
  }
}
