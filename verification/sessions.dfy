/** The game-session record and the session store. */
module Sessions {
  import opened Difficulty
  import opened CodeGen

  datatype Option<T> = None | Some(value: T)

  type Id = string
  type UserId = string

  /** One row of the session table. The four submission fields are null
      (None) until a submit writes them. */
  datatype Session = Session(
    id: Id,
    userId: UserId,
    difficulty: string,
    generatedCode: string,
    submittedCode: Option<string>,
    accuracy: Option<real>,
    score: Option<int>,
    timeTaken: Option<int>,
    createdAt: int)

  /** The session table, keyed by id. */
  type Store = map<Id, Session>

  /** The submit guard `if (game.submittedCode)`: a truthiness test, so an
      empty-string submission does not count. */
  predicate Locked(s: Session)
  {
    s.submittedCode.Some? && s.submittedCode.value != ""
  }

  /** The query filter `submittedCode: { not: null }`. */
  predicate Submitted(s: Session)
  {
    s.submittedCode.Some?
  }

  /** What every session written by startGame and submitGame satisfies. */
  predicate WellFormed(s: Session)
  {
    && |s.generatedCode| == CodeLength(s.difficulty)
    && InAlphabet(s.generatedCode)
    && s.submittedCode.Some? == s.accuracy.Some?
    && s.submittedCode.Some? == s.score.Some?
    && s.submittedCode.Some? == s.timeTaken.Some?
    && (s.accuracy.Some? ==> 0.0 <= s.accuracy.value <= 100.0)
    && (s.score.Some? ==> s.score.value >= 0)
  }

  predicate ValidStore(store: Store)
  {
    forall id :: id in store ==> store[id].id == id && WellFormed(store[id])
  }

  /** `s.score || 0`: the profile statistics' reading of a score, also used as
      the leaderboard's sort key. Under WellFormed a submitted session always
      carries a score, so the 0 for a null score never takes part there. */
  function ScoreOrZero(s: Session): int
  {
    if s.score.Some? then s.score.value else 0
  }

  function CreatedKey(s: Session): int
  {
    s.createdAt
  }
}
