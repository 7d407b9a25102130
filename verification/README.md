# Ghost Code game engine, modelled in Dafny

Ghost Code is a timed memory-recall game. The backend issues a random
alphanumeric code whose length depends on the difficulty. The player sees it
briefly, plays distraction mini-games, then types the code back. The server
scores the recall from positional accuracy and elapsed time.

This project models the two backend services that hold the game's logic:

- **Game service** (`game.service.ts`): code generation, score calculation,
  `startGame`, the `submitGame` state machine (not found, then not your game,
  then already submitted, then grade and write once), and the leaderboard
  query.
- **Profile service** (`profile.service.ts`): per-user statistics, and the
  paginated history of submitted sessions.

The session table is a `map<Id, Session>` of immutable records. Each service
call is one atomic step from a store to a new store and a response. The read
queries (leaderboard, statistics, history) take the table's rows as a
`seq<Session>`.

Modules, leaf first:

- `Difficulty`: the tier tables. A difficulty is a free string. Anything
  other than `"easy"` or `"medium"` gets the hard values (12 characters, base
  300, 120 seconds).
- `CodeGen`: the 36-character alphabet and `GenerateCode`. Randomness is a
  parameter: one draw in [0, 36) per character.
- `Scoring`: the time bonus, `Math.round` as `Floor(x + 1/2)`, and
  `calculateScore`.
- `Accuracy`: ASCII upper-casing, the positional match count (also as the
  source's loop, `CountMatches`), and the accuracy percentage.
- `Query`: the database query shapes the services use: `where`,
  `orderBy … desc`, `skip` and `take`.
- `Sessions`: the session record, the store, and the store invariant
  `ValidStore`.
- `Game` and `Profile`: the two services.

An unknown difficulty is not rejected: it silently gets the hard values.

## Model

| member | source | states |
|---|---|---|
| `Difficulty.TierTable` | ghost-code-back/src/game/game.service.ts:11-86 | easy gives 6 characters, base 100 and 60 s; medium gives 9, 200 and 90 s; every other string gives 12, 300 and 120 s |
| `CodeGen.AlphabetLayout` | ghost-code-back/src/game/game.service.ts:13 | the alphabet has 36 characters: index d holds 'A'+d below 26 and '0'+(d-26) from 26 on; a character is in it exactly when it is an upper-case ASCII letter or a digit |
| `CodeGen.GenerateCode` | ghost-code-back/src/game/game.service.ts:10-18 | the code has the tier's length (6, 9 or 12, with any unknown string counted as 12) and every character is in A–Z0–9 |
| `CodeGen.GenerateCodeOnto` | ghost-code-back/src/game/game.service.ts:15-17 | every string of the tier's length over the alphabet is generated by some sequence of draws |
| `CodeGen.GenerateCodeInjective` | ghost-code-back/src/game/game.service.ts:15-17 | different draws give different codes, so generation is a bijection and uniform draws give uniform codes |
| `Scoring.TimeBonus` | ghost-code-back/src/game/game.service.ts:31 | the bonus is never negative; it is 0 exactly when timeTaken ≥ maxTime, and 2·(maxTime − timeTaken) otherwise |
| `Scoring.Round` | ghost-code-back/src/game/game.service.ts:33 | Math.round gives the integer within 1/2 of x, with halves rounded up |
| `Scoring.CalculateScore` | ghost-code-back/src/game/game.service.ts:22-34 | the score is a non-negative integer whenever accuracy ≥ 0 |
| `Scoring.ScoreMonotoneInAccuracy` | ghost-code-back/src/game/game.service.ts:29-33 | for fixed difficulty and time, higher accuracy never gives a lower score |
| `Scoring.ScoreAntitoneInTime` | ghost-code-back/src/game/game.service.ts:31-33 | for fixed non-negative accuracy, a longer time never gives a higher score |
| `Scoring.EasyExamples` | ghost-code-back/src/game/game.service.ts:26-33 | easy at 100% scores 200 after 10 s and 100 after 90 s, past the 60 s budget |
| `Accuracy.MatchesUpTo` | ghost-code-back/src/game/game.service.ts:79-81 | the number of agreeing positions below n is at most n |
| `Accuracy.Matches` | ghost-code-back/src/game/game.service.ts:78-81 | matches are counted over min(len(generated), len(submitted)) positions, so the count is at most both lengths |
| `Accuracy.CountMatches` | ghost-code-back/src/game/game.service.ts:77-81 | the source's counting loop computes exactly the positional match count |
| `Accuracy.Upper` | ghost-code-back/src/game/game.service.ts:76 | upper-casing keeps the length, leaves no 'a'–'z', moves each 'a'–'z' down by 32 and leaves every other character unchanged |
| `Accuracy.UpperUndoesLower` | ghost-code-back/src/game/game.service.ts:76 | upper-casing the lower-cased form of a string over A–Z0–9 gives the string back |
| `Accuracy.AccuracyOf` | ghost-code-back/src/game/game.service.ts:75-82 | the accuracy against the upper-cased submission lies in [0, 100] |
| `Accuracy.PercentBounds` | ghost-code-back/src/game/game.service.ts:82 | (matches / length)·100 lies in [0, 100] and is 100 exactly when every position matched |
| `Accuracy.MatchesUpToAll` | ghost-code-back/src/game/game.service.ts:79-81 | all n positions agree exactly when the count reaches n |
| `Accuracy.FullAccuracyIff` | ghost-code-back/src/game/game.service.ts:75-82 | accuracy is 100 exactly when the upper-cased submission is at least as long as the code and starts with it |
| `Accuracy.ShortSubmissionBelowFull` | ghost-code-back/src/game/game.service.ts:76-82 | a submission whose upper-cased form is shorter than the code scores below 100, because the denominator is the code's length |
| `Accuracy.LowerCaseCopyIsFull` | ghost-code-back/src/game/game.service.ts:76 | a lower-case copy of a generated code has accuracy 100 |
| `Accuracy.TrailingIgnored` | ghost-code-back/src/game/game.service.ts:78 | characters after the code's length do not change the accuracy |
| `Accuracy.AccuracyExamples` | ghost-code-back/src/game/game.service.ts:75-82 | "ab12cd" against AB12CD gives 100, "AB99CD" gives 400/6 and "AB1" gives 50 |
| `Query.Filter` | ghost-code-back/src/game/game.service.ts:114 | a `where` keeps exactly the rows that satisfy the predicate, with their multiplicities |
| `Query.SortDesc` | ghost-code-back/src/game/game.service.ts:115 | `orderBy desc` yields a permutation of its input, sorted by descending key |
| `Query.Insert` | ghost-code-back/src/game/game.service.ts:115 | inserting into a descending sequence keeps it descending and adds exactly one element |
| `Query.Take` | ghost-code-back/src/game/game.service.ts:116 | `take n` is a prefix of length min(n, len) |
| `Query.TakeKeepsTop` | ghost-code-back/src/game/game.service.ts:115-116 | a prefix of a sorted list stays sorted, and every element it leaves out ranks no higher than every element it keeps |
| `Query.TopOfFilter` | ghost-code-back/src/game/game.service.ts:113-116 | filter, sort and take: the result qualifies, is sorted, comes from the input, holds every qualifying row when at most n qualify, and outranks every qualifying row it leaves out |
| `Query.Skip` | ghost-code-back/src/profile/profile.service.ts:50 | `skip k` drops the first k rows, or all rows when there are fewer |
| `Query.SkipSorted` | ghost-code-back/src/profile/profile.service.ts:49-50 | skipping rows of a sorted list leaves it sorted |
| `Game.StartGame` | ghost-code-back/src/game/game.service.ts:37-56 | one new session under the fresh id, with the returned code as its generatedCode and no submission; every other session is unchanged |
| `Game.Grade` | ghost-code-back/src/game/game.service.ts:74-103 | an accepted submission writes only submittedCode (as sent), accuracy, score and timeTaken; the accuracy is the positional match percentage of the stored code against the upper-cased submission; the response carries the stored code |
| `Game.SubmitGame` | ghost-code-back/src/game/game.service.ts:60-110 | errors come in order (not found, then not your game, then a non-empty submittedCode) and leave the store unchanged; success happens exactly in the remaining case, changes only that session's four submission fields, and reports the positional match percentage against the upper-cased submission as accuracy |
| `Game.ValidStoreAllowsSubmit` | ghost-code-back/src/game/game.service.ts:82 | in every well-formed store the code being divided by is non-empty |
| `Game.StartPreservesValid` | ghost-code-back/src/game/game.service.ts:37-45 | startGame keeps every session well formed |
| `Game.SubmitPreservesValid` | ghost-code-back/src/game/game.service.ts:94-103 | both submit guards keep every session well formed: the four fields are set together, accuracy lies in [0, 100] and score ≥ 0 |
| `Game.SubmitScoreClosedForm` | ghost-code-back/src/game/game.service.ts:82-92 | the stored score is (2·T·m + L) div (2·L), with m matches, code length L and T = base + time bonus |
| `Game.ScoreOfPercent` | ghost-code-back/src/game/game.service.ts:29-33 | calculateScore at accuracy m/L·100 equals round(T·m/L) in integer arithmetic |
| `Game.RoundedScoreIsDiv` | ghost-code-back/src/game/game.service.ts:33 | round(T·m/L) = (2·T·m + L) div (2·L) for naturals |
| `Game.SecondSubmitRejected` | ghost-code-back/src/game/game.service.ts:70-72 | after an accepted non-empty submission, every later submit on that session fails and changes nothing; it fails as already-submitted for the owner |
| `Game.EmptySubmissionReopens` | ghost-code-back/src/game/game.service.ts:70-72 | as written: an empty submission is accepted but does not lock, and a second submit of the disclosed code is accepted with accuracy 100 |
| `Game.SubmitGameOnce` | ghost-code-back/src/game/game.service.ts:64-72 | corrected guard: any non-null submittedCode rejects as already-submitted; otherwise the same as SubmitGame |
| `Game.SubmitOnceIsWriteOnce` | ghost-code-back/src/game/game.service.ts:70-72 | with the corrected guard, after any accepted submission every later submit fails and changes nothing |
| `Game.Leaderboard` | ghost-code-back/src/game/game.service.ts:112-122 | at most 20 sessions, all with non-null submittedCode, sorted by score descending, drawn from the table; all of them when at most 20 qualify, and none left out outranks one kept |
| `Profile.UserGames` | ghost-code-back/src/profile/profile.service.ts:9-11 | exactly the user's sessions with non-null submittedCode, with their multiplicities |
| `Profile.HighestScore` | ghost-code-back/src/profile/profile.service.ts:26 | the maximum of score-or-0: at least every such score and equal to one of them |
| `Profile.CountDifficulty` | ghost-code-back/src/profile/profile.service.ts:30-32 | a per-difficulty count never exceeds the number of sessions |
| `Profile.GetUserStats` | ghost-code-back/src/profile/profile.service.ts:8-42 | with no submitted sessions every statistic is 0; totalGames is the number of submitted sessions, totalScore the sum of score-or-0, and highestScore the maximum |
| `Profile.CountsPartition` | ghost-code-back/src/profile/profile.service.ts:29-33 | the easy, medium and hard counts plus the sessions with any other difficulty add up to all sessions |
| `Profile.CountUnknownZero` | ghost-code-back/src/profile/profile.service.ts:29-33 | no session has an uncounted difficulty exactly when all are easy, medium or hard |
| `Profile.DifficultyCountsBound` | ghost-code-back/src/profile/profile.service.ts:29-33 | the three counts sum to at most totalGames, with equality exactly when every difficulty is easy, medium or hard |
| `Profile.SumAccuracyBounds` | ghost-code-back/src/profile/profile.service.ts:24 | a sum of accuracies in [0, 100] lies in [0, 100·n] |
| `Profile.AverageAccuracyBounds` | ghost-code-back/src/profile/profile.service.ts:24-25 | averageAccuracy lies in [0, 100] when every counted accuracy does |
| `Profile.CeilDiv` | ghost-code-back/src/profile/profile.service.ts:63 | Math.ceil(total / limit) is the least q with q·limit ≥ total |
| `Profile.Ordered` | ghost-code-back/src/profile/profile.service.ts:49 | the user's submitted sessions, as a permutation sorted by createdAt descending |
| `Profile.PageOf` | ghost-code-back/src/profile/profile.service.ts:50-51 | a page has at most limit rows, stays sorted, is the contiguous run starting at skip, and is non-empty exactly when skip < total |
| `Profile.GetUserSessions` | ghost-code-back/src/profile/profile.service.ts:44-65 | total counts the user's submitted sessions and totalPages is their ceiling page count; the page holds at most limit sessions, newest first, taken from position (page − 1)·limit of the ordered history |
| `Profile.PageNonEmptyIff` | ghost-code-back/src/profile/profile.service.ts:45-63 | a page is non-empty exactly when its number is at most totalPages |
| `Profile.PagesCoverHistory` | ghost-code-back/src/profile/profile.service.ts:45-51 | the session at position i of the history is slot i mod limit of page i div limit + 1 |
| `Profile.StatsAgreeWithHistory` | ghost-code-back/src/profile/profile.service.ts:53-55 | the history's total equals the statistics' totalGames |

## Left out

- Database and framework wiring are not modelled: Prisma, NestJS controllers, guards, modules, `main.ts` and `seed.ts`. The store is a map, and each call is one step.
- The read-then-update race between `findUnique` and `update` in submitGame is not modelled. Each submit is assumed atomic.
- Authentication (`auth.service.ts`), the admin statistics (`admin.service.ts`) and the React front end are not part of this model.
- `Math.random` is replaced by a parameter: a sequence of draws in [0, 36). Draws beyond the tier's length are ignored. Uniformity of the draws is assumed, not modelled.
- Floating point is replaced by exact reals. Accuracy is stored exactly (400/6, say), not as the nearest double, and no IEEE rounding of it is modelled.
- `Accuracy.Upper`: `toUpperCase` is modelled for ASCII letters only. Unicode case mappings are not modelled, including ones that change the length ('ß' becomes "SS") or map into the alphabet ('ı' becomes 'I').
- `Accuracy.AccuracyOf`: a string is a sequence of characters, not of UTF-16 code units, and the case mapping is ASCII-only. For code "ZZABCD" and submission "😀ABCD" the source compares the two surrogate halves with "ZZ", matches ABCD and gives 400/6; the model sees one character there, shifts ABCD and gives 0.
- `Accuracy.FullAccuracyIff`, `Accuracy.ShortSubmissionBelowFull`: stated over the length of the upper-cased submission. Under the source's full Unicode `toUpperCase` a short submission can grow: "abcdß" against code "ABCDSS" becomes "ABCDSS" and scores 100 there, while the ASCII-only model keeps it at five characters.
- The database's generated id and creation time are parameters of `StartGame`. The id is required to be fresh.
- `Game.SubmitGame`: requires a non-empty stored code, because the source divides by its length (0/0 would give NaN). Every store built by startGame satisfies this (`ValidStoreAllowsSubmit`).
- `Profile.GetUserSessions`: requires page ≥ 1 and limit ≥ 1. A non-positive page, a negative limit or NaN from `parseInt` goes to the database driver, whose behaviour is not part of this model. A limit of 0 reaches the driver as skip 0 and take 0, but the service itself then returns `Math.ceil(total / 0)` as totalPages: Infinity, or NaN when total is 0. Neither is a natural number, so that case is not modelled.
- The order of tied rows in `orderBy` is the database's and is not modelled. The model's sort picks one order.
- `Game.Leaderboard`: ranks a null score as 0. Under `ValidStore` a submitted session always has a score, so this case never arises. The database's placement of nulls is not modelled.
- The leaderboard's `include: { user: { select: { username } } }` join is left out: the user table is not modelled.
- The request DTO files (`start-game.dto`, `submit-game.dto`) are not part of this model. Any validation they perform is not modelled, and `timeTaken` is an unrestricted integer.

## Findings

| source | as written | input that shows it | evidently intended | confidence | as-written member | corrected member |
|---|---|---|---|---|---|---|
| ghost-code-back/src/game/game.service.ts:70 | the already-submitted test is truthiness on `submittedCode`, so an empty-string submission is stored but does not lock the session | submit `""` for a fresh session: it is accepted and its response discloses `correctCode`; submit that code next: it is accepted with accuracy 100 and overwrites the first result | a session is write-once: any stored submission, empty or not, rejects later submits | not executed | `Game.EmptySubmissionReopens` | `Game.SubmitGameOnce` |
