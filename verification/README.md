# DeWordle: a verified model

This project models the algorithms and small protocols DeWordle is built around and proves what
they guarantee, for every input, every run and every interleaving.  `dafny verify dfyconfig.toml`
checks all of it.  Nothing of the original program is executed.

| file | models |
|---|---|
| `Marks.dfy` | the meaning of a row of Wordle marks, independent of any algorithm |
| `WordleEngine.dfy`, `WordValidation.dfy`, `SessionResultBench.dfy`, `EvaluatorAgreement.dfy` | the three guess evaluators, each proved against `Marks`, and the hard-mode validator |
| `GameSessions.dfy` | the six-attempt session |
| `RefreshTokens.dfy` | refresh-token rotation as interleaved database steps |
| `Matchmaking.dfy` | the skill queue with its timers |
| `LoginAttemptStore.dfy`, `AccountLockout.dfy` | the lazily expiring counters, the login rate limit and the escalating lock |
| `RateLimits.dfy` | the sliding-window and the fixed-window limiter |
| `Streaks.dfy` | the three streak computations and the guess distribution |
| `Similarity.dfy` | the similarity kernel of the two issue scripts |
| `CsvExport.dfy` | the CSV printer and a decoder for section 2 of RFC 4180 |
| `EnvExamples.dfy` | the .env.example printer, parser and comparison |
| `DictionaryCache.dfy` | the LRU word cache |
| `OfflineOutbox.dfy`, `OutboxDelivery.dfy` | the outbox of completed offline sessions, and how often it queues and delivers each |
| `Counting.dfy`, `Numbers.dfy`, `Options.dfy`, `Texts.dfy` | occurrences in a sequence, the larger of two numbers, a value that may be missing, lists of strings |

Services that update state in place are classes; each method is proved equal to a function of the
old state, or to a specification kept in ghost fields, and the run theorems are lemmas about those
functions.  Words and tokens arrive normalised, clocks are parameters that never run backwards,
days are numbers, and arithmetic is exact.

## Where code and documentation differ

The model follows the code.

- `backend/src/auth/refresh-token.service.ts:99-104` calls presenting an already used token a
  replay.  Below the depth limit the code also punishes a token that was merely revoked between the
  lookup and the claim, for instance by a logout (`PunishedExactlyWhenOvertaken`,
  `LogoutRunIsPunished`).
- `backend/src/auth/account-lockout.service.ts:70` promises a lock on the tenth consecutive failure.
  The code locks exactly when the tenth comes within a day of the first (`TenthFailureInARowLocks`);
  `SlowTenthFailureDoesNotLock` gives a run in which it does not.
- `backend/src/matchmaking/matchmaking.module.ts:77` gives attempt efficiency the range 0-30; within
  the request bounds it is 0-25, which is what caps the queue at five.
- `frontend/src/lib/game-statistics.ts:47` says a loss ends the streak.  A lost game changes neither
  number (`LossesChangeNothing`): a win yesterday and a loss today leave a current streak of 1, and
  only a whole day without a win ends it (`DayWithoutWin`).
- The two batch streaks can be promised to agree only if no win is dated after today
  (`AgreeExactlyWithoutFutureWins`); a future win may or may not tell them apart.
- `frontend/src/hooks/useOfflineSession.ts:92-96` speaks of syncing completed results; delivery is at
  least once.  A session is queued once, and once more by each reload that finds it completed
  (`QueuedOnceAndOncePerReload`).  Whether it can still come to be accepted `n` times is settled by
  the present state: exactly if the acceptances and the requests under way make up `n`, or it is
  stored, shown or yet to be played (`DeliveryOverEveryContinuation`).  Overlapping flushes, lost
  responses and reloads all deliver twice (`OverlappingFlushesDeliverTwice`,
  `LostResponseDeliversTwice`, `ReloadAllowsTwice`), and no session is accepted more often than
  flushes took it from the queue (`AcceptedAtMostTaken`).

## Model

| member | source | states |
|---|---|---|
| Marks.LawsDetermineMarks | backend/src/dewordle/wordle.engine.ts:66-102 | 'correct' exactly at matches, min(count in guess, count in solution) revealed copies of each letter, and 'present' leftmost first: a row obeys these three laws if and only if it is the reference evaluation |
| Marks.RevealedIsMinimum | backend/src/dewordle/wordle.engine.ts:83-99 | the non-absent marks on a letter number exactly the smaller of its two counts, for words of any lengths |
| Marks.AllCorrectIffPrefix | frontend/src/lib/word-validation.ts:66-68 | all marks are 'correct' exactly when the guess is a prefix of the target |
| Marks.AllCorrectIffEqual | frontend/src/lib/word-validation.ts:66-68 | for words of one length, all marks are 'correct' exactly when the words are equal |
| WordleEngine.EvaluateGuess | backend/src/dewordle/wordle.engine.ts:37-103 | the letter-count evaluator returns the reference marks with their letters, and refuses exactly unequal lengths and the empty solution |
| WordleEngine.WinIffSolution | backend/src/game-sessions/game-sessions.service.ts:253-255 | an evaluation is all correct exactly when the guess is the solution |
| WordValidation.CalculateLetterStatuses | frontend/src/lib/word-validation.ts:35-64 | the used-flags evaluator returns the reference marks, also for words of different lengths |
| WordValidation.ClaimFirstFree | frontend/src/lib/word-validation.ts:54-60 | the inner loop raises the flag of the first free copy of the letter, and no other, exactly when there is one |
| SessionResultBench.CalculateSessionResult | backend/src/game/session-result.bench.ts:6-31 | the sentinel evaluator returns the reference marks for every guess without the two sentinels, and otherwise the marks that skip `*` and let `#` claim an overwritten letter |
| SessionResultBench.SentinelsDiffer | backend/src/game/session-result.bench.ts:21-28 | the condition is needed: each sentinel in a guess can change the marks |
| EvaluatorAgreement.EvaluateThreeWays | backend/src/dewordle/wordle.engine.ts:54-102 | the three evaluators give one and the same row, the benchmark's if the guess has none of its sentinels; it is all correct exactly on the solution |
| WordValidation.ValidateHardModeGuess | frontend/src/lib/word-validation.ts:87-132 | a guess is valid if and only if it keeps every confirmed letter in place and contains every letter as often as some row revealed it; the complaint names the first displaced letter, or else the letter revealed first among those the guess has too few of, with the number required |
| WordValidation.BuildRequired | frontend/src/lib/word-validation.ts:105-116 | the required map holds, for each letter, the maximum revealed in one earlier guess |
| WordValidation.HardModeKeepsPossibleAnswers | frontend/src/lib/word-validation.ts:82-86 | hard mode accepts every word that, taken as target, explains all recorded rows; so always the target |
| WordValidation.PossibleAnswersAreAcceptedAndRespectAbsence | frontend/src/lib/word-validation.ts:87-132 | a word explains all rows recorded against a real target if and only if hard mode accepts it and it respects absent marks and ruled-out positions: exactly what hard mode leaves unchecked |
| WordValidation.HardModeAcceptsImpossibleAnswers | frontend/src/lib/word-validation.ts:93-103 | the extra condition is needed: a guess repeating an absent letter is accepted |
| GameSessions.GameSession.Guess | backend/src/game-sessions/game-sessions.service.ts:151-234 | a played guess is answered with its own evaluation, its number and the new status; each refusal is given exactly in its case and leaves the session alone |
| GameSessions.PlayAnswers | backend/src/game-sessions/game-sessions.service.ts:178-234 | the same for every session and guess of the runs below |
| GameSessions.EveryRunIsConsistent | backend/src/game-sessions/game-sessions.service.ts:178-262 | in every run: at most six distinct guesses numbered from 1 with their true evaluations; WON iff the last guess is the solution and none before; LOST iff six missed; one completion event exactly when finished |
| GameSessions.AttemptGuardIsNeverTaken | backend/src/game-sessions/game-sessions.service.ts:248-261 | an accepted guess is never beyond the sixth, so the too-many-attempts branch is dead |
| GameSessions.FinishedIsFinal | backend/src/game-sessions/game-sessions.service.ts:178-179 | a finished session never changes again |
| GameSessions.HistoryIsTheLegalWords | backend/src/game-sessions/game-sessions.service.ts:180-214 | the history is exactly the distinct legal words in order of arrival, cut after the solution or the sixth |
| RefreshTokens.RefreshTokenService.GenerateRefreshToken | backend/src/auth/refresh-token.service.ts:24-42 | inserts one row: depth 0 of a family never used before |
| RefreshTokens.RefreshTokenService.ValidateRefreshToken | backend/src/auth/refresh-token.service.ts:80-97 | yields the row's wallet exactly for known, unexpired, unrevoked tokens, spent ones included |
| RefreshTokens.RefreshTokenService.LookUp | backend/src/auth/refresh-token.service.ts:119-126 | what the lookup of a rotation settles: replay before invalid, else undecided |
| RefreshTokens.RefreshTokenService.ClaimAndIssue | backend/src/auth/refresh-token.service.ts:127-150 | the depth cut-off, the lost race, or the claim together with its successor |
| RefreshTokens.RefreshTokenService.RotateRefreshToken | backend/src/auth/refresh-token.service.ts:105-185 | undisturbed, a rotation succeeds exactly on an unused, unrevoked, unexpired token below depth 100, spends it and adds only its successor; a spent token revokes exactly its wallet's tokens, and the depth limit exactly its family's |
| RefreshTokens.RefreshTokenService.RevokeAllRefreshTokens | backend/src/auth/refresh-token.service.ts:195-200 | revokes the wallet's tokens and leaves every other row as it was |
| RefreshTokens.RefreshTokenService.RevokeRefreshToken | backend/src/auth/refresh-token.service.ts:187-193 | revokes the presented token and leaves every other row as it was |
| RefreshTokens.StepGrows | backend/src/auth/refresh-token.service.ts:142-150 | rows appear only by a login or as the successor of a row that was neither used nor revoked until that step, and only such a row is spent |
| RefreshTokens.StepRows | backend/src/auth/refresh-token.service.ts:24-42 | what each step but a commit does to the rows: a login adds one, a logout or a punishment revokes exactly its own, the others change none |
| RefreshTokens.EveryRunKeepsInvariant | backend/src/auth/auth.service.ts:257-281 | the chain invariant holds along every interleaving of logins, refreshes, revocations, logouts and aborts, and rows never regain rights |
| RefreshTokens.FamiliesAreChains | backend/src/auth/refresh-token.service.ts:117-152 | every family is a chain: one token per depth up to the newest, one wallet, spent exactly if not the newest, depth at most 100 |
| RefreshTokens.SpentTokenArmsRevocation | backend/src/auth/refresh-token.service.ts:123-140 | presenting a spent token, at the lookup or by losing the claim, arms the wallet-wide revocation |
| RefreshTokens.ReplayIsDetected | backend/src/auth/auth.service.ts:257-281 | from every reachable state, presenting a spent token that is neither expired nor revoked is accepted by the validation and arms the revocation at the lookup |
| RefreshTokens.UnpresentableIsIgnored | backend/src/auth/auth.service.ts:257-281 | a refresh starts exactly for a known, unexpired, unrevoked token |
| RefreshTokens.UninterruptedRefresh | backend/src/auth/refresh-token.service.ts:105-170 | a refresh that nothing interrupts revokes the wallet for a spent token, ends the family at depth 100, and otherwise spends the token and adds its successor |
| RefreshTokens.LookDecides | backend/src/auth/refresh-token.service.ts:119-126 | in every reachable state the lookup ends in a replay for a spent token, ends a request with a dead one, and goes on with any other |
| RefreshTokens.WriteDecides | backend/src/auth/refresh-token.service.ts:127-152 | in every reachable state the commit ends the family at depth 100, is a replay for a row used or revoked by then, and otherwise rotates |
| RefreshTokens.ArmedStaysArmed | backend/src/auth/refresh-token.service.ts:159-161 | an armed revocation stays armed until it runs or its request is cut off |
| RefreshTokens.PunishedExactlyWhenOvertaken | backend/src/auth/refresh-token.service.ts:127-140 | a commit calls for punishment if and only if the row, neither used nor revoked at the lookup, has become so since and is below depth 100 |
| RefreshTokens.LogoutDuringRefreshIsPunished | backend/src/auth/refresh-token.service.ts:187-193 | a logout that overtakes a refresh below the limit is punished as a replay though nothing was reused |
| RefreshTokens.LogoutRunIsPunished | backend/src/auth/refresh-token.service.ts:187-193 | such a run from the empty database: login, refresh, logout in between, punishment due and no token used |
| RefreshTokens.ReplayKillsFamilies | backend/src/auth/refresh-token.service.ts:159-161 | after the revocation, in every continuation, the wallet's old tokens stay revoked and none of its old families ever gets another token |
| RefreshTokens.OnlyLoginRevives | backend/src/auth/refresh-token.service.ts:195-200 | without a new login the wallet never again holds a live token |
| Matchmaking.MatchmakingService.FindOpponent | backend/src/matchmaking/matchmaking.module.ts:189-211 | takes the scan's choice out of the queue and clears its timer, or changes nothing |
| Matchmaking.ScanFindsNearest | backend/src/matchmaking/matchmaking.module.ts:193-203 | an opponent is found if and only if another player waits within the tolerance; it is at minimum distance and the last to join among those |
| Matchmaking.MatchmakingService.Enqueue | backend/src/matchmaking/matchmaking.module.ts:100-141 | already queued, paired, or queued with a timer: the whole new state in each case |
| Matchmaking.JoinIsAnswered | backend/src/matchmaking/matchmaking.module.ts:100-141 | in every reachable state a waiting player is told the place and the waiting time, anybody else is matched with the nearest eligible opponent, or queued last exactly if there is none |
| Matchmaking.ScoreLaws | backend/src/matchmaking/matchmaking.module.ts:78-80 | no wins in six attempts score 0; a percent of wins is worth one point, and an attempt spared five |
| Matchmaking.MatchmakingService.OnQueueTimeout | backend/src/matchmaking/matchmaking.module.ts:278-293 | moves the player's entry, if any, to a solo match |
| Matchmaking.EveryRunKeepsInvariant | backend/src/matchmaking/matchmaking.module.ts:100-293 | in every run waiting players are pairwise more than 25 apart and distinct, every entry has its own armed timer with its own score and every armed timer an entry, and seats are conserved |
| Matchmaking.FiringRemovesItsOwnEntry | backend/src/matchmaking/matchmaking.module.ts:278-285 | a firing timer removes exactly the entry that armed it, with that entry's score |
| Matchmaking.SpentTimersStaySpent | backend/src/matchmaking/matchmaking.module.ts:205-208 | a cleared or fired timer is never armed again and firing it changes nothing, so it cannot remove a player who rejoined |
| Matchmaking.TimersAreDistinct | backend/src/matchmaking/matchmaking.module.ts:121-130 | no two waiting entries share a timer |
| Matchmaking.EveryAdmissionIsInOnePlace | backend/src/matchmaking/matchmaking.module.ts:113-130 | every admission is in exactly one place: waiting, paired or solo |
| Matchmaking.PositionIsPlaceInQueue | backend/src/matchmaking/matchmaking.module.ts:295-300 | the position found by sorting on the joining time is the place in the queue |
| Matchmaking.OnlyTheWaitingHaveAPlace | backend/src/matchmaking/matchmaking.module.ts:295-300 | the position is 0 exactly for a player who does not wait |
| Matchmaking.TimeoutExactly | backend/src/matchmaking/matchmaking.module.ts:278-293 | in every reachable state a firing does something exactly when its entry has waited 30 seconds |
| Matchmaking.AtMostFiveWait | backend/src/matchmaking/matchmaking.module.ts:44-54 | with requests inside their bounds at most five players ever wait |
| Matchmaking.FiveCanWait | backend/src/matchmaking/matchmaking.module.ts:44-54 | and five do, with scores 26 apart |
| Matchmaking.AtMostTwoAreEligible | backend/src/matchmaking/matchmaking.module.ts:196-203 | no newcomer ever has three eligible opponents |
| Matchmaking.TwoCanBeEligible | backend/src/matchmaking/matchmaking.module.ts:196-203 | but a newcomer between two waiting players has two |
| LoginAttemptStore.MemoryLoginAttemptStore.Live | backend/src/auth/login-attempt.store.ts:21-28 | lazy deletion shows a reader exactly what the map that never forgets shows |
| LoginAttemptStore.MemoryLoginAttemptStore.Increment | backend/src/auth/login-attempt.store.ts:30-41 | counts on the visible entry without extending its life, or starts one |
| LoginAttemptStore.MemoryLoginAttemptStore.Get | backend/src/auth/login-attempt.store.ts:43-45 | the visible value |
| LoginAttemptStore.MemoryLoginAttemptStore.Put | backend/src/auth/login-attempt.store.ts:47-49 | replaces the entry and its life |
| LoginAttemptStore.MemoryLoginAttemptStore.Delete | backend/src/auth/login-attempt.store.ts:51-53 | removes exactly the given keys |
| LoginAttemptStore.MemoryLoginAttemptStore.TimeToLive | backend/src/auth/login-attempt.store.ts:55-58 | the remaining whole seconds of the visible entry, rounded up |
| LoginAttemptStore.RetryAfterIsTight | backend/src/auth/login-attempt.store.ts:55-58 | the reported seconds are the least whole number after which the entry is gone |
| AccountLockout.AccountLockoutService.AssertCanAttempt | backend/src/auth/account-lockout.service.ts:37-68 | locked, over budget or admitted, and what is counted in each case |
| AccountLockout.AccountLockoutService.RecordFailure | backend/src/auth/account-lockout.service.ts:71-99 | counts the failure and, at the threshold, sets the lock and clears the streak |
| AccountLockout.AccountLockoutService.RecordSuccess | backend/src/auth/account-lockout.service.ts:102-104 | clears the streak and the rate counter only |
| AccountLockout.AccountLockoutService.Unlock | backend/src/auth/account-lockout.service.ts:111-124 | clears all four counters and reports whether a lock was visible |
| AccountLockout.RunShowsHistory | backend/src/auth/account-lockout.service.ts:37-124 | in every run the four entries of an account are what its events say: the end of its last lock, the attempts since its rate window opened, the failures in a row and the locks in a row |
| AccountLockout.VerdictToldFromEvents | backend/src/auth/account-lockout.service.ts:37-68 | in every run an attempt is admitted if and only if no lock is in its term and fewer than five attempts were counted in the open window; it is refused as locked exactly in a lock's term, else for the rate; both refusals tell the seconds left, rounded up |
| AccountLockout.AtMostTenPerMinute | backend/src/auth/account-lockout.service.ts:51-67 | any 60-second span, ends included, without a success or unlock admits at most ten logins, over every run |
| AccountLockout.TenIsAttained | backend/src/auth/account-lockout.service.ts:51-67 | and ten are admitted when five fail as the span begins and five as it ends |
| AccountLockout.EachWindowAdmitsFive | backend/src/auth/account-lockout.service.ts:51-55 | a minute that begins with no open window admits at most five |
| AccountLockout.LockHolds | backend/src/auth/account-lockout.service.ts:38-49 | until a lock expires or an admin lifts it, its entry is unchanged and nothing is admitted |
| AccountLockout.TenthFailureInARowLocks | backend/src/auth/account-lockout.service.ts:70-76 | in every run an admitted failure locks the account if and only if nine in a row stand before it and the first is less than a day old |
| AccountLockout.SlowTenthFailureDoesNotLock | backend/src/auth/account-lockout.service.ts:70-76 | nine admitted failures, and a tenth that locks a minute later but not a day after the first |
| AccountLockout.LocksEscalate | backend/src/auth/account-lockout.service.ts:78-91 | in every run the n-th lock since the last unlock, within seven days of the first, lasts LockMinutes(n), is counted and clears the streak |
| AccountLockout.LockMinutesDouble | backend/src/auth/account-lockout.service.ts:82-85 | terms start at 30 minutes, double, and stop at a day |
| AccountLockout.SuccessKeepsEscalation | backend/src/auth/account-lockout.service.ts:101-104 | in every run an admitted success leaves the row of locks and its counter as they were, and clears the streak and the rate counter |
| AccountLockout.UnlockForgets | backend/src/auth/account-lockout.service.ts:110-118 | after an unlock the account is as new, and no other account is touched |
| RateLimits.SlidingWindowRateLimiter.CanActivate | backend/src/common/sliding-window-rate-limiter.guard.ts:17-37 | on the pruned, expiring set: admits if and only if fewer than 60 of all admissions ever made lie in (t - 60000, t] |
| RateLimits.NoWindowOverflows | backend/src/common/sliding-window-rate-limiter.guard.ts:26-34 | no such window, wherever it ends, ever holds more than 60 admissions |
| RateLimits.LeaderboardRateLimit.CanActivate | backend/src/leaderboard/leaderboard-rate-limit.guard.ts:10-31 | opens a window, charges it or refuses |
| RateLimits.AllowedExactly | backend/src/leaderboard/leaderboard-rate-limit.guard.ts:17-31 | in every run a request is let through if and only if the client's last window, told from the requests, is over or has let in fewer than 30 |
| RateLimits.AtMostFiftyNinePerSpan | backend/src/leaderboard/leaderboard-rate-limit.guard.ts:17-31 | any 60-second span, ends included, lets at most 59 requests of one client through, over every run |
| RateLimits.FiftyNineIsAttained | backend/src/leaderboard/leaderboard-rate-limit.guard.ts:17-31 | and a run lets 59 through |
| RateLimits.EachWindowAllowsThirty | backend/src/leaderboard/leaderboard-rate-limit.guard.ts:20-27 | each window lets at most 30 through |
| Streaks.CalculateStreaks | frontend/src/lib/game-statistics.ts:53-75 | the maximum is the longest run of consecutive win days; the current streak is the run at the latest win if that is no older than yesterday, else 0 |
| Streaks.ComputeStreak | backend/src/digest/digest-stats.ts:27-41 | the backward walk terminates with the run that ends today, or yesterday |
| Streaks.BatchStreaksAgree | backend/src/digest/digest-stats.ts:23-26 | with no win after today the two batch streaks are the same number |
| Streaks.AgreeExactlyWithoutFutureWins | frontend/src/lib/game-statistics.ts:70-73 | whatever was won up to today, the two batch streaks agree if and only if no win is dated after today |
| Streaks.FutureWinMayCoincide | frontend/src/lib/game-statistics.ts:70-73 | with wins today and in two days both are 1, so a single future win need not tell them apart |
| Streaks.FutureWinDisagrees | frontend/src/lib/game-statistics.ts:70-73 | wins today and tomorrow, and none later, always make the two differ by one |
| Streaks.LossesChangeNothing | frontend/src/lib/game-statistics.ts:46-73 | a lost game anywhere among the records changes neither the current nor the longest streak |
| Streaks.DayWithoutWin | frontend/src/lib/game-statistics.ts:46-73 | on a day without a win the current streak is 0 if and only if the day before has none either; the next day it is 0 |
| Streaks.LossTodayKeepsStreak | frontend/src/lib/game-statistics.ts:46-73 | won yesterday, lost today: the current streak is 1 |
| Streaks.UserGameStats.UpdateStats | backend/src/user-game-stats/user-game-stats.service.ts:17-63 | the new statistics row, first game or later |
| Streaks.FoldCounts | backend/src/user-game-stats/user-game-stats.service.ts:17-63 | after any games the row holds their number, the number of wins and the sum of the points |
| Streaks.FoldKeepsStreaks | backend/src/user-game-stats/user-game-stats.service.ts:48-59 | after any games on nondecreasing days the stored streaks are the run at the last day and the longest run of the set of days |
| Streaks.AllThreeAgree | backend/src/user-game-stats/user-game-stats.service.ts:48-59 | on the days played, the stored streaks meet the specifications of the sorted scan and of the backward walk |
| Streaks.BuildGuessDistribution | frontend/src/lib/game-statistics.ts:78-88 | bucket n counts the wins in n guesses, the first and last also those outside 1 to 6; the buckets add up to all wins, and the maximum is attained |
| Similarity.CosineSums | scripts/wave-issue-dedupe-checker.js:128-149 | the three sums of the cosine loop count pairs of equal tokens across and within the texts |
| Similarity.CauchySchwarz | scripts/wave-issue-dedupe-checker.js:138-151 | dotProduct^2 <= magA * magB, with equality if and only if the vectors are proportional |
| Similarity.CosineInUnitInterval | scripts/open-issue-overlap-detector.js:103-127 | the cosine lies in [0, 1] and is 1 exactly for proportional vectors |
| Similarity.TitleOverlap | scripts/wave-issue-dedupe-checker.js:154-165 | twice the common tokens over the two set sizes, 0 if a title has none |
| Similarity.LabelOverlap | scripts/wave-issue-dedupe-checker.js:167-177 | the common labels over the union, 0 if there are none on a side |
| Similarity.OverlapsInUnitInterval | scripts/open-issue-overlap-detector.js:129-152 | both overlaps lie in [0, 1] and are 1 exactly for equal non-empty sets |
| Similarity.ScoresInUnitInterval | scripts/wave-issue-dedupe-checker.js:202-213 | both combined scores lie in [0, 1], the clamp never changes the sum, and 1 is reached exactly when every compared part is full |
| Similarity.SharesOfTheChecker | scripts/wave-issue-dedupe-checker.js:202-213 | each part of the checker's sum counts by its share, 35, 25, 15, 15 and 10 percent, whatever the others are |
| Similarity.SharesOfTheDetector | scripts/open-issue-overlap-detector.js:154-166 | the same for the detector's 40, 35 and 25 percent |
| Similarity.TracksMatchExactly | scripts/wave-issue-dedupe-checker.js:179-189 | two issues are on one track exactly if they share a track label |
| Similarity.DifficultiesMatchExactly | scripts/wave-issue-dedupe-checker.js:191-200 | two issues match in difficulty exactly if both have a difficulty label and the first ones are the same |
| Similarity.HighConfidenceNeedsSharedTitle | scripts/wave-issue-dedupe-checker.js:209-212 | without a common title token a score stays at most 0.65, below the default high-confidence threshold |
| CsvExport.RoundTripsExactlyWhenPrintable | scripts/export-issue-snapshot.js:118-129 | decoding the printed text gives the header row and every field if and only if there is a header, no header needs quoting, and the text does not end in a lone empty field |
| CsvExport.EscapesOnlyWhenNeeded | scripts/export-issue-snapshot.js:121-126 | a value is changed if and only if it needs quoting, and then grows by its quotes and the two around it |
| CsvExport.SnapshotsRoundTrip | scripts/export-issue-snapshot.js:92-129 | with the script's own columns every snapshot can be read back, whatever its fields contain |
| EnvExamples.GenerateEnvExampleContent | scripts/generate-env-examples.js:33-51 | the loop prints the laid-out lines, joined and ended by a line break |
| EnvExamples.EachStandsUnderItsHeading | scripts/generate-env-examples.js:33-51 | each definition stands on its own line, in order; the first of each run of one section under that section's heading, which an empty line separates from what comes before; and there is no other line |
| EnvExamples.SectionTable | scripts/generate-env-examples.js:52-73 | which keys belong to which section, by title |
| EnvExamples.ParseContent | scripts/generate-env-examples.js:76-92 | the loop keeps the last value of each key on the lines that are assignments |
| EnvExamples.CompareVariables | scripts/generate-env-examples.js:98-120 | the issues are exactly the missing, different and surplus variables with their true values, those of the definitions first and in order; there is none if and only if the file has exactly the canonical keys and values |
| EnvExamples.RoundTripsExactlyWhenWellFormed | scripts/generate-env-examples.js:33-93 | printing and parsing gives back the definitions if and only if definitions of one key agree and each key and value is trimmed, on one line, and the key has no '=' and no leading '#' |
| EnvExamples.RunEnvGenerator | scripts/generate-env-examples.js:128-157 | an update is needed exactly if the file is missing or differs; it is made exactly if needed, asked for and not a validation; otherwise the file stays as it was |
| EnvExamples.FixConvergesExactly | scripts/generate-env-examples.js:138-147 | whatever the file was, a fixing run leaves one that every later run finds up to date and leaves alone, if and only if the definitions are well formed and consistent |
| DictionaryCache.RecentIsByLastTouch | backend/src/utils/dictionary.helper.ts:195-198 | the recency list is ordered by last touch |
| DictionaryCache.TouchMovesWindow | backend/src/utils/dictionary.helper.ts:208-223 | how one touch moves the k most recent words |
| DictionaryCache.DictionaryHelper.GetCached | backend/src/utils/dictionary.helper.ts:199-206 | hits exactly the k most recently touched words, with the last stored value, and counts a hit as a touch |
| DictionaryCache.DictionaryHelper.SetCached | backend/src/utils/dictionary.helper.ts:212-223 | after a store the cache again holds exactly the k most recently touched words in recency order |
| DictionaryCache.DictionaryHelper.GetCacheSize | backend/src/utils/dictionary.helper.ts:226-228 | the size never exceeds the capacity |
| OfflineOutbox.OutboxStorage.EnqueueEffect | frontend/src/hooks/useOfflineSession.ts:183-203 | appends the session if it is completed and not the one marked as queued, marks it and, when online, starts a flush of the whole queue; else changes nothing; so it does what the run theorems' `SessionEffects` says |
| OfflineOutbox.OutboxStorage.FlushPendingSyncs | frontend/src/hooks/useOfflineSession.ts:149-176 | an undisturbed flush removes the answered items in order and stops at the first failure, with the count kept equal |
| OfflineOutbox.GoodFlushEmptiesQueue | frontend/src/hooks/useOfflineSession.ts:155-170 | if the server answers well throughout, nothing is left |
| OfflineOutbox.FlushStepsDrain | frontend/src/hooks/useOfflineSession.ts:155-175 | taken alone, the interleaved flush is the undisturbed one however its requests end: it leaves the same queue and count, the server has taken exactly the sessions up to the first bad reply, and nothing is sent after it |
| OfflineOutbox.EveryRunKeepsInvariant | frontend/src/hooks/useOfflineSession.ts:149-239 | in every interleaving of play, completions, flushes, failures and reloads: completed sessions are stored or accepted and nothing else is, the queue keeps enqueue order, and the count is the stored length |
| OfflineOutbox.CompletedSessionIsNeverLost | frontend/src/hooks/useOfflineSession.ts:183-202 | from its completion on, whatever follows, a session is stored or the server has it |
| OutboxDelivery.RunRecordsGame | frontend/src/hooks/useOfflineSession.ts:215-244 | in every run the page shows, and stores, the guesses and the outcome that the player's steps tell, across reloads |
| OutboxDelivery.QueuedIsShown | frontend/src/hooks/useOfflineSession.ts:183-201 | what a step queues is the session that it leaves on the page |
| OutboxDelivery.StepGoesOnline | frontend/src/hooks/useOfflineSession.ts:129-138 | the page is online as the last event or load said |
| OutboxDelivery.OkRemovesExactly | frontend/src/hooks/useOfflineSession.ts:166-170 | a good answer takes its session out of the store, every copy of it, and no other |
| OutboxDelivery.FailDropsCopies | frontend/src/hooks/useOfflineSession.ts:171-174 | a failed request takes with it exactly what its flush could still send |
| OutboxDelivery.EndedFlushIsSilent | frontend/src/hooks/useOfflineSession.ts:171-174 | whatever follows, a flush that has ended makes the server accept nothing |
| OutboxDelivery.QueuedOnceAndOncePerReload | frontend/src/hooks/useOfflineSession.ts:183-202 | in every run a session was queued once if it is completed, plus once for each reload that found it completed |
| OutboxDelivery.QueuedAgainExactlyOnReload | frontend/src/hooks/useOfflineSession.ts:183-186 | in every reachable state a step queues a session that was queued before if and only if it is a reload that finds it completed |
| OutboxDelivery.PageLifeQueuesOnce | frontend/src/hooks/useOfflineSession.ts:183-186 | from one load of the page to the next, each session is queued at most once |
| OutboxDelivery.StoredAtMostOncePerReload | frontend/src/hooks/useOfflineSession.ts:199-200 | a session is stored at most once, plus once for each reload that found it completed |
| OutboxDelivery.DeliveryOverEveryContinuation | frontend/src/hooks/useOfflineSession.ts:149-239 | in every reachable state and for every n: some continuation accepts the session n times if and only if its acceptances and the requests under way make up n, or it is stored, shown or yet to be played |
| OutboxDelivery.CanBeAcceptedExactly | frontend/src/hooks/useOfflineSession.ts:155-175 | of that number, the part that needs no new flush: the acceptances plus the copies that running and abandoned flushes can still send, for every way answers and failures can come |
| OutboxDelivery.PageStepDecides | frontend/src/hooks/useOfflineSession.ts:149-202 | after any step of the page, that part is what was accepted or survives under way (a reload abandons running flushes) plus what the step takes, told from the state before it: the stored copies for each flush it starts while online, and the session itself when it is queued |
| OutboxDelivery.FlushDecides | frontend/src/hooks/useOfflineSession.ts:149-153 | after a flush it is what it was plus the stored copies: two exactly if the session is also under way elsewhere, already accepted, or stored twice |
| OutboxDelivery.AcceptedAtMostTaken | frontend/src/hooks/useOfflineSession.ts:149-175 | in every run a session is accepted at most as often as flushes took it from the queue |
| OutboxDelivery.TwiceNeedsRetaking | frontend/src/hooks/useOfflineSession.ts:149-175 | a run that accepts a session twice has a flush that took it while another copy was accepted or under way, or took two |
| OutboxDelivery.ReloadAllowsTwice | frontend/src/hooks/useOfflineSession.ts:178-202 | in every reachable state a reload that finds its session completed makes a second acceptance possible, at once or as soon as the page is online |
| OutboxDelivery.OverlappingFlushesDeliverTwice | frontend/src/hooks/useOfflineSession.ts:202 | a second game finished while the first upload is in flight delivers the first game twice |
| OutboxDelivery.LostResponseDeliversTwice | frontend/src/hooks/useOfflineSession.ts:171-174 | a response lost after the server took the session delivers it twice |

## Left out

- Text normalisation: trimming and case folding of words, e-mails, tokens and labels.
- Framework wiring, HTTP, e-mail, hashing, JWT and the audit log; token hashes and family ids are numbers never used before.
- `revokedAt: null` in the conditions of `backend/src/auth/refresh-token.service.ts:87` and `195-200` is read as "not yet revoked".
- Finer database isolation than an atomic commit: a revocation that overlaps an uncommitted rotation.
- The limit of three active sessions per wallet: it never touches a token.
- Loading a session row and its owner: the status is taken as loaded, starting at IN_PROGRESS; so is the event that `create` emits.
- Failed match creation, and submitting match results: a solo match may complete repeatedly.
- Redis as counter store, and races between concurrent logins or requests: the limiters are modelled sequentially.
- SlidingWindowRateLimiter.CanActivate: one client's key; two requests in one millisecond never draw the same random member.
- AtMostTenPerMinute: speaks of the login flow, where every failure follows an admitted attempt.
- Calendar dates and time zones, and guess counts that are not whole numbers.
- Square roots, rounding to two decimals and floating point: the cosine is the non-negative root of an exact equation.
- Prototype keys of plain objects used as frequency vectors.
- CR LF line breaks in the decoder: only LF ends a record, and CR is ordinary text.
- The definitions listed in `scripts/env-definitions.js`; the theorems hold for any.
- The dictionary requests and retries around the cache.
- Storage-quota failures, several tabs, a request that reaches the server after the page gave up on it, and the order of effects inside one browser event.
- The indexer, on-chain contracts, React components and configuration.
