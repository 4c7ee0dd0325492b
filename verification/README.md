# StageSync: verified model of the battle, gacha, ranking, scoring and caching cores

This project models the stateful cores of StageSync and proves what its design promises about them. Check it with
`dafny verify dfyconfig.toml`.

| files | what they model |
|---|---|
| `Battle.dfy`, `RowLock.dfy`, `BattleRepoMysql.dfy` | HP arithmetic, the in-memory battle repository, the `player_hp` table under `SELECT ... FOR UPDATE` transactions |
| `UserQueue.dfy`, `UserQueueInv.dfy`, `UserQueueTheorems.dfy`, `BattleService.dfy`, `GapLock.dfy` | the per-player queue service over that table, the two appliers as objects, and gap locks on top |
| `GachaPool.dfy`, `GachaEngine.dfy`, `GachaStore.dfy`, `GachaService.dfy`, `Keys.dfy` | weighted selection, the pity machine, both gacha repositories, `Roll`, joined map keys |
| `Ranking.dfy`, `Leaderboard.dfy`, `RedisLeaderboard.dfy` | the ranking order, the sort-on-read leaderboard, the ZSET leaderboard |
| `EventScore.dfy`, `EventService.dfy` | scoring with a best-effort second write |
| `IdempotencyStore.dfy`, `IdempotencyMiddleware.dfy`, `ResponseRecorder.dfy`, `IdempotencyHandler.dfy`, `RequestChain.dfy` | the TTL map, the middleware under concurrency, response capture and replay, the middleware as one call, its order against the token check |
| `RateLimit.dfy` | per-identity token buckets and their sweeper |
| `Sums.dfy`, `Options.dfy` | finite sums used by the drain measure, the HP bounds and the score ledger; optional values |

## How the code is modelled

Objects that change their fields are classes whose methods have the loops and branches of the Go methods, proved against
specification functions. Where goroutines or requests interleave, the program is a state machine: a value `State`,
`Enabled` and one `Step` (or `Next`) function per atomic action, and theorems about every valid run from a start state.
An atomic action is a mutex-protected section, one channel operation, or one SQL statement. The classes for the queue
service and the MySQL repository take steps of those same machines, so what is proved of every run holds for them.

Failures are steps or parameters: any statement of a transaction, any repository call and any second write may fail at
any moment. The battle request carries its caller's context into the repository: the MySQL one stops a transaction
whose context has ended, except that a commit already sent may still take effect; the in-memory one ignores contexts.
The queue theorems hold for both. A failed call has no effect, except that a failed commit (and, in the scoring
protocol, a failed write) may have been applied. Times, ids and random draws are parameters; a generator is any
function from a state and a bound n to a next state and a draw below n.

Contracts assumed of the systems underneath:

- MySQL: a row lock is exclusive and held to commit or rollback, an uncommitted insert holds its row, the primary key is
  unique, a rollback undoes everything. In the row-locking table a locking read of a missing row takes no lock;
  `GapLock.dfy` adds the gap lock that the default isolation takes there and says what changes.
- Redis: a sorted set is ordered by (score, member bytes), scores are doubles (rounding is exact up to 53 bits and off by
  less than 2^63 on 65-bit integers), range ends are inclusive and clipped, and each command is atomic.
- The token bucket starts full, refills continuously, a call takes one token or changes nothing.

## What the code does that its comments do not say

- The ordering comment at `internal/persistence/inmem/leaderboard.go:93` says ties go by ascending player id; the code
  (lines 104-110) and the type's own comment sort them descending, and so does the model.
- An expired idempotency entry is still a hit at its exact expiry instant although a store at that instant already
  overwrites it (`internal/idempotency/inmem.go:47,58`); `IdempotencyStore.ExpiryInstant` states it.
- The hard ceiling needs SSR cards of positive total weight; `GachaEngine.CeilingExactly` gives the exact condition.
- The idle sweep is invisible exactly when a bucket refills within the idle limit; `RateLimit.SweepInvisibleExactly`.
- A negative `n` or `radius` would make the in-memory leaderboard panic where the ZSET one answers;
  `RedisLeaderboard.SameTopExactly` and `SameAroundExactly` give the exact conditions under which the two agree. No
  caller gets there: `internal/service/ranking/service.go:46-79` replaces n <= 0 and radius < 0 by defaults and passes
  only 1 <= n <= 100 and 0 <= radius <= 25, where the boards always agree.
- The two boards return the same totals exactly while every running total is a 64-bit integer that a double represents
  (`RedisLeaderboard.RunsAgreeExactly`).
- Joined keys behave like pairs when first ids hold no separator; `Keys.KeysCollideExactly` says exactly which first ids
  can clash. With the one pool id `demo` no two pity keys clash, and event ids reach the score calls through one path
  segment, so the conditions matter only for other callers of the in-memory repositories.
- The comment at `internal/endpoint/idempotency.go:20-21` promises that callers do not collide under one idempotency key.
  `cmd/server/main.go:142-166` mounts the lookup ahead of the token check, which alone puts a player into the context
  (`internal/endpoint/auth.go:107`), so the scope is always `anon` and the first answer to a client key is everyone's
  until its lifetime is over, on every route; that includes a stored refusal, and a caller whose token would be refused
  gets the stored answer (`RequestChain.FirstAnswerIsEveryones`, `RequestChain.RefusedIsReplayedExactly`). With the check
  first, two players meet exactly when they are the same or one id continues the other after a colon
  (`RequestChain.CallersMeetExactly`), and colon-free players are separate (`RequestChain.CheckFirstSeparates`). Scopes by
  themselves also join nobody and the player `anon` (`IdempotencyMiddleware.ScopesCollideExactly`).
- A call that gave up with an await error may have been applied. Over MySQL a call whose context has ended is never applied
  from then on exactly when it is not applied yet and its update has not been written; after the update its commit may be
  on its way (`UserQueueTheorems.NeverAppliedExactly`).
- The comment at `internal/service/battle/service.go:65` says the queue rules out lock waits and deadlocks. That holds for
  players whose rows exist (`GapLock.KnownWorkersNeverWait`). Two new players looked up before either is inserted deadlock
  exactly when their ids fall into one gap between the rows present (`GapLock.FirstHitsDeadlockExactly`,
  `GapLock.NewPlayersDeadlockWorkers`), and nothing but a rollback ends it (`GapLock.DeadlockLasts`).
- The ZSET `Around` issues two commands. When increments come in between, the handler finds the player exactly when its
  rank moved by at most the radius, and reports rank 0 otherwise (`RedisLeaderboard.SplitWindowExactly`).

## Model

| member | source | states |
|---|---|---|
| `BattleDomain.HitAllClampsOnce` | internal/persistence/inmem/battle_repo.go:34-38 | a history of non-negative hits, each clamped at zero, equals one clamped subtraction of the total |
| `BattleDomain.HitOrderIrrelevant` | internal/persistence/inmem/battle_repo.go:27-40 | any two orders of the same hits leave the same HP |
| `BattleRepoInmem.BattleRepo.ApplyDamageNaive` | internal/persistence/inmem/battle_repo.go:27-40 | subtracts from the stored HP, or from 10,000 when there is none, leaves 0 rather than a negative value, and changes that player's entry only |
| `BattleRepoInmem.BattleRepo.Get` | internal/persistence/inmem/battle_repo.go:43-55 | the stored HP, or not found |
| `BattleRepoInmem.BattleRepo.Reset` | internal/persistence/inmem/battle_repo.go:58-63 | sets that player's HP and nothing else |
| `RowLock.Serializable` | internal/persistence/mysql/battle_repo.go:43-82 | in every interleaving with failures anywhere, committed HP is the sequential history of the committed damages; success means applied once with the HP of that point, an error means at most once and only through the commit |
| `RowLock.CommittedHp` | internal/persistence/mysql/battle_repo.go:43-82 | with non-negative damages the committed HP is max(0, start - committed total) |
| `RowLock.NoDeadlock` | internal/persistence/mysql/battle_repo.go:51-66 | without gap locks, while a transaction is unfinished some transaction of its player can execute its next statement |
| `RowLock.RunNeverRaisesHp` | internal/persistence/mysql/battle_repo.go:50-76 | over every run, with failures anywhere and any number of first hits racing to insert the missing row, committed HP never rises, so no player is reset |
| `RowLock.StepKeepsInv` | internal/persistence/mysql/battle_repo.go:43-82 | every statement keeps: locks match phases, a holder's read is current, the table is the history of the log |
| `BattleRepoMysql.BattleRepo.ApplyDamageNaive` | internal/persistence/mysql/battle_repo.go:43-82 | one call with statements of other transactions between its own: the first of BEGIN, SELECT, INSERT, UPDATE and COMMIT that its fault hits, a held lock blocks or another insert of the row forestalls decides the error, and without one it succeeds; a success is the newest commit, once, with the HP of its point in the history; an error has applied nothing unless the commit's answer was lost; no lock stays behind |
| `BattleRepoMysql.BattleRepo.SelectRow` | internal/persistence/mysql/battle_repo.go:50-66 | the locking read fails exactly by its fault or when the row is still locked by another; a missing row's insert fails exactly by its fault or when another transaction locked or inserted the row meanwhile; otherwise row and HP are held |
| `BattleRepoMysql.BattleRepo.InsertRow` | internal/persistence/mysql/battle_repo.go:55-63 | a missing row is staged with the default HP and locked exactly when no other transaction locked or inserted it meanwhile |
| `BattleRepoMysql.BattleRepo.WriteAndCommit` | internal/persistence/mysql/battle_repo.go:68-82 | the clamped HP of what was read is committed as the newest log entry, or the transaction rolls back; it is in the log exactly on success or a lost commit answer |
| `BattleService.V1Naive.Apply` | internal/service/battle/service.go:47-56 | an invalid damage never reaches the repository; otherwise each error names the first statement that failed and why, and a success is the repository's answer and effect among other transactions |
| `BattleService.V2UserQueue.constructor` | internal/service/battle/service.go:95-100 | starts with no queues and no workers over the given table |
| `BattleService.V2UserQueue.Apply` | internal/service/battle/service.go:103-124 | which outcome each call gets: rejected exactly outside 1 to 100,000; an enqueue error exactly when its context ended before the send and the branch was picked or 64 requests wait; an await error exactly when its context ended later and the branch was picked; otherwise the HP its damage left, or the error of the first statement that failed, with the damage applied exactly when no statement failed or the commit's answer was lost; when every statement fails the table and log stay |
| `BattleService.V2UserQueue.Submit` | internal/service/battle/service.go:111-123 | the first select: the enqueue error with its exact cause and no effect; otherwise the request is in the channel and the second select decides |
| `BattleService.V2UserQueue.Await` | internal/service/battle/service.go:118-123 | the second select: giving up before service leaves the request in the channel, after it hides whatever its statements came to; otherwise the reply is the error of the first failed statement, the refusal at BEGIN of an ended context, or the HP the damage left |
| `BattleService.V2UserQueue.GetOrCreate` | internal/service/battle/service.go:127-137 | an existing channel is kept, a missing one is made empty together with its worker |
| `BattleService.V2UserQueue.Worker` | internal/service/battle/service.go:141-146 | with statements failing anywhere, the loop answers every queued request of its player with the error of its first failed statement, the refusal at BEGIN when its context has ended over a repository that heeds contexts, or a success, and applies exactly the successes and the commits whose answer was lost; it touches no other channel and no caller |
| `UserQueueInv.StepKeepsInv` | internal/service/battle/service.go:103-146 | every step of callers, workers and table keeps the structure, the transactions, the time stamps and first-in-first-out order |
| `UserQueueTheorems.OneWriterPerPlayer` | internal/service/battle/service.go:92-137 | one worker and at most one open transaction per player; never more than 64 requests in a channel |
| `UserQueueTheorems.WorkerNeverWaits` | internal/service/battle/service.go:58-61 | without gap locks, a busy worker's next statement or reply is enabled in every reachable state, and its insert never meets a duplicate key |
| `GapLock.KnownWorkersNeverWait` | internal/service/battle/service.go:58-61 | with gap locks the same holds where every player has a row |
| `GapLock.KnownPlayersMeetNoGaps` | internal/persistence/mysql/battle_repo.go:50-76 | with rows for all players every run of the table is a run under gap locks, state by state |
| `GapLock.FirstHitsDeadlockExactly` | internal/persistence/mysql/battle_repo.go:51-63 | two first hits that both look before either inserts deadlock exactly when their ids fall into one gap, that is when no row, committed or inserted, lies between them |
| `GapLock.DeadlockLasts` | internal/persistence/mysql/battle_repo.go:51-63 | in every run that rolls neither back, both are still waiting |
| `GapLock.NewPlayersDeadlockWorkers` | internal/service/battle/service.go:63-65 | two workers of the queue service looking up new players of one gap end up waiting for each other's insert |
| `UserQueueTheorems.Linearizable` | internal/service/battle/service.go:103-146 | every successful call has one point in a sequential history, between invocation and return, with the HP of that point; calls that do not overlap keep their order |
| `UserQueueTheorems.AppliedInSendOrder` | internal/service/battle/service.go:111-146 | per player, damage is applied in channel send order |
| `UserQueueTheorems.RequestFate` | internal/service/battle/service.go:103-124 | rejected or enqueue error: never applied; success: exactly once; await error: at most once; a repository error hides an application only at the commit |
| `UserQueueTheorems.AwaitErrorIsAmbiguous` | internal/service/battle/service.go:118-123 | over MySQL an await error is reached both with the damage applied, when the context ends after the commit, and with it lost |
| `UserQueueTheorems.NeverAppliedExactly` | internal/service/battle/service.go:143 | over MySQL a call whose context has ended is never applied in any continuation exactly when it is not applied yet and its update has not been written |
| `UserQueueTheorems.EndedBeforeBeginIsNeverApplied` | internal/service/battle/service.go:143 | in particular not when its context ended before its transaction began, and then it is never told a success |
| `UserQueueTheorems.HpBounds` | internal/service/battle/service.go:103-146 | HP lies between what all enqueued damage and what the acknowledged damage alone would leave |
| `UserQueueTheorems.StepLowersMeasure` | internal/service/battle/service.go:103-146 | every step other than a new call lowers the remaining work |
| `UserQueueTheorems.Progress` | internal/service/battle/service.go:141-146 | while work remains some step of the program itself is enabled, without a cancellation or a fault |
| `UserQueueTheorems.EveryRunDrains` | internal/service/battle/service.go:108-146 | a run without new calls has at most 12 steps per call, and where it ends nothing is queued, open or locked |
| `UserQueueTheorems.SameHpAsNaive` | internal/service/battle/service.go:47-146 | V1 and V2 runs that committed the same damages in any orders leave the same HP |
| `Keys.SeparatorFreeKeysArePairs` | internal/persistence/inmem/gacha_repo.go:25 | without the separator in the first id, joined keys are equal exactly when both ids are |
| `Keys.KeysCollideExactly` | internal/persistence/inmem/event_repo.go:30 | two different first ids can share a key, with non-empty second ids, exactly when one continues the other after the separator |
| `GachaPool.WeightedPick` | internal/domain/gacha/rng.go:11-32 | the card whose cumulative-weight interval holds the draw; the zero card and no draw when there is no positive total; the fallback return is unreachable |
| `GachaPool.FilterByRarity` | internal/domain/gacha/rng.go:35-43 | the filter loop computes the specification filter |
| `GachaPool.FilteredCards` | internal/domain/gacha/rng.go:35-43 | exactly the cards of the rarity, each as often as it occurs |
| `GachaPool.FilteredInOrder` | internal/domain/gacha/rng.go:35-43 | the filtered cards stand in the order of the pool, each of the rarity, none left out |
| `GachaPool.DrawsOfPosition` | internal/domain/gacha/rng.go:22-29 | position i is selected exactly by the draws between its two prefix sums |
| `GachaPool.ExactOdds` | internal/domain/gacha/rng.go:11-32 | each position is selected by exactly its weight of the draws |
| `GachaPool.RarityOdds` | internal/domain/gacha/rng.go:11-43 | a rarity is drawn by exactly the total weight of its cards |
| `GachaPool.PityOdds` | internal/service/gacha/service.go:103-113 | in the pity draw each SSR card keeps exactly its original weight of draws |
| `GachaEngine.PullComesFrom` | internal/service/gacha/service.go:98-120 | which card one pull gives: below the threshold the one the generator's draw out of the total weight selects in the whole pool, at the threshold the same over the SSR cards, and over the whole pool when there is none |
| `GachaEngine.NormalPullOdds` | internal/service/gacha/service.go:115 | below the threshold each position of the pool is pulled by exactly its weight out of the total weight of draws |
| `GachaEngine.PityPullOdds` | internal/service/gacha/service.go:100-113 | at the threshold each SSR card is pulled by exactly its weight out of the SSR cards' total weight of draws |
| `GachaEngine.BatchingIsTransparent` | internal/service/gacha/service.go:97-135 | on one random stream a batch of m + n equals a batch of m followed by one of n: pulls, flags, counter, generator |
| `GachaEngine.DrawExtendsHistory` | internal/service/gacha/service.go:97-121 | one more turn keeps: pity flags mark exactly the pulls at the threshold, they are SSR, and the counter counts pulls since the last SSR |
| `GachaEngine.HistoryHasCeiling` | internal/service/gacha/service.go:97-121 | from any stored counter, any threshold consecutive pulls contain an SSR |
| `GachaEngine.PityExactly` | internal/service/gacha/service.go:103-114 | from a zero counter, a pull is pity exactly when the threshold - 1 pulls before it had no SSR |
| `GachaEngine.CounterBelowThreshold` | internal/service/gacha/service.go:98-121 | the counter stays below the threshold |
| `GachaEngine.CeilingExactly` | internal/service/gacha/service.go:103-114 | the ceiling holds for all counters, generator states and lengths exactly when the SSR cards have positive total weight |
| `GachaStore.HistoryOfAppend` | internal/persistence/mysql/gacha_repo.go:60-72 | appending a batch extends its pair's history and no other |
| `GachaStore.MysqlGachaRepo.GetPity` | internal/persistence/mysql/gacha_repo.go:29-41 | the stored counter, or zero without a row |
| `GachaStore.MysqlGachaRepo.InsertRollsAndUpdatePity` | internal/persistence/mysql/gacha_repo.go:45-86 | the batch is appended and the counter set together or not at all, and which failing statement or id clash decides; a failing commit that was applied after all leaves both |
| `GachaStore.FreshExactly` | internal/persistence/mysql/gacha_repo.go:59-70 | rolls clash with no stored one and with none of their own batch exactly when the primary key stays unique with them |
| `GachaStore.InmemGachaRepo.GetPity` | internal/persistence/inmem/gacha_repo.go:28-32 | the counter of the pair in the joined-key store, or zero |
| `GachaStore.InmemGachaRepo.InsertRollsAndUpdatePity` | internal/persistence/inmem/gacha_repo.go:35-41 | one append to the joined-key store; among slash-free players no other counter moves |
| `GachaStore.InmemIsFaithful` | internal/persistence/inmem/gacha_repo.go:25 | the joined key tells the pairs of slash-free players apart |
| `GachaStore.InmemGachaRepo.ListRollsByPlayer` | internal/persistence/inmem/gacha_repo.go:45-55 | at most limit rolls of the player, newest first: each stands at the place that counts the player's newer rolls, and exactly those with limit newer ones are left out |
| `GachaService.Service.Roll` | internal/service/gacha/service.go:76-141 | every outcome with its cause and its effect on rolls, counter and generator; each stored roll carries its own id, owner and time and its pull's card, rarity and pity flag; counters keep agreeing with histories whatever fails |
| `GachaService.Service.DrawBatch` | internal/service/gacha/service.go:94-135 | the roll loop makes exactly the batch of the pity machine, field by field, or none when an id cannot be made |
| `GachaService.Service.Turn` | internal/service/gacha/service.go:98-120 | one turn: the card the draw selects in the SSR cards at the threshold and in the whole pool otherwise, the flag exactly for the former, and the counter after it |
| `GachaService.TwoRollsAreOne` | internal/service/gacha/service.go:89-140 | two stored Roll calls leave the rolls, counter and generator of one call for both counts |
| `GachaService.RollIsARun` | internal/service/gacha/service.go:89-140 | whatever other calls are open, one call's steps are a run of the ledger and leave exactly the batch of the pity machine from the stored counter; a failed write leaves the store alone, a lost commit answer leaves the batch |
| `GachaService.StoredHistory` | internal/service/gacha/service.go:89-140 | a right store shows the ceiling, the counter since the last SSR below the threshold, and exact pity flags |
| `GachaService.CeilingOverRuns` | internal/service/gacha/service.go:76-141 | over any backend that tells its pairs apart, from an empty store, with calls of different pairs interleaved and writes failing anywhere, all of that holds for every promised pair |
| `GachaService.InmemCeiling` | internal/persistence/inmem/gacha_repo.go:25-41 | the same over the in-memory repository, for slash-free players |
| `Ranking.PositionIsRank` | internal/persistence/inmem/leaderboard.go:104-113 | the player at position k is ranked k + 1, which is one plus the players with a greater (score, id) |
| `Ranking.ViewIsUnique` | internal/persistence/inmem/leaderboard.go:95-115 | a score map has one ranked view |
| `Ranking.LessExactly` | internal/persistence/inmem/leaderboard.go:108-109 | the order of ids is decided at the first character that differs, or by length when one id begins the other |
| `Ranking.RankDecidesOrder` | internal/persistence/inmem/leaderboard.go:104-110 | ranks compare exactly as (score, id) does |
| `Ranking.OthersMoveByOne` | internal/persistence/inmem/leaderboard.go:28-38 | any increment moves another player by exactly the places won and lost against the incremented one |
| `Ranking.RaiseMovesMinimally` | internal/persistence/inmem/leaderboard.go:28-38 | a raise climbs by the number of overtaken players, each of those drops by one, every other rank stays |
| `Ranking.NewEntrantShiftsBelow` | internal/persistence/inmem/leaderboard.go:28-38 | a new entrant pushes exactly the players behind it down by one |
| `Leaderboard.IncrementMovesMinimallyExactly` | internal/persistence/inmem/leaderboard.go:36 | a positive delta raises the stored 64-bit score exactly when the sum fits, and then ranks move minimally; a sum that does not fit lowers it |
| `Leaderboard.SortedListingIsView` | internal/persistence/inmem/leaderboard.go:100-113 | sorting and numbering any listing of the score map gives its view |
| `Leaderboard.ViewInOrder` | internal/persistence/inmem/leaderboard.go:104-113 | in a view scores fall, of two equal scores the larger id comes first, and ranks count from 1 |
| `Leaderboard.QueriesAgree` | internal/persistence/inmem/leaderboard.go:41-91 | Top holds exactly the players ranked up to n, Around exactly those at most radius places from the asked one; both list rising ranks without a gap, and every entry of both is what Rank returns |
| `Leaderboard.FindSelf` | internal/endpoint/ranking.go:105-114 | the handler's loop computes the scan of the reply for the player itself |
| `Leaderboard.SelfScanAgrees` | internal/endpoint/ranking.go:105-114 | on an Around reply that scan is the rank and score that Rank returns |
| `Leaderboard.Leaderboard.IncrBy` | internal/persistence/inmem/leaderboard.go:28-38 | adds to one player of one event and returns the total, the one 64-bit integer that differs from the sum by a multiple of 2^64 |
| `Leaderboard.Leaderboard.Top` | internal/persistence/inmem/leaderboard.go:41-49 | the first n entries of the view, all of them when there are fewer; panics exactly for a negative n |
| `Leaderboard.Leaderboard.Rank` | internal/persistence/inmem/leaderboard.go:52-63 | the player with its counting rank, or not ranked |
| `Leaderboard.Leaderboard.Around` | internal/persistence/inmem/leaderboard.go:66-91 | the entries at most radius places away, clamped at both ends; not ranked exactly without a score; panics exactly for a ranked player with a negative radius |
| `Leaderboard.Leaderboard.SortedLocked` | internal/persistence/inmem/leaderboard.go:95-115 | every player of the event once, scores falling, of two equal scores the id with the larger first differing character or the longer of prefix-related ids first, ranked from 1, whatever order the map is visited in |
| `RedisLeaderboard.RedisLeaderboard.IncrBy` | internal/persistence/redis/leaderboard.go:28-39 | one ZINCRBY on that event's key; other events' sets stay |
| `RedisLeaderboard.RedisLeaderboard.Top` | internal/persistence/redis/leaderboard.go:42-60 | the numbered reverse range from 0 to n - 1, nothing for n <= 0 |
| `RedisLeaderboard.RedisLeaderboard.Rank` | internal/persistence/redis/leaderboard.go:64-85 | reverse rank plus one, with the score read after any increments in between, or not ranked |
| `RedisLeaderboard.RedisLeaderboard.Around` | internal/persistence/redis/leaderboard.go:89-118 | the window placed by the rank, read after any increments in between, with the start clamped at zero |
| `RedisLeaderboard.SameRank` | internal/persistence/redis/leaderboard.go:64-85 | both boards answer Rank alike on the same scores |
| `RedisLeaderboard.SameTopExactly` | internal/persistence/redis/leaderboard.go:42-60 | both answer Top alike exactly when n is not negative |
| `RedisLeaderboard.SameAroundExactly` | internal/persistence/redis/leaderboard.go:89-118 | both answer Around alike exactly when the radius is not negative or the player is not ranked |
| `RedisLeaderboard.SplitWindowExactly` | internal/persistence/redis/leaderboard.go:89-118 | with increments between the two commands the handler still finds the player, with its later rank and score, exactly when its rank moved by at most the radius |
| `RedisLeaderboard.SplitRankExactly` | internal/persistence/redis/leaderboard.go:64-85 | with increments in between, Rank answers as one of the two boards would exactly when rank or score did not move |
| `RedisLeaderboard.IncrementAgreesExactly` | internal/persistence/redis/leaderboard.go:33-39 | one increment returns the rounded true total, and where that is the 64-bit total both boards store the same |
| `RedisLeaderboard.RoundedIsWrappedExactly` | internal/persistence/redis/leaderboard.go:34 | a rounded and a wrapped total agree exactly when the true total is a 64-bit integer that a double represents |
| `RedisLeaderboard.RunsAgreeExactly` | internal/persistence/redis/leaderboard.go:33-39 | over any run of deltas within 2^53 the two boards return the same totals exactly when every running total is a 64-bit integer that a double represents, and then the set stores exactly the score map |
| `RedisLeaderboard.RunsAgree` | internal/persistence/redis/leaderboard.go:33-39 | totals within 53 bits meet that condition |
| `RedisLeaderboard.BoardsAgree` | internal/persistence/redis/leaderboard.go:33-118 | from empty boards the same condition is exact, and under it every query of a valid range agrees |
| `EventScore.ScoreConserved` | internal/service/event/service.go:140-168 | points minus board grow by exactly the deltas of calls between their two writes or whose second write is missing |
| `EventScore.CheckExactly` | internal/domain/event/event.go:27-36 | in the scoring protocol a call passes its check exactly when the event exists and the time is from its start to its end inclusive |
| `EventScore.UndisturbedCallScores` | internal/service/event/service.go:140-168 | from any state, a call with a valid delta in the event's window that nothing disturbs adds its delta to its own points and board entry and reports the new total |
| `EventScore.FailingStepDecides` | internal/service/event/service.go:151-157 | the same call with one failing step: a failing upsert or read-back ends it with its error, and what each leaves in points and board |
| `EventScore.FailingIncrementScores` | internal/service/event/service.go:158-168 | the same call with a failing increment still reports the new total, with or without its delta on the board |
| `EventScore.BoardNeverAhead` | internal/service/event/service.go:158-166 | the board never exceeds the points and equals them exactly when no call owes it |
| `EventScore.ResponseContainsOwnDelta` | internal/service/event/service.go:151-157 | a success reports a total that contains the caller's own delta and is not beyond the stored points |
| `EventService.EventRepo.CreateEvent` | internal/persistence/inmem/event_repo.go:33-42 | a duplicate id is refused and changes nothing |
| `EventService.EventRepo.AddScore` | internal/persistence/inmem/event_repo.go:73-90 | adds to one row with 64-bit wrap-around and to no other row of slash-free events |
| `EventService.EventRepo.GetScore` | internal/persistence/inmem/event_repo.go:93-101 | the stored points, or zero |
| `EventService.Service.AddScore` | internal/service/event/service.go:140-168 | exactly which guard or fault gives which outcome, with the delta from 1 to 1,000,000 and the time from start to end inclusive, and what each leaves in points and board |
| `IdempotencyStore.InmemStore.constructor` | internal/idempotency/inmem.go:28-37 | an empty store with a positive lifetime, five minutes when none is given |
| `IdempotencyStore.InmemStore.Get` | internal/idempotency/inmem.go:40-52 | the entry until its expiry instant inclusive; after it nothing, and the key is gone |
| `IdempotencyStore.InmemStore.Set` | internal/idempotency/inmem.go:55-66 | before its expiry instant an entry stays; otherwise the new one with a fresh expiry |
| `IdempotencyStore.InmemStore.Sweep` | internal/idempotency/inmem.go:70-82 | keeps exactly the entries whose expiry instant has not passed and counts the others |
| `IdempotencyStore.DeletionUnobservable` | internal/idempotency/inmem.go:40-82 | under a clock that never goes back, every lookup of every run answers as in a map that never deletes |
| `IdempotencyStore.SweepsUnobservable` | internal/idempotency/inmem.go:70-82 | sweeps inserted or dropped anywhere change no answer |
| `IdempotencyStore.ExpiryInstant` | internal/idempotency/inmem.go:47-58 | while an entry is a hit, a set changes nothing exactly when it is not the very expiry instant |
| `IdempotencyMiddleware.ReplaysAgree` | internal/endpoint/idempotency.go:37-63 | in every interleaving, a lookup after an effective store and before its expiry replays that response; any other execution looked up earlier or failed to look up |
| `IdempotencyMiddleware.ReplayIsGenuine` | internal/endpoint/idempotency.go:41-50 | every replay is the response some request with the same scoped key had stored before and that had not expired |
| `IdempotencyMiddleware.NoSecondExecution` | internal/endpoint/idempotency.go:37-63 | after a request has stored, a response is in force and later lookups before it expires replay it instead of executing |
| `IdempotencyMiddleware.UndisturbedRetry` | internal/endpoint/idempotency.go:37-63 | from any state without the key, a retry after a first request and a cleaning is replayed with the first response exactly when that was stored and the lifetime is not over, and executes otherwise |
| `IdempotencyMiddleware.ScopesCollideExactly` | internal/endpoint/idempotency.go:68-73 | two callers can meet under one scoped key, with client keys of their choice, exactly when their scopes are the same or one continues the other after a colon |
| `IdempotencyMiddleware.ColonFreeScopesAreSeparate` | internal/endpoint/idempotency.go:68-73 | colon-free scopes share a scoped key exactly when scope and client key are the same |
| `IdempotencyMiddleware.ScopesSeparateCallers` | internal/endpoint/idempotency.go:68-73 | one client key of two callers is one key exactly when their scopes are the same |
| `ResponseRecorder.RecordedWriter.WriteHeader` | internal/endpoint/idempotency.go:84-91 | only the first status counts, in the record and at the client |
| `ResponseRecorder.RecordedWriter.Write` | internal/endpoint/idempotency.go:93-101 | bytes go to both, with an implicit 200 |
| `ResponseRecorder.RecordedWriter.Serve` | internal/endpoint/idempotency.go:53-60 | for any handler the recorded entry is its first status and all its bytes, and exactly what the client sees |
| `ResponseRecorder.Replay` | internal/endpoint/idempotency.go:45-49 | a replay shows the client the stored entry |
| `IdempotencyHandler.Middleware.Handle` | internal/endpoint/idempotency.go:24-65 | without a store or key, and for GET and HEAD, the request passes through and the store stays; otherwise a hit under "player:key" or "anon:key" is replayed and a miss is executed, shown and stored, with failing lookups and writes |
| `IdempotencyHandler.Middleware.TwoWrites` | internal/endpoint/idempotency.go:24-65 | two POST, PUT, PATCH or DELETE calls with one key, the second looked up after the first stored and within its lifetime: the second is replayed and both clients see the first response |
| `RequestChain.Chain.Serve` | cmd/server/main.go:142-166 | one request through the lookup and the token check in either order: what the client sees, 401 without a good token on a guarded, checked route unless a stored answer comes first, and what is stored |
| `RequestChain.CallersMeetExactly` | cmd/server/main.go:135-163 | two players can meet under one stored answer exactly when the lookup comes first, the route is unchecked, or their ids are the same or one continues the other after a colon |
| `RequestChain.FirstAnswerIsEveryones` | cmd/server/main.go:142-166 | with the lookup first, whatever requests come in between, the first answer to a client key, a refusal included, is every caller's on every route until its lifetime is over |
| `RequestChain.CheckFirstSeparates` | internal/endpoint/auth.go:85-110 | with the check first, requests of one colon-free player change no answer to another |
| `RateLimit.Limiter.constructor` | internal/ratelimit/ratelimit.go:52-68 | no buckets, and a burst of at least one |
| `RateLimit.Limiter.Allow` | internal/ratelimit/ratelimit.go:72-86 | unlimited without a positive rate; a new identity takes one of burst tokens; otherwise the call passes exactly when the refilled bucket, capped at the burst, holds a token, and takes it |
| `RateLimit.Limiter.Sweep` | internal/ratelimit/ratelimit.go:90-102 | drops exactly the buckets idle beyond the limit and counts them |
| `RateLimit.SweepUnobservable` | internal/ratelimit/ratelimit.go:72-102 | when a bucket refills within the idle limit, every decision is that of a limiter that never sweeps |
| `RateLimit.SweepInvisibleExactly` | internal/ratelimit/ratelimit.go:72-102 | sweeping changes no decision of any run exactly when idleTTL * rps >= burst |
| `RateLimit.RateBound` | internal/ratelimit/ratelimit.go:72-102 | after any run, in any window one identity gets at most burst + rps * length calls, sweeps or not |

## Instances

Lemmas about single inputs or single steps, which illustrate the results above: `GachaService.DemoPool` (the demo pool of
`internal/service/gacha/pool_data.go:24-41` draws 30, 170 and 800 of 1000 for SSR, SR and R, and its ceiling of 80 is
promised), `RowLock.TwoFirstHits` (two first hits on one player: the second insert waits and then fails on the unique
key), `RedisLeaderboard.ReceivableRunParts` (increments of at most a million that climb one past 2^53 and part the
boards), `IdempotencyHandler.RetryIsReplayed` (one retry after one request), `RequestChain.RefusedIsReplayedExactly` (one
refused request), `Ranking.OthersKeepOrder` (two untouched players keep their order).

## Left out

- Overlapping `Roll` calls for one player and pool: reading the counter and writing the batch are separate steps, so the
  ceiling is not claimed for them; calls of different pairs interleave freely in the model.
- Handler executions of overlapping idempotent requests: the middleware may run both, and only their agreement on the
  stored answer is proved.
- `GachaService.Service.Roll`: written over the MySQL repository; over the in-memory one the same steps are covered by the
  ledger (`GachaService.InmemCeiling`), for pity thresholds up to 2^31.
- `BattleRepo.Reset` and `Get` are not steps of the transaction machine, so a concurrent reset of HP is not covered.
- `RowLock.NoDeadlock`, `RowLock.TwoFirstHits`, `UserQueueTheorems.WorkerNeverWaits`, `UserQueueTheorems.Progress` and
  `BattleRepoMysql.BattleRepo.InsertRow`: without gap locks; `GapLock.dfy` says exactly what they change.
- `GapLock.FirstHitsDeadlockExactly`: gap locks of a missing row only; next-key locks of other reads do not occur here.
- `UserQueueTheorems.NeverAppliedExactly`: a transaction with its update written counts as one whose commit may be on its
  way; whether the commit was really sent before the context ended is not modelled.
- Lock-wait timeouts and the server's deadlock detector appear as failing statements only.
- `BattleService.V2UserQueue.Apply`: one schedule of the other goroutines for each end of the context, each pick of the
  selects and each choice of failing statements; every other schedule is covered by the theorems about all runs of the state machine.
- `EventScore.ScoreConserved`: points and board are unbounded integers in the scoring protocol; the wrap-around of the
  stored 64-bit values is modelled in `EventService` and `Leaderboard`.
- `Ranking.RaiseMovesMinimally`: totals are unbounded integers; `Leaderboard.IncrementMovesMinimallyExactly` carries it to
  the wrapping increment.
- `RedisLeaderboard.RedisLeaderboard.IncrBy`: the double is kept as an integer; the conversion of a double beyond 64 bits,
  which Go leaves to the platform, is not modelled.
- `Leaderboard.Leaderboard.SortedLocked`: the library sort is an insertion function proved to order and permute.
- `RateLimit.Limiter.Allow`: one clock for idleness and tokens, real-valued time, and one step for the section under the
  mutex and the token call after it; the library's own clock and floating-point rounding are not modelled.
- `ResponseRecorder.RecordedWriter.WriteHeader`: informational and invalid status codes, headers and write errors are not
  modelled.
- `IdempotencyHandler.Middleware.Handle`: a handler that panics, which stores nothing, is not modelled.
- Redis errors, and increments between the two commands of `Rank` and `Around` to other events.
- The Redis idempotency store, the MySQL event repository, reward tiers, profiles, rooms, tokens, HTTP routing, metrics,
  WebSocket transport, area-of-interest broadcasting and configuration: plumbing or single-branch facts.
