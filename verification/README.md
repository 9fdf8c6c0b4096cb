# Reliability core: a verified model

The system is a set of agents that talk over Redis streams. This project models the parts that keep
it reliable - rate limiters, the circuit breaker, the dead letter queue, the scripts that move
messages between streams, and the small trackers that derive state from events - and proves what
they promise, or exactly when they keep the promise.

Time, tokens and rates are reals. A locked section, a Lua script and a single Redis command are each
one atomic step, so anything shared between threads or processes is a run over such steps, in any
interleaving. A Redis command may go well, fail before it takes effect, or fail after it has. What
the program updates in place is a class here, and each of its methods is proved against a function
of the old state; what is promised is then proved about those functions, over all runs.

| file | what it models |
|---|---|
| `TokenBuckets`, `Reflections` | the token bucket as a step function, and its exact level after any run |
| `LocalTokenBuckets`, `Clocks` | the bucket object and its blocking call |
| `RedisTokenBuckets` | the Lua bucket with its expiring key, and the polling call |
| `SlidingWindows` | the pruned sliding window, its object and its blocking call |
| `RateLimiters` | the per-key limiter over both backends |
| `CircuitBreakers` | the breaker with calls in flight |
| `Streams` | id-sorted streams, cursors, deletion |
| `Migrations`, `LiveMigrations` | the stream renaming script, alone and among producers |
| `DeadLetters`, `Requeuers`, `BulkRequeues` | the dead letter queue, its requeuers in any interleaving, and the bulk requeue script |
| `Envelopes` | the retry lifecycle of a message |
| `WorkflowProgress`, `UpdateSchedules`, `StepMetrics` | workflow aggregates, overlapping updates and step metrics |
| `VariantAssignments`, `ExperimentResults` | A/B assignment and results |
| `Tokens` | token estimates, truncation and the token budget |

`dafny verify dfyconfig.toml` checks everything.

## Where the code does not do what it says

Each of these is a theorem below; the model follows the code.

- A blocking `acquire` "blocks until tokens available", but a request above the capacity without a
  timeout never returns (`EventuallyGrantedIffFits`).
- The Redis bucket equals the in-memory one only if it can fill up within the 60 seconds its key
  lives, 60 * rate >= capacity (`RedisRefinesMemoryIff`). On the Redis backend `available` looks at a
  local bucket that nobody draws from, always reports a full burst (`RedisAvailableAlwaysFull`), and is
  right for every run only if that burst is zero (`AvailableReportsTrulyIff`).
- A sliding window with a fractional rate reports no slot while it still accepts a request
  (`AvailableForetellsIff`).
- A half-open breaker can be wedged for good: probe slots are never given back when a probe ends in
  an exception that is not counted, or when more successes are needed than there are slots
  (`HalfOpenLeftIff`, `WedgeIsReachable`, `RecoversIffEnoughProbes`). A success of a call admitted
  long before the breaker opened counts towards closing it (`ClosesOnOwnIffNoStaleReport`,
  `StaleCanComeIff`, `StaleSuccessCloses`). The breaker opens when the failure threshold is reached,
  not when it is exceeded as its header says.
- A stream migration can be cut short by a failing command or by a message to the target
  (`FailureCutsShort`, `ProducerCutsShort`), and every later run then refuses it (`CutShortForGood`,
  `CutShortIsHopeless`). A message that a producer adds to the old stream after its last page was read
  is lost although the script reports success (`FinishedMovesAllIffQuiet`, `LateEntryIsLost`).
- A dead letter is requeued twice by requeuers that overlap, or by one that tries again after a command
  failed halfway, and for no other reason (`AddedOnceIffCareful`, `AddedOnceIffNoOverlap`); optional
  fields that are present but empty do not survive storage (`RoundTripIff`).
- Overlapping updates of a workflow can lose one of them: only a schedule without overlap never does,
  whatever the updates say (`NothingLostIffOverlapFree`, `OverlapShows`). A workflow without steps stays
  pending although all of its steps are completed (`NoStepsNeverCompletes`).
- `calculate_results` raises a `TypeError` for a winner over a control without conversions, and for a
  rate above one on a sample of 30 or more (`Concluded`, `LiftCanBeUndefined`, `IntervalCanRaise`).
- The winner of an experiment can be a variant that is significantly worse than the control, which the
  report then advises to roll out (`WinnerIsBetterIff`, `WorseCanWin`).
- A request for a negative number of tokens puts tokens back, so that a bucket can hand out twice its
  capacity at one instant (`NegativeRequestsGetRoundIt`).
- A truncated text is over its limit when the limit has no room for the suffix (`CutTextFitsIff`).
- The `limit` of `get_step_metrics`, documented as the most workflows to analyse, bounds nothing
  (`LimitKeptIffStoreWithin`).

## Model

| member | source | states |
|---|---|---|
| Reflections.LevelIsLeastBalance | core/utils/rate_limiter.py:99-109 | a level that is cut off at a cap after every inflow equals the least, over all earlier points, of cap plus inflow minus outflow since then |
| Reflections.LevelNonNegative | core/utils/rate_limiter.py:128-131 | such a level never falls below zero when nothing is taken that it does not cover |
| TokenBuckets.RefillTwice | core/utils/rate_limiter.py:99-109 | two refills in a row leave the bucket as the later one alone does |
| TokenBuckets.LevelIsLeastAllowance | core/utils/rate_limiter.py:99-152 | after any run the level is the least, over all past points, of capacity + rate * time since - tokens handed out since |
| TokenBuckets.AcceptedIffEveryWindowAllows | core/utils/rate_limiter.py:124-134 | a request is accepted if and only if granting it keeps every window of the past within capacity + rate * length |
| TokenBuckets.WindowIsConsecutive | core/utils/rate_limiter.py:99-134 | the events of an interval of real time are consecutive, so what is spent in it is what is spent between two points |
| TokenBuckets.LevelNeverNegative | core/utils/rate_limiter.py:99-134 | in any ordered run, including requests for zero or fewer tokens, the level stays at or above zero |
| TokenBuckets.RateGuarantee | core/utils/rate_limiter.py:79-152 | in any interval of real time at most capacity + rate * length tokens are handed out, net of what requests for negative amounts put back |
| TokenBuckets.GrossRateGuarantee | core/utils/rate_limiter.py:79-152 | and every token handed out counts when no request is negative |
| TokenBuckets.NegativeRequestsGetRoundIt | core/utils/rate_limiter.py:111-131 | with one, any bucket hands out twice its capacity at one instant |
| TokenBuckets.OnlyGrantsMatter | core/utils/rate_limiter.py:111-152 | refused requests and `available` calls leave no trace: the accepted requests alone are all accepted again and give the same bucket at any later time |
| LocalTokenBuckets.EventuallyGrantedIffFits | core/utils/rate_limiter.py:111-146 | some later pass can grant a request if and only if it is no larger than the capacity |
| LocalTokenBuckets.GrantedWhenDue | core/utils/rate_limiter.py:136-146 | a pass that finds enough tokens after sleeping has slept exactly deficit / rate and finds exactly the request |
| LocalTokenBuckets.RestOfWait | core/utils/rate_limiter.py:136-143 | elapsed time plus wait time is the same in every pass of a request that fits |
| LocalTokenBuckets.OversizedWait | core/utils/rate_limiter.py:136-138 | a request above the capacity always finds a wait of at least the time of one token |
| LocalTokenBuckets.PassFails | core/utils/rate_limiter.py:124-146 | a pass without success leaves the call waiting for its first deficit, with at least one pass fewer to come unless it waits for ever |
| LocalTokenBuckets.TokenBucket.constructor | core/utils/rate_limiter.py:93-97 | a new bucket is full |
| LocalTokenBuckets.TokenBucket.Create | core/utils/rate_limiter.py:82-97 | there is no bucket exactly for a negative capacity or rate; otherwise it is new and full |
| LocalTokenBuckets.TokenBucket.RefillNow | core/utils/rate_limiter.py:99-109 | the object refills like the step function |
| LocalTokenBuckets.TokenBucket.TryAcquire | core/utils/rate_limiter.py:125-134 | the locked section decides and takes like the step function the run theorems are about |
| LocalTokenBuckets.TokenBucket.AvailableTokens | core/utils/rate_limiter.py:148-152 | reports the refilled level, and changes nothing but the refill |
| LocalTokenBuckets.TokenBucket.Acquire | core/utils/rate_limiter.py:111-146 | every uncontended call, followed for any number of passes: granted at once, or after exactly deficit / rate if and only if the request fits and the timeout allows it; otherwise refused at once, or, above the capacity, never later than the timeout; a zero rate divides by zero; it ends within a known number of passes, except above the capacity without a timeout, when it never ends |
| RedisTokenBuckets.ExpiredIsFull | core/utils/rate_limiter.py:265-271 | with 60 * rate >= capacity a bucket untouched for longer than its key lives is full, as an absent key is read |
| RedisTokenBuckets.RelatedAfter | core/utils/rate_limiter.py:257-283 | with that, hash and in-memory bucket agree after every prefix of any run, and so do their answers |
| RedisTokenBuckets.ExpiryShows | core/utils/rate_limiter.py:265-281 | otherwise draining the bucket and asking again just after the key expired tells the two apart |
| RedisTokenBuckets.RedisRefinesMemoryIff | core/utils/rate_limiter.py:257-283 | the Lua bucket answers every sequence of timed requests like the in-memory bucket if and only if 60 * rate >= capacity |
| RedisTokenBuckets.AgreesWhileKeyLives | core/utils/rate_limiter.py:257-283 | whatever the rate, it does so on every run in which no two requests in a row are more than 60 seconds apart |
| RedisTokenBuckets.DueIff | core/utils/rate_limiter.py:285-308 | a waiting request is due at a poll if and only if it fits and its deficit has flowed in by then |
| RedisTokenBuckets.RedisServer.Eval | core/utils/rate_limiter.py:257-283 | the script changes one key only, and as its step function says |
| RedisTokenBuckets.NotDueYetIff | core/utils/rate_limiter.py:285-308 | a waiting request is still not due after a number of polls if and only if it does not fit or the last of them came before its deficit had flowed in |
| RedisTokenBuckets.RedisTokenBucket.Pass | core/utils/rate_limiter.py:285-304 | one pass decides on the undisturbed level of that poll, leaves its hash and touches no other key |
| RedisTokenBuckets.RedisTokenBucket.Acquire | core/utils/rate_limiter.py:241-308 | every call, followed for any number of passes: it succeeds at the first poll at which the request is due and never past the timeout, refuses at the first poll after the timeout, leaves the hash of its last poll and touches no other key |
| SlidingWindows.PruneTwice | core/utils/rate_limiter.py:170-173 | pruning early and then late is pruning late |
| SlidingWindows.ListAgreesWithHistory | core/utils/rate_limiter.py:170-198 | from the last cutoff on, the pruned list and the list that never forgets hold the same requests |
| SlidingWindows.AcceptedIffHistoryAllows | core/utils/rate_limiter.py:187-198 | a request is accepted if and only if the full history has fewer accepted requests in the window than the rate |
| SlidingWindows.AcceptedIffCountAllows | core/utils/rate_limiter.py:187-198 | counted out: fewer requests were accepted after now - window, and up to now, than the rate |
| SlidingWindows.EveryWindowWithinRate | core/utils/rate_limiter.py:155-198 | in any run every interval (t - window, t], wherever it ends, holds at most ceil(rate) accepted requests, and none for a rate that is not positive |
| SlidingWindows.ReportedSlotIsFree | core/utils/rate_limiter.py:213-217 | after any run a request made when a slot is reported is accepted |
| SlidingWindows.ReportedIsFree | core/utils/rate_limiter.py:213-217 | the report is the rate less the requests accepted in the window, by the history that forgets nothing, cut off toward zero |
| SlidingWindows.AvailableForetellsIff | core/utils/rate_limiter.py:213-217 | a report of no slot means refusal, after every run, if and only if the rate is whole or not positive, or the window has no length and the rate is at least one |
| SlidingWindows.OldestIsLeast | core/utils/rate_limiter.py:200-202 | the oldest request is one of the list and no request is older |
| SlidingWindows.SlotWhenOldestLeaves | core/utils/rate_limiter.py:200-211 | until the oldest live request leaves the window the list stands; when it leaves there is a slot |
| SlidingWindows.FirstRound | core/utils/rate_limiter.py:187-211 | the first round of the loop settles the call as the closed form says, or sleeps with fewer rounds to come |
| SlidingWindows.LaterRound | core/utils/rate_limiter.py:187-211 | so does every later round |
| SlidingWindows.SettledIsEarliest | core/utils/rate_limiter.py:187-211 | by its history alone, a call is granted at the earliest time at which the window has room, if and only if that is now or it may wait so long; it fails on an empty list if and only if it may wait and there is never room, which is for a rate that is not positive; otherwise it refuses at once and takes nothing |
| SlidingWindows.SlidingWindow.Cleanup | core/utils/rate_limiter.py:170-173 | exactly the requests after the cutoff stay, in order |
| SlidingWindows.SlidingWindow.TryAcquire | core/utils/rate_limiter.py:188-198 | the locked section admits like the step function, and the list never outgrows the rate by a whole request |
| SlidingWindows.SlidingWindow.AvailableSlots | core/utils/rate_limiter.py:213-217 | reports the truncated difference of rate and live requests |
| SlidingWindows.SlidingWindow.PassAndSleep | core/utils/rate_limiter.py:187-211 | one round of the loop object does what the round function says to clock and list |
| SlidingWindows.SlidingWindow.Acquire | core/utils/rate_limiter.py:175-211 | the blocking call, sleeping a tenth of a second at most at a stretch, ends and comes to what `SettledIsEarliest` says: a slot at once, or exactly when the oldest live request leaves the window if the timeout allows, else refused at once; an empty list raises |
| RateLimiters.KeysAreIsolated | core/utils/rate_limiter.py:330-398 | the answers for a key in a run interleaved over many keys are those of a limiter asked about that key alone, for both algorithms and backends |
| RateLimiters.DisabledLetsPass | core/utils/rate_limiter.py:364-400 | a limiter that is not enabled grants every request and reports no limit, in every run over any keys, and keeps nothing |
| RateLimiters.EachKeyHasItsOwn | core/utils/rate_limiter.py:330-400 | with local limiters, in a run over any keys a key is answered, request by request and report by report, like one token bucket of the configured rate and burst, or one sliding window of the configured rate over one second, made at its first use, so the guarantees of a single limiter hold per key |
| RateLimiters.EachRedisKeyHasItsOwn | core/utils/rate_limiter.py:346-386 | on Redis, with 60 * rate >= burst, each request for a key is answered as an in-memory bucket of its own would answer it, in a run over any keys and with any `available` calls in between |
| RateLimiters.OtherKeyUntouched | core/utils/rate_limiter.py:237-239 | an operation on one key changes neither local limiter nor Redis hash of another |
| RateLimiters.RedisAvailableAlwaysFull | core/utils/rate_limiter.py:367-400 | on the Redis token bucket `available` reports the whole burst after any run |
| RateLimiters.RedisAvailableMisleads | core/utils/rate_limiter.py:367-400 | so a whole burst is reported when any further token is refused |
| RateLimiters.DecidedOnLevel | core/utils/rate_limiter.py:346-386 | a request is granted exactly when the level of the bucket it is decided on covers it |
| RateLimiters.AvailableReportsTrulyIff | core/utils/rate_limiter.py:367-400 | after every run and for every key `available` reports the level on which a request would be decided if and only if the bucket is not on Redis or has nothing to burst |
| RateLimiters.RateLimiter.GetLocalLimiter | core/utils/rate_limiter.py:330-344 | a limiter is made, full, on the first use of its key and kept afterwards |
| RateLimiters.RateLimiter.TryAcquire | core/utils/rate_limiter.py:346-386 | dispatch over enabled flag, backend and algorithm is the one the run theorems are about, on local limiters and Redis together |
| RateLimiters.RateLimiter.AvailableFor | core/utils/rate_limiter.py:388-400 | likewise for `available`, which never looks at Redis |
| CircuitBreakers.StepKeepsInvariant | core/harness/circuit_breaker.py:120-228 | every gate passage, completion, escape and reset keeps the exact invariant of each state |
| CircuitBreakers.InvariantAfterAnyRun | core/harness/circuit_breaker.py:104-234 | over all interleavings, stale completions included: closed has fewer failures than open it and zero recovery counts; open has exactly that many and a failure time; half-open has too few successes to close and has let through no more probes in this episode than allowed |
| CircuitBreakers.StartSatisfiesInvariant | core/harness/circuit_breaker.py:74-81 | a new breaker satisfies it, with no success to account for |
| CircuitBreakers.FailuresAreStreak | core/harness/circuit_breaker.py:173-197 | while closed the failure count is the number of failures in a row that the record ends with, and the breaker opens the moment they suffice |
| CircuitBreakers.StaysClosedIffNoStreak | core/harness/circuit_breaker.py:173-197 | a closed breaker stays closed if and only if no streak of failures in the run is long enough |
| CircuitBreakers.StreakIsSuffix | core/harness/circuit_breaker.py:173-197 | a streak of n is the last n counted outcomes all being failures |
| CircuitBreakers.ShutWhileTooEarly | core/harness/circuit_breaker.py:120-131 | while calls come too early the breaker stays open, later failures push its time on, and a call is admitted if and only if the timeout since the latest failure has passed and there is a probe slot |
| CircuitBreakers.NoCallBeforeTimeout | core/harness/circuit_breaker.py:120-158 | once a failure at f leaves it open no call is admitted before f + timeout in any interleaving without a reset |
| CircuitBreakers.ShutAfterOpeningFailure | core/harness/circuit_breaker.py:177-207 | whatever the state and memory of the breaker, half-open included: after a failure at t that leaves it open no call is admitted before t + timeout in any interleaving without a reset |
| CircuitBreakers.LastFailureIsLatest | core/harness/circuit_breaker.py:177-180 | over all interleavings, in every state, the remembered failure time is that of the latest failure reported, or none if there was none |
| CircuitBreakers.SequentialRecoveryStep | core/harness/circuit_breaker.py:133-187 | used sequentially with slots enough, a half-open breaker refuses no call, every probe so far has succeeded, a failure reopens it and a success brings it one step nearer to closing or closes it |
| CircuitBreakers.RecoveryIsQuick | core/harness/circuit_breaker.py:133-187 | over whole sequential runs of successes and counted failures half-open refuses no call, probes equal successes between calls, and fewer calls than the success threshold keep the breaker half-open |
| CircuitBreakers.SuccessesCount | core/harness/circuit_breaker.py:160-171 | after n successful sequential probes, too few to close, successes and probes are both n |
| CircuitBreakers.RecoversIffEnoughProbes | core/harness/circuit_breaker.py:133-171 | a half-open breaker used sequentially with success closes if and only if it needs no more successes than it has probe slots |
| CircuitBreakers.WedgedForGood | core/harness/circuit_breaker.py:133-150 | without free slot and without a call in flight nothing but a reset changes it, and every call is refused |
| CircuitBreakers.HalfOpenLeftIff | core/harness/circuit_breaker.py:133-150 | half-open can be left without a reset if and only if a call is in flight or a slot is free |
| CircuitBreakers.EscapingProbesWedge | core/harness/circuit_breaker.py:143-150 | probes ending in uncounted exceptions lead from any quiet half-open breaker to a wedged one |
| CircuitBreakers.WedgeIsReachable | core/harness/circuit_breaker.py:120-197 | whatever its thresholds, every new breaker has a run without a reset, in clock order, that leaves it wedged |
| CircuitBreakers.SuccessesAreAccounted | core/harness/circuit_breaker.py:160-171 | over all interleavings the success count of an episode is the number of its own completed probes that reported a success in it plus the number of earlier calls that did, each counted once |
| CircuitBreakers.AllEarnedIffNoStaleReport | core/harness/circuit_breaker.py:160-171 | all counted successes belong to probes of the episode if and only if no call from before it has reported a success in it |
| CircuitBreakers.ClosesOnOwnIffNoStaleReport | core/harness/circuit_breaker.py:160-171 | a half-open breaker closes on as many successes of its own probes as it asks for if and only if none of the successes, the last one included, comes from before the episode |
| CircuitBreakers.StaleCanComeIff | core/harness/circuit_breaker.py:143-171 | a stale success can still come in the episode if and only if a call from before it is in flight |
| CircuitBreakers.StaleSuccessCloses | core/harness/circuit_breaker.py:143-171 | from a new breaker such a success can close it while its only probe is still running |
| CircuitBreakers.StaleFailureReopensIff | core/harness/circuit_breaker.py:177-197 | any failure reopens a half-open breaker, and one of a call from before the episode can still come in it if and only if such a call is in flight |
| CircuitBreakers.CircuitBreaker.constructor | core/harness/circuit_breaker.py:74-81 | a new breaker is closed with nothing counted |
| CircuitBreakers.CircuitBreaker.Enter | core/harness/circuit_breaker.py:120-141 | the first critical section decides and counts as the gate of the run theorems |
| CircuitBreakers.CircuitBreaker.RecordSuccess | core/harness/circuit_breaker.py:160-175 | a success is counted as in the run theorems, in whichever state it arrives |
| CircuitBreakers.CircuitBreaker.RecordFailure | core/harness/circuit_breaker.py:177-197 | likewise a failure, whose time is kept in every state |
| CircuitBreakers.CircuitBreaker.TransitionToOpen | core/harness/circuit_breaker.py:199-207 | keeps the failure count, clears the recovery counts |
| CircuitBreakers.CircuitBreaker.TransitionToHalfOpen | core/harness/circuit_breaker.py:209-217 | starts an episode with no probe and no success |
| CircuitBreakers.CircuitBreaker.TransitionToClosed | core/harness/circuit_breaker.py:219-228 | clears every count and keeps the last failure time |
| CircuitBreakers.CircuitBreaker.ManualReset | core/harness/circuit_breaker.py:230-234 | closes the breaker from any state |
| CircuitBreakers.SequentialCallIsRun | core/harness/circuit_breaker.py:104-150 | a call that nothing overlaps is the run of its admission and the report of its outcome, an uncounted exception included |
| CircuitBreakers.CircuitBreaker.CallAlone | core/harness/circuit_breaker.py:104-150 | a call that nothing overlaps is gate and report in one, and an uncounted exception reports nothing |
| Streams.CursorContinues | scripts/redis/migrate_redis_streams.py:59-63 | reading after the exclusive cursor continues exactly behind the entries already read |
| Streams.WithoutExact | core/dlq.py:273-274 | deleting an id removes that entry and keeps all others and their order |
| Migrations.MovedIffEveryIdIsNew | scripts/redis/migrate_redis_streams.py:41-83 | without failures a row moves every entry, with id, fields and order, and removes the old stream if and only if every id is new to the target; otherwise nothing changes |
| Migrations.NextAdd | scripts/redis/migrate_redis_streams.py:68-75 | the next XADD is accepted unless the very first one is refused, and the copy is then one entry further |
| Migrations.RedisDb.XAdd | scripts/redis/migrate_redis_streams.py:70 | an explicit id is accepted only above the last id of the stream; a failed command has taken effect or not |
| Migrations.RedisDb.XRangeAfter | scripts/redis/migrate_redis_streams.py:63 | a page is what follows the cursor, up to the count |
| Migrations.RedisDb.Delete | scripts/redis/migrate_redis_streams.py:81 | removes one stream and no other |
| Migrations.CopyPage | scripts/redis/migrate_redis_streams.py:67-75 | a page is appended entry by entry; when it stops, the target holds exactly a first part of the old stream, one entry more than counted if an XADD failed late |
| Migrations.NextPage | scripts/redis/migrate_redis_streams.py:62-65 | the page read is the next stretch of the old stream, and it is empty only at the end |
| Migrations.CopyPages | scripts/redis/migrate_redis_streams.py:57-75 | the paging loop ends, with all entries copied exactly once or stopped at a first part |
| Migrations.MigrateStream | scripts/redis/migrate_redis_streams.py:41-83 | without failures the script row does exactly what the all-or-nothing specification says; with any failures the old stream is whole with a first part copied, or all is copied and it is gone; a row that reports a count has moved that many entries and its old stream is gone or was empty |
| Migrations.MessagesWithout | scripts/redis/migrate_redis_streams.py:113-122 | the multiset of all messages does not depend on the order in which streams are looked at |
| Migrations.MoveConservesMessages | scripts/redis/migrate_redis_streams.py:41-83 | a row without failures keeps the multiset of messages over all streams |
| Migrations.RowLosesNothing | scripts/redis/migrate_redis_streams.py:61-83 | whatever fails, a row loses no message |
| Migrations.MigrateRow | scripts/redis/migrate_redis_streams.py:113-122 | a row of the table and the totals with it: moved messages are added up, refused and raising rows are counted, whatever fails |
| Migrations.MigrateAll | scripts/redis/migrate_redis_streams.py:109-122 | the table loop does what its specification says without failures, with any pattern of failures no message is lost, and the totals it reports are those of `TotalsTell` |
| Migrations.TotalsTell | scripts/redis/migrate_redis_streams.py:106-122 | for a flat table of distinct names, whatever fails: as many entries as are reported moved have left the old streams, every old stream that still holds something is reported as failed, and the number reported as failed is exact if and only if no row that has nothing left reports a failure, as without failing commands |
| Migrations.TableConservesMessages | scripts/redis/migrate_redis_streams.py:26-39 | the whole table, with several old names sharing a target, conserves the multiset of messages |
| Migrations.RowKeepsSettled | scripts/redis/migrate_redis_streams.py:61-83 | a row that has nothing to do stays so when other rows run, because target ids only grow |
| Migrations.SecondRunDoesNothing | scripts/redis/migrate_redis_streams.py:113-122 | a second run of the table changes nothing and moves nothing |
| Migrations.MigrationsAreFlat | scripts/redis/migrate_redis_streams.py:26-39 | no target of the real table is itself to be moved, as the two above assume |
| Migrations.MigrationsHaveDistinctNames | scripts/redis/migrate_redis_streams.py:26-39 | no old name of the real table occurs twice |
| Migrations.OtherRowKeepsSettled | scripts/redis/migrate_redis_streams.py:61-83 | whatever another row comes to, failing or not, a row with nothing to do stays so and its old stream is untouched |
| Migrations.CutShortForGood | scripts/redis/migrate_redis_streams.py:61-75 | after a copy cut short, any number of further runs of any rows, failing or not, leaves its old stream whole and its row refused |
| Migrations.RetryMovesIffNothingCopied | scripts/redis/migrate_redis_streams.py:61-83 | a second try without failures completes the move of a row that could be moved if and only if the first try copied nothing |
| LiveMigrations.BeginSatisfiesInvariant | scripts/redis/migrate_redis_streams.py:57-59 | the invariant below holds of every row that is begun |
| LiveMigrations.StepKeepsInvariant | scripts/redis/migrate_redis_streams.py:61-81 | each step of copy and producers keeps what was copied the first part of the old stream and in the target, the rest to be copied or come late, and after the removal accounts for all that it took away |
| LiveMigrations.FailingCommandEnds | scripts/redis/migrate_redis_streams.py:67-81 | a command that fails ends the row at once, having done all that it does when it goes well, or nothing |
| LiveMigrations.EndedForGood | scripts/redis/migrate_redis_streams.py:72-83 | a row that has ended does nothing more, whatever is done next: only producers change the streams, and only by adding |
| LiveMigrations.AddOneIsRefusedIff | scripts/redis/migrate_redis_streams.py:68-75 | the copy is refused at an entry if and only if the target has been given an id from elsewhere that is not below the entry's |
| LiveMigrations.FinishedMovesAllIffQuiet | scripts/redis/migrate_redis_streams.py:61-81 | every migration that removes its old stream, failing commands or not, has removed exactly what it copied to the target followed by what came late; it has moved everything if and only if nobody added to the old stream between the empty page and the removal |
| LiveMigrations.LostIffLate | scripts/redis/migrate_redis_streams.py:79-83 | a removed entry is missing from the target if and only if it came late and the target has no equal entry from elsewhere |
| LiveMigrations.NothingOldIsLost | scripts/redis/migrate_redis_streams.py:61-83 | what the old stream held when the row began is at any time all in the old stream or all in the target, whoever writes and whatever fails |
| LiveMigrations.HopelessForGood | scripts/redis/migrate_redis_streams.py:61-83 | a row whose first id is not new to the target is never moved and nothing of it copied, whatever producers and failures do |
| LiveMigrations.CutShortIsHopeless | scripts/redis/migrate_redis_streams.py:61-83 | every row that was refused, or failed with anything copied, is such a row in any later run |
| LiveMigrations.ReachesRemoval | scripts/redis/migrate_redis_streams.py:61-81 | left alone, every copy whose next entries nothing bars comes to the empty page |
| LiveMigrations.FailureCutsShort | scripts/redis/migrate_redis_streams.py:68-75 | on every row that can be moved one XADD that fails after taking effect leaves a first part copied and the old stream whole |
| LiveMigrations.ProducerCutsShort | scripts/redis/migrate_redis_streams.py:68-75 | and so does one message to the target, on every such row with two entries or more |
| LiveMigrations.LateEntryIsLost | scripts/redis/migrate_redis_streams.py:79-83 | for every row that can be moved at all there is a run that finishes and leaves an entry, whose producer was given its id, in neither stream |
| DeadLetters.RoundTripIff | core/dlq.py:45-80 | storing and reading back a dead letter is exact if and only if no optional field is present and empty |
| DeadLetters.StoredIsComplete | core/dlq.py:45-58 | every field is stored under its own name, and a missing one as empty |
| DeadLetters.ReadIsNormal | core/dlq.py:60-80 | whatever was stored, what has been read once survives storing and reading unchanged |
| DeadLetters.RequeuedAtMostOnce | core/dlq.py:249-281 | without failures or overlap an id is requeued at most once over any run of sends and requeues |
| DeadLetters.RequeueUndoesSend | core/dlq.py:173-190 | requeueing what was just sent gives the queue its entries back and appends the original message, if and only if that is an object of at least one field, none of which is a flag, null or nested; otherwise the dead letter stays |
| DeadLetters.OddEntryRequeued | core/dlq.py:60-80 | an entry whose message is no JSON is requeued as its text under "raw", one without a message or with a failure count that is no number not at all |
| DeadLetters.AnswerMeansMoved | core/dlq.py:249-285 | an id is returned only when no command failed, and then the letter is gone and the source stream has one new entry, under that id; without failures and without an id nothing has changed |
| DeadLetters.DueIffMarkedDead | core/dlq.py:129-141 | queue and envelope agree: after a retry a message is due for an enabled queue with its limit exactly when the retry has marked its envelope as dead, and never for a disabled queue |
| DeadLetters.DeadLetterQueue.SendToDlq | core/dlq.py:143-208 | the whole dead letter is stored under a new id, or nothing is when disabled or when Redis fails first; the id is returned only when all went well |
| DeadLetters.DeadLetterQueue.RequeueMessage | core/dlq.py:239-285 | the method does to both streams what the three-step specification says, under every failure |
| Requeuers.StartSatisfiesInvariant | core/dlq.py:249-285 | the invariant below holds of any two streams before anyone works on them, with everything already in the source stream counting as no copy |
| Requeuers.StepKeepsInvariant | core/dlq.py:185-285 | every send, read, add and delete, failing or not, and every message from elsewhere keeps it: each letter is in the queue or has copies of its own, which are later entries with its message, shared with no other letter |
| Requeuers.NothingLost | core/dlq.py:249-285 | conservation over every interleaving and failure pattern: each letter ever stored is in the queue, or has an entry in the source stream with its message that was not there before and that no other letter shares, however many carry the same message |
| Requeuers.PendingAfter | core/dlq.py:252-274 | the copies made or possible of a letter grow by one exactly when a requeuer gets hold of it, and shrink by one exactly when its add is lost |
| Requeuers.AddedOnceIffCareful | core/dlq.py:249-285 | over every run in which whoever gets hold of a letter goes on to add it: it is added at most once if and only if nobody gets hold of it while another requeuer is at it or after it has been added |
| Requeuers.CarefulAddsOnce | core/dlq.py:249-285 | such care suffices also when some requeuers give up on the way |
| Requeuers.AddedOnceIffNoOverlap | core/dlq.py:267-274 | when no add fails after and no delete before taking effect, a letter is added at most once if and only if no two requeuers are at it at a time |
| Requeuers.OverlapDuplicates | core/dlq.py:252-274 | any two requeuers that both read before either deletes add the message twice |
| Requeuers.LateAddFailureDuplicates | core/dlq.py:267-285 | so does a single one whose add fails after taking effect and who tries again |
| Requeuers.EarlyDeleteFailureDuplicates | core/dlq.py:273-285 | and a single one whose delete fails before taking effect and who tries again |
| Requeuers.RequeueIsThreeSteps | core/dlq.py:249-285 | a requeue that nothing interrupts is the three steps of one requeuer, for every combination of failures |
| Envelopes.DeadAfterMaxRetries | core/envelope/typed_envelope.py:105-120 | however failures are marked and wrapped in between, a retry makes the message dead exactly when the retries it began with and those since reach its limit |
| Envelopes.AnswerStartsOver | core/envelope/typed_envelope.py:152-173 | a result that is retried has three retries whatever its task had used |
| Envelopes.LineageKept | core/envelope/typed_envelope.py:99-202 | over any chain of results, errors, ends and retries task and correlation ids stay those of the first message, and payload and limit change only with a result |
| Envelopes.FieldsTellHistory | core/envelope/typed_envelope.py:99-202 | after any chain of results, errors, ends and retries each field is what the history says: error and code of the last failure since the last result, message id and source of the envelope made last, processed if marked since, retries counted since the last result, payload of the last result; the status is that of the last turn |
| Envelopes.EnvelopeObject.CountRetry | core/envelope/typed_envelope.py:113-120 | the object counts a retry like the function of the lifecycle theorems and changes nothing else |
| Envelopes.EnvelopeObject.Fail | core/envelope/typed_envelope.py:105-111 | marks the failure with its text and code and keeps payload and retries |
| Envelopes.EnvelopeObject.Finish | core/envelope/typed_envelope.py:99-103 | marks success and leaves an earlier error text in place |
| BulkRequeues.TransformedTask | scripts/redis/dlq_requeue.py:79-99 | a transformed envelope is pending with all its retries, asks for an upsert, keeps an explicit conflict rule and has the default one otherwise, keeps everything else, and transforming it again changes nothing |
| BulkRequeues.OnlyTransformRestoresRetries | scripts/redis/dlq_requeue.py:79-99 | a message with its retries used up is dead again at its next retry if requeued as it is, and has all its retries if transformed |
| BulkRequeues.FilterIgnoresCase | scripts/redis/dlq_requeue.py:139-141 | a filter accepts an error if and only if its text occurs in it, letter for letter up to case |
| BulkRequeues.SelectedIffWanted | scripts/redis/dlq_requeue.py:134-149 | an entry is selected if and only if it holds a message and, with a filter that is not empty, says an error that contains the filter up to case |
| BulkRequeues.SelectedItem | scripts/redis/dlq_requeue.py:53-99 | what is sent for it is what it holds, as it was, or as a task to be upserted |
| BulkRequeues.RunObeysFilter | scripts/redis/dlq_requeue.py:133-166 | whatever fails, every removed id and every delivered item of a run belongs to an entry its filter wants; a dry run delivers and removes nothing, and a run without deletion removes nothing |
| BulkRequeues.UnwantedIsLeftAlone | scripts/redis/dlq_requeue.py:139-141 | an entry that the filter does not want is neither sent nor removed |
| BulkRequeues.WantedAreSelected | scripts/redis/dlq_requeue.py:133-149 | the items to be sent are those of the wanted entries, one for each, in order |
| BulkRequeues.HealthyRunSendsWanted | scripts/redis/dlq_requeue.py:133-166 | without failures a run that is not dry delivers exactly those |
| BulkRequeues.HealthyRunRemovesWanted | scripts/redis/dlq_requeue.py:151-166 | and removes exactly the wanted entries, if it is to delete |
| BulkRequeues.HealthyRunCountsWanted | scripts/redis/dlq_requeue.py:133-168 | and counts exactly them, a dry run none |
| BulkRequeues.RemovedOnlyIfSent | scripts/redis/dlq_requeue.py:151-166 | an id leaves the queue only if its entry has been delivered |
| BulkRequeues.NothingLost | scripts/redis/dlq_requeue.py:133-166 | whatever fails, the queue is split into the entries it keeps and those that have gone, and the items of those that have gone were delivered at least as often as they occur |
| BulkRequeues.CountedAreDelivered | scripts/redis/dlq_requeue.py:133-168 | removed entries are at most the counted ones, and those at most the delivered ones |
| BulkRequeues.RequeueEntry | scripts/redis/dlq_requeue.py:134-166 | one entry is skipped, sent, or sent and deleted, according to payload, filter, flags and failures; a dry run changes nothing |
| BulkRequeues.RequeueNext | scripts/redis/dlq_requeue.py:134-166 | with the count, for the next entry of the run |
| BulkRequeues.RequeueOne | scripts/redis/dlq_requeue.py:120-168 | the destination gains, in order, exactly the accepted and added entries among the first `limit`, possibly transformed; the queue loses exactly the deleted ids |
| WorkflowProgress.StartedConsistentIff | core/utils/workflow_progress.py:130-154 | a started workflow shows the aggregates of its steps if and only if it has a step |
| WorkflowProgress.CompletedIffAllSteps | core/utils/workflow_progress.py:243-266 | in a consistent workflow, completed means 100 percent means all steps completed, and the percentage lies between 0 and 100 |
| WorkflowProgress.StatusIff | core/utils/workflow_progress.py:256-266 | partial means failed and completed steps, failed means failed and no completed ones, completed means all, in progress means a running step and none failed; there is no other status but pending |
| WorkflowProgress.AlwaysExplained | core/utils/workflow_progress.py:201-278 | in any interleaving of read and write phases the stored workflow is what some of the updates, in their order and not overlapping, would have produced |
| WorkflowProgress.AlwaysConsistent | core/utils/workflow_progress.py:201-278 | so after every run, lost updates or not, the stored hash tells the truth about the stored steps: of n steps with c completed the percentage is the whole number p with p * n <= 100 * c < (p + 1) * n, the counts are those of completed and failed steps, the status is the one the steps give, and the number of steps and the start time are those of the start |
| WorkflowProgress.NoStepsNeverCompletes | core/utils/workflow_progress.py:203-212 | a workflow without steps stays pending whatever happens |
| WorkflowProgress.ChainIsAllWrittenIffNoOverlap | core/utils/workflow_progress.py:201-278 | in every run the stored workflow is the replay of some of the written updates in the order of the writes; of all of them when no update is written between the read and the write of another, and of fewer otherwise |
| UpdateSchedules.NothingLostIffOverlapFree | core/utils/workflow_progress.py:201-278 | a schedule of reads and writes stores the replay of everything written, whatever the updates say, if and only if nothing is written between the read and the write of an update |
| UpdateSchedules.OverlapShows | core/utils/workflow_progress.py:201-278 | for every schedule with an overlap, and every step, there are updates of that step for which the stored workflow differs from the replay of what was written |
| UpdateSchedules.RunMirrors | core/utils/workflow_progress.py:201-278 | which updates the stored workflow is built on, and which were written, depends on the schedule alone |
| WorkflowProgress.OverlapLosesUpdate | core/utils/workflow_progress.py:201-278 | of two overlapping updates the earlier write is gone without a trace |
| WorkflowProgress.OnlyLastStatusesMatter | core/utils/workflow_progress.py:243-266 | without overlap counts, percentage and status depend on the last status of each step alone |
| WorkflowProgress.StepDetails | core/utils/workflow_progress.py:211-241 | without overlap a step keeps the times of its first start and first end, lasts from first start to last end if it was started by then, and shows its last result count and last error |
| WorkflowProgress.MillisecondsCutOff | core/utils/workflow_progress.py:228-232 | a duration is the whole milliseconds in it, cut off toward zero |
| WorkflowProgress.StartIsUntouched | core/utils/workflow_progress.py:130-154 | a started workflow has every step pending and untouched, and counts nothing but the names it was given |
| WorkflowProgress.UpdatedByLast | core/utils/workflow_progress.py:262-278 | the hash carries the time of its last update, and never gains or loses a step |
| WorkflowProgress.Tracker.StartWorkflow | core/utils/workflow_progress.py:109-165 | one workflow is stored as started, over anything under its id, unless tracking is disabled |
| WorkflowProgress.Tracker.UpdateStep | core/utils/workflow_progress.py:167-278 | an update that nothing overlaps is the one the run theorems are about; unknown workflows and steps change nothing |
| StepMetrics.GetStepMetrics | core/utils/workflow_progress.py:368-425 | over the whole scan, whatever the limit: how many workflows have the step, completed or failed it, the success rate, the mean duration, and as 95th percentile the duration that 19 in 20 of them come before when lined up; nothing when tracking is disabled |
| StepMetrics.LimitKeptIffStoreWithin | core/utils/workflow_progress.py:368-401 | no more workflows than the limit are analysed, for every store of a size, if and only if that size is within the limit |
| StepMetrics.SuccessRateIsPercentage | core/utils/workflow_progress.py:422 | the rate is the whole number of hundredths of a percent nearest to the exact one, the even one if two are as near; exact when none or all are completed, and zero without workflows |
| StepMetrics.CountsFit | core/utils/workflow_progress.py:394-411 | no entry of the scan counts both as completed and as failed, and only completed ones give a duration |
| StepMetrics.OccurrencesArePlaces | core/utils/workflow_progress.py:394-411 | the counts are the numbers of scanned workflows that have the step, and that have it with the given status |
| StepMetrics.TimedPlacesExact | core/utils/workflow_progress.py:404-407 | the workflows that count for the mean are those that completed the step in a known time that is not zero |
| StepMetrics.TimedPlacesInOrder | core/utils/workflow_progress.py:404-407 | each of them once, in the order of the scan |
| StepMetrics.DurationsComeFrom | core/utils/workflow_progress.py:404-408 | and the durations are theirs, one for each |
| StepMetrics.TotalIsWorkflowsIffNoRepeats | core/utils/workflow_progress.py:394-411 | the total is the number of workflows with the step if and only if the scan returns none of them twice, and greater otherwise |
| StepMetrics.AverageBetween | core/utils/workflow_progress.py:414 | the mean, although cut off, lies within any bounds of the durations |
| StepMetrics.AverageIsMean | core/utils/workflow_progress.py:414 | it is the sum over the number of durations, cut off toward zero |
| StepMetrics.SortedHasRank | core/utils/workflow_progress.py:415 | the element at an index of the sorted list is the one of that rank in the unsorted one |
| StepMetrics.RankIsUnique | core/utils/workflow_progress.py:415 | there is only one such duration |
| VariantAssignments.AssignVariant | core/utils/ab_testing.py:238-278 | the loop gives the bucket to the variant that the interval theorems are about; no variants raises |
| VariantAssignments.IndexIffBetween | core/utils/ab_testing.py:270-278 | a variant gets exactly the positions from its lower cumulative boundary to its upper one, the last one everything from its lower one |
| VariantAssignments.RaisingNeverMovesLater | core/utils/ab_testing.py:270-278 | raising cumulative boundaries never moves a bucket to a later variant |
| VariantAssignments.ShareIsInterval | core/utils/ab_testing.py:267-278 | the buckets of a variant are an interval between rounded-up boundaries |
| VariantAssignments.ShareSize | core/utils/ab_testing.py:267-278 | a variant that is not the last gets ceil(N * C_i) - ceil(N * C_(i-1)) of any N buckets, the last one the rest |
| VariantAssignments.ShareNearWeight | core/utils/ab_testing.py:267-278 | so it is less than one bucket away from N times its weight |
| ExperimentResults.CountIsLeads | core/utils/ab_testing.py:490-500 | without repeated records the event count is the number of leads with the event |
| ExperimentResults.RateIsProportion | core/utils/ab_testing.py:321-341 | so every conversion rate lies in [0, 1] |
| ExperimentResults.OtherRecordsDoNotMatter | core/utils/ab_testing.py:480-504 | a record of another experiment or variant leaves a variant's statistics alone |
| ExperimentResults.SignificantIsSymmetric | core/utils/ab_testing.py:376-419 | the test does not depend on which arm is the control |
| ExperimentResults.SignificantIff | core/utils/ab_testing.py:398-419 | for any counts in samples of 30 and more, the test without its quotients and roots: the pooled rate is neither zero nor one and the squared difference exceeds 1.96 squared times its variance, in whole numbers |
| ExperimentResults.SignificantProportionsIff | core/utils/ab_testing.py:398-419 | for a of m and b of n leads: some have converted and some have not, and 10000 * (b m - a n)^2 * (m + n) > 38416 * m n (a + b) (m + n - a - b) |
| ExperimentResults.SmallSamplesNeverDiffer | core/utils/ab_testing.py:391-396 | with fewer than 30 leads in either arm nothing is significant |
| ExperimentResults.PooledIsProportion | core/utils/ab_testing.py:401-408 | the pooled rate of two proportions is one, and the variance is not negative |
| ExperimentResults.PickWinner | core/utils/ab_testing.py:518-541 | the winner is the earliest variant of highest positive rate among the significant ones that are not the control, and there is none only if there is no such variant |
| ExperimentResults.BestIsUnique | core/utils/ab_testing.py:518-541 | there is only one such variant |
| ExperimentResults.EligibleIff | core/utils/ab_testing.py:518-541 | a variant other than the control can win if and only if the test in whole numbers tells it from the control and anybody in it has converted - better or worse |
| ExperimentResults.WinnerIsBetterIff | core/utils/ab_testing.py:518-541 | the winner is better than the control if and only if any variant that can win is |
| ExperimentResults.WorseCanWin | core/utils/ab_testing.py:518-541 | 50 of 100 against a control with 100 of 100 wins |
| ExperimentResults.AdviceTells | core/utils/ab_testing.py:551-561 | the report speaks of no difference if and only if no variant differs from the control, and advises to roll out if and only if there is a winner with a name; there is a winner if and only if a variant can win |
| ExperimentResults.LiftTellsGain | core/utils/ab_testing.py:543-561 | a lift is reported exactly when the advice is to roll out, and is what the winner gains over the control in percent of the rate of the control; it is a gain if and only if any variant that can win is better |
| ExperimentResults.Conclude | core/utils/ab_testing.py:518-569 | winner, lift and advice as promised; raises exactly when there is a winner with a name over a control without conversions |
| ExperimentResults.LiftCanBeUndefined | core/utils/ab_testing.py:469-556 | records of sixty leads that bring this about: thirty of the control whose messages none opened, and thirty of the variant who all opened theirs |
| ExperimentResults.IntervalRaisesIff | core/utils/ab_testing.py:344-373 | the interval cannot be computed if and only if there are 30 leads or more and still more records of the event |
| ExperimentResults.IntervalCanRaise | core/utils/ab_testing.py:469-506 | records that bring this about: thirty leads who all opened their message twice |
| ExperimentResults.ABTestingStore.SaveExperiment | core/utils/ab_testing.py:437-439 | replaces one experiment and touches no record |
| ExperimentResults.ABTestingStore.RecordConversion | core/utils/ab_testing.py:445-447 | appends one record |
| ExperimentResults.ABTestingStore.CalculateResults | core/utils/ab_testing.py:469-569 | the report concludes from the statistics of all variants, and raises exactly when an interval or a lift is undefined |
| Tokens.KeepFromFront | core/tokens.py:117-131 | the loop keeps the longest run from the front that fits |
| Tokens.TruncateMessages | core/tokens.py:89-144 | the result is, in original order, the longest run of the most recent messages that fits, or of the oldest ones |
| Tokens.ModesMirror | core/tokens.py:113-135 | the two modes mirror each other under reversal |
| Tokens.TextFitsIff | core/tokens.py:21-35 | a text counts for at most n tokens if and only if it is empty or has fewer than 4 (n + 1) characters, for n of one or more |
| Tokens.MessageCost | core/tokens.py:56-86 | a message costs 14 tokens, its body or, without one, its content, and its subject; a body that is no string hides the content |
| Tokens.CutTextFitsIff | core/tokens.py:147-184 | a cut text is within its limit if and only if the limit leaves room for the suffix |
| Tokens.CutTextKeepsBeginning | core/tokens.py:147-184 | a text within the limit is left alone; of a longer one the beginning is kept before the suffix, up to four characters to a token in all, or, if the suffix alone is longer than that, without as many characters from the end as it is too long |
| Tokens.SumWithout | core/tokens.py:209-212 | the total does not depend on the order of items |
| Tokens.RemainingCanBeAdded | core/tokens.py:214-222 | as many tokens as remain, and no more, can be added under a new name without exceeding the budget |
| Tokens.TruncateThenAddKeepsBudget | core/tokens.py:191-246 | messages truncated to what remains and added under any name never make a budget exceeded |
| Tokens.ExceededLeavesNothing | core/tokens.py:214-222 | an exceeded budget leaves no message to add |
| Tokens.TokenBudget.AddText | core/tokens.py:224-246 | counts the text under its name, replacing an older count |
| Tokens.TokenBudget.AddMessages | core/tokens.py:237-246 | counts the messages together under one name |
| Tokens.TokenBudget.TotalUsage | core/tokens.py:209-212 | adds up every item once |
| Tokens.TokenBudget.RemainingTokens | core/tokens.py:214-217 | what is left, never below zero |
| Tokens.TokenBudget.IsExceeded | core/tokens.py:219-222 | exactly when the total is above the limit |

## Left out

- LocalTokenBuckets.TokenBucket.Acquire: a blocking call above the capacity without a timeout never returns, so the call is followed for a number of passes given from outside, which the code does not have.
- RedisTokenBuckets.RedisTokenBucket.Acquire: likewise, for a request that does not fit or a rate of zero.
- SlidingWindows.SlidingWindow.Acquire: like the two above, speaks of a caller that is alone and sleeps exactly as long as it asks; other callers appear in the run theorems, where every pass is an event.
- RateLimiters.RateLimiter.TryAcquire: one pass of a call; the blocking forms are proved for each limiter. Limiters are values in the per-key map, so two references to one limiter are not modelled.
- RateLimiters.RateLimiter.GetLocalLimiter: does not model the error for a negative rate or burst, which `Create` of the token bucket does.
- ExperimentResults.ABTestingStore.CalculateResults: the bounds of the confidence interval are not computed, only whether computing them raises.
- StepMetrics.GetStepMetrics: the index of the 95th percentile is taken without floating-point error, and a rate exactly between two decimals is one in reals.
- WorkflowProgress.Tracker.StartWorkflow: leaves out metadata, which may overwrite the tracker's own fields, and key expiry. A repeated step name makes the stored total larger than the number of steps, as in the code.
- BulkRequeues.FilterIgnoresCase: letters outside A to Z are compared as they are.
- Tokens.TruncateMessages: takes the default of four characters to a token; estimates of other JSON data and of list items that are not messages are left out.
- Floating-point rounding everywhere: reals, and the floor where the code calls `int`. The percentage of a workflow can be one lower in floating point.
- Clocks that differ between client and server or run backwards.
- MD5: the hash of a lead is any natural number.
- JSON and Pydantic parsing: a stored text is the value it encodes or unreadable. Metadata that is only copied (tags, debug data, tenant, campaign, user and request ids, timestamps) is left out of envelopes.
- MAXLEN trimming and expiry of keys, except the 60 seconds of the rate limiter's hash.
- Entries of the source stream of a dead letter queue that somebody else deletes.
- Choosing the dead letter queues of a bulk run, command lines, logging and printing.
- `_migrate_stream` in scripts/redis/manage_redis_streams.py, whose inclusive cursor reads the last entry for ever.
- `peek_dlq`, `get_dlq_length`, `get_progress`, `list_active_workflows`, `get_stats` and the other read-only views, which show stored state as it is.
- `normalize_envelope`, task builders and tracing; agent harness, graph runner, shutdown handling, scripts/redis/dlq_automation.py, portals and everything else outside the files cited above.
