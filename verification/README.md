# LeetRank verification model

A Dafny model of the stateful engines of LeetRank: the worker queue and the
submission-judging protocol that runs on it, the judge's two-level scheduler, code
playback, the TTL/LRU cache, the rate limiters, and the ranking, streak, contest and
histogram arithmetic. `dafny verify dfyconfig.toml` checks the whole project.

## How the model is organised

Concurrent parts are state machines. A step is one atomic piece of the original: an
event-loop turn (queue, cache), the stretch of a handler between two awaits together
with its one database call (submissions), one channel operation or critical section
(scheduler). A run is any sequence of enabled steps, so a statement about all runs is a
statement about all interleavings, timings and failures the steps allow. Beside each
machine stands the imperative code: classes whose methods update the same fields as the
source and are proved to perform exactly those steps.

| file | models |
|---|---|
| `QueueSpec.dfy`, `QueueRuns.dfy`, `QueueJobs.dfy`, `Queue.dfy` | `src/lib/queue.ts` |
| `JudgeVerdict.dfy`, `SubmissionJobs.dfy`, `SubmissionAnswers.dfy`, `SubmissionHandler.dfy` | `src/lib/submission-jobs.ts`, any number of replicas over one table |
| `Scheduler.dfy`, `SchedulerImpl.dfy` | `judge-service/scheduler.go` |
| `TextEdits.dfy`, `EditOrders.dfy`, `CodePlayback.dfy`, `EventCodec.dfy` | `src/lib/code-playback.ts` |
| `CacheSpec.dfy`, `SingleFlight.dfy`, `TTLCache.dfy` | `src/lib/cache.ts` |
| `FixedWindow.dfy`, `SlidingLog.dfy` | `src/lib/rate-limit.ts` and the limiter of `judge-service/main.go` |
| `Recommendations.dfy`, `Streaks.dfy`, `ContestRanks.dfy`, `Histogram.dfy` | `src/lib/recommendations.ts`, `src/lib/daily-challenge.ts`, `services/analytics-python/app/queries.py`, `src/lib/analytics-helpers.ts` |
| `Utilities.dfy` | small datatypes, bounds on quotients, the promise of a stable sort, weighted sums over sequences |

## What the code does not do

Where an expected property is false of the code, the model keeps the code and the
project proves when the property holds.

- A database call that fails after the claim leaves the row `judging` for ever
  (`OrphanStaysJudging`); `FailureLosesRowFromStart` gives the runs. A judging row has its
  claimant in flight exactly when no claimant's call failed, and that happens at most once per row
  (`NoSubmissionLost`, `OrphanedByOneFailure`). The comment at
  src/lib/submission-jobs.ts:159-161 speaks of leaving the row judging; the code rolls it
  back to `queued`.
- `currentInUse` can exceed `GlobalMax`, in runs from the start by any amount
  (`CurrentInUseUnbounded`). It stays within the cap over every run if and only if there are
  no more calls than that (`CapKeptIffFewCalls`); `CurrentInUseExact` relates it to the tokens,
  which never exceed their caps (`Safety`).
- A `TTLCache` with `maxEntries` below 1 still holds one entry: `size <= maxEntries` holds
  over all runs if and only if `maxEntries >= 1` (`SizeBound`).
- `set` on a present key does not refresh its recency (`SetDoesNotRefresh`): with two entries,
  setting a, b, a and c evicts a, the key written more recently than b (`RewrittenKeyEvicted`).
  While no get meets an expired entry, the store is a plain LRU cache if and only if every set
  of a present key finds it newest (`LruIffSetsNewest`); `LeastRecentlyUsed` is about runs of
  non-overlapping `remember` calls, which never set a present key.
- `clear()` in mid-flight breaks single-flight: at once while the loader runs, and later
  through the stale `finally`, which deletes the entry of the next flight. Clearing is safe if
  and only if `stats().inflight` is 0 (`ClearSafeIffIdle`), and single-flight holds on every
  run that clears only then (`OneLoaderPerKey`).
- A fixed-window limit below 1 still lets the first call of each window through; a limit is
  kept on every trace if and only if it is at least 1 (`LimitKept`). In any closed interval
  as long as a window at most `2 * max - 1` calls pass, and that many can
  (`BelowTwiceMaxPerInterval`, `BoundReached`). In the sliding log rejected calls count
  too, and nothing else does (`DecisionFromCalls`).
- `effectiveCurrentStreak` and `_current_streak` of cells that end today differ exactly when
  the last solve was yesterday (`EffectiveMatchesScan`).
- When all runtimes are equal, `bucketIndexFor` returns the last bucket while the runtimes
  were counted in the first; they agree if and only if there is one bucket
  (`DegenerateLookup`).
- `debounceEvents` drops edits (`DebounceLosesEdits`): the replay survives, whatever was typed,
  exactly when every absorbed keystroke has a snapshot later in the log
  (`DebouncePreservesReplay`). On an unsorted log a second pass can drop more
  (`DebounceUnsorted`); `DebounceStable` says exactly when it does not, and
  `DebounceIdentity` when nothing is dropped at all.
- Changes applied first position first need not equal the simultaneous edit
  (`AscendingOrderDiffers`); last position first they do (`SequentialIsSimultaneous`).
  First position first does so, whatever the second change inserts, if and only if both its
  ends resolve to where they have moved (`AscendingIffEndsMove`); `PositionSurvives` says exactly when a position
  stays valid and does so, and `AscendingOrderAgrees` gives a condition on the first change.
- Undo does not restore every edit at a position the text does not have; it does for every
  inserted text if and only if the start exists (`UndoIffStartExists`).
- Every unsolved problem scores at least 4, so the `score > 0` filter never removes one
  (`ZeroMeansSolved`).

## Model

| member | source | states |
|---|---|---|
| `QueueSpec.NextInv` | src/lib/queue.ts:56-124 | Every turn keeps: each job id handed out is in exactly one place, the counters are exact, attempts are within bounds (a dead-lettered failure has used exactly `maxAttempts`), `inflight <= concurrency`, and no job waits while a slot is free. |
| `QueueSpec.PumpMidTurn` | src/lib/queue.ts:82-88 | From any state in the middle of a turn, `pump` restores the whole invariant including work conservation. |
| `QueueSpec.NextTally` | src/lib/queue.ts:56-124 | For any weight on places, a turn removes the weight of the place it empties and adds that of the place it fills; `pump` itself moves nothing a weight indifferent to starting can see. |
| `QueueRuns.RunInv` | src/lib/queue.ts:56-124 | The invariant over every run. |
| `QueueRuns.Conservation` | src/lib/queue.ts:56-124 | After any run: jobs enqueued equal pending plus in flight plus pending retries plus processed plus dead-lettered, each in one place. |
| `QueueRuns.NextShrinks` | src/lib/queue.ts:90-124 | Every settlement and every timer strictly decreases the work left. |
| `QueueRuns.Termination` | src/lib/queue.ts:90-124 | With no new enqueues a run is no longer than the work left at its start. |
| `QueueRuns.NotDrainedCanStep` | src/lib/queue.ts:64-68 | A queue can take an internal step if and only if it has not drained. |
| `QueueRuns.DrainComplete` | src/lib/queue.ts:64-68 | `drain` may return if and only if processed plus failed equals the number enqueued. |
| `QueueRuns.CallsAtMostMaxAttempts` | src/lib/queue.ts:90-119 | Over any run no job's handler is invoked more than `maxAttempts` times. |
| `QueueRuns.FirstInFirstOut` | src/lib/queue.ts:56-124 | Over any run the jobs taken for the first time are the first ones enqueued, in that order, and the untaken ones wait in that order behind them; retries and re-entrant pumps included. |
| `QueueJobs.HandlersAreRegistered` | src/lib/queue.ts:52-54 | Over every run of a new queue the handler of a kind is the one registered for it last, and there is none before the first registration. |
| `QueueJobs.PumpPlaces` | src/lib/queue.ts:82-102 | A job that waits when `pump` runs still waits, or runs with the handler of its kind and one more attempt, or is dead-lettered because its kind has no handler. |
| `QueueJobs.PumpOrigins` | src/lib/queue.ts:82-102 | Conversely whatever `pump` starts was waiting and runs with the handler of its kind, and it drops only waiting jobs whose kind has none. |
| `QueueJobs.RegisteredNeverDropped` | src/lib/queue.ts:92-100 | Over every run, once a kind has a handler no job of that kind is dropped for want of one. |
| `QueueJobs.EnqueueOutcome` | src/lib/queue.ts:56-60 | An enqueued job gets in line behind all others and is then placed as by `pump`. |
| `QueueJobs.SettleOutcome` | src/lib/queue.ts:101-119 | Success processes the job; failure before the last attempt arms one retry timer; the last failure dead-letters the job with its error. |
| `QueueJobs.FireOutcome` | src/lib/queue.ts:111-115 | A retry takes its timer away and puts its job, unchanged, behind all others. |
| `QueueJobs.JobsKeepContent` | src/lib/queue.ts:56-61 | Over every run each job, wherever it is, has the kind, payload and time it was enqueued with under its id. |
| `QueueJobs.ProcessedAreSuccesses` | src/lib/queue.ts:103 | Over every run `processed` grows by the number of calls that succeeded. |
| `WorkerQueues.WorkerQueue.constructor` | src/lib/queue.ts:47-50 | Defaults 4 and 3, values below 1 counting as 1; the empty queue without handlers. |
| `WorkerQueues.WorkerQueue.On` | src/lib/queue.ts:52-54 | Performs the register turn, whose effect over runs `QueueJobs.HandlersAreRegistered` states. |
| `WorkerQueues.WorkerQueue.Enqueue` | src/lib/queue.ts:56-61 | Returns the next id and performs the enqueue turn. |
| `WorkerQueues.WorkerQueue.Pump` | src/lib/queue.ts:82-88 | The loop, with `run` calling back into it for unhandled types, starts exactly what a single non-re-entrant pump would. |
| `WorkerQueues.WorkerQueue.Run` | src/lib/queue.ts:90-102 | Up to the first await: suspended with one more attempt, or dead-lettered and pumped when no handler exists. |
| `WorkerQueues.WorkerQueue.RunSettled` | src/lib/queue.ts:103-123 | The continuation performs the settle turn: processed, retry timer, or dead letter. |
| `WorkerQueues.WorkerQueue.RetryTimer` | src/lib/queue.ts:111-115 | The timer performs the fire turn. |
| `WorkerQueues.WorkerQueue.KeepsDraining` | src/lib/queue.ts:64-68 | With exact counters the loop condition is the negation of being drained. |
| `WorkerQueues.PumpTwice` | src/lib/queue.ts:82-123 | Pumping a pumped queue changes nothing, which is why re-entrance is harmless. |
| `Verdicts.JudgeMeaning` | src/lib/submission-jobs.ts:117-149 | The four statuses `compile_error`, `memory_limit_exceeded`, `time_limit_exceeded` and `security_error` are taken over. With any other: accepted iff all pass, wrong answer iff not all pass without an error, and otherwise the verdict the text of the first error calls for. |
| `Verdicts.ErrorMeaning` | src/lib/submission-jobs.ts:149-154 | An error text is stored iff some result has one, and it is that of the first result that has one. |
| `Verdicts.OutputMeaning` | src/lib/submission-jobs.ts:148-155 | The stored output is that of the first failing case, trimmed, and absent when accepted, when every case passes or when it is blank. |
| `Verdicts.TrimMeaning` | src/lib/submission-jobs.ts:150 | Trimming cuts blanks off both ends, stops at the first character that is none, and leaves nothing iff all are blank. |
| `Verdicts.RuntimeMeaning` | src/lib/submission-jobs.ts:141-153 | The number of cases (1 if there are none) times the stored runtime differs from the total runtime by at most half the number of cases: the average, a half rounded up. |
| `Verdicts.TotalRuntimeMeaning` | src/lib/submission-jobs.ts:141-142 | The total is additive over the cases, each counting its runtime or 0. |
| `Verdicts.JudgeReports` | src/lib/submission-jobs.ts:117-156 | Verdict, runtime, error and output together report the answer of the judge. |
| `SubmissionJobs.StepInv` | src/lib/submission-jobs.ts:62-187 | Every step of every worker on every replica keeps the system invariant: one claimant per judging row unless it was orphaned, and a carrier for each submitted queued row. |
| `SubmissionJobs.RunInv` | src/lib/submission-jobs.ts:62-187 | The system invariant over every interleaving. |
| `SubmissionJobs.NoSubmissionLost` | src/lib/submission-jobs.ts:83-168 | In every interleaving a submitted row that is queued has a job pending, waiting, in flight or dead-lettered after exactly `maxAttempts` tries; a judging row has its claimant in flight iff no claimant's database call failed. |
| `SubmissionJobs.SingleClaimant` | src/lib/submission-jobs.ts:93-102 | At most one worker over all replicas holds the claim on a row. |
| `SubmissionJobs.StepTerminal` | src/lib/submission-jobs.ts:182-185 | The unconditional terminal write never meets a terminal row; a row becomes terminal exactly by such a write. |
| `SubmissionJobs.OneTerminalWrite` | src/lib/submission-jobs.ts:182-185 | Terminal rows never change, and a run writes a row terminally once if it ends terminal without having started so, else never. |
| `SubmissionJobs.OrphanedByOneFailure` | src/lib/submission-jobs.ts:164-185 | A run orphans a row iff a database call of its claimant failed in it, which happens at most once. |
| `SubmissionJobs.OrphanStaysJudging` | src/lib/submission-jobs.ts:83-91 | An orphaned row stays judging over every continuation. |
| `SubmissionJobs.FailureLosesRowFromStart` | src/lib/submission-jobs.ts:62-185 | From any start, for any row and whatever the judge answers, the database call after the answer can fail, and then the row is judging after every continuation. |
| `SubmissionJobs.StepShrinks` | src/lib/submission-jobs.ts:62-187 | Every worker or timer step decreases the work left over all replicas. |
| `SubmissionJobs.Termination` | src/lib/submission-jobs.ts:62-187 | Once no new work arrives every interleaving is finite, with an explicit bound. |
| `SubmissionJobs.StuckIffQuiescent` | src/lib/submission-jobs.ts:62-187 | No deadlock: no worker can step iff every queue has drained. |
| `SubmissionJobs.QuiescentOutcome` | src/lib/submission-jobs.ts:62-187 | When drained a submitted row is terminal by its only terminal write, or queued with a job dead-lettered after `maxAttempts` tries, or judging iff orphaned. |
| `SubmissionAnswers.TerminalWasAnswered` | src/lib/submission-jobs.ts:109-185 | Over every run from a start a row that is terminal was answered by the judge, to a call that had claimed it: it holds verdict, runtime, error and output as that answer calls for, or `runtime_error` with the message if executing crashed. |
| `SubmissionAnswers.AnswerIsWritten` | src/lib/submission-jobs.ts:110-180 | The call that gets an answer goes on to write the update the answer calls for; until then the rows stay as they are. |
| `SubmissionAnswers.WriteIsStored` | src/lib/submission-jobs.ts:182-185 | That write stores the update in the row of the call, touches no other row, and throws when the row is gone. |
| `SubmissionAnswers.UnavailableRollsBack` | src/lib/submission-jobs.ts:157-167 | When the judge is unavailable the call writes no update and goes on to roll back. |
| `SubmissionAnswers.RollbackThrows` | src/lib/submission-jobs.ts:164-168 | Rolling back makes a judging row queued unless the database fails, touches no other row, and the call throws either way. |
| `SubmissionAnswers.FailureIsThrown` | src/lib/submission-jobs.ts:62-187 | A database call that fails changes no row and its error is what the call throws. |
| `SubmissionAnswers.ThrowingIsRetried` | src/lib/queue.ts:104-119 | A call that throws leaves its job with a retry timer, or dead-lettered with that error when its attempts are used up. |
| `SubmissionHandlers.SubmissionTable.UpdateMany` | src/lib/submission-jobs.ts:95-98 | Compare-and-set on one row: count 1 and changed iff it had the required status. |
| `SubmissionHandlers.SubmissionTable.Update` | src/lib/submission-jobs.ts:182-185 | Writes unconditionally, fails on a missing row. |
| `SubmissionHandlers.Invocation.Continue` | src/lib/submission-jobs.ts:62-187 | Between two awaits the handler does exactly one step of the protocol on its row and touches no other row. |
| `SubmissionHandlers.StartReplica` | src/lib/submission-jobs.ts:62 | A constructed queue with the handler registered is a replica every run may start from. |
| `SchedulerSpec.StepInv` | judge-service/scheduler.go:55-127 | Every channel operation, critical section, timeout and cancellation keeps channels, maps, counters and program counters in step. |
| `SchedulerSpec.RunInv` | judge-service/scheduler.go:55-127 | The same over every interleaving. |
| `SchedulerSpec.Safety` | judge-service/scheduler.go:69-121 | Global occupancy is the number of holders and at most `GlobalMax`, each IP's likewise with `PerIPMax`, and no receive in a release or back-out blocks. |
| `SchedulerSpec.CurrentInUseExact` | judge-service/scheduler.go:99-119 | `currentInUse` plus admissions not yet counted equals global tokens plus releases not yet uncounted; the exact condition for exceeding the cap. |
| `SchedulerSpec.CapKeptIffFewCalls` | judge-service/scheduler.go:69-121 | For positive caps `currentInUse` stays within `GlobalMax` over every run of the given calls iff there are at most `GlobalMax` of them. |
| `SchedulerSpec.CurrentInUseUnbounded` | judge-service/scheduler.go:69-119 | For all positive caps and every `k` some run from the start takes `currentInUse` to `GlobalMax + k`. |
| `SchedulerSpec.Progress` | judge-service/scheduler.go:69-121 | With positive caps some call has a step other than giving up iff some call is unfinished: no deadlock between the stages. |
| `SchedulerSpec.Termination` | judge-service/scheduler.go:69-127 | Finitely many calls take a bounded number of steps in every interleaving. |
| `SchedulerSpec.Quiescence` | judge-service/scheduler.go:69-127 | When all calls are over: all tokens back, no IP listed, `currentInUse` 0, and accepted plus rejected equals the calls. |
| `SchedulerSpec.OutcomeOfCall` | judge-service/scheduler.go:69-121 | A call that is over was refused, with the reason for which it gave up, iff it gave up, and served otherwise. |
| `Schedulers.Scheduler.constructor` | judge-service/scheduler.go:46-53 | Starts with empty channels, maps and counters. |
| `Schedulers.Scheduler.TakeSnapshot` | judge-service/scheduler.go:130-141 | Under the invariant the snapshot counts the calls in use, accepted and rejected, and `ActiveIPs` the addresses with a counted call. |
| `Schedulers.Scheduler.CountRelease` | judge-service/scheduler.go:113-119 | Undoes one admission and unlists the address when none is left. |
| `Schedulers.Call.Go` | judge-service/scheduler.go:69-121 | Each piece of `Acquire` and of the release closure performs the corresponding step. |
| `Schedulers.Call.GiveUp` | judge-service/scheduler.go:78-96 | A timeout or cancellation performs the give-up step of the stage it interrupts. |
| `Schedulers.Call.Release` | judge-service/scheduler.go:105-110 | Only the first call of the closure gets past the flag. |
| `TextEdits.OffsetForPosition` | src/lib/code-playback.ts:299-314 | The newline-scanning loop resolves a position to the offset the position lemmas speak about, clamped to the text. |
| `TextEdits.OffsetAnywhere` | src/lib/code-playback.ts:299-314 | For every line and column, existing or not: the start of that line (0 before the first, the end of the text past the last) plus the column, clamped to the text. |
| `TextEdits.EditMeaning` | src/lib/code-playback.ts:288-297 | An edit keeps what is before its start and after its end and puts the text between; a range that runs backwards changes nothing. |
| `TextEdits.OffsetOfPosition` | src/lib/code-playback.ts:299-314 | The position of an offset resolves back to that offset. |
| `TextEdits.PositionOfOffset` | src/lib/code-playback.ts:299-314 | A valid position is the position of the offset it resolves to. |
| `TextEdits.ValidPositionsAreOffsets` | src/lib/code-playback.ts:299-314 | The valid positions are exactly the positions of offsets. |
| `TextEdits.OffsetDependsOnPrefix` | src/lib/code-playback.ts:299-314 | Text behind a valid position does not influence how it resolves. |
| `TextEdits.CaretIsAdvance` | src/lib/code-playback.ts:316-330 | The collapsed caret is where reading the inserted text, newlines included, leads from the start of the range. |
| `TextEdits.CaretResolves` | src/lib/code-playback.ts:288-330 | In the edited text the caret is a valid position and resolves to start offset plus the length of the inserted text. |
| `TextEdits.UndoRestores` | src/lib/code-playback.ts:288-330 | Putting the removed text back over the span up to the caret is a valid edit and restores the text. |
| `TextEdits.UndoIffStartExists` | src/lib/code-playback.ts:288-330 | For a range with line and column at least 1 that does not run backwards, undo restores the text for every inserted text iff the range starts at a position of the text. |
| `TextEdits.SessionUndo` | src/lib/code-playback.ts:288-330 | Undoing a whole session of edits, last first, restores the starting text. |
| `EditOrders.SequentialIsSimultaneous` | src/lib/code-playback.ts:288-314 | Disjoint valid edits applied last position first equal the simultaneous replacement at the original offsets. |
| `EditOrders.PositionSurvives` | src/lib/code-playback.ts:288-330 | A position behind an edit still means the same place afterwards iff the caret the edit leaves is on the line of the edit's end and in its column, the column mattering only on that line. |
| `EditOrders.AscendingIffEndsMove` | src/lib/code-playback.ts:288-314 | Whatever the second change inserts, first position first equals making both at once iff both ends of the second range resolve, in the text after the first change, to where they have moved. |
| `EditOrders.AscendingOrderAgrees` | src/lib/code-playback.ts:288-314 | A condition that suffices and can be read off the first change: it leaves the caret on the line of its end, and in its column if an end of the second range is on that line. |
| `CodePlayback.Playback` | src/lib/code-playback.ts:236-263 | One frame per event, frame `i` showing the log replayed up to `i` at the effective speed. |
| `CodePlayback.FrameMeaning` | src/lib/code-playback.ts:236-263 | A frame is at its event's time divided by the speed and rounded down, a missing or non-positive speed counting 1, and shows what the event makes of the frame before, the first starting from the initial code with the caret at line 1, column 1. |
| `CodePlayback.SnapshotResets` | src/lib/code-playback.ts:245-246 | Nothing before a snapshot influences the code after it. |
| `CodePlayback.MultiChangeReplay` | src/components/editor/playback-recorder.tsx:152-168 | Replaying one multi-change notification recorded last position first makes all its changes at once. |
| `CodePlayback.DebounceEvents` | src/lib/code-playback.ts:191-215 | The in-place thinning loop computes the thinned log, or the log itself for a window of 0 or less. |
| `CodePlayback.ThinnedMeaning` | src/lib/code-playback.ts:198-214 | Thinning keeps, in order, exactly the events that are not a keystroke directly followed by another less than a window later. |
| `CodePlayback.ThinnedSubsequence` | src/lib/code-playback.ts:198-214 | The result is a subsequence ending with the last event. |
| `CodePlayback.ThinnedKeeps` | src/lib/code-playback.ts:198-214 | All events other than keystrokes are kept, in order. |
| `CodePlayback.ThinnedSpaced` | src/lib/code-playback.ts:198-214 | On a time-sorted log, neighbouring keystrokes end up at least `windowMs` apart. |
| `CodePlayback.DebounceIdempotent` | src/lib/code-playback.ts:191-215 | On a time-sorted log a second pass changes nothing. |
| `CodePlayback.DebounceIdentity` | src/lib/code-playback.ts:198-214 | The log is unchanged iff no keystroke directly follows another inside the window. |
| `CodePlayback.DebounceStable` | src/lib/code-playback.ts:191-215 | On any log a second pass changes nothing iff `windowMs <= 0` or no kept event would be absorbed by the end of the chain of absorbed events that follows it. |
| `CodePlayback.DebouncePreservesReplay` | src/lib/code-playback.ts:191-215 | The replayed code is preserved, for every log with these kinds and times of events and from every text, iff `windowMs <= 0` or every absorbed keystroke has a snapshot later in the log. |
| `EventCodec.DeserializeEvents` | src/lib/code-playback.ts:120-139 | The events of the readable rows, stably sorted by time. |
| `EventCodec.RowMeaning` | src/lib/code-playback.ts:124-136 | A row is read, as one event with what its payload says, iff its type is known and its payload has the fields of that type. |
| `EventCodec.AcceptedMeaning` | src/lib/code-playback.ts:92-104 | An event is accepted iff its type is known, its time a finite number from 0 on, and its payload complete; it then has that type, the time rounded down and what the payload says. |
| `EventCodec.FlushMeaning` | src/lib/code-playback.ts:106-113 | A flush is accepted iff it has at most 5000 events and each of them is accepted. |
| `EventCodec.SerializedCanonical` | src/lib/code-playback.ts:92-113 | A successful flush gives one canonical event per event, lines and columns at least 1. |
| `EventCodec.RoundTrip` | src/lib/code-playback.ts:106-139 | Reading back what was stored is the canonical log stably sorted by time, and the log itself iff it was sorted. |
| `EventCodec.CorruptRowDropped` | src/lib/code-playback.ts:124-136 | A corrupt row costs that row and nothing else. |
| `Sorting.SortIsOnlyStableSort` | src/lib/code-playback.ts:137 | Being sorted and keeping ties in order determines a stable sort, so the model does not depend on the algorithm. |
| `Sorting.SortedUnique` | src/lib/recommendations.ts:222-228 | Without ties a sorted list is determined by its elements alone. |
| `CacheSpec.StoreHoldsLatest` | src/lib/cache.ts:31-66 | After any operations every entry is the latest one set for its key and not deleted or cleared since, and the store is within capacity. |
| `CacheSpec.HitReturnsLatest` | src/lib/cache.ts:31-47 | A `get` that hits returns the latest value set, unexpired and not deleted since. |
| `CacheSpec.GetMeaning` | src/lib/cache.ts:31-47 | After any operations a `get` returns a value iff the key is listed and its latest `set` has not expired; it is that value. One hit or one miss is counted accordingly, a hit makes the key newest, a miss removes it. |
| `CacheSpec.LookupsCounted` | src/lib/cache.ts:31-66 | Hits plus misses is the number of gets since the last clear. |
| `CacheSpec.SizeBound` | src/lib/cache.ts:49-55 | `size <= maxEntries` over all runs iff `maxEntries >= 1`. |
| `CacheSpec.LeastRecentlyUsed` | src/lib/cache.ts:72-89 | After non-overlapping `remember` calls with nothing expired, the store lists exactly the most recently requested distinct keys in recency order. |
| `CacheSpec.RecentServedFromStore` | src/lib/cache.ts:72-89 | Over non-overlapping requests with nothing expired, a request is served without its loader iff its key is among the `Capacity` most recently requested ones, and then with the value last loaded for it. |
| `CacheSpec.LargerHoldsMore` | src/lib/cache.ts:49-55 | A larger cache holds every key a smaller one holds. |
| `CacheSpec.LruIffSetsNewest` | src/lib/cache.ts:31-66 | Over any run of get, set, delete and clear in which no get meets an expired entry, the store lists what a plain LRU cache lists after every prefix iff every set of a present key finds that key newest. |
| `CacheSpec.SetDoesNotRefresh` | src/lib/cache.ts:49-55 | In any full cache, writing the oldest key again and then a new one evicts the key just written, where a plain LRU cache evicts the next oldest. |
| `SingleFlight.StepListed` | src/lib/cache.ts:76-87 | Every step but a clear in mid-flight keeps: the in-flight map lists exactly the unsettled loaders under their keys. |
| `SingleFlight.StepServed` | src/lib/cache.ts:72-89 | Every step keeps: a caller that joined a loader gets that loader's outcome. |
| `SingleFlight.OneLoaderPerKey` | src/lib/cache.ts:72-89 | In every interleaving without a clear in mid-flight at most one loader per key is outstanding, joiners get its value or failure, and settled loaders are not listed. |
| `SingleFlight.CallMeaning` | src/lib/cache.ts:72-88 | A `remember` call returns a cached value at once, joins the listed loader, or starts one iff there is neither. |
| `SingleFlight.LoadedIsCached` | src/lib/cache.ts:79-83 | A loaded value is found under its key for `ttl` from then on; a failure leaves the cache alone. |
| `SingleFlight.OutcomeIsLoaders` | src/lib/cache.ts:79-88 | Over every run a flight carries the outcome its own loader settled with. |
| `SingleFlight.ClearSafeIffIdle` | src/lib/cache.ts:61-87 | `clear` is followed by two outstanding loaders of one key on some continuation that never again clears in mid-flight iff a flight was listed, whether still loading, loaded or stored. |
| `TTLCaches.TTLCache.constructor` | src/lib/cache.ts:23-29 | Starts empty and within capacity. |
| `TTLCaches.TTLCache.Get` | src/lib/cache.ts:31-47 | Delete and re-insert does the specified read, expiry and recency bump. |
| `TTLCaches.TTLCache.Set` | src/lib/cache.ts:49-55 | Evicts the oldest key only for a new key in a full store. |
| `TTLCaches.TTLCache.Delete` | src/lib/cache.ts:57-59 | Removes the key only. |
| `TTLCaches.TTLCache.Clear` | src/lib/cache.ts:61-66 | Empties store, in-flight map and counters. |
| `TTLCaches.TTLCache.RememberBegin` | src/lib/cache.ts:72-88 | The synchronous part of `remember` performs the call step: cached, joined, or a loader started. |
| `TTLCaches.TTLCache.RememberThen` | src/lib/cache.ts:80-83 | Stores the loaded value and passes it on. |
| `TTLCaches.TTLCache.TakeStats` | src/lib/cache.ts:91-101 | The size is the number of entries, within capacity, and `hitRate` times the lookups is the hits, 0 without lookups. |
| `FixedWindows.MemoryLimiter.MemoryCheck` | src/lib/rate-limit.ts:80-99 | One fixed-window step on the bucket of the key; other buckets are untouched. |
| `FixedWindows.MemoryLimiter.CollectGarbage` | src/lib/rate-limit.ts:17-26 | Leaves exactly the buckets whose window has not passed, unchanged. |
| `FixedWindows.RateLimiter.Allow` | judge-service/main.go:286-300 | The same fixed-window step with 30 requests per 60000 ms. |
| `FixedWindows.RateLimiter.CleanUp` | judge-service/main.go:271-280 | Leaves exactly the records whose window has not passed, unchanged. |
| `FixedWindows.CollectionInvisible` | src/lib/rate-limit.ts:17-26 | Over every monotone trace of one bucket, dropping it once its window has passed changes no decision. |
| `FixedWindows.KeptWhileLive` | src/lib/rate-limit.ts:22-24 | A bucket whose window lasts is kept as it is; one whose window has passed goes. |
| `FixedWindows.CollectionKeepsDecisions` | src/lib/rate-limit.ts:17-26 | For any buckets, key, limit and window, a call at or after a collection decides and leaves the same on the collected map as on the full one. |
| `FixedWindows.CollectAllInvisible` | judge-service/main.go:271-280 | Over every monotone trace of the whole map, with calls on any keys between collections, collecting changes no decision. |
| `FixedWindows.MapIsBuckets` | src/lib/rate-limit.ts:14-26 | The bucket of a key in the map is the one its own calls and the collections lead to, so the statements about one bucket hold for the map. |
| `FixedWindows.DecisionMeaning` | src/lib/rate-limit.ts:80-99 | A call is allowed iff it opens a window or the calls allowed in its window leave room; with how much room is left, when the window ends and when to retry. |
| `FixedWindows.RetrySecondsMeaning` | src/lib/rate-limit.ts:94 | The least whole number of seconds, at least 1, that covers the wait. |
| `FixedWindows.AtMostMaxPerWindow` | src/lib/rate-limit.ts:80-99 | Each window allows at most the limit, and its counter is the number allowed. |
| `FixedWindows.LimitKept` | src/lib/rate-limit.ts:84-88 | The limit is kept on every trace iff it is at least 1. |
| `FixedWindows.BelowTwiceMaxPerInterval` | src/lib/rate-limit.ts:80-99 | Any closed interval of a window's length sees at most `2 * max - 1` allowed calls. |
| `FixedWindows.BoundReached` | src/lib/rate-limit.ts:80-99 | For every limit and window some trace reaches that bound. |
| `SlidingLogs.LogLimiter.Check` | src/lib/rate-limit.ts:101-131 | Trim, append, count and renew on the stored set of the key, then the decision on the count. |
| `SlidingLogs.LogKnowsCalls` | src/lib/rate-limit.ts:110-114 | Within the window the log holds every call made, even though the key may expire. |
| `SlidingLogs.DecisionFromCalls` | src/lib/rate-limit.ts:107-131 | A call is allowed iff it and the calls of the last `windowMs` are at most `max`; `remaining` is what is left, a rejected call is told to retry after the window, and the window ends `windowMs` from now. |
| `SlidingLogs.ExpiryInvisible` | src/lib/rate-limit.ts:114 | The expiry of the key changes no decision. |
| `SlidingLogs.AtMostMaxPerInterval` | src/lib/rate-limit.ts:101-131 | Any half-open interval of length `windowMs` sees at most `max` allowed calls. |
| `Recommendations.MedianSplits` | src/lib/recommendations.ts:86-92 | At most half of the recent solves are easier than the median and at most half are harder. |
| `Recommendations.MedianOfMiddles` | src/lib/recommendations.ts:86-92 | The middle of the sorted ranks, or the mean of the two middle ones, a half rounded up. |
| `Recommendations.CountOverlap` | src/lib/recommendations.ts:160-167 | The tag loops count the problem's tags among those of the ten most recent solves. |
| `Recommendations.ScoreProblem` | src/lib/recommendations.ts:132-193 | For any weights the accumulating code computes the clamped sum of the signals, in 0..100 and 0 for a solved problem. |
| `Recommendations.ZeroMeansSolved` | src/lib/recommendations.ts:132-193 | With the default weights scores are in 0..100, zero iff solved, and at least 4 for every unsolved problem. |
| `Recommendations.DefaultSignals` | src/lib/recommendations.ts:108-193 | The default score of an unsolved problem spelled out in numbers: every boost, penalty and cap with its condition, clamped to 0..100. |
| `Recommendations.RankingDeterministic` | src/lib/recommendations.ts:212-251 | With distinct ids the list is the same for every permutation of the candidates. |
| `Recommendations.RankingEntries` | src/lib/recommendations.ts:218-229 | The list has `min(limit, unsolved)` entries, each an unsolved candidate with its score in 1..100. |
| `Recommendations.RankingBest` | src/lib/recommendations.ts:222-229 | Of two entries the earlier has the higher score, or at equal scores the higher acceptance rate (0 when absent), or at equal both the id that does not compare greater; and so stands every entry to every unsolved candidate left out. |
| `Recommendations.ReasonMeaning` | src/lib/recommendations.ts:231-250 | Every entry carries the first reason that applies: the first tag shared with the ten latest solves, one step up, created within 30 days, no solves yet, or general. |
| `Streaks.CurrentStreak` | services/analytics-python/app/queries.py:79-86 | The maximal run of positive cells at the end. |
| `Streaks.LongestStreak` | services/analytics-python/app/queries.py:89-98 | The length of the longest run of positive cells. |
| `Streaks.FoldIsRuns` | src/lib/daily-challenge.ts:58-95 | Folding the solves gives the trailing and the longest run of solved days and the last solved day. |
| `Streaks.FoldMatchesScans` | src/lib/daily-challenge.ts:58-95 | The folded streaks equal what the scans find: the longest in any covering cells, the current one in cells ending at the last solved day. |
| `Streaks.NoSolvesNoStreak` | src/lib/daily-challenge.ts:33-37 | Without solves both forms say 0. |
| `Streaks.EffectiveMatchesScan` | src/lib/daily-challenge.ts:102-116 | The displayed streak equals the scan of cells ending today iff the last solve was not yesterday. |
| `Streaks.EffectiveMeaning` | src/lib/daily-challenge.ts:102-116 | The displayed streak is the run of solved days up to the last solve if that was today or yesterday, and 0 otherwise. |
| `Streaks.EarlierSolveIgnored` | src/lib/daily-challenge.ts:76-84 | A solve on the last solved day or an earlier one advances nothing and breaks nothing. |
| `Streaks.DayStartMeaning` | src/lib/daily-challenge.ts:13-15 | A UTC day starts at a multiple of 24 hours and lasts as long. |
| `Streaks.AdvancesOncePerDay` | src/lib/daily-challenge.ts:72-94 | Each distinct solved day advances the streak exactly once. |
| `ContestRanks.RankSnapshot` | services/analytics-python/app/queries.py:183-185 | The enumeration loop computes the rank map of the stably sorted snapshot. |
| `ContestRanks.RanksAreBijection` | services/analytics-python/app/queries.py:183-185 | Unique users are ranked one-to-one onto 1..n. |
| `ContestRanks.RanksFollowScores` | services/analytics-python/app/queries.py:184-185 | A higher score has a better rank, and equal scores keep the order of the rows. |
| `ContestRanks.DeltasBetween` | services/analytics-python/app/queries.py:187-201 | One delta for each user of either snapshot, whatever order the set is walked in: both ranks, the places risen iff ranked in both, better current ranks first and users without one last. |
| `ContestRanks.DeltasSumToZero` | services/analytics-python/app/queries.py:187-200 | When both snapshots have the same users the deltas sum to zero. |
| `ContestRanks.GroupRows` | services/analytics-python/app/queries.py:177-179 | Each snapshot holds the rows of its time in order, and each time is a key once. |
| `ContestRanks.SnapshotsUnique` | services/analytics-python/app/queries.py:177-179 | Rows with one score per user and time give snapshots without repeated users. |
| `ContestRanks.ContestDeltas` | services/analytics-python/app/queries.py:174-201 | No deltas with fewer than two snapshot times, otherwise the deltas between the latest two. |
| `Histograms.RuntimeDistribution` | src/lib/analytics-helpers.ts:77-124 | The three cases: no valid runtime, all equal, and counted buckets over the range. |
| `Histograms.SafeBuckets` | src/lib/analytics-helpers.ts:77-81 | The number of buckets asked for, rounded down, and 1 for less than 1. |
| `Histograms.RuntimesMeaning` | src/lib/analytics-helpers.ts:82 | The valid runtimes are the finite non-negative ones, each as often as it occurs. |
| `Histograms.CountRuntimes` | src/lib/analytics-helpers.ts:108-116 | The counting loop over the array counts each runtime in one bucket. |
| `Histograms.BucketIndexFor` | src/lib/analytics-helpers.ts:134-148 | The first bucket whose bounds contain the runtime, or -1 when none does or the runtime is invalid. |
| `Histograms.HistogramTiles` | src/lib/analytics-helpers.ts:118-123 | The buckets tile the range of the runtimes. |
| `Histograms.CountsAddUp` | src/lib/analytics-helpers.ts:107-123 | The counts sum to the number of valid runtimes. |
| `Histograms.CoversIffCounted` | src/lib/analytics-helpers.ts:109-123 | A runtime is within the stated bounds of exactly the bucket it is counted in. |
| `Histograms.LookupAgrees` | src/lib/analytics-helpers.ts:107-148 | The lookup finds the bucket the runtime was counted in, and each count is the number of runtimes within the bucket's bounds. |
| `Histograms.DegenerateLookup` | src/lib/analytics-helpers.ts:98-105 | With equal runtimes the lookup returns the last bucket, so it agrees iff there is only one. |
| `Histograms.ComputePercentile` | src/lib/analytics-helpers.ts:31-47 | The loop counts the valid runtimes and those strictly slower, and rounds their percentage to one decimal. |
| `Histograms.PercentileMeaning` | src/lib/analytics-helpers.ts:43-46 | A percentile is a whole number of tenths nearest to the exact percentage. |
| `Histograms.FasterRanksHigher` | src/lib/analytics-helpers.ts:31-47 | A faster runtime never has a lower percentile, and percentiles are in 0..100. |
| `Histograms.PercentileMatchesHistogram` | src/lib/analytics-helpers.ts:35-123 | A runtime beats everything counted in later buckets than its own and nothing counted in earlier ones. |

## Left out

- Process crashes, deleted rows and database calls that take effect although they report failure: a failed call in the model has no effect.
- Handlers that throw synchronously or enqueue from inside the queue's own turn: every registered handler is an async function.
- Replicas that register the judging handler anew while running: importing the module registers it once.
- A non-numeric queue concurrency (NaN), and the delays of retry timers: a timer may fire at any time.
- The patterns that classify an error text: whether a text looks like a compile or memory error is an input.
- The payload a dead-lettered job is rewritten to carry: the model keeps the job and the error beside it.
- Logging, Redis, Prisma and HTTP themselves, including the fallback from the Redis limiter to the in-memory one.
- Several limiter instances interleaving inside one Redis pipeline, and clocks that run backwards or differ.
- Concurrent calls of one release closure, which the scheduler's documentation forbids; deadlines and contexts are nondeterministic steps.
- Cached `undefined`, loaders that throw synchronously and loaders that call back into the cache before their first await.
- Floating point: runtimes, rates, speeds and raw event numbers are exact reals; NaN inside a stored range or row time is not part of the model.
- Stored rows whose payload has a text or code of a type other than string appear as rows with that field missing.
- `playbackToArray`'s frame cap, `durationMs`, and stopping the generator early: they only add easy members.
- `recordDailySolveIfApplicable` and the SQL behind the heatmap and the standings: persistence around the modelled functions.
- Surrogate pairs: a character of the model is one UTF-16 code unit outside the surrogate range, so columns within a pair do not occur.
