# NestQuest verification

A Dafny model of the parts of NestQuest where state, time and interleaving meet, with proofs of what they
promise. NestQuest is a chore scheduler: a Python core keeps instances and an append-only completion log in
SQLite; around it sit a sweep scheduler, a set of locks, a provider key cache, a wire format with two parsers
and an admin panel in TypeScript.

Run `dafny verify dfyconfig.toml` in this directory. Every file is one module:

| file | models |
|---|---|
| `WallTime.dfy` | the scheduler's wall-clock arithmetic over zones with gaps and folds, at microsecond resolution |
| `SweepScheduler.dfy` | the protocol of the sleeping sweep loop and the settings writer over one lock and a wake flag |
| `MissedSweep.dfy` | the sweep and its database-level claim, run by any number of processes |
| `Transaction.dfy` | one `transaction()` of the SQLite wrapper: what is durable however its jobs end |
| `WrapperLock.dfy` | the wrapper's lock: any number of tasks, each cancelled at any await, over one connection |
| `ReentrantLock.dfy` | the shared connection lock and the task-reentrant wrapper swapped in over it |
| `Tables.dfy`, `Daos.dfy` | the chore tables and every operation on them, as steps and as statements |
| `Acceptance.dfy` | when each of these operations is accepted, and what it leaves |
| `CompletionLog.dfy` | derived state, on-time, and interleaved complete and un-complete calls |
| `History.dfy` | the history query |
| `JwksCache.dfy` | the provider key cache and its fetch rate |
| `Sse.dfy` | the event frames, and the page's and the client's incremental parsers |
| `RuleCodec.dfy` | the storage form of schedule rules |
| `IsoDates.dfy`, `Presence.dfy`, `Cycle.dfy` | strict dates, presence overrides, and a child's day in panel and engine |
| `ZoneInverse.dfy` | the panel's inverse of the wall clock |
| `Revision.dfy` | the bytes the build's revision is a hash of |
| `Options.dfy`, `Sorting.dfy`, `Texts.dfy` | an optional value; keyed sorting as Python and SQL do it; `strip` |

A component that changes in place is a class whose methods are proved against functions on its value
(`View()`, or the `db` field of `Daos.Database`). A protocol is a total step function (`Next` or `Step`, which
leaves the state alone when the step cannot happen) folded over a list of events by `Exec`; its theorems are
about the state after any list of events. Between two awaits a Python coroutine runs alone, so each stretch
between awaits is one event, and a cancellation is an event of its own.

## What the code does not keep

Each of these is proved, with the exact condition under which the promise holds, and with a run or a value that
breaks it where the condition does not name one:

- A settings write cancelled between its commit and `settings_changed` loses the wake-up, exactly when the loop
  is asleep, not yet woken, and for another plan (`InterruptLosesIff`, `InterruptCanLose`). The sweep is still
  never run for the old plan.
- An error in computing the delay ends the sweep loop, where every other failure is retried (`StopsIff`).
- A sweep cancelled after its claim has committed loses all it had to announce; the rows are never announced
  later. It loses something exactly when its claim wins and its answer is not empty (`InterruptionLosesIff`,
  `InterruptedSweepLoses`).
- A COMMIT or ROLLBACK that the executor refuses on the spot leaves the transaction open: `_settle_lifecycle`
  is never entered. The next transaction fails and ends it (`StrayIff`, `RefusedCommitStrays`).
- A block that catches an error with which SQLite itself rolled back goes on in autocommit: its later writes
  are durable and the earlier ones gone (`AtomicIff`, `KeepsOnlyTheLast`).
- A connection whose closing fails stays open after the wrapper has forgotten it (`HandlesWhenFree`,
  `RefusedCloseLeaks`).
- A gap that swallows a day's rollover and the rest of the day, and ends off the minute more than a minute before
  the next day's, makes the scheduler skip the rollover (`NextIffNoMidnightGap`, `MidnightGapExists`).
- A cancelled key fetch is recorded nowhere, so only forced fetches with a document cached stay spaced through
  cancellations (`EarlyStartIffCancelled`, `CancellationsAreUnbounded`).
- Forced key fetches keep `kid_refetch_seconds` exactly when the failure backoff is no shorter
  (`ForcedIntervalIffBackoffCovers`, `ForcedTooSoon`).
- A task that holds the plain connection lock and asks for it again waits for itself until it is cancelled; a
  task inside the wrapper never does (`NestedNeverBlocksIff`, `NestedPlainIsStuck`).
- An empty chunk makes the page's parser forget a pending carriage return, and is harmless exactly when there
  is none (`EmptyChunkIsNeutralIff`).
- `Date.UTC` reads the years 0 to 99 as 1900 to 1999, so the panel's weekday agrees with the engine's exactly
  from the year 100 on, and its week of the cycle by a condition on the anchor and the length (`WeekdayIff`,
  `PatternsAgreeIff`).
- East of Greenwich the panel takes the second of the two readings of a repeated time, where the scheduler
  takes the first (`TakesTheFirstIff`, `EastTakesTheSecond`).
- A path with a NUL lets one file feed the revision's hash the bytes of two (`PreimageIff`, `NulConfuses`).

## Model

| member | source | states |
|---|---|---|
| WallTime.FirstReading | api/scheduler.py:89-93 | in a regular zone `fold=0` gives the earliest instant that reads a wall time, whenever one does |
| WallTime.RoundTripIffReadable | api/scheduler.py:90-94 | the UTC round trip of the code succeeds exactly for wall times some instant reads |
| WallTime.ResolvedInRegularZone | api/scheduler.py:74-96 | the search succeeds, at the first readable minute at or after the target, and its instant is the earliest that reads it |
| WallTime.TargetIs | api/scheduler.py:84-87 | the search starts from the reading of the given day at the given minute |
| WallTime.SearchEndsIff | api/scheduler.py:88-96 | from the start of a gap the search gets to its end exactly if the gap is shorter than two days, and otherwise fails |
| WallTime.ResolveWallTime | api/scheduler.py:74-96 | the loop ends at the first minute that round-trips within the search bound, or reports that there is none |
| WallTime.DelaySeconds | api/scheduler.py:99-118 | with offsets under a day the loop terminates, with a positive delay to the instant of the first day not scheduled by now, or with the error of a day that has no valid time |
| WallTime.ScheduledAscends | api/scheduler.py:111-118 | later days' rollovers resolve no earlier, so none is overtaken |
| WallTime.EarlierDayDue | api/scheduler.py:111-118 | an earlier day's rollover can be due after now only through one gap that swallows everything from it to now's minute |
| WallTime.DelayIsNext | api/scheduler.py:99-118 | unless a gap swallows a day's rollover and the rest of that day and ends off the minute, more than a minute before the next day's, the instant is the least after now over all days, earlier ones included |
| WallTime.MidnightGapSkipsADay | api/scheduler.py:99-118 | at every such gap the delay computed as the clock jumps skips the swallowed rollover |
| WallTime.NextIffNoMidnightGap | api/scheduler.py:99-118 | in a zone, the next rollover is computed at every time exactly if no gap of the zone is such a one for that rollover |
| WallTime.MidnightGapExists | api/scheduler.py:99-118 | a regular zone with such a gap for a rollover at 23:45, and none for one at 00:30 |
| WallTime.DelayIsBounded | api/scheduler.py:99-118 | the delay is at most 24 hours plus the offset change in between and the rounding up to a minute |
| SweepScheduler.MissedSweepScheduler.SettingsChanged | api/scheduler.py:175-187 | the wake flag is set exactly when the settings differ from the recorded plan, and nothing else changes |
| SweepScheduler.SweepIsForStoredPlan | api/scheduler.py:24-36 | in every run a running sweep is for the plan of the stored settings, and no writer is inside the lock |
| SweepScheduler.SweepsIff | api/scheduler.py:228-283 | a loop that slept through sweeps exactly if the stored settings still have the zone and the rollover it slept for, and otherwise plans again, as it does when woken; a failed sleep backs off |
| SweepScheduler.SweepIsReached | api/scheduler.py:194-260 | from every reachable state with no writer inside the lock at most eleven steps of the loop, none failing, lead to a sweep for the stored plan |
| SweepScheduler.BacksOffIff | api/scheduler.py:210-222 | the loop backs off exactly when a read, the rollover, its sleep or its sweep fails, and never with the lock |
| SweepScheduler.SamePlanIff | api/scheduler.py:208 | two settings have one plan exactly if their zone and rollover agree |
| SweepScheduler.WriterGetsThrough | api/routes_admin.py:2358-2362 | a writer that gets the lock stores its settings, frees it, and wakes the loop exactly if they move the recorded plan |
| SweepScheduler.WriterTurnsBack | api/routes_admin.py:2358-2364 | one that is refused or cancelled before its commit leaves everything as it was |
| SweepScheduler.NoWakeupIsLost | api/scheduler.py:198-209 | whenever the loop waits and no writer is inside the lock, its plan is the stored one or the flag is set, in every run in which no cancelled write moved the plan after the last reading of one |
| SweepScheduler.MissedIsUnsaid | api/scheduler.py:182-209 | what the state remembers of missed notifications is exactly that some cancelled write moved the plan and no plan was read since |
| SweepScheduler.FallsAsleepFresh | api/scheduler.py:200-209 | a loop that goes to sleep is not woken yet and sleeps for the stored plan |
| SweepScheduler.UnchangedPlanSleeps | api/scheduler.py:182-187 | however many writers come and go, one that is asleep and unwoken is left so while they store no other plan |
| SweepScheduler.InterruptLosesIff | api/routes_admin.py:2358-2362 | a writer about to store, cancelled right after its commit, loses the wake-up exactly when the loop sleeps, unwoken, and for another plan than the new one; one that gets to notify never does |
| SweepScheduler.InterruptCanLose | api/routes_admin.py:2358-2362 | such a run exists for every write that moves the plan and for no other |
| SweepScheduler.LockIsReleasedSoon | api/scheduler.py:33-36 | a writer waits for one read or one sweep: each step of a loop that has the lock frees it or comes nearer to, and no writer's step takes it away |
| SweepScheduler.StopsIff | api/scheduler.py:194-260 | the loop ends exactly by `stop`, or when computing the delay of the plan it has read fails; every other failure leads to a retry |
| SweepScheduler.ExecKeepsInv | api/scheduler.py:194-260 | every run keeps the lock exclusive, the plan recorded and the wake-up owed |
| MissedSweep.MetaStateDao.Get | custom_components/nestquest/core/dao_meta.py:24-29 | the stored value of the key, or none |
| MissedSweep.MetaStateDao.Set | custom_components/nestquest/core/dao_meta.py:31-44 | the key has the value afterwards and no other key changes |
| MissedSweep.MetaStateDao.Claim | custom_components/nestquest/core/dao_meta.py:46-78 | true exactly when the stored value differed; the key has the value in either case and no other key changes |
| MissedSweep.ListMissedUnsweptIs | custom_components/nestquest/core/dao_instances.py:496-531 | the answer holds exactly the stored instances due before today and not before the watermark that have no completion event, each once, by due date and id |
| MissedSweep.RunMissedSweep | custom_components/nestquest/core/sweep.py:93-171 | the events are those of the past-due instances since the watermark without a completion event, in order, none when today is already claimed, also by another process in between; the watermark ends as today |
| MissedSweep.SweepAnnounces | custom_components/nestquest/core/sweep.py:93-171 | a run that nothing interrupts announces what its query found and leaves the watermark at today, or nothing if it was there |
| MissedSweep.WorldMoves | custom_components/nestquest/core/sweep.py:19-39 | days, insertions, completions and deletions around the sweeps; a run under way does not start again |
| MissedSweep.AnnouncedAtMostOnce | custom_components/nestquest/core/sweep.py:33-39 | in every interleaving of processes, completions, insertions and deletions no instance is announced twice |
| MissedSweep.OnlyFreeAreAnnounced | custom_components/nestquest/core/sweep.py:131-165 | in every interleaving what is announced, lost or held by a run had no completion event and was past due when some run queried |
| MissedSweep.NeverTwo | custom_components/nestquest/core/sweep.py:19-27 | no instance is two of announced, left out for its event, and lost |
| MissedSweep.ClaimCovers | custom_components/nestquest/core/sweep.py:19-27 | every surviving instance due before the watermark was announced, or has a completion event the winning query saw, or was lost by an interrupted claimant; only past-due ones are announced |
| MissedSweep.LostIsNeverAnnounced | custom_components/nestquest/core/sweep.py:123-126 | nothing is lost without an interruption, and what is lost is never announced in any continuation |
| MissedSweep.InterruptionLosesIff | custom_components/nestquest/core/sweep.py:153-165 | an interruption loses rows exactly when the claim wins and the answer is not empty |
| MissedSweep.InterruptedSweepLoses | custom_components/nestquest/core/sweep.py:153-165 | a run of six steps after which a past-due instance is behind the watermark, and unannounced in every continuation |
| MissedSweep.RowsAreNew | custom_components/nestquest/core/sweep.py:131-165 | what a run that can still win holds was neither announced nor lost before |
| MissedSweep.ExecKeepsInv | custom_components/nestquest/core/sweep.py:93-171 | every run keeps watermark, runs, announcements and coverage in step |
| Transaction.NestQuestDatabase.EnsureNoStrayTransaction | custom_components/nestquest/core/db.py:336-360 | the cleanup job leaves the connection as specified however it ends |
| Transaction.NestQuestDatabase.SettleLifecycle | custom_components/nestquest/core/db.py:311-334 | one lifecycle job and its cleanup leave the connection as specified and raise exactly when the job failed or was cancelled |
| Transaction.NestQuestDatabase.RunBlock | custom_components/nestquest/core/db.py:283-284 | the block's writes reach the connection in order up to the first uncaught error |
| Transaction.NestQuestDatabase.Transaction | custom_components/nestquest/core/db.py:244-309 | refuses a second transaction and a closed connection; otherwise runs begin, block and end and always gives up ownership |
| Transaction.BlockWrites | custom_components/nestquest/core/db.py:244-309 | a block ends with all its writes pending and none leaked, or with the transaction gone |
| Transaction.NormalExitCommitsAll | custom_components/nestquest/core/db.py:298-306 | normal exit means every write is durable and the connection is outside a transaction |
| Transaction.NormalIff | custom_components/nestquest/core/db.py:244-309 | the exit is normal exactly if BEGIN and COMMIT are done and not cancelled, the block does not raise, and each write is done and not cancelled or has its error caught, SQLite never rolling back |
| Transaction.CommitsOrRollsBack | custom_components/nestquest/core/db.py:283-309 | with nothing else going wrong, a block that ends normally has all its writes in the file, and one that raises none and its error goes on |
| Transaction.KeptIs | custom_components/nestquest/core/db.py:244-309 | what the file gains, by the fates of the jobs alone: all writes if the COMMIT takes effect, otherwise those after a rollback of SQLite's own; what a stray transaction holds |
| Transaction.DurableAfter | custom_components/nestquest/core/db.py:244-309 | on every exit the durable rows are the old ones, then all writes of the block or only those that ran after SQLite rolled back on its own |
| Transaction.AtomicIff | custom_components/nestquest/core/db.py:244-309 | all or nothing exactly unless SQLite rolled back under a statement whose error the block caught, with effective writes before it and after it |
| Transaction.BlockByFates | custom_components/nestquest/core/db.py:283-296 | from the fates of a block's writes alone: its transaction is open at the end exactly if none executed aborts it, and what ran in autocommit is what comes after the abort |
| Transaction.KeepsOnlyTheLast | custom_components/nestquest/core/db.py:244-309 | a block of three writes of which the second aborts and is caught: only the third is durable |
| Transaction.UncaughtNeverLeaks | custom_components/nestquest/core/db.py:283-296 | a block that lets its errors out is never in that case |
| Transaction.StrayIff | custom_components/nestquest/core/db.py:311-360 | the connection ends inside a transaction exactly if the cleanup failed, or no executed write aborted it and the executor refused the COMMIT or ROLLBACK |
| Transaction.RefusedCommitStrays | custom_components/nestquest/core/db.py:311-334 | one write and a refused COMMIT leave the write pending in an open transaction |
| Transaction.NextTransactionHeals | custom_components/nestquest/core/db.py:336-360 | a transaction left open fails the next one, whose cleanup ends it without a trace |
| WrapperLock.JobsAreSerialized | custom_components/nestquest/core/db.py:107-124 | in every run at most one job is with the executor, the lock is not free while there is one, and its holder owns it |
| WrapperLock.OpenRuns | custom_components/nestquest/core/db.py:126-169 | an open whose turn has come adopts the connection its job makes, or none if that fails |
| WrapperLock.FailedOpenLeaves | custom_components/nestquest/core/db.py:143-169 | a connect that fails without closing what it opened leaves that open, and the lock free |
| WrapperLock.CancelledOpenCloses | custom_components/nestquest/core/db.py:151-169 | a cancelled open closes the connection it made before it gives up the lock |
| WrapperLock.StatementRuns | custom_components/nestquest/core/db.py:171-187 | a statement runs one job under the lock, none without a connection, and gives the lock back |
| WrapperLock.CloseRuns | custom_components/nestquest/core/db.py:405-429 | a close gives up the connection at once and its job closes it |
| WrapperLock.BeginRuns | custom_components/nestquest/core/db.py:244-282 | a transaction enters its block once BEGIN is done, and is over if the executor refuses it |
| WrapperLock.BlockRuns | custom_components/nestquest/core/db.py:107-124 | a statement of the block runs without the lock being asked for and comes back to the block |
| WrapperLock.EndRuns | custom_components/nestquest/core/db.py:283-309 | the block's end sends COMMIT, or ROLLBACK if it raised, and then gives up ownership and the lock |
| WrapperLock.FailedLifecycleCleansUp | custom_components/nestquest/core/db.py:311-360 | a lifecycle job that fails, or whose task was cancelled, is followed by the cleanup under the same lock; after that the transaction is over |
| WrapperLock.QueuesIff | custom_components/nestquest/core/db.py:107-267 | a task queues for the lock exactly if it neither begins a second transaction nor opens an open connection |
| WrapperLock.RefusedGivesBack | custom_components/nestquest/core/db.py:107-187 | an operation whose job the executor refuses gives the lock back, a close also the connection |
| WrapperLock.UnsettledJobHoldsItsTask | custom_components/nestquest/core/db.py:362-403 | a job that has not settled keeps its task waiting, whatever cancels it |
| WrapperLock.OnlyTheOwnerBypasses | custom_components/nestquest/core/db.py:107-124 | a job started without taking the lock belongs to the task that holds it, and, unless it follows a job of the same operation, to the transaction's |
| WrapperLock.HandlesWhenFree | custom_components/nestquest/core/db.py:126-169 | while the lock is free the open SQLite connections are one if connected and none otherwise, exactly in the runs in which no closing fails or is refused and no failing connect leaves one behind |
| WrapperLock.LeakedIff | custom_components/nestquest/core/db.py:126-429 | connections are lost exactly by those events |
| WrapperLock.RefusedCloseLeaks | custom_components/nestquest/core/db.py:405-429 | after an open and a close the executor refuses, the wrapper has no connection and one is open |
| WrapperLock.EnterKeepsInv | custom_components/nestquest/core/db.py:107-124 | taking the lock, with the executor refusing or not, keeps the invariant |
| WrapperLock.ResumeKeepsInv | custom_components/nestquest/core/db.py:155-169 | leaving the settlement loop, cancelled or not, keeps it |
| WrapperLock.ExecKeepsInv | custom_components/nestquest/core/db.py:107-429 | every run keeps jobs serialized, ownership exclusive and every open connection accounted for |
| ReentrantLock.TaskReentrantLock.Acquire | custom_components/nestquest/core/completion.py:185-193 | the owner goes one deeper, anybody else becomes the owner at depth one and locks the inner lock |
| ReentrantLock.TaskReentrantLock.Release | custom_components/nestquest/core/completion.py:195-201 | refused without change to all but the owner; the inner lock is freed exactly at the last release |
| ReentrantLock.LockTable.ConnectionLock | custom_components/nestquest/core/dao_children.py:73-81 | the shared object if there is one, else a new lock that is shared from then on |
| ReentrantLock.LockTable.ReentrantConnectionLock | custom_components/nestquest/core/completion.py:211-229 | one wrapper for all, around the very lock tasks may hold |
| ReentrantLock.MutualExclusion | custom_components/nestquest/core/completion.py:174-229 | in every run at most one task is inside, whichever object it came in by; the depth is the number of blocks the owner is in, positive exactly while there is one |
| ReentrantLock.NestedNeverBlocksIff | custom_components/nestquest/core/completion.py:185-193 | a task inside that asks again goes on at once exactly if it came in by the wrapper, and nobody else can go in |
| ReentrantLock.GoesInIff | custom_components/nestquest/core/completion.py:185-193 | in every run a waiting task can go in exactly if nobody is inside or it is itself, through the wrapper |
| ReentrantLock.AsksFor | custom_components/nestquest/core/completion.py:211-229 | a lookup gives the table's object, the reentrant one the wrapper from then on, and changes nobody's hold |
| ReentrantLock.GoesInAndOut | custom_components/nestquest/core/completion.py:185-208 | going in adds a block, leaving takes it back, and after the last nobody is inside; giving up the wait changes nothing else |
| ReentrantLock.ReleaseIsByOwner | custom_components/nestquest/core/completion.py:195-208 | no `async with` block is ever refused its release |
| ReentrantLock.PlainHolderDeadlocks | custom_components/nestquest/core/dao_children.py:73-81 | a holder of the plain lock that asks again stays where it is in every run that does not cancel it |
| ReentrantLock.NestedPlainIsStuck | custom_components/nestquest/core/dao_children.py:73-81 | a task that takes the plain lock and then asks for it, or for the wrapper, waits for itself |
| ReentrantLock.ExecKeepsInv | custom_components/nestquest/core/completion.py:174-229 | every run keeps one lock, one wrapper around it, and each task's blocks consistent with both |
| Tables.ReferencesExist | custom_components/nestquest/core/schema.py:140-143 | after any operations every event's instance, every instance's definition and child and every definition's rule exist, every row fits its constraints and no key has two rows |
| Tables.HistoryIsKept | custom_components/nestquest/core/dao_instances.py:620-630 | over any operations the log only grows at its end, and an instance it speaks of is never changed or deleted |
| Tables.NextKeeps | custom_components/nestquest/core/dao_rules.py:11-36 | each of the operations keeps both |
| Tables.WrittenKeeps | custom_components/nestquest/core/dao_instances.py:298-314 | the conflict path of an upsert keeps keys unique and rows with events unchanged |
| Tables.DeleteDefinitionKeeps | custom_components/nestquest/core/dao_rules.py:1163-1209 | deleting a definition without history takes all of its rows, its rule if nothing else uses it, and no row an event refers to |
| Tables.DeleteFutureKeeps | custom_components/nestquest/core/dao_instances.py:533-617 | neither form of the delete touches an instance with an event |
| Tables.LogUnchanged | custom_components/nestquest/core/dao_instances.py:620-630 | nothing but the append writes to the log |
| Tables.InsertLinksAre | custom_components/nestquest/core/dao_rules.py:778-784 | accepted links are the old ones and one for each child given |
| Tables.InsertWindowsAre | custom_components/nestquest/core/dao_rules.py:785-793 | accepted windows are the old ones and those given, with their due times and valid names |
| Tables.ReplaceLinksAre | custom_components/nestquest/core/dao_rules.py:932-960 | a definition's links become exactly the children given and nobody else's change |
| Tables.WrittenIsExact | custom_components/nestquest/core/dao_instances.py:298-314 | an upsert changes one row, the key's own, of which only due time and stamp, or a new one under an id no row ever had |
| Tables.CreateIsExact | custom_components/nestquest/core/dao_rules.py:716-807 | a creation makes one definition with exactly the rule, children and windows given, under ids never used, and changes nothing else |
| Tables.MaterializableAfter | custom_components/nestquest/core/dao_rules.py:1151-1364 | each change of activity, links and windows stops, or lets start, exactly the tuples it names |
| Tables.TupleSurvivesIff | custom_components/nestquest/core/dao_rules.py:809-1364 | whatever operation is done, edits, creations and deletions included, a materializable tuple stays so exactly unless the operation unlinks, re-times or drops it, or deactivates or deletes what it needs |
| Tables.StandsIff | custom_components/nestquest/core/dao_rules.py:809-1364 | all materializable tuples of a scope stay so exactly if the operation drops none of them |
| Tables.SparesStands | custom_components/nestquest/core/dao_rules.py:809-1364 | so does every operation that by its arguments takes nothing of the scope away, an edit that gives every child and every window with its due time again included |
| Tables.EditIsExact | custom_components/nestquest/core/dao_rules.py:809-930 | an accepted edit writes exactly the title, rule, windows and assignees given, and touches no instance, event or other definition |
| Tables.DeleteFutureFits | custom_components/nestquest/core/dao_instances.py:533-617 | after the delete no event-free instance of the scope is left at or after the clamped cutoff, and no other row went |
| Tables.NextStillFits | custom_components/nestquest/core/dao_instances.py:321-436 | one more operation, a walker's stale upsert included, that keeps the tuples of the scope materializable leaves every future event-free instance of the scope fitting the live configuration |
| Tables.FutureStaysValid | custom_components/nestquest/core/dao_instances.py:332-373 | from such a delete on, through any operations that take nothing of the scope away, every event-free instance due at or after the cutoff has an active definition, an active assigned child, a declared window and its live due time, one row per key |
| Tables.UpsertStillFitsIff | custom_components/nestquest/core/dao_instances.py:200-319 | the generic upsert keeps that exactly when the tuple it writes could have been walked |
| Acceptance.UpsertIff | custom_components/nestquest/core/dao_instances.py:200-319 | the generic upsert writes exactly for a valid window, a date not past, an existing definition, an assigned child, and a key whose row has no event |
| Acceptance.UpsertIfValidIff | custom_components/nestquest/core/dao_instances.py:321-436 | the walk's is refused for a bad window or a past date only, and writes exactly for a live tuple whose row has no event |
| Acceptance.DeleteFutureIs | custom_components/nestquest/core/dao_instances.py:533-617 | gone are exactly the event-free instances of the definition or child due from the cutoff and from today on |
| Acceptance.AppendIff | custom_components/nestquest/core/dao_instances.py:635-750 | an event is taken exactly for a stored instance and its own child, one actor of its kind, and, if a completion, its timing |
| Acceptance.CreateDefinitionIff | custom_components/nestquest/core/dao_rules.py:659-714 | a definition is created exactly over an existing rule for active children, none twice, under an id no row ever had |
| Acceptance.CreateWithRuleIff | custom_components/nestquest/core/dao_rules.py:716-807 | with its rule and windows exactly if the rule may be stored, the children are active and distinct and the windows may be declared |
| Acceptance.EditIff | custom_components/nestquest/core/dao_rules.py:809-960 | an edit is accepted exactly if the definition exists, the given children are active and no unlinked one is given twice, and the given rule and windows may be stored |
| Acceptance.DeleteDefinitionIs | custom_components/nestquest/core/dao_rules.py:1163-1209 | deleted exactly if it exists and no event is of an instance of it; gone are its instances, links and windows, its rule if nobody else has it, and nothing else |
| Acceptance.DeleteRuleIs | custom_components/nestquest/core/dao_rules.py:604-641 | a rule goes exactly if no definition has it |
| Acceptance.LinkingIs | custom_components/nestquest/core/dao_rules.py:1211-1364 | a link takes an active child and a definition, a window declaration a valid name and time, and removing either leaves all others |
| Acceptance.RowWritesAre | custom_components/nestquest/core/dao_rules.py:548-602 | activity and rule columns are set on the named row only, and a rule that may not be stored is refused |
| Acceptance.RuleRowIff | custom_components/nestquest/core/schema.py:228-248 | a rule's row is stored exactly with ISO dates in order, numbers in range, and the columns its type needs |
| Acceptance.NewRowsAre | custom_components/nestquest/core/dao_rules.py:462-494 | a new child, rule or instance comes under the next id, which no row had, and changes nothing else |
| Acceptance.IsTimeIff | custom_components/nestquest/core/dao_rules.py:83-100 | a due time is accepted exactly if it is the HH:MM of a minute of the day |
| Daos.QuestInstancesDao.Upsert | custom_components/nestquest/core/dao_instances.py:200-319 | does what the step does, checking the past both when called and under the lock, and returns the row as stored |
| Daos.QuestInstancesDao.UpsertIfValid | custom_components/nestquest/core/dao_instances.py:321-436 | the same for the walk: skipped without change exactly when the tuple is not materializable or its row has an event |
| Daos.QuestInstancesDao.DeleteFutureUncompleted | custom_components/nestquest/core/dao_instances.py:533-617 | does what the step does and reports the rows deleted and the cutoff applied |
| Daos.CompletionEventsDao.AppendEvent | custom_components/nestquest/core/dao_instances.py:635-750 | appends one row or, when a check fails, nothing |
| Daos.CompletionEventsDao.GetLatestForInstance | custom_components/nestquest/core/dao_instances.py:820-834 | the last event of the instance, none exactly when it has none |
| Daos.QuestDefinitionsDao.ReplaceWindows | custom_components/nestquest/core/dao_rules.py:897-912 | the loop of inserts declares exactly the given windows or fails |
| Daos.QuestDefinitionsDao.ReplaceAssignees | custom_components/nestquest/core/dao_rules.py:932-960 | the two loops make the links exactly the given children or fail |
| Daos.QuestDefinitionsDao.Edit | custom_components/nestquest/core/dao_rules.py:809-930 | all of the edit or nothing, whichever statement fails |
| Daos.QuestDefinitionsDao.DeleteIfNoHistory | custom_components/nestquest/core/dao_rules.py:1163-1209 | deletes, keeps or reports absence as the step says |
| CompletionLog.OnTimeIff | custom_components/nestquest/core/completion.py:146-171 | a completion is on time exactly when its date and time are not after the due date's due time, or its end |
| CompletionLog.DueMinutesIff | custom_components/nestquest/core/completion.py:170-171 | a due time reads as hours and minutes of one or two digits each |
| CompletionLog.DerivedIff | custom_components/nestquest/core/completion.py:107-128 | done exactly after a completion, otherwise missed exactly from the day after the due date on |
| CompletionLog.ActorIff | custom_components/nestquest/core/completion.py:249-283 | accepted are a user with an id that is not blank and no profile, stripped, and a panel with a profile and no user |
| Texts.StripIff | custom_components/nestquest/core/completion.py:267-274 | `strip` leaves the text that has no space at its ends and is surrounded by spaces |
| CompletionLog.CompleteInstance | custom_components/nestquest/core/completion.py:399-458 | returns and writes what the specified call does |
| CompletionLog.UncompleteInstance | custom_components/nestquest/core/completion.py:461-518 | the same for the reversal |
| CompletionLog.RaisesIff | custom_components/nestquest/core/completion.py:146-518 | a call raises exactly for a bad actor, an unknown instance, or, when it would append, a tapped child that is unknown or a due date whose due time has no clock to compare with or is not a time |
| CompletionLog.ReturnsDerivedState | custom_components/nestquest/core/completion.py:107-128 | a call that returns leaves the instance in the state it returns, done exactly after a complete, and says `appended` exactly when it wrote |
| CompletionLog.TwiceIsOnceAndBack | custom_components/nestquest/core/completion.py:399-518 | repeating a call appends nothing; reversing one that appended restores the derived state for every today |
| CompletionLog.RecordsWhatHappened | custom_components/nestquest/core/completion.py:427-458 | a call that appended wrote the instance's child, the validated actor, the stamp and, for a complete, whether its moment met the deadline |
| CompletionLog.LogAlternates | custom_components/nestquest/core/completion.py:399-518 | in every interleaving each instance's log alternates from completed, and completes less un-completes that wrote is 1 if it is done and 0 if not |
| CompletionLog.CallRuns | custom_components/nestquest/core/completion.py:399-518 | a call that finds the lock free and is let run does what the specified call does, and gives the lock back |
| CompletionLog.CallLeaves | custom_components/nestquest/core/completion.py:399-518 | one that is cancelled before its event is written leaves tables and outcomes alone and the lock free |
| CompletionLog.AppendedIffGrew | custom_components/nestquest/core/completion.py:369-396 | a step grew the log, by one event of that instance and kind, exactly if the outcome it records says appended |
| CompletionLog.LatestKindIs | custom_components/nestquest/core/dao_instances.py:820-834 | the latest event is the last of the instance's own log |
| CompletionLog.ExecKeepsInv | custom_components/nestquest/core/completion.py:399-518 | every run keeps each call that is about to write holding the lock with the event whose turn it is |
| History.AnswerIs | custom_components/nestquest/core/history.py:262-368 | the answer ascends in due date, instance and event and holds exactly the listed rows |
| History.SortsToAnswer | custom_components/nestquest/core/history.py:367-368 | whatever order the rows are collected in, sorting gives that answer |
| History.ListedJoins | custom_components/nestquest/core/history.py:339-353 | the assertions on the instance and the definition cannot fail |
| History.RangeSplits | custom_components/nestquest/core/history.py:12-18 | the answer over a range is that over its first part and then that over the rest, for every filter |
| History.ReversalsAreAFilter | custom_components/nestquest/core/history.py:335-338 | `reversals` is the order-preserving filter of `all` |
| History.RowsNameTheirChildren | custom_components/nestquest/core/history.py:162-221 | a row shows the name of the child whose id it shows, and the tapped child as a panel event's actor; the actor's fallbacks are never reached |
| History.RowsShow | custom_components/nestquest/core/history.py:180-221 | each column of a row is the instance's or the event's own, the title the live one, and the sort key its date, instance and event |
| History.ListedIff | custom_components/nestquest/core/history.py:305-353 | listed are the events of instances due in the range, for `reversals` the un-completions, for `missed` the instances past due whose last event is no completion |
| History.MissedIsDerived | custom_components/nestquest/core/history.py:305-329 | `missed` has a row for exactly the instances of the range due before today that have no event or were last un-completed |
| History.ListMissedForChild | custom_components/nestquest/core/completion.py:521-549 | exactly the child's instances of the range due before today that have no event or were last un-completed, each once, by due date and id |
| History.ChildListingIs | custom_components/nestquest/core/dao_instances.py:474-494 | a child's listing holds exactly its rows of the range, each once, instances by due date and id, events by instance and place |
| History.ChildRows | custom_components/nestquest/core/history.py:331-366 | one pass over a child's events, filter and title cache included, collects the entries of the rows that pass |
| History.RowAt | custom_components/nestquest/core/history.py:339-366 | the pair collected is the entry of its place, with the definition's live title from the cache |
| History.QueryHistory | custom_components/nestquest/core/history.py:262-368 | refuses a filter other than the three and an inverted range, and otherwise returns the rows of the answer |
| KeyCache.JwksCache.FreshDocument | api/auth.py:223-233 | the cached document exactly while it is inside the TTL |
| KeyCache.JwksCache.BackoffError | api/auth.py:235-245 | the recorded fault exactly while the backoff is open |
| KeyCache.JwksCache.GetUnlocked | api/auth.py:179-206 | what is decided before the lock is what the whole decision would be |
| KeyCache.JwksCache.GetLocked | api/auth.py:207-221 | the decision under the lock, and the stamp of a forced fetch |
| KeyCache.JwksCache.FetchFailed | api/auth.py:266-269 | a failure opens the backoff and keeps the document |
| KeyCache.JwksCache.FetchSucceeded | api/auth.py:270-274 | a success stores the document and closes the backoff |
| KeyCache.FetchesAreApart | api/auth.py:138-146 | in every run, cancelled fetches included, two forced starts are the smaller of refetch interval and backoff apart, two unforced ones the smaller of TTL and backoff, if a fetch ended in between; a forced start with a document cached is the interval after every earlier forced one |
| KeyCache.RecordStands | api/auth.py:254-275 | the fetches recorded are not rewritten, and each document was fetched by a start of its own |
| KeyCache.FetchesIff | api/auth.py:179-252 | outside the backoff a forced get fetches exactly without a document or the interval after the last forced fetch, an unforced one exactly without a document inside the TTL; in the backoff a forced one falls back on the document and any other raises the fault |
| KeyCache.CanStartIff | api/auth.py:179-252 | in every run an idle cache fetches at a time exactly if the backoff and the interval, or the TTL, are over by then |
| KeyCache.EarlyStartIffCancelled | api/auth.py:264-269 | after a start in any reachable state the next one of its kind can come inside that gap exactly if the fetch is cancelled inside it, and not if it was forced with a document cached |
| KeyCache.CancellationsAreUnbounded | api/auth.py:264-269 | there is a run with any number of starts at one instant, all but the last cancelled |
| KeyCache.ForcedIntervalIffBackoffCovers | api/auth.py:247-252 | the refetch interval itself is kept in all runs without a cancelled fetch exactly when the backoff is no shorter |
| KeyCache.ForcedTooSoon | api/auth.py:247-252 | for every shorter backoff a run with two forced starts inside the interval |
| KeyCache.UnforcedIsFresh | api/auth.py:148-150 | an unforced get is served only a document fetched less than the TTL before |
| KeyCache.RateIsBounded | api/auth.py:138-146 | the fetches of each kind in a window of any length are bounded by it, cancelled ones not counted; forced ones made with a document cached are bounded even so |
| KeyCache.WindowIsApart | api/auth.py:138-146 | starts kept apart are counted by the length of the window they are in |
| Sse.SseParser.Push | admin/src/api/events.ts:69-81 | a chunk's events and the state after it are those of the specified step |
| Sse.SseParser.TakeLines | admin/src/api/events.ts:76-79 | the loop over the complete lines keeps the frame and the events of all of them |
| Sse.SseParser.Line | admin/src/api/events.ts:83-93 | one line sets its field, or ends the frame |
| Sse.SseParser.Dispatch | admin/src/api/events.ts:95-110 | a frame ends with its event, or with none, and is forgotten |
| Sse.EventFieldSets | admin/src/api/events.ts:83-93 | the event field is set, with or without a colon and one space after it; a comment changes nothing |
| Sse.DataFieldAdds | admin/src/api/events.ts:83-93 | each data field adds a line |
| Sse.OtherFieldsAreIgnored | admin/src/api/events.ts:83-93 | any other field changes nothing |
| Sse.BlankLineIs | admin/src/api/events.ts:95-110 | a blank line emits an event exactly for one of the four types whose data parses, and ends the frame |
| Sse.JoinSplits | admin/src/api/events.ts:95-110 | the data lines are joined by line feeds |
| Sse.SplitIsFeeding | admin/src/api/events.ts:69-81 | splitting a text at CR, LF and CRLF comes to feeding it character by character |
| Sse.PushIsFeeding | admin/src/api/events.ts:69-81 | so does pushing a chunk onto any parser, a carriage return pending or not |
| Sse.PushConcat | admin/src/api/events.ts:69-81 | two non-empty chunks, cut anywhere, give the events and the state of their concatenation |
| Sse.ChunkingDoesNotMatter | admin/src/api/events.ts:62-81 | so do any number of them |
| Sse.EmptyChunkIsNeutralIff | admin/src/api/events.ts:69-75 | an empty chunk is harmless exactly when no carriage return is pending |
| Sse.PageRecoversEvents | admin/src/api/events.ts:62-110 | from a stream cut anywhere the page recovers exactly the events of the frames that arrived whole |
| Sse.PageRecoversFromChunks | api/sse.py:30-35 | and all of them from the whole stream, under any chunking into non-empty chunks |
| Sse.CompletedFits | api/sse.py:31-35 | the frames counted as whole are all that fit, and no more |
| Sse.StreamReader.Take | custom_components/nestquest/api_client.py:331-363 | a chunk's events, and whether the reader then raises, are those of the specified step |
| Sse.StreamReader.TakeLine | custom_components/nestquest/api_client.py:342-363 | so are one line's |
| Sse.ClientLineIs | custom_components/nestquest/api_client.py:342-363 | the client's fields are stripped; a blank line yields the event of a frame with a type, or raises if its data does not parse; other lines change nothing |
| Sse.ClientConcat | custom_components/nestquest/api_client.py:338-342 | two chunks give the events and the state of their concatenation, unless the first already raised |
| Sse.ClientChunkingDoesNotMatter | custom_components/nestquest/api_client.py:338-342 | so do any number of them, empty ones included |
| Sse.ClientRecoversEvents | custom_components/nestquest/api_client.py:331-363 | the client recovers the same events from the same cut stream and never raises |
| Sse.ClientRecoversFromChunks | custom_components/nestquest/api_client.py:331-363 | and from any chunking of the whole stream |
| RuleCodec.DecodeEncode | custom_components/nestquest/core/dao_rules.py:279-350 | decoding the stored form of any well-formed rule gives the rule back, the two monthly shapes included |
| RuleCodec.FromStorageIff | custom_components/nestquest/core/dao_rules.py:308-459 | a row decodes to a rule exactly if the rule is well formed, type and columns are the rule's, and the weekday column reads as its weekdays |
| RuleCodec.WellFormedIff | custom_components/nestquest/core/recurrence.py:179-330 | which fields a rule of each type has, and their ranges |
| RuleCodec.ParseIntIff | custom_components/nestquest/core/dao_rules.py:416-459 | `int` takes a numeral, signed or not, with spaces around it |
| RuleCodec.NumeralIff | custom_components/nestquest/core/dao_rules.py:453-454 | a numeral is digits with single underscores between them |
| RuleCodec.EncodeDecodeIff | custom_components/nestquest/core/dao_rules.py:308-350 | re-encoding what a row decodes to gives the row exactly when its weekday column is canonical |
| RuleCodec.NothingIsDropped | custom_components/nestquest/core/dao_rules.py:375-394 | a row that decodes keeps every column, and its weekday column names the same days |
| RuleCodec.DecodedFits | custom_components/nestquest/core/dao_rules.py:308-350 | what decodes is a well-formed rule of the stored type, and only the three weekday shapes carry the column |
| RuleCodec.EncodedIsStorable | custom_components/nestquest/core/schema.py:226-248 | the table's CHECK constraints take the stored form of every rule |
| RuleCodec.MatchesGlobIff | custom_components/nestquest/core/schema.py:222-232 | the patterns of the CHECK take exactly one to seven weekday digits at commas |
| RuleCodec.CsvReadsBack | custom_components/nestquest/core/dao_rules.py:416-431 | the sorted CSV of a weekday set parses to the set |
| RuleCodec.ParseWeekday | custom_components/nestquest/core/dao_rules.py:453-454 | Python's `int` reads a weekday's text back |
| RuleCodec.JoinSplit | custom_components/nestquest/core/dao_rules.py:426 | splitting at commas loses nothing |
| IsoDates.ParseDateIff | custom_components/nestquest/core/dao_rules.py:60-77 | the accepted texts are exactly the ISO forms of calendar dates, each of its own |
| IsoDates.DayNumberAscends | custom_components/nestquest/core/dao_rules.py:54-57 | calendar order is the order of the day numbers |
| IsoDates.DayNumberCounts | custom_components/nestquest/core/dao_rules.py:54-77 | each calendar day counts one more than the one before it, from 1970-01-01 as 0 |
| IsoDates.CalendarIs | custom_components/nestquest/core/dao_rules.py:60-77 | the months and leap days of the calendar |
| IsoDates.TextOrderIsCalendarOrder | custom_components/nestquest/core/dao_rules.py:54-77 | comparing two accepted texts compares their dates |
| Presence.PresenceOverridesDao.CreateOverride | custom_components/nestquest/core/dao_presence.py:223-291 | the checks in the code's order, the table's own last, and one row more exactly on success |
| Presence.PresenceOverridesDao.Delete | custom_components/nestquest/core/dao_presence.py:381-387 | takes the rows of the id, and says whether there were any |
| Presence.PresenceOverridesDao.List | custom_components/nestquest/core/dao_presence.py:293-319 | refuses a bad range and otherwise gives the specified listing |
| Presence.OverlapIff | custom_components/nestquest/core/dao_presence.py:260-267 | the overlap test on texts holds exactly when the ranges share a date |
| Presence.ReachableIsDisjoint | custom_components/nestquest/core/dao_presence.py:238-245 | in every reachable table the overrides of one child never share a date |
| Presence.CreateIff | custom_components/nestquest/core/dao_presence.py:238-278 | a well-ordered range of a known child is refused exactly when it shares a date with a stored one |
| Presence.CreateIs | custom_components/nestquest/core/dao_presence.py:223-291 | which error a refused creation names, and the row a successful one stores |
| Presence.ListingRefusedIff | custom_components/nestquest/core/dao_presence.py:293-319 | a listing is refused exactly for a bad date or an inverted range |
| Presence.ListingIs | custom_components/nestquest/core/dao_presence.py:293-319 | a listing holds exactly the child's overlapping overrides, by start date |
| Cycle.ModIsFloor | admin/src/schedule/cycle.ts:42-45 | the panel's `mod` over a truncating `%` is the floor modulo, for negative values too |
| Cycle.PanelDayIff | admin/src/schedule/cycle.ts:30-36 | the panel counts the right day from the year 100 on, and is 693960 days off before |
| Cycle.WeekdayIff | admin/src/schedule/cycle.ts:47-50 | its weekday is the engine's exactly from the year 100 on |
| Cycle.IncludesIsCovers | admin/src/schedule/cycle.ts:84-87 | a pattern covers a date in the panel exactly if it does in the engine, wherever the two agree on the weekday and the week |
| Cycle.WeekIndexIff | admin/src/schedule/cycle.ts:52-56 | for dates from the year 100 on the two find the same week of the cycle exactly if the anchor is from then on too, or its length divides the weeks by which the panel is off |
| Cycle.PatternsAgreeIff | admin/src/schedule/cycle.ts:52-87 | they agree on a date for all patterns of one anchor and length exactly under these conditions |
| Cycle.PanelShowsPresence | admin/src/schedule/cycle.ts:89-110 | on every date on which the two agree so, the panel shows a day at home exactly when the engine says the child is present |
| Cycle.DayStateIs | admin/src/schedule/cycle.ts:89-110 | the override of the date decides; without one the day is away if an away pattern includes it, or home patterns exist and none does, and otherwise at home |
| Cycle.EngineWeekIs | custom_components/nestquest/core/presence.py:293-363 | weekdays count from a Thursday, 1970-01-01, and weeks of the cycle from the anchor, before it too |
| Cycle.ListingAnswers | custom_components/nestquest/core/dao_presence.py:301-319 | a listing of a range gives, for each of its dates, the answer of the whole table |
| Cycle.WinnerIsFound | custom_components/nestquest/core/presence.py:485-491 | the engine's latest-start override is the panel's first match wherever ranges are disjoint |
| Cycle.WinnerIsLatest | custom_components/nestquest/core/presence.py:485-491 | the engine's override is the covering one with the latest start, the first of equals |
| Cycle.OrderIndependentIff | admin/src/schedule/cycle.ts:104-105 | the day does not depend on the order of the overrides exactly when those covering it agree |
| Cycle.DisjointAgree | custom_components/nestquest/core/dao_presence.py:238-245 | which they do in every reachable table |
| Cycle.DaysRepeat | admin/src/schedule/cycle.ts:52-56 | outside overrides days repeat after seven times any common multiple of the cycle lengths, before the anchors too |
| Cycle.TwelveWeeksRepeat | custom_components/nestquest/core/schema.py:299-320 | twelve weeks are such a multiple for all patterns the table takes |
| ZoneInverse.OffsetIs | admin/src/time/zone.ts:60-65 | for whole-second offsets the truncated difference is the zone's offset |
| ZoneInverse.ReadsItIff | admin/src/time/zone.ts:67-81 | with two offsets about, the two passes find an instant that reads the time exactly when there is one, and in a gap miss it by the change |
| ZoneInverse.OneChangeIsTwoOffsets | admin/src/time/zone.ts:67-81 | that is so whenever at most one change is within the zone's largest offset of the time |
| ZoneInverse.TakesTheFirstIff | admin/src/time/zone.ts:67-81 | in every zone, of two readings about a lone change the panel takes the scheduler's exactly when the time comes before the change read as UTC, and otherwise the one after it |
| ZoneInverse.EastTakesTheSecond | admin/src/time/zone.ts:67-81 | so it never takes the first where the clock ends up ahead of UTC or on it, and always where it starts behind it or on it |
| Revision.FeedHash | admin/vite-sw-plugin.ts:41-48 | the loop of updates feeds the hash the frames of the files by path |
| Revision.PreimageIff | admin/vite-sw-plugin.ts:39-48 | files with distinct NUL-free paths feed the same bytes exactly when they are the same files, in any order |
| Revision.FramesAreInjective | admin/vite-sw-plugin.ts:39-47 | the framed bytes of such files determine them |
| Revision.NulConfuses | admin/vite-sw-plugin.ts:44-46 | a NUL in a path lets one file feed the bytes of two |

## Left out

- FastAPI routes, Pydantic models, React screens, Home Assistant entities and dashboards, the service worker's runtime: plumbing and user interface.
- JWT verification, PKCE, OIDC redirects, SHA-256, JSON, Intl, aiohttp, httpx: foreign code. JSON and UTF-8 are parameters with the facts the code needs; a zone is a list of offset changes.
- SQLite and SQL text: a statement is one atomic step on maps and sequences, a failed transaction restores what was there. PRAGMAs, types and affinity are not modelled, nor are reads that see another process's commit half way through a multi-statement read.
- `recurrence.py` beyond the well-formedness of a rule, `materialize.py`, `migrations.py`, `snapshot.py`, `settings_store.py`: a materialization walk is any sequence of `upsert_if_valid` calls; a settings update is one write of any settings.
- Sweeps that overlap with different values of `today`: the claim lets any different value win, so the code does not promise once there.
- Which exception surfaces after a cancellation, in the wrapper.
- WallTime.DelaySeconds: does not model datetime's overflow at year 9999, nor that the seconds are a float.
- SweepScheduler.SweepIsForStoredPlan: writers are those of one process, which share the lock; settings written by another process are not seen by it.
- WrapperLock.ExecKeepsInv: one event loop; the re-creation of the lock on another loop is not modelled, nor `execute_many` and the fetches, which take the same path as `execute`.
- Transaction.DurableAfter: no other process commits in between, and reads are left out.
- KeyCache.FetchesAreApart: a fetch is one step that starts and one that ends; what the provider sends, and the seconds it takes, are parameters.
- Sse.PageRecoversFromChunks: chunks are text already decoded, and the JSON text of a payload is one ASCII line, as `json.dumps` writes it; reconnecting is not modelled.
- RuleCodec.FromStorage: weekday texts are ASCII, as are user ids, so the other scripts' digits and blanks that `int` and `strip` know are not modelled; neither are Python values of the wrong type, such as a bool for an interval.
- Tables.Next: sort orders, colours, descriptions, icons, `skip_on_away` and the definition's own `due_time` are not columns of the model, and `QuestDefinitionsDao.update`, which writes only such columns and the title, is not an operation.
- Daos.QuestInstancesDao.DeleteFutureUncompleted: one statement, so one assignment; the source's two methods differ in the column they match and are one method with a scope.
- History.QueryHistory: children are visited by id, not by sort order, which the final sort makes irrelevant; dates are day numbers, their texts being the subject of IsoDates; the CSV export is left out.
- Presence.PresenceOverridesDao.List: `list_filtered` and the pattern rows' own encoding would only add easy members.
- ZoneInverse.ReadsItIff: the requested reading is an instant of UTC, so the splitting of the date's text and the years before 100 are not modelled.
- Revision.PreimageIff: `extractShellAssets` and `injectServiceWorker` are left out; paths compare by character, as JavaScript compares them by code unit.
- CompletionLog.LogAlternates: every append goes through the two calls, as the module says it does, in one process: the check and the append are guarded by a lock of the process, so another process on the same file is not in the interleavings.
