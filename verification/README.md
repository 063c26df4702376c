# Verification of the background-work, cache and access rules

A Dafny model of the parts of the API where several processes, or several people, touch the
same rows, and proofs of what they may rely on:

- **The job queue** (`Selection`, `Jobs`, `JobRuns`, `ConcurrentClaims`). `Jobs.JobTable` runs
  each SQL statement in place. `JobRuns` is every interleaving of claims, reports, deaths,
  reaping, requeues and cancellations. `ConcurrentClaims` goes below one claim statement, to the
  single row locks of `FOR UPDATE SKIP LOCKED`.
- **The replicated scheduler** (`Scheduler`, `ScheduleStore`, `Cron`, `Ticking`, `Calendar`, `Codecs`). Transactions
  whose statements interleave, the two unique indexes they meet, and the bounded walk that
  decides which instant is due.
- **Transactions with deferred work and the mail outbox** (`Transactions`, `Mail`, `MailRuns`,
  `Masking`).
- **The cache** (`Caches`, `SingleFlight`, `Patterns`).
- **Who may grant what** (`Roles`), **reset links** (`PasswordReset`) and **the audit reader**
  (`AuditPaging`).

Run `dafny verify dfyconfig.toml` in this directory.

## Assumptions

- One SQL statement is one atomic step at READ COMMITTED, and crashes fall between steps.
- `SKIP LOCKED` passes over a locked row and looks at the newest version of any other.
- An insert that meets an uncommitted row in a unique index waits for that transaction.
- There is one clock and it never runs backwards. Times are whole milliseconds.
- `nextRun(t)` answers with the least due instant strictly after `t`.
- Row ids and tokens are new when they are made, hashing a token is injective, and larger audit
  ids are later.
- A permission check and the write behind it are one step, on permissions read afresh.
- Where it says so, a status guard on a job and the write behind it are one step. The code reads
  and then writes by id without a lock, so it does not keep this promise by itself;
  `JobRuns.ExclusiveIffSound` says what depends on it.

## Where the code and its comments disagree

The model follows the code.

- `apps/api/src/queue/queue.repo.ts:186-188` says a job that kills its worker every time still
  reaches `max_attempts` and stops. Neither the reaper nor the claim looks at `attempts`, so each
  reaping buys one more claim: `JobRuns.BoundIsReached` reaches the bound for every `maxAttempts`,
  every number of requeues and every number of reaps.
- `apps/api/src/queue/queue.ts:85` speaks of one *live* job per dedupe key. The index covers
  finished rows too, so it is one row ever, and that is what the scheduler's proof uses.
- `apps/api/src/queue/jobs/mail.ts:68-70` expects a row without payload only after a terminal
  state. A failure recorded after another execution was sent, or after the same execution's success
  was written and not heard of, puts a sent message back to `queued` without one.
  `MailRuns.FinishedReopensIff` names the step and `MailRuns.FinishedForGoodIff` the exact condition
  under which no run takes it.
- A success that is written and not heard of likewise takes a job out of `succeeded`
  (`apps/api/src/queue/driver/database.ts:99-114`): `JobRuns.StatusFollowsEdges`.

## Model

| member | source | states |
|---|---|---|
| JobRuns.ClaimsAreBounded | apps/api/src/queue/queue.repo.ts:62-139 | after any interleaving, late reports of reaped workers included, a job was claimed at most max(1, maxAttempts) × (1 + requeues) + reaps times, and once it has reached that it is not pending |
| JobRuns.AttemptsWithoutReaping | apps/api/src/queue/driver/database.ts:110-114 | with no reap and no requeue, `attempts` never passes `maxAttempts`, and a job that has spent them is never pending again |
| JobRuns.BoundIsReached | apps/api/src/queue/queue.repo.ts:190-203 | the bound is exact: for every maxAttempts, q and r some run with q requeues and r reaps makes that many claims |
| JobRuns.EveryRunIsTidy | apps/api/src/db/schema/jobs.ts:93-95 | in every reachable state the lock columns are set exactly while running, `finishedAt` exactly when finished, and a dedupe key names one row ever |
| JobRuns.AtMostOneExecution | apps/api/src/queue/queue.repo.ts:190-203 | if no execution outlives the reaper's window and the admin guards are atomic, no job is ever in two handlers at once, whatever reports are lost on the way |
| JobRuns.JobCanBeShared | apps/api/src/modules/jobs/jobs.service.ts:114-142 | if executions may outlive the window, or the guards are not atomic with their writes, some run that keeps every other promise has two live executions of one job |
| JobRuns.ExclusiveIffSound | apps/api/src/queue/queue.repo.ts:182-203 | over all runs that keep the promises, at most one execution per job if and only if the longest execution is no longer than the reaper's window and the guards are atomic with their writes |
| JobRuns.StatusFollowsEdges | apps/api/src/queue/driver/database.ts:99-118 | the status moves along pending→running/cancelled, running→succeeded/failed/pending and failed/cancelled→pending, and leaves that graph exactly when an execution whose success was written and not heard of reports a failure, which makes `succeeded` `pending` or `failed`; never if every success is heard of |
| JobRuns.ClaimStatementIsAStep | apps/api/src/queue/queue.repo.ts:62-97 | whatever limit and locks it meets, the claim statement takes only claimable rows, and the rows it returns are what the new executions hold |
| JobRuns.RunJobIsARun | apps/api/src/queue/driver/database.ts:71-119 | however its records go, what `runJob` writes is one run of the steps |
| Jobs.JobTable.InsertJob | apps/api/src/queue/queue.repo.ts:40-48 | a row is inserted exactly when it carries no dedupe key or no row, finished or not, carries that key; it is pending, unlocked and has no attempts |
| Jobs.JobTable.ClaimJobs | apps/api/src/queue/queue.repo.ts:62-97 | every row claimed was due and unlocked, and is running now with one attempt more under this worker; what is returned is the row as it is left; no other row changes; by (run_at, id), up to the limit |
| Jobs.ClaimsAreTheLeastDue | apps/api/src/queue/queue.repo.ts:72-79 | a due, unlocked job is left only for `limit` jobs that all come before it by time due, then id |
| Jobs.ClaimMeans | apps/api/src/queue/queue.repo.ts:80-97 | a claim runs exactly the rows it hands out, once each, and hands them out as it leaves them |
| Jobs.JobTable.RunJob | apps/api/src/queue/driver/database.ts:71-119 | the row afterwards, found by id alone, and no other changed: a throw that is recorded leaves it failed if the claim was its last attempt and else pending at now plus the delay, with the error; a success that stands leaves it succeeded without one; an unknown or unparsable job is failed for good; a success not heard of is answered by a failure; nothing written, nothing changed |
| Jobs.JobTable.Conclude | apps/api/src/queue/driver/database.ts:97-118 | the same once the handler has run, for every way both records can go |
| Jobs.JobTable.ReapStaleJobs | apps/api/src/queue/queue.repo.ts:190-203 | hands back exactly the running rows locked before the cutoff and returns how many |
| Jobs.JobTable.RetryJob | apps/api/src/modules/jobs/jobs.service.ts:75-107 | the guard is decided on the row as read, and the write finds the row as other statements have left it by then; a row not failed or cancelled is a conflict and a missing row is not found |
| Jobs.JobTable.CancelQueuedJob | apps/api/src/modules/jobs/jobs.service.ts:114-142 | the same for cancelling: a row not pending when read is a conflict and a missing row is not found |
| ConcurrentClaims.ClaimsReturnDisjointRows | apps/api/src/queue/queue.repo.ts:72-88 | however claims and all other statements interleave, lock by lock, no claim returns a row twice, and two return the same row only if another statement made it pending again after one of them had committed |
| ConcurrentClaims.ClaimTakesLeastUnrefusedRows | apps/api/src/queue/queue.repo.ts:72-88 | each claim, however it is interleaved, takes exactly the least due rows of its snapshot, up to its limit, among those it was not refused when it came to them |
| ConcurrentClaims.RefusedMeans | apps/api/src/queue/queue.repo.ts:75-78 | a row was refused if and only if a visit of the claim came to it while it was locked or its newest version was no longer due |
| ConcurrentClaims.ClaimTakesLeastDueRows | apps/api/src/queue/queue.repo.ts:73-79 | a claim nothing interrupts takes exactly the least due rows no other claim has locked: the lock-level form refines the one-statement form of `Jobs.JobTable.ClaimJobs` |
| ConcurrentClaims.NoStarvation | apps/api/src/queue/driver/database.ts:121-129 | a job that n claims in a row have missed had at least n × limit rows ahead of it, if nothing is queued ahead of it in between |
| Selection.PickedIffRankBelow | apps/api/src/queue/queue.repo.ts:76-77 | `ORDER BY … LIMIT n` returns a row exactly when fewer than n rows come before it |
| Selection.PickedInOrder | apps/api/src/queue/queue.repo.ts:76-77 | the rows come back strictly in order, as many as there are up to n |
| Selection.LeftOnlyForOlder | apps/api/src/queue/queue.repo.ts:76-77 | a row is left behind only for n rows that all come before it |
| Selection.Select | apps/api/src/queue/queue.repo.ts:74-77 | choosing the first remaining row n times computes that query |
| Scheduler.EachTickFiresAtMostOnce | apps/api/src/scheduler/scheduler.ts:97-115 | over every interleaving of any number of replicas, failed enqueues and crashes, a tick has at most one committed row, and exactly as many job rows under its key |
| Scheduler.TicksMatchJobsIffPlain | apps/api/src/scheduler/scheduler.ts:196-201 | tick rows and job rows agree over every run if and only if no schedule is named `x:manual` beside a schedule `x` |
| Scheduler.OwnerNeverWaits | apps/api/src/scheduler/schedule.repo.ts:128-136 | the claim decides everything: its owner's enqueue neither waits nor is swallowed by the dedupe index |
| Scheduler.RolledBackTickCanBeClaimed | apps/api/src/scheduler/scheduler.ts:93-96 | a claim that rolls back leaves nothing, and the tick can be claimed at once |
| Scheduler.ManualRunsHaveTheirJob | apps/api/src/scheduler/scheduler.ts:189-208 | a committed manual run has exactly one job row, never a tick's |
| Scheduler.ManualRunsAreInvisibleToTicks | apps/api/src/db/schema/schedules.ts:52-59 | leaving every manual run out of a run leaves a valid run with exactly the same ticks |
| ScheduleStore.FireIsARun | apps/api/src/scheduler/scheduler.ts:97-115 | `fire` is a run of that protocol with the same final tables |
| ScheduleStore.PassesAreARun | apps/api/src/scheduler/scheduler.ts:117-137 | any number of passes, with failed enqueues among them, is one run of the protocol |
| ScheduleStore.DueTicksAreClaimed | apps/api/src/scheduler/scheduler.ts:117-137 | after a pass every due tick whose enqueue succeeded is claimed, whichever of the others failed |
| ScheduleStore.ClaimedIffPassed | apps/api/src/scheduler/scheduler.ts:117-137 | from empty tables a tick is claimed if and only if some pass found it due and its enqueue succeeded |
| ScheduleStore.CountIsNewRows | apps/api/src/scheduler/scheduler.ts:117-137 | the count a pass returns is the number of tick rows it added |
| ScheduleStore.Store.FireTick | apps/api/src/scheduler/scheduler.ts:97-115 | true and two rows, false and none, or an error with the tables as they were |
| ScheduleStore.Store.Tick | apps/api/src/scheduler/scheduler.ts:117-137 | one pass over the schedules, in order, past failures |
| Cron.LastDueAt | apps/api/src/scheduler/cron.ts:65-84 | the bounded loop computes the last of the first 10,000 due instants of the window |
| Cron.DueInIsExact | apps/api/src/scheduler/cron.ts:65-84 | the walk visits exactly the due instants of the window, in increasing order |
| Cron.WalkFindsLastDueIffUnderCap | apps/api/src/scheduler/cron.ts:49 | the answer is the greatest due instant of the window, or none, if and only if the window holds at most 10,000 |
| Cron.OverTheCap | apps/api/src/scheduler/cron.ts:49 | over the cap the answer is the ten thousandth due instant of the window |
| Cron.FoundIffDue | apps/api/src/scheduler/cron.ts:65-84 | if ticks come at least once a window and no two due instants fall between neighbours, the instants after the first tick that some tick finds are exactly the due ones |
| Ticking.EveryDueInstantFiresOnce | apps/api/src/scheduler/scheduler.ts:117-137 | and then, whatever other schedules are registered, each instant after the first tick has exactly one tick row and one job row under its ISO key if the schedule is due at it, and none if not |
| Ticking.PromisesCanBeKept | apps/api/src/scheduler/scheduler.ts:117-137 | a schedule due every minute and ticked every minute, at any minutes of the calendar, meets every condition of that result |
| Codecs.JobKeysAreInjective | apps/api/src/scheduler/scheduler.ts:66-68 | a tick key is the schedule, a colon and the ISO text of the instant, and determines both |
| Codecs.IsoReadsBack | apps/api/src/scheduler/scheduler.ts:66-68 | the text of an instant holds year, month, day, hour, minute, second and millisecond at their places, each of which reads back |
| Codecs.ManualKeysAreApart | apps/api/src/scheduler/scheduler.ts:193-201 | a manual key equals a tick key only for a schedule itself named `…:manual`, at the same instant |
| Calendar.InstantRoundTrip | apps/api/src/scheduler/scheduler.ts:66-68 | the date and time of every instant in the years 0 to 9999 determine it |
| Calendar.DateRoundTrip | apps/api/src/scheduler/scheduler.ts:66-68 | every date and time of those years is that of one instant: the calendar is exact |
| Calendar.EpochIsZero | apps/api/src/scheduler/scheduler.ts:66-68 | and the instant 0 is 1 January 1970 |
| Calendar.MonthsHaveTheirLengths | apps/api/src/scheduler/scheduler.ts:66-68 | the dates of the calendar are those of the Gregorian one: thirty days have April, June, September and November, and February has 29 in leap years |
| Calendar.AfterLeapDay | apps/api/src/scheduler/scheduler.ts:66-68 | 1 March 2000, 12:30:15.007 is instant 951,913,815,007 |
| Calendar.LastInstantBeforeEpoch | apps/api/src/scheduler/scheduler.ts:66-68 | and the last millisecond of 1969 is instant -1 |
| Calendar.StampsAreInjective | apps/api/src/scheduler/scheduler.ts:66-68 | two such instants have the same ISO text only when they are equal |
| Codecs.JobIdRoundTrip | apps/api/src/queue/driver/redis.ts:79-81 | the job id holds no colon and decodes to the dedupe key |
| Codecs.JobIdsAreInjective | apps/api/src/queue/driver/redis.ts:79-81 | two dedupe keys share a job id only when they are equal |
| Codecs.PlainKeysAreKept | apps/api/src/queue/driver/redis.ts:79-81 | a key with neither `%` nor `:` is its own id |
| Codecs.DelayIsBounded | apps/api/src/queue/driver/shared.ts:17-20 | every retry waits between 800 and 360,000 ms, whatever the jitter |
| Codecs.DelayGrows | apps/api/src/queue/driver/shared.ts:17-20 | through the ninth attempt a later wait is longer than an earlier one, whatever the two jitters |
| Codecs.MiddleDelays | apps/api/src/queue/driver/shared.ts:17-20 | with a draw in the middle the waits are one second, doubled up to the ninth attempt, then five minutes |
| Codecs.JitterIsEven | apps/api/src/queue/driver/shared.ts:17-20 | any other draw moves that wait evenly between a fifth below and a fifth above, rounded to a millisecond |
| Transactions.Process.Transaction | apps/api/src/db/tx.ts:26-60 | what a transaction leaves visible, for every place it can throw, fail to commit, commit unheard or die; what exactly the deferring actions defer is started, once each and in the order of the actions, all of it or as much as the process lives for, whichever fail, and only after a commit that was heard of |
| Transactions.Process.RunDeferred | apps/api/src/db/tx.ts:45-57 | deferred tasks run one by one in order up to the last, or until the process dies; one that throws does not stop the next |
| Transactions.Process.Perform | apps/api/src/queue/queue.ts:133-146 | a dispatch is written in the transaction, registered for after it, or pushed at once, by driver kind and options |
| Transactions.ActionsMean | apps/api/src/queue/queue.ts:133-146 | a write is for the transaction and a deferred task for after it; a dispatch joins the transaction if it may and can, else waits for it if it may, else is pushed at once |
| Transactions.EveryDeferredTaskStarts | apps/api/src/db/tx.ts:41-57 | what is started is what the deferring actions defer, each once and in their order, all or as much as the process lives for; none without a commit that was heard of |
| Transactions.EveryWriteCounts | apps/api/src/db/tx.ts:41 | each row is visible once per write of it if the change committed and not at all if it did not |
| Transactions.EveryDispatchCounts | apps/api/src/queue/queue.ts:126-146 | the jobs added, with their number: one for each dispatch in the transaction if it committed, one for each past both options, and one for each started push that had written |
| Transactions.RollbackLeavesNothingIffSafe | apps/api/src/queue/queue.ts:126-146 | a rolled-back change leaves nothing visible if and only if no dispatch it reached bypassed both options |
| Transactions.TransactionalJobFollowsCommit | apps/api/src/queue/queue.ts:133-138 | under a transactional driver a job dispatched with `tx` exists exactly when the change committed, if no other dispatch of it bypasses both options |
| Transactions.DeferredJobFollowsCommit | apps/api/src/queue/queue.ts:140-143 | under any other driver it exists exactly when the commit was heard of and its deferred push was reached and wrote it, whether or not it then threw |
| Transactions.MailFollowsItsChange | apps/api/src/mail/outbox.ts:53-79 | a queued message exists exactly when the change that caused it committed; under a transactional driver so does its send job, and under no driver is there a send job without the message |
| Mail.Outbox.SendMailJob | apps/api/src/queue/jobs/mail.ts:48-116 | the row, the hand-offs and the answer of one execution, for every way rendering, sending and either record can go: done, written but reported as failed, or not written |
| Mail.Outbox.FindStuckMail | apps/api/src/mail/mail.repo.ts:219-231 | the oldest hundred queued messages past the cutoff |
| Mail.StuckAreTheOldest | apps/api/src/mail/mail.repo.ts:219-231 | what is found has been queued for more than five minutes, and another such message is left out only for a hundred that are no younger |
| Mail.StuckInOrder | apps/api/src/mail/mail.repo.ts:228-230 | they come oldest first, none of them twice |
| Mail.Outbox.SweepStuckMail | apps/api/src/queue/jobs/mail.ts:126-136 | each stuck message of the batch gets one new send job, oldest first, and no message row changes |
| Mail.Outbox.PruneMailMessages | apps/api/src/mail/mail.repo.ts:237-251 | removes exactly the sent and failed messages created before the cutoff, leaves the others as they are, and counts what it removed |
| MailRuns.UninterruptedSendIsARun | apps/api/src/queue/jobs/mail.ts:48-116 | the job as a method is one run of the interleaved steps, with the same row and the same hand-offs |
| MailRuns.EveryRunIsHonest | apps/api/src/mail/mail.repo.ts:169-209 | under any interleaving of duplicate, late and retried executions a finished message has no payload, and `sent` means at least one accepted hand-off |
| MailRuns.ClearedPayloadNeverReturns | apps/api/src/mail/mail.repo.ts:162-209 | once cleared, a payload is never seen again |
| MailRuns.StepLosesNothing | apps/api/src/mail/mail.repo.ts:233-251 | no step, crash or retention run removes a queued message |
| MailRuns.NothingIsLost | apps/api/src/mail/mail.repo.ts:233-251 | over any run, whatever crashes in it, a message is still there or was sent or failed at some point |
| MailRuns.FinishedReopensIff | apps/api/src/queue/jobs/mail.ts:107-115 | a finished message becomes queued if and only if the step is the failure record of one of its executions that saw it unfinished and is not on its last attempt |
| MailRuns.FinishedForGoodIff | apps/api/src/queue/jobs/mail.ts:53-116 | with at most k executions of a message at once: over all runs every queued message keeps its payload, and likewise finished ones stay finished, if and only if k = 0, or k = 1 and no success is written unheard |
| MailRuns.HandedOnceIff | apps/api/src/queue/jobs/mail.ts:92-104 | over all runs every message is handed over at most once if and only if k = 0, or k = 1 and no hand-off goes unrecorded by a failed write or a crash |
| MailRuns.BacklogShrinks | apps/api/src/mail/mail.repo.ts:219-231 | between sweeps the queued messages older than the first cutoff only become fewer |
| MailRuns.BacklogDrains | apps/api/src/queue/jobs/mail.ts:126-136 | over any run in which swept messages leave `queued` and no finished one returns, each sweep clears a hundred of the messages queued before the first cutoff, or all that are left, whatever is queued or gets stuck later |
| Masking.MaskSecrets | apps/api/src/mail/templates.ts:106-113 | the loop applies the replacements in list order, skipping secrets under eight characters; if no secret can overlap the marker, the result is the body with occurrences of listed secrets hidden and all the text between them kept |
| Masking.ReplacedIff | apps/api/src/mail/templates.ts:109-111 | replacing one secret hides its leftmost occurrence, then the leftmost in what is left, and so on, and keeps every piece between them: that determines the result |
| Masking.MaskedOneByOne | apps/api/src/mail/templates.ts:106-113 | any list: so it is with each secret of at least eight characters in turn, in the text the ones before it left |
| Masking.OnlySecretsAreHidden | apps/api/src/mail/templates.ts:106-113 | a whole list that cannot overlap the marker: the body splits into kept pieces and hidden ones, the hidden are listed secrets, and the result is the kept pieces with one marker between each two |
| Masking.NoSecretSurvives | apps/api/src/mail/templates.ts:106-113 | no listed secret of eight characters or more that cannot overlap the marker occurs anywhere in the result, across replacement edges and after later replacements included |
| Masking.BracketFreeIsMaskable | apps/api/src/mail/templates.ts:106-113 | every secret of eight characters or more without square brackets, other than `redacted`, cannot overlap the marker |
| Masking.SurvivesIffMarkerSpellsIt | apps/api/src/mail/templates.ts:106-113 | of the secrets without brackets, some body keeps one if and only if it is `redacted` |
| Masking.MaskingIsIdempotent | apps/api/src/mail/templates.ts:106-113 | masking again changes nothing |
| Masking.CleanBodyIsKept | apps/api/src/mail/templates.ts:106-113 | a body that names no secret is left as it is |
| Masking.TokensAreMaskable | apps/api/src/lib/token.ts:49-72 | every issued token meets the condition, by its base64url alphabet (section 5 of RFC 4648) |
| Patterns.PrefixDeletesAgree | apps/api/src/cache/driver/redis.ts:46-48 | for every prefix and key, escaped `LIKE`, escaped glob and `startsWith` decide alike |
| Patterns.LikeContains | apps/api/src/lib/query.ts:38-40 | an escaped search between two `%` matches exactly the values that contain it |
| Patterns.LikeConsumes | apps/api/src/lib/query.ts:38-40 | an escaped text followed by any pattern matches exactly the text followed by what the pattern matches |
| Patterns.GlobConsumes | apps/api/src/cache/driver/redis.ts:46-48 | the same for Redis globs with their character classes |
| Patterns.UnescapedDecidesIffPlain | apps/api/src/cache/cache.repo.ts:67-77 | without the escape a prefix decides every key as `startsWith` does if and only if it holds none of `\`, `%` and `_` |
| Caches.MemoryCache.Get | apps/api/src/cache/driver/memory.ts:35-55 | a live entry's value; a dead entry is dropped |
| Caches.MemoryCache.Set | apps/api/src/cache/driver/memory.ts:63-78 | the entry moves to the back and the longest unwritten are evicted down to the cap |
| Caches.MemoryCache.Delete | apps/api/src/cache/driver/memory.ts:80-83 | that key is not found afterwards, and every other key is found as before |
| Caches.MemoryCache.DeletePrefix | apps/api/src/cache/driver/memory.ts:85-96 | the loop leaves no key with the prefix, every other as before, and counts what it removed |
| Caches.MemoryCache.Clear | apps/api/src/cache/driver/memory.ts:98-106 | exactly the keys of this installation go |
| Caches.CacheIsBoundedAndInWriteOrder | apps/api/src/cache/driver/memory.ts:63-78 | after every sequence of operations at most the cap is held, each entry behind only keys written after it |
| Caches.HitsAreCurrentAndMissesExplained | apps/api/src/cache/driver/memory.ts:33-106 | every answer is what an unbounded map with expiry would give, except a miss after at least cap-many other keys were written since |
| Caches.WrittenIsReadBack | apps/api/src/cache/driver/memory.ts:35-78 | a value written is read back until its time to live is over and not after, unless its key is written or deleted or as many other keys are written as the cache holds |
| Caches.CacheTable.ReadCacheEntry | apps/api/src/cache/cache.repo.ts:25-40 | expiry is enforced on the read |
| Caches.CacheTable.DeleteCacheEntriesWithPrefix | apps/api/src/cache/cache.repo.ts:67-77 | deleting by escaped `LIKE` removes exactly the keys that start with the prefix |
| Caches.CacheTable.DeleteExpiredCacheEntries | apps/api/src/cache/cache.repo.ts:85-92 | removes exactly the dead entries |
| Caches.SweepsAreInvisible | apps/api/src/cache/cache.repo.ts:85-92 | whenever sweeps run, no read can tell |
| SingleFlight.OneFlightPerKey | apps/api/src/cache/cache.ts:87-136 | with callers interleaving at every await, at most one load per driver and key is in flight, and the map holds a key exactly while its load is unfinished |
| SingleFlight.CallersShareTheOutcome | apps/api/src/cache/cache.ts:123-135 | every caller that waited gets what its flight ended with; a flight stores at most what its loader returned, so a failed load stores nothing, and one that ended with a loaded value has stored it |
| SingleFlight.AnswersAreExplained | apps/api/src/cache/cache.ts:114-136 | over all runs an answer without a flight is the value the caller's own lookup found in the store, or the error it threw; one through a flight follows a lookup that found nothing and is what that flight's loader returned, stored unless `undefined`, or the error it or the store threw |
| SingleFlight.LookupFindsTheLastWrite | apps/api/src/cache/cache.ts:120-130 | and a lookup finds what the last write of its slot left there, put by another writer or loaded by a flight of that slot, and nothing after an eviction or before any write |
| SingleFlight.ReleasedKeyIsFree | apps/api/src/cache/cache.ts:127-134 | until a flight is released a miss joins it, and after, failed or not, a miss loads again |
| SingleFlight.Flights.JoinOrLoad | apps/api/src/cache/cache.ts:123-134 | joins the flight of the key if there is one, else starts and records one |
| SingleFlight.Flights.Finally | apps/api/src/cache/cache.ts:131 | giving the key up by name removes this flight and no other |
| Roles.GroupNeverGrows | apps/api/src/modules/roles/roles.service.ts:19-36 | over any run by a group that takes in the accounts it opens, resets and is shown invitations of, the last none beyond its reach, the group's permissions together never grow, and nobody else gains one the group did not start with |
| Roles.ResendKeepsReachIff | apps/api/src/modules/users/users.service.ts:255-297 | sending an invitation again keeps the group's reach if and only if the caller is not shown the token or the invited account lies within that reach |
| Roles.WeakerInviteIsWithinReach | apps/api/src/modules/users/users.service.ts:584-593 | the comparison a password reset makes would be enough for a re-sent invitation too |
| Roles.RoleKeysStayUnique | apps/api/src/modules/roles/roles.service.ts:236-245 | over any run no two roles ever share a key |
| Roles.FreeKeyIsFree | apps/api/src/modules/roles/roles.service.ts:236-245 | the key found belongs to no role, and the search gives up if and only if all fifty candidates are taken |
| Roles.FirstFreeKey | apps/api/src/modules/roles/roles.service.ts:236-245 | it is the first candidate no role has |
| Roles.CandidateExamples | apps/api/src/modules/roles/roles.service.ts:236-245 | the candidates of `editor` are `editor`, `editor-2`, up to `editor-50` |
| Roles.EmailsStayUnique | apps/api/src/modules/users/users.service.ts:605-614 | over any run no two accounts share an address, deleted ones included |
| Roles.StepGivesOnlyOwn | apps/api/src/modules/users/users.service.ts:623-635 | no request leaves anyone with more than they had and the actor has |
| Roles.StepTakesOnlyOwn | apps/api/src/modules/roles/roles.service.ts:104-118 | no surviving role loses a permission the actor lacks |
| Roles.EffectiveMeans | apps/api/src/modules/rbac/rbac.repo.ts:125-146 | a permission is held exactly when one of the user's roles lists it and the code still knows it |
| Roles.AcceptedRoleEdit | apps/api/src/modules/roles/roles.service.ts:61-203 | an accepted request about a role leaves exactly the named permissions and fields on that role alone; a new one has a key no role had |
| Roles.AcceptedUserEdit | apps/api/src/modules/users/users.service.ts:134-480 | an accepted request about an account leaves exactly the roles asked for, or those it had, on that account alone, and no role changes |
| Roles.AcceptedIff | apps/api/src/modules/users/users.service.ts:134-593 | for every kind of request, exactly when it is accepted |
| Roles.ReassignmentDecides | apps/api/src/modules/users/users.service.ts:318 | from an accepted reassignment on until the next, whatever else is requested, the user may do exactly what the roles asked for then list |
| Roles.RoleEditDecides | apps/api/src/modules/roles/roles.service.ts:133-135 | and a role lists exactly what the last accepted request about its permissions asked for |
| Roles.RoleEditAcceptedIff | apps/api/src/modules/roles/roles.service.ts:104-118 | an edit is accepted if and only if the role exists and its old and new permissions all lie within the caller's |
| Roles.ConsoleAgreesWithServer | apps/console/src/lib/access.ts:80-82 | the console's `beyondReach` is empty if and only if some edit of the role can succeed |
| Roles.RolesGrantableIff | apps/api/src/modules/users/users.service.ts:623-635 | roles may be handed out if and only if all exist and every permission in them is the caller's |
| Roles.FirstOffenderDecides | apps/api/src/modules/users/users.service.ts:623-635 | the first role of the list that is missing or too strong decides the answer, with exactly the permissions the caller lacks |
| Roles.Directory.AssertRolesGrantable | apps/api/src/modules/users/users.service.ts:623-635 | the first offending role decides the answer |
| Roles.Directory.UniqueKey | apps/api/src/modules/roles/roles.service.ts:236-245 | the loop finds the first free candidate |
| Roles.Directory.CreateRole | apps/api/src/modules/roles/roles.service.ts:61-93 | a new role under a key no role had, with exactly the wanted permissions, or refusal and no change |
| Roles.Directory.UpdateRole | apps/api/src/modules/roles/roles.service.ts:95-166 | name, description and permissions are exactly what the edit names and else as before, or refusal and no change |
| Roles.Directory.DeleteRole | apps/api/src/modules/roles/roles.service.ts:168-203 | only an existing, unused role that is not built in is deleted, and that takes no permission from anybody |
| Roles.Directory.AddUser | apps/api/src/modules/users/users.service.ts:134-246 | a new account with exactly the wanted roles, or refusal and no change |
| Roles.Directory.UpdateUser | apps/api/src/modules/users/users.service.ts:299-346 | name and roles are exactly what the edit names, so that a role not named is taken away, and else as before; no other account changes; or refusal and no change |
| Roles.Directory.ReplaceRolePermissions | apps/api/src/modules/roles/roles.repo.ts:170-182 | delete then insert leaves exactly the given set, repeats included, on that role alone |
| Roles.Directory.ReplaceUserRoles | apps/api/src/modules/users/users.repo.ts:221-235 | delete then insert leaves exactly the given roles, repeats included, on that account alone |
| Roles.Directory.TriggerPasswordReset | apps/api/src/modules/users/users.service.ts:520-593 | allowed if and only if the account is active and its permissions all lie within the caller's; neither roles nor users change |
| PasswordReset.TokenWorksIff | apps/api/src/platform/password-reset.repo.ts:99-171 | after any run a token works for a user if and only if it is the latest link issued to them, unused and unexpired, and the account is active and not deleted; purging is invisible |
| PasswordReset.TokensAreSingleUse | apps/api/src/platform/password-reset.repo.ts:130-151 | over any run a token is accepted at most once, and never after a later link of the account |
| PasswordReset.PasswordIsLastAccepted | apps/api/src/platform/password-reset.repo.ts:130-151 | after any run every account, those that joined in it included, has the password its last accepted link set, or the one it began or joined with |
| PasswordReset.CooldownHoldsIff | apps/api/src/platform/password-reset.repo.ts:57-90 | over all runs a self-service link comes more than 60 s after every earlier link of the account not used in between, if and only if links live at least 60 s, as the five-minute minimum of `apps/api/src/env.ts:123` ensures |
| PasswordReset.ShortLivedLinksSlipThrough | apps/api/src/platform/password-reset.repo.ts:160-171 | with a shorter lifetime a purge lets the next link out early |
| PasswordReset.UserTable.IssueReset | apps/api/src/platform/password-reset.repo.ts:57-90 | replaces the link exactly when the account is active and not deleted and its link is none or older than the cooldown, else changes nothing |
| PasswordReset.UserTable.FindPendingReset | apps/api/src/platform/password-reset.repo.ts:99-121 | finds an account, with what the page says of it, exactly when consuming at that moment would change something |
| PasswordReset.UserTable.ConsumeReset | apps/api/src/platform/password-reset.repo.ts:130-151 | sets the password and ends the link in one statement, and changes nothing when no account accepts the token |
| PasswordReset.UserTable.PurgeExpiredResets | apps/api/src/platform/password-reset.repo.ts:160-171 | clears exactly the timed-out links and counts the rows changed |
| AuditPaging.ListAuditLogs | apps/api/src/modules/audit/audit.repo.ts:125-160 | shows only rows that pass every filter below the cursor, at most `limit`, and leaves out another such row only for a full page of newer ones |
| AuditPaging.LastPageIsComplete | apps/api/src/modules/audit/audit.repo.ts:156-157 | when the rest fits, the page is all of it and has no cursor |
| AuditPaging.FullPageSplits | apps/api/src/modules/audit/audit.repo.ts:156-157 | otherwise the page is full and its cursor leaves exactly the rows not shown |
| AuditPaging.EveryRowIsReadOnce | apps/api/src/modules/audit/audit.repo.ts:125-160 | following the cursor while newer rows arrive shows every matching row of the start exactly once, newest first, and no other; n pages reach the end if and only if n × limit is at least their number |

## Left out

- Scheduler.EachTickFiresAtMostOnce: states the database driver only; under a driver that cannot join the transaction a claimed tick can lose its job, as `apps/api/src/scheduler/scheduler.ts:88-91` says. Its condition on schedule names holds of every name in `apps/api/src/scheduler/schedules.ts:46-82`.
- JobRuns.AtMostOneExecution: takes the admin guard and its write as one step, which `JobRuns.ExclusiveIffSound` shows to be needed; the bound on claims does not, and lets a requeue or a cancel hit a row in any state.
- Jobs.JobTable.RunJob: takes both of its reports at one time; in the runs time may pass between them.
- JobRuns.EveryRunIsTidy: rows the Redis driver mirrors (`apps/api/src/queue/queue.repo.ts:156-180`) are not among its rows; they are `failed` with `locked_by` set, so the half about the lock columns fails for them.
- Masking.NoSecretSurvives: says nothing of secrets that overlap the marker; some of those survive, and some never do.
- Masking.OnlySecretsAreHidden: leaves out lists with secrets that overlap the marker, where a later replacement can hide part of an earlier marker; `Masking.MaskedOneByOne` covers them secret by secret.
- SingleFlight.AnswersAreExplained: has no clock; expiry, eviction and `forget` are one event that may come at any time.
- Codecs.DelayIsBounded: takes the jitter as a real number, so rounding of doubles is not modelled.
- Codecs.JobKeysAreInjective: instants in years 0 to 9999, where `toISOString` has a fixed width.
- Mail.Outbox.FindStuckMail: breaks ties of `created_at` by id, where the query leaves their order open.
- MailRuns.BacklogDrains: assumes that swept messages leave `queued` by the next sweep and that none returns; when none returns is `MailRuns.FinishedForGoodIff`.
- Roles.GroupNeverGrows: models no sessions and no route permissions, so any member may make any request. An account opened by invitation counts as the group's own whether or not its token is shown; a re-sent invitation counts only if it is.
- Roles.Directory.AddUser: leaves out the password or the invitation's token and mail.
- Roles.Directory.CreateRole: takes the slug of the name as given; lower-casing and Unicode normalisation are not modelled.
- Roles.Directory.TriggerPasswordReset: leaves out the token it issues, which is `PasswordReset`, and the mail it queues, which is `Transactions.MailFollowsItsChange`.
- PasswordReset.PasswordIsLastAccepted: knows no other way to change a password.
- The Redis driver's own state, and the synchronous driver.
- `fireManually` for an unknown schedule, which throws before it touches anything.
- Payload contents and their schemas: a payload parses or it does not, a template renders or it does not.
- `listJobs`, `listMailMessages` and the other offset-paged readers; audit diffs and redaction.
- Poll timers, start and stop, the shutdown registry.
- The `SCAN` loop of the Redis cache; JSON encoding of cached values.
- Enabling, disabling, deleting, restoring and re-inviting accounts are requests of the runs in `Roles`, with no method of their own.
- HTTP routes, request schemas, cookies, environment parsing, migrations and the user interface.
