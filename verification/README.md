# Backend verification

A Dafny model of the backend's stateful core, with proofs of what it promises over
every input, run or interleaving. `dafny verify dfyconfig.toml` checks all of it.

## What is modelled

| area | modules |
|---|---|
| backup and restore: breaking foreign-key cycles, insertion order, table files, restore and repair | `Names`, `FkGraph`, `BackupOrder`, `BackupOrderTheorems`, `BackupOrderNecessity`, `BackupOrderRuns`, `BackupArtifact`, `BackupRestore`, `BackupRestoreTheorems`, `RestoreReport`, `BackupRoundTrip` |
| job queue, schedules, scheduler ticks and the path from a due schedule to a workflow instance | `JobQueue`, `QueueProtocol`, `Schedule`, `SchedulerTick`, `SchedulerProtocol`, `SchedulerOrder`, `SchedulerDelivery`, `SchedulerVersions` |
| workflow engine: retries, gates, resume, rewind, concurrent callers | `WorkflowEngine`, `WorkflowTheorems`, `WorkflowLegs`, `WorkflowEntry` |
| credits: ledger, AI step charges, monthly grants | `CreditLedger`, `MarketingAutopilot`, `MonthlyGrant`, `TrialExpiry` |
| teams and subscriptions | `TeamSeats`, `TeamOwnerRace`, `TeamSeatRace`, `Subscriptions` |

Tables are maps from keys to rows, and each `create`, `updateMany` or transaction is one
atomic step. Where the source changes rows in place, a class with those fields does the
same: each method states what callers may rely on and equals a function of the old state,
which the theorems about runs are about. Protocols between processes (`QueueProtocol`,
`SchedulerProtocol`, `WorkflowEntry`, `TrialExpiry`, `MonthlyGrant`, `TeamOwnerRace`,
`TeamSeatRace`) are state machines with one action per database statement; their theorems hold for every sequence of actions.
The clock, provider answers, handler outcomes and the text form of rows and instants are
parameters.

Assumptions the statements carry in their `requires` clauses: a row codec that inverts and
prints one non-blank line; a target schema of the same shape and empty; nullable edge
columns that are neither the key column nor referenced themselves; worker ids that name one
sequential process; an injective instant-to-text stamp and schedule ids without a colon; month addition that moves at least 28 days forward; distinct, non-empty step keys
and handlers that are functions of their context; plan limits that grow with the sort order.

## Where code and documentation disagree

The model follows the code.

- `backup-core.ts:83` says exactly the necessary edges are broken; `BreaksMoreThanNecessary` gives an input with one too many, `NecessaryIff` says when it is true.
- The guard of 20 rounds can leave a breakable cycle for the sort to throw on (`GuardLeavesCycle`), and a reference to a table outside the list can make the loop give up on an acyclic graph (`AbsentTableStopsBreaking`); `BreakFailsIff` and `OrderExistsIff` are the exact conditions.
- `workflow-engine.service.ts:26-50` calls RETRYING unreachable; every retry of a failed instance writes it (`RetryPassesThroughRetrying`).
- `workflow-engine.service.ts:178-200` describes the PENDING claim as the one entry to the step loop; a caller that reads RUNNING enters without it (`FirstStepRunsTwice`, exactly then by `TwoExecutorsIff`).
- `scheduler-tick.service.ts:9-11` promises exactly one job per occurrence; a crash after the claim loses it (`CrashLosesOccurrence`, exactly then by `StepServesIff`).
- A toggle reads a schedule and writes it later (`scheduled-workflow.service.ts:181-198`), which can repeat a claim (`StaleToggleRepeatsClaim`, exactly then by `WriteIsHarmlessIff`).
- `billing/scheduler.service.ts:13-17` promises one grant per period; the grant that creates a subscription is outside the slot (`WindowGrantsTwice`, exactly then by `IntentIsSafeIff` and `SafeIffOutsideWindow`).
- `member.service.ts:12-13` says the last owner can never be removed; two calls that count before either writes can do it (`RemovalsRaceIff`, exactly then by `CanLoseAllIff` and `CountIsDangerousIff`).
- `docs/AUTH_ARCHITECTURE.md:163` says addresses are stored lowercased; registration and invitation store them as given and only acceptance ignores case, which can cost a workspace its last owner (`CaseDifferenceRemovesLastOwner`, exactly then by `OwnerRemainsIff`).
- `invitation.service.ts:11-20` says seats cannot be over-committed; an acceptance re-reads its invite under no lock (`SeatsCanOverflow`, exactly then by `CanOverfillIff`).
- `trial.service.ts:105-106` calls expiry idempotent; two calls past their read each create a subscription (`TwoExpiriesGrantTwice`, exactly then by `ReadDoublesIff`).
- `subscription.service.ts:25` says nothing else writes the status; a trial start writes ACTIVE to TRIALING outside the table (`StatusWritesAreLegal`).

## Model

| member | source | states |
|---|---|---|
| `FkGraph.StuckIsGreatestBlocked` | backend/src/modules/backup/backup-core.ts:91-109 | the tables no pass can place are the greatest set in which each waits for a member of the set or an absent table |
| `FkGraph.GreatestBlockedUnique` | backend/src/modules/backup/backup-core.ts:91-109 | that set is unique, so the order in which a JavaScript set is iterated cannot matter |
| `FkGraph.StuckIffCyclic` | backend/src/modules/backup/backup-core.ts:91-109 | when every reference is in scope, some table is stuck if and only if the graph has a cycle (pigeonhole over walks) |
| `BackupOrder.StuckSet` | backend/src/modules/backup/backup-core.ts:91-109 | the pass loop, which places tables in whatever order it meets them, ends with exactly the greatest blocked set |
| `BackupOrder.BreakCycles` | backend/src/modules/backup/backup-core.ts:87-123 | the loop over a spliced edge array computes `Break` with 20 rounds: first nullable edge inside the stuck set each time |
| `BackupOrder.TopologicalSort` | backend/src/modules/backup/backup-core.ts:126-146 | the layer loop computes `SortOutcome`, error or order, whatever the input listing |
| `BackupOrderRuns.BreakCyclesRuns` | backend/src/modules/backup/backup-core.ts:87-123 | round by round, for every input: each of up to 20 rounds takes the first nullable edge between stuck tables out of what is left, whose order stays; it ends early with nothing stuck, or with the greatest blocked set when that holds no nullable edge |
| `BackupOrderRuns.SortsByLevel` | backend/src/modules/backup/backup-core.ts:126-146 | the order is by level, one more than the highest level a table refers to within the scope, and by name within a level |
| `BackupOrderRuns.BeforeIff` | backend/src/modules/backup/backup-core.ts:140-140 | one name comes before another exactly when the first difference is a smaller code unit or the end of the shorter name |
| `BackupOrderTheorems.SortIsTopological` | backend/src/modules/backup/backup-core.ts:133-145 | a returned order lists each table once and every in-scope dependency before its dependant |
| `BackupOrderTheorems.SortThrowsIffCyclic` | backend/src/modules/backup/backup-core.ts:135-139 | the sort throws if and only if the in-scope graph has a cycle |
| `BackupOrderTheorems.SortIgnoresListingOrder` | backend/src/modules/backup/backup-core.ts:126-146 | the recorded order does not depend on how tables and constraints are listed |
| `BackupOrderTheorems.BreakSplitsEdges` | backend/src/modules/backup/backup-core.ts:111-122 | kept plus broken edges are the input as multisets, broken ones are nullable, at most one per round, and unused rounds mean nothing is stuck |
| `BackupOrderTheorems.BreakRoundsAgree` | backend/src/modules/backup/backup-core.ts:111-120 | two round limits give the same result unless the smaller one cut the run short |
| `BackupOrderTheorems.BreakAllUnsticks` | backend/src/modules/backup/backup-core.ts:111-120 | without the guard the loop ends, after at most as many rounds as edges, with nothing stuck |
| `BackupOrderTheorems.BreakFailsIff` | backend/src/modules/backup/backup-core.ts:94-117 | for every input, "no nullable column to break" is reported by the unguarded loop if and only if the NOT NULL columns and the references to tables outside the list leave some table stuck |
| `BackupOrderTheorems.OrderExistsIff` | backend/src/modules/backup/backup-core.ts:87-146 | for every input: when those unbreakable edges leave nothing stuck, an order comes out if and only if the unguarded loop breaks at most 20 edges; otherwise if and only if the guard ends the loop at exactly 20 broken edges with no cycle left among the listed tables |
| `BackupOrderTheorems.FewStuckEdgesOrder` | backend/src/modules/backup/backup-core.ts:87-146 | for every input with fewer than 20 nullable edges inside the initial stuck set, an order comes out if and only if the unbreakable edges leave nothing stuck |
| `BackupOrderTheorems.TwentyStuckEdgesOrder` | backend/src/modules/backup/backup-core.ts:87-146 | with references in scope and at most 20 such edges, an order comes out if and only if the NOT NULL columns are acyclic |
| `BackupOrderNecessity.OrderByCounts` | backend/src/modules/backup/backup-core.ts:87-146 | for every input that can be unstuck, by counts on the graph alone: more than 20 nullable stuck edges that close a cycle with the unbreakable ones leave no order, at most 20 nullable stuck edges leave one, and where all of them close such a cycle that count decides |
| `BackupOrderNecessity.BreaksBetween` | backend/src/modules/backup/backup-core.ts:111-120 | the number of broken edges lies between those two counts |
| `BackupOrderTheorems.BreaksWithinCount` | backend/src/modules/backup/backup-core.ts:111-120 | the loop breaks at most as many edges as are nullable and inside the stuck set at the start, and more rounds than that leave nothing stuck |
| `BackupOrderTheorems.FewBreaksSort` | backend/src/modules/backup/backup-core.ts:111-146 | fewer than 20 broken edges always leave a sortable graph, out-of-scope references included |
| `BackupOrderTheorems.GuardLeavesCycle` | backend/src/modules/backup/backup-core.ts:111-111 | 21 parallel nullable references and one back: the guard ends the loop with a cycle left and the sort throws |
| `BackupOrderTheorems.BreaksMoreThanNecessary` | backend/src/modules/backup/backup-core.ts:83-86 | an input on which one broken edge would do and the code breaks two |
| `BackupOrderNecessity.NecessaryIff` | backend/src/modules/backup/backup-core.ts:83-120 | for graphs whose stuck tables each wait through one edge and that can be unstuck: the loop breaks only edges that would close a cycle if put back, however the catalog lists them, if and only if every nullable edge inside the stuck set lies on a cycle |
| `BackupOrderNecessity.BreaksOnlyNecessary` | backend/src/modules/backup/backup-core.ts:111-120 | under that condition every broken edge is necessary for every round limit, the 20 of the code included |
| `BackupOrderNecessity.ClosingEdgesAreNecessary` | backend/src/modules/backup/backup-core.ts:83-120 | on every graph, cycles sharing tables included: when each nullable edge inside the stuck set closes a cycle with the unbreakable ones, only necessary edges are broken, for every round limit |
| `BackupOrderNecessity.NeedlessWhenFirst` | backend/src/modules/backup/backup-core.ts:83-120 | on every graph: a nullable edge inside the stuck set that lies on no cycle is broken needlessly by some listing |
| `BackupOrderNecessity.NothingBrokenIff` | backend/src/modules/backup/backup-core.ts:87-123 | the edges come back unchanged with none broken if and only if no table is stuck |
| `BackupOrderTheorems.AbsentTableStopsBreaking` | backend/src/modules/backup/backup-core.ts:94-117 | an acyclic graph on which `breakCycles` throws because of a NULL-able reference to a table outside the list; `BreakFailsIff` says exactly when that happens |
| `BackupArtifact.FramingRoundTrip` | backend/src/modules/backup/backup-core.ts:282-292 | splitting written lines at newlines and dropping blank ones gives the lines back |
| `BackupArtifact.TableFileRoundTrip` | backend/src/modules/backup/backup-core.ts:282-292 | reading a table file gives back the rows it was written from, for every codec that inverts and prints one non-blank line |
| `BackupArtifact.DumpDatabase` | backend/src/modules/backup/backup-core.ts:189-237 | every table of the order gets a file with its rows and a manifest entry with count, checksum and name; the total is the sum |
| `BackupArtifact.VerifyBackupIntegrity` | backend/src/modules/backup/backup-core.ts:245-270 | the problems are exactly the listed tables without an entry, without a file or with a text of another checksum, and the check passes exactly without problems |
| `BackupArtifact.VerifiedIffUnaltered` | backend/src/modules/backup/backup-core.ts:245-270 | collisions aside, a directory passes if and only if its manifest has lost no entry and it still holds the dumped text of every table |
| `BackupRestore.Target.Insert` | backend/src/modules/backup/backup-core.ts:346-346 | one INSERT takes effect if and only if every foreign key of the schema holds afterwards, self-references included |
| `BackupRestore.Target.Update` | backend/src/modules/backup/backup-core.ts:369-369 | one UPDATE by primary key takes effect under the same condition |
| `BackupRestore.Target.Restore` | backend/src/modules/backup/backup-core.ts:294-375 | the nested loops compute `Restored`; `RestoreReport` tells what that is from manifest, files, columns and earlier rows |
| `RestoreReport.LoadMeans` | backend/src/modules/backup/backup-core.ts:294-355 | for every artifact that lists no table twice and every target: the tables before the first that cannot be loaded have their earlier rows followed by the dumped ones, deferred columns NULL, and are counted; with no such table everything is loaded |
| `RestoreReport.MismatchIff` | backend/src/modules/backup/backup-core.ts:349-375 | a restore without error reports a table if and only if the rows found before and the rows of its file are not as many as the manifest says; the total is the number of rows in the files |
| `RestoreReport.LoadErrorIff` | backend/src/modules/backup/backup-core.ts:316-346 | the insert loop ends with an error if and only if that is why the first table that cannot be loaded cannot: no entry, no columns, no file, or rows whose INSERT breaks a constraint |
| `RestoreReport.RestoreErrorIff` | backend/src/modules/backup/backup-core.ts:316-372 | each error of a whole restore, and when: those of the insert loop, or else the first deferred edge whose table is listed without its file, unless an UPDATE is refused before |
| `RestoreReport.RestoredContents` | backend/src/modules/backup/backup-core.ts:309-372 | for every artifact and target: after a restore without error each deferred column holds the last non-NULL value dumped for the key of its row, or what it held, and every other column is as inserted |
| `RestoreReport.RestoreKeepsIntact` | backend/src/modules/backup/backup-core.ts:294-375 | however a restore ends, a target whose constraints held keeps them |
| `BackupRestoreTheorems.LastValueMeaning` | backend/src/modules/backup/backup-core.ts:363-369 | the last value is that of a row with the key and a non-NULL column, after which no such row follows |
| `BackupRestoreTheorems.OnTheWayIntact` | backend/src/modules/backup/backup-core.ts:309-372 | no database on the way, with broken columns NULL or holding any source value, violates a constraint the source satisfies |
| `BackupRestoreTheorems.LoadedIntact` | backend/src/modules/backup/backup-core.ts:309-355 | after every table insert each non-NULL foreign key points at a row already present |
| `BackupRestoreTheorems.RepairRowAccepted` | backend/src/modules/backup/backup-core.ts:366-369 | every fix-up UPDATE is accepted at the moment it is executed |
| `BackupRestoreTheorems.RepairRowsEffect` | backend/src/modules/backup/backup-core.ts:360-372 | repairing one column leaves, for each key, the value of the last dumped row with that key |
| `BackupRestoreTheorems.LoadTablesReach` | backend/src/modules/backup/backup-core.ts:309-355 | the insert loop reaches the state with every table loaded and reports no mismatch |
| `BackupRoundTrip.RestoreReaches` | backend/src/modules/backup/backup-core.ts:294-375 | a restore of a dump ends without error or mismatch in the repaired database |
| `BackupRoundTrip.RoundTripIff` | backend/src/modules/backup/backup-core.ts:357-372 | that database equals the source if and only if the key column used by the fix-up determines every broken column |
| `BackupRoundTrip.PipelineCovers` | backend/src/modules/backup/backup-core.ts:34-50 | the edges fetched, broken and sorted cover every constraint: a reference is earlier in the order, broken, or to its own table |
| `BackupRoundTrip.BackupThenRestore` | backend/src/modules/backup/backup-core.ts:87-375 | break, sort, dump, restore into an empty schema of the same shape is the identity on intact databases with single-column keys |
| `BackupRoundTrip.CompositeKeyOverwrites` | backend/src/modules/backup/backup-core.ts:363-369 | with a two-column key the fix-up gives both rows the later row's value |
| `BackupRoundTrip.BackupDatabase` | backend/src/modules/backup/backup-core.ts:87-270 | the backup job yields an artifact exactly when an order exists, and it describes the database |
| `BackupRoundTrip.BackupAndRestore` | backend/src/modules/backup/backup-core.ts:87-375 | whenever a backup can be taken, the rehearsal leaves the target equal to the source; otherwise it is untouched |
| `JobQueue.BackoffGrows` | backend/src/modules/scheduler/job-queue.service.ts:113-115 | the backoff is monotone in the attempts and stays between 1 s and 30 s |
| `JobQueue.BackoffSchedule` | backend/src/modules/scheduler/job-queue.service.ts:113-115 | 2, 4, 8, 16 s after the first failures, 30 s from the fifth on |
| `JobQueue.Queue.EnqueueJob` | backend/src/modules/scheduler/job-queue.service.ts:39-56 | at most one job per (job key, dedupe key): a repeated enqueue returns the existing job and changes nothing |
| `JobQueue.Queue.ClaimJob` | backend/src/modules/scheduler/job-queue.service.ts:77-93 | claims the claimable job that is due first, or nothing if and only if none is claimable: CLAIMED by this worker until now plus the lease asked for, every other field and row as before |
| `JobQueue.Queue.FailJob` | backend/src/modules/scheduler/job-queue.service.ts:122-137 | records the failure only under this worker's lease: terminal exactly when the attempts reach the limit, else due after the backoff; field by field |
| `JobQueue.Queue.RetryDeadLetterJob` | backend/src/modules/admin/admin.service.ts:345-357 | resets a FAILED job to due with no attempts, and refuses every other status without change |
| `JobQueue.Queue.CancelDeadLetterJob` | backend/src/modules/admin/admin.service.ts:360-372 | a cancelled dead letter can never be claimed again |
| `JobQueue.Queue.RunWorkerTick` | backend/src/modules/scheduler/job-queue.service.ts:159-184 | one tick settles exactly one job, leaves every other untouched, and a throwing or missing handler costs one attempt |
| `QueueProtocol.RunKeepsInv` | backend/src/modules/scheduler/job-queue.service.ts:39-137 | over every interleaving of workers, crashes and admin actions: keys unique, owner recorded exactly while leased, attempts count the failures |
| `QueueProtocol.WriteLandsIffCurrent` | backend/src/modules/scheduler/job-queue.service.ts:96-137 | a start, completion or failure lands if and only if nobody has claimed the job since; after a reclaim every late write is a no-op |
| `QueueProtocol.OnlyOwnerOrExpiry` | backend/src/modules/scheduler/job-queue.service.ts:62-111 | a leased job changes only by its owner's write or by a claim after the lease expired, which costs no attempt |
| `QueueProtocol.ClaimLandsIff` | backend/src/modules/scheduler/job-queue.service.ts:62-93 | the claim of a picked job lands exactly when its run time or its lease had passed when it was decided on, and then leases it for the time asked |
| `QueueProtocol.NoClaimWithinLease` | backend/src/modules/scheduler/job-queue.service.ts:62-93 | no claim lands on a leased job before the time of its last claim plus the lease asked for then |
| `QueueProtocol.RetryWaitsForBackoff` | backend/src/modules/scheduler/job-queue.service.ts:62-70 | a RETRY_WAIT job leaves that state only by a claim, no earlier than its backoff after the recorded failure |
| `QueueProtocol.FinalForever` | backend/src/modules/scheduler/job-queue.service.ts:105-111 | SUCCEEDED and CANCELLED are never left, over any further run |
| `QueueProtocol.ReachableJobs` | backend/src/modules/scheduler/job-queue.service.ts:113-137 | in every reachable state attempts equal the failures since the last reset, are below the limit until FAILED and equal to it there |
| `Schedule.ParseTimeOfDay` | backend/src/modules/scheduler/scheduled-workflow.service.ts:44-48 | a time is accepted exactly in the 24-hour format and denotes a whole minute of the day |
| `Schedule.ClockIsRead` | backend/src/modules/scheduler/scheduled-workflow.service.ts:44-48 | the two-digit hour and minute of every time of day are read back as that many hours and minutes |
| `Schedule.ReadIffClock` | backend/src/modules/scheduler/scheduled-workflow.service.ts:44-48 | exactly the texts a 24-hour clock shows are accepted |
| `Schedule.AdvanceToSlot` | backend/src/modules/scheduler/scheduled-workflow.service.ts:117-122 | the day-by-day loop stops within seven steps at the closed-form slot |
| `Schedule.ComputeNextRunAt` | backend/src/modules/scheduler/scheduled-workflow.service.ts:97-135 | the branches and the weekly loop compute `NextRun`, for every schedule and instant |
| `Schedule.NextRunMeans` | backend/src/modules/scheduler/scheduled-workflow.service.ts:97-135 | from the digits and the calendar: a daily or monthly schedule at h:m runs today if that is still ahead, else the interval later at h:m; a weekly one at the first later h:m on its weekday, 1 January 1970 being a Thursday; minutes and hours add the interval |
| `Schedule.WeekdayMeans` | backend/src/modules/scheduler/scheduled-workflow.service.ts:116-116 | day of week 0 to 6 is Sunday to Saturday |
| `Schedule.NextSlotIsEarliest` | backend/src/modules/scheduler/scheduled-workflow.service.ts:117-122 | the weekly slot is the earliest later instant with that weekday and time |
| `Schedule.NextRunAdvances` | backend/src/modules/scheduler/scheduled-workflow.service.ts:97-135 | the next run of a valid schedule is strictly later |
| `Schedule.SuccessiveRuns` | backend/src/modules/scheduler/scheduled-workflow.service.ts:108-125 | successive daily and weekly runs are exactly the interval apart |
| `Schedule.IteratesGrow` | backend/src/modules/scheduler/scheduler-tick.service.ts:109-125 | the runs of a valid schedule, iterated from any occurrence, strictly increase |
| `Schedule.Coalesce` | backend/src/modules/scheduler/scheduler-tick.service.ts:109-125 | the loop ends at the first run after now, having skipped exactly the runs up to it, or at the cap with the schedule still due |
| `Schedule.CoalescedUnique` | backend/src/modules/scheduler/scheduler-tick.service.ts:109-125 | that outcome is unique, so schedulers reading the same row agree |
| `Schedule.CoalescedClosedForm` | backend/src/modules/scheduler/scheduler-tick.service.ts:109-125 | for minutes and hours it is occurrence + (floor((now - occurrence) / period) + 1) * period, or the cap was hit |
| `SchedulerTick.OccurrenceKeyInjective` | backend/src/modules/scheduler/scheduler-tick.service.ts:138-138 | a dedupe key determines schedule and occurrence |
| `SchedulerTick.AdvancedIsLater` | backend/src/modules/scheduler/scheduler-tick.service.ts:109-134 | a claim moves the schedule strictly forward, past now unless the cap was hit |
| `SchedulerTick.AdvancedMovesOn` | backend/src/modules/scheduler/scheduler-tick.service.ts:109-134 | a claim skips exactly the runs up to now, or as many as the cap allows, notes the time and changes nothing else in the row |
| `SchedulerTick.Scheduler.ClaimOccurrence` | backend/src/modules/scheduler/scheduler-tick.service.ts:106-140 | one iteration advances one row, enqueues its job and counts the skipped runs |
| `SchedulerTick.Scheduler.Tick` | backend/src/modules/scheduler/scheduler-tick.service.ts:97-158 | the selected schedules have moved on and all others are untouched; each selected occurrence has its job, every new job is a fresh one for a selected occurrence and the earlier ones are untouched; the summary counts are exact |
| `SchedulerTick.BackupRunsDaysApart` | backend/src/modules/backup/backup-scheduler.service.ts:77-87 | backup runs keep their wall-clock time and are the interval apart, rounded to the nearest whole day and at least one |
| `SchedulerTick.BackupKeyPerDay` | backend/src/modules/backup/backup-scheduler.service.ts:101-102 | occurrences share a backup key exactly when on one UTC day, and successive runs never do |
| `SchedulerProtocol.RunKeepsInv` | backend/src/modules/scheduler/scheduler-tick.service.ts:97-140 | over every interleaving with workers, operators and crashes: each scheduler job stands for a claim, each instance for a job |
| `SchedulerProtocol.OneJobPerOccurrence` | backend/src/modules/scheduler/scheduler-tick.service.ts:131-140 | a scheduler job stands for exactly one claimed occurrence and an occurrence has at most one job |
| `SchedulerOrder.ClaimsMoveForward` | backend/src/modules/scheduler/scheduler-tick.service.ts:131-135 | over every interleaving in which each toggle write is harmless (its value lies after every claim of the schedule, or it disables a run nobody has seen), the claimed occurrences of a schedule strictly increase |
| `SchedulerOrder.WriteIsHarmlessIff` | backend/src/modules/scheduler/scheduled-workflow.service.ts:181-198 | a toggle write can make claims go back or repeat, without any further write, if and only if it is not harmless |
| `SchedulerOrder.PromptToggleIsHarmless` | backend/src/modules/scheduler/scheduled-workflow.service.ts:181-198 | a toggle written right after its read is harmless, enabling or disabling |
| `SchedulerDelivery.StepServesIff` | backend/src/modules/scheduler/scheduler-tick.service.ts:131-140 | a step leaves some claim without a job and without a scheduler about to queue it if and only if it is the crash of that claim's only holder before the enqueue |
| `SchedulerDelivery.ClaimsAreServed` | backend/src/modules/scheduler/scheduler-tick.service.ts:131-140 | over every run without such a crash, each claimed occurrence has its job or a scheduler about to queue it |
| `SchedulerDelivery.ExactlyOneJob` | backend/src/modules/scheduler/scheduler-tick.service.ts:97-140 | then each claim that no scheduler still holds has exactly one job |
| `SchedulerDelivery.LostForever` | backend/src/modules/scheduler/scheduler-tick.service.ts:131-140 | a claim once lost never gets a job, over any further run without a harmful toggle |
| `SchedulerDelivery.CrashLosesOccurrence` | backend/src/modules/scheduler/scheduler-tick.service.ts:131-139 | a crash between claim and enqueue loses the occurrence: at most once, not exactly once |
| `SchedulerOrder.StaleToggleRepeatsClaim` | backend/src/modules/scheduler/scheduled-workflow.service.ts:181-198 | a disable whose read precedes a claim and whose write follows it makes the same occurrence be claimed twice |
| `SchedulerDelivery.RepeatNeedsPublish` | backend/src/modules/workflows/workflow-engine.service.ts:80-159 | two instances with one idempotency key run different versions, and one version was published between two definition lookups for their job |
| `SchedulerVersions.LookupRepeatsIff` | backend/src/modules/workflows/workflow-engine.service.ts:80-113 | at a definition lookup: the occurrence can get two instances, without any further lookup, if and only if another version than the one found is live for it, as an instance or as another worker's valid lookup |
| `SchedulerVersions.CanRepeatIff` | backend/src/modules/workflows/workflow-engine.service.ts:80-113 | in every reachable state: an occurrence can get two instances without a further lookup if and only if two versions are live for it |
| `SchedulerVersions.OneInstanceUnlessMixed` | backend/src/modules/workflows/workflow-engine.service.ts:80-159 | over every run in which no lookup leaves another version live, each occurrence has at most one instance, however often versions are published |
| `SchedulerDelivery.OneInstancePerOccurrence` | backend/src/modules/workflows/workflow-engine.service.ts:80-159 | without a publication between two lookups for one job, every instance stands for a claimed occurrence and shares it with no other instance, however often its job is retried |
| `SchedulerDelivery.PublishingRepeatsOccurrence` | backend/src/modules/workflows/workflow-engine.service.ts:80-113 | from the initial state: a version published between two attempts of a job gives one occurrence two instances |
| `WorkflowEngine.StepIndex` | backend/src/modules/workflows/workflow-engine.service.ts:207-207 | first step with the key, -1 exactly when there is none |
| `WorkflowEngine.ValidTransitionsListed` | backend/src/modules/workflows/workflow-engine.service.ts:51-68 | the transition table, pair by pair |
| `WorkflowEngine.WorkflowInstance.AttemptStep` | backend/src/modules/workflows/workflow-engine.service.ts:348-374 | one attempt adds one row under a free (step, attempt) key: succeeded exactly when the handler returned, to be retried exactly after a transient error at one of the first two places, else failed |
| `WorkflowEngine.WorkflowInstance.RunStepWithRetry` | backend/src/modules/workflows/workflow-engine.service.ts:318-383 | adds one call: at most three rows numbered on from the earlier ones, each told by its fate, another one after a retried row only; the result is the handler's exactly when the last row succeeded |
| `WorkflowEngine.WorkflowInstance.RunToNextGate` | backend/src/modules/workflows/workflow-engine.service.ts:172-315 | claim, resume index, rehydration and step loop compute `RunToGate`, every status write legal; `WorkflowLegs` tells what that is call by call |
| `WorkflowEngine.WorkflowInstance.ApproveInstance` | backend/src/modules/workflows/workflow-engine.service.ts:449-468 | only a waiting instance is approved, and it then runs to the next gate |
| `WorkflowEngine.WorkflowInstance.RejectInstance` | backend/src/modules/workflows/workflow-engine.service.ts:470-486 | only a waiting instance is rejected, into CANCELLED |
| `WorkflowEngine.WorkflowInstance.RetryInstance` | backend/src/modules/workflows/workflow-engine.service.ts:503-553 | only a failed instance is retried, from the step before the failed one |
| `WorkflowLegs.ExecuteIsHonest` | backend/src/modules/workflows/workflow-engine.service.ts:346-380 | of every row a run ever writes: succeeded exactly when the handler returned, to be retried exactly after a transient error at one of the first two places of its call, failed otherwise; exactly after a retried row the same step is attempted again |
| `WorkflowLegs.EveryFailureStops` | backend/src/modules/workflows/workflow-engine.service.ts:233-249 | nothing is attempted after a failed row until somebody retries: as many failed rows as the instance was put to FAILED |
| `WorkflowLegs.RunFromLegs` | backend/src/modules/workflows/workflow-engine.service.ts:220-274 | a run makes one call per step in turn, each with the context and rows the last one left, and stops FAILED, AWAITING_APPROVAL or COMPLETED exactly as the last call tells |
| `WorkflowLegs.StartIndexIs` | backend/src/modules/workflows/workflow-engine.service.ts:207-207 | a run takes up at the step after the first with the stored key, or at the first step when the key is unset or unknown |
| `WorkflowLegs.RehydratedHolds` | backend/src/modules/workflows/workflow-engine.service.ts:208-218 | on resuming, a step's entry in the context is the output of its last succeeded row; what no step wrote is the input's |
| `WorkflowLegs.ResumeRuns` | backend/src/modules/workflows/workflow-engine.service.ts:172-315 | a run claims a new instance or goes on with a running one; any other it leaves alone |
| `WorkflowLegs.DecisionsMean` | backend/src/modules/workflows/workflow-engine.service.ts:449-486 | exactly a waiting instance is approved and runs on, or is rejected, and then only its status changes |
| `WorkflowLegs.RetryMeans` | backend/src/modules/workflows/workflow-engine.service.ts:503-553 | exactly a failed instance is retried: put back before the failed step, through RETRYING, and run on from there |
| `WorkflowTheorems.EventKeepsStage` | backend/src/modules/workflows/workflow-engine.service.ts:172-553 | every run, approval, rejection or retry leads from a well-formed stop to a well-formed stop, no earlier, passing a gate only by an approval |
| `WorkflowTheorems.ResumesAt` | backend/src/modules/workflows/workflow-engine.service.ts:207-218 | resuming at the stored step with the rehydrated context continues the fold exactly where it stopped |
| `WorkflowTheorems.ResumeEquivalence` | backend/src/modules/workflows/workflow-engine.service.ts:207-274 | a COMPLETED instance holds the plain fold of all steps over its input, whatever gates, transient failures and retries came before |
| `WorkflowTheorems.CompletedStepsOnce` | backend/src/modules/workflows/workflow-engine.service.ts:220-268 | each step of a completed instance has exactly one succeeded row, in order, with the fold's output |
| `WorkflowTheorems.CompletedGatesApproved` | backend/src/modules/workflows/workflow-engine.service.ts:260-267 | a completed instance was approved exactly once for every gate among its steps |
| `WorkflowTheorems.StepsSucceedInOrder` | backend/src/modules/workflows/workflow-engine.service.ts:220-268 | at every point the succeeded rows are a prefix of the definition, later steps have no rows, and the approvals match the gates passed |
| `WorkflowTheorems.StepRowPattern` | backend/src/modules/workflows/workflow-engine.service.ts:346-380 | the rows of a step read (at most two retried, failed), repeated, then optionally (at most two retried, succeeded) |
| `WorkflowTheorems.AttemptsNumbered` | backend/src/modules/workflows/workflow-engine.service.ts:340-347 | the attempts of a step are numbered 1, 2, 3, ... across all calls |
| `WorkflowTheorems.AttemptsNeverCollide` | backend/src/modules/workflows/workflow-engine.service.ts:340-347 | no two rows of a step share an attempt number, across all calls |
| `WorkflowTheorems.PriorRunsAreOrdered` | backend/src/modules/workflows/step-handler.registry.ts:35-38 | steps being registered in order, the succeeded rows by creation are also by step order |
| `WorkflowTheorems.TransitionsAreLegal` | backend/src/modules/workflows/workflow-engine.service.ts:51-68 | every status ever written follows the transition table |
| `WorkflowTheorems.RetryPassesThroughRetrying` | backend/src/modules/workflows/workflow-engine.service.ts:503-553 | every retry of a failed instance writes RETRYING and RUNNING, contrary to the comment at lines 26-50 |
| `WorkflowEntry.OneClaimWinner` | backend/src/modules/workflows/workflow-engine.service.ts:173-553 | while nobody without a claim of its own reads RUNNING, the step loop belongs to the one caller whose claim came last, over every interleaving of requests, approvals, rejections, retries, gates, failures and completions |
| `WorkflowEntry.SingleExecutor` | backend/src/modules/workflows/workflow-engine.service.ts:173-553 | so there is at most one executor at every moment of such a run |
| `WorkflowEntry.TwoExecutorsIff` | backend/src/modules/workflows/workflow-engine.service.ts:173-205 | from a state with one executor at most, a step leads to two if and only if it is a caller without a claim reading RUNNING |
| `WorkflowEntry.FirstStepRunsTwice` | backend/src/modules/workflows/workflow-engine.service.ts:173-205 | a second caller overlapping the creator skips the claim and the first step succeeds twice |
| `MarketingAutopilot.RunAiStep` | backend/src/modules/marketing-autopilot/marketing-autopilot.steps.ts:52-172 | returns exactly when every stage worked, asks for a retry exactly when the provider or the alerts failed transiently; the ledger is that of the stages reached, rivals in between included |
| `MarketingAutopilot.ChargeMovesBalance` | backend/src/modules/marketing-autopilot/marketing-autopilot.steps.ts:52-88 | an execution takes its cost exactly when it got as far as the charge; a returned one did |
| `MarketingAutopilot.ExecutionWritesUsage` | backend/src/modules/marketing-autopilot/marketing-autopilot.steps.ts:52-88 | an execution with a valid provider result adds one usage row, of its cost or of a blocked charge, and any other adds none |
| `MarketingAutopilot.CompletedRunCosts` | backend/src/modules/marketing-autopilot/marketing-autopilot.steps.ts:11-172 | with the ledger carried through the run and any operations of others in between: apart from those, the balance of a completed run has fallen by exactly 20 plus the charges of executions that failed after being charged |
| `MarketingAutopilot.CompletedRunCharges` | backend/src/modules/marketing-autopilot/marketing-autopilot.steps.ts:11-172 | the executions of a completed run are charged exactly 20 if and only if none failed after its charge |
| `MarketingAutopilot.AlertErrorChargesTwice` | backend/src/modules/marketing-autopilot/marketing-autopilot.steps.ts:85-85 | a transient error after the charge, in the alerts or in storing the step's result, makes the retried step pay twice |
| `CreditLedger.Ledger.RecordUsage` | backend/src/modules/billing/credit-ledger.service.ts:68-146 | adds one usage row: the cost when the balance covers it, else a blocked one that consumes nothing; the first-action event is written at most once |
| `CreditLedger.Ledger.GrantCredits` | backend/src/modules/billing/credit-ledger.service.ts:149-172 | adds one credit of this type and amount, whose snapshot is the new balance, also returned |
| `CreditLedger.Ledger.AdjustCredits` | backend/src/modules/admin/admin.service.ts:255-281 | zero is refused; any other amount, negative ones included, becomes one manual adjustment |
| `CreditLedger.BalanceStep` | backend/src/modules/billing/credit-ledger.service.ts:25-31 | conservation: supply minus consumption moves by exactly the entry written |
| `CreditLedger.SnapshotsExact` | backend/src/modules/billing/credit-ledger.service.ts:156-171 | in every sequence of locked transactions each stored credit has the type and amount asked for and as its snapshot the balance right after it |
| `CreditLedger.ChargesAreSolvent` | backend/src/modules/billing/credit-ledger.service.ts:88-107 | a charge succeeds if and only if covered and then leaves a non-negative balance; a blocked one moves nothing |
| `CreditLedger.FirstActionOnce` | backend/src/modules/billing/credit-ledger.service.ts:123-134 | the first-action event exists at most once, and exactly once some successful charge could write it |
| `CreditLedger.SolventIff` | backend/src/modules/billing/credit-ledger.service.ts:156-171 | the balance never goes negative if and only if no adjustment takes more than the balance it finds |
| `CreditLedger.GrantsKeepSolvent` | backend/src/modules/billing/credit-ledger.service.ts:149-172 | with non-negative grants it never does |
| `CreditLedger.PrecheckIsNoReservation` | backend/src/modules/billing/credit-ledger.service.ts:49-54 | two callers can pass the unlocked check and only one of their charges succeeds |
| `MonthlyGrant.JobRunner.ClaimJobSlot` | backend/src/modules/billing/scheduler.service.ts:40-63 | the slot is won exactly when it is new or FAILED |
| `MonthlyGrant.JobRunner.GrantMonthlyCreditsIfDue` | backend/src/modules/billing/subscription.service.ts:363-377 | grants exactly when no plan grant exists since the period start |
| `MonthlyGrant.JobRunner.RunJob` | backend/src/modules/billing/scheduler.service.ts:70-88 | a taken slot stops the run without a change; otherwise the slot ends SUCCEEDED, or FAILED after a fault, and the grant is written exactly when the period has none and the run gets that far |
| `MonthlyGrant.JobRunner.RunForAllDueWorkspaces` | backend/src/modules/billing/scheduler.service.ts:102-126 | the batch is the calls in sequence, failures included, and the summary counts their results exactly |
| `MonthlyGrant.JobStepGrants` | backend/src/modules/billing/scheduler.service.ts:70-88 | a run adds at most one grant, none when the period has one, and to its own workspace only |
| `MonthlyGrant.RepeatedCallsGrantOnce` | backend/src/modules/billing/scheduler.service.ts:49-88 | any number of calls for a period, with any faults before or after the grant, adds at most one grant |
| `MonthlyGrant.BatchIsIndependent` | backend/src/modules/billing/scheduler.service.ts:97-126 | in a batch each workspace gets the result it would have had alone, whatever happened to the others |
| `MonthlyGrant.IntentIsSafeIff` | backend/src/modules/billing/subscription.service.ts:82-121 | with only safe steps so far, a look that finds no grant or the creation of a subscription can lead to a period granted twice, without any later such step, if and only if the period has its allowance or somebody, a creator or a run, is about to write it |
| `MonthlyGrant.SafeIffOutsideWindow` | backend/src/modules/billing/scheduler.service.ts:29-88 | while the slots serialise the runs, a look is safe if and only if it does not fall between the commit of a subscription row and its initial grant |
| `MonthlyGrant.OneGrantPerPeriod` | backend/src/modules/billing/scheduler.service.ts:29-88 | over every interleaving of subscription creation, trial expiries, runs, faults after the grant, crashes and recoveries, no period is granted twice, provided no run straddles a period boundary, none looks inside that window and no two subscriptions are created at one instant |
| `MonthlyGrant.TwinsNeedDoubles` | backend/src/modules/billing/trial.service.ts:107-129 | two subscriptions are created at one instant only after an expiry found a trial that another one was still pursuing |
| `MonthlyGrant.AtMostOneGrant` | backend/src/modules/billing/scheduler.service.ts:40-88 | while the first subscription lasts there is at most one plan grant, the initial one included, unless a job looks before the initial one |
| `MonthlyGrant.NoGrantAfterAllowance` | backend/src/modules/billing/subscription.service.ts:365-368 | once the period's allowance exists, no run adds another |
| `MonthlyGrant.WindowGrantsTwice` | backend/src/modules/billing/subscription.service.ts:84-121 | the batch job finds a new subscription before its creator grants the initial allowance, and the period is granted twice |
| `MonthlyGrant.StraddlingGrantsTwice` | backend/src/modules/billing/scheduler.service.ts:70-78 | from the initial state: a trial expires between a run's two reads, the next creator dies before its grant, and two runs holding different slots grant the new period |
| `MonthlyGrant.TwoExpiriesGrantTwice` | backend/src/modules/billing/trial.service.ts:107-129 | from the initial state: two expiries past their read of one trial each create a free subscription and each grant its allowance, for one period |
| `TrialExpiry.ReadDoublesIff` | backend/src/modules/billing/trial.service.ts:107-129 | an expiry that finds an overdue trial can lead to two successors of it, without any later read, if and only if another call is still pursuing that row |
| `TrialExpiry.OneSuccessor` | backend/src/modules/billing/trial.service.ts:107-129 | over every interleaving without such a read, no trial is succeeded twice |
| `TeamSeats.TeamService.InviteMember` | backend/src/modules/team/invitation.service.ts:22-86 | goes through if and only if the role is known, no downgrade is pending, the address has neither a pending invite nor an active member and a seat is free; then exactly one seat more is used, by one new row, and otherwise nothing changes |
| `TeamSeats.TeamService.AcceptInvitation` | backend/src/modules/team/invitation.service.ts:121-169 | goes through if and only if the invite is pending, not expired and addressed to the account, case aside; the account then sits in the invite's seat with the invite's role, a late call frees that seat, any other changes nothing |
| `TeamSeats.LowerIdentifies` | backend/src/modules/team/invitation.service.ts:130-134 | lower case identifies exactly the spellings that differ in the case of letters |
| `TeamSeats.TeamService.RejectInvitation` | backend/src/modules/team/invitation.service.ts:184-202 | goes through if and only if the invite is pending, and then one seat less is used and no other row differs |
| `TeamSeats.TeamService.CancelInvitation` | backend/src/modules/team/invitation.service.ts:204-213 | goes through if and only if the invite is pending, and then one seat less is used and no other row differs |
| `TeamSeats.TeamService.RemoveMember` | backend/src/modules/team/member.service.ts:35-56 | active members and owners lose exactly this user, refused if and only if absent or an owner while at most one owner is active; a workspace with an active owner keeps one |
| `TeamSeats.TeamService.ChangeMemberRole` | backend/src/modules/team/member.service.ts:66-106 | changes one role and no seat; nobody becomes an owner except by an owner, and a workspace with an active owner keeps one |
| `TeamSeats.JoiningKeepsSeats` | backend/src/modules/team/invitation.service.ts:142-155 | accepting turns a reserved seat into an occupied one and removes no owner |
| `TeamSeats.AcceptKeeps` | backend/src/modules/team/invitation.service.ts:133-169 | where accounts that can accept an invited address have that very address, whoever accepts a pending invite is not an active member yet, so no role is overwritten |
| `TeamSeats.RunKeepsSeats` | backend/src/modules/team/invitation.service.ts:39-213 | over every run, however addresses are spelled: active members and pending invites stay within the seats and no address has two pending invites |
| `TeamSeats.OwnerRemainsIff` | backend/src/modules/team/invitation.service.ts:22-169 | every run of every new workspace keeps an active owner if and only if each account that can accept an invitation to one of the invited addresses has that very address, or the plan has no seat to invite to |
| `TeamSeats.RunKeepsInv` | backend/src/modules/team/invitation.service.ts:39-213 | under that condition on addresses no active member is ever invited either, and the owner, the seats and the single invites are kept from every state that has them |
| `TeamOwnerRace.CanLoseAllIff` | backend/src/modules/team/member.service.ts:29-105 | from every state, the removals and role changes past their counts can leave no owner if and only if they target every active owner |
| `TeamOwnerRace.CountIsDangerousIff` | backend/src/modules/team/member.service.ts:39-44 | at the count: passing it is dangerous if and only if it would target the last owner that no call in flight targets |
| `TeamOwnerRace.CarefulCountsKeepOwner` | backend/src/modules/team/member.service.ts:29-105 | over every run in which each passing count leaves an untargeted owner, there is an active owner at every moment |
| `TeamOwnerRace.UninterruptedRemoval` | backend/src/modules/team/member.service.ts:35-59 | a count with its write right after it is the removal that `TeamSeats` takes as one step |
| `TeamOwnerRace.OwnerRemains` | backend/src/modules/team/member.service.ts:29-105 | an active owner also remains in every run in which no owner has gone between a call's count and its write |
| `TeamOwnerRace.RemovalsRaceIff` | backend/src/modules/team/member.service.ts:35-59 | two removals of owners that both count before either writes leave no owner if and only if there were only these two |
| `TeamSeatRace.CanOverfillIff` | backend/src/modules/team/invitation.service.ts:121-169 | the acceptances in flight, with invitations alone, can seat more than the plan allows if and only if one of them is stale: its user is no member and its invite was closed since or is being accepted by another user |
| `TeamSeatRace.SeatsHold` | backend/src/modules/team/invitation.service.ts:22-213 | over every interleaving in which no acceptance becomes stale the seats are never exceeded |
| `TeamSeatRace.SeatsCanOverflow` | backend/src/modules/team/invitation.service.ts:136-156 | from a new workspace: an invite cancelled between the re-read and the upsert of its acceptance lets the plan be exceeded |
| `TeamSeats.CaseDifferenceRemovesLastOwner` | backend/src/modules/team/invitation.service.ts:45-153 | the failing input: the sole owner invited under another spelling accepts and loses the role; `OwnerRemainsIff` says exactly when that can happen |
| `Subscriptions.SeedPlansGraded` | backend/src/scripts/seed-subscription-plans.ts:43-108 | the seeded limits grow with the sort order and the free plan is the lowest |
| `Subscriptions.CurrentIndex` | backend/src/modules/billing/subscription.service.ts:144-152 | the current subscription is the newest that has not expired |
| `Subscriptions.SubscriptionService.TransitionSubscription` | backend/src/modules/billing/subscription.service.ts:154-157 | refused if and only if there is no current row or the table forbids the change; otherwise the current row's status is the only thing that differs |
| `Subscriptions.LegalTransitionsListed` | backend/src/modules/billing/subscription.service.ts:27-34 | the transition table, pair by pair |
| `Subscriptions.SubscriptionService.ChangePlan` | backend/src/modules/billing/subscription.service.ts:173-281 | for every pending state: a plan of the same or a higher rank, or one whose limits usage does not exceed, becomes the plan with nothing pending; a lower one that is too small becomes pending and the plan stays; nothing else changes, and each error has its exact condition |
| `Subscriptions.SubscriptionService.RetryPendingDowngrade` | backend/src/modules/billing/subscription.service.ts:284-289 | the pending plan takes over if and only if usage fits it or it does not rank lower, and is then no longer pending; in every other case nothing changes |
| `Subscriptions.SubscriptionService.CancelSubscription` | backend/src/modules/billing/subscription.service.ts:305-349 | at the period end: exactly the current row's flag is set; at once: the transition to CANCELED |
| `Subscriptions.SubscriptionService.ReactivateSubscription` | backend/src/modules/billing/subscription.service.ts:380-409 | exactly the current row's flag is cleared |
| `Subscriptions.SubscriptionService.StartTrial` | backend/src/modules/billing/trial.service.ts:41-74 | goes through if and only if the account is eligible, the plan known and the current row ACTIVE on the free plan; that row then becomes the trial, with an end 14 days later, and no other differs |
| `Subscriptions.SubscriptionService.ConvertTrial` | backend/src/modules/billing/trial.service.ts:77-97 | exactly a trial becomes an active subscription to its plan, overdue or not |
| `Subscriptions.SubscriptionService.ExpireTrialIfDue` | backend/src/modules/billing/trial.service.ts:107-129 | something changes if and only if the current row is an overdue trial, which is then expired and followed by one new free subscription that is the current one |
| `Subscriptions.TrialSeesNoPending` | backend/src/modules/billing/trial.service.ts:41-62 | on the free plan nothing can be pending |
| `Subscriptions.RunKeepsInv` | backend/src/modules/billing/subscription.service.ts:144-289 | over every run: at most one subscription not expired, exactly one unless EXPIRED is requested, a pending plan strictly below the current one |
| `Subscriptions.CurrentRemainsIff` | backend/src/modules/billing/subscription.service.ts:144-157 | over every run of a new workspace, there is a current subscription at the end if and only if no transition to EXPIRED met a status from which the table allows it |
| `Subscriptions.ExpiryIsReachable` | backend/src/modules/billing/subscription.service.ts:27-34 | such a run: cancel at once, then expire |
| `Subscriptions.ExpiryIsFinal` | backend/src/modules/billing/subscription.service.ts:27-34 | after a requested expiry no operation ever brings a subscription back |
| `Subscriptions.StatusWritesAreLegal` | backend/src/modules/billing/subscription.service.ts:27-41 | every status change is in the table except ACTIVE to TRIALING by a trial start; an expired row never changes |
| `Subscriptions.FitIsKeptIff` | backend/src/modules/billing/subscription.service.ts:187-281 | a workspace that fits its plan still fits after an operation if and only if that is not the expiry of an overdue trial over the free limits |
| `Subscriptions.FitsThroughoutIff` | backend/src/modules/billing/subscription.service.ts:187-281 | over every run with unchanged usage that starts within its limits, the workspace is within them at every moment if and only if no trial expires over the free limits |
| `Subscriptions.PendingOnlyWhenUnfit` | backend/src/modules/billing/subscription.service.ts:218-289 | over every run with unchanged usage, a downgrade is pending only while usage does not fit its plan |
| `Subscriptions.PendingResolves` | backend/src/modules/billing/subscription.service.ts:284-289 | once usage fits, the retry applies the pending plan and clears it |
| `Subscriptions.TrialExpiryIgnoresLimits` | backend/src/modules/billing/trial.service.ts:107-129 | a trial workspace that outgrew the free plan is over its limits after expiry |

## Left out

- Several columns per foreign key, and foreign keys into other schemas: the catalog query drops the former and the model has no second schema.
- Composite primary keys in the round trip: `CompositeKeyOverwrites` shows that the fix-up fails on them; `RoundTripIff` is the exact condition.
- BackupOrderNecessity.NecessaryIff: covers graphs whose stuck tables each wait through one edge; where cycles share tables `ClosingEdgesAreNecessary` and `NeedlessWhenFirst` give one direction each.
- RestoreReport.RestoreErrorIff: of an UPDATE that the target refuses during the repair it says which statement on which database that was, not from the artifact alone that it will come to it.
- RestoreReport.LoadMeans: takes an order that lists no table twice, as every recorded order does (`SortIsTopological`).
- Encrypted backups, enum, array and JSON casts in the INSERT text: foreign code; the codec stands for the text form of a row.
- The manifest as JSON text: the artifact holds it as a value.
- Backup retention, the concurrent-backup guard, and more than 100 backup schedules due at once: not part of this model.
- Daylight-saving changes and month-end clamping: library behaviour; zones have a fixed offset and month addition is an assumed function.
- Different clocks in different processes: the interleaved models share one clock.
- A completion write that commits and still reports an error: a failing completion is modelled before it reaches the row.
- Retry of one crashed RUNNING instance or a stuck RUNNING grant slot: the code does not recover them.
- Several executors of one workflow instance: `WorkflowTheorems` is about one at a time; `WorkflowEntry` says when there are more.
- Reading and claiming in `retryInstance` are one step.
- Classification of errors as transient: the fate of an attempt is a parameter.
- Effects of handlers other than charges, notifications, analytics events, audit rows and metrics.
- A database error inside the ledger transaction while the first-action event is written: modelled as the caught, non-fatal error the code intends.
- Conversions and cancellations of a trial while it expires: `TrialExpiry` has the expiries alone, and `Subscriptions` takes each operation as one step.
- TeamSeats.RunKeepsInv: takes operations one after the other; `TeamOwnerRace` interleaves the owner counts and `TeamSeatRace` the acceptances with the writes of others.
- Plan changes while invitations are open, changed e-mail addresses of accounts and `toLowerCase` beyond ASCII; interleaved reads of declines, cancellations and expiries of invites, which move no seat.
- Usage that changes between subscription operations: the run theorems on limits take it as fixed.
- Removing a member does not retry a pending downgrade within the same step; `Subscriptions` has the retry as its own operation.
- Subscription operations run one at a time.
- Webhooks, CRM, content assets, onboarding, feature flags, data retention: simpler members of the same kinds.
