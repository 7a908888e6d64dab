/** One scheduler tick: every due schedule is advanced past `now` and turned into one queued job. */
module SchedulerTick {
  import opened Common
  import opened Schedule
  import opened JobQueue

  datatype ScheduleRow = ScheduleRow(recurrence: Recurrence, enabled: bool, nextRunAt: int, lastRunAt: Option<int>)

  type Schedules = map<string, ScheduleRow>

  datatype Summary = Summary(dueCount: nat, claimedCount: nat, enqueuedCount: nat, coalescedCount: nat)

  const SCHEDULED_WORKFLOW_JOB_KEY := "scheduled-workflow-run"
  const MAX_SCHEDULES_PER_TICK := 100

  // ---------------------------------------------------------------- dedupe keys

  /** `${schedule.id}:${stamp}`. */
  function OccurrenceKey(id: string, stamp: string): string {
    id + ":" + stamp
  }

  /** Schedule ids hold no colon, so the key determines the schedule and the stamp of the occurrence. */
  lemma {:induction false} OccurrenceKeyInjective(id: string, stamp: string, id': string, stamp': string)
    requires ':' !in id && ':' !in id' && OccurrenceKey(id, stamp) == OccurrenceKey(id', stamp')
    ensures id == id' && stamp == stamp'
  {
    var key := OccurrenceKey(id, stamp);
    assert key[|id|] == ':' && key[|id'|] == ':';
    assert forall k :: 0 <= k < |id| ==> key[k] == id[k] != ':';
    assert forall k :: 0 <= k < |id'| ==> key[k] == id'[k] != ':';
    assert id == key[..|id|] && id' == OccurrenceKey(id', stamp')[..|id'|];
    assert stamp == key[|id| + 1..] && stamp' == OccurrenceKey(id', stamp')[|id'| + 1..];
  }

  // ---------------------------------------------------------------- the tick

  predicate Due(row: ScheduleRow, now: int) {
    row.enabled && row.nextRunAt <= now
  }

  /** A possible result of `findMany ... orderBy nextRunAt asc take 100`. */
  ghost predicate DueSelection(schedules: Schedules, due: seq<string>, now: int) {
    && |due| <= MAX_SCHEDULES_PER_TICK
    && (forall i, j :: 0 <= i < j < |due| ==> due[i] != due[j])
    && (forall id :: id in due ==> id in schedules && Due(schedules[id], now))
    && (forall id :: id in schedules && Due(schedules[id], now) && id !in due ==>
          |due| == MAX_SCHEDULES_PER_TICK && forall d :: d in due ==> schedules[d].nextRunAt <= schedules[id].nextRunAt)
  }

  ghost predicate Runnable(schedules: Schedules) {
    forall id :: id in schedules ==> ValidRecurrence(schedules[id].recurrence) && CalendarAdvances(schedules[id].recurrence.zone)
  }

  /** The row after its occurrence was claimed at `now`. */
  function Advanced(row: ScheduleRow, now: int, cap: nat): ScheduleRow {
    row.(nextRunAt := CoalesceOutcome(row.recurrence, row.nextRunAt, now, cap).0, lastRunAt := Some(now))
  }

  function TotalSkipped(schedules: Schedules, due: seq<string>, now: int, cap: nat): nat {
    if due == [] then 0
    else
      var last := |due| - 1;
      TotalSkipped(schedules, due[..last], now, cap)
      + if due[last] in schedules
        then CoalesceOutcome(schedules[due[last]].recurrence, schedules[due[last]].nextRunAt, now, cap).1
        else 0
  }

  ghost predicate AdvancedExactly(before: Schedules, after: Schedules, due: seq<string>, now: int, cap: nat) {
    && after.Keys == before.Keys
    && forall id :: id in before ==> after[id] == if id in due then Advanced(before[id], now, cap) else before[id]
  }

  /** The claimed run is over and the missed ones are skipped: the next is the first later than now, or the cap left it due. */
  ghost predicate MovedOn(before: ScheduleRow, after: ScheduleRow, now: int, cap: nat, skipped: nat) {
    && after.recurrence == before.recurrence && after.enabled == before.enabled && after.lastRunAt == Some(now)
    && Coalesced(before.recurrence, before.nextRunAt, now, cap, after.nextRunAt, skipped)
  }

  lemma AdvancedMovesOn(row: ScheduleRow, now: int, cap: nat)
    requires ValidRecurrence(row.recurrence) && CalendarAdvances(row.recurrence.zone)
    ensures MovedOn(row, Advanced(row, now, cap), now, cap, CoalesceOutcome(row.recurrence, row.nextRunAt, now, cap).1)
  {
    OutcomeCoalesces(row.recurrence, row.nextRunAt, now, cap);
  }

  /** The selected schedules have moved on; every other row, due or not, is as it was. */
  ghost predicate TickMoves(before: Schedules, after: Schedules, due: seq<string>, now: int, cap: nat) {
    && after.Keys == before.Keys
    && (forall id :: id in before && id !in due ==> after[id] == before[id])
    && (forall id :: id in due && id in before ==> exists skipped: nat :: MovedOn(before[id], after[id], now, cap, skipped))
  }

  lemma AdvancedExactlyMoves(before: Schedules, after: Schedules, due: seq<string>, now: int, cap: nat)
    requires Runnable(before) && AdvancedExactly(before, after, due, now, cap)
    ensures TickMoves(before, after, due, now, cap)
  {
    forall id | id in due && id in before ensures exists skipped: nat :: MovedOn(before[id], after[id], now, cap, skipped) {
      AdvancedMovesOn(before[id], now, cap);
    }
  }

  /** An advanced schedule is in the future, or the iteration cap left it due; it never stands still. */
  lemma AdvancedIsLater(row: ScheduleRow, now: int, cap: nat)
    requires ValidRecurrence(row.recurrence) && CalendarAdvances(row.recurrence.zone)
    ensures Advanced(row, now, cap).nextRunAt > row.nextRunAt
    ensures Advanced(row, now, cap).nextRunAt > now
         || CoalesceOutcome(row.recurrence, row.nextRunAt, now, cap).1 == cap
  {
    NextRunAdvances(row.recurrence, row.nextRunAt);
    CoalesceFromLater(row.recurrence, NextRun(row.recurrence, row.nextRunAt).value, now, cap);
  }

  lemma {:induction false} CoalesceFromLater(r: Recurrence, next: int, now: int, budget: nat)
    requires ValidRecurrence(r) && CalendarAdvances(r.zone)
    ensures var o := CoalesceFrom(r, next, now, budget); o.0 >= next && o.1 <= budget && (o.0 > now || o.1 == budget)
    decreases budget
  {
    if next <= now && budget > 0 {
      NextRunAdvances(r, next);
      CoalesceFromLater(r, NextRun(r, next).value, now, budget - 1);
    }
  }

  lemma KeysStayTaken(before: JobTable, after: JobTable, jobKey: string)
    requires forall j :: j in before ==> j in after && after[j] == before[j]
    ensures forall key :: KeyTaken(before, jobKey, key) ==> KeyTaken(after, jobKey, key)
  {
    forall key | KeyTaken(before, jobKey, key) ensures KeyTaken(after, jobKey, key) {
      var j :| j in before && SameKey(before[j], jobKey, key);
      assert SameKey(after[j], jobKey, key);
    }
  }

  /** The job a claimed occurrence of `id` asks for. */
  function OccurrenceJob(rows: Schedules, id: string, jobKey: string, stamp: int -> string, now: int): Job
    requires id in rows
  {
    NewJob(jobKey, OccurrenceKey(id, stamp(rows[id].nextRunAt)), Some(id), DEFAULT_MAX_ATTEMPTS, now)
  }

  ghost predicate HasJob(jobs: JobTable, rows: Schedules, id: string, jobKey: string, stamp: int -> string) {
    id in rows && KeyTaken(jobs, jobKey, OccurrenceKey(id, stamp(rows[id].nextRunAt)))
  }

  ghost predicate AskedFor(job: Job, rows: Schedules, due: seq<string>, jobKey: string, stamp: int -> string, now: int) {
    exists id :: id in due && id in rows && job == OccurrenceJob(rows, id, jobKey, stamp, now)
  }

  /** Jobs are only added, each for a claimed occurrence, and every claimed occurrence has its job. */
  ghost predicate Enqueued(before: JobTable, after: JobTable, rows: Schedules, due: seq<string>, jobKey: string, stamp: int -> string, now: int) {
    && (forall id {:trigger HasJob(after, rows, id, jobKey, stamp)} :: id in due ==> HasJob(after, rows, id, jobKey, stamp))
    && (forall j :: j in before ==> j in after && after[j] == before[j])
    && (forall j {:trigger AskedFor(after[j], rows, due, jobKey, stamp, now)} ::
          j in after && j !in before ==> AskedFor(after[j], rows, due, jobKey, stamp, now))
  }

  /** The job stands for this occurrence of the schedule. */
  predicate QueuedFor(job: Job, id: string, occurrence: int, jobKey: string, stamp: int -> string) {
    job.jobKey == jobKey && job.dedupeKey == id + ":" + stamp(occurrence)
  }

  predicate FreshJob(job: Job, id: string, now: int) {
    && job.payload == Some(id) && job.status == PENDING && job.attempts == 0 && job.maxAttempts == 5
    && job.nextRunAt == now && job.leaseOwner == None && job.leaseExpiresAt == None
  }

  /** Each selected occurrence has its job, the earlier jobs are untouched, and every new one is a fresh job for a selected occurrence. */
  ghost predicate TickQueues(before: JobTable, after: JobTable, rows: Schedules, due: seq<string>, jobKey: string, stamp: int -> string, now: int) {
    && (forall id :: id in due && id in rows ==> exists j :: j in after && QueuedFor(after[j], id, rows[id].nextRunAt, jobKey, stamp))
    && (forall j :: j in before ==> j in after && after[j] == before[j])
    && (forall j :: j in after && j !in before ==>
          exists id :: id in due && id in rows && QueuedFor(after[j], id, rows[id].nextRunAt, jobKey, stamp) && FreshJob(after[j], id, now))
  }

  lemma EnqueuedQueues(before: JobTable, after: JobTable, rows: Schedules, due: seq<string>, jobKey: string, stamp: int -> string, now: int)
    requires Enqueued(before, after, rows, due, jobKey, stamp, now)
    ensures TickQueues(before, after, rows, due, jobKey, stamp, now)
  {
    forall id | id in due && id in rows ensures exists j :: j in after && QueuedFor(after[j], id, rows[id].nextRunAt, jobKey, stamp) {
      assert HasJob(after, rows, id, jobKey, stamp);
      var j :| j in after && SameKey(after[j], jobKey, OccurrenceKey(id, stamp(rows[id].nextRunAt)));
      assert QueuedFor(after[j], id, rows[id].nextRunAt, jobKey, stamp);
    }
    forall j | j in after && j !in before
      ensures exists id :: id in due && id in rows && QueuedFor(after[j], id, rows[id].nextRunAt, jobKey, stamp) && FreshJob(after[j], id, now)
    {
      assert AskedFor(after[j], rows, due, jobKey, stamp, now);
      var id :| id in due && id in rows && after[j] == OccurrenceJob(rows, id, jobKey, stamp, now);
      assert QueuedFor(after[j], id, rows[id].nextRunAt, jobKey, stamp);
    }
  }

  lemma EnqueuedOneMore(before: JobTable, middle: JobTable, after: JobTable, rows: Schedules, due: seq<string>, id: string,
                        jobKey: string, stamp: int -> string, now: int)
    requires Enqueued(before, middle, rows, due, jobKey, stamp, now) && id in rows
    requires Enqueued(middle, after, rows, [id], jobKey, stamp, now)
    ensures Enqueued(before, after, rows, due + [id], jobKey, stamp, now)
  {
    KeysStayTaken(middle, after, jobKey);
    forall d | d in due + [id] ensures HasJob(after, rows, d, jobKey, stamp) {
      if d in due { assert HasJob(middle, rows, d, jobKey, stamp); } else { assert d in [id]; }
    }
    forall j | j in after && j !in before ensures AskedFor(after[j], rows, due + [id], jobKey, stamp, now) {
      if j in middle {
        assert AskedFor(middle[j], rows, due, jobKey, stamp, now);
        var d :| d in due && d in rows && middle[j] == OccurrenceJob(rows, d, jobKey, stamp, now);
        assert d in due + [id];
      } else {
        assert AskedFor(after[j], rows, [id], jobKey, stamp, now);
        assert id in due + [id];
      }
    }
  }

  lemma SelectedOnce(schedules: Schedules, due: seq<string>, i: nat, now: int)
    requires DueSelection(schedules, due, now) && i < |due|
    ensures due[i] !in due[..i] && due[i] in schedules
  {
    assert due[i] in due;
  }

  lemma AdvancedOneMore(rows: Schedules, current: Schedules, due: seq<string>, i: nat, now: int, cap: nat)
    requires i < |due| && due[i] !in due[..i] && due[i] in rows && AdvancedExactly(rows, current, due[..i], now, cap)
    ensures due[i] in current && current[due[i]] == rows[due[i]]
    ensures AdvancedExactly(rows, current[due[i] := Advanced(rows[due[i]], now, cap)], due[..i + 1], now, cap)
    ensures TotalSkipped(rows, due[..i + 1], now, cap) == TotalSkipped(rows, due[..i], now, cap)
         + CoalesceOutcome(rows[due[i]].recurrence, rows[due[i]].nextRunAt, now, cap).1
  {
    assert due[..i + 1] == due[..i] + [due[i]] && due[..i + 1][..i] == due[..i];
  }

  class Scheduler {
    var schedules: Schedules
    const queue: Queue
    const jobKey: string
    const cap: nat

    constructor (schedules: Schedules, queue: Queue, jobKey: string)
      ensures this.schedules == schedules && this.queue == queue && this.jobKey == jobKey
      ensures cap == MAX_COALESCE_ITERATIONS
    {
      this.schedules, this.queue, this.jobKey, this.cap := schedules, queue, jobKey, MAX_COALESCE_ITERATIONS;
    }

    /** The state of a tick after its first `i` schedules. */
    ghost predicate Ticked(rows: Schedules, jobs0: JobTable, due: seq<string>, now: int, stamp: int -> string)
      reads this, queue
    {
      && queue.Valid() && AdvancedExactly(rows, schedules, due, now, cap)
      && Enqueued(jobs0, queue.jobs, rows, due, jobKey, stamp, now)
    }

    /** Claims one occurrence by advancing the row, then enqueues its job. */
    method ClaimOccurrence(due: seq<string>, i: nat, now: int, stamp: int -> string, ghost rows: Schedules, ghost jobs0: JobTable)
      returns (skipped: nat, created: bool)
      requires i < |due| && due[i] !in due[..i] && due[i] in rows && Ticked(rows, jobs0, due[..i], now, stamp)
      requires ValidRecurrence(rows[due[i]].recurrence) && CalendarAdvances(rows[due[i]].recurrence.zone)
      modifies this, queue
      ensures Ticked(rows, jobs0, due[..i + 1], now, stamp)
      ensures TotalSkipped(rows, due[..i + 1], now, cap) == TotalSkipped(rows, due[..i], now, cap) + skipped
      ensures |queue.jobs| == |old(queue.jobs)| + if created then 1 else 0
    {
      AdvancedOneMore(rows, schedules, due, i, now, cap);
      var id := due[i];
      var row := schedules[id];
      var next, count := Coalesce(row.recurrence, row.nextRunAt, now, cap);
      skipped := count;
      schedules := schedules[id := row.(nextRunAt := next, lastRunAt := Some(now))];
      created := EnqueueOccurrence(id, row.nextRunAt, now, stamp, rows);
      EnqueuedOneMore(jobs0, old(queue.jobs), queue.jobs, rows, due[..i], id, jobKey, stamp, now);
      assert due[..i + 1] == due[..i] + [id];
    }

    method EnqueueOccurrence(id: string, occurrence: int, now: int, stamp: int -> string, ghost rows: Schedules) returns (created: bool)
      requires queue.Valid() && id in rows && rows[id].nextRunAt == occurrence
      modifies queue
      ensures queue.Valid() && Enqueued(old(queue.jobs), queue.jobs, rows, [id], jobKey, stamp, now)
      ensures |queue.jobs| == |old(queue.jobs)| + if created then 1 else 0
    {
      var j, isNew := queue.EnqueueJob(jobKey, OccurrenceKey(id, stamp(occurrence)), Some(id), None, now);
      created := isNew;
      assert HasJob(queue.jobs, rows, id, jobKey, stamp);
      assert id in [id];
    }

    /**
     * A tick without a concurrent writer. `stamp` prints an occurrence for the dedupe
     * key: the instant for workflows, the calendar day for backups.
     */
    method Tick(due: seq<string>, now: int, stamp: int -> string) returns (summary: Summary)
      requires queue.Valid() && Runnable(schedules) && DueSelection(schedules, due, now)
      modifies this, queue
      ensures queue.Valid() && AdvancedExactly(old(schedules), schedules, due, now, cap)
      ensures TickMoves(old(schedules), schedules, due, now, cap)
      ensures TickQueues(old(queue.jobs), queue.jobs, old(schedules), due, jobKey, stamp, now)
      ensures Enqueued(old(queue.jobs), queue.jobs, old(schedules), due, jobKey, stamp, now)
      ensures summary.dueCount == summary.claimedCount == |due|
      ensures summary.coalescedCount == TotalSkipped(old(schedules), due, now, cap)
      ensures |queue.jobs| == |old(queue.jobs)| + summary.enqueuedCount
    {
      var claimed, enqueued, coalesced := 0, 0, 0;
      ghost var rows := schedules;
      for i := 0 to |due|
        invariant Ticked(rows, old(queue.jobs), due[..i], now, stamp)
        invariant claimed == i && coalesced == TotalSkipped(rows, due[..i], now, cap)
        invariant |queue.jobs| == |old(queue.jobs)| + enqueued
      {
        SelectedOnce(rows, due, i, now);
        var skipped, created := ClaimOccurrence(due, i, now, stamp, rows, old(queue.jobs));
        claimed, coalesced := claimed + 1, coalesced + skipped;
        if created { enqueued := enqueued + 1; }
      }
      assert due[..|due|] == due;
      AdvancedExactlyMoves(rows, schedules, due, now, cap);
      EnqueuedQueues(old(queue.jobs), queue.jobs, rows, due, jobKey, stamp, now);
      summary := Summary(|due|, claimed, enqueued, coalesced);
    }
  }

  // ---------------------------------------------------------------- the backup schedule

  /** `Math.max(1, Math.round(intervalHours / 24))`. */
  function IntervalDays(intervalHours: int): int {
    var rounded := (intervalHours + 12) / 24;
    if rounded > 1 then rounded else 1
  }

  function BackupRecurrence(intervalHours: int, timeOfDay: string, zone: Zone): Recurrence {
    Recurrence(DAY, IntervalDays(intervalHours), Some(timeOfDay), None, zone)
  }

  /** Hours are rounded to the nearest whole day, half a day upwards, and to no less than one. */
  lemma HoursToDays(intervalHours: int)
    ensures var n := IntervalDays(intervalHours);
            && n >= 1 && (intervalHours < 36 ==> n == 1) && (intervalHours >= 36 ==> 24 * n - 12 <= intervalHours < 24 * n + 12)
  {
  }

  /** Backup runs keep their wall-clock time and are the interval, in rounded whole days, apart. */
  lemma BackupRunsDaysApart(intervalHours: int, timeOfDay: string, zone: Zone, after: int)
    requires TimeFormat(timeOfDay)
    ensures var r := BackupRecurrence(intervalHours, timeOfDay, zone); var run := NextRun(r, after).value;
            exists n :: n >= 1 && NextRun(r, run) == Some(run + n * 86_400_000)
              && (intervalHours < 36 ==> n == 1) && (intervalHours >= 36 ==> 24 * n - 12 <= intervalHours < 24 * n + 12)
    ensures var r := BackupRecurrence(intervalHours, timeOfDay, zone); var run := NextRun(r, after).value;
            NextRun(r, run) == Some(run + IntervalDays(intervalHours) * DAY_MS)
  {
    HoursToDays(intervalHours);
    SuccessiveRuns(BackupRecurrence(intervalHours, timeOfDay, zone), after);
  }

  /** The backup key stamps the UTC date of the occurrence instead of its instant. */
  function DayStamp(date: int -> string): int -> string {
    occurrence => date(occurrence / DAY_MS)
  }

  /** Two occurrences share a backup key exactly when they fall on one UTC day, and successive runs never do. */
  lemma BackupKeyPerDay(intervalHours: int, timeOfDay: string, zone: Zone, id: string, date: int -> string, after: int, occurrence: int)
    requires TimeFormat(timeOfDay) && ':' !in id && forall d: int, e: int :: date(d) == date(e) ==> d == e
    ensures var run := NextRun(BackupRecurrence(intervalHours, timeOfDay, zone), after).value;
            && (OccurrenceKey(id, DayStamp(date)(run)) == OccurrenceKey(id, DayStamp(date)(occurrence)) <==> run / DAY_MS == occurrence / DAY_MS)
            && var next := NextRun(BackupRecurrence(intervalHours, timeOfDay, zone), run).value;
               OccurrenceKey(id, DayStamp(date)(run)) != OccurrenceKey(id, DayStamp(date)(next))
  {
    var r := BackupRecurrence(intervalHours, timeOfDay, zone);
    var run := NextRun(r, after).value;
    var next := NextRun(r, run).value;
    BackupRunsDaysApart(intervalHours, timeOfDay, zone, after);
    DaysApart(run, IntervalDays(intervalHours));
    if OccurrenceKey(id, date(run / DAY_MS)) == OccurrenceKey(id, date(next / DAY_MS)) {
      OccurrenceKeyInjective(id, date(run / DAY_MS), id, date(next / DAY_MS));
    }
    if OccurrenceKey(id, date(run / DAY_MS)) == OccurrenceKey(id, date(occurrence / DAY_MS)) {
      OccurrenceKeyInjective(id, date(run / DAY_MS), id, date(occurrence / DAY_MS));
    }
  }

  lemma DaysApart(t: int, n: int)
    requires n >= 1
    ensures (t + n * DAY_MS) / DAY_MS == t / DAY_MS + n
  {
  }
}
