/** The lease-based job queue: each operation is one conditional write to the jobs table. */
module JobQueue {
  import opened Common

  datatype JobStatus = PENDING | CLAIMED | RUNNING | RETRY_WAIT | SUCCEEDED | FAILED | CANCELLED

  datatype Job = Job(
    jobKey: string,
    dedupeKey: string,
    payload: Option<string>,
    status: JobStatus,
    attempts: int,
    maxAttempts: int,
    nextRunAt: int,
    leaseOwner: Option<string>,
    leaseExpiresAt: Option<int>
  )

  type JobTable = map<nat, Job>

  const DEFAULT_MAX_ATTEMPTS := 5
  const MAX_BACKOFF_MS := 30_000

  function NewJob(jobKey: string, dedupeKey: string, payload: Option<string>, maxAttempts: int, runAt: int): Job {
    Job(jobKey, dedupeKey, payload, PENDING, 0, maxAttempts, runAt, None, None)
  }

  predicate SameKey(job: Job, jobKey: string, dedupeKey: string) {
    job.jobKey == jobKey && job.dedupeKey == dedupeKey
  }

  predicate KeyTaken(jobs: JobTable, jobKey: string, dedupeKey: string) {
    exists id :: id in jobs && SameKey(jobs[id], jobKey, dedupeKey)
  }

  predicate Leased(job: Job) {
    job.status == CLAIMED || job.status == RUNNING
  }

  /** Due, due for retry, or held under a lease that has run out. */
  predicate Claimable(job: Job, now: int) {
    || (job.status == PENDING && job.nextRunAt <= now)
    || (job.status == RETRY_WAIT && job.nextRunAt <= now)
    || (Leased(job) && job.leaseExpiresAt.Some? && job.leaseExpiresAt.value < now)
  }

  predicate OwnedIn(jobs: JobTable, id: nat, status: JobStatus, worker: string) {
    id in jobs && jobs[id].status == status && jobs[id].leaseOwner == Some(worker)
  }

  predicate Candidate(jobs: JobTable, id: nat, jobKey: string, now: int) {
    id in jobs && jobs[id].jobKey == jobKey && Claimable(jobs[id], now)
  }

  function Pow2(n: nat): nat {
    if n == 0 then 1 else 2 * Pow2(n - 1)
  }

  /** `Math.min(30_000, 1000 * 2 ** attempts)`. */
  function BackoffMs(attempts: nat): nat {
    if 1000 * Pow2(attempts) < MAX_BACKOFF_MS then 1000 * Pow2(attempts) else MAX_BACKOFF_MS
  }

  lemma {:induction false} BackoffGrows(a: nat, b: nat)
    requires a <= b
    ensures Pow2(a) <= Pow2(b) && 1000 <= BackoffMs(a) <= BackoffMs(b) <= MAX_BACKOFF_MS
    decreases b
  {
    if a < b { BackoffGrows(a, b - 1); } else { Pow2Positive(a); }
  }

  lemma {:induction false} Pow2Positive(n: nat)
    ensures Pow2(n) >= 1
  {
    if n > 0 { Pow2Positive(n - 1); }
  }

  /** Doubling from 2 s after the first failure up to the 30 s cap, which the fifth attempt reaches. */
  lemma BackoffSchedule()
    ensures BackoffMs(1) == 2_000 && BackoffMs(2) == 4_000 && BackoffMs(3) == 8_000 && BackoffMs(4) == 16_000
    ensures forall n: nat :: n >= 5 ==> BackoffMs(n) == 30_000
  {
    assert Pow2(1) == 2 && Pow2(2) == 4;
    assert Pow2(3) == 8 && Pow2(4) == 16;
    assert Pow2(5) == 32;
    forall n: nat | n >= 5 ensures BackoffMs(n) == 30_000 { BackoffGrows(5, n); }
  }

  // ---------------------------------------------------------------- the writes, as functions of the table

  function ClaimWrite(jobs: JobTable, id: nat, worker: string, now: int, leaseMs: int): JobTable {
    if id in jobs && Claimable(jobs[id], now)
    then jobs[id := jobs[id].(status := CLAIMED, leaseOwner := Some(worker), leaseExpiresAt := Some(now + leaseMs))]
    else jobs
  }

  function StartWrite(jobs: JobTable, id: nat, worker: string): JobTable {
    if OwnedIn(jobs, id, CLAIMED, worker) then jobs[id := jobs[id].(status := RUNNING)] else jobs
  }

  function CompleteWrite(jobs: JobTable, id: nat, worker: string): JobTable {
    if OwnedIn(jobs, id, RUNNING, worker)
    then jobs[id := jobs[id].(status := SUCCEEDED, leaseOwner := None, leaseExpiresAt := None)]
    else jobs
  }

  /** The write of `failJob`, from the attempts and limit it read beforehand. */
  function FailWrite(jobs: JobTable, id: nat, worker: string, readAttempts: int, readMax: int, now: int): JobTable {
    if !OwnedIn(jobs, id, RUNNING, worker) then jobs
    else
      var failed := jobs[id].(attempts := readAttempts + 1, leaseOwner := None, leaseExpiresAt := None);
      if readAttempts + 1 >= readMax then jobs[id := failed.(status := FAILED)]
      else jobs[id := failed.(status := RETRY_WAIT, nextRunAt := now + Backoff(readAttempts + 1))]
  }

  function Backoff(attempts: int): nat {
    if attempts >= 0 then BackoffMs(attempts) else 0
  }

  function RetryDeadLetterWrite(jobs: JobTable, id: nat, now: int): JobTable {
    if id in jobs && jobs[id].status == FAILED
    then jobs[id := jobs[id].(status := PENDING, attempts := 0, nextRunAt := now, leaseOwner := None, leaseExpiresAt := None)]
    else jobs
  }

  function CancelDeadLetterWrite(jobs: JobTable, id: nat): JobTable {
    if id in jobs && jobs[id].status == FAILED then jobs[id := jobs[id].(status := CANCELLED)] else jobs
  }

  // ---------------------------------------------------------------- what callers may rely on

  /** No row is added or lost, and at most this one differs. */
  predicate OnlyRow(before: JobTable, after: JobTable, id: nat) {
    id in before && after.Keys == before.Keys && forall j :: j in before && j != id ==> after[j] == before[j]
  }

  /** What no operation on an existing job ever changes. */
  predicate SameWork(a: Job, b: Job) {
    a.jobKey == b.jobKey && a.dedupeKey == b.dedupeKey && a.payload == b.payload && a.maxAttempts == b.maxAttempts
  }

  predicate Unleased(job: Job) {
    job.leaseOwner.None? && job.leaseExpiresAt.None?
  }

  /** The claimed job is this worker's for exactly the lease asked for; it stays due when it was and keeps its count. */
  predicate TakesLease(before: Job, after: Job, worker: string, now: int, leaseMs: int) {
    && SameWork(before, after) && after.attempts == before.attempts && after.nextRunAt == before.nextRunAt
    && after.status == CLAIMED && after.leaseOwner == Some(worker) && after.leaseExpiresAt == Some(now + leaseMs)
  }

  /** A wait is over, or a lease has run out. */
  predicate TimeHasCome(job: Job, now: int) {
    match job.status
    case PENDING => job.nextRunAt <= now
    case RETRY_WAIT => job.nextRunAt <= now
    case CLAIMED => job.leaseExpiresAt.Some? && job.leaseExpiresAt.value < now
    case RUNNING => job.leaseExpiresAt.Some? && job.leaseExpiresAt.value < now
    case _ => false
  }

  predicate Ends(before: Job, after: Job, status: JobStatus) {
    && SameWork(before, after) && after.attempts == before.attempts && after.nextRunAt == before.nextRunAt
    && after.status == status && Unleased(after)
  }

  /** One failure more: the last one allowed ends the job, any other makes it due again after its backoff. */
  predicate CountsFailure(before: Job, after: Job, now: int) {
    && SameWork(before, after) && after.attempts == before.attempts + 1 && Unleased(after)
    && if after.attempts >= after.maxAttempts then after.status == FAILED && after.nextRunAt == before.nextRunAt
       else after.status == RETRY_WAIT && after.nextRunAt == now + Backoff(after.attempts)
  }

  // ---------------------------------------------------------------- the service

  datatype Outcome = NotClaimed | Recorded(id: nat, outcome: JobStatus)

  class Queue {
    var jobs: JobTable
    var nextId: nat

    ghost predicate Valid()
      reads this
    {
      && (forall id :: id in jobs ==> id < nextId)
      && (forall i, j :: i in jobs && j in jobs && SameKey(jobs[i], jobs[j].jobKey, jobs[j].dedupeKey) ==> i == j)
    }

    constructor ()
      ensures Valid() && jobs == map[]
    {
      jobs, nextId := map[], 0;
    }

    /** Inserts the job unless the unique key is taken; either way returns the one job with that key. */
    method EnqueueJob(jobKey: string, dedupeKey: string, payload: Option<string>, maxAttempts: Option<int>, runAt: int)
      returns (id: nat, created: bool)
      requires Valid()
      modifies this
      ensures Valid()
      ensures id in jobs && SameKey(jobs[id], jobKey, dedupeKey)
      ensures created <==> !KeyTaken(old(jobs), jobKey, dedupeKey)
      ensures created ==>
                && id !in old(jobs) && jobs == old(jobs)[id := jobs[id]]
                && jobs[id] == NewJob(jobKey, dedupeKey, payload, if maxAttempts.Some? then maxAttempts.value else 5, runAt)
                && jobs[id].status == PENDING && jobs[id].attempts == 0 && Unleased(jobs[id]) && jobs[id].payload == payload
                && jobs[id].nextRunAt == runAt && jobs[id].maxAttempts == if maxAttempts.Some? then maxAttempts.value else 5
      ensures !created ==> jobs == old(jobs)
    {
      if KeyTaken(jobs, jobKey, dedupeKey) {
        id :| id in jobs && SameKey(jobs[id], jobKey, dedupeKey);
        created := false;
      } else {
        id, created := nextId, true;
        var limit := if maxAttempts.Some? then maxAttempts.value else DEFAULT_MAX_ATTEMPTS;
        jobs, nextId := jobs[id := NewJob(jobKey, dedupeKey, payload, limit, runAt)], nextId + 1;
      }
    }

    /** `findFirst ... orderBy nextRunAt asc`. */
    method FindCandidate(jobKey: string, now: int) returns (candidate: Option<nat>)
      ensures candidate.None? ==> forall id :: !Candidate(jobs, id, jobKey, now)
      ensures candidate.Some? ==>
                && Candidate(jobs, candidate.value, jobKey, now)
                && forall id :: Candidate(jobs, id, jobKey, now) ==> jobs[candidate.value].nextRunAt <= jobs[id].nextRunAt
    {
      candidate := None;
      var todo := jobs.Keys;
      while todo != {}
        invariant todo <= jobs.Keys
        invariant candidate.None? ==> forall id :: Candidate(jobs, id, jobKey, now) ==> id in todo
        invariant candidate.Some? ==>
                    && Candidate(jobs, candidate.value, jobKey, now)
                    && forall id :: Candidate(jobs, id, jobKey, now) ==>
                         id in todo || jobs[candidate.value].nextRunAt <= jobs[id].nextRunAt
        decreases todo
      {
        var id :| id in todo;
        if jobs[id].jobKey == jobKey && Claimable(jobs[id], now)
           && (candidate.None? || jobs[id].nextRunAt < jobs[candidate.value].nextRunAt) {
          candidate := Some(id);
        }
        todo := todo - {id};
      }
    }

    /** Without a concurrent writer the claim of a found candidate cannot be lost. */
    method ClaimJob(jobKey: string, worker: string, now: int, leaseMs: int) returns (claimed: Option<nat>)
      requires Valid()
      modifies this
      ensures Valid() && nextId == old(nextId)
      ensures claimed.None? ==> jobs == old(jobs)
      ensures claimed.Some? <==> exists id :: id in old(jobs) && old(jobs)[id].jobKey == jobKey && TimeHasCome(old(jobs)[id], now)
      ensures claimed.Some? ==>
                && OnlyRow(old(jobs), jobs, claimed.value)
                && old(jobs)[claimed.value].jobKey == jobKey && TimeHasCome(old(jobs)[claimed.value], now)
                && TakesLease(old(jobs)[claimed.value], jobs[claimed.value], worker, now, leaseMs)
                && forall id :: id in old(jobs) && old(jobs)[id].jobKey == jobKey && TimeHasCome(old(jobs)[id], now) ==>
                     old(jobs)[claimed.value].nextRunAt <= old(jobs)[id].nextRunAt
      ensures claimed.None? ==> forall id :: !Candidate(old(jobs), id, jobKey, now)
      ensures claimed.Some? ==>
                && Candidate(old(jobs), claimed.value, jobKey, now)
                && jobs == ClaimWrite(old(jobs), claimed.value, worker, now, leaseMs)
    {
      assert forall id :: id in jobs && jobs[id].jobKey == jobKey && TimeHasCome(jobs[id], now) ==> Candidate(jobs, id, jobKey, now);
      claimed := FindCandidate(jobKey, now);
      if claimed.Some? {
        jobs := ClaimWrite(jobs, claimed.value, worker, now, leaseMs);
      }
    }

    method StartJob(id: nat, worker: string) returns (ok: bool)
      requires Valid()
      modifies this
      ensures Valid() && jobs == StartWrite(old(jobs), id, worker) && nextId == old(nextId)
      ensures ok <==> id in old(jobs) && old(jobs)[id].status == CLAIMED && old(jobs)[id].leaseOwner == Some(worker)
      ensures if ok then OnlyRow(old(jobs), jobs, id) && jobs[id] == old(jobs)[id].(status := RUNNING) else jobs == old(jobs)
    {
      ok := OwnedIn(jobs, id, CLAIMED, worker);
      jobs := StartWrite(jobs, id, worker);
    }

    method CompleteJob(id: nat, worker: string) returns (ok: bool)
      requires Valid()
      modifies this
      ensures Valid() && jobs == CompleteWrite(old(jobs), id, worker) && nextId == old(nextId)
      ensures ok <==> id in old(jobs) && old(jobs)[id].status == RUNNING && old(jobs)[id].leaseOwner == Some(worker)
      ensures if ok then OnlyRow(old(jobs), jobs, id) && Ends(old(jobs)[id], jobs[id], SUCCEEDED) else jobs == old(jobs)
    {
      ok := OwnedIn(jobs, id, RUNNING, worker);
      jobs := CompleteWrite(jobs, id, worker);
    }

    /** `None` when the lease is lost, else whether the failure was the last one allowed. */
    method FailJob(id: nat, worker: string, now: int) returns (terminal: Option<bool>)
      requires Valid()
      modifies this
      ensures Valid() && nextId == old(nextId)
      ensures terminal.Some? <==> id in old(jobs) && old(jobs)[id].status == RUNNING && old(jobs)[id].leaseOwner == Some(worker)
      ensures terminal.None? ==> jobs == old(jobs)
      ensures terminal.Some? ==> jobs == FailWrite(old(jobs), id, worker, old(jobs)[id].attempts, old(jobs)[id].maxAttempts, now)
      ensures terminal.Some? ==>
                && OnlyRow(old(jobs), jobs, id) && CountsFailure(old(jobs)[id], jobs[id], now)
                && (terminal.value <==> jobs[id].status == FAILED)
    {
      if !OwnedIn(jobs, id, RUNNING, worker) {
        return None;
      }
      var newAttempts := jobs[id].attempts + 1;
      terminal := Some(newAttempts >= jobs[id].maxAttempts);
      jobs := FailWrite(jobs, id, worker, jobs[id].attempts, jobs[id].maxAttempts, now);
    }

    /** Admin retry of a dead letter: the job becomes due again with a clean count; anything but FAILED is refused. */
    method RetryDeadLetterJob(id: nat, now: int) returns (ok: bool)
      requires Valid()
      modifies this
      ensures Valid() && nextId == old(nextId) && jobs == RetryDeadLetterWrite(old(jobs), id, now)
      ensures ok <==> id in old(jobs) && old(jobs)[id].status == FAILED
      ensures ok ==>
                && OnlyRow(old(jobs), jobs, id) && SameWork(old(jobs)[id], jobs[id]) && Unleased(jobs[id])
                && jobs[id].status == PENDING && jobs[id].attempts == 0 && jobs[id].nextRunAt == now
      ensures !ok ==> jobs == old(jobs)
    {
      ok := id in jobs && jobs[id].status == FAILED;
      jobs := RetryDeadLetterWrite(jobs, id, now);
    }

    method CancelDeadLetterJob(id: nat) returns (ok: bool)
      requires Valid()
      modifies this
      ensures Valid() && nextId == old(nextId) && jobs == CancelDeadLetterWrite(old(jobs), id)
      ensures ok <==> id in old(jobs) && old(jobs)[id].status == FAILED
      ensures ok ==> OnlyRow(old(jobs), jobs, id) && jobs[id] == old(jobs)[id].(status := CANCELLED)
      ensures ok ==> forall now: int :: !TimeHasCome(jobs[id], now)
      ensures !ok ==> jobs == old(jobs)
    {
      ok := id in jobs && jobs[id].status == FAILED;
      jobs := CancelDeadLetterWrite(jobs, id);
    }

    /**
     * One uninterrupted worker tick. `handler` is absent when none is registered,
     * else tells whether the business logic returned or threw.
     */
    method RunWorkerTick(jobKey: string, worker: string, now: int, leaseMs: int, handler: Option<bool>) returns (result: Outcome)
      requires Valid()
      modifies this
      ensures Valid() && nextId == old(nextId)
      ensures result.Recorded? <==> exists id :: id in old(jobs) && old(jobs)[id].jobKey == jobKey && TimeHasCome(old(jobs)[id], now)
      ensures result.NotClaimed? ==> jobs == old(jobs)
      ensures result.Recorded? ==>
                && OnlyRow(old(jobs), jobs, result.id)
                && old(jobs)[result.id].jobKey == jobKey && TimeHasCome(old(jobs)[result.id], now)
      ensures result.Recorded? && handler == Some(true) ==>
                result.outcome == SUCCEEDED && Ends(old(jobs)[result.id], jobs[result.id], SUCCEEDED)
      ensures result.Recorded? && handler != Some(true) ==>
                && CountsFailure(old(jobs)[result.id], jobs[result.id], now)
                && result.outcome == (if handler.None? then FAILED else jobs[result.id].status)
    {
      var claimed := ClaimJob(jobKey, worker, now, leaseMs);
      if claimed.None? {
        return NotClaimed;
      }
      var id := claimed.value;
      var started := StartJob(id, worker);
      assert started;
      if handler.None? {
        var _ := FailJob(id, worker, now);
        return Recorded(id, FAILED);
      }
      if handler.value {
        var _ := CompleteJob(id, worker);
        result := Recorded(id, SUCCEEDED);
      } else {
        var terminal := FailJob(id, worker, now);
        result := Recorded(id, if terminal == Some(true) then FAILED else RETRY_WAIT);
      }
    }
  }
}
