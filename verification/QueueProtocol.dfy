/**
 * Workers sharing the job queue, interleaved at every read and write. A worker
 * id names one sequential process; a crash forgets its local state only.
 */
module QueueProtocol {
  import opened Common
  import opened JobQueue

  const DEFAULT_LEASE_MS := 30_000

  /** Where a worker is between two database statements, and the claim it acts under. */
  datatype Local =
    | Idle
    | Picked(id: nat, now: int)
    | Holding(id: nat, epoch: nat)
    | Working(id: nat, epoch: nat)
    | Returned(id: nat, epoch: nat)
    | Threw(id: nat, epoch: nat)
    | FailureRead(id: nat, epoch: nat, attempts: int, maxAttempts: int)

  /** Auxiliary bookkeeping, not part of the table: claims so far, failures since the last reset, times of the last failure and claim, lease asked for. */
  datatype History = History(epoch: nat, failures: nat, failedAt: int, leasedAt: int, leaseMs: int)

  datatype State = State(clock: int, jobs: JobTable, nextId: nat, workers: map<string, Local>, history: map<nat, History>)

  datatype Action =
    | Advance(ms: nat)
    | Enqueue(jobKey: string, dedupeKey: string, payload: Option<string>, maxAttempts: int, runAt: int)
    | Pick(worker: string, job: nat)
    | Claim(worker: string, leaseMs: int)
    | Start(worker: string)
    | HandlerReturns(worker: string)
    | HandlerThrows(worker: string)
    | Complete(worker: string)
    | ReadFailure(worker: string)
    | WriteFailure(worker: string)
    | Crash(worker: string)
    | RetryDeadLetter(job: nat)
    | CancelDeadLetter(job: nat)

  function LocalOf(s: State, worker: string): Local {
    if worker in s.workers then s.workers[worker] else Idle
  }

  function WithLocal(s: State, worker: string, local: Local): State {
    s.(workers := s.workers[worker := local])
  }

  function HistoryOf(s: State, id: nat): History {
    if id in s.history then s.history[id] else History(0, 0, 0, 0, 0)
  }

  function EnqueueStep(s: State, jobKey: string, dedupeKey: string, payload: Option<string>, maxAttempts: int, runAt: int): State {
    if KeyTaken(s.jobs, jobKey, dedupeKey) then s
    else s.(jobs := s.jobs[s.nextId := NewJob(jobKey, dedupeKey, payload, maxAttempts, runAt)], nextId := s.nextId + 1,
            history := s.history[s.nextId := History(0, 0, s.clock, 0, 0)])
  }

  function ClaimStep(s: State, worker: string, id: nat, now: int, leaseMs: int): State {
    if id in s.jobs && Claimable(s.jobs[id], now) then
      var h := HistoryOf(s, id);
      WithLocal(s, worker, Holding(id, h.epoch + 1))
        .(jobs := ClaimWrite(s.jobs, id, worker, now, leaseMs), history := s.history[id := h.(epoch := h.epoch + 1, leasedAt := now, leaseMs := leaseMs)])
    else WithLocal(s, worker, Idle)
  }

  function WriteFailureStep(s: State, worker: string, id: nat, attempts: int, maxAttempts: int): State {
    var t := WithLocal(s, worker, Idle).(jobs := FailWrite(s.jobs, id, worker, attempts, maxAttempts, s.clock));
    if OwnedIn(s.jobs, id, RUNNING, worker)
    then t.(history := s.history[id := HistoryOf(s, id).(failures := HistoryOf(s, id).failures + 1, failedAt := s.clock)])
    else t
  }

  /** One statement of one process; an action whose process is elsewhere does nothing. */
  function Next(s: State, a: Action): State {
    match a
    case Advance(ms) => s.(clock := s.clock + ms)
    case Enqueue(jobKey, dedupeKey, payload, maxAttempts, runAt) => EnqueueStep(s, jobKey, dedupeKey, payload, maxAttempts, runAt)
    case Pick(w, id) =>
      if LocalOf(s, w).Idle? && id in s.jobs && Claimable(s.jobs[id], s.clock) then WithLocal(s, w, Picked(id, s.clock)) else s
    case Claim(w, leaseMs) =>
      if LocalOf(s, w).Picked? then ClaimStep(s, w, LocalOf(s, w).id, LocalOf(s, w).now, leaseMs) else s
    case Start(w) =>
      var l := LocalOf(s, w);
      if !l.Holding? then s
      else if OwnedIn(s.jobs, l.id, CLAIMED, w) then WithLocal(s, w, Working(l.id, l.epoch)).(jobs := StartWrite(s.jobs, l.id, w))
      else WithLocal(s, w, Idle)
    case HandlerReturns(w) =>
      var l := LocalOf(s, w);
      if l.Working? then WithLocal(s, w, Returned(l.id, l.epoch)) else s
    // the handler throws, or the completion write does before it reaches the row
    case HandlerThrows(w) =>
      var l := LocalOf(s, w);
      if l.Working? || l.Returned? then WithLocal(s, w, Threw(l.id, l.epoch)) else s
    case Complete(w) =>
      var l := LocalOf(s, w);
      if l.Returned? then WithLocal(s, w, Idle).(jobs := CompleteWrite(s.jobs, l.id, w)) else s
    case ReadFailure(w) =>
      var l := LocalOf(s, w);
      if !l.Threw? then s
      else if OwnedIn(s.jobs, l.id, RUNNING, w)
      then WithLocal(s, w, FailureRead(l.id, l.epoch, s.jobs[l.id].attempts, s.jobs[l.id].maxAttempts))
      else WithLocal(s, w, Idle)
    case WriteFailure(w) =>
      var l := LocalOf(s, w);
      if l.FailureRead? then WriteFailureStep(s, w, l.id, l.attempts, l.maxAttempts) else s
    case Crash(w) => WithLocal(s, w, Idle)
    case RetryDeadLetter(id) =>
      if id in s.jobs && s.jobs[id].status == FAILED
      then s.(jobs := RetryDeadLetterWrite(s.jobs, id, s.clock), history := s.history[id := HistoryOf(s, id).(failures := 0)])
      else s
    case CancelDeadLetter(id) => s.(jobs := CancelDeadLetterWrite(s.jobs, id))
  }

  ghost predicate Init(s: State) {
    s.jobs == map[] && s.nextId == 0 && s.workers == map[] && s.history == map[]
  }

  function Run(s: State, actions: seq<Action>): State {
    if actions == [] then s else Next(Run(s, actions[..|actions| - 1]), actions[|actions| - 1])
  }

  // ---------------------------------------------------------------- invariants

  ghost predicate KeysUnique(s: State) {
    && s.history.Keys == s.jobs.Keys
    && (forall id :: id in s.jobs ==> id < s.nextId)
    && (forall i, j :: i in s.jobs && j in s.jobs && SameKey(s.jobs[i], s.jobs[j].jobKey, s.jobs[j].dedupeKey) ==> i == j)
  }

  /** An owner exactly while claimed or running, and never without an expiry. */
  predicate LeaseOk(job: Job) {
    && (job.leaseOwner.Some? <==> Leased(job))
    && (job.leaseExpiresAt.Some? <==> job.leaseOwner.Some?)
  }

  /** The failure count at which a job becomes terminal. */
  function FailureLimit(job: Job): int {
    if job.maxAttempts >= 1 then job.maxAttempts else 1
  }

  predicate AttemptsOk(job: Job, h: History) {
    && job.attempts == h.failures
    && (if job.status == FAILED || job.status == CANCELLED then job.attempts == FailureLimit(job) else job.attempts < FailureLimit(job))
  }

  predicate RetryOk(job: Job, h: History, clock: int) {
    h.failedAt <= clock && (job.status == RETRY_WAIT ==> job.nextRunAt == h.failedAt + Backoff(job.attempts))
  }

  ghost predicate JobsOk(s: State) {
    forall id :: id in s.jobs ==> JobOk(s, id)
  }

  /** The worker's claim is the latest one on its job. */
  predicate Current(s: State, id: nat, epoch: nat) {
    epoch == HistoryOf(s, id).epoch
  }

  /** Owning the row in the expected status is the same as no later claim having happened. */
  predicate LocalOk(s: State, worker: string, l: Local) {
    match l
    case Idle => true
    case Picked(id, now) => now <= s.clock
    case Holding(id, e) => id in s.jobs && e <= HistoryOf(s, id).epoch && (Current(s, id, e) <==> OwnedIn(s.jobs, id, CLAIMED, worker))
    case Working(id, e) => id in s.jobs && e <= HistoryOf(s, id).epoch && (Current(s, id, e) <==> OwnedIn(s.jobs, id, RUNNING, worker))
    case Returned(id, e) => id in s.jobs && e <= HistoryOf(s, id).epoch && (Current(s, id, e) <==> OwnedIn(s.jobs, id, RUNNING, worker))
    case Threw(id, e) => id in s.jobs && e <= HistoryOf(s, id).epoch && (Current(s, id, e) <==> OwnedIn(s.jobs, id, RUNNING, worker))
    case FailureRead(id, e, attempts, maxAttempts) =>
      && id in s.jobs && e <= HistoryOf(s, id).epoch && (Current(s, id, e) <==> OwnedIn(s.jobs, id, RUNNING, worker))
      && (Current(s, id, e) ==> attempts == s.jobs[id].attempts && maxAttempts == s.jobs[id].maxAttempts)
  }

  ghost predicate LocalsOk(s: State) {
    forall w :: LocalOk(s, w, LocalOf(s, w))
  }

  ghost predicate Inv(s: State) {
    KeysUnique(s) && JobsOk(s) && LocalsOk(s)
  }

  // ---------------------------------------------------------------- every step keeps the invariants

  lemma {:induction false} KeysCarryOver(s: State, t: State)
    requires KeysUnique(s) && t.jobs.Keys == s.jobs.Keys && t.history.Keys == s.history.Keys && t.nextId == s.nextId
    requires forall id :: id in s.jobs ==> SameKey(t.jobs[id], s.jobs[id].jobKey, s.jobs[id].dedupeKey)
    ensures KeysUnique(t)
  {
    forall i, j | i in t.jobs && j in t.jobs && SameKey(t.jobs[i], t.jobs[j].jobKey, t.jobs[j].dedupeKey) ensures i == j {
      assert SameKey(s.jobs[i], s.jobs[j].jobKey, s.jobs[j].dedupeKey);
    }
  }

  /** The rows of both states are the same by id and key. */
  ghost predicate SameRows(s: State, t: State) {
    && t.jobs.Keys == s.jobs.Keys && t.history.Keys == s.history.Keys && t.nextId == s.nextId
    && forall id :: id in s.jobs ==> SameKey(t.jobs[id], s.jobs[id].jobKey, s.jobs[id].dedupeKey)
  }

  lemma WorkerKeepsRows(s: State, a: Action)
    requires WorkerWrite(a) && s.history.Keys == s.jobs.Keys && ActorOk(s, a)
    ensures SameRows(s, Next(s, a))
  {
    match a
    case Claim(_, _) =>
    case Start(_) =>
    case Complete(_) =>
    case WriteFailure(_) =>
  }

  lemma AdminKeepsRows(s: State, a: Action)
    requires a.RetryDeadLetter? || a.CancelDeadLetter?
    requires s.history.Keys == s.jobs.Keys
    ensures SameRows(s, Next(s, a))
  {
  }

  /** Every action that is neither of the above nor an enqueue leaves the tables alone. */
  lemma OthersKeepTables(s: State, a: Action)
    requires !a.Enqueue? && !WorkerWrite(a) && !a.RetryDeadLetter? && !a.CancelDeadLetter?
    ensures Next(s, a).jobs == s.jobs && Next(s, a).history == s.history && Next(s, a).nextId == s.nextId
  {
  }

  lemma EnqueueKeepsKeys(s: State, a: Action)
    requires KeysUnique(s) && a.Enqueue?
    ensures KeysUnique(Next(s, a))
  {
  }

  lemma StepKeepsKeys(s: State, a: Action)
    requires KeysUnique(s) && LocalsOk(s)
    ensures KeysUnique(Next(s, a))
  {
    if a.Enqueue? {
      EnqueueKeepsKeys(s, a);
    } else if WorkerWrite(a) {
      assert ActorOk(s, a);
      WorkerKeepsRows(s, a);
      KeysCarryOver(s, Next(s, a));
    } else if a.RetryDeadLetter? || a.CancelDeadLetter? {
      AdminKeepsRows(s, a);
      KeysCarryOver(s, Next(s, a));
    } else {
      OthersKeepTables(s, a);
    }
  }

  /** A lease ends when the claim said, counted from the time the claim was decided on. */
  predicate LeaseTimed(job: Job, h: History) {
    Leased(job) ==> job.leaseExpiresAt == Some(h.leasedAt + h.leaseMs)
  }

  predicate JobOk(s: State, id: nat)
    requires id in s.jobs
  {
    LeaseOk(s.jobs[id]) && LeaseTimed(s.jobs[id], HistoryOf(s, id)) && AttemptsOk(s.jobs[id], HistoryOf(s, id)) && RetryOk(s.jobs[id], HistoryOf(s, id), s.clock)
  }

  /** The worker an action belongs to, if any. */
  function Actor(a: Action): Option<string> {
    match a
    case Pick(w, _) => Some(w)
    case Claim(w, _) => Some(w)
    case Start(w) => Some(w)
    case HandlerReturns(w) => Some(w)
    case HandlerThrows(w) => Some(w)
    case Complete(w) => Some(w)
    case ReadFailure(w) => Some(w)
    case WriteFailure(w) => Some(w)
    case Crash(w) => Some(w)
    case _ => None
  }

  ghost predicate ActorOk(s: State, a: Action) {
    Actor(a).Some? ==> LocalOk(s, Actor(a).value, LocalOf(s, Actor(a).value))
  }

  /** The writes a worker makes under a claim. */
  predicate WorkerWrite(a: Action) {
    a.Claim? || a.Start? || a.Complete? || a.WriteFailure?
  }

  lemma JobKeptByClaim(s: State, a: Action, id: nat)
    requires a.Claim? && id in s.jobs && JobOk(s, id) && ActorOk(s, a)
    ensures id in Next(s, a).jobs && JobOk(Next(s, a), id)
  {
  }

  lemma JobKeptByFailure(s: State, a: Action, id: nat)
    requires a.WriteFailure? && id in s.jobs && JobOk(s, id) && ActorOk(s, a)
    ensures id in Next(s, a).jobs && JobOk(Next(s, a), id)
  {
  }

  lemma JobKeptByWorker(s: State, a: Action, id: nat)
    requires WorkerWrite(a) && id in s.jobs && JobOk(s, id) && ActorOk(s, a)
    ensures id in Next(s, a).jobs && JobOk(Next(s, a), id)
  {
    match a
    case Claim(_, _) => JobKeptByClaim(s, a, id);
    case WriteFailure(_) => JobKeptByFailure(s, a, id);
    case Start(_) =>
    case Complete(_) =>
  }

  lemma JobKept(s: State, a: Action, id: nat)
    requires id in s.jobs && JobOk(s, id) && ActorOk(s, a) && (forall j :: j in s.jobs ==> j < s.nextId)
    ensures id in Next(s, a).jobs && JobOk(Next(s, a), id)
  {
    match a
    case Advance(_) =>
    case Enqueue(_, _, _, _, _) =>
    case RetryDeadLetter(_) =>
    case CancelDeadLetter(_) =>
    case _ => if WorkerWrite(a) { JobKeptByWorker(s, a, id); }
  }

  lemma {:induction false} StepKeepsJobs(s: State, a: Action)
    requires Inv(s)
    ensures JobsOk(Next(s, a))
  {
    var t := Next(s, a);
    assert ActorOk(s, a);
    forall id | id in t.jobs ensures JobOk(t, id) {
      if id in s.jobs {
        JobKept(s, a, id);
      } else {
        assert a.Enqueue? && id == s.nextId;
      }
    }
  }

  lemma LocalKeptByClaim(s: State, a: Action, w: string)
    requires a.Claim? && LocalOk(s, w, LocalOf(s, w)) && ActorOk(s, a)
    ensures LocalOk(Next(s, a), w, LocalOf(Next(s, a), w))
  {
  }

  lemma LocalKeptByFailure(s: State, a: Action, w: string)
    requires a.WriteFailure? && LocalOk(s, w, LocalOf(s, w)) && ActorOk(s, a)
    ensures LocalOk(Next(s, a), w, LocalOf(Next(s, a), w))
  {
  }

  lemma LocalKeptByWorker(s: State, a: Action, w: string)
    requires WorkerWrite(a) && LocalOk(s, w, LocalOf(s, w)) && ActorOk(s, a)
    ensures LocalOk(Next(s, a), w, LocalOf(Next(s, a), w))
  {
    match a
    case Claim(_, _) => LocalKeptByClaim(s, a, w);
    case WriteFailure(_) => LocalKeptByFailure(s, a, w);
    case Start(_) =>
    case Complete(_) =>
  }

  lemma LocalKept(s: State, a: Action, w: string)
    requires LocalOk(s, w, LocalOf(s, w)) && ActorOk(s, a)
    requires s.history.Keys == s.jobs.Keys && forall j :: j in s.jobs ==> j < s.nextId
    ensures LocalOk(Next(s, a), w, LocalOf(Next(s, a), w))
  {
    match a
    case Advance(_) =>
    case Enqueue(_, _, _, _, _) =>
    case Pick(_, _) =>
    case HandlerReturns(_) =>
    case HandlerThrows(_) =>
    case ReadFailure(_) =>
    case Crash(_) =>
    case RetryDeadLetter(_) =>
    case CancelDeadLetter(_) =>
    case _ => LocalKeptByWorker(s, a, w);
  }

  lemma StepKeepsLocals(s: State, a: Action)
    requires KeysUnique(s) && LocalsOk(s)
    ensures LocalsOk(Next(s, a))
  {
    var t := Next(s, a);
    assert ActorOk(s, a);
    forall w ensures LocalOk(t, w, LocalOf(t, w)) {
      LocalKept(s, a, w);
    }
  }

  /** The invariants hold in every state of every interleaving. */
  lemma {:induction false} RunKeepsInv(s: State, actions: seq<Action>)
    requires Init(s)
    ensures Inv(Run(s, actions))
  {
    if actions != [] {
      var before := actions[..|actions| - 1];
      RunKeepsInv(s, before);
      StepKeepsKeys(Run(s, before), actions[|actions| - 1]);
      StepKeepsJobs(Run(s, before), actions[|actions| - 1]);
      StepKeepsLocals(Run(s, before), actions[|actions| - 1]);
    }
  }

  // ---------------------------------------------------------------- lease safety

  /** The claim a worker acts under, when it is about to write to its job. */
  function ActingOn(l: Local): Option<(nat, nat)> {
    match l
    case Idle => None
    case Picked(_, _) => None
    case Holding(id, e) => Some((id, e))
    case Working(id, e) => Some((id, e))
    case Returned(id, e) => Some((id, e))
    case Threw(id, e) => Some((id, e))
    case FailureRead(id, e, _, _) => Some((id, e))
  }

  /** A write that starts a job or records its outcome, issued by a worker that is at that point. */
  predicate OutcomeWrite(s: State, a: Action) {
    || (a.Start? && LocalOf(s, a.worker).Holding?)
    || (a.Complete? && LocalOf(s, a.worker).Returned?)
    || (a.WriteFailure? && LocalOf(s, a.worker).FailureRead?)
  }

  /**
   * Fencing without tokens: a worker's write lands exactly when nobody has claimed
   * the job since; after a reclaim every late write changes nothing.
   */
  lemma WriteLandsIffCurrent(s: State, a: Action)
    requires Inv(s) && OutcomeWrite(s, a)
    ensures var claim := ActingOn(LocalOf(s, a.worker)).value;
            && claim.0 in s.jobs
            && (Current(s, claim.0, claim.1) <==> Next(s, a).jobs != s.jobs)
            && (Current(s, claim.0, claim.1) ==>
                  var job := Next(s, a).jobs[claim.0];
                  && Next(s, a).jobs == s.jobs[claim.0 := job]
                  && (a.Start? ==> job.status == RUNNING && job.leaseOwner == Some(a.worker))
                  && (a.Complete? ==> job.status == SUCCEEDED && job.leaseOwner.None? && job.attempts == s.jobs[claim.0].attempts)
                  && (a.WriteFailure? ==>
                        && job.attempts == s.jobs[claim.0].attempts + 1 && job.leaseOwner.None?
                        && job.status == if job.attempts >= job.maxAttempts then FAILED else RETRY_WAIT))
  {
    var l := LocalOf(s, a.worker);
    assert LocalOk(s, a.worker, l);
    var claim := ActingOn(l).value;
    if Current(s, claim.0, claim.1) {
      assert Next(s, a).jobs[claim.0].status != s.jobs[claim.0].status;
    }
  }

  /** A leased job changes only by its owner's own write or by a claim after the lease ran out. */
  lemma {:induction false} OnlyOwnerOrExpiry(s: State, a: Action, id: nat)
    requires Inv(s) && id in s.jobs && Leased(s.jobs[id])
    ensures id in Next(s, a).jobs
    ensures Next(s, a).jobs[id] != s.jobs[id] ==>
              || (OutcomeWrite(s, a) && s.jobs[id].leaseOwner == Some(a.worker) && ActingOn(LocalOf(s, a.worker)).value.0 == id)
              || (a.Claim? && s.jobs[id].leaseExpiresAt.value < s.clock
                  && Next(s, a).jobs[id].leaseOwner == Some(a.worker) && Next(s, a).jobs[id].attempts == s.jobs[id].attempts)
  {
    assert ActorOk(s, a);
    assert JobOk(s, id);
    match a
    case Claim(_, _) =>
    case Start(_) =>
    case Complete(_) =>
    case WriteFailure(_) =>
    case _ =>
  }

  /** The claim of a picked job lands, and takes the lease asked for, exactly when a wait or a lease is over at the time it was decided on. */
  lemma ClaimLandsIff(s: State, w: string, leaseMs: int)
    requires Inv(s) && LocalOf(s, w).Picked? && LocalOf(s, w).id in s.jobs
    ensures var id, now, t := LocalOf(s, w).id, LocalOf(s, w).now, Next(s, Claim(w, leaseMs));
            && now <= s.clock && id in t.jobs
            && (TimeHasCome(s.jobs[id], now) <==> HistoryOf(t, id).epoch == HistoryOf(s, id).epoch + 1)
            && (TimeHasCome(s.jobs[id], now) ==> OnlyRow(s.jobs, t.jobs, id) && TakesLease(s.jobs[id], t.jobs[id], w, now, leaseMs))
            && (!TimeHasCome(s.jobs[id], now) ==> t.jobs == s.jobs && HistoryOf(t, id) == HistoryOf(s, id))
  {
    assert LocalOk(s, w, LocalOf(s, w));
  }

  /** No claim lands on a leased job before the time of its last claim plus the lease asked for then. */
  lemma NoClaimWithinLease(s: State, a: Action, id: nat)
    requires Inv(s) && id in s.jobs && Leased(s.jobs[id])
    requires HistoryOf(Next(s, a), id).epoch != HistoryOf(s, id).epoch
    ensures a.Claim? && s.clock > HistoryOf(s, id).leasedAt + HistoryOf(s, id).leaseMs
  {
    assert JobOk(s, id) && ActorOk(s, a);
    match a
    case Claim(_, _) =>
    case _ =>
  }

  /** A job waiting for its retry is claimed no earlier than its backoff after the failure. */
  lemma RetryWaitsForBackoff(s: State, a: Action, id: nat)
    requires Inv(s) && id in s.jobs && s.jobs[id].status == RETRY_WAIT
    ensures id in Next(s, a).jobs
    ensures Next(s, a).jobs[id] != s.jobs[id] ==>
              && a.Claim? && s.clock >= HistoryOf(s, id).failedAt + Backoff(s.jobs[id].attempts)
              && Next(s, a).jobs[id].status == CLAIMED
  {
    assert ActorOk(s, a);
    assert JobOk(s, id);
    match a
    case Claim(_, _) =>
    case Start(_) =>
    case Complete(_) =>
    case WriteFailure(_) =>
    case _ =>
  }

  predicate Final(job: Job) {
    job.status == SUCCEEDED || job.status == CANCELLED
  }

  lemma FinalStep(s: State, a: Action, id: nat)
    requires id in s.jobs && Final(s.jobs[id]) && id < s.nextId
    ensures id in Next(s, a).jobs && Next(s, a).jobs[id] == s.jobs[id] && id < Next(s, a).nextId
  {
    match a
    case Claim(_, _) =>
    case Start(_) =>
    case Complete(_) =>
    case WriteFailure(_) =>
    case _ =>
  }

  /** A success is recorded at most once and never undone, and neither is a cancellation. */
  lemma {:induction false} FinalForever(s: State, actions: seq<Action>, id: nat)
    requires id in s.jobs && Final(s.jobs[id]) && id < s.nextId
    ensures id in Run(s, actions).jobs && Run(s, actions).jobs[id] == s.jobs[id] && id < Run(s, actions).nextId
  {
    if actions != [] {
      var before := actions[..|actions| - 1];
      FinalForever(s, before, id);
      FinalStep(Run(s, before), actions[|actions| - 1], id);
    }
  }

  /**
   * In every reachable state a job's attempts are its failures since the last
   * reset, below the limit until it fails for good and equal to it from then on;
   * an owner is recorded exactly while it is claimed or running.
   */
  lemma {:induction false} ReachableJobs(s: State, actions: seq<Action>, id: nat)
    requires Init(s) && id in Run(s, actions).jobs
    ensures var t := Run(s, actions); var job := t.jobs[id];
            && (job.leaseOwner.Some? <==> job.status == CLAIMED || job.status == RUNNING)
            && job.attempts == HistoryOf(t, id).failures
            && (job.maxAttempts >= 1 ==>
                  if job.status == FAILED || job.status == CANCELLED then job.attempts == job.maxAttempts else job.attempts < job.maxAttempts)
            && forall j :: j in t.jobs && SameKey(t.jobs[j], job.jobKey, job.dedupeKey) ==> j == id
  {
    RunKeepsInv(s, actions);
    assert JobOk(Run(s, actions), id);
  }
}
