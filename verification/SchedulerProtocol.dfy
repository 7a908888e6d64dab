/**
 * Scheduler instances, queue workers and the workflow engine's idempotency key,
 * interleaved at every read and write: from a due schedule to a workflow instance.
 */
module SchedulerProtocol {
  import opened Common
  import opened Schedule
  import opened JobQueue
  import opened SchedulerTick
  import Q = QueueProtocol

  /** A scheduler process inside its tick: after the due query, and between claim and enqueue. */
  datatype SchedulerLocal = Asleep | Seen(id: string, occurrence: int, now: int) | Won(id: string, occurrence: int)

  /** `setScheduledWorkflowEnabled` between its read and its write. */
  datatype ToggleLocal = ToggleLocal(id: string, enabled: bool, nextRunAt: int)

  /** The definition a handler looked up, with the claim it runs under. */
  datatype Lookup = Lookup(id: nat, epoch: nat, definition: nat)

  /** A workflow instance by its unique key within the workspace. */
  datatype Instance = Instance(definition: nat, idempotencyKey: string)

  /** One claimed occurrence, in claim order. */
  datatype Claimed = Claimed(id: string, occurrence: int)

  datatype State = State(
    queue: Q.State,
    schedules: Schedules,
    schedulers: map<string, SchedulerLocal>,
    toggles: map<string, ToggleLocal>,
    activeDefinition: nat,
    lookups: map<string, Lookup>,
    instances: seq<Instance>,
    claims: seq<Claimed>
  )

  datatype Action =
    | Queue(step: Q.Action)
    | ReadDue(scheduler: string, id: string)
    | Cas(scheduler: string)
    | EnqueueWon(scheduler: string)
    | CrashScheduler(scheduler: string)
    | ToggleRead(user: string, id: string, enabled: bool)
    | ToggleWrite(user: string)
    | LookupDefinition(worker: string)
    | CreateInstance(worker: string)
    | Publish(definition: nat)

  function SchedulerOf(s: State, p: string): SchedulerLocal {
    if p in s.schedulers then s.schedulers[p] else Asleep
  }

  /** Re-enabling re-anchors the schedule to now; disabling keeps the value read. */
  function ToggledNextRun(row: ScheduleRow, enabled: bool, now: int): int {
    if enabled && NextRun(row.recurrence, now).Some? then NextRun(row.recurrence, now).value else row.nextRunAt
  }

  function WithToggle(schedules: Schedules, id: string, enabled: bool, nextRunAt: int): Schedules
    requires id in schedules
  {
    schedules[id := schedules[id].(enabled := enabled, nextRunAt := nextRunAt)]
  }

  /** The enqueue of a claimed occurrence. */
  function EnqueueFor(id: string, stamp: string, now: int): Q.Action {
    Q.Enqueue(SCHEDULED_WORKFLOW_JOB_KEY, OccurrenceKey(id, stamp), Some(id), DEFAULT_MAX_ATTEMPTS, now)
  }

  function CasStep(s: State, p: string, id: string, occurrence: int, now: int, cap: nat): State {
    if id in s.schedules && s.schedules[id].nextRunAt == occurrence
    then s.(schedules := s.schedules[id := Advanced(s.schedules[id], now, cap)],
            schedulers := s.schedulers[p := Won(id, occurrence)],
            claims := s.claims + [Claimed(id, occurrence)])
    else s.(schedulers := s.schedulers[p := Asleep])
  }

  function LookupStep(s: State, w: string): State {
    var l := Q.LocalOf(s.queue, w);
    if l.Working? then s.(lookups := s.lookups[w := Lookup(l.id, l.epoch, s.activeDefinition)]) else s
  }

  /** Insert under the unique key (definition, idempotency key); an existing row is returned instead. */
  function CreateStep(s: State, w: string): State {
    var l := Q.LocalOf(s.queue, w);
    if l.Working? && w in s.lookups && s.lookups[w].id == l.id && s.lookups[w].epoch == l.epoch
       && l.id in s.queue.jobs && s.queue.jobs[l.id].jobKey == SCHEDULED_WORKFLOW_JOB_KEY
    then
      var instance := Instance(s.lookups[w].definition, s.queue.jobs[l.id].dedupeKey);
      if instance in s.instances then s else s.(instances := s.instances + [instance])
    else s
  }

  /** Only the scheduler enqueues jobs under its own job key. */
  predicate Foreign(step: Q.Action) {
    step.Enqueue? ==> step.jobKey != SCHEDULED_WORKFLOW_JOB_KEY
  }

  function Next(s: State, a: Action, stamp: int -> string, cap: nat): State {
    match a
    case Queue(step) => if Foreign(step) then s.(queue := Q.Next(s.queue, step)) else s
    case ReadDue(p, id) =>
      if SchedulerOf(s, p).Asleep? && id in s.schedules && Due(s.schedules[id], s.queue.clock)
      then s.(schedulers := s.schedulers[p := Seen(id, s.schedules[id].nextRunAt, s.queue.clock)]) else s
    case Cas(p) =>
      var l := SchedulerOf(s, p);
      if l.Seen? then CasStep(s, p, l.id, l.occurrence, l.now, cap) else s
    case EnqueueWon(p) =>
      var l := SchedulerOf(s, p);
      if l.Won?
      then s.(queue := Q.Next(s.queue, EnqueueFor(l.id, stamp(l.occurrence), s.queue.clock)), schedulers := s.schedulers[p := Asleep])
      else s
    case CrashScheduler(p) => s.(schedulers := s.schedulers[p := Asleep])
    case ToggleRead(u, id, enabled) =>
      if id in s.schedules
      then s.(toggles := s.toggles[u := ToggleLocal(id, enabled, ToggledNextRun(s.schedules[id], enabled, s.queue.clock))])
      else s
    case ToggleWrite(u) =>
      if u in s.toggles && s.toggles[u].id in s.schedules
      then s.(schedules := WithToggle(s.schedules, s.toggles[u].id, s.toggles[u].enabled, s.toggles[u].nextRunAt), toggles := s.toggles - {u})
      else s
    case LookupDefinition(w) => LookupStep(s, w)
    case CreateInstance(w) => CreateStep(s, w)
    case Publish(definition) => s.(activeDefinition := definition)
  }

  function Run(s: State, actions: seq<Action>, stamp: int -> string, cap: nat): State {
    if actions == [] then s else Next(Run(s, actions[..|actions| - 1], stamp, cap), actions[|actions| - 1], stamp, cap)
  }

  ghost predicate Init(s: State) {
    && Q.Init(s.queue) && Runnable(s.schedules) && (forall id :: id in s.schedules ==> ':' !in id)
    && s.schedulers == map[] && s.toggles == map[] && s.lookups == map[] && s.instances == [] && s.claims == []
  }

  ghost predicate Injective(stamp: int -> string) {
    forall a: int, b: int :: stamp(a) == stamp(b) ==> a == b
  }

  // ---------------------------------------------------------------- what every step keeps

  ghost predicate InstancesUnique(s: State) {
    forall i, j :: 0 <= i < j < |s.instances| ==> s.instances[i] != s.instances[j]
  }

  predicate StandsFor(job: Job, c: Claimed, stamp: int -> string) {
    SameKey(job, SCHEDULED_WORKFLOW_JOB_KEY, OccurrenceKey(c.id, stamp(c.occurrence)))
  }

  ghost predicate FromClaim(job: Job, claims: seq<Claimed>, stamp: int -> string) {
    exists c :: c in claims && StandsFor(job, c, stamp)
  }

  /** Every job under the scheduler's key stands for a claimed occurrence. */
  ghost predicate JobsFromClaims(s: State, stamp: int -> string) {
    forall id :: id in s.queue.jobs && s.queue.jobs[id].jobKey == SCHEDULED_WORKFLOW_JOB_KEY ==> FromClaim(s.queue.jobs[id], s.claims, stamp)
  }

  ghost predicate HasOccurrenceJob(s: State, key: string) {
    KeyTaken(s.queue.jobs, SCHEDULED_WORKFLOW_JOB_KEY, key)
  }

  ghost predicate InstancesFromJobs(s: State) {
    forall i :: 0 <= i < |s.instances| ==> HasOccurrenceJob(s, s.instances[i].idempotencyKey)
  }

  ghost predicate WonOk(s: State, p: string) {
    SchedulerOf(s, p).Won? ==> Claimed(SchedulerOf(s, p).id, SchedulerOf(s, p).occurrence) in s.claims
  }

  ghost predicate ClaimsKnown(s: State) {
    && (forall p :: WonOk(s, p))
    && (forall c :: c in s.claims ==> c.id in s.schedules)
    && (forall id :: id in s.schedules ==> ':' !in id)
  }

  ghost predicate Inv(s: State, stamp: int -> string) {
    Q.Inv(s.queue) && ClaimsKnown(s) && JobsFromClaims(s, stamp) && InstancesFromJobs(s) && InstancesUnique(s)
  }

  lemma StepKeepsClaims(s: State, a: Action, stamp: int -> string, cap: nat)
    requires ClaimsKnown(s)
    ensures ClaimsKnown(Next(s, a, stamp, cap)) && s.claims <= Next(s, a, stamp, cap).claims
  {
    var t := Next(s, a, stamp, cap);
    forall p ensures WonOk(t, p) {
      assert WonOk(s, p);
    }
    if a.Cas? && SchedulerOf(s, a.scheduler).Seen? {
      assert t.claims == s.claims || t.claims == s.claims + [Claimed(SchedulerOf(s, a.scheduler).id, SchedulerOf(s, a.scheduler).occurrence)];
    }
  }

  lemma KeyKept(q: Q.State, step: Q.Action, id: nat)
    requires id in q.jobs && id < q.nextId
    ensures id in Q.Next(q, step).jobs && SameKey(Q.Next(q, step).jobs[id], q.jobs[id].jobKey, q.jobs[id].dedupeKey)
  {
  }

  /** The only job a queue step can add is the one an Enqueue asks for. */
  lemma OnlyEnqueueAdds(q: Q.State, step: Q.Action, id: nat)
    requires id in Q.Next(q, step).jobs && Q.ActorOk(q, step)
    ensures id in q.jobs || (step.Enqueue? && SameKey(Q.Next(q, step).jobs[id], step.jobKey, step.dedupeKey))
  {
  }

  lemma FromClaimGrows(job: Job, job': Job, claims: seq<Claimed>, claims': seq<Claimed>, stamp: int -> string)
    requires FromClaim(job, claims, stamp) && SameKey(job', job.jobKey, job.dedupeKey) && claims <= claims'
    ensures FromClaim(job', claims', stamp)
  {
    var c :| c in claims && StandsFor(job, c, stamp);
    assert c in claims' && StandsFor(job', c, stamp);
  }

  /** The queue's own steps and the scheduler's enqueue, in one lemma. */
  lemma QueueChangeKeepsInv(s: State, t: State, step: Q.Action, stamp: int -> string)
    requires Inv(s, stamp) && t.queue == Q.Next(s.queue, step) && ClaimsKnown(t)
    requires s.claims == t.claims && s.instances == t.instances
    requires step.Enqueue? && step.jobKey == SCHEDULED_WORKFLOW_JOB_KEY ==>
               exists c :: c in s.claims && step.dedupeKey == OccurrenceKey(c.id, stamp(c.occurrence))
    ensures Inv(t, stamp)
  {
    Q.StepKeepsKeys(s.queue, step);
    Q.StepKeepsJobs(s.queue, step);
    Q.StepKeepsLocals(s.queue, step);
    assert Q.ActorOk(s.queue, step);
    forall id | id in t.queue.jobs && t.queue.jobs[id].jobKey == SCHEDULED_WORKFLOW_JOB_KEY
      ensures FromClaim(t.queue.jobs[id], t.claims, stamp)
    {
      OnlyEnqueueAdds(s.queue, step, id);
      if id in s.queue.jobs {
        KeyKept(s.queue, step, id);
        FromClaimGrows(s.queue.jobs[id], t.queue.jobs[id], s.claims, t.claims, stamp);
      } else {
        var c :| c in s.claims && step.dedupeKey == OccurrenceKey(c.id, stamp(c.occurrence));
        assert StandsFor(t.queue.jobs[id], c, stamp);
      }
    }
    forall i | 0 <= i < |t.instances| ensures HasOccurrenceJob(t, t.instances[i].idempotencyKey) {
      assert HasOccurrenceJob(s, s.instances[i].idempotencyKey);
      var id :| id in s.queue.jobs && SameKey(s.queue.jobs[id], SCHEDULED_WORKFLOW_JOB_KEY, s.instances[i].idempotencyKey);
      KeyKept(s.queue, step, id);
    }
  }

  lemma CreateKeepsInstances(s: State, w: string)
    requires InstancesFromJobs(s) && InstancesUnique(s)
    ensures InstancesFromJobs(CreateStep(s, w)) && InstancesUnique(CreateStep(s, w))
  {
    var t := CreateStep(s, w);
    if t != s {
      var job := s.queue.jobs[Q.LocalOf(s.queue, w).id];
      assert SameKey(job, SCHEDULED_WORKFLOW_JOB_KEY, job.dedupeKey);
      forall i | 0 <= i < |t.instances| ensures HasOccurrenceJob(t, t.instances[i].idempotencyKey) {
        if i < |s.instances| { assert HasOccurrenceJob(s, s.instances[i].idempotencyKey); }
      }
    }
  }

  lemma {:induction false} StepKeepsInv(s: State, a: Action, stamp: int -> string, cap: nat)
    requires Inv(s, stamp)
    ensures Inv(Next(s, a, stamp, cap), stamp)
  {
    var t := Next(s, a, stamp, cap);
    StepKeepsClaims(s, a, stamp, cap);
    if a.Queue? && Foreign(a.step) {
      QueueChangeKeepsInv(s, t, a.step, stamp);
    } else if a.EnqueueWon? && SchedulerOf(s, a.scheduler).Won? {
      var l := SchedulerOf(s, a.scheduler);
      assert WonOk(s, a.scheduler) && Claimed(l.id, l.occurrence) in s.claims;
      QueueChangeKeepsInv(s, t, EnqueueFor(l.id, stamp(l.occurrence), s.queue.clock), stamp);
    } else {
      SideStepKeepsInv(s, a, stamp, cap);
    }
  }

  lemma {:induction false} SideStepKeepsInv(s: State, a: Action, stamp: int -> string, cap: nat)
    requires Inv(s, stamp) && Next(s, a, stamp, cap).queue == s.queue
    requires ClaimsKnown(Next(s, a, stamp, cap)) && s.claims <= Next(s, a, stamp, cap).claims
    ensures Inv(Next(s, a, stamp, cap), stamp)
  {
    var t := Next(s, a, stamp, cap);
    forall id | id in t.queue.jobs && t.queue.jobs[id].jobKey == SCHEDULED_WORKFLOW_JOB_KEY ensures FromClaim(t.queue.jobs[id], t.claims, stamp) {
      FromClaimGrows(s.queue.jobs[id], t.queue.jobs[id], s.claims, t.claims, stamp);
    }
    if a.CreateInstance? {
      CreateKeepsInstances(s, a.worker);
    } else {
      assert t.instances == s.instances;
      forall i | 0 <= i < |t.instances| ensures HasOccurrenceJob(t, t.instances[i].idempotencyKey) {
        assert HasOccurrenceJob(s, s.instances[i].idempotencyKey);
      }
    }
  }

  lemma {:induction false} RunKeepsInv(s: State, actions: seq<Action>, stamp: int -> string, cap: nat)
    requires Init(s)
    ensures Inv(Run(s, actions, stamp, cap), stamp)
  {
    if actions == [] {
      Q.RunKeepsInv(s.queue, []);
    } else {
      RunKeepsInv(s, actions[..|actions| - 1], stamp, cap);
      StepKeepsInv(Run(s, actions[..|actions| - 1], stamp, cap), actions[|actions| - 1], stamp, cap);
    }
  }

  // ---------------------------------------------------------------- at most once

  /**
   * Whatever schedulers, workers, operators and crashes do, a job under the
   * scheduler's key stands for exactly one claimed occurrence, and an occurrence
   * has at most one job.
   */
  lemma {:induction false} OneJobPerOccurrence(s: State, actions: seq<Action>, stamp: int -> string, cap: nat, i: nat)
    requires Init(s) && Injective(stamp)
    requires i in Run(s, actions, stamp, cap).queue.jobs && Run(s, actions, stamp, cap).queue.jobs[i].jobKey == SCHEDULED_WORKFLOW_JOB_KEY
    ensures var t := Run(s, actions, stamp, cap);
            && (exists c :: c in t.claims && StandsFor(t.queue.jobs[i], c, stamp))
            && (forall c, d :: c in t.claims && d in t.claims && StandsFor(t.queue.jobs[i], c, stamp) && StandsFor(t.queue.jobs[i], d, stamp) ==> c == d)
            && (forall c, j :: StandsFor(t.queue.jobs[i], c, stamp) && j in t.queue.jobs && StandsFor(t.queue.jobs[j], c, stamp) ==> i == j)
  {
    var t := Run(s, actions, stamp, cap);
    RunKeepsInv(s, actions, stamp, cap);
    forall c, d | c in t.claims && d in t.claims && StandsFor(t.queue.jobs[i], c, stamp) && StandsFor(t.queue.jobs[i], d, stamp)
      ensures c == d
    {
      OccurrenceKeyInjective(c.id, stamp(c.occurrence), d.id, stamp(d.occurrence));
    }
  }

  // ---------------------------------------------------------------- composing runs

  lemma {:induction false} RunConcat(s: State, first: seq<Action>, second: seq<Action>, stamp: int -> string, cap: nat)
    ensures Run(s, first + second, stamp, cap) == Run(Run(s, first, stamp, cap), second, stamp, cap)
    decreases |second|
  {
    if second == [] {
      assert first + second == first;
    } else {
      var all := first + second;
      assert all[..|all| - 1] == first + second[..|second| - 1];
      RunConcat(s, first, second[..|second| - 1], stamp, cap);
    }
  }

  lemma RunOne(s: State, a: Action, stamp: int -> string, cap: nat)
    ensures Run(s, [a], stamp, cap) == Next(s, a, stamp, cap)
  {
    assert [a][..0] == [];
  }

  lemma RunCons(s: State, a: Action, rest: seq<Action>, stamp: int -> string, cap: nat)
    ensures Run(s, [a] + rest, stamp, cap) == Run(Next(s, a, stamp, cap), rest, stamp, cap)
  {
    RunConcat(s, [a], rest, stamp, cap);
    RunOne(s, a, stamp, cap);
  }
}
