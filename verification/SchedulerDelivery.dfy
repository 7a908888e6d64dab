/** When a claimed occurrence gets its job and its one workflow instance, and the exact steps that prevent it. */
module SchedulerDelivery {
  import opened Common
  import opened JobQueue
  import opened SchedulerTick
  import opened SchedulerProtocol
  import opened SchedulerOrder
  import Q = QueueProtocol

  // ---------------------------------------------------------------- every claim gets its job

  predicate Holds(s: State, p: string, c: Claimed) {
    SchedulerOf(s, p) == Won(c.id, c.occurrence)
  }

  predicate HasJobFor(s: State, c: Claimed, stamp: int -> string) {
    KeyTaken(s.queue.jobs, SCHEDULED_WORKFLOW_JOB_KEY, OccurrenceKey(c.id, stamp(c.occurrence)))
  }

  /** The claim's job is queued, or a scheduler is about to queue it. */
  ghost predicate Served(s: State, c: Claimed, stamp: int -> string) {
    HasJobFor(s, c, stamp) || exists p :: Holds(s, p, c)
  }

  ghost predicate AllServed(s: State, stamp: int -> string) {
    forall c :: c in s.claims ==> Served(s, c, stamp)
  }

  /** A crash of the only scheduler that holds a claim, before its enqueue. */
  ghost predicate Loses(s: State, a: Action, stamp: int -> string) {
    a.CrashScheduler? && SchedulerOf(s, a.scheduler).Won? &&
      var c := Claimed(SchedulerOf(s, a.scheduler).id, SchedulerOf(s, a.scheduler).occurrence);
      !HasJobFor(s, c, stamp) && forall q :: q != a.scheduler ==> !Holds(s, q, c)
  }

  lemma JobStays(s: State, a: Action, c: Claimed, stamp: int -> string, cap: nat)
    requires Q.Inv(s.queue) && HasJobFor(s, c, stamp)
    ensures HasJobFor(Next(s, a, stamp, cap), c, stamp)
  {
    var t := Next(s, a, stamp, cap);
    var id :| id in s.queue.jobs && SameKey(s.queue.jobs[id], SCHEDULED_WORKFLOW_JOB_KEY, OccurrenceKey(c.id, stamp(c.occurrence)));
    if a.Queue? && Foreign(a.step) {
      KeyKept(s.queue, a.step, id);
    } else if a.EnqueueWon? && SchedulerOf(s, a.scheduler).Won? {
      var l := SchedulerOf(s, a.scheduler);
      KeyKept(s.queue, EnqueueFor(l.id, stamp(l.occurrence), s.queue.clock), id);
    } else {
      assert t.queue == s.queue;
    }
    assert SameKey(t.queue.jobs[id], SCHEDULED_WORKFLOW_JOB_KEY, OccurrenceKey(c.id, stamp(c.occurrence)));
  }

  /** A scheduler leaves its claim by enqueuing the job or by crashing. */
  lemma HolderMoves(s: State, a: Action, p: string, c: Claimed, stamp: int -> string, cap: nat)
    requires Holds(s, p, c) && a != CrashScheduler(p)
    ensures Holds(Next(s, a, stamp, cap), p, c) || HasJobFor(Next(s, a, stamp, cap), c, stamp)
  {
    if a == EnqueueWon(p) {
      JobEnqueued(s.queue, OccurrenceKey(c.id, stamp(c.occurrence)), EnqueueFor(c.id, stamp(c.occurrence), s.queue.clock));
    }
  }

  lemma JobEnqueued(q: Q.State, key: string, step: Q.Action)
    requires step.Enqueue? && step.jobKey == SCHEDULED_WORKFLOW_JOB_KEY && step.dedupeKey == key
    ensures KeyTaken(Q.Next(q, step).jobs, SCHEDULED_WORKFLOW_JOB_KEY, key)
  {
    var t := Q.Next(q, step);
    if !KeyTaken(q.jobs, SCHEDULED_WORKFLOW_JOB_KEY, key) {
      assert SameKey(t.jobs[q.nextId], SCHEDULED_WORKFLOW_JOB_KEY, key);
    }
  }

  lemma ServedStays(s: State, a: Action, c: Claimed, stamp: int -> string, cap: nat)
    requires Q.Inv(s.queue) && Served(s, c, stamp) && !Loses(s, a, stamp)
    ensures Served(Next(s, a, stamp, cap), c, stamp)
  {
    var t := Next(s, a, stamp, cap);
    if HasJobFor(s, c, stamp) {
      JobStays(s, a, c, stamp, cap);
    } else {
      var p :| Holds(s, p, c);
      if a == CrashScheduler(p) {
        var q :| q != p && Holds(s, q, c);
        assert Holds(t, q, c);
      } else {
        HolderMoves(s, a, p, c, stamp, cap);
      }
    }
  }

  lemma NewClaimServed(s: State, a: Action, c: Claimed, stamp: int -> string, cap: nat)
    requires c !in s.claims && c in Next(s, a, stamp, cap).claims
    ensures Served(Next(s, a, stamp, cap), c, stamp)
  {
    assert a.Cas? && Holds(Next(s, a, stamp, cap), a.scheduler, c);
  }

  /** One step leaves a claim without a job and without a scheduler that will queue it iff it is such a crash. */
  lemma {:induction false} StepServesIff(s: State, a: Action, stamp: int -> string, cap: nat)
    requires Inv(s, stamp) && AllServed(s, stamp)
    ensures AllServed(Next(s, a, stamp, cap), stamp) <==> !Loses(s, a, stamp)
  {
    var t := Next(s, a, stamp, cap);
    if Loses(s, a, stamp) {
      var l := SchedulerOf(s, a.scheduler);
      var c := Claimed(l.id, l.occurrence);
      assert WonOk(s, a.scheduler) && c in t.claims && !HasJobFor(t, c, stamp);
      forall q ensures !Holds(t, q, c) {
        assert q != a.scheduler ==> !Holds(s, q, c);
      }
      assert !Served(t, c, stamp);
    } else {
      forall c | c in t.claims ensures Served(t, c, stamp) {
        if c in s.claims { ServedStays(s, a, c, stamp, cap); } else { NewClaimServed(s, a, c, stamp, cap); }
      }
    }
  }

  ghost predicate NoLosses(s: State, actions: seq<Action>, stamp: int -> string, cap: nat) {
    forall i :: 0 <= i < |actions| ==> !Loses(Run(s, actions[..i], stamp, cap), actions[i], stamp)
  }

  /** While no scheduler dies as the only holder of a claim, every claim has its job or is about to get it. */
  lemma {:induction false} ClaimsAreServed(s: State, actions: seq<Action>, stamp: int -> string, cap: nat)
    requires Init(s) && NoLosses(s, actions, stamp, cap)
    ensures AllServed(Run(s, actions, stamp, cap), stamp)
  {
    if actions != [] {
      var n := |actions| - 1;
      forall i | 0 <= i < n ensures !Loses(Run(s, actions[..n][..i], stamp, cap), actions[..n][i], stamp) {
        assert actions[..n][..i] == actions[..i];
      }
      ClaimsAreServed(s, actions[..n], stamp, cap);
      RunKeepsInv(s, actions[..n], stamp, cap);
      StepServesIff(Run(s, actions[..n], stamp, cap), actions[n], stamp, cap);
    }
  }

  /** Then, once no scheduler is between claim and enqueue, each claimed occurrence has exactly one job. */
  lemma {:induction false} ExactlyOneJob(s: State, actions: seq<Action>, stamp: int -> string, cap: nat, c: Claimed)
    requires Init(s) && Injective(stamp) && NoLosses(s, actions, stamp, cap)
    requires c in Run(s, actions, stamp, cap).claims && forall p :: !Holds(Run(s, actions, stamp, cap), p, c)
    ensures var jobs := Run(s, actions, stamp, cap).queue.jobs;
            exists id :: id in jobs && StandsFor(jobs[id], c, stamp) && forall other :: other in jobs && StandsFor(jobs[other], c, stamp) ==> other == id
  {
    ClaimsAreServed(s, actions, stamp, cap);
    var t := Run(s, actions, stamp, cap);
    assert Served(t, c, stamp);
    var id :| id in t.queue.jobs && SameKey(t.queue.jobs[id], SCHEDULED_WORKFLOW_JOB_KEY, OccurrenceKey(c.id, stamp(c.occurrence)));
    assert StandsFor(t.queue.jobs[id], c, stamp);
    OneJobPerOccurrence(s, actions, stamp, cap, id);
  }

  // ---------------------------------------------------------------- a lost claim stays lost

  lemma {:induction false} LostStaysLost(s: State, a: Action, c: Claimed, stamp: int -> string, cap: nat)
    requires Inv(s, stamp) && OrderInv(s) && Orderly(s, a) && Injective(stamp) && c in s.claims && !Served(s, c, stamp)
    ensures !Served(Next(s, a, stamp, cap), c, stamp)
  {
    var t := Next(s, a, stamp, cap);
    StepKeepsOrder(s, a, stamp, cap);
    forall p ensures !Holds(t, p, c) {
      assert !Holds(s, p, c);
      if Holds(t, p, c) { ClaimedAgain(s, a, p, c, stamp, cap); }
    }
    if HasJobFor(t, c, stamp) {
      var id :| id in t.queue.jobs && SameKey(t.queue.jobs[id], SCHEDULED_WORKFLOW_JOB_KEY, OccurrenceKey(c.id, stamp(c.occurrence)));
      if id in s.queue.jobs {
        KeysOnlyKept(s, a, id, stamp, cap);
      } else {
        NewJobHasHolder(s, a, id, c, stamp, cap);
      }
    }
  }

  /** A scheduler comes to hold a claim by making it. */
  lemma ClaimedAgain(s: State, a: Action, p: string, c: Claimed, stamp: int -> string, cap: nat)
    requires !Holds(s, p, c) && Holds(Next(s, a, stamp, cap), p, c) && c in s.claims
    ensures !Forward(Next(s, a, stamp, cap).claims)
  {
    var claims := Next(s, a, stamp, cap).claims;
    assert a == Cas(p) && claims == s.claims + [c];
    var i :| 0 <= i < |s.claims| && s.claims[i] == c;
    assert claims[i] == claims[|s.claims|] == c;
  }

  lemma {:induction false} KeysOnlyKept(s: State, a: Action, id: nat, stamp: int -> string, cap: nat)
    requires Q.Inv(s.queue) && id in s.queue.jobs
    ensures id in Next(s, a, stamp, cap).queue.jobs
    ensures SameKey(Next(s, a, stamp, cap).queue.jobs[id], s.queue.jobs[id].jobKey, s.queue.jobs[id].dedupeKey)
  {
    if a.Queue? && Foreign(a.step) {
      KeyKept(s.queue, a.step, id);
    } else if a.EnqueueWon? && SchedulerOf(s, a.scheduler).Won? {
      var l := SchedulerOf(s, a.scheduler);
      KeyKept(s.queue, EnqueueFor(l.id, stamp(l.occurrence), s.queue.clock), id);
    } else {
      assert Next(s, a, stamp, cap).queue == s.queue;
    }
  }

  lemma QueueChangesBy(s: State, a: Action, stamp: int -> string, cap: nat)
    requires Next(s, a, stamp, cap).queue != s.queue
    ensures (a.Queue? && Foreign(a.step)) || (a.EnqueueWon? && SchedulerOf(s, a.scheduler).Won?)
  {
  }

  lemma {:induction false} NewJobHasHolder(s: State, a: Action, id: nat, c: Claimed, stamp: int -> string, cap: nat)
    requires Inv(s, stamp) && Injective(stamp) && c in s.claims && id !in s.queue.jobs && id in Next(s, a, stamp, cap).queue.jobs
    requires SameKey(Next(s, a, stamp, cap).queue.jobs[id], SCHEDULED_WORKFLOW_JOB_KEY, OccurrenceKey(c.id, stamp(c.occurrence)))
    ensures a.EnqueueWon? && Holds(s, a.scheduler, c)
  {
    QueueChangesBy(s, a, stamp, cap);
    if a.Queue? && Foreign(a.step) {
      assert Q.ActorOk(s.queue, a.step);
      OnlyEnqueueAdds(s.queue, a.step, id);
    } else if a.EnqueueWon? && SchedulerOf(s, a.scheduler).Won? {
      var l := SchedulerOf(s, a.scheduler);
      OnlyEnqueueAdds(s.queue, EnqueueFor(l.id, stamp(l.occurrence), s.queue.clock), id);
      assert WonOk(s, a.scheduler) && Claimed(l.id, l.occurrence) in s.claims;
      OccurrenceKeyInjective(l.id, stamp(l.occurrence), c.id, stamp(c.occurrence));
    }
  }

  /** Over every further run without a harmful toggle, a claim that was lost never gets a job. */
  lemma {:induction false} LostForever(s: State, actions: seq<Action>, c: Claimed, stamp: int -> string, cap: nat)
    requires Inv(s, stamp) && OrderInv(s) && OrderlyRun(s, actions, stamp, cap) && Injective(stamp) && c in s.claims && !Served(s, c, stamp)
    ensures Inv(Run(s, actions, stamp, cap), stamp) && c in Run(s, actions, stamp, cap).claims
    ensures !Served(Run(s, actions, stamp, cap), c, stamp)
  {
    if actions != [] {
      var n := |actions| - 1;
      forall i | 0 <= i < n ensures Orderly(Run(s, actions[..n][..i], stamp, cap), actions[..n][i]) {
        assert actions[..n][..i] == actions[..i];
      }
      LostForever(s, actions[..n], c, stamp, cap);
      OrderlyRunKeeps(s, actions[..n], stamp, cap);
      var before := Run(s, actions[..n], stamp, cap);
      LostStaysLost(before, actions[n], c, stamp, cap);
      StepKeepsInv(before, actions[n], stamp, cap);
      StepKeepsClaims(before, actions[n], stamp, cap);
    }
  }

  /** A scheduler that dies between its claim and its enqueue. */
  function CrashAfterClaim(id: string): seq<Action> {
    [ReadDue("A", id)] + ([Cas("A")] + [CrashScheduler("A")])
  }

  /** The claim has moved the schedule on, so the occurrence is lost: at most once, not exactly once. */
  lemma CrashLosesOccurrence(s: State, id: string, stamp: int -> string, cap: nat)
    requires Init(s) && id in s.schedules && Due(s.schedules[id], s.queue.clock)
    ensures var t := Run(s, CrashAfterClaim(id), stamp, cap);
            && t.claims == [Claimed(id, s.schedules[id].nextRunAt)] && t.queue.jobs == map[]
            && id in t.schedules && t.schedules[id].nextRunAt > s.schedules[id].nextRunAt
  {
    var s1 := Next(s, ReadDue("A", id), stamp, cap);
    var s2 := Next(s1, Cas("A"), stamp, cap);
    RunCons(s, ReadDue("A", id), [Cas("A")] + [CrashScheduler("A")], stamp, cap);
    RunCons(s1, Cas("A"), [CrashScheduler("A")], stamp, cap);
    RunOne(s2, CrashScheduler("A"), stamp, cap);
    AdvancedIsLater(s.schedules[id], s.queue.clock, cap);
  }

  // ---------------------------------------------------------------- one instance, unless a version is published in between

  /** The run's action `k` looks the definition up for the job `id` and finds `definition`. */
  ghost predicate LookedUp(s: State, actions: seq<Action>, stamp: int -> string, cap: nat, k: nat, id: nat, definition: nat) {
    k < |actions| && actions[k].LookupDefinition? &&
      var before := Run(s, actions[..k], stamp, cap);
      var l := Q.LocalOf(before.queue, actions[k].worker);
      l.Working? && l.id == id && before.activeDefinition == definition
  }

  ghost predicate FoundBy(s: State, actions: seq<Action>, stamp: int -> string, cap: nat, id: nat, definition: nat) {
    exists k :: LookedUp(s, actions, stamp, cap, k, id, definition)
  }

  /** The instance belongs to a job for which its definition was looked up. */
  ghost predicate Traced(s: State, actions: seq<Action>, stamp: int -> string, cap: nat, instance: Instance, jobs: JobTable) {
    exists id :: id in jobs && SameKey(jobs[id], SCHEDULED_WORKFLOW_JOB_KEY, instance.idempotencyKey)
                 && FoundBy(s, actions, stamp, cap, id, instance.definition)
  }

  ghost predicate AllTraced(s: State, actions: seq<Action>, stamp: int -> string, cap: nat) {
    var t := Run(s, actions, stamp, cap);
    && (forall w :: w in t.lookups ==> FoundBy(s, actions, stamp, cap, t.lookups[w].id, t.lookups[w].definition))
    && (forall i :: 0 <= i < |t.instances| ==> Traced(s, actions, stamp, cap, t.instances[i], t.queue.jobs))
  }

  lemma FoundStays(s: State, actions: seq<Action>, stamp: int -> string, cap: nat, a: Action, id: nat, definition: nat)
    requires FoundBy(s, actions, stamp, cap, id, definition)
    ensures FoundBy(s, actions + [a], stamp, cap, id, definition)
  {
    var k: nat :| LookedUp(s, actions, stamp, cap, k, id, definition);
    assert (actions + [a])[..k] == actions[..k];
    assert LookedUp(s, actions + [a], stamp, cap, k, id, definition);
  }

  lemma TracedStays(s: State, actions: seq<Action>, stamp: int -> string, cap: nat, a: Action, instance: Instance)
    requires Q.Inv(Run(s, actions, stamp, cap).queue) && Traced(s, actions, stamp, cap, instance, Run(s, actions, stamp, cap).queue.jobs)
    ensures Traced(s, actions + [a], stamp, cap, instance, Next(Run(s, actions, stamp, cap), a, stamp, cap).queue.jobs)
  {
    var before := Run(s, actions, stamp, cap);
    var id :| id in before.queue.jobs && SameKey(before.queue.jobs[id], SCHEDULED_WORKFLOW_JOB_KEY, instance.idempotencyKey)
              && FoundBy(s, actions, stamp, cap, id, instance.definition);
    KeysOnlyKept(before, a, id, stamp, cap);
    FoundStays(s, actions, stamp, cap, a, id, instance.definition);
  }

  lemma LookupFound(s: State, actions: seq<Action>, stamp: int -> string, cap: nat, w: string)
    requires Q.LocalOf(Run(s, actions, stamp, cap).queue, w).Working?
    ensures var before := Run(s, actions, stamp, cap);
            FoundBy(s, actions + [LookupDefinition(w)], stamp, cap, Q.LocalOf(before.queue, w).id, before.activeDefinition)
  {
    var before, all := Run(s, actions, stamp, cap), actions + [LookupDefinition(w)];
    assert all[..|actions|] == actions;
    assert LookedUp(s, all, stamp, cap, |actions|, Q.LocalOf(before.queue, w).id, before.activeDefinition);
  }

  lemma LookupsTraced(s: State, actions: seq<Action>, stamp: int -> string, cap: nat, a: Action, w: string)
    requires AllTraced(s, actions, stamp, cap) && w in Next(Run(s, actions, stamp, cap), a, stamp, cap).lookups
    ensures var l := Next(Run(s, actions, stamp, cap), a, stamp, cap).lookups[w]; FoundBy(s, actions + [a], stamp, cap, l.id, l.definition)
  {
    var before := Run(s, actions, stamp, cap);
    if a == LookupDefinition(w) && Q.LocalOf(before.queue, w).Working? {
      LookupFound(s, actions, stamp, cap, w);
    } else {
      assert w in before.lookups && Next(before, a, stamp, cap).lookups[w] == before.lookups[w];
      FoundStays(s, actions, stamp, cap, a, before.lookups[w].id, before.lookups[w].definition);
    }
  }

  lemma {:induction false} NewInstanceTraced(s: State, actions: seq<Action>, stamp: int -> string, cap: nat, w: string)
    requires AllTraced(s, actions, stamp, cap) && CreateStep(Run(s, actions, stamp, cap), w) != Run(s, actions, stamp, cap)
    ensures var before := Run(s, actions, stamp, cap); var t := CreateStep(before, w); var n := |before.instances|;
            && t.instances == before.instances + [t.instances[n]] && t.queue == before.queue
            && Traced(s, actions + [CreateInstance(w)], stamp, cap, t.instances[n], t.queue.jobs)
  {
    var before := Run(s, actions, stamp, cap);
    var l := before.lookups[w];
    FoundStays(s, actions, stamp, cap, CreateInstance(w), l.id, l.definition);
    assert SameKey(before.queue.jobs[l.id], SCHEDULED_WORKFLOW_JOB_KEY, before.queue.jobs[l.id].dedupeKey);
  }

  lemma {:induction false} EveryInstanceTraced(s: State, actions: seq<Action>, stamp: int -> string, cap: nat)
    requires Init(s)
    ensures AllTraced(s, actions, stamp, cap)
  {
    if actions != [] {
      var init, a := actions[..|actions| - 1], actions[|actions| - 1];
      EveryInstanceTraced(s, init, stamp, cap);
      RunKeepsInv(s, init, stamp, cap);
      SplitLast(actions);
      var before, t := Run(s, init, stamp, cap), Run(s, actions, stamp, cap);
      forall w | w in t.lookups ensures FoundBy(s, actions, stamp, cap, t.lookups[w].id, t.lookups[w].definition) {
        LookupsTraced(s, init, stamp, cap, a, w);
      }
      if a.CreateInstance? && t != before { NewInstanceTraced(s, init, stamp, cap, a.worker); }
      InstancesGrow(before, a, stamp, cap);
      forall i | 0 <= i < |t.instances| ensures Traced(s, actions, stamp, cap, t.instances[i], t.queue.jobs) {
        if i < |before.instances| { TracedStays(s, init, stamp, cap, a, before.instances[i]); }
      }
    }
  }

  lemma InstancesGrow(s: State, a: Action, stamp: int -> string, cap: nat)
    ensures s.instances <= Next(s, a, stamp, cap).instances
    ensures Next(s, a, stamp, cap).instances != s.instances ==> a.CreateInstance?
  {
  }

  /** The active definition changes only by a publication. */
  lemma {:induction false} PublishedBetween(s: State, actions: seq<Action>, stamp: int -> string, cap: nat, i: nat, j: nat)
    requires i <= j <= |actions|
    requires Run(s, actions[..i], stamp, cap).activeDefinition != Run(s, actions[..j], stamp, cap).activeDefinition
    ensures exists k :: i <= k < j && actions[k].Publish?
    decreases j
  {
    if i < j {
      var before := actions[..j - 1];
      assert actions[..j][..j - 1] == before && actions[..j][j - 1] == actions[j - 1];
      if !actions[j - 1].Publish? {
        PublishedBetween(s, actions, stamp, cap, i, j - 1);
      }
    }
  }

  /** Some version is published after one lookup for the job `id` and before another. */
  ghost predicate PublishedInBetween(s: State, actions: seq<Action>, stamp: int -> string, cap: nat, id: nat) {
    exists i, k, j, d, e :: i < k < j && LookedUp(s, actions, stamp, cap, i, id, d) && LookedUp(s, actions, stamp, cap, j, id, e) && actions[k].Publish?
  }

  lemma LookupsApart(s: State, actions: seq<Action>, stamp: int -> string, cap: nat, id: nat, i: nat, j: nat, d: nat, e: nat)
    requires LookedUp(s, actions, stamp, cap, i, id, d) && LookedUp(s, actions, stamp, cap, j, id, e) && d != e && i <= j
    ensures PublishedInBetween(s, actions, stamp, cap, id)
  {
    PublishedBetween(s, actions, stamp, cap, i, j);
    var k :| i <= k < j && actions[k].Publish?;
    assert i < k < j;
  }

  /** Two instances for one occurrence run different versions, one of them published between two lookups for its job. */
  lemma {:induction false} RepeatNeedsPublish(s: State, actions: seq<Action>, stamp: int -> string, cap: nat, m: nat, n: nat)
    requires Init(s) && m < |Run(s, actions, stamp, cap).instances| && n < |Run(s, actions, stamp, cap).instances| && m != n
    requires Run(s, actions, stamp, cap).instances[m].idempotencyKey == Run(s, actions, stamp, cap).instances[n].idempotencyKey
    ensures Run(s, actions, stamp, cap).instances[m].definition != Run(s, actions, stamp, cap).instances[n].definition
    ensures exists id :: id in Run(s, actions, stamp, cap).queue.jobs
                         && SameKey(Run(s, actions, stamp, cap).queue.jobs[id], SCHEDULED_WORKFLOW_JOB_KEY, Run(s, actions, stamp, cap).instances[m].idempotencyKey)
                         && PublishedInBetween(s, actions, stamp, cap, id)
  {
    var t := Run(s, actions, stamp, cap);
    RunKeepsInv(s, actions, stamp, cap);
    EveryInstanceTraced(s, actions, stamp, cap);
    var a, b := t.instances[m], t.instances[n];
    assert a.definition != b.definition;
    assert Traced(s, actions, stamp, cap, a, t.queue.jobs) && Traced(s, actions, stamp, cap, b, t.queue.jobs);
    var id :| id in t.queue.jobs && SameKey(t.queue.jobs[id], SCHEDULED_WORKFLOW_JOB_KEY, a.idempotencyKey) && FoundBy(s, actions, stamp, cap, id, a.definition);
    var other :| other in t.queue.jobs && SameKey(t.queue.jobs[other], SCHEDULED_WORKFLOW_JOB_KEY, b.idempotencyKey) && FoundBy(s, actions, stamp, cap, other, b.definition);
    assert SameKey(t.queue.jobs[id], t.queue.jobs[other].jobKey, t.queue.jobs[other].dedupeKey);
    assert id == other;
    var i: nat :| LookedUp(s, actions, stamp, cap, i, id, a.definition);
    var j: nat :| LookedUp(s, actions, stamp, cap, j, id, b.definition);
    if i <= j {
      LookupsApart(s, actions, stamp, cap, id, i, j, a.definition, b.definition);
    } else {
      LookupsApart(s, actions, stamp, cap, id, j, i, b.definition, a.definition);
    }
  }

  /** End to end: each instance comes from a claimed occurrence, and from no other instance's unless a version was published between its job's lookups. */
  lemma {:induction false} OneInstancePerOccurrence(s: State, actions: seq<Action>, stamp: int -> string, cap: nat, i: nat)
    requires Init(s) && i < |Run(s, actions, stamp, cap).instances|
    requires forall id: nat :: !PublishedInBetween(s, actions, stamp, cap, id)
    ensures var t := Run(s, actions, stamp, cap);
            && (exists c :: c in t.claims && t.instances[i].idempotencyKey == OccurrenceKey(c.id, stamp(c.occurrence)))
            && (forall j :: 0 <= j < |t.instances| && t.instances[j].idempotencyKey == t.instances[i].idempotencyKey ==> i == j)
  {
    var t := Run(s, actions, stamp, cap);
    RunKeepsInv(s, actions, stamp, cap);
    assert HasOccurrenceJob(t, t.instances[i].idempotencyKey);
    var id :| id in t.queue.jobs && SameKey(t.queue.jobs[id], SCHEDULED_WORKFLOW_JOB_KEY, t.instances[i].idempotencyKey);
    var c :| c in t.claims && StandsFor(t.queue.jobs[id], c, stamp);
    forall j | 0 <= j < |t.instances| && t.instances[j].idempotencyKey == t.instances[i].idempotencyKey ensures i == j {
      if i != j { RepeatNeedsPublish(s, actions, stamp, cap, i, j); }
    }
  }

  /** A worker takes the job. */
  function Take(w: string, job: nat): seq<Action> {
    [Queue(Q.Pick(w, job))] + ([Queue(Q.Claim(w, Q.DEFAULT_LEASE_MS))] + [Queue(Q.Start(w))])
  }

  function TakenJob(s: State, w: string, job: nat): Job
    requires job in s.queue.jobs
  {
    s.queue.jobs[job].(status := RUNNING, leaseOwner := Some(w), leaseExpiresAt := Some(s.queue.clock + Q.DEFAULT_LEASE_MS))
  }

  lemma TakeStarts(s: State, w: string, job: nat, stamp: int -> string, cap: nat)
    requires job in s.queue.jobs && Claimable(s.queue.jobs[job], s.queue.clock) && Q.LocalOf(s.queue, w).Idle?
    ensures var t := Run(s, Take(w, job), stamp, cap);
            && t.queue.clock == s.queue.clock && t.queue.workers.Keys == s.queue.workers.Keys + {w} && job in t.queue.jobs
            && t.queue.jobs[job] == TakenJob(s, w, job) && t == s.(queue := t.queue)
            && Q.LocalOf(t.queue, w).Working? && Q.LocalOf(t.queue, w).id == job
  {
    var s1 := Next(s, Queue(Q.Pick(w, job)), stamp, cap);
    var s2 := Next(s1, Queue(Q.Claim(w, Q.DEFAULT_LEASE_MS)), stamp, cap);
    RunCons(s, Queue(Q.Pick(w, job)), [Queue(Q.Claim(w, Q.DEFAULT_LEASE_MS))] + [Queue(Q.Start(w))], stamp, cap);
    RunCons(s1, Queue(Q.Claim(w, Q.DEFAULT_LEASE_MS)), [Queue(Q.Start(w))], stamp, cap);
    RunOne(s2, Queue(Q.Start(w)), stamp, cap);
    assert s2.queue.jobs[job] == TakenJob(s, w, job).(status := CLAIMED);
  }

  /** A worker takes the job and runs its handler up to the created instance. */
  function Handle(w: string, job: nat): seq<Action> {
    Take(w, job) + ([LookupDefinition(w)] + [CreateInstance(w)])
  }

  lemma {:induction false} HandleCreates(s: State, w: string, job: nat, stamp: int -> string, cap: nat)
    requires job in s.queue.jobs && Claimable(s.queue.jobs[job], s.queue.clock) && Q.LocalOf(s.queue, w).Idle?
    requires s.queue.jobs[job].jobKey == SCHEDULED_WORKFLOW_JOB_KEY
    requires Instance(s.activeDefinition, s.queue.jobs[job].dedupeKey) !in s.instances
    ensures var t := Run(s, Handle(w, job), stamp, cap);
            && t.instances == s.instances + [Instance(s.activeDefinition, s.queue.jobs[job].dedupeKey)]
            && t.queue.clock == s.queue.clock && t.queue.workers.Keys == s.queue.workers.Keys + {w} && job in t.queue.jobs
            && t.queue.jobs[job] == TakenJob(s, w, job)
  {
    var s3 := Run(s, Take(w, job), stamp, cap);
    TakeStarts(s, w, job, stamp, cap);
    RunConcat(s, Take(w, job), [LookupDefinition(w)] + [CreateInstance(w)], stamp, cap);
    RunCons(s3, LookupDefinition(w), [CreateInstance(w)], stamp, cap);
    RunOne(LookupStep(s3, w), CreateInstance(w), stamp, cap);
  }

  /** A due schedule is claimed and its job queued. */
  function ClaimAndQueue(id: string): seq<Action> {
    [ReadDue("A", id)] + ([Cas("A")] + [EnqueueWon("A")])
  }

  /** The first worker dies after creating the instance; a new version is published before the lease runs out. */
  function PublishBetweenAttempts(definition: nat): seq<Action> {
    Handle("first", 0) + ([Publish(definition)] + ([Queue(Q.Advance(Q.DEFAULT_LEASE_MS + 1))] + Handle("second", 0)))
  }

  lemma {:induction false} OccurrenceQueued(s: State, id: string, stamp: int -> string, cap: nat)
    requires Init(s) && id in s.schedules && Due(s.schedules[id], s.queue.clock)
    ensures var t := Run(s, ClaimAndQueue(id), stamp, cap); var key := OccurrenceKey(id, stamp(s.schedules[id].nextRunAt));
            && t.queue.workers == map[] && t.instances == [] && t.activeDefinition == s.activeDefinition && t.queue.clock == s.queue.clock
            && t.queue.jobs == map[0 := NewJob(SCHEDULED_WORKFLOW_JOB_KEY, key, Some(id), DEFAULT_MAX_ATTEMPTS, s.queue.clock)]
  {
    var s1 := Next(s, ReadDue("A", id), stamp, cap);
    var s2 := Next(s1, Cas("A"), stamp, cap);
    RunCons(s, ReadDue("A", id), [Cas("A")] + [EnqueueWon("A")], stamp, cap);
    RunCons(s1, Cas("A"), [EnqueueWon("A")], stamp, cap);
    RunOne(s2, EnqueueWon("A"), stamp, cap);
    assert !KeyTaken(s2.queue.jobs, SCHEDULED_WORKFLOW_JOB_KEY, OccurrenceKey(id, stamp(s.schedules[id].nextRunAt)));
  }

  lemma AttemptsCreateTwice(s: State, definition: nat, stamp: int -> string, cap: nat)
    requires s.queue.workers == map[] && s.instances == [] && definition != s.activeDefinition
    requires 0 in s.queue.jobs && s.queue.jobs[0].jobKey == SCHEDULED_WORKFLOW_JOB_KEY && Claimable(s.queue.jobs[0], s.queue.clock)
    ensures var key := s.queue.jobs[0].dedupeKey;
            Run(s, PublishBetweenAttempts(definition), stamp, cap).instances == [Instance(s.activeDefinition, key), Instance(definition, key)]
  {
    var s1 := Run(s, Handle("first", 0), stamp, cap);
    HandleCreates(s, "first", 0, stamp, cap);
    var s2 := Next(s1, Publish(definition), stamp, cap);
    var s3 := Next(s2, Queue(Q.Advance(Q.DEFAULT_LEASE_MS + 1)), stamp, cap);
    RunConcat(s, Handle("first", 0), [Publish(definition)] + ([Queue(Q.Advance(Q.DEFAULT_LEASE_MS + 1))] + Handle("second", 0)), stamp, cap);
    RunCons(s1, Publish(definition), [Queue(Q.Advance(Q.DEFAULT_LEASE_MS + 1))] + Handle("second", 0), stamp, cap);
    RunCons(s2, Queue(Q.Advance(Q.DEFAULT_LEASE_MS + 1)), Handle("second", 0), stamp, cap);
    assert "second" !in s3.queue.workers;
    HandleCreates(s3, "second", 0, stamp, cap);
  }

  /** The idempotency key is scoped to a definition version, so the retried job of one occurrence creates a second instance. */
  lemma PublishingRepeatsOccurrence(s: State, id: string, definition: nat, stamp: int -> string, cap: nat)
    requires Init(s) && id in s.schedules && Due(s.schedules[id], s.queue.clock) && definition != s.activeDefinition
    ensures var key := OccurrenceKey(id, stamp(s.schedules[id].nextRunAt));
            Run(s, ClaimAndQueue(id) + PublishBetweenAttempts(definition), stamp, cap).instances
            == [Instance(s.activeDefinition, key), Instance(definition, key)]
  {
    OccurrenceQueued(s, id, stamp, cap);
    RunConcat(s, ClaimAndQueue(id), PublishBetweenAttempts(definition), stamp, cap);
    AttemptsCreateTwice(Run(s, ClaimAndQueue(id), stamp, cap), definition, stamp, cap);
  }
}
