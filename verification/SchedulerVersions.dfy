/**
 * Which definition versions one occurrence can still get an instance of, and so
 * exactly when looking a version up is about to give it a second one.
 */
module SchedulerVersions {
  import opened Common
  import opened JobQueue
  import opened SchedulerTick
  import opened SchedulerProtocol
  import Q = QueueProtocol

  // ---------------------------------------------------------------- live versions

  /** The worker is in its handler with a version looked up under its present claim, for the occurrence of this key. */
  predicate About(s: State, w: string, key: string, definition: nat) {
    var l := Q.LocalOf(s.queue, w);
    && l.Working? && w in s.lookups && s.lookups[w] == Lookup(l.id, l.epoch, definition)
    && l.id in s.queue.jobs && SameKey(s.queue.jobs[l.id], SCHEDULED_WORKFLOW_JOB_KEY, key)
  }

  /** An instance of the version exists for the occurrence, or a worker is about to create it. */
  ghost predicate Live(s: State, key: string, definition: nat) {
    Instance(definition, key) in s.instances || exists w :: About(s, w, key, definition)
  }

  /** A lookup's claim is one its job has had, and a worker that holds a newer claim has not looked up under it. */
  predicate LookupOk(s: State, w: string) {
    w in s.lookups ==>
      var (k, l) := (s.lookups[w], Q.LocalOf(s.queue, w));
      && k.id in s.queue.jobs && k.epoch <= Q.HistoryOf(s.queue, k.id).epoch
      && (l.Holding? && l.id == k.id ==> k.epoch < l.epoch)
  }

  ghost predicate LookupsOk(s: State) {
    forall w :: LookupOk(s, w)
  }

  lemma LookupOkByQueue(q: Q.State, step: Q.Action, w: string, k: Lookup, s: State, t: State)
    requires s.queue == q && t.queue == Q.Next(q, step) && w in s.lookups && w in t.lookups && s.lookups[w] == t.lookups[w] == k
    requires LookupOk(s, w) && Q.ActorOk(q, step) && (forall id :: id in q.jobs ==> id < q.nextId)
    ensures LookupOk(t, w)
  {
    KeyKept(q, step, k.id);
    EpochsGrow(q, step, k.id);
    HeldClaimIsNew(q, step, w);
  }

  lemma EpochsGrow(q: Q.State, step: Q.Action, id: nat)
    requires id in q.jobs && id < q.nextId
    ensures Q.HistoryOf(Q.Next(q, step), id).epoch >= Q.HistoryOf(q, id).epoch
  {
  }

  /** A claim a worker comes to hold is newer than all before it. */
  lemma HeldClaimIsNew(q: Q.State, step: Q.Action, w: string)
    ensures var l := Q.LocalOf(Q.Next(q, step), w);
            l.Holding? && l != Q.LocalOf(q, w) ==> l.epoch > Q.HistoryOf(q, l.id).epoch
  {
  }

  /** A worker comes to be working only by starting the claim it holds. */
  lemma WorkingWasHeld(q: Q.State, step: Q.Action, w: string)
    ensures var l := Q.LocalOf(Q.Next(q, step), w);
            l.Working? && l != Q.LocalOf(q, w) ==> Q.LocalOf(q, w) == Q.Holding(l.id, l.epoch)
  {
  }

  lemma LookupsKept(s: State, a: Action, stamp: int -> string, cap: nat, w: string)
    requires Inv(s, stamp) && LookupsOk(s)
    ensures LookupOk(Next(s, a, stamp, cap), w)
  {
    var t := Next(s, a, stamp, cap);
    assert LookupOk(s, w);
    if w in t.lookups {
      match a
      case Queue(step) =>
        if Foreign(step) { assert Q.ActorOk(s.queue, step); LookupOkByQueue(s.queue, step, w, s.lookups[w], s, t); }
      case EnqueueWon(p) =>
        var l := SchedulerOf(s, p);
        if l.Won? { LookupOkByQueue(s.queue, EnqueueFor(l.id, stamp(l.occurrence), s.queue.clock), w, s.lookups[w], s, t); }
      case LookupDefinition(v) =>
        assert Q.LocalOk(s.queue, v, Q.LocalOf(s.queue, v));
      case _ =>
    }
  }

  lemma StepKeepsLookups(s: State, a: Action, stamp: int -> string, cap: nat)
    requires Inv(s, stamp) && LookupsOk(s)
    ensures LookupsOk(Next(s, a, stamp, cap))
  {
    var t := Next(s, a, stamp, cap);
    forall w ensures LookupOk(t, w) { LookupsKept(s, a, stamp, cap, w); }
  }

  // ---------------------------------------------------------------- only a lookup brings a version to life

  lemma AboutBeforeQueue(s: State, t: State, step: Q.Action, w: string, key: string, definition: nat)
    requires t.queue == Q.Next(s.queue, step) && t.lookups == s.lookups && LookupOk(s, w)
    requires (forall id :: id in s.queue.jobs ==> id < s.queue.nextId) && About(t, w, key, definition)
    ensures About(s, w, key, definition)
  {
    WorkingWasHeld(s.queue, step, w);
    KeyKept(s.queue, step, s.lookups[w].id);
  }

  lemma AboutBefore(s: State, a: Action, stamp: int -> string, cap: nat, w: string, key: string, definition: nat)
    requires Inv(s, stamp) && LookupsOk(s) && !a.LookupDefinition? && About(Next(s, a, stamp, cap), w, key, definition)
    ensures About(s, w, key, definition)
  {
    var t := Next(s, a, stamp, cap);
    assert LookupOk(s, w);
    match a
    case Queue(step) => if Foreign(step) { AboutBeforeQueue(s, t, step, w, key, definition); }
    case EnqueueWon(p) =>
      var l := SchedulerOf(s, p);
      if l.Won? { AboutBeforeQueue(s, t, EnqueueFor(l.id, stamp(l.occurrence), s.queue.clock), w, key, definition); }
    case _ =>
  }

  lemma LiveBefore(s: State, a: Action, stamp: int -> string, cap: nat, key: string, definition: nat)
    requires Inv(s, stamp) && LookupsOk(s) && !a.LookupDefinition? && Live(Next(s, a, stamp, cap), key, definition)
    ensures Live(s, key, definition)
  {
    var t := Next(s, a, stamp, cap);
    if Instance(definition, key) in t.instances {
      if a.CreateInstance? && Instance(definition, key) !in s.instances { assert About(s, a.worker, key, definition); }
    } else {
      var w :| About(t, w, key, definition);
      AboutBefore(s, a, stamp, cap, w, key, definition);
    }
  }

  predicate NoLookups(actions: seq<Action>) {
    forall i :: 0 <= i < |actions| ==> !actions[i].LookupDefinition?
  }

  lemma {:induction false} LiveAtStart(s: State, more: seq<Action>, stamp: int -> string, cap: nat, key: string, definition: nat)
    requires Inv(s, stamp) && LookupsOk(s) && NoLookups(more) && Live(Run(s, more, stamp, cap), key, definition)
    ensures Live(s, key, definition)
  {
    if more != [] {
      var n := |more| - 1;
      ReachedOk(s, more[..n], stamp, cap);
      LiveBefore(Run(s, more[..n], stamp, cap), more[n], stamp, cap, key, definition);
      LiveAtStart(s, more[..n], stamp, cap, key, definition);
    }
  }

  lemma {:induction false} ReachedOk(s: State, actions: seq<Action>, stamp: int -> string, cap: nat)
    requires Inv(s, stamp) && LookupsOk(s)
    ensures Inv(Run(s, actions, stamp, cap), stamp) && LookupsOk(Run(s, actions, stamp, cap))
  {
    if actions != [] {
      var n := |actions| - 1;
      ReachedOk(s, actions[..n], stamp, cap);
      StepKeepsInv(Run(s, actions[..n], stamp, cap), actions[n], stamp, cap);
      StepKeepsLookups(Run(s, actions[..n], stamp, cap), actions[n], stamp, cap);
    }
  }

  // ---------------------------------------------------------------- the exact guard

  /** Two instances with one idempotency key. */
  ghost predicate Repeated(s: State, key: string) {
    exists d, e :: d != e && Instance(d, key) in s.instances && Instance(e, key) in s.instances
  }

  /** The occurrence can get two instances without any further lookup. */
  ghost predicate CanRepeat(s: State, key: string, stamp: int -> string, cap: nat) {
    exists more :: NoLookups(more) && Repeated(Run(s, more, stamp, cap), key)
  }

  ghost predicate TwoLive(s: State, key: string) {
    exists d, e :: d != e && Live(s, key, d) && Live(s, key, e)
  }

  /** A live version gets its instance by one step at most, and everything live stays so. */
  lemma Materialise(s: State, key: string, definition: nat, stamp: int -> string, cap: nat) returns (more: seq<Action>)
    requires Live(s, key, definition)
    ensures NoLookups(more) && var t := Run(s, more, stamp, cap);
              && Instance(definition, key) in t.instances && (forall i :: i in s.instances ==> i in t.instances)
              && t.queue == s.queue && t.lookups == s.lookups
  {
    if Instance(definition, key) in s.instances {
      more := [];
    } else {
      var w :| About(s, w, key, definition);
      more := [CreateInstance(w)];
      RunOne(s, CreateInstance(w), stamp, cap);
    }
  }

  lemma TwoLiveRepeat(s: State, key: string, stamp: int -> string, cap: nat)
    requires TwoLive(s, key)
    ensures CanRepeat(s, key, stamp, cap)
  {
    var d, e :| d != e && Live(s, key, d) && Live(s, key, e);
    var first := Materialise(s, key, d, stamp, cap);
    var t := Run(s, first, stamp, cap);
    assert Live(t, key, e) by {
      if Instance(e, key) !in s.instances {
        var w :| About(s, w, key, e);
        assert About(t, w, key, e);
      }
    }
    var second := Materialise(t, key, e, stamp, cap);
    RunConcat(s, first, second, stamp, cap);
    assert NoLookups(first + second) && Repeated(Run(s, first + second, stamp, cap), key);
  }

  /** An occurrence can get a second instance without any further lookup if and only if two versions are live for it. */
  lemma CanRepeatIff(s: State, key: string, stamp: int -> string, cap: nat)
    requires Inv(s, stamp) && LookupsOk(s)
    ensures CanRepeat(s, key, stamp, cap) <==> TwoLive(s, key)
  {
    if TwoLive(s, key) {
      TwoLiveRepeat(s, key, stamp, cap);
    } else {
      forall more | NoLookups(more) ensures !Repeated(Run(s, more, stamp, cap), key) {
        forall d | Instance(d, key) in Run(s, more, stamp, cap).instances ensures Live(s, key, d) {
          LiveAtStart(s, more, stamp, cap, key, d);
        }
      }
    }
  }

  /** A version other than this one is live for the occurrence. */
  ghost predicate OtherLive(s: State, key: string, definition: nat) {
    exists d :: d != definition && Live(s, key, d)
  }

  lemma TwoLiveIffOther(s: State, key: string, definition: nat)
    requires Live(s, key, definition)
    ensures TwoLive(s, key) <==> OtherLive(s, key, definition)
  {
    if TwoLive(s, key) {
      var d, e :| d != e && Live(s, key, d) && Live(s, key, e);
      if d == definition { assert e != definition && Live(s, key, e); } else { assert d != definition && Live(s, key, d); }
    }
  }

  /**
   * The exact guard at a lookup: after it the job's occurrence can get two instances,
   * without any further lookup, if and only if another version than the one found is
   * live for it.
   */
  lemma LookupRepeatsIff(s: State, w: string, key: string, stamp: int -> string, cap: nat)
    requires Inv(s, stamp) && LookupsOk(s) && Q.LocalOf(s.queue, w).Working?
    requires Q.LocalOf(s.queue, w).id in s.queue.jobs && SameKey(s.queue.jobs[Q.LocalOf(s.queue, w).id], SCHEDULED_WORKFLOW_JOB_KEY, key)
    ensures var t := Next(s, LookupDefinition(w), stamp, cap);
            CanRepeat(t, key, stamp, cap) <==> OtherLive(t, key, s.activeDefinition)
  {
    var t := Next(s, LookupDefinition(w), stamp, cap);
    StepKeepsInv(s, LookupDefinition(w), stamp, cap);
    StepKeepsLookups(s, LookupDefinition(w), stamp, cap);
    CanRepeatIff(t, key, stamp, cap);
    assert About(t, w, key, s.activeDefinition);
    TwoLiveIffOther(t, key, s.activeDefinition);
  }

  // ---------------------------------------------------------------- whole runs

  ghost predicate OneLive(s: State) {
    forall key :: !TwoLive(s, key)
  }

  /** A lookup that leaves another version live for the same occurrence. */
  ghost predicate MixesVersions(s: State, a: Action, stamp: int -> string, cap: nat) {
    a.LookupDefinition? && exists key :: TwoLive(Next(s, a, stamp, cap), key)
  }

  ghost predicate NeverMixed(s: State, actions: seq<Action>, stamp: int -> string, cap: nat) {
    forall i :: 0 <= i < |actions| ==> !MixesVersions(Run(s, actions[..i], stamp, cap), actions[i], stamp, cap)
  }

  lemma StepKeepsOneLive(s: State, a: Action, stamp: int -> string, cap: nat)
    requires Inv(s, stamp) && LookupsOk(s) && OneLive(s) && !MixesVersions(s, a, stamp, cap)
    ensures OneLive(Next(s, a, stamp, cap))
  {
    var t := Next(s, a, stamp, cap);
    forall key ensures !TwoLive(t, key) {
      if !a.LookupDefinition? && TwoLive(t, key) {
        var d, e :| d != e && Live(t, key, d) && Live(t, key, e);
        LiveBefore(s, a, stamp, cap, key, d);
        LiveBefore(s, a, stamp, cap, key, e);
        assert TwoLive(s, key);
      }
    }
  }

  /** Over every run in which no lookup leaves another version live: one instance per occurrence, however often versions are published. */
  lemma {:induction false} OneInstanceUnlessMixed(s: State, actions: seq<Action>, stamp: int -> string, cap: nat)
    requires Init(s) && NeverMixed(s, actions, stamp, cap)
    ensures OneLive(Run(s, actions, stamp, cap)) && LookupsOk(Run(s, actions, stamp, cap))
    ensures forall key :: !Repeated(Run(s, actions, stamp, cap), key)
  {
    if actions != [] {
      var n := |actions| - 1;
      forall i | 0 <= i < n ensures !MixesVersions(Run(s, actions[..n][..i], stamp, cap), actions[..n][i], stamp, cap) {
        assert actions[..n][..i] == actions[..i];
      }
      OneInstanceUnlessMixed(s, actions[..n], stamp, cap);
      RunKeepsInv(s, actions[..n], stamp, cap);
      StepKeepsOneLive(Run(s, actions[..n], stamp, cap), actions[n], stamp, cap);
      StepKeepsLookups(Run(s, actions[..n], stamp, cap), actions[n], stamp, cap);
    }
    OneLiveOneInstance(Run(s, actions, stamp, cap));
  }

  lemma OneLiveOneInstance(s: State)
    requires OneLive(s)
    ensures forall key :: !Repeated(s, key)
  {
    forall key ensures !Repeated(s, key) {
      assert !TwoLive(s, key);
      forall d, e | Instance(d, key) in s.instances && Instance(e, key) in s.instances ensures d == e {
        assert Live(s, key, d) && Live(s, key, e);
      }
    }
  }
}
