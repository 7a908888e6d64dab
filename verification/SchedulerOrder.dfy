/** When the claimed occurrences of a schedule move forward: exactly as long as no harmful toggle is written back. */
module SchedulerOrder {
  import opened Common
  import opened Schedule
  import opened SchedulerTick
  import opened SchedulerProtocol
  import Q = QueueProtocol

  ghost predicate Forward(claims: seq<Claimed>) {
    forall i, j :: 0 <= i < j < |claims| && claims[i].id == claims[j].id ==> claims[i].occurrence < claims[j].occurrence
  }

  /** The scheduler process has read this occurrence of the schedule and not yet tried to claim it. */
  predicate Saw(s: State, p: string, id: string, occurrence: int) {
    var l := SchedulerOf(s, p);
    l.Seen? && l.id == id && l.occurrence == occurrence
  }

  ghost predicate SeenOk(s: State, p: string) {
    SchedulerOf(s, p).Seen? ==> SchedulerOf(s, p).occurrence <= SchedulerOf(s, p).now <= s.queue.clock
  }

  /** Nobody can claim the schedule's next run: it is disabled, and no scheduler has seen that run. */
  ghost predicate OutOfReach(s: State, id: string, enabled: bool, nextRunAt: int) {
    !enabled && forall p :: !Saw(s, p, id, nextRunAt)
  }

  ghost predicate ClaimBehind(s: State, c: Claimed) {
    && c.id in s.schedules && c.occurrence <= s.queue.clock
    && (c.occurrence < s.schedules[c.id].nextRunAt || OutOfReach(s, c.id, s.schedules[c.id].enabled, s.schedules[c.id].nextRunAt))
  }

  ghost predicate OrderInv(s: State) {
    && Runnable(s.schedules) && Forward(s.claims)
    && (forall p :: SeenOk(s, p))
    && (forall i :: 0 <= i < |s.claims| ==> ClaimBehind(s, s.claims[i]))
  }

  /** The toggle's value lies after every claim of its schedule, or it disables a run that nobody has seen. */
  ghost predicate Harmless(s: State, user: string) {
    user in s.toggles ==>
      var w := s.toggles[user];
      (forall c :: c in s.claims && c.id == w.id ==> c.occurrence < w.nextRunAt) || OutOfReach(s, w.id, w.enabled, w.nextRunAt)
  }

  ghost predicate Orderly(s: State, a: Action) {
    a.ToggleWrite? ==> Harmless(s, a.user)
  }

  // ---------------------------------------------------------------- what every step keeps

  lemma ClockKept(s: State, a: Action, stamp: int -> string, cap: nat)
    ensures Next(s, a, stamp, cap).queue.clock >= s.queue.clock
  {
    match a
    case Queue(step) =>
    case EnqueueWon(_) =>
    case _ => assert Next(s, a, stamp, cap).queue == s.queue;
  }

  lemma SeenKept(s: State, a: Action, stamp: int -> string, cap: nat, p: string)
    requires SeenOk(s, p)
    ensures SeenOk(Next(s, a, stamp, cap), p)
  {
    var t := Next(s, a, stamp, cap);
    ClockKept(s, a, stamp, cap);
    match a
    case ReadDue(_, _) =>
    case Cas(_) =>
    case EnqueueWon(_) =>
    case CrashScheduler(_) =>
    case Queue(_) => assert t.schedulers == s.schedulers;
    case _ => assert t.schedulers == s.schedulers;
  }

  /** Only a due read lets a scheduler see a run. */
  lemma SeesOnlyDue(s: State, a: Action, stamp: int -> string, cap: nat, p: string, id: string, occurrence: int)
    requires !Saw(s, p, id, occurrence) && Saw(Next(s, a, stamp, cap), p, id, occurrence)
    ensures a.ReadDue? && id in s.schedules && s.schedules[id].enabled && s.schedules[id].nextRunAt == occurrence
  {
  }

  lemma RecurrencesKept(s: State, a: Action, stamp: int -> string, cap: nat)
    requires Runnable(s.schedules)
    ensures Runnable(Next(s, a, stamp, cap).schedules) && Next(s, a, stamp, cap).schedules.Keys == s.schedules.Keys
  {
  }

  /** A step other than a claim or a toggle's write leaves the schedules and the claims alone. */
  lemma QuietStep(s: State, a: Action, stamp: int -> string, cap: nat)
    requires !a.Cas? && !a.ToggleWrite?
    ensures Next(s, a, stamp, cap).schedules == s.schedules && Next(s, a, stamp, cap).claims == s.claims
  {
  }

  lemma QuietStepKeepsClaims(s: State, a: Action, stamp: int -> string, cap: nat, c: Claimed)
    requires !a.Cas? && !a.ToggleWrite? && ClaimBehind(s, c)
    ensures ClaimBehind(Next(s, a, stamp, cap), c)
  {
    var t := Next(s, a, stamp, cap);
    QuietStep(s, a, stamp, cap);
    ClockKept(s, a, stamp, cap);
    var row := s.schedules[c.id];
    if OutOfReach(s, c.id, row.enabled, row.nextRunAt) {
      forall p ensures !Saw(t, p, c.id, row.nextRunAt) {
        if Saw(t, p, c.id, row.nextRunAt) { SeesOnlyDue(s, a, stamp, cap, p, c.id, row.nextRunAt); }
      }
    }
  }

  /** A claim takes a run that lies after every earlier claim, and leaves a later one behind. */
  lemma CasKeepsOrder(s: State, p: string, stamp: int -> string, cap: nat)
    requires OrderInv(s)
    ensures var t := Next(s, Cas(p), stamp, cap); Forward(t.claims) && forall i :: 0 <= i < |t.claims| ==> ClaimBehind(t, t.claims[i])
  {
    var l, t := SchedulerOf(s, p), Next(s, Cas(p), stamp, cap);
    assert SeenOk(s, p);
    if l.Seen? {
      if l.id in s.schedules && s.schedules[l.id].nextRunAt == l.occurrence {
        AdvancedIsLater(s.schedules[l.id], l.now, cap);
        assert Saw(s, p, l.id, l.occurrence);
        forall i | 0 <= i < |s.claims| && s.claims[i].id == l.id ensures s.claims[i].occurrence < l.occurrence {
          assert ClaimBehind(s, s.claims[i]);
        }
      }
      forall i | 0 <= i < |t.claims| ensures ClaimBehind(t, t.claims[i]) {
        if i < |s.claims| {
          assert ClaimBehind(s, s.claims[i]);
          forall q, id, occurrence | !Saw(s, q, id, occurrence) ensures !Saw(t, q, id, occurrence) {
            if Saw(t, q, id, occurrence) { SeesOnlyDue(s, Cas(p), stamp, cap, q, id, occurrence); }
          }
        }
      }
    } else {
      assert forall i :: 0 <= i < |s.claims| ==> ClaimBehind(s, s.claims[i]);
    }
  }

  lemma WriteKeepsOrder(s: State, user: string, stamp: int -> string, cap: nat)
    requires OrderInv(s) && Harmless(s, user)
    ensures var t := Next(s, ToggleWrite(user), stamp, cap); t.claims == s.claims && forall i :: 0 <= i < |t.claims| ==> ClaimBehind(t, t.claims[i])
  {
    var t := Next(s, ToggleWrite(user), stamp, cap);
    forall i | 0 <= i < |t.claims| ensures ClaimBehind(t, t.claims[i]) {
      assert ClaimBehind(s, s.claims[i]) && s.claims[i] in s.claims;
      assert forall p, id, occurrence :: Saw(t, p, id, occurrence) <==> Saw(s, p, id, occurrence);
    }
  }

  lemma StepKeepsOrder(s: State, a: Action, stamp: int -> string, cap: nat)
    requires OrderInv(s) && Orderly(s, a)
    ensures OrderInv(Next(s, a, stamp, cap))
  {
    var t := Next(s, a, stamp, cap);
    forall p ensures SeenOk(t, p) { SeenKept(s, a, stamp, cap, p); }
    RecurrencesKept(s, a, stamp, cap);
    if a.Cas? {
      CasKeepsOrder(s, a.scheduler, stamp, cap);
    } else if a.ToggleWrite? {
      WriteKeepsOrder(s, a.user, stamp, cap);
    } else {
      QuietStep(s, a, stamp, cap);
      forall i | 0 <= i < |t.claims| ensures ClaimBehind(t, t.claims[i]) {
        assert ClaimBehind(s, s.claims[i]);
        QuietStepKeepsClaims(s, a, stamp, cap, s.claims[i]);
      }
    }
  }

  // ---------------------------------------------------------------- the results

  ghost predicate OrderlyRun(s: State, actions: seq<Action>, stamp: int -> string, cap: nat) {
    forall i :: 0 <= i < |actions| ==> Orderly(Run(s, actions[..i], stamp, cap), actions[i])
  }

  lemma {:induction false} OrderlyRunKeeps(s: State, actions: seq<Action>, stamp: int -> string, cap: nat)
    requires OrderInv(s) && OrderlyRun(s, actions, stamp, cap)
    ensures OrderInv(Run(s, actions, stamp, cap))
  {
    if actions != [] {
      var n := |actions| - 1;
      forall i | 0 <= i < n ensures Orderly(Run(s, actions[..n][..i], stamp, cap), actions[..n][i]) {
        assert actions[..n][..i] == actions[..i];
      }
      OrderlyRunKeeps(s, actions[..n], stamp, cap);
      StepKeepsOrder(Run(s, actions[..n], stamp, cap), actions[n], stamp, cap);
    }
  }

  lemma InitOrder(s: State)
    requires Init(s)
    ensures OrderInv(s)
  {
  }

  /** As long as every toggle written back is harmless, the claimed occurrences of each schedule strictly increase. */
  lemma {:induction false} ClaimsMoveForward(s: State, actions: seq<Action>, stamp: int -> string, cap: nat)
    requires Init(s) && OrderlyRun(s, actions, stamp, cap)
    ensures Forward(Run(s, actions, stamp, cap).claims)
  {
    InitOrder(s);
    OrderlyRunKeeps(s, actions, stamp, cap);
  }

  /** A toggle whose write follows its read at once is harmless: enabling re-anchors past every claim. */
  lemma PromptToggleIsHarmless(s: State, user: string, id: string, enabled: bool, stamp: int -> string, cap: nat)
    requires OrderInv(s) && id in s.schedules
    ensures Harmless(Next(s, ToggleRead(user, id, enabled), stamp, cap), user)
  {
    var row, t := s.schedules[id], Next(s, ToggleRead(user, id, enabled), stamp, cap);
    NextRunAdvances(row.recurrence, s.queue.clock);
    assert forall p, occurrence :: Saw(t, p, id, occurrence) <==> Saw(s, p, id, occurrence);
    if !enabled && exists c :: c in s.claims && c.id == id && c.occurrence >= row.nextRunAt {
      var c :| c in s.claims && c.id == id && c.occurrence >= row.nextRunAt;
      assert ClaimBehind(s, c);
      assert OutOfReach(t, id, enabled, row.nextRunAt);
    } else {
      forall c | c in s.claims && c.id == id ensures c.occurrence < t.toggles[user].nextRunAt {
        assert ClaimBehind(s, c);
      }
    }
  }

  ghost predicate NoWrites(actions: seq<Action>) {
    forall i :: 0 <= i < |actions| ==> !actions[i].ToggleWrite?
  }

  /**
   * The exact guard: with only harmless writes so far, writing a toggle back can make
   * a schedule's claims go back or repeat, without any further write, if and only if
   * it is not harmless. `p` is any scheduler process that is asleep.
   */
  lemma WriteIsHarmlessIff(s: State, user: string, p: string, stamp: int -> string, cap: nat)
    requires OrderInv(s) && user in s.toggles && s.toggles[user].id in s.schedules && SchedulerOf(s, p).Asleep?
    ensures (exists more :: NoWrites(more) && !Forward(Run(Next(s, ToggleWrite(user), stamp, cap), more, stamp, cap).claims))
       <==> !Harmless(s, user)
  {
    var t := Next(s, ToggleWrite(user), stamp, cap);
    if Harmless(s, user) {
      StepKeepsOrder(s, ToggleWrite(user), stamp, cap);
      forall more | NoWrites(more) ensures Forward(Run(t, more, stamp, cap).claims) {
        OrderlyRunKeeps(t, more, stamp, cap);
      }
    } else {
      HarmfulWriteBreaks(s, user, p, stamp, cap);
    }
  }

  lemma ClaimAppended(s: State, p: string, id: string, occurrence: int, stamp: int -> string, cap: nat)
    requires Saw(s, p, id, occurrence) && id in s.schedules && s.schedules[id].nextRunAt == occurrence
    requires exists c :: c in s.claims && c.id == id && c.occurrence >= occurrence
    ensures !Forward(Next(s, Cas(p), stamp, cap).claims)
  {
    var c :| c in s.claims && c.id == id && c.occurrence >= occurrence;
    var i :| 0 <= i < |s.claims| && s.claims[i] == c;
    var claims := Next(s, Cas(p), stamp, cap).claims;
    assert claims == s.claims + [Claimed(id, occurrence)];
    assert claims[i] == c && claims[|s.claims|] == Claimed(id, occurrence);
  }

  /** A schedule enabled again before one of its claims is claimed there by whoever looks next. */
  lemma EnablingBreaks(t: State, p: string, id: string, occurrence: int, c: Claimed, stamp: int -> string, cap: nat)
    requires c in t.claims && c.id == id && c.occurrence >= occurrence
    requires id in t.schedules && t.schedules[id].nextRunAt == occurrence
    requires var seen := Next(t, ReadDue(p, id), stamp, cap); Saw(seen, p, id, occurrence)
    ensures var more := [ReadDue(p, id)] + [Cas(p)]; NoWrites(more) && !Forward(Run(t, more, stamp, cap).claims)
  {
    var seen := Next(t, ReadDue(p, id), stamp, cap);
    RunCons(t, ReadDue(p, id), [Cas(p)], stamp, cap);
    RunOne(seen, Cas(p), stamp, cap);
    ClaimAppended(seen, p, id, occurrence, stamp, cap);
  }

  lemma SeenBreaks(t: State, q: string, id: string, occurrence: int, c: Claimed, stamp: int -> string, cap: nat)
    requires c in t.claims && c.id == id && c.occurrence >= occurrence && Saw(t, q, id, occurrence)
    requires id in t.schedules && t.schedules[id].nextRunAt == occurrence
    ensures NoWrites([Cas(q)]) && !Forward(Run(t, [Cas(q)], stamp, cap).claims)
  {
    RunOne(t, Cas(q), stamp, cap);
    ClaimAppended(t, q, id, occurrence, stamp, cap);
  }

  lemma HarmfulWriteBreaks(s: State, user: string, p: string, stamp: int -> string, cap: nat)
    requires OrderInv(s) && user in s.toggles && s.toggles[user].id in s.schedules && SchedulerOf(s, p).Asleep? && !Harmless(s, user)
    ensures exists more :: NoWrites(more) && !Forward(Run(Next(s, ToggleWrite(user), stamp, cap), more, stamp, cap).claims)
  {
    var w, t := s.toggles[user], Next(s, ToggleWrite(user), stamp, cap);
    var c :| c in s.claims && c.id == w.id && c.occurrence >= w.nextRunAt;
    assert ClaimBehind(s, c);
    if w.enabled {
      EnablingBreaks(t, p, w.id, w.nextRunAt, c, stamp, cap);
    } else {
      var q :| Saw(s, q, w.id, w.nextRunAt);
      SeenBreaks(t, q, w.id, w.nextRunAt, c, stamp, cap);
    }
  }

  /** Two schedulers have seen the occurrence; a user disables the schedule around the first claim. */
  function StaleToggle(id: string): seq<Action> {
    BothRead(id) + ([Cas("A")] + ([ToggleWrite("U")] + [Cas("B")]))
  }

  function BothRead(id: string): seq<Action> {
    [ReadDue("A", id)] + ([ReadDue("B", id)] + [ToggleRead("U", id, false)])
  }

  lemma BothReadTheRow(s: State, id: string, stamp: int -> string, cap: nat)
    requires Init(s) && id in s.schedules && Due(s.schedules[id], s.queue.clock)
    ensures var t := Run(s, BothRead(id), stamp, cap); var seen := Seen(id, s.schedules[id].nextRunAt, s.queue.clock);
            && SchedulerOf(t, "A") == SchedulerOf(t, "B") == seen && t.schedules == s.schedules && t.claims == []
            && "U" in t.toggles && t.toggles["U"] == ToggleLocal(id, false, s.schedules[id].nextRunAt)
  {
    var s1 := Next(s, ReadDue("A", id), stamp, cap);
    var s2 := Next(s1, ReadDue("B", id), stamp, cap);
    RunCons(s, ReadDue("A", id), [ReadDue("B", id)] + [ToggleRead("U", id, false)], stamp, cap);
    RunCons(s1, ReadDue("B", id), [ToggleRead("U", id, false)], stamp, cap);
    RunOne(s2, ToggleRead("U", id, false), stamp, cap);
  }

  lemma {:induction false} BothClaimTheRow(s: State, id: string, occurrence: int, now: int, stamp: int -> string, cap: nat)
    requires SchedulerOf(s, "A") == SchedulerOf(s, "B") == Seen(id, occurrence, now) && s.claims == []
    requires id in s.schedules && s.schedules[id].nextRunAt == occurrence
    requires "U" in s.toggles && s.toggles["U"] == ToggleLocal(id, false, occurrence)
    ensures Run(s, [Cas("A")] + ([ToggleWrite("U")] + [Cas("B")]), stamp, cap).claims == [Claimed(id, occurrence), Claimed(id, occurrence)]
  {
    var s1 := Next(s, Cas("A"), stamp, cap);
    var s2 := Next(s1, ToggleWrite("U"), stamp, cap);
    RunCons(s, Cas("A"), [ToggleWrite("U")] + [Cas("B")], stamp, cap);
    RunCons(s1, ToggleWrite("U"), [Cas("B")], stamp, cap);
    RunOne(s2, Cas("B"), stamp, cap);
    assert s1.claims == [Claimed(id, occurrence)];
  }

  /** The stale write restores the claimed time, so the second scheduler claims the same occurrence again. */
  lemma StaleToggleRepeatsClaim(s: State, id: string, stamp: int -> string, cap: nat)
    requires Init(s) && id in s.schedules && Due(s.schedules[id], s.queue.clock)
    ensures var c := Claimed(id, s.schedules[id].nextRunAt); Run(s, StaleToggle(id), stamp, cap).claims == [c, c]
  {
    RunConcat(s, BothRead(id), [Cas("A")] + ([ToggleWrite("U")] + [Cas("B")]), stamp, cap);
    BothReadTheRow(s, id, stamp, cap);
    BothClaimTheRow(Run(s, BothRead(id), stamp, cap), id, s.schedules[id].nextRunAt, s.queue.clock, stamp, cap);
  }
}
