/**
 * The monthly credit grant of one workspace: concurrent job runs, claiming a slot per
 * billing period, interleaved at every read and write with the creation of
 * subscriptions and the expiry of trials, which grant an allowance of their own.
 */
module MonthlyGrant {
  import opened Common
  import T = TrialExpiry

  datatype SlotStatus = RUNNING | SUCCEEDED | FAILED

  /** A PLAN_GRANT row: when it was written and for which period start it was meant. */
  datatype PlanGrant = PlanGrant(at: int, periodStart: int)

  /** A job run between two statements. `period` is the start in its dedupe key, `start` the one read again for the grant. */
  datatype Local =
    | Idle
    | Keyed(period: int)
    | Conflict(period: int)
    | SawFailed(period: int)
    | Claimed(period: int)
    | Due(period: int, start: int)
    | Granting(period: int, start: int)
    | Done(period: int)
    | Failing(period: int)

  datatype State = State(subs: T.State, slots: map<int, SlotStatus>, grants: seq<PlanGrant>, runs: map<string, Local>)

  datatype Action =
    | Sub(step: T.Action)
    | ReadKey(run: string)
    | CreateSlot(run: string)
    | ReadSlot(run: string)
    | Reclaim(run: string)
    | ReadPeriod(run: string)
    | LookForGrant(run: string)
    | WriteGrant(run: string)
    | Throw(run: string)
    | FinishOk(run: string)
    | FinishFailed(run: string)
    | Crash(run: string)

  function RunOf(s: State, r: string): Local {
    if r in s.runs then s.runs[r] else Idle
  }

  function At(s: State, r: string, l: Local): State {
    s.(runs := s.runs[r := l])
  }

  /** The period start of the current subscription. */
  function Current(s: State): Option<int> {
    if T.Newest(s.subs.rows).Some? then Some(s.subs.rows[T.Newest(s.subs.rows).value].start) else None
  }

  predicate GrantedSince(grants: seq<PlanGrant>, start: int) {
    exists i :: 0 <= i < |grants| && grants[i].at >= start
  }

  /** The run owns its period's slot. */
  predicate Holding(l: Local) {
    l.Claimed? || l.Due? || l.Granting? || l.Done? || l.Failing?
  }

  /** The initial grant of a subscription is a statement of its own, after the row is committed. */
  function SubStep(s: State, step: T.Action): State {
    var t := s.(subs := T.Next(s.subs, step));
    if step.GrantInitial? && T.CreatorOf(s.subs, step.creator).Owing?
    then t.(grants := s.grants + [PlanGrant(s.subs.clock, T.CreatorOf(s.subs, step.creator).start)]) else t
  }

  function Next(s: State, a: Action): State {
    match a
    case Sub(step) => SubStep(s, step)
    case ReadKey(r) => if RunOf(s, r).Idle? && Current(s).Some? then At(s, r, Keyed(Current(s).value)) else s
    case CreateSlot(r) =>
      var l := RunOf(s, r);
      if !l.Keyed? then s
      else if l.period in s.slots then At(s, r, Conflict(l.period))
      else At(s, r, Claimed(l.period)).(slots := s.slots[l.period := RUNNING])
    case ReadSlot(r) =>
      var l := RunOf(s, r);
      if !l.Conflict? || l.period !in s.slots then s
      else At(s, r, if s.slots[l.period] == FAILED then SawFailed(l.period) else Idle)
    case Reclaim(r) =>
      var l := RunOf(s, r);
      if !l.SawFailed? || l.period !in s.slots then s
      else if s.slots[l.period] == FAILED then At(s, r, Claimed(l.period)).(slots := s.slots[l.period := RUNNING])
      else At(s, r, Idle)
    case ReadPeriod(r) =>
      var l := RunOf(s, r);
      if !l.Claimed? then s
      else At(s, r, if Current(s).Some? then Due(l.period, Current(s).value) else Failing(l.period))
    case LookForGrant(r) =>
      var l := RunOf(s, r);
      if !l.Due? then s
      else At(s, r, if GrantedSince(s.grants, l.start) then Done(l.period) else Granting(l.period, l.start))
    case WriteGrant(r) =>
      var l := RunOf(s, r);
      if l.Granting? then At(s, r, Done(l.period)).(grants := s.grants + [PlanGrant(s.subs.clock, l.start)]) else s
    case Throw(r) => if Holding(RunOf(s, r)) then At(s, r, Failing(RunOf(s, r).period)) else s
    case FinishOk(r) =>
      var l := RunOf(s, r);
      if l.Done? then At(s, r, Idle).(slots := s.slots[l.period := SUCCEEDED]) else s
    case FinishFailed(r) =>
      var l := RunOf(s, r);
      if l.Failing? then At(s, r, Idle).(slots := s.slots[l.period := FAILED]) else s
    case Crash(r) => At(s, r, Idle)
  }

  function Run(s: State, actions: seq<Action>): State {
    if actions == [] then s else Next(Run(s, actions[..|actions| - 1]), actions[|actions| - 1])
  }

  /** A workspace whose subscription is yet to be created. */
  ghost predicate Init(s: State) {
    T.Init(s.subs) && s.slots == map[] && s.runs == map[] && s.grants == []
  }

  ghost predicate GrantedTwice(s: State) {
    exists i, j :: 0 <= i < j < |s.grants| && s.grants[i].periodStart == s.grants[j].periodStart
  }

  // ---------------------------------------------------------------- who is about to grant

  predicate NoGrantFor(grants: seq<PlanGrant>, start: int) {
    forall i :: 0 <= i < |grants| ==> grants[i].periodStart != start
  }

  predicate GrantsFor(l: Local, start: int) {
    l.Granting? && l.start == start
  }

  /** A creator has committed a row of this period and not granted its allowance yet. */
  ghost predicate Owed(s: State, start: int) {
    exists c :: T.CreatorOf(s.subs, c) == T.Owing(start)
  }

  /** The period has its allowance, or somebody is about to write it. */
  ghost predicate Provided(s: State, start: int) {
    !NoGrantFor(s.grants, start) || Owed(s, start) || exists q :: GrantsFor(RunOf(s, q), start)
  }

  /** A step after which one more process is about to grant the period `Intended`. */
  predicate Intends(s: State, a: Action) {
    || (a.LookForGrant? && RunOf(s, a.run).Due? && !GrantedSince(s.grants, RunOf(s, a.run).start))
    || (a.Sub? && a.step.CreateFree? && T.CreatorOf(s.subs, a.step.creator).Creating?)
    || (a.Sub? && a.step.Open? && s.subs.rows == [] && T.CreatorOf(s.subs, a.step.creator).Absent?)
  }

  function Intended(s: State, a: Action): int {
    if a.LookForGrant? && RunOf(s, a.run).Due? then RunOf(s, a.run).start else s.subs.clock
  }

  ghost predicate Safe(s: State, a: Action) {
    Intends(s, a) ==> !Provided(s, Intended(s, a))
  }

  ghost predicate SafeRun(s: State, actions: seq<Action>) {
    forall i :: 0 <= i < |actions| ==> Safe(Run(s, actions[..i]), actions[i])
  }

  /** A run about to grant is the first to do so for its period. */
  ghost predicate WriterOk(s: State, r: string) {
    RunOf(s, r).Granting? ==> NoGrantFor(s.grants, RunOf(s, r).start) && !Owed(s, RunOf(s, r).start)
  }

  predicate OwerOk(s: State, c: string) {
    T.CreatorOf(s.subs, c).Owing? ==> NoGrantFor(s.grants, T.CreatorOf(s.subs, c).start)
  }

  predicate Apart(s: State, r: string, q: string) {
    r != q && RunOf(s, r).Granting? && RunOf(s, q).Granting? ==> RunOf(s, r).start != RunOf(s, q).start
  }

  predicate OwersApart(s: State, c: string, d: string) {
    c != d && T.CreatorOf(s.subs, c).Owing? ==> T.CreatorOf(s.subs, d) != T.CreatorOf(s.subs, c)
  }

  ghost predicate LedgerOk(s: State) {
    && (forall i :: 0 <= i < |s.grants| ==> s.grants[i].periodStart <= s.grants[i].at)
    && (forall i, j :: 0 <= i < j < |s.grants| ==> s.grants[i].periodStart != s.grants[j].periodStart)
  }

  /** Whatever is due or owed began in the past. */
  predicate Past(s: State, r: string, c: string) {
    && (RunOf(s, r).Due? || RunOf(s, r).Granting? ==> RunOf(s, r).start <= s.subs.clock)
    && (T.CreatorOf(s.subs, c).Owing? ==> T.CreatorOf(s.subs, c).start <= s.subs.clock)
  }

  ghost predicate RowsBegun(s: State) {
    forall k :: 0 <= k < |s.subs.rows| ==> s.subs.rows[k].start <= s.subs.clock
  }

  ghost predicate Inv(s: State) {
    && LedgerOk(s) && RowsBegun(s) && (forall r, c :: Past(s, r, c))
    && (forall r :: WriterOk(s, r)) && (forall c :: OwerOk(s, c))
    && (forall r, q :: Apart(s, r, q)) && (forall c, d :: OwersApart(s, c, d))
  }

  // ---------------------------------------------------------------- what safe steps keep

  lemma OwedAfter(s: State, a: Action, start: int)
    requires Owed(Next(s, a), start) && !Owed(s, start)
    ensures Intends(s, a) && !a.LookForGrant? && start == s.subs.clock
  {
    var c :| T.CreatorOf(Next(s, a).subs, c) == T.Owing(start);
    assert T.CreatorOf(s.subs, c) != T.Owing(start);
  }

  lemma GranterProvides(s: State, r: string)
    requires RunOf(s, r).Granting?
    ensures Provided(s, RunOf(s, r).start)
  {
    assert GrantsFor(RunOf(s, r), RunOf(s, r).start);
  }

  lemma WriterKept(s: State, a: Action, r: string)
    requires Inv(s) && Safe(s, a)
    ensures WriterOk(Next(s, a), r)
  {
    var t := Next(s, a);
    assert WriterOk(s, r);
    if RunOf(t, r).Granting? {
      var start := RunOf(t, r).start;
      if Owed(t, start) && !Owed(s, start) {
        OwedAfter(s, a, start);
        GranterProvides(s, r);
      } else if a.WriteGrant? && a.run != r {
        assert Apart(s, a.run, r);
      } else if a.Sub? && a.step.GrantInitial? && T.CreatorOf(s.subs, a.step.creator).Owing? {
        assert Owed(s, T.CreatorOf(s.subs, a.step.creator).start);
      }
    }
  }

  lemma OwerKept(s: State, a: Action, c: string)
    requires Inv(s) && Safe(s, a)
    ensures OwerOk(Next(s, a), c)
  {
    assert OwerOk(s, c);
    match a
    case WriteGrant(q) => if RunOf(s, q).Granting? { assert WriterOk(s, q); assert T.CreatorOf(s.subs, c) != T.Owing(RunOf(s, q).start); }
    case Sub(step) => if step.GrantInitial? { assert OwersApart(s, c, step.creator) && OwersApart(s, step.creator, c); }
    case _ =>
  }

  lemma ApartKept(s: State, a: Action, r: string, q: string)
    requires Inv(s) && Safe(s, a)
    ensures Apart(Next(s, a), r, q)
  {
    assert Apart(s, r, q);
    if a.LookForGrant? && Intends(s, a) {
      assert !GrantsFor(RunOf(s, r), Intended(s, a)) && !GrantsFor(RunOf(s, q), Intended(s, a));
    }
  }

  lemma OwersApartKept(s: State, a: Action, c: string, d: string)
    requires Inv(s) && Safe(s, a)
    ensures OwersApart(Next(s, a), c, d)
  {
    assert OwersApart(s, c, d);
    if Intends(s, a) && !a.LookForGrant? {
      assert T.CreatorOf(s.subs, c) != T.Owing(s.subs.clock) && T.CreatorOf(s.subs, d) != T.Owing(s.subs.clock);
    }
  }

  lemma LedgerKept(s: State, a: Action)
    requires Inv(s)
    ensures LedgerOk(Next(s, a)) && RowsBegun(Next(s, a))
  {
    if a.WriteGrant? { assert WriterOk(s, a.run) && Past(s, a.run, ""); }
    if a.Sub? && a.step.GrantInitial? { assert OwerOk(s, a.step.creator) && Past(s, "", a.step.creator); }
  }

  lemma PastKept(s: State, a: Action, r: string, c: string)
    requires Inv(s)
    ensures Past(Next(s, a), r, c)
  {
    assert Past(s, r, c);
  }

  lemma StepKeepsInv(s: State, a: Action)
    requires Inv(s) && Safe(s, a)
    ensures Inv(Next(s, a))
  {
    var t := Next(s, a);
    LedgerKept(s, a);
    forall r, c ensures Past(t, r, c) { PastKept(s, a, r, c); }
    forall r ensures WriterOk(t, r) { WriterKept(s, a, r); }
    forall c ensures OwerOk(t, c) { OwerKept(s, a, c); }
    forall r, q ensures Apart(t, r, q) { ApartKept(s, a, r, q); }
    forall c, d ensures OwersApart(t, c, d) { OwersApartKept(s, a, c, d); }
  }

  lemma {:induction false} SafeRunKeepsInv(s: State, actions: seq<Action>)
    requires Inv(s) && SafeRun(s, actions)
    ensures Inv(Run(s, actions))
  {
    if actions != [] {
      var n := |actions| - 1;
      forall i | 0 <= i < n ensures Safe(Run(s, actions[..n][..i]), actions[..n][i]) {
        assert actions[..n][..i] == actions[..i];
      }
      SafeRunKeepsInv(s, actions[..n]);
      StepKeepsInv(Run(s, actions[..n]), actions[n]);
    }
  }

  lemma InitInv(s: State)
    requires Init(s)
    ensures Inv(s)
  {
  }

  // ---------------------------------------------------------------- the exact guard

  /** No further process looks for a grant or creates a subscription. */
  predicate NoneIntends(actions: seq<Action>) {
    forall i :: 0 <= i < |actions| ==> !actions[i].LookForGrant? && !(actions[i].Sub? && (actions[i].step.CreateFree? || actions[i].step.Open?))
  }

  /**
   * The exact guard: with only safe steps so far, a look that finds no grant or the
   * creation of a subscription can lead to a period being granted twice, without any
   * later such step, if and only if the period has its allowance already or somebody
   * is about to write it.
   */
  lemma IntentIsSafeIff(s: State, a: Action)
    requires Inv(s) && Intends(s, a)
    ensures (exists more :: NoneIntends(more) && GrantedTwice(Run(Next(s, a), more))) <==> Provided(s, Intended(s, a))
  {
    var t := Next(s, a);
    if Provided(s, Intended(s, a)) {
      UnsafeIntentDoubles(s, a);
    } else {
      StepKeepsInv(s, a);
      forall more | NoneIntends(more) ensures !GrantedTwice(Run(t, more)) {
        SafeRunKeepsInv(t, more);
      }
    }
  }

  /** The grant this step has announced, by the process that announced it. */
  function GrantOf(a: Action): Action {
    match a
    case LookForGrant(r) => WriteGrant(r)
    case Sub(step) => if step.CreateFree? || step.Open? then Sub(T.GrantInitial(step.creator)) else a
    case _ => a
  }

  lemma GrantComes(s: State, a: Action)
    requires Intends(s, a)
    ensures var t := Next(s, a); var u := Next(t, GrantOf(a));
            && t.grants == s.grants && |u.grants| == |s.grants| + 1 && u.grants[..|s.grants|] == s.grants
            && u.grants[|s.grants|].periodStart == Intended(s, a)
  {
  }

  lemma GrantedBefore(s: State, a: Action)
    requires Intends(s, a) && !NoGrantFor(s.grants, Intended(s, a))
    ensures GrantedTwice(Next(Next(s, a), GrantOf(a)))
  {
    var u := Next(Next(s, a), GrantOf(a));
    GrantComes(s, a);
    var i :| 0 <= i < |s.grants| && s.grants[i].periodStart == Intended(s, a);
    assert u.grants[i] == u.grants[..|s.grants|][i];
  }

  lemma UnsafeIntentDoubles(s: State, a: Action)
    requires Inv(s) && Intends(s, a) && Provided(s, Intended(s, a))
    ensures exists more :: NoneIntends(more) && GrantedTwice(Run(Next(s, a), more))
  {
    var t, first := Next(s, a), GrantOf(a);
    if !NoGrantFor(s.grants, Intended(s, a)) {
      GrantedBefore(s, a);
      RunOne(t, first);
      assert NoneIntends([first]);
    } else {
      var second := OtherGrant(s, a);
      RunTwo(t, first, second);
      assert NoneIntends([first, second]);
    }
  }

  /** The other process that is about to grant the period is still there. */
  lemma OtherGrant(s: State, a: Action) returns (second: Action)
    requires Inv(s) && Intends(s, a) && NoGrantFor(s.grants, Intended(s, a)) && Provided(s, Intended(s, a))
    ensures NoneIntends([second])
    ensures GrantedTwice(Next(Next(Next(s, a), GrantOf(a)), second))
  {
    var start, n := Intended(s, a), |s.grants|;
    var u := Next(Next(s, a), GrantOf(a));
    GrantComes(s, a);
    if Owed(s, start) {
      var c :| T.CreatorOf(s.subs, c) == T.Owing(start);
      second := Sub(T.GrantInitial(c));
      assert T.CreatorOf(u.subs, c) == T.Owing(start);
    } else {
      var q :| GrantsFor(RunOf(s, q), start);
      second := WriteGrant(q);
      assert GrantsFor(RunOf(u, q), start);
    }
    var end := Next(u, second);
    assert end.grants[n] == u.grants[n] && end.grants[n + 1].periodStart == start;
  }

  lemma RunOne(s: State, a: Action)
    ensures Run(s, [a]) == Next(s, a)
  {
    assert [a][..0] == [];
  }

  lemma RunTwo(s: State, a: Action, b: Action)
    ensures Run(s, [a, b]) == Next(Next(s, a), b)
  {
    assert [a, b][..1] == [a];
    RunOne(s, a);
  }

  // ---------------------------------------------------------------- what the slot adds

  /** A look between the commit of a subscription row and the grant its creator still owes. */
  ghost predicate InWindow(s: State, a: Action) {
    a.LookForGrant? && RunOf(s, a.run).Due? && Owed(s, RunOf(s, a.run).start) && !GrantedSince(s.grants, RunOf(s, a.run).start)
  }

  ghost predicate NoneInWindow(s: State, actions: seq<Action>) {
    forall i :: 0 <= i < |actions| ==> !InWindow(Run(s, actions[..i]), actions[i])
  }

  /** A run that keyed one period and finds another when it reads the subscription again. */
  predicate Straddles(s: State, a: Action) {
    a.ReadPeriod? && RunOf(s, a.run).Claimed? && Current(s).Some? && RunOf(s, a.run).period != Current(s).value
  }

  ghost predicate NoStraddle(s: State, actions: seq<Action>) {
    forall i :: 0 <= i < |actions| ==> !Straddles(Run(s, actions[..i]), actions[i])
  }

  /** A subscription created at the very instant of another one: two expiries of one trial can do it. */
  ghost predicate Twins(s: State, a: Action) {
    Intends(s, a) && a.Sub? && exists k :: 0 <= k < |s.subs.rows| && s.subs.rows[k].start == s.subs.clock
  }

  ghost predicate NoTwins(s: State, actions: seq<Action>) {
    forall i :: 0 <= i < |actions| ==> !Twins(Run(s, actions[..i]), actions[i])
  }

  /** A holder's slot is running, and a run that has read the period again is in the one it keyed. */
  predicate HolderOk(s: State, r: string) {
    var l := RunOf(s, r);
    && (Holding(l) ==> l.period in s.slots && s.slots[l.period] == RUNNING)
    && (l.Due? || l.Granting? ==> l.start == l.period)
  }

  predicate Exclusive(s: State, r: string, q: string) {
    r != q && Holding(RunOf(s, r)) && Holding(RunOf(s, q)) ==> RunOf(s, r).period != RunOf(s, q).period
  }

  ghost predicate SlotInv(s: State) {
    (forall r :: HolderOk(s, r)) && (forall r, q :: Exclusive(s, r, q))
  }

  lemma HolderKept(s: State, a: Action, r: string)
    requires SlotInv(s) && !Straddles(s, a)
    ensures HolderOk(Next(s, a), r)
  {
    assert HolderOk(s, r);
    match a
    case FinishOk(q) => assert HolderOk(s, q) && Exclusive(s, q, r);
    case FinishFailed(q) => assert HolderOk(s, q) && Exclusive(s, q, r);
    case _ =>
  }

  lemma ExclusiveKept(s: State, a: Action, r: string, q: string)
    requires SlotInv(s)
    ensures Exclusive(Next(s, a), r, q)
  {
    assert Exclusive(s, r, q) && HolderOk(s, r) && HolderOk(s, q);
  }

  /** Without straddling, one run at a time works on a period. */
  lemma {:induction false} SlotsSerialise(s: State, actions: seq<Action>)
    requires Init(s) && NoStraddle(s, actions)
    ensures SlotInv(Run(s, actions))
  {
    if actions != [] {
      var n := |actions| - 1;
      forall i | 0 <= i < n ensures !Straddles(Run(s, actions[..n][..i]), actions[..n][i]) {
        assert actions[..n][..i] == actions[..i];
      }
      SlotsSerialise(s, actions[..n]);
      var before, a := Run(s, actions[..n]), actions[n];
      var after := Next(before, a);
      forall r ensures HolderOk(after, r) { HolderKept(before, a, r); }
      forall r, q ensures Exclusive(after, r, q) { ExclusiveKept(before, a, r, q); }
    }
  }

  /** Where the slots serialise the runs, the creation window is all that can make a look unsafe. */
  lemma SafeIffOutsideWindow(s: State, r: string)
    requires Inv(s) && SlotInv(s)
    ensures Safe(s, LookForGrant(r)) <==> !InWindow(s, LookForGrant(r))
  {
    var l := RunOf(s, r);
    if l.Due? {
      forall q ensures !GrantsFor(RunOf(s, q), l.start) {
        assert HolderOk(s, r) && HolderOk(s, q) && Exclusive(s, r, q);
      }
    }
  }

  ghost predicate FromRow(s: State, start: int) {
    exists k :: 0 <= k < |s.subs.rows| && s.subs.rows[k].start == start
  }

  predicate LocalFrom(l: Local) {
    l.Due? || l.Granting?
  }

  /** Every period at hand is that of some row. */
  ghost predicate AllFromRows(s: State) {
    && (forall r :: LocalFrom(RunOf(s, r)) ==> FromRow(s, RunOf(s, r).start))
    && (forall c :: T.CreatorOf(s.subs, c).Owing? ==> FromRow(s, T.CreatorOf(s.subs, c).start))
    && (forall i :: 0 <= i < |s.grants| ==> FromRow(s, s.grants[i].periodStart))
  }

  lemma RowsStay(s: State, a: Action, start: int)
    requires FromRow(s, start)
    ensures FromRow(Next(s, a), start)
  {
    var k :| 0 <= k < |s.subs.rows| && s.subs.rows[k].start == start;
    assert Next(s, a).subs.rows[k].start == start;
  }

  lemma NewRow(s: State, a: Action)
    requires Intends(s, a) && a.Sub?
    ensures FromRow(Next(s, a), s.subs.clock)
  {
    var rows := Next(s, a).subs.rows;
    assert rows[|rows| - 1].start == s.subs.clock;
  }

  lemma RunsFromRows(s: State, a: Action, r: string)
    requires AllFromRows(s) && LocalFrom(RunOf(Next(s, a), r))
    ensures FromRow(Next(s, a), RunOf(Next(s, a), r).start)
  {
    if LocalFrom(RunOf(s, r)) { RowsStay(s, a, RunOf(s, r).start); } else { assert FromRow(s, RunOf(Next(s, a), r).start); }
  }

  lemma CreatorsFromRows(s: State, a: Action, c: string)
    requires AllFromRows(s) && T.CreatorOf(Next(s, a).subs, c).Owing?
    ensures FromRow(Next(s, a), T.CreatorOf(Next(s, a).subs, c).start)
  {
    if T.CreatorOf(s.subs, c).Owing? { RowsStay(s, a, T.CreatorOf(s.subs, c).start); } else { NewRow(s, a); }
  }

  lemma GrantsFromRows(s: State, a: Action, i: nat)
    requires AllFromRows(s) && i < |Next(s, a).grants|
    ensures FromRow(Next(s, a), Next(s, a).grants[i].periodStart)
  {
    if i < |s.grants| { assert Next(s, a).grants[i] == s.grants[i]; }
    RowsStay(s, a, Next(s, a).grants[i].periodStart);
  }

  lemma StepKeepsRows(s: State, a: Action)
    requires AllFromRows(s)
    ensures AllFromRows(Next(s, a))
  {
    var t := Next(s, a);
    forall r | LocalFrom(RunOf(t, r)) ensures FromRow(t, RunOf(t, r).start) { RunsFromRows(s, a, r); }
    forall c | T.CreatorOf(t.subs, c).Owing? ensures FromRow(t, T.CreatorOf(t.subs, c).start) { CreatorsFromRows(s, a, c); }
    forall i | 0 <= i < |t.grants| ensures FromRow(t, t.grants[i].periodStart) { GrantsFromRows(s, a, i); }
  }

  lemma {:induction false} RunFromRows(s: State, actions: seq<Action>)
    requires Init(s)
    ensures AllFromRows(Run(s, actions))
  {
    if actions != [] {
      RunFromRows(s, actions[..|actions| - 1]);
      StepKeepsRows(Run(s, actions[..|actions| - 1]), actions[|actions| - 1]);
    }
  }

  /** A subscription created at an instant of its own starts a period nobody has provided for. */
  lemma NoTwinIsSafe(s: State, a: Action)
    requires AllFromRows(s) && a.Sub? && !Twins(s, a)
    ensures Safe(s, a)
  {
    if Intends(s, a) && Provided(s, s.subs.clock) {
      ProvidedFromRow(s, s.subs.clock);
    }
  }

  lemma ProvidedFromRow(s: State, start: int)
    requires AllFromRows(s) && Provided(s, start)
    ensures FromRow(s, start)
  {
    if Owed(s, start) {
      var c :| T.CreatorOf(s.subs, c) == T.Owing(start);
      assert T.CreatorOf(s.subs, c).Owing?;
    } else if !NoGrantFor(s.grants, start) {
      var i :| 0 <= i < |s.grants| && s.grants[i].periodStart == start;
    } else {
      var q :| GrantsFor(RunOf(s, q), start);
      assert LocalFrom(RunOf(s, q));
    }
  }

  /** Each condition on a run holds of its beginning. */
  ghost predicate Orderly(s: State, actions: seq<Action>) {
    NoStraddle(s, actions) && NoneInWindow(s, actions) && NoTwins(s, actions)
  }

  lemma OrderlyPrefix(s: State, actions: seq<Action>)
    requires actions != [] && Orderly(s, actions)
    ensures Orderly(s, actions[..|actions| - 1])
  {
    var n := |actions| - 1;
    forall i | 0 <= i < n
      ensures !Straddles(Run(s, actions[..n][..i]), actions[..n][i]) && !InWindow(Run(s, actions[..n][..i]), actions[..n][i])
           && !Twins(Run(s, actions[..n][..i]), actions[..n][i])
    {
      assert actions[..n][..i] == actions[..i];
    }
  }

  lemma {:induction false} OrderlyRunKeepsInv(s: State, actions: seq<Action>)
    requires Init(s) && Orderly(s, actions)
    ensures Inv(Run(s, actions))
  {
    if actions == [] {
      InitInv(s);
    } else {
      var n := |actions| - 1;
      var before, a := Run(s, actions[..n]), actions[n];
      OrderlyPrefix(s, actions);
      OrderlyRunKeepsInv(s, actions[..n]);
      assert !InWindow(before, a) && !Twins(before, a);
      if a.LookForGrant? {
        SlotsSerialise(s, actions[..n]);
        SafeIffOutsideWindow(before, a.run);
      } else if a.Sub? {
        RunFromRows(s, actions[..n]);
        NoTwinIsSafe(before, a);
      }
      StepKeepsInv(before, a);
    }
  }

  /**
   * No period is granted twice, by jobs and creators together, whatever runs and
   * expiries overlap, fail after the grant, crash or recover a failed slot, as long
   * as no run straddles a period boundary, none looks inside a creation window and
   * no two subscriptions are created at one instant.
   */
  lemma {:induction false} OneGrantPerPeriod(s: State, actions: seq<Action>)
    requires Init(s) && Orderly(s, actions)
    ensures !GrantedTwice(Run(s, actions))
  {
    OrderlyRunKeepsInv(s, actions);
  }

  /** An expiry finds a trial that another one is still pursuing. */
  ghost predicate Doubles(s: State, a: Action) {
    a.Sub? && T.Doubles(s.subs, a.step)
  }

  ghost predicate NoDoubles(s: State, actions: seq<Action>) {
    forall i :: 0 <= i < |actions| ==> !Doubles(Run(s, actions[..i]), actions[i])
  }

  lemma SubsStep(s: State, a: Action)
    requires T.Inv(s.subs) && T.Chain(s.subs) && !Doubles(s, a)
    ensures T.Inv(Next(s, a).subs) && T.Chain(Next(s, a).subs)
  {
    if a.Sub? {
      T.StepKeepsInv(s.subs, a.step);
      T.StepKeepsChain(s.subs, a.step);
    }
  }

  lemma {:induction false} SubsStay(s: State, actions: seq<Action>)
    requires Init(s) && NoDoubles(s, actions)
    ensures T.Inv(Run(s, actions).subs) && T.Chain(Run(s, actions).subs)
  {
    if actions == [] {
      T.InitInv(s.subs);
    } else {
      var n := |actions| - 1;
      var before := Run(s, actions[..n]);
      forall i | 0 <= i < n ensures !Doubles(Run(s, actions[..n][..i]), actions[..n][i]) {
        assert actions[..n][..i] == actions[..i];
      }
      SubsStay(s, actions[..n]);
      SubsStep(before, actions[n]);
    }
  }

  /** Two subscriptions start at one instant only after two expiries pursued one trial. */
  lemma {:induction false} TwinsNeedDoubles(s: State, actions: seq<Action>)
    requires Init(s) && NoDoubles(s, actions)
    ensures NoTwins(s, actions)
  {
    forall i | 0 <= i < |actions| ensures !Twins(Run(s, actions[..i]), actions[i]) {
      forall k | 0 <= k < i ensures !Doubles(Run(s, actions[..i][..k]), actions[..i][k]) {
        assert actions[..i][..k] == actions[..k];
      }
      SubsStay(s, actions[..i]);
      var before := Run(s, actions[..i]);
      if Intends(before, actions[i]) && actions[i].Sub? && actions[i].step.CreateFree? {
        T.SuccessorIsLater(before.subs, actions[i].step.creator);
      }
    }
  }

  // ---------------------------------------------------------------- one subscription for the whole run

  /** No expiry begins. */
  predicate NoExpiry(actions: seq<Action>) {
    forall i :: 0 <= i < |actions| ==> !(actions[i].Sub? && actions[i].step.ReadTrial?)
  }

  predicate LocalPeriod(l: Local, current: Option<int>) {
    && (l.Idle? || (current.Some? && l.period == current.value))
    && (l.Due? || l.Granting? ==> Some(l.start) == current)
  }

  predicate CreatorPeriod(l: T.Creator, current: Option<int>) {
    l.Absent? || (l.Owing? && Some(l.start) == current)
  }

  ghost predicate OnePeriod(s: State) {
    && |s.subs.rows| <= 1 && (s.subs.rows != [] ==> !s.subs.rows[0].expired)
    && (forall r :: LocalPeriod(RunOf(s, r), Current(s)))
    && (forall c :: CreatorPeriod(T.CreatorOf(s.subs, c), Current(s)))
    && (forall i :: 0 <= i < |s.grants| ==> Some(s.grants[i].periodStart) == Current(s))
  }

  lemma CurrentStays(s: State, a: Action)
    requires OnePeriod(s) && !(a.Sub? && a.step.ReadTrial?)
    ensures s.subs.rows != [] ==> Next(s, a).subs.rows == s.subs.rows
    ensures |Next(s, a).subs.rows| <= 1 && (Next(s, a).subs.rows != [] ==> !Next(s, a).subs.rows[0].expired)
  {
    if a.Sub? && (a.step.ExpireRow? || a.step.CreateFree?) { assert CreatorPeriod(T.CreatorOf(s.subs, a.step.creator), Current(s)); }
  }

  lemma OnePeriodKept(s: State, a: Action)
    requires OnePeriod(s) && !(a.Sub? && a.step.ReadTrial?)
    ensures OnePeriod(Next(s, a))
  {
    var t := Next(s, a);
    CurrentStays(s, a);
    forall r ensures LocalPeriod(RunOf(t, r), Current(t)) {
      assert LocalPeriod(RunOf(s, r), Current(s));
    }
    forall c ensures CreatorPeriod(T.CreatorOf(t.subs, c), Current(t)) {
      assert CreatorPeriod(T.CreatorOf(s.subs, c), Current(s));
    }
    if a.WriteGrant? { assert LocalPeriod(RunOf(s, a.run), Current(s)); }
    if a.Sub? && a.step.GrantInitial? { assert CreatorPeriod(T.CreatorOf(s.subs, a.step.creator), Current(s)); }
  }

  lemma {:induction false} PeriodStays(s: State, actions: seq<Action>)
    requires Init(s) && NoExpiry(actions)
    ensures OnePeriod(Run(s, actions))
  {
    if actions != [] {
      PeriodStays(s, actions[..|actions| - 1]);
      OnePeriodKept(Run(s, actions[..|actions| - 1]), actions[|actions| - 1]);
    }
  }

  lemma {:induction false} FixedPeriodIsOrderly(s: State, actions: seq<Action>)
    requires Init(s) && NoExpiry(actions)
    ensures NoStraddle(s, actions) && NoTwins(s, actions)
  {
    forall i | 0 <= i < |actions| ensures !Straddles(Run(s, actions[..i]), actions[i]) && !Twins(Run(s, actions[..i]), actions[i]) {
      var before := Run(s, actions[..i]);
      PeriodStays(s, actions[..i]);
      if actions[i].ReadPeriod? { assert LocalPeriod(RunOf(before, actions[i].run), Current(before)); }
      if actions[i].Sub? && actions[i].step.CreateFree? { assert CreatorPeriod(T.CreatorOf(before.subs, actions[i].step.creator), Current(before)); }
    }
  }

  /** While the first subscription lasts there is at most one plan grant at all, unless a job looks before the initial one. */
  lemma {:induction false} AtMostOneGrant(s: State, actions: seq<Action>)
    requires Init(s) && NoneInWindow(s, actions) && NoExpiry(actions)
    ensures |Run(s, actions).grants| <= 1
  {
    FixedPeriodIsOrderly(s, actions);
    OneGrantPerPeriod(s, actions);
    PeriodStays(s, actions);
    if |Run(s, actions).grants| > 1 { TwoInOnePeriod(Run(s, actions)); }
  }

  lemma TwoInOnePeriod(s: State)
    requires OnePeriod(s) && |s.grants| > 1
    ensures GrantedTwice(s)
  {
    assert s.grants[0].periodStart == s.grants[1].periodStart;
  }

  predicate NotGranting(l: Local, current: Option<int>) {
    LocalPeriod(l, current) && !l.Granting?
  }

  /** No creator is at work on the one subscription there is, and no run is about to grant. */
  ghost predicate Settled(s: State) {
    && |s.subs.rows| == 1 && !s.subs.rows[0].expired && GrantedSince(s.grants, s.subs.rows[0].start)
    && (forall c :: T.CreatorOf(s.subs, c).Absent?) && (forall r :: NotGranting(RunOf(s, r), Current(s)))
  }

  /** Once the period's allowance is there, such as the initial one, no run of that period adds another. */
  lemma {:induction false} NoGrantAfterAllowance(s: State, actions: seq<Action>)
    requires Settled(s) && NoExpiry(actions)
    ensures Settled(Run(s, actions)) && Run(s, actions).grants == s.grants
  {
    if actions != [] {
      var before, a := Run(s, actions[..|actions| - 1]), actions[|actions| - 1];
      NoGrantAfterAllowance(s, actions[..|actions| - 1]);
      SettledStays(before, a);
    }
  }

  lemma SettledStays(s: State, a: Action)
    requires Settled(s) && !(a.Sub? && a.step.ReadTrial?)
    ensures Settled(Next(s, a)) && Next(s, a).grants == s.grants
  {
    var t := Next(s, a);
    if a.Sub? && !a.step.Advance? { assert T.CreatorOf(s.subs, a.step.creator).Absent?; }
    assert t.subs.rows == s.subs.rows;
    if a.WriteGrant? { assert NotGranting(RunOf(s, a.run), Current(s)); }
    forall c ensures T.CreatorOf(t.subs, c).Absent? { assert T.CreatorOf(s.subs, c).Absent?; }
    forall r ensures NotGranting(RunOf(t, r), Current(t)) {
      assert NotGranting(RunOf(s, r), Current(s));
    }
  }

  // ---------------------------------------------------------------- where it ends

  lemma {:induction false} RunConcat(s: State, first: seq<Action>, second: seq<Action>)
    ensures Run(s, first + second) == Run(Run(s, first), second)
    decreases |second|
  {
    if second == [] {
      assert first + second == first;
    } else {
      var all := first + second;
      assert all[..|all| - 1] == first + second[..|second| - 1];
      RunConcat(s, first, second[..|second| - 1]);
    }
  }

  lemma RunThree(s: State, a: Action, b: Action, c: Action)
    ensures Run(s, [a, b, c]) == Next(Next(Next(s, a), b), c)
  {
    assert [a, b, c][..2] == [a, b];
    RunTwo(s, a, b);
  }

  function ClaimNew(): seq<Action> {
    [Sub(T.Open("new")), ReadKey("a"), CreateSlot("a")]
  }

  function GrantNow(r: string): seq<Action> {
    [ReadPeriod(r), LookForGrant(r), WriteGrant(r)]
  }

  lemma NewestOfOne(row: T.Row)
    requires !row.expired
    ensures T.Newest([row]) == Some(0)
  {
  }

  /** The batch job finds the new subscription before its creator grants the initial allowance, which comes all the same. */
  lemma WindowGrantsTwice(s: State)
    requires Init(s)
    ensures Run(s, ClaimNew() + (GrantNow("a") + [FinishOk("a"), Sub(T.GrantInitial("new"))])).grants
         == [PlanGrant(s.subs.clock, s.subs.clock), PlanGrant(s.subs.clock, s.subs.clock)]
  {
    var c, s1 := s.subs.clock, Run(s, ClaimNew());
    NewestOfOne(T.Row(c, false, None));
    RunThree(s, Sub(T.Open("new")), ReadKey("a"), CreateSlot("a"));
    assert s1 == State(T.State(c, [T.Row(c, false, None)], map["new" := T.Owing(c)]), map[c := RUNNING], [], map["a" := Claimed(c)]);
    RunConcat(s, ClaimNew(), GrantNow("a") + [FinishOk("a"), Sub(T.GrantInitial("new"))]);
    JobGrantsFirst(s1, c);
  }

  lemma {:induction false} JobGrants(s: State, c: int)
    requires s == State(T.State(c, [T.Row(c, false, None)], map["new" := T.Owing(c)]), map[c := RUNNING], [], map["a" := Claimed(c)])
    ensures var t := Run(s, GrantNow("a"));
            RunOf(t, "a") == Done(c) && t.grants == [PlanGrant(c, c)] && t.subs == s.subs
  {
    NewestOfOne(T.Row(c, false, None));
    RunThree(s, ReadPeriod("a"), LookForGrant("a"), WriteGrant("a"));
  }

  lemma {:induction false} JobGrantsFirst(s: State, c: int)
    requires s == State(T.State(c, [T.Row(c, false, None)], map["new" := T.Owing(c)]), map[c := RUNNING], [], map["a" := Claimed(c)])
    ensures Run(s, GrantNow("a") + [FinishOk("a"), Sub(T.GrantInitial("new"))]).grants == [PlanGrant(c, c), PlanGrant(c, c)]
  {
    JobGrants(s, c);
    var t := Run(s, GrantNow("a"));
    RunConcat(s, GrantNow("a"), [FinishOk("a"), Sub(T.GrantInitial("new"))]);
    RunTwo(t, FinishOk("a"), Sub(T.GrantInitial("new")));
  }

  /** The first subscription is created and granted, and turns 14 days old. */
  function FirstPeriod(): seq<Action> {
    [Sub(T.Open("new")), Sub(T.GrantInitial("new")), Sub(T.Advance(T.TRIAL_MS))]
  }

  lemma {:induction false} FirstPeriodEnds(s: State)
    requires Init(s)
    ensures var c := s.subs.clock; var t := Run(s, FirstPeriod());
            && t.subs.clock == c + T.TRIAL_MS && t.subs.rows == [T.Row(c, false, None)] && t.subs.creators == map["new" := T.Absent]
            && t.slots == map[] && t.grants == [PlanGrant(c, c)] && t.runs == map[]
  {
    RunThree(s, Sub(T.Open("new")), Sub(T.GrantInitial("new")), Sub(T.Advance(T.TRIAL_MS)));
  }

  function KeyThenFind(): seq<Action> {
    [ReadKey("a"), CreateSlot("a"), Sub(T.ReadTrial("x"))]
  }

  function Succeed(): seq<Action> {
    [Sub(T.ExpireRow("x")), Sub(T.CreateFree("x")), Sub(T.Crash("x"))]
  }

  function ReadAndKey(): seq<Action> {
    [ReadPeriod("a"), LookForGrant("a"), ReadKey("b")]
  }

  function SecondRun(): seq<Action> {
    [CreateSlot("b"), ReadPeriod("b"), LookForGrant("b")]
  }

  function Straddling(): seq<Action> {
    FirstPeriod() + (KeyThenFind() + (Succeed() + (ReadAndKey() + (SecondRun() + [WriteGrant("a"), WriteGrant("b")]))))
  }

  /** A run has keyed the old period when the trial expires and its successor's creator dies before the grant. */
  lemma {:induction false} ExpiresUnderway(s: State, c: int)
    requires s.subs.clock == c + T.TRIAL_MS && s.subs.rows == [T.Row(c, false, None)] && s.subs.creators == map["new" := T.Absent]
    requires s.slots == map[] && s.grants == [PlanGrant(c, c)] && s.runs == map[]
    ensures var t := Run(Run(s, KeyThenFind()), Succeed());
            && t.subs.clock == c + T.TRIAL_MS && t.subs.rows == [T.Row(c, true, None), T.Row(c + T.TRIAL_MS, false, Some(0))]
            && t.slots == map[c := RUNNING] && t.grants == [PlanGrant(c, c)] && t.runs == map["a" := Claimed(c)]
  {
    NewestOfOne(T.Row(c, false, None));
    RunThree(s, ReadKey("a"), CreateSlot("a"), Sub(T.ReadTrial("x")));
    var t := Run(s, KeyThenFind());
    assert T.CreatorOf(t.subs, "x") == T.Found(0) && t.subs.rows == s.subs.rows && t.subs.clock == s.subs.clock;
    RunThree(t, Sub(T.ExpireRow("x")), Sub(T.CreateFree("x")), Sub(T.Crash("x")));
  }

  /** The two runs of the new period, under different slots. */
  predicate BothAbout(s: State, c: int) {
    && s.subs.clock == c + T.TRIAL_MS && s.grants == [PlanGrant(c, c)]
    && RunOf(s, "a") == Granting(c, c + T.TRIAL_MS) && RunOf(s, "b") == Granting(c + T.TRIAL_MS, c + T.TRIAL_MS)
  }

  lemma {:induction false} FirstReads(s: State, c: int)
    requires s.subs.clock == c + T.TRIAL_MS && s.subs.rows == [T.Row(c, true, None), T.Row(c + T.TRIAL_MS, false, Some(0))]
    requires s.slots == map[c := RUNNING] && s.grants == [PlanGrant(c, c)] && s.runs == map["a" := Claimed(c)]
    ensures Run(s, ReadAndKey()) == s.(runs := map["a" := Granting(c, c + T.TRIAL_MS), "b" := Keyed(c + T.TRIAL_MS)])
  {
    RunThree(s, ReadPeriod("a"), LookForGrant("a"), ReadKey("b"));
  }

  lemma {:induction false} SecondReads(s: State, c: int)
    requires s.subs.clock == c + T.TRIAL_MS && s.subs.rows == [T.Row(c, true, None), T.Row(c + T.TRIAL_MS, false, Some(0))]
    requires s.slots == map[c := RUNNING] && s.grants == [PlanGrant(c, c)]
    requires s.runs == map["a" := Granting(c, c + T.TRIAL_MS), "b" := Keyed(c + T.TRIAL_MS)]
    ensures BothAbout(Run(s, SecondRun()), c)
  {
    RunThree(s, CreateSlot("b"), ReadPeriod("b"), LookForGrant("b"));
  }

  lemma {:induction false} BothWrite(s: State, c: int)
    requires BothAbout(s, c)
    ensures var p := c + T.TRIAL_MS; Run(s, [WriteGrant("a"), WriteGrant("b")]).grants == [PlanGrant(c, c), PlanGrant(p, p), PlanGrant(p, p)]
  {
    RunTwo(s, WriteGrant("a"), WriteGrant("b"));
  }

  lemma {:induction false} BothGrant(s: State, c: int)
    requires s.subs.clock == c + T.TRIAL_MS && s.subs.rows == [T.Row(c, true, None), T.Row(c + T.TRIAL_MS, false, Some(0))]
    requires s.slots == map[c := RUNNING] && s.grants == [PlanGrant(c, c)] && s.runs == map["a" := Claimed(c)]
    ensures var p := c + T.TRIAL_MS;
            Run(s, ReadAndKey() + (SecondRun() + [WriteGrant("a"), WriteGrant("b")])).grants == [PlanGrant(c, c), PlanGrant(p, p), PlanGrant(p, p)]
  {
    var t := Run(s, ReadAndKey());
    RunConcat(s, ReadAndKey(), SecondRun() + [WriteGrant("a"), WriteGrant("b")]);
    RunConcat(t, SecondRun(), [WriteGrant("a"), WriteGrant("b")]);
    FirstReads(s, c);
    SecondReads(t, c);
    BothWrite(Run(t, SecondRun()), c);
  }

  /**
   * The trial expires between the two reads of a run, and the creator of the next
   * subscription dies before its grant: the run and a later one hold different
   * slots, and both grant the new period.
   */
  lemma StraddlingGrantsTwice(s: State)
    requires Init(s)
    ensures GrantedTwice(Run(s, Straddling()))
  {
    var rest := ReadAndKey() + (SecondRun() + [WriteGrant("a"), WriteGrant("b")]);
    var s1 := Run(s, FirstPeriod());
    var s2 := Run(s1, KeyThenFind());
    RunConcat(s, FirstPeriod(), KeyThenFind() + (Succeed() + rest));
    RunConcat(s1, KeyThenFind(), Succeed() + rest);
    RunConcat(s2, Succeed(), rest);
    FirstPeriodEnds(s);
    ExpiresUnderway(s1, s.subs.clock);
    BothGrant(Run(s2, Succeed()), s.subs.clock);
    var grants := Run(s, Straddling()).grants;
    assert grants[1].periodStart == grants[2].periodStart;
  }

  function BothFind(): seq<Action> {
    [Sub(T.ReadTrial("x")), Sub(T.ReadTrial("y")), Sub(T.ExpireRow("x"))]
  }

  function BothCreate(): seq<Action> {
    [Sub(T.ExpireRow("y")), Sub(T.CreateFree("x")), Sub(T.CreateFree("y"))]
  }

  function TwoExpiries(): seq<Action> {
    FirstPeriod() + (BothFind() + (BothCreate() + [Sub(T.GrantInitial("x")), Sub(T.GrantInitial("y"))]))
  }

  /** Two expiries of one trial, both past their read: two free subscriptions, and two allowances at one instant. */
  lemma TwoExpiriesGrantTwice(s: State)
    requires Init(s)
    ensures var t := Run(s, TwoExpiries()); GrantedTwice(t) && T.SucceededTwice(t.subs)
  {
    var s1 := Run(s, FirstPeriod());
    RunConcat(s, FirstPeriod(), BothFind() + (BothCreate() + [Sub(T.GrantInitial("x")), Sub(T.GrantInitial("y"))]));
    FirstPeriodEnds(s);
    BothExpire(s1, s.subs.clock);
  }

  lemma {:induction false} BothPursue(s: State, c: int)
    requires s.subs.clock == c + T.TRIAL_MS && s.subs.rows == [T.Row(c, false, None)] && s.subs.creators == map["new" := T.Absent]
    ensures var t := Run(s, BothFind());
            && t.grants == s.grants && t.subs.clock == s.subs.clock && t.subs.rows == [T.Row(c, true, None)]
            && T.CreatorOf(t.subs, "x") == T.Creating(0) && T.CreatorOf(t.subs, "y") == T.Found(0)
  {
    NewestOfOne(T.Row(c, false, None));
    RunThree(s, Sub(T.ReadTrial("x")), Sub(T.ReadTrial("y")), Sub(T.ExpireRow("x")));
  }

  lemma {:induction false} BothFollow(s: State, c: int)
    requires s.subs.rows == [T.Row(c, true, None)] && T.CreatorOf(s.subs, "x") == T.Creating(0) && T.CreatorOf(s.subs, "y") == T.Found(0)
    ensures var t, p := Run(s, BothCreate()), s.subs.clock;
            && t.grants == s.grants && t.subs.rows == [T.Row(c, true, None), T.Row(p, false, Some(0)), T.Row(p, false, Some(0))]
            && T.CreatorOf(t.subs, "x") == T.CreatorOf(t.subs, "y") == T.Owing(p)
  {
    RunThree(s, Sub(T.ExpireRow("y")), Sub(T.CreateFree("x")), Sub(T.CreateFree("y")));
  }

  lemma {:induction false} BothAllow(s: State, p: int)
    requires T.CreatorOf(s.subs, "x") == T.CreatorOf(s.subs, "y") == T.Owing(p)
    ensures var t := Run(s, [Sub(T.GrantInitial("x")), Sub(T.GrantInitial("y"))]); GrantedTwice(t) && t.subs.rows == s.subs.rows
  {
    RunTwo(s, Sub(T.GrantInitial("x")), Sub(T.GrantInitial("y")));
    var t, n := Run(s, [Sub(T.GrantInitial("x")), Sub(T.GrantInitial("y"))]), |s.grants|;
    assert t.grants[n].periodStart == t.grants[n + 1].periodStart == p;
  }

  lemma {:induction false} BothExpire(s: State, c: int)
    requires s.subs.clock == c + T.TRIAL_MS && s.subs.rows == [T.Row(c, false, None)] && s.subs.creators == map["new" := T.Absent]
    ensures var t := Run(s, BothFind() + (BothCreate() + [Sub(T.GrantInitial("x")), Sub(T.GrantInitial("y"))]));
            GrantedTwice(t) && T.SucceededTwice(t.subs)
  {
    var last, t := [Sub(T.GrantInitial("x")), Sub(T.GrantInitial("y"))], Run(s, BothFind());
    RunConcat(s, BothFind(), BothCreate() + last);
    RunConcat(t, BothCreate(), last);
    BothPursue(s, c);
    BothFollow(t, c);
    BothAllow(Run(t, BothCreate()), c + T.TRIAL_MS);
    var end := Run(Run(t, BothCreate()), last);
    assert end.subs.rows[1].after == end.subs.rows[2].after == Some(0);
  }

  // ---------------------------------------------------------------- the job runner, one call at a time

  /** Where a call throws, if it does. */
  datatype Fault = NoFault | BeforeGrant | AfterGrant

  datatype JobResult = Ran(granted: bool) | NotRun | Threw

  datatype Workspace = Workspace(id: string, periodStart: int)

  datatype BatchSummary = BatchSummary(workspacesProcessed: nat, grantsIssued: nat, alreadyDone: nat, failed: nat)

  /** The slots by (workspace, period start), and the PLAN_GRANT times of each workspace. */
  datatype Books = Books(slots: map<(string, int), SlotStatus>, grants: map<string, seq<int>>)

  predicate TimedSince(times: seq<int>, start: int) {
    exists i :: 0 <= i < |times| && times[i] >= start
  }

  function GrantsOf(books: Books, id: string): seq<int> {
    if id in books.grants then books.grants[id] else []
  }

  predicate HasGrant(books: Books, w: Workspace) {
    TimedSince(GrantsOf(books, w.id), w.periodStart)
  }

  /** Free to take: never claimed, or failed before. */
  predicate SlotFree(books: Books, w: Workspace) {
    (w.id, w.periodStart) !in books.slots || books.slots[(w.id, w.periodStart)] == FAILED
  }

  function WithSlot(books: Books, w: Workspace, status: SlotStatus): Books {
    books.(slots := books.slots[(w.id, w.periodStart) := status])
  }

  function WithGrant(books: Books, w: Workspace, now: int): Books {
    if HasGrant(books, w) then books else books.(grants := books.grants[w.id := GrantsOf(books, w.id) + [now]])
  }

  /** One call of the job: the books it leaves and what it reports. */
  function JobStep(books: Books, w: Workspace, now: int, fault: Fault): (Books, JobResult) {
    if !SlotFree(books, w) then (books, NotRun)
    else
      var granted := if fault == BeforeGrant then books else WithGrant(books, w, now);
      if fault == NoFault then (WithSlot(granted, w, SUCCEEDED), Ran(!HasGrant(books, w)))
      else (WithSlot(granted, w, FAILED), Threw)
  }

  predicate SlotTaken(books: Books, w: Workspace) {
    (w.id, w.periodStart) in books.slots && (books.slots[(w.id, w.periodStart)] == RUNNING || books.slots[(w.id, w.periodStart)] == SUCCEEDED)
  }

  /**
   * A taken slot keeps the job from running and nothing changes. Otherwise the slot
   * ends up SUCCEEDED, or FAILED when the call throws, and the grant is written
   * exactly when none exists since the period start and the call gets that far.
   */
  ghost predicate RunsJob(before: Books, w: Workspace, now: int, fault: Fault, after: Books, result: JobResult) {
    var granted := exists i :: 0 <= i < |GrantsOf(before, w.id)| && GrantsOf(before, w.id)[i] >= w.periodStart;
    && (result == NotRun <==> SlotTaken(before, w)) && (result == NotRun ==> after == before)
    && (result == Threw <==> !SlotTaken(before, w) && fault != NoFault)
    && (result.Ran? ==> (result.granted <==> !granted))
    && (result != NotRun ==>
          && after.slots == before.slots[(w.id, w.periodStart) := if result == Threw then FAILED else SUCCEEDED]
          && after.grants == if granted || fault == BeforeGrant then before.grants
                             else before.grants[w.id := GrantsOf(before, w.id) + [now]])
  }

  lemma JobStepRuns(books: Books, w: Workspace, now: int, fault: Fault)
    ensures RunsJob(books, w, now, fault, JobStep(books, w, now, fault).0, JobStep(books, w, now, fault).1)
  {
  }

  function BatchSteps(books: Books, due: seq<Workspace>, now: int, faults: seq<Fault>): (r: (Books, seq<JobResult>))
    requires |faults| == |due|
    ensures |r.1| == |due|
  {
    if due == [] then (books, [])
    else
      var n := |due| - 1;
      var before := BatchSteps(books, due[..n], now, faults[..n]);
      var last := JobStep(before.0, due[n], now, faults[n]);
      (last.0, before.1 + [last.1])
  }

  /** Settling a slot overwrites the RUNNING mark the claim left. */
  lemma SettledSlot(slots: map<(string, int), SlotStatus>, w: Workspace, status: SlotStatus)
    ensures slots[(w.id, w.periodStart) := RUNNING][(w.id, w.periodStart) := status] == slots[(w.id, w.periodStart) := status]
  {
  }

  function Count(results: seq<JobResult>, wanted: JobResult): nat {
    if results == [] then 0 else Count(results[..|results| - 1], wanted) + if results[|results| - 1] == wanted then 1 else 0
  }

  lemma CountNext(results: seq<JobResult>, result: JobResult, wanted: JobResult)
    ensures Count(results + [result], wanted) == Count(results, wanted) + if result == wanted then 1 else 0
  {
    assert (results + [result])[..|results|] == results;
  }

  lemma BatchNext(books: Books, due: seq<Workspace>, now: int, faults: seq<Fault>, i: nat)
    requires |faults| == |due| && i < |due|
    ensures var before := BatchSteps(books, due[..i], now, faults[..i]); var last := JobStep(before.0, due[i], now, faults[i]);
            BatchSteps(books, due[..i + 1], now, faults[..i + 1]) == (last.0, before.1 + [last.1])
  {
    assert due[..i + 1][..i] == due[..i] && faults[..i + 1][..i] == faults[..i];
  }

  /** The counters after the results so far. */
  function Summary(results: seq<JobResult>): BatchSummary {
    BatchSummary(|results|, Count(results, Ran(true)), Count(results, NotRun), Count(results, Threw))
  }

  class JobRunner {
    var books: Books

    constructor ()
      ensures books == Books(map[], map[])
    {
      books := Books(map[], map[]);
    }

    method ClaimJobSlot(w: Workspace) returns (claimed: bool)
      modifies this
      ensures claimed <==> SlotFree(old(books), w)
      ensures books == if claimed then WithSlot(old(books), w, RUNNING) else old(books)
    {
      var key := (w.id, w.periodStart);
      if key in books.slots && (books.slots[key] == SUCCEEDED || books.slots[key] == RUNNING) {
        return false;
      }
      books := books.(slots := books.slots[key := RUNNING]);
      claimed := true;
    }

    method GrantMonthlyCreditsIfDue(w: Workspace, now: int) returns (granted: bool)
      modifies this
      ensures granted <==> !HasGrant(old(books), w)
      ensures books == WithGrant(old(books), w, now)
    {
      if HasGrant(books, w) { return false; }
      books := books.(grants := books.grants[w.id := GrantsOf(books, w.id) + [now]]);
      granted := true;
    }

    method RunJob(w: Workspace, now: int, fault: Fault) returns (result: JobResult)
      modifies this
      ensures RunsJob(old(books), w, now, fault, books, result)
      ensures (books, result) == JobStep(old(books), w, now, fault)
    {
      JobStepRuns(books, w, now, fault);
      var claimed := ClaimJobSlot(w);
      if !claimed { return NotRun; }
      SettledSlot(old(books).slots, w, if fault == NoFault then SUCCEEDED else FAILED);
      if fault == BeforeGrant {
        books := WithSlot(books, w, FAILED);
        return Threw;
      }
      var granted := GrantMonthlyCreditsIfDue(w, now);
      books := WithSlot(books, w, if fault == NoFault then SUCCEEDED else FAILED);
      result := if fault == NoFault then Ran(granted) else Threw;
    }

    /** One workspace after the other; a failure is counted and the loop goes on. */
    method RunForAllDueWorkspaces(due: seq<Workspace>, now: int, faults: seq<Fault>) returns (summary: BatchSummary)
      requires |faults| == |due|
      modifies this
      ensures books == BatchSteps(old(books), due, now, faults).0
      ensures summary == Summary(BatchSteps(old(books), due, now, faults).1) && summary.workspacesProcessed == |due|
    {
      summary := BatchSummary(0, 0, 0, 0);
      ghost var results: seq<JobResult> := [];
      for i := 0 to |due|
        invariant (books, results) == BatchSteps(old(books), due[..i], now, faults[..i])
        invariant summary == Summary(results) && |results| == i
      {
        BatchNext(old(books), due, now, faults, i);
        var result := RunJob(due[i], now, faults[i]);
        summary := summary.(workspacesProcessed := summary.workspacesProcessed + 1);
        match result {
          case Ran(granted) => if granted { summary := summary.(grantsIssued := summary.grantsIssued + 1); }
          case NotRun => summary := summary.(alreadyDone := summary.alreadyDone + 1);
          case Threw => summary := summary.(failed := summary.failed + 1);
        }
        CountNext(results, result, Ran(true));
        CountNext(results, result, NotRun);
        CountNext(results, result, Threw);
        results := results + [result];
      }
      assert due[..|due|] == due && faults[..|due|] == faults;
    }
  }

  lemma AppendedSince(times: seq<int>, now: int, start: int)
    ensures TimedSince(times + [now], start) <==> TimedSince(times, start) || now >= start
  {
    var after := times + [now];
    assert after[|times|] == now;
    assert forall i :: 0 <= i < |times| ==> after[i] == times[i];
  }

  /** A job that ran has its grant, and any call adds at most one, to its own workspace only. */
  lemma JobStepGrants(books: Books, w: Workspace, now: int, fault: Fault)
    requires w.periodStart <= now
    ensures var r := JobStep(books, w, now, fault);
            && (r.1.Ran? ==> HasGrant(r.0, w))
            && |GrantsOf(books, w.id)| <= |GrantsOf(r.0, w.id)| <= |GrantsOf(books, w.id)| + 1
            && (HasGrant(books, w) ==> GrantsOf(r.0, w.id) == GrantsOf(books, w.id))
            && (forall id :: id != w.id ==> GrantsOf(r.0, id) == GrantsOf(books, id))
  {
    AppendedSince(GrantsOf(books, w.id), now, w.periodStart);
  }

  /** Whatever faults earlier calls hit, a call that throws or repeats never leads to a second grant of the period. */
  lemma {:induction false} RepeatedCallsGrantOnce(books: Books, w: Workspace, now: int, faults: seq<Fault>)
    requires w.periodStart <= now
    ensures var after := BatchSteps(books, seq(|faults|, _ => w), now, faults).0;
            && |GrantsOf(after, w.id)| <= |GrantsOf(books, w.id)| + 1
            && (HasGrant(books, w) ==> GrantsOf(after, w.id) == GrantsOf(books, w.id))
            && (|GrantsOf(after, w.id)| > |GrantsOf(books, w.id)| ==> HasGrant(after, w))
  {
    var n := |faults| - 1;
    if faults != [] {
      var due := seq(|faults|, _ => w);
      var before := BatchSteps(books, due[..n], now, faults[..n]).0;
      assert due[..n] == seq(n, _ => w);
      RepeatedCallsGrantOnce(books, w, now, faults[..n]);
      JobStepGrants(before, w, now, faults[n]);
      AppendedSince(GrantsOf(before, w.id), now, w.periodStart);
    }
  }

  predicate SameFor(a: Books, b: Books, w: Workspace) {
    GrantsOf(a, w.id) == GrantsOf(b, w.id) && (SlotFree(a, w) <==> SlotFree(b, w))
  }

  lemma {:induction false} OthersUntouched(books: Books, due: seq<Workspace>, now: int, faults: seq<Fault>, w: Workspace)
    requires |faults| == |due| && forall i :: 0 <= i < |due| ==> due[i].id != w.id
    ensures SameFor(BatchSteps(books, due, now, faults).0, books, w)
  {
    if due != [] {
      OthersUntouched(books, due[..|due| - 1], now, faults[..|due| - 1], w);
    }
  }

  /** Each workspace's job is independent: its result in the batch is the one it would have had alone. */
  lemma {:induction false} BatchIsIndependent(books: Books, due: seq<Workspace>, now: int, faults: seq<Fault>, k: nat)
    requires |faults| == |due| && k < |due| && forall i, j :: 0 <= i < j < |due| ==> due[i].id != due[j].id
    ensures BatchSteps(books, due, now, faults).1[k] == JobStep(books, due[k], now, faults[k]).1
  {
    var n := |due| - 1;
    if k == n {
      OthersUntouched(books, due[..n], now, faults[..n], due[n]);
    } else {
      BatchIsIndependent(books, due[..n], now, faults[..n], k);
    }
  }
}
