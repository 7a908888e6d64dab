/**
 * The subscription rows of one workspace and the processes that create them: the
 * workspace's own creation, and any number of calls that expire an overdue trial,
 * each in four steps: find the row, mark it expired, create the free successor,
 * grant its allowance.
 */
module TrialExpiry {
  import opened Common

  const TRIAL_MS := 14 * 86_400_000

  /** A row in creation order. `after` is auxiliary: the row whose expiry it followed. */
  datatype Row = Row(start: int, expired: bool, after: Option<nat>)

  /** Where a creator is between two statements. */
  datatype Creator = Absent | Found(row: nat) | Creating(row: nat) | Owing(start: int)

  datatype State = State(clock: int, rows: seq<Row>, creators: map<string, Creator>)

  datatype Action =
    | Advance(ms: nat)
    | Open(creator: string)
    | ReadTrial(creator: string)
    | ExpireRow(creator: string)
    | CreateFree(creator: string)
    | GrantInitial(creator: string)
    | Crash(creator: string)

  function CreatorOf(s: State, c: string): Creator {
    if c in s.creators then s.creators[c] else Absent
  }

  function At(s: State, c: string, l: Creator): State {
    s.(creators := s.creators[c := l])
  }

  /** The newest row that has not expired. */
  function Newest(rows: seq<Row>): (i: Option<nat>)
    ensures i.Some? ==> i.value < |rows| && !rows[i.value].expired
    ensures i.None? ==> forall j :: 0 <= j < |rows| ==> rows[j].expired
  {
    if rows == [] then None
    else if !rows[|rows| - 1].expired then Some(|rows| - 1)
    else Newest(rows[..|rows| - 1])
  }

  /** A trial starts no earlier than its row and lasts 14 days. */
  predicate MayBeOverdue(s: State) {
    Newest(s.rows).Some? && s.rows[Newest(s.rows).value].start + TRIAL_MS <= s.clock
  }

  function Next(s: State, a: Action): State {
    match a
    case Advance(ms) => s.(clock := s.clock + ms)
    case Open(c) =>
      if s.rows == [] && CreatorOf(s, c).Absent? then At(s, c, Owing(s.clock)).(rows := [Row(s.clock, false, None)]) else s
    case ReadTrial(c) =>
      if CreatorOf(s, c).Absent? && MayBeOverdue(s) then At(s, c, Found(Newest(s.rows).value)) else s
    case ExpireRow(c) =>
      var l := CreatorOf(s, c);
      if l.Found? && l.row < |s.rows| then At(s, c, Creating(l.row)).(rows := s.rows[l.row := s.rows[l.row].(expired := true)]) else s
    case CreateFree(c) =>
      var l := CreatorOf(s, c);
      if l.Creating? then At(s, c, Owing(s.clock)).(rows := s.rows + [Row(s.clock, false, Some(l.row))]) else s
    case GrantInitial(c) => if CreatorOf(s, c).Owing? then At(s, c, Absent) else s
    case Crash(c) => At(s, c, Absent)
  }

  function Run(s: State, actions: seq<Action>): State {
    if actions == [] then s else Next(Run(s, actions[..|actions| - 1]), actions[|actions| - 1])
  }

  ghost predicate Init(s: State) {
    s.rows == [] && s.creators == map[]
  }

  // ---------------------------------------------------------------- successors of one trial

  /** Two free subscriptions, each with an allowance of its own, followed one trial. */
  ghost predicate SucceededTwice(s: State) {
    exists j, k :: 0 <= j < k < |s.rows| && s.rows[j].after.Some? && s.rows[j].after == s.rows[k].after
  }

  /** The creator is about to create a successor of the row. */
  predicate Pursues(l: Creator, row: nat) {
    (l.Found? || l.Creating?) && l.row == row
  }

  predicate CreatorOk(s: State, c: string) {
    var l := CreatorOf(s, c);
    && (l.Found? || l.Creating? ==> l.row < |s.rows| && forall k :: 0 <= k < |s.rows| ==> s.rows[k].after != Some(l.row))
    && (l.Creating? ==> l.row < |s.rows| && s.rows[l.row].expired)
  }

  predicate Alone(s: State, c: string, d: string) {
    c != d && Pursues(CreatorOf(s, c), CreatorRow(CreatorOf(s, c))) ==> !Pursues(CreatorOf(s, d), CreatorRow(CreatorOf(s, c)))
  }

  function CreatorRow(l: Creator): nat {
    if l.Found? || l.Creating? then l.row else 0
  }

  /** A row with a successor has expired. */
  predicate RowOk(s: State, k: nat)
    requires k < |s.rows|
  {
    s.rows[k].after.Some? ==> s.rows[k].after.value < |s.rows| && s.rows[s.rows[k].after.value].expired
  }

  ghost predicate Inv(s: State) {
    && !SucceededTwice(s) && (forall k :: 0 <= k < |s.rows| ==> RowOk(s, k))
    && (forall c :: CreatorOk(s, c)) && (forall c, d :: Alone(s, c, d))
  }

  /** The read finds a row that another call has found too and is yet to succeed. */
  ghost predicate Doubles(s: State, a: Action) {
    a.ReadTrial? && CreatorOf(s, a.creator).Absent? && MayBeOverdue(s)
    && exists d :: d != a.creator && Pursues(CreatorOf(s, d), Newest(s.rows).value)
  }

  lemma CreatorKept(s: State, a: Action, c: string)
    requires Inv(s)
    ensures CreatorOk(Next(s, a), c)
  {
    assert CreatorOk(s, c);
    match a
    case ReadTrial(b) => if b == c && CreatorOf(s, c).Absent? && MayBeOverdue(s) { NobodyFollows(s, Newest(s.rows).value); }
    case CreateFree(b) => assert CreatorOk(s, b) && Alone(s, b, c);
    case _ =>
  }

  lemma NobodyFollows(s: State, i: nat)
    requires Inv(s) && i < |s.rows| && !s.rows[i].expired
    ensures forall k :: 0 <= k < |s.rows| ==> s.rows[k].after != Some(i)
  {
    forall k | 0 <= k < |s.rows| ensures s.rows[k].after != Some(i) { assert RowOk(s, k); }
  }

  lemma AloneKept(s: State, a: Action, c: string, d: string)
    requires Inv(s) && !Doubles(s, a)
    ensures Alone(Next(s, a), c, d)
  {
    assert Alone(s, c, d) && Alone(s, d, c);
  }

  lemma RowsKept(s: State, a: Action)
    requires Inv(s)
    ensures var t := Next(s, a); !SucceededTwice(t) && forall k :: 0 <= k < |t.rows| ==> RowOk(t, k)
  {
    var t := Next(s, a);
    match a
    case CreateFree(c) => assert CreatorOk(s, c); forall k | 0 <= k < |t.rows| ensures RowOk(t, k) { if k < |s.rows| { assert RowOk(s, k); } }
    case ExpireRow(c) =>
      forall k | 0 <= k < |t.rows| ensures RowOk(t, k) { assert RowOk(s, k); }
      assert forall k :: 0 <= k < |t.rows| ==> t.rows[k].after == s.rows[k].after;
    case _ => forall k | 0 <= k < |t.rows| ensures RowOk(t, k) { if k < |s.rows| { assert RowOk(s, k); } }
  }

  lemma StepKeepsInv(s: State, a: Action)
    requires Inv(s) && !Doubles(s, a)
    ensures Inv(Next(s, a))
  {
    RowsKept(s, a);
    forall c ensures CreatorOk(Next(s, a), c) { CreatorKept(s, a, c); }
    forall c, d ensures Alone(Next(s, a), c, d) { AloneKept(s, a, c, d); }
  }

  lemma InitInv(s: State)
    requires Init(s)
    ensures Inv(s)
  {
  }

  ghost predicate NoneDoubles(s: State, actions: seq<Action>) {
    forall i :: 0 <= i < |actions| ==> !Doubles(Run(s, actions[..i]), actions[i])
  }

  lemma {:induction false} RunKeepsInv(s: State, actions: seq<Action>)
    requires Inv(s) && NoneDoubles(s, actions)
    ensures Inv(Run(s, actions))
  {
    if actions != [] {
      var n := |actions| - 1;
      forall i | 0 <= i < n ensures !Doubles(Run(s, actions[..n][..i]), actions[..n][i]) {
        assert actions[..n][..i] == actions[..i];
      }
      RunKeepsInv(s, actions[..n]);
      StepKeepsInv(Run(s, actions[..n]), actions[n]);
    }
  }

  /** Over every interleaving: no trial is succeeded twice unless some call finds a row that another is still pursuing. */
  lemma {:induction false} OneSuccessor(s: State, actions: seq<Action>)
    requires Init(s) && NoneDoubles(s, actions)
    ensures !SucceededTwice(Run(s, actions))
  {
    InitInv(s);
    RunKeepsInv(s, actions);
  }

  // ---------------------------------------------------------------- successors start later

  predicate OnLast(s: State, c: string) {
    var l := CreatorOf(s, c);
    l.Found? || l.Creating? ==> l.row == |s.rows| - 1 && s.rows[l.row].start + TRIAL_MS <= s.clock
  }

  /** Only the newest row may be current, it is the youngest, and only it is pursued. */
  ghost predicate Chain(s: State) {
    && (forall k :: 0 <= k < |s.rows| - 1 ==> s.rows[k].expired && s.rows[k].start <= s.rows[|s.rows| - 1].start)
    && (forall c :: OnLast(s, c))
  }

  lemma NewestIsLast(s: State)
    requires Chain(s) && Newest(s.rows).Some?
    ensures Newest(s.rows).value == |s.rows| - 1
  {
  }

  lemma StepKeepsChain(s: State, a: Action)
    requires Inv(s) && Chain(s)
    ensures Chain(Next(s, a))
  {
    var t := Next(s, a);
    if Newest(s.rows).Some? { NewestIsLast(s); }
    if a.CreateFree? { assert CreatorOk(s, a.creator) && OnLast(s, a.creator); }
    forall c ensures OnLast(t, c) {
      assert OnLast(s, c);
      if a.CreateFree? { assert Alone(s, a.creator, c) && OnLast(s, a.creator); }
      if a.Open? { assert CreatorOk(s, c); }
    }
  }

  /** A successor is created when every row so far is at least a trial old. */
  lemma SuccessorIsLater(s: State, c: string)
    requires Chain(s) && CreatorOf(s, c).Creating?
    ensures forall k :: 0 <= k < |s.rows| ==> s.rows[k].start < s.clock
  {
    assert OnLast(s, c);
  }

  // ---------------------------------------------------------------- the exact guard

  predicate NoReads(actions: seq<Action>) {
    forall i :: 0 <= i < |actions| ==> !actions[i].ReadTrial?
  }

  lemma RunFour(s: State, a: Action, b: Action, c: Action, d: Action)
    ensures Run(s, [a, b, c, d]) == Next(Next(Next(Next(s, a), b), c), d)
  {
    assert [a, b, c, d][..3] == [a, b, c] && [a, b, c][..2] == [a, b] && [a, b][..1] == [a] && [a][..0] == [];
    assert Run(s, [a]) == Next(s, a);
    assert Run(s, [a, b]) == Next(Next(s, a), b);
    assert Run(s, [a, b, c]) == Next(Next(Next(s, a), b), c);
  }

  /** Two calls that pursue one row both get to create its successor. */
  lemma BothSucceed(s: State, c: string, d: string, row: nat)
    requires c != d && row < |s.rows| && CreatorOf(s, c) == Found(row) && Pursues(CreatorOf(s, d), row)
    ensures exists more :: NoReads(more) && SucceededTwice(Run(s, more))
  {
    var more := [ExpireRow(c), ExpireRow(d), CreateFree(c), CreateFree(d)];
    RunFour(s, ExpireRow(c), ExpireRow(d), CreateFree(c), CreateFree(d));
    var s2 := Next(Next(s, ExpireRow(c)), ExpireRow(d));
    assert |s2.rows| == |s.rows| && CreatorOf(s2, c) == Creating(row) && CreatorOf(s2, d) == Creating(row);
    var t, n := Run(s, more), |s.rows|;
    assert t.rows == s2.rows + [Row(s2.clock, false, Some(row))] + [Row(s2.clock, false, Some(row))];
    assert t.rows[n].after == t.rows[n + 1].after == Some(row);
    assert NoReads(more) && SucceededTwice(t);
  }

  /** A read that finds an overdue trial can lead to two successors of one trial, without any later read, if and only if another call is still pursuing that row. */
  lemma ReadDoublesIff(s: State, c: string)
    requires Inv(s) && CreatorOf(s, c).Absent? && MayBeOverdue(s)
    ensures (exists more :: NoReads(more) && SucceededTwice(Run(Next(s, ReadTrial(c)), more))) <==> Doubles(s, ReadTrial(c))
  {
    var t := Next(s, ReadTrial(c));
    if Doubles(s, ReadTrial(c)) {
      var d :| d != c && Pursues(CreatorOf(s, d), Newest(s.rows).value);
      BothSucceed(t, c, d, Newest(s.rows).value);
    } else {
      StepKeepsInv(s, ReadTrial(c));
      forall more | NoReads(more) ensures !SucceededTwice(Run(t, more)) {
        RunKeepsInv(t, more);
      }
    }
  }
}
