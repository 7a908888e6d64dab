/**
 * Concurrent callers of one workflow instance: creators and repeated requests,
 * approvals, rejections and retries, at the granularity of their statements. Every
 * claim has one winner, but a caller that finds the instance RUNNING enters the step
 * loop without a claim.
 */
module WorkflowEntry {
  import opened Common
  import opened WorkflowEngine

  /**
   * Where a caller is. `Calling` is about to call the loop, `entitled` when its own
   * claim set the instance RUNNING; `Ran`, `Passed` and `Fell` have the outcome of a
   * step still to be stored.
   */
  datatype Caller =
    | Outside
    | Calling(entitled: bool)
    | AboutToClaim
    | Rewinding
    | InLoop(i: nat, accumulated: Context)
    | Ran(i: nat, accumulated: Context, gate: bool)
    | AtGate
    | Fell(key: string)
    | Left

  /** `owner` is auxiliary: the caller whose claim last took the instance. */
  datatype State = State(inst: Instance, callers: map<string, Caller>, owner: Option<string>)

  datatype Action =
    | Request(caller: string)
    | Approve(caller: string)
    | Reject(caller: string)
    | Retry(caller: string)
    | Resume(caller: string)
    | ReadStatus(caller: string)
    | Claim(caller: string)
    | RunStep(caller: string)
    | SaveProgress(caller: string)
    | StopAtGate(caller: string)
    | Fail(caller: string)
    | Complete(caller: string)

  function CallerOf(s: State, c: string): Caller {
    if c in s.callers then s.callers[c] else Outside
  }

  function At(s: State, c: string, caller: Caller): State {
    s.(callers := s.callers[c := caller])
  }

  /** A conditional write of the status that this caller wins. */
  function Win(s: State, c: string, to: InstanceStatus, caller: Caller): State {
    At(s, c, caller).(inst := WithStatus(s.inst, to), owner := Some(c))
  }

  function Entered(inst: Instance, steps: seq<StepDefinition>): Caller {
    InLoop(StartIndex(steps, inst.currentStepKey), Rehydrated(inst.input, SucceededRuns(inst.stepRuns)))
  }

  /** The write that ends an executor's run; `assertTransition` throws when the row no longer allows it. */
  function Finish(s: State, c: string, to: InstanceStatus): State {
    if s.inst.status == to || to in ValidTransitions(s.inst.status) then At(s, c, Left).(inst := WithStatus(s.inst, to)) else At(s, c, Left)
  }

  /** One database statement of one caller; a step's attempts are taken together, and so are a retry's read and claim. */
  function Next(s: State, a: Action, steps: seq<StepDefinition>, fates: Fates): State {
    match a
    case Request(c) => if CallerOf(s, c).Outside? then At(s, c, if s.inst.status == PENDING then Calling(false) else Left) else s
    case Approve(c) =>
      if CallerOf(s, c).Outside? && s.inst.status == AWAITING_APPROVAL then Win(s, c, RUNNING, Calling(true)) else s
    case Reject(c) =>
      if CallerOf(s, c).Outside? && s.inst.status == AWAITING_APPROVAL then Win(s, c, CANCELLED, Left) else s
    case Retry(c) =>
      if CallerOf(s, c).Outside? && s.inst.status == FAILED
      then Win(s.(inst := s.inst.(currentStepKey := RewindKey(steps, s.inst.currentStepKey))), c, RETRYING, Rewinding)
      else s
    case Resume(c) =>
      if !CallerOf(s, c).Rewinding? then s
      else if s.inst.status == RETRYING then Win(s, c, RUNNING, Calling(true))
      else At(s, c, Calling(false))
    case ReadStatus(c) =>
      if !CallerOf(s, c).Calling? then s
      else if s.inst.status == PENDING then At(s, c, AboutToClaim)
      else if s.inst.status == RUNNING then At(s, c, Entered(s.inst, steps))
      else At(s, c, Left)
    case Claim(c) =>
      if !CallerOf(s, c).AboutToClaim? then s
      else if s.inst.status == PENDING then Win(s, c, RUNNING, Entered(s.inst, steps))
      else At(s, c, Left)
    case RunStep(c) =>
      var l := CallerOf(s, c);
      if !l.InLoop? || l.i >= |steps| then s
      else
        var round := Round(s.inst.stepRuns, steps[l.i], l.accumulated, fates);
        var result := steps[l.i].handler(l.accumulated);
        At(s, c, if RoundSucceeds(round) then Ran(l.i, l.accumulated[steps[l.i].key := result.output], result.requiresApproval)
                 else Fell(steps[l.i].key)).(inst := s.inst.(stepRuns := s.inst.stepRuns + round))
    case SaveProgress(c) =>
      var l := CallerOf(s, c);
      if !l.Ran? || l.i >= |steps| then s
      else At(s, c, if l.gate then AtGate else InLoop(l.i + 1, l.accumulated)).(inst := s.inst.(currentStepKey := Some(steps[l.i].key)))
    case StopAtGate(c) => if CallerOf(s, c).AtGate? then Finish(s, c, AWAITING_APPROVAL) else s
    case Fail(c) =>
      var l := CallerOf(s, c);
      if l.Fell? then At(s, c, Left).(inst := WithStatus(s.inst, FAILED).(currentStepKey := Some(l.key))) else s
    case Complete(c) =>
      var l := CallerOf(s, c);
      if l.InLoop? && l.i >= |steps| then Finish(s, c, COMPLETED) else s
  }

  function Run(s: State, actions: seq<Action>, steps: seq<StepDefinition>, fates: Fates): State {
    if actions == [] then s else Next(Run(s, actions[..|actions| - 1], steps, fates), actions[|actions| - 1], steps, fates)
  }

  /** The creator has just inserted the row and calls the loop. */
  function Init(input: Context, creator: string): State {
    State(Created(input), map[creator := Calling(false)], None)
  }

  // ---------------------------------------------------------------- executors

  /** In the step loop, or entitled to enter it. */
  predicate Executes(s: State, c: string) {
    var l := CallerOf(s, c);
    l.InLoop? || l.Ran? || l.AtGate? || l.Fell? || (l.Calling? && l.entitled)
  }

  ghost predicate TwoExecutors(s: State) {
    exists c, d :: c != d && Executes(s, c) && Executes(s, d)
  }

  /** A caller without a claim of its own reads RUNNING. */
  predicate Intrudes(s: State, a: Action) {
    a.ReadStatus? && CallerOf(s, a.caller) == Calling(false) && s.inst.status == RUNNING
  }

  /** The owner executes exactly while the instance is RUNNING and rewinds exactly while it is RETRYING; nobody else does either. */
  predicate CallerOk(s: State, c: string) {
    && (Executes(s, c) <==> s.inst.status == RUNNING && s.owner == Some(c))
    && (CallerOf(s, c).Rewinding? <==> s.inst.status == RETRYING && s.owner == Some(c))
  }

  ghost predicate Exclusive(s: State) {
    && (s.inst.status == RUNNING || s.inst.status == RETRYING ==> s.owner.Some?)
    && (forall c :: CallerOk(s, c))
  }

  lemma StepKeepsExclusive(s: State, a: Action, steps: seq<StepDefinition>, fates: Fates)
    requires Exclusive(s) && !Intrudes(s, a)
    ensures Exclusive(Next(s, a, steps, fates))
  {
    var t := Next(s, a, steps, fates);
    assert CallerOk(s, a.caller);
    forall c ensures CallerOk(t, c) {
      assert CallerOk(s, c);
      if c != a.caller { BystanderOk(s, a, c, steps, fates); }
    }
  }

  lemma BystanderOk(s: State, a: Action, c: string, steps: seq<StepDefinition>, fates: Fates)
    requires CallerOk(s, c) && CallerOk(s, a.caller) && c != a.caller && !Intrudes(s, a)
    requires s.inst.status == RUNNING || s.inst.status == RETRYING ==> s.owner.Some?
    ensures CallerOk(Next(s, a, steps, fates), c)
  {
    assert CallerOf(Next(s, a, steps, fates), c) == CallerOf(s, c);
  }

  ghost predicate NoIntrusion(s: State, actions: seq<Action>, steps: seq<StepDefinition>, fates: Fates) {
    forall i :: 0 <= i < |actions| ==> !Intrudes(Run(s, actions[..i], steps, fates), actions[i])
  }

  /**
   * While nobody reads RUNNING without a claim of its own, the step loop belongs to
   * the caller whose claim came last, over every interleaving of requests, approvals,
   * rejections, retries, gates, failures and completions.
   */
  lemma {:induction false} OneClaimWinner(input: Context, creator: string, actions: seq<Action>, steps: seq<StepDefinition>, fates: Fates)
    requires NoIntrusion(Init(input, creator), actions, steps, fates)
    ensures Exclusive(Run(Init(input, creator), actions, steps, fates))
  {
    var s := Init(input, creator);
    if actions == [] {
      forall c ensures CallerOk(s, c) { }
    } else {
      var n := |actions| - 1;
      forall i | 0 <= i < n ensures !Intrudes(Run(s, actions[..n][..i], steps, fates), actions[..n][i]) {
        assert actions[..n][..i] == actions[..i];
      }
      OneClaimWinner(input, creator, actions[..n], steps, fates);
      StepKeepsExclusive(Run(s, actions[..n], steps, fates), actions[n], steps, fates);
    }
  }

  /** Until a caller without a claim reads RUNNING there is at most one executor, through gates, approvals, failures and retries. */
  lemma SingleExecutor(input: Context, creator: string, actions: seq<Action>, steps: seq<StepDefinition>, fates: Fates)
    requires NoIntrusion(Init(input, creator), actions, steps, fates)
    ensures !TwoExecutors(Run(Init(input, creator), actions, steps, fates))
  {
    OneClaimWinner(input, creator, actions, steps, fates);
    ExclusiveMeansOne(Run(Init(input, creator), actions, steps, fates));
  }

  lemma ExclusiveMeansOne(s: State)
    requires Exclusive(s)
    ensures !TwoExecutors(s)
  {
    forall c, d | Executes(s, c) && Executes(s, d) ensures c == d {
      assert CallerOk(s, c) && CallerOk(s, d);
    }
  }

  /** The exact guard: from a state with one executor at most, a step leads to two if and only if it is such a read. */
  lemma TwoExecutorsIff(s: State, a: Action, steps: seq<StepDefinition>, fates: Fates)
    requires Exclusive(s)
    ensures TwoExecutors(Next(s, a, steps, fates)) <==> Intrudes(s, a)
  {
    if Intrudes(s, a) {
      var t, d := Next(s, a, steps, fates), s.owner.value;
      assert CallerOk(s, d) && CallerOk(s, a.caller);
      assert a.caller != d && Executes(t, a.caller) && Executes(t, d);
    } else {
      StepKeepsExclusive(s, a, steps, fates);
      ExclusiveMeansOne(Next(s, a, steps, fates));
    }
  }

  // ---------------------------------------------------------------- what a second executor does

  lemma {:induction false} RunAppend(s: State, actions: seq<Action>, a: Action, steps: seq<StepDefinition>, fates: Fates)
    ensures Run(s, actions + [a], steps, fates) == Next(Run(s, actions, steps, fates), a, steps, fates)
  {
    assert (actions + [a])[..|actions + [a]| - 1] == actions;
  }

  /** A second request arrives between the creator's read and its claim. */
  function Overlap(): seq<Action> {
    [Request("second")] + [ReadStatus("creator")] + [Claim("creator")] + [ReadStatus("second")] + [RunStep("creator")] + [RunStep("second")]
  }

  /** Both callers run the first step: it succeeds twice, under different attempt numbers. */
  lemma FirstStepRunsTwice(step: StepDefinition, rest: seq<StepDefinition>, input: Context, fates: Fates)
    requires fates(step.key, 1) == Returns && fates(step.key, 2) == Returns
    ensures var rows := Run(Init(input, "creator"), Overlap(), [step] + rest, fates).inst.stepRuns;
            && |rows| == 2 && rows[0].stepKey == rows[1].stepKey == step.key
            && rows[0].status == rows[1].status == Succeeded && rows[0].attempt == 1 && rows[1].attempt == 2
  {
    var steps := [step] + rest;
    var s0 := Init(input, "creator");
    var s1 := Next(s0, Request("second"), steps, fates);
    var s2 := Next(s1, ReadStatus("creator"), steps, fates);
    var s3 := Next(s2, Claim("creator"), steps, fates);
    var s4 := Next(s3, ReadStatus("second"), steps, fates);
    assert Run(s0, [], steps, fates) == s0;
    RunAppend(s0, [], Request("second"), steps, fates);
    assert [] + [Request("second")] == [Request("second")];
    RunAppend(s0, [Request("second")], ReadStatus("creator"), steps, fates);
    RunAppend(s0, [Request("second")] + [ReadStatus("creator")], Claim("creator"), steps, fates);
    RunAppend(s0, [Request("second")] + [ReadStatus("creator")] + [Claim("creator")], ReadStatus("second"), steps, fates);
    var entered := [Request("second")] + [ReadStatus("creator")] + [Claim("creator")] + [ReadStatus("second")];
    RunAppend(s0, entered, RunStep("creator"), steps, fates);
    RunAppend(s0, entered + [RunStep("creator")], RunStep("second"), steps, fates);
    BothRunFirst(s4, step, rest, fates);
  }

  /** With both callers at the first step, the second one's attempt gets the next number and succeeds as well. */
  lemma BothRunFirst(s: State, step: StepDefinition, rest: seq<StepDefinition>, fates: Fates)
    requires fates(step.key, 1) == Returns && fates(step.key, 2) == Returns && s.inst.stepRuns == []
    requires CallerOf(s, "creator") == CallerOf(s, "second") == InLoop(0, s.inst.input)
    ensures var rows := Next(Next(s, RunStep("creator"), [step] + rest, fates), RunStep("second"), [step] + rest, fates).inst.stepRuns;
            && |rows| == 2 && rows[0].stepKey == rows[1].stepKey == step.key
            && rows[0].status == rows[1].status == Succeeded && rows[0].attempt == 1 && rows[1].attempt == 2
  {
    var first := StepRun(step.key, step.order, Succeeded, 1, s.inst.input, Some(step.handler(s.inst.input).output));
    assert LastAttempt([], step.key) == 0;
    assert Round([], step, s.inst.input, fates) == [first];
    assert LastAttempt([first], step.key) == 1;
    assert Round([first], step, s.inst.input, fates) == [first.(attempt := 2)];
  }
}
