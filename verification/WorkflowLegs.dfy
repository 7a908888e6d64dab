/**
 * What a run leaves behind, read off its rows and its status: one call per step it
 * took, each row told by what the handler did, and the status by the last of them.
 */
module WorkflowLegs {
  import opened Common
  import opened WorkflowEngine
  import opened WorkflowTheorems

  // ---------------------------------------------------------------- every row of a run

  /** The place of a row within its call: a call goes on after a retried row only. */
  function Place(rows: seq<StepRun>, i: nat): nat
    requires i < |rows|
  {
    if i > 0 && rows[i - 1].status == Retried then Place(rows, i - 1) + 1 else 1
  }

  predicate RowHonest(rows: seq<StepRun>, i: nat, fates: Fates)
    requires i < |rows|
  {
    && TellsFate(rows[i].status, fates(rows[i].stepKey, rows[i].attempt), Place(rows, i))
    && (rows[i].status == Retried ==>
        i + 1 < |rows| && rows[i + 1].stepKey == rows[i].stepKey && rows[i + 1].attempt == rows[i].attempt + 1)
  }

  ghost predicate RowsHonest(rows: seq<StepRun>, fates: Fates) {
    forall i :: 0 <= i < |rows| ==> RowHonest(rows, i, fates)
  }

  lemma {:induction false} PlaceInFront(rows: seq<StepRun>, more: seq<StepRun>, i: nat)
    requires i < |rows|
    ensures Place(rows + more, i) == Place(rows, i)
  {
    if i > 0 { PlaceInFront(rows, more, i - 1); }
  }

  lemma {:induction false} PlaceInCall(rows: seq<StepRun>, call: seq<StepRun>, k: nat)
    requires rows == [] || Last(rows).status != Retried
    requires k < |call| && forall j :: 0 <= j < k ==> call[j].status == Retried
    ensures Place(rows + call, |rows| + k) == k + 1
  {
    if k > 0 { PlaceInCall(rows, call, k - 1); }
  }

  lemma CallRowIsHonest(rows: seq<StepRun>, call: seq<StepRun>, k: nat, step: StepDefinition, accumulated: Context, start: nat, fates: Fates)
    requires rows == [] || Last(rows).status != Retried
    requires CallRows(call, step, accumulated, start, fates) && k < |call|
    ensures RowHonest(rows + call, |rows| + k, fates)
  {
    forall j | 0 <= j < k ensures call[j].status == Retried { assert CallRow(call, j, step, accumulated, start, fates); }
    PlaceInCall(rows, call, k);
    assert CallRow(call, k, step, accumulated, start, fates);
    if k + 1 < |call| { assert CallRow(call, k + 1, step, accumulated, start, fates); }
  }

  lemma CallIsHonest(rows: seq<StepRun>, call: seq<StepRun>, step: StepDefinition, accumulated: Context, start: nat, fates: Fates)
    requires RowsHonest(rows, fates) && CallRows(call, step, accumulated, start, fates)
    ensures RowsHonest(rows + call, fates)
  {
    assert rows != [] ==> RowHonest(rows, |rows| - 1, fates);
    forall i | 0 <= i < |rows + call| ensures RowHonest(rows + call, i, fates) {
      if i < |rows| {
        assert RowHonest(rows, i, fates);
        PlaceInFront(rows, call, i);
      } else {
        CallRowIsHonest(rows, call, i - |rows|, step, accumulated, start, fates);
      }
    }
  }

  lemma {:induction false} RunIsHonest(inst: Instance, steps: seq<StepDefinition>, i: nat, accumulated: Context, fates: Fates)
    requires RowsHonest(inst.stepRuns, fates)
    ensures RowsHonest(RunFrom(inst, steps, i, accumulated, fates).stepRuns, fates)
    decreases |steps| - i
  {
    if i < |steps| {
      var after, round := AfterRound(inst, steps, i, accumulated, fates), Round(inst.stepRuns, steps[i], accumulated, fates);
      RoundIsCall(inst.stepRuns, steps[i], accumulated, fates);
      CallIsHonest(inst.stepRuns, round, steps[i], accumulated, LastAttempt(inst.stepRuns, steps[i].key) + 1, fates);
      RunFromStep(inst, steps, i, accumulated, round, after, fates);
      RunIsHonest(after, steps, i + 1, accumulated[steps[i].key := steps[i].handler(accumulated).output], fates);
    }
  }

  lemma ResumeIsHonest(inst: Instance, steps: seq<StepDefinition>, fates: Fates)
    requires RowsHonest(inst.stepRuns, fates)
    ensures RowsHonest(RunToGate(inst, steps, fates).stepRuns, fates)
  {
    var claimed := if inst.status == PENDING then WithStatus(inst, RUNNING) else inst;
    RunIsHonest(claimed, steps, StartIndex(steps, claimed.currentStepKey), Rehydrated(claimed.input, SucceededRuns(claimed.stepRuns)), fates);
  }

  lemma EventIsHonest(inst: Instance, e: Event, steps: seq<StepDefinition>, fates: Fates)
    requires RowsHonest(inst.stepRuns, fates)
    ensures RowsHonest(Handle(inst, e, steps, fates).stepRuns, fates)
  {
    match e
    case Resume => ResumeIsHonest(inst, steps, fates);
    case Approve => ResumeIsHonest(WithStatus(inst, RUNNING), steps, fates);
    case Reject =>
    case Retry => ResumeIsHonest(Rewound(inst, steps), steps, fates);
  }

  /**
   * Of every row a run ever writes, the handler's behaviour and the place in the
   * call tell the status: succeeded exactly when it returned, to be retried exactly
   * after a transient error at one of the first two places, failed otherwise; and
   * exactly after a retried row the same step is attempted again.
   */
  lemma {:induction false} ExecuteIsHonest(steps: seq<StepDefinition>, input: Context, fates: Fates, events: seq<Event>)
    ensures RowsHonest(Execute(steps, input, fates, events).stepRuns, fates)
  {
    if events != [] {
      ExecuteIsHonest(steps, input, fates, events[..|events| - 1]);
      EventIsHonest(Execute(steps, input, fates, events[..|events| - 1]), events[|events| - 1], steps, fates);
    }
  }

  // ---------------------------------------------------------------- one run, leg by leg

  /** One call of a run: the rows it found, the context it was given and the rows it left. */
  datatype Leg = Leg(before: seq<StepRun>, context: Context, rows: seq<StepRun>)

  predicate LegSucceeds(leg: Leg) {
    leg.rows != [] && Last(leg.rows).status == Succeeded
  }

  ghost predicate LegOf(leg: Leg, step: StepDefinition, fates: Fates) {
    exists start: nat :: GoesOnFrom(leg.before, step.key, start) && CallRows(leg.rows, step, leg.context, start, fates)
  }

  /** The next call is made after a success without approval, on the rows and with the context the last one left. */
  predicate LegFollows(leg: Leg, step: StepDefinition, next: Leg) {
    && LegSucceeds(leg) && !step.handler(leg.context).requiresApproval
    && next.before == leg.before + leg.rows
    && next.context == leg.context[step.key := step.handler(leg.context).output]
  }

  ghost predicate Legs(legs: seq<Leg>, steps: seq<StepDefinition>, i: nat, fates: Fates) {
    && i + |legs| <= |steps|
    && (forall k :: 0 <= k < |legs| ==> LegOf(legs[k], steps[i + k], fates))
    && (forall k :: 0 <= k < |legs| - 1 ==> LegFollows(legs[k], steps[i + k], legs[k + 1]))
  }

  /** Where the run from step `i` stops, and why. */
  predicate StopsAfter(inst: Instance, t: Instance, legs: seq<Leg>, steps: seq<StepDefinition>, i: nat, accumulated: Context)
    requires i + |legs| <= |steps|
  {
    t.trail == inst.trail + [t.status] && t.input == inst.input &&
    if legs == [] then
      && i == |steps| && t.status == COMPLETED && t.output == Some(accumulated)
      && t.currentStepKey == inst.currentStepKey && t.stepRuns == inst.stepRuns
    else
      var leg, step := legs[|legs| - 1], steps[i + |legs| - 1];
      && legs[0].before == inst.stepRuns && legs[0].context == accumulated
      && t.stepRuns == leg.before + leg.rows && t.currentStepKey == Some(step.key)
      && (t.status == FAILED <==> !LegSucceeds(leg))
      && (t.status == AWAITING_APPROVAL <==> LegSucceeds(leg) && step.handler(leg.context).requiresApproval)
      && (t.status == COMPLETED <==> LegSucceeds(leg) && !step.handler(leg.context).requiresApproval)
      && (t.status == COMPLETED ==> i + |legs| == |steps|)
      && t.output == if t.status == COMPLETED then Some(leg.context[step.key := step.handler(leg.context).output]) else inst.output
  }

  ghost predicate RunsLegs(inst: Instance, t: Instance, steps: seq<StepDefinition>, i: nat, accumulated: Context, fates: Fates) {
    exists legs :: Legs(legs, steps, i, fates) && StopsAfter(inst, t, legs, steps, i, accumulated)
  }

  lemma FirstLeg(inst: Instance, step: StepDefinition, accumulated: Context, fates: Fates) returns (leg: Leg)
    ensures leg == Leg(inst.stepRuns, accumulated, Round(inst.stepRuns, step, accumulated, fates))
    ensures LegOf(leg, step, fates) && (LegSucceeds(leg) <==> RoundSucceeds(leg.rows))
  {
    leg := Leg(inst.stepRuns, accumulated, Round(inst.stepRuns, step, accumulated, fates));
    RoundIsCall(inst.stepRuns, step, accumulated, fates);
    LastAttemptGoesOn(inst.stepRuns, step.key);
  }

  lemma {:induction false} LegInFront(leg: Leg, legs: seq<Leg>, steps: seq<StepDefinition>, i: nat, fates: Fates)
    requires i < |steps| && LegOf(leg, steps[i], fates) && Legs(legs, steps, i + 1, fates)
    requires legs != [] ==> LegFollows(leg, steps[i], legs[0])
    ensures Legs([leg] + legs, steps, i, fates)
  {
    var all := [leg] + legs;
    forall k | 0 <= k < |all| ensures LegOf(all[k], steps[i + k], fates) {
      if k > 0 { assert LegOf(legs[k - 1], steps[i + 1 + (k - 1)], fates); }
    }
    forall k | 0 <= k < |all| - 1 ensures LegFollows(all[k], steps[i + k], all[k + 1]) {
      if k > 0 { assert LegFollows(legs[k - 1], steps[i + 1 + (k - 1)], legs[k]); }
    }
  }

  /** Putting the first call in front of the rest of the run. */
  lemma {:induction false} LegsJoin(inst: Instance, after: Instance, t: Instance, leg: Leg, legs: seq<Leg>, steps: seq<StepDefinition>, i: nat, next: Context, fates: Fates)
    requires i < |steps| && LegOf(leg, steps[i], fates) && LegSucceeds(leg) && !steps[i].handler(leg.context).requiresApproval
    requires leg.before == inst.stepRuns && next == leg.context[steps[i].key := steps[i].handler(leg.context).output]
    requires after == inst.(stepRuns := leg.before + leg.rows, currentStepKey := Some(steps[i].key))
    requires Legs(legs, steps, i + 1, fates) && StopsAfter(after, t, legs, steps, i + 1, next)
    ensures RunsLegs(inst, t, steps, i, leg.context, fates)
  {
    var all := [leg] + legs;
    LegInFront(leg, legs, steps, i, fates);
    assert all[|all| - 1] == if legs == [] then leg else legs[|legs| - 1];
    assert StopsAfter(inst, t, all, steps, i, leg.context);
  }

  lemma LastLeg(inst: Instance, after: Instance, t: Instance, leg: Leg, steps: seq<StepDefinition>, i: nat, fates: Fates)
    requires i < |steps| && LegOf(leg, steps[i], fates) && leg.before == inst.stepRuns
    requires after == inst.(stepRuns := leg.before + leg.rows, currentStepKey := Some(steps[i].key))
    requires !LegSucceeds(leg) || steps[i].handler(leg.context).requiresApproval
    requires t == WithStatus(after, if LegSucceeds(leg) then AWAITING_APPROVAL else FAILED)
    ensures RunsLegs(inst, t, steps, i, leg.context, fates)
  {
    assert Legs([leg], steps, i, fates) && StopsAfter(inst, t, [leg], steps, i, leg.context);
  }

  /** A run makes one call per step, in turn, and stops at the first failure or gate or after the last step. */
  lemma {:induction false} RunFromLegs(inst: Instance, steps: seq<StepDefinition>, i: nat, accumulated: Context, fates: Fates)
    requires i <= |steps|
    ensures RunsLegs(inst, RunFrom(inst, steps, i, accumulated, fates), steps, i, accumulated, fates)
    decreases |steps| - i
  {
    var t := RunFrom(inst, steps, i, accumulated, fates);
    if i == |steps| {
      assert Legs([], steps, i, fates) && StopsAfter(inst, t, [], steps, i, accumulated);
    } else {
      var leg := FirstLeg(inst, steps[i], accumulated, fates);
      var after := AfterRound(inst, steps, i, accumulated, fates);
      RunFromStep(inst, steps, i, accumulated, leg.rows, after, fates);
      if LegSucceeds(leg) && !steps[i].handler(accumulated).requiresApproval {
        var next := accumulated[steps[i].key := steps[i].handler(accumulated).output];
        RunFromLegs(after, steps, i + 1, next, fates);
        var legs :| Legs(legs, steps, i + 1, fates) && StopsAfter(after, t, legs, steps, i + 1, next);
        LegsJoin(inst, after, t, leg, legs, steps, i, next, fates);
      } else {
        LastLeg(inst, after, t, leg, steps, i, fates);
      }
    }
  }

  // ---------------------------------------------------------------- where a run starts, and with what

  /** The run takes up at the step after the stored one; an unset or unknown key means the first step. */
  predicate StartsAt(steps: seq<StepDefinition>, currentStepKey: Option<string>, i: nat) {
    if currentStepKey.Some? && currentStepKey.value != "" && exists j :: 0 <= j < |steps| && steps[j].key == currentStepKey.value then
      1 <= i <= |steps| && steps[i - 1].key == currentStepKey.value && forall j :: 0 <= j < i - 1 ==> steps[j].key != currentStepKey.value
    else i == 0
  }

  /** The last succeeded row of the step, whose output the context gets. */
  predicate LastSuccess(rows: seq<StepRun>, key: string, i: nat) {
    && i < |rows| && rows[i].status == Succeeded && rows[i].stepKey == key
    && forall j :: i < j < |rows| && rows[j].status == Succeeded ==> rows[j].stepKey != key
  }

  ghost predicate Holds(context: Context, input: Context, rows: seq<StepRun>, key: string) {
    if exists i: nat :: LastSuccess(rows, key, i) then
      exists i: nat :: LastSuccess(rows, key, i) && key in context
        && context[key] == if rows[i].output.Some? then rows[i].output.value else ""
    else (key in context <==> key in input) && (key in context ==> context[key] == input[key])
  }

  lemma StartIndexIs(steps: seq<StepDefinition>, currentStepKey: Option<string>)
    ensures StartsAt(steps, currentStepKey, StartIndex(steps, currentStepKey))
  {
  }

  lemma SucceededGrows(input: Context, init: seq<StepRun>, last: StepRun)
    ensures Rehydrated(input, SucceededRuns(init + [last]))
         == if last.status == Succeeded
            then Rehydrated(input, SucceededRuns(init))[last.stepKey := if last.output.Some? then last.output.value else ""]
            else Rehydrated(input, SucceededRuns(init))
  {
    var runs := SucceededRuns(init);
    assert (init + [last])[..|init|] == init && (runs + [last])[..|runs|] == runs && runs + [] == runs;
  }

  lemma HoldsStill(context: Context, next: Context, input: Context, init: seq<StepRun>, last: StepRun, key: string)
    requires Holds(context, input, init, key) && !(last.status == Succeeded && last.stepKey == key)
    requires (key in next <==> key in context) && (key in context ==> next[key] == context[key])
    ensures Holds(next, input, init + [last], key)
  {
    var rows := init + [last];
    forall i: nat ensures LastSuccess(rows, key, i) <==> LastSuccess(init, key, i) {
      if LastSuccess(init, key, i) { assert rows[|init|] == last; }
      if LastSuccess(rows, key, i) { assert i < |init| ==> forall j :: i < j < |init| ==> rows[j] == init[j]; }
    }
  }

  /** Resuming, a step's entry in the context is the output of its last succeeded row; what no step wrote is the input's. */
  lemma {:induction false} RehydratedHolds(input: Context, rows: seq<StepRun>, key: string)
    ensures Holds(Rehydrated(input, SucceededRuns(rows)), input, rows, key)
  {
    if rows != [] {
      var init, last := rows[..|rows| - 1], rows[|rows| - 1];
      SplitLast(rows);
      SucceededGrows(input, init, last);
      if last.status == Succeeded && last.stepKey == key {
        assert LastSuccess(rows, key, |init|);
      } else {
        RehydratedHolds(input, init, key);
        HoldsStill(Rehydrated(input, SucceededRuns(init)), Rehydrated(input, SucceededRuns(rows)), input, init, last, key);
      }
    }
  }

  /** Where a retry puts the position: before the step with the stored key, if there is one before it. */
  predicate RewindsTo(steps: seq<StepDefinition>, currentStepKey: Option<string>, key: Option<string>) {
    if currentStepKey.Some? && currentStepKey.value != "" && exists j :: 0 < j < |steps| && FirstWith(steps, j, currentStepKey.value) then
      exists j :: 0 < j < |steps| && FirstWith(steps, j, currentStepKey.value) && key == Some(steps[j - 1].key)
    else key == None
  }

  predicate FirstWith(steps: seq<StepDefinition>, j: nat, key: string)
    requires j < |steps|
  {
    steps[j].key == key && forall m :: 0 <= m < j ==> steps[m].key != key
  }

  lemma RewindKeyIs(steps: seq<StepDefinition>, currentStepKey: Option<string>)
    ensures RewindsTo(steps, currentStepKey, RewindKey(steps, currentStepKey))
  {
    if KeySet(currentStepKey) {
      var j := StepIndex(steps, currentStepKey.value);
      assert j >= 0 ==> FirstWith(steps, j, currentStepKey.value);
    }
  }

  ghost predicate RunsOn(running: Instance, t: Instance, steps: seq<StepDefinition>, fates: Fates) {
    exists i: nat, context :: StartsAt(steps, running.currentStepKey, i)
      && (forall key :: Holds(context, running.input, running.stepRuns, key))
      && RunsLegs(running, t, steps, i, context, fates)
  }

  lemma RunningRunsOn(running: Instance, steps: seq<StepDefinition>, fates: Fates)
    requires running.status == RUNNING
    ensures RunsOn(running, RunToGate(running, steps, fates), steps, fates)
  {
    var i, context := StartIndex(steps, running.currentStepKey), Rehydrated(running.input, SucceededRuns(running.stepRuns));
    StartIndexIs(steps, running.currentStepKey);
    forall key ensures Holds(context, running.input, running.stepRuns, key) { RehydratedHolds(running.input, running.stepRuns, key); }
    RunToGateUnfolds(running, steps, i, context, fates);
    RunFromLegs(running, steps, i, context, fates);
  }

  /** A run claims a new instance or goes on with a running one, call by call up to a gate, a failure or the end; any other it leaves alone. */
  lemma ResumeRuns(inst: Instance, steps: seq<StepDefinition>, fates: Fates)
    ensures var t := RunToGate(inst, steps, fates);
            match inst.status
            case PENDING => RunsOn(inst.(status := RUNNING, trail := inst.trail + [RUNNING]), t, steps, fates)
            case RUNNING => RunsOn(inst, t, steps, fates)
            case _ => t == inst
  {
    if inst.status == PENDING {
      RunningRunsOn(WithStatus(inst, RUNNING), steps, fates);
    } else if inst.status == RUNNING {
      RunningRunsOn(inst, steps, fates);
    }
  }

  /** Exactly a waiting instance is approved, and then goes on running, or rejected, and then nothing but its status changes. */
  lemma DecisionsMean(inst: Instance, steps: seq<StepDefinition>, fates: Fates)
    ensures inst.status == AWAITING_APPROVAL ==>
              RunsOn(inst.(status := RUNNING, trail := inst.trail + [RUNNING]), Approved(inst, steps, fates), steps, fates)
    ensures inst.status == AWAITING_APPROVAL ==> Rejected(inst) == inst.(status := CANCELLED, trail := inst.trail + [CANCELLED])
    ensures inst.status != AWAITING_APPROVAL ==> Approved(inst, steps, fates) == Rejected(inst) == inst
  {
    if inst.status == AWAITING_APPROVAL { RunningRunsOn(WithStatus(inst, RUNNING), steps, fates); }
  }

  /** Exactly a failed instance is retried: it is put back before the failed step and runs on from there. */
  lemma RetryMeans(inst: Instance, steps: seq<StepDefinition>, fates: Fates)
    ensures inst.status == FAILED ==>
              exists key :: RewindsTo(steps, inst.currentStepKey, key)
                && RunsOn(inst.(status := RUNNING, currentStepKey := key, trail := inst.trail + [RETRYING, RUNNING]),
                          RetriedInstance(inst, steps, fates), steps, fates)
    ensures inst.status != FAILED ==> RetriedInstance(inst, steps, fates) == inst
  {
    if inst.status == FAILED {
      RewindKeyIs(steps, inst.currentStepKey);
      assert Rewound(inst, steps).trail == inst.trail + [RETRYING, RUNNING];
      RunningRunsOn(Rewound(inst, steps), steps, fates);
    }
  }

  // ---------------------------------------------------------------- failures end runs

  function FailedRows(rows: seq<StepRun>): nat {
    if rows == [] then 0 else FailedRows(rows[..|rows| - 1]) + if rows[|rows| - 1].status == Failed then 1 else 0
  }

  function FailedStops(trail: seq<InstanceStatus>): nat {
    if trail == [] then 0 else FailedStops(trail[..|trail| - 1]) + if trail[|trail| - 1] == FAILED then 1 else 0
  }

  lemma {:induction false} FailedInCall(rows: seq<StepRun>, call: seq<StepRun>, step: StepDefinition, accumulated: Context, start: nat, k: nat, fates: Fates)
    requires CallRows(call, step, accumulated, start, fates) && k <= |call|
    ensures FailedRows(rows + call[..k]) == FailedRows(rows) + if k == |call| && Last(call).status == Failed then 1 else 0
  {
    if k == 0 {
      assert rows + call[..0] == rows;
    } else {
      FailedInCall(rows, call, step, accumulated, start, k - 1, fates);
      assert (rows + call[..k])[..|rows + call[..k]| - 1] == rows + call[..k - 1];
      assert CallRow(call, k - 1, step, accumulated, start, fates);
    }
  }

  lemma StopWritten(trail: seq<InstanceStatus>, status: InstanceStatus)
    ensures FailedStops(trail + [status]) == FailedStops(trail) + if status == FAILED then 1 else 0
  {
    assert (trail + [status])[..|trail|] == trail;
  }

  ghost predicate FailuresStop(inst: Instance) {
    FailedRows(inst.stepRuns) == FailedStops(inst.trail)
  }

  lemma CallEnds(call: seq<StepRun>, step: StepDefinition, accumulated: Context, start: nat, fates: Fates)
    requires CallRows(call, step, accumulated, start, fates)
    ensures call[..|call|] == call && (Last(call).status == Failed <==> !RoundSucceeds(call))
  {
    assert CallRow(call, |call| - 1, step, accumulated, start, fates);
  }

  lemma FailedInRound(rows: seq<StepRun>, step: StepDefinition, accumulated: Context, round: seq<StepRun>, fates: Fates)
    requires round == Round(rows, step, accumulated, fates)
    ensures FailedRows(rows + round) == FailedRows(rows) + if RoundSucceeds(round) then 0 else 1
  {
    var start := LastAttempt(rows, step.key) + 1;
    RoundIsCall(rows, step, accumulated, fates);
    FailedInCall(rows, round, step, accumulated, start, |round|, fates);
    CallEnds(round, step, accumulated, start, fates);
  }

  lemma {:induction false} RunFailuresStop(inst: Instance, steps: seq<StepDefinition>, i: nat, accumulated: Context, fates: Fates)
    requires FailuresStop(inst)
    ensures FailuresStop(RunFrom(inst, steps, i, accumulated, fates))
    decreases |steps| - i
  {
    StopWritten(inst.trail, COMPLETED);
    StopWritten(inst.trail, FAILED);
    StopWritten(inst.trail, AWAITING_APPROVAL);
    if i < |steps| {
      var after, round := AfterRound(inst, steps, i, accumulated, fates), Round(inst.stepRuns, steps[i], accumulated, fates);
      FailedInRound(inst.stepRuns, steps[i], accumulated, round, fates);
      RunFromStep(inst, steps, i, accumulated, round, after, fates);
      if RoundSucceeds(round) {
        RunFailuresStop(after, steps, i + 1, accumulated[steps[i].key := steps[i].handler(accumulated).output], fates);
      }
    }
  }

  lemma ResumeFailuresStop(inst: Instance, steps: seq<StepDefinition>, fates: Fates)
    requires FailuresStop(inst)
    ensures FailuresStop(RunToGate(inst, steps, fates))
  {
    var claimed := if inst.status == PENDING then WithStatus(inst, RUNNING) else inst;
    StopWritten(inst.trail, RUNNING);
    RunFailuresStop(claimed, steps, StartIndex(steps, claimed.currentStepKey), Rehydrated(claimed.input, SucceededRuns(claimed.stepRuns)), fates);
  }

  lemma EventFailuresStop(inst: Instance, e: Event, steps: seq<StepDefinition>, fates: Fates)
    requires FailuresStop(inst)
    ensures FailuresStop(Handle(inst, e, steps, fates))
  {
    StopWritten(inst.trail, RUNNING);
    StopWritten(inst.trail, CANCELLED);
    StopWritten(inst.trail, RETRYING);
    StopWritten(inst.trail + [RETRYING], RUNNING);
    match e
    case Resume => ResumeFailuresStop(inst, steps, fates);
    case Approve => ResumeFailuresStop(WithStatus(inst, RUNNING), steps, fates);
    case Reject =>
    case Retry => ResumeFailuresStop(Rewound(inst, steps), steps, fates);
  }

  /** Nothing is attempted after a failed row until somebody retries: there are as many of them as the instance was put to FAILED. */
  lemma {:induction false} EveryFailureStops(steps: seq<StepDefinition>, input: Context, fates: Fates, events: seq<Event>)
    ensures var t := Execute(steps, input, fates, events); FailedRows(t.stepRuns) == FailedStops(t.trail)
  {
    if events == [] {
      StopWritten([], PENDING);
    } else {
      EveryFailureStops(steps, input, fates, events[..|events| - 1]);
      EventFailuresStop(Execute(steps, input, fates, events[..|events| - 1]), events[|events| - 1], steps, fates);
    }
  }
}
