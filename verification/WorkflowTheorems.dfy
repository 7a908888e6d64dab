/**
 * What one executor at a time guarantees about a workflow instance, over every
 * sequence of runs, approvals, rejections and retries, for any fate of each attempt.
 */
module WorkflowTheorems {
  import opened Common
  import opened WorkflowEngine

  // ---------------------------------------------------------------- reference definitions

  /** Step keys are not empty, and distinct within a definition. */
  predicate DistinctKeys(steps: seq<StepDefinition>) {
    && (forall i :: 0 <= i < |steps| ==> steps[i].key != "")
    && (forall i, j :: 0 <= i < j < |steps| ==> steps[i].key != steps[j].key)
  }

  /** The plain left-to-right fold of the first `k` steps over the input. */
  function Fold(steps: seq<StepDefinition>, input: Context, k: nat): Context
    requires k <= |steps|
  {
    if k == 0 then input
    else
      var accumulated := Fold(steps, input, k - 1);
      accumulated[steps[k - 1].key := steps[k - 1].handler(accumulated).output]
  }

  function ResultAt(steps: seq<StepDefinition>, input: Context, k: nat): StepResult
    requires k < |steps|
  {
    steps[k].handler(Fold(steps, input, k))
  }

  function Gates(steps: seq<StepDefinition>, input: Context, k: nat): nat
    requires k <= |steps|
  {
    if k == 0 then 0 else Gates(steps, input, k - 1) + if ResultAt(steps, input, k - 1).requiresApproval then 1 else 0
  }

  /** (At most two retried, then failed), repeated, optionally followed by (at most two retried, then succeeded). */
  predicate Accepts(rows: seq<StepRun>, retries: nat) {
    if rows == [] then retries == 0
    else match rows[0].status
      case Retried => retries < MAX_STEP_ATTEMPTS - 1 && Accepts(rows[1..], retries + 1)
      case Failed => Accepts(rows[1..], 0)
      case Succeeded => rows[1..] == []
      case Attempting => false
  }

  predicate Numbered(rows: seq<StepRun>) {
    forall i :: 0 <= i < |rows| ==> rows[i].attempt == i + 1
  }

  predicate LegalTrail(trail: seq<InstanceStatus>) {
    && trail != [] && trail[0] == PENDING
    && forall i :: 0 <= i < |trail| - 1 ==> trail[i + 1] in ValidTransitions(trail[i])
  }

  // ---------------------------------------------------------------- runs

  datatype Event = Resume | Approve | Reject | Retry

  function Handle(inst: Instance, e: Event, steps: seq<StepDefinition>, fates: Fates): Instance {
    match e
    case Resume => RunToGate(inst, steps, fates)
    case Approve => Approved(inst, steps, fates)
    case Reject => Rejected(inst)
    case Retry => RetriedInstance(inst, steps, fates)
  }

  function Execute(steps: seq<StepDefinition>, input: Context, fates: Fates, events: seq<Event>): Instance {
    if events == [] then Created(input)
    else Handle(Execute(steps, input, fates, events[..|events| - 1]), events[|events| - 1], steps, fates)
  }

  /** The approvals that found the instance waiting. */
  function Approvals(steps: seq<StepDefinition>, input: Context, fates: Fates, events: seq<Event>): nat {
    if events == [] then 0
    else
      var before := events[..|events| - 1];
      Approvals(steps, input, fates, before)
      + if events[|events| - 1].Approve? && Execute(steps, input, fates, before).status == AWAITING_APPROVAL then 1 else 0
  }

  // ---------------------------------------------------------------- the invariant

  function Last(rows: seq<StepRun>): StepRun
    requires rows != []
  {
    rows[|rows| - 1]
  }

  /** The rows of a step that has succeeded. */
  predicate Done(rows: seq<StepRun>, result: StepResult) {
    Numbered(rows) && Accepts(rows, 0) && rows != [] && Last(rows).status == Succeeded && Last(rows).output == Some(result.output)
  }

  /** The rows of a step that has only failed so far, possibly never run. */
  predicate Tried(rows: seq<StepRun>) {
    Numbered(rows) && Accepts(rows, 0) && (rows != [] ==> Last(rows).status == Failed)
  }

  /** The row is a success of step `k`, with the fold's output. */
  predicate SuccessOf(run: StepRun, steps: seq<StepDefinition>, input: Context, k: nat)
    requires k < |steps|
  {
    run.stepKey == steps[k].key && run.stepOrder == steps[k].order && run.output == Some(ResultAt(steps, input, k).output)
  }

  /** The succeeded rows are the first `p` steps, in order. */
  ghost predicate Successes(runs: seq<StepRun>, steps: seq<StepDefinition>, input: Context, p: nat)
    requires p <= |steps|
  {
    |runs| == p && forall k {:trigger SuccessOf(runs[k], steps, input, k)} :: 0 <= k < p ==> SuccessOf(runs[k], steps, input, k)
  }

  predicate StepOk(inst: Instance, steps: seq<StepDefinition>, p: nat, k: nat)
    requires k < |steps|
  {
    var rows := RowsOf(inst.stepRuns, steps[k].key);
    if k < p then Done(rows, ResultAt(steps, inst.input, k))
    else if k == p then Tried(rows)
    else rows == []
  }

  ghost predicate Progress(inst: Instance, steps: seq<StepDefinition>, p: nat) {
    && p <= |steps|
    && (forall k :: 0 <= k < |steps| ==> StepOk(inst, steps, p, k))
    && Successes(SucceededRuns(inst.stepRuns), steps, inst.input, p)
  }

  predicate StatusOk(inst: Instance, steps: seq<StepDefinition>, p: nat)
    requires p <= |steps|
  {
    && LegalTrail(inst.trail) && inst.trail[|inst.trail| - 1] == inst.status
    && match inst.status
       case PENDING => p == 0 && inst.stepRuns == [] && inst.currentStepKey == None
       case AWAITING_APPROVAL => AtGate(inst, steps, p)
       case CANCELLED => AtGate(inst, steps, p)
       case FAILED => p < |steps| && inst.currentStepKey == Some(steps[p].key) && RowsOf(inst.stepRuns, steps[p].key) != []
       case COMPLETED => p == |steps| && inst.output == Some(Fold(steps, inst.input, p))
       case RUNNING => false
       case RETRYING => false
  }

  predicate AtGate(inst: Instance, steps: seq<StepDefinition>, p: nat)
    requires p <= |steps|
  {
    && p >= 1 && inst.currentStepKey == Some(steps[p - 1].key) && ResultAt(steps, inst.input, p - 1).requiresApproval
    && (p < |steps| ==> RowsOf(inst.stepRuns, steps[p].key) == [])
  }

  /** Between two events: `p` steps are done, and the status says why the run stopped there. */
  ghost predicate Stage(inst: Instance, steps: seq<StepDefinition>, p: nat) {
    Progress(inst, steps, p) && StatusOk(inst, steps, p)
  }

  /** Waiting at, or cancelled at, a gate that nobody approved. */
  function OpenGates(inst: Instance): nat {
    if inst.status == AWAITING_APPROVAL || inst.status == CANCELLED then 1 else 0
  }

  // ---------------------------------------------------------------- one round of attempts

  lemma {:induction false} AcceptsConcat(a: seq<StepRun>, b: seq<StepRun>, retries: nat)
    requires Accepts(a, retries) && Accepts(b, 0)
    requires if a == [] then retries == 0 else Last(a).status == Failed
    ensures Accepts(a + b, retries)
  {
    if a == [] {
      assert a + b == b;
    } else {
      assert (a + b)[1..] == a[1..] + b;
      match a[0].status
      case Retried => AcceptsConcat(a[1..], b, retries + 1);
      case Failed => AcceptsConcat(a[1..], b, 0);
      case Succeeded =>
      case Attempting =>
    }
  }

  lemma {:induction false} TurnsAccepted(rows: seq<StepRun>, step: StepDefinition, accumulated: Context, start: nat, k: nat, fates: Fates)
    requires AttemptsInTurn(rows, step, accumulated, start, 1, fates) && k < |rows|
    ensures Accepts(rows[k..], k)
    decreases |rows| - k
  {
    assert AttemptAt(rows, step, accumulated, start, 1, k, fates);
    DropHead(rows, k);
    if k + 1 < |rows| {
      assert AttemptAt(rows, step, accumulated, start, 1, k + 1, fates);
      TurnsAccepted(rows, step, accumulated, start, k + 1, fates);
    }
  }

  lemma {:induction false} RowsOfConcat(rows: seq<StepRun>, more: seq<StepRun>, key: string, moreKey: string)
    requires forall r :: r in more ==> r.stepKey == moreKey
    ensures RowsOf(rows + more, key) == RowsOf(rows, key) + if key == moreKey then more else []
    decreases |more|
  {
    if more == [] {
      assert rows + more == rows;
    } else {
      var n := |more| - 1;
      assert (rows + more)[..|rows| + n] == rows + more[..n];
      RowsOfConcat(rows, more[..n], key, moreKey);
      assert more == more[..n] + [more[n]];
    }
  }

  lemma {:induction false} SucceededConcat(rows: seq<StepRun>, more: seq<StepRun>)
    requires more != [] && forall i :: 0 <= i < |more| - 1 ==> more[i].status != Succeeded
    ensures SucceededRuns(rows + more) == SucceededRuns(rows) + if Last(more).status == Succeeded then [Last(more)] else []
  {
    NoSuccesses(rows, more[..|more| - 1]);
    assert (rows + more)[..|rows + more| - 1] == rows + more[..|more| - 1];
  }

  lemma {:induction false} NoSuccesses(rows: seq<StepRun>, more: seq<StepRun>)
    requires forall i :: 0 <= i < |more| ==> more[i].status != Succeeded
    ensures SucceededRuns(rows + more) == SucceededRuns(rows)
    decreases |more|
  {
    if more == [] {
      assert rows + more == rows;
    } else {
      assert (rows + more)[..|rows + more| - 1] == rows + more[..|more| - 1];
      NoSuccesses(rows, more[..|more| - 1]);
    }
  }

  lemma NumberedPrefix(rows: seq<StepRun>, key: string)
    requires Numbered(RowsOf(rows, key)) && rows != []
    ensures Numbered(RowsOf(rows[..|rows| - 1], key))
    ensures Last(rows).stepKey == key ==> Last(rows).attempt == |RowsOf(rows[..|rows| - 1], key)| + 1
  {
    var before := RowsOf(rows[..|rows| - 1], key);
    assert forall i :: 0 <= i < |before| ==> RowsOf(rows, key)[i] == before[i];
    assert Last(rows).stepKey == key ==> RowsOf(rows, key)[|before|] == Last(rows);
  }

  lemma {:induction false} LastAttemptIsCount(rows: seq<StepRun>, key: string)
    requires Numbered(RowsOf(rows, key))
    ensures LastAttempt(rows, key) == |RowsOf(rows, key)|
  {
    if rows != [] {
      NumberedPrefix(rows, key);
      LastAttemptIsCount(rows[..|rows| - 1], key);
    }
  }

  /** A round as the retry loop produces it: numbered from `start`, ending in failure or in the step's result. */
  predicate RoundOk(round: seq<StepRun>, key: string, order: int, start: nat, result: StepResult) {
    && round != [] && Accepts(round, 0)
    && (forall i :: 0 <= i < |round| ==> round[i].stepKey == key && round[i].stepOrder == order && round[i].attempt == start + i)
    && (forall i :: 0 <= i < |round| - 1 ==> round[i].status != Succeeded)
    && (Last(round).status == Failed || (Last(round).status == Succeeded && Last(round).output == Some(result.output)))
  }

  lemma TurnsAreOk(rows: seq<StepRun>, step: StepDefinition, accumulated: Context, start: nat, fates: Fates)
    requires AttemptsInTurn(rows, step, accumulated, start, 1, fates)
    ensures RoundOk(rows, step.key, step.order, start, step.handler(accumulated))
  {
    TurnsAccepted(rows, step, accumulated, start, 0, fates);
    assert rows[0..] == rows;
    forall i | 0 <= i < |rows|
      ensures rows[i].stepKey == step.key && rows[i].stepOrder == step.order && rows[i].attempt == start + i
      ensures i < |rows| - 1 ==> rows[i].status != Succeeded
    {
      assert AttemptAt(rows, step, accumulated, start, 1, i, fates);
    }
    assert AttemptAt(rows, step, accumulated, start, 1, |rows| - 1, fates);
  }

  lemma RoundIsOk(rows: seq<StepRun>, step: StepDefinition, accumulated: Context, fates: Fates)
    ensures RoundOk(Round(rows, step, accumulated, fates), step.key, step.order, LastAttempt(rows, step.key) + 1, step.handler(accumulated))
  {
    AttemptRowsInTurn(step, accumulated, LastAttempt(rows, step.key) + 1, 1, fates);
    TurnsAreOk(Round(rows, step, accumulated, fates), step, accumulated, LastAttempt(rows, step.key) + 1, fates);
  }

  lemma TriedThenRound(tried: seq<StepRun>, round: seq<StepRun>, key: string, order: int, result: StepResult)
    requires Tried(tried) && RoundOk(round, key, order, |tried| + 1, result)
    ensures if RoundSucceeds(round) then Done(tried + round, result) else Tried(tried + round)
  {
    AcceptsConcat(tried, round, 0);
    assert Last(tried + round) == Last(round);
  }

  /** A further round of a step: its rows stay well-formed and end as the round does; other steps' rows stay. */
  lemma RoundExtends(rows: seq<StepRun>, round: seq<StepRun>, key: string, order: int, result: StepResult)
    requires Tried(RowsOf(rows, key)) && RoundOk(round, key, order, |RowsOf(rows, key)| + 1, result)
    ensures RowsOf(rows + round, key) == RowsOf(rows, key) + round
    ensures if RoundSucceeds(round) then Done(RowsOf(rows + round, key), result) else Tried(RowsOf(rows + round, key))
    ensures SucceededRuns(rows + round) == SucceededRuns(rows) + (if RoundSucceeds(round) then [Last(round)] else [])
    ensures forall other :: other != key ==> RowsOf(rows + round, other) == RowsOf(rows, other)
  {
    RowsOfConcat(rows, round, key, key);
    TriedThenRound(RowsOf(rows, key), round, key, order, result);
    SucceededConcat(rows, round);
    forall other | other != key ensures RowsOf(rows + round, other) == RowsOf(rows, other) {
      RowsOfConcat(rows, round, other, key);
    }
  }

  /** One more round at step `p`: the position moves on exactly when the round succeeds. */
  lemma RoundAdvances(inst: Instance, steps: seq<StepDefinition>, p: nat, round: seq<StepRun>, after: Instance)
    requires DistinctKeys(steps) && Progress(inst, steps, p) && p < |steps|
    requires RoundOk(round, steps[p].key, steps[p].order, |RowsOf(inst.stepRuns, steps[p].key)| + 1, ResultAt(steps, inst.input, p))
    requires after.stepRuns == inst.stepRuns + round && after.input == inst.input
    ensures Progress(after, steps, if RoundSucceeds(round) then p + 1 else p)
    ensures RowsOf(after.stepRuns, steps[p].key) != []
    ensures p + 1 < |steps| ==> RowsOf(after.stepRuns, steps[p + 1].key) == []
  {
    assert StepOk(inst, steps, p, p);
    RoundExtends(inst.stepRuns, round, steps[p].key, steps[p].order, ResultAt(steps, inst.input, p));
    var q := if RoundSucceeds(round) then p + 1 else p;
    forall k | 0 <= k < |steps| ensures StepOk(after, steps, q, k) {
      assert StepOk(inst, steps, p, k);
    }
    assert p + 1 < |steps| ==> StepOk(inst, steps, p, p + 1);
    SuccessAppended(SucceededRuns(inst.stepRuns), round, steps, inst.input, p);
  }

  lemma SuccessAppended(runs: seq<StepRun>, round: seq<StepRun>, steps: seq<StepDefinition>, input: Context, p: nat)
    requires p < |steps| && Successes(runs, steps, input, p)
    requires RoundSucceeds(round) ==> SuccessOf(Last(round), steps, input, p)
    ensures Successes(runs + (if RoundSucceeds(round) then [Last(round)] else []), steps, input, if RoundSucceeds(round) then p + 1 else p)
  {
    var after := runs + (if RoundSucceeds(round) then [Last(round)] else []);
    forall k | 0 <= k < |after| ensures SuccessOf(after[k], steps, input, k) {
      if k < p { assert SuccessOf(runs[k], steps, input, k); }
    }
  }

  lemma {:induction false} NextRoundIsOk(inst: Instance, steps: seq<StepDefinition>, p: nat, fates: Fates)
    requires Progress(inst, steps, p) && p < |steps|
    ensures RoundOk(Round(inst.stepRuns, steps[p], Fold(steps, inst.input, p), fates), steps[p].key, steps[p].order,
                    |RowsOf(inst.stepRuns, steps[p].key)| + 1, ResultAt(steps, inst.input, p))
  {
    assert StepOk(inst, steps, p, p);
    LastAttemptIsCount(inst.stepRuns, steps[p].key);
    RoundIsOk(inst.stepRuns, steps[p], Fold(steps, inst.input, p), fates);
  }

  // ---------------------------------------------------------------- one event

  lemma TrailGrows(inst: Instance, to: InstanceStatus)
    requires LegalTrail(inst.trail) && inst.trail[|inst.trail| - 1] == inst.status && to in ValidTransitions(inst.status)
    ensures LegalTrail(WithStatus(inst, to).trail) && WithStatus(inst, to).trail[|inst.trail|] == to
  {
  }

  ghost predicate Running(inst: Instance, steps: seq<StepDefinition>, p: nat) {
    Progress(inst, steps, p) && inst.status == RUNNING && LegalTrail(inst.trail) && inst.trail[|inst.trail| - 1] == RUNNING
  }

  /** Stopping in a status that fits keeps the trail legal and the progress made. */
  lemma Stops(inst: Instance, steps: seq<StepDefinition>, p: nat, to: InstanceStatus)
    requires Running(inst, steps, p) && (to == FAILED || to == AWAITING_APPROVAL)
    requires to == FAILED ==> p < |steps| && inst.currentStepKey == Some(steps[p].key) && RowsOf(inst.stepRuns, steps[p].key) != []
    requires to == AWAITING_APPROVAL ==> AtGate(inst, steps, p)
    ensures Stage(WithStatus(inst, to), steps, p)
  {
    TrailGrows(inst, to);
    ProgressFrame(inst, WithStatus(inst, to), steps, p);
  }

  lemma {:induction false} Completes(inst: Instance, steps: seq<StepDefinition>, accumulated: Context)
    requires Running(inst, steps, |steps|) && accumulated == Fold(steps, inst.input, |steps|)
    ensures Stage(WithStatus(inst, COMPLETED).(output := Some(accumulated)), steps, |steps|)
  {
    TrailGrows(inst, COMPLETED);
    ProgressFrame(inst, WithStatus(inst, COMPLETED).(output := Some(accumulated)), steps, |steps|);
  }

  /** The loop's end at a stage, having passed no gate without stopping there. */
  ghost predicate Reached(inst: Instance, steps: seq<StepDefinition>, i: nat, t: Instance, p: nat)
    requires i <= |steps|
  {
    && i <= p && Stage(t, steps, p) && t.input == inst.input
    && Gates(steps, inst.input, p) == Gates(steps, inst.input, i) + OpenGates(t)
  }

  lemma GatesNext(steps: seq<StepDefinition>, input: Context, i: nat)
    requires i < |steps|
    ensures Gates(steps, input, i + 1) == Gates(steps, input, i) + if ResultAt(steps, input, i).requiresApproval then 1 else 0
  {
  }

  ghost predicate Reaches(inst: Instance, steps: seq<StepDefinition>, i: nat, t: Instance)
    requires i <= |steps|
  {
    exists p :: Reached(inst, steps, i, t, p)
  }

  lemma RoundFails(inst: Instance, steps: seq<StepDefinition>, i: nat, after: Instance)
    requires Running(after, steps, i) && i < |steps| && after.input == inst.input
    requires after.currentStepKey == Some(steps[i].key) && RowsOf(after.stepRuns, steps[i].key) != []
    ensures Reaches(inst, steps, i, WithStatus(after, FAILED))
  {
    Stops(after, steps, i, FAILED);
    assert Reached(inst, steps, i, WithStatus(after, FAILED), i);
  }

  lemma RoundGates(inst: Instance, steps: seq<StepDefinition>, i: nat, after: Instance)
    requires i < |steps| && Running(after, steps, i + 1) && after.input == inst.input
    requires after.currentStepKey == Some(steps[i].key) && ResultAt(steps, inst.input, i).requiresApproval
    requires i + 1 < |steps| ==> RowsOf(after.stepRuns, steps[i + 1].key) == []
    ensures Reaches(inst, steps, i, WithStatus(after, AWAITING_APPROVAL))
  {
    GatesNext(steps, inst.input, i);
    Stops(after, steps, i + 1, AWAITING_APPROVAL);
    assert Reached(inst, steps, i, WithStatus(after, AWAITING_APPROVAL), i + 1);
  }

  lemma {:induction false} EndReaches(inst: Instance, steps: seq<StepDefinition>, accumulated: Context)
    requires Running(inst, steps, |steps|) && accumulated == Fold(steps, inst.input, |steps|)
    ensures Reaches(inst, steps, |steps|, WithStatus(inst, COMPLETED).(output := Some(accumulated)))
  {
    Completes(inst, steps, accumulated);
    assert Reached(inst, steps, |steps|, WithStatus(inst, COMPLETED).(output := Some(accumulated)), |steps|);
  }

  /** The instance after one more round of step `i`. */
  function AfterRound(inst: Instance, steps: seq<StepDefinition>, i: nat, accumulated: Context, fates: Fates): Instance
    requires i < |steps|
  {
    inst.(stepRuns := inst.stepRuns + Round(inst.stepRuns, steps[i], accumulated, fates), currentStepKey := Some(steps[i].key))
  }

  predicate GoesOn(inst: Instance, steps: seq<StepDefinition>, i: nat, accumulated: Context, fates: Fates)
    requires i < |steps|
  {
    RoundSucceeds(Round(inst.stepRuns, steps[i], accumulated, fates)) && !steps[i].handler(accumulated).requiresApproval
  }

  /** The loop either goes on from the next step, or has stopped at a stage. */
  lemma RoundTaken(inst: Instance, steps: seq<StepDefinition>, i: nat, accumulated: Context, after: Instance, fates: Fates)
    requires DistinctKeys(steps) && Running(inst, steps, i) && i < |steps| && accumulated == Fold(steps, inst.input, i)
    requires after == AfterRound(inst, steps, i, accumulated, fates)
    ensures if GoesOn(inst, steps, i, accumulated, fates) then Running(after, steps, i + 1)
            else Reaches(inst, steps, i, RunFrom(inst, steps, i, accumulated, fates))
  {
    var round := Round(inst.stepRuns, steps[i], accumulated, fates);
    NextRoundIsOk(inst, steps, i, fates);
    RoundAdvances(inst, steps, i, round, after);
    RunFromStep(inst, steps, i, accumulated, round, after, fates);
    if !RoundSucceeds(round) {
      RoundFails(inst, steps, i, after);
    } else if ResultAt(steps, inst.input, i).requiresApproval {
      RoundGates(inst, steps, i, after);
    }
  }

  lemma RoundGoesOn(inst: Instance, steps: seq<StepDefinition>, i: nat, accumulated: Context, after: Instance, next: Context, fates: Fates)
    requires i < |steps| && accumulated == Fold(steps, inst.input, i) && GoesOn(inst, steps, i, accumulated, fates)
    requires after == AfterRound(inst, steps, i, accumulated, fates) && next == Fold(steps, inst.input, i + 1)
    requires Reaches(after, steps, i + 1, RunFrom(after, steps, i + 1, next, fates))
    ensures Reaches(inst, steps, i, RunFrom(inst, steps, i, accumulated, fates))
  {
    var t := RunFrom(after, steps, i + 1, next, fates);
    RunFromStep(inst, steps, i, accumulated, Round(inst.stepRuns, steps[i], accumulated, fates), after, fates);
    GatesNext(steps, inst.input, i);
    var p :| Reached(after, steps, i + 1, t, p);
    assert Reached(inst, steps, i, t, p);
  }

  /** From a running position the loop ends at a stage, passing a gate only to stop there. */
  lemma {:induction false} RunFromReaches(inst: Instance, steps: seq<StepDefinition>, i: nat, accumulated: Context, fates: Fates)
    requires DistinctKeys(steps) && Running(inst, steps, i) && accumulated == Fold(steps, inst.input, i)
    ensures Reaches(inst, steps, i, RunFrom(inst, steps, i, accumulated, fates))
    decreases |steps| - i, 1
  {
    if i == |steps| {
      EndReaches(inst, steps, accumulated);
    } else {
      var after := AfterRound(inst, steps, i, accumulated, fates);
      RoundTaken(inst, steps, i, accumulated, after, fates);
      if GoesOn(inst, steps, i, accumulated, fates) {
        RunOnReaches(inst, steps, i, accumulated, after, fates);
      }
    }
  }

  lemma {:induction false} RunOnReaches(inst: Instance, steps: seq<StepDefinition>, i: nat, accumulated: Context, after: Instance, fates: Fates)
    requires DistinctKeys(steps) && i < |steps| && accumulated == Fold(steps, inst.input, i) && GoesOn(inst, steps, i, accumulated, fates)
    requires after == AfterRound(inst, steps, i, accumulated, fates) && Running(after, steps, i + 1)
    ensures Reaches(inst, steps, i, RunFrom(inst, steps, i, accumulated, fates))
    decreases |steps| - i, 0
  {
    RunFromReaches(after, steps, i + 1, Fold(steps, inst.input, i + 1), fates);
    RoundGoesOn(inst, steps, i, accumulated, after, Fold(steps, inst.input, i + 1), fates);
  }

  /** Progress is about the input and the step runs only. */
  lemma ProgressFrame(inst: Instance, inst': Instance, steps: seq<StepDefinition>, p: nat)
    requires Progress(inst, steps, p) && inst'.stepRuns == inst.stepRuns && inst'.input == inst.input
    ensures Progress(inst', steps, p)
  {
    forall k | 0 <= k < |steps| ensures StepOk(inst', steps, p, k) {
      assert StepOk(inst, steps, p, k);
    }
  }

  /** Rehydrating from the succeeded rows gives back the fold. */
  lemma {:induction false} RehydratedIsFold(runs: seq<StepRun>, steps: seq<StepDefinition>, input: Context, p: nat)
    requires p <= |steps| && Successes(runs, steps, input, p)
    ensures Rehydrated(input, runs) == Fold(steps, input, p)
  {
    if p > 0 {
      var before := runs[..p - 1];
      forall k | 0 <= k < p - 1 ensures SuccessOf(before[k], steps, input, k) {
        assert SuccessOf(runs[k], steps, input, k);
      }
      RehydratedIsFold(before, steps, input, p - 1);
      assert SuccessOf(runs[p - 1], steps, input, p - 1);
    }
  }

  lemma IndexOfKey(steps: seq<StepDefinition>, k: nat)
    requires DistinctKeys(steps) && k < |steps|
    ensures StepIndex(steps, steps[k].key) == k
  {
  }

  lemma RunToGateUnfolds(inst: Instance, steps: seq<StepDefinition>, start: nat, accumulated: Context, fates: Fates)
    requires inst.status == RUNNING
    requires start == StartIndex(steps, inst.currentStepKey) && accumulated == Rehydrated(inst.input, SucceededRuns(inst.stepRuns))
    ensures RunToGate(inst, steps, fates) == RunFrom(inst, steps, start, accumulated, fates)
  {
  }

  /** Resuming picks up at the step after the current one, with the fold up to there as its context. */
  lemma {:induction false} ResumesAt(inst: Instance, steps: seq<StepDefinition>, i: nat, fates: Fates)
    requires DistinctKeys(steps) && i <= |steps| && inst.status == RUNNING
    requires Successes(SucceededRuns(inst.stepRuns), steps, inst.input, i)
    requires inst.currentStepKey == if i == 0 then None else Some(steps[i - 1].key)
    ensures RunToGate(inst, steps, fates) == RunFrom(inst, steps, i, Fold(steps, inst.input, i), fates)
  {
    if i > 0 { IndexOfKey(steps, i - 1); }
    RehydratedIsFold(SucceededRuns(inst.stepRuns), steps, inst.input, i);
    RunToGateUnfolds(inst, steps, i, Fold(steps, inst.input, i), fates);
  }

  lemma ResumeReaches(inst: Instance, steps: seq<StepDefinition>, i: nat, fates: Fates)
    requires DistinctKeys(steps) && Running(inst, steps, i)
    requires inst.currentStepKey == if i == 0 then None else Some(steps[i - 1].key)
    ensures Reaches(inst, steps, i, RunToGate(inst, steps, fates))
  {
    ResumesAt(inst, steps, i, fates);
    RunFromReaches(inst, steps, i, Fold(steps, inst.input, i), fates);
  }

  /** Claiming a new or an approved instance leaves its position. */
  lemma ClaimRuns(inst: Instance, steps: seq<StepDefinition>, p: nat)
    requires Stage(inst, steps, p) && (inst.status == PENDING || inst.status == AWAITING_APPROVAL)
    ensures Running(WithStatus(inst, RUNNING), steps, p)
    ensures inst.currentStepKey == if p == 0 then None else Some(steps[p - 1].key)
  {
    TrailGrows(inst, RUNNING);
    ProgressFrame(inst, WithStatus(inst, RUNNING), steps, p);
  }

  /** The rewind puts the failed step's predecessor back, so its position is that of the failed step. */
  lemma RewindRuns(inst: Instance, steps: seq<StepDefinition>, p: nat)
    requires DistinctKeys(steps) && Stage(inst, steps, p) && inst.status == FAILED
    ensures Running(Rewound(inst, steps), steps, p) && Rewound(inst, steps).input == inst.input
    ensures Rewound(inst, steps).currentStepKey == if p == 0 then None else Some(steps[p - 1].key)
  {
    IndexOfKey(steps, p);
    TrailGrows(inst, RETRYING);
    TrailGrows(WithStatus(inst, RETRYING), RUNNING);
    ProgressFrame(inst, Rewound(inst, steps), steps, p);
  }

  lemma RejectionStops(inst: Instance, steps: seq<StepDefinition>, p: nat)
    requires Stage(inst, steps, p) && inst.status == AWAITING_APPROVAL
    ensures Stage(WithStatus(inst, CANCELLED), steps, p)
  {
    TrailGrows(inst, CANCELLED);
    ProgressFrame(inst, WithStatus(inst, CANCELLED), steps, p);
  }

  /** The event makes an executor run. */
  predicate Runs(inst: Instance, e: Event) {
    || (e.Resume? && inst.status == PENDING)
    || (e.Approve? && inst.status == AWAITING_APPROVAL)
    || (e.Retry? && inst.status == FAILED)
  }

  /** The stage after an event: no earlier than before, and a gate is passed only by an approval. */
  ghost predicate Follows(inst: Instance, e: Event, steps: seq<StepDefinition>, p: nat, t: Instance, q: nat)
    requires p <= |steps|
  {
    && p <= q && Stage(t, steps, q) && t.input == inst.input
    && Gates(steps, inst.input, q) - OpenGates(t)
       == Gates(steps, inst.input, p) - OpenGates(inst) + if e.Approve? && inst.status == AWAITING_APPROVAL then 1 else 0
  }

  lemma ExecutorFollows(inst: Instance, e: Event, steps: seq<StepDefinition>, p: nat, claimed: Instance, t: Instance)
    requires p <= |steps| && Runs(inst, e) && claimed.input == inst.input && Reaches(claimed, steps, p, t)
    ensures exists q :: Follows(inst, e, steps, p, t, q)
  {
    var q :| Reached(claimed, steps, p, t, q);
    assert Follows(inst, e, steps, p, t, q);
  }

  lemma NoExecutorFollows(inst: Instance, e: Event, steps: seq<StepDefinition>, p: nat, t: Instance, fates: Fates)
    requires Stage(inst, steps, p) && !Runs(inst, e) && t == Handle(inst, e, steps, fates)
    ensures exists q :: Follows(inst, e, steps, p, t, q)
  {
    if e.Reject? && inst.status == AWAITING_APPROVAL { RejectionStops(inst, steps, p); }
    assert Follows(inst, e, steps, p, t, p);
  }

  /** Every event leads from a stage to a stage. */
  lemma EventKeepsStage(inst: Instance, e: Event, steps: seq<StepDefinition>, p: nat, fates: Fates)
    requires DistinctKeys(steps) && Stage(inst, steps, p)
    ensures exists q :: Follows(inst, e, steps, p, Handle(inst, e, steps, fates), q)
  {
    if !Runs(inst, e) {
      NoExecutorFollows(inst, e, steps, p, Handle(inst, e, steps, fates), fates);
    } else {
      var claimed := if e.Retry? then Rewound(inst, steps) else WithStatus(inst, RUNNING);
      if e.Retry? { RewindRuns(inst, steps, p); } else { ClaimRuns(inst, steps, p); }
      HandleResumes(inst, e, steps, fates);
      ResumeReaches(claimed, steps, p, fates);
      ExecutorFollows(inst, e, steps, p, claimed, Handle(inst, e, steps, fates));
    }
  }

  lemma HandleResumes(inst: Instance, e: Event, steps: seq<StepDefinition>, fates: Fates)
    requires Runs(inst, e)
    ensures Handle(inst, e, steps, fates) == RunToGate(if e.Retry? then Rewound(inst, steps) else WithStatus(inst, RUNNING), steps, fates)
  {
  }

  lemma {:induction false} ExecuteReaches(steps: seq<StepDefinition>, input: Context, fates: Fates, events: seq<Event>) returns (p: nat)
    requires DistinctKeys(steps)
    ensures var t := Execute(steps, input, fates, events);
            Stage(t, steps, p) && t.input == input && Gates(steps, input, p) == Approvals(steps, input, fates, events) + OpenGates(t)
  {
    if events == [] {
      p := 0;
      forall k | 0 <= k < |steps| ensures StepOk(Created(input), steps, 0, k) { }
    } else {
      var before := events[..|events| - 1];
      var q := ExecuteReaches(steps, input, fates, before);
      EventKeepsStage(Execute(steps, input, fates, before), events[|events| - 1], steps, q, fates);
      p :| Follows(Execute(steps, input, fates, before), events[|events| - 1], steps, q, Execute(steps, input, fates, events), p);
    }
  }

  // ---------------------------------------------------------------- the results

  /**
   * Resume equivalence: however often the run stopped at gates, retried inside a
   * step or failed and was retried, a completed instance holds exactly the fold
   * of all steps over its input.
   */
  lemma {:induction false} ResumeEquivalence(steps: seq<StepDefinition>, input: Context, fates: Fates, events: seq<Event>)
    requires DistinctKeys(steps) && Execute(steps, input, fates, events).status == COMPLETED
    ensures Execute(steps, input, fates, events).output == Some(Fold(steps, input, |steps|))
  {
    var p := ExecuteReaches(steps, input, fates, events);
  }

  /** Each step of a completed instance has succeeded exactly once, in order, with the fold's output. */
  lemma {:induction false} CompletedStepsOnce(steps: seq<StepDefinition>, input: Context, fates: Fates, events: seq<Event>)
    requires DistinctKeys(steps) && Execute(steps, input, fates, events).status == COMPLETED
    ensures Successes(SucceededRuns(Execute(steps, input, fates, events).stepRuns), steps, input, |steps|)
  {
    var p := ExecuteReaches(steps, input, fates, events);
  }

  /** A completed instance was approved once for every gate among its steps. */
  lemma {:induction false} CompletedGatesApproved(steps: seq<StepDefinition>, input: Context, fates: Fates, events: seq<Event>)
    requires DistinctKeys(steps) && Execute(steps, input, fates, events).status == COMPLETED
    ensures Approvals(steps, input, fates, events) == Gates(steps, input, |steps|)
  {
    var p := ExecuteReaches(steps, input, fates, events);
  }

  /** At every point the succeeded steps are a prefix of the definition, and each further step waits for the gates before it. */
  lemma StepsSucceedInOrder(steps: seq<StepDefinition>, input: Context, fates: Fates, events: seq<Event>) returns (p: nat)
    requires DistinctKeys(steps)
    ensures p <= |steps| && Successes(SucceededRuns(Execute(steps, input, fates, events).stepRuns), steps, input, p)
    ensures forall k :: p < k < |steps| ==> RowsOf(Execute(steps, input, fates, events).stepRuns, steps[k].key) == []
    ensures Approvals(steps, input, fates, events) <= Gates(steps, input, p) <= Approvals(steps, input, fates, events) + 1
  {
    p := ExecuteReaches(steps, input, fates, events);
    forall k | p < k < |steps| ensures RowsOf(Execute(steps, input, fates, events).stepRuns, steps[k].key) == [] {
      assert StepOk(Execute(steps, input, fates, events), steps, p, k);
    }
  }

  /** The rows of each step follow the retry pattern. */
  lemma {:induction false} StepRowPattern(steps: seq<StepDefinition>, input: Context, fates: Fates, events: seq<Event>, k: nat)
    requires DistinctKeys(steps) && k < |steps|
    ensures Accepts(RowsOf(Execute(steps, input, fates, events).stepRuns, steps[k].key), 0)
  {
    var p := ExecuteReaches(steps, input, fates, events);
    assert StepOk(Execute(steps, input, fates, events), steps, p, k);
  }

  /** The attempts of each step are numbered 1, 2, 3, ... across all calls. */
  lemma {:induction false} AttemptsNumbered(steps: seq<StepDefinition>, input: Context, fates: Fates, events: seq<Event>, k: nat)
    requires DistinctKeys(steps) && k < |steps|
    ensures Numbered(RowsOf(Execute(steps, input, fates, events).stepRuns, steps[k].key))
  {
    var p := ExecuteReaches(steps, input, fates, events);
    assert StepOk(Execute(steps, input, fates, events), steps, p, k);
  }

  lemma {:induction false} AttemptsDiffer(rows: seq<StepRun>, key: string, i: nat, j: nat)
    requires Numbered(RowsOf(rows, key)) && i < j < |rows| && rows[i].stepKey == rows[j].stepKey == key
    ensures rows[i].attempt != rows[j].attempt
  {
    var before := rows[..|rows| - 1];
    NumberedPrefix(rows, key);
    if j < |rows| - 1 {
      AttemptsDiffer(before, key, i, j);
    } else {
      LastAttemptIsCount(before, key);
      AttemptsBelowLast(before, key);
      assert before[i].stepKey == key;
    }
  }

  /** The unique key on (step, attempt) is never violated, across all calls. */
  lemma {:induction false} AttemptsNeverCollide(steps: seq<StepDefinition>, input: Context, fates: Fates, events: seq<Event>, k: nat, i: nat, j: nat)
    requires DistinctKeys(steps) && k < |steps| && i < j < |Execute(steps, input, fates, events).stepRuns|
    requires Execute(steps, input, fates, events).stepRuns[i].stepKey == steps[k].key
    requires Execute(steps, input, fates, events).stepRuns[j].stepKey == steps[k].key
    ensures Execute(steps, input, fates, events).stepRuns[i].attempt != Execute(steps, input, fates, events).stepRuns[j].attempt
  {
    AttemptsNumbered(steps, input, fates, events, k);
    AttemptsDiffer(Execute(steps, input, fates, events).stepRuns, steps[k].key, i, j);
  }

  /** Every status ever written follows the transition table. */
  lemma {:induction false} TransitionsAreLegal(steps: seq<StepDefinition>, input: Context, fates: Fates, events: seq<Event>)
    requires DistinctKeys(steps)
    ensures LegalTrail(Execute(steps, input, fates, events).trail)
  {
    var p := ExecuteReaches(steps, input, fates, events);
  }

  /** Steps are registered in their order, so creation order is a valid answer to "succeeded rows by step order". */
  lemma PriorRunsAreOrdered(steps: seq<StepDefinition>, input: Context, fates: Fates, events: seq<Event>)
    requires DistinctKeys(steps) && forall i, j :: 0 <= i < j < |steps| ==> steps[i].order <= steps[j].order
    ensures var runs := SucceededRuns(Execute(steps, input, fates, events).stepRuns);
            forall i, j :: 0 <= i < j < |runs| ==> runs[i].stepOrder <= runs[j].stepOrder
  {
    var p := ExecuteReaches(steps, input, fates, events);
    var runs := SucceededRuns(Execute(steps, input, fates, events).stepRuns);
    forall i, j | 0 <= i < j < |runs| ensures runs[i].stepOrder <= runs[j].stepOrder {
      assert SuccessOf(runs[i], steps, input, i) && SuccessOf(runs[j], steps, input, j);
    }
  }

  lemma {:induction false} TrailExtends(inst: Instance, steps: seq<StepDefinition>, i: nat, accumulated: Context, fates: Fates)
    ensures inst.trail <= RunFrom(inst, steps, i, accumulated, fates).trail
    decreases |steps| - i
  {
    if i < |steps| {
      var after := AfterRound(inst, steps, i, accumulated, fates);
      RunFromStep(inst, steps, i, accumulated, Round(inst.stepRuns, steps[i], accumulated, fates), after, fates);
      TrailExtends(after, steps, i + 1, accumulated[steps[i].key := steps[i].handler(accumulated).output], fates);
    }
  }

  lemma {:induction false} ExecuteNext(steps: seq<StepDefinition>, input: Context, fates: Fates, events: seq<Event>, e: Event)
    ensures Execute(steps, input, fates, events + [e]) == Handle(Execute(steps, input, fates, events), e, steps, fates)
  {
    assert (events + [e])[..|events + [e]| - 1] == events;
  }

  lemma {:induction false} RetryExtendsTrail(inst: Instance, steps: seq<StepDefinition>, fates: Fates)
    requires inst.status == FAILED
    ensures inst.trail + [RETRYING, RUNNING] <= Handle(inst, Retry, steps, fates).trail
  {
    var claimed := Rewound(inst, steps);
    assert claimed.trail == inst.trail + [RETRYING, RUNNING];
    TrailExtends(claimed, steps, StartIndex(steps, claimed.currentStepKey), Rehydrated(claimed.input, SucceededRuns(claimed.stepRuns)), fates);
  }

  /** Contrary to the comment on the transition table, RETRYING is reached: by every retry of a failed instance. */
  lemma {:induction false} RetryPassesThroughRetrying(steps: seq<StepDefinition>, input: Context, fates: Fates, events: seq<Event>)
    requires Execute(steps, input, fates, events).status == FAILED
    ensures Execute(steps, input, fates, events).trail + [RETRYING, RUNNING] <= Execute(steps, input, fates, events + [Retry]).trail
  {
    ExecuteNext(steps, input, fates, events, Retry);
    RetryExtendsTrail(Execute(steps, input, fates, events), steps, fates);
  }
}
