/** The resumable step interpreter: ordered steps, bounded retries, approval gates and rewind on retry. */
module WorkflowEngine {
  import opened Common

  type Json = string

  /** The accumulated context: the input merged with the outputs of finished steps, by step key. */
  type Context = map<string, Json>

  datatype InstanceStatus = PENDING | RUNNING | AWAITING_APPROVAL | FAILED | RETRYING | COMPLETED | CANCELLED

  datatype StepStatus = Attempting | Retried | Failed | Succeeded

  datatype StepResult = StepResult(output: Json, requiresApproval: bool)

  datatype StepDefinition = StepDefinition(key: string, order: int, handler: Context -> StepResult)

  datatype StepRun = StepRun(stepKey: string, stepOrder: int, status: StepStatus, attempt: nat, input: Context, output: Option<Json>)

  /** What one execution of a handler does; its output, if any, is the handler's function of the context. */
  datatype Fate = Returns | ThrowsTransient | ThrowsPermanent

  /** The fate of each attempt, by step key and attempt number. */
  type Fates = (string, nat) -> Fate

  /** The stored row with its step runs; `trail` is auxiliary: every status written so far. */
  datatype Instance = Instance(
    status: InstanceStatus,
    currentStepKey: Option<string>,
    input: Context,
    output: Option<Context>,
    stepRuns: seq<StepRun>,
    trail: seq<InstanceStatus>
  )

  const MAX_STEP_ATTEMPTS := 3

  function ValidTransitions(from: InstanceStatus): set<InstanceStatus> {
    match from
    case PENDING => {RUNNING, CANCELLED}
    case RUNNING => {RUNNING, AWAITING_APPROVAL, COMPLETED, FAILED}
    case AWAITING_APPROVAL => {RUNNING, CANCELLED}
    case FAILED => {RETRYING, CANCELLED}
    case RETRYING => {RUNNING, FAILED}
    case COMPLETED => {}
    case CANCELLED => {}
  }

  /** The status changes an instance may make, one by one. */
  lemma ValidTransitionsListed(from: InstanceStatus, to: InstanceStatus)
    ensures to in ValidTransitions(from) <==>
            || (from == PENDING && (to == RUNNING || to == CANCELLED))
            || (from == RUNNING && (to == RUNNING || to == AWAITING_APPROVAL || to == COMPLETED || to == FAILED))
            || (from == AWAITING_APPROVAL && (to == RUNNING || to == CANCELLED))
            || (from == FAILED && (to == RETRYING || to == CANCELLED))
            || (from == RETRYING && (to == RUNNING || to == FAILED))
  {
  }

  // ---------------------------------------------------------------- reading the stored rows

  function RowsOf(rows: seq<StepRun>, key: string): seq<StepRun> {
    if rows == [] then []
    else
      var last := rows[|rows| - 1];
      RowsOf(rows[..|rows| - 1], key) + if last.stepKey == key then [last] else []
  }

  function SucceededRuns(rows: seq<StepRun>): seq<StepRun> {
    if rows == [] then []
    else
      var last := rows[|rows| - 1];
      SucceededRuns(rows[..|rows| - 1]) + if last.status == Succeeded then [last] else []
  }

  function LastAttempt(rows: seq<StepRun>, key: string): nat {
    if rows == [] then 0
    else
      var last := rows[|rows| - 1];
      var before := LastAttempt(rows[..|rows| - 1], key);
      if last.stepKey == key && last.attempt > before then last.attempt else before
  }

  function Rehydrated(input: Context, runs: seq<StepRun>): Context {
    if runs == [] then input
    else
      var last := runs[|runs| - 1];
      Rehydrated(input, runs[..|runs| - 1])[last.stepKey := if last.output.Some? then last.output.value else ""]
  }

  /** `findIndex`: the first step with the key, or -1. */
  function StepIndex(steps: seq<StepDefinition>, key: string): (i: int)
    ensures -1 <= i < |steps|
    ensures i >= 0 ==> steps[i].key == key && forall j :: 0 <= j < i ==> steps[j].key != key
    ensures i == -1 ==> forall j :: 0 <= j < |steps| ==> steps[j].key != key
  {
    if steps == [] then -1
    else if steps[0].key == key then 0
    else
      var rest := StepIndex(steps[1..], key);
      if rest == -1 then -1 else rest + 1
  }

  /** The truthiness test on the stored key: null and the empty string both count as no step yet. */
  predicate KeySet(key: Option<string>) {
    key.Some? && key.value != ""
  }

  function StartIndex(steps: seq<StepDefinition>, currentStepKey: Option<string>): (i: nat)
    ensures i <= |steps|
  {
    if KeySet(currentStepKey) then StepIndex(steps, currentStepKey.value) + 1 else 0
  }

  /** The key to resume after when the step at `currentStepKey` failed. */
  function RewindKey(steps: seq<StepDefinition>, currentStepKey: Option<string>): Option<string> {
    var failed := if KeySet(currentStepKey) then StepIndex(steps, currentStepKey.value) else -1;
    if failed > 0 then Some(steps[failed - 1].key) else None
  }

  // ---------------------------------------------------------------- the interpreter as functions of the stored row

  /** The row an attempt ends with; a transient error is retried unless this was the last attempt of the call. */
  function AttemptRow(step: StepDefinition, accumulated: Context, attempt: nat, local: nat, fates: Fates): StepRun {
    match fates(step.key, attempt)
    case Returns => StepRun(step.key, step.order, Succeeded, attempt, accumulated, Some(step.handler(accumulated).output))
    case ThrowsTransient =>
      StepRun(step.key, step.order, if local < MAX_STEP_ATTEMPTS then Retried else Failed, attempt, accumulated, None)
    case ThrowsPermanent => StepRun(step.key, step.order, Failed, attempt, accumulated, None)
  }

  /** The rows one call of the retry loop leaves behind, from local attempt `local` on. */
  function AttemptRows(step: StepDefinition, accumulated: Context, start: nat, local: nat, fates: Fates): (rows: seq<StepRun>)
    requires 1 <= local <= MAX_STEP_ATTEMPTS
    ensures rows != []
    decreases MAX_STEP_ATTEMPTS - local
  {
    var row := AttemptRow(step, accumulated, start + local - 1, local, fates);
    if row.status == Retried then [row] + AttemptRows(step, accumulated, start, local + 1, fates) else [row]
  }

  /** Row `k` of a call is its attempt `first + k`, and exactly the last one is not to be retried. */
  predicate AttemptAt(rows: seq<StepRun>, step: StepDefinition, accumulated: Context, start: nat, first: nat, k: nat, fates: Fates)
    requires k < |rows| && first >= 1
  {
    && first + k <= MAX_STEP_ATTEMPTS && rows[k] == AttemptRow(step, accumulated, start + first + k - 1, first + k, fates)
    && (rows[k].status == Retried <==> k + 1 < |rows|)
  }

  ghost predicate AttemptsInTurn(rows: seq<StepRun>, step: StepDefinition, accumulated: Context, start: nat, first: nat, fates: Fates)
    requires first >= 1
  {
    rows != [] && forall k :: 0 <= k < |rows| ==> AttemptAt(rows, step, accumulated, start, first, k, fates)
  }

  lemma {:induction false} AttemptRowsInTurn(step: StepDefinition, accumulated: Context, start: nat, first: nat, fates: Fates)
    requires 1 <= first <= MAX_STEP_ATTEMPTS
    ensures AttemptsInTurn(AttemptRows(step, accumulated, start, first, fates), step, accumulated, start, first, fates)
    decreases MAX_STEP_ATTEMPTS - first
  {
    var row, rows := AttemptRow(step, accumulated, start + first - 1, first, fates), AttemptRows(step, accumulated, start, first, fates);
    if row.status == Retried {
      var rest := AttemptRows(step, accumulated, start, first + 1, fates);
      AttemptRowsInTurn(step, accumulated, start, first + 1, fates);
      forall k | 0 <= k < |rows| ensures AttemptAt(rows, step, accumulated, start, first, k, fates) {
        if k > 0 { assert AttemptAt(rest, step, accumulated, start, first + 1, k - 1, fates); }
      }
    }
  }

  function Round(rows: seq<StepRun>, step: StepDefinition, accumulated: Context, fates: Fates): seq<StepRun> {
    AttemptRows(step, accumulated, LastAttempt(rows, step.key) + 1, 1, fates)
  }

  predicate AttemptsBelow(rows: seq<StepRun>, key: string, bound: int) {
    forall i :: 0 <= i < |rows| && rows[i].stepKey == key ==> rows[i].attempt < bound
  }

  /** The unique key (step, attempt) is not taken. */
  predicate AttemptFree(rows: seq<StepRun>, key: string, attempt: int) {
    forall i :: 0 <= i < |rows| && rows[i].stepKey == key ==> rows[i].attempt != attempt
  }

  predicate RoundSucceeds(round: seq<StepRun>) {
    round != [] && round[|round| - 1].status == Succeeded
  }

  function WithStatus(inst: Instance, status: InstanceStatus): Instance {
    inst.(status := status, trail := inst.trail + [status])
  }

  function RunFrom(inst: Instance, steps: seq<StepDefinition>, i: nat, accumulated: Context, fates: Fates): Instance
    decreases |steps| - i
  {
    if i >= |steps| then WithStatus(inst, COMPLETED).(output := Some(accumulated))
    else
      var round := Round(inst.stepRuns, steps[i], accumulated, fates);
      var after := inst.(stepRuns := inst.stepRuns + round, currentStepKey := Some(steps[i].key));
      var result := steps[i].handler(accumulated);
      if !RoundSucceeds(round) then WithStatus(after, FAILED)
      else if result.requiresApproval then WithStatus(after, AWAITING_APPROVAL)
      else RunFrom(after, steps, i + 1, accumulated[steps[i].key := result.output], fates)
  }

  lemma RunFromStep(inst: Instance, steps: seq<StepDefinition>, i: nat, accumulated: Context, round: seq<StepRun>, after: Instance, fates: Fates)
    requires i < |steps| && round == Round(inst.stepRuns, steps[i], accumulated, fates)
    requires after == inst.(stepRuns := inst.stepRuns + round, currentStepKey := Some(steps[i].key))
    ensures RunFrom(inst, steps, i, accumulated, fates)
         == (if !RoundSucceeds(round) then WithStatus(after, FAILED)
             else if steps[i].handler(accumulated).requiresApproval then WithStatus(after, AWAITING_APPROVAL)
             else RunFrom(after, steps, i + 1, accumulated[steps[i].key := steps[i].handler(accumulated).output], fates))
  {
  }

  function RunToGate(inst: Instance, steps: seq<StepDefinition>, fates: Fates): Instance {
    var claimed := if inst.status == PENDING then WithStatus(inst, RUNNING) else inst;
    if claimed.status != RUNNING then claimed
    else RunFrom(claimed, steps, StartIndex(steps, claimed.currentStepKey), Rehydrated(claimed.input, SucceededRuns(claimed.stepRuns)), fates)
  }

  function Approved(inst: Instance, steps: seq<StepDefinition>, fates: Fates): Instance {
    if inst.status == AWAITING_APPROVAL then RunToGate(WithStatus(inst, RUNNING), steps, fates) else inst
  }

  function Rejected(inst: Instance): Instance {
    if inst.status == AWAITING_APPROVAL then WithStatus(inst, CANCELLED) else inst
  }

  function Rewound(inst: Instance, steps: seq<StepDefinition>): Instance {
    WithStatus(WithStatus(inst, RETRYING).(currentStepKey := RewindKey(steps, inst.currentStepKey)), RUNNING)
  }

  function RetriedInstance(inst: Instance, steps: seq<StepDefinition>, fates: Fates): Instance {
    if inst.status == FAILED then RunToGate(Rewound(inst, steps), steps, fates) else inst
  }

  function Created(input: Context): Instance {
    Instance(PENDING, None, input, None, [], [PENDING])
  }

  // ---------------------------------------------------------------- what the rows of one call tell

  /** How the row of an attempt reads, from what the handler did and the attempt's place in its call. */
  predicate TellsFate(status: StepStatus, fate: Fate, place: nat) {
    && (status == Succeeded <==> fate == Returns)
    && (status == Retried <==> fate == ThrowsTransient && place < 3)
    && (status == Failed <==> fate == ThrowsPermanent || (fate == ThrowsTransient && place >= 3))
  }

  predicate RowTells(row: StepRun, step: StepDefinition, accumulated: Context, attempt: nat, place: nat, fates: Fates) {
    && row.stepKey == step.key && row.stepOrder == step.order && row.attempt == attempt && row.input == accumulated
    && TellsFate(row.status, fates(step.key, attempt), place)
    && row.output == if row.status == Succeeded then Some(step.handler(accumulated).output) else None
  }

  predicate CallRow(rows: seq<StepRun>, k: nat, step: StepDefinition, accumulated: Context, start: nat, fates: Fates)
    requires k < |rows|
  {
    RowTells(rows[k], step, accumulated, start + k, k + 1, fates) && (rows[k].status == Retried <==> k + 1 < |rows|)
  }

  /** The rows of one call: up to three attempts, each told by its fate, and another one after a retried row only. */
  ghost predicate CallRows(rows: seq<StepRun>, step: StepDefinition, accumulated: Context, start: nat, fates: Fates) {
    1 <= |rows| <= 3 && forall k :: 0 <= k < |rows| ==> CallRow(rows, k, step, accumulated, start, fates)
  }

  /** Attempts go on from the highest so far, or start with 1. */
  ghost predicate GoesOnFrom(rows: seq<StepRun>, key: string, start: nat) {
    && (forall i :: 0 <= i < |rows| && rows[i].stepKey == key ==> rows[i].attempt < start)
    && (start == 1 || exists i :: 0 <= i < |rows| && rows[i].stepKey == key && rows[i].attempt == start - 1)
  }

  lemma {:induction false} LastAttemptGoesOn(rows: seq<StepRun>, key: string)
    ensures GoesOnFrom(rows, key, LastAttempt(rows, key) + 1)
  {
    if rows != [] {
      var init := rows[..|rows| - 1];
      LastAttemptGoesOn(init, key);
      SplitLast(rows);
      var start := LastAttempt(init, key) + 1;
      if start != 1 {
        var i :| 0 <= i < |init| && init[i].stepKey == key && init[i].attempt == start - 1;
        assert rows[i] == init[i];
      }
    }
  }

  lemma {:induction false} RoundIsCall(rows: seq<StepRun>, step: StepDefinition, accumulated: Context, fates: Fates)
    ensures CallRows(Round(rows, step, accumulated, fates), step, accumulated, LastAttempt(rows, step.key) + 1, fates)
  {
    var start, round := LastAttempt(rows, step.key) + 1, Round(rows, step, accumulated, fates);
    AttemptRowsInTurn(step, accumulated, start, 1, fates);
    assert AttemptAt(round, step, accumulated, start, 1, |round| - 1, fates);
    forall k | 0 <= k < |round| ensures CallRow(round, k, step, accumulated, start, fates) {
      assert AttemptAt(round, step, accumulated, start, 1, k, fates);
    }
  }

  /** One call adds its rows to the earlier ones and returns the handler's result exactly when the last of them succeeded. */
  ghost predicate RunsOneCall(before: seq<StepRun>, after: seq<StepRun>, step: StepDefinition, accumulated: Context, result: Option<StepResult>, fates: Fates) {
    exists start: nat, rows: seq<StepRun> ::
      && after == before + rows && GoesOnFrom(before, step.key, start) && CallRows(rows, step, accumulated, start, fates)
      && result == if rows[|rows| - 1].status == Succeeded then Some(step.handler(accumulated)) else None
  }

  lemma RoundRunsOneCall(before: seq<StepRun>, step: StepDefinition, accumulated: Context, fates: Fates)
    ensures var round := Round(before, step, accumulated, fates);
            RunsOneCall(before, before + round, step, accumulated, if RoundSucceeds(round) then Some(step.handler(accumulated)) else None, fates)
  {
    RoundIsCall(before, step, accumulated, fates);
    LastAttemptGoesOn(before, step.key);
  }

  // ---------------------------------------------------------------- the engine

  class WorkflowInstance {
    const steps: seq<StepDefinition>
    const fates: Fates
    const input: Context
    var status: InstanceStatus
    var currentStepKey: Option<string>
    var output: Option<Context>
    var stepRuns: seq<StepRun>
    var trail: seq<InstanceStatus>

    function Row(): Instance
      reads this
    {
      Instance(status, currentStepKey, input, output, stepRuns, trail)
    }

    constructor (steps: seq<StepDefinition>, input: Context, fates: Fates)
      ensures this.steps == steps && this.fates == fates && Row() == Created(input)
    {
      this.steps, this.input, this.fates := steps, input, fates;
      status, currentStepKey, output, stepRuns, trail := PENDING, None, None, [], [PENDING];
    }

    method SetStatus(to: InstanceStatus)
      requires status == to || to in ValidTransitions(status)
      modifies this`status, this`trail
      ensures Row() == WithStatus(old(Row()), to)
    {
      status, trail := to, trail + [to];
    }

    method MaxAttempt(key: string) returns (highest: nat)
      ensures highest == LastAttempt(stepRuns, key)
    {
      highest := 0;
      for i := 0 to |stepRuns|
        invariant highest == LastAttempt(stepRuns[..i], key)
      {
        assert stepRuns[..i + 1][..i] == stepRuns[..i];
        if stepRuns[i].stepKey == key && stepRuns[i].attempt > highest { highest := stepRuns[i].attempt; }
      }
      assert stepRuns[..|stepRuns|] == stepRuns;
    }

    /** Insert under the unique key (step, attempt); the proof that it is free is the caller's. */
    method CreateStepRun(step: StepDefinition, attempt: nat, accumulated: Context)
      requires AttemptFree(stepRuns, step.key, attempt)
      modifies this`stepRuns
      ensures stepRuns == old(stepRuns) + [StepRun(step.key, step.order, Attempting, attempt, accumulated, None)]
    {
      stepRuns := stepRuns + [StepRun(step.key, step.order, Attempting, attempt, accumulated, None)];
    }

    method FinishStepRun(to: StepStatus, result: Option<Json>)
      requires stepRuns != []
      modifies this`stepRuns
      ensures stepRuns == old(stepRuns[..|stepRuns| - 1]) + [old(stepRuns[|stepRuns| - 1]).(status := to, output := result)]
    {
      var last := stepRuns[|stepRuns| - 1];
      stepRuns := stepRuns[..|stepRuns| - 1] + [last.(status := to, output := result)];
    }

    /** One attempt: insert the running row, call the handler, record how it ended. */
    method AttemptStep(step: StepDefinition, accumulated: Context, attempt: nat, local: nat) returns (status: StepStatus)
      requires AttemptFree(stepRuns, step.key, attempt)
      modifies this`stepRuns
      ensures |stepRuns| == |old(stepRuns)| + 1 && stepRuns[..|old(stepRuns)|] == old(stepRuns)
      ensures RowTells(stepRuns[|old(stepRuns)|], step, accumulated, attempt, local, fates) && status == stepRuns[|old(stepRuns)|].status
      ensures stepRuns == old(stepRuns) + [AttemptRow(step, accumulated, attempt, local, fates)]
    {
      CreateStepRun(step, attempt, accumulated);
      match fates(step.key, attempt) {
        case Returns => status := Succeeded;
        case ThrowsTransient => status := if local < MAX_STEP_ATTEMPTS then Retried else Failed;
        case ThrowsPermanent => status := Failed;
      }
      FinishStepRun(status, if status == Succeeded then Some(step.handler(accumulated).output) else None);
    }

    /** Attempts until one succeeds, fails for good or is the last; `rows` is what they leave behind. */
    method AttemptUntilSettled(step: StepDefinition, accumulated: Context, start: nat, ghost rows: seq<StepRun>) returns (succeeded: bool)
      requires AttemptsBelow(stepRuns, step.key, start) && AttemptsInTurn(rows, step, accumulated, start, 1, fates)
      modifies this`stepRuns
      ensures stepRuns == old(stepRuns) + rows && (succeeded <==> RoundSucceeds(rows))
    {
      var local, status := 1, Retried;
      while status == Retried
        invariant 1 <= local <= 1 + |rows| && (status == Retried <==> local < 1 + |rows|)
        invariant AttemptsBelow(stepRuns, step.key, start + local - 1)
        invariant stepRuns == old(stepRuns) + rows[..local - 1]
        invariant status != Retried ==> status == rows[|rows| - 1].status
        decreases 1 + |rows| - local
      {
        assert AttemptAt(rows, step, accumulated, start, 1, local - 1, fates);
        TakeNext(rows, local - 1);
        status := AttemptStep(step, accumulated, start + local - 1, local);
        local := local + 1;
      }
      succeeded := status == Succeeded;
    }

    /** Up to three attempts, numbered on from the step's earlier ones; nothing when the step failed. */
    method RunStepWithRetry(step: StepDefinition, accumulated: Context) returns (result: Option<StepResult>)
      modifies this`stepRuns
      ensures RunsOneCall(old(stepRuns), stepRuns, step, accumulated, result, fates)
      ensures stepRuns == old(stepRuns) + Round(old(stepRuns), step, accumulated, fates)
      ensures result == if RoundSucceeds(Round(old(stepRuns), step, accumulated, fates)) then Some(step.handler(accumulated)) else None
    {
      RoundRunsOneCall(stepRuns, step, accumulated, fates);
      var succeeded := AttemptAll(step, accumulated);
      result := if succeeded then Some(step.handler(accumulated)) else None;
    }

    method AttemptAll(step: StepDefinition, accumulated: Context) returns (succeeded: bool)
      modifies this`stepRuns
      ensures stepRuns == old(stepRuns) + Round(old(stepRuns), step, accumulated, fates)
      ensures succeeded <==> RoundSucceeds(Round(old(stepRuns), step, accumulated, fates))
    {
      var highest := MaxAttempt(step.key);
      AttemptsBelowLast(stepRuns, step.key);
      AttemptRowsInTurn(step, accumulated, highest + 1, 1, fates);
      succeeded := AttemptUntilSettled(step, accumulated, highest + 1, Round(stepRuns, step, accumulated, fates));
    }

    /** Runs steps from the current position until the instance completes, fails or reaches a gate. */
    method RunToNextGate()
      modifies this
      ensures Row() == RunToGate(old(Row()), steps, fates)
    {
      if status == PENDING {
        SetStatus(RUNNING);
      }
      if status != RUNNING {
        return;
      }
      var accumulated := Rehydrate();
      var start := StartIndex(steps, currentStepKey);
      ghost var target := RunFrom(Row(), steps, start, accumulated, fates);
      for i := start to |steps|
        invariant status == RUNNING && RunFrom(Row(), steps, i, accumulated, fates) == target
      {
        ghost var row, round := Row(), Round(stepRuns, steps[i], accumulated, fates);
        var result := RunStepWithRetry(steps[i], accumulated);
        currentStepKey := Some(steps[i].key);
        RunFromStep(row, steps, i, accumulated, round, Row(), fates);
        if result.None? {
          SetStatus(FAILED);
          return;
        }
        accumulated := accumulated[steps[i].key := result.value.output];
        if result.value.requiresApproval {
          SetStatus(AWAITING_APPROVAL);
          return;
        }
      }
      SetStatus(COMPLETED);
      output := Some(accumulated);
    }

    method Rehydrate() returns (accumulated: Context)
      ensures accumulated == Rehydrated(input, SucceededRuns(stepRuns))
    {
      accumulated := input;
      var runs := SucceededRuns(stepRuns);
      for i := 0 to |runs|
        invariant accumulated == Rehydrated(input, runs[..i])
      {
        assert runs[..i + 1][..i] == runs[..i];
        accumulated := accumulated[runs[i].stepKey := if runs[i].output.Some? then runs[i].output.value else ""];
      }
      assert runs[..|runs|] == runs;
    }

    method ApproveInstance() returns (ok: bool)
      modifies this
      ensures Row() == Approved(old(Row()), steps, fates) && (ok <==> old(status) == AWAITING_APPROVAL)
    {
      if status != AWAITING_APPROVAL { return false; }
      SetStatus(RUNNING);
      RunToNextGate();
      ok := true;
    }

    method RejectInstance() returns (ok: bool)
      modifies this
      ensures Row() == Rejected(old(Row())) && (ok <==> old(status) == AWAITING_APPROVAL)
    {
      if status != AWAITING_APPROVAL { return false; }
      SetStatus(CANCELLED);
      ok := true;
    }

    /** Rewinds to the step before the failed one, so that resuming lands on the failed step again. */
    method RetryInstance() returns (ok: bool)
      modifies this
      ensures Row() == RetriedInstance(old(Row()), steps, fates) && (ok <==> old(status) == FAILED)
    {
      if status != FAILED { return false; }
      var rewindTo := RewindKey(steps, currentStepKey);
      SetStatus(RETRYING);
      currentStepKey := rewindTo;
      SetStatus(RUNNING);
      RunToNextGate();
      ok := true;
    }
  }

  lemma {:induction false} AttemptsBelowLast(rows: seq<StepRun>, key: string)
    ensures AttemptsBelow(rows, key, LastAttempt(rows, key) + 1)
  {
    if rows != [] {
      AttemptsBelowLast(rows[..|rows| - 1], key);
      SplitLast(rows);
    }
  }
}
