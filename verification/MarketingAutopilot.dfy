/**
 * The marketing workflow's AI steps: pre-check, provider call, validation, charge,
 * usage alerts, in that order; and what a whole run is charged.
 */
module MarketingAutopilot {
  import opened Common
  import opened WorkflowEngine
  import opened WorkflowTheorems
  import L = CreditLedger

  /** `CREDIT_COSTS`, by step key; the other steps are free. */
  function CreditCost(key: string): nat {
    if key == "build_strategy" then 5
    else if key == "generate_pillars" then 5
    else if key == "generate_calendar" then 10
    else 0
  }

  predicate IsAiStep(key: string) {
    key == "build_strategy" || key == "generate_pillars" || key == "generate_calendar"
  }

  function MarketingSteps(h: seq<Context -> StepResult>): seq<StepDefinition>
    requires |h| == 7
  {
    [StepDefinition("validate_context", 1, h[0]), StepDefinition("build_strategy", 2, h[1]), StepDefinition("generate_pillars", 3, h[2]),
     StepDefinition("generate_calendar", 4, h[3]), StepDefinition("validate_output", 5, h[4]), StepDefinition("persist_assets", 6, h[5]),
     StepDefinition("await_approval", 7, h[6])]
  }

  // ---------------------------------------------------------------- one execution of an AI step

  datatype Call = Works | FailsTransiently | FailsForGood

  /**
   * How each stage of one execution turns out. `alerts` is everything that can still
   * fail once the charge is committed: the usage alerts and the write that would
   * mark the step's row as succeeded.
   */
  datatype Attempt = Attempt(precheck: bool, provider: Call, valid: bool, charge: bool, alerts: Call)

  predicate Charged(a: Attempt) {
    a.precheck && a.provider == Works && a.valid && a.charge
  }

  /** Missing credits and invalid output are permanent errors; an error of the provider or after the charge is what it is. */
  function FateOf(a: Attempt): Fate {
    if !a.precheck then ThrowsPermanent
    else if a.provider == FailsTransiently then ThrowsTransient
    else if a.provider == FailsForGood || !a.valid || !a.charge then ThrowsPermanent
    else match a.alerts
      case Works => Returns
      case FailsTransiently => ThrowsTransient
      case FailsForGood => ThrowsPermanent
  }

  /** The ledger after an execution during whose provider call the `rivals` ran. */
  function LedgerAfter(journal: L.Journal, rivals: seq<L.Operation>, cost: nat, tracked: bool, a: Attempt): L.Journal {
    if !a.precheck then journal
    else if a.provider == Works && a.valid then L.Apply(L.ApplyAll(journal, rivals), L.Charge(cost, tracked))
    else L.ApplyAll(journal, rivals)
  }

  method RunRivals(ledger: L.Ledger, rivals: seq<L.Operation>)
    requires ledger.Valid()
    modifies ledger
    ensures ledger.Valid() && ledger.journal == L.ApplyAll(old(ledger.journal), rivals)
  {
    for i := 0 to |rivals|
      invariant ledger.Valid() && ledger.journal == L.ApplyAll(old(ledger.journal), rivals[..i])
    {
      assert rivals[..i + 1][..i] == rivals[..i];
      match rivals[i] {
        case Grant(creditType, amount) => var _ := ledger.GrantCredits(amount, creditType);
        case Charge(creditsConsumed, tracked) => var _ := ledger.RecordUsage(creditsConsumed, tracked);
      }
    }
    assert rivals[..|rivals|] == rivals;
  }

  /** Steps 02 to 04: no charge before a valid provider result, and none without the credits for it. */
  method RunAiStep(ledger: L.Ledger, cost: nat, rivals: seq<L.Operation>, provider: Call, valid: bool, tracked: bool, alerts: Call)
    returns (fate: Fate, ghost a: Attempt)
    requires ledger.Valid()
    modifies ledger
    ensures ledger.Valid()
    ensures a == Attempt(L.Balance(old(ledger.journal)) >= cost, provider, valid, L.Balance(L.ApplyAll(old(ledger.journal), rivals)) >= cost, alerts)
    ensures fate == Returns <==> a.precheck && provider == Works && valid && a.charge && alerts == Works
    ensures fate == ThrowsTransient <==>
              a.precheck && (provider == FailsTransiently || (provider == Works && valid && a.charge && alerts == FailsTransiently))
    ensures fate == FateOf(a) && ledger.journal == LedgerAfter(old(ledger.journal), rivals, cost, tracked, a)
  {
    a := Attempt(L.Balance(ledger.journal) >= cost, provider, valid, L.Balance(L.ApplyAll(ledger.journal, rivals)) >= cost, alerts);
    var enough := ledger.AssertSufficientCredits(cost);
    if !enough { return ThrowsPermanent, a; }
    RunRivals(ledger, rivals);
    if provider == FailsTransiently { return ThrowsTransient, a; }
    if provider == FailsForGood || !valid { return ThrowsPermanent, a; }
    var balanceAfter := ledger.RecordUsage(cost, tracked);
    if balanceAfter.None? { return ThrowsPermanent, a; }
    fate := if alerts == Works then Returns else if alerts == FailsTransiently then ThrowsTransient else ThrowsPermanent;
  }

  /** An execution takes its cost from the balance exactly when it got as far as the charge, and nothing otherwise. */
  lemma ChargeMovesBalance(journal: L.Journal, rivals: seq<L.Operation>, cost: nat, tracked: bool, a: Attempt)
    requires a.charge <==> L.Balance(L.ApplyAll(journal, rivals)) >= cost
    ensures var met := L.Balance(L.ApplyAll(journal, rivals));
            a.precheck ==> L.Balance(LedgerAfter(journal, rivals, cost, tracked, a)) == met - if Charged(a) then cost else 0
    ensures !a.precheck ==> LedgerAfter(journal, rivals, cost, tracked, a) == journal
    ensures FateOf(a) == Returns ==> Charged(a)
    ensures Charged(a) ==> FateOf(a) == Returns || a.alerts != Works
  {
    if a.precheck && a.provider == Works && a.valid { L.ChargeEffect(L.ApplyAll(journal, rivals), cost, tracked); }
  }

  /** An execution with a valid provider result adds one usage row, of its cost or of a blocked charge, and any other adds none. */
  lemma ExecutionWritesUsage(journal: L.Journal, rivals: seq<L.Operation>, cost: nat, tracked: bool, a: Attempt)
    requires a.precheck
    ensures var met, after := L.ApplyAll(journal, rivals), LedgerAfter(journal, rivals, cost, tracked, a);
            && L.CreditsOf(after) == L.CreditsOf(met)
            && L.UsagesOf(after) == L.UsagesOf(met)
                 + if a.provider == Works && a.valid
                   then [if L.Balance(met) >= cost then L.Usage(L.SUCCEEDED, cost) else L.Usage(L.BLOCKED_BY_CREDIT_LIMIT, 0)]
                   else []
  {
    var met := L.ApplyAll(journal, rivals);
    L.BalanceStep(met, L.EntryOf(met, L.Charge(cost, tracked)));
  }

  // ---------------------------------------------------------------- a whole run

  type Attempts = (string, nat) -> Attempt

  /** The AI steps' fates are those of their executions. */
  ghost predicate Governs(attempts: Attempts, fates: Fates) {
    forall key: string, n: nat :: IsAiStep(key) ==> fates(key, n) == FateOf(attempts(key, n))
  }

  function ChargeOf(row: StepRun, attempts: Attempts): nat {
    if Charged(attempts(row.stepKey, row.attempt)) then CreditCost(row.stepKey) else 0
  }

  function TotalCharged(rows: seq<StepRun>, attempts: Attempts): nat {
    if rows == [] then 0 else TotalCharged(rows[..|rows| - 1], attempts) + ChargeOf(rows[|rows| - 1], attempts)
  }

  /** Charges of executions that failed afterwards. */
  function LostCharges(rows: seq<StepRun>, attempts: Attempts): nat {
    if rows == [] then 0
    else
      var last := rows[|rows| - 1];
      LostCharges(rows[..|rows| - 1], attempts) + if last.status == Succeeded then 0 else ChargeOf(last, attempts)
  }

  /** A succeeded row's execution returned. */
  predicate Honest(rows: seq<StepRun>, fates: Fates) {
    forall i :: 0 <= i < |rows| && rows[i].status == Succeeded ==> fates(rows[i].stepKey, rows[i].attempt) == Returns
  }

  lemma AttemptHonest(step: StepDefinition, accumulated: Context, attempt: nat, local: nat, fates: Fates)
    ensures Honest([AttemptRow(step, accumulated, attempt, local, fates)], fates)
  {
  }

  lemma HonestConcat(a: seq<StepRun>, b: seq<StepRun>, fates: Fates)
    requires Honest(a, fates) && Honest(b, fates)
    ensures Honest(a + b, fates)
  {
  }

  lemma {:induction false} RoundHonest(step: StepDefinition, accumulated: Context, start: nat, local: nat, fates: Fates)
    requires 1 <= local <= MAX_STEP_ATTEMPTS
    ensures Honest(AttemptRows(step, accumulated, start, local, fates), fates)
    decreases MAX_STEP_ATTEMPTS - local
  {
    var row := AttemptRow(step, accumulated, start + local - 1, local, fates);
    AttemptHonest(step, accumulated, start + local - 1, local, fates);
    if row.status == Retried {
      RoundHonest(step, accumulated, start, local + 1, fates);
      HonestConcat([row], AttemptRows(step, accumulated, start, local + 1, fates), fates);
    }
  }

  lemma {:induction false} RunHonest(inst: Instance, steps: seq<StepDefinition>, i: nat, accumulated: Context, fates: Fates)
    requires Honest(inst.stepRuns, fates)
    ensures Honest(RunFrom(inst, steps, i, accumulated, fates).stepRuns, fates)
    decreases |steps| - i
  {
    if i < |steps| {
      var after := AfterRound(inst, steps, i, accumulated, fates);
      var round := Round(inst.stepRuns, steps[i], accumulated, fates);
      RoundHonest(steps[i], accumulated, LastAttempt(inst.stepRuns, steps[i].key) + 1, 1, fates);
      assert Honest(round, fates);
      RunFromStep(inst, steps, i, accumulated, round, after, fates);
      RunHonest(after, steps, i + 1, accumulated[steps[i].key := steps[i].handler(accumulated).output], fates);
    }
  }

  lemma ResumeHonest(inst: Instance, steps: seq<StepDefinition>, fates: Fates)
    requires Honest(inst.stepRuns, fates)
    ensures Honest(RunToGate(inst, steps, fates).stepRuns, fates)
  {
    var claimed := if inst.status == PENDING then WithStatus(inst, RUNNING) else inst;
    RunHonest(claimed, steps, StartIndex(steps, claimed.currentStepKey), Rehydrated(claimed.input, SucceededRuns(claimed.stepRuns)), fates);
  }

  lemma EventHonest(inst: Instance, e: Event, steps: seq<StepDefinition>, fates: Fates)
    requires Honest(inst.stepRuns, fates)
    ensures Honest(Handle(inst, e, steps, fates).stepRuns, fates)
  {
    match e
    case Resume => ResumeHonest(inst, steps, fates);
    case Approve => ResumeHonest(WithStatus(inst, RUNNING), steps, fates);
    case Reject =>
    case Retry => ResumeHonest(Rewound(inst, steps), steps, fates);
  }

  lemma {:induction false} ExecuteHonest(steps: seq<StepDefinition>, input: Context, fates: Fates, events: seq<Event>)
    ensures Honest(Execute(steps, input, fates, events).stepRuns, fates)
  {
    if events != [] {
      ExecuteHonest(steps, input, fates, events[..|events| - 1]);
      EventHonest(Execute(steps, input, fates, events[..|events| - 1]), events[|events| - 1], steps, fates);
    }
  }

  lemma {:induction false} ChargesSplit(rows: seq<StepRun>, attempts: Attempts)
    ensures TotalCharged(rows, attempts) == LostCharges(rows, attempts) + TotalCharged(SucceededRuns(rows), attempts)
  {
    if rows != [] {
      var before, last := SucceededRuns(rows[..|rows| - 1]), rows[|rows| - 1];
      ChargesSplit(rows[..|rows| - 1], attempts);
      assert (before + [last])[..|before|] == before && before + [] == before;
    }
  }

  lemma {:induction false} SucceededHonest(rows: seq<StepRun>, fates: Fates)
    requires Honest(rows, fates)
    ensures forall i :: 0 <= i < |SucceededRuns(rows)| ==> fates(SucceededRuns(rows)[i].stepKey, SucceededRuns(rows)[i].attempt) == Returns
  {
    if rows != [] { SucceededHonest(rows[..|rows| - 1], fates); }
  }

  lemma MarketingKeysDistinct(h: seq<Context -> StepResult>)
    requires |h| == 7
    ensures DistinctKeys(MarketingSteps(h))
  {
    var steps := MarketingSteps(h);
    assert |steps[0].key| == 16 && |steps[1].key| == 14 && |steps[2].key| == 16 && |steps[3].key| == 17;
    assert |steps[4].key| == 15 && |steps[5].key| == 14 && |steps[6].key| == 14;
    assert steps[0].key[0] == 'v' && steps[2].key[0] == 'g';
    assert steps[1].key[0] == 'b' && steps[5].key[0] == 'p' && steps[6].key[0] == 'a';
  }

  /** A returned execution of each step is charged that step's cost. */
  lemma ReturnedCharge(row: StepRun, attempts: Attempts, fates: Fates)
    requires Governs(attempts, fates) && fates(row.stepKey, row.attempt) == Returns
    ensures ChargeOf(row, attempts) == CreditCost(row.stepKey)
  {
    if IsAiStep(row.stepKey) {
      assert fates(row.stepKey, row.attempt) == FateOf(attempts(row.stepKey, row.attempt));
    }
  }

  function CostUpTo(steps: seq<StepDefinition>, k: nat): nat
    requires k <= |steps|
  {
    if k == 0 then 0 else CostUpTo(steps, k - 1) + CreditCost(steps[k - 1].key)
  }

  lemma {:induction false} ReturnedCharges(runs: seq<StepRun>, steps: seq<StepDefinition>, attempts: Attempts, fates: Fates)
    requires |runs| <= |steps| && forall k :: 0 <= k < |runs| ==> runs[k].stepKey == steps[k].key
    requires Governs(attempts, fates) && forall k :: 0 <= k < |runs| ==> fates(runs[k].stepKey, runs[k].attempt) == Returns
    ensures TotalCharged(runs, attempts) == CostUpTo(steps, |runs|)
  {
    if runs != [] {
      ReturnedCharges(runs[..|runs| - 1], steps, attempts, fates);
      ReturnedCharge(runs[|runs| - 1], attempts, fates);
    }
  }

  lemma MarketingCost(h: seq<Context -> StepResult>)
    requires |h| == 7
    ensures var steps := MarketingSteps(h);
            && CostUpTo(steps, 1) == 0 && CostUpTo(steps, 2) == 5 && CostUpTo(steps, 3) == 10
            && CostUpTo(steps, 4) == CostUpTo(steps, 5) == CostUpTo(steps, 6) == CostUpTo(steps, 7) == 20
  {
    var steps := MarketingSteps(h);
    assert CostUpTo(steps, 1) == 0 && CostUpTo(steps, 2) == 5;
    assert CostUpTo(steps, 3) == 10 && CostUpTo(steps, 4) == 20;
    assert CostUpTo(steps, 5) == 20 && CostUpTo(steps, 6) == 20;
  }

  lemma {:induction false} LostChargesZero(rows: seq<StepRun>, attempts: Attempts)
    ensures LostCharges(rows, attempts) == 0 <==> forall i :: 0 <= i < |rows| && rows[i].status != Succeeded ==> ChargeOf(rows[i], attempts) == 0
  {
    if rows != [] {
      LostChargesZero(rows[..|rows| - 1], attempts);
      SplitLast(rows);
    }
  }

  /**
   * A completed marketing run is charged 20 credits plus whatever executions were
   * charged and then failed; so exactly 20 if and only if no failed execution had
   * got as far as its charge, however many failures and retries there were.
   */
  lemma CompletedRunCharges(h: seq<Context -> StepResult>, input: Context, attempts: Attempts, fates: Fates, events: seq<Event>)
    requires |h| == 7 && Governs(attempts, fates) && Execute(MarketingSteps(h), input, fates, events).status == COMPLETED
    ensures var rows := Execute(MarketingSteps(h), input, fates, events).stepRuns;
            && TotalCharged(rows, attempts) == 20 + LostCharges(rows, attempts)
            && (TotalCharged(rows, attempts) == 20 <==>
                forall i :: 0 <= i < |rows| && rows[i].status != Succeeded ==> ChargeOf(rows[i], attempts) == 0)
  {
    var steps := MarketingSteps(h);
    var rows := Execute(steps, input, fates, events).stepRuns;
    MarketingKeysDistinct(h);
    CompletedStepsOnce(steps, input, fates, events);
    ExecuteHonest(steps, input, fates, events);
    SucceededHonest(rows, fates);
    forall k | 0 <= k < |SucceededRuns(rows)| ensures SucceededRuns(rows)[k].stepKey == steps[k].key {
      assert SuccessOf(SucceededRuns(rows)[k], steps, input, k);
    }
    ReturnedCharges(SucceededRuns(rows), steps, attempts, fates);
    MarketingCost(h);
    ChargesSplit(rows, attempts);
    LostChargesZero(rows, attempts);
  }

  // ---------------------------------------------------------------- the ledger over a whole run

  /** What others do to the ledger before an execution starts and during its provider call. */
  datatype Around = Around(before: seq<L.Operation>, during: seq<L.Operation>, tracked: bool)

  /** By position of the step row. */
  type Surroundings = nat -> Around

  function Executed(met: L.Journal, row: StepRun, attempts: Attempts, around: Around): L.Journal {
    if IsAiStep(row.stepKey)
    then LedgerAfter(met, around.during, CreditCost(row.stepKey), around.tracked, attempts(row.stepKey, row.attempt))
    else met
  }

  /** The ledger after the executions recorded in `rows`, with everybody else's operations in between. */
  function JournalAfter(start: L.Journal, rows: seq<StepRun>, attempts: Attempts, around: Surroundings): L.Journal
    decreases |rows|, 1
  {
    if rows == [] then start
    else Executed(JournalMet(start, rows, attempts, around), rows[|rows| - 1], attempts, around(|rows| - 1))
  }

  /** What the last execution finds. */
  function JournalMet(start: L.Journal, rows: seq<StepRun>, attempts: Attempts, around: Surroundings): L.Journal
    requires rows != []
    decreases |rows|, 0
  {
    L.ApplyAll(JournalAfter(start, rows[..|rows| - 1], attempts, around), around(|rows| - 1).before)
  }

  /** The pre-check and the charge of this execution answered to the balance they met. */
  predicate Answers(met: L.Journal, row: StepRun, attempts: Attempts, around: Around) {
    IsAiStep(row.stepKey) ==>
      && (attempts(row.stepKey, row.attempt).precheck <==> L.Balance(met) >= CreditCost(row.stepKey))
      && (attempts(row.stepKey, row.attempt).charge <==> L.Balance(L.ApplyAll(met, around.during)) >= CreditCost(row.stepKey))
  }

  predicate LedgerDecides(start: L.Journal, rows: seq<StepRun>, attempts: Attempts, around: Surroundings) {
    rows == []
    || (LedgerDecides(start, rows[..|rows| - 1], attempts, around)
        && Answers(JournalMet(start, rows, attempts, around), rows[|rows| - 1], attempts, around(|rows| - 1)))
  }

  function Moved(journal: L.Journal, ops: seq<L.Operation>): int {
    L.Balance(L.ApplyAll(journal, ops)) - L.Balance(journal)
  }

  /** What the others' operations did to the balance, in all. */
  function OthersMoved(start: L.Journal, rows: seq<StepRun>, attempts: Attempts, around: Surroundings): int {
    if rows == [] then 0
    else
      var k, row := |rows| - 1, rows[|rows| - 1];
      OthersMoved(start, rows[..k], attempts, around)
      + Moved(JournalAfter(start, rows[..k], attempts, around), around(k).before)
      + if IsAiStep(row.stepKey) && attempts(row.stepKey, row.attempt).precheck
        then Moved(JournalMet(start, rows, attempts, around), around(k).during) else 0
  }

  lemma ExecutedMoves(met: L.Journal, row: StepRun, attempts: Attempts, around: Around)
    requires Answers(met, row, attempts, around)
    ensures L.Balance(Executed(met, row, attempts, around))
         == L.Balance(met) - ChargeOf(row, attempts)
            + if IsAiStep(row.stepKey) && attempts(row.stepKey, row.attempt).precheck then Moved(met, around.during) else 0
  {
    if IsAiStep(row.stepKey) {
      ChargeMovesBalance(met, around.during, CreditCost(row.stepKey), around.tracked, attempts(row.stepKey, row.attempt));
    }
  }

  /** Apart from what others did, the balance falls by exactly what the executions were charged. */
  lemma {:induction false} BalanceFalls(start: L.Journal, rows: seq<StepRun>, attempts: Attempts, around: Surroundings)
    requires LedgerDecides(start, rows, attempts, around)
    ensures L.Balance(JournalAfter(start, rows, attempts, around))
         == L.Balance(start) + OthersMoved(start, rows, attempts, around) - TotalCharged(rows, attempts)
  {
    if rows != [] {
      BalanceFalls(start, rows[..|rows| - 1], attempts, around);
      ExecutedMoves(JournalMet(start, rows, attempts, around), rows[|rows| - 1], attempts, around(|rows| - 1));
    }
  }

  /**
   * On every ledger and with any operations of others in between, a completed
   * marketing run costs the workspace 20 credits plus the charges of executions that
   * failed after being charged, whatever failures, retries and gates it went through.
   */
  lemma {:induction false} CompletedRunCosts(h: seq<Context -> StepResult>, input: Context, attempts: Attempts, fates: Fates, events: seq<Event>,
                          start: L.Journal, around: Surroundings)
    requires |h| == 7 && Governs(attempts, fates) && Execute(MarketingSteps(h), input, fates, events).status == COMPLETED
    requires LedgerDecides(start, Execute(MarketingSteps(h), input, fates, events).stepRuns, attempts, around)
    ensures var rows := Execute(MarketingSteps(h), input, fates, events).stepRuns;
            && L.Balance(JournalAfter(start, rows, attempts, around))
               == L.Balance(start) + OthersMoved(start, rows, attempts, around) - 20 - LostCharges(rows, attempts)
  {
    CompletedRunCharges(h, input, attempts, fates, events);
    BalanceFalls(start, Execute(MarketingSteps(h), input, fates, events).stepRuns, attempts, around);
  }

  /** An alert error after the charge makes the retried step pay twice. */
  lemma AlertErrorChargesTwice(step: StepDefinition, accumulated: Context, attempts: Attempts, fates: Fates)
    requires Governs(attempts, fates) && IsAiStep(step.key)
    requires attempts(step.key, 1) == Attempt(true, Works, true, true, FailsTransiently)
    requires attempts(step.key, 2) == Attempt(true, Works, true, true, Works)
    ensures TotalCharged(Round([], step, accumulated, fates), attempts) == 2 * CreditCost(step.key)
  {
    assert fates(step.key, 1) == ThrowsTransient && fates(step.key, 2) == Returns;
    var first := StepRun(step.key, step.order, Retried, 1, accumulated, None);
    var second := StepRun(step.key, step.order, Succeeded, 2, accumulated, Some(step.handler(accumulated).output));
    assert Round([], step, accumulated, fates) == [first, second];
    assert [first, second][..1] == [first] && [first][..0] == [];
    assert TotalCharged([first], attempts) == ChargeOf(first, attempts) == CreditCost(step.key);
    assert ChargeOf(second, attempts) == CreditCost(step.key);
  }
}
