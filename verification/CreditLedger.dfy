/**
 * One workspace's credit ledger. Grants go to the supply table, consumption to the
 * usage table; every write runs under the workspace's row lock, so the writes of
 * all callers form one sequence.
 */
module CreditLedger {
  import opened Common

  datatype CreditType = PLAN_GRANT | ROLLOVER | TOPUP_PURCHASE | PROMOTIONAL | REFUND | MANUAL_ADJUSTMENT

  datatype UsageStatus = SUCCEEDED | BLOCKED_BY_CREDIT_LIMIT

  datatype Credit = Credit(creditType: CreditType, amount: int, balanceAfter: int)

  datatype Usage = Usage(status: UsageStatus, creditsConsumed: int)

  /** A locked transaction; `tracked` tells whether writing the FIRST_AI_ACTION event would succeed. */
  datatype Operation = Grant(creditType: CreditType, amount: int) | Charge(creditsConsumed: int, tracked: bool)

  /** What a transaction wrote: one supply row, or one usage row and perhaps the event. */
  datatype Entry = Granted(credit: Credit) | Used(requested: int, usage: Usage, firstAction: bool)

  type Journal = seq<Entry>

  // ---------------------------------------------------------------- the tables of a journal

  function CreditsOf(journal: Journal): seq<Credit> {
    if journal == [] then []
    else
      var last := journal[|journal| - 1];
      CreditsOf(journal[..|journal| - 1]) + if last.Granted? then [last.credit] else []
  }

  function UsagesOf(journal: Journal): seq<Usage> {
    if journal == [] then []
    else
      var last := journal[|journal| - 1];
      UsagesOf(journal[..|journal| - 1]) + if last.Used? then [last.usage] else []
  }

  function FirstActions(journal: Journal): nat {
    if journal == [] then 0
    else
      var last := journal[|journal| - 1];
      FirstActions(journal[..|journal| - 1]) + if last.Used? && last.firstAction then 1 else 0
  }

  function Supply(credits: seq<Credit>): int {
    if credits == [] then 0 else Supply(credits[..|credits| - 1]) + credits[|credits| - 1].amount
  }

  function Consumption(usages: seq<Usage>): int {
    if usages == [] then 0 else Consumption(usages[..|usages| - 1]) + usages[|usages| - 1].creditsConsumed
  }

  /** `computeBalance`: total supply minus total consumption. */
  function Balance(journal: Journal): int {
    Supply(CreditsOf(journal)) - Consumption(UsagesOf(journal))
  }

  // ---------------------------------------------------------------- transactions

  function EntryOf(journal: Journal, op: Operation): Entry {
    match op
    case Grant(creditType, amount) => Granted(Credit(creditType, amount, Balance(journal) + amount))
    case Charge(creditsConsumed, tracked) =>
      if Balance(journal) < creditsConsumed then Used(creditsConsumed, Usage(BLOCKED_BY_CREDIT_LIMIT, 0), false)
      else Used(creditsConsumed, Usage(SUCCEEDED, creditsConsumed), tracked && FirstActions(journal) == 0)
  }

  function Apply(journal: Journal, op: Operation): Journal {
    journal + [EntryOf(journal, op)]
  }

  function ApplyAll(journal: Journal, ops: seq<Operation>): Journal {
    if ops == [] then journal else Apply(ApplyAll(journal, ops[..|ops| - 1]), ops[|ops| - 1])
  }

  class Ledger {
    var credits: seq<Credit>
    var usages: seq<Usage>
    var firstActions: nat
    ghost var journal: Journal

    ghost predicate Valid()
      reads this
    {
      credits == CreditsOf(journal) && usages == UsagesOf(journal) && firstActions == FirstActions(journal)
    }

    constructor ()
      ensures Valid() && journal == []
    {
      credits, usages, firstActions, journal := [], [], 0, [];
    }

    function GetBalance(): int
      reads this
    {
      Supply(credits) - Consumption(usages)
    }

    /** The unlocked check before a provider call. */
    method AssertSufficientCredits(creditsRequired: int) returns (ok: bool)
      requires Valid()
      ensures ok <==> Balance(journal) >= creditsRequired
    {
      ok := GetBalance() >= creditsRequired;
    }

    /** The blocked attempt is recorded too, and reported to the caller only after the commit. */
    method RecordUsage(creditsConsumed: int, tracked: bool) returns (balanceAfter: Option<int>)
      requires Valid()
      modifies this
      ensures Valid() && journal == Apply(old(journal), Charge(creditsConsumed, tracked))
      ensures credits == old(credits)
      ensures usages == old(usages) + [if old(GetBalance()) >= creditsConsumed then Usage(SUCCEEDED, creditsConsumed) else Usage(BLOCKED_BY_CREDIT_LIMIT, 0)]
      ensures firstActions == if tracked && old(GetBalance()) >= creditsConsumed && old(firstActions) == 0 then 1 else old(firstActions)
      ensures balanceAfter.Some? <==> old(Balance(journal)) >= creditsConsumed
      ensures balanceAfter.Some? ==> balanceAfter.value == Balance(journal)
      ensures balanceAfter.None? ==> Balance(journal) == old(Balance(journal))
    {
      BalanceStep(journal, EntryOf(journal, Charge(creditsConsumed, tracked)));
      var currentBalance := GetBalance();
      var blocked := currentBalance < creditsConsumed;
      var usage := Usage(if blocked then BLOCKED_BY_CREDIT_LIMIT else SUCCEEDED, if blocked then 0 else creditsConsumed);
      var fires := !blocked && tracked && firstActions == 0;
      usages := usages + [usage];
      if fires { firstActions := firstActions + 1; }
      journal := journal + [Used(creditsConsumed, usage, fires)];
      balanceAfter := if blocked then None else Some(currentBalance - creditsConsumed);
    }

    method GrantCredits(amount: int, creditType: CreditType) returns (balanceAfter: int)
      requires Valid()
      modifies this
      ensures Valid() && journal == Apply(old(journal), Grant(creditType, amount))
      ensures credits == old(credits) + [Credit(creditType, amount, old(GetBalance()) + amount)]
      ensures usages == old(usages) && firstActions == old(firstActions)
      ensures balanceAfter == Balance(journal) == old(Balance(journal)) + amount
    {
      BalanceStep(journal, EntryOf(journal, Grant(creditType, amount)));
      balanceAfter := GetBalance() + amount;
      credits := credits + [Credit(creditType, amount, balanceAfter)];
      journal := journal + [Granted(Credit(creditType, amount, balanceAfter))];
    }

    /** `adjustWorkspaceCredits`: any non-zero amount, negative ones included. */
    method AdjustCredits(amount: int) returns (balanceAfter: Option<int>)
      requires Valid()
      modifies this
      ensures Valid() && (balanceAfter.None? <==> amount == 0)
      ensures amount == 0 ==> journal == old(journal) && credits == old(credits)
      ensures amount != 0 ==> credits == old(credits) + [Credit(MANUAL_ADJUSTMENT, amount, old(GetBalance()) + amount)]
      ensures usages == old(usages) && firstActions == old(firstActions)
      ensures amount != 0 ==> journal == Apply(old(journal), Grant(MANUAL_ADJUSTMENT, amount)) && balanceAfter == Some(Balance(journal))
    {
      if amount == 0 { return None; }
      var after := GrantCredits(amount, MANUAL_ADJUSTMENT);
      balanceAfter := Some(after);
    }
  }

  // ---------------------------------------------------------------- what the journal keeps

  function Effect(entry: Entry): int {
    match entry
    case Granted(credit) => credit.amount
    case Used(_, usage, _) => -usage.creditsConsumed
  }

  /** Conservation: an entry moves the balance by its own amount and nothing else. */
  lemma {:induction false} BalanceStep(journal: Journal, entry: Entry)
    ensures Balance(journal + [entry]) == Balance(journal) + Effect(entry)
    ensures CreditsOf(journal + [entry]) == CreditsOf(journal) + if entry.Granted? then [entry.credit] else []
    ensures UsagesOf(journal + [entry]) == UsagesOf(journal) + if entry.Used? then [entry.usage] else []
    ensures FirstActions(journal + [entry]) == FirstActions(journal) + if entry.Used? && entry.firstAction then 1 else 0
  {
    var after := journal + [entry];
    assert after[..|after| - 1] == journal;
    var credits, usages := CreditsOf(journal), UsagesOf(journal);
    match entry
    case Granted(credit) => assert (credits + [credit])[..|credits|] == credits && usages + [] == usages;
    case Used(_, usage, _) => assert (usages + [usage])[..|usages|] == usages && credits + [] == credits;
  }

  lemma {:induction false} RunLength(ops: seq<Operation>)
    ensures |ApplyAll([], ops)| == |ops|
  {
    if ops != [] { RunLength(ops[..|ops| - 1]); }
  }

  /** The journal of the first `i` operations is the prefix of the whole journal. */
  lemma {:induction false} RunPrefix(ops: seq<Operation>, i: nat)
    requires i <= |ops|
    ensures |ApplyAll([], ops)| == |ops| && ApplyAll([], ops)[..i] == ApplyAll([], ops[..i])
    ensures i < |ops| ==> ApplyAll([], ops)[i] == EntryOf(ApplyAll([], ops[..i]), ops[i])
  {
    RunLength(ops);
    if i == |ops| {
      assert ops[..i] == ops;
    } else {
      var before := ops[..|ops| - 1];
      RunLength(before);
      RunPrefix(before, i);
      assert before[..i] == ops[..i];
    }
  }

  /** One transaction: a grant stores the balance it leaves; a charge succeeds exactly when covered, else moves nothing. */
  lemma TransactionEffect(before: Journal, op: Operation)
    ensures var entry := EntryOf(before, op); var after := Balance(Apply(before, op));
            && (op.Grant? ==>
                  && entry.Granted? && entry.credit.creditType == op.creditType && entry.credit.amount == op.amount
                  && entry.credit.balanceAfter == after == Balance(before) + op.amount)
            && (op.Charge? ==>
                  && entry.Used? && (entry.usage.status == SUCCEEDED <==> op.creditsConsumed <= Balance(before))
                  && (entry.usage.status == SUCCEEDED ==> 0 <= after == Balance(before) - op.creditsConsumed)
                  && (entry.usage.status == BLOCKED_BY_CREDIT_LIMIT ==> entry.usage.creditsConsumed == 0 && after == Balance(before)))
  {
    BalanceStep(before, EntryOf(before, op));
  }

  /** A charge takes its whole cost or nothing. */
  lemma ChargeEffect(before: Journal, cost: int, tracked: bool)
    ensures Balance(Apply(before, Charge(cost, tracked))) == Balance(before) - if Balance(before) >= cost then cost else 0
  {
    TransactionEffect(before, Charge(cost, tracked));
  }

  /** Entry `i` of a run is the transaction applied to the entries before it. */
  lemma {:induction false} RunAt(ops: seq<Operation>, journal: Journal, i: nat)
    requires i < |ops| && journal == ApplyAll([], ops)
    ensures |journal| == |ops| && journal[i] == EntryOf(journal[..i], ops[i]) && journal[..i + 1] == Apply(journal[..i], ops[i])
  {
    RunPrefix(ops, i);
    TakeNext(journal, i);
  }

  /** Every stored snapshot is the balance right after its grant. */
  lemma {:induction false} SnapshotsExact(ops: seq<Operation>, journal: Journal, i: nat)
    requires journal == ApplyAll([], ops) && i < |ops| && ops[i].Grant?
    ensures |journal| == |ops| && journal[i].Granted?
    ensures journal[i].credit.creditType == ops[i].creditType && journal[i].credit.amount == ops[i].amount
    ensures journal[i].credit.balanceAfter == Balance(journal[..i + 1])
  {
    RunAt(ops, journal, i);
    TransactionEffect(journal[..i], ops[i]);
  }

  /** A charge succeeds exactly when the balance covers it, and then leaves it non-negative; a blocked one moves nothing. */
  lemma {:induction false} ChargesAreSolvent(ops: seq<Operation>, journal: Journal, i: nat)
    requires journal == ApplyAll([], ops) && i < |ops| && ops[i].Charge?
    ensures |journal| == |ops| && journal[i].Used?
    ensures journal[i].usage.status == SUCCEEDED <==> ops[i].creditsConsumed <= Balance(journal[..i])
    ensures journal[i].usage.status == SUCCEEDED ==> 0 <= Balance(journal[..i + 1]) == Balance(journal[..i]) - ops[i].creditsConsumed
    ensures journal[i].usage.status == BLOCKED_BY_CREDIT_LIMIT ==>
              journal[i].usage.creditsConsumed == 0 && Balance(journal[..i + 1]) == Balance(journal[..i])
  {
    RunAt(ops, journal, i);
    TransactionEffect(journal[..i], ops[i]);
  }

  /** The operations that could have written the event. */
  predicate Trackable(journal: Journal, ops: seq<Operation>, i: nat)
    requires i < |ops| == |journal|
  {
    ops[i].Charge? && ops[i].tracked && journal[i].Used? && journal[i].usage.status == SUCCEEDED
  }

  ghost predicate SomeTrackable(journal: Journal, ops: seq<Operation>)
    requires |ops| == |journal|
  {
    exists i :: 0 <= i < |ops| && Trackable(journal, ops, i)
  }

  lemma TrackableGrows(journal: Journal, entry: Entry, ops: seq<Operation>, op: Operation)
    requires |ops| == |journal|
    ensures SomeTrackable(journal + [entry], ops + [op]) <==> SomeTrackable(journal, ops) || Trackable([entry], [op], 0)
  {
    var j, o := journal + [entry], ops + [op];
    forall i | 0 <= i < |ops| ensures Trackable(j, o, i) <==> Trackable(journal, ops, i) { }
    assert Trackable(j, o, |ops|) <==> Trackable([entry], [op], 0);
  }

  ghost predicate EventOnce(journal: Journal, ops: seq<Operation>) {
    |ops| == |journal| && FirstActions(journal) <= 1 && (FirstActions(journal) == 1 <==> SomeTrackable(journal, ops))
  }

  lemma TransactionKeepsEvent(before: Journal, ops: seq<Operation>, op: Operation)
    requires EventOnce(before, ops)
    ensures EventOnce(Apply(before, op), ops + [op])
  {
    var entry := EntryOf(before, op);
    BalanceStep(before, entry);
    TrackableGrows(before, entry, ops, op);
  }

  /** The first-action event exists at most once, and exactly once some successful charge could write it. */
  lemma {:induction false} FirstActionOnce(ops: seq<Operation>)
    ensures EventOnce(ApplyAll([], ops), ops)
  {
    if ops != [] {
      FirstActionOnce(ops[..|ops| - 1]);
      TransactionKeepsEvent(ApplyAll([], ops[..|ops| - 1]), ops[..|ops| - 1], ops[|ops| - 1]);
      SplitLast(ops);
    }
  }

  /** A negative adjustment takes no more than there is. */
  predicate Covered(ops: seq<Operation>, i: nat)
    requires i < |ops|
  {
    ops[i].Grant? && ops[i].amount < 0 ==> -ops[i].amount <= Balance(ApplyAll([], ops[..i]))
  }

  predicate Solvent(ops: seq<Operation>, i: nat)
    requires i <= |ops|
  {
    Balance(ApplyAll([], ops[..i])) >= 0
  }

  /** The balance never goes negative if and only if no adjustment takes more than the balance it finds. */
  lemma {:induction false} SolventIff(ops: seq<Operation>)
    ensures (forall i :: 0 <= i <= |ops| ==> Solvent(ops, i)) <==> (forall i :: 0 <= i < |ops| ==> Covered(ops, i))
  {
    forall i | 0 <= i < |ops| && Solvent(ops, i) ensures Solvent(ops, i + 1) <==> Covered(ops, i) {
      SolventStep(ops, i);
    }
    if forall i :: 0 <= i < |ops| ==> Covered(ops, i) {
      forall n | 0 <= n <= |ops| ensures Solvent(ops, n) { SolventAt(ops, n); }
    }
    if forall i :: 0 <= i <= |ops| ==> Solvent(ops, i) {
      forall i | 0 <= i < |ops| ensures Covered(ops, i) {
        assert Solvent(ops, i) && Solvent(ops, i + 1);
      }
    }
  }

  lemma SolventStep(ops: seq<Operation>, i: nat)
    requires i < |ops| && Solvent(ops, i)
    ensures Solvent(ops, i + 1) <==> Covered(ops, i)
  {
    var before := ApplyAll([], ops[..i]);
    assert ops[..i + 1][..i] == ops[..i];
    BalanceStep(before, EntryOf(before, ops[i]));
  }

  lemma {:induction false} SolventAt(ops: seq<Operation>, n: nat)
    requires n <= |ops| && forall i :: 0 <= i < |ops| ==> Covered(ops, i)
    ensures Solvent(ops, n)
  {
    if n == 0 {
      assert ops[..0] == [];
    } else {
      SolventAt(ops, n - 1);
      SolventStep(ops, n - 1);
      assert Covered(ops, n - 1);
    }
  }

  /** Without negative grants the balance of every reachable ledger is non-negative. */
  lemma {:induction false} GrantsKeepSolvent(ops: seq<Operation>)
    requires forall i :: 0 <= i < |ops| && ops[i].Grant? ==> ops[i].amount >= 0
    ensures Balance(ApplyAll([], ops)) >= 0
  {
    SolventIff(ops);
    assert ops[..|ops|] == ops;
    assert Solvent(ops, |ops|);
  }

  /** The unlocked check is no reservation: two callers can both pass it and only one of the charges succeeds. */
  lemma PrecheckIsNoReservation(cost: int)
    requires cost > 0
    ensures var funded := ApplyAll([], [Grant(PLAN_GRANT, cost)]);
            var first := Apply(funded, Charge(cost, true));
            Balance(funded) >= cost && EntryOf(funded, Charge(cost, true)).usage.status == SUCCEEDED
            && EntryOf(first, Charge(cost, true)).usage.status == BLOCKED_BY_CREDIT_LIMIT
  {
    assert [Grant(PLAN_GRANT, cost)][..0] == [];
    var funded := ApplyAll([], [Grant(PLAN_GRANT, cost)]);
    assert ApplyAll([], []) == [] && Balance([]) == 0;
    BalanceStep([], EntryOf([], Grant(PLAN_GRANT, cost)));
    assert funded == Apply([], Grant(PLAN_GRANT, cost));
    BalanceStep(funded, EntryOf(funded, Charge(cost, true)));
  }
}
