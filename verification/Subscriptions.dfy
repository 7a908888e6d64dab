/** One workspace's subscription rows: plan changes, trials and status transitions, one call at a time. */
module Subscriptions {
  import opened Common

  datatype Status = TRIALING | ACTIVE | PAST_DUE | PAUSED | CANCELED | EXPIRED

  /** A missing limit is unlimited. */
  datatype Plan = Plan(sortOrder: int, maxWorkspaces: Option<nat>, maxTeamSeats: Option<nat>, maxBusinessProfiles: Option<nat>)

  type Plans = map<string, Plan>

  datatype Subscription = Subscription(
    planKey: string,
    pendingPlanKey: Option<string>,
    status: Status,
    cancelAtPeriodEnd: bool,
    trialEndsAt: Option<int>
  )

  /** The rows in creation order. */
  type Rows = seq<Subscription>

  /** What the workspace and its owner really use. */
  datatype Usage = Usage(workspaces: nat, members: nat, profiles: nat)

  datatype BillingError = NoCurrentSubscription | UnknownPlan | IllegalTransition | TrialAlreadyUsed

  datatype Outcome = Outcome(rows: Rows, error: Option<BillingError>)

  const TRIAL_MS := 14 * 86_400_000
  const FREE := "free"

  function LegalTransitions(from: Status): set<Status> {
    match from
    case TRIALING => {ACTIVE, EXPIRED, CANCELED}
    case ACTIVE => {PAST_DUE, CANCELED, PAUSED}
    case PAST_DUE => {ACTIVE, CANCELED}
    case PAUSED => {ACTIVE, CANCELED}
    case CANCELED => {EXPIRED}
    case EXPIRED => {}
  }

  /** The seeded plans. */
  function SeedPlans(): Plans {
    map["free" := Plan(0, Some(1), Some(1), Some(1)),
        "starter" := Plan(1, Some(1), Some(3), Some(3)),
        "pro" := Plan(2, Some(3), Some(10), Some(10)),
        "business" := Plan(3, None, None, None)]
  }

  predicate Within(used: nat, max: Option<nat>) {
    max.Some? ==> used <= max.value
  }

  predicate Fits(plan: Plan, usage: Usage) {
    && Within(usage.workspaces, plan.maxWorkspaces) && Within(usage.members, plan.maxTeamSeats)
    && Within(usage.profiles, plan.maxBusinessProfiles)
  }

  predicate AtMost(a: Option<nat>, b: Option<nat>) {
    b.Some? ==> a.Some? && a.value <= b.value
  }

  /** Limits grow with the sort order, and the free plan is the lowest. */
  ghost predicate Graded(plans: Plans) {
    && FREE in plans
    && (forall k :: k in plans && k != FREE ==> plans[FREE].sortOrder < plans[k].sortOrder)
    && (forall j, k :: j in plans && k in plans && plans[j].sortOrder <= plans[k].sortOrder ==> Smaller(plans[j], plans[k]))
  }

  predicate Smaller(a: Plan, b: Plan) {
    AtMost(a.maxWorkspaces, b.maxWorkspaces) && AtMost(a.maxTeamSeats, b.maxTeamSeats) && AtMost(a.maxBusinessProfiles, b.maxBusinessProfiles)
  }

  lemma SeedPlansGraded()
    ensures Graded(SeedPlans())
  {
    assert |"free"| == 4 && |"starter"| == 7 && |"pro"| == 3 && |"business"| == 8;
  }

  lemma SmallerFits(a: Plan, b: Plan, usage: Usage)
    requires Smaller(a, b) && Fits(a, usage)
    ensures Fits(b, usage)
  {
  }

  // ---------------------------------------------------------------- the operations

  /** The newest row that has not expired, or the number of rows. */
  function CurrentIndex(rows: Rows): (i: nat)
    ensures i <= |rows|
    ensures i < |rows| ==> rows[i].status != EXPIRED && forall j :: i < j < |rows| ==> rows[j].status == EXPIRED
    ensures i == |rows| ==> forall j :: 0 <= j < |rows| ==> rows[j].status == EXPIRED
  {
    if rows == [] then 0
    else if rows[|rows| - 1].status != EXPIRED then |rows| - 1
    else
      var before := CurrentIndex(rows[..|rows| - 1]);
      if before == |rows| - 1 then |rows| else before
  }

  function Replace(rows: Rows, row: Subscription): Rows
    requires CurrentIndex(rows) < |rows|
  {
    rows[CurrentIndex(rows) := row]
  }

  function Current(rows: Rows): Subscription
    requires CurrentIndex(rows) < |rows|
  {
    rows[CurrentIndex(rows)]
  }

  lemma {:induction false} CurrentReplaced(rows: Rows, row: Subscription)
    requires CurrentIndex(rows) < |rows| && row.status != EXPIRED
    ensures CurrentIndex(Replace(rows, row)) == CurrentIndex(rows)
  {
    var after := Replace(rows, row);
    assert after[CurrentIndex(rows)] == row;
  }

  function FreeSubscription(): Subscription {
    Subscription(FREE, None, ACTIVE, false, None)
  }

  function Transitioned(rows: Rows, to: Status): Outcome {
    if CurrentIndex(rows) == |rows| then Outcome(rows, Some(NoCurrentSubscription))
    else if Current(rows).status != to && to !in LegalTransitions(Current(rows).status) then Outcome(rows, Some(IllegalTransition))
    else Outcome(Replace(rows, Current(rows).(status := to)), None)
  }

  /** The row after a plan change: swapped at once, or the target noted as pending when usage does not fit it yet. */
  function ChangedRow(row: Subscription, target: string, usage: Usage, plans: Plans): Subscription
    requires row.planKey in plans && target in plans
  {
    if row.planKey == target && row.pendingPlanKey.None? then row
    else if plans[target].sortOrder >= plans[row.planKey].sortOrder || Fits(plans[target], usage)
    then row.(planKey := target, pendingPlanKey := None)
    else row.(pendingPlanKey := Some(target))
  }

  function PlanChanged(rows: Rows, target: string, usage: Usage, plans: Plans): Outcome {
    if CurrentIndex(rows) == |rows| then Outcome(rows, Some(NoCurrentSubscription))
    else if target !in plans || Current(rows).planKey !in plans then Outcome(rows, Some(UnknownPlan))
    else Outcome(Replace(rows, ChangedRow(Current(rows), target, usage, plans)), None)
  }

  function PendingRetried(rows: Rows, usage: Usage, plans: Plans): Outcome {
    if CurrentIndex(rows) == |rows| then Outcome(rows, Some(NoCurrentSubscription))
    else if Current(rows).pendingPlanKey.None? then Outcome(rows, None)
    else PlanChanged(rows, Current(rows).pendingPlanKey.value, usage, plans)
  }

  function CancelFlagged(rows: Rows, cancel: bool): Outcome {
    if CurrentIndex(rows) == |rows| then Outcome(rows, Some(NoCurrentSubscription))
    else Outcome(Replace(rows, Current(rows).(cancelAtPeriodEnd := cancel)), None)
  }

  function TrialStarted(rows: Rows, target: string, eligible: bool, now: int, plans: Plans): Outcome {
    if !eligible then Outcome(rows, Some(TrialAlreadyUsed))
    else if CurrentIndex(rows) == |rows| then Outcome(rows, Some(NoCurrentSubscription))
    else if Current(rows).status != ACTIVE || Current(rows).planKey != FREE then Outcome(rows, Some(IllegalTransition))
    else if target !in plans then Outcome(rows, Some(UnknownPlan))
    else Outcome(Replace(rows, Current(rows).(status := TRIALING, planKey := target, trialEndsAt := Some(now + TRIAL_MS))), None)
  }

  function TrialConverted(rows: Rows): Outcome {
    if CurrentIndex(rows) == |rows| then Outcome(rows, Some(NoCurrentSubscription))
    else if Current(rows).status != TRIALING then Outcome(rows, Some(IllegalTransition))
    else Outcome(Replace(rows, Current(rows).(status := ACTIVE)), None)
  }

  /** An overdue trial expires and a new free subscription takes its place, whatever the usage. */
  function TrialExpired(rows: Rows, now: int): Outcome {
    if CurrentIndex(rows) == |rows| then Outcome(rows, Some(NoCurrentSubscription))
    else if Current(rows).status != TRIALING || Current(rows).trialEndsAt.None? || Current(rows).trialEndsAt.value > now then Outcome(rows, None)
    else Outcome(Replace(rows, Current(rows).(status := EXPIRED)) + [FreeSubscription()], None)
  }

  // ---------------------------------------------------------------- what callers may rely on

  /** Row i is the newest that has not expired. */
  predicate IsCurrent(rows: Rows, i: nat) {
    i < |rows| && rows[i].status != EXPIRED && forall j :: i < j < |rows| ==> rows[j].status == EXPIRED
  }

  predicate AllExpired(rows: Rows) {
    forall j :: 0 <= j < |rows| ==> rows[j].status == EXPIRED
  }

  /** The first rows are as before, except for row i. */
  predicate SameBut(before: Rows, after: Rows, i: nat) {
    |before| <= |after| && forall j :: 0 <= j < |before| && j != i ==> after[j] == before[j]
  }

  /** Goes through exactly along the table, and then only the current row's status differs. */
  ghost predicate WritesStatus(before: Rows, to: Status, out: Outcome) {
    && (out.error == Some(NoCurrentSubscription) <==> AllExpired(before))
    && (out.error.Some? ==> out.rows == before && out.error.value in {NoCurrentSubscription, IllegalTransition})
    && forall i: nat :: IsCurrent(before, i) ==>
         && (out.error.None? <==> to == before[i].status || to in LegalTransitions(before[i].status))
         && (out.error.None? ==>
               |out.rows| == |before| && SameBut(before, out.rows, i) && out.rows[i].status == to && out.rows[i].(status := before[i].status) == before[i])
  }

  predicate Exceeds(used: nat, max: Option<nat>) {
    max.Some? && used > max.value
  }

  /**
   * A plan of the same or a higher rank, or one whose limits usage does not exceed,
   * becomes the plan and nothing is pending; a lower one that is too small is noted
   * as pending and the plan stays. Whatever was pending before does not matter, and
   * nothing else in the row changes.
   */
  predicate ChangesRow(before: Subscription, after: Subscription, target: string, usage: Usage, plans: Plans, applied: bool)
    requires before.planKey in plans && target in plans
  {
    && after.(planKey := before.planKey, pendingPlanKey := before.pendingPlanKey) == before
    && (applied <==> plans[target].sortOrder >= plans[before.planKey].sortOrder
                     || !(|| Exceeds(usage.members, plans[target].maxTeamSeats)
                          || Exceeds(usage.profiles, plans[target].maxBusinessProfiles)
                          || Exceeds(usage.workspaces, plans[target].maxWorkspaces)))
    && (applied ==> after.planKey == target && after.pendingPlanKey == None)
    && (!applied ==> after.planKey == before.planKey && after.pendingPlanKey == Some(target))
  }

  /** The current row and no other is changed to the target, unless one of the two plans is unknown. */
  ghost predicate ChangesPlan(before: Rows, target: string, usage: Usage, plans: Plans, out: Outcome, applied: bool) {
    && (out.error == Some(NoCurrentSubscription) <==> AllExpired(before))
    && (out.error.Some? ==> out.rows == before && out.error.value in {NoCurrentSubscription, UnknownPlan})
    && forall i: nat :: IsCurrent(before, i) ==>
         && (out.error == Some(UnknownPlan) <==> target !in plans || before[i].planKey !in plans)
         && (out.error.None? ==>
               && |out.rows| == |before| && out.rows == before[i := out.rows[i]]
               && ChangesRow(before[i], out.rows[i], target, usage, plans, applied))
  }

  /** Exactly the current row's flag is set or cleared. */
  ghost predicate FlagsCancel(before: Rows, cancel: bool, out: Outcome) {
    && (out.error == None || out.error == Some(NoCurrentSubscription)) && (out.error.Some? <==> AllExpired(before))
    && (out.error.Some? ==> out.rows == before)
    && forall i: nat :: IsCurrent(before, i) ==> out.rows == before[i := before[i].(cancelAtPeriodEnd := cancel)]
  }

  /** Exactly a trial becomes an active subscription to its plan, overdue or not. */
  ghost predicate ConvertsTrial(before: Rows, out: Outcome) {
    && (out.error == Some(NoCurrentSubscription) <==> AllExpired(before))
    && (out.error.Some? ==> out.rows == before && out.error.value in {NoCurrentSubscription, IllegalTransition})
    && forall i: nat :: IsCurrent(before, i) ==>
         && (out.error.None? <==> before[i].status == TRIALING)
         && (out.error.None? ==> out.rows == before[i := before[i].(status := ACTIVE)])
  }

  /**
   * The pending plan takes over exactly when it does not rank lower or usage fits it,
   * and is then no longer pending. In every other case nothing changes at all.
   */
  ghost predicate SettlesPending(before: Rows, usage: Usage, plans: Plans, out: Outcome) {
    && (out.error == Some(NoCurrentSubscription) <==> AllExpired(before))
    && (out.error.Some? ==> out.rows == before && out.error.value in {NoCurrentSubscription, UnknownPlan})
    && forall i: nat :: IsCurrent(before, i) ==>
         && (out.error.Some? <==> before[i].pendingPlanKey.Some? && !(before[i].pendingPlanKey.value in plans && before[i].planKey in plans))
         && (before[i].pendingPlanKey.None? ==> out.rows == before)
         && (before[i].pendingPlanKey.Some? && out.error.None? ==>
               var target, plan := plans[before[i].pendingPlanKey.value], plans[before[i].planKey];
               if target.sortOrder >= plan.sortOrder || Fits(target, usage)
               then IsCurrent(out.rows, i) && SameBut(before, out.rows, i)
                 && out.rows[i].planKey == before[i].pendingPlanKey.value && out.rows[i].pendingPlanKey.None?
               else out.rows == before)
  }

  /** Goes through exactly for an eligible account on an ACTIVE free subscription and a known plan; the trial then ends 14 days later. */
  ghost predicate StartsTrial(before: Rows, target: string, eligible: bool, now: int, plans: Plans, out: Outcome) {
    && (out.error.None? <==> eligible && target in plans && exists i: nat :: IsCurrent(before, i) && before[i].status == ACTIVE && before[i].planKey == FREE)
    && (out.error.Some? ==> out.rows == before && match out.error.value
          case TrialAlreadyUsed => !eligible
          case NoCurrentSubscription => AllExpired(before)
          case IllegalTransition => forall i: nat :: IsCurrent(before, i) ==> before[i].status != ACTIVE || before[i].planKey != FREE
          case UnknownPlan => target !in plans)
    && (out.error.None? ==> forall i: nat :: IsCurrent(before, i) ==>
          && IsCurrent(out.rows, i) && |out.rows| == |before| && SameBut(before, out.rows, i)
          && out.rows[i].status == TRIALING && out.rows[i].planKey == target && out.rows[i].trialEndsAt == Some(now + 1_209_600_000)
          && out.rows[i].pendingPlanKey == before[i].pendingPlanKey && out.rows[i].cancelAtPeriodEnd == before[i].cancelAtPeriodEnd)
  }

  predicate Overdue(row: Subscription, now: int) {
    row.status == TRIALING && row.trialEndsAt.Some? && row.trialEndsAt.value <= now
  }

  /** Exactly an overdue trial is closed, and one new free subscription becomes the current one. */
  ghost predicate ClosesOverdueTrial(before: Rows, now: int, out: Outcome) {
    && (out.error.Some? <==> AllExpired(before))
    && (out.rows != before <==> exists i: nat :: IsCurrent(before, i) && Overdue(before[i], now))
    && (out.rows != before ==>
          && |out.rows| == |before| + 1 && IsCurrent(out.rows, |before|) && out.rows[|before|] == FreeSubscription()
          && forall i: nat :: IsCurrent(before, i) ==> SameBut(before, out.rows, i) && out.rows[i].status == EXPIRED)
  }

  lemma CurrentIsUnique(rows: Rows, i: nat)
    ensures IsCurrent(rows, i) <==> i < |rows| && i == CurrentIndex(rows)
    ensures AllExpired(rows) <==> CurrentIndex(rows) == |rows|
  {
  }

  lemma TransitionedWrites(rows: Rows, to: Status)
    ensures WritesStatus(rows, to, Transitioned(rows, to))
  {
    forall i: nat ensures IsCurrent(rows, i) <==> i < |rows| && i == CurrentIndex(rows) { CurrentIsUnique(rows, i); }
    CurrentIsUnique(rows, 0);
  }

  lemma PendingRetriedSettles(rows: Rows, usage: Usage, plans: Plans)
    ensures SettlesPending(rows, usage, plans, PendingRetried(rows, usage, plans))
  {
    forall i: nat ensures IsCurrent(rows, i) <==> i < |rows| && i == CurrentIndex(rows) { CurrentIsUnique(rows, i); }
    CurrentIsUnique(rows, 0);
  }

  lemma ChangedRowMeans(row: Subscription, target: string, usage: Usage, plans: Plans)
    requires row.planKey in plans && target in plans
    ensures var after := ChangedRow(row, target, usage, plans);
            ChangesRow(row, after, target, usage, plans, after.planKey == target && after.pendingPlanKey == None)
  {
  }

  lemma PlanChangedMeans(rows: Rows, target: string, usage: Usage, plans: Plans)
    ensures var out := PlanChanged(rows, target, usage, plans);
            && (out.error.None? ==> CurrentIndex(out.rows) < |out.rows|)
            && ChangesPlan(rows, target, usage, plans, out,
                           out.error.None? && Current(out.rows).planKey == target && Current(out.rows).pendingPlanKey == None)
  {
    forall i: nat ensures IsCurrent(rows, i) <==> i < |rows| && i == CurrentIndex(rows) { CurrentIsUnique(rows, i); }
    CurrentIsUnique(rows, 0);
    if CurrentIndex(rows) < |rows| && target in plans && Current(rows).planKey in plans {
      CurrentReplaced(rows, ChangedRow(Current(rows), target, usage, plans));
      ChangedRowMeans(Current(rows), target, usage, plans);
    }
  }

  lemma CancelFlagsRow(rows: Rows, cancel: bool)
    ensures FlagsCancel(rows, cancel, CancelFlagged(rows, cancel))
  {
    forall i: nat ensures IsCurrent(rows, i) <==> i < |rows| && i == CurrentIndex(rows) { CurrentIsUnique(rows, i); }
    CurrentIsUnique(rows, 0);
  }

  lemma TrialConvertedOnce(rows: Rows)
    ensures ConvertsTrial(rows, TrialConverted(rows))
  {
    forall i: nat ensures IsCurrent(rows, i) <==> i < |rows| && i == CurrentIndex(rows) { CurrentIsUnique(rows, i); }
    CurrentIsUnique(rows, 0);
  }

  /** The status changes a requested transition may make, one by one. */
  lemma LegalTransitionsListed(from: Status, to: Status)
    ensures to in LegalTransitions(from) <==>
            || (from == TRIALING && (to == ACTIVE || to == EXPIRED || to == CANCELED))
            || (from == ACTIVE && (to == PAST_DUE || to == CANCELED || to == PAUSED))
            || (from == PAST_DUE && (to == ACTIVE || to == CANCELED))
            || (from == PAUSED && (to == ACTIVE || to == CANCELED))
            || (from == CANCELED && to == EXPIRED)
  {
  }

  lemma TrialStartedOnce(rows: Rows, target: string, eligible: bool, now: int, plans: Plans)
    ensures StartsTrial(rows, target, eligible, now, plans, TrialStarted(rows, target, eligible, now, plans))
  {
    forall i: nat ensures IsCurrent(rows, i) <==> i < |rows| && i == CurrentIndex(rows) { CurrentIsUnique(rows, i); }
    CurrentIsUnique(rows, 0);
  }

  lemma TrialExpiredOnce(rows: Rows, now: int)
    ensures ClosesOverdueTrial(rows, now, TrialExpired(rows, now))
  {
    forall i: nat ensures IsCurrent(rows, i) <==> i < |rows| && i == CurrentIndex(rows) { CurrentIsUnique(rows, i); }
    CurrentIsUnique(rows, 0);
  }

  // ---------------------------------------------------------------- the services

  class SubscriptionService {
    const plans: Plans
    var rows: Rows

    constructor (plans: Plans)
      ensures this.plans == plans && rows == [FreeSubscription()]
    {
      this.plans, rows := plans, [FreeSubscription()];
    }

    /** `findFirst ... orderBy createdAt desc` over the rows that have not expired. */
    method GetCurrentSubscription() returns (index: Option<nat>)
      ensures index == if CurrentIndex(rows) < |rows| then Some(CurrentIndex(rows)) else None
    {
      var i := |rows|;
      while i > 0
        invariant 0 <= i <= |rows|
        invariant forall j :: i <= j < |rows| ==> rows[j].status == EXPIRED
      {
        i := i - 1;
        if rows[i].status != EXPIRED { return Some(i); }
      }
      index := None;
    }

    method TransitionSubscription(to: Status) returns (error: Option<BillingError>)
      modifies this
      ensures WritesStatus(old(rows), to, Outcome(rows, error))
      ensures Outcome(rows, error) == Transitioned(old(rows), to)
    {
      TransitionedWrites(rows, to);
      var current := GetCurrentSubscription();
      if current.None? { return Some(NoCurrentSubscription); }
      var row := rows[current.value];
      if row.status != to && to !in LegalTransitions(row.status) { return Some(IllegalTransition); }
      rows := rows[current.value := row.(status := to)];
      error := None;
    }

    method ChangePlan(target: string, usage: Usage) returns (error: Option<BillingError>, applied: bool)
      modifies this
      ensures ChangesPlan(old(rows), target, usage, plans, Outcome(rows, error), applied)
      ensures Outcome(rows, error) == PlanChanged(old(rows), target, usage, plans)
      ensures error.None? ==>
                && CurrentIndex(rows) < |rows|
                && (applied <==> Current(rows).planKey == target && Current(rows).pendingPlanKey.None?)
    {
      PlanChangedMeans(rows, target, usage, plans);
      applied := false;
      var current := GetCurrentSubscription();
      if current.None? { error := Some(NoCurrentSubscription); return; }
      var row := rows[current.value];
      if target !in plans || row.planKey !in plans { error := Some(UnknownPlan); return; }
      error := None;
      if row.planKey == target && row.pendingPlanKey.None? { applied := true; return; }
      if plans[target].sortOrder >= plans[row.planKey].sortOrder {
        CurrentReplaced(rows, row.(planKey := target, pendingPlanKey := None));
        rows, applied := rows[current.value := row.(planKey := target, pendingPlanKey := None)], true;
        return;
      }
      var violations := 0;
      if !Within(usage.members, plans[target].maxTeamSeats) { violations := violations + 1; }
      if !Within(usage.profiles, plans[target].maxBusinessProfiles) { violations := violations + 1; }
      if !Within(usage.workspaces, plans[target].maxWorkspaces) { violations := violations + 1; }
      if violations > 0 {
        CurrentReplaced(rows, row.(pendingPlanKey := Some(target)));
        rows := rows[current.value := row.(pendingPlanKey := Some(target))];
      } else {
        CurrentReplaced(rows, row.(planKey := target, pendingPlanKey := None));
        rows, applied := rows[current.value := row.(planKey := target, pendingPlanKey := None)], true;
      }
    }

    method RetryPendingDowngrade(usage: Usage) returns (error: Option<BillingError>)
      modifies this
      ensures SettlesPending(old(rows), usage, plans, Outcome(rows, error))
      ensures Outcome(rows, error) == PendingRetried(old(rows), usage, plans)
    {
      PendingRetriedSettles(rows, usage, plans);
      var current := GetCurrentSubscription();
      if current.None? { return Some(NoCurrentSubscription); }
      if rows[current.value].pendingPlanKey.None? { return None; }
      var applied;
      error, applied := ChangePlan(rows[current.value].pendingPlanKey.value, usage);
    }

    method CancelSubscription(immediate: bool) returns (error: Option<BillingError>)
      modifies this
      ensures if immediate then WritesStatus(old(rows), CANCELED, Outcome(rows, error)) else FlagsCancel(old(rows), true, Outcome(rows, error))
      ensures Outcome(rows, error) == if immediate then Transitioned(old(rows), CANCELED) else CancelFlagged(old(rows), true)
    {
      CancelFlagsRow(rows, true);
      if immediate {
        error := TransitionSubscription(CANCELED);
        return;
      }
      var current := GetCurrentSubscription();
      if current.None? { return Some(NoCurrentSubscription); }
      rows := rows[current.value := rows[current.value].(cancelAtPeriodEnd := true)];
      error := None;
    }

    method ReactivateSubscription() returns (error: Option<BillingError>)
      modifies this
      ensures FlagsCancel(old(rows), false, Outcome(rows, error))
      ensures Outcome(rows, error) == CancelFlagged(old(rows), false)
    {
      CancelFlagsRow(rows, false);
      var current := GetCurrentSubscription();
      if current.None? { return Some(NoCurrentSubscription); }
      if rows[current.value].cancelAtPeriodEnd {
        rows := rows[current.value := rows[current.value].(cancelAtPeriodEnd := false)];
      }
      error := None;
    }

    method StartTrial(target: string, eligible: bool, now: int) returns (error: Option<BillingError>)
      modifies this
      ensures StartsTrial(old(rows), target, eligible, now, plans, Outcome(rows, error))
      ensures Outcome(rows, error) == TrialStarted(old(rows), target, eligible, now, plans)
    {
      TrialStartedOnce(rows, target, eligible, now, plans);
      if !eligible { return Some(TrialAlreadyUsed); }
      var current := GetCurrentSubscription();
      if current.None? { return Some(NoCurrentSubscription); }
      var row := rows[current.value];
      if row.status != ACTIVE || row.planKey != FREE { return Some(IllegalTransition); }
      if target !in plans { return Some(UnknownPlan); }
      rows := rows[current.value := row.(status := TRIALING, planKey := target, trialEndsAt := Some(now + TRIAL_MS))];
      error := None;
    }

    method ConvertTrial() returns (error: Option<BillingError>)
      modifies this
      ensures ConvertsTrial(old(rows), Outcome(rows, error))
      ensures Outcome(rows, error) == TrialConverted(old(rows))
    {
      TrialConvertedOnce(rows);
      var current := GetCurrentSubscription();
      if current.None? { return Some(NoCurrentSubscription); }
      if rows[current.value].status != TRIALING { return Some(IllegalTransition); }
      rows := rows[current.value := rows[current.value].(status := ACTIVE)];
      error := None;
    }

    method ExpireTrialIfDue(now: int) returns (error: Option<BillingError>)
      modifies this
      ensures ClosesOverdueTrial(old(rows), now, Outcome(rows, error))
      ensures Outcome(rows, error) == TrialExpired(old(rows), now)
    {
      TrialExpiredOnce(rows, now);
      var current := GetCurrentSubscription();
      if current.None? { return Some(NoCurrentSubscription); }
      var row := rows[current.value];
      if row.status != TRIALING || row.trialEndsAt.None? || row.trialEndsAt.value > now { return None; }
      rows := rows[current.value := row.(status := EXPIRED)];
      rows := rows + [FreeSubscription()];
      error := None;
    }
  }

  // ---------------------------------------------------------------- runs

  datatype Event =
    | TransitionTo(to: Status)
    | ChangePlanTo(target: string, usage: Usage)
    | RetryPending(usage: Usage)
    | FlagCancel(cancel: bool)
    | StartTrial(target: string, eligible: bool, now: int)
    | ConvertTrial
    | ExpireTrial(now: int)

  function Handle(rows: Rows, e: Event, plans: Plans): Rows {
    match e
    case TransitionTo(to) => Transitioned(rows, to).rows
    case ChangePlanTo(target, usage) => PlanChanged(rows, target, usage, plans).rows
    case RetryPending(usage) => PendingRetried(rows, usage, plans).rows
    case FlagCancel(cancel) => CancelFlagged(rows, cancel).rows
    case StartTrial(target, eligible, now) => TrialStarted(rows, target, eligible, now, plans).rows
    case ConvertTrial => TrialConverted(rows).rows
    case ExpireTrial(now) => TrialExpired(rows, now).rows
  }

  function Run(rows: Rows, events: seq<Event>, plans: Plans): Rows {
    if events == [] then rows else Handle(Run(rows, events[..|events| - 1], plans), events[|events| - 1], plans)
  }

  /** A new workspace. */
  function Fresh(): Rows {
    [FreeSubscription()]
  }

  // ---------------------------------------------------------------- the invariant

  /** The plan is known, and a pending plan ranks strictly below it. */
  predicate RowOk(row: Subscription, plans: Plans) {
    && row.planKey in plans
    && (row.pendingPlanKey.Some? ==>
          row.pendingPlanKey.value in plans && plans[row.pendingPlanKey.value].sortOrder < plans[row.planKey].sortOrder)
  }

  /** Only the newest row may be current. */
  ghost predicate Inv(rows: Rows, plans: Plans) {
    && rows != []
    && (forall i :: 0 <= i < |rows| - 1 ==> rows[i].status == EXPIRED)
    && (forall i :: 0 <= i < |rows| ==> RowOk(rows[i], plans))
  }

  predicate HasCurrent(rows: Rows) {
    rows != [] && rows[|rows| - 1].status != EXPIRED
  }

  lemma CurrentIsLast(rows: Rows, plans: Plans)
    requires Inv(rows, plans)
    ensures HasCurrent(rows) <==> CurrentIndex(rows) < |rows|
    ensures HasCurrent(rows) ==> CurrentIndex(rows) == |rows| - 1
  {
  }

  /** On the free plan nothing can be pending, so a trial never starts with a pending plan. */
  lemma TrialSeesNoPending(rows: Rows, plans: Plans)
    requires Inv(rows, plans) && Graded(plans) && HasCurrent(rows) && rows[|rows| - 1].planKey == FREE
    ensures rows[|rows| - 1].pendingPlanKey == None
  {
    assert RowOk(rows[|rows| - 1], plans);
  }

  lemma EventKeepsInv(rows: Rows, e: Event, plans: Plans)
    requires Inv(rows, plans) && Graded(plans)
    ensures Inv(Handle(rows, e, plans), plans)
    ensures HasCurrent(rows) && e != TransitionTo(EXPIRED) ==> HasCurrent(Handle(rows, e, plans))
    ensures !HasCurrent(rows) ==> Handle(rows, e, plans) == rows
  {
    CurrentIsLast(rows, plans);
    if HasCurrent(rows) {
      assert RowOk(rows[|rows| - 1], plans);
      if rows[|rows| - 1].planKey == FREE { TrialSeesNoPending(rows, plans); }
    }
  }

  lemma FreshOk(plans: Plans)
    requires Graded(plans)
    ensures Inv(Fresh(), plans) && HasCurrent(Fresh())
  {
  }

  /**
   * Over every run: at most one subscription that has not expired, always the
   * newest, and a pending plan strictly below the current one. There is exactly one
   * unless a transition to EXPIRED is asked for, which no caller does.
   */
  lemma {:induction false} RunKeepsInv(rows: Rows, events: seq<Event>, plans: Plans)
    requires Graded(plans) && Inv(rows, plans)
    ensures Inv(Run(rows, events, plans), plans)
    ensures HasCurrent(rows) && (forall k :: 0 <= k < |events| ==> events[k] != TransitionTo(EXPIRED)) ==> HasCurrent(Run(rows, events, plans))
  {
    if events != [] {
      RunKeepsInv(rows, events[..|events| - 1], plans);
      EventKeepsInv(Run(rows, events[..|events| - 1], plans), events[|events| - 1], plans);
    }
  }

  /** After a requested expiry the workspace has no subscription, and no operation ever brings one back. */
  lemma {:induction false} ExpiryIsFinal(rows: Rows, events: seq<Event>, plans: Plans)
    requires Graded(plans) && Inv(rows, plans) && !HasCurrent(rows)
    ensures Run(rows, events, plans) == rows
  {
    if events != [] {
      ExpiryIsFinal(rows, events[..|events| - 1], plans);
      EventKeepsInv(rows, events[|events| - 1], plans);
    }
  }

  /** A transition to EXPIRED meets a status from which the table allows it. */
  predicate EndsCurrent(rows: Rows, e: Event) {
    e == TransitionTo(EXPIRED) && HasCurrent(rows) && EXPIRED in LegalTransitions(rows[|rows| - 1].status)
  }

  predicate EndsAt(rows: Rows, events: seq<Event>, k: nat, plans: Plans) {
    k < |events| && EndsCurrent(Run(rows, events[..k], plans), events[k])
  }

  ghost predicate SomeEnds(rows: Rows, events: seq<Event>, plans: Plans) {
    exists k: nat :: EndsAt(rows, events, k, plans)
  }

  lemma StepEndsIff(rows: Rows, e: Event, plans: Plans)
    requires Inv(rows, plans) && HasCurrent(rows)
    ensures HasCurrent(Handle(rows, e, plans)) <==> !EndsCurrent(rows, e)
  {
    CurrentIsLast(rows, plans);
  }

  lemma EndsAtPrefix(rows: Rows, events: seq<Event>, n: nat, k: nat, plans: Plans)
    requires k < n <= |events|
    ensures EndsAt(rows, events[..n], k, plans) <==> EndsAt(rows, events, k, plans)
  {
    assert events[..n][..k] == events[..k];
  }

  lemma EndsBy(rows: Rows, events: seq<Event>, plans: Plans)
    requires events != []
    ensures SomeEnds(rows, events, plans) <==>
            || SomeEnds(rows, events[..|events| - 1], plans)
            || EndsCurrent(Run(rows, events[..|events| - 1], plans), events[|events| - 1])
  {
    var n := |events| - 1;
    forall k: nat | k < n ensures EndsAt(rows, events[..n], k, plans) <==> EndsAt(rows, events, k, plans) { EndsAtPrefix(rows, events, n, k, plans); }
    assert EndsAt(rows, events, n, plans) <==> EndsCurrent(Run(rows, events[..n], plans), events[n]);
  }

  lemma {:induction false} CurrentEndsIff(rows: Rows, events: seq<Event>, plans: Plans)
    requires Graded(plans) && Inv(rows, plans) && HasCurrent(rows)
    ensures HasCurrent(Run(rows, events, plans)) <==> !SomeEnds(rows, events, plans)
  {
    if events != [] {
      var n := |events| - 1;
      CurrentEndsIff(rows, events[..n], plans);
      EndsBy(rows, events, plans);
      RunKeepsInv(rows, events[..n], plans);
      if HasCurrent(Run(rows, events[..n], plans)) {
        StepEndsIff(Run(rows, events[..n], plans), events[n], plans);
      } else {
        EventKeepsInv(Run(rows, events[..n], plans), events[n], plans);
      }
    }
  }

  /**
   * Over every run of a new workspace: it has a current subscription at the end if
   * and only if no transition to EXPIRED met a status that allows it.
   */
  lemma CurrentRemainsIff(events: seq<Event>, plans: Plans)
    requires Graded(plans)
    ensures HasCurrent(Run(Fresh(), events, plans)) <==> !SomeEnds(Fresh(), events, plans)
  {
    FreshOk(plans);
    CurrentEndsIff(Fresh(), events, plans);
  }

  lemma RunTwo(rows: Rows, first: Event, second: Event, plans: Plans)
    ensures Run(rows, [first, second], plans) == Handle(Handle(rows, first, plans), second, plans)
  {
    assert [first, second][..1] == [first] && [first][..0] == [];
    assert Run(rows, [], plans) == rows;
    assert Run(rows, [first], plans) == Handle(rows, first, plans);
  }

  /** Such a run exists: cancel at once, then expire. */
  lemma ExpiryIsReachable(plans: Plans)
    requires Graded(plans)
    ensures !HasCurrent(Run(Fresh(), [TransitionTo(CANCELED), TransitionTo(EXPIRED)], plans))
  {
    RunTwo(Fresh(), TransitionTo(CANCELED), TransitionTo(EXPIRED), plans);
    assert Handle(Fresh(), TransitionTo(CANCELED), plans) == [FreeSubscription().(status := CANCELED)];
  }

  // ---------------------------------------------------------------- statuses and limits

  /** Status writes follow the table, except that a trial starts from ACTIVE. */
  lemma StatusWritesAreLegal(rows: Rows, e: Event, plans: Plans, i: nat)
    requires Inv(rows, plans) && i < |rows|
    ensures i < |Handle(rows, e, plans)|
    ensures var from, to := rows[i].status, Handle(rows, e, plans)[i].status;
            from != to ==> to in LegalTransitions(from) || (e.StartTrial? && from == ACTIVE && to == TRIALING)
    ensures rows[i].status == EXPIRED ==> Handle(rows, e, plans)[i] == rows[i]
  {
    CurrentIsLast(rows, plans);
  }

  ghost predicate CurrentFits(rows: Rows, usage: Usage, plans: Plans) {
    HasCurrent(rows) && rows[|rows| - 1].planKey in plans ==> Fits(plans[rows[|rows| - 1].planKey], usage)
  }

  /** What an event reads of the usage is the actual usage. */
  predicate Truthful(e: Event, usage: Usage) {
    (e.ChangePlanTo? || e.RetryPending?) ==> e.usage == usage
  }

  /** An overdue trial of a workspace that is over the free limits expires. */
  predicate ExpiresOverLimit(rows: Rows, e: Event, usage: Usage, plans: Plans)
    requires FREE in plans
  {
    e.ExpireTrial? && HasCurrent(rows) && Overdue(rows[|rows| - 1], e.now) && !Fits(plans[FREE], usage)
  }

  /** A workspace that fits its plan still fits after an operation, except exactly when that expires such a trial. */
  lemma FitIsKeptIff(rows: Rows, e: Event, usage: Usage, plans: Plans)
    requires Inv(rows, plans) && Graded(plans) && Truthful(e, usage) && CurrentFits(rows, usage, plans)
    ensures CurrentFits(Handle(rows, e, plans), usage, plans) <==> !ExpiresOverLimit(rows, e, usage, plans)
  {
    CurrentIsLast(rows, plans);
    if HasCurrent(rows) {
      var row := rows[|rows| - 1];
      assert RowOk(row, plans);
      if e.ChangePlanTo? && e.target in plans && plans[e.target].sortOrder >= plans[row.planKey].sortOrder {
        SmallerFits(plans[row.planKey], plans[e.target], usage);
      } else if e.StartTrial? && row.planKey == FREE && e.target in plans {
        SmallerFits(plans[FREE], plans[e.target], usage);
      }
    } else {
      EventKeepsInv(rows, e, plans);
    }
  }

  /** Some event of the run expires a trial over the free limits. */
  ghost predicate SomeExpiresOverLimit(rows: Rows, events: seq<Event>, usage: Usage, plans: Plans)
    requires FREE in plans
  {
    exists k :: 0 <= k < |events| && ExpiresOverLimit(Run(rows, events[..k], plans), events[k], usage, plans)
  }

  ghost predicate FitsThroughout(rows: Rows, events: seq<Event>, usage: Usage, plans: Plans) {
    forall k :: 0 <= k <= |events| ==> CurrentFits(Run(rows, events[..k], plans), usage, plans)
  }

  lemma RunNext(rows: Rows, events: seq<Event>, k: nat, plans: Plans)
    requires k < |events|
    ensures Run(rows, events[..k + 1], plans) == Handle(Run(rows, events[..k], plans), events[k], plans)
  {
    assert events[..k + 1][..k] == events[..k];
  }

  lemma PrefixKeepsInv(rows: Rows, events: seq<Event>, k: nat, plans: Plans)
    requires Graded(plans) && Inv(rows, plans) && k <= |events|
    ensures Inv(Run(rows, events[..k], plans), plans)
  {
    RunKeepsInv(rows, events[..k], plans);
  }

  lemma {:induction false} FitsUntil(rows: Rows, events: seq<Event>, k: nat, usage: Usage, plans: Plans)
    requires Graded(plans) && Inv(rows, plans) && CurrentFits(rows, usage, plans) && k <= |events|
    requires forall i :: 0 <= i < |events| ==> Truthful(events[i], usage)
    requires !SomeExpiresOverLimit(rows, events, usage, plans)
    ensures CurrentFits(Run(rows, events[..k], plans), usage, plans)
  {
    if k > 0 {
      FitsUntil(rows, events, k - 1, usage, plans);
      PrefixKeepsInv(rows, events, k - 1, plans);
      RunNext(rows, events, k - 1, plans);
      FitIsKeptIff(Run(rows, events[..k - 1], plans), events[k - 1], usage, plans);
    } else {
      assert events[..0] == [];
    }
  }

  /**
   * Over every run with unchanged usage that starts within its limits: the workspace
   * is within its limits at every moment if and only if no trial expires over the
   * free limits. Plan changes never break the fit.
   */
  lemma FitsThroughoutIff(rows: Rows, events: seq<Event>, usage: Usage, plans: Plans)
    requires Graded(plans) && Inv(rows, plans) && CurrentFits(rows, usage, plans)
    requires forall i :: 0 <= i < |events| ==> Truthful(events[i], usage)
    ensures FitsThroughout(rows, events, usage, plans) <==> !SomeExpiresOverLimit(rows, events, usage, plans)
  {
    if SomeExpiresOverLimit(rows, events, usage, plans) {
      var k: nat :| k < |events| && ExpiresOverLimit(Run(rows, events[..k], plans), events[k], usage, plans);
      PrefixKeepsInv(rows, events, k, plans);
      RunNext(rows, events, k, plans);
      if CurrentFits(Run(rows, events[..k], plans), usage, plans) {
        FitIsKeptIff(Run(rows, events[..k], plans), events[k], usage, plans);
        assert !CurrentFits(Run(rows, events[..k + 1], plans), usage, plans);
      }
    } else {
      forall k | 0 <= k <= |events| ensures CurrentFits(Run(rows, events[..k], plans), usage, plans) {
        FitsUntil(rows, events, k, usage, plans);
      }
    }
  }

  /** A plan the workspace waits for is one it does not fit. */
  ghost predicate PendingUnfit(rows: Rows, usage: Usage, plans: Plans) {
    HasCurrent(rows) && rows[|rows| - 1].pendingPlanKey.Some? ==>
      rows[|rows| - 1].pendingPlanKey.value in plans && !Fits(plans[rows[|rows| - 1].pendingPlanKey.value], usage)
  }

  lemma EventKeepsPendingUnfit(rows: Rows, e: Event, usage: Usage, plans: Plans)
    requires Inv(rows, plans) && Graded(plans) && Truthful(e, usage) && PendingUnfit(rows, usage, plans)
    ensures PendingUnfit(Handle(rows, e, plans), usage, plans)
  {
    CurrentIsLast(rows, plans);
    if HasCurrent(rows) { assert RowOk(rows[|rows| - 1], plans); } else { EventKeepsInv(rows, e, plans); }
  }

  /** Over every run with unchanged usage: a downgrade is pending only while usage does not fit its plan. */
  lemma {:induction false} PendingOnlyWhenUnfit(rows: Rows, events: seq<Event>, usage: Usage, plans: Plans)
    requires Graded(plans) && Inv(rows, plans) && PendingUnfit(rows, usage, plans)
    requires forall i :: 0 <= i < |events| ==> Truthful(events[i], usage)
    ensures PendingUnfit(Run(rows, events, plans), usage, plans)
  {
    if events != [] {
      PendingOnlyWhenUnfit(rows, events[..|events| - 1], usage, plans);
      RunKeepsInv(rows, events[..|events| - 1], plans);
      EventKeepsPendingUnfit(Run(rows, events[..|events| - 1], plans), events[|events| - 1], usage, plans);
    }
  }

  /** Once usage fits, the retry applies the pending downgrade and clears it. */
  lemma PendingResolves(rows: Rows, usage: Usage, plans: Plans)
    requires Inv(rows, plans) && HasCurrent(rows) && rows[|rows| - 1].pendingPlanKey.Some?
    requires Fits(plans[rows[|rows| - 1].pendingPlanKey.value], usage)
    ensures var after := PendingRetried(rows, usage, plans).rows;
            HasCurrent(after) && after[|after| - 1].planKey == rows[|rows| - 1].pendingPlanKey.value && after[|after| - 1].pendingPlanKey.None?
  {
    CurrentIsLast(rows, plans);
    assert RowOk(rows[|rows| - 1], plans);
  }

  /** A trial workspace that outgrew the free plan is over its limits once the trial expires. */
  lemma TrialExpiryIgnoresLimits(plans: Plans, target: string, usage: Usage)
    requires Graded(plans) && target in plans && !Fits(plans[FREE], usage)
    ensures var rows := Run(Fresh(), [StartTrial(target, true, 0), ExpireTrial(TRIAL_MS)], plans);
            HasCurrent(rows) && rows[|rows| - 1].planKey == FREE && !CurrentFits(rows, usage, plans)
  {
    RunTwo(Fresh(), StartTrial(target, true, 0), ExpireTrial(TRIAL_MS), plans);
    var trial := Subscription(target, None, TRIALING, false, Some(TRIAL_MS));
    assert Handle(Fresh(), StartTrial(target, true, 0), plans) == [trial];
    assert Handle([trial], ExpireTrial(TRIAL_MS), plans) == [trial.(status := EXPIRED), FreeSubscription()];
  }
}
