/**
 * Removals and role changes by any number of callers. A call counts the owners first
 * and writes in a later transaction; the steps of other calls may fall in between.
 */
module TeamOwnerRace {
  import opened Common
  import opened TeamSeats

  datatype Change = Remove | Assign(role: Role)

  /** A call past its checks. The owners it counted are kept for the proofs alone. */
  datatype Call = Call(user: string, change: Change, counted: set<string>)

  datatype State = State(team: Team, calls: map<nat, Call>)

  /** Who may make an owner is left to `TeamSeats`: here any caller may. */
  datatype Action = Check(caller: nat, user: string, change: Change) | Write(caller: nat)

  /** Everything but making an owner can take one away. */
  predicate Takes(change: Change) {
    change != Assign(OWNER)
  }

  predicate Passes(team: Team, user: string, change: Change) {
    Present(team, user) && (Takes(change) ==> !LastOwner(team, user))
  }

  function Changed(m: Member, change: Change): Member {
    match change
    case Remove => m.(status := REMOVED, deleted := true)
    case Assign(role) => m.(role := role)
  }

  predicate Enabled(s: State, a: Action) {
    match a
    case Check(caller, user, change) => caller !in s.calls && Passes(s.team, user, change)
    case Write(caller) => caller in s.calls && s.calls[caller].user in s.team.members
  }

  /** A refused check changes nothing; a write goes to the row it looked up, whatever that row holds by then. */
  function Next(s: State, a: Action): State {
    if !Enabled(s, a) then s
    else
      match a
      case Check(caller, user, change) => s.(calls := s.calls[caller := Call(user, change, ActiveOwners(s.team))])
      case Write(caller) =>
        var call := s.calls[caller];
        State(SetMember(s.team, call.user, Changed(s.team.members[call.user], call.change)), s.calls - {caller})
  }

  function Run(s: State, actions: seq<Action>): State
    decreases |actions|
  {
    if actions == [] then s else Run(Next(s, actions[0]), actions[1..])
  }

  /** A check with its write right after it is the operation of `TeamSeats`. */
  lemma {:induction false} UninterruptedRemoval(s: State, caller: nat, user: string)
    requires caller !in s.calls
    ensures Run(s, [Check(caller, user, Remove), Write(caller)]).team == MemberRemoved(s.team, user).team
  {
    var first := Next(s, Check(caller, user, Remove));
    assert [Check(caller, user, Remove), Write(caller)][1..] == [Write(caller)] && [Write(caller)][1..] == [];
    assert Run(first, [Write(caller)]) == Run(Next(first, Write(caller)), []);
  }

  // ---------------------------------------------------------------- when an owner remains

  /** The write would take the only active owner. */
  predicate TakesLast(s: State, a: Action) {
    a.Write? && Enabled(s, a) && Takes(s.calls[a.caller].change) && ActiveOwners(s.team) <= {s.calls[a.caller].user}
  }

  /** A step leaves an owner exactly when it is not such a write: counting again in the write's transaction would do. */
  lemma StepLeavesOwnerIff(s: State, a: Action)
    requires ActiveOwners(s.team) != {}
    ensures ActiveOwners(Next(s, a).team) != {} <==> !TakesLast(s, a)
  {
    if a.Write? && Enabled(s, a) {
      var user := s.calls[a.caller].user;
      var m := Changed(s.team.members[user], s.calls[a.caller].change);
      UpdateMovesOwner(s.team, user, m);
      if !(ActiveOwners(s.team) <= {user}) {
        var other :| other in ActiveOwners(s.team) && other != user;
        assert other in ActiveOwners(Next(s, a).team);
      } else {
        assert ActiveOwners(s.team) == {user};
        assert ActiveOwners(s.team) - {user} == {};
      }
    }
  }

  predicate Owned(s: State, actions: seq<Action>)
    decreases |actions|
  {
    ActiveOwners(s.team) != {} && (actions != [] ==> Owned(Next(s, actions[0]), actions[1..]))
  }

  predicate NoLastTaken(s: State, actions: seq<Action>)
    decreases |actions|
  {
    actions != [] ==> !TakesLast(s, actions[0]) && NoLastTaken(Next(s, actions[0]), actions[1..])
  }

  /** Over every run: the team has an active owner at every moment if and only if no write takes the last one. */
  lemma {:induction false} OwnedIff(s: State, actions: seq<Action>)
    requires ActiveOwners(s.team) != {}
    ensures Owned(s, actions) <==> NoLastTaken(s, actions)
    decreases |actions|
  {
    if actions != [] {
      StepLeavesOwnerIff(s, actions[0]);
      if !TakesLast(s, actions[0]) { OwnedIff(Next(s, actions[0]), actions[1..]); }
    }
  }

  // ---------------------------------------------------------------- when no write can take the last owner

  predicate CallOk(call: Call) {
    Takes(call.change) ==> !(call.counted <= {call.user})
  }

  /** Every call past its checks counted an owner other than its target. */
  predicate Inv(s: State) {
    ActiveOwners(s.team) != {} && forall c :: c in s.calls ==> CallOk(s.calls[c])
  }

  /** None of the owners this call counted has gone since. */
  predicate CountStands(s: State, a: Action) {
    a.Write? && a.caller in s.calls ==> s.calls[a.caller].counted <= ActiveOwners(s.team)
  }

  predicate CountsStand(s: State, actions: seq<Action>)
    decreases |actions|
  {
    actions != [] ==> CountStands(s, actions[0]) && CountsStand(Next(s, actions[0]), actions[1..])
  }

  lemma CountedElse(call: Call, owners: set<string>)
    requires CallOk(call) && Takes(call.change) && call.counted <= owners
    ensures !(owners <= {call.user})
  {
    var other :| other in call.counted && other !in {call.user};
    assert other in owners;
  }

  lemma StepKeepsInv(s: State, a: Action)
    requires Inv(s) && CountStands(s, a)
    ensures Inv(Next(s, a)) && !TakesLast(s, a)
  {
    if Enabled(s, a) {
      match a
      case Check(caller, user, change) =>
        if Takes(change) {
          OwnersLeft(s.team, user);
          assert !(ActiveOwners(s.team) <= {user});
        }
      case Write(caller) =>
        var call := s.calls[caller];
        assert CallOk(call);
        if Takes(call.change) { CountedElse(call, ActiveOwners(s.team)); }
        StepLeavesOwnerIff(s, a);
    }
  }

  /** Over every run in which no write comes after an owner it counted has gone, an active owner always remains. */
  lemma {:induction false} OwnerRemains(s: State, actions: seq<Action>)
    requires Inv(s) && CountsStand(s, actions)
    ensures Owned(s, actions) && ActiveOwners(Run(s, actions).team) != {}
    decreases |actions|
  {
    if actions != [] {
      StepKeepsInv(s, actions[0]);
      OwnerRemains(Next(s, actions[0]), actions[1..]);
    }
  }

  // ---------------------------------------------------------------- which counts are dangerous

  /** A call past its count is about to take this user away. */
  predicate Targeted(s: State, user: string) {
    exists c :: c in s.calls && s.calls[c].user == user && Takes(s.calls[c].change)
  }

  /** The active owners that no call in flight is about to take away. */
  function SafeOwners(s: State): set<string> {
    set u | u in ActiveOwners(s.team) && !Targeted(s, u)
  }

  predicate OnlyWrites(actions: seq<Action>) {
    forall i :: 0 <= i < |actions| ==> actions[i].Write?
  }

  /** The calls in flight can leave the team without an owner, no further count needed. */
  ghost predicate CanLoseAll(s: State) {
    exists writes :: OnlyWrites(writes) && ActiveOwners(Run(s, writes).team) == {}
  }

  lemma WriteMovesOwner(s: State, c: nat)
    requires Enabled(s, Write(c))
    ensures var t := Next(s, Write(c));
            && t.calls == s.calls - {c} && s.team.members.Keys == t.team.members.Keys
            && (forall u :: u != s.calls[c].user ==> (u in ActiveOwners(t.team) <==> u in ActiveOwners(s.team)))
            && (Takes(s.calls[c].change) ==> s.calls[c].user !in ActiveOwners(t.team))
            && (!Takes(s.calls[c].change) && s.calls[c].user in ActiveOwners(s.team) ==> s.calls[c].user in ActiveOwners(t.team))
  {
    UpdateMovesOwner(s.team, s.calls[c].user, Changed(s.team.members[s.calls[c].user], s.calls[c].change));
  }

  lemma WriteKeepsSafeOwner(s: State, c: nat, u: string)
    requires u in SafeOwners(s)
    ensures u in SafeOwners(Next(s, Write(c)))
  {
    if Enabled(s, Write(c)) {
      WriteMovesOwner(s, c);
      assert s.calls[c].user == u ==> !Takes(s.calls[c].change);
      assert forall d :: d in Next(s, Write(c)).calls ==> d in s.calls && s.calls[d] == Next(s, Write(c)).calls[d];
    }
  }

  lemma {:induction false} WritesKeepSafeOwner(s: State, writes: seq<Action>, u: string)
    requires OnlyWrites(writes) && u in SafeOwners(s)
    ensures u in ActiveOwners(Run(s, writes).team)
    decreases |writes|
  {
    if writes != [] {
      WriteKeepsSafeOwner(s, writes[0].caller, u);
      WritesKeepSafeOwner(Next(s, writes[0]), writes[1..], u);
    }
  }

  /** One write of a call that targets an owner leaves every other owner where it was, still targeted. */
  lemma StillTargeted(s: State, c: nat)
    requires SafeOwners(s) == {} && c in s.calls && Takes(s.calls[c].change) && s.calls[c].user in ActiveOwners(s.team)
    ensures SafeOwners(Next(s, Write(c))) == {} && ActiveOwners(Next(s, Write(c)).team) == ActiveOwners(s.team) - {s.calls[c].user}
  {
    var t := Next(s, Write(c));
    WriteMovesOwner(s, c);
    forall u | u in ActiveOwners(t.team) ensures Targeted(t, u) {
      assert u in ActiveOwners(s.team) && u !in SafeOwners(s);
      var d :| d in s.calls && s.calls[d].user == u && Takes(s.calls[d].change);
      assert d in t.calls && t.calls[d] == s.calls[d];
    }
  }

  lemma {:induction false} WritesTakeAll(s: State)
    requires SafeOwners(s) == {}
    ensures CanLoseAll(s)
    decreases ActiveOwners(s.team)
  {
    if ActiveOwners(s.team) == {} {
      assert OnlyWrites([]) && Run(s, []) == s;
    } else {
      var u :| u in ActiveOwners(s.team);
      assert u !in SafeOwners(s);
      var c :| c in s.calls && s.calls[c].user == u && Takes(s.calls[c].change);
      StillTargeted(s, c);
      WritesTakeAll(Next(s, Write(c)));
      var rest :| OnlyWrites(rest) && ActiveOwners(Run(Next(s, Write(c)), rest).team) == {};
      var writes := [Write(c)] + rest;
      assert writes[1..] == rest && OnlyWrites(writes);
    }
  }

  /** From every state: the calls past their counts can leave no owner if and only if they target every active one. */
  lemma CanLoseAllIff(s: State)
    ensures CanLoseAll(s) <==> forall u :: u in ActiveOwners(s.team) ==> Targeted(s, u)
  {
    if SafeOwners(s) == {} {
      WritesTakeAll(s);
      forall u | u in ActiveOwners(s.team) ensures Targeted(s, u) { assert u !in SafeOwners(s); }
    } else {
      var u :| u in SafeOwners(s);
      forall writes | OnlyWrites(writes) ensures ActiveOwners(Run(s, writes).team) != {} {
        WritesKeepSafeOwner(s, writes, u);
      }
    }
  }

  /** The exact guard at the count: it is dangerous to pass if and only if it would target the last owner no call targets yet. */
  lemma CountIsDangerousIff(s: State, caller: nat, user: string, change: Change)
    requires SafeOwners(s) != {} && Enabled(s, Check(caller, user, change))
    ensures CanLoseAll(Next(s, Check(caller, user, change))) <==> Takes(change) && SafeOwners(s) == {user}
  {
    var t := Next(s, Check(caller, user, change));
    CanLoseAllIff(t);
    forall u ensures Targeted(t, u) <==> Targeted(s, u) || (u == user && Takes(change)) {
      CheckTargets(s, caller, user, change, u);
    }
    if Takes(change) && SafeOwners(s) == {user} {
      forall u | u in ActiveOwners(t.team) ensures Targeted(t, u) { assert u in SafeOwners(s) ==> u == user; }
    } else {
      var u :| u in SafeOwners(s) && (Takes(change) ==> u != user);
      assert u in ActiveOwners(t.team) && !Targeted(t, u);
    }
  }

  lemma CheckTargets(s: State, caller: nat, user: string, change: Change, u: string)
    requires Enabled(s, Check(caller, user, change))
    ensures Targeted(Next(s, Check(caller, user, change)), u) <==> Targeted(s, u) || (u == user && Takes(change))
  {
    var t := Next(s, Check(caller, user, change));
    if Targeted(s, u) {
      var c :| c in s.calls && s.calls[c].user == u && Takes(s.calls[c].change);
      assert c in t.calls && t.calls[c] == s.calls[c];
    }
    if u == user && Takes(change) { assert caller in t.calls; }
  }

  /** The check passes although it targets the last owner that no call targets yet. */
  predicate TargetsLast(s: State, a: Action) {
    a.Check? && Enabled(s, a) && Takes(a.change) && SafeOwners(s) == {a.user}
  }

  predicate NoneTargetsLast(s: State, actions: seq<Action>)
    decreases |actions|
  {
    actions != [] ==> !TargetsLast(s, actions[0]) && NoneTargetsLast(Next(s, actions[0]), actions[1..])
  }

  lemma StepKeepsSafeOwner(s: State, a: Action)
    requires SafeOwners(s) != {} && !TargetsLast(s, a)
    ensures SafeOwners(Next(s, a)) != {} && !TakesLast(s, a)
  {
    var u :| u in SafeOwners(s) && (a.Check? && Takes(a.change) && SafeOwners(s) != {a.user} ==> u != a.user);
    match a
    case Check(caller, user, change) =>
      if Enabled(s, a) {
        CheckTargets(s, caller, user, change, u);
        assert u in SafeOwners(Next(s, a));
      }
    case Write(caller) =>
      WriteKeepsSafeOwner(s, caller, u);
      StepLeavesOwnerIff(s, a);
  }

  /** Over every run: when each count leaves an owner that no call targets, an active owner remains at every moment. */
  lemma {:induction false} CarefulCountsKeepOwner(s: State, actions: seq<Action>)
    requires SafeOwners(s) != {} && NoneTargetsLast(s, actions)
    ensures Owned(s, actions)
  {
    NoneTaken(s, actions);
    OwnedIff(s, actions);
  }

  lemma {:induction false} NoneTaken(s: State, actions: seq<Action>)
    requires SafeOwners(s) != {} && NoneTargetsLast(s, actions)
    ensures NoLastTaken(s, actions)
    decreases |actions|
  {
    if actions != [] {
      StepKeepsSafeOwner(s, actions[0]);
      NoneTaken(Next(s, actions[0]), actions[1..]);
    }
  }

  // ---------------------------------------------------------------- the race

  lemma RunFour(s: State, a: Action, b: Action, c: Action, d: Action)
    ensures Run(s, [a, b, c, d]) == Next(Next(Next(Next(s, a), b), c), d)
  {
    assert [a, b, c, d][1..] == [b, c, d] && [b, c, d][1..] == [c, d] && [c, d][1..] == [d] && [d][1..] == [];
    assert Run(s, [a, b, c, d]) == Run(Next(Next(s, a), b), [c, d]);
    assert Run(Next(Next(Next(s, a), b), c), [d]) == Run(Next(Next(Next(Next(s, a), b), c), d), []);
  }

  lemma TwoRemovals(team: Team, a: string, b: string)
    requires a != b && {a, b} <= ActiveOwners(team)
    ensures !LastOwner(team, a) && !LastOwner(team, b)
  {
    SubsetSize({a, b}, ActiveOwners(team));
  }

  /** Two owners are removed, both counted before either write: no owner is left exactly when there were only these two. */
  lemma {:induction false} RemovalsRaceIff(team: Team, a: string, b: string)
    requires a != b && {a, b} <= ActiveOwners(team)
    ensures var s := Run(State(team, map[]), [Check(0, a, Remove), Check(1, b, Remove), Write(0), Write(1)]);
            ActiveOwners(s.team) == {} <==> ActiveOwners(team) == {a, b}
  {
    RunFour(State(team, map[]), Check(0, a, Remove), Check(1, b, Remove), Write(0), Write(1));
    TwoRemovals(team, a, b);
    var ma := Changed(team.members[a], Remove);
    var one := SetMember(team, a, ma);
    UpdateMovesOwner(team, a, ma);
    UpdateMovesOwner(one, b, Changed(one.members[b], Remove));
    var both := Next(Next(State(team, map[]), Check(0, a, Remove)), Check(1, b, Remove));
    assert both == State(team, map[0 := Call(a, Remove, ActiveOwners(team)), 1 := Call(b, Remove, ActiveOwners(team))]);
    assert Next(both, Write(0)).team == one && Next(both, Write(0)).calls[1].user == b;
    assert ActiveOwners(Next(Next(both, Write(0)), Write(1)).team) == ActiveOwners(team) - {a} - {b};
    assert ActiveOwners(team) - {a} - {b} == {} <==> ActiveOwners(team) == {a, b};
  }
}
