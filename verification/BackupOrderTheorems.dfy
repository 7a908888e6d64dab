/** What the insertion order and the broken edges of a backup guarantee, and where the code falls short. */
module BackupOrderTheorems {
  import opened Common
  import opened Names
  import opened FkGraph
  import opened BackupOrder

  // ---------------------------------------------------------------- topologicalSort

  ghost predicate DepsEarlier(order: seq<string>, scope: set<string>, edges: seq<FkEdge>) {
    forall i, d :: 0 <= i < |order| && d in Deps(order[i], edges) && d in scope ==> d in order[..i]
  }

  /** Each table once, after every in-scope table it references. */
  ghost predicate TopologicalOrder(order: seq<string>, scope: set<string>, edges: seq<FkEdge>) {
    NoDuplicates(order) && NameSet(order) == scope && DepsEarlier(order, scope, edges)
  }

  lemma AppendLayer(done: seq<string>, layer: seq<string>, scope: set<string>, edges: seq<FkEdge>)
    requires NoDuplicates(done) && DepsEarlier(done, scope, edges)
    requires Ascending(layer) && NameSet(layer) !! NameSet(done)
    requires forall t :: t in layer ==> Deps(t, edges) <= NameSet(done)
    ensures NoDuplicates(done + layer) && DepsEarlier(done + layer, scope, edges)
    ensures NameSet(done + layer) == NameSet(done) + NameSet(layer)
  {
    var all := done + layer;
    forall i, j | 0 <= i < j < |all| ensures all[i] != all[j] {
      if i >= |done| {
        BeforeTrichotomy(all[i], all[j]);
        assert Before(layer[i - |done|], layer[j - |done|]);
      } else if j >= |done| {
        assert all[i] in NameSet(done) && all[j] in NameSet(layer);
      }
    }
    forall i, d | 0 <= i < |all| && d in Deps(all[i], edges) && d in scope ensures d in all[..i] {
      if i < |done| {
        assert all[..i] == done[..i];
      } else {
        assert all[i] in layer && d in NameSet(done);
        assert all[..i] == done + layer[..i - |done|];
      }
    }
  }

  lemma {:induction false} LayersSound(rem: set<string>, done: seq<string>, scope: set<string>, edges: seq<FkEdge>)
    requires rem <= scope && NameSet(done) == scope - rem
    requires NoDuplicates(done) && DepsEarlier(done, scope, edges)
    ensures var r := Layers(rem, done, scope, edges);
            && (r.Ok? ==> TopologicalOrder(r.value, scope, edges) && Peel(rem, scope, edges) == {})
            && (r.Err? ==> r.error != {} && r.error == Peel(rem, scope, edges))
    decreases rem
  {
    var ready := ReadySet(rem, scope, edges);
    if rem != {} && ready != {} {
      var layer := Listing(ready);
      assert forall t :: t in layer ==> t in NameSet(layer);
      AppendLayer(done, layer, scope, edges);
      LayersSound(rem - ready, done + layer, scope, edges);
    }
  }

  /** A returned order is a permutation of the distinct tables with every in-scope dependency first. */
  lemma {:induction false} SortIsTopological(scope: set<string>, edges: seq<FkEdge>)
    ensures var r := SortOutcome(scope, edges);
            && (r.Ok? ==> TopologicalOrder(r.value, scope, edges))
            && (r.Err? ==> r.error != {} && GreatestBlocked(r.error, scope, InScope(edges, scope)))
  {
    var inner := InScope(edges, scope);
    LayersSound(scope, [], scope, inner);
    StuckIsGreatestBlocked(scope, inner);
    var r := SortOutcome(scope, edges);
    if r.Ok? {
      var order := r.value;
      forall i, d | 0 <= i < |order| && d in Deps(order[i], edges) && d in scope ensures d in order[..i] {
        assert order[i] in NameSet(order);
        ScopedDeps(scope, edges);
        assert d in Deps(order[i], inner);
      }
    }
  }

  /** `topologicalSort` throws exactly on a cycle among the tables it was given. */
  lemma SortThrowsIffCyclic(scope: set<string>, edges: seq<FkEdge>)
    ensures SortOutcome(scope, edges).Err? <==> HasCycle(scope, edges)
  {
    var inner := InScope(edges, scope);
    LayersSound(scope, [], scope, inner);
    StuckIffCyclic(scope, inner);
    CyclesStayInScope(scope, edges);
  }

  lemma SameEdgesSameDeps(a: seq<FkEdge>, b: seq<FkEdge>, scope: set<string>)
    requires forall e :: e in a <==> e in b
    ensures forall t :: Deps(t, InScope(a, scope)) == Deps(t, InScope(b, scope))
  {
    assert forall e :: e in InScope(a, scope) <==> e in InScope(b, scope);
  }

  lemma {:induction false} LayersFromDeps(rem: set<string>, done: seq<string>, scope: set<string>, a: seq<FkEdge>, b: seq<FkEdge>)
    requires forall t :: Deps(t, a) == Deps(t, b)
    ensures Layers(rem, done, scope, a) == Layers(rem, done, scope, b)
    decreases rem
  {
    var ready := ReadySet(rem, scope, a);
    assert ready == ReadySet(rem, scope, b);
    if rem != {} && ready != {} {
      LayersFromDeps(rem - ready, done + Listing(ready), scope, a, b);
    }
  }

  /** The order a backup records does not depend on how the catalog queries list tables and constraints. */
  lemma SortIgnoresListingOrder(tables: seq<string>, tables': seq<string>, edges: seq<FkEdge>, edges': seq<FkEdge>)
    requires NameSet(tables) == NameSet(tables') && forall e :: e in edges <==> e in edges'
    ensures SortOutcome(NameSet(tables), edges) == SortOutcome(NameSet(tables'), edges')
  {
    var scope := NameSet(tables);
    SameEdgesSameDeps(edges, edges', scope);
    LayersFromDeps(scope, [], scope, InScope(edges, scope), InScope(edges', scope));
  }

  // ---------------------------------------------------------------- breakCycles

  lemma RemoveAtMultiset<T>(s: seq<T>, k: nat)
    requires k < |s|
    ensures multiset(RemoveAt(s, k)) + multiset{s[k]} == multiset(s)
  {
    assert s == s[..k] + [s[k]] + s[k + 1..];
  }

  lemma MoveSplits<T>(kept: seq<T>, broken: seq<T>, k: nat)
    requires k < |kept|
    ensures multiset(RemoveAt(kept, k)) + multiset(broken + [kept[k]]) == multiset(kept) + multiset(broken)
  {
    RemoveAtMultiset(kept, k);
    assert multiset(broken + [kept[k]]) == multiset(broken) + multiset{kept[k]};
  }

  ghost predicate AllNullable(edges: seq<FkEdge>) {
    forall e :: e in edges ==> e.nullable
  }

  /** Every input edge is kept or broken, never both and never lost; only nullable edges are broken. */
  lemma {:induction false} BreakSplitsEdges(scope: set<string>, edges: seq<FkEdge>, broken: seq<FkEdge>, rounds: nat)
    requires AllNullable(broken)
    ensures var r := Break(scope, edges, broken, rounds);
            r.Split? ==> && multiset(r.edges) + multiset(r.broken) == multiset(edges) + multiset(broken)
                         && AllNullable(r.broken)
                         && |broken| <= |r.broken| <= |broken| + rounds
                         && (|r.broken| < |broken| + rounds ==> Stuck(scope, r.edges) == {})
    decreases rounds
  {
    var stuck := Stuck(scope, edges);
    if rounds != 0 && stuck != {} {
      var k := FirstBreakable(edges, stuck);
      if k != |edges| {
        MoveSplits(edges, broken, k);
        BreakSplitsEdges(scope, RemoveAt(edges, k), broken + [edges[k]], rounds - 1);
      }
    }
  }

  lemma MultisetMembers<T>(a: seq<T>, b: seq<T>, c: seq<T>)
    requires multiset(a) + multiset(b) == multiset(c)
    ensures forall x :: x in c <==> x in a || x in b
    ensures |a| + |b| == |c|
  {
    forall x ensures x in c <==> x in a || x in b {
      assert x in c <==> x in multiset(c);
      assert x in a <==> x in multiset(a);
      assert x in b <==> x in multiset(b);
    }
    assert |multiset(a) + multiset(b)| == |a| + |b|;
  }

  /** Two round limits agree whenever the smaller one did not cut the run short. */
  lemma {:induction false} BreakRoundsAgree(scope: set<string>, edges: seq<FkEdge>, broken: seq<FkEdge>, few: nat, many: nat)
    requires few <= many
    ensures var r := Break(scope, edges, broken, few); var full := Break(scope, edges, broken, many);
            && (r.Unbreakable? ==> full == r)
            && (r.Split? && Stuck(scope, r.edges) == {} ==> full == r)
            && (full.Split? && |full.broken| <= |broken| + few ==> r == full)
    decreases few
  {
    var stuck := Stuck(scope, edges);
    if stuck != {} && many > 0 {
      var k := FirstBreakable(edges, stuck);
      if k != |edges| {
        if few > 0 {
          BreakRoundsAgree(scope, RemoveAt(edges, k), broken + [edges[k]], few - 1, many - 1);
        } else {
          BreakGrows(scope, RemoveAt(edges, k), broken + [edges[k]], many - 1);
        }
      }
    }
  }

  lemma {:induction false} BreakGrows(scope: set<string>, edges: seq<FkEdge>, broken: seq<FkEdge>, rounds: nat)
    ensures var r := Break(scope, edges, broken, rounds); r.Split? ==> |r.broken| >= |broken|
    decreases rounds
  {
    var stuck := Stuck(scope, edges);
    if rounds != 0 && stuck != {} && FirstBreakable(edges, stuck) != |edges| {
      var k := FirstBreakable(edges, stuck);
      BreakGrows(scope, RemoveAt(edges, k), broken + [edges[k]], rounds - 1);
    }
  }

  /** The loop without its guard: more rounds than there are edges. */
  ghost function BreakAll(scope: set<string>, edges: seq<FkEdge>): BreakOutcome {
    Break(scope, edges, [], |edges| + 1)
  }

  lemma BreakAllUnsticks(scope: set<string>, edges: seq<FkEdge>)
    ensures BreakAll(scope, edges).Split? ==> Stuck(scope, BreakAll(scope, edges).edges) == {}
    ensures BreakAll(scope, edges).Split? ==> |BreakAll(scope, edges).broken| <= |edges|
  {
    var r := BreakAll(scope, edges);
    BreakSplitsEdges(scope, edges, [], |edges| + 1);
    if r.Split? {
      MultisetMembers(r.edges, r.broken, edges + []);
    }
  }

  function Mandatory(edges: seq<FkEdge>): (kept: seq<FkEdge>)
    ensures forall e :: e in kept <==> e in edges && !e.nullable
  {
    if edges == [] then []
    else if edges[0].nullable then Mandatory(edges[1..])
    else [edges[0]] + Mandatory(edges[1..])
  }

  lemma {:induction false} BreakFailure(scope: set<string>, edges: seq<FkEdge>, broken: seq<FkEdge>, rounds: nat)
    returns (left: seq<FkEdge>)
    ensures var r := Break(scope, edges, broken, rounds);
            r.Unbreakable? ==> && r.stuck != {} && Blocked(r.stuck, scope, left)
                               && (forall e :: e in left ==> e in edges)
                               && forall e :: e in left && e.table in r.stuck && e.dependsOn in r.stuck ==> !e.nullable
    decreases rounds
  {
    left := edges;
    var stuck := Stuck(scope, edges);
    if rounds != 0 && stuck != {} {
      var k := FirstBreakable(edges, stuck);
      if k == |edges| {
        StuckIsGreatestBlocked(scope, edges);
      } else {
        left := BreakFailure(scope, RemoveAt(edges, k), broken + [edges[k]], rounds - 1);
      }
    }
  }

  /** The edges the loop can never break: NOT NULL columns, and references to tables outside the list. */
  function Fixed(edges: seq<FkEdge>, scope: set<string>): (kept: seq<FkEdge>)
    ensures forall e :: e in kept <==> e in edges && (!e.nullable || e.dependsOn !in scope)
  {
    if edges == [] then []
    else if edges[0].nullable && edges[0].dependsOn in scope then Fixed(edges[1..], scope)
    else [edges[0]] + Fixed(edges[1..], scope)
  }

  /** Fewer edges leave fewer tables stuck. */
  lemma StuckMonotone(scope: set<string>, few: seq<FkEdge>, many: seq<FkEdge>)
    requires forall e :: e in few && e.table in scope ==> e in many
    ensures Stuck(scope, few) <= Stuck(scope, many)
  {
    StuckIsGreatestBlocked(scope, few);
    StuckIsGreatestBlocked(scope, many);
    var s := Stuck(scope, few);
    forall t | t in s ensures !(Deps(t, many) <= scope - s) {
      assert !(Deps(t, few) <= scope - s) && Deps(t, few) <= Deps(t, many);
    }
    assert Blocked(s, scope, many);
  }

  lemma {:induction false} BrokenWereBreakable(scope: set<string>, edges: seq<FkEdge>, broken: seq<FkEdge>, rounds: nat)
    requires forall e :: e in broken ==> e.nullable && e.dependsOn in scope
    ensures var r := Break(scope, edges, broken, rounds);
            r.Split? ==> forall e :: e in r.broken ==> e.nullable && e.dependsOn in scope
    decreases rounds
  {
    var stuck := Stuck(scope, edges);
    if rounds != 0 && stuck != {} {
      var k := FirstBreakable(edges, stuck);
      if k != |edges| {
        StuckIsGreatestBlocked(scope, edges);
        BrokenWereBreakable(scope, RemoveAt(edges, k), broken + [edges[k]], rounds - 1);
      }
    }
  }

  lemma FixedStaysStuck(s: set<string>, scope: set<string>, left: seq<FkEdge>, edges: seq<FkEdge>)
    requires s != {} && Blocked(s, scope, left) && forall e :: e in left ==> e in edges
    requires forall e :: e in left && e.table in s && e.dependsOn in s ==> !e.nullable
    ensures Stuck(scope, Fixed(edges, scope)) != {}
  {
    var fixed := Fixed(edges, scope);
    forall t | t in s ensures !(Deps(t, fixed) <= scope - s) {
      var d :| d in Deps(t, left) && d !in scope - s;
      var e :| e in left && e.table == t && e.dependsOn == d;
      assert e in fixed;
      assert d in Deps(t, fixed);
    }
    assert Blocked(s, scope, fixed);
    StuckIsGreatestBlocked(scope, fixed);
  }

  /**
   * The loop gives up if and only if some table is stuck behind edges it cannot
   * break alone: NOT NULL columns and references to tables outside the list.
   */
  lemma BreakFailsIff(scope: set<string>, edges: seq<FkEdge>)
    ensures BreakAll(scope, edges).Unbreakable? <==> Stuck(scope, Fixed(edges, scope)) != {}
  {
    var full := BreakAll(scope, edges);
    if full.Unbreakable? {
      var left := BreakFailure(scope, edges, [], |edges| + 1);
      FixedStaysStuck(full.stuck, scope, left, edges);
    } else {
      BreakAllUnsticks(scope, edges);
      BreakSplitsEdges(scope, edges, [], |edges| + 1);
      BrokenWereBreakable(scope, edges, [], |edges| + 1);
      MultisetMembers(full.edges, full.broken, edges + []);
      assert edges + [] == edges;
      StuckMonotone(scope, Fixed(edges, scope), full.edges);
    }
  }

  /** With every reference in scope, giving up happens exactly on a cycle of NOT NULL columns. */
  lemma BreakFailsIffMandatoryCycle(scope: set<string>, edges: seq<FkEdge>)
    requires ClosedScope(edges, scope)
    ensures BreakAll(scope, edges).Unbreakable? <==> HasCycle(scope, Mandatory(edges))
  {
    BreakFailsIff(scope, edges);
    StuckIffCyclic(scope, Mandatory(edges));
    StuckMonotone(scope, Fixed(edges, scope), Mandatory(edges));
    StuckMonotone(scope, Mandatory(edges), Fixed(edges, scope));
  }

  ghost predicate Succeeds(scope: set<string>, edges: seq<FkEdge>) {
    var r := Break(scope, edges, [], MAX_BREAK_ROUNDS);
    r.Split? && SortOutcome(scope, r.edges).Ok?
  }

  lemma GuardedRunVersusFull(scope: set<string>, edges: seq<FkEdge>, guard: nat)
    ensures var run := Break(scope, edges, [], guard); var full := BreakAll(scope, edges);
            && (full.Split? && |full.broken| <= guard ==> run == full)
            && (run.Split? && Stuck(scope, run.edges) == {} ==> full == run && |run.broken| <= guard)
  {
    BreakSplitsEdges(scope, edges, [], guard);
    BreakAllUnsticks(scope, edges);
    if guard <= |edges| + 1 {
      BreakRoundsAgree(scope, edges, [], guard, |edges| + 1);
    } else {
      BreakRoundsAgree(scope, edges, [], |edges| + 1, guard);
    }
  }

  lemma KeptEdgesInScope(scope: set<string>, edges: seq<FkEdge>)
    requires ClosedScope(edges, scope)
    ensures var run := Break(scope, edges, [], MAX_BREAK_ROUNDS); run.Split? ==> ClosedScope(run.edges, scope)
  {
    var run := Break(scope, edges, [], MAX_BREAK_ROUNDS);
    BreakSplitsEdges(scope, edges, [], MAX_BREAK_ROUNDS);
    if run.Split? {
      MultisetMembers(run.edges, run.broken, edges + []);
      assert edges + [] == edges;
    }
  }

  /** With every reference in scope, only a NOT NULL cycle or a 21st edge to break prevents an order. */
  lemma OrderExistsIffClosed(scope: set<string>, edges: seq<FkEdge>)
    requires ClosedScope(edges, scope)
    ensures Succeeds(scope, edges) <==>
            !HasCycle(scope, Mandatory(edges)) && (BreakAll(scope, edges).Split? ==> |BreakAll(scope, edges).broken| <= MAX_BREAK_ROUNDS)
  {
    var run := Break(scope, edges, [], MAX_BREAK_ROUNDS);
    BreakFailsIffMandatoryCycle(scope, edges);
    GuardedRunVersusFull(scope, edges, MAX_BREAK_ROUNDS);
    BreakAllUnsticks(scope, edges);
    KeptEdgesInScope(scope, edges);
    if run.Split? {
      SortThrowsIffCyclic(scope, run.edges);
      StuckIffCyclic(scope, run.edges);
    }
  }

  /** A listed table that refers outside the list is stuck for good. */
  lemma AbsentReferenceSticks(scope: set<string>, edges: seq<FkEdge>, e: FkEdge)
    requires e in edges && e.table in scope && e.dependsOn !in scope
    ensures e.table in Stuck(scope, Fixed(edges, scope))
  {
    StuckIsGreatestBlocked(scope, Fixed(edges, scope));
    assert e.dependsOn in Deps(e.table, Fixed(edges, scope));
    assert Blocked({e.table}, scope, Fixed(edges, scope));
  }

  lemma NoneStuckMeansClosed(scope: set<string>, edges: seq<FkEdge>)
    requires Stuck(scope, Fixed(edges, scope)) == {}
    ensures ClosedScope(edges, scope)
  {
    forall e | e in edges && e.table in scope ensures e.dependsOn in scope {
      if e.dependsOn !in scope { AbsentReferenceSticks(scope, edges, e); }
    }
  }

  /**
   * For every input. When the unbreakable edges leave nothing stuck, an order comes
   * out iff the unguarded loop breaks at most 20 edges. Otherwise it comes out only
   * because the guard ended the loop after 20 edges, before it would have given up,
   * and no cycle was left among the listed tables.
   */
  lemma OrderExistsIff(scope: set<string>, edges: seq<FkEdge>)
    ensures var run := Break(scope, edges, [], MAX_BREAK_ROUNDS);
            Succeeds(scope, edges) <==>
              (if Stuck(scope, Fixed(edges, scope)) == {} then BreakAll(scope, edges).Split? && |BreakAll(scope, edges).broken| <= MAX_BREAK_ROUNDS
               else run.Split? && |run.broken| == MAX_BREAK_ROUNDS && !HasCycle(scope, run.edges))
  {
    BreakFailsIff(scope, edges);
    if Stuck(scope, Fixed(edges, scope)) == {} {
      NoneStuckMeansClosed(scope, edges);
      BreakFailsIffMandatoryCycle(scope, edges);
      OrderExistsIffClosed(scope, edges);
    } else {
      StuckNeedsGuard(scope, edges);
    }
  }

  lemma StuckNeedsGuard(scope: set<string>, edges: seq<FkEdge>)
    requires Stuck(scope, Fixed(edges, scope)) != {}
    ensures var run := Break(scope, edges, [], MAX_BREAK_ROUNDS);
            Succeeds(scope, edges) <==> run.Split? && |run.broken| == MAX_BREAK_ROUNDS && !HasCycle(scope, run.edges)
  {
    var run := Break(scope, edges, [], MAX_BREAK_ROUNDS);
    BreakFailsIff(scope, edges);
    GuardedRunVersusFull(scope, edges, MAX_BREAK_ROUNDS);
    BreakSplitsEdges(scope, edges, [], MAX_BREAK_ROUNDS);
    if run.Split? { SortThrowsIffCyclic(scope, run.edges); }
  }

  predicate Inside(e: FkEdge, tables: set<string>) {
    e.table in tables && e.dependsOn in tables
  }

  /** How many nullable edges run between the given tables. */
  function BreakableCount(edges: seq<FkEdge>, tables: set<string>): (n: nat)
    ensures n <= |edges|
    ensures n == 0 ==> FirstBreakable(edges, tables) == |edges|
  {
    if edges == [] then 0
    else BreakableCount(edges[1..], tables) + if edges[0].nullable && Inside(edges[0], tables) then 1 else 0
  }

  lemma {:induction false} CountMonotone(edges: seq<FkEdge>, few: set<string>, many: set<string>)
    requires few <= many
    ensures BreakableCount(edges, few) <= BreakableCount(edges, many)
  {
    if edges != [] { CountMonotone(edges[1..], few, many); }
  }

  lemma {:induction false} CountWithout(edges: seq<FkEdge>, k: nat, tables: set<string>)
    requires k < |edges| && edges[k].nullable && Inside(edges[k], tables)
    ensures BreakableCount(RemoveAt(edges, k), tables) == BreakableCount(edges, tables) - 1
  {
    if k == 0 {
      assert RemoveAt(edges, 0) == edges[1..];
    } else {
      CountWithout(edges[1..], k - 1, tables);
      assert RemoveAt(edges, k) == [edges[0]] + RemoveAt(edges[1..], k - 1);
    }
  }

  lemma RemovedMembers(edges: seq<FkEdge>, k: nat)
    requires k < |edges|
    ensures forall e :: e in RemoveAt(edges, k) ==> e in edges
  {
  }

  /** The loop breaks at most the nullable edges that are inside the stuck set at the start. */
  lemma {:induction false} BreaksWithinCount(scope: set<string>, edges: seq<FkEdge>, broken: seq<FkEdge>, rounds: nat)
    ensures var r := Break(scope, edges, broken, rounds); var n := BreakableCount(edges, Stuck(scope, edges));
            && (r.Split? ==> |r.broken| <= |broken| + n)
            && (r.Split? && rounds > n ==> Stuck(scope, r.edges) == {})
    decreases rounds
  {
    var stuck := Stuck(scope, edges);
    if rounds != 0 && stuck != {} {
      var k := FirstBreakable(edges, stuck);
      if k != |edges| {
        var left := RemoveAt(edges, k);
        RemovedMembers(edges, k);
        StuckMonotone(scope, left, edges);
        CountMonotone(left, Stuck(scope, left), stuck);
        CountWithout(edges, k, stuck);
        BreaksWithinCount(scope, left, broken + [edges[k]], rounds - 1);
      }
    }
  }

  /**
   * For every input with at most 19 nullable edges inside the stuck set the guard
   * plays no part: an order comes out iff the unbreakable edges leave nothing stuck.
   */
  lemma FewStuckEdgesOrder(scope: set<string>, edges: seq<FkEdge>)
    requires BreakableCount(edges, Stuck(scope, edges)) < MAX_BREAK_ROUNDS
    ensures Succeeds(scope, edges) <==> Stuck(scope, Fixed(edges, scope)) == {}
  {
    var run := Break(scope, edges, [], MAX_BREAK_ROUNDS);
    BreaksWithinCount(scope, edges, [], MAX_BREAK_ROUNDS);
    BreaksWithinCount(scope, edges, [], |edges| + 1);
    GuardedRunVersusFull(scope, edges, MAX_BREAK_ROUNDS);
    BreakFailsIff(scope, edges);
    FewBreaksSort(scope, edges);
  }

  /** With every reference in scope, 20 such edges are still few enough. */
  lemma TwentyStuckEdgesOrder(scope: set<string>, edges: seq<FkEdge>)
    requires ClosedScope(edges, scope) && BreakableCount(edges, Stuck(scope, edges)) <= MAX_BREAK_ROUNDS
    ensures Succeeds(scope, edges) <==> !HasCycle(scope, Mandatory(edges))
  {
    OrderExistsIffClosed(scope, edges);
    BreaksWithinCount(scope, edges, [], |edges| + 1);
  }

  /** Fewer than 20 broken edges always leave a sortable graph, even with references out of scope. */
  lemma FewBreaksSort(scope: set<string>, edges: seq<FkEdge>)
    ensures var r := Break(scope, edges, [], MAX_BREAK_ROUNDS);
            r.Split? && |r.broken| < MAX_BREAK_ROUNDS ==> SortOutcome(scope, r.edges).Ok?
  {
    var r := Break(scope, edges, [], MAX_BREAK_ROUNDS);
    BreakSplitsEdges(scope, edges, [], MAX_BREAK_ROUNDS);
    if r.Split? && |r.broken| < MAX_BREAK_ROUNDS {
      if HasCycle(scope, r.edges) { CycleIsStuck(scope, r.edges); }
      SortThrowsIffCyclic(scope, r.edges);
    }
  }

  // ---------------------------------------------------------------- where the code falls short

  /** Nullable references from table `a` to table `b` through each of the columns, then one from `b` back to `a`. */
  ghost function Fan(a: string, b: string, columns: seq<string>): seq<FkEdge> {
    if columns == [] then [FkEdge(b, a, a, true)] else [FkEdge(a, columns[0], b, true)] + Fan(a, b, columns[1..])
  }

  lemma {:induction false} FanMembers(a: string, b: string, columns: seq<string>)
    ensures FkEdge(b, a, a, true) in Fan(a, b, columns)
    ensures Mandatory(Fan(a, b, columns)) == []
  {
    if columns != [] { FanMembers(a, b, columns[1..]); }
  }

  lemma FanIsCyclic(a: string, b: string, columns: seq<string>)
    requires columns != []
    ensures HasCycle({a, b}, Fan(a, b, columns)) && Stuck({a, b}, Fan(a, b, columns)) == {a, b}
  {
    var scope, edges := {a, b}, Fan(a, b, columns);
    FanMembers(a, b, columns);
    assert a in Deps(b, edges) by { assert FkEdge(b, a, a, true) in edges; }
    assert b in Deps(a, edges) by { assert edges[0] in edges; }
    var walk := [a, b, a];
    assert forall i :: 0 <= i < |walk| - 1 ==> LinkAt(walk, i, scope, edges);
    assert IsCycle(walk, scope, edges);
    CycleIsBlocked(walk, scope, edges);
    StuckIsGreatestBlocked(scope, edges);
    assert NameSet(walk) == scope;
  }

  lemma FanStep(a: string, b: string, columns: seq<string>, broken: seq<FkEdge>, rounds: nat)
    requires columns != [] && rounds > 0
    ensures Break({a, b}, Fan(a, b, columns), broken, rounds)
         == Break({a, b}, Fan(a, b, columns[1..]), broken + [Fan(a, b, columns)[0]], rounds - 1)
  {
    FanIsCyclic(a, b, columns);
    BreakFirst({a, b}, Fan(a, b, columns), broken, rounds);
  }

  lemma {:induction false} FanRun(a: string, b: string, columns: seq<string>, broken: seq<FkEdge>, rounds: nat, outcome: BreakOutcome)
    requires |columns| > rounds && outcome == Break({a, b}, Fan(a, b, columns), broken, rounds)
    ensures outcome.Split? && outcome.edges == Fan(a, b, columns[rounds..]) && |outcome.broken| == |broken| + rounds
    decreases rounds
  {
    if rounds > 0 {
      FanStep(a, b, columns, broken, rounds);
      assert columns[1..][rounds - 1..] == columns[rounds..];
      FanRun(a, b, columns[1..], broken + [Fan(a, b, columns)[0]], rounds - 1, outcome);
    } else {
      assert columns[rounds..] == columns;
      assert outcome == Split(Fan(a, b, columns), broken);
    }
  }

  /**
   * The guard can end the loop too early: 21 parallel nullable references and
   * one back are breakable, yet 20 rounds leave a cycle for `topologicalSort`.
   */
  lemma GuardLeavesCycle(a: string, b: string, columns: seq<string>)
    requires |columns| == 21
    ensures var r := Break({a, b}, Fan(a, b, columns), [], MAX_BREAK_ROUNDS);
            && r.Split? && |r.broken| == 20
            && SortOutcome({a, b}, r.edges).Err?
            && Mandatory(Fan(a, b, columns)) == []
  {
    FanRun(a, b, columns, [], MAX_BREAK_ROUNDS, Break({a, b}, Fan(a, b, columns), [], MAX_BREAK_ROUNDS));
    FanIsCyclic(a, b, columns[20..]);
    SortThrowsIffCyclic({a, b}, Fan(a, b, columns[20..]));
    FanMembers(a, b, columns);
  }

  /**
   * "Exactly the edges necessary" is not what the code breaks: an edge that only
   * leads into a cycle is stuck as well and goes first when it is listed first.
   */
  lemma BreaksMoreThanNecessary(into: FkEdge, ab: FkEdge, ba: FkEdge)
    requires into == FkEdge("c", "a_id", "a", true)
    requires ab == FkEdge("a", "b_id", "b", true) && ba == FkEdge("b", "a_id", "a", true)
    ensures var scope := {"a", "b", "c"};
            && Break(scope, [into, ab, ba], [], MAX_BREAK_ROUNDS) == Split([ba], [into, ab])
            && Stuck(scope, [into, ba]) == {}
  {
    var scope := {"a", "b", "c"};
    AllStuck(into, ab, ba);
    PairStuck(ab, ba);
    ChainFree([ba]);
    ChainFree([into, ba]);
    BreakFirst(scope, [into, ab, ba], [], MAX_BREAK_ROUNDS);
    BreakFirst(scope, [ab, ba], [into], MAX_BREAK_ROUNDS - 1);
    assert [into, ab, ba][1..] == [ab, ba] && [ab, ba][1..] == [ba];
    assert [] + [into] == [into] && [into] + [ab] == [into, ab];
  }

  lemma BreakFirst(scope: set<string>, edges: seq<FkEdge>, broken: seq<FkEdge>, rounds: nat)
    requires rounds > 0 && edges != [] && edges[0].nullable
    requires edges[0].table in Stuck(scope, edges) && edges[0].dependsOn in Stuck(scope, edges)
    ensures Break(scope, edges, broken, rounds) == Break(scope, edges[1..], broken + [edges[0]], rounds - 1)
  {
    assert FirstBreakable(edges, Stuck(scope, edges)) == 0;
    assert RemoveAt(edges, 0) == edges[1..];
  }

  lemma AllStuck(into: FkEdge, ab: FkEdge, ba: FkEdge)
    requires into == FkEdge("c", "a_id", "a", true)
    requires ab == FkEdge("a", "b_id", "b", true) && ba == FkEdge("b", "a_id", "a", true)
    ensures Stuck({"a", "b", "c"}, [into, ab, ba]) == {"a", "b", "c"}
  {
    var scope, edges := {"a", "b", "c"}, [into, ab, ba];
    assert ab in edges && ba in edges && into in edges;
    assert "b" in Deps("a", edges) && "a" in Deps("b", edges) && "a" in Deps("c", edges);
    assert Blocked(scope, scope, edges);
    GreatestBlockedUnique(scope, scope, edges);
  }

  lemma PairStuck(ab: FkEdge, ba: FkEdge)
    requires ab == FkEdge("a", "b_id", "b", true) && ba == FkEdge("b", "a_id", "a", true)
    ensures Stuck({"a", "b", "c"}, [ab, ba]) == {"a", "b"}
  {
    var scope, edges := {"a", "b", "c"}, [ab, ba];
    assert ab in edges && ba in edges;
    assert "b" in Deps("a", edges) && "a" in Deps("b", edges);
    assert Deps("c", edges) == {};
    assert Blocked({"a", "b"}, scope, edges);
    forall s | Blocked(s, scope, edges) ensures s <= {"a", "b"} {
      assert "c" !in s;
    }
    GreatestBlockedUnique({"a", "b"}, scope, edges);
  }

  lemma ChainFree(edges: seq<FkEdge>)
    requires forall e :: e in edges ==> e.table != "a" && e.dependsOn == "a"
    ensures Stuck({"a", "b", "c"}, edges) == {}
  {
    var scope := {"a", "b", "c"};
    assert Deps("a", edges) == {};
    forall s | Blocked(s, scope, edges) ensures s <= {} {
      assert "a" !in s;
      forall t ensures t !in s {
        assert Deps(t, edges) <= {"a"};
      }
    }
    assert Blocked({}, scope, edges);
    GreatestBlockedUnique({}, scope, edges);
  }

  /** A reference to a table outside the list stops `breakCycles` although nothing is cyclic. */
  lemma AbsentTableStopsBreaking()
    ensures var edges := [FkEdge("a", "z_id", "z", true)];
            && Break({"a"}, edges, [], MAX_BREAK_ROUNDS) == Unbreakable({"a"})
            && SortOutcome({"a"}, edges).Ok?
  {
    var edges := [FkEdge("a", "z_id", "z", true)];
    assert Deps("a", edges) == {"z"};
    assert GreatestBlocked({"a"}, {"a"}, edges);
    GreatestBlockedUnique({"a"}, {"a"}, edges);
    SortThrowsIffCyclic({"a"}, edges);
    forall walk ensures !IsCycle(walk, {"a"}, edges) {
      assert |walk| >= 2 ==> !LinkAt(walk, 0, {"a"}, edges);
    }
  }
}
