/** When every edge that `breakCycles` breaks is a necessary one. */
module BackupOrderNecessity {
  import opened Names
  import opened FkGraph
  import opened BackupOrder
  import opened BackupOrderTheorems

  /** A cycle that runs along the edge. */
  ghost predicate CycleThrough(walk: seq<string>, e: FkEdge, scope: set<string>, edges: seq<FkEdge>) {
    IsCycle(walk, scope, edges) && exists i :: 0 <= i < |walk| - 1 && StepIs(walk, i, e)
  }

  predicate StepIs(walk: seq<string>, i: nat, e: FkEdge)
    requires i < |walk| - 1
  {
    walk[i] == e.table && walk[i + 1] == e.dependsOn
  }

  ghost predicate OnCycle(e: FkEdge, scope: set<string>, edges: seq<FkEdge>) {
    exists walk :: CycleThrough(walk, e, scope, edges)
  }

  /** Putting any broken edge back into the kept ones makes the sort throw again. */
  ghost predicate OnlyNecessary(scope: set<string>, r: BreakOutcome) {
    r.Split? ==> forall e :: e in r.broken ==> HasCycle(scope, r.edges + [e])
  }

  /** Two edges through which one stuck table waits. */
  predicate Rivals(e: FkEdge, f: FkEdge, stuck: set<string>) {
    e.table == f.table && Inside(e, stuck) && Inside(f, stuck)
  }

  /** No stuck table waits through more than one edge to a stuck table. */
  ghost predicate OneStuckEdge(scope: set<string>, edges: seq<FkEdge>) {
    forall i, j :: 0 <= i < |edges| && 0 <= j < |edges| && Rivals(edges[i], edges[j], Stuck(scope, edges)) ==> i == j
  }

  ghost predicate BreakableOnCycles(scope: set<string>, edges: seq<FkEdge>) {
    forall e :: e in edges && e.nullable && Inside(e, Stuck(scope, edges)) ==> OnCycle(e, scope, edges)
  }

  /** Nothing is broken if and only if nothing is stuck. */
  lemma NothingBrokenIff(scope: set<string>, edges: seq<FkEdge>)
    ensures Break(scope, edges, [], MAX_BREAK_ROUNDS) == Split(edges, []) <==> Stuck(scope, edges) == {}
  {
    var stuck := Stuck(scope, edges);
    if stuck != {} && FirstBreakable(edges, stuck) != |edges| {
      var k := FirstBreakable(edges, stuck);
      BreakGrows(scope, RemoveAt(edges, k), [edges[k]], MAX_BREAK_ROUNDS - 1);
      assert [] + [edges[k]] == [edges[k]];
    }
  }

  // ---------------------------------------------------------------- an edge on no cycle is needless

  lemma SameMembersSameStuck(scope: set<string>, a: seq<FkEdge>, b: seq<FkEdge>)
    requires forall e :: e in a <==> e in b
    ensures Stuck(scope, a) == Stuck(scope, b)
  {
    StuckMonotone(scope, a, b);
    StuckMonotone(scope, b, a);
  }

  lemma LinksCarryOver(walk: seq<string>, scope: set<string>, few: seq<FkEdge>, many: seq<FkEdge>)
    requires IsCycle(walk, scope, few) && forall e :: e in few ==> e in many
    ensures IsCycle(walk, scope, many)
  {
    forall i | 0 <= i < |walk| - 1 ensures LinkAt(walk, i, scope, many) {
      assert LinkAt(walk, i, scope, few);
    }
  }

  /** A cycle that needs the added edge runs along it. */
  lemma AddedEdgeOnCycle(walk: seq<string>, e: FkEdge, scope: set<string>, kept: seq<FkEdge>)
    requires IsCycle(walk, scope, kept + [e]) && !HasCycle(scope, kept)
    ensures CycleThrough(walk, e, scope, kept + [e])
  {
    if forall i :: 0 <= i < |walk| - 1 ==> !StepIs(walk, i, e) {
      forall i | 0 <= i < |walk| - 1 ensures LinkAt(walk, i, scope, kept) {
        assert LinkAt(walk, i, scope, kept + [e]) && !StepIs(walk, i, e);
        var f :| f in kept + [e] && f.table == walk[i] && f.dependsOn == walk[i + 1];
        assert f in kept;
      }
      assert IsCycle(walk, scope, kept);
    }
  }

  /** Once the rest is free of cycles, an edge that was on none can be put back. */
  lemma PutBack(e: FkEdge, scope: set<string>, kept: seq<FkEdge>, edges: seq<FkEdge>)
    requires !HasCycle(scope, kept) && !OnCycle(e, scope, edges) && forall f :: f in kept + [e] ==> f in edges
    ensures !HasCycle(scope, kept + [e])
  {
    if HasCycle(scope, kept + [e]) {
      var walk :| IsCycle(walk, scope, kept + [e]);
      AddedEdgeOnCycle(walk, e, scope, kept);
      LinksCarryOver(walk, scope, kept + [e], edges);
      assert CycleThrough(walk, e, scope, edges);
    }
  }

  /** The first listed edge, if it is nullable and stuck, is broken in every run that succeeds. */
  lemma FirstIsBroken(scope: set<string>, e: FkEdge, rest: seq<FkEdge>)
    requires e.nullable && Inside(e, Stuck(scope, [e] + rest)) && Stuck(scope, Fixed([e] + rest, scope)) == {}
    ensures var r := BreakAll(scope, [e] + rest);
            && r.Split? && e in r.broken && !HasCycle(scope, r.edges) && forall f :: f in r.edges ==> f in [e] + rest
  {
    var listing := [e] + rest;
    var r := BreakAll(scope, listing);
    BreakFailsIff(scope, listing);
    BreakAllUnsticks(scope, listing);
    if HasCycle(scope, r.edges) { CycleIsStuck(scope, r.edges); }
    BreakFirst(scope, listing, [], |listing| + 1);
    assert listing[1..] == rest && [] + [e] == [e];
    BrokenStays(scope, rest, [e], |listing|);
    assert r.broken[0] == e;
    BreakSplitsEdges(scope, listing, [], |listing| + 1);
    MultisetMembers(r.edges, r.broken, listing + []);
    assert listing + [] == listing;
  }

  /** Listed first, a stuck nullable edge on no cycle is broken although it need not be. */
  lemma {:induction false} NeedlessWhenFirst(scope: set<string>, edges: seq<FkEdge>, k: nat)
    requires k < |edges| && edges[k].nullable && Inside(edges[k], Stuck(scope, edges)) && !OnCycle(edges[k], scope, edges)
    requires Stuck(scope, Fixed(edges, scope)) == {}
    ensures var listing := [edges[k]] + RemoveAt(edges, k);
            multiset(listing) == multiset(edges) && !OnlyNecessary(scope, BreakAll(scope, listing))
  {
    var listing := [edges[k]] + RemoveAt(edges, k);
    RemoveAtMultiset(edges, k);
    assert multiset(listing) == multiset(edges);
    SameBag(listing, edges);
    SameMembersSameStuck(scope, listing, edges);
    SameMembersSameStuck(scope, Fixed(listing, scope), Fixed(edges, scope));
    FirstIsBroken(scope, edges[k], RemoveAt(edges, k));
    PutBack(edges[k], scope, BreakAll(scope, listing).edges, edges);
  }

  lemma SameBag(a: seq<FkEdge>, b: seq<FkEdge>)
    requires multiset(a) == multiset(b)
    ensures |a| == |b| && forall e :: e in a <==> e in b
  {
    assert |a| == |multiset(a)| && |b| == |multiset(b)|;
    forall e ensures e in a <==> e in b {
      assert e in a <==> e in multiset(a);
      assert e in b <==> e in multiset(b);
    }
  }

  lemma {:induction false} BrokenStays(scope: set<string>, edges: seq<FkEdge>, broken: seq<FkEdge>, rounds: nat)
    ensures var r := Break(scope, edges, broken, rounds); r.Split? ==> broken <= r.broken
    decreases rounds
  {
    var stuck := Stuck(scope, edges);
    if rounds != 0 && stuck != {} {
      var k := FirstBreakable(edges, stuck);
      if k != |edges| { BrokenStays(scope, RemoveAt(edges, k), broken + [edges[k]], rounds - 1); }
    }
  }

  // ---------------------------------------------------------------- an edge on its table's one cycle is necessary

  lemma {:induction false} BackwardsOut(walk: seq<string>, scope: set<string>, edges: seq<FkEdge>, k: nat, last: nat)
    requires IsCycle(walk, scope, edges) && NameSet(walk) <= Stuck(scope, edges) && OneStuckEdge(scope, edges) && ClosedScope(edges, scope)
    requires k < |edges| && last < |walk| && walk[last] !in Stuck(scope, RemoveAt(edges, k))
    ensures forall j :: 0 <= j <= last ==> walk[j] !in Stuck(scope, RemoveAt(edges, k))
  {
    if last > 0 {
      PredecessorOut(walk, scope, edges, k, last - 1);
      BackwardsOut(walk, scope, edges, k, last - 1);
    }
  }

  /** Once the table it waits for is free, a table with one stuck edge is free as well. */
  lemma PredecessorOut(walk: seq<string>, scope: set<string>, edges: seq<FkEdge>, k: nat, j: nat)
    requires IsCycle(walk, scope, edges) && NameSet(walk) <= Stuck(scope, edges) && OneStuckEdge(scope, edges) && ClosedScope(edges, scope)
    requires k < |edges| && j + 1 < |walk| && walk[j + 1] !in Stuck(scope, RemoveAt(edges, k))
    ensures walk[j] !in Stuck(scope, RemoveAt(edges, k))
  {
    var left := RemoveAt(edges, k);
    assert LinkAt(walk, j, scope, edges) && walk[j] in NameSet(walk) && walk[j + 1] in NameSet(walk);
    var h :| h in edges && h.table == walk[j] && h.dependsOn == walk[j + 1];
    var n :| 0 <= n < |edges| && edges[n] == h;
    if walk[j] in Stuck(scope, left) {
      var m := WaitsThrough(scope, edges, k, walk[j]);
    }
  }

  /** A table still stuck without edge `k` waits for another such table, through an edge other than `k`. */
  lemma WaitsThrough(scope: set<string>, edges: seq<FkEdge>, k: nat, t: string) returns (m: nat)
    requires k < |edges| && ClosedScope(edges, scope) && t in Stuck(scope, RemoveAt(edges, k))
    ensures m < |edges| && m != k && edges[m].table == t
    ensures edges[m].dependsOn in Stuck(scope, RemoveAt(edges, k)) && Inside(edges[m], Stuck(scope, edges))
  {
    var left := RemoveAt(edges, k);
    RemovedMembers(edges, k);
    StuckMonotone(scope, left, edges);
    StuckIsGreatestBlocked(scope, left);
    var d :| d in Deps(t, left) && d !in scope - Stuck(scope, left);
    var i :| 0 <= i < |left| && left[i].table == t && left[i].dependsOn == d;
    m := if i < k then i else i + 1;
    assert edges[m] == left[i];
  }

  lemma CycleTablesStuck(walk: seq<string>, scope: set<string>, edges: seq<FkEdge>)
    requires IsCycle(walk, scope, edges)
    ensures NameSet(walk) <= Stuck(scope, edges)
  {
    CycleIsBlocked(walk, scope, edges);
    StuckIsGreatestBlocked(scope, edges);
  }

  /** Breaking an edge frees every table of the cycles through its table. */
  lemma CycleFreed(walk: seq<string>, scope: set<string>, edges: seq<FkEdge>, k: nat, at: nat)
    requires IsCycle(walk, scope, edges) && OneStuckEdge(scope, edges) && ClosedScope(edges, scope)
    requires k < |edges| && Inside(edges[k], Stuck(scope, edges)) && at < |walk| && walk[at] == edges[k].table
    ensures NameSet(walk) !! Stuck(scope, RemoveAt(edges, k))
  {
    var left, last := RemoveAt(edges, k), |walk| - 1;
    CycleTablesStuck(walk, scope, edges);
    if walk[at] in Stuck(scope, left) {
      var m := WaitsThrough(scope, edges, k, walk[at]);
    }
    BackwardsOut(walk, scope, edges, k, at);
    assert walk[last] == walk[0];
    BackwardsOut(walk, scope, edges, k, last);
  }

  /** A cycle through none of the given table's edges does not need them. */
  lemma CycleWithout(walk: seq<string>, scope: set<string>, many: seq<FkEdge>, few: seq<FkEdge>)
    requires IsCycle(walk, scope, many) && forall e :: e in many && e.table in NameSet(walk) ==> e in few
    ensures IsCycle(walk, scope, few)
  {
    forall i | 0 <= i < |walk| - 1 ensures LinkAt(walk, i, scope, few) {
      assert LinkAt(walk, i, scope, many) && walk[i] in NameSet(walk);
    }
  }

  /** A broken edge whose cycle is whole but for that edge, and clear of what is still stuck. */
  ghost predicate CycleKept(b: FkEdge, scope: set<string>, edges: seq<FkEdge>) {
    exists walk :: IsCycle(walk, scope, edges + [b]) && NameSet(walk) !! Stuck(scope, edges)
  }

  ghost predicate Orderly(scope: set<string>, edges: seq<FkEdge>) {
    OneStuckEdge(scope, edges) && ClosedScope(edges, scope) && BreakableOnCycles(scope, edges)
  }

  lemma StillOneStuckEdge(scope: set<string>, edges: seq<FkEdge>, k: nat)
    requires OneStuckEdge(scope, edges) && k < |edges|
    ensures OneStuckEdge(scope, RemoveAt(edges, k))
  {
    var left := RemoveAt(edges, k);
    RemovedMembers(edges, k);
    StuckMonotone(scope, left, edges);
    forall i, j | 0 <= i < |left| && 0 <= j < |left| && Rivals(left[i], left[j], Stuck(scope, left)) ensures i == j {
      var i', j' := if i < k then i else i + 1, if j < k then j else j + 1;
      assert edges[i'] == left[i] && edges[j'] == left[j];
      assert i' == j';
    }
  }

  lemma StillOnCycles(scope: set<string>, edges: seq<FkEdge>, k: nat)
    requires Orderly(scope, edges) && k < |edges| && Inside(edges[k], Stuck(scope, edges))
    ensures BreakableOnCycles(scope, RemoveAt(edges, k))
  {
    var left := RemoveAt(edges, k);
    RemovedMembers(edges, k);
    StuckMonotone(scope, left, edges);
    forall f | f in left && f.nullable && Inside(f, Stuck(scope, left)) ensures OnCycle(f, scope, left) {
      var walk :| CycleThrough(walk, f, scope, edges);
      var i :| 0 <= i < |walk| - 1 && StepIs(walk, i, f);
      assert f.table in NameSet(walk);
      if edges[k].table in NameSet(walk) {
        var at :| 0 <= at < |walk| && walk[at] == edges[k].table;
        CycleFreed(walk, scope, edges, k, at);
      }
      KeptElsewhere(edges, k);
      CycleWithout(walk, scope, edges, left);
      assert CycleThrough(walk, f, scope, left);
    }
  }

  lemma KeptElsewhere(edges: seq<FkEdge>, k: nat)
    requires k < |edges|
    ensures forall e :: e in edges && e.table != edges[k].table ==> e in RemoveAt(edges, k)
  {
    var left := RemoveAt(edges, k);
    forall e | e in edges && e.table != edges[k].table ensures e in left {
      var n :| 0 <= n < |edges| && edges[n] == e;
      assert left[if n < k then n else n - 1] == e;
    }
  }

  /** The edge just broken, and those broken before, keep their cycles. */
  lemma CyclesStayKept(scope: set<string>, edges: seq<FkEdge>, broken: seq<FkEdge>, k: nat)
    requires Orderly(scope, edges) && k < |edges| && edges[k].nullable && Inside(edges[k], Stuck(scope, edges))
    requires forall b :: b in broken ==> CycleKept(b, scope, edges)
    ensures forall b :: b in broken + [edges[k]] ==> CycleKept(b, scope, RemoveAt(edges, k))
  {
    var left := RemoveAt(edges, k);
    RemovedMembers(edges, k);
    StuckMonotone(scope, left, edges);
    KeptElsewhere(edges, k);
    forall b | b in broken + [edges[k]] ensures CycleKept(b, scope, left) {
      if b in broken {
        assert CycleKept(b, scope, edges);
        var walk :| IsCycle(walk, scope, edges + [b]) && NameSet(walk) !! Stuck(scope, edges);
        assert edges[k].table !in NameSet(walk);
        CycleWithout(walk, scope, edges + [b], left + [b]);
      } else {
        var walk :| CycleThrough(walk, b, scope, edges);
        var i :| 0 <= i < |walk| - 1 && StepIs(walk, i, b);
        CycleFreed(walk, scope, edges, k, i);
        assert forall e :: e in edges ==> e in left + [b] by { AllBack(edges, k); }
        LinksCarryOver(walk, scope, edges, left + [b]);
      }
    }
  }

  lemma AllBack(edges: seq<FkEdge>, k: nat)
    requires k < |edges|
    ensures forall e :: e in edges ==> e in RemoveAt(edges, k) + [edges[k]]
  {
    var left := RemoveAt(edges, k);
    forall e | e in edges ensures e in left + [edges[k]] {
      var n :| 0 <= n < |edges| && edges[n] == e;
      if n != k { assert left[if n < k then n else n - 1] == e; }
    }
  }

  lemma {:induction false} RunIsNecessary(scope: set<string>, edges: seq<FkEdge>, broken: seq<FkEdge>, rounds: nat)
    requires Orderly(scope, edges) && forall b :: b in broken ==> CycleKept(b, scope, edges)
    ensures OnlyNecessary(scope, Break(scope, edges, broken, rounds))
    decreases rounds
  {
    var stuck := Stuck(scope, edges);
    forall b | b in broken ensures HasCycle(scope, edges + [b]) {
      assert CycleKept(b, scope, edges);
    }
    if rounds != 0 && stuck != {} {
      var k := FirstBreakable(edges, stuck);
      if k != |edges| {
        RemovedMembers(edges, k);
        StillOneStuckEdge(scope, edges, k);
        StillOnCycles(scope, edges, k);
        CyclesStayKept(scope, edges, broken, k);
        RunIsNecessary(scope, RemoveAt(edges, k), broken + [edges[k]], rounds - 1);
      }
    }
  }

  // ---------------------------------------------------------------- the results

  /** Whatever the guard, a run on cycles that share no table breaks only necessary edges. */
  lemma BreaksOnlyNecessary(scope: set<string>, edges: seq<FkEdge>, rounds: nat)
    requires OneStuckEdge(scope, edges) && BreakableOnCycles(scope, edges) && ClosedScope(edges, scope)
    ensures OnlyNecessary(scope, Break(scope, edges, [], rounds))
  {
    RunIsNecessary(scope, edges, [], rounds);
  }

  lemma SameConditions(scope: set<string>, edges: seq<FkEdge>, listing: seq<FkEdge>)
    requires multiset(listing) == multiset(edges) && Orderly(scope, edges)
    ensures Orderly(scope, listing)
  {
    SameBag(listing, edges);
    SameMembersSameStuck(scope, listing, edges);
    forall e | e in listing && e.nullable && Inside(e, Stuck(scope, listing)) ensures OnCycle(e, scope, listing) {
      var walk :| CycleThrough(walk, e, scope, edges);
      LinksCarryOver(walk, scope, edges, listing);
      assert CycleThrough(walk, e, scope, listing);
    }
    forall i, j | 0 <= i < |listing| && 0 <= j < |listing| && Rivals(listing[i], listing[j], Stuck(scope, listing)) ensures i == j {
      OccursOnce(scope, edges, listing, i, j);
    }
  }

  lemma OccursOnce(scope: set<string>, edges: seq<FkEdge>, listing: seq<FkEdge>, i: nat, j: nat)
    requires multiset(listing) == multiset(edges) && OneStuckEdge(scope, edges)
    requires i < |listing| && j < |listing| && Rivals(listing[i], listing[j], Stuck(scope, edges))
    ensures i == j
  {
    SameBag(listing, edges);
    assert listing[i] in listing && listing[j] in listing;
    var m :| 0 <= m < |edges| && edges[m] == listing[i];
    var n :| 0 <= n < |edges| && edges[n] == listing[j];
    assert m == n;
    if i != j {
      TwiceInBag(listing, i, j);
      TwiceInSeq(edges, m);
    }
  }

  lemma TwiceInBag<T>(s: seq<T>, i: nat, j: nat)
    requires i < |s| && j < |s| && i != j && s[i] == s[j]
    ensures multiset(s)[s[i]] >= 2
  {
    var left := RemoveAt(s, i);
    RemoveAtMultiset(s, i);
    assert left[if j < i then j else j - 1] == s[i];
    assert s[i] in left;
  }

  lemma TwiceInSeq<T>(s: seq<T>, m: nat)
    requires m < |s| && multiset(s)[s[m]] >= 2
    ensures exists other :: 0 <= other < |s| && other != m && s[other] == s[m]
  {
    var left := RemoveAt(s, m);
    RemoveAtMultiset(s, m);
    assert s[m] in multiset(left);
    var i :| 0 <= i < |left| && left[i] == s[m];
    assert s[if i < m then i else i + 1] == s[m];
  }

  /**
   * The exact edges are broken, however the catalog lists them, if and only if no
   * stuck nullable edge merely leads into a cycle; for graphs whose stuck tables
   * each wait through one edge and that can be unstuck at all.
   */
  lemma NecessaryIff(scope: set<string>, edges: seq<FkEdge>)
    requires OneStuckEdge(scope, edges) && Stuck(scope, Fixed(edges, scope)) == {}
    ensures (forall listing :: multiset(listing) == multiset(edges) ==> OnlyNecessary(scope, BreakAll(scope, listing)))
       <==> BreakableOnCycles(scope, edges)
  {
    NoneStuckMeansClosed(scope, edges);
    if BreakableOnCycles(scope, edges) {
      forall listing | multiset(listing) == multiset(edges) ensures OnlyNecessary(scope, BreakAll(scope, listing)) {
        SameConditions(scope, edges, listing);
        BreaksOnlyNecessary(scope, listing, |listing| + 1);
      }
    } else {
      var e :| e in edges && e.nullable && Inside(e, Stuck(scope, edges)) && !OnCycle(e, scope, edges);
      var k :| 0 <= k < |edges| && edges[k] == e;
      NeedlessWhenFirst(scope, edges, k);
    }
  }

  // ---------------------------------------------------------------- edges that close a cycle with the unbreakable ones

  /** The edge closes a cycle with the edges the loop can never break. */
  ghost predicate Closes(e: FkEdge, scope: set<string>, fixed: seq<FkEdge>) {
    HasCycle(scope, fixed + [e])
  }

  ghost predicate EachCloses(scope: set<string>, edges: seq<FkEdge>) {
    forall e :: e in edges && e.nullable && Inside(e, Stuck(scope, edges)) ==> Closes(e, scope, Fixed(edges, scope))
  }

  /** What was broken is nullable and between stuck tables; what cannot be broken is kept. */
  ghost predicate BrokeInside(r: BreakOutcome, broken: seq<FkEdge>, edges: seq<FkEdge>, stuck: set<string>, scope: set<string>) {
    r.Split? ==>
      && (forall e :: e in r.broken ==> e in broken || (e in edges && e.nullable && Inside(e, stuck)))
      && (forall e :: e in edges && (!e.nullable || e.dependsOn !in scope) ==> e in r.edges)
  }

  lemma BrokeInsideBefore(r: BreakOutcome, broken: seq<FkEdge>, edges: seq<FkEdge>, k: nat, stuck: set<string>, less: set<string>, scope: set<string>)
    requires k < |edges| && edges[k].nullable && Inside(edges[k], stuck) && less <= stuck <= scope
    requires BrokeInside(r, broken + [edges[k]], RemoveAt(edges, k), less, scope)
    ensures BrokeInside(r, broken, edges, stuck, scope)
  {
    KeptElsewhere(edges, k);
  }

  /** Breaking stays inside the tables stuck at the start and never touches an unbreakable edge. */
  lemma {:induction false} BrokenWereInside(scope: set<string>, edges: seq<FkEdge>, broken: seq<FkEdge>, rounds: nat)
    ensures BrokeInside(Break(scope, edges, broken, rounds), broken, edges, Stuck(scope, edges), scope)
    decreases rounds
  {
    var stuck := Stuck(scope, edges);
    var k := FirstBreakable(edges, stuck);
    if rounds != 0 && stuck != {} && k != |edges| {
      var left := RemoveAt(edges, k);
      StuckIsGreatestBlocked(scope, edges);
      RemovedMembers(edges, k);
      StuckMonotone(scope, left, edges);
      BrokenWereInside(scope, left, broken + [edges[k]], rounds - 1);
      BrokeInsideBefore(Break(scope, left, broken + [edges[k]], rounds - 1), broken, edges, k, stuck, Stuck(scope, left), scope);
    }
  }

  /** On every graph: when each nullable edge inside the stuck set closes a cycle with the unbreakable ones, only necessary edges are broken, whatever the guard. */
  lemma ClosingEdgesAreNecessary(scope: set<string>, edges: seq<FkEdge>, rounds: nat)
    requires EachCloses(scope, edges)
    ensures OnlyNecessary(scope, Break(scope, edges, [], rounds))
  {
    var r := Break(scope, edges, [], rounds);
    BrokenWereInside(scope, edges, [], rounds);
    if r.Split? {
      forall e | e in r.broken ensures HasCycle(scope, r.edges + [e]) {
        var walk :| IsCycle(walk, scope, Fixed(edges, scope) + [e]);
        LinksCarryOver(walk, scope, Fixed(edges, scope) + [e], r.edges + [e]);
      }
    }
  }

  /** How many nullable edges between the given tables close a cycle with the fixed ones. */
  ghost function ClosingCount(edges: seq<FkEdge>, tables: set<string>, scope: set<string>, fixed: seq<FkEdge>): nat {
    if edges == [] then 0
    else ClosingCount(edges[1..], tables, scope, fixed)
         + if edges[0].nullable && Inside(edges[0], tables) && Closes(edges[0], scope, fixed) then 1 else 0
  }

  lemma {:induction false} ClosingWithout(edges: seq<FkEdge>, k: nat, tables: set<string>, scope: set<string>, fixed: seq<FkEdge>)
    requires k < |edges|
    ensures ClosingCount(edges, tables, scope, fixed) <= ClosingCount(RemoveAt(edges, k), tables, scope, fixed) + 1
  {
    if k == 0 {
      assert RemoveAt(edges, 0) == edges[1..];
    } else {
      ClosingWithout(edges[1..], k - 1, tables, scope, fixed);
      assert RemoveAt(edges, k) == [edges[0]] + RemoveAt(edges[1..], k - 1);
    }
  }

  /** As many edges were broken as closing ones are gone. */
  ghost predicate BrokeEnough(r: BreakOutcome, broken: nat, count: nat, tables: set<string>, scope: set<string>, fixed: seq<FkEdge>) {
    r.Split? ==> |r.broken| - broken >= count - ClosingCount(r.edges, tables, scope, fixed)
  }

  /** Each round disposes of one closing edge at most. */
  lemma {:induction false} BreaksAtLeast(scope: set<string>, edges: seq<FkEdge>, broken: seq<FkEdge>, rounds: nat, tables: set<string>, fixed: seq<FkEdge>)
    ensures BrokeEnough(Break(scope, edges, broken, rounds), |broken|, ClosingCount(edges, tables, scope, fixed), tables, scope, fixed)
    decreases rounds
  {
    var stuck := Stuck(scope, edges);
    var k := FirstBreakable(edges, stuck);
    if rounds != 0 && stuck != {} && k != |edges| {
      ClosingWithout(edges, k, tables, scope, fixed);
      BreaksAtLeast(scope, RemoveAt(edges, k), broken + [edges[k]], rounds - 1, tables, fixed);
    }
  }

  /** Edges without a cycle that hold the fixed ones hold no closing one. */
  lemma {:induction false} NoneCloses(left: seq<FkEdge>, kept: seq<FkEdge>, tables: set<string>, scope: set<string>, fixed: seq<FkEdge>)
    requires !HasCycle(scope, kept) && (forall e :: e in fixed ==> e in kept) && (forall e :: e in left ==> e in kept)
    ensures ClosingCount(left, tables, scope, fixed) == 0
  {
    if left != [] {
      NoneCloses(left[1..], kept, tables, scope, fixed);
      if Closes(left[0], scope, fixed) {
        var walk :| IsCycle(walk, scope, fixed + [left[0]]);
        LinksCarryOver(walk, scope, fixed + [left[0]], kept);
      }
    }
  }

  lemma {:induction false} AllClosing(edges: seq<FkEdge>, tables: set<string>, scope: set<string>, fixed: seq<FkEdge>)
    requires forall e :: e in edges && e.nullable && Inside(e, tables) ==> Closes(e, scope, fixed)
    ensures ClosingCount(edges, tables, scope, fixed) == BreakableCount(edges, tables)
  {
    if edges != [] { AllClosing(edges[1..], tables, scope, fixed); }
  }

  /** The nullable edges inside the stuck set that close a cycle with the unbreakable ones: all of them must go. */
  ghost function MustBreak(scope: set<string>, edges: seq<FkEdge>): nat {
    ClosingCount(edges, Stuck(scope, edges), scope, Fixed(edges, scope))
  }

  lemma NoneLeftToClose(scope: set<string>, edges: seq<FkEdge>)
    requires BreakAll(scope, edges).Split?
    ensures ClosingCount(BreakAll(scope, edges).edges, Stuck(scope, edges), scope, Fixed(edges, scope)) == 0
  {
    var full := BreakAll(scope, edges);
    BreakAllUnsticks(scope, edges);
    BrokenWereInside(scope, edges, [], |edges| + 1);
    if HasCycle(scope, full.edges) { CycleIsStuck(scope, full.edges); }
    NoneCloses(full.edges, full.edges, Stuck(scope, edges), scope, Fixed(edges, scope));
  }

  /** For every input that can be unstuck: the number of broken edges lies between two counts on the graph. */
  lemma BreaksBetween(scope: set<string>, edges: seq<FkEdge>)
    requires Stuck(scope, Fixed(edges, scope)) == {}
    ensures BreakAll(scope, edges).Split?
    ensures MustBreak(scope, edges) <= |BreakAll(scope, edges).broken| <= BreakableCount(edges, Stuck(scope, edges))
  {
    BreakFailsIff(scope, edges);
    NoneLeftToClose(scope, edges);
    BreaksWithinCount(scope, edges, [], |edges| + 1);
    BreaksAtLeast(scope, edges, [], |edges| + 1, Stuck(scope, edges), Fixed(edges, scope));
  }

  /**
   * For every input that can be unstuck, by counts on the graph alone: more than 20
   * edges that must go leave no order, at most 20 that could go leave one. When each
   * nullable edge inside the stuck set must go, the two counts are one and decide.
   */
  lemma OrderByCounts(scope: set<string>, edges: seq<FkEdge>)
    requires Stuck(scope, Fixed(edges, scope)) == {}
    ensures MustBreak(scope, edges) > MAX_BREAK_ROUNDS ==> !Succeeds(scope, edges)
    ensures BreakableCount(edges, Stuck(scope, edges)) <= MAX_BREAK_ROUNDS ==> Succeeds(scope, edges)
    ensures EachCloses(scope, edges) ==> (Succeeds(scope, edges) <==> MustBreak(scope, edges) <= MAX_BREAK_ROUNDS)
  {
    BreaksBetween(scope, edges);
    OrderExistsIff(scope, edges);
    if EachCloses(scope, edges) { AllClosing(edges, Stuck(scope, edges), scope, Fixed(edges, scope)); }
  }
}
