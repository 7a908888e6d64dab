/**
 * The foreign-key graph of the backup core: which tables are stuck behind a
 * cycle, which nullable edges are broken, and the insertion order that is left.
 */
module FkGraph {
  import opened Common
  import opened Names

  /** `table.column` references `dependsOn`; a nullable column may be loaded as NULL and repaired later. */
  datatype FkEdge = FkEdge(table: string, column: string, dependsOn: string, nullable: bool)

  const MAX_BREAK_ROUNDS := 20

  function Deps(t: string, edges: seq<FkEdge>): set<string> {
    set e | e in edges && e.table == t :: e.dependsOn
  }

  /** The edges with both ends among the tables at hand. */
  function InScope(edges: seq<FkEdge>, scope: set<string>): (kept: seq<FkEdge>)
    ensures forall e :: e in kept <==> e in edges && e.table in scope && e.dependsOn in scope
  {
    if edges == [] then []
    else
      var rest := InScope(edges[1..], scope);
      if edges[0].table in scope && edges[0].dependsOn in scope then [edges[0]] + rest else rest
  }

  /** No table at hand refers to an absent one. */
  ghost predicate ClosedScope(edges: seq<FkEdge>, scope: set<string>) {
    forall e :: e in edges && e.table in scope ==> e.dependsOn in scope
  }

  // ---------------------------------------------------------------- stuck tables

  /** Every table of `s` waits for a table that is in `s` too, or that is absent altogether. */
  ghost predicate Blocked(s: set<string>, scope: set<string>, edges: seq<FkEdge>) {
    s <= scope && forall t {:trigger Deps(t, edges)} :: t in s ==> !(Deps(t, edges) <= scope - s)
  }

  ghost predicate GreatestBlocked(s: set<string>, scope: set<string>, edges: seq<FkEdge>) {
    Blocked(s, scope, edges) && forall other :: Blocked(other, scope, edges) ==> other <= s
  }

  /** Takes away whole layers of ready tables until none is ready. */
  ghost function Peel(rem: set<string>, scope: set<string>, edges: seq<FkEdge>): set<string> {
    var ready := set t | t in rem && Deps(t, edges) <= scope - rem;
    if ready == {} then rem else Peel(rem - ready, scope, edges)
  }

  ghost function Stuck(scope: set<string>, edges: seq<FkEdge>): set<string> {
    Peel(scope, scope, edges)
  }

  lemma {:induction false} PeelIsGreatestBlocked(rem: set<string>, scope: set<string>, edges: seq<FkEdge>)
    requires rem <= scope
    requires forall s :: Blocked(s, scope, edges) ==> s <= rem
    ensures GreatestBlocked(Peel(rem, scope, edges), scope, edges)
  {
    var ready := set t | t in rem && Deps(t, edges) <= scope - rem;
    if ready != {} {
      forall s | Blocked(s, scope, edges) ensures s <= rem - ready {
        forall t | t in s ensures t !in ready {
          assert t in ready ==> Deps(t, edges) <= scope - s;
        }
      }
      PeelIsGreatestBlocked(rem - ready, scope, edges);
    } else {
      forall t | t in rem ensures !(Deps(t, edges) <= scope - rem) {
        assert t !in ready;
      }
    }
  }

  /** The stuck set does not depend on any iteration order: it is the one greatest blocked set. */
  lemma StuckIsGreatestBlocked(scope: set<string>, edges: seq<FkEdge>)
    ensures GreatestBlocked(Stuck(scope, edges), scope, edges)
  {
    PeelIsGreatestBlocked(scope, scope, edges);
  }

  lemma GreatestBlockedUnique(a: set<string>, scope: set<string>, edges: seq<FkEdge>)
    requires GreatestBlocked(a, scope, edges)
    ensures a == Stuck(scope, edges)
  {
    StuckIsGreatestBlocked(scope, edges);
  }

  // ---------------------------------------------------------------- cycles

  /** The walk's `i`-th step follows a dependency between two tables of `s`. */
  ghost predicate LinkAt(walk: seq<string>, i: int, s: set<string>, edges: seq<FkEdge>)
    requires 0 <= i < |walk| - 1
  {
    walk[i] in s && walk[i + 1] in s && walk[i + 1] in Deps(walk[i], edges)
  }

  /** A closed walk along dependencies between tables of the scope. */
  ghost predicate IsCycle(walk: seq<string>, scope: set<string>, edges: seq<FkEdge>) {
    && |walk| >= 2
    && walk[0] == walk[|walk| - 1]
    && forall i :: 0 <= i < |walk| - 1 ==> LinkAt(walk, i, scope, edges)
  }

  ghost predicate HasCycle(scope: set<string>, edges: seq<FkEdge>) {
    exists walk :: IsCycle(walk, scope, edges)
  }

  /** Every table of `s` depends on another table of `s`. */
  ghost predicate Inward(s: set<string>, edges: seq<FkEdge>) {
    forall t {:trigger Deps(t, edges)} :: t in s ==> Deps(t, edges) * s != {}
  }

  ghost predicate IsWalk(walk: seq<string>, s: set<string>, edges: seq<FkEdge>) {
    && |walk| > 0 && walk[|walk| - 1] in s
    && forall i :: 0 <= i < |walk| - 1 ==> LinkAt(walk, i, s, edges)
  }

  lemma {:induction false} LongWalk(s: set<string>, edges: seq<FkEdge>, start: string, n: nat) returns (walk: seq<string>)
    requires start in s
    requires Inward(s, edges)
    ensures |walk| == n + 1 && IsWalk(walk, s, edges)
  {
    walk := [start];
    while |walk| < n + 1
      invariant 1 <= |walk| <= n + 1
      invariant IsWalk(walk, s, edges)
      decreases n + 1 - |walk|
    {
      var last := walk[|walk| - 1];
      var d :| d in Deps(last, edges) * s;
      var longer := walk + [d];
      forall i | 0 <= i < |longer| - 1 ensures LinkAt(longer, i, s, edges) {
        assert i < |walk| - 1 ==> LinkAt(walk, i, s, edges);
      }
      walk := longer;
    }
  }

  /** A walk longer than the set it stays in visits some table twice. */
  lemma {:induction false} Pigeonhole(walk: seq<string>, s: set<string>) returns (i: nat, j: nat)
    requires forall k :: 0 <= k < |walk| ==> walk[k] in s
    requires |walk| > |s|
    ensures i < j < |walk| && walk[i] == walk[j]
    decreases |walk|
  {
    var last := |walk| - 1;
    if k :| 0 <= k < last && walk[k] == walk[last] {
      i, j := k, last;
    } else {
      i, j := Pigeonhole(walk[..last], s - {walk[last]});
    }
  }

  lemma ClosedSetHasCycle(s: set<string>, edges: seq<FkEdge>)
    requires s != {}
    requires Inward(s, edges)
    ensures HasCycle(s, edges)
  {
    var start :| start in s;
    var walk := LongWalk(s, edges, start, |s|);
    forall k | 0 <= k < |walk| ensures walk[k] in s {
      assert k < |walk| - 1 ==> LinkAt(walk, k, s, edges);
    }
    var i, j := Pigeonhole(walk, s);
    var cycle := walk[i..j + 1];
    forall k | 0 <= k < |cycle| - 1 ensures LinkAt(cycle, k, s, edges) {
      assert LinkAt(walk, i + k, s, edges);
    }
    assert IsCycle(cycle, s, edges);
  }

  /** The tables on a cycle are blocked by one another. */
  lemma CycleIsBlocked(walk: seq<string>, scope: set<string>, edges: seq<FkEdge>)
    requires IsCycle(walk, scope, edges)
    ensures Blocked(NameSet(walk), scope, edges)
    ensures NameSet(walk) != {}
  {
    assert LinkAt(walk, 0, scope, edges) && walk[0] in NameSet(walk);
    forall t | t in NameSet(walk) ensures t in scope && !(Deps(t, edges) <= scope - NameSet(walk)) {
      var k :| 0 <= k < |walk| && walk[k] == t;
      var i := if k == |walk| - 1 then 0 else k;
      assert LinkAt(walk, i, scope, edges);
      assert walk[i + 1] in Deps(t, edges) && walk[i + 1] in NameSet(walk);
    }
  }

  lemma CycleInLargerScope(walk: seq<string>, s: set<string>, scope: set<string>, edges: seq<FkEdge>)
    requires IsCycle(walk, s, edges) && s <= scope
    ensures IsCycle(walk, scope, edges)
  {
    forall i | 0 <= i < |walk| - 1 ensures LinkAt(walk, i, scope, edges) {
      assert LinkAt(walk, i, s, edges);
    }
  }

  lemma BlockedInsideItself(s: set<string>, scope: set<string>, edges: seq<FkEdge>)
    requires ClosedScope(edges, scope) && Blocked(s, scope, edges)
    ensures Inward(s, edges)
  {
    forall t | t in s ensures Deps(t, edges) * s != {} {
      var d :| d in Deps(t, edges) && d !in scope - s;
      var e :| e in edges && e.table == t && e.dependsOn == d;
      assert d in Deps(t, edges) * s;
    }
  }

  lemma BlockedHasCycle(s: set<string>, scope: set<string>, edges: seq<FkEdge>)
    requires s != {} && ClosedScope(edges, scope) && Blocked(s, scope, edges)
    ensures HasCycle(scope, edges)
  {
    BlockedInsideItself(s, scope, edges);
    ClosedSetHasCycle(s, edges);
    var walk :| IsCycle(walk, s, edges);
    CycleInLargerScope(walk, s, scope, edges);
  }

  lemma CycleIsStuck(scope: set<string>, edges: seq<FkEdge>)
    requires HasCycle(scope, edges)
    ensures Stuck(scope, edges) != {}
  {
    var walk :| IsCycle(walk, scope, edges);
    CycleIsBlocked(walk, scope, edges);
    StuckIsGreatestBlocked(scope, edges);
    assert NameSet(walk) <= Stuck(scope, edges);
  }

  /** When every dependency is in scope, being stuck and being cyclic are the same thing. */
  lemma StuckIffCyclic(scope: set<string>, edges: seq<FkEdge>)
    requires ClosedScope(edges, scope)
    ensures Stuck(scope, edges) != {} <==> HasCycle(scope, edges)
  {
    if Stuck(scope, edges) != {} {
      StuckIsGreatestBlocked(scope, edges);
      BlockedHasCycle(Stuck(scope, edges), scope, edges);
    }
    if HasCycle(scope, edges) { CycleIsStuck(scope, edges); }
  }

  lemma CyclesStayInScope(scope: set<string>, edges: seq<FkEdge>)
    ensures HasCycle(scope, InScope(edges, scope)) <==> HasCycle(scope, edges)
  {
    ScopedDeps(scope, edges);
    forall walk ensures IsCycle(walk, scope, InScope(edges, scope)) <==> IsCycle(walk, scope, edges) {
      if |walk| >= 2 {
        forall i | 0 <= i < |walk| - 1 ensures LinkAt(walk, i, scope, InScope(edges, scope)) <==> LinkAt(walk, i, scope, edges) {
        }
      }
    }
  }

  lemma ScopedDeps(scope: set<string>, edges: seq<FkEdge>)
    ensures forall t :: t in scope ==> Deps(t, InScope(edges, scope)) == Deps(t, edges) * scope
  {
    forall t | t in scope ensures Deps(t, InScope(edges, scope)) == Deps(t, edges) * scope {
      forall d | d in Deps(t, edges) * scope ensures d in Deps(t, InScope(edges, scope)) {
        var e :| e in edges && e.table == t && e.dependsOn == d;
        assert e in InScope(edges, scope);
      }
    }
  }
}
