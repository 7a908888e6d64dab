/** What the two loops of the insertion order do step by step, told without the functions that specify them. */
module BackupOrderRuns {
  import opened Common
  import opened Names
  import opened FkGraph
  import opened BackupOrder
  import opened BackupOrderTheorems

  // ---------------------------------------------------------------- breakCycles

  /** An edge the loop may break: nullable, from a stuck table to a stuck table. */
  ghost predicate Breakable(e: FkEdge, stuck: set<string>) {
    e.nullable && e.table in stuck && e.dependsOn in stuck
  }

  /** Edge `k` is the first breakable one, and some table is stuck. */
  ghost predicate NextBroken(edges: seq<FkEdge>, k: nat, scope: set<string>) {
    exists stuck :: GreatestBlocked(stuck, scope, edges) && k < |edges| && Breakable(edges[k], stuck)
                    && forall j :: 0 <= j < k ==> !Breakable(edges[j], stuck)
  }

  /** One round: the first breakable edge goes from the kept edges to the broken ones, and the others keep their order. */
  ghost predicate Round(kept: seq<FkEdge>, edge: FkEdge, next: seq<FkEdge>, scope: set<string>) {
    exists k: nat :: k < |kept| && edge == kept[k] && next == kept[..k] + kept[k + 1..] && NextBroken(kept, k, scope)
  }

  /** The rounds of a run: what was kept before each of them and after the last. */
  ghost predicate Rounds(states: seq<seq<FkEdge>>, broken: seq<FkEdge>, scope: set<string>) {
    |states| == |broken| + 1 && forall i :: 0 <= i < |broken| ==> RoundAt(states, broken, i, scope)
  }

  ghost predicate RoundAt(states: seq<seq<FkEdge>>, broken: seq<FkEdge>, i: nat, scope: set<string>)
    requires i < |broken| && |states| == |broken| + 1
  {
    Round(states[i], broken[i], states[i + 1], scope)
  }

  /** How the loop ends: nothing is stuck, the rounds are used up, or no breakable edge is left. */
  ghost predicate Ends(kept: seq<FkEdge>, broken: seq<FkEdge>, r: BreakOutcome, limit: nat, scope: set<string>) {
    match r
    case Split(edges, all) => edges == kept && all == broken && |broken| <= limit && (|broken| < limit ==> GreatestBlocked({}, scope, kept))
    case Unbreakable(stuck) =>
      |broken| < limit && stuck != {} && GreatestBlocked(stuck, scope, kept) && forall e :: e in kept ==> !Breakable(e, stuck)
  }

  lemma FirstIsNext(kept: seq<FkEdge>, k: nat, scope: set<string>)
    requires k < |kept| && k == FirstBreakable(kept, Stuck(scope, kept))
    ensures NextBroken(kept, k, scope)
  {
    StuckIsGreatestBlocked(scope, kept);
  }

  /** The outcome as seen from a later round: only what is broken from there on. */
  function Later(r: BreakOutcome, broken: seq<FkEdge>): BreakOutcome {
    if r.Split? then r.(broken := broken) else r
  }

  lemma EndsAtOnce(scope: set<string>, edges: seq<FkEdge>, done: seq<FkEdge>, rounds: nat)
    requires Halts(scope, edges, rounds)
    ensures var r := Break(scope, edges, done, rounds);
            Ends(edges, [], Later(r, []), rounds, scope) && (r.Split? ==> r.broken == done)
  {
    StuckIsGreatestBlocked(scope, edges);
  }

  ghost predicate Halts(scope: set<string>, edges: seq<FkEdge>, rounds: nat) {
    rounds == 0 || Stuck(scope, edges) == {} || FirstBreakable(edges, Stuck(scope, edges)) == |edges|
  }

  /** The edge a round breaks and what it leaves. */
  ghost predicate Takes(scope: set<string>, edges: seq<FkEdge>, edge: FkEdge, next: seq<FkEdge>) {
    var k := FirstBreakable(edges, Stuck(scope, edges));
    k < |edges| && edge == edges[k] && next == RemoveAt(edges, k)
  }

  lemma BreakStep(scope: set<string>, edges: seq<FkEdge>, done: seq<FkEdge>, rounds: nat, r: BreakOutcome)
    returns (edge: FkEdge, next: seq<FkEdge>)
    requires !Halts(scope, edges, rounds) && r == Break(scope, edges, done, rounds)
    ensures Takes(scope, edges, edge, next) && r == Break(scope, next, done + [edge], rounds - 1)
  {
    var k := FirstBreakable(edges, Stuck(scope, edges));
    edge, next := edges[k], RemoveAt(edges, k);
  }

  lemma RoundsGrow(first: seq<FkEdge>, edge: FkEdge, next: seq<FkEdge>, states: seq<seq<FkEdge>>, broken: seq<FkEdge>, scope: set<string>)
    requires Rounds(states, broken, scope) && states[0] == next && Takes(scope, first, edge, next)
    ensures Rounds([first] + states, [edge] + broken, scope)
  {
    FirstIsNext(first, FirstBreakable(first, Stuck(scope, first)), scope);
    forall i | 0 <= i < |broken| + 1 ensures RoundAt([first] + states, [edge] + broken, i, scope) {
      if i > 0 { assert RoundAt(states, broken, i - 1, scope); }
    }
  }

  lemma EndsLater(r: BreakOutcome, done: seq<FkEdge>, edge: FkEdge, kept: seq<FkEdge>, broken: seq<FkEdge>, rounds: nat, scope: set<string>)
    requires rounds > 0 && Ends(kept, broken, Later(r, broken), rounds - 1, scope)
    ensures Ends(kept, [edge] + broken, Later(r, [edge] + broken), rounds, scope)
    ensures done + [edge] + broken == done + ([edge] + broken)
  {
  }

  lemma {:induction false} BreakRuns(scope: set<string>, edges: seq<FkEdge>, done: seq<FkEdge>, rounds: nat, r: BreakOutcome)
    returns (states: seq<seq<FkEdge>>, broken: seq<FkEdge>)
    requires r == Break(scope, edges, done, rounds)
    ensures Rounds(states, broken, scope) && states[0] == edges
    ensures Ends(states[|broken|], broken, Later(r, broken), rounds, scope) && (r.Split? ==> r.broken == done + broken)
    decreases rounds
  {
    if Halts(scope, edges, rounds) {
      EndsAtOnce(scope, edges, done, rounds);
      states, broken := [edges], [];
    } else {
      var edge, next := BreakStep(scope, edges, done, rounds, r);
      var s, b := BreakRuns(scope, next, done + [edge], rounds - 1, r);
      RoundsGrow(edges, edge, next, s, b, scope);
      EndsLater(r, done, edge, s[|b|], b, rounds, scope);
      states, broken := [edges] + s, [edge] + b;
    }
  }

  /**
   * The guarded loop, for every input: up to 20 rounds, each of which breaks the
   * first nullable edge between stuck tables of what is left; it ends early when
   * nothing is stuck any more, or with the stuck tables when there is no such edge.
   */
  lemma BreakCyclesRuns(scope: set<string>, edges: seq<FkEdge>) returns (states: seq<seq<FkEdge>>, broken: seq<FkEdge>)
    ensures Rounds(states, broken, scope) && states[0] == edges
    ensures Ends(states[|broken|], broken, Break(scope, edges, [], MAX_BREAK_ROUNDS), 20, scope)
  {
    states, broken := BreakRuns(scope, edges, [], MAX_BREAK_ROUNDS, Break(scope, edges, [], MAX_BREAK_ROUNDS));
    assert [] + broken == broken;
  }

  // ---------------------------------------------------------------- topologicalSort

  type Levels = map<string, nat>

  /** The level of a table is one more than the highest level it refers to, and 0 when it refers to none of the tables. */
  ghost predicate LevelOk(level: Levels, t: string, scope: set<string>, edges: seq<FkEdge>) {
    && t in level
    && (forall d :: d in Deps(t, edges) && d in scope ==> d in level && level[d] < level[t])
    && (level[t] > 0 ==> exists d :: d in Deps(t, edges) && d in scope && d in level && level[d] == level[t] - 1)
  }

  /** Lower levels first, and within a level by name. */
  predicate Precedes(a: string, b: string, level: Levels)
    requires a in level && b in level
  {
    level[a] < level[b] || (level[a] == level[b] && Before(a, b))
  }

  ghost predicate SortedByLevel(order: seq<string>, level: Levels) {
    && (forall i :: 0 <= i < |order| ==> order[i] in level)
    && forall i, j :: 0 <= i < j < |order| ==> Precedes(order[i], order[j], level)
  }

  /** A table that has to wait refers to one of the last layer or to one that waits as well. */
  ghost predicate Waits(t: string, rem: set<string>, level: Levels, n: nat, edges: seq<FkEdge>) {
    exists d :: d in Deps(t, edges) && (d in rem || (d in level && level[d] == n - 1))
  }

  /** After `n` layers. */
  ghost predicate Levelled(rem: set<string>, done: seq<string>, level: Levels, n: nat, scope: set<string>, edges: seq<FkEdge>) {
    && rem <= scope && level.Keys == NameSet(done) == scope - rem && SortedByLevel(done, level)
    && AllLevelled(level, n, scope, edges) && AllWait(rem, level, n, edges)
  }

  ghost function WithLayer(level: Levels, ready: set<string>, n: nat): Levels {
    map t | t in level.Keys + ready :: if t in ready then n else level[t]
  }

  lemma LayerSorted(done: seq<string>, layer: seq<string>, level: Levels, ready: set<string>, n: nat)
    requires SortedByLevel(done, level) && level.Keys == NameSet(done) && (forall t :: t in level ==> level[t] < n)
    requires IsListing(layer, ready) && ready !! NameSet(done)
    ensures SortedByLevel(done + layer, WithLayer(level, ready, n))
  {
    var all, next := done + layer, WithLayer(level, ready, n);
    forall i | 0 <= i < |all| ensures all[i] in next && (next[all[i]] == if i < |done| then level[all[i]] else n) {
      if i < |done| { assert all[i] in NameSet(done); } else { assert all[i] in NameSet(layer); }
    }
    forall i, j | 0 <= i < j < |all| ensures Precedes(all[i], all[j], next) {
      if j < |done| {
        assert Precedes(done[i], done[j], level);
      } else if i >= |done| {
        assert Before(layer[i - |done|], layer[j - |done|]);
      }
    }
  }

  lemma LayerLevels(rem: set<string>, level: Levels, n: nat, t: string, ready: set<string>, scope: set<string>, edges: seq<FkEdge>)
    requires rem <= scope && level.Keys == scope - rem && ready == ReadySet(rem, scope, edges)
    requires forall u :: u in level ==> level[u] < n && LevelOk(level, u, scope, edges)
    requires t in level.Keys + ready && (n > 0 && t in rem ==> Waits(t, rem, level, n, edges))
    ensures LevelOk(WithLayer(level, ready, n), t, scope, edges)
  {
    var next := WithLayer(level, ready, n);
    if t in level {
      assert LevelOk(level, t, scope, edges);
      if level[t] > 0 {
        var d :| d in Deps(t, edges) && d in scope && d in level && level[d] == level[t] - 1;
        assert next[d] == level[d];
      }
    } else if n > 0 {
      var d :| d in Deps(t, edges) && (d in rem || (d in level && level[d] == n - 1));
      assert d in level && next[d] == n - 1;
    }
  }

  ghost predicate AllLevelled(level: Levels, n: nat, scope: set<string>, edges: seq<FkEdge>) {
    forall t :: t in level ==> level[t] < n && LevelOk(level, t, scope, edges)
  }

  lemma AllLevelledNext(rem: set<string>, level: Levels, n: nat, ready: set<string>, scope: set<string>, edges: seq<FkEdge>)
    requires rem <= scope && level.Keys == scope - rem && ready == ReadySet(rem, scope, edges)
    requires AllLevelled(level, n, scope, edges) && AllWait(rem, level, n, edges)
    ensures AllLevelled(WithLayer(level, ready, n), n + 1, scope, edges)
  {
    var next := WithLayer(level, ready, n);
    forall t | t in next ensures next[t] < n + 1 && LevelOk(next, t, scope, edges) {
      LayerLevels(rem, level, n, t, ready, scope, edges);
    }
  }

  ghost predicate AllWait(rem: set<string>, level: Levels, n: nat, edges: seq<FkEdge>) {
    n > 0 ==> forall t :: t in rem ==> Waits(t, rem, level, n, edges)
  }

  lemma AllWaitNext(rem: set<string>, level: Levels, n: nat, ready: set<string>, scope: set<string>, edges: seq<FkEdge>)
    requires rem <= scope && ready == ReadySet(rem, scope, edges) && forall t :: t in scope ==> Deps(t, edges) <= scope
    ensures AllWait(rem - ready, WithLayer(level, ready, n), n + 1, edges)
  {
    forall t | t in rem - ready ensures Waits(t, rem - ready, WithLayer(level, ready, n), n + 1, edges) {
      var d :| d in Deps(t, edges) && d !in scope - rem;
      assert d in rem && (d in ready ==> WithLayer(level, ready, n)[d] == n);
    }
  }

  lemma LevelledNext(rem: set<string>, done: seq<string>, level: Levels, n: nat, ready: set<string>, scope: set<string>, edges: seq<FkEdge>)
    requires Levelled(rem, done, level, n, scope, edges) && ready == ReadySet(rem, scope, edges)
    requires forall t :: t in scope ==> Deps(t, edges) <= scope
    ensures Levelled(rem - ready, done + Listing(ready), WithLayer(level, ready, n), n + 1, scope, edges)
  {
    LayerSorted(done, Listing(ready), level, ready, n);
    LayerNames(done, Listing(ready), ready);
    AllLevelledNext(rem, level, n, ready, scope, edges);
    AllWaitNext(rem, level, n, ready, scope, edges);
  }

  lemma LayerNames(done: seq<string>, layer: seq<string>, ready: set<string>)
    requires IsListing(layer, ready)
    ensures NameSet(done + layer) == NameSet(done) + ready
  {
  }

  lemma {:induction false} LayersLevelled(rem: set<string>, done: seq<string>, level: Levels, n: nat, scope: set<string>, edges: seq<FkEdge>)
    returns (all: Levels)
    requires Levelled(rem, done, level, n, scope, edges) && forall t :: t in scope ==> Deps(t, edges) <= scope
    ensures var r := Layers(rem, done, scope, edges);
            r.Ok? ==> NameSet(r.value) == scope && SortedByLevel(r.value, all) && forall t :: t in scope ==> LevelOk(all, t, scope, edges)
    decreases rem
  {
    var ready := ReadySet(rem, scope, edges);
    if rem == {} || ready == {} {
      all := level;
    } else {
      LevelledNext(rem, done, level, n, ready, scope, edges);
      all := LayersLevelled(rem - ready, done + Listing(ready), WithLayer(level, ready, n), n + 1, scope, edges);
    }
  }

  /** The order lists the tables by level, and by name within a level. */
  lemma SortsByLevel(scope: set<string>, edges: seq<FkEdge>) returns (level: Levels)
    requires SortOutcome(scope, edges).Ok?
    ensures var order := SortOutcome(scope, edges).value;
            NameSet(order) == scope && SortedByLevel(order, level) && forall t :: t in scope ==> LevelOk(level, t, scope, edges)
  {
    var inner := InScope(edges, scope);
    ScopedDeps(scope, edges);
    assert forall t :: t in scope ==> Deps(t, inner) <= scope;
    assert Levelled(scope, [], map[], 0, scope, inner);
    level := LayersLevelled(scope, [], map[], 0, scope, inner);
    forall t | t in scope ensures LevelOk(level, t, scope, edges) {
      assert LevelOk(level, t, scope, inner);
      assert Deps(t, inner) == Deps(t, edges) * scope;
    }
  }

  // ---------------------------------------------------------------- the order of names

  /** The first difference decides: a smaller code unit, or the end of the shorter name. */
  predicate DiffersAt(a: string, b: string, k: nat) {
    && k <= |a| && k < |b| && a[..k] == b[..k]
    && (k == |a| || a[k] < b[k])
  }

  lemma {:induction false} BeforeIff(a: string, b: string)
    ensures Before(a, b) <==> exists k: nat :: DiffersAt(a, b, k)
  {
    forall k: nat | k > 0 && DiffersAt(a, b, k) ensures a != [] && b != [] && a[0] == b[0] {
      assert a[0] == a[..k][0] && b[0] == b[..k][0];
    }
    if b != [] && (a == [] || a[0] < b[0]) {
      assert DiffersAt(a, b, 0);
    } else if a != [] && b != [] && a[0] == b[0] {
      BeforeIff(a[1..], b[1..]);
      if k: nat :| DiffersAt(a[1..], b[1..], k) {
        assert a[..k + 1] == [a[0]] + a[1..][..k] && b[..k + 1] == [b[0]] + b[1..][..k];
        assert DiffersAt(a, b, k + 1);
      }
      if k: nat :| DiffersAt(a, b, k) {
        assert k > 0 && a[1..][..k - 1] == a[..k][1..] && b[1..][..k - 1] == b[..k][1..];
        assert DiffersAt(a[1..], b[1..], k - 1);
      }
    }
  }
}
