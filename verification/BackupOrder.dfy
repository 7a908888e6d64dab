/**
 * The insertion order of a backup: `breakCycles` takes nullable edges out of
 * the foreign-key graph and `topologicalSort` orders the tables by what is left.
 */
module BackupOrder {
  import opened Common
  import opened Names
  import opened FkGraph

  /** What `breakCycles` returns, or the stuck tables its error names. */
  datatype BreakOutcome = Split(edges: seq<FkEdge>, broken: seq<FkEdge>) | Unbreakable(stuck: set<string>)

  // ---------------------------------------------------------------- insertion-ordered sets

  /** `new Set(names)` listed in insertion order. */
  function Distinct(names: seq<string>): (d: seq<string>)
    ensures NoDuplicates(d) && NameSet(d) == NameSet(names)
  {
    if names == [] then []
    else
      var last := |names| - 1;
      var init := Distinct(names[..last]);
      assert names == names[..last] + [names[last]];
      assert NameSet(names) == NameSet(names[..last]) + {names[last]};
      if names[last] in init then
        assert names[last] in NameSet(names[..last]);
        init
      else
        init + [names[last]]
  }

  /** `set.delete(name)`, keeping the order of the others. */
  function Without(names: seq<string>, name: string): (rest: seq<string>)
    ensures NameSet(rest) == NameSet(names) - {name}
    ensures NoDuplicates(names) ==> NoDuplicates(rest)
    ensures |rest| <= |names| && (name in names ==> |rest| < |names|)
  {
    if names == [] then []
    else
      assert names == [names[0]] + names[1..];
      var rest := Without(names[1..], name);
      if names[0] == name then rest
      else
        assert names[0] !in NameSet(names[1..]) ==> names[0] !in NameSet(rest);
        assert NameSet(names) == {names[0]} + NameSet(names[1..]);
        assert NameSet([names[0]] + rest) == {names[0]} + NameSet(rest);
        [names[0]] + rest
  }

  // ---------------------------------------------------------------- dependency maps

  method AllDependencies(tables: seq<string>, edges: seq<FkEdge>) returns (dependsOn: map<string, set<string>>)
    ensures dependsOn.Keys == NameSet(tables)
    ensures forall t :: t in dependsOn ==> dependsOn[t] == Deps(t, edges)
  {
    dependsOn := map t | t in tables :: {};
    for i := 0 to |edges|
      invariant dependsOn.Keys == NameSet(tables)
      invariant forall t :: t in dependsOn ==> dependsOn[t] == Deps(t, edges[..i])
    {
      var e := edges[i];
      DepsStep(edges, i);
      if e.table in dependsOn {
        dependsOn := dependsOn[e.table := dependsOn[e.table] + {e.dependsOn}];
      }
    }
    assert edges[..|edges|] == edges;
  }

  method ScopedDependencies(tables: seq<string>, edges: seq<FkEdge>) returns (dependsOn: map<string, set<string>>)
    ensures dependsOn.Keys == NameSet(tables)
    ensures forall t :: t in dependsOn ==> dependsOn[t] == Deps(t, InScope(edges, NameSet(tables)))
  {
    dependsOn := map t | t in tables :: {};
    for i := 0 to |edges|
      invariant dependsOn.Keys == NameSet(tables)
      invariant forall t :: t in dependsOn ==> dependsOn[t] == Deps(t, edges[..i]) * NameSet(tables)
    {
      var e := edges[i];
      DepsStep(edges, i);
      if e.table in dependsOn && e.dependsOn in dependsOn {
        dependsOn := dependsOn[e.table := dependsOn[e.table] + {e.dependsOn}];
      }
    }
    assert edges[..|edges|] == edges;
    ScopedDeps(NameSet(tables), edges);
  }

  lemma DepsStep(edges: seq<FkEdge>, i: nat)
    requires i < |edges|
    ensures forall t :: Deps(t, edges[..i + 1]) ==
                        if t == edges[i].table then Deps(t, edges[..i]) + {edges[i].dependsOn} else Deps(t, edges[..i])
  {
    assert edges[..i + 1] == edges[..i] + [edges[i]];
  }

  // ---------------------------------------------------------------- stuckSet

  /** The tables no pass can place, computed in whatever order the set is iterated. */
  method StuckSet(tables: seq<string>, edges: seq<FkEdge>) returns (stuck: Option<set<string>>)
    ensures stuck == if Stuck(NameSet(tables), edges) == {} then None else Some(Stuck(NameSet(tables), edges))
  {
    var dependsOn := AllDependencies(tables, edges);
    ghost var scope := NameSet(tables);
    var sorted: set<string> := {};
    var remaining := Distinct(tables);
    var progressed := true;
    while remaining != [] && progressed
      invariant sorted == scope - NameSet(remaining) && NameSet(remaining) <= scope && NoDuplicates(remaining)
      invariant forall s :: Blocked(s, scope, edges) ==> s <= NameSet(remaining)
      invariant !progressed ==> forall t :: t in remaining ==> !(Deps(t, edges) <= sorted)
      decreases |remaining|, progressed
    {
      progressed := false;
      var snapshot := remaining;
      for k := 0 to |snapshot|
        invariant sorted == scope - NameSet(remaining) && NameSet(remaining) <= scope && NoDuplicates(remaining)
        invariant forall s :: Blocked(s, scope, edges) ==> s <= NameSet(remaining)
        invariant forall j :: k <= j < |snapshot| ==> snapshot[j] in remaining
        invariant |remaining| <= |snapshot| && (progressed ==> |remaining| < |snapshot|)
        invariant !progressed ==> remaining == snapshot
        invariant !progressed ==> forall j :: 0 <= j < k ==> !(Deps(snapshot[j], edges) <= sorted)
      {
        var t := snapshot[k];
        assert t in NameSet(remaining);
        if dependsOn[t] <= sorted {
          forall s | Blocked(s, scope, edges) ensures t !in s {
            assert Deps(t, edges) <= scope - s;
          }
          forall j | k + 1 <= j < |snapshot| ensures snapshot[j] in Without(remaining, t) {
            assert snapshot[j] in NameSet(remaining) - {t};
          }
          sorted, remaining, progressed := sorted + {t}, Without(remaining, t), true;
        }
      }
    }
    forall t | t in NameSet(remaining) ensures !(Deps(t, edges) <= scope - NameSet(remaining)) {
      assert t in remaining;
    }
    assert GreatestBlocked(NameSet(remaining), scope, edges);
    GreatestBlockedUnique(NameSet(remaining), scope, edges);
    assert remaining != [] ==> remaining[0] in NameSet(remaining);
    stuck := if remaining != [] then Some(NameSet(remaining)) else None;
  }

  // ---------------------------------------------------------------- breakCycles

  /** Index of the first nullable edge inside the stuck set, or the length when there is none. */
  function FirstBreakable(edges: seq<FkEdge>, stuck: set<string>): (k: nat)
    ensures k <= |edges|
    ensures k < |edges| ==> edges[k].nullable && edges[k].table in stuck && edges[k].dependsOn in stuck
    ensures forall j :: 0 <= j < k ==> !(edges[j].nullable && edges[j].table in stuck && edges[j].dependsOn in stuck)
  {
    if edges == [] then 0
    else if edges[0].table in stuck && edges[0].dependsOn in stuck && edges[0].nullable then 0
    else 1 + FirstBreakable(edges[1..], stuck)
  }

  function RemoveAt<T>(s: seq<T>, k: nat): seq<T>
    requires k < |s|
  {
    s[..k] + s[k + 1..]
  }

  /** Breaking one edge per round, for at most `rounds` rounds. */
  ghost function Break(scope: set<string>, edges: seq<FkEdge>, broken: seq<FkEdge>, rounds: nat): BreakOutcome
    decreases rounds
  {
    var stuck := Stuck(scope, edges);
    if rounds == 0 || stuck == {} then Split(edges, broken)
    else
      var k := FirstBreakable(edges, stuck);
      if k == |edges| then Unbreakable(stuck)
      else Break(scope, RemoveAt(edges, k), broken + [edges[k]], rounds - 1)
  }

  method BreakCycles(tables: seq<string>, edges: seq<FkEdge>) returns (r: BreakOutcome)
    ensures r == Break(NameSet(tables), edges, [], MAX_BREAK_ROUNDS)
  {
    var remainingEdges := edges;
    var broken: seq<FkEdge> := [];
    for guard := 0 to MAX_BREAK_ROUNDS
      invariant Break(NameSet(tables), remainingEdges, broken, MAX_BREAK_ROUNDS - guard)
             == Break(NameSet(tables), edges, [], MAX_BREAK_ROUNDS)
    {
      var stuck := StuckSet(tables, remainingEdges);
      if stuck.None? {
        return Split(remainingEdges, broken);
      }
      var k := FirstBreakable(remainingEdges, stuck.value);
      if k == |remainingEdges| {
        return Unbreakable(stuck.value);
      }
      broken := broken + [remainingEdges[k]];
      remainingEdges := RemoveAt(remainingEdges, k);
    }
    r := Split(remainingEdges, broken);
  }

  // ---------------------------------------------------------------- topologicalSort

  ghost predicate IsListing(names: seq<string>, s: set<string>) {
    Ascending(names) && NameSet(names) == s
  }

  lemma {:induction false} ListingExists(s: set<string>)
    ensures exists names :: IsListing(names, s)
  {
    if s == {} {
      assert IsListing([], s);
    } else {
      var n :| n in s;
      ListingExists(s - {n});
      var rest :| IsListing(rest, s - {n});
      assert n !in rest by { assert n !in NameSet(rest); }
      InsertKeepsAscending(n, rest);
      assert IsListing(InsertName(n, rest), s);
    }
  }

  /** The one ascending listing of a set of names. */
  ghost function Listing(s: set<string>): (names: seq<string>)
    ensures IsListing(names, s)
  {
    ListingExists(s);
    var names :| IsListing(names, s);
    names
  }

  ghost function ReadySet(rem: set<string>, scope: set<string>, edges: seq<FkEdge>): set<string> {
    set t | t in rem && Deps(t, edges) <= scope - rem
  }

  /** Layer by layer, each layer ascending: a function of the sets alone. */
  ghost function Layers(rem: set<string>, done: seq<string>, scope: set<string>, edges: seq<FkEdge>): Result<seq<string>, set<string>> {
    var ready := ReadySet(rem, scope, edges);
    if rem == {} then Ok(done)
    else if ready == {} then Err(rem)
    else Layers(rem - ready, done + Listing(ready), scope, edges)
  }

  ghost function SortOutcome(scope: set<string>, edges: seq<FkEdge>): Result<seq<string>, set<string>> {
    Layers(scope, [], scope, InScope(edges, scope))
  }

  /** The remaining tables whose dependencies are all placed. */
  method ReadyTables(remaining: seq<string>, sorted: seq<string>, dependsOn: map<string, set<string>>) returns (ready: seq<string>)
    requires NameSet(remaining) <= dependsOn.Keys && NoDuplicates(remaining)
    ensures NoDuplicates(ready)
    ensures NameSet(ready) == set t | t in NameSet(remaining) && dependsOn[t] <= NameSet(sorted)
  {
    ready := [];
    for k := 0 to |remaining|
      invariant forall t :: t in ready <==> t in remaining[..k] && t in NameSet(remaining) && dependsOn[t] <= NameSet(sorted)
      invariant NoDuplicates(ready)
    {
      var t := remaining[k];
      assert t in NameSet(remaining);
      assert remaining[..k + 1] == remaining[..k] + [t];
      if forall dep :: dep in dependsOn[t] ==> dep in sorted {
        assert dependsOn[t] <= NameSet(sorted);
        ready := ready + [t];
      } else {
        assert !(dependsOn[t] <= NameSet(sorted));
      }
    }
    assert remaining[..|remaining|] == remaining;
  }

  /** Moves one layer from the remaining tables to the sorted ones. */
  method PlaceLayer(layer: seq<string>, sorted: seq<string>, remaining: seq<string>) returns (sorted': seq<string>, remaining': seq<string>)
    requires NoDuplicates(remaining) && layer != [] && layer[0] in remaining
    ensures sorted' == sorted + layer
    ensures NameSet(remaining') == NameSet(remaining) - NameSet(layer)
    ensures NoDuplicates(remaining') && |remaining'| < |remaining|
  {
    sorted', remaining' := sorted, remaining;
    for k := 0 to |layer|
      invariant NoDuplicates(remaining')
      invariant NameSet(remaining') == NameSet(remaining) - NameSet(layer[..k])
      invariant sorted' == sorted + layer[..k]
      invariant k == 0 ==> remaining' == remaining
      invariant k > 0 ==> |remaining'| < |remaining|
    {
      assert layer[..k + 1] == layer[..k] + [layer[k]];
      assert NameSet(layer[..k + 1]) == NameSet(layer[..k]) + {layer[k]};
      sorted' := sorted' + [layer[k]];
      remaining' := Without(remaining', layer[k]);
    }
    assert layer[..|layer|] == layer;
  }

  method SortLayer(ready: seq<string>) returns (layer: seq<string>)
    requires NoDuplicates(ready) && ready != []
    ensures layer == Listing(NameSet(ready)) && layer != []
  {
    SortNamesSorts(ready);
    AscendingUnique(SortNames(ready), Listing(NameSet(ready)));
    assert ready[0] in NameSet(ready);
    layer := SortNames(ready);
  }

  method TopologicalSort(tables: seq<string>, edges: seq<FkEdge>) returns (r: Result<seq<string>, set<string>>)
    ensures r == SortOutcome(NameSet(tables), edges)
  {
    var dependsOn := ScopedDependencies(tables, edges);
    ghost var scope := NameSet(tables);
    ghost var inner := InScope(edges, scope);
    var sorted: seq<string> := [];
    var remaining := Distinct(tables);
    while remaining != []
      invariant NameSet(sorted) == scope - NameSet(remaining) && NameSet(remaining) <= scope && NoDuplicates(remaining)
      invariant Layers(NameSet(remaining), sorted, scope, inner) == SortOutcome(scope, edges)
      decreases |remaining|
    {
      ghost var rem := NameSet(remaining);
      assert remaining[0] in rem;
      var ready := ReadyTables(remaining, sorted, dependsOn);
      assert NameSet(ready) == ReadySet(rem, scope, inner);
      if ready == [] {
        return Err(NameSet(remaining));
      }
      ready := SortLayer(ready);
      assert ready[0] in NameSet(ready);
      ghost var before := sorted;
      sorted, remaining := PlaceLayer(ready, sorted, remaining);
      assert NameSet(before + ready) == NameSet(before) + NameSet(ready);
    }
    r := Ok(sorted);
  }
}
