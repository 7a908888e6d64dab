/** The round trip of a whole backup: what a restore leaves in the target, and exactly when that is the source. */
module BackupRoundTrip {
  import opened Common
  import opened Names
  import opened FkGraph
  import opened BackupOrder
  import opened BackupOrderTheorems
  import opened BackupArtifact
  import opened BackupRestore
  import opened BackupRestoreTheorems

  // ---------------------------------------------------------------- states between repaired columns

  /** Row `i` of a table once the columns `done` are repaired. */
  function RepairedRow(source: seq<Row>, i: nat, columns: seq<string>, brokenColumns: set<string>, done: set<string>, pk: string): Row
    requires i < |source|
  {
    map c | c in columns ::
      if c !in brokenColumns then Get(source[i], c)
      else if c in done then LastValue(source, pk, c, Get(source[i], pk))
      else Null
  }

  function RepairedRows(source: seq<Row>, columns: seq<string>, brokenColumns: set<string>, done: set<string>, pk: string): (rows: seq<Row>)
    ensures |rows| == |source|
    ensures forall i :: 0 <= i < |source| ==> rows[i] == RepairedRow(source, i, columns, brokenColumns, done, pk)
  {
    seq(|source|, i requires 0 <= i < |source| => RepairedRow(source, i, columns, brokenColumns, done, pk))
  }

  /** `done` lists the repaired columns as edges. */
  ghost function Repaired(db: Database, done: seq<FkEdge>, schema: Schema, broken: seq<FkEdge>): Database {
    map t | t in db :: RepairedRows(db[t], ColumnsOf(schema, t), BrokenColumns(broken, t), BrokenColumns(done, t), PrimaryKeyOf(schema, t))
  }

  lemma {:induction false} RepairedOnTheWay(db: Database, done: seq<FkEdge>, schema: Schema, broken: seq<FkEdge>)
    requires SameShape(schema, db)
    ensures OnTheWay(Repaired(db, done, schema, broken), db, db.Keys, schema, broken)
  {
    var d := Repaired(db, done, schema, broken);
    forall t | t in db ensures TableOnTheWay(d[t], db[t], schema.columns[t], BrokenColumns(broken, t)) {
      forall i | 0 <= i < |d[t]| ensures RowOnTheWay(d[t][i], i, db[t], schema.columns[t], BrokenColumns(broken, t)) {
        forall c | c in BrokenColumns(broken, t) && c in schema.columns[t]
          ensures d[t][i][c] == Null || HasKey(db[t], c, d[t][i][c])
        {
          LastValueMeaning(db[t], PrimaryKeyOf(schema, t), c, Get(db[t][i], PrimaryKeyOf(schema, t)));
        }
      }
    }
  }

  lemma LoadedIsUnrepaired(db: Database, schema: Schema, broken: seq<FkEdge>)
    ensures Loaded(db, db.Keys, schema, broken) == Repaired(db, [], schema, broken)
  {
    forall t | t in db ensures Loaded(db, db.Keys, schema, broken)[t] == Repaired(db, [], schema, broken)[t] {
      LoadIsRepairNothing(db[t], ColumnsOf(schema, t), BrokenColumns(broken, t), PrimaryKeyOf(schema, t));
      assert BrokenColumns([], t) == {};
    }
  }

  lemma LoadIsRepairNothing(source: seq<Row>, columns: seq<string>, brokenColumns: set<string>, pk: string)
    ensures LoadRows(columns, brokenColumns, source) == RepairedRows(source, columns, brokenColumns, {}, pk)
  {
    forall i | 0 <= i < |source|
      ensures LoadRow(columns, brokenColumns, source[i]) == RepairedRow(source, i, columns, brokenColumns, {}, pk)
    {
    }
  }

  lemma OverlayRepairsColumn(source: seq<Row>, i: nat, columns: seq<string>, brokenColumns: set<string>, done: set<string>, pk: string, c: string)
    requires i < |source| && c in columns && c in brokenColumns && pk in columns && pk !in brokenColumns
    ensures OverlayRow(RepairedRow(source, i, columns, brokenColumns, done, pk), source, pk, c)
         == RepairedRow(source, i, columns, brokenColumns, done + {c}, pk)
  {
    var row := RepairedRow(source, i, columns, brokenColumns, done, pk);
    assert Get(row, pk) == Get(source[i], pk);
  }

  /** A key column outside the table's columns is NULL everywhere, so no row is ever found by it. */
  lemma OverlayWithoutKey(source: seq<Row>, i: nat, columns: seq<string>, brokenColumns: set<string>, done: set<string>, pk: string, c: string)
    requires i < |source| && pk !in columns && RowsFit(source, columns)
    ensures OverlayRow(RepairedRow(source, i, columns, brokenColumns, done, pk), source, pk, c)
         == RepairedRow(source, i, columns, brokenColumns, done + {c}, pk)
  {
    assert pk !in source[i];
    LastValueMeaning(source, pk, c, Null);
    var row := RepairedRow(source, i, columns, brokenColumns, done, pk);
    assert Get(row, pk) == Null == Get(source[i], pk);
  }

  lemma BrokenColumnsGrow(done: seq<FkEdge>, edge: FkEdge)
    ensures BrokenColumns(done + [edge], edge.table) == BrokenColumns(done, edge.table) + {edge.column}
    ensures forall u :: u != edge.table ==> BrokenColumns(done + [edge], u) == BrokenColumns(done, u)
  {
  }

  lemma RepairedStep(db: Database, done: seq<FkEdge>, schema: Schema, broken: seq<FkEdge>, edge: FkEdge)
    requires SameShape(schema, db) && KeysUsable(schema, broken) && BrokenInSchema(schema, broken) && edge in broken
    ensures edge.table in db
    ensures var t := edge.table; var d := Repaired(db, done, schema, broken);
            d[t := Overlay(d[t], db[t], PrimaryKeyOf(schema, t), edge.column)] == Repaired(db, done + [edge], schema, broken)
  {
    var t, c, pk := edge.table, edge.column, PrimaryKeyOf(schema, edge.table);
    var d, d' := Repaired(db, done, schema, broken), Repaired(db, done + [edge], schema, broken);
    BrokenColumnsGrow(done, edge);
    assert pk !in BrokenColumns(broken, t);
    var laid := Overlay(d[t], db[t], pk, c);
    forall i | 0 <= i < |db[t]| ensures laid[i] == d'[t][i] {
      if pk in schema.columns[t] {
        OverlayRepairsColumn(db[t], i, schema.columns[t], BrokenColumns(broken, t), BrokenColumns(done, t), pk, c);
      } else {
        OverlayWithoutKey(db[t], i, schema.columns[t], BrokenColumns(broken, t), BrokenColumns(done, t), pk, c);
      }
    }
    assert laid == d'[t];
    forall u | u in db && u != t ensures d[u] == d'[u] {
    }
  }

  // ---------------------------------------------------------------- the repair loop over edges and tables

  ghost predicate At(p: Progress, db: Database, done: seq<FkEdge>, schema: Schema, broken: seq<FkEdge>, total: nat) {
    p == Progress(Repaired(db, done, schema, broken), total, [], None)
  }

  lemma {:induction false} RepairOneEdge(schema: Schema, edge: FkEdge, db: Database, order: seq<string>, broken: seq<FkEdge>, done: seq<FkEdge>, p: Progress)
    requires Restorable(schema, db, order, broken) && edge in broken && At(p, db, done, schema, broken, p.totalRows)
    ensures edge.table in db
    ensures At(RepairRows(schema, edge, db[edge.table], p), db, done + [edge], schema, broken, p.totalRows)
  {
    RepairedOnTheWay(db, done, schema, broken);
    RepairedStep(db, done, schema, broken, edge);
    RepairRowsEffect(schema, edge, db, order, broken, 0, p);
    assert db[edge.table][0..] == db[edge.table];
  }

  lemma {:induction false} RepairEdgesReach(schema: Schema, edges: seq<FkEdge>, table: string, db: Database, order: seq<string>, broken: seq<FkEdge>,
                                            done: seq<FkEdge>, p: Progress)
    requires Restorable(schema, db, order, broken) && table in db && At(p, db, done, schema, broken, p.totalRows)
    requires forall e :: e in edges ==> e in broken && e.table == table
    ensures At(RepairEdges(schema, edges, db[table], p), db, done + edges, schema, broken, p.totalRows)
    decreases |edges|
  {
    if edges == [] {
      assert done + edges == done;
    } else {
      var e := edges[0];
      assert e in edges;
      RepairOneEdge(schema, e, db, order, broken, done, p);
      RepairEdgesReach(schema, edges[1..], table, db, order, broken, done + [e], RepairRows(schema, e, db[table], p));
      assert done + [e] + edges[1..] == done + edges;
    }
  }

  function AllEdgesOf(broken: seq<FkEdge>, tables: seq<string>): seq<FkEdge> {
    if tables == [] then [] else EdgesOf(broken, tables[0]) + AllEdgesOf(broken, tables[1..])
  }

  lemma {:induction false} AllEdgesMembers(broken: seq<FkEdge>, tables: seq<string>)
    ensures forall e :: e in AllEdgesOf(broken, tables) <==> e in broken && e.table in tables
  {
    if tables != [] {
      AllEdgesMembers(broken, tables[1..]);
      assert tables == [tables[0]] + tables[1..];
    }
  }

  lemma {:induction false} RepairOneTable(schema: Schema, a: Artifact, db: Database, hash: string -> string, table: string, done: seq<FkEdge>, p: Progress)
    requires Restorable(schema, db, a.manifest.order, a.manifest.brokenEdges) && Holds(a, db, hash)
    requires table in db && At(p, db, done, schema, a.manifest.brokenEdges, p.totalRows)
    ensures At(RepairTable(schema, a, table, p), db, done + EdgesOf(a.manifest.brokenEdges, table), schema, a.manifest.brokenEdges, p.totalRows)
  {
    assert table in NameSet(a.manifest.order);
    ArtifactRows(a, db, hash, table);
    RepairEdgesReach(schema, EdgesOf(a.manifest.brokenEdges, table), table, db, a.manifest.order, a.manifest.brokenEdges, done, p);
  }

  lemma {:induction false} RepairTablesReach(schema: Schema, a: Artifact, db: Database, hash: string -> string, tables: seq<string>,
                                             done: seq<FkEdge>, p: Progress)
    requires Restorable(schema, db, a.manifest.order, a.manifest.brokenEdges) && Holds(a, db, hash)
    requires (forall t :: t in tables ==> t in db) && At(p, db, done, schema, a.manifest.brokenEdges, p.totalRows)
    ensures At(RepairTables(schema, a, tables, p), db, done + AllEdgesOf(a.manifest.brokenEdges, tables), schema, a.manifest.brokenEdges, p.totalRows)
    decreases |tables|
  {
    var broken := a.manifest.brokenEdges;
    if tables == [] {
      assert done + AllEdgesOf(broken, tables) == done;
    } else {
      assert tables[0] in tables;
      RepairOneTable(schema, a, db, hash, tables[0], done, p);
      RepairTablesReach(schema, a, db, hash, tables[1..], done + EdgesOf(broken, tables[0]), RepairTable(schema, a, tables[0], p));
      assert done + EdgesOf(broken, tables[0]) + AllEdgesOf(broken, tables[1..]) == done + AllEdgesOf(broken, tables);
    }
  }

  // ---------------------------------------------------------------- main results

  lemma EmptyIsLoaded(db: Database, schema: Schema, broken: seq<FkEdge>)
    requires schema.columns.Keys == db.Keys
    ensures EmptyTarget(schema) == Loaded(db, {}, schema, broken)
  {
  }

  lemma SameColumnsRepaired(db: Database, a: seq<FkEdge>, b: seq<FkEdge>, schema: Schema, broken: seq<FkEdge>)
    requires forall e :: e in a <==> e in b
    ensures Repaired(db, a, schema, broken) == Repaired(db, b, schema, broken)
  {
    forall t ensures BrokenColumns(a, t) == BrokenColumns(b, t) {
    }
  }

  /**
   * Restoring a dump into an empty schema runs to the end: every INSERT and every
   * UPDATE satisfies all foreign keys at the moment it is executed, every row count
   * matches, and each table holds its rows with the last dumped value per key in
   * the broken columns.
   */
  lemma {:induction false} RestoreReaches(schema: Schema, a: Artifact, db: Database, hash: string -> string)
    requires Restorable(schema, db, a.manifest.order, a.manifest.brokenEdges) && Holds(a, db, hash)
    ensures Restored(schema, a, EmptyTarget(schema))
         == Progress(Repaired(db, a.manifest.brokenEdges, schema, a.manifest.brokenEdges), TotalRows(db, a.manifest.order), [], None)
  {
    var order, broken := a.manifest.order, a.manifest.brokenEdges;
    EmptyIsLoaded(db, schema, broken);
    assert order[..0] == [] && order[0..] == order && NameSet(order[..0]) == {};
    LoadTablesReach(schema, a, db, hash, 0, Progress(EmptyTarget(schema), 0, [], None));
    LoadedIsUnrepaired(db, schema, broken);
    var loaded := LoadTables(schema, a, order, Progress(EmptyTarget(schema), 0, [], None));
    var tables := EdgeTables(broken);
    RepairTablesReach(schema, a, db, hash, tables, [], loaded);
    AllEdgesMembers(broken, tables);
    assert [] + AllEdgesOf(broken, tables) == AllEdgesOf(broken, tables);
    SameColumnsRepaired(db, AllEdgesOf(broken, tables), broken, schema, broken);
  }

  /** The primary-key column determines every repaired column, and is not NULL where there is something to repair. */
  ghost predicate KeyDetermines(schema: Schema, db: Database, broken: seq<FkEdge>) {
    forall e :: e in broken ==> ColumnDetermined(RowsOf(db, e.table), PrimaryKeyOf(schema, e.table), e.column)
  }

  ghost predicate ColumnDetermined(rows: seq<Row>, pk: string, column: string) {
    && (forall i :: 0 <= i < |rows| && Get(rows[i], column) != Null ==> Get(rows[i], pk) != Null)
    && (forall i, j :: 0 <= i < |rows| && 0 <= j < |rows| && Get(rows[i], pk) != Null && Get(rows[i], pk) == Get(rows[j], pk) ==>
          Get(rows[i], column) == Get(rows[j], column))
  }

  ghost predicate LastIsOwn(rows: seq<Row>, pk: string, column: string) {
    forall i :: 0 <= i < |rows| ==> LastValue(rows, pk, column, Get(rows[i], pk)) == Get(rows[i], column)
  }

  lemma DeterminedIffLast(rows: seq<Row>, pk: string, column: string)
    ensures ColumnDetermined(rows, pk, column) <==> LastIsOwn(rows, pk, column)
  {
    if ColumnDetermined(rows, pk, column) {
      forall i | 0 <= i < |rows| ensures LastValue(rows, pk, column, Get(rows[i], pk)) == Get(rows[i], column) {
        LastValueMeaning(rows, pk, column, Get(rows[i], pk));
        assert Get(rows[i], pk) != Null ==> Matches(rows[i], pk, Get(rows[i], pk));
      }
    }
    if LastIsOwn(rows, pk, column) {
      forall i | 0 <= i < |rows| && Get(rows[i], column) != Null ensures Get(rows[i], pk) != Null {
        LastValueMeaning(rows, pk, column, Get(rows[i], pk));
        assert LastValue(rows, pk, column, Get(rows[i], pk)) == Get(rows[i], column);
      }
      forall i, j | 0 <= i < |rows| && 0 <= j < |rows| && Get(rows[i], pk) == Get(rows[j], pk)
        ensures Get(rows[i], column) == Get(rows[j], column)
      {
        assert LastValue(rows, pk, column, Get(rows[i], pk)) == Get(rows[i], column);
        assert LastValue(rows, pk, column, Get(rows[j], pk)) == Get(rows[j], column);
      }
    }
  }

  lemma RepairedTableIffDetermined(schema: Schema, db: Database, broken: seq<FkEdge>, t: string)
    requires SameShape(schema, db) && BrokenInSchema(schema, broken) && t in db
    ensures Repaired(db, broken, schema, broken)[t] == db[t]
       <==> forall c :: c in BrokenColumns(broken, t) ==> ColumnDetermined(db[t], PrimaryKeyOf(schema, t), c)
  {
    var d, pk := Repaired(db, broken, schema, broken), PrimaryKeyOf(schema, t);
    forall c | c in BrokenColumns(broken, t) ensures c in schema.columns[t] {
      var e :| e in broken && e.table == t && e.column == c;
    }
    forall c | c in BrokenColumns(broken, t) { DeterminedIffLast(db[t], pk, c); }
    if d[t] == db[t] {
      forall c, i | c in BrokenColumns(broken, t) && 0 <= i < |db[t]|
        ensures LastValue(db[t], pk, c, Get(db[t][i], pk)) == Get(db[t][i], c)
      {
        assert d[t][i][c] == Get(db[t][i], c);
      }
    }
    if forall c :: c in BrokenColumns(broken, t) ==> ColumnDetermined(db[t], pk, c) {
      forall i | 0 <= i < |db[t]| ensures d[t][i] == db[t][i] {
        assert d[t][i].Keys == NameSet(schema.columns[t]) == db[t][i].Keys;
        assert forall c :: c in schema.columns[t] ==> c in NameSet(schema.columns[t]);
      }
    }
  }

  /**
   * The restored database equals the dumped one exactly when the primary-key
   * column of each table with broken edges determines those columns.
   */
  lemma RoundTripIff(schema: Schema, a: Artifact, db: Database, hash: string -> string)
    requires Restorable(schema, db, a.manifest.order, a.manifest.brokenEdges) && Holds(a, db, hash)
    ensures Restored(schema, a, EmptyTarget(schema)) == Progress(db, TotalRows(db, a.manifest.order), [], None)
       <==> KeyDetermines(schema, db, a.manifest.brokenEdges)
  {
    var broken := a.manifest.brokenEdges;
    RestoreReaches(schema, a, db, hash);
    var d := Repaired(db, broken, schema, broken);
    if d == db { SameOnlyIfDetermined(schema, db, broken); }
    if KeyDetermines(schema, db, broken) { DeterminedMeansSame(schema, db, broken); }
  }

  lemma SameOnlyIfDetermined(schema: Schema, db: Database, broken: seq<FkEdge>)
    requires SameShape(schema, db) && BrokenInSchema(schema, broken) && Repaired(db, broken, schema, broken) == db
    ensures KeyDetermines(schema, db, broken)
  {
    forall e | e in broken ensures ColumnDetermined(RowsOf(db, e.table), PrimaryKeyOf(schema, e.table), e.column) {
      RepairedTableIffDetermined(schema, db, broken, e.table);
      assert e.column in BrokenColumns(broken, e.table);
    }
  }

  lemma DeterminedMeansSame(schema: Schema, db: Database, broken: seq<FkEdge>)
    requires SameShape(schema, db) && BrokenInSchema(schema, broken) && KeyDetermines(schema, db, broken)
    ensures Repaired(db, broken, schema, broken) == db
  {
    var d := Repaired(db, broken, schema, broken);
    forall t | t in db ensures d[t] == db[t] {
      RepairedTableIffDetermined(schema, db, broken, t);
      forall c | c in BrokenColumns(broken, t) ensures ColumnDetermined(db[t], PrimaryKeyOf(schema, t), c) {
        var e :| e in broken && e.table == t && e.column == c;
      }
    }
    assert d == db;
  }

  // ---------------------------------------------------------------- the whole pipeline

  /** What the catalog query returns: one edge per reference between two different tables. */
  ghost predicate EdgesFetched(edges: seq<FkEdge>, schema: Schema) {
    && (forall fk :: fk in schema.foreignKeys && fk.table != fk.refTable ==>
          exists e :: e in edges && e.table == fk.table && e.column == fk.column && e.dependsOn == fk.refTable)
    && (forall e :: e in edges ==> e.table in schema.columns && e.column in schema.columns[e.table])
    && (forall e :: e in edges && e.nullable ==> e.column != PrimaryKeyOf(schema, e.table))
  }

  /** A column that is referenced is not itself a NULL-able reference. */
  ghost predicate ReferencedMandatory(edges: seq<FkEdge>, schema: Schema) {
    forall e, fk :: e in edges && e.nullable && fk in schema.foreignKeys && fk.refTable == e.table ==> fk.refColumn != e.column
  }

  ghost predicate PrimaryKeysUnique(schema: Schema, db: Database) {
    forall t :: t in db ==>
      (forall i :: 0 <= i < |db[t]| ==> Get(db[t][i], PrimaryKeyOf(schema, t)) != Null)
      && forall i, j :: 0 <= i < |db[t]| && 0 <= j < |db[t]| && i != j ==>
           Get(db[t][i], PrimaryKeyOf(schema, t)) != Get(db[t][j], PrimaryKeyOf(schema, t))
  }

  lemma PipelineCovers(schema: Schema, edges: seq<FkEdge>, scope: set<string>, order: seq<string>)
    requires EdgesFetched(edges, schema)
    requires var run := Break(scope, edges, [], MAX_BREAK_ROUNDS);
             run.Split? && SortOutcome(scope, run.edges) == Ok(order)
    requires ReferencedMandatory(edges, schema)
    requires forall fk :: fk in schema.foreignKeys ==> fk.refTable in scope
    ensures var run := Break(scope, edges, [], MAX_BREAK_ROUNDS);
            && OrderCovers(schema, order, run.broken) && BrokenInSchema(schema, run.broken)
            && KeysUsable(schema, run.broken)
            && NoDuplicates(order) && NameSet(order) == scope
  {
    var run := Break(scope, edges, [], MAX_BREAK_ROUNDS);
    BreakSplitsEdges(scope, edges, [], MAX_BREAK_ROUNDS);
    assert multiset(edges) + multiset([]) == multiset(edges);
    MultisetMembers(run.edges, run.broken, edges);
    SortIsTopological(scope, run.edges);
    forall fk | fk in schema.foreignKeys ensures Covered(fk, order, run.broken) {
      if fk.table != fk.refTable {
        var e :| e in edges && e.table == fk.table && e.column == fk.column && e.dependsOn == fk.refTable;
        if e in run.broken {
          assert fk.column in BrokenColumns(run.broken, fk.table);
        } else {
          forall i | 0 <= i < |order| && order[i] == fk.table ensures fk.refTable in order[..i] {
            assert fk.refTable in Deps(order[i], run.edges);
          }
        }
      }
    }
  }

  /**
   * Backup followed by restore is the identity: break cycles, sort, dump, restore
   * into an empty schema of the same shape gives back every row of every table.
   */
  lemma BackupThenRestore(schema: Schema, db: Database, edges: seq<FkEdge>, a: Artifact, hash: string -> string)
    requires SameShape(schema, db) && Intact(db, schema) && PrimaryKeysUnique(schema, db) && EdgesFetched(edges, schema)
    requires ReferencedMandatory(edges, schema)
    requires var run := Break(db.Keys, edges, [], MAX_BREAK_ROUNDS);
             run.Split? && SortOutcome(db.Keys, run.edges) == Ok(a.manifest.order) && a.manifest.brokenEdges == run.broken
    requires Holds(a, db, hash)
    ensures Restored(schema, a, EmptyTarget(schema)) == Progress(db, TotalRows(db, a.manifest.order), [], None)
  {
    var broken := a.manifest.brokenEdges;
    PipelineCovers(schema, edges, db.Keys, a.manifest.order);
    assert BrokenInSchema(schema, broken);
    UniqueKeysDetermine(schema, db, broken);
    RoundTripIff(schema, a, db, hash);
  }

  lemma UniqueKeysDetermine(schema: Schema, db: Database, broken: seq<FkEdge>)
    requires SameShape(schema, db) && PrimaryKeysUnique(schema, db) && BrokenInSchema(schema, broken)
    ensures KeyDetermines(schema, db, broken)
  {
    forall e | e in broken ensures ColumnDetermined(RowsOf(db, e.table), PrimaryKeyOf(schema, e.table), e.column) {
      assert e.table in db;
    }
  }

  /** With a two-column key the first key column finds both rows, and both end up with the later row's value. */
  lemma CompositeKeyOverwrites(first: Row, second: Row, pk: string, column: string)
    requires Get(first, pk) == Get(second, pk) != Null && pk != column
    requires Get(first, column) != Get(second, column) && Get(second, column) != Null
    ensures !ColumnDetermined([first, second], pk, column)
    ensures forall done :: column in done ==>
              RepairedRow([first, second], 0, [pk, column], {column}, done, pk)[column] == Get(second, column)
  {
    var rows := [first, second];
    assert rows[0] == first && rows[1] == second;
    assert LastValue(rows[1..], pk, column, Get(first, pk)) == Get(second, column);
    DeterminedIffLast(rows, pk, column);
  }

  // ---------------------------------------------------------------- the pipeline as a program

  /** The backup job: break cycles, sort, dump, verify the files just written. */
  method BackupDatabase(tables: seq<string>, edges: seq<FkEdge>, db: Database, codec: Codec, hash: string -> string)
    returns (artifact: Option<Artifact>)
    requires NameSet(tables) <= db.Keys
    ensures artifact.Some? <==> Succeeds(NameSet(tables), edges)
    ensures artifact.Some? ==>
              && var run := Break(NameSet(tables), edges, [], MAX_BREAK_ROUNDS);
              && SortOutcome(NameSet(tables), run.edges) == Ok(artifact.value.manifest.order)
              && artifact.value.manifest.brokenEdges == run.broken && artifact.value.codec == codec
              && Describes(artifact.value.manifest, artifact.value.files, db, artifact.value.manifest.order, codec, hash)
  {
    var run := BreakCycles(tables, edges);
    if run.Unbreakable? {
      return None;
    }
    var order := TopologicalSort(tables, run.edges);
    if order.Err? {
      return None;
    }
    SortIsTopological(NameSet(tables), run.edges);
    var manifest, files, _ := DumpDatabase(db, order.value, run.broken, codec, hash);
    var ok, _ := VerifyBackupIntegrity(manifest, files, hash);
    assert ok;
    artifact := Some(Artifact(manifest, files, codec));
  }

  /** Backup and restore rehearsal: whenever a backup can be taken, the empty target ends up equal to the source. */
  method BackupAndRestore(tables: seq<string>, edges: seq<FkEdge>, db: Database, codec: Codec, hash: string -> string, target: Target)
    returns (restored: bool)
    requires NameSet(tables) == db.Keys && Faithful(codec) && EdgesFetched(edges, target.schema)
    requires SameShape(target.schema, db) && Intact(db, target.schema) && PrimaryKeysUnique(target.schema, db)
    requires ReferencedMandatory(edges, target.schema)
    requires target.data == EmptyTarget(target.schema)
    modifies target
    ensures restored <==> Succeeds(db.Keys, edges)
    ensures target.data == if restored then db else old(target.data)
  {
    var artifact := BackupDatabase(tables, edges, db, codec, hash);
    if artifact.None? {
      return false;
    }
    BackupThenRestore(target.schema, db, edges, artifact.value, hash);
    var _, _, error := target.Restore(artifact.value);
    restored := error.None?;
  }
}
