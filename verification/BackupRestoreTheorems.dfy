/** A restored database is the dumped one, no statement on the way violates a foreign key, and when that fails. */
module BackupRestoreTheorems {
  import opened Common
  import opened Names
  import opened FkGraph
  import opened BackupArtifact
  import opened BackupRestore

  // ---------------------------------------------------------------- assumptions on the source

  ghost predicate RowsFit(rows: seq<Row>, columns: seq<string>) {
    forall i :: 0 <= i < |rows| ==> rows[i].Keys == NameSet(columns)
  }

  /** The target schema is structurally equal to the source: same tables, same columns. */
  ghost predicate SameShape(schema: Schema, db: Database) {
    && schema.columns.Keys == db.Keys
    && (forall t :: t in db ==> schema.columns[t] != [] && RowsFit(db[t], schema.columns[t]))
    && (forall fk :: fk in schema.foreignKeys ==> fk.table in db && fk.refTable in db)
  }

  /** No column that is referenced, and no primary-key column, is among the broken ones. */
  ghost predicate KeysUsable(schema: Schema, broken: seq<FkEdge>) {
    && (forall fk :: fk in schema.foreignKeys ==> fk.refColumn !in BrokenColumns(broken, fk.refTable))
    && (forall e :: e in broken ==> e.column != PrimaryKeyOf(schema, e.table))
  }

  /** Each reference is to the same table, to an earlier one, or from a column loaded as NULL. */
  ghost predicate Covered(fk: ForeignKey, order: seq<string>, broken: seq<FkEdge>) {
    || fk.refTable == fk.table
    || fk.column in BrokenColumns(broken, fk.table)
    || forall i :: 0 <= i < |order| && order[i] == fk.table ==> fk.refTable in order[..i]
  }

  ghost predicate OrderCovers(schema: Schema, order: seq<string>, broken: seq<FkEdge>) {
    forall fk :: fk in schema.foreignKeys ==> Covered(fk, order, broken)
  }

  ghost predicate BrokenInSchema(schema: Schema, broken: seq<FkEdge>) {
    forall e :: e in broken ==> e.table in schema.columns && e.column in schema.columns[e.table]
  }

  /** Everything but the uniqueness of the primary key. */
  ghost predicate Restorable(schema: Schema, db: Database, order: seq<string>, broken: seq<FkEdge>) {
    && SameShape(schema, db) && Intact(db, schema) && KeysUsable(schema, broken)
    && NoDuplicates(order) && NameSet(order) == db.Keys
    && OrderCovers(schema, order, broken) && BrokenInSchema(schema, broken)
  }

  function EmptyTarget(schema: Schema): Database {
    map t | t in schema.columns :: []
  }

  // ---------------------------------------------------------------- databases on the way

  /** A restored row agrees with its source except that a broken column may be NULL or hold another row's value. */
  ghost predicate RowOnTheWay(row: Row, i: nat, source: seq<Row>, columns: seq<string>, brokenColumns: set<string>)
    requires i < |source|
  {
    && row.Keys == NameSet(columns)
    && forall c :: c in columns ==>
         (if c in brokenColumns then row[c] == Null || HasKey(source, c, row[c]) else row[c] == Get(source[i], c))
  }

  ghost predicate TableOnTheWay(rows: seq<Row>, source: seq<Row>, columns: seq<string>, brokenColumns: set<string>) {
    |rows| == |source| && forall i :: 0 <= i < |rows| ==> RowOnTheWay(rows[i], i, source, columns, brokenColumns)
  }

  /** The tables of `loaded` hold rows on the way to the source, the others none. */
  ghost predicate OnTheWay(d: Database, db: Database, loaded: set<string>, schema: Schema, broken: seq<FkEdge>) {
    && d.Keys == db.Keys == schema.columns.Keys
    && forall t :: t in db ==>
         if t in loaded then TableOnTheWay(d[t], db[t], schema.columns[t], BrokenColumns(broken, t)) else d[t] == []
  }

  /** Whatever a loaded table references is loaded too. */
  ghost predicate ReferencesLoaded(d: Database, loaded: set<string>, schema: Schema) {
    forall fk, i :: fk in schema.foreignKeys && fk.table in loaded && 0 <= i < |RowsOf(d, fk.table)| ==>
      Get(RowsOf(d, fk.table)[i], fk.column) == Null || fk.refTable in loaded
  }

  lemma KeyReachable(d: Database, db: Database, loaded: set<string>, schema: Schema, broken: seq<FkEdge>, fk: ForeignKey, key: Value)
    requires SameShape(schema, db) && KeysUsable(schema, broken) && OnTheWay(d, db, loaded, schema, broken)
    requires fk in schema.foreignKeys && fk.refTable in loaded
    requires key != Null && HasKey(db[fk.refTable], fk.refColumn, key)
    ensures HasKey(d[fk.refTable], fk.refColumn, key)
  {
    var rows, source := d[fk.refTable], db[fk.refTable];
    var j :| 0 <= j < |source| && Get(source[j], fk.refColumn) == key;
    assert source[j].Keys == NameSet(schema.columns[fk.refTable]);
    assert fk.refColumn in NameSet(schema.columns[fk.refTable]);
    assert RowOnTheWay(rows[j], j, source, schema.columns[fk.refTable], BrokenColumns(broken, fk.refTable));
    assert Get(rows[j], fk.refColumn) == key;
  }

  lemma ValueFromSource(d: Database, db: Database, loaded: set<string>, schema: Schema, broken: seq<FkEdge>, t: string, i: nat, c: string)
    requires SameShape(schema, db) && OnTheWay(d, db, loaded, schema, broken)
    requires t in loaded && t in db && i < |d[t]| && Get(d[t][i], c) != Null
    ensures HasKey(db[t], c, Get(d[t][i], c))
  {
    assert RowOnTheWay(d[t][i], i, db[t], schema.columns[t], BrokenColumns(broken, t));
    assert c in d[t][i] && c in NameSet(schema.columns[t]);
    if c !in BrokenColumns(broken, t) {
      assert Get(db[t][i], c) == d[t][i][c];
    }
  }

  /** No database on the way violates a constraint the source satisfies. */
  lemma OnTheWayIntact(d: Database, db: Database, loaded: set<string>, schema: Schema, broken: seq<FkEdge>)
    requires SameShape(schema, db) && Intact(db, schema) && KeysUsable(schema, broken)
    requires OnTheWay(d, db, loaded, schema, broken) && ReferencesLoaded(d, loaded, schema)
    ensures Intact(d, schema)
  {
    forall fk | fk in schema.foreignKeys ensures KeyHolds(d, fk) {
      assert KeyHolds(db, fk);
      forall i | 0 <= i < |RowsOf(d, fk.table)| && Get(RowsOf(d, fk.table)[i], fk.column) != Null
        ensures HasKey(RowsOf(d, fk.refTable), fk.refColumn, Get(RowsOf(d, fk.table)[i], fk.column))
      {
        var key := Get(d[fk.table][i], fk.column);
        ValueFromSource(d, db, loaded, schema, broken, fk.table, i, fk.column);
        var j :| 0 <= j < |db[fk.table]| && Get(db[fk.table][j], fk.column) == key;
        assert Get(RowsOf(db, fk.table)[j], fk.column) == key;
        KeyReachable(d, db, loaded, schema, broken, fk, key);
      }
    }
  }

  // ---------------------------------------------------------------- the insert loop

  /** The artifact holds the dump of `db` in this order with these broken edges. */
  ghost predicate Holds(a: Artifact, db: Database, hash: string -> string) {
    Faithful(a.codec) && Describes(a.manifest, a.files, db, a.manifest.order, a.codec, hash)
  }

  lemma {:induction false} ArtifactRows(a: Artifact, db: Database, hash: string -> string, t: string)
    requires Holds(a, db, hash) && t in a.manifest.order
    ensures t in a.manifest.tables && t in db && a.manifest.tables[t].rowCount == |db[t]|
    ensures ReadRows(a, a.manifest.tables[t]) == Some(db[t])
  {
    assert t in NameSet(a.manifest.order);
    TableFileRoundTrip(a.codec, db[t]);
  }

  /** The target after the tables `loaded` were inserted and nothing was repaired. */
  ghost function Loaded(db: Database, loaded: set<string>, schema: Schema, broken: seq<FkEdge>): Database {
    map t | t in db :: if t in loaded then LoadRows(ColumnsOf(schema, t), BrokenColumns(broken, t), db[t]) else []
  }

  lemma LoadedOnTheWay(db: Database, loaded: set<string>, schema: Schema, broken: seq<FkEdge>)
    requires SameShape(schema, db)
    ensures OnTheWay(Loaded(db, loaded, schema, broken), db, loaded, schema, broken)
  {
    var d := Loaded(db, loaded, schema, broken);
    forall t | t in db && t in loaded
      ensures TableOnTheWay(d[t], db[t], schema.columns[t], BrokenColumns(broken, t))
    {
      forall i | 0 <= i < |d[t]| ensures RowOnTheWay(d[t][i], i, db[t], schema.columns[t], BrokenColumns(broken, t)) {
      }
    }
  }

  lemma LoadedIntact(db: Database, k: nat, schema: Schema, order: seq<string>, broken: seq<FkEdge>)
    requires Restorable(schema, db, order, broken) && k <= |order|
    ensures Intact(Loaded(db, NameSet(order[..k]), schema, broken), schema)
  {
    var loaded := NameSet(order[..k]);
    var d := Loaded(db, loaded, schema, broken);
    LoadedOnTheWay(db, loaded, schema, broken);
    forall fk, i | fk in schema.foreignKeys && fk.table in loaded && 0 <= i < |RowsOf(d, fk.table)|
      ensures Get(RowsOf(d, fk.table)[i], fk.column) == Null || fk.refTable in loaded
    {
      assert Covered(fk, order, broken);
      var j :| 0 <= j < k && order[j] == fk.table;
      assert d[fk.table][i] == LoadRow(ColumnsOf(schema, fk.table), BrokenColumns(broken, fk.table), db[fk.table][i]);
      if fk.refTable != fk.table && fk.column !in BrokenColumns(broken, fk.table) {
        assert fk.refTable in order[..j];
        assert order[..j] <= order[..k];
      }
    }
    OnTheWayIntact(d, db, loaded, schema, broken);
  }

  /** One more table of the order is one more name. */
  lemma NextName(order: seq<string>, k: nat)
    requires NoDuplicates(order) && k < |order|
    ensures order[k] !in NameSet(order[..k]) && NameSet(order[..k + 1]) == NameSet(order[..k]) + {order[k]}
  {
    TakeNext(order, k);
    assert NameSet(order[..k] + [order[k]]) == NameSet(order[..k]) + {order[k]};
  }

  /** Loading one more table changes that table alone. */
  lemma LoadedGrows(db: Database, loaded: set<string>, t: string, schema: Schema, broken: seq<FkEdge>)
    requires t in db && t !in loaded
    ensures Loaded(db, loaded, schema, broken)[t] == []
    ensures Loaded(db, loaded + {t}, schema, broken)
         == Loaded(db, loaded, schema, broken)[t := LoadRows(ColumnsOf(schema, t), BrokenColumns(broken, t), db[t])]
  {
    var d, d' := Loaded(db, loaded, schema, broken), Loaded(db, loaded + {t}, schema, broken);
    forall u | u in db && u != t ensures d[u] == d'[u] {
      assert u in loaded + {t} <==> u in loaded;
    }
  }

  lemma LoadedStep(db: Database, k: nat, schema: Schema, order: seq<string>, broken: seq<FkEdge>)
    requires NoDuplicates(order) && NameSet(order) == db.Keys && k < |order|
    ensures order[k] in db && RowsOf(Loaded(db, NameSet(order[..k]), schema, broken), order[k]) == []
    ensures Loaded(db, NameSet(order[..k + 1]), schema, broken)
         == Loaded(db, NameSet(order[..k]), schema, broken)[order[k] := LoadRows(ColumnsOf(schema, order[k]), BrokenColumns(broken, order[k]), db[order[k]])]
  {
    assert order[k] in NameSet(order);
    NextName(order, k);
    LoadedGrows(db, NameSet(order[..k]), order[k], schema, broken);
  }

  lemma {:induction false} LoadTableSucceeds(schema: Schema, a: Artifact, table: string, p: Progress, rows: seq<Row>, next: Database)
    requires table in a.manifest.tables && ColumnsOf(schema, table) != []
    requires ReadRows(a, a.manifest.tables[table]) == Some(rows) && a.manifest.tables[table].rowCount == |rows|
    requires p.error.None? && table in p.db && p.db[table] == []
    requires next == p.db[table := LoadRows(ColumnsOf(schema, table), BrokenColumns(a.manifest.brokenEdges, table), rows)]
    requires Intact(next, schema)
    ensures LoadTable(schema, a, table, p) == Progress(next, p.totalRows + |rows|, p.mismatches, None)
  {
    var loaded := LoadRows(ColumnsOf(schema, table), BrokenColumns(a.manifest.brokenEdges, table), rows);
    assert RowsOf(p.db, table) + loaded == loaded;
    if rows == [] {
      assert next == p.db;
    }
  }

  lemma {:induction false} LoadTableStep(schema: Schema, a: Artifact, db: Database, hash: string -> string, k: nat, p: Progress)
    requires Restorable(schema, db, a.manifest.order, a.manifest.brokenEdges) && Holds(a, db, hash) && k < |a.manifest.order|
    requires p == Progress(Loaded(db, NameSet(a.manifest.order[..k]), schema, a.manifest.brokenEdges), p.totalRows, [], None)
    ensures a.manifest.order[k] in db
    ensures LoadTable(schema, a, a.manifest.order[k], p)
         == Progress(Loaded(db, NameSet(a.manifest.order[..k + 1]), schema, a.manifest.brokenEdges), p.totalRows + |db[a.manifest.order[k]]|, [], None)
  {
    var order, table := a.manifest.order, a.manifest.order[k];
    ArtifactRows(a, db, hash, table);
    LoadedStep(db, k, schema, order, a.manifest.brokenEdges);
    LoadedIntact(db, k + 1, schema, order, a.manifest.brokenEdges);
    assert schema.columns[table] != [];
    LoadTableSucceeds(schema, a, table, p, db[table], Loaded(db, NameSet(order[..k + 1]), schema, a.manifest.brokenEdges));
  }

  /** The first k tables are loaded and counted. */
  ghost predicate LoadedUpTo(p: Progress, db: Database, k: nat, schema: Schema, order: seq<string>, broken: seq<FkEdge>) {
    && k <= |order| && NameSet(order[..k]) <= db.Keys
    && p == Progress(Loaded(db, NameSet(order[..k]), schema, broken), TotalRows(db, order[..k]), [], None)
  }

  lemma LoadedUpToNext(schema: Schema, a: Artifact, db: Database, hash: string -> string, k: nat, p: Progress)
    requires Restorable(schema, db, a.manifest.order, a.manifest.brokenEdges) && Holds(a, db, hash) && k < |a.manifest.order|
    requires LoadedUpTo(p, db, k, schema, a.manifest.order, a.manifest.brokenEdges)
    ensures LoadedUpTo(LoadTable(schema, a, a.manifest.order[k], p), db, k + 1, schema, a.manifest.order, a.manifest.brokenEdges)
  {
    LoadTableStep(schema, a, db, hash, k, p);
    TotalStep(db, a.manifest.order, k);
  }

  /** The insert loop reaches the state with every table loaded, and every INSERT on the way is accepted. */
  lemma {:induction false} LoadTablesReach(schema: Schema, a: Artifact, db: Database, hash: string -> string, k: nat, p: Progress)
    requires Restorable(schema, db, a.manifest.order, a.manifest.brokenEdges) && Holds(a, db, hash)
    requires LoadedUpTo(p, db, k, schema, a.manifest.order, a.manifest.brokenEdges)
    ensures LoadTables(schema, a, a.manifest.order[k..], p)
         == Progress(Loaded(db, db.Keys, schema, a.manifest.brokenEdges), TotalRows(db, a.manifest.order), [], None)
    decreases |a.manifest.order| - k
  {
    if k == |a.manifest.order| {
      LoadTablesEnd(schema, a, db, k, p);
    } else {
      LoadedUpToNext(schema, a, db, hash, k, p);
      LoadTablesUnfold(schema, a, a.manifest.order, k, p);
      LoadTablesReach(schema, a, db, hash, k + 1, LoadTable(schema, a, a.manifest.order[k], p));
    }
  }

  lemma LoadTablesEnd(schema: Schema, a: Artifact, db: Database, k: nat, p: Progress)
    requires k == |a.manifest.order| && NameSet(a.manifest.order) == db.Keys
    ensures a.manifest.order[..k] == a.manifest.order && LoadTables(schema, a, a.manifest.order[k..], p) == p
  {
    assert a.manifest.order[k..] == [];
  }

  lemma LoadTablesUnfold(schema: Schema, a: Artifact, order: seq<string>, k: nat, p: Progress)
    requires k < |order| && p.error.None?
    ensures LoadTables(schema, a, order[k..], p) == LoadTables(schema, a, order[k + 1..], LoadTable(schema, a, order[k], p))
  {
    DropHead(order, k);
  }

  lemma TotalStep(db: Database, order: seq<string>, k: nat)
    requires k < |order| && NameSet(order[..k]) <= db.Keys && order[k] in db
    ensures NameSet(order[..k + 1]) <= db.Keys
    ensures TotalRows(db, order[..k + 1]) == TotalRows(db, order[..k]) + |db[order[k]]|
  {
    assert order[..k + 1] == order[..k] + [order[k]];
    assert order[..k + 1][..k] == order[..k];
  }

  // ---------------------------------------------------------------- the repair loop

  /** The last non-NULL value of `column` among the rows whose primary key is `key`; NULL when there is none. */
  function LastValue(rows: seq<Row>, pk: string, column: string, key: Value): Value {
    if rows == [] then Null
    else
      var later := LastValue(rows[1..], pk, column, key);
      if later != Null then later
      else if Matches(rows[0], pk, key) then Get(rows[0], column)
      else Null
  }

  /** A row with the key and a value in the column, and no such row after it. */
  predicate LastHolder(rows: seq<Row>, pk: string, column: string, key: Value, j: nat) {
    && j < |rows| && Matches(rows[j], pk, key) && Get(rows[j], column) != Null
    && forall m :: j < m < |rows| && Matches(rows[m], pk, key) ==> Get(rows[m], column) == Null
  }

  lemma {:induction false} LastValueMeaning(rows: seq<Row>, pk: string, column: string, key: Value)
    ensures var v := LastValue(rows, pk, column, key);
            && (v != Null ==> exists j: nat :: LastHolder(rows, pk, column, key, j) && Get(rows[j], column) == v)
            && (v == Null ==> forall j :: 0 <= j < |rows| && Matches(rows[j], pk, key) ==> Get(rows[j], column) == Null)
  {
    if rows != [] {
      var rest := rows[1..];
      LastValueMeaning(rest, pk, column, key);
      assert forall m :: 0 < m < |rows| ==> rows[m] == rest[m - 1];
      if j: nat :| LastHolder(rest, pk, column, key, j) && Get(rest[j], column) == LastValue(rest, pk, column, key) {
        assert LastHolder(rows, pk, column, key, j + 1);
      } else {
        assert Matches(rows[0], pk, key) && Get(rows[0], column) != Null ==> LastHolder(rows, pk, column, key, 0);
      }
    }
  }

  /** One column overwritten wherever the repair finds a value for the row's key. */
  function Overlay(rows: seq<Row>, source: seq<Row>, pk: string, column: string): (laid: seq<Row>)
    ensures |laid| == |rows|
    ensures forall i :: 0 <= i < |rows| ==> laid[i] == OverlayRow(rows[i], source, pk, column)
  {
    if rows == [] then [] else [OverlayRow(rows[0], source, pk, column)] + Overlay(rows[1..], source, pk, column)
  }

  function OverlayRow(row: Row, source: seq<Row>, pk: string, column: string): Row {
    var v := LastValue(source, pk, column, Get(row, pk));
    if v == Null then row else row[column := v]
  }

  /** One row after one UPDATE of the repair loop. */
  function AfterRepair(row: Row, from: Row, pk: string, column: string): Row {
    if Get(from, column) != Null && Matches(row, pk, Get(from, pk)) then row[column := Get(from, column)] else row
  }

  lemma OverlayRowStep(row: Row, source: seq<Row>, pk: string, column: string)
    requires source != [] && pk != column
    ensures OverlayRow(AfterRepair(row, source[0], pk, column), source[1..], pk, column) == OverlayRow(row, source, pk, column)
  {
    assert Get(AfterRepair(row, source[0], pk, column), pk) == Get(row, pk);
  }

  /** The rows of the table after it. */
  function RowsAfterRepair(rows: seq<Row>, from: Row, pk: string, column: string): (after: seq<Row>)
    ensures |after| == |rows|
    ensures forall i :: 0 <= i < |rows| ==> after[i] == AfterRepair(rows[i], from, pk, column)
  {
    if Get(from, column) == Null then rows else UpdateRows(rows, column, Get(from, column), pk, Get(from, pk))
  }

  lemma OverlayStep(rows: seq<Row>, source: seq<Row>, pk: string, column: string)
    requires source != [] && pk != column
    ensures Overlay(RowsAfterRepair(rows, source[0], pk, column), source[1..], pk, column) == Overlay(rows, source, pk, column)
  {
    var first := RowsAfterRepair(rows, source[0], pk, column);
    forall i | 0 <= i < |rows|
      ensures OverlayRow(first[i], source[1..], pk, column) == OverlayRow(rows[i], source, pk, column)
    {
      OverlayRowStep(rows[i], source, pk, column);
    }
  }

  lemma UpdateOnTheWay(rows: seq<Row>, source: seq<Row>, columns: seq<string>, brokenColumns: set<string>,
                       column: string, value: Value, pk: string, key: Value)
    requires TableOnTheWay(rows, source, columns, brokenColumns)
    requires column in columns && column in brokenColumns && HasKey(source, column, value)
    ensures TableOnTheWay(UpdateRows(rows, column, value, pk, key), source, columns, brokenColumns)
  {
    var updated := UpdateRows(rows, column, value, pk, key);
    forall i | 0 <= i < |updated| ensures RowOnTheWay(updated[i], i, source, columns, brokenColumns) {
      assert RowOnTheWay(rows[i], i, source, columns, brokenColumns);
      assert column in NameSet(columns);
    }
  }

  lemma RepairRowAccepted(schema: Schema, edge: FkEdge, db: Database, order: seq<string>, broken: seq<FkEdge>, i: nat, p: Progress)
    requires Restorable(schema, db, order, broken) && edge in broken && i < |RowsOf(db, edge.table)|
    requires p.error.None? && OnTheWay(p.db, db, db.Keys, schema, broken)
    ensures var rows := RowsAfterRepair(p.db[edge.table], db[edge.table][i], PrimaryKeyOf(schema, edge.table), edge.column);
            && RepairRow(schema, edge, db[edge.table][i], p) == p.(db := p.db[edge.table := rows])
            && OnTheWay(p.db[edge.table := rows], db, db.Keys, schema, broken)
  {
    var t, row, pk := edge.table, db[edge.table][i], PrimaryKeyOf(schema, edge.table);
    if Get(row, edge.column) == Null {
      assert p.db[t := p.db[t]] == p.db;
    } else {
      assert HasKey(db[t], edge.column, Get(row, edge.column));
      UpdateOnTheWay(p.db[t], db[t], schema.columns[t], BrokenColumns(broken, t), edge.column, Get(row, edge.column), pk, Get(row, pk));
      var next := p.db[t := UpdateRows(p.db[t], edge.column, Get(row, edge.column), pk, Get(row, pk))];
      assert OnTheWay(next, db, db.Keys, schema, broken);
      assert ReferencesLoaded(next, db.Keys, schema);
      OnTheWayIntact(next, db, db.Keys, schema, broken);
    }
  }

  ghost function Repainted(p: Progress, schema: Schema, edge: FkEdge, source: seq<Row>): Progress
    requires edge.table in p.db
  {
    p.(db := p.db[edge.table := Overlay(p.db[edge.table], source, PrimaryKeyOf(schema, edge.table), edge.column)])
  }

  lemma RepairRowsUnfold(schema: Schema, edge: FkEdge, source: seq<Row>, k: nat, p: Progress)
    requires k < |source| && p.error.None?
    ensures RepairRows(schema, edge, source[k..], p) == RepairRows(schema, edge, source[k + 1..], RepairRow(schema, edge, source[k], p))
  {
    assert source[k..][0] == source[k] && source[k..][1..] == source[k + 1..];
  }

  lemma RepaintedStep(p: Progress, q: Progress, schema: Schema, edge: FkEdge, source: seq<Row>, k: nat)
    requires k < |source| && edge.table in p.db && edge.column != PrimaryKeyOf(schema, edge.table)
    requires q == p.(db := p.db[edge.table := RowsAfterRepair(p.db[edge.table], source[k], PrimaryKeyOf(schema, edge.table), edge.column)])
    ensures Repainted(q, schema, edge, source[k + 1..]) == Repainted(p, schema, edge, source[k..])
  {
    var pk := PrimaryKeyOf(schema, edge.table);
    assert source[k..][0] == source[k] && source[k..][1..] == source[k + 1..];
    OverlayStep(p.db[edge.table], source[k..], pk, edge.column);
    assert q.db[edge.table := Overlay(q.db[edge.table], source[k + 1..], pk, edge.column)]
        == p.db[edge.table := Overlay(q.db[edge.table], source[k + 1..], pk, edge.column)];
  }

  /** Repairing one column: every UPDATE is accepted and the last row with a key wins. */
  lemma {:induction false} RepairRowsEffect(schema: Schema, edge: FkEdge, db: Database, order: seq<string>, broken: seq<FkEdge>, k: nat, p: Progress)
    requires Restorable(schema, db, order, broken) && edge in broken && k <= |RowsOf(db, edge.table)|
    requires p.error.None? && OnTheWay(p.db, db, db.Keys, schema, broken)
    ensures RepairRows(schema, edge, RowsOf(db, edge.table)[k..], p) == Repainted(p, schema, edge, RowsOf(db, edge.table)[k..])
    decreases |RowsOf(db, edge.table)| - k
  {
    var source := RowsOf(db, edge.table);
    if k == |source| {
      assert source[k..] == [];
      assert Overlay(p.db[edge.table], [], PrimaryKeyOf(schema, edge.table), edge.column) == p.db[edge.table];
      assert p.db[edge.table := p.db[edge.table]] == p.db;
      assert Repainted(p, schema, edge, source[k..]) == p;
    } else {
      RepairRowAccepted(schema, edge, db, order, broken, k, p);
      RepairRowsUnfold(schema, edge, source, k, p);
      var q := RepairRow(schema, edge, source[k], p);
      RepaintedStep(p, q, schema, edge, source, k);
      RepairRowsEffect(schema, edge, db, order, broken, k + 1, q);
    }
  }
}
