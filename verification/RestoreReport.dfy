/**
 * What a restore of any artifact into any target leaves and reports, told from the
 * manifest, the files, the columns of the schema and the rows that were there before.
 */
module RestoreReport {
  import opened Common
  import opened Names
  import opened FkGraph
  import opened BackupArtifact
  import opened BackupRestore
  import opened BackupRestoreTheorems

  /** The rows the artifact has for a table. */
  function DumpedRows(a: Artifact, t: string): seq<Row> {
    if t in a.manifest.tables && a.manifest.tables[t].fileName in a.files
    then ParseRows(a.codec, a.files[a.manifest.tables[t].fileName]) else []
  }

  function DumpedTotal(a: Artifact, order: seq<string>): nat {
    if order == [] then 0 else DumpedTotal(a, order[..|order| - 1]) + |DumpedRows(a, order[|order| - 1])|
  }

  predicate HasTable(schema: Schema, t: string) {
    t in schema.columns && schema.columns[t] != []
  }

  // ---------------------------------------------------------------- the inserted rows

  /** The columns of the schema, with NULL where the reference is deferred and the dumped value elsewhere. */
  ghost predicate InsertedRow(row: Row, dumped: Row, t: string, schema: Schema, a: Artifact) {
    && (forall c :: c in row <==> t in schema.columns && c in schema.columns[t])
    && forall c :: c in row ==>
         row[c] == if (exists e :: e in a.manifest.brokenEdges && e.table == t && e.column == c) then Null else Get(dumped, c)
  }

  /** The earlier rows, followed by the inserted ones. */
  ghost predicate TableLoaded(rows: seq<Row>, before: seq<Row>, dumped: seq<Row>, t: string, schema: Schema, a: Artifact) {
    && |rows| == |before| + |dumped| && rows[..|before|] == before
    && forall i :: 0 <= i < |dumped| ==> InsertedRow(rows[|before| + i], dumped[i], t, schema, a)
  }

  ghost predicate HasLoaded(db: Database, start: Database, loaded: set<string>, schema: Schema, a: Artifact) {
    && (forall t :: t in db <==> t in start || (t in loaded && DumpedRows(a, t) != []))
    && (forall t :: TableLoaded(RowsOf(db, t), RowsOf(start, t), if t in loaded then DumpedRows(a, t) else [], t, schema, a))
  }

  lemma InsertedRowUnique(r: Row, s: Row, dumped: Row, t: string, schema: Schema, a: Artifact)
    requires InsertedRow(r, dumped, t, schema, a) && InsertedRow(s, dumped, t, schema, a)
    ensures r == s
  {
  }

  lemma TableLoadedUnique(r: seq<Row>, s: seq<Row>, before: seq<Row>, dumped: seq<Row>, t: string, schema: Schema, a: Artifact)
    requires TableLoaded(r, before, dumped, t, schema, a) && TableLoaded(s, before, dumped, t, schema, a)
    ensures r == s
  {
    forall i | 0 <= i < |r| ensures r[i] == s[i] {
      if i < |before| {
        assert r[i] == r[..|before|][i] && s[i] == s[..|before|][i];
      } else {
        var k := i - |before|;
        assert i == |before| + k;
        InsertedRowUnique(r[|before| + k], s[|before| + k], dumped[k], t, schema, a);
      }
    }
  }

  lemma HasLoadedUnique(d: Database, e: Database, start: Database, loaded: set<string>, schema: Schema, a: Artifact)
    requires HasLoaded(d, start, loaded, schema, a) && HasLoaded(e, start, loaded, schema, a)
    ensures d == e
  {
    assert d.Keys == e.Keys;
    forall t | t in d ensures d[t] == e[t] {
      TableLoadedUnique(RowsOf(d, t), RowsOf(e, t), RowsOf(start, t), if t in loaded then DumpedRows(a, t) else [], t, schema, a);
    }
  }

  /** The database after the INSERT of a table; no statement is sent for an empty file. */
  function Inserted(db: Database, t: string, schema: Schema, a: Artifact): Database {
    if DumpedRows(a, t) == [] then db
    else db[t := RowsOf(db, t) + LoadRows(ColumnsOf(schema, t), BrokenColumns(a.manifest.brokenEdges, t), DumpedRows(a, t))]
  }

  lemma TableAppended(before: seq<Row>, t: string, schema: Schema, a: Artifact)
    ensures TableLoaded(before + LoadRows(ColumnsOf(schema, t), BrokenColumns(a.manifest.brokenEdges, t), DumpedRows(a, t)),
                        before, DumpedRows(a, t), t, schema, a)
  {
    var dumped := DumpedRows(a, t);
    var rows := LoadRows(ColumnsOf(schema, t), BrokenColumns(a.manifest.brokenEdges, t), dumped);
    forall i | 0 <= i < |dumped| ensures InsertedRow((before + rows)[|before| + i], dumped[i], t, schema, a) {
      assert (before + rows)[|before| + i] == LoadRow(ColumnsOf(schema, t), BrokenColumns(a.manifest.brokenEdges, t), dumped[i]);
    }
  }

  lemma InsertedTable(db: Database, before: seq<Row>, t: string, schema: Schema, a: Artifact)
    requires TableLoaded(RowsOf(db, t), before, [], t, schema, a)
    ensures RowsOf(db, t) == before
    ensures TableLoaded(RowsOf(Inserted(db, t, schema, a), t), before, DumpedRows(a, t), t, schema, a)
  {
    assert RowsOf(db, t) == RowsOf(db, t)[..|before|];
    if DumpedRows(a, t) != [] { TableAppended(before, t, schema, a); }
  }

  /** One more table: nothing happens to the database when its file is empty, else its rows are appended. */
  lemma HasLoadedNext(db: Database, start: Database, loaded: set<string>, t: string, schema: Schema, a: Artifact)
    requires HasLoaded(db, start, loaded, schema, a) && t !in loaded
    ensures RowsOf(db, t) == RowsOf(start, t)
    ensures HasLoaded(Inserted(db, t, schema, a), start, loaded + {t}, schema, a)
  {
    var next := Inserted(db, t, schema, a);
    assert TableLoaded(RowsOf(db, t), RowsOf(start, t), if t in loaded then DumpedRows(a, t) else [], t, schema, a);
    InsertedTable(db, RowsOf(start, t), t, schema, a);
    forall u ensures TableLoaded(RowsOf(next, u), RowsOf(start, u), if u in loaded + {t} then DumpedRows(a, u) else [], u, schema, a) {
      if u != t {
        assert RowsOf(next, u) == RowsOf(db, u) && (u in loaded + {t} <==> u in loaded);
        assert TableLoaded(RowsOf(db, u), RowsOf(start, u), if u in loaded then DumpedRows(a, u) else [], u, schema, a);
      }
    }
  }

  // ---------------------------------------------------------------- where the insert loop stops, and why

  /** The database with these tables loaded keeps, or breaks, the constraints; it is the only one of its kind. */
  ghost predicate Accepted(start: Database, loaded: set<string>, schema: Schema, a: Artifact) {
    exists d :: HasLoaded(d, start, loaded, schema, a) && Intact(d, schema)
  }

  ghost predicate Refused(start: Database, loaded: set<string>, schema: Schema, a: Artifact) {
    exists d :: HasLoaded(d, start, loaded, schema, a) && !Intact(d, schema)
  }

  ghost predicate Passes(schema: Schema, a: Artifact, start: Database, k: nat)
    requires k < |a.manifest.order|
  {
    var t := a.manifest.order[k];
    && t in a.manifest.tables && HasTable(schema, t) && a.manifest.tables[t].fileName in a.files
    && (DumpedRows(a, t) == [] || Accepted(start, NameSet(a.manifest.order[..k + 1]), schema, a))
  }

  ghost predicate StopsWith(schema: Schema, a: Artifact, start: Database, k: nat, e: RestoreError)
    requires k < |a.manifest.order|
  {
    var t := a.manifest.order[k];
    match e
    case MissingEntry(table) => table == t && t !in a.manifest.tables
    case NoSuchTable(table) => table == t && t in a.manifest.tables && !HasTable(schema, t)
    case UnreadableFile(table) => table == t && t in a.manifest.tables && HasTable(schema, t) && a.manifest.tables[t].fileName !in a.files
    case ForeignKeyViolation(table) =>
      && table == t && t in a.manifest.tables && HasTable(schema, t) && a.manifest.tables[t].fileName in a.files
      && DumpedRows(a, t) != [] && Refused(start, NameSet(a.manifest.order[..k + 1]), schema, a)
  }

  /** The rows found for a table and the rows of its file are together not as many as the manifest says. */
  predicate Miscounted(a: Artifact, start: Database, t: string) {
    t in a.manifest.tables && |RowsOf(start, t)| + |DumpedRows(a, t)| != a.manifest.tables[t].rowCount
  }

  ghost predicate Counts(a: Artifact, start: Database, order: seq<string>, totalRows: nat, mismatches: seq<string>) {
    && totalRows == DumpedTotal(a, order)
    && (forall t :: t in mismatches <==> t in order && Miscounted(a, start, t))
    && NoDuplicates(mismatches)
  }

  /** The tables before `k` are loaded and counted. */
  ghost predicate LoadReached(schema: Schema, a: Artifact, start: Database, k: nat, p: Progress) {
    && k <= |a.manifest.order| && (forall j :: 0 <= j < k ==> Passes(schema, a, start, j))
    && HasLoaded(p.db, start, NameSet(a.manifest.order[..k]), schema, a)
    && Counts(a, start, a.manifest.order[..k], p.totalRows, p.mismatches)
  }

  /** Everything is loaded, or all before the first table that cannot be. */
  ghost predicate LoadEnded(schema: Schema, a: Artifact, start: Database, p: Progress) {
    exists k: nat :: LoadReached(schema, a, start, k, p)
      && if p.error == None then k == |a.manifest.order|
         else k < |a.manifest.order| && StopsWith(schema, a, start, k, p.error.value)
  }

  lemma PassExcludesStop(schema: Schema, a: Artifact, start: Database, k: nat, e: RestoreError)
    requires k < |a.manifest.order| && Passes(schema, a, start, k)
    ensures !StopsWith(schema, a, start, k, e)
  {
    if e.ForeignKeyViolation? && StopsWith(schema, a, start, k, e) {
      var loaded := NameSet(a.manifest.order[..k + 1]);
      var d :| HasLoaded(d, start, loaded, schema, a) && Intact(d, schema);
      var d' :| HasLoaded(d', start, loaded, schema, a) && !Intact(d', schema);
      HasLoadedUnique(d, d', start, loaded, schema, a);
    }
  }

  lemma CountsNext(a: Artifact, start: Database, order: seq<string>, k: nat, totalRows: nat, mismatches: seq<string>)
    requires NoDuplicates(order) && k < |order| && Counts(a, start, order[..k], totalRows, mismatches)
    ensures Counts(a, start, order[..k + 1], totalRows + |DumpedRows(a, order[k])|,
                   if Miscounted(a, start, order[k]) then mismatches + [order[k]] else mismatches)
  {
    TakeNext(order, k);
    assert order[..k + 1][..k] == order[..k];
    assert order[k] !in order[..k];
  }

  /** What keeps a table from being loaded, when its INSERT, if there is one, leads to `next`. */
  ghost function Obstacle(schema: Schema, a: Artifact, t: string, next: Database): Option<RestoreError> {
    if t !in a.manifest.tables then Some(MissingEntry(t))
    else if !HasTable(schema, t) then Some(NoSuchTable(t))
    else if a.manifest.tables[t].fileName !in a.files then Some(UnreadableFile(t))
    else if DumpedRows(a, t) != [] && !Intact(next, schema) then Some(ForeignKeyViolation(t))
    else None
  }

  /** The progress after a table that nothing keeps from being loaded. */
  function Advanced(p: Progress, schema: Schema, a: Artifact, t: string): Progress
    requires t in a.manifest.tables
  {
    var next := Inserted(p.db, t, schema, a);
    Progress(next, p.totalRows + |DumpedRows(a, t)|,
             if |RowsOf(next, t)| != a.manifest.tables[t].rowCount then p.mismatches + [t] else p.mismatches, None)
  }

  lemma LoadTableOutcome(schema: Schema, a: Artifact, t: string, p: Progress, e: Option<RestoreError>)
    requires p.error.None? && e == Obstacle(schema, a, t, Inserted(p.db, t, schema, a))
    ensures e.None? ==> t in a.manifest.tables
    ensures LoadTable(schema, a, t, p) == if e.Some? then p.(error := e) else Advanced(p, schema, a, t)
  {
  }

  lemma ObstacleStops(schema: Schema, a: Artifact, start: Database, k: nat, next: Database)
    requires k < |a.manifest.order| && HasLoaded(next, start, NameSet(a.manifest.order[..k + 1]), schema, a)
    ensures var e := Obstacle(schema, a, a.manifest.order[k], next);
            if e.Some? then StopsWith(schema, a, start, k, e.value) else Passes(schema, a, start, k)
  {
  }

  lemma InsertedCount(db: Database, before: seq<Row>, t: string, schema: Schema, a: Artifact)
    requires RowsOf(db, t) == before
    ensures |RowsOf(Inserted(db, t, schema, a), t)| == |before| + |DumpedRows(a, t)|
  {
  }

  lemma AdvancedCounts(schema: Schema, a: Artifact, start: Database, k: nat, p: Progress)
    requires NoDuplicates(a.manifest.order) && k < |a.manifest.order| && a.manifest.order[k] in a.manifest.tables
    requires Counts(a, start, a.manifest.order[..k], p.totalRows, p.mismatches)
    requires RowsOf(p.db, a.manifest.order[k]) == RowsOf(start, a.manifest.order[k])
    ensures var q := Advanced(p, schema, a, a.manifest.order[k]); Counts(a, start, a.manifest.order[..k + 1], q.totalRows, q.mismatches)
  {
    InsertedCount(p.db, RowsOf(start, a.manifest.order[k]), a.manifest.order[k], schema, a);
    CountsNext(a, start, a.manifest.order, k, p.totalRows, p.mismatches);
  }

  lemma ReachedNext(schema: Schema, a: Artifact, start: Database, k: nat, p: Progress, q: Progress)
    requires k < |a.manifest.order| && LoadReached(schema, a, start, k, p) && Passes(schema, a, start, k)
    requires HasLoaded(q.db, start, NameSet(a.manifest.order[..k + 1]), schema, a)
    requires Counts(a, start, a.manifest.order[..k + 1], q.totalRows, q.mismatches)
    ensures LoadReached(schema, a, start, k + 1, q)
  {
  }

  /** One table of the loop: it is loaded and counted, or the loop ends with the reason it cannot be. */
  lemma {:induction false} LoadTableNext(schema: Schema, a: Artifact, start: Database, k: nat, p: Progress, q: Progress)
    requires NoDuplicates(a.manifest.order) && k < |a.manifest.order| && p.error.None? && LoadReached(schema, a, start, k, p)
    requires q == LoadTable(schema, a, a.manifest.order[k], p)
    ensures if q.error == None then LoadReached(schema, a, start, k + 1, q)
            else LoadReached(schema, a, start, k, q) && StopsWith(schema, a, start, k, q.error.value)
  {
    var order, t := a.manifest.order, a.manifest.order[k];
    var next := Inserted(p.db, t, schema, a);
    NextName(order, k);
    HasLoadedNext(p.db, start, NameSet(order[..k]), t, schema, a);
    ObstacleStops(schema, a, start, k, next);
    var e := Obstacle(schema, a, t, next);
    LoadTableOutcome(schema, a, t, p, e);
    if e.None? {
      AdvancedCounts(schema, a, start, k, p);
      ReachedNext(schema, a, start, k, p, q);
    }
  }

  lemma {:induction false} LoadTablesEnds(schema: Schema, a: Artifact, start: Database, k: nat, p: Progress)
    requires NoDuplicates(a.manifest.order) && p.error.None? && LoadReached(schema, a, start, k, p)
    ensures LoadEnded(schema, a, start, LoadTables(schema, a, a.manifest.order[k..], p))
    decreases |a.manifest.order| - k
  {
    var order := a.manifest.order;
    if k == |order| {
      assert order[k..] == [];
    } else {
      var q := LoadTable(schema, a, order[k], p);
      LoadTableNext(schema, a, start, k, p, q);
      LoadTablesUnfold(schema, a, order, k, p);
      if q.error.None? { LoadTablesEnds(schema, a, start, k + 1, q); }
    }
  }

  lemma NothingLoaded(schema: Schema, a: Artifact, start: Database)
    ensures LoadReached(schema, a, start, 0, Progress(start, 0, [], None))
  {
    var none := a.manifest.order[..0];
    assert none == [] && NameSet(none) == {};
    forall t ensures TableLoaded(RowsOf(start, t), RowsOf(start, t), [], t, schema, a) { }
  }

  /** The insert loop, for every artifact that lists no table twice and every target. */
  lemma LoadMeans(schema: Schema, a: Artifact, start: Database)
    requires NoDuplicates(a.manifest.order)
    ensures LoadEnded(schema, a, start, LoadTables(schema, a, a.manifest.order, Progress(start, 0, [], None)))
  {
    NothingLoaded(schema, a, start);
    LoadTablesEnds(schema, a, start, 0, Progress(start, 0, [], None));
    assert a.manifest.order[0..] == a.manifest.order;
  }

  /** The first table that cannot be loaded is number `k`, because of `e`. */
  ghost predicate LoadStopsAt(schema: Schema, a: Artifact, start: Database, k: nat, e: RestoreError) {
    k < |a.manifest.order| && (forall j :: 0 <= j < k ==> Passes(schema, a, start, j)) && StopsWith(schema, a, start, k, e)
  }

  ghost predicate LoadStops(schema: Schema, a: Artifact, start: Database, e: RestoreError) {
    exists k: nat :: LoadStopsAt(schema, a, start, k, e)
  }

  lemma StopsOnce(schema: Schema, a: Artifact, start: Database, k: nat, e: RestoreError, k': nat, e': RestoreError)
    requires LoadStopsAt(schema, a, start, k, e) && LoadStopsAt(schema, a, start, k', e')
    ensures e == e'
  {
    if k < k' { PassExcludesStop(schema, a, start, k, e); }
    if k' < k { PassExcludesStop(schema, a, start, k', e'); }
  }

  lemma EndedMeans(schema: Schema, a: Artifact, start: Database, p: Progress)
    requires LoadEnded(schema, a, start, p)
    ensures p.error.None? ==> LoadReached(schema, a, start, |a.manifest.order|, p)
    ensures p.error.Some? ==> LoadStops(schema, a, start, p.error.value)
  {
    if p.error.Some? {
      var k: nat :| LoadReached(schema, a, start, k, p) && k < |a.manifest.order| && StopsWith(schema, a, start, k, p.error.value);
      assert LoadStopsAt(schema, a, start, k, p.error.value);
    }
  }

  lemma NoStop(schema: Schema, a: Artifact, start: Database, e: RestoreError)
    requires forall j :: 0 <= j < |a.manifest.order| ==> Passes(schema, a, start, j)
    ensures !LoadStops(schema, a, start, e)
  {
    if LoadStops(schema, a, start, e) {
      var k: nat :| LoadStopsAt(schema, a, start, k, e);
      PassExcludesStop(schema, a, start, k, e);
    }
  }

  /** It ends with an error if and only if that is what stops the first table that cannot be loaded. */
  lemma LoadErrorIff(schema: Schema, a: Artifact, start: Database, e: RestoreError)
    requires NoDuplicates(a.manifest.order)
    ensures LoadTables(schema, a, a.manifest.order, Progress(start, 0, [], None)).error == Some(e) <==> LoadStops(schema, a, start, e)
  {
    var p := LoadTables(schema, a, a.manifest.order, Progress(start, 0, [], None));
    LoadMeans(schema, a, start);
    EndedMeans(schema, a, start, p);
    if p.error.None? {
      NoStop(schema, a, start, e);
    } else if LoadStops(schema, a, start, e) {
      var k: nat :| LoadStopsAt(schema, a, start, k, p.error.value);
      var k': nat :| LoadStopsAt(schema, a, start, k', e);
      StopsOnce(schema, a, start, k, p.error.value, k', e);
    }
  }

  // ---------------------------------------------------------------- the repaired cells

  /** A repaired column holds the last non-NULL value dumped for the row's key, or what it held when there is none. */
  function RepairedCell(was: Row, c: string, columns: set<string>, source: seq<Row>, pk: string): Value {
    var v := LastValue(source, pk, c, Get(was, pk));
    if c in columns && v != Null then v else Get(was, c)
  }

  ghost predicate RowRepaired(row: Row, was: Row, columns: set<string>, source: seq<Row>, pk: string) {
    forall c :: Get(row, c) == RepairedCell(was, c, columns, source, pk)
  }

  ghost predicate TableRepaired(rows: seq<Row>, was: seq<Row>, columns: set<string>, source: seq<Row>, pk: string) {
    |rows| == |was| && forall i :: 0 <= i < |rows| ==> RowRepaired(rows[i], was[i], columns, source, pk)
  }

  lemma OverlayRepairs(was: seq<Row>, source: seq<Row>, pk: string, column: string)
    ensures TableRepaired(Overlay(was, source, pk, column), was, {column}, source, pk)
  {
    forall i | 0 <= i < |was| ensures RowRepaired(Overlay(was, source, pk, column)[i], was[i], {column}, source, pk) {
      assert Overlay(was, source, pk, column)[i] == OverlayRow(was[i], source, pk, column);
    }
  }

  /** Repairing some columns and then others repairs both. */
  lemma RepairsCompose(rows: seq<Row>, middle: seq<Row>, was: seq<Row>, first: set<string>, second: set<string>, source: seq<Row>, pk: string)
    requires pk !in first && TableRepaired(middle, was, first, source, pk) && TableRepaired(rows, middle, second, source, pk)
    ensures TableRepaired(rows, was, first + second, source, pk)
  {
    forall i | 0 <= i < |rows| ensures RowRepaired(rows[i], was[i], first + second, source, pk) {
      assert RowRepaired(middle[i], was[i], first, source, pk) && RowRepaired(rows[i], middle[i], second, source, pk);
      assert Get(middle[i], pk) == RepairedCell(was[i], pk, first, source, pk);
      forall c ensures Get(rows[i], c) == RepairedCell(was[i], c, first + second, source, pk) {
        assert Get(rows[i], c) == RepairedCell(middle[i], c, second, source, pk);
        assert Get(middle[i], c) == RepairedCell(was[i], c, first, source, pk);
      }
    }
  }

  lemma NothingRepaired(was: seq<Row>, source: seq<Row>, pk: string)
    ensures TableRepaired(was, was, {}, source, pk)
  {
    forall i | 0 <= i < |was| ensures RowRepaired(was[i], was[i], {}, source, pk) { }
  }

  /** An UPDATE that puts back a dumped value would break a constraint. */
  ghost predicate UpdateRefused(schema: Schema, a: Artifact, db: Database, edge: FkEdge, row: Row) {
    && edge in a.manifest.brokenEdges && row in DumpedRows(a, edge.table) && Get(row, edge.column) != Null
    && var pk := PrimaryKeyOf(schema, edge.table);
       !Intact(db[edge.table := UpdateRows(RowsOf(db, edge.table), edge.column, Get(row, edge.column), pk, Get(row, pk))], schema)
  }

  predicate Unreadable(a: Artifact, t: string) {
    t in a.manifest.tables && a.manifest.tables[t].fileName !in a.files
  }

  ghost predicate TableAfter(p: Progress, q: Progress, t: string, columns: set<string>, schema: Schema, a: Artifact) {
    TableRepaired(RowsOf(q.db, t), RowsOf(p.db, t), columns, DumpedRows(a, t), PrimaryKeyOf(schema, t))
  }

  predicate SameReport(p: Progress, q: Progress) {
    q.totalRows == p.totalRows && q.mismatches == p.mismatches
  }

  ghost predicate Untouched(p: Progress, q: Progress, table: string) {
    SameReport(p, q) && forall t :: t != table ==> RowsOf(q.db, t) == RowsOf(p.db, t)
  }

  /** The tables in `done` have their deferred columns repaired, the others are as before. */
  ghost predicate RepairsAll(p: Progress, q: Progress, done: set<string>, schema: Schema, a: Artifact) {
    && SameReport(p, q)
    && forall t :: TableAfter(p, q, t, if t in done then BrokenColumns(a.manifest.brokenEdges, t) else {}, schema, a)
  }

  /** How the repair of one table ends. */
  ghost predicate RepairStop(schema: Schema, a: Artifact, q: Progress, table: string) {
    match q.error
    case None => !Unreadable(a, table)
    case Some(UnreadableFile(t)) => t == table && Unreadable(a, t)
    case Some(ForeignKeyViolation(t)) => t == table && exists edge: FkEdge, row :: edge.table == t && UpdateRefused(schema, a, q.db, edge, row)
    case Some(_) => false
  }

  lemma RepairRowOutcome(schema: Schema, a: Artifact, edge: FkEdge, row: Row, p: Progress)
    requires p.error.None? && edge in a.manifest.brokenEdges && row in DumpedRows(a, edge.table)
    ensures var q := RepairRow(schema, edge, row, p);
            && Untouched(p, q, edge.table)
            && (q.error.None? ==> RowsOf(q.db, edge.table) == RowsAfterRepair(RowsOf(p.db, edge.table), row, PrimaryKeyOf(schema, edge.table), edge.column))
            && (q.error.Some? ==> q.error.value == ForeignKeyViolation(edge.table) && UpdateRefused(schema, a, q.db, edge, row))
  {
  }

  lemma {:induction false} RepairRowsOutcome(schema: Schema, a: Artifact, edge: FkEdge, rows: seq<Row>, p: Progress)
    requires p.error.None? && edge in a.manifest.brokenEdges && forall row :: row in rows ==> row in DumpedRows(a, edge.table)
    ensures var q := RepairRows(schema, edge, rows, p);
            && Untouched(p, q, edge.table)
            && (q.error.None? && edge.column != PrimaryKeyOf(schema, edge.table) ==>
                RowsOf(q.db, edge.table) == Overlay(RowsOf(p.db, edge.table), rows, PrimaryKeyOf(schema, edge.table), edge.column))
            && (q.error.Some? ==> q.error.value == ForeignKeyViolation(edge.table)
                                  && exists row :: UpdateRefused(schema, a, q.db, edge, row))
  {
    if rows == [] {
      var was, pk := RowsOf(p.db, edge.table), PrimaryKeyOf(schema, edge.table);
      assert forall i :: 0 <= i < |was| ==> Overlay(was, [], pk, edge.column)[i] == was[i];
    } else {
      RepairRowOutcome(schema, a, edge, rows[0], p);
      var q := RepairRow(schema, edge, rows[0], p);
      if q.error.None? {
        RepairRowsOutcome(schema, a, edge, rows[1..], q);
        if edge.column != PrimaryKeyOf(schema, edge.table) {
          OverlayStep(RowsOf(p.db, edge.table), rows, PrimaryKeyOf(schema, edge.table), edge.column);
        }
      }
    }
  }

  /** No deferred column is a primary key, so that repairing never changes which rows a key matches. */
  predicate KeysStay(schema: Schema, a: Artifact) {
    forall e :: e in a.manifest.brokenEdges ==> e.column != PrimaryKeyOf(schema, e.table)
  }

  function ColumnSet(edges: seq<FkEdge>): set<string> {
    set e | e in edges :: e.column
  }

  lemma UntouchedThrough(p: Progress, q: Progress, r: Progress, table: string)
    requires Untouched(p, q, table) && Untouched(q, r, table)
    ensures Untouched(p, r, table)
  {
  }

  lemma {:induction false} RepairEdgesOutcome(schema: Schema, a: Artifact, table: string, edges: seq<FkEdge>, p: Progress)
    requires p.error.None? && forall e :: e in edges ==> e in a.manifest.brokenEdges && e.table == table
    ensures var q := RepairEdges(schema, edges, DumpedRows(a, table), p);
            && Untouched(p, q, table)
            && (q.error.None? && KeysStay(schema, a) ==> TableAfter(p, q, table, ColumnSet(edges), schema, a))
            && (q.error.Some? ==> q.error.value == ForeignKeyViolation(table)
                                  && exists edge: FkEdge, row :: edge.table == table && UpdateRefused(schema, a, q.db, edge, row))
  {
    var source, pk := DumpedRows(a, table), PrimaryKeyOf(schema, table);
    if edges == [] {
      NothingRepaired(RowsOf(p.db, table), source, pk);
      assert ColumnSet(edges) == {};
    } else {
      RepairRowsOutcome(schema, a, edges[0], source, p);
      var m := RepairRows(schema, edges[0], source, p);
      if m.error.None? {
        RepairEdgesOutcome(schema, a, table, edges[1..], m);
        var q := RepairEdges(schema, edges[1..], source, m);
        UntouchedThrough(p, m, q, table);
        if q.error.None? && KeysStay(schema, a) {
          OverlayRepairs(RowsOf(p.db, table), source, pk, edges[0].column);
          RepairsCompose(RowsOf(q.db, table), RowsOf(m.db, table), RowsOf(p.db, table), {edges[0].column}, ColumnSet(edges[1..]), source, pk);
          assert edges == [edges[0]] + edges[1..];
          assert ColumnSet(edges) == {edges[0].column} + ColumnSet(edges[1..]);
        }
      }
    }
  }

  lemma ColumnsOfEdges(broken: seq<FkEdge>, table: string)
    ensures ColumnSet(EdgesOf(broken, table)) == BrokenColumns(broken, table)
  {
  }

  lemma {:induction false} RepairTableOutcome(schema: Schema, a: Artifact, table: string, p: Progress)
    requires p.error.None?
    ensures var q := RepairTable(schema, a, table, p);
            && Untouched(p, q, table) && RepairStop(schema, a, q, table)
            && (q.error.None? && KeysStay(schema, a) ==> TableAfter(p, q, table, BrokenColumns(a.manifest.brokenEdges, table), schema, a))
  {
    if table !in a.manifest.tables {
      NoEntryRepairs(schema, a, table, RowsOf(p.db, table));
    } else if !Unreadable(a, table) {
      var edges := EdgesOf(a.manifest.brokenEdges, table);
      RepairEdgesOutcome(schema, a, table, edges, p);
      ColumnsOfEdges(a.manifest.brokenEdges, table);
    }
  }

  /** Without dumped rows every column keeps what it holds. */
  lemma NoEntryRepairs(schema: Schema, a: Artifact, table: string, rows: seq<Row>)
    requires DumpedRows(a, table) == []
    ensures TableRepaired(rows, rows, BrokenColumns(a.manifest.brokenEdges, table), DumpedRows(a, table), PrimaryKeyOf(schema, table))
  {
    var columns, pk := BrokenColumns(a.manifest.brokenEdges, table), PrimaryKeyOf(schema, table);
    forall i | 0 <= i < |rows| ensures RowRepaired(rows[i], rows[i], columns, [], pk) {
      forall c ensures Get(rows[i], c) == RepairedCell(rows[i], c, columns, [], pk) { }
    }
  }

  lemma RepairsNext(p: Progress, m: Progress, q: Progress, done: set<string>, table: string, schema: Schema, a: Artifact)
    requires KeysStay(schema, a) && RepairsAll(p, m, done, schema, a) && Untouched(m, q, table)
    requires TableAfter(m, q, table, BrokenColumns(a.manifest.brokenEdges, table), schema, a)
    ensures RepairsAll(p, q, done + {table}, schema, a)
  {
    var broken := a.manifest.brokenEdges;
    forall t ensures TableAfter(p, q, t, if t in done + {table} then BrokenColumns(broken, t) else {}, schema, a) {
      assert TableAfter(p, m, t, if t in done then BrokenColumns(broken, t) else {}, schema, a);
      if t == table {
        var before := if t in done then BrokenColumns(broken, t) else {};
        RepairsCompose(RowsOf(q.db, t), RowsOf(m.db, t), RowsOf(p.db, t), before, BrokenColumns(broken, t), DumpedRows(a, t), PrimaryKeyOf(schema, t));
        assert before + BrokenColumns(broken, t) == BrokenColumns(broken, t);
      } else {
        assert t in done + {table} <==> t in done;
      }
    }
  }

  /** After the tables before `k` nothing has stopped the repair, and their deferred columns are back. */
  ghost predicate RepairReached(p: Progress, q: Progress, tables: seq<string>, k: nat, schema: Schema, a: Artifact)
    requires k <= |tables|
  {
    && SameReport(p, q) && (forall j :: 0 <= j < k ==> !Unreadable(a, tables[j]))
    && (KeysStay(schema, a) ==> RepairsAll(p, q, NameSet(tables[..k]), schema, a))
  }

  /** The repair got through, or a table whose file is missing or an UPDATE that breaks a constraint ended it. */
  ghost predicate RepairEnded(p: Progress, q: Progress, tables: seq<string>, schema: Schema, a: Artifact) {
    SameReport(p, q) &&
    match q.error
    case None => RepairReached(p, q, tables, |tables|, schema, a)
    case Some(UnreadableFile(t)) => exists k: nat :: FirstUnreadable(a, tables, k) && tables[k] == t
    case Some(ForeignKeyViolation(t)) => exists edge: FkEdge, row :: edge.table == t && UpdateRefused(schema, a, q.db, edge, row)
    case Some(_) => false
  }

  predicate FirstUnreadable(a: Artifact, tables: seq<string>, k: nat) {
    k < |tables| && Unreadable(a, tables[k]) && forall j :: 0 <= j < k ==> !Unreadable(a, tables[j])
  }

  lemma NextTableName(tables: seq<string>, k: nat)
    requires k < |tables|
    ensures NameSet(tables[..k + 1]) == NameSet(tables[..k]) + {tables[k]}
  {
    TakeNext(tables, k);
  }

  lemma RepairReachedNext(p: Progress, m: Progress, tables: seq<string>, k: nat, schema: Schema, a: Artifact)
    requires k < |tables| && m.error.None? && RepairReached(p, m, tables, k, schema, a)
    ensures var q := RepairTable(schema, a, tables[k], m);
            if q.error.None? then RepairReached(p, q, tables, k + 1, schema, a) else RepairEnded(p, q, tables, schema, a)
  {
    var q := RepairTable(schema, a, tables[k], m);
    RepairTableOutcome(schema, a, tables[k], m);
    if q.error.None? {
      NextTableName(tables, k);
      if KeysStay(schema, a) { RepairsNext(p, m, q, NameSet(tables[..k]), tables[k], schema, a); }
    } else if q.error.value.UnreadableFile? {
      assert FirstUnreadable(a, tables, k);
    }
  }

  lemma RepairTablesUnfold(schema: Schema, a: Artifact, tables: seq<string>, k: nat, p: Progress)
    requires k < |tables| && p.error.None?
    ensures var q := RepairTable(schema, a, tables[k], p);
            RepairTables(schema, a, tables[k..], p) == if q.error.Some? then q else RepairTables(schema, a, tables[k + 1..], q)
  {
    DropHead(tables, k);
  }

  lemma {:induction false} RepairTablesEnds(p: Progress, m: Progress, tables: seq<string>, k: nat, schema: Schema, a: Artifact)
    requires k <= |tables| && m.error.None? && RepairReached(p, m, tables, k, schema, a)
    ensures RepairEnded(p, RepairTables(schema, a, tables[k..], m), tables, schema, a)
    decreases |tables| - k
  {
    if k == |tables| {
      assert tables[k..] == [];
    } else {
      var q := RepairTable(schema, a, tables[k], m);
      RepairReachedNext(p, m, tables, k, schema, a);
      RepairTablesUnfold(schema, a, tables, k, m);
      if q.error.None? { RepairTablesEnds(p, q, tables, k + 1, schema, a); }
    }
  }

  lemma RepairMeans(schema: Schema, a: Artifact, p: Progress)
    requires p.error.None?
    ensures RepairEnded(p, RepairTables(schema, a, EdgeTables(a.manifest.brokenEdges), p), EdgeTables(a.manifest.brokenEdges), schema, a)
  {
    var tables := EdgeTables(a.manifest.brokenEdges);
    assert NameSet(tables[..0]) == {};
    forall t ensures TableAfter(p, p, t, {}, schema, a) { NothingRepaired(RowsOf(p.db, t), DumpedRows(a, t), PrimaryKeyOf(schema, t)); }
    RepairTablesEnds(p, p, tables, 0, schema, a);
    assert tables[0..] == tables;
  }

  /** Tables are repaired in the order in which the deferred edges first name them. */
  lemma {:induction false} EdgeTablesInOrder(broken: seq<FkEdge>, k: nat)
    requires k < |EdgeTables(broken)|
    ensures exists i :: 0 <= i < |broken| && broken[i].table == EdgeTables(broken)[k]
                        && forall j :: 0 <= j < i ==> broken[j].table in EdgeTables(broken)[..k]
  {
    var last := |broken| - 1;
    var tables, init := EdgeTables(broken), EdgeTables(broken[..last]);
    SplitLast(broken);
    if k < |init| {
      EdgeTablesInOrder(broken[..last], k);
      var i :| 0 <= i < last && broken[..last][i].table == init[k] && forall j :: 0 <= j < i ==> broken[..last][j].table in init[..k];
      assert tables[..k] == init[..k];
      assert forall j :: 0 <= j < i ==> broken[j] == broken[..last][j];
    } else {
      assert tables[..k] == init;
      assert forall j :: 0 <= j < last ==> broken[j] == broken[..last][j];
    }
  }

  /** The first deferred edge whose table is listed but has no file. */
  predicate FirstEdgeUnreadable(a: Artifact, t: string) {
    exists i :: 0 <= i < |a.manifest.brokenEdges| && a.manifest.brokenEdges[i].table == t && Unreadable(a, t)
                && forall j :: 0 <= j < i ==> !Unreadable(a, a.manifest.brokenEdges[j].table)
  }

  lemma FirstTableIsFirstEdge(a: Artifact, k: nat)
    requires FirstUnreadable(a, EdgeTables(a.manifest.brokenEdges), k)
    ensures FirstEdgeUnreadable(a, EdgeTables(a.manifest.brokenEdges)[k])
  {
    var broken := a.manifest.brokenEdges;
    var tables := EdgeTables(broken);
    EdgeTablesInOrder(broken, k);
    var i :| 0 <= i < |broken| && broken[i].table == tables[k] && forall j :: 0 <= j < i ==> broken[j].table in tables[..k];
    assert forall j :: 0 <= j < i ==> !Unreadable(a, broken[j].table);
  }

  // ---------------------------------------------------------------- the whole restore

  /**
   * The report of a restore that ends without error: a table is reported exactly when
   * the rows found before and the rows of its file are not as many as the manifest
   * says, and the total is the number of rows in the files.
   */
  lemma MismatchIff(schema: Schema, a: Artifact, start: Database)
    requires NoDuplicates(a.manifest.order) && Restored(schema, a, start).error == None
    ensures var r := Restored(schema, a, start);
            && r.totalRows == DumpedTotal(a, a.manifest.order) && NoDuplicates(r.mismatches)
            && forall t :: t in r.mismatches <==>
                 t in a.manifest.order && t in a.manifest.tables
                 && |RowsOf(start, t)| + |DumpedRows(a, t)| != a.manifest.tables[t].rowCount
  {
    var p := LoadTables(schema, a, a.manifest.order, Progress(start, 0, [], None));
    LoadMeans(schema, a, start);
    EndedMeans(schema, a, start, p);
    WholeOrder(a.manifest.order);
    RepairUnlessFailed(schema, a, start);
  }

  lemma WholeOrder(order: seq<string>)
    ensures order[..|order|] == order
  {
  }

  lemma RepairUnlessFailed(schema: Schema, a: Artifact, start: Database)
    ensures var p, r := LoadTables(schema, a, a.manifest.order, Progress(start, 0, [], None)), Restored(schema, a, start);
            if p.error.Some? then r == p else RepairEnded(p, r, EdgeTables(a.manifest.brokenEdges), schema, a)
  {
    var p := LoadTables(schema, a, a.manifest.order, Progress(start, 0, [], None));
    if p.error.None? { RepairMeans(schema, a, p); }
  }

  /** What a restore that ends without error leaves: the dumped rows behind the earlier ones, every deferred column put back. */
  lemma RestoredContents(schema: Schema, a: Artifact, start: Database) returns (loaded: Database)
    requires NoDuplicates(a.manifest.order) && KeysStay(schema, a) && Restored(schema, a, start).error == None
    ensures HasLoaded(loaded, start, NameSet(a.manifest.order), schema, a)
    ensures forall t :: TableRepaired(RowsOf(Restored(schema, a, start).db, t), RowsOf(loaded, t),
                                      BrokenColumns(a.manifest.brokenEdges, t), DumpedRows(a, t), PrimaryKeyOf(schema, t))
  {
    var p, r := LoadTables(schema, a, a.manifest.order, Progress(start, 0, [], None)), Restored(schema, a, start);
    LoadMeans(schema, a, start);
    EndedMeans(schema, a, start, p);
    WholeOrder(a.manifest.order);
    RepairUnlessFailed(schema, a, start);
    loaded := p.db;
    var tables := EdgeTables(a.manifest.brokenEdges);
    WholeOrder(tables);
    forall t ensures TableRepaired(RowsOf(r.db, t), RowsOf(p.db, t), BrokenColumns(a.manifest.brokenEdges, t), DumpedRows(a, t), PrimaryKeyOf(schema, t)) {
      assert TableAfter(p, r, t, if t in NameSet(tables) then BrokenColumns(a.manifest.brokenEdges, t) else {}, schema, a);
      if t !in tables { assert BrokenColumns(a.manifest.brokenEdges, t) == {}; }
    }
  }

  lemma FirstUnreadableUnique(a: Artifact, t: string, u: string)
    requires FirstEdgeUnreadable(a, t) && FirstEdgeUnreadable(a, u)
    ensures t == u
  {
  }

  lemma RepairReadsAll(p: Progress, r: Progress, schema: Schema, a: Artifact, t: string)
    requires RepairEnded(p, r, EdgeTables(a.manifest.brokenEdges), schema, a)
    ensures r.error == None ==> !FirstEdgeUnreadable(a, t)
    ensures r.error == Some(UnreadableFile(t)) ==> FirstEdgeUnreadable(a, t)
  {
    var broken, tables := a.manifest.brokenEdges, EdgeTables(a.manifest.brokenEdges);
    assert forall i :: 0 <= i < |broken| ==> broken[i].table in tables;
    if k: nat :| FirstUnreadable(a, tables, k) && tables[k] == t { FirstTableIsFirstEdge(a, k); }
  }

  ghost predicate LoadPasses(schema: Schema, a: Artifact, start: Database) {
    forall j :: 0 <= j < |a.manifest.order| ==> Passes(schema, a, start, j)
  }

  lemma LoadPassesOrStops(schema: Schema, a: Artifact, start: Database)
    requires NoDuplicates(a.manifest.order)
    ensures var p := LoadTables(schema, a, a.manifest.order, Progress(start, 0, [], None));
            && (p.error == None <==> LoadPasses(schema, a, start))
            && forall e :: p.error == Some(e) <==> LoadStops(schema, a, start, e)
  {
    var p := LoadTables(schema, a, a.manifest.order, Progress(start, 0, [], None));
    LoadMeans(schema, a, start);
    EndedMeans(schema, a, start, p);
    forall e ensures p.error == Some(e) <==> LoadStops(schema, a, start, e) { LoadErrorIff(schema, a, start, e); }
    if LoadPasses(schema, a, start) && p.error.Some? { NoStop(schema, a, start, p.error.value); }
  }

  /**
   * Each error a restore can end with, and when: what the first table that cannot be
   * loaded stops at; or else, unless the repair ends at an UPDATE that the target
   * refuses, the first deferred edge whose table is listed without its file.
   */
  lemma RestoreErrorIff(schema: Schema, a: Artifact, start: Database, t: string)
    requires NoDuplicates(a.manifest.order)
    ensures var r := Restored(schema, a, start);
            && (r.error == Some(MissingEntry(t)) <==> LoadStops(schema, a, start, MissingEntry(t)))
            && (r.error == Some(NoSuchTable(t)) <==> LoadStops(schema, a, start, NoSuchTable(t)))
            && (r.error == Some(UnreadableFile(t)) <==>
                || LoadStops(schema, a, start, UnreadableFile(t))
                || (LoadPasses(schema, a, start) && FirstEdgeUnreadable(a, t)
                    && !exists u, edge: FkEdge, row :: r.error == Some(ForeignKeyViolation(u)) && edge.table == u && UpdateRefused(schema, a, r.db, edge, row)))
            && (LoadStops(schema, a, start, ForeignKeyViolation(t)) ==> r.error == Some(ForeignKeyViolation(t)))
            && (r.error == Some(ForeignKeyViolation(t)) ==>
                || LoadStops(schema, a, start, ForeignKeyViolation(t))
                || (LoadPasses(schema, a, start) && exists edge: FkEdge, row :: edge.table == t && UpdateRefused(schema, a, r.db, edge, row)))
            && (r.error == None ==> LoadPasses(schema, a, start) && !FirstEdgeUnreadable(a, t))
  {
    var p, r := LoadTables(schema, a, a.manifest.order, Progress(start, 0, [], None)), Restored(schema, a, start);
    LoadPassesOrStops(schema, a, start);
    RepairUnlessFailed(schema, a, start);
    if p.error.None? {
      RepairReadsAll(p, r, schema, a, t);
      if r.error.Some? && r.error.value.UnreadableFile? {
        RepairReadsAll(p, r, schema, a, r.error.value.table);
        if FirstEdgeUnreadable(a, t) { FirstUnreadableUnique(a, t, r.error.value.table); }
      }
    }
  }

  // ---------------------------------------------------------------- what no restore does

  lemma {:induction false} LoadTablesIntact(schema: Schema, a: Artifact, order: seq<string>, p: Progress)
    requires Intact(p.db, schema)
    ensures Intact(LoadTables(schema, a, order, p).db, schema)
  {
    if p.error.None? && order != [] { LoadTablesIntact(schema, a, order[1..], LoadTable(schema, a, order[0], p)); }
  }

  lemma {:induction false} RepairRowsIntact(schema: Schema, edge: FkEdge, rows: seq<Row>, p: Progress)
    requires Intact(p.db, schema)
    ensures Intact(RepairRows(schema, edge, rows, p).db, schema)
  {
    if p.error.None? && rows != [] { RepairRowsIntact(schema, edge, rows[1..], RepairRow(schema, edge, rows[0], p)); }
  }

  lemma {:induction false} RepairEdgesIntact(schema: Schema, edges: seq<FkEdge>, rows: seq<Row>, p: Progress)
    requires Intact(p.db, schema)
    ensures Intact(RepairEdges(schema, edges, rows, p).db, schema)
  {
    if p.error.None? && edges != [] {
      RepairRowsIntact(schema, edges[0], rows, p);
      RepairEdgesIntact(schema, edges[1..], rows, RepairRows(schema, edges[0], rows, p));
    }
  }

  lemma RepairTableIntact(schema: Schema, a: Artifact, table: string, p: Progress)
    requires Intact(p.db, schema)
    ensures Intact(RepairTable(schema, a, table, p).db, schema)
  {
    if table in a.manifest.tables && ReadRows(a, a.manifest.tables[table]).Some? {
      RepairEdgesIntact(schema, EdgesOf(a.manifest.brokenEdges, table), ReadRows(a, a.manifest.tables[table]).value, p);
    }
  }

  lemma {:induction false} RepairTablesIntact(schema: Schema, a: Artifact, tables: seq<string>, p: Progress)
    requires Intact(p.db, schema)
    ensures Intact(RepairTables(schema, a, tables, p).db, schema)
  {
    if p.error.None? && tables != [] {
      RepairTableIntact(schema, a, tables[0], p);
      RepairTablesIntact(schema, a, tables[1..], RepairTable(schema, a, tables[0], p));
    }
  }

  /** However a restore ends, with whatever artifact, a target whose constraints held keeps them. */
  lemma RestoreKeepsIntact(schema: Schema, a: Artifact, start: Database)
    requires Intact(start, schema)
    ensures Intact(Restored(schema, a, start).db, schema)
  {
    LoadTablesIntact(schema, a, a.manifest.order, Progress(start, 0, [], None));
    RepairTablesIntact(schema, a, EdgeTables(a.manifest.brokenEdges), LoadTables(schema, a, a.manifest.order, Progress(start, 0, [], None)));
  }
}
