/**
 * Restoring an artifact into an empty schema: insert every table in the
 * recorded order with the broken columns NULL, then repair those columns.
 */
module BackupRestore {
  import opened Common
  import opened Names
  import opened FkGraph
  import opened BackupArtifact

  /** A single-column foreign key of the schema, self-references included. */
  datatype ForeignKey = ForeignKey(table: string, column: string, refTable: string, refColumn: string)

  /** What introspection of the target schema yields, and the constraints the database itself enforces. */
  datatype Schema = Schema(columns: map<string, seq<string>>, pk: map<string, string>, foreignKeys: set<ForeignKey>)

  function ColumnsOf(schema: Schema, table: string): seq<string> {
    if table in schema.columns then schema.columns[table] else []
  }

  function PrimaryKeyOf(schema: Schema, table: string): string {
    if table in schema.pk then schema.pk[table] else "id"
  }

  ghost predicate HasKey(rows: seq<Row>, column: string, key: Value) {
    exists i :: 0 <= i < |rows| && Get(rows[i], column) == key
  }

  function RowsOf(db: Database, table: string): seq<Row> {
    if table in db then db[table] else []
  }

  /** Every non-NULL reference of `fk` points at a row that is present. */
  ghost predicate KeyHolds(db: Database, fk: ForeignKey) {
    forall i :: 0 <= i < |RowsOf(db, fk.table)| ==>
      Get(RowsOf(db, fk.table)[i], fk.column) == Null
      || HasKey(RowsOf(db, fk.refTable), fk.refColumn, Get(RowsOf(db, fk.table)[i], fk.column))
  }

  ghost predicate Intact(db: Database, schema: Schema) {
    forall fk :: fk in schema.foreignKeys ==> KeyHolds(db, fk)
  }

  // ---------------------------------------------------------------- statements

  function BrokenColumns(broken: seq<FkEdge>, table: string): set<string> {
    set b | b in broken && b.table == table :: b.column
  }

  /** The value list of one inserted row: NULL for a broken column, the dumped value otherwise. */
  function LoadRow(columns: seq<string>, brokenColumns: set<string>, row: Row): Row {
    map c | c in columns :: if c in brokenColumns then Null else Get(row, c)
  }

  function LoadRows(columns: seq<string>, brokenColumns: set<string>, rows: seq<Row>): (loaded: seq<Row>)
    ensures |loaded| == |rows|
    ensures forall i :: 0 <= i < |rows| ==> loaded[i] == LoadRow(columns, brokenColumns, rows[i])
  {
    if rows == [] then [] else [LoadRow(columns, brokenColumns, rows[0])] + LoadRows(columns, brokenColumns, rows[1..])
  }

  /** `WHERE pk = key` is never true of NULL. */
  predicate Matches(row: Row, pk: string, key: Value) {
    key != Null && Get(row, pk) == key
  }

  /** `UPDATE ... SET column = value WHERE pk = key`. */
  function UpdateRows(rows: seq<Row>, column: string, value: Value, pk: string, key: Value): (updated: seq<Row>)
    ensures |updated| == |rows|
    ensures forall i :: 0 <= i < |rows| ==>
              updated[i] == if Matches(rows[i], pk, key) then rows[i][column := value] else rows[i]
  {
    if rows == [] then []
    else [if Matches(rows[0], pk, key) then rows[0][column := value] else rows[0]] + UpdateRows(rows[1..], column, value, pk, key)
  }

  datatype RestoreError =
    | MissingEntry(table: string)
    | NoSuchTable(table: string)
    | UnreadableFile(table: string)
    | ForeignKeyViolation(table: string)

  /** Progress of a restore; after an error nothing more is executed and nothing is rolled back. */
  datatype Progress = Progress(db: Database, totalRows: nat, mismatches: seq<string>, error: Option<RestoreError>)

  /** A statement takes effect only if the database it leads to satisfies the constraints. */
  ghost function Execute(p: Progress, schema: Schema, table: string, rows: seq<Row>): Progress {
    var db := p.db[table := rows];
    if Intact(db, schema) then p.(db := db) else p.(error := Some(ForeignKeyViolation(table)))
  }

  // ---------------------------------------------------------------- the restore as a function

  /** The artifact as the restore reads it. */
  datatype Artifact = Artifact(manifest: Manifest, files: Files, codec: Codec)

  function ReadRows(a: Artifact, meta: TableMeta): Option<seq<Row>> {
    if meta.fileName in a.files then Some(ParseRows(a.codec, a.files[meta.fileName])) else None
  }

  ghost function LoadTable(schema: Schema, a: Artifact, table: string, p: Progress): Progress {
    if table !in a.manifest.tables then p.(error := Some(MissingEntry(table)))
    else if ColumnsOf(schema, table) == [] then p.(error := Some(NoSuchTable(table)))
    else
      var rows := ReadRows(a, a.manifest.tables[table]);
      if rows.None? then p.(error := Some(UnreadableFile(table)))
      else
        var loaded := LoadRows(ColumnsOf(schema, table), BrokenColumns(a.manifest.brokenEdges, table), rows.value);
        var q := if rows.value == [] then p else Execute(p, schema, table, RowsOf(p.db, table) + loaded);
        if q.error.Some? then q
        else Count(q, table, |rows.value|, a.manifest.tables[table].rowCount)
  }

  /** The row count after a table's INSERT, compared with the manifest. */
  function Count(p: Progress, table: string, rows: nat, expected: nat): Progress {
    var q := p.(totalRows := p.totalRows + rows);
    if |RowsOf(p.db, table)| != expected then q.(mismatches := q.mismatches + [table]) else q
  }

  ghost function LoadTables(schema: Schema, a: Artifact, order: seq<string>, p: Progress): Progress {
    if p.error.Some? || order == [] then p
    else LoadTables(schema, a, order[1..], LoadTable(schema, a, order[0], p))
  }

  ghost function RepairRow(schema: Schema, edge: FkEdge, row: Row, p: Progress): Progress {
    var pk := PrimaryKeyOf(schema, edge.table);
    if Get(row, edge.column) == Null then p
    else Execute(p, schema, edge.table,
                 UpdateRows(RowsOf(p.db, edge.table), edge.column, Get(row, edge.column), pk, Get(row, pk)))
  }

  ghost function RepairRows(schema: Schema, edge: FkEdge, rows: seq<Row>, p: Progress): Progress {
    if p.error.Some? || rows == [] then p
    else RepairRows(schema, edge, rows[1..], RepairRow(schema, edge, rows[0], p))
  }

  ghost function RepairEdges(schema: Schema, edges: seq<FkEdge>, rows: seq<Row>, p: Progress): Progress {
    if p.error.Some? || edges == [] then p
    else RepairEdges(schema, edges[1..], rows, RepairRows(schema, edges[0], rows, p))
  }

  /** `brokenByTable.get(table)`. */
  function EdgesOf(broken: seq<FkEdge>, table: string): (edges: seq<FkEdge>)
    ensures forall e :: e in edges <==> e in broken && e.table == table
  {
    if broken == [] then []
    else if broken[0].table == table then [broken[0]] + EdgesOf(broken[1..], table)
    else EdgesOf(broken[1..], table)
  }

  function EdgeTables(broken: seq<FkEdge>): (tables: seq<string>)
    ensures forall t :: t in tables <==> exists e :: e in broken && e.table == t
  {
    if broken == [] then []
    else
      var last := |broken| - 1;
      assert broken == broken[..last] + [broken[last]];
      var init := EdgeTables(broken[..last]);
      if broken[last].table in init then init else init + [broken[last].table]
  }

  ghost function RepairTable(schema: Schema, a: Artifact, table: string, p: Progress): Progress {
    if table !in a.manifest.tables then p
    else
      var rows := ReadRows(a, a.manifest.tables[table]);
      if rows.None? then p.(error := Some(UnreadableFile(table)))
      else RepairEdges(schema, EdgesOf(a.manifest.brokenEdges, table), rows.value, p)
  }

  ghost function RepairTables(schema: Schema, a: Artifact, tables: seq<string>, p: Progress): Progress {
    if p.error.Some? || tables == [] then p
    else RepairTables(schema, a, tables[1..], RepairTable(schema, a, tables[0], p))
  }

  ghost function Restored(schema: Schema, a: Artifact, db: Database): Progress {
    var loaded := LoadTables(schema, a, a.manifest.order, Progress(db, 0, [], None));
    RepairTables(schema, a, EdgeTables(a.manifest.brokenEdges), loaded)
  }

  // ---------------------------------------------------------------- the restore as a program

  /** The target schema in the database; each method is one statement sent to it. */
  class Target {
    const schema: Schema
    var data: Database

    constructor (schema: Schema, data: Database)
      ensures this.schema == schema && this.data == data
    {
      this.schema, this.data := schema, data;
    }

    method Insert(table: string, rows: seq<Row>) returns (ok: bool)
      modifies this
      ensures ok <==> Intact(old(data)[table := RowsOf(old(data), table) + rows], schema)
      ensures data == if ok then old(data)[table := RowsOf(old(data), table) + rows] else old(data)
    {
      var next := data[table := RowsOf(data, table) + rows];
      ok := CheckConstraints(next);
      if ok { data := next; }
    }

    method Update(table: string, column: string, value: Value, pk: string, key: Value) returns (ok: bool)
      modifies this
      ensures ok <==> Intact(old(data)[table := UpdateRows(RowsOf(old(data), table), column, value, pk, key)], schema)
      ensures data == if ok then old(data)[table := UpdateRows(RowsOf(old(data), table), column, value, pk, key)] else old(data)
    {
      var next := data[table := UpdateRows(RowsOf(data, table), column, value, pk, key)];
      ok := CheckConstraints(next);
      if ok { data := next; }
    }

    method CheckConstraints(db: Database) returns (ok: bool)
      ensures ok <==> Intact(db, schema)
    {
      ok := forall fk :: fk in schema.foreignKeys ==>
        forall i :: 0 <= i < |RowsOf(db, fk.table)| ==>
          Get(RowsOf(db, fk.table)[i], fk.column) == Null
          || (exists j :: 0 <= j < |RowsOf(db, fk.refTable)|
                          && Get(RowsOf(db, fk.refTable)[j], fk.refColumn) == Get(RowsOf(db, fk.table)[i], fk.column));
      assert ok <==> forall fk :: fk in schema.foreignKeys ==> KeyHolds(db, fk);
    }

    /** `restoreDirectoryIntoSchema`: what it returns or throws, and what the target holds afterwards. */
    method Restore(a: Artifact) returns (totalRows: nat, mismatches: seq<string>, error: Option<RestoreError>)
      modifies this
      ensures Progress(data, totalRows, mismatches, error) == Restored(schema, a, old(data))
    {
      totalRows, mismatches, error := LoadAll(a);
      if error.None? {
        error := RepairAll(a, totalRows, mismatches);
      }
    }

    method LoadAll(a: Artifact) returns (totalRows: nat, mismatches: seq<string>, error: Option<RestoreError>)
      modifies this
      ensures Progress(data, totalRows, mismatches, error)
           == LoadTables(schema, a, a.manifest.order, Progress(old(data), 0, [], None))
    {
      totalRows, mismatches, error := 0, [], None;
      var order := a.manifest.order;
      for i := 0 to |order|
        invariant LoadTables(schema, a, order[i..], Progress(data, totalRows, mismatches, error))
               == LoadTables(schema, a, order, Progress(old(data), 0, [], None))
        invariant error.None?
      {
        var table := order[i];
        DropHead(order, i);
        if table !in a.manifest.tables {
          error := Some(MissingEntry(table));
          return;
        }
        var meta := a.manifest.tables[table];
        var columns := ColumnsOf(schema, table);
        if columns == [] {
          error := Some(NoSuchTable(table));
          return;
        }
        var rows := ReadRows(a, meta);
        if rows.None? {
          error := Some(UnreadableFile(table));
          return;
        }
        if rows.value != [] {
          var ok := Insert(table, LoadRows(columns, BrokenColumns(a.manifest.brokenEdges, table), rows.value));
          if !ok {
            error := Some(ForeignKeyViolation(table));
            return;
          }
        }
        totalRows := totalRows + |rows.value|;
        if |RowsOf(data, table)| != meta.rowCount {
          mismatches := mismatches + [table];
        }
      }
      assert order[|order|..] == [];
    }

    method RepairAll(a: Artifact, ghost totalRows: nat, ghost mismatches: seq<string>) returns (error: Option<RestoreError>)
      modifies this
      ensures Progress(data, totalRows, mismatches, error)
           == RepairTables(schema, a, EdgeTables(a.manifest.brokenEdges), Progress(old(data), totalRows, mismatches, None))
    {
      error := None;
      var tables := EdgeTables(a.manifest.brokenEdges);
      for i := 0 to |tables|
        invariant RepairTables(schema, a, tables[i..], Progress(data, totalRows, mismatches, None))
               == RepairTables(schema, a, tables, Progress(old(data), totalRows, mismatches, None))
        invariant error.None?
      {
        var table := tables[i];
        assert tables[i..][0] == table && tables[i..][1..] == tables[i + 1..];
        if table in a.manifest.tables {
          var rows := ReadRows(a, a.manifest.tables[table]);
          if rows.None? {
            error := Some(UnreadableFile(table));
            return;
          }
          error := RepairColumns(EdgesOf(a.manifest.brokenEdges, table), rows.value, totalRows, mismatches);
          if error.Some? {
            return;
          }
        }
      }
      assert tables[|tables|..] == [];
    }

    method RepairColumns(edges: seq<FkEdge>, rows: seq<Row>, ghost totalRows: nat, ghost mismatches: seq<string>)
      returns (error: Option<RestoreError>)
      modifies this
      ensures Progress(data, totalRows, mismatches, error)
           == RepairEdges(schema, edges, rows, Progress(old(data), totalRows, mismatches, None))
    {
      error := None;
      for i := 0 to |edges|
        invariant RepairEdges(schema, edges[i..], rows, Progress(data, totalRows, mismatches, None))
               == RepairEdges(schema, edges, rows, Progress(old(data), totalRows, mismatches, None))
        invariant error.None?
      {
        assert edges[i..][0] == edges[i] && edges[i..][1..] == edges[i + 1..];
        error := RepairColumn(edges[i], rows, totalRows, mismatches);
        if error.Some? {
          return;
        }
      }
      assert edges[|edges|..] == [];
    }

    method RepairColumn(edge: FkEdge, rows: seq<Row>, ghost totalRows: nat, ghost mismatches: seq<string>)
      returns (error: Option<RestoreError>)
      modifies this
      ensures Progress(data, totalRows, mismatches, error)
           == RepairRows(schema, edge, rows, Progress(old(data), totalRows, mismatches, None))
    {
      error := None;
      var pk := PrimaryKeyOf(schema, edge.table);
      for i := 0 to |rows|
        invariant RepairRows(schema, edge, rows[i..], Progress(data, totalRows, mismatches, None))
               == RepairRows(schema, edge, rows, Progress(old(data), totalRows, mismatches, None))
        invariant error.None?
      {
        assert rows[i..][0] == rows[i] && rows[i..][1..] == rows[i + 1..];
        var value := Get(rows[i], edge.column);
        if value != Null {
          var ok := Update(edge.table, edge.column, value, pk, Get(rows[i], pk));
          if !ok {
            error := Some(ForeignKeyViolation(edge.table));
            return;
          }
        }
      }
      assert rows[|rows|..] == [];
    }
  }
}
