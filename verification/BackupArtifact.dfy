/**
 * The backup artifact on disk: one newline-delimited file per table and a
 * manifest with row counts, checksums, the restore order and the broken edges.
 */
module BackupArtifact {
  import opened Common
  import opened Names
  import opened FkGraph

  /** A column value; what a non-NULL value is made of does not matter here. */
  datatype Value = Null | Data(repr: string)

  type Row = map<string, Value>
  type Database = map<string, seq<Row>>

  /** `row[column] ?? null`. */
  function Get(row: Row, column: string): Value {
    if column in row then row[column] else Null
  }

  /** `JSON.stringify` and `JSON.parse` on rows. */
  datatype Codec = Codec(encode: Row -> string, decode: string -> Row)

  /** What JSON promises: parsing undoes printing, and a printed row is one line that is not blank. */
  ghost predicate Faithful(codec: Codec) {
    forall row :: IsLine(codec.encode(row)) && codec.decode(codec.encode(row)) == row
  }

  predicate IsSpace(c: char) {
    c == ' ' || c == '\t' || c == '\n' || c == '\r' || c == '\U{0B}' || c == '\U{0C}' || c == '\U{A0}' || c == '\U{FEFF}'
  }

  predicate Blank(line: string) {
    forall c :: c in line ==> IsSpace(c)
  }

  predicate IsLine(line: string) {
    '\n' !in line && !Blank(line)
  }

  // ---------------------------------------------------------------- line framing

  /** Each line followed by a newline, as the write stream emits them. */
  function JoinLines(lines: seq<string>): string {
    if lines == [] then "" else lines[0] + "\n" + JoinLines(lines[1..])
  }

  /** `text.split('\n')`. */
  function SplitLines(text: string): (lines: seq<string>)
    ensures lines != []
  {
    if text == "" then [""]
    else
      var rest := SplitLines(text[1..]);
      if text[0] == '\n' then [""] + rest else [[text[0]] + rest[0]] + rest[1..]
  }

  function DropBlank(lines: seq<string>): seq<string> {
    if lines == [] then []
    else if Blank(lines[0]) then DropBlank(lines[1..])
    else [lines[0]] + DropBlank(lines[1..])
  }

  function DecodeLines(codec: Codec, lines: seq<string>): seq<Row> {
    if lines == [] then [] else [codec.decode(lines[0])] + DecodeLines(codec, lines[1..])
  }

  function EncodeRows(codec: Codec, rows: seq<Row>): seq<string> {
    if rows == [] then [] else [codec.encode(rows[0])] + EncodeRows(codec, rows[1..])
  }

  /** `readTableRows` on an unencrypted file. */
  function ParseRows(codec: Codec, text: string): seq<Row> {
    DecodeLines(codec, DropBlank(SplitLines(text)))
  }

  function PrintRows(codec: Codec, rows: seq<Row>): string {
    JoinLines(EncodeRows(codec, rows))
  }

  lemma {:induction false} SplitAfterLine(line: string, text: string)
    requires '\n' !in line
    ensures SplitLines(line + "\n" + text) == [line] + SplitLines(text)
  {
    var whole := line + "\n" + text;
    if line == "" {
      assert whole[1..] == text;
    } else {
      SplitAfterLine(line[1..], text);
      assert whole[1..] == line[1..] + "\n" + text;
      assert [whole[0]] + line[1..] == line;
    }
  }

  lemma {:induction false} FramingRoundTrip(lines: seq<string>)
    requires forall l :: l in lines ==> IsLine(l)
    ensures DropBlank(SplitLines(JoinLines(lines))) == lines
  {
    if lines == [] {
      assert DropBlank([""]) == DropBlank([""][1..]) == [];
    } else {
      assert IsLine(lines[0]);
      SplitAfterLine(lines[0], JoinLines(lines[1..]));
      FramingRoundTrip(lines[1..]);
      var split := SplitLines(JoinLines(lines));
      assert split[0] == lines[0] && split[1..] == SplitLines(JoinLines(lines[1..]));
    }
  }

  lemma {:induction false} EncodedLines(codec: Codec, rows: seq<Row>)
    requires Faithful(codec)
    ensures forall l :: l in EncodeRows(codec, rows) ==> IsLine(l)
    ensures DecodeLines(codec, EncodeRows(codec, rows)) == rows
  {
    if rows != [] {
      EncodedLines(codec, rows[1..]);
      var lines := EncodeRows(codec, rows);
      assert lines[0] == codec.encode(rows[0]) && lines[1..] == EncodeRows(codec, rows[1..]);
    }
  }

  /** Reading a table file gives back the rows it was written from. */
  lemma TableFileRoundTrip(codec: Codec, rows: seq<Row>)
    requires Faithful(codec)
    ensures ParseRows(codec, PrintRows(codec, rows)) == rows
  {
    EncodedLines(codec, rows);
    FramingRoundTrip(EncodeRows(codec, rows));
  }

  // ---------------------------------------------------------------- manifest

  datatype TableMeta = TableMeta(rowCount: nat, checksum: string, fileName: string)

  datatype Manifest = Manifest(order: seq<string>, brokenEdges: seq<FkEdge>, tables: map<string, TableMeta>)

  type Files = map<string, string>

  function TableFileName(table: string): string {
    table + ".ndjson"
  }

  lemma FileNamesDiffer(a: string, b: string)
    requires a != b
    ensures TableFileName(a) != TableFileName(b)
  {
    assert a == TableFileName(a)[..|a|];
    assert b == TableFileName(b)[..|b|];
    assert |TableFileName(a)| == |a| + 7 && |TableFileName(b)| == |b| + 7;
  }

  function TotalRows(db: Database, order: seq<string>): nat
    requires NameSet(order) <= db.Keys
  {
    if order == [] then 0
    else
      var last := |order| - 1;
      assert order[last] in NameSet(order) && NameSet(order[..last]) <= NameSet(order);
      TotalRows(db, order[..last]) + |db[order[last]]|
  }

  ghost predicate Describes(manifest: Manifest, files: Files, db: Database, order: seq<string>, codec: Codec, hash: string -> string) {
    && manifest.tables.Keys == NameSet(order) <= db.Keys
    && forall t :: t in order ==>
         && TableFileName(t) in files
         && files[TableFileName(t)] == PrintRows(codec, db[t])
         && manifest.tables[t] == TableMeta(|db[t]|, hash(files[TableFileName(t)]), TableFileName(t))
  }

  lemma DescribesOneMore(order: seq<string>, table: string, broken: seq<FkEdge>, tables: map<string, TableMeta>, files: Files,
                         db: Database, codec: Codec, hash: string -> string)
    requires Describes(Manifest([], broken, tables), files, db, order, codec, hash) && table in db
    ensures var text := PrintRows(codec, db[table]);
            Describes(Manifest([], broken, tables[table := TableMeta(|db[table]|, hash(text), TableFileName(table))]),
                      files[TableFileName(table) := text], db, order + [table], codec, hash)
  {
    var text := PrintRows(codec, db[table]);
    var files' := files[TableFileName(table) := text];
    forall t | t in order && t != table ensures TableFileName(t) in files' && files'[TableFileName(t)] == files[TableFileName(t)] {
      FileNamesDiffer(t, table);
    }
  }

  /** Dumps every table of `order`; the checksum is taken of the file as written. */
  method DumpDatabase(db: Database, order: seq<string>, brokenEdges: seq<FkEdge>, codec: Codec, hash: string -> string)
    returns (manifest: Manifest, files: Files, totalRows: nat)
    requires NameSet(order) <= db.Keys
    ensures manifest.order == order && manifest.brokenEdges == brokenEdges
    ensures Describes(manifest, files, db, order, codec, hash)
    ensures totalRows == TotalRows(db, order)
  {
    var tables: map<string, TableMeta> := map[];
    files := map[];
    totalRows := 0;
    for i := 0 to |order|
      invariant NameSet(order[..i]) <= db.Keys
      invariant Describes(Manifest([], brokenEdges, tables), files, db, order[..i], codec, hash)
      invariant totalRows == TotalRows(db, order[..i])
    {
      var table := order[i];
      assert table in NameSet(order);
      assert order[..i + 1] == order[..i] + [table];
      assert order[..i + 1][..i] == order[..i];
      var text := WriteLines(codec, db[table]);
      DescribesOneMore(order[..i], table, brokenEdges, tables, files, db, codec, hash);
      files := files[TableFileName(table) := text];
      tables := tables[table := TableMeta(|db[table]|, hash(text), TableFileName(table))];
      totalRows := totalRows + |db[table]|;
    }
    assert order[..|order|] == order;
    manifest := Manifest(order, brokenEdges, tables);
  }

  method WriteLines(codec: Codec, rows: seq<Row>) returns (text: string)
    ensures text == PrintRows(codec, rows)
  {
    text := "";
    for i := 0 to |rows|
      invariant text + PrintRows(codec, rows[i..]) == PrintRows(codec, rows)
    {
      assert rows[i..][0] == rows[i] && rows[i..][1..] == rows[i + 1..];
      ghost var lines := EncodeRows(codec, rows[i..]);
      assert lines[1..] == EncodeRows(codec, rows[i + 1..]);
      text := text + (codec.encode(rows[i]) + "\n");
    }
  }

  // ---------------------------------------------------------------- verifyBackupIntegrity

  /** A table of the manifest whose file is missing, unlisted or altered. */
  predicate Corrupt(manifest: Manifest, files: Files, hash: string -> string, table: string) {
    || table !in manifest.tables
    || manifest.tables[table].fileName !in files
    || hash(files[manifest.tables[table].fileName]) != manifest.tables[table].checksum
  }

  method VerifyBackupIntegrity(manifest: Manifest, files: Files, hash: string -> string) returns (ok: bool, problems: seq<string>)
    ensures forall t :: t in problems <==>
              t in manifest.order
              && !(&& t in manifest.tables && manifest.tables[t].fileName in files
                   && hash(files[manifest.tables[t].fileName]) == manifest.tables[t].checksum)
    ensures ok <==> problems == []
    ensures ok <==> forall t :: t in manifest.order ==> !Corrupt(manifest, files, hash, t)
  {
    problems := [];
    for i := 0 to |manifest.order|
      invariant forall t :: t in problems <==> t in manifest.order[..i] && Corrupt(manifest, files, hash, t)
    {
      var table := manifest.order[i];
      assert manifest.order[..i + 1] == manifest.order[..i] + [table];
      if table !in manifest.tables {
        problems := problems + [table];
      } else if manifest.tables[table].fileName !in files {
        problems := problems + [table];
      } else if hash(files[manifest.tables[table].fileName]) != manifest.tables[table].checksum {
        problems := problems + [table];
      }
    }
    assert manifest.order[..|manifest.order|] == manifest.order;
    ok := problems == [];
    assert problems != [] ==> problems[0] in problems;
  }

  /** `stored` holds no text that differs from the dumped one yet has its checksum. */
  ghost predicate NoCollision(order: seq<string>, files: Files, stored: Files, hash: string -> string) {
    forall t :: t in order && TableFileName(t) in files && TableFileName(t) in stored ==>
      (hash(stored[TableFileName(t)]) == hash(files[TableFileName(t)]) ==> stored[TableFileName(t)] == files[TableFileName(t)])
  }

  /** The stored manifest may have lost entries, but has no others. */
  ghost predicate SomeEntriesOf(kept: Manifest, manifest: Manifest) {
    kept.order == manifest.order && forall t :: t in kept.tables ==> t in manifest.tables && kept.tables[t] == manifest.tables[t]
  }

  /** The check passes on a directory exactly when it still holds the dump with every entry, checksum collisions aside. */
  lemma VerifiedIffUnaltered(manifest: Manifest, kept: Manifest, files: Files, stored: Files, db: Database, codec: Codec, hash: string -> string)
    requires Describes(manifest, files, db, manifest.order, codec, hash) && SomeEntriesOf(kept, manifest)
    requires NoCollision(manifest.order, files, stored, hash)
    ensures (forall t :: t in kept.order ==> !Corrupt(kept, stored, hash, t))
       <==> kept.tables == manifest.tables && Describes(kept, stored, db, kept.order, codec, hash)
  {
    if forall t :: t in kept.order ==> !Corrupt(kept, stored, hash, t) {
      forall t | t in manifest.order ensures t in kept.tables && TableFileName(t) in stored && stored[TableFileName(t)] == files[TableFileName(t)] {
        assert !Corrupt(kept, stored, hash, t);
      }
      assert kept.tables.Keys == manifest.tables.Keys;
    }
  }
}
