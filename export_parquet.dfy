/** The per-table Parquet export: table enumeration and exclusion, the schema
    definition built from the column catalog, the write / upload / unlink
    sequence for one table, and the loop over all tables with its per-table
    failure isolation.

    The database, the Parquet writer, S3 and the clock are not modelled as
    code: what each of them does for the k-th table of a run (return a value
    or throw) is given by `Environment.stages(k)`. */
module ExportParquet {
  import opened Wrappers
  import opened Text
  import opened Utils

  // ---------------------------------------------------------------------------
  // Values exchanged with the database
  // ---------------------------------------------------------------------------

  /** A row of `information_schema.tables`. */
  datatype TableRow = TableRow(tableSchema: string, tableName: string)

  /** A row of `information_schema.columns`; `isNullable` is the catalog's
      'YES' / 'NO' text. */
  datatype ColumnRow = ColumnRow(columnName: string, dataType: string, isNullable: string)

  /** A value of one column of a data row, as the database driver returns it. */
  datatype Cell = NullCell | TextCell(text: string) | NumberCell(number: int) | BoolCell(flag: bool)

  /** A data row: column name to value. */
  type Row = map<string, Cell>

  // ---------------------------------------------------------------------------
  // Table enumeration
  // ---------------------------------------------------------------------------

  /** The fixed list of qualified names that are never exported. */
  const ExcludeTables: seq<string> :=
    ["core.spatial_ref_sys", "core.gongsilclub_sigungu", "core.gongsilclub_dong",
     "core.gongsilclub_block", "core.gongsilclub_sido"]

  function QualifiedName(row: TableRow): string {
    row.tableSchema + "." + row.tableName
  }

  /** `getAllTables`: one `schema.table` name per catalog row, in row order. */
  function QualifiedNames(rows: seq<TableRow>): (names: seq<string>)
    ensures |names| == |rows|
    ensures forall i :: 0 <= i < |rows| ==> names[i] == QualifiedName(rows[i])
  {
    seq(|rows|, i requires 0 <= i < |rows| => QualifiedName(rows[i]))
  }

  /** `excludeTables.includes(table)`: exact string equality, no patterns. */
  predicate IsExcluded(table: string) {
    table in ExcludeTables
  }

  /** The `filter` of `exportParquet`: the enumerated names that are not
      excluded, in catalog order. */
  function TablesToExport(allTables: seq<string>): (r: seq<string>)
    ensures forall t :: t in r <==> t in allTables && !IsExcluded(t)
  {
    if allTables == [] then []
    else
      var rest := TablesToExport(allTables[1..]);
      assert allTables == [allTables[0]] + allTables[1..];
      if IsExcluded(allTables[0]) then rest else [allTables[0]] + rest
  }

  /** Every occurrence of a name that is not excluded is kept, duplicates
      included; every occurrence of an excluded name is dropped. */
  lemma {:induction false} TablesToExportCounts(allTables: seq<string>)
    ensures forall t :: multiset(TablesToExport(allTables))[t] == if IsExcluded(t) then 0 else multiset(allTables)[t]
  {
    if allTables != [] {
      TablesToExportCounts(allTables[1..]);
      assert allTables == [allTables[0]] + allTables[1..];
    }
  }

  /** `idx` places each element of `sub` at a strictly increasing position of
      `all`: `sub` is `all` with some elements dropped, order kept. */
  ghost predicate OrderEmbedding(idx: seq<nat>, sub: seq<string>, all: seq<string>) {
    && |idx| == |sub|
    && (forall i :: 0 <= i < |idx| ==> idx[i] < |all| && sub[i] == all[idx[i]])
    && (forall i, j :: 0 <= i < j < |idx| ==> idx[i] < idx[j])
  }

  function Shift(idx: seq<nat>): (r: seq<nat>)
    ensures |r| == |idx| && forall i :: 0 <= i < |idx| ==> r[i] == idx[i] + 1
  {
    seq(|idx|, i requires 0 <= i < |idx| => idx[i] + 1)
  }

  lemma {:induction false} EmbeddingSkip(idx: seq<nat>, sub: seq<string>, all: seq<string>, x: string)
    requires OrderEmbedding(idx, sub, all)
    ensures OrderEmbedding(Shift(idx), sub, [x] + all)
  {
  }

  lemma {:induction false} EmbeddingKeep(idx: seq<nat>, sub: seq<string>, all: seq<string>, x: string)
    requires OrderEmbedding(idx, sub, all)
    ensures OrderEmbedding([0] + Shift(idx), [x] + sub, [x] + all)
  {
    var r := [0] + Shift(idx);
    assert forall i :: 1 <= i < |r| ==> r[i] == idx[i - 1] + 1;
  }

  /** The filter keeps the catalog order. */
  lemma {:induction false} TablesToExportKeepsOrder(allTables: seq<string>)
    ensures exists idx :: OrderEmbedding(idx, TablesToExport(allTables), allTables)
  {
    if allTables == [] {
      assert OrderEmbedding([], TablesToExport(allTables), allTables);
    } else {
      var rest := TablesToExport(allTables[1..]);
      TablesToExportKeepsOrder(allTables[1..]);
      var idx :| OrderEmbedding(idx, rest, allTables[1..]);
      assert allTables == [allTables[0]] + allTables[1..];
      if IsExcluded(allTables[0]) {
        EmbeddingSkip(idx, rest, allTables[1..], allTables[0]);
        assert OrderEmbedding(Shift(idx), TablesToExport(allTables), allTables);
      } else {
        EmbeddingKeep(idx, rest, allTables[1..], allTables[0]);
        assert OrderEmbedding([0] + Shift(idx), TablesToExport(allTables), allTables);
      }
    }
  }

  /** Exclusion is exact: another case or another schema is exported; only
      the listed spelling is dropped. */
  lemma {:induction false} ExclusionIsExact()
    ensures TablesToExport(["core.spatial_ref_sys", "core.SPATIAL_REF_SYS", "public.spatial_ref_sys"])
            == ["core.SPATIAL_REF_SYS", "public.spatial_ref_sys"]
  {
    var all := ["core.spatial_ref_sys", "core.SPATIAL_REF_SYS", "public.spatial_ref_sys"];
    assert all[1..] == ["core.SPATIAL_REF_SYS", "public.spatial_ref_sys"];
    assert all[1..][1..] == ["public.spatial_ref_sys"];
  }

  // ---------------------------------------------------------------------------
  // Table names
  // ---------------------------------------------------------------------------

  /** `table.split('.')[1]`: the second `.`-separated component of a qualified
      name; JavaScript yields `undefined` when there is none, which the
      template strings print as "undefined". */
  function TableNameOnly(table: string): (name: string)
    ensures '.' !in name
  {
    var parts := Split(table, '.');
    SplitPiecesLackSeparator(table, '.');
    if |parts| >= 2 then parts[1] else "undefined"
  }

  /** For a schema without dots, the name taken back out of `schema.table` is
      the table name up to its first dot. */
  lemma {:induction false} TableNameOnlyOfQualified(row: TableRow)
    requires '.' !in row.tableSchema
    ensures TableNameOnly(QualifiedName(row)) == Split(row.tableName, '.')[0]
  {
    SplitAround(row.tableSchema, row.tableName, '.');
    SplitNoSeparator(row.tableSchema, '.');
  }

  /** Without dots in either part, the table name is recovered exactly. */
  lemma {:induction false} TableNameOnlyRecoversName(row: TableRow)
    requires '.' !in row.tableSchema && '.' !in row.tableName
    ensures TableNameOnly(QualifiedName(row)) == row.tableName
  {
    TableNameOnlyOfQualified(row);
    SplitNoSeparator(row.tableName, '.');
  }

  /** A table whose name contains a dot is cut at that dot, so two different
      tables (`s.a.b` and `s.a`) share a local file and an upload key. */
  lemma {:induction false} DottedTableNameIsCut(schema: string, a: string, b: string)
    requires '.' !in schema && '.' !in a
    ensures TableNameOnly(QualifiedName(TableRow(schema, a + "." + b))) == a
    ensures TableNameOnly(QualifiedName(TableRow(schema, a))) == a
  {
    TableNameOnlyOfQualified(TableRow(schema, a + "." + b));
    TableNameOnlyRecoversName(TableRow(schema, a));
    SplitAround(a, b, '.');
    SplitNoSeparator(a, '.');
  }

  function LocalPath(tableNameOnly: string): (path: string)
    ensures |path| == |tableNameOnly| + 13
    ensures path[..5] == "/tmp/" && path[|path| - 8..] == ".parquet"
  {
    "/tmp/" + tableNameOnly + ".parquet"
  }

  /** `${s3Prefix}/${tableNameOnly}.parquet` */
  function UploadKey(prefix: string, tableNameOnly: string): (key: string)
    ensures |key| == |prefix| + |tableNameOnly| + 9
    ensures key[..|prefix| + 1] == prefix + "/" && key[|key| - 8..] == ".parquet"
  {
    prefix + "/" + tableNameOnly + ".parquet"
  }

  /** Different table names never share a local file. */
  lemma {:induction false} LocalPathInjective(a: string, b: string)
    requires a != b
    ensures LocalPath(a) != LocalPath(b)
  {
    LocalPathNamesTable(a);
    LocalPathNamesTable(b);
  }

  /** The table name stands between the "/tmp/" prefix and the ".parquet" suffix. */
  lemma {:induction false} LocalPathNamesTable(a: string)
    ensures |LocalPath(a)| == |a| + 13 && LocalPath(a)[5..5 + |a|] == a
  {
  }

  /** Reads the date partition back out of an upload key: the three components
      before the file name. */
  function UploadDateOf(key: string): Option<UtcDate> {
    var parts := Split(key, '/');
    if |parts| < 4 then None
    else DateOfComponents(parts[|parts| - 4], parts[|parts| - 3], parts[|parts| - 2])
  }

  /** The components of an upload key: the root's, the zero-filled date, then the
      file name; and the date reads back from the key. */
  lemma {:induction false} UploadKeyRoundTrip(database: string, root: string, now: UtcDate, tableNameOnly: string)
    requires '/' !in tableNameOnly
    ensures var key := UploadKey(GenerateBackupPath(database, root, now), tableNameOnly);
            && Split(key, '/')
               == (if root == "" then [] else Split(root, '/'))
                  + [ZeroFill(now.year, 4), ZeroFill(now.month, 2), ZeroFill(now.day, 2), tableNameOnly + ".parquet"]
            && UploadDateOf(key) == Some(now)
  {
    var prefix := GenerateBackupPath(database, root, now);
    var file := tableNameOnly + ".parquet";
    assert '/' !in file;
    assert UploadKey(prefix, tableNameOnly) == prefix + ['/'] + file;
    SplitAround(prefix, file, '/');
    SplitNoSeparator(file, '/');
    BackupPathComponents(database, root, now);
    ParseZeroFill(now.year, 4);
    ParseZeroFill(now.month, 2);
    ParseZeroFill(now.day, 2);
  }

  // ---------------------------------------------------------------------------
  // Schema definition
  // ---------------------------------------------------------------------------

  /** The descriptor of one catalog column: nullable exactly when the catalog
      says 'YES'. */
  function FieldFor(column: ColumnRow): (f: FieldDescriptor)
    ensures f.hasOptional <==> column.isNullable == "YES"
    ensures f.kind == MapPostgresTypeToParquet(column.dataType, false).kind
  {
    MapPostgresTypeToParquet(column.dataType, column.isNullable == "YES")
  }

  /** The dictionary the `reduce` accumulates: column by column, in catalog
      order, each assignment overwriting an earlier one of the same name. */
  function SchemaDefinition(columns: seq<ColumnRow>): (definition: map<string, FieldDescriptor>)
    ensures |definition.Keys| <= |columns|
  {
    if columns == [] then map[]
    else
      var last := columns[|columns| - 1];
      SchemaDefinition(columns[..|columns| - 1])[last.columnName := FieldFor(last)]
  }

  /** Column `i` is the last one carrying its name. */
  ghost predicate LastOfName(columns: seq<ColumnRow>, i: int)
    requires 0 <= i < |columns|
  {
    forall j :: i < j < |columns| ==> columns[j].columnName != columns[i].columnName
  }

  /** The names of a column list are those of all but its last column, and
      the last column's. */
  lemma {:induction false} ColumnNamesSnoc(columns: seq<ColumnRow>)
    requires columns != []
    ensures (set c | c in columns :: c.columnName)
         == (set c | c in columns[..|columns| - 1] :: c.columnName) + {columns[|columns| - 1].columnName}
  {
    var n := |columns| - 1;
    var names := set c | c in columns :: c.columnName;
    var expected := (set c | c in columns[..n] :: c.columnName) + {columns[n].columnName};
    forall x | x in names ensures x in expected {
      var c :| c in columns && c.columnName == x;
      var i :| 0 <= i < |columns| && columns[i] == c;
      if i < n {
        assert columns[..n][i] == c;
      }
    }
  }

  /** The keys are exactly the column names. */
  lemma {:induction false} SchemaDefinitionKeys(columns: seq<ColumnRow>)
    ensures SchemaDefinition(columns).Keys == set c | c in columns :: c.columnName
  {
    hide FieldFor;
    if columns != [] {
      SchemaDefinitionKeys(columns[..|columns| - 1]);
      ColumnNamesSnoc(columns);
    }
  }

  /** A column that is last of its name before the final column is also last
      of its name without it, and the final column has another name. */
  lemma {:induction false} LastOfNameInFront(columns: seq<ColumnRow>, i: nat)
    requires i < |columns| - 1 && LastOfName(columns, i)
    ensures LastOfName(columns[..|columns| - 1], i)
    ensures columns[|columns| - 1].columnName != columns[i].columnName
  {
    var front := columns[..|columns| - 1];
    forall j | i < j < |front| ensures front[j].columnName != front[i].columnName {
      assert columns[j].columnName != columns[i].columnName;
    }
  }

  /** One step of the `reduce`: the last column's assignment. */
  lemma {:induction false} SchemaDefinitionSnoc(columns: seq<ColumnRow>)
    requires columns != []
    ensures SchemaDefinition(columns)
         == SchemaDefinition(columns[..|columns| - 1])[columns[|columns| - 1].columnName := FieldFor(columns[|columns| - 1])]
  {
    hide FieldFor;
  }

  /** The last column of its name is the one whose descriptor is kept. */
  lemma {:induction false} SchemaDefinitionLastWins(columns: seq<ColumnRow>, i: nat)
    requires i < |columns| && LastOfName(columns, i)
    ensures columns[i].columnName in SchemaDefinition(columns)
    ensures SchemaDefinition(columns)[columns[i].columnName] == FieldFor(columns[i])
  {
    // One step of the `reduce` is all this proof needs of the definitions.
    hide *;
    var n := |columns| - 1;
    SchemaDefinitionSnoc(columns);
    if i < n {
      LastOfNameInFront(columns, i);
      SchemaDefinitionLastWins(columns[..n], i);
    }
  }

  /** One entry per distinct column name, holding the descriptor of the last
      column of that name. */
  lemma {:induction false} SchemaDefinitionEntries(columns: seq<ColumnRow>)
    ensures SchemaDefinition(columns).Keys == set c | c in columns :: c.columnName
    ensures forall i :: 0 <= i < |columns| && LastOfName(columns, i) ==>
              SchemaDefinition(columns)[columns[i].columnName] == FieldFor(columns[i])
  {
    SchemaDefinitionKeys(columns);
    forall i | 0 <= i < |columns| && LastOfName(columns, i)
      ensures SchemaDefinition(columns)[columns[i].columnName] == FieldFor(columns[i])
    {
      SchemaDefinitionLastWins(columns, i);
    }
  }

  /** `columnDetails.reduce(...)`: the schema definition, built column by column
      in catalog order. */
  method BuildSchemaDefinition(columns: seq<ColumnRow>) returns (definition: map<string, FieldDescriptor>)
    ensures definition == SchemaDefinition(columns)
  {
    definition := map[];
    for i := 0 to |columns|
      invariant definition == SchemaDefinition(columns[..i])
    {
      assert columns[..i + 1][..i] == columns[..i];
      definition := definition[columns[i].columnName := FieldFor(columns[i])];
    }
    assert columns[..|columns|] == columns;
  }

  // ---------------------------------------------------------------------------
  // The outside world, as oracles
  // ---------------------------------------------------------------------------

  /** What the stages of one table do; `None` or `false` means the stage threw. */
  datatype TableStages = TableStages(
    columns: Option<seq<ColumnRow>>,  // getColumnDetails
    rows: Option<seq<Row>>,           // fetchTableData
    now: UtcDate,                     // moment().utc() inside generateBackupPath
    schemaAccepted: bool,             // new ParquetSchema(schemaDefinition)
    fileOpened: bool,                 // ParquetWriter.openFile, creating the local file
    rejectedRow: Option<nat>,         // index of the row whose appendRow throws, if any
    closed: bool,                     // writer.close()
    uploaded: bool)                   // s3.upload(...).promise()

  /** One run's environment: `process.env.PGDATABASE`, `process.env.ROOT` ("" when
      unset), the table enumeration (None: the query threw) and the stages of
      the k-th attempted table. */
  datatype Environment = Environment(
    database: string,
    root: string,
    catalog: Option<seq<TableRow>>,
    stages: nat -> TableStages)

  /** Why a table was not exported (the stage that threw). */
  datatype Failure =
    | ColumnQueryFailed | DataQueryFailed | SchemaRejected | OpenFailed
    | RowRejected(index: nat) | CloseFailed | UploadFailed

  /** A finished local file: its schema and the rows appended to it, in order. */
  datatype Artifact = Artifact(schema: map<string, FieldDescriptor>, rows: seq<Row>)

  /** An object put to the bucket. */
  datatype Upload = Upload(key: string, body: Artifact)

  /** The end of one table's `try` block.  `leftTempFile` says whether the
      failing stage came after the local file had been created. */
  datatype TableOutcome = Exported(upload: Upload) | Failed(reason: Failure, leftTempFile: bool)

  /** `{ statusCode, body }` */
  datatype Response = Response(statusCode: int, body: string)

  // ---------------------------------------------------------------------------
  // Specification of one table and of the whole loop
  // ---------------------------------------------------------------------------

  /** What `saveToParquet` does, as a value. */
  function SaveOutcome(columns: seq<ColumnRow>, rows: seq<Row>, tableNameOnly: string,
                       env: Environment, st: TableStages): (outcome: TableOutcome)
    ensures outcome.Exported? <==>
              st.schemaAccepted && st.fileOpened && (st.rejectedRow.None? || st.rejectedRow.value >= |rows|)
              && st.closed && st.uploaded
    ensures outcome.Failed? ==> (outcome.leftTempFile <==> st.schemaAccepted && st.fileOpened)
  {
    if !st.schemaAccepted then Failed(SchemaRejected, false)
    else if !st.fileOpened then Failed(OpenFailed, false)
    else if st.rejectedRow.Some? && st.rejectedRow.value < |rows| then Failed(RowRejected(st.rejectedRow.value), true)
    else if !st.closed then Failed(CloseFailed, true)
    else if !st.uploaded then Failed(UploadFailed, true)
    else
      var prefix := GenerateBackupPath(env.database, env.root, st.now);
      Exported(Upload(UploadKey(prefix, tableNameOnly), Artifact(SchemaDefinition(columns), rows)))
  }

  /** What the `try` block of one table does, as a value. */
  function TableOutcomeOf(table: string, env: Environment, st: TableStages): (outcome: TableOutcome)
    ensures st.columns.None? || st.rows.None? ==> outcome.Failed? && !outcome.leftTempFile
    ensures outcome.Exported? ==> st.columns.Some? && st.rows.Some?
  {
    match st.columns
    case None => Failed(ColumnQueryFailed, false)
    case Some(columns) =>
      match st.rows
      case None => Failed(DataQueryFailed, false)
      case Some(rows) => SaveOutcome(columns, rows, TableNameOnly(table), env, st)
  }

  function UploadedBy(outcome: TableOutcome): seq<Upload> {
    if outcome.Exported? then [outcome.upload] else []
  }

  /** The files in /tmp after one table whose local file is `path`: the file
      is gone after an upload, present after a failure that came once the file
      existed, untouched otherwise. */
  function TmpAfter(tmp: set<string>, path: string, outcome: TableOutcome): (after: set<string>)
    ensures path in after <==> outcome.Failed? && (outcome.leftTempFile || path in tmp)
    ensures after - {path} == tmp - {path}
  {
    match outcome
    case Exported(_) => tmp - {path}
    case Failed(_, left) => if left then tmp + {path} else tmp
  }

  /** The outcome of every table of a run, in order; table k meets the
      stages `env.stages(k)`. */
  function RunOutcomes(env: Environment, tables: seq<string>): (outcomes: seq<TableOutcome>)
    ensures |outcomes| == |tables|
  {
    if tables == [] then []
    else
      var n := |tables| - 1;
      RunOutcomes(env, tables[..n]) + [TableOutcomeOf(tables[n], env, env.stages(n))]
  }

  /** The local file of every table of a run, in order. */
  function LocalPaths(tables: seq<string>): (paths: seq<string>)
    ensures |paths| == |tables|
  {
    if tables == [] then []
    else
      var n := |tables| - 1;
      LocalPaths(tables[..n]) + [LocalPath(TableNameOnly(tables[n]))]
  }

  /** Table k of a run has the outcome its own stages give it. */
  lemma {:induction false} RunOutcomeAt(env: Environment, tables: seq<string>, k: nat)
    requires k < |tables|
    ensures RunOutcomes(env, tables)[k] == TableOutcomeOf(tables[k], env, env.stages(k))
  {
    hide TableOutcomeOf;
    var n := |tables| - 1;
    if k < n {
      RunOutcomeAt(env, tables[..n], k);
    }
  }

  /** Table k of a run writes the local file named after it. */
  lemma {:induction false} LocalPathAt(tables: seq<string>, k: nat)
    requires k < |tables|
    ensures LocalPaths(tables)[k] == LocalPath(TableNameOnly(tables[k]))
  {
    var n := |tables| - 1;
    if k < n {
      LocalPathAt(tables[..n], k);
    }
  }

  /** The uploads a sequence of table outcomes makes, in table order. */
  function UploadsOf(outcomes: seq<TableOutcome>): (uploads: seq<Upload>)
    ensures |uploads| <= |outcomes|
  {
    if outcomes == [] then []
    else UploadsOf(outcomes[..|outcomes| - 1]) + UploadedBy(outcomes[|outcomes| - 1])
  }

  /** The files in /tmp after a sequence of tables, each with its local file. */
  function TmpAfterAll(tmp: set<string>, paths: seq<string>, outcomes: seq<TableOutcome>): (after: set<string>)
    requires |paths| == |outcomes|
    ensures after - (set p | p in paths) == tmp - (set p | p in paths)
  {
    if outcomes == [] then tmp
    else
      var n := |outcomes| - 1;
      var before := TmpAfterAll(tmp, paths[..n], outcomes[..n]);
      var after := TmpAfter(before, paths[n], outcomes[n]);
      var earlier := set p | p in paths[..n];
      assert after - (set p | p in paths) == tmp - (set p | p in paths) by {
        assert (set p | p in paths) == earlier + {paths[n]} by {
          assert paths == paths[..n] + [paths[n]];
        }
        calc {
          after - (set p | p in paths);
          (after - {paths[n]}) - earlier;
          (before - {paths[n]}) - earlier;
          (before - earlier) - {paths[n]};
          (tmp - earlier) - {paths[n]};
          tmp - (set p | p in paths);
        }
      }
      after
  }

  /** The `for ... of` loop of `saveToParquet`: rows are appended one at a
      time in order; the append of row `rejectedRow` (if there is such a row)
      throws, and nothing after it is appended. */
  method AppendRows(rows: seq<Row>, rejectedRow: Option<nat>) returns (written: seq<Row>, rejected: Option<nat>)
    ensures rejected == if rejectedRow.Some? && rejectedRow.value < |rows| then rejectedRow else None
    ensures written == if rejected.Some? then rows[..rejected.value] else rows
  {
    written := [];
    for i := 0 to |rows|
      invariant written == rows[..i]
      invariant rejectedRow.Some? && rejectedRow.value < |rows| ==> i <= rejectedRow.value
    {
      if rejectedRow == Some(i) {
        return written, rejectedRow;
      }
      written := written + [rows[i]];
    }
    assert written == rows;
    rejected := None;
  }

  /** One more table: its upload (if any) comes after the others'. */
  lemma {:induction false} UploadsOfSnoc(outcomes: seq<TableOutcome>, outcome: TableOutcome)
    ensures UploadsOf(outcomes + [outcome]) == UploadsOf(outcomes) + UploadedBy(outcome)
  {
    assert (outcomes + [outcome])[..|outcomes|] == outcomes;
  }

  /** One more table: its file is settled after the others'. */
  lemma {:induction false} TmpAfterAllSnoc(tmp: set<string>, paths: seq<string>, outcomes: seq<TableOutcome>, path: string, outcome: TableOutcome)
    requires |paths| == |outcomes|
    ensures TmpAfterAll(tmp, paths + [path], outcomes + [outcome])
            == TmpAfter(TmpAfterAll(tmp, paths, outcomes), path, outcome)
  {
    assert (outcomes + [outcome])[..|outcomes|] == outcomes;
    assert (paths + [path])[..|paths|] == paths;
  }

  /** Before any table: no upload, and /tmp as it was. */
  lemma {:induction false} RunStart(tmp: set<string>, env: Environment, tables: seq<string>)
    ensures UploadsOf(RunOutcomes(env, tables[..0])) == []
    ensures TmpAfterAll(tmp, LocalPaths(tables[..0]), RunOutcomes(env, tables[..0])) == tmp
  {
    assert tables[..0] == [];
  }

  /** One more table: its upload (if any) comes after the others', and its
      file is settled after theirs. */
  lemma {:induction false} RunStep(tmp: set<string>, env: Environment, tables: seq<string>, k: nat)
    requires k < |tables|
    ensures var outcome := TableOutcomeOf(tables[k], env, env.stages(k));
            && UploadsOf(RunOutcomes(env, tables[..k + 1])) == UploadsOf(RunOutcomes(env, tables[..k])) + UploadedBy(outcome)
            && TmpAfterAll(tmp, LocalPaths(tables[..k + 1]), RunOutcomes(env, tables[..k + 1]))
               == TmpAfter(TmpAfterAll(tmp, LocalPaths(tables[..k]), RunOutcomes(env, tables[..k])), LocalPath(TableNameOnly(tables[k])), outcome)
  {
    RunSnoc(env, tables, k);
    UploadsOfSnoc(RunOutcomes(env, tables[..k]), TableOutcomeOf(tables[k], env, env.stages(k)));
    TmpAfterAllSnoc(tmp, LocalPaths(tables[..k]), RunOutcomes(env, tables[..k]),
                    LocalPath(TableNameOnly(tables[k])), TableOutcomeOf(tables[k], env, env.stages(k)));
  }

  /** A run over a longer prefix adds that table's outcome and local file at
      the end. */
  lemma {:induction false} RunSnoc(env: Environment, tables: seq<string>, k: nat)
    requires k < |tables|
    ensures RunOutcomes(env, tables[..k + 1]) == RunOutcomes(env, tables[..k]) + [TableOutcomeOf(tables[k], env, env.stages(k))]
    ensures LocalPaths(tables[..k + 1]) == LocalPaths(tables[..k]) + [LocalPath(TableNameOnly(tables[k]))]
  {
    assert tables[..k + 1][..k] == tables[..k];
  }

  // ---------------------------------------------------------------------------
  // The exporter
  // ---------------------------------------------------------------------------

  /** The state the export changes: the files present in /tmp (which outlive a
      run), the tables whose `try` block was entered, and the objects
      uploaded. */
  class Exporter {
    var tmpFiles: set<string>
    var attempted: seq<string>
    var uploads: seq<Upload>

    constructor (tmp: set<string>)
      ensures tmpFiles == tmp && attempted == [] && uploads == []
    {
      tmpFiles := tmp;
      attempted := [];
      uploads := [];
    }

    /** `saveToParquet`: build the schema, write every row into the local
        file, close it, upload it, and only then remove the local file. */
    method SaveToParquet(columns: seq<ColumnRow>, rows: seq<Row>, tableNameOnly: string,
                         env: Environment, st: TableStages) returns (outcome: TableOutcome)
      modifies this
      ensures outcome == SaveOutcome(columns, rows, tableNameOnly, env, st)
      ensures attempted == old(attempted)
      ensures uploads == old(uploads) + UploadedBy(outcome)
      ensures tmpFiles == TmpAfter(old(tmpFiles), LocalPath(tableNameOnly), outcome)
    {
      var prefix := GenerateBackupPath(env.database, env.root, st.now);
      var localFilePath := LocalPath(tableNameOnly);
      var definition := BuildSchemaDefinition(columns);
      if !st.schemaAccepted {
        return Failed(SchemaRejected, false);
      }
      if !st.fileOpened {
        return Failed(OpenFailed, false);
      }
      tmpFiles := tmpFiles + {localFilePath};
      var written, rejected := AppendRows(rows, st.rejectedRow);
      if rejected.Some? {
        return Failed(RowRejected(rejected.value), true);
      }
      if !st.closed {
        return Failed(CloseFailed, true);
      }
      var key := UploadKey(prefix, tableNameOnly);
      if !st.uploaded {
        return Failed(UploadFailed, true);
      }
      var upload := Upload(key, Artifact(definition, written));
      uploads := uploads + [upload];
      tmpFiles := tmpFiles - {localFilePath};
      outcome := Exported(upload);
    }

    /** The `try` block for one table: fetch its columns and rows, then save it. */
    method ExportTable(table: string, env: Environment, st: TableStages) returns (outcome: TableOutcome)
      modifies this
      ensures outcome == TableOutcomeOf(table, env, st)
      ensures attempted == old(attempted) + [table]
      ensures uploads == old(uploads) + UploadedBy(outcome)
      ensures tmpFiles == TmpAfter(old(tmpFiles), LocalPath(TableNameOnly(table)), outcome)
    {
      attempted := attempted + [table];
      if st.columns.None? {
        return Failed(ColumnQueryFailed, false);
      }
      if st.rows.None? {
        return Failed(DataQueryFailed, false);
      }
      var tableNameOnly := TableNameOnly(table);
      outcome := SaveToParquet(st.columns.value, st.rows.value, tableNameOnly, env, st);
    }

    /** The `for` loop of `exportParquet`: every table is attempted, in order,
        each inside its own `try`, so a throw in one table's stages ends that
        table only. */
    method ExportTables(tables: seq<string>, env: Environment)
      modifies this
      ensures attempted == old(attempted) + tables
      ensures uploads == old(uploads) + UploadsOf(RunOutcomes(env, tables))
      ensures tmpFiles == TmpAfterAll(old(tmpFiles), LocalPaths(tables), RunOutcomes(env, tables))
    {
      RunStart(tmpFiles, env, tables);
      // The loop needs the run functions only through RunStart and RunStep;
      // their bodies stay out of its proof.
      hide *;
      for k := 0 to |tables|
        invariant attempted == old(attempted) + tables[..k]
        invariant uploads == old(uploads) + UploadsOf(RunOutcomes(env, tables[..k]))
        invariant tmpFiles == TmpAfterAll(old(tmpFiles), LocalPaths(tables[..k]), RunOutcomes(env, tables[..k]))
      {
        var outcome := ExportTable(tables[k], env, env.stages(k));
        RunStep(old(tmpFiles), env, tables, k);
        assert tables[..k + 1] == tables[..k] + [tables[k]];
      }
      assert tables[..|tables|] == tables;
    }

    /** `exportParquet`: enumerate, filter, attempt every table, and answer 200
        whatever the tables did, or 500 (with nothing attempted) when the
        enumeration threw. */
    method ExportParquet(env: Environment) returns (response: Response)
      modifies this
      ensures response.statusCode == (if env.catalog.Some? then 200 else 500)
      ensures env.catalog.None? ==>
                attempted == old(attempted) && uploads == old(uploads) && tmpFiles == old(tmpFiles)
      ensures env.catalog.Some? ==>
                var tables := TablesToExport(QualifiedNames(env.catalog.value));
                && attempted == old(attempted) + tables
                && uploads == old(uploads) + UploadsOf(RunOutcomes(env, tables))
                && tmpFiles == TmpAfterAll(old(tmpFiles), LocalPaths(tables), RunOutcomes(env, tables))
    {
      if env.catalog.None? {
        return Response(500, "Internal Server Error");
      }
      var allTables := QualifiedNames(env.catalog.value);
      var tablesToExport := TablesToExport(allTables);
      ExportTables(tablesToExport, env);
      response := Response(200, "Export completed successfully");
    }
  }

  // ---------------------------------------------------------------------------
  // Properties of a run
  // ---------------------------------------------------------------------------

  /** Failure isolation: an object is uploaded exactly when some table's own
      outcome produced it; what the other tables did plays no part. */
  lemma {:induction false} UploadsAreExportedTables(outcomes: seq<TableOutcome>, u: Upload)
    ensures u in UploadsOf(outcomes) <==> exists k :: 0 <= k < |outcomes| && outcomes[k] == Exported(u)
  {
    if outcomes != [] {
      var n := |outcomes| - 1;
      UploadsAreExportedTables(outcomes[..n], u);
      if exists k :: 0 <= k < |outcomes| && outcomes[k] == Exported(u) {
        var k :| 0 <= k < |outcomes| && outcomes[k] == Exported(u);
        if k < n {
          assert outcomes[..n][k] == Exported(u);
        }
      }
    }
  }

  /** There are exactly as many uploads as exported tables. */
  lemma {:induction false} UploadsCount(outcomes: seq<TableOutcome>)
    ensures |UploadsOf(outcomes)| == |set k | 0 <= k < |outcomes| && outcomes[k].Exported?|
  {
    if outcomes != [] {
      var n := |outcomes| - 1;
      UploadsCount(outcomes[..n]);
      var before := set k | 0 <= k < n && outcomes[..n][k].Exported?;
      var all := set k | 0 <= k < |outcomes| && outcomes[k].Exported?;
      if outcomes[n].Exported? {
        assert all == before + {n};
      } else {
        assert all == before;
      }
    }
  }

  /** Every uploaded object sits under `<root>/YYYY/MM/DD/<table>.parquet` with
      the date its own table read from the clock, and holds that table's rows,
      in order, under the schema built from its columns. */
  lemma {:induction false} UploadOfTable(table: string, env: Environment, st: TableStages)
    requires TableOutcomeOf(table, env, st).Exported?
    ensures var u := TableOutcomeOf(table, env, st).upload;
            && st.columns.Some? && st.rows.Some?
            && u.key == GenerateBackupPath(env.database, env.root, st.now) + "/" + TableNameOnly(table) + ".parquet"
            && u.body == Artifact(SchemaDefinition(st.columns.value), st.rows.value)
            && ('/' !in TableNameOnly(table) ==> UploadDateOf(u.key) == Some(st.now))
  {
    if '/' !in TableNameOnly(table) {
      UploadKeyRoundTrip(env.database, env.root, st.now, TableNameOnly(table));
    }
  }

  /** The date partition is taken per table, not once per run: two tables of
      one run that read different dates are filed under different dates. */
  lemma {:induction false} DatePartitionPerTable(t1: string, t2: string, env: Environment, st1: TableStages, st2: TableStages)
    requires TableOutcomeOf(t1, env, st1).Exported? && TableOutcomeOf(t2, env, st2).Exported?
    requires '/' !in TableNameOnly(t1) && '/' !in TableNameOnly(t2)
    requires st1.now != st2.now
    ensures UploadDateOf(TableOutcomeOf(t1, env, st1).upload.key) != UploadDateOf(TableOutcomeOf(t2, env, st2).upload.key)
  {
    UploadOfTable(t1, env, st1);
    UploadOfTable(t2, env, st2);
  }

  /** A file in /tmp that is no table's local file is left as it was. */
  lemma {:induction false} OtherFilesUntouched(tmp: set<string>, paths: seq<string>, outcomes: seq<TableOutcome>, p: string)
    requires |paths| == |outcomes|
    requires p !in paths
    ensures p in TmpAfterAll(tmp, paths, outcomes) <==> p in tmp
  {
    if outcomes != [] {
      var n := |outcomes| - 1;
      assert p !in paths[..n];
      OtherFilesUntouched(tmp, paths[..n], outcomes[..n], p);
    }
  }

  /** The temp-file lifecycle, table by table: when the local files are
      distinct, table k's file is present at the end exactly when a stage after
      its creation threw (write, close or upload), or when no stage touched it
      and it was there before.  A successful upload removes it; nothing else
      does. */
  lemma {:induction false} TempFileLifecycle(tmp: set<string>, paths: seq<string>, outcomes: seq<TableOutcome>, k: nat)
    requires |paths| == |outcomes| && k < |outcomes|
    requires forall i, j :: 0 <= i < j < |paths| ==> paths[i] != paths[j]
    ensures paths[k] in TmpAfterAll(tmp, paths, outcomes) <==>
              outcomes[k].Failed? && (outcomes[k].leftTempFile || paths[k] in tmp)
  {
    var n := |outcomes| - 1;
    if n == k {
      assert paths[k] !in paths[..n];
      OtherFilesUntouched(tmp, paths[..n], outcomes[..n], paths[k]);
    } else {
      TempFileLifecycle(tmp, paths[..n], outcomes[..n], k);
    }
  }

  /** Tables with different names have different local files. */
  lemma {:induction false} DistinctNamesDistinctPaths(tables: seq<string>)
    requires forall i, j :: 0 <= i < j < |tables| ==> TableNameOnly(tables[i]) != TableNameOnly(tables[j])
    ensures forall i, j :: 0 <= i < j < |tables| ==> LocalPaths(tables)[i] != LocalPaths(tables)[j]
  {
    forall i, j | 0 <= i < j < |tables| ensures LocalPaths(tables)[i] != LocalPaths(tables)[j] {
      LocalPathAt(tables, i);
      LocalPathAt(tables, j);
      LocalPathInjective(TableNameOnly(tables[i]), TableNameOnly(tables[j]));
    }
  }

  /** Cleanup is not guaranteed: when every stage but the upload succeeds, the
      local file is still in /tmp after the table. */
  lemma {:induction false} FailedUploadLeavesFile(table: string, env: Environment, st: TableStages, tmp: set<string>)
    requires st.columns.Some? && st.rows.Some?
    requires st.schemaAccepted && st.fileOpened && st.closed && !st.uploaded
    requires st.rejectedRow.None?
    ensures TableOutcomeOf(table, env, st) == Failed(UploadFailed, true)
    ensures LocalPath(TableNameOnly(table)) in TmpAfter(tmp, LocalPath(TableNameOnly(table)), TableOutcomeOf(table, env, st))
  {
  }

  /** When every table of a run is uploaded, none of their local files is left
      and no file is added to /tmp. */
  lemma {:induction false} AllExportedLeavesNoFile(tmp: set<string>, paths: seq<string>, outcomes: seq<TableOutcome>)
    requires |paths| == |outcomes|
    requires forall k :: 0 <= k < |outcomes| ==> outcomes[k].Exported?
    ensures TmpAfterAll(tmp, paths, outcomes) == tmp - set p | p in paths
  {
    if outcomes != [] {
      var n := |outcomes| - 1;
      AllExportedLeavesNoFile(tmp, paths[..n], outcomes[..n]);
      assert (set p | p in paths) == (set p | p in paths[..n]) + {paths[n]} by {
        assert paths == paths[..n] + [paths[n]];
      }
    }
  }

  /** The worked example of the exclusion: from a catalog of three tables one of
      which is excluded, the other two are exported in catalog order. */
  lemma {:induction false} EnumerationExample()
    ensures TablesToExport(QualifiedNames([TableRow("core", "x"), TableRow("core", "spatial_ref_sys"), TableRow("core", "z")]))
            == ["core.x", "core.z"]
  {
    var names := QualifiedNames([TableRow("core", "x"), TableRow("core", "spatial_ref_sys"), TableRow("core", "z")]);
    var all: seq<string> := ["core.x", "core.spatial_ref_sys", "core.z"];
    assert names == all by {
      assert names[0] == "core.x" && names[1] == "core.spatial_ref_sys" && names[2] == "core.z";
    }
    assert TablesToExport(all[2..]) == ["core.z"] by {
      assert all[2..][1..] == [];
    }
    assert TablesToExport(all[1..]) == ["core.z"] by {
      assert all[1..][1..] == all[2..];
    }
  }
}
