# Parquet export of a PostgreSQL schema to S3, modelled in Dafny

This project models the core of a Lambda-style exporter. The exporter lists the
base tables of one PostgreSQL schema and drops a fixed exclusion list. For each
remaining table it:

1. reads the column catalog;
2. maps every PostgreSQL column type to a Parquet type;
3. writes all rows into `/tmp/<table>.parquet`;
4. uploads that file to `<root>/YYYY/MM/DD/<table>.parquet`;
5. deletes the local file.

Each table runs inside its own `try`/`catch`. The run answers 200 once the table
list was obtained, and 500 when the listing itself threw.

Files:

- `utils.dfy` (module `Utils`) holds the two pure helpers of `lib/utils.js`:
  - the type mapper, a total case-sensitive switch;
  - the backup path builder, which joins the root with a zero-filled UTC date.
- `export_parquet.dfy` (module `ExportParquet`) holds `lib/export-parquet.js`:
  - name building and exclusion, as pure functions;
  - the schema `reduce` and the row-append loop, as methods with loops;
  - the write / upload / unlink sequence and the table loop, as methods of the
    class `Exporter`. Its state is the set of files in `/tmp`, the tables
    attempted and the objects uploaded.
- `text.dfy` (module `Text`) holds the string facts these rest on:
  - JavaScript's `split` on one character, with its inverse `Join`;
  - the zero-filled decimal numbers that moment prints for `YYYY/MM/DD`.
- `wrappers.dfy` holds an `Option` type.

The database, the Parquet writer, S3 and the clock are not code here. They are
an oracle, `Environment.stages(k)`, which says what each stage does for the k-th
table of a run: return a value (columns, rows, the date) or throw. Every
operation is specified by a function of that oracle:

- `SaveOutcome` covers one table's save;
- `TableOutcomeOf` covers one table's `try` block;
- `RunOutcomes`, `UploadsOf` and `TmpAfterAll` cover the whole loop.

The methods are proved to change the state exactly as those functions say. The
lemmas then prove what the code promises about the functions:

- failure isolation;
- where each object lands and that its date reads back from its key;
- the life cycle of each local file.

The model follows the code where it is weaker than three natural expectations
of such an exporter:

- Cleanup is not guaranteed. One might expect the local file to be removed
  whether or not the upload succeeds, but the code calls `fs.unlinkSync` only
  after a successful upload (lib/export-parquet.js:78-84). A failed write,
  close or upload leaves the file in `/tmp`. See `FailedUploadLeavesFile` and
  `TempFileLifecycle`.
- There is no single date per run. One might expect every table of a run to be
  filed under the same date partition, but the code calls `generateBackupPath`
  inside every `saveToParquet` (lib/export-parquet.js:60), so each table reads
  the clock for itself. See `DatePartitionPerTable`.
- Not every date/timestamp type is TIMESTAMP_MILLIS. The switch lists only four
  spellings, and `timestamp with time zone` falls to UTF8
  (`MapperUnlistedSpellings`).

## Model

| member | source | states |
|---|---|---|
| Utils.MapPostgresTypeToParquet | lib/utils.js:13-53 | Total: every string gets a descriptor. The `optional` key is present exactly when the column is nullable. A name outside the four non-text families is always UTF8. |
| Utils.MapperFamilies | lib/utils.js:15-48 | Each family of listed names, and no other string, yields INT64, DOUBLE, BOOLEAN or TIMESTAMP_MILLIS. UTF8 is yielded exactly by the strings in none of those families. |
| Utils.MapperUnlistedSpellings | lib/utils.js:46-47 | Matching is exact and case-sensitive: 'timestamp with time zone', 'real', 'numeric', 'character', 'INTEGER' and 'Boolean' fall to UTF8. |
| Utils.GenerateBackupPath | lib/utils.js:5-10 | With a non-empty root, the key starts with the root followed by "/". The database name takes no part. |
| Utils.BackupPathComponents | lib/utils.js:7-8 | The `/`-components of the key are the root's components (none for an empty root) followed by the four-digit year, two-digit month and two-digit day. |
| Utils.BackupPathRoundTrip | lib/utils.js:5-9 | The date the key was built from reads back from its last three components, whatever the root. |
| Utils.BackupPathInjective | lib/utils.js:5-9 | Under one root, different dates never give the same key. |
| Utils.DatePartitionShape | lib/utils.js:7 | For a real date the partition is exactly ten characters: `YYYY/MM/DD` with month and day zero-padded to two digits. |
| Utils.BackupPathExample | lib/utils.js:5-9 | Root "backups" on 5 March 2024 gives "backups/2024/03/05". An empty root gives "2024/03/05". |
| Utils.DatePartition | lib/utils.js:7 | moment's `format('YYYY/MM/DD')`: at least ten characters. `DatePartitionShape` proves it is exactly `YYYY/MM/DD` for a real date, and `BackupPathComponents` that it splits into the zero-filled year, month and day. |
| Text.ZeroFill | lib/utils.js:7 | moment's zero-filling: only digits, at least `width` of them, never truncated. `ParseZeroFill` proves it reads back as the number, and `ZeroFillWidth` that a number below 10^width takes exactly `width` characters. |
| Text.Split | lib/export-parquet.js:99 | JavaScript's `split` on one character: always at least one piece, `""` included. `SplitPiecesLackSeparator` proves no piece holds the separator, and `SplitJoin` / `JoinSplit` prove `Join` is its inverse. |
| Text.ParseZeroFill | lib/utils.js:7 | A zero-filled number reads back as the number: the padding moment adds loses nothing. |
| Text.ZeroFillWidth | lib/utils.js:7 | A number below 10^width is printed in exactly `width` characters. |
| Text.SplitJoin | lib/export-parquet.js:99 | Pieces without the separator are recovered by `split` from their join. |
| Text.JoinSplit | lib/export-parquet.js:99 | Joining the pieces of `split` gives back the string. |
| ExportParquet.QualifiedNames | lib/export-parquet.js:38 | One name per catalog row, in row order: `schema + "." + table`. |
| ExportParquet.TablesToExport | lib/export-parquet.js:92 | A name is exported iff it was enumerated and is not in the exclusion list. |
| ExportParquet.TablesToExportCounts | lib/export-parquet.js:92 | Every occurrence of a non-excluded name is kept, duplicates included. Every occurrence of an excluded name is dropped. |
| ExportParquet.TablesToExportKeepsOrder | lib/export-parquet.js:92 | The exported names keep catalog order: they sit at strictly increasing positions of the enumeration. |
| ExportParquet.ExclusionIsExact | lib/export-parquet.js:28 | Exclusion is exact string equality. Another case or another schema of an excluded name is exported. |
| ExportParquet.EnumerationExample | lib/export-parquet.js:92 | From core.x, core.spatial_ref_sys and core.z, the tables exported are core.x then core.z. |
| ExportParquet.TableNameOnly | lib/export-parquet.js:99 | `table.split('.')[1]`, printed as "undefined" when there is no second component: the result never contains a dot. The three lemmas below prove what it recovers from `schema.table`. |
| ExportParquet.TableNameOnlyOfQualified | lib/export-parquet.js:99 | For a schema without dots, the table name taken back out of `schema.table` is the table's name up to its first dot. |
| ExportParquet.TableNameOnlyRecoversName | lib/export-parquet.js:99 | Without dots in schema or name, the table name is recovered exactly. |
| ExportParquet.DottedTableNameIsCut | lib/export-parquet.js:99 | A table name containing a dot is cut at it, so `s.a.b` and `s.a` share a local file and an upload key. |
| ExportParquet.LocalPath | lib/export-parquet.js:61 | `/tmp/<table>.parquet`: starts with "/tmp/", ends with ".parquet", and is 13 characters longer than the table name. |
| ExportParquet.UploadKey | lib/export-parquet.js:77 | `<prefix>/<table>.parquet`: starts with the prefix and "/", ends with ".parquet". `UploadKeyRoundTrip` proves its components and the date they carry. |
| ExportParquet.LocalPathNamesTable | lib/export-parquet.js:61 | The local path holds the table name between "/tmp/" and ".parquet". |
| ExportParquet.LocalPathInjective | lib/export-parquet.js:61 | Different table names never share a local file. |
| ExportParquet.UploadKeyRoundTrip | lib/export-parquet.js:77 | For a table name without `/`, the key's components are the root's, then the zero-filled date, then `<table>.parquet`, and the date reads back from the key. |
| ExportParquet.FieldFor | lib/export-parquet.js:64 | A column is optional exactly when `is_nullable` is 'YES'. Its type is the mapper's type for `data_type`. |
| ExportParquet.SchemaDefinition | lib/export-parquet.js:63-66 | The dictionary the `reduce` builds, column by column: at most one entry per column. `SchemaDefinitionEntries` proves its keys are exactly the column names and each holds the last column of that name. |
| ExportParquet.SchemaDefinitionEntries | lib/export-parquet.js:63-66 | The dictionary has one key per distinct column name. Each key holds the descriptor of the last column carrying that name. |
| ExportParquet.BuildSchemaDefinition | lib/export-parquet.js:63-66 | The accumulating loop builds exactly the dictionary `SchemaDefinition` describes. |
| ExportParquet.AppendRows | lib/export-parquet.js:72-75 | Rows are appended one at a time in input order. The append that throws stops the loop, and the rows before it are exactly what was written. Without a throw, every row is written. |
| ExportParquet.SaveOutcome | lib/export-parquet.js:59-86 | One table's save as a value: it exports iff the schema is accepted, the file opens, no row append throws, the close and the upload succeed. A failure leaves the local file iff the open had succeeded. |
| ExportParquet.TableOutcomeOf | lib/export-parquet.js:96-104 | One table's `try` block as a value: a failing column or data query fails the table with no local file. An exported table had both its columns and its rows. |
| ExportParquet.TmpAfter | lib/export-parquet.js:70-84 | What one table does to /tmp: its local file is present afterwards iff the table failed and the file was created at the open (line 70) or was already there. After an upload the unlink at line 84 removes it. Every other file keeps its presence or absence. |
| ExportParquet.RunOutcomes | lib/export-parquet.js:95-105 | The outcome of every table of the loop, one per table, in order. `RunOutcomeAt` proves table k's outcome is its own `try` block's, so a throw in one table does not reach the others. |
| ExportParquet.LocalPaths | lib/export-parquet.js:61 | The local file of every table of the loop, one per table, in order. `LocalPathAt` proves table k's is `/tmp/<table>.parquet` for its own table name. |
| ExportParquet.UploadsOf | lib/export-parquet.js:77-82 | The objects the loop uploads, in table order: never more than there are tables. `UploadsAreExportedTables` proves an object is uploaded iff some table exported it, and `UploadsCount` that there is one upload per exported table. |
| ExportParquet.TmpAfterAll | lib/export-parquet.js:70-84 | /tmp after the whole loop: outside the tables' local files it is exactly as it began. `TempFileLifecycle` gives each table's own file, and `OtherFilesUntouched` each file that is no table's. |
| ExportParquet.Exporter.SaveToParquet | lib/export-parquet.js:59-86 | The outcome is the first stage that throws (schema, open, row append, close, upload), or else the upload of the table's rows under its schema. The object is added only on success. The local file exists once the open has succeeded, and is removed only after the upload. |
| ExportParquet.Exporter.ExportTable | lib/export-parquet.js:96-104 | The table is recorded as attempted. A failing column or data query ends the table with nothing written. Otherwise the table is saved under the second `.`-component of its name. |
| ExportParquet.Exporter.ExportTables | lib/export-parquet.js:95-105 | Every table is attempted, in order. The uploads are the exported tables' objects, in table order. /tmp ends as the tables' outcomes leave it. |
| ExportParquet.Exporter.ExportParquet | lib/export-parquet.js:88-112 | If enumeration throws, the answer is 500 and nothing is attempted, uploaded or written. Otherwise it is 200 however many tables failed, and exactly the filtered tables are attempted in catalog order. |
| ExportParquet.RunOutcomeAt | lib/export-parquet.js:95-105 | Failure isolation: table k's outcome depends only on table k and its own stages. |
| ExportParquet.LocalPathAt | lib/export-parquet.js:99 | Table k of a run writes the local file named after its own table name. |
| ExportParquet.UploadsAreExportedTables | lib/export-parquet.js:95-105 | An object is uploaded iff some table's own outcome exported it. |
| ExportParquet.UploadsCount | lib/export-parquet.js:95-105 | There are exactly as many uploads as exported tables. |
| ExportParquet.UploadOfTable | lib/export-parquet.js:60-82 | An exported table's object is at `<root>/YYYY/MM/DD/<table>.parquet` with its own clock reading. When the table name has no `/`, that date reads back from the key. The object holds the table's rows, in order, under the schema built from its columns. |
| ExportParquet.DatePartitionPerTable | lib/export-parquet.js:60 | The date is read per table: two exported tables of one run whose table names hold no `/` and that read different dates are filed under different dates. |
| ExportParquet.OtherFilesUntouched | lib/export-parquet.js:61-84 | A file in /tmp that is no table's local file is left as it was. |
| ExportParquet.TempFileLifecycle | lib/export-parquet.js:70-84 | With distinct local files, table k's file is present at the end iff the table failed after creating it, or failed before and the file was already there. A successful upload always removes it. |
| ExportParquet.DistinctNamesDistinctPaths | lib/export-parquet.js:61 | Tables with different table names get different local files. |
| ExportParquet.FailedUploadLeavesFile | lib/export-parquet.js:78-84 | When every stage but the upload succeeds, the table fails with UploadFailed and its local file is still in /tmp. |
| ExportParquet.AllExportedLeavesNoFile | lib/export-parquet.js:84 | When every table is uploaded, /tmp ends as it began minus the tables' local files. |

## Left out

- Database access (`getAllTables`, `getColumnDetails` and `fetchTableData` as queries, the SQL text, and the `PGSCHEMA` interpolated unescaped into the catalog query) is not modelled. Its results or failures per table are the oracle `Environment.catalog` and `TableStages.columns` / `rows`. Both queries take `schema.table` apart with `split`; that detail is not modelled.
- The `fields` that `fetchTableData` returns are never used by the code, so they are not modelled.
- Parquet encoding (`ParquetSchema`, `ParquetWriter`) is an external library. The writer is modelled as stages that may throw: schema, open, one append per row, close. The file's contents are the schema dictionary and the rows appended (`Artifact`), not bytes, so no encode/decode round trip is stated.
- The S3 upload is one stage that succeeds or throws. The bucket, the read stream and `lib/upload-s3.js` are not modelled.
- `lib/handler.js` (invocation, connection pool, credential lookups) and `lib/config.js` (default constants) are not part of this model, and neither is `getDbConfig` (lib/export-parquet.js:16-25), which is never called.
- Console logging is not modelled.
- `fs.unlinkSync` is taken never to throw after a successful upload.
- A stage that throws `null` or `undefined` is not modelled. Any other thrown value is logged through `err.message` (lib/export-parquet.js:103), possibly as "undefined", and the loop goes on, as the model does. For those two values, reading `err.message` throws a TypeError, with two effects:
  - inside a table's `catch`, the outer `catch` (lib/export-parquet.js:108-110) answers 500 and the remaining tables are skipped;
  - thrown by the enumeration, the outer `catch`'s own `err.message` (line 109) throws, so `exportParquet` rejects instead of answering 500.
- Utils.GenerateBackupPath: `path.join` normalisation is not modelled. The join is `root + "/" + date`, or the date alone for an empty root. A trailing slash, `..` or `.` in the root is kept as written.
- Utils.GenerateBackupPath: moment's time-zone handling is not modelled. The date is given as an already-UTC (year, month, day).
- Utils.MapPostgresTypeToParquet: the descriptor records whether the `optional` key is present. Its value, when present, is always `true`.
- ExportParquet.SchemaDefinition: a JavaScript object is modelled as a `map`, which loses key insertion order. Keys such as `__proto__` that a plain object treats specially are not modelled.
- ExportParquet.Exporter.ExportTables: the stages of the k-th attempted table are `env.stages(k)`. Which table meets which database, writer and S3 behaviour is therefore fixed by its position in the run.
