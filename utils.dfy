/** The two pure helpers of the exporter: the PostgreSQL-to-Parquet column type
    mapper and the date-partitioned backup path builder. */
module Utils {
  import opened Text
  import opened Wrappers

  // ---------------------------------------------------------------------------
  // Type mapper
  // ---------------------------------------------------------------------------

  /** The Parquet types the mapper produces (names as in the Apache Parquet
      format: INT64, DOUBLE and BOOLEAN physical types, TIMESTAMP_MILLIS and UTF8
      converted types). */
  datatype ParquetType = INT64 | DOUBLE | BOOLEAN | TIMESTAMP_MILLIS | UTF8

  /** The field descriptor object the mapper returns: `{ type: kind }`, with the
      extra key `optional: true` exactly when `hasOptional` holds.  When the key
      is absent the object has no `optional` key at all (it is not `false`). */
  datatype FieldDescriptor = FieldDescriptor(kind: ParquetType, hasOptional: bool)

  /** The PostgreSQL type names the switch lists, family by family.  The
      comparison is JavaScript's strict equality: exact and case-sensitive. */
  const IntegerNames: set<string> := {"int2", "int4", "int8", "smallint", "integer", "bigint"}
  const FloatNames: set<string> := {"float4", "float8", "double precision"}
  const BooleanNames: set<string> := {"bool", "boolean"}
  const TimestampNames: set<string> := {"timestamp", "timestamptz", "date", "timestamp without time zone"}
  const TextNames: set<string> := {"text", "varchar", "char", "uuid", "character varying"}

  /** `mapPostgresTypeToParquet(type, isNullable)`: a total switch on the type
      name; anything not listed falls to UTF8. */
  function MapPostgresTypeToParquet(dataType: string, isNullable: bool): (f: FieldDescriptor)
    ensures f.hasOptional <==> isNullable
    ensures dataType !in IntegerNames + FloatNames + BooleanNames + TimestampNames ==> f.kind == UTF8
  {
    var kind :=
      match dataType
      case "int2" | "int4" | "int8" | "smallint" | "integer" | "bigint" => INT64
      case "float4" | "float8" | "double precision" => DOUBLE
      case "bool" | "boolean" => BOOLEAN
      case "timestamp" | "timestamptz" | "date" | "timestamp without time zone" => TIMESTAMP_MILLIS
      case "text" | "varchar" | "char" | "uuid" | "character varying" => UTF8
      case _ => UTF8;
    FieldDescriptor(kind, isNullable)
  }

  /** Each family of names, and no other string, yields its Parquet type; UTF8 is
      what every other string yields, the listed text names included. */
  lemma {:induction false} MapperFamilies(dataType: string, isNullable: bool)
    ensures MapPostgresTypeToParquet(dataType, isNullable).kind == INT64 <==> dataType in IntegerNames
    ensures MapPostgresTypeToParquet(dataType, isNullable).kind == DOUBLE <==> dataType in FloatNames
    ensures MapPostgresTypeToParquet(dataType, isNullable).kind == BOOLEAN <==> dataType in BooleanNames
    ensures MapPostgresTypeToParquet(dataType, isNullable).kind == TIMESTAMP_MILLIS <==> dataType in TimestampNames
    ensures MapPostgresTypeToParquet(dataType, isNullable).kind == UTF8 <==>
              dataType !in IntegerNames + FloatNames + BooleanNames + TimestampNames
  {
  }

  /** Spellings that look like a listed family but are not in the switch fall to
      UTF8: the type name is matched exactly and case-sensitively. */
  lemma {:induction false} MapperUnlistedSpellings(isNullable: bool)
    ensures MapPostgresTypeToParquet("timestamp with time zone", isNullable).kind == UTF8
    ensures MapPostgresTypeToParquet("real", isNullable).kind == UTF8
    ensures MapPostgresTypeToParquet("numeric", isNullable).kind == UTF8
    ensures MapPostgresTypeToParquet("character", isNullable).kind == UTF8
    ensures MapPostgresTypeToParquet("INTEGER", isNullable).kind == UTF8
    ensures MapPostgresTypeToParquet("Boolean", isNullable).kind == UTF8
  {
  }

  // ---------------------------------------------------------------------------
  // Backup path
  // ---------------------------------------------------------------------------

  /** A UTC calendar date as moment reports it (month 1 to 12). */
  datatype UtcDate = UtcDate(year: nat, month: nat, day: nat)

  predicate ValidDate(d: UtcDate) {
    d.year < 10000 && 1 <= d.month <= 12 && 1 <= d.day <= 31
  }

  /** moment's `format('YYYY/MM/DD')`: year zero-filled to four digits, month
      and day to two. */
  function DatePartition(now: UtcDate): (partition: string)
    ensures |partition| >= 10
  {
    ZeroFill(now.year, 4) + "/" + ZeroFill(now.month, 2) + "/" + ZeroFill(now.day, 2)
  }

  /** `generateBackupPath(databaseName, rootPath, now)`: the root joined with
      the date partition; an empty (or missing) root gives the partition alone.
      `databaseName` is accepted and never used. */
  function GenerateBackupPath(databaseName: string, rootPath: string, now: UtcDate): (key: string)
    ensures rootPath != "" ==> |key| > |rootPath| && key[..|rootPath| + 1] == rootPath + "/"
  {
    var day := DatePartition(now);
    if rootPath == "" then day else rootPath + "/" + day
  }

  /** Reads a date back from three path components: year, month, day. */
  function DateOfComponents(y: string, m: string, d: string): Option<UtcDate> {
    if AllDigits(y) && AllDigits(m) && AllDigits(d) && y != "" && m != "" && d != ""
    then Some(UtcDate(ParseNat(y), ParseNat(m), ParseNat(d)))
    else None
  }

  /** Reads the date back out of a backup path: its last three `/`-separated
      components are the year, month and day. */
  function BackupDateOf(key: string): Option<UtcDate> {
    var parts := Split(key, '/');
    if |parts| < 3 then None
    else DateOfComponents(parts[|parts| - 3], parts[|parts| - 2], parts[|parts| - 1])
  }

  /** The components of a backup path: those of the root (none when the root is
      empty), then the zero-filled year, month and day. */
  lemma {:induction false} BackupPathComponents(databaseName: string, rootPath: string, now: UtcDate)
    ensures Split(GenerateBackupPath(databaseName, rootPath, now), '/')
            == (if rootPath == "" then [] else Split(rootPath, '/'))
               + [ZeroFill(now.year, 4), ZeroFill(now.month, 2), ZeroFill(now.day, 2)]
  {
    var y, m, d := ZeroFill(now.year, 4), ZeroFill(now.month, 2), ZeroFill(now.day, 2);
    DigitsHaveNoSlash(y);
    DigitsHaveNoSlash(m);
    DigitsHaveNoSlash(d);
    SplitNoSeparator(y, '/');
    SplitNoSeparator(m, '/');
    SplitNoSeparator(d, '/');
    var day := DatePartition(now);
    assert day == y + ['/'] + (m + ['/'] + d);
    SplitAround(m, d, '/');
    SplitAround(y, m + ['/'] + d, '/');
    assert Split(day, '/') == [y, m, d];
    if rootPath != "" {
      SplitAround(rootPath, day, '/');
    }
  }

  lemma {:induction false} DigitsHaveNoSlash(s: string)
    requires AllDigits(s)
    ensures '/' !in s
  {
  }

  /** Round trip: the date a backup path was built from is read back from it,
      whatever the root. */
  lemma {:induction false} BackupPathRoundTrip(databaseName: string, rootPath: string, now: UtcDate)
    ensures BackupDateOf(GenerateBackupPath(databaseName, rootPath, now)) == Some(now)
  {
    BackupPathComponents(databaseName, rootPath, now);
    ParseZeroFill(now.year, 4);
    ParseZeroFill(now.month, 2);
    ParseZeroFill(now.day, 2);
  }

  /** Different dates never share a backup path under the same root. */
  lemma {:induction false} BackupPathInjective(db1: string, db2: string, rootPath: string, d1: UtcDate, d2: UtcDate)
    requires d1 != d2
    ensures GenerateBackupPath(db1, rootPath, d1) != GenerateBackupPath(db2, rootPath, d2)
  {
    BackupPathRoundTrip(db1, rootPath, d1);
    BackupPathRoundTrip(db2, rootPath, d2);
  }

  /** For a real date the partition is exactly `YYYY/MM/DD`: ten characters,
      separators at positions 4 and 7, month and day zero-padded to two digits. */
  lemma {:induction false} DatePartitionShape(now: UtcDate)
    requires ValidDate(now)
    ensures |DatePartition(now)| == 10
    ensures DatePartition(now)[4] == '/' && DatePartition(now)[7] == '/'
    ensures DatePartition(now)[5..7] == ZeroFill(now.month, 2)
    ensures DatePartition(now)[8..] == ZeroFill(now.day, 2)
  {
    assert Pow10(4) == 10000 && Pow10(2) == 100;
    ZeroFillWidth(now.year, 4);
    ZeroFillWidth(now.month, 2);
    ZeroFillWidth(now.day, 2);
  }

  /** The zero-filled fields of 5 March 2024. */
  lemma {:induction false} ExampleDateFields()
    ensures ZeroFill(2024, 4) == "2024" && ZeroFill(3, 2) == "03" && ZeroFill(5, 2) == "05"
  {
    assert Digits(2024) == "2024" by {
      assert Digits(2) == "2" && Digits(20) == "20" && Digits(202) == "202";
    }
    assert Digits(3) == "3" && Digits(5) == "5" && Zeros(1) == "0";
  }

  /** The worked example: root "backups" on 5 March 2024 (UTC). */
  lemma {:induction false} BackupPathExample(databaseName: string)
    ensures GenerateBackupPath(databaseName, "backups", UtcDate(2024, 3, 5)) == "backups/2024/03/05"
    ensures GenerateBackupPath(databaseName, "", UtcDate(2024, 3, 5)) == "2024/03/05"
  {
    ExampleDateFields();
    assert DatePartition(UtcDate(2024, 3, 5)) == "2024/03/05";
  }
}
