/**
 * The seeder: inserts a unit's seed rows into its table one by one, checking every column
 * against the schema and choosing each value's placeholder from the column's declared type.
 */
module MigrationSeeder {
  import opened Results
  import opened TableSchema
  import opened MigrationException
  import opened DatabaseMigration

  /** The placeholder categories the driver understands. */
  datatype Format = StringFormat | IntegerFormat | FloatFormat
  {
    /** The placeholder handed to the driver. */
    function Placeholder(): string {
      match this
      case StringFormat => "%s"
      case IntegerFormat => "%d"
      case FloatFormat => "%f"
    }
  }

  /** Declared types inserted as strings. */
  const StringTypes: set<string> := {
    "CHAR", "VARCHAR", "BINARY", "VARBINARY", "TINYBLOB", "TINYTEXT", "TEXT", "BLOB", "MEDIUMTEXT",
    "MEDIUMBLOB", "LONGTEXT", "LONGBLOB", "DATE", "DATETIME", "TIMESTAMP", "TIME", "YEAR"
  }

  /** Declared types inserted as integers. */
  const IntegerTypes: set<string> := {
    "BIT", "TINYINT", "BOOL", "BOOLEAN", "SMALLINT", "MEDIUMINT", "INT", "INTEGER", "BIGINT"
  }

  /** Declared types inserted as floats. */
  const FloatTypes: set<string> := {"FLOAT", "DOUBLE", "DOUBLE PRECISION", "DECIMAL", "DEC"}

  /** ASCII upper-casing of one character (PHP's `strtoupper`). */
  function UpperChar(c: char): char {
    if 'a' <= c <= 'z' then (c as int - 32) as char else c
  }

  /** ASCII lower-casing of one character. */
  function LowerChar(c: char): char {
    if 'A' <= c <= 'Z' then (c as int + 32) as char else c
  }

  function ToUpper(s: string): string {
    seq(|s|, i requires 0 <= i < |s| => UpperChar(s[i]))
  }

  function ToLower(s: string): string {
    seq(|s|, i requires 0 <= i < |s| => LowerChar(s[i]))
  }

  /**
   * The placeholder for a declared column type, matched without regard to case: integers and
   * floats by their type lists, everything else (unknown or empty types included) as a string.
   */
  function ColumnTypeFormat(declared: string): (r: Format)
    ensures r == IntegerFormat <==> ToUpper(declared) in IntegerTypes
    ensures r == FloatFormat <==> ToUpper(declared) in FloatTypes
    ensures r == StringFormat <==> ToUpper(declared) !in IntegerTypes && ToUpper(declared) !in FloatTypes
    ensures ToUpper(declared) in StringTypes ==> r == StringFormat
  {
    match ToUpper(declared)
    case "CHAR" | "VARCHAR" | "BINARY" | "VARBINARY" | "TINYBLOB" | "TINYTEXT" | "TEXT" | "BLOB"
      | "MEDIUMTEXT" | "MEDIUMBLOB" | "LONGTEXT" | "LONGBLOB" | "DATE" | "DATETIME" | "TIMESTAMP"
      | "TIME" | "YEAR" => StringFormat
    case "BIT" | "TINYINT" | "BOOL" | "BOOLEAN" | "SMALLINT" | "MEDIUMINT" | "INT" | "INTEGER"
      | "BIGINT" => IntegerFormat
    case "FLOAT" | "DOUBLE" | "DOUBLE PRECISION" | "DECIMAL" | "DEC" => FloatFormat
    case _ => StringFormat
  }

  /** Upper-casing forgets the case the input was written in. */
  lemma {:induction false} UpperOfLower(s: string)
    ensures ToUpper(ToLower(s)) == ToUpper(s)
  {
    forall i | 0 <= i < |s| ensures ToUpper(ToLower(s))[i] == ToUpper(s)[i] {
      var c := s[i];
      assert ToLower(s)[i] == LowerChar(c);
      if 'A' <= c <= 'Z' {
        assert UpperChar(LowerChar(c)) == c;
      }
    }
  }

  /** The placeholder does not depend on how the type is capitalised. */
  lemma FormatIgnoresCase(declared: string)
    ensures ColumnTypeFormat(ToLower(declared)) == ColumnTypeFormat(declared)
    ensures ColumnTypeFormat(ToUpper(declared)) == ColumnTypeFormat(declared)
  {
    UpperOfLower(declared);
    assert ToUpper(ToUpper(declared)) == ToUpper(declared) by {
      forall i | 0 <= i < |declared| ensures ToUpper(ToUpper(declared))[i] == ToUpper(declared)[i] {
        assert ToUpper(declared)[i] == UpperChar(declared[i]);
      }
    }
  }

  /** A string without lower-case ASCII letters is its own upper-case form. */
  lemma UpperCaseIsFixed(s: string)
    requires forall i :: 0 <= i < |s| ==> !('a' <= s[i] <= 'z')
    ensures ToUpper(s) == s
  {
  }

  /** Every string type, written as the source writes it, gets the string placeholder. */
  lemma StringTypesMapToStringPlaceholder()
    ensures forall t :: t in StringTypes ==> ColumnTypeFormat(t).Placeholder() == "%s"
  {
    forall t | t in StringTypes ensures ToUpper(t) == t {
      UpperCaseIsFixed(t);
    }
  }

  /** Every integer type, written as the source writes it, gets the integer placeholder. */
  lemma IntegerTypesMapToIntegerPlaceholder()
    ensures forall t :: t in IntegerTypes ==> ColumnTypeFormat(t).Placeholder() == "%d"
  {
    forall t | t in IntegerTypes ensures ToUpper(t) == t {
      UpperCaseIsFixed(t);
    }
  }

  /** Every float type, written as the source writes it, gets the float placeholder. */
  lemma FloatTypesMapToFloatPlaceholder()
    ensures forall t :: t in FloatTypes ==> ColumnTypeFormat(t).Placeholder() == "%f"
  {
    forall t | t in FloatTypes ensures ToUpper(t) == t {
      UpperCaseIsFixed(t);
    }
  }

  /**
   * The placeholder for one column of a seed row, or the code-1 error naming the column and
   * the table when the schema has no such column. A column without a type counts as "".
   */
  function ColumnType(schema: Schema, column: string): (r: Result<Format, MigrationError>)
    ensures r.Failure? <==> !HasColumn(schema, column)
    ensures r.Failure? ==> r.error == SeedColumnDoesntExist(column, schema.tableName) && r.error.Code() == 1
    ensures r.Success? ==> r.value == ColumnTypeFormat(FindColumn(schema.columns, column).value.declaredType.GetOr(""))
  {
    match FindColumn(schema.columns, column)
    case None => Failure(SeedColumnDoesntExist(column, schema.tableName))
    case Some(c) => Success(ColumnTypeFormat(c.declaredType.GetOr("")))
  }

  /** The position of the first column of `row` the schema does not define, or `|row|`. */
  function FirstUnknownColumn(schema: Schema, row: Row): (j: nat)
    ensures j <= |row|
    ensures forall i :: 0 <= i < j ==> HasColumn(schema, row[i].column)
    ensures j < |row| ==> !HasColumn(schema, row[j].column)
  {
    if row == [] then 0
    else if !HasColumn(schema, row[0].column) then 0
    else 1 + FirstUnknownColumn(schema, row[1..])
  }

  /**
   * The placeholders for a row, one per column in the row's order; the first unknown column
   * aborts with its code-1 error.
   */
  function RowFormats(schema: Schema, row: Row): (r: Result<seq<Format>, MigrationError>)
    ensures r.Success? <==> forall i :: 0 <= i < |row| ==> HasColumn(schema, row[i].column)
    ensures r.Success? ==> |r.value| == |row|
    ensures r.Success? ==> forall i :: 0 <= i < |row| ==> ColumnType(schema, row[i].column) == Success(r.value[i])
    ensures r.Failure? ==>
      (FirstUnknownColumn(schema, row) < |row|
       && r.error == SeedColumnDoesntExist(row[FirstUnknownColumn(schema, row)].column, schema.tableName))
  {
    if row == [] then Success([])
    else
      match ColumnType(schema, row[0].column)
      case Failure(e) => Failure(e)
      case Success(f) =>
        match RowFormats(schema, row[1..])
        case Failure(e) => Failure(e)
        case Success(fs) => Success([f] + fs)
  }

  /** What the driver reports after one insert: its last error text ("" for none) and the new id. */
  datatype Insertion = Insertion(lastError: string, insertId: int)

  /** The driver's report for the `n`-th row inserted into a table, as an oracle. */
  type Driver = (string, nat) -> Insertion

  /** An insert handed to the driver: table, row and the placeholders for its columns. */
  datatype Insert = Insert(table: string, row: Row, formats: seq<Format>)

  /** One row's attempt: the insert performed, if any, and the new id or the error raised. */
  datatype InsertAttempt = InsertAttempt(insert: Option<Insert>, result: Result<int, MigrationError>)

  /**
   * Inserts one row. Every column is checked before the insert, so an unknown column means no
   * insert; a non-empty driver error after the insert raises code 2 with that text.
   */
  function InsertSeed(schema: Schema, row: Row, report: Insertion): (r: InsertAttempt)
    ensures r.insert.Some? <==> forall i :: 0 <= i < |row| ==> HasColumn(schema, row[i].column)
    ensures r.insert.Some? ==>
      (r.insert.value.table == schema.tableName && r.insert.value.row == row
       && Success(r.insert.value.formats) == RowFormats(schema, row))
    ensures r.result.Success? <==> r.insert.Some? && report.lastError == ""
    ensures r.result.Success? ==> r.result.value == report.insertId
    ensures r.insert.None? ==> r.result.Failure? && r.result.error.Code() == 1
    ensures r.insert.None? ==> RowFormats(schema, row).Failure? && RowFormats(schema, row).error == r.result.error
    ensures r.insert.Some? && r.result.Failure? ==>
      (r.result.error == FailedToInsertSeed(report.lastError, schema.tableName) && r.result.error.Code() == 2)
  {
    match RowFormats(schema, row)
    case Failure(e) => InsertAttempt(None, Failure(e))
    case Success(formats) =>
      var insert := Insert(schema.tableName, row, formats);
      if report.lastError != "" then InsertAttempt(Some(insert), Failure(FailedToInsertSeed(report.lastError, schema.tableName)))
      else InsertAttempt(Some(insert), Success(report.insertId))
  }

  /** The row at position `n` is inserted without error. */
  predicate RowSeeds(schema: Schema, rows: seq<Row>, driver: Driver, n: nat)
    requires n < |rows|
  {
    InsertSeed(schema, rows[n], driver(schema.tableName, n)).result.Success?
  }

  /** The first position from `i` on whose row fails, or `|rows|`. */
  function FirstFailedRow(schema: Schema, rows: seq<Row>, driver: Driver, i: nat): (j: nat)
    requires i <= |rows|
    ensures i <= j <= |rows|
    ensures forall n :: i <= n < j ==> RowSeeds(schema, rows, driver, n)
    ensures j < |rows| ==> !RowSeeds(schema, rows, driver, j)
    decreases |rows| - i
  {
    if i == |rows| then i
    else if !RowSeeds(schema, rows, driver, i) then i
    else FirstFailedRow(schema, rows, driver, i + 1)
  }

  /** The seeding of a table: the inserts performed, and the new ids or the error raised. */
  datatype SeedRun = SeedRun(inserts: seq<Insert>, result: Result<seq<int>, MigrationError>)

  /** Seeds the rows from position `i` on, stopping at the first row that fails. */
  function SeedFrom(schema: Schema, rows: seq<Row>, i: nat, driver: Driver): SeedRun
    requires i <= |rows|
    decreases |rows| - i
  {
    if i == |rows| then SeedRun([], Success([]))
    else
      var attempt := InsertSeed(schema, rows[i], driver(schema.tableName, i));
      var performed := if attempt.insert.Some? then [attempt.insert.value] else [];
      match attempt.result
      case Failure(e) => SeedRun(performed, Failure(e))
      case Success(id) =>
        var rest := SeedFrom(schema, rows, i + 1, driver);
        var result := if rest.result.Success? then Success([id] + rest.result.value) else Failure(rest.result.error);
        SeedRun(performed + rest.inserts, result)
  }

  /**
   * Seeding from `i` stops at the first failing row `j`: it succeeds exactly when there is
   * none, returns the driver's ids in row order, and otherwise raises that row's error.
   */
  lemma {:induction false} SeedFromStopsAtFirstFailure(schema: Schema, rows: seq<Row>, i: nat, driver: Driver)
    requires i <= |rows|
    ensures var r, j := SeedFrom(schema, rows, i, driver), FirstFailedRow(schema, rows, driver, i);
      && (r.result.Success? <==> j == |rows|)
      && (r.result.Success? ==> |r.result.value| == |rows| - i)
      && (r.result.Success? ==>
            forall n :: 0 <= n < |rows| - i ==> r.result.value[n] == driver(schema.tableName, i + n).insertId)
      && (r.result.Failure? ==>
            r.result.error == InsertSeed(schema, rows[j], driver(schema.tableName, j)).result.error)
    decreases |rows| - i
  {
    if i < |rows| && InsertSeed(schema, rows[i], driver(schema.tableName, i)).result.Success? {
      SeedFromStopsAtFirstFailure(schema, rows, i + 1, driver);
      var r := SeedFrom(schema, rows, i, driver);
      var rest := SeedFrom(schema, rows, i + 1, driver);
      if r.result.Success? {
        forall n | 0 <= n < |rows| - i ensures r.result.value[n] == driver(schema.tableName, i + n).insertId {
          if n > 0 {
            assert r.result.value[n] == rest.result.value[n - 1];
          }
        }
      }
    }
  }

  /**
   * Seeding from `i` hands the driver one insert for each row before the first failing row
   * `j`, plus row `j`'s own insert when its columns were known.
   */
  lemma {:induction false} SeedFromCountsInserts(schema: Schema, rows: seq<Row>, i: nat, driver: Driver)
    requires i <= |rows|
    ensures var r, j := SeedFrom(schema, rows, i, driver), FirstFailedRow(schema, rows, driver, i);
      |r.inserts| == j - i + (if j < |rows| && InsertSeed(schema, rows[j], driver(schema.tableName, j)).insert.Some? then 1 else 0)
    decreases |rows| - i
  {
    if i < |rows| {
      var attempt := InsertSeed(schema, rows[i], driver(schema.tableName, i));
      var performed := if attempt.insert.Some? then [attempt.insert.value] else [];
      if attempt.result.Success? {
        SeedFromCountsInserts(schema, rows, i + 1, driver);
        assert SeedFrom(schema, rows, i, driver).inserts == performed + SeedFrom(schema, rows, i + 1, driver).inserts;
        assert FirstFailedRow(schema, rows, driver, i) == FirstFailedRow(schema, rows, driver, i + 1);
      } else {
        assert SeedFrom(schema, rows, i, driver).inserts == performed;
        assert FirstFailedRow(schema, rows, driver, i) == i;
      }
    }
  }

  /** The inserts seeding from `i` hands the driver are for rows `i`, `i + 1`, ... in order. */
  lemma {:induction false} SeedFromInsertsInRowOrder(schema: Schema, rows: seq<Row>, i: nat, driver: Driver)
    requires i <= |rows|
    ensures var r := SeedFrom(schema, rows, i, driver);
      && |r.inserts| <= |rows| - i
      && forall n :: 0 <= n < |r.inserts| ==> r.inserts[n].row == rows[i + n] && r.inserts[n].table == schema.tableName
    decreases |rows| - i
  {
    if i < |rows| {
      var attempt := InsertSeed(schema, rows[i], driver(schema.tableName, i));
      if attempt.result.Success? {
        SeedFromInsertsInRowOrder(schema, rows, i + 1, driver);
        var r := SeedFrom(schema, rows, i, driver);
        var rest := SeedFrom(schema, rows, i + 1, driver);
        assert r.inserts == [attempt.insert.value] + rest.inserts;
        forall n | 0 <= n < |r.inserts|
          ensures r.inserts[n].row == rows[i + n] && r.inserts[n].table == schema.tableName
        {
          if n > 0 {
            assert r.inserts[n] == rest.inserts[n - 1];
          }
        }
      }
    }
  }

  /**
   * Seeds a table. Without error the result holds one id per seed row (none for no rows);
   * otherwise the rows before the failing one stay inserted, and a row with an unknown
   * column is never handed to the driver.
   */
  function Seed(schema: Schema, rows: seq<Row>, driver: Driver): (r: SeedRun)
    ensures r.result.Success? <==> forall n :: 0 <= n < |rows| ==> RowSeeds(schema, rows, driver, n)
    ensures r.result.Success? ==> |r.result.value| == |rows| && |r.inserts| == |rows|
    ensures rows == [] ==> r == SeedRun([], Success([]))
    ensures var j := FirstFailedRow(schema, rows, driver, 0);
      r.result.Failure? ==>
        && j < |rows|
        && r.result.error == InsertSeed(schema, rows[j], driver(schema.tableName, j)).result.error
        && |r.inserts| == j + (if InsertSeed(schema, rows[j], driver(schema.tableName, j)).insert.Some? then 1 else 0)
    ensures |r.inserts| <= |rows|
    ensures forall n :: 0 <= n < |r.inserts| ==> r.inserts[n].row == rows[n] && r.inserts[n].table == schema.tableName
  {
    SeedFromStopsAtFirstFailure(schema, rows, 0, driver);
    SeedFromCountsInserts(schema, rows, 0, driver);
    SeedFromInsertsInRowOrder(schema, rows, 0, driver);
    SeedFrom(schema, rows, 0, driver)
  }
}
