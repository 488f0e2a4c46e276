/**
 * The repository's test fixtures and scenarios, restated over the model: two units, `Foo`
 * (two typed columns, two seed rows) and `Bar` (one column, no seed rows), a builder that
 * always succeeds, and drivers that report success or an error for every insert.
 */
module Scenarios {
  import opened Results
  import opened Collections
  import opened TableSchema
  import opened MigrationException
  import opened MigrationLogRecord
  import opened MigrationLogManager
  import opened DatabaseMigration
  import opened MigrationSeeder
  import opened MigrationManager

  const FooTable := "uu_foo_table"
  const BarTable := "uu_bar_table"

  /** Foo's seed hook: appends two rows to the rows it is given. */
  function FooSeeds(seeds: seq<Row>): seq<Row> {
    seeds + [[Field("foo", Text("text1")), Field("number", Number(1))],
             [Field("foo", Text("text2")), Field("number", Number(2))]]
  }

  const Foo: Migration :=
    NewMigration(FooTable, SchemaDefinition([Column("foo", Some("text"), []), Column("number", Some("int"), [])], [], []), FooSeeds)

  const Bar: Migration :=
    NewMigration(BarTable, SchemaDefinition([Column("bar", Some("text"), [])], [], []), DefaultSeed)

  /** A builder that reports success for every table. */
  const AlwaysBuilt: string -> bool := (t: string) => true

  /** A builder that reports failure for every table, as an unconfigured mock does. */
  const NeverBuilt: string -> bool := (t: string) => false

  /** A driver that reports no error and id 24 for every insert. */
  const QuietDriver: Driver := (t: string, n: nat) => Insertion("", 24)

  /** A driver that reports an error after every insert. */
  const FailingDriver: Driver := (t: string, n: nat) => Insertion("MOCK ERROR", 1)

  /** The units Foo and Bar, filed under their table names. */
  const FooBarUnits: map<string, Migration> := map[FooTable := Foo, BarTable := Bar]

  /** A manager over an empty option store, holding Foo then Bar. */
  function FooBarManager(key: string): (m: Manager)
    ensures m.Valid() && m.order == [FooTable, BarTable] && m.units == FooBarUnits
    ensures m.log.details == map[] && m.log.optionKey == key
    ensures Consistent(m.log)
  {
    var empty := Manager([], map[], LogManager(key, map[], map[]));
    AddMigration(AddMigration(empty, Foo), Bar)
  }

  /** The log key defaults when none is given, and a custom key is used as given. */
  lemma LogKeyScenario()
    ensures Load(map[], None).Success? && GetLogKey(Load(map[], None).value) == "pinkcrab_migration_log"
    ensures Load(map[], Some("custom")).Success? && GetLogKey(Load(map[], Some("custom")).value) == "custom"
  {
  }

  /**
   * An option that does not decode is an error; a missing one gives an empty log, where no
   * table is seeded.
   */
  lemma LoadScenario()
    ensures Load(map["invalid_custom_log" := Corrupt], Some("invalid_custom_log")).Failure?
    ensures var r := Load(map[], Some("custom_log"));
      r.Success? && r.value.details == map[] && !IsSeeded(r.value, Foo.schema)
  {
  }

  /**
   * Upserting into an empty log creates the record; marking it seeded flips the flag; removing
   * it deletes the record.
   */
  lemma LogLifecycleScenario(digest: Digest, now: nat, later: nat)
    ensures var log := Load(map[], Some("test_upsert_min_migration")).value;
      var created := UpsertMigration(log, digest, Foo.schema, now);
      && !HasMigration(log, Foo.schema)
      && HasMigration(created, Foo.schema) && !IsSeeded(created, Foo.schema)
      && IsSeeded(MarkTableSeeded(created, Foo.schema, later), Foo.schema)
      && !HasMigration(RemoveMigration(created, Foo.schema), Foo.schema)
  {
  }

  /** Creating with Bar excluded logs Foo and not Bar. */
  lemma CreateSkipsExcludedScenario(digest: Digest, now: nat)
    ensures var r := CreateTables(FooBarManager("bar"), [BarTable], AlwaysBuilt, digest, now);
      HasMigration(r.log, Foo.schema) && !HasMigration(r.log, Bar.schema)
  {
    var m := FooBarManager("bar");
    CreateTablesEffect(m, [BarTable], AlwaysBuilt, digest, now);
    assert FooTable in ToCreate(m, [BarTable], digest);
  }

  /** With nothing excluded and every build succeeding, both tables are logged, unseeded. */
  lemma CreateBothScenario(key: string, digest: Digest, now: nat)
    ensures var r := CreateTables(FooBarManager(key), [], AlwaysBuilt, digest, now);
      && r.Valid() && r.units == FooBarUnits
      && HasMigration(r.log, Foo.schema) && !IsSeeded(r.log, Foo.schema)
      && HasMigration(r.log, Bar.schema) && !IsSeeded(r.log, Bar.schema)
  {
    var m := FooBarManager(key);
    CreateTablesEffect(m, [], AlwaysBuilt, digest, now);
    CreateTablesCompletes(m, [], AlwaysBuilt, digest, now, FooTable);
    CreateTablesCompletes(m, [], AlwaysBuilt, digest, now, BarTable);
  }

  /** Foo's two rows insert cleanly through the quiet driver, giving two ids. */
  lemma FooSeedsScenario()
    ensures Seed(Foo.schema, Foo.seeds, QuietDriver).result == Success([24, 24])
  {
    var rows := Foo.seeds;
    assert |rows| == 2;
    assert RowSeeds(Foo.schema, rows, QuietDriver, 0);
    assert RowSeeds(Foo.schema, rows, QuietDriver, 1);
    SeedFromStopsAtFirstFailure(Foo.schema, rows, 0, QuietDriver);
    var r := Seed(Foo.schema, rows, QuietDriver);
    assert r.result.Success?;
    assert r.result.value[0] == 24 && r.result.value[1] == 24;
    assert r.result.value == [24, 24];
  }

  /** Seeding a manager holding Foo and Bar, with Foo logged, runs through without failure. */
  lemma SeedLoggedFooBarRunsThrough(m: Manager, now: nat)
    requires m.Valid() && m.units == FooBarUnits
    requires HasMigration(m.log, Foo.schema)
    ensures SeedTables(m, [], QuietDriver, now).failure.None?
  {
    FooBarSeedsCleanly(m);
    SeedTablesRunsThrough(m, [], QuietDriver, now);
  }

  /** With Foo logged, both units seed without error and every unit with rows is logged. */
  lemma FooBarSeedsCleanly(m: Manager)
    requires m.Valid() && m.units == FooBarUnits
    requires HasMigration(m.log, Foo.schema)
    ensures forall t :: t in m.units && t !in [] ==>
      && Seed(m.units[t].schema, m.units[t].seeds, QuietDriver).result.Success?
      && (|m.units[t].seeds| > 0 ==> t in m.log.details)
  {
    FooSeedsScenario();
  }

  /** Seeding a manager holding Foo and Bar, both logged and unseeded, marks Foo alone. */
  lemma SeedLoggedFooBarScenario(m: Manager, now: nat)
    requires m.Valid() && m.units == FooBarUnits
    requires HasMigration(m.log, Foo.schema) && HasMigration(m.log, Bar.schema)
    requires !IsSeeded(m.log, Foo.schema) && !IsSeeded(m.log, Bar.schema)
    ensures var r := SeedTables(m, [], QuietDriver, now);
      && r.failure.None?
      && IsSeeded(r.manager.log, Foo.schema)
      && HasMigration(r.manager.log, Bar.schema) && !IsSeeded(r.manager.log, Bar.schema)
  {
    SeedLoggedFooBarRunsThrough(m, now);
    FooBarSeedsCleanly(m);
    SeedTablesCompletes(m, [], QuietDriver, now, FooTable);
    SeedTablesCompletes(m, [], QuietDriver, now, BarTable);
    SeedTablesStops(m, [], QuietDriver, now);
  }

  /** After creating both tables, seeding marks Foo (which has rows) and not Bar (which has none). */
  lemma CreateThenSeedScenario(digest: Digest, now: nat, later: nat)
    ensures var created := CreateTables(FooBarManager("seed"), [], AlwaysBuilt, digest, now);
      var r := SeedTables(created, [], QuietDriver, later);
      && r.failure.None?
      && IsSeeded(r.manager.log, Foo.schema)
      && HasMigration(r.manager.log, Bar.schema) && !IsSeeded(r.manager.log, Bar.schema)
  {
    CreateBothScenario("seed", digest, now);
    SeedLoggedFooBarScenario(CreateTables(FooBarManager("seed"), [], AlwaysBuilt, digest, now), later);
  }

  /** Dropping with Bar excluded removes Foo's record and keeps Bar's. */
  lemma DropSkipsExcludedScenario(digest: Digest, now: nat)
    ensures var created := CreateTables(FooBarManager("drop_tables"), [], AlwaysBuilt, digest, now);
      var r := DropTables(created, [BarTable], AlwaysBuilt);
      && r.failure.None?
      && !HasMigration(r.manager.log, Foo.schema) && HasMigration(r.manager.log, Bar.schema)
  {
    var m := FooBarManager("drop_tables");
    CreateTablesEffect(m, [], AlwaysBuilt, digest, now);
    var created := CreateTables(m, [], AlwaysBuilt, digest, now);
    assert FooTable in ToCreate(m, [], digest) && BarTable in ToCreate(m, [], digest);
    DropTablesEffect(created, [BarTable], AlwaysBuilt);
    assert ToDrop(created, [BarTable]) == [FooTable];
  }

  /**
   * A manager holding Foo alone, whose builder reports failure for every create and drop: the
   * create pass logs nothing, and the drop pass fails with code 3 on Foo's table and leaves the
   * log as it was.
   */
  lemma DropFailureScenario(digest: Digest, now: nat)
    ensures NewManager(map[], Some("log_key")).Success?
    ensures var m := AddMigration(NewManager(map[], Some("log_key")).value, Foo);
      var created := CreateTables(m, [], NeverBuilt, digest, now);
      var r := DropTables(created, [], NeverBuilt);
      && created.log == m.log
      && r.failure == Some(FailedToDropTable(FooTable))
      && r.failure.value.Code() == 3
      && r.manager.log == created.log
  {
    var m := AddMigration(NewManager(map[], Some("log_key")).value, Foo);
    assert m.order == [FooTable];
    CreateTablesEffect(m, [], NeverBuilt, digest, now);
    var created := CreateTables(m, [], NeverBuilt, digest, now);
    var todo := ToCreate(m, [], digest);
    assert todo == [FooTable] || todo == [];
    if todo != [] {
      assert !NeverBuilt(todo[0]) && todo[1..] == [];
      assert CreateEach(m.log, m.units, todo, NeverBuilt, digest, now) == CreateEach(m.log, m.units, [], NeverBuilt, digest, now);
    }
    assert created.log == m.log;
    assert ToDrop(created, []) == [FooTable];
  }

  /**
   * A driver error after the first insert raises code 2 with the driver's text; the first row
   * stays inserted and the second is never attempted.
   */
  lemma DriverErrorScenario()
    ensures var r := Seed(Foo.schema, Foo.seeds, FailingDriver);
      && r.result == Failure(FailedToInsertSeed("MOCK ERROR", FooTable))
      && r.result.error.Code() == 2
      && |r.inserts| == 1 && r.inserts[0].row == Foo.seeds[0]
  {
    var r := Seed(Foo.schema, Foo.seeds, FailingDriver);
    assert !RowSeeds(Foo.schema, Foo.seeds, FailingDriver, 0);
    assert FirstFailedRow(Foo.schema, Foo.seeds, FailingDriver, 0) == 0;
  }

  /** Asking for a column the schema does not define raises code 1, naming column and table. */
  lemma UnknownColumnScenario()
    ensures ColumnType(Foo.schema, "FAKE_COLUMN") == Failure(SeedColumnDoesntExist("FAKE_COLUMN", FooTable))
    ensures ColumnType(Foo.schema, "number") == Success(IntegerFormat)
    ensures ColumnType(Foo.schema, "foo") == Success(StringFormat)
  {
    assert !HasColumn(Foo.schema, "FAKE_COLUMN");
    assert ToUpper("int") == "INT" by {
      assert ToUpper("int")[0] == 'I' && ToUpper("int")[1] == 'N' && ToUpper("int")[2] == 'T';
    }
    assert ToUpper("text") == "TEXT" by {
      assert ToUpper("text")[0] == 'T' && ToUpper("text")[1] == 'E' && ToUpper("text")[2] == 'X';
      assert ToUpper("text")[3] == 'T';
    }
  }
}
