/**
 * The migration manager: an insertion-ordered collection of units keyed by table name, and
 * the create, seed and drop passes that reconcile them with the migration log. The table
 * builder and the database driver are oracles: `built(t)` and `dropped(t)` say whether the
 * builder reported success for table `t`, and a `Driver` gives each insert's report.
 */
module MigrationManager {
  import opened Results
  import opened Collections
  import opened TableSchema
  import opened MigrationException
  import opened MigrationLogRecord
  import opened MigrationLogManager
  import opened DatabaseMigration
  import opened MigrationSeeder

  /** The units, keyed by table name in the order the names were first added, and the log. */
  datatype Manager = Manager(order: seq<string>, units: map<string, Migration>, log: LogManager)
  {
    /** Every name appears once in the order, and each unit is filed under its own table name. */
    predicate Valid() {
      && Distinct(order)
      && (forall i :: 0 <= i < |order| ==> order[i] in units)
      && (forall k :: k in units ==> k in order && units[k].tableName == k && units[k].Valid())
    }
  }

  /** The state of a manager after a pass that can fail part-way, and the failure if any. */
  datatype Outcome<E> = Outcome(manager: Manager, failure: Option<E>)

  /** A manager with no units, whose log is loaded from `key` (or the default key). */
  function NewManager(options: Options, key: Option<string>): (r: Result<Manager, LoadError>)
    ensures r.Success? ==> r.value.Valid() && r.value.units == map[] && Load(options, key) == Success(r.value.log)
    ensures r.Failure? <==> Load(options, key).Failure?
  {
    match Load(options, key)
    case Failure(e) => Failure(e)
    case Success(log) => Success(Manager([], map[], log))
  }

  /**
   * Adds a unit under its table name. The last unit added for a name wins, and a name added
   * again keeps the position it was first given.
   */
  function AddMigration(m: Manager, unit: Migration): (r: Manager)
    ensures unit.tableName in r.units && r.units[unit.tableName] == unit
    ensures forall k :: k != unit.tableName ==> Untouched(m.units, r.units, k)
    ensures r.log == m.log
    ensures |m.order| <= |r.order| && r.order[..|m.order|] == m.order
    ensures m.Valid() ==> (|r.order| == |m.order| <==> unit.tableName in m.units)
    ensures m.Valid() && unit.Valid() ==> r.Valid()
  {
    var name := unit.tableName;
    var order := if name in m.units then m.order else m.order + [name];
    Manager(order, m.units[name := unit], m.log)
  }

  /** The units in collection order. */
  function GetMigrations(m: Manager): (r: seq<Migration>)
    requires m.Valid()
    ensures |r| == |m.order|
    ensures forall i :: 0 <= i < |r| ==> r[i].GetTableName() == m.order[i] && r[i] == m.units[r[i].GetTableName()]
  {
    seq(|m.order|, i requires 0 <= i < |m.order| => m.units[m.order[i]])
  }

  /** Re-adding a table name replaces its unit in place; every other unit keeps its position. */
  lemma ReAddKeepsPosition(m: Manager, unit: Migration, i: nat)
    requires m.Valid() && unit.Valid()
    requires i < |m.order|
    ensures var r := AddMigration(m, unit);
      GetMigrations(r)[i] == (if m.order[i] == unit.tableName then unit else GetMigrations(m)[i])
  {
  }

  // ----- create -----

  /** The unit is not excluded and the log says its schema needs migrating. */
  predicate ShouldCreate(m: Manager, exclude: seq<string>, digest: Digest, k: string) {
    k !in exclude && k in m.units && CanMigrate(m.log, digest, m.units[k].schema)
  }

  /** The tables the create pass hands to the builder, in collection order. */
  function ToCreate(m: Manager, exclude: seq<string>, digest: Digest): (r: seq<string>)
    ensures forall k :: k in r <==> k in m.order && k !in exclude && k in m.units && CanMigrate(m.log, digest, m.units[k].schema)
  {
    Filter(m.order, k => ShouldCreate(m, exclude, digest, k))
  }

  /** Builds each listed table and upserts its log entry when the builder reports success. */
  function CreateEach(log: LogManager, units: map<string, Migration>, todo: seq<string>, built: string -> bool, digest: Digest, now: nat): LogManager
    requires forall k :: k in todo ==> k in units
    decreases |todo|
  {
    if todo == [] then log
    else
      var k := todo[0];
      var next := if built(k) then UpsertMigration(log, digest, units[k].schema, now) else log;
      CreateEach(next, units, todo[1..], built, digest, now)
  }

  /** The create pass: the candidates are chosen first, then each is built and logged. */
  function CreateTables(m: Manager, exclude: seq<string>, built: string -> bool, digest: Digest, now: nat): Manager
    requires m.Valid()
  {
    m.(log := CreateEach(m.log, m.units, ToCreate(m, exclude, digest), built, digest, now))
  }

  lemma NothingListedMeansEmpty(s: seq<string>)
    ensures (forall x :: x !in s) ==> s == []
  {
    if s != [] {
      assert s[0] in s;
    }
  }

  lemma DistinctTail(s: seq<string>)
    requires Distinct(s) && s != []
    ensures Distinct(s[1..]) && s[0] !in s[1..]
  {
    assert forall i :: 0 <= i < |s[1..]| ==> s[1..][i] == s[i + 1];
  }

  /**
   * A table listed and built gets exactly the record an upsert into the initial log gives it;
   * every other table's record is left alone; the log stays consistent.
   */
  lemma {:induction false} CreateEachEffect(log: LogManager, units: map<string, Migration>, todo: seq<string>, built: string -> bool, digest: Digest, now: nat)
    requires forall k :: k in todo ==> k in units && units[k].schema.tableName == k
    requires Distinct(todo)
    ensures var r := CreateEach(log, units, todo, built, digest, now);
      && r.optionKey == log.optionKey
      && (Consistent(log) ==> Consistent(r))
      && (forall k :: k in todo && built(k) ==>
            Untouched(r.details, UpsertMigration(log, digest, units[k].schema, now).details, k))
      && (forall k :: !(k in todo && built(k)) ==> Untouched(log.details, r.details, k))
    decreases |todo|
  {
    if todo != [] {
      var k := todo[0];
      var rest := todo[1..];
      DistinctTail(todo);
      var next := if built(k) then UpsertMigration(log, digest, units[k].schema, now) else log;
      CreateEachEffect(next, units, rest, built, digest, now);
      var r := CreateEach(log, units, todo, built, digest, now);
      assert r == CreateEach(next, units, rest, built, digest, now);
      if built(k) && Consistent(log) {
        MutationsKeepConsistent(log, digest, units[k].schema, now);
      }
      forall k' | k' != k
        ensures Untouched(log.details, next.details, k')
      {
        if built(k) {
          MutationsAreLocal(log, digest, units[k].schema, now, k');
        }
      }
      forall k' | !(k' in todo && built(k'))
        ensures Untouched(log.details, r.details, k')
      {
        if k' == k {
          assert k' !in rest;
        } else {
          assert !(k' in rest && built(k'));
          assert Untouched(log.details, next.details, k') && Untouched(next.details, r.details, k');
        }
      }
      forall k' | k' in todo && built(k')
        ensures Untouched(r.details, UpsertMigration(log, digest, units[k'].schema, now).details, k')
      {
        if k' != k {
          assert k' in rest;
          MutationsReadOnlyTheirRecord(next, log, digest, units[k'].schema, now);
        }
      }
    }
  }

  /**
   * The create pass logs every candidate the builder built, with the hash of its schema, and
   * changes no other record: a failed build and an excluded table leave the log as it was.
   */
  lemma CreateTablesEffect(m: Manager, exclude: seq<string>, built: string -> bool, digest: Digest, now: nat)
    requires m.Valid()
    ensures var r := CreateTables(m, exclude, built, digest, now);
      && r.Valid() && r.order == m.order && r.units == m.units
      && (Consistent(m.log) ==> Consistent(r.log))
      && (forall k :: k in ToCreate(m, exclude, digest) && built(k) ==>
            && CheckHash(r.log, digest, m.units[k].schema)
            && r.log.details[k] == UpsertMigration(m.log, digest, m.units[k].schema, now).details[k])
      && (forall k :: !(k in ToCreate(m, exclude, digest) && built(k)) ==> Untouched(m.log.details, r.log.details, k))
      && (forall k :: k in exclude ==> Untouched(m.log.details, r.log.details, k))
  {
    var todo := ToCreate(m, exclude, digest);
    FilterDistinct(m.order, k => ShouldCreate(m, exclude, digest, k));
    CreateEachEffect(m.log, m.units, todo, built, digest, now);
  }

  /**
   * After the create pass, a table not excluded whose build succeeded is logged with the hash
   * of its current schema and keeps its seeded flag.
   */
  lemma CreateTablesCompletes(m: Manager, exclude: seq<string>, built: string -> bool, digest: Digest, now: nat, k: string)
    requires m.Valid()
    requires k in m.units && k !in exclude && built(k)
    ensures var after, schema := CreateTables(m, exclude, built, digest, now).log, m.units[k].schema;
      && HasMigration(after, schema) && CheckHash(after, digest, schema) && !CanMigrate(after, digest, schema)
      && (IsSeeded(after, schema) <==> IsSeeded(m.log, schema))
  {
    var after := CreateTables(m, exclude, built, digest, now).log;
    var schema := m.units[k].schema;
    CreateTablesEffect(m, exclude, built, digest, now);
    if CanMigrate(m.log, digest, schema) {
      var upserted := UpsertMigration(m.log, digest, schema, now);
      MutationsReadOnlyTheirRecord(upserted, after, digest, schema, now);
    } else {
      MutationsReadOnlyTheirRecord(m.log, after, digest, schema, now);
    }
  }

  /**
   * Running the create pass again only rebuilds the candidates whose build failed: once every
   * build has succeeded, a second pass makes no builder calls and changes nothing, whatever the
   * builder would now report.
   */
  lemma CreateTablesIdempotent(m: Manager, exclude: seq<string>, built: string -> bool, rebuilt: string -> bool, digest: Digest, now: nat, later: nat)
    requires m.Valid()
    ensures var r := CreateTables(m, exclude, built, digest, now);
      forall k :: k in ToCreate(r, exclude, digest) <==> k in ToCreate(m, exclude, digest) && !built(k)
    ensures (forall k :: k in ToCreate(m, exclude, digest) ==> built(k)) ==>
      var r := CreateTables(m, exclude, built, digest, now);
      ToCreate(r, exclude, digest) == [] && CreateTables(r, exclude, rebuilt, digest, later) == r
  {
    var r := CreateTables(m, exclude, built, digest, now);
    CreateTablesEffect(m, exclude, built, digest, now);
    forall k ensures k in ToCreate(r, exclude, digest) <==> k in ToCreate(m, exclude, digest) && !built(k) {
      if k in ToCreate(m, exclude, digest) && built(k) {
        assert CheckHash(r.log, digest, m.units[k].schema);
      } else if k in m.units {
        MutationsReadOnlyTheirRecord(m.log, r.log, digest, m.units[k].schema, now);
      }
    }
    if forall k :: k in ToCreate(m, exclude, digest) ==> built(k) {
      NothingListedMeansEmpty(ToCreate(r, exclude, digest));
    }
  }

  // ----- seed -----

  /** Marking and removing read no hash; the locality lemmas about them take this one. */
  const UnusedDigest: Digest := (s: Schema) => ""

  /** The unit is not excluded and its table is not yet seeded. */
  predicate ShouldSeed(m: Manager, exclude: seq<string>, k: string) {
    k !in exclude && k in m.units && !IsSeeded(m.log, m.units[k].schema)
  }

  /** The tables the seed pass hands to the seeder, in collection order. */
  function ToSeed(m: Manager, exclude: seq<string>): (r: seq<string>)
    ensures forall k :: k in r <==> k in m.order && k !in exclude && k in m.units && !IsSeeded(m.log, m.units[k].schema)
  {
    Filter(m.order, k => ShouldSeed(m, exclude, k))
  }

  /**
   * Why the seed pass stopped: the seeder raised an error, or rows were inserted into a table
   * that has no log record to mark (the source then dereferences the missing record).
   */
  datatype SeedFailure = Raised(error: MigrationError) | MissingLogEntry(table: string)

  /** The log after a partial seed pass, and the failure that stopped it. */
  datatype SeedProgress = SeedProgress(log: LogManager, failure: Option<SeedFailure>)

  /** What seeding each table returns: the inserted ids, or the error the seeder raised. */
  type SeedOutcomes = string -> Result<seq<int>, MigrationError>

  /** The seeder's outcome for each unit, through `driver`. */
  function SeedOutcomesOf(units: map<string, Migration>, driver: Driver): (seeded: SeedOutcomes)
    ensures forall k :: k in units ==> seeded(k) == Seed(units[k].schema, units[k].seeds, driver).result
  {
    k => if k in units then Seed(units[k].schema, units[k].seeds, driver).result else Success([])
  }

  /** Seeding table `k` stops the pass, given the tables that have log records. */
  predicate SeedStops(logged: set<string>, seeded: SeedOutcomes, k: string) {
    seeded(k).Failure? || (|seeded(k).value| > 0 && k !in logged)
  }

  /** The failure seeding table `k` stops the pass with. */
  function SeedFailureOf(logged: set<string>, seeded: SeedOutcomes, k: string): SeedFailure
    requires SeedStops(logged, seeded, k)
  {
    if seeded(k).Failure? then Raised(seeded(k).error) else MissingLogEntry(k)
  }

  /** The position of the first listed table whose seeding stops the pass, or `|todo|`. */
  function FirstSeedFailure(logged: set<string>, seeded: SeedOutcomes, todo: seq<string>): (j: nat)
    ensures j <= |todo|
    ensures forall i :: 0 <= i < j ==> !SeedStops(logged, seeded, todo[i])
    ensures j < |todo| ==> SeedStops(logged, seeded, todo[j])
  {
    if todo == [] || SeedStops(logged, seeded, todo[0]) then 0
    else 1 + FirstSeedFailure(logged, seeded, todo[1..])
  }

  /** Seeds each listed table, marking it seeded when the seeder returned at least one id. */
  function SeedEach(log: LogManager, units: map<string, Migration>, todo: seq<string>, seeded: SeedOutcomes, now: nat): SeedProgress
    requires forall k :: k in todo ==> k in units
    decreases |todo|
  {
    if todo == [] then SeedProgress(log, None)
    else
      var k := todo[0];
      var schema := units[k].schema;
      if seeded(k).Failure? then SeedProgress(log, Some(Raised(seeded(k).error)))
      else if |seeded(k).value| == 0 then SeedEach(log, units, todo[1..], seeded, now)
      else if !HasMigration(log, schema) then SeedProgress(log, Some(MissingLogEntry(units[k].tableName)))
      else SeedEach(MarkTableSeeded(log, schema, now), units, todo[1..], seeded, now)
  }

  /** The seed pass over the outcomes `seeded`: the candidates are chosen first, then each is seeded in order. */
  function SeedTablesWith(m: Manager, exclude: seq<string>, seeded: SeedOutcomes, now: nat): Outcome<SeedFailure>
    requires m.Valid()
  {
    var progress := SeedEach(m.log, m.units, ToSeed(m, exclude), seeded, now);
    Outcome(m.(log := progress.log), progress.failure)
  }

  /** The seed pass, running the seeder through `driver`. */
  function SeedTables(m: Manager, exclude: seq<string>, driver: Driver, now: nat): Outcome<SeedFailure>
    requires m.Valid()
  {
    SeedTablesWith(m, exclude, SeedOutcomesOf(m.units, driver), now)
  }

  /** Seeding stops at the first table `j` whose seeding stops the pass, with that failure. */
  lemma {:induction false} SeedEachStops(log: LogManager, units: map<string, Migration>, todo: seq<string>, seeded: SeedOutcomes, now: nat)
    requires forall k :: k in todo ==> k in units && units[k].schema.tableName == k && units[k].tableName == k
    ensures var r, j := SeedEach(log, units, todo, seeded, now), FirstSeedFailure(log.details.Keys, seeded, todo);
      && r.log.optionKey == log.optionKey
      && r.log.details.Keys == log.details.Keys
      && (r.failure.None? <==> j == |todo|)
      && (j < |todo| ==> r.failure == Some(SeedFailureOf(log.details.Keys, seeded, todo[j])))
    decreases |todo|
  {
    if todo != [] && !SeedStops(log.details.Keys, seeded, todo[0]) {
      var k := todo[0];
      var next := if |seeded(k).value| > 0 then MarkTableSeeded(log, units[k].schema, now) else log;
      SeedEachStops(next, units, todo[1..], seeded, now);
    }
  }

  /**
   * Seeding leaves alone every record except those of the tables before the first failure
   * `j` whose seeder returned ids.
   */
  lemma {:induction false} SeedEachLeavesOthers(log: LogManager, units: map<string, Migration>, todo: seq<string>, seeded: SeedOutcomes, now: nat)
    requires forall k :: k in todo ==> k in units && units[k].schema.tableName == k && units[k].tableName == k
    requires Distinct(todo)
    ensures var r, j := SeedEach(log, units, todo, seeded, now), FirstSeedFailure(log.details.Keys, seeded, todo);
      forall k :: !(k in todo[..j] && seeded(k).Success? && |seeded(k).value| > 0) ==>
        Untouched(log.details, r.log.details, k)
    decreases |todo|
  {
    if todo != [] && !SeedStops(log.details.Keys, seeded, todo[0]) {
      var k := todo[0];
      var rest := todo[1..];
      DistinctTail(todo);
      var marks := |seeded(k).value| > 0;
      var next := if marks then MarkTableSeeded(log, units[k].schema, now) else log;
      SeedEachLeavesOthers(next, units, rest, seeded, now);
      var r := SeedEach(log, units, todo, seeded, now);
      assert r == SeedEach(next, units, rest, seeded, now);
      var j := FirstSeedFailure(log.details.Keys, seeded, todo);
      assert j == 1 + FirstSeedFailure(next.details.Keys, seeded, rest);
      assert todo[..j] == [k] + rest[..j - 1];
      forall x | !(x in todo[..j] && seeded(x).Success? && |seeded(x).value| > 0)
        ensures Untouched(log.details, r.log.details, x)
      {
        if x == k {
          assert x !in rest[..j - 1];
        } else {
          if marks {
            MutationsAreLocal(log, UnusedDigest, units[k].schema, now, x);
          }
          assert !(x in rest[..j - 1] && seeded(x).Success? && |seeded(x).value| > 0);
        }
      }
    }
  }

  /**
   * Each table before the first failure `j` whose seeder returned ids has a record, and ends
   * with exactly the record marking its initial record gives.
   */
  lemma {:induction false} SeedEachMarks(log: LogManager, units: map<string, Migration>, todo: seq<string>, seeded: SeedOutcomes, now: nat)
    requires forall k :: k in todo ==> k in units && units[k].schema.tableName == k && units[k].tableName == k
    requires Distinct(todo)
    ensures var r, j := SeedEach(log, units, todo, seeded, now), FirstSeedFailure(log.details.Keys, seeded, todo);
      forall i :: 0 <= i < j && |seeded(todo[i]).value| > 0 ==>
        && HasMigration(log, units[todo[i]].schema)
        && Untouched(r.log.details, MarkTableSeeded(log, units[todo[i]].schema, now).details, todo[i])
    decreases |todo|
  {
    if todo != [] && !SeedStops(log.details.Keys, seeded, todo[0]) {
      var k := todo[0];
      var rest := todo[1..];
      DistinctTail(todo);
      var marks := |seeded(k).value| > 0;
      var next := if marks then MarkTableSeeded(log, units[k].schema, now) else log;
      SeedEachMarks(next, units, rest, seeded, now);
      SeedEachLeavesOthers(next, units, rest, seeded, now);
      var r := SeedEach(log, units, todo, seeded, now);
      assert r == SeedEach(next, units, rest, seeded, now);
      var j := FirstSeedFailure(log.details.Keys, seeded, todo);
      assert j == 1 + FirstSeedFailure(next.details.Keys, seeded, rest);
      if marks {
        assert k !in rest[..j - 1];
      }
      forall i | 1 <= i < j && |seeded(todo[i]).value| > 0
        ensures HasMigration(log, units[todo[i]].schema)
        ensures Untouched(r.log.details, MarkTableSeeded(log, units[todo[i]].schema, now).details, todo[i])
      {
        assert todo[i] == rest[i - 1] && todo[i] != k;
        if marks {
          MutationsAreLocal(log, UnusedDigest, units[k].schema, now, todo[i]);
        }
        MutationsReadOnlyTheirRecord(next, log, UnusedDigest, units[todo[i]].schema, now);
      }
    }
  }

  /** The seed pass keeps the log consistent. */
  lemma {:induction false} SeedEachKeepsConsistent(log: LogManager, units: map<string, Migration>, todo: seq<string>, seeded: SeedOutcomes, now: nat)
    requires forall k :: k in todo ==> k in units
    requires Consistent(log)
    ensures Consistent(SeedEach(log, units, todo, seeded, now).log)
    decreases |todo|
  {
    if todo != [] && seeded(todo[0]).Success? {
      var schema := units[todo[0]].schema;
      if |seeded(todo[0]).value| == 0 {
        SeedEachKeepsConsistent(log, units, todo[1..], seeded, now);
      } else if HasMigration(log, schema) {
        MutationsKeepConsistent(log, UnusedDigest, schema, now);
        SeedEachKeepsConsistent(MarkTableSeeded(log, schema, now), units, todo[1..], seeded, now);
      }
    }
  }

  /**
   * The seed pass stops at the first failing candidate `j` and reports its failure: an error
   * the seeder raised (code 1 or 2), or rows inserted into a table without a log record.
   */
  lemma SeedTablesStops(m: Manager, exclude: seq<string>, driver: Driver, now: nat)
    requires m.Valid()
    ensures var r, todo, seeded := SeedTables(m, exclude, driver, now), ToSeed(m, exclude), SeedOutcomesOf(m.units, driver);
      var j := FirstSeedFailure(m.log.details.Keys, seeded, todo);
      && r.manager.Valid() && r.manager.order == m.order && r.manager.units == m.units
      && r.manager.log.details.Keys == m.log.details.Keys
      && (Consistent(m.log) ==> Consistent(r.manager.log))
      && (r.failure.None? <==> j == |todo|)
      && (j < |todo| ==> r.failure == Some(SeedFailureOf(m.log.details.Keys, seeded, todo[j])))
  {
    var todo := ToSeed(m, exclude);
    var seeded := SeedOutcomesOf(m.units, driver);
    SeedEachStops(m.log, m.units, todo, seeded, now);
    if Consistent(m.log) {
      SeedEachKeepsConsistent(m.log, m.units, todo, seeded, now);
    }
  }

  /**
   * The seed pass completes when every table not excluded seeds without error and every such
   * table with seed rows has a log record.
   */
  lemma SeedTablesRunsThrough(m: Manager, exclude: seq<string>, driver: Driver, now: nat)
    requires m.Valid()
    requires forall k :: k in m.units && k !in exclude ==>
      && Seed(m.units[k].schema, m.units[k].seeds, driver).result.Success?
      && (|m.units[k].seeds| > 0 ==> k in m.log.details)
    ensures SeedTables(m, exclude, driver, now).failure.None?
  {
    var todo := ToSeed(m, exclude);
    var seeded := SeedOutcomesOf(m.units, driver);
    forall k | k in todo ensures !SeedStops(m.log.details.Keys, seeded, k) {
      SeedOutcomeCountsRows(m.units, driver, k);
    }
    SeedTablesStops(m, exclude, driver, now);
  }

  /**
   * When every table not excluded seeds without error and those with seed rows are logged, the
   * pass leaves a table not excluded seeded exactly when it already was or it has seed rows.
   */
  lemma SeedTablesCompletes(m: Manager, exclude: seq<string>, driver: Driver, now: nat, k: string)
    requires m.Valid()
    requires forall t :: t in m.units && t !in exclude ==>
      && Seed(m.units[t].schema, m.units[t].seeds, driver).result.Success?
      && (|m.units[t].seeds| > 0 ==> t in m.log.details)
    requires k in m.units && k !in exclude
    ensures var after := SeedTables(m, exclude, driver, now).manager.log;
      IsSeeded(after, m.units[k].schema) <==> IsSeeded(m.log, m.units[k].schema) || |m.units[k].seeds| > 0
  {
    SeedTablesRunsThrough(m, exclude, driver, now);
    var todo := ToSeed(m, exclude);
    if IsSeeded(m.log, m.units[k].schema) {
      SeedTablesLeavesOthers(m, exclude, driver, now);
      MutationsReadOnlyTheirRecord(m.log, SeedTables(m, exclude, driver, now).manager.log, UnusedDigest, m.units[k].schema, now);
    } else {
      SeedTablesStops(m, exclude, driver, now);
      SeedTablesMarks(m, exclude, driver, now);
      var i :| 0 <= i < |todo| && todo[i] == k;
    }
  }

  /** A pass whose every listed table inserts no rows changes nothing and raises nothing. */
  lemma {:induction false} SeedEachSkipsEmpty(log: LogManager, units: map<string, Migration>, todo: seq<string>, seeded: SeedOutcomes, now: nat)
    requires forall k :: k in todo ==> k in units && seeded(k) == Success([])
    ensures SeedEach(log, units, todo, seeded, now) == SeedProgress(log, None)
    decreases |todo|
  {
    if todo != [] {
      assert seeded(todo[0]) == Success([]);
      SeedEachSkipsEmpty(log, units, todo[1..], seeded, now);
    }
  }

  /**
   * Seeding is idempotent through the log: once a pass has run through, a second pass (with
   * any driver, at any time) finds only tables without seed rows, inserts nothing and changes
   * nothing.
   */
  lemma SeedTablesIdempotent(m: Manager, exclude: seq<string>, driver: Driver, redriver: Driver, now: nat, later: nat)
    requires m.Valid()
    requires forall k :: k in m.units && k !in exclude ==>
      && Seed(m.units[k].schema, m.units[k].seeds, driver).result.Success?
      && (|m.units[k].seeds| > 0 ==> k in m.log.details)
    ensures var r := SeedTables(m, exclude, driver, now).manager;
      r.Valid() && SeedTables(r, exclude, redriver, later) == Outcome(r, None)
  {
    var r := SeedTables(m, exclude, driver, now).manager;
    SeedTablesStops(m, exclude, driver, now);
    var todo := ToSeed(r, exclude);
    var reseeded := SeedOutcomesOf(r.units, redriver);
    forall k | k in todo ensures k in r.units && reseeded(k) == Success([]) {
      SeedTablesCompletes(m, exclude, driver, now, k);
      assert |m.units[k].seeds| == 0;
    }
    SeedEachSkipsEmpty(r.log, r.units, todo, reseeded, later);
  }

  /** A successful seeder run returns one id per seed row. */
  lemma SeedOutcomeCountsRows(units: map<string, Migration>, driver: Driver, k: string)
    requires k in units
    ensures var seeded := SeedOutcomesOf(units, driver);
      seeded(k).Success? ==> |seeded(k).value| == |units[k].seeds|
  {
  }

  /** Before the first failure, a candidate ends up seeded exactly when the seeder returned ids. */
  lemma SeedTablesWithMarks(m: Manager, exclude: seq<string>, seeded: SeedOutcomes, now: nat)
    requires m.Valid()
    ensures var after, todo := SeedTablesWith(m, exclude, seeded, now).manager.log, ToSeed(m, exclude);
      var j := FirstSeedFailure(m.log.details.Keys, seeded, todo);
      forall i :: 0 <= i < j ==>
        (IsSeeded(after, m.units[todo[i]].schema) <==> |seeded(todo[i]).value| > 0)
  {
    var todo := ToSeed(m, exclude);
    FilterDistinct(m.order, k => ShouldSeed(m, exclude, k));
    SeedEachMarks(m.log, m.units, todo, seeded, now);
    SeedEachLeavesOthers(m.log, m.units, todo, seeded, now);
    var after := SeedTablesWith(m, exclude, seeded, now).manager.log;
    var j := FirstSeedFailure(m.log.details.Keys, seeded, todo);
    forall i | 0 <= i < j
      ensures IsSeeded(after, m.units[todo[i]].schema) <==> |seeded(todo[i]).value| > 0
    {
      var k := todo[i];
      assert k in todo[..j];
      CandidateMarkedIffIds(m.log, after, m.units[k].schema, |seeded(k).value| > 0, now);
    }
  }

  /** Before the first failure, a candidate ends up seeded exactly when it has seed rows. */
  lemma SeedTablesMarks(m: Manager, exclude: seq<string>, driver: Driver, now: nat)
    requires m.Valid()
    ensures var r, todo, seeded := SeedTables(m, exclude, driver, now), ToSeed(m, exclude), SeedOutcomesOf(m.units, driver);
      var j := FirstSeedFailure(m.log.details.Keys, seeded, todo);
      forall i :: 0 <= i < j ==>
        (IsSeeded(r.manager.log, m.units[todo[i]].schema) <==> |m.units[todo[i]].seeds| > 0)
  {
    var todo := ToSeed(m, exclude);
    var seeded := SeedOutcomesOf(m.units, driver);
    SeedTablesWithMarks(m, exclude, seeded, now);
    var j := FirstSeedFailure(m.log.details.Keys, seeded, todo);
    forall i | 0 <= i < j ensures |seeded(todo[i]).value| == |m.units[todo[i]].seeds| {
      SeedOutcomeCountsRows(m.units, driver, todo[i]);
    }
  }

  /** The seeded flag of a candidate after the pass, from what the pass did to its record. */
  lemma CandidateMarkedIffIds(before: LogManager, after: LogManager, schema: Schema, marked: bool, now: nat)
    requires !IsSeeded(before, schema)
    requires marked ==> HasMigration(before, schema) && Untouched(after.details, MarkTableSeeded(before, schema, now).details, schema.tableName)
    requires !marked ==> Untouched(before.details, after.details, schema.tableName)
    ensures IsSeeded(after, schema) <==> marked
  {
    if marked {
      MutationsReadOnlyTheirRecord(MarkTableSeeded(before, schema, now), after, UnusedDigest, schema, now);
    } else {
      MutationsReadOnlyTheirRecord(before, after, UnusedDigest, schema, now);
    }
  }

  /**
   * The seed pass never touches a table already seeded, a table without seed rows or an
   * excluded table.
   */
  lemma SeedTablesLeavesOthers(m: Manager, exclude: seq<string>, driver: Driver, now: nat)
    requires m.Valid()
    ensures var r := SeedTables(m, exclude, driver, now);
      && (forall k :: k in m.units && IsSeeded(m.log, m.units[k].schema) ==>
            Untouched(m.log.details, r.manager.log.details, k))
      && (forall k :: k in m.units && |m.units[k].seeds| == 0 ==> Untouched(m.log.details, r.manager.log.details, k))
      && (forall k :: k in exclude ==> Untouched(m.log.details, r.manager.log.details, k))
  {
    var todo := ToSeed(m, exclude);
    var seeded := SeedOutcomesOf(m.units, driver);
    FilterDistinct(m.order, k => ShouldSeed(m, exclude, k));
    SeedEachLeavesOthers(m.log, m.units, todo, seeded, now);
    var j := FirstSeedFailure(m.log.details.Keys, seeded, todo);
    forall k | k in m.units && |m.units[k].seeds| == 0 ensures !(seeded(k).Success? && |seeded(k).value| > 0) {
    }
    forall k | k !in todo ensures k !in todo[..j] {
    }
  }

  // ----- drop -----

  /** The tables the drop pass hands to the builder, in collection order. */
  function ToDrop(m: Manager, exclude: seq<string>): (r: seq<string>)
    ensures forall k :: k in r <==> k in m.order && k !in exclude
  {
    Filter(m.order, k => k !in exclude)
  }

  /**
   * Each pass visits its tables in collection order: of two tables it lists, the earlier one
   * was added to the manager first.
   */
  lemma PassesFollowCollectionOrder(m: Manager, exclude: seq<string>, digest: Digest, i: nat, j: nat)
    requires i < j
    ensures j < |ToCreate(m, exclude, digest)| ==>
      exists p, q :: 0 <= p < q < |m.order| && m.order[p] == ToCreate(m, exclude, digest)[i] && m.order[q] == ToCreate(m, exclude, digest)[j]
    ensures j < |ToSeed(m, exclude)| ==>
      exists p, q :: 0 <= p < q < |m.order| && m.order[p] == ToSeed(m, exclude)[i] && m.order[q] == ToSeed(m, exclude)[j]
    ensures j < |ToDrop(m, exclude)| ==>
      exists p, q :: 0 <= p < q < |m.order| && m.order[p] == ToDrop(m, exclude)[i] && m.order[q] == ToDrop(m, exclude)[j]
  {
    if j < |ToCreate(m, exclude, digest)| {
      FilterKeepsOrder(m.order, k => ShouldCreate(m, exclude, digest, k), i, j);
    }
    if j < |ToSeed(m, exclude)| {
      FilterKeepsOrder(m.order, k => ShouldSeed(m, exclude, k), i, j);
    }
    if j < |ToDrop(m, exclude)| {
      FilterKeepsOrder(m.order, k => k !in exclude, i, j);
    }
  }

  /** The log after a partial drop pass, and the error that stopped it. */
  datatype DropProgress = DropProgress(log: LogManager, failure: Option<MigrationError>)

  /** The position of the first listed table the builder fails to drop, or `|todo|`. */
  function FirstDropFailure(todo: seq<string>, dropped: string -> bool): (j: nat)
    ensures j <= |todo|
    ensures forall i :: 0 <= i < j ==> dropped(todo[i])
    ensures j < |todo| ==> !dropped(todo[j])
  {
    if todo == [] || !dropped(todo[0]) then 0 else 1 + FirstDropFailure(todo[1..], dropped)
  }

  /** Drops each listed table, removing its record; the first failed drop aborts with code 3. */
  function DropEach(log: LogManager, units: map<string, Migration>, todo: seq<string>, dropped: string -> bool): DropProgress
    requires forall k :: k in todo ==> k in units
    decreases |todo|
  {
    if todo == [] then DropProgress(log, None)
    else
      var unit := units[todo[0]];
      if !dropped(todo[0]) then DropProgress(log, Some(FailedToDropTable(unit.tableName)))
      else DropEach(RemoveMigration(log, unit.schema), units, todo[1..], dropped)
  }

  /** The drop pass over every unit not excluded. */
  function DropTables(m: Manager, exclude: seq<string>, dropped: string -> bool): Outcome<MigrationError>
    requires m.Valid()
  {
    var progress := DropEach(m.log, m.units, ToDrop(m, exclude), dropped);
    Outcome(m.(log := progress.log), progress.failure)
  }

  /**
   * Dropping removes exactly the records of the tables before the first failed drop, with no
   * rollback, and reports that failure as a code-3 error naming the table.
   */
  lemma {:induction false} DropEachStopsAtFirstFailure(log: LogManager, units: map<string, Migration>, todo: seq<string>, dropped: string -> bool)
    requires forall k :: k in todo ==> k in units && units[k].schema.tableName == k && units[k].tableName == k
    ensures var r, j := DropEach(log, units, todo, dropped), FirstDropFailure(todo, dropped);
      && r.log.optionKey == log.optionKey
      && r.failure == (if j < |todo| then Some(FailedToDropTable(todo[j])) else None)
      && (forall k :: k in todo[..j] ==> k !in r.log.details)
      && (forall k :: k !in todo[..j] ==> Untouched(log.details, r.log.details, k))
    decreases |todo|
  {
    if todo != [] && dropped(todo[0]) {
      var k := todo[0];
      var rest := todo[1..];
      var next := RemoveMigration(log, units[k].schema);
      DropEachStopsAtFirstFailure(next, units, rest, dropped);
      var r := DropEach(log, units, todo, dropped);
      assert r == DropEach(next, units, rest, dropped);
      var j := FirstDropFailure(todo, dropped);
      assert todo[..j] == [k] + rest[..j - 1];
      forall x | x !in todo[..j] ensures Untouched(log.details, r.log.details, x) {
        MutationsAreLocal(log, UnusedDigest, units[k].schema, 0, x);
      }
    }
  }

  /** The drop pass keeps the log consistent. */
  lemma {:induction false} DropEachKeepsConsistent(log: LogManager, units: map<string, Migration>, todo: seq<string>, dropped: string -> bool)
    requires forall k :: k in todo ==> k in units
    requires Consistent(log)
    ensures Consistent(DropEach(log, units, todo, dropped).log)
    decreases |todo|
  {
    if todo != [] && dropped(todo[0]) {
      var schema := units[todo[0]].schema;
      MutationsKeepConsistent(log, UnusedDigest, schema, 0);
      DropEachKeepsConsistent(RemoveMigration(log, schema), units, todo[1..], dropped);
    }
  }

  /**
   * The drop pass either removes the record of every table not excluded, or stops at the first
   * failed drop with a code-3 error: the tables before it are removed, that one and the later
   * ones keep their records, and excluded tables always keep theirs.
   */
  lemma DropTablesEffect(m: Manager, exclude: seq<string>, dropped: string -> bool)
    requires m.Valid()
    ensures var r, todo := DropTables(m, exclude, dropped), ToDrop(m, exclude);
      var j := FirstDropFailure(todo, dropped);
      && r.manager.Valid() && r.manager.order == m.order && r.manager.units == m.units
      && (Consistent(m.log) ==> Consistent(r.manager.log))
      && (forall k :: k in todo[..j] ==> k !in r.manager.log.details)
      && (forall k :: k !in todo[..j] ==> Untouched(m.log.details, r.manager.log.details, k))
      && (r.failure.None? <==> j == |todo|)
      && (r.failure.Some? ==> j < |todo| && r.failure.value == FailedToDropTable(todo[j]) && r.failure.value.Code() == 3)
      && (r.failure.None? ==> forall k :: k in m.units && k !in exclude ==> !HasMigration(r.manager.log, m.units[k].schema))
      && (forall k :: k in exclude ==> Untouched(m.log.details, r.manager.log.details, k))
  {
    var todo := ToDrop(m, exclude);
    DropEachStopsAtFirstFailure(m.log, m.units, todo, dropped);
    if Consistent(m.log) {
      DropEachKeepsConsistent(m.log, m.units, todo, dropped);
    }
    var j := FirstDropFailure(todo, dropped);
    forall k | k in exclude ensures k !in todo[..j] {
      assert k !in todo;
    }
    assert j == |todo| ==> todo[..j] == todo;
  }
}
