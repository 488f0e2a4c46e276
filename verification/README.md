# WPDB Migrations, modelled in Dafny

This project models the core of the WPDB_Migrations library for WordPress. The library keeps a
set of database migrations, each of which pairs a table schema with optional seed rows. It
builds the tables that need building, seeds the tables that have not been seeded yet, drops
tables on request, and records what it has done in a migration log. The log is a map from table
name to record, kept in one serialized WordPress option.

The model is functional. Every entity is an immutable datatype and every operation is a pure
function. The properties are `ensures` clauses and lemmas.

- `Results`, `Collections` and `TableSchema` hold the shared vocabulary:
  - `Option` and `Result`;
  - an order-preserving `Filter` (PHP's `array_filter`) and `Untouched`, which compares one key of two maps;
  - the table schema with its column lookup;
  - the schema-hash digest, which is a parameter.
- `MigrationException` holds the three error kinds (codes 1, 2 and 3) and their messages.
- `MigrationLogRecord` holds one table's log record and its transitions: new, updated and seeded.
- `MigrationLogManager` holds the log manager:
  - loading from the option store and saving to it;
  - the queries `has_migration`, `get_migration`, `check_hash`, `can_migrate` and `is_seeded`;
  - the mutations `upsert_migration`, `remove_migration` and `mark_table_seeded`.
- `DatabaseMigration` holds a migration unit: table name, schema and seed rows produced by a seed hook.
- `MigrationSeeder` covers the seeder:
  - mapping declared column types to `%s`, `%d` or `%f` placeholders, case-insensitively;
  - finding a row's columns in the schema (error code 1);
  - one insert per row through a driver whose report carries an error text and an insert id (error code 2);
  - a seeding run that stops at the first failing row.
- `MigrationManager` holds the manager:
  - adding units (the last unit added for a name wins, and the name keeps its first position);
  - listing the units in order;
  - the create, seed and drop passes over the units that are not excluded.
  - A pass that raises stops at the failing table. Every log change made before that point stands.
- `Scenarios` replays the library's test cases on the model. It uses the stub migrations `uu_foo_table` and `uu_bar_table`.

The table builder, the database driver, the option store and the clock are not modelled as code:
- `built(t)` and `dropped(t)` say whether the builder succeeded for table `t`;
- a `Driver` gives the report for insert number `n` into table `t`;
- the option store is a map from key to stored option;
- time is a `nat` named `now`.

## Model

| member | source | states |
|---|---|---|
| Collections.Filter | src/Migration_Manager.php:107-113 | The filtered list keeps exactly the elements of the input that satisfy the predicate and is never longer. A one-element list keeps its element exactly when the predicate accepts it. |
| Collections.FilterAppend | src/Migration_Manager.php:107-113 | Filtering a concatenation gives the filtered first part followed by the filtered second part, so kept elements keep their order. |
| Collections.FilterKeepsOrder | src/Migration_Manager.php:107-113 | Of two elements in the filtered list, the earlier one comes from an earlier position of the input. |
| Collections.FilterDistinct | src/Migration_Manager.php:136-142 | Filtering a list without duplicates yields a list without duplicates, so each table is visited at most once per pass. |
| TableSchema.FindColumn | src/Migration_Seeder.php:99-108 | A column is found exactly when the schema lists one with that name, and the one found is in the schema under that name. |
| MigrationException.MigrationError.Code | src/Migration_Exception.php:39-73 | Code 1 is a missing seed column, code 2 a failed insert and code 3 a failed drop, each in both directions. |
| MigrationException.MessageNamesItsSubjects | src/Migration_Exception.php:39-59 | Every message names its table. A missing-column message also names the column, and a failed-insert message also carries the driver's error. |
| MigrationException.AsWrittenDropMessageIgnoresName | src/Migration_Exception.php:68-73 | As written, the drop message is "Failed to drop 0" for any table name that cannot start a number: one that does not begin with a digit, whitespace, a sign or a point. |
| MigrationException.AsWrittenDropMessageLosesName | src/Migration_Exception.php:68-73 | As written, the drop message for uu_foo_table does not contain the name, while the corrected message does. |
| MigrationLogRecord.MigrationLog.AsUpdated | tests/Log/Test_Migration_Log.php:59-85 | An updated record carries the new schema's hash and the new update time. It keeps the table, the creation time and the seeded flag. |
| MigrationLogRecord.MigrationLog.AsSeeded | tests/Log/Test_Migration_Log.php:88-107 | A seeded record is marked seeded at the new time and keeps its hash, table and creation time. It differs from an unseeded original. |
| MigrationLogRecord.NewFromSchema | tests/Log/Test_Migration_Log.php:22-57 | A new record names the schema's table, carries its hash, is unseeded, and has creation time equal to update time. |
| MigrationLogManager.Load | src/Log/Migration_Log_Manager.php:48-76 | Loading uses the given key or the default key. An absent option gives an empty log. Loading fails exactly when the stored option cannot be decoded. A loaded log mirrors the store. |
| MigrationLogManager.Save | src/Log/Migration_Log_Manager.php:206-208 | Saving writes the records under the log's key and changes no other option. |
| MigrationLogManager.GetMigration | src/Log/Migration_Log_Manager.php:84-97 | A record is returned exactly when the table is logged, and it is the stored record. |
| MigrationLogManager.QueriesReadTheRecord | src/Log/Migration_Log_Manager.php:105-135 | can_migrate holds exactly when there is no record or its hash differs from the schema's. is_seeded holds exactly when a record exists and is marked seeded. |
| MigrationLogManager.UpsertMigration | src/Log/Migration_Log_Manager.php:148-167 | Afterwards the table is logged with the schema's current hash. A new record is created and unseeded. A changed hash updates the record and keeps seeded and created. An unchanged hash changes nothing. No other record changes. |
| MigrationLogManager.RemoveMigration | src/Log/Migration_Log_Manager.php:175-182 | The table's record is gone and every other record is kept. Removing an absent table changes nothing. |
| MigrationLogManager.MarkTableSeeded | src/Log/Migration_Log_Manager.php:190-199 | The table is seeded afterwards. An already seeded record is left as it was. No other record changes and the set of logged tables is the same. |
| MigrationLogManager.MarkTableSeededIdempotent | src/Log/Migration_Log_Manager.php:190-199 | Marking twice is the same as marking once. |
| MigrationLogManager.ReloadRestoresLog | src/Log/Migration_Log_Manager.php:48-76 | Loading the saved store under the log's key gives back the same log. |
| MigrationLogManager.MutationsKeepConsistent | src/Log/Migration_Log_Manager.php:148-208 | After upsert, remove and mark, the store still mirrors the records and every record is filed under its own table name. |
| MigrationLogManager.SeedingIsMonotone | src/Log/Migration_Log_Manager.php:148-199 | Upserting or marking never unseeds a table, and removing one table does not unseed another. |
| MigrationLogManager.MutationsAreLocal | src/Log/Migration_Log_Manager.php:148-199 | Upsert, remove and mark leave every other table's record unchanged. |
| MigrationLogManager.MutationsReadOnlyTheirRecord | src/Log/Migration_Log_Manager.php:126-199 | Two logs that agree on a table agree on its hash check, its seeded flag, and its record after upsert or mark. |
| MigrationLogManager.CanMigrateTracksSchemaChanges | src/Log/Migration_Log_Manager.php:105-167 | After upserting a schema it needs no migration. A schema with a different hash then needs one, and upserting that schema makes the first need one again. |
| DatabaseMigration.NewMigration | src/Database_Migration.php:55-103 | A unit is filed under its table name. Its schema has the definition's columns, indexes and foreign keys, and its seeds are what the seed hook returns for no rows. |
| DatabaseMigration.DefaultSeedGivesNoRows | src/Database_Migration.php:74-76 | A unit that does not override the seed hook has no seed rows. |
| DatabaseMigration.AppendingHookKeepsOrder | src/Database_Migration.php:55-94 | A hook that appends rows produces exactly those rows, in order. |
| MigrationSeeder.ColumnTypeFormat | src/Migration_Seeder.php:116-158 | The integer and float types map to %d and %f, in both directions. Every other type, the string types included, maps to %s. |
| MigrationSeeder.FormatIgnoresCase | src/Migration_Seeder.php:116-118 | Upper- and lower-casing the declared type does not change its placeholder. |
| MigrationSeeder.StringTypesMapToStringPlaceholder | src/Migration_Seeder.php:118-135 | Every listed string type maps to the %s placeholder. |
| MigrationSeeder.IntegerTypesMapToIntegerPlaceholder | src/Migration_Seeder.php:137-146 | Every listed integer type maps to the %d placeholder. |
| MigrationSeeder.FloatTypesMapToFloatPlaceholder | src/Migration_Seeder.php:148-153 | Every listed float type maps to the %f placeholder. |
| MigrationSeeder.ColumnType | src/Migration_Seeder.php:99-108 | A column missing from the schema is error code 1, naming the column and the table. A column in the schema gets the placeholder of its declared type. |
| MigrationSeeder.FirstUnknownColumn | src/Migration_Seeder.php:70-76 | Gives the position of the first column of a row that the schema lacks. Every column before it is present. |
| MigrationSeeder.RowFormats | src/Migration_Seeder.php:70-76 | Formats exist for a row exactly when all of its columns exist. They are then the columns' placeholders in row order. Otherwise the error is the first missing column's code 1. |
| MigrationSeeder.InsertSeed | src/Migration_Seeder.php:68-89 | An insert is attempted exactly when every column exists. It succeeds, with the driver's insert id, exactly when the driver reports no error. A driver error is code 2 and carries the error text. Without an insert, the error is the first unknown column's code 1. |
| MigrationSeeder.FirstFailedRow | src/Migration_Seeder.php:50-58 | Gives the first row that fails to seed. Every row before it seeds. |
| MigrationSeeder.SeedFromStopsAtFirstFailure | src/Migration_Seeder.php:50-58 | Seeding succeeds exactly when no row fails, and the ids are then the driver's ids in row order. Otherwise the error is the first failing row's error. |
| MigrationSeeder.SeedFromCountsInserts | src/Migration_Seeder.php:50-89 | The run issues one insert per row up to the failing row. The failing row adds one more insert only if its columns all exist. |
| MigrationSeeder.SeedFromInsertsInRowOrder | src/Migration_Seeder.php:50-89 | The inserts go to the schema's table, carrying the rows in order. |
| MigrationSeeder.Seed | src/Migration_Seeder.php:50-58 | On success there is one id and one insert per row, and no rows means no inserts. On failure the error is the first failing row's and nothing after that row is inserted. |
| MigrationManager.NewManager | src/Migration_Manager.php:62-67 | A new manager has no units and the log loaded from the key. It fails exactly when the log fails to load. |
| MigrationManager.AddMigration | src/Migration_Manager.php:84-87 | The unit is filed under its table name, replacing any earlier one. Other units and the log are kept. The order gains the name only when it is new. Validity is preserved. |
| MigrationManager.GetMigrations | src/Migration_Manager.php:94-96 | Lists every unit once, in order, each filed under its own table name. |
| MigrationManager.ReAddKeepsPosition | src/Migration_Manager.php:84-96 | Re-adding a table name replaces its unit in place. Every other unit keeps its position. |
| MigrationManager.ToCreate | src/Migration_Manager.php:107-113 | The create pass visits exactly the units that are not excluded and whose schema the log says can migrate. |
| MigrationManager.CreateEachEffect | src/Migration_Manager.php:116-121 | Each listed table whose build succeeds gets its upserted record. Every other record is unchanged. |
| MigrationManager.CreateTablesEffect | src/Migration_Manager.php:104-125 | The pass keeps the units and log consistency. Built candidates get the upserted record with the current hash. Failed builds and excluded tables are untouched. |
| MigrationManager.CreateTablesCompletes | src/Migration_Manager.php:104-125 | A non-excluded table whose build succeeds ends logged with its current hash and needs no migration. Its seeded flag is unchanged. |
| MigrationManager.CreateTablesIdempotent | src/Migration_Manager.php:104-125 | A second pass visits exactly the candidates whose build failed. Once every build succeeded, it visits nothing and changes nothing. |
| MigrationManager.ToSeed | src/Migration_Manager.php:136-142 | The seed pass visits exactly the units that are not excluded and not yet seeded. |
| MigrationManager.SeedOutcomesOf | src/Migration_Manager.php:146-147 | The definition that ties the seed pass to the seeder: for each unit, the pass sees the seeder's result on that unit's schema and rows. The pass's lemmas are stated over these outcomes. |
| MigrationManager.FirstSeedFailure | src/Migration_Manager.php:146-151 | Gives the first visited table that stops the pass. The tables before it seed without error. |
| MigrationManager.SeedEachStops | src/Migration_Manager.php:146-151 | The pass fails exactly when a table stops it, with that table's failure. The set of logged tables is kept. |
| MigrationManager.SeedEachLeavesOthers | src/Migration_Manager.php:146-151 | Tables outside the visited prefix keep their records, and so do tables whose seeding gave no ids. |
| MigrationManager.SeedEachMarks | src/Migration_Manager.php:146-151 | Each table visited before the failure ends seeded exactly when its seeding gave ids. |
| MigrationManager.SeedEachKeepsConsistent | src/Migration_Manager.php:146-151 | Seeding keeps the log consistent. |
| MigrationManager.SeedTablesStops | src/Migration_Manager.php:133-154 | The seed pass keeps the units, the logged tables and consistency. Its failure is the first failing table's seeder error, or that table's missing log entry. |
| MigrationManager.SeedTablesRunsThrough | src/Migration_Manager.php:133-154 | When every non-excluded unit seeds cleanly and every unit with rows is logged, the pass raises nothing. |
| MigrationManager.SeedTablesCompletes | src/Migration_Manager.php:133-154 | When every non-excluded unit seeds cleanly and those with rows are logged, a non-excluded table after the pass is seeded exactly when it was seeded before or it has seed rows. |
| MigrationManager.SeedOutcomeCountsRows | src/Migration_Manager.php:146-148 | A successful seeding gives one id per seed row, so only a unit with rows is marked. |
| MigrationManager.SeedEachSkipsEmpty | src/Migration_Manager.php:146-151 | When every listed table inserts no rows, the seed loop leaves the log as it was and raises nothing. |
| MigrationManager.SeedTablesIdempotent | src/Migration_Manager.php:133-154 | Once a seed pass has run through, a second pass with any driver at any later time raises nothing and leaves the manager unchanged. |
| MigrationManager.SeedTablesWithMarks | src/Migration_Manager.php:146-151 | Each table visited before the failure is seeded afterwards exactly when its seeding gave ids. |
| MigrationManager.SeedTablesMarks | src/Migration_Manager.php:146-151 | Each table visited before the failure is seeded afterwards exactly when its unit has seed rows. |
| MigrationManager.CandidateMarkedIffIds | src/Log/Migration_Log_Manager.php:190-199 | An unseeded table ends seeded exactly when it was marked. |
| MigrationManager.SeedTablesLeavesOthers | src/Migration_Manager.php:133-154 | Already seeded tables, tables without seed rows and excluded tables keep their records. |
| MigrationManager.ToDrop | src/Migration_Manager.php:164-169 | The drop pass visits exactly the units that are not excluded. |
| MigrationManager.PassesFollowCollectionOrder | src/Migration_Manager.php:107-182 | The create, seed and drop passes visit their tables in collection order: of two listed tables, the earlier one was added first. |
| MigrationManager.FirstDropFailure | src/Migration_Manager.php:171-182 | Gives the first visited table whose drop fails. Every table before it drops. |
| MigrationManager.DropEachStopsAtFirstFailure | src/Migration_Manager.php:171-182 | Tables dropped before the failure lose their records and every other record is kept. The failure is the model's code-3 error value, which carries the first table that did not drop. |
| MigrationManager.DropEachKeepsConsistent | src/Migration_Manager.php:171-182 | Dropping keeps the log consistent. |
| MigrationManager.DropTablesEffect | src/Migration_Manager.php:162-185 | Records are removed for dropped tables only, and the log stays consistent. The pass fails exactly when some visited table does not drop, and the failure is code 3. Without a failure every non-excluded table's record is gone. Excluded tables are untouched. |
| Scenarios.FooBarManager | tests/Test_Migration_Manager.php:27-42 | The fixture manager holds the foo and bar units in that order over an empty, consistent log. |
| Scenarios.LogKeyScenario | tests/Log/Test_Migaration_Log_Manager.php:28-40 | The default log key is pinkcrab_migration_log and a custom key is used as given. |
| Scenarios.LoadScenario | tests/Log/Test_Migaration_Log_Manager.php:62-73 | A corrupt option fails to load. An absent option loads as an empty log. |
| Scenarios.LogLifecycleScenario | tests/Log/Test_Migaration_Log_Manager.php:87-180 | Upsert, mark and remove on one table follow the test sequence: logged, seeded, then gone. |
| Scenarios.CreateSkipsExcludedScenario | tests/Test_Migration_Manager.php:86-102 | Creating with bar excluded logs foo only. |
| Scenarios.CreateBothScenario | tests/Test_Migration_Manager.php:86-102 | Creating both tables logs both with current hashes, unseeded. |
| Scenarios.FooSeedsScenario | tests/Stubs/Stub_Migration_Foo.php:15-38 | Seeding foo's two rows with a quiet driver gives the ids [24, 24]. |
| Scenarios.SeedLoggedFooBarRunsThrough | tests/Test_Migration_Manager.php:105-115 | Seeding logged foo and bar raises nothing. Bar, which has no seed rows, is added beside the test's Foo. |
| Scenarios.FooBarSeedsCleanly | tests/Test_Migration_Manager.php:105-115 | With foo logged, both stub units seed with the quiet driver without error, and every unit with rows is logged. Bar, which has no seed rows, is added beside the test's Foo. |
| Scenarios.SeedLoggedFooBarScenario | tests/Test_Migration_Manager.php:105-115 | After seeding, foo (which has rows) is seeded and bar (which has none) is not. Bar, which has no seed rows, is added beside the test's Foo. |
| Scenarios.CreateThenSeedScenario | tests/Test_Migration_Manager.php:105-115 | Creating and then seeding marks foo seeded and leaves bar unseeded. Bar, which has no seed rows, is added beside the test's Foo. |
| Scenarios.DropSkipsExcludedScenario | tests/Test_Migration_Manager.php:134-147 | Dropping with bar excluded removes foo's record and keeps bar's. |
| Scenarios.DropFailureScenario | tests/Test_Migration_Manager.php:150-167 | With foo alone and a builder that never succeeds, the create pass logs nothing. The drop pass then fails with the code-3 error value for foo and leaves the log unchanged. |
| Scenarios.DriverErrorScenario | tests/Test_Table_Seeder.php:106-118 | A driver error raises code 2 after exactly one insert, of the first row. |
| Scenarios.UnknownColumnScenario | tests/Test_Table_Seeder.php:121-129 | An unknown column raises code 1. Foo's number column is %d and its foo column is %s. |

## Left out

- src/Log/Migration_Log.php is another earlier variant of the log manager, keyed by table name, and is not modelled. The log record class is not part of this model as source; the record is modelled from the behaviour its tests fix, in tests/Log/Test_Migration_Log.php.
- src/Migration_Log.php is an earlier draft of the log manager (its default key is pink_migration_log). The core does not use it, and it is not modelled.
- src/Log/Migration.php is an earlier variant of the log record class, and src/Migration.php is the legacy unit base class. The core uses neither, and they are not modelled.
- src/Factory.php: the factory only wires the builder, the option store and the log key together. The model takes those as parameters.
- The `migation_log()` accessor (src/Migration_Manager.php:74-76) is the manager's `log` field.
- `clear_log` is outside the core files and is not modelled.
- Serialization and md5 hashing are not modelled. The stored option is either a decoded map or undecodable. The schema hash is a `Digest` function passed in. No lemma assumes that different schemas get different hashes unless its `requires` says so.
- The table builder, the wpdb driver and WordPress options are oracles and a map. SQL generation and the database itself are not modelled.
- DateTimeImmutable timestamps are modelled as a `nat`, and a pass uses one `now` for every log write it makes.
- `strtoupper` is modelled for ASCII letters only. Locale-dependent case mapping is left out.
- MigrationManager.DropEachStopsAtFirstFailure: the drop pass raises the corrected `FailedToDropTable` error, whose message names the table. As written, the source's message reads "Failed to drop 0" for names like uu_foo_table (see Findings). The code 3 is the same either way.
- TableSchema.FindColumn returns the first column with a given name. In PHP, the columns are keyed by name, so a redefined column replaces the earlier one. The two agree whenever column names are distinct, and the model does not require them to be.
- MigrationLogManager.Load: the decode-failure message is the fixed text the code throws. It does not name the option key.
- MigrationLogManager.MarkTableSeeded requires the table to be logged. The source would call a method on a missing record. The seed pass reports that case as a `MissingLogEntry` failure instead, when a unit with seed ids has no log entry.
- MigrationSeeder.SeedFromInsertsInRowOrder states the table and row of every insert, but not the formats passed with it. The formats are stated per row by `InsertSeed` and `RowFormats`.
- MigrationSeeder.Seed states the table and row of every insert, but not the formats, for the same reason.
- MigrationException.AsWrittenDropMessage models PHP's `%d` conversion only for names that start with digits or have none. Other numeric string forms, such as signs, exponents and leading whitespace, are not modelled. PHP saturates a digit prefix beyond PHP_INT_MAX, but `DigitsValue` does not.

## Findings

| source | as written | input that shows it | evidently intended | confidence | as-written member | corrected member |
|---|---|---|---|---|---|---|
| src/Migration_Exception.php:70 | The failed-drop message formats the table name with `%d`, so PHP converts the name to an integer. | table `uu_foo_table` gives "Failed to drop 0" | The message names the table with `%s`, like the other two messages. | not executed | MigrationException.AsWrittenDropMessageLosesName | MigrationException.MessageNamesItsSubjects |
