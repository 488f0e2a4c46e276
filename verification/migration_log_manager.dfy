/**
 * The migration log: a map from table name to migration record, loaded from and saved back
 * to one key of the host's option store after every change.
 */
module MigrationLogManager {
  import opened Results
  import opened Collections
  import opened TableSchema
  import opened MigrationLogRecord

  /** The option key used when the caller gives none. */
  const DefaultOptionKey: string := "pinkcrab_migration_log"

  /** The fixed text of the error raised when the stored log cannot be decoded. */
  const UndecodableLogMessage: string := "Migration details as unserialize from options, failed to be decoded."

  /**
   * A value in the option store: either a blob that does not unserialize, or a serialised map
   * of records. A key missing from the store is an option that was never set.
   */
  datatype StoredOption = Corrupt | Serialized(entries: map<string, MigrationLog>)

  /** The host's option store (shared with other consumers under other keys). */
  type Options = map<string, StoredOption>

  /** The error raised by loading (an `InvalidArgumentException`). */
  datatype LoadError = InvalidArgument(message: string)

  /** The log manager: its option key, the in-memory records, and the option store it writes to. */
  datatype LogManager = LogManager(optionKey: string, details: map<string, MigrationLog>, options: Options)

  /** The key given, or the default one. */
  function OptionKeyOrDefault(key: Option<string>): string {
    key.GetOr(DefaultOptionKey)
  }

  /** The option key the log is saved under. */
  function GetLogKey(log: LogManager): string {
    log.optionKey
  }

  /**
   * The stored option mirrors the in-memory records; an option never written stands for an
   * empty log.
   */
  predicate Synced(log: LogManager) {
    if log.optionKey in log.options then log.options[log.optionKey] == Serialized(log.details)
    else log.details == map[]
  }

  /** Every record is filed under its own table name. */
  predicate WellKeyed(details: map<string, MigrationLog>) {
    forall k :: k in details ==> details[k].tableName == k
  }

  /**
   * `after` was saved from `before`: the whole in-memory map now sits under the log's key
   * and no other option changed.
   */
  predicate SavedFrom(before: LogManager, after: LogManager) {
    && after.optionKey == before.optionKey
    && after.optionKey in after.options
    && after.options[after.optionKey] == Serialized(after.details)
    && after.options - {after.optionKey} == before.options - {before.optionKey}
  }

  /**
   * Builds the log for `key` (the default key when none is given). A missing option gives an
   * empty log; an option that does not decode is an error, never an empty log.
   */
  function Load(options: Options, key: Option<string>): (r: Result<LogManager, LoadError>)
    ensures r.Success? ==> GetLogKey(r.value) == OptionKeyOrDefault(key)
    ensures key.None? && r.Success? ==> GetLogKey(r.value) == DefaultOptionKey
    ensures r.Success? ==> r.value.options == options && Synced(r.value)
    ensures r.Failure? <==> OptionKeyOrDefault(key) in options && options[OptionKeyOrDefault(key)] == Corrupt
    ensures OptionKeyOrDefault(key) !in options ==> r.Success? && r.value.details == map[]
  {
    var k := OptionKeyOrDefault(key);
    if k !in options then Success(LogManager(k, map[], options))
    else
      match options[k]
      case Corrupt => Failure(InvalidArgument(UndecodableLogMessage))
      case Serialized(entries) => Success(LogManager(k, entries, options))
  }

  /** Writes the whole in-memory map under the log's key. */
  function Save(log: LogManager): (r: LogManager)
    ensures SavedFrom(log, r) && Synced(r)
    ensures r.details == log.details
  {
    var r := log.(options := log.options[log.optionKey := Serialized(log.details)]);
    assert r.options - {r.optionKey} == log.options - {log.optionKey};
    r
  }

  /** A record exists for the schema's table. */
  predicate HasMigration(log: LogManager, schema: Schema) {
    schema.tableName in log.details
  }

  /** The record for the schema's table, if any. */
  function GetMigration(log: LogManager, schema: Schema): (r: Option<MigrationLog>)
    ensures r.Some? <==> HasMigration(log, schema)
    ensures r.Some? ==> r.value == log.details[schema.tableName]
  {
    if HasMigration(log, schema) then Some(log.details[schema.tableName]) else None
  }

  /** A record exists for the table and its hash is the schema's hash. */
  predicate CheckHash(log: LogManager, digest: Digest, schema: Schema) {
    HasMigration(log, schema) && log.details[schema.tableName].schemaHash == ComposeColumnHash(digest, schema)
  }

  /** The table needs migrating: it has no record, or its record was made from another schema. */
  predicate CanMigrate(log: LogManager, digest: Digest, schema: Schema) {
    !CheckHash(log, digest, schema)
  }

  /** The table has a record and it is marked as seeded. */
  predicate IsSeeded(log: LogManager, schema: Schema) {
    HasMigration(log, schema) && log.details[schema.tableName].seeded
  }

  /** The queries agree with the record `GetMigration` returns. */
  lemma QueriesReadTheRecord(log: LogManager, digest: Digest, schema: Schema)
    ensures CanMigrate(log, digest, schema) <==>
      GetMigration(log, schema).None? || GetMigration(log, schema).value.schemaHash != ComposeColumnHash(digest, schema)
    ensures IsSeeded(log, schema) <==> GetMigration(log, schema).Some? && GetMigration(log, schema).value.seeded
  {
  }

  /**
   * Records that `schema` has been applied: a new table gets a fresh unseeded record, a changed
   * schema replaces the record through `AsUpdated`, an unchanged one leaves the log alone.
   */
  function UpsertMigration(log: LogManager, digest: Digest, schema: Schema, now: nat): (r: LogManager)
    ensures HasMigration(r, schema) && CheckHash(r, digest, schema) && !CanMigrate(r, digest, schema)
    ensures r.optionKey == log.optionKey
    ensures r.details - {schema.tableName} == log.details - {schema.tableName}
    ensures !HasMigration(log, schema) ==>
      r.details[schema.tableName] == NewFromSchema(digest, schema, now) && SavedFrom(log, r)
    ensures HasMigration(log, schema) && !CheckHash(log, digest, schema) ==>
      r.details[schema.tableName] == log.details[schema.tableName].AsUpdated(digest, schema, now) && SavedFrom(log, r)
    ensures CheckHash(log, digest, schema) ==> r == log
  {
    var name := schema.tableName;
    var updated :=
      if HasMigration(log, schema) && !CheckHash(log, digest, schema)
      then Save(log.(details := log.details[name := log.details[name].AsUpdated(digest, schema, now)]))
      else log;
    if !HasMigration(updated, schema)
    then Save(updated.(details := updated.details[name := NewFromSchema(digest, schema, now)]))
    else updated
  }

  /** Deletes the table's record, saving only when there was one. */
  function RemoveMigration(log: LogManager, schema: Schema): (r: LogManager)
    ensures !HasMigration(r, schema)
    ensures r.optionKey == log.optionKey
    ensures r.details == log.details - {schema.tableName}
    ensures HasMigration(log, schema) ==> SavedFrom(log, r)
    ensures !HasMigration(log, schema) ==> r == log
  {
    if HasMigration(log, schema)
    then Save(log.(details := log.details - {schema.tableName}))
    else log
  }

  /**
   * Marks the table as seeded unless it already is. The table must have a record: the source
   * dereferences the missing entry otherwise.
   */
  function MarkTableSeeded(log: LogManager, schema: Schema, now: nat): (r: LogManager)
    requires HasMigration(log, schema)
    ensures IsSeeded(r, schema)
    ensures r.optionKey == log.optionKey && r.details.Keys == log.details.Keys
    ensures r.details - {schema.tableName} == log.details - {schema.tableName}
    ensures !IsSeeded(log, schema) ==>
      r.details[schema.tableName] == log.details[schema.tableName].AsSeeded(now) && SavedFrom(log, r)
    ensures IsSeeded(log, schema) ==> r == log
  {
    var name := schema.tableName;
    if !IsSeeded(log, schema)
    then Save(log.(details := log.details[name := log.details[name].AsSeeded(now)]))
    else log
  }

  /** Marking twice is the same as marking once: the second call neither changes nor saves. */
  lemma MarkTableSeededIdempotent(log: LogManager, schema: Schema, now: nat, later: nat)
    requires HasMigration(log, schema)
    ensures MarkTableSeeded(MarkTableSeeded(log, schema, now), schema, later) == MarkTableSeeded(log, schema, now)
  {
  }

  /** Reloading from the option store gives back exactly the log that was saved. */
  lemma ReloadRestoresLog(log: LogManager)
    requires Synced(log)
    ensures Load(log.options, Some(log.optionKey)) == Success(log)
  {
  }

  /** The store mirrors the in-memory map and every record is filed under its own table name. */
  predicate Consistent(log: LogManager) {
    Synced(log) && WellKeyed(log.details)
  }

  /** Every mutation keeps the log consistent. */
  lemma MutationsKeepConsistent(log: LogManager, digest: Digest, schema: Schema, now: nat)
    requires Consistent(log)
    ensures Consistent(UpsertMigration(log, digest, schema, now))
    ensures Consistent(RemoveMigration(log, schema))
    ensures HasMigration(log, schema) ==> Consistent(MarkTableSeeded(log, schema, now))
  {
    var name := schema.tableName;
    var u := UpsertMigration(log, digest, schema, now);
    assert u.details == (log.details - {name})[name := u.details[name]];
    if HasMigration(log, schema) {
      var m := MarkTableSeeded(log, schema, now);
      assert m.details == (log.details - {name})[name := m.details[name]];
    }
  }

  /** A seeded table stays seeded through upserts and markings; only removal unseeds it. */
  lemma SeedingIsMonotone(log: LogManager, digest: Digest, schema: Schema, other: Schema, now: nat)
    requires IsSeeded(log, other)
    ensures IsSeeded(UpsertMigration(log, digest, schema, now), other)
    ensures HasMigration(log, schema) ==> IsSeeded(MarkTableSeeded(log, schema, now), other)
    ensures other.tableName != schema.tableName ==> IsSeeded(RemoveMigration(log, schema), other)
  {
    var name := schema.tableName;
    if other.tableName != name {
      var u := UpsertMigration(log, digest, schema, now);
      assert (u.details - {name})[other.tableName] == u.details[other.tableName];
      if HasMigration(log, schema) {
        var m := MarkTableSeeded(log, schema, now);
        assert (m.details - {name})[other.tableName] == m.details[other.tableName];
      }
    }
  }

  /** Each mutation leaves the records of all other tables as they were. */
  lemma MutationsAreLocal(log: LogManager, digest: Digest, schema: Schema, now: nat, k: string)
    requires k != schema.tableName
    ensures Untouched(log.details, UpsertMigration(log, digest, schema, now).details, k)
    ensures Untouched(log.details, RemoveMigration(log, schema).details, k)
    ensures HasMigration(log, schema) ==> Untouched(log.details, MarkTableSeeded(log, schema, now).details, k)
  {
    var name := schema.tableName;
    var u := UpsertMigration(log, digest, schema, now);
    assert k in log.details <==> k in log.details - {name};
    assert k in u.details <==> k in u.details - {name};
    if HasMigration(log, schema) {
      var m := MarkTableSeeded(log, schema, now);
      assert k in m.details <==> k in m.details - {name};
    }
  }

  /** What a mutation does to a table depends only on that table's own record. */
  lemma MutationsReadOnlyTheirRecord(a: LogManager, b: LogManager, digest: Digest, schema: Schema, now: nat)
    requires Untouched(a.details, b.details, schema.tableName)
    ensures Untouched(UpsertMigration(a, digest, schema, now).details, UpsertMigration(b, digest, schema, now).details, schema.tableName)
    ensures HasMigration(a, schema) ==>
      Untouched(MarkTableSeeded(a, schema, now).details, MarkTableSeeded(b, schema, now).details, schema.tableName)
    ensures CheckHash(a, digest, schema) == CheckHash(b, digest, schema)
    ensures IsSeeded(a, schema) == IsSeeded(b, schema)
  {
  }

  /**
   * With an unchanged schema the log reports nothing to migrate after an upsert; after an
   * upsert of a schema whose hash differs, the first schema can be migrated again.
   */
  lemma CanMigrateTracksSchemaChanges(log: LogManager, digest: Digest, s1: Schema, s2: Schema, now: nat, later: nat)
    requires s1.tableName == s2.tableName
    requires ComposeColumnHash(digest, s1) != ComposeColumnHash(digest, s2)
    ensures !CanMigrate(UpsertMigration(log, digest, s1, now), digest, s1)
    ensures CanMigrate(UpsertMigration(log, digest, s1, now), digest, s2)
    ensures CanMigrate(UpsertMigration(UpsertMigration(log, digest, s1, now), digest, s2, later), digest, s1)
  {
  }
}
