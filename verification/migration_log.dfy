/** The immutable per-table migration record and its transitions. */
module MigrationLogRecord {
  import opened TableSchema

  /**
   * One table's migration state: its name, the hash of the schema last applied, whether seed
   * data has been inserted, and when the record was created and last changed (a nat clock).
   */
  datatype MigrationLog = MigrationLog(tableName: string, schemaHash: string, seeded: bool, createdOn: nat, updatedOn: nat)
  {
    /** A new record for `schema` with its hash updated; the seeded flag and creation time are kept. */
    function AsUpdated(digest: Digest, schema: Schema, now: nat): (r: MigrationLog)
      ensures Succeeds(this, r)
      ensures r.seeded == seeded
      ensures r.schemaHash == ComposeColumnHash(digest, schema)
      ensures r.updatedOn == now
    {
      this.(schemaHash := ComposeColumnHash(digest, schema), updatedOn := now)
    }

    /** A new record marked as seeded; the hash and creation time are kept. */
    function AsSeeded(now: nat): (r: MigrationLog)
      ensures Succeeds(this, r)
      ensures r.seeded && r.schemaHash == schemaHash
      ensures r.updatedOn == now
      ensures !seeded ==> r != this
    {
      this.(seeded := true, updatedOn := now)
    }
  }

  /** A fresh, unseeded record for a schema, created and updated at `now`. */
  function NewFromSchema(digest: Digest, schema: Schema, now: nat): (r: MigrationLog)
    ensures r.tableName == schema.tableName
    ensures r.schemaHash == ComposeColumnHash(digest, schema)
    ensures !r.seeded
    ensures r.createdOn == now && r.updatedOn == now
  {
    MigrationLog(schema.tableName, ComposeColumnHash(digest, schema), false, now, now)
  }

  /**
   * `b` may follow `a` in a record's lifetime: same table, same creation time, and a seeded
   * record never becomes unseeded.
   */
  predicate Succeeds(a: MigrationLog, b: MigrationLog) {
    && a.tableName == b.tableName
    && a.createdOn == b.createdOn
    && (a.seeded ==> b.seeded)
  }
}
