/** A migration unit: a table's schema paired with the rows to seed it with. */
module DatabaseMigration {
  import opened TableSchema

  /** A seed value. */
  datatype Value = Text(text: string) | Number(number: int) | Null

  /** One column of a seed row. */
  datatype Field = Field(column: string, value: Value)

  /** A seed row: its columns in the order they were written. */
  type Row = seq<Field>

  /** What a unit's `schema()` callback adds to the schema it is given. */
  datatype SchemaDefinition = SchemaDefinition(columns: seq<Column>, indexes: seq<string>, foreignKeys: seq<string>)

  /** A unit as built by its constructor: the table name, the schema and the seed rows. */
  datatype Migration = Migration(tableName: string, schema: Schema, seeds: seq<Row>)
  {
    /** The schema is the one built for the unit's own table name. */
    predicate Valid() {
      schema.tableName == tableName
    }

    function GetTableName(): string { tableName }

    function GetSchema(): Schema { schema }

    function GetSeeds(): seq<Row> { seeds }
  }

  /**
   * Constructs a unit: the schema is built once, for the unit's table name, from the unit's
   * schema definition, and the seed rows are computed once by passing an empty list to the
   * unit's seed hook.
   */
  function NewMigration(tableName: string, definition: SchemaDefinition, seedHook: seq<Row> -> seq<Row>): (m: Migration)
    ensures m.Valid() && m.GetTableName() == tableName
    ensures m.GetSchema().columns == definition.columns
    ensures m.GetSchema().indexes == definition.indexes && m.GetSchema().foreignKeys == definition.foreignKeys
    ensures m.GetSeeds() == seedHook([])
  {
    Migration(tableName, Schema(tableName, definition.columns, definition.indexes, definition.foreignKeys), seedHook([]))
  }

  /** The seed hook of a unit that does not override it: returns its argument. */
  function DefaultSeed(seeds: seq<Row>): seq<Row> {
    seeds
  }

  /** A unit without a seed override has no seed rows. */
  lemma DefaultSeedGivesNoRows(tableName: string, definition: SchemaDefinition)
    ensures NewMigration(tableName, definition, DefaultSeed).GetSeeds() == []
  {
  }

  /** A seed hook that appends rows: the unit's seeds are exactly those rows, in order. */
  lemma AppendingHookKeepsOrder(tableName: string, definition: SchemaDefinition, hook: seq<Row> -> seq<Row>, rows: seq<Row>)
    requires forall s :: hook(s) == s + rows
    ensures NewMigration(tableName, definition, hook).GetSeeds() == rows
  {
    assert hook([]) == [] + rows;
  }
}
