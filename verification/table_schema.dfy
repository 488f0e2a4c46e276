/**
 * The table descriptor the migration layer consumes. The schema builder that produces it
 * is an external library. The parts the layer reads are modelled; the rest of each column, the
 * indexes and the foreign keys are kept opaque, since they only feed the schema hash.
 */
module TableSchema {
  import opened Results

  /**
   * A column definition: its name, its declared type, which may be unset (null), and the rest
   * of its definition (length, default, nullability and so on), kept opaque. The schema hash
   * covers all of it, so a change to any attribute changes the hash.
   */
  datatype Column = Column(name: string, declaredType: Option<string>, attributes: seq<string>)

  /**
   * A table definition: the table name, its columns in declaration order, and its
   * indexes and foreign keys, kept opaque.
   */
  datatype Schema = Schema(tableName: string, columns: seq<Column>, indexes: seq<string>, foreignKeys: seq<string>)

  /**
   * The digest of a schema's export {name, columns, indexes, foreign keys}. The source takes an
   * md5 of its serialisation; here it is any deterministic function, and no lemma assumes that
   * different schemas get different digests unless it says so in its requires.
   */
  type Digest = Schema -> string

  /** The hash recorded for a schema. */
  function ComposeColumnHash(digest: Digest, schema: Schema): string {
    digest(schema)
  }

  /** The column named `name`, if the schema defines one. */
  function FindColumn(columns: seq<Column>, name: string): (r: Option<Column>)
    ensures r.Some? <==> exists c :: c in columns && c.name == name
    ensures r.Some? ==> r.value in columns && r.value.name == name
  {
    if columns == [] then None
    else if columns[0].name == name then Some(columns[0])
    else FindColumn(columns[1..], name)
  }

  /** The schema defines a column called `name` (`array_key_exists` on the columns). */
  predicate HasColumn(schema: Schema, name: string) {
    FindColumn(schema.columns, name).Some?
  }
}
