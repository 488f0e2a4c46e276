/** The structured errors the migration layer raises, each with its numeric code. */
module MigrationException {
  import opened Collections

  /** The three error kinds; codes 1, 2 and 3 respectively. */
  datatype MigrationError =
    | SeedColumnDoesntExist(column: string, table: string)
    | FailedToInsertSeed(driverError: string, table: string)
    | FailedToDropTable(table: string)
  {
    /** The exception code, which is how callers tell the kinds apart. */
    function Code(): (c: nat)
      ensures c == 1 <==> SeedColumnDoesntExist?
      ensures c == 2 <==> FailedToInsertSeed?
      ensures c == 3 <==> FailedToDropTable?
    {
      match this
      case SeedColumnDoesntExist(_, _) => 1
      case FailedToInsertSeed(_, _) => 2
      case FailedToDropTable(_) => 3
    }

    /**
     * The exception message. The drop message is given as the evidently intended one, with the
     * table name in it; the text the source produces is `AsWrittenDropMessage`.
     */
    function Message(): string {
      match this
      case SeedColumnDoesntExist(column, table) =>
        "Could not find column " + column + " in " + table + " schema definition"
      case FailedToInsertSeed(driverError, table) =>
        "Could not insert seed into " + table + ", failed with error: " + driverError
      case FailedToDropTable(table) =>
        "Failed to drop " + table
    }
  }

  /** Every message names the table, and the column or the driver error where there is one. */
  lemma MessageNamesItsSubjects(e: MigrationError)
    ensures Contains(e.Message(), e.table)
    ensures e.SeedColumnDoesntExist? ==> Contains(e.Message(), e.column)
    ensures e.FailedToInsertSeed? ==> Contains(e.Message(), e.driverError)
  {
    match e
    case SeedColumnDoesntExist(column, table) =>
      var head, tail := "Could not find column ", " schema definition";
      assert e.Message() == head + column + (" in " + table + tail);
      ContainsMiddle(head, column, " in " + table + tail);
      assert e.Message() == (head + column + " in ") + table + tail;
      ContainsMiddle(head + column + " in ", table, tail);
    case FailedToInsertSeed(driverError, table) =>
      var head, middle := "Could not insert seed into ", ", failed with error: ";
      assert e.Message() == head + table + (middle + driverError);
      ContainsMiddle(head, table, middle + driverError);
      assert e.Message() == (head + table + middle) + driverError + [];
      ContainsMiddle(head + table + middle, driverError, []);
    case FailedToDropTable(table) =>
      assert e.Message() == "Failed to drop " + table + [];
      ContainsMiddle("Failed to drop ", table, []);
  }

  /** The decimal digits of `n`, most significant first. */
  function DecimalString(n: nat): (r: string)
    ensures |r| >= 1
    ensures forall i :: 0 <= i < |r| ==> '0' <= r[i] <= '9'
  {
    var d := ['0' + (n % 10) as char];
    if n < 10 then d else DecimalString(n / 10) + d
  }

  /** The run of ASCII digits `s` starts with. */
  function DigitPrefix(s: string): (r: string)
    ensures |r| <= |s| && r == s[..|r|]
    ensures forall i :: 0 <= i < |r| ==> '0' <= r[i] <= '9'
  {
    if s != [] && '0' <= s[0] <= '9' then [s[0]] + DigitPrefix(s[1..]) else []
  }

  /** The number a string of decimal digits spells; 0 for the empty string. */
  function DigitsValue(ds: string): nat
    requires forall i :: 0 <= i < |ds| ==> '0' <= ds[i] <= '9'
  {
    if ds == [] then 0 else DigitsValue(ds[..|ds| - 1]) * 10 + (ds[|ds| - 1] - '0') as nat
  }

  /**
   * The drop message as the source writes it: the table name is formatted with `%d`, so PHP
   * converts it to an integer (the value of its leading digits, 0 when there are none).
   */
  function AsWrittenDropMessage(table: string): string {
    "Failed to drop " + DecimalString(DigitsValue(DigitPrefix(table)))
  }

  /** A character PHP's integer conversion may accept at the start of a numeric string. */
  predicate NumericLead(c: char) {
    '0' <= c <= '9' || c in {' ', '\t', '\n', '\r', '\U{000B}', '\U{000C}', '+', '-', '.'}
  }

  /**
   * A table name that cannot start a number (no leading digit, whitespace, sign or point)
   * always gives the message "Failed to drop 0".
   */
  lemma AsWrittenDropMessageIgnoresName(table: string)
    requires table == [] || !NumericLead(table[0])
    ensures AsWrittenDropMessage(table) == "Failed to drop 0"
  {
    assert DigitPrefix(table) == [];
  }

  /** The test fixture's table name does not survive into the as-written message. */
  lemma AsWrittenDropMessageLosesName()
    ensures !Contains(AsWrittenDropMessage("uu_foo_table"), "uu_foo_table")
    ensures Contains(FailedToDropTable("uu_foo_table").Message(), "uu_foo_table")
  {
    var name := "uu_foo_table";
    AsWrittenDropMessageIgnoresName(name);
    var msg := AsWrittenDropMessage(name);
    forall i ensures !OccursAt(msg, name, i) {
      if 0 <= i && i + |name| <= |msg| {
        assert msg[i..i + |name|][0] == msg[i] != name[0];
      }
    }
    MessageNamesItsSubjects(FailedToDropTable(name));
  }
}
