/**
 * The table inspector, admin/ajax/get-table-structure.php: the table and
 * schema names are checked against an identifier pattern before they are
 * interpolated, double-quoted, into a COUNT statement.
 */
module TableStructure {
  import opened Wrappers
  import opened Text
  import QueryConsole

  /** `[a-zA-Z_][a-zA-Z0-9_]*` over the whole of s. */
  predicate IsIdentifier(s: string)
  {
    |s| > 0 && (IsAlpha(s[0]) || s[0] == '_') && forall i | 1 <= i < |s| :: IsWordChar(s[i])
  }

  /**
   * `preg_match('/^[a-zA-Z_][a-zA-Z0-9_]*$/', $s)`: PCRE's `$` also matches
   * before a final newline, so an identifier followed by "\n" passes.
   */
  predicate IdentifierOk(s: string)
  {
    IsIdentifier(s) || (|s| > 1 && s[|s| - 1] == '\n' && IsIdentifier(s[..|s| - 1]))
  }

  /** An accepted name holds no double quote, so it cannot close the quoted identifier. */
  lemma AcceptedHasNoQuote(s: string)
    requires IdentifierOk(s)
    ensures forall i | 0 <= i < |s| :: s[i] != '"'
  {
    if !IsIdentifier(s) {
      forall i | 0 <= i < |s| ensures s[i] != '"' {
        if i < |s| - 1 {
          assert s[i] == s[..|s| - 1][i];
        }
      }
    }
  }

  /** The trailing newline that `$` lets through is kept in the name: any identifier with a newline after it passes. */
  lemma NewlineNameAccepted(name: string)
    requires IsIdentifier(name)
    ensures IdentifierOk(name + "\n") && !IsIdentifier(name + "\n")
  {
    var s := name + "\n";
    assert s[..|s| - 1] == name;
    assert s[|s| - 1] == '\n' && !IsWordChar('\n');
  }

  /** The COUNT statement with both names interpolated between double quotes. */
  function CountSql(schema: string, table: string): string
  {
    "SELECT COUNT(*) as row_count FROM \"" + schema + "\".\"" + table + "\""
  }

  /**
   * How PostgreSQL reads a double-quoted identifier from the text after its
   * opening quote: everything up to the next `"` (doubled quotes are not
   * needed here), and the text after the closing quote.
   */
  function ReadQuotedName(s: string): (r: Option<(string, string)>)
    ensures r.Some? ==> |r.value.1| < |s|
  {
    if |s| == 0 then None
    else if s[0] == '"' then Some(("", s[1..]))
    else match ReadQuotedName(s[1..])
      case None => None
      case Some((name, rest)) => Some(([s[0]] + name, rest))
  }

  lemma {:induction false} ReadQuotedNameOf(name: string, rest: string)
    requires forall i | 0 <= i < |name| :: name[i] != '"'
    ensures ReadQuotedName(name + "\"" + rest) == Some((name, rest))
  {
    if |name| > 0 {
      assert (name + "\"" + rest)[1..] == name[1..] + "\"" + rest;
      ReadQuotedNameOf(name[1..], rest);
      assert [name[0]] + name[1..] == name;
    } else {
      assert name + "\"" + rest == "\"" + rest;
    }
  }

  /** The prefix of the COUNT statement up to the opening quote of the schema. */
  const CountHead := "SELECT COUNT(*) as row_count FROM \""

  /**
   * For accepted names the statement names exactly the relation
   * schema.table: reading the first quoted identifier gives the schema, the
   * text after it is `."`, and reading the next gives the table with nothing
   * after it.
   */
  lemma CountNamesTheTable(schema: string, table: string)
    requires IdentifierOk(schema) && IdentifierOk(table)
    ensures var sql := CountSql(schema, table);
      && StartsWith(sql, CountHead)
      && ReadQuotedName(sql[|CountHead|..]) == Some((schema, "." + "\"" + table + "\""))
      && ReadQuotedName(table + "\"") == Some((table, ""))
  {
    AcceptedHasNoQuote(schema);
    AcceptedHasNoQuote(table);
    var sql := CountSql(schema, table);
    assert sql == CountHead + (schema + "\"" + ("." + "\"" + table + "\""));
    assert sql[|CountHead|..] == schema + "\"" + ("." + "\"" + table + "\"");
    ReadQuotedNameOf(schema, "." + "\"" + table + "\"");
    ReadQuotedNameOf(table, "");
    assert table + "\"" + "" == table + "\"";
  }

  /** What the three catalogue queries return for a pair of names. */
  datatype Structure = Structure(
    columns: seq<QueryConsole.Row>, rowCount: string, indexes: seq<QueryConsole.Row>)

  datatype StructureResponse =
    | StructureOk(columns: seq<QueryConsole.Row>, rowCount: string, indexes: seq<QueryConsole.Row>,
                  table: string, schema: string)
    | StructureFailed(message: string)

  /**
   * The endpoint: `table` and `schema` are the GET parameters (None when
   * absent), `lookup` what the statements return for the validated names
   * (an error carries PDO's message, e.g. for a table that does not exist).
   */
  function GetTableStructure(dbUp: bool, table: Option<string>, schema: Option<string>,
                             lookup: (string, string) -> Result<Structure>): (r: StructureResponse)
  {
    var t := table.GetOr("");
    var s := schema.GetOr("public");
    if !dbUp then StructureFailed("Database connection failed")
    else if !IdentifierOk(t) then StructureFailed("Invalid table name")
    else if !IdentifierOk(s) then StructureFailed("Invalid schema name")
    else match lookup(s, t)
      case Err(msg) => StructureFailed(msg)
      case Ok(st) => StructureOk(st.columns, st.rowCount, st.indexes, t, s)
  }

  /**
   * The catalogue is consulted only with accepted names; a success echoes
   * them unchanged, the schema being `public` when none was given.
   */
  lemma StructureEchoesNames(dbUp: bool, table: Option<string>, schema: Option<string>,
                             lookup: (string, string) -> Result<Structure>)
    ensures var r := GetTableStructure(dbUp, table, schema, lookup);
      r.StructureOk? ==>
        && table.Some? && r.table == table.value && IdentifierOk(r.table)
        && r.schema == (if schema.Some? then schema.value else "public") && IdentifierOk(r.schema)
        && lookup(r.schema, r.table).Ok?
  {
  }

  /** A missing or malformed table name is refused before the schema is looked at. */
  lemma TableCheckedFirst(table: Option<string>, schema: Option<string>,
                          lookup: (string, string) -> Result<Structure>)
    requires table.None? || !IdentifierOk(table.value)
    ensures GetTableStructure(true, table, schema, lookup) == StructureFailed("Invalid table name")
  {
  }

  /** A given schema must pass the same pattern; the default `public` does. */
  lemma SchemaChecked(table: string, schema: Option<string>, lookup: (string, string) -> Result<Structure>)
    requires IsIdentifier(table)
    ensures schema.None? ==>
      GetTableStructure(true, Some(table), schema, lookup) ==
        (match lookup("public", table)
         case Err(msg) => StructureFailed(msg)
         case Ok(st) => StructureOk(st.columns, st.rowCount, st.indexes, table, "public"))
    ensures schema.Some? && !IdentifierOk(schema.value) ==>
      GetTableStructure(true, Some(table), schema, lookup) == StructureFailed("Invalid schema name")
  {
    var p := "public";
    forall i | 1 <= i < |p| ensures IsWordChar(p[i]) {
      assert p[i] in {'u', 'b', 'l', 'i', 'c'};
    }
    assert IsIdentifier(p);
  }
}
