/**
 * The statement that switches foreign-key enforcement on or off, compiled
 * for a database dialect (SetForeignKeyChecksStatement).
 */
module ForeignKeyChecks {
  import opened Wrappers

  /** The dialects the database layer knows about. */
  datatype Dialect = MySql | PostgreSql | Sqlite

  /** Thrown, with no detail, for a dialect the statement has no syntax for. */
  datatype UnsupportedDialect = UnsupportedDialect

  /** The statement object; `enable` is its only state. */
  datatype Statement = Statement(enable: bool)

  /** The constructor's default: foreign-key checks are switched on. */
  function DefaultStatement(): (s: Statement)
    ensures s.enable
  {
    Statement(true)
  }

  const MySqlPrefix := "SET FOREIGN_KEY_CHECKS = "
  const SqlitePrefix := "PRAGMA foreign_keys = "

  /** The flag as the one character the statement ends with. */
  function FlagText(enable: bool): (t: string)
    ensures |t| == 1
    ensures t == "1" <==> enable
    ensures t == "0" <==> !enable
  {
    if enable then "1" else "0"
  }

  /** The SQL text for `dialect`, or the dialect error for any dialect but MySQL and SQLite. */
  function Compile(s: Statement, dialect: Dialect): (r: Result<string, UnsupportedDialect>)
    ensures r.Success? <==> dialect == MySql || dialect == Sqlite
    ensures r.Failure? ==> r.error == UnsupportedDialect
    ensures dialect == MySql && s.enable ==> r == Success("SET FOREIGN_KEY_CHECKS = 1")
    ensures dialect == MySql && !s.enable ==> r == Success("SET FOREIGN_KEY_CHECKS = 0")
    ensures dialect == Sqlite && s.enable ==> r == Success("PRAGMA foreign_keys = 1")
    ensures dialect == Sqlite && !s.enable ==> r == Success("PRAGMA foreign_keys = 0")
  {
    match dialect
    case MySql =>
      var sql := MySqlPrefix + FlagText(s.enable);
      assert sql == if s.enable then "SET FOREIGN_KEY_CHECKS = 1" else "SET FOREIGN_KEY_CHECKS = 0";
      Success(sql)
    case Sqlite =>
      var sql := SqlitePrefix + FlagText(s.enable);
      assert sql == if s.enable then "PRAGMA foreign_keys = 1" else "PRAGMA foreign_keys = 0";
      Success(sql)
    case PostgreSql => Failure(UnsupportedDialect)
  }

  /**
   * Reads a compiled statement back: which dialect wrote it and what the
   * flag was. The inverse of `Compile` on its successful outputs.
   */
  function Parse(sql: string): (r: Option<(Dialect, bool)>)
    ensures r.Some? ==> r.value.0 == MySql || r.value.0 == Sqlite
  {
    if |sql| == |MySqlPrefix| + 1 && sql[..|MySqlPrefix|] == MySqlPrefix && sql[|MySqlPrefix|..] in {"0", "1"} then
      Some((MySql, sql[|MySqlPrefix|..] == "1"))
    else if |sql| == |SqlitePrefix| + 1 && sql[..|SqlitePrefix|] == SqlitePrefix && sql[|SqlitePrefix|..] in {"0", "1"} then
      Some((Sqlite, sql[|SqlitePrefix|..] == "1"))
    else
      None
  }

  /** Every successful compilation can be read back to exactly its dialect and flag. */
  lemma ParseCompile(s: Statement, dialect: Dialect)
    requires dialect != PostgreSql
    ensures Compile(s, dialect).Success?
    ensures Parse(Compile(s, dialect).value) == Some((dialect, s.enable))
  {
    var sql := Compile(s, dialect).value;
    if dialect == MySql {
      assert sql[..|MySqlPrefix|] == MySqlPrefix;
      assert sql[|MySqlPrefix|..] == FlagText(s.enable);
    } else {
      assert sql[..|SqlitePrefix|] == SqlitePrefix;
      assert sql[|SqlitePrefix|..] == FlagText(s.enable);
    }
  }

  /**
   * The text depends on nothing but the dialect and the flag, and two
   * statements compile alike exactly when their flags agree.
   */
  lemma CompileInjective(s1: Statement, s2: Statement, d1: Dialect, d2: Dialect)
    requires Compile(s1, d1).Success? && Compile(s2, d2).Success?
    ensures Compile(s1, d1) == Compile(s2, d2) <==> d1 == d2 && s1.enable == s2.enable
  {
    if Compile(s1, d1) == Compile(s2, d2) {
      ParseCompile(s1, d1);
      ParseCompile(s2, d2);
    }
  }
}
