/**
 * How the two adapters and the earlier engine relate: the same upsert and
 * DELETE texts, different column-concatenation syntax, and a found-rows
 * rewrite that differs only in how " limit " is searched.
 */
module Dialects {
  import opened Base
  import opened Text
  import opened Canonical
  import opened SqlText
  import MySql
  import Sqlite

  /**
   * Given the MySQL upsert clause, the SQLite adapter's upsert text is the
   * MySQL adapter's, and it binds the text renderings of the same values.
   */
  method SameUpsert(show: Dypes -> string, table: string, fields: seq<string>, records: seq<seq<Dypes>>)
    returns (my: Statement<Dypes>, lite: Statement<string>)
    requires Covers(records, |fields|)
    ensures my.sql == lite.sql == InsertUpdateSql(table, fields, |records|)
    ensures lite.params == Sqlite.Shows(show, my.params)
    ensures |my.params| == |records| * |fields|
  {
    my := MySql.InsertUpdate(table, fields, records);
    lite := Sqlite.InsertUpdate(show, Dupdate, table, fields, records);
    FlattenPrefixLength(records, |fields|);
  }

  /** Both adapters build the same DELETE text and bind one value per key. */
  method SameDelete(table: string, idColum: string, idValues: seq<Dypes>, inOut: string)
    returns (my: Statement<MySql.Value>, lite: Statement<Sqlite.Value>)
    ensures my.sql == lite.sql
    ensures |my.params| == |lite.params| == |idValues|
  {
    my := MySql.DeleteIds(table, idColum, idValues, inOut);
    lite := Sqlite.DeleteIds(table, idColum, idValues, inOut);
  }

  /**
   * The adapters disagree on concatenation syntax: MySQL wraps the
   * comma-separated columns in `concat_ws(' ', …)`, SQLite chains them with
   * `||` inside parentheses, so the two expressions never coincide.
   */
  method ConcatSyntaxDiffers(colums: seq<string>) returns (my: string, lite: string)
    ensures my == MySql.ConcatColums(colums)
    ensures lite == "(" + Join(" || ", colums) + " )"
    ensures my[..|MySql.ConcatPrefix|] == MySql.ConcatPrefix && my[|my| - 1] == ')'
    ensures lite[..1] == "(" && lite[|lite| - 2..] == " )"
    ensures my != lite
  {
    my := MySql.ConcatColums(colums);
    lite := Sqlite.ConcatColums(colums);
    assert my[0] == 'c' && lite[0] == '(';
  }

  /**
   * An upper-case " LIMIT " is enough for both adapters, which search a
   * lower-cased copy, but not for the earlier engine, which searches the SQL as written.
   */
  lemma LimitSearchCaseSensitivity(sql: string, f: nat, j: nat)
    requires OccursAt(sql, FromMarker, f)
    requires OccursAt(sql, " LIMIT ", j)
    requires forall k: nat :: !OccursAt(sql, LimitMarker, k)
    requires FromPrecedesLimit(sql, true)
    ensures FromPrecedesLimit(sql, false)
    ensures CountQuery(sql, false) == Failure("No limit in sql")
    ensures CountQuery(sql, true).Success?
  {
    MySql.SelectFindsUpperCaseLimit(sql, j);
  }

  /** On SQL without capital letters the engine and the adapters build the same count query. */
  lemma CountQueriesAgreeWithoutCapitals(sql: string)
    requires forall i :: 0 <= i < |sql| ==> !('A' <= sql[i] <= 'Z')
    ensures FromPrecedesLimit(sql, true) <==> FromPrecedesLimit(sql, false)
    ensures FromPrecedesLimit(sql, true) ==> CountQuery(sql, true) == CountQuery(sql, false)
  {
    assert ToLower(sql) == sql;
  }
}
