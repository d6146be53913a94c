/**
 * The earlier single-backend engine in lib.rs: a paged select over the MySQL
 * driver with string errors, whose found-rows rewrite searches " limit "
 * case-sensitively in the SQL as given.
 */
module Engine {
  import opened Base
  import opened Text
  import opened Canonical
  import opened SqlText

  /** The driver: rows for a query and its text parameters, or `None` when it fails (the error is discarded). */
  type Exec<R> = (string, seq<string>) -> Option<seq<R>>

  const Failed := "Failed"
  const CountError := "Count error"
  const CountGetError := "Count get error"

  /**
   * A page of records and its count. Without found-rows counting the count is
   * the page size; with it, the count query (the SQL from its first " from " to
   * its first " limit ", both searched exactly as written) is run with the same
   * parameters and the count is read from its first row by `countOf`.
   */
  function Select<R, T>(exec: Exec<R>, toRecord: R -> T, countOf: R -> nat,
                        sql: string, params: seq<string>, calcFoundRows: bool): (r: Result<SelectHolder<T>, string>)
    requires calcFoundRows ==> FromPrecedesLimit(sql, false)
    ensures exec(sql, params).None? ==> r == Failure(Failed)
    ensures r.Success? ==> exec(sql, params).Some? && r.value.data == MapRows(toRecord, exec(sql, params).value)
    ensures exec(sql, params).Some? && !calcFoundRows ==> r.Success? && r.value.count == |r.value.data|
    ensures exec(sql, params).Some? && calcFoundRows && CountQuery(sql, false).Failure?
            ==> r == Failure(CountQuery(sql, false).error)
    ensures exec(sql, params).Some? && calcFoundRows && CountQuery(sql, false).Success?
            ==> var c := exec(CountQuery(sql, false).value, params);
                (c.None? ==> r == Failure(CountError)) &&
                (c == Some([]) ==> r == Failure(CountGetError)) &&
                (c.Some? && |c.value| > 0 ==> r.Success? && r.value.count == countOf(c.value[0]))
    ensures r.Failure? ==> r.error in {Failed, "No from in sql", "No limit in sql", CountError, CountGetError}
  {
    match exec(sql, params)
    case None => Failure(Failed)
    case Some(rows) =>
      var data := MapRows(toRecord, rows);
      if !calcFoundRows then Success(SelectHolder(data, |data|))
      else
        match CountQuery(sql, false)
        case Failure(msg) => Failure(msg)
        case Success(countSql) =>
          match exec(countSql, params)
          case None => Failure(CountError)
          case Some(counts) =>
            if |counts| == 0 then Failure(CountGetError) else Success(SelectHolder(data, countOf(counts[0])))
  }

  /** With " from " present but no lower-case " limit ", the select fails, even when " LIMIT " is there. */
  lemma SelectNeedsLowerCaseLimit<R, T>(exec: Exec<R>, toRecord: R -> T, countOf: R -> nat,
                                        sql: string, params: seq<string>, f: nat)
    requires exec(sql, params).Some?
    requires OccursAt(sql, FromMarker, f)
    requires forall j: nat :: !OccursAt(sql, LimitMarker, j)
    ensures FromPrecedesLimit(sql, false)
    ensures Select(exec, toRecord, countOf, sql, params, true) == Failure("No limit in sql")
  {
  }

  /** Without " from " the select fails with "No from in sql", whatever else the SQL holds. */
  lemma SelectNeedsFrom<R, T>(exec: Exec<R>, toRecord: R -> T, countOf: R -> nat, sql: string, params: seq<string>)
    requires exec(sql, params).Some?
    requires forall j: nat :: !OccursAt(sql, FromMarker, j)
    ensures FromPrecedesLimit(sql, false)
    ensures Select(exec, toRecord, countOf, sql, params, true) == Failure("No from in sql")
  {
  }
}
