/**
 * The SQL text both adapters generate, as reference definitions: placeholder
 * lists, VALUES groups, the upsert clause, the INSERT, UPDATE and DELETE
 * statements, the flattened parameter lists, and the found-rows count query.
 * The adapters' own loops are proved to build exactly these texts; the lemmas
 * here say what the texts mean (placeholder counts, positional correspondence,
 * what the count query keeps and drops).
 */
module SqlText {
  import opened Base
  import opened Text

  // ---------------------------------------------------------------------------
  // Placeholders and VALUES groups
  // ---------------------------------------------------------------------------

  /** `n` placeholders separated by commas. */
  function Placeholders(n: nat): string
  {
    Join(",", Repeat("?", n))
  }

  /** The placeholder list is "?" and "," alternating, with no spaces: "?,?,?"; empty for zero. */
  lemma {:induction false} PlaceholdersShape(n: nat)
    ensures |Placeholders(n)| == if n == 0 then 0 else 2 * n - 1
    ensures forall i :: 0 <= i < |Placeholders(n)| ==> Placeholders(n)[i] == if i % 2 == 0 then '?' else ','
    decreases n
  {
    if n >= 2 {
      PlaceholdersShape(n - 1);
      assert Repeat("?", n) == Repeat("?", n - 1) + ["?"];
      JoinSnoc(",", Repeat("?", n - 1), "?");
    } else if n == 1 {
      assert Repeat("?", 1) == ["?"];
    }
  }

  lemma PlaceholdersCount(n: nat)
    ensures Count('?', Placeholders(n)) == n
  {
    assert Count('?', "?") == 1 by {
      assert "?"[..0] == "";
    }
    CountJoin('?', ",", Repeat("?", n), 1);
  }

  /** The list grows by ",?" for every placeholder after the first. */
  lemma PlaceholdersSnoc(n: nat)
    ensures Placeholders(n + 1) == Placeholders(n) + (if n == 0 then "?" else ",?")
  {
    assert Repeat("?", n + 1) == Repeat("?", n) + ["?"];
    if n == 0 {
      assert Repeat("?", 1) == ["?"];
    } else {
      JoinSnoc(",", Repeat("?", n), "?");
    }
  }

  /** One parenthesised VALUES group of `n` placeholders: "(?,..,?)". */
  function Group(n: nat): string
  {
    "(" + Placeholders(n) + ")"
  }

  /** `k` groups of `n` placeholders, comma-separated. */
  function Groups(k: nat, n: nat): string
  {
    if k == 0 then "" else if k == 1 then Group(n) else Groups(k - 1, n) + "," + Group(n)
  }

  lemma GroupsSnoc(k: nat, n: nat)
    ensures Groups(k + 1, n) == Groups(k, n) + (if k == 0 then "" else ",") + Group(n)
  {
  }

  /** The groups are the comma-join of `k` copies of one group. */
  lemma {:induction false} GroupsJoin(k: nat, n: nat)
    ensures Groups(k, n) == Join(",", Repeat(Group(n), k))
    decreases k
  {
    if k == 1 {
      assert Repeat(Group(n), 1) == [Group(n)];
    } else if k > 1 {
      GroupsJoin(k - 1, n);
      RepeatSnoc(Group(n), k - 1);
      JoinSnoc(",", Repeat(Group(n), k - 1), Group(n));
    }
  }

  /** Appending one more group of `n` placeholders, written out as the adapters build it. */
  lemma GroupsStep(k: nat, n: nat, q: seq<string>)
    requires q == Repeat("?", n)
    ensures Groups(k + 1, n) == (if k != 0 then Groups(k, n) + "," else Groups(k, n)) + "(" + Join(",", q) + ")"
  {
    GroupsSnoc(k, n);
  }

  /** One group of `n` placeholders holds `n` placeholders. */
  lemma GroupCount(n: nat)
    ensures Count('?', Group(n)) == n
  {
    var p := Placeholders(n);
    PlaceholdersCount(n);
    CountAppend('?', "(", p + ")");
    CountAppend('?', p, ")");
    assert Count('?', "(") == 0 by { CountAbsent('?', "("); }
    assert Count('?', ")") == 0 by { CountAbsent('?', ")"); }
    assert Group(n) == "(" + (p + ")");
  }

  /** `k` groups of `n` placeholders hold `k * n` placeholders. */
  lemma GroupsCount(k: nat, n: nat)
    ensures Count('?', Groups(k, n)) == k * n
  {
    var gs := Repeat(Group(n), k);
    forall i | 0 <= i < |gs|
      ensures Count('?', gs[i]) == n
    {
      GroupCount(n);
    }
    CountJoin('?', ",", gs, n);
    GroupsJoin(k, n);
  }

  // ---------------------------------------------------------------------------
  // The upsert clause
  // ---------------------------------------------------------------------------

  /** The assignment that re-sets column `c` to the value the insert proposed. */
  function DupdateItem(c: string): string
  {
    c + " = VALUES(" + c + ") "
  }

  function DupdateItems(cols: seq<string>): (r: seq<string>)
    ensures |r| == |cols|
    ensures forall i :: 0 <= i < |cols| ==> r[i] == DupdateItem(cols[i])
  {
    seq(|cols|, i requires 0 <= i < |cols| => DupdateItem(cols[i]))
  }

  /** The text after ON DUPLICATE KEY UPDATE: one assignment per column, comma-joined. */
  function Dupdate(cols: seq<string>): string
  {
    Join(",", DupdateItems(cols))
  }

  /**
   * Read back at its commas, the upsert clause holds, in column order, exactly
   * one assignment "c = VALUES(c) " per column, provided no column name holds a comma.
   */
  lemma DupdateAssignsEachColumn(cols: seq<string>)
    requires |cols| > 0
    requires forall i :: 0 <= i < |cols| ==> ',' !in cols[i]
    ensures Split(',', Dupdate(cols)) == DupdateItems(cols)
  {
    forall i | 0 <= i < |cols|
      ensures ',' !in DupdateItems(cols)[i]
    {
      assert DupdateItems(cols)[i] == cols[i] + " = VALUES(" + cols[i] + ") ";
    }
    SplitJoin(',', DupdateItems(cols));
  }

  lemma DupdateHasNoPlaceholder(cols: seq<string>)
    requires forall i :: 0 <= i < |cols| ==> '?' !in cols[i]
    ensures '?' !in Dupdate(cols)
  {
    forall i | 0 <= i < |cols|
      ensures '?' !in DupdateItems(cols)[i]
    {
      assert DupdateItems(cols)[i] == cols[i] + " = VALUES(" + cols[i] + ") ";
    }
    JoinExcludes('?', ",", DupdateItems(cols));
  }

  // ---------------------------------------------------------------------------
  // Parameter lists
  // ---------------------------------------------------------------------------

  /** Every record has at least `n` values, so that values[j] exists for every field index `j`. */
  ghost predicate Covers<P>(records: seq<seq<P>>, n: nat)
  {
    forall i :: 0 <= i < |records| ==> |records[i]| >= n
  }

  /** All values of all records, record after record. */
  function Flatten<P>(records: seq<seq<P>>): seq<P>
  {
    if |records| == 0 then [] else Flatten(records[..|records| - 1]) + records[|records| - 1]
  }

  /** The first `n` values of every record, record after record. */
  function FlattenPrefix<P>(records: seq<seq<P>>, n: nat): seq<P>
    requires Covers(records, n)
  {
    if |records| == 0 then [] else FlattenPrefix(records[..|records| - 1], n) + records[|records| - 1][..n]
  }

  /** The first `n` values of each of the first `k` records, record after record. */
  function FlattenRows<P>(records: seq<seq<P>>, n: nat, k: nat): seq<P>
    requires Covers(records, n) && k <= |records|
  {
    if k == 0 then [] else FlattenRows(records, n, k - 1) + records[k - 1][..n]
  }

  lemma {:induction false} FlattenRowsPrefix<P>(records: seq<seq<P>>, n: nat, k: nat)
    requires Covers(records, n) && k <= |records|
    ensures FlattenRows(records, n, k) == FlattenPrefix(records[..k], n)
    decreases k
  {
    if k > 0 {
      FlattenRowsPrefix(records, n, k - 1);
      assert records[..k][..k - 1] == records[..k - 1];
    }
  }

  /** Taking `n` values of every one of the records is the whole prefix flattening. */
  lemma FlattenRowsAll<P>(records: seq<seq<P>>, n: nat)
    requires Covers(records, n)
    ensures FlattenRows(records, n, |records|) == FlattenPrefix(records, n)
  {
    FlattenRowsPrefix(records, n, |records|);
    assert records[..|records|] == records;
  }

  lemma MulLe(a: nat, b: nat, n: nat)
    requires a <= b
    ensures a * n <= b * n
  {
  }

  /**
   * Positional correspondence: the bound list has `n` values per record, and
   * value `j` of record `i` is bound at position `i * n + j`.
   */
  lemma {:induction false} FlattenPrefixAt<P>(records: seq<seq<P>>, n: nat, i: nat, j: nat)
    requires Covers(records, n)
    requires i < |records| && j < n
    ensures |FlattenPrefix(records, n)| == |records| * n
    ensures i * n + j < |FlattenPrefix(records, n)|
    ensures FlattenPrefix(records, n)[i * n + j] == records[i][j]
    decreases |records|
  {
    var last := |records| - 1;
    var front := records[..last];
    FlattenPrefixLength(front, n);
    MulSucc(last, n);
    if i < last {
      FlattenPrefixAt(front, n, i, j);
    } else {
      assert FlattenPrefix(records, n) == FlattenPrefix(front, n) + records[last][..n];
    }
  }

  lemma {:induction false} FlattenPrefixLength<P>(records: seq<seq<P>>, n: nat)
    requires Covers(records, n)
    ensures |FlattenPrefix(records, n)| == |records| * n
    decreases |records|
  {
    if |records| > 0 {
      FlattenPrefixLength(records[..|records| - 1], n);
      MulSucc(|records| - 1, n);
    }
  }

  /** When every record has exactly `n` values, flattening all of them binds the same list as taking `n` of each. */
  lemma {:induction false} FlattenExact<P>(records: seq<seq<P>>, n: nat)
    requires forall i :: 0 <= i < |records| ==> |records[i]| == n
    ensures Covers(records, n)
    ensures Flatten(records) == FlattenPrefix(records, n)
    decreases |records|
  {
    if |records| > 0 {
      FlattenExact(records[..|records| - 1], n);
      assert records[|records| - 1][..n] == records[|records| - 1];
    }
  }

  // ---------------------------------------------------------------------------
  // INSERT, INSERT .. ON DUPLICATE KEY UPDATE, UPDATE, DELETE
  // ---------------------------------------------------------------------------

  /** The upsert collects column names only while it handles the first record: none when there is none. */
  function InsertColumns(cols: seq<string>, k: nat): seq<string>
  {
    if k == 0 then [] else cols
  }

  /** "INSERT INTO t (names) VALUES rows", the head all three INSERT texts share. */
  function InsertHead(table: string, names: string, rows: string): string
  {
    "INSERT INTO " + table + " (" + names + ") VALUES " + rows
  }

  /** An upsert statement assembled from its column names, its VALUES groups and its update clause. */
  function UpsertText(table: string, names: seq<string>, groups: string, clause: string): string
  {
    InsertHead(table, Join(",", names), groups) + " ON DUPLICATE KEY UPDATE " + clause
  }

  /** The upsert statement for `k` records of a type with fields `cols`. */
  function InsertUpdateSql(table: string, cols: seq<string>, k: nat): string
  {
    UpsertText(table, InsertColumns(cols, k), Groups(k, |cols|), Dupdate(InsertColumns(cols, k)))
  }

  /** The multi-row INSERT in the layout the upsert uses (src/my_sql.rs:214-217): one group per record directly after VALUES. */
  function InsertSql(table: string, cols: seq<string>, k: nat): string
  {
    InsertHead(table, Join(",", cols), Groups(k, |cols|))
  }

  /** The INSERT my_sql.rs builds: the comma-joined groups wrapped in one more pair of parentheses. */
  function InsertSqlAsWritten(table: string, cols: seq<string>, k: nat): string
  {
    InsertHead(table, Join(",", cols), "(" + Groups(k, |cols|) + ")")
  }

  /** For at least one record, the upsert is the plain multi-row insert followed by the upsert clause. */
  lemma InsertUpdateExtendsInsert(table: string, cols: seq<string>, k: nat)
    requires k > 0
    ensures InsertUpdateSql(table, cols, k) == InsertSql(table, cols, k) + " ON DUPLICATE KEY UPDATE " + Dupdate(cols)
  {
  }

  /** A text built from parts, each one free of `?` or counted: the counts add up. */
  lemma CountAfter(prefix: string, lit: string, part: string)
    requires '?' !in lit
    ensures Count('?', prefix + lit + part) == Count('?', prefix) + Count('?', part)
  {
    CountAround('?', prefix, lit, part);
  }

  /** An identifier list whose names hold no `?` holds no placeholder. */
  lemma NamesHaveNoPlaceholder(sep: string, names: seq<string>)
    requires '?' !in sep
    requires forall i :: 0 <= i < |names| ==> '?' !in names[i]
    ensures Count('?', Join(sep, names)) == 0
  {
    JoinExcludes('?', sep, names);
    CountAbsent('?', Join(sep, names));
  }

  /** The head's placeholders are those of its rows when the table and column names hold none. */
  lemma InsertHeadCount(table: string, names: string, rows: string)
    requires '?' !in table
    requires Count('?', names) == 0
    ensures Count('?', InsertHead(table, names, rows)) == Count('?', rows)
  {
    CountAbsent('?', table);
    CountAbsent('?', "");
    CountAfter("", "INSERT INTO ", table);
    assert "" + "INSERT INTO " + table == "INSERT INTO " + table;
    CountAfter("INSERT INTO " + table, " (", names);
    CountAfter("INSERT INTO " + table + " (" + names, ") VALUES ", rows);
  }

  /** The upsert clause adds no placeholder to the head. */
  lemma UpsertCount(table: string, cs: seq<string>, rows: string)
    requires '?' !in table
    requires forall i :: 0 <= i < |cs| ==> '?' !in cs[i]
    ensures Count('?', InsertHead(table, Join(",", cs), rows) + " ON DUPLICATE KEY UPDATE " + Dupdate(cs))
         == Count('?', rows)
  {
    NamesHaveNoPlaceholder(",", cs);
    InsertHeadCount(table, Join(",", cs), rows);
    DupdateHasNoPlaceholder(cs);
    CountAbsent('?', Dupdate(cs));
    CountAfter(InsertHead(table, Join(",", cs), rows), " ON DUPLICATE KEY UPDATE ", Dupdate(cs));
  }

  /**
   * Every placeholder of the upsert has a bound value and vice versa: with names
   * free of `?`, the text holds `k * |cols|` placeholders, the number of values bound.
   */
  lemma InsertUpdatePlaceholderCount<P>(table: string, cols: seq<string>, records: seq<seq<P>>)
    requires '?' !in table
    requires forall i :: 0 <= i < |cols| ==> '?' !in cols[i]
    requires Covers(records, |cols|)
    ensures Count('?', InsertUpdateSql(table, cols, |records|)) == |records| * |cols|
    ensures |FlattenPrefix(records, |cols|)| == |records| * |cols|
  {
    UpsertCount(table, InsertColumns(cols, |records|), Groups(|records|, |cols|));
    GroupsCount(|records|, |cols|);
    FlattenPrefixLength(records, |cols|);
  }

  /** The corrected INSERT binds every placeholder when every record has one value per field. */
  lemma InsertPlaceholderCount<P>(table: string, cols: seq<string>, records: seq<seq<P>>)
    requires '?' !in table
    requires forall i :: 0 <= i < |cols| ==> '?' !in cols[i]
    requires forall i :: 0 <= i < |records| ==> |records[i]| == |cols|
    ensures Count('?', InsertSql(table, cols, |records|)) == |Flatten(records)| == |records| * |cols|
  {
    NamesHaveNoPlaceholder(",", cols);
    GroupsCount(|records|, |cols|);
    InsertHeadCount(table, Join(",", cols), Groups(|records|, |cols|));
    FlattenExact(records, |cols|);
    FlattenPrefixLength(records, |cols|);
  }

  lemma TwoPlaceholders()
    ensures Placeholders(2) == "?,?"
  {
    PlaceholdersSnoc(0);
    PlaceholdersSnoc(1);
  }

  lemma TwoGroupsOfTwo()
    ensures Groups(2, 2) == "(?,?),(?,?)"
  {
    TwoPlaceholders();
    GroupsSnoc(0, 2);
    GroupsSnoc(1, 2);
  }

  /** Two records of two fields: the as-written INSERT nests the rows inside one extra pair of parentheses. */
  lemma InsertAsWrittenNestsRows()
    ensures InsertSqlAsWritten("t", ["a", "b"], 2) == InsertHead("t", "a,b", "((?,?),(?,?))")
    ensures InsertSql("t", ["a", "b"], 2) == InsertHead("t", "a,b", "(?,?),(?,?)")
    ensures InsertSqlAsWritten("t", ["a", "b"], 2) != InsertSql("t", ["a", "b"], 2)
  {
    TwoGroupsOfTwo();
    Join2(",", "a", "b");
    InsertAsWrittenDiffers("t", ["a", "b"], 2);
  }

  /** A non-empty run of groups starts with a group: "(" and then a placeholder, or ")" when there are no fields. */
  lemma {:induction false} GroupsStart(k: nat, n: nat)
    requires k > 0
    ensures |Groups(k, n)| >= 2 && Groups(k, n)[0] == '('
    ensures Groups(k, n)[1] == if n == 0 then ')' else '?'
    decreases k
  {
    if k == 1 {
      PlaceholdersShape(n);
    } else {
      GroupsStart(k - 1, n);
    }
  }

  /** For any non-empty batch, the as-written INSERT is not the multi-row INSERT: its rows are nested one level deeper. */
  lemma InsertAsWrittenDiffers(table: string, cols: seq<string>, k: nat)
    requires k > 0
    ensures InsertSqlAsWritten(table, cols, k) != InsertSql(table, cols, k)
  {
    GroupsStart(k, |cols|);
    var head := "INSERT INTO " + table + " (" + Join(",", cols) + ") VALUES ";
    assert InsertSqlAsWritten(table, cols, k) == head + ("(" + Groups(k, |cols|) + ")");
    assert InsertSql(table, cols, k) == head + Groups(k, |cols|);
    assert InsertSqlAsWritten(table, cols, k)[|head| + 1] == '(';
    assert InsertSql(table, cols, k)[|head| + 1] != '(';
  }

  /** The SET list: "c = ?" per column, comma-joined. */
  function SetItems(cols: seq<string>): (r: seq<string>)
    ensures |r| == |cols|
    ensures forall i :: 0 <= i < |cols| ==> r[i] == cols[i] + " = ?"
  {
    seq(|cols|, i requires 0 <= i < |cols| => cols[i] + " = ?")
  }

  /** The WHERE terms: each key directly followed by `?`. */
  function WhereItems(keys: seq<string>): (r: seq<string>)
    ensures |r| == |keys|
    ensures forall i :: 0 <= i < |keys| ==> r[i] == keys[i] + "?"
  {
    seq(|keys|, i requires 0 <= i < |keys| => keys[i] + "?")
  }

  function UpdateSql(table: string, cols: seq<string>, keys: seq<string>): string
  {
    "UPDATE " + table + " SET " + Join(",", SetItems(cols)) + " WHERE " + Join(" and ", WhereItems(keys))
  }

  lemma OnePlaceholder()
    ensures Count('?', "?") == 1
  {
    assert "?"[..0] == "";
  }

  /** The SET list holds one placeholder per column. */
  lemma SetCount(cols: seq<string>)
    requires forall i :: 0 <= i < |cols| ==> '?' !in cols[i]
    ensures Count('?', Join(",", SetItems(cols))) == |cols|
  {
    OnePlaceholder();
    forall i | 0 <= i < |cols|
      ensures Count('?', SetItems(cols)[i]) == 1
    {
      CountAbsent('?', cols[i]);
      CountAround('?', cols[i], " = ", "?");
      assert SetItems(cols)[i] == cols[i] + " = " + "?";
    }
    CountJoin('?', ",", SetItems(cols), 1);
  }

  /** The WHERE terms hold one placeholder per key. */
  lemma WhereCount(keys: seq<string>)
    requires forall i :: 0 <= i < |keys| ==> '?' !in keys[i]
    ensures Count('?', Join(" and ", WhereItems(keys))) == |keys|
  {
    OnePlaceholder();
    forall i | 0 <= i < |keys|
      ensures Count('?', WhereItems(keys)[i]) == 1
    {
      CountAbsent('?', keys[i]);
      CountAppend('?', keys[i], "?");
    }
    CountJoin('?', " and ", WhereItems(keys), 1);
  }

  /** The UPDATE text holds one placeholder per column and one per where key. */
  lemma UpdatePlaceholderCount(table: string, cols: seq<string>, keys: seq<string>)
    requires '?' !in table
    requires forall i :: 0 <= i < |cols| ==> '?' !in cols[i]
    requires forall i :: 0 <= i < |keys| ==> '?' !in keys[i]
    ensures Count('?', UpdateSql(table, cols, keys)) == |cols| + |keys|
  {
    var set_ := Join(",", SetItems(cols));
    var where_ := Join(" and ", WhereItems(keys));
    SetCount(cols);
    WhereCount(keys);
    var head := "UPDATE " + table;
    CountAbsent('?', head);
    CountAfter(head, " SET ", set_);
    CountAfter(head + " SET " + set_, " WHERE ", where_);
    assert UpdateSql(table, cols, keys) == head + " SET " + set_ + " WHERE " + where_;
  }

  /** The placeholder list for `cs`: the first character as is, every later one after a comma. */
  function CommaSpread(cs: seq<char>): string
  {
    if |cs| == 0 then "" else CommaSpread(cs[..|cs| - 1]) + (if |cs| - 1 != 0 then "," else "") + [cs[|cs| - 1]]
  }

  lemma {:induction false} CommaSpreadPlaceholders(n: nat)
    ensures CommaSpread(Repeat('?', n)) == Placeholders(n)
    decreases n
  {
    if n > 0 {
      assert Repeat('?', n)[..n - 1] == Repeat('?', n - 1);
      CommaSpreadPlaceholders(n - 1);
      PlaceholdersSnoc(n - 1);
    }
  }

  /** The DELETE by key set, with `inOut` either "IN" or "NOT IN". */
  function DeleteSql(table: string, idCol: string, inOut: string, n: nat): string
  {
    "delete from " + table + " where " + idCol + " " + inOut + " (" + Placeholders(n) + ")"
  }

  /** The DELETE text holds one placeholder per key, and "()" when there is none. */
  lemma DeletePlaceholderCount(table: string, idCol: string, inOut: string, n: nat)
    requires '?' !in table && '?' !in idCol && '?' !in inOut
    ensures Count('?', DeleteSql(table, idCol, inOut, n)) == n
    ensures n == 0 ==> DeleteSql(table, idCol, inOut, n) == "delete from " + table + " where " + idCol + " " + inOut + " ()"
  {
    var p := Placeholders(n);
    PlaceholdersCount(n);
    CountAbsent('?', table);
    CountAbsent('?', idCol);
    CountAbsent('?', inOut);
    CountAbsent('?', "");
    CountAfter("", "delete from ", table);
    CountAfter("delete from " + table, " where ", idCol);
    CountAfter("delete from " + table + " where " + idCol, " ", inOut);
    CountAfter("delete from " + table + " where " + idCol + " " + inOut, " (", p);
    CountAfter("delete from " + table + " where " + idCol + " " + inOut + " (" + p, ")", "");
    assert "" + "delete from " + table == "delete from " + table;
    assert "delete from " + table + " where " + idCol + " " + inOut + " (" + p + ")" + "" == DeleteSql(table, idCol, inOut, n);
  }

  // ---------------------------------------------------------------------------
  // Found-rows counting
  // ---------------------------------------------------------------------------

  const CountPrefix := "select count(*) as count "
  const FromMarker := " from "
  const LimitMarker := " limit "

  /** The text the limit marker is searched in: the lower-cased copy when the search ignores case. */
  function LimitHaystack(sql: string, ignoreCase: bool): (h: string)
    ensures |h| == |sql|
  {
    if ignoreCase then ToLower(sql) else sql
  }

  /**
   * When both markers are present, the first " from " does not come after the
   * first " limit " (the slice between them would abort otherwise).
   */
  predicate FromPrecedesLimit(sql: string, ignoreCase: bool)
  {
    var f := Find(sql, FromMarker);
    var l := Find(LimitHaystack(sql, ignoreCase), LimitMarker);
    f.Some? && l.Some? ==> f.value <= l.value
  }

  /**
   * The query that counts every row the paged query matches: the count prefix
   * followed by the SQL from its first " from " up to its first " limit ".
   */
  function CountQuery(sql: string, ignoreCase: bool): (r: Result<string, string>)
    requires FromPrecedesLimit(sql, ignoreCase)
    ensures r == Failure("No from in sql") <==> forall j: nat :: !OccursAt(sql, FromMarker, j)
    ensures r == Failure("No limit in sql") <==>
              (exists j: nat :: OccursAt(sql, FromMarker, j)) &&
              forall j: nat :: !OccursAt(LimitHaystack(sql, ignoreCase), LimitMarker, j)
    ensures r.Failure? ==> r.error in {"No from in sql", "No limit in sql"}
  {
    match Find(sql, FromMarker)
    case None => Failure("No from in sql")
    case Some(f) =>
      match Find(LimitHaystack(sql, ignoreCase), LimitMarker)
      case None => Failure("No limit in sql")
      case Some(l) => Success(CountPrefix + sql[f..l])
  }

  /** The count query is characterised by the first occurrences of the two markers, whatever finds them. */
  lemma CountQueryBetweenFirstMarkers(sql: string, ignoreCase: bool, f: nat, l: nat)
    requires FromPrecedesLimit(sql, ignoreCase)
    requires OccursAt(sql, FromMarker, f) && forall j: nat :: j < f ==> !OccursAt(sql, FromMarker, j)
    requires OccursAt(LimitHaystack(sql, ignoreCase), LimitMarker, l)
    requires forall j: nat :: j < l ==> !OccursAt(LimitHaystack(sql, ignoreCase), LimitMarker, j)
    ensures f <= l <= |sql|
    ensures CountQuery(sql, ignoreCase) == Success(CountPrefix + sql[f..l])
  {
    var h := LimitHaystack(sql, ignoreCase);
    var ff := Find(sql, FromMarker).value;
    var ll := Find(h, LimitMarker).value;
    assert !(ff < f) && !(f < ff);
    assert !(ll < l) && !(l < ll);
  }

  /** An occurrence inside a slice is an occurrence in the whole text, ending inside the slice. */
  lemma SliceOccurrence(s: string, pat: string, a: nat, b: nat, j: nat)
    requires a <= b <= |s|
    ensures OccursAt(s[a..b], pat, j) ==> OccursAt(s, pat, a + j) && a + j + |pat| <= b
  {
    if OccursAt(s[a..b], pat, j) {
      forall k | 0 <= k < |pat|
        ensures s[a + j..a + j + |pat|][k] == pat[k]
      {
        assert pat[k] == s[a..b][j + k];
      }
    }
  }

  /** The count query is the count prefix followed by the slice of the SQL that starts at its first " from ". */
  lemma CountQueryKeepsFrom(sql: string, ignoreCase: bool)
    requires FromPrecedesLimit(sql, ignoreCase)
    requires CountQuery(sql, ignoreCase).Success?
    ensures var f := Find(sql, FromMarker);
      var q := CountQuery(sql, ignoreCase).value;
      f.Some? && OccursAt(sql, FromMarker, f.value) &&
      |CountPrefix| <= |q| && q[..|CountPrefix|] == CountPrefix &&
      f.value + |q| - |CountPrefix| <= |sql| && q[|CountPrefix|..] == sql[f.value..f.value + |q| - |CountPrefix|]
  {
    var f := Find(sql, FromMarker).value;
    var l := Find(LimitHaystack(sql, ignoreCase), LimitMarker).value;
    var q := CountQuery(sql, ignoreCase).value;
    assert q == CountPrefix + sql[f..l];
    assert q[|CountPrefix|..] == sql[f..l];
    assert f + |q| - |CountPrefix| == l;
  }

  /**
   * What the count query drops: the part after the count prefix holds no
   * " limit " (searched as the adapter searches), so the count is not cut to one page.
   */
  lemma CountQueryDropsLimit(sql: string, ignoreCase: bool)
    requires FromPrecedesLimit(sql, ignoreCase)
    requires CountQuery(sql, ignoreCase).Success?
    ensures var q := CountQuery(sql, ignoreCase).value;
      |CountPrefix| <= |q| &&
      forall j: nat :: !OccursAt(LimitHaystack(q[|CountPrefix|..], ignoreCase), LimitMarker, j)
  {
    var h := LimitHaystack(sql, ignoreCase);
    var f := Find(sql, FromMarker).value;
    var l := Find(h, LimitMarker).value;
    var q := CountQuery(sql, ignoreCase).value;
    var tail := sql[f..l];
    assert q == CountPrefix + tail;
    assert q[|CountPrefix|..] == tail;
    var th := LimitHaystack(tail, ignoreCase);
    assert th == h[f..l] by {
      if ignoreCase {
        LowerSlice(sql, f, l);
      }
    }
    forall j: nat
      ensures !OccursAt(th, LimitMarker, j)
    {
      SliceOccurrence(h, LimitMarker, f, l, j);
    }
  }
}
