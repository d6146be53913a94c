/**
 * The SQLite adapter: the embedded engine's values and errors and their mapping
 * onto the canonical ones, row access, the connection's list of attached
 * databases, the paged select with its found-rows count, and the statement
 * builders. The engine is an oracle: prepare and bind either succeed or report
 * a native error, and a prepared, bound statement yields its rows.
 */
module Sqlite {
  import opened Base
  import opened Text
  import opened Canonical
  import opened SqlText

  // ---------------------------------------------------------------------------
  // Native values and errors
  // ---------------------------------------------------------------------------

  /** The engine's value: the same six variants as the canonical one. */
  datatype Value =
    | Uint(u: u64)
    | Int(i: i64)
    | Float(f: F64)
    | String(s: string)
    | Bytes(b: seq<byte>)
    | Null

  /** The engine's error kinds; all but `Empty` carry a message. */
  datatype NativeError =
    | SqliteError(msg: string)
    | Unknown(msg: string)
    | BindError(msg: string)
    | PrepareErr(msg: string)
    | IndexOutOfBounds(msg: string)
    | Empty
    | ConnectionErr(msg: string)

  /** A result row: column name to value. */
  type Row = map<string, Value>

  /**
   * The adapter's error mapping: engine errors are SQL errors, bind and prepare
   * failures library errors, and the rest keep their kind; an empty result
   * becomes an unknown error reading "Empty".
   */
  function ErrorFromNative(e: NativeError): (r: Error)
    ensures r.SQLErr? <==> e.SqliteError?
    ensures r.LibErr? <==> (e.BindError? || e.PrepareErr?)
    ensures r.IndexOutOfBound? <==> e.IndexOutOfBounds?
    ensures r.ConnectionErr? <==> e.ConnectionErr?
    ensures r.Unknown? <==> (e.Unknown? || e.Empty?)
    ensures !r.ConversionErr?
    ensures r.msg == if e.Empty? then "Empty" else e.msg
  {
    match e
    case SqliteError(x) => SQLErr(x)
    case Unknown(x) => Error.Unknown(x)
    case BindError(x) => LibErr(x)
    case PrepareErr(x) => LibErr(x)
    case IndexOutOfBounds(x) => IndexOutOfBound(x)
    case Empty => Error.Unknown("Empty")
    case ConnectionErr(x) => Error.ConnectionErr(x)
  }

  /**
   * The only native errors the mapping confuses are a bind failure with a
   * prepare failure of the same message, and `Empty` with an unknown error reading "Empty".
   */
  lemma ErrorFromNativeInjective(e1: NativeError, e2: NativeError)
    requires !(e1.BindError? && e2.PrepareErr?) && !(e1.PrepareErr? && e2.BindError?)
    requires !(e1.Empty? && e2.Unknown?) && !(e1.Unknown? && e2.Empty?)
    requires ErrorFromNative(e1) == ErrorFromNative(e2)
    ensures e1 == e2
  {
  }

  lemma ErrorFromNativeCollisions(x: string)
    ensures ErrorFromNative(BindError(x)) == ErrorFromNative(PrepareErr(x)) == LibErr(x)
    ensures ErrorFromNative(Empty) == ErrorFromNative(NativeError.Unknown("Empty"))
  {
  }

  // ---------------------------------------------------------------------------
  // Value conversions
  // ---------------------------------------------------------------------------

  /** `d` and `v` are the same variant with the same payload. */
  predicate Mirrors(d: Dypes, v: Value)
  {
    || (d.Uint? && v.Uint? && d.u == v.u)
    || (d.Int? && v.Int? && d.i == v.i)
    || (d.Float? && v.Float? && d.f == v.f)
    || (d.String? && v.String? && d.s == v.s)
    || (d.Bytes? && v.Bytes? && d.b == v.b)
    || (d.Null? && v.Null?)
  }

  /** Binding keeps the variant and its payload. */
  function ToValue(d: Dypes): (v: Value)
    ensures Mirrors(d, v)
  {
    match d
    case Uint(x) => Value.Uint(x)
    case Int(x) => Value.Int(x)
    case Float(x) => Value.Float(x)
    case String(x) => Value.String(x)
    case Bytes(x) => Value.Bytes(x)
    case Null => Value.Null
  }

  function ToValues(ds: seq<Dypes>): (r: seq<Value>)
    ensures |r| == |ds|
    ensures forall i :: 0 <= i < |ds| ==> r[i] == ToValue(ds[i])
  {
    seq(|ds|, i requires 0 <= i < |ds| => ToValue(ds[i]))
  }

  /** Reading keeps the variant and its payload. */
  function FromValue(v: Value): (d: Dypes)
    ensures Mirrors(d, v)
  {
    match v
    case Bytes(x) => Dypes.Bytes(x)
    case Float(x) => Dypes.Float(x)
    case Int(x) => Dypes.Int(x)
    case Null => Dypes.Null
    case String(x) => Dypes.String(x)
    case Uint(x) => Dypes.Uint(x)
  }

  /** The two conversions are inverse bijections: binding then reading back loses nothing. */
  lemma DypesRoundTrip(d: Dypes)
    ensures FromValue(ToValue(d)) == d
  {
  }

  /** Reading then binding loses nothing either. */
  lemma ValueRoundTrip(v: Value)
    ensures ToValue(FromValue(v)) == v
  {
  }

  // ---------------------------------------------------------------------------
  // Row access
  // ---------------------------------------------------------------------------

  /** The canonical value of a column; a failed lookup is `None`, never an error. */
  function GetVal(row: Row, key: string): (r: Option<Dypes>)
    ensures r.Some? <==> key in row
    ensures r.Some? ==> ToValue(r.value) == row[key]
  {
    if key in row then Some(FromValue(row[key])) else None
  }

  /**
   * A text date column reformatted: `parse` reads it as year-month-day (`None`
   * when it does not parse) and `render` formats the date. A value that is not
   * text and a text that does not parse are conversion errors with distinct
   * messages. The column must be present.
   */
  function GetDateString<D>(parse: string -> Option<D>, render: (D, string) -> string,
                            row: Row, key: string, format: string): (r: Desult<string>)
    requires key in row
    ensures r.Success? <==> row[key].String? && parse(row[key].s).Some?
    ensures !row[key].String? ==> r == Failure(ConversionErr("Failed to convert " + key + " to Value + date string. "))
    ensures row[key].String? && parse(row[key].s).None? ==> r == Failure(ConversionErr("Failed to convert " + key + " to date string"))
    ensures r.Success? ==> r.value == render(parse(row[key].s).value, format)
  {
    if row[key].String? then
      match parse(row[key].s)
      case None => Failure(ConversionErr("Failed to convert " + key + " to date string"))
      case Some(date) => Success(render(date, format))
    else
      Failure(ConversionErr("Failed to convert " + key + " to Value + date string. "))
  }

  /** The two failure messages tell a non-text value apart from a text that does not parse. */
  lemma DateErrorsDistinct(key: string)
    ensures "Failed to convert " + key + " to Value + date string. " != "Failed to convert " + key + " to date string"
  {
    var a := "Failed to convert " + key + " to Value + date string. ";
    var b := "Failed to convert " + key + " to date string";
    assert a[|"Failed to convert " + key| + 4] == 'V';
    assert b[|"Failed to convert " + key| + 4] == 'd';
  }

  // ---------------------------------------------------------------------------
  // The engine
  // ---------------------------------------------------------------------------

  /**
   * The embedded engine as seen through one statement: preparing some SQL,
   * binding values to it (each `None` on success), and the rows the
   * prepared, bound statement yields.
   */
  datatype Engine = Engine(
    prepare: string -> Option<NativeError>,
    bind: (string, seq<Value>) -> Option<NativeError>,
    rows: (string, seq<Value>) -> seq<Row>,
    firstRow: (string, seq<Value>) -> Result<Row, NativeError>)

  /** Prepare and bind, reporting the first failure. */
  function PrepareBind(db: Engine, sql: string, params: seq<Value>): (r: Option<Error>)
    ensures r.None? <==> db.prepare(sql).None? && db.bind(sql, params).None?
    ensures db.prepare(sql).Some? ==> r == Some(ErrorFromNative(db.prepare(sql).value))
    ensures db.prepare(sql).None? && db.bind(sql, params).Some? ==> r == Some(ErrorFromNative(db.bind(sql, params).value))
  {
    match db.prepare(sql)
    case Some(e) => Some(ErrorFromNative(e))
    case None =>
      match db.bind(sql, params)
      case Some(e) => Some(ErrorFromNative(e))
      case None => None
  }

  /** One column of the first row, converted by `conv`; the column must be present. */
  function QueryValue<T>(db: Engine, conv: Dypes -> T, sql: string, colum: string, params: seq<Dypes>): (r: Desult<T>)
    requires PrepareBind(db, sql, ToValues(params)).None? && db.firstRow(sql, ToValues(params)).Success?
             ==> colum in db.firstRow(sql, ToValues(params)).value
    ensures PrepareBind(db, sql, ToValues(params)).Some? ==> r == Failure(PrepareBind(db, sql, ToValues(params)).value)
    ensures PrepareBind(db, sql, ToValues(params)).None? && db.firstRow(sql, ToValues(params)).Failure?
            ==> r == Failure(ErrorFromNative(db.firstRow(sql, ToValues(params)).error))
    ensures PrepareBind(db, sql, ToValues(params)).None? && db.firstRow(sql, ToValues(params)).Success?
            ==> r == Success(conv(FromValue(db.firstRow(sql, ToValues(params)).value[colum])))
  {
    var ps := ToValues(params);
    match PrepareBind(db, sql, ps)
    case Some(e) => Failure(e)
    case None =>
      match db.firstRow(sql, ps)
      case Failure(e) => Failure(ErrorFromNative(e))
      case Success(row) => Success(conv(FromValue(row[colum])))
  }

  /** The first row, built into a record by `toRecord`. */
  function QueryRow<T>(db: Engine, toRecord: Row -> T, sql: string, params: seq<Dypes>): (r: Desult<T>)
    ensures PrepareBind(db, sql, ToValues(params)).Some? ==> r == Failure(PrepareBind(db, sql, ToValues(params)).value)
    ensures PrepareBind(db, sql, ToValues(params)).None? && db.firstRow(sql, ToValues(params)).Failure?
            ==> r == Failure(ErrorFromNative(db.firstRow(sql, ToValues(params)).error))
    ensures PrepareBind(db, sql, ToValues(params)).None? && db.firstRow(sql, ToValues(params)).Success?
            ==> r == Success(toRecord(db.firstRow(sql, ToValues(params)).value))
  {
    var ps := ToValues(params);
    match PrepareBind(db, sql, ps)
    case Some(e) => Failure(e)
    case None =>
      match db.firstRow(sql, ps)
      case Failure(e) => Failure(ErrorFromNative(e))
      case Success(row) => Success(toRecord(row))
  }

  const CountGetError := "Count get error"

  /**
   * A page of records and its count. Without found-rows counting the count is
   * the page size; with it, the count query (the SQL from its first " from " to
   * its first " limit ", searched ignoring case) is prepared and bound with the
   * same values and the count is read from its first row by `countOf`.
   */
  function Select<T>(db: Engine, toRecord: Row -> T, countOf: Row -> nat,
                     sql: string, params: seq<Dypes>, calcFoundRows: bool): (r: Desult<SelectHolder<T>>)
    requires calcFoundRows ==> FromPrecedesLimit(sql, true)
    ensures PrepareBind(db, sql, ToValues(params)).Some? ==> r == Failure(PrepareBind(db, sql, ToValues(params)).value)
    ensures r.Success? ==> PrepareBind(db, sql, ToValues(params)).None?
                           && r.value.data == MapRows(toRecord, db.rows(sql, ToValues(params)))
    ensures PrepareBind(db, sql, ToValues(params)).None? && !calcFoundRows
            ==> r.Success? && r.value.count == |r.value.data|
    ensures PrepareBind(db, sql, ToValues(params)).None? && calcFoundRows && CountQuery(sql, true).Failure?
            ==> r == Failure(SQLErr(CountQuery(sql, true).error))
    ensures PrepareBind(db, sql, ToValues(params)).None? && calcFoundRows && CountQuery(sql, true).Success?
            ==> var q := CountQuery(sql, true).value;
                (PrepareBind(db, q, ToValues(params)).Some? ==> r == Failure(PrepareBind(db, q, ToValues(params)).value)) &&
                (PrepareBind(db, q, ToValues(params)).None? && |db.rows(q, ToValues(params))| == 0
                 ==> r == Failure(LibErr(CountGetError))) &&
                (PrepareBind(db, q, ToValues(params)).None? && |db.rows(q, ToValues(params))| > 0
                 ==> r.Success? && r.value.count == countOf(db.rows(q, ToValues(params))[0]))
  {
    var ps := ToValues(params);
    match PrepareBind(db, sql, ps)
    case Some(e) => Failure(e)
    case None =>
      var data := MapRows(toRecord, db.rows(sql, ps));
      if !calcFoundRows then Success(SelectHolder(data, |data|))
      else
        match CountQuery(sql, true)
        case Failure(msg) => Failure(SQLErr(msg))
        case Success(countSql) =>
          match PrepareBind(db, countSql, ps)
          case Some(e) => Failure(e)
          case None =>
            var counts := db.rows(countSql, ps);
            if |counts| == 0 then Failure(LibErr(CountGetError)) else Success(SelectHolder(data, countOf(counts[0])))
  }

  // ---------------------------------------------------------------------------
  // The connection and its attached databases
  // ---------------------------------------------------------------------------

  class Connection {
    var dbName: string
    /** The aliases of the attached databases, in attachment order. */
    var attached: seq<string>

    /** A freshly opened connection has nothing attached. */
    constructor (dbName: string)
      ensures this.dbName == dbName && attached == []
    {
      this.dbName := dbName;
      attached := [];
    }

    /** The ATTACH statement for alias `dbAs`; the file name is bound to its one placeholder. */
    static function AttachSql(dbAs: string): string
    {
      "ATTACH DATABASE ? AS " + dbAs
    }

    /** With a `?`-free alias the ATTACH statement has exactly one placeholder, for the one bound file name. */
    static lemma AttachSqlOnePlaceholder(dbAs: string)
      requires '?' !in dbAs
      ensures Count('?', AttachSql(dbAs)) == 1
    {
      var head, tail := "ATTACH DATABASE ", " AS " + dbAs;
      assert AttachSql(dbAs) == head + "?" + tail;
      assert "?"[..0] == "";
      CountAbsent('?', head);
      CountAbsent('?', tail);
      CountAppend('?', head + "?", tail);
      CountAppend('?', head, "?");
    }

    /**
     * Attaches database file `dbName` as `dbAs`: the alias is appended to
     * `attached` only when both preparing and executing the statement succeed;
     * on an error nothing changes. Binding the file name must not fail.
     */
    method Attach(dbName: string, dbAs: string,
                  prepare: string -> Option<NativeError>,
                  bind: (string, seq<Value>) -> Option<NativeError>,
                  execute: (string, seq<Value>) -> Option<NativeError>) returns (r: Desult<()>)
      requires prepare(AttachSql(dbAs)).None? ==> bind(AttachSql(dbAs), [Value.String(dbName)]).None?
      modifies this
      ensures r.Success? <==> prepare(AttachSql(dbAs)).None? && execute(AttachSql(dbAs), [Value.String(dbName)]).None?
      ensures prepare(AttachSql(dbAs)).Some? ==> r == Failure(ErrorFromNative(prepare(AttachSql(dbAs)).value))
      ensures prepare(AttachSql(dbAs)).None? && execute(AttachSql(dbAs), [Value.String(dbName)]).Some?
              ==> r == Failure(ErrorFromNative(execute(AttachSql(dbAs), [Value.String(dbName)]).value))
      ensures attached == if r.Success? then old(attached) + [dbAs] else old(attached)
      ensures this.dbName == old(this.dbName)
    {
      var sql := AttachSql(dbAs);
      var prepared := prepare(sql);
      if prepared.Some? {
        return Failure(ErrorFromNative(prepared.value));
      }
      var params := [Value.String(dbName)];
      var executed := execute(sql, params);
      if executed.Some? {
        return Failure(ErrorFromNative(executed.value));
      }
      attached := attached + [dbAs];
      r := Success(());
    }
  }

  // ---------------------------------------------------------------------------
  // Statement builders
  // ---------------------------------------------------------------------------

  /** The elementwise text rendering of `ds`. */
  function Shows(show: Dypes -> string, ds: seq<Dypes>): (r: seq<string>)
    ensures |r| == |ds|
    ensures forall i :: 0 <= i < |ds| ==> r[i] == show(ds[i])
  {
    MapRows(show, ds)
  }

  /** Rendering one more value extends the rendering by that value's text. */
  lemma ShowsSnoc(show: Dypes -> string, xs: seq<Dypes>, x: Dypes)
    ensures Shows(show, xs + [x]) == Shows(show, xs) + [show(x)]
  {
  }

  /**
   * One pass of the upsert's outer loop, for record `i`: a new row of
   * placeholders, then per field the column name (only for the first record),
   * one placeholder and the text of one value, then the record's group
   * appended to the VALUES text.
   */
  method UpsertRecord(show: Dypes -> string, fields: seq<string>, records: seq<seq<Dypes>>, i: nat,
                      cArr: seq<string>, qArr: seq<seq<string>>, aArr: seq<string>, qStr: string)
    returns (cOut: seq<string>, qOut: seq<seq<string>>, aOut: seq<string>, qStrOut: string)
    requires Covers(records, |fields|) && i < |records|
    requires cArr == InsertColumns(fields, i)
    requires |qArr| == i
    requires aArr == Shows(show, FlattenRows(records, |fields|, i))
    requires qStr == Groups(i, |fields|)
    ensures cOut == InsertColumns(fields, i + 1)
    ensures qOut == qArr + [Repeat("?", |fields|)]
    ensures aOut == Shows(show, FlattenRows(records, |fields|, i + 1))
    ensures qStrOut == Groups(i + 1, |fields|)
  {
    ghost var before := FlattenRows(records, |fields|, i);
    cOut, qOut, aOut := cArr, qArr + [[]], aArr;
    var values := records[i];
    var j := 0;
    while j < |fields|
      invariant 0 <= j <= |fields|
      invariant cOut == if i == 0 then fields[..j] else fields
      invariant qOut == qArr + [Repeat("?", j)]
      invariant aOut == Shows(show, before + values[..j])
    {
      if i == 0 {
        cOut := cOut + [fields[j]];
        assert fields[..j + 1] == fields[..j] + [fields[j]];
      }
      RepeatSnoc("?", j);
      qOut := qOut[i := qOut[i] + ["?"]];
      ShowsSnoc(show, before + values[..j], values[j]);
      aOut := aOut + [show(values[j])];
      assert before + values[..j + 1] == (before + values[..j]) + [values[j]];
      j := j + 1;
    }
    assert fields[..j] == fields;
    GroupsStep(i, |fields|, qOut[i]);
    qStrOut := qStr;
    if i != 0 {
      qStrOut := qStrOut + ",";
    }
    qStrOut := qStrOut + "(" + Join(",", qOut[i]) + ")";
  }

  /**
   * The multi-row upsert, with the same text layout as the MySQL adapter's; the
   * upsert clause comes from `genDupdate` and every value is bound as its
   * text rendering `show`.
   */
  method InsertUpdate(show: Dypes -> string, genDupdate: seq<string> -> string,
                      table: string, fields: seq<string>, records: seq<seq<Dypes>>) returns (st: Statement<string>)
    requires Covers(records, |fields|)
    ensures st.sql == UpsertText(table, InsertColumns(fields, |records|), Groups(|records|, |fields|),
                                 genDupdate(InsertColumns(fields, |records|)))
    ensures st.params == Shows(show, FlattenPrefix(records, |fields|))
  {
    var cArr: seq<string> := [];
    var qArr: seq<seq<string>> := [];
    var aArr: seq<string> := [];
    var qStr := "";
    var i := 0;
    while i < |records|
      invariant 0 <= i <= |records|
      invariant cArr == InsertColumns(fields, i)
      invariant |qArr| == i
      invariant aArr == Shows(show, FlattenRows(records, |fields|, i))
      invariant qStr == Groups(i, |fields|)
    {
      cArr, qArr, aArr, qStr := UpsertRecord(show, fields, records, i, cArr, qArr, aArr, qStr);
      i := i + 1;
    }
    FlattenRowsAll(records, |fields|);
    st := Statement(UpsertText(table, cArr, qStr, genDupdate(cArr)), aArr);
  }

  /** The DELETE of the rows whose `idColum` is (or, with "NOT IN", is not) one of `idValues`, bound in order. */
  method DeleteIds(table: string, idColum: string, idValues: seq<Dypes>, inOut: string) returns (st: Statement<Value>)
    ensures st.sql == DeleteSql(table, idColum, inOut, |idValues|)
    ensures st.params == ToValues(idValues)
  {
    var ids := ToValues(idValues);
    var cArr: seq<char> := [];
    var i := 0;
    while i < |ids|
      invariant 0 <= i <= |ids|
      invariant cArr == Repeat('?', i)
    {
      cArr := cArr + ['?'];
      i := i + 1;
    }
    CommaSpreadPlaceholders(|ids|);
    st := Statement("delete from " + table + " where " + idColum + " " + inOut + " (" + CommaSpread(cArr) + ")", ids);
  }

  method DeleteWid(table: string, idColum: string, idValues: seq<Dypes>) returns (st: Statement<Value>)
    ensures st.sql == DeleteSql(table, idColum, "IN", |idValues|)
    ensures st.params == ToValues(idValues)
  {
    st := DeleteIds(table, idColum, idValues, "IN");
  }

  method DeleteNwid(table: string, idColum: string, idValues: seq<Dypes>) returns (st: Statement<Value>)
    ensures st.sql == DeleteSql(table, idColum, "NOT IN", |idValues|)
    ensures st.params == ToValues(idValues)
  {
    st := DeleteIds(table, idColum, idValues, "NOT IN");
  }

  /** The SQL expression concatenating `colums` with `||`: "(a || b )", and "( )" for none. */
  method ConcatColums(colums: seq<string>) returns (s: string)
    ensures s == "(" + Join(" || ", colums) + " )"
  {
    s := "(";
    var i := 0;
    while i < |colums|
      invariant 0 <= i <= |colums|
      invariant s == "(" + Join(" || ", colums[..i])
    {
      if i != 0 {
        s := s + " || ";
        JoinSnoc(" || ", colums[..i], colums[i]);
      } else {
        assert colums[..1] == [colums[0]];
      }
      s := s + colums[i];
      assert colums[..i + 1] == colums[..i] + [colums[i]];
      i := i + 1;
    }
    assert colums[..i] == colums;
    s := s + " )";
  }

  /** Two columns are chained with one `||`; no columns give "( )". */
  method ConcatColumsExamples() returns (two: string, none: string)
    ensures two == "(a || b )"
    ensures none == "( )"
  {
    two := ConcatColums(["a", "b"]);
    Join2(" || ", "a", "b");
    none := ConcatColums([]);
  }
}
