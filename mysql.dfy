/**
 * The MySQL adapter: the driver's native values and errors and their mapping
 * onto the canonical ones, the text renderings of dates and durations, row
 * access, the paged select with its found-rows count, and the statement
 * builders. The driver itself is an oracle: a function from SQL text and bound
 * values to rows or a native error.
 */
module MySql {
  import opened Base
  import opened Text
  import Utf8
  import opened Canonical
  import opened SqlText

  // ---------------------------------------------------------------------------
  // Native values and errors
  // ---------------------------------------------------------------------------

  /** The driver's value: the canonical variants plus a calendar date and a signed duration. */
  datatype Value =
    | UInt(u: u64)
    | Int(i: i64)
    | Float(f: F64)
    | Bytes(b: seq<byte>)
    | NULL
    | Date(year: u16, month: u8, day: u8, hour: u8, minute: u8, second: u8, micro: u32)
    | Time(isNegative: bool, days: u32, hours: u8, minutes: u8, seconds: u8, micros: u32)

  /** The driver's error kinds, each with the text its `Display` or `Debug` rendering gives. */
  datatype NativeError =
    | IoError(text: string)
    | MySqlError(text: string)
    | DriverError(text: string)
    | UrlError(text: string)
    | FromValueError(text: string)
    | FromRowError(text: string)

  /** A result row: column name to value. */
  type Row = map<string, Value>

  const FromValuePrefix := "From mysql Value: "
  const FromRowPrefix := "From mysql row: "

  /**
   * The adapter's error mapping: server errors are SQL errors, transport, driver
   * and URL errors are library errors, and both conversion failures are
   * conversion errors whose message names what failed to convert.
   */
  function ErrorFromNative(e: NativeError): (r: Error)
    ensures r.SQLErr? <==> e.MySqlError?
    ensures r.LibErr? <==> (e.IoError? || e.DriverError? || e.UrlError?)
    ensures r.ConversionErr? <==> (e.FromValueError? || e.FromRowError?)
    ensures !e.FromValueError? && !e.FromRowError? ==> r.msg == e.text
    ensures e.FromValueError? ==> r.msg == FromValuePrefix + e.text
    ensures e.FromRowError? ==> r.msg == FromRowPrefix + e.text
  {
    match e
    case IoError(x) => LibErr(x)
    case MySqlError(x) => SQLErr(x)
    case DriverError(x) => LibErr(x)
    case UrlError(x) => LibErr(x)
    case FromValueError(x) => ConversionErr(FromValuePrefix + x)
    case FromRowError(x) => ConversionErr(FromRowPrefix + x)
  }

  /**
   * The mapping loses no information: the native error is determined by the
   * canonical one (the two conversion prefixes differ, so even those two are told apart).
   */
  lemma ErrorFromNativeInjective(e1: NativeError, e2: NativeError)
    requires !(e1.IoError? && e2.DriverError?) && !(e1.DriverError? && e2.IoError?)
    requires !(e1.IoError? && e2.UrlError?) && !(e1.UrlError? && e2.IoError?)
    requires !(e1.DriverError? && e2.UrlError?) && !(e1.UrlError? && e2.DriverError?)
    requires ErrorFromNative(e1) == ErrorFromNative(e2)
    ensures e1 == e2
  {
    ConversionPrefixesDiffer(e1.text, e2.text);
    ConversionPrefixesDiffer(e2.text, e1.text);
    if e1.FromValueError? && e2.FromValueError? {
      assert e1.text == ErrorFromNative(e1).msg[|FromValuePrefix|..];
      assert e2.text == ErrorFromNative(e2).msg[|FromValuePrefix|..];
    } else if e1.FromRowError? && e2.FromRowError? {
      assert e1.text == ErrorFromNative(e1).msg[|FromRowPrefix|..];
      assert e2.text == ErrorFromNative(e2).msg[|FromRowPrefix|..];
    }
  }

  lemma ConversionPrefixesDiffer(a: string, b: string)
    ensures FromValuePrefix + a != FromRowPrefix + b
  {
    assert (FromValuePrefix + a)[11] == 'V';
    assert (FromRowPrefix + b)[11] == 'r';
  }

  /** The three transport-level kinds are the only ones that collapse: all become `LibErr` with their text. */
  lemma TransportErrorsCollapse(x: string)
    ensures ErrorFromNative(IoError(x)) == ErrorFromNative(DriverError(x)) == ErrorFromNative(UrlError(x)) == LibErr(x)
  {
  }

  // ---------------------------------------------------------------------------
  // Value conversions
  // ---------------------------------------------------------------------------

  /** A canonical value as the driver binds it: text becomes its UTF-8 bytes. */
  function ToValue(d: Dypes): (v: Value)
    ensures !v.Date? && !v.Time?
    ensures v.NULL? <==> d.Null?
    ensures v.Bytes? <==> (d.String? || d.Bytes?)
  {
    match d
    case Uint(x) => UInt(x)
    case Int(x) => Value.Int(x)
    case Float(x) => Value.Float(x)
    case String(x) => Value.Bytes(Utf8.Encode(x))
    case Bytes(x) => Value.Bytes(x)
    case Null => NULL
  }

  function ToValues(ds: seq<Dypes>): (r: seq<Value>)
    ensures |r| == |ds|
    ensures forall i :: 0 <= i < |ds| ==> r[i] == ToValue(ds[i])
  {
    seq(|ds|, i requires 0 <= i < |ds| => ToValue(ds[i]))
  }

  /** A driver value as a canonical one: dates and durations become their text renderings. */
  function FromValue(v: Value): (d: Dypes)
    ensures d.String? <==> (v.Date? || v.Time?)
    ensures d.Null? <==> v.NULL?
  {
    match v
    case UInt(x) => Uint(x)
    case Int(x) => Dypes.Int(x)
    case Float(x) => Dypes.Float(x)
    case Bytes(x) => Dypes.Bytes(x)
    case NULL => Null
    case Date(y, m, d, h, mi, s, us) => String(DateToString(y, m, d, h, mi, s, us))
    case Time(n, days, h, mi, s, us) => String(TimeToString(n, days, h, mi, s, us))
  }

  /** Binding then reading back is the identity on every canonical value except text, which comes back as its bytes. */
  lemma DypesRoundTrip(d: Dypes)
    ensures FromValue(ToValue(d)) == if d.String? then Dypes.Bytes(Utf8.Encode(d.s)) else d
  {
  }

  /** Reading then binding is the identity on every driver value but a date or a duration. */
  lemma ValueRoundTrip(v: Value)
    requires !v.Date? && !v.Time?
    ensures ToValue(FromValue(v)) == v
  {
  }

  /** Text and its bytes bind to the same driver value, so binding is not injective. */
  lemma ToValueMergesTextAndBytes(s: string)
    ensures ToValue(String(s)) == ToValue(Dypes.Bytes(Utf8.Encode(s)))
  {
  }

  /** Apart from text and its bytes, distinct canonical values bind to distinct driver values. */
  lemma ToValueInjectiveOtherwise(d1: Dypes, d2: Dypes)
    requires !d1.String? && !d2.String?
    requires ToValue(d1) == ToValue(d2)
    ensures d1 == d2
  {
    DypesRoundTrip(d1);
    DypesRoundTrip(d2);
  }

  // ---------------------------------------------------------------------------
  // Date and duration renderings
  // ---------------------------------------------------------------------------

  /** "y-m-d h:mi:s:us", every field in unpadded decimal. */
  function DateToString(year: u16, month: u8, day: u8, hour: u8, minute: u8, second: u8, micro: u32): string
  {
    NatToString(year as nat) + "-" + NatToString(month as nat) + "-" + NatToString(day as nat) + " " +
    NatToString(hour as nat) + ":" + NatToString(minute as nat) + ":" + NatToString(second as nat) + ":" +
    NatToString(micro as nat)
  }

  /** Reads a date rendering back; `None` for any text that is not one. */
  function ParseDate(t: string): (r: Option<Value>)
    ensures r.Some? ==> r.value.Date?
  {
    var halves := Split(' ', t);
    if |halves| != 2 then None
    else
      match (ParseNats(Split('-', halves[0])), ParseNats(Split(':', halves[1])))
      case (Some(d), Some(c)) =>
        if |d| == 3 && |c| == 4 && d[0] < 0x1_0000 && d[1] < 0x100 && d[2] < 0x100
           && c[0] < 0x100 && c[1] < 0x100 && c[2] < 0x100 && c[3] < 0x1_0000_0000
        then Some(Date(d[0] as u16, d[1] as u8, d[2] as u8, c[0] as u8, c[1] as u8, c[2] as u8, c[3] as u32))
        else None
      case _ => None
  }

  /** A date part and a clock part joined by the space are cut apart at it and read back as numbers. */
  lemma DateHalves(ds: seq<nat>, cs: seq<nat>)
    requires |ds| > 0 && |cs| > 0
    ensures Split(' ', Join("-", Numerals(ds)) + " " + Join(":", Numerals(cs)))
         == [Join("-", Numerals(ds)), Join(":", Numerals(cs))]
    ensures ParseNats(Split('-', Join("-", Numerals(ds)))) == Some(ds)
    ensures ParseNats(Split(':', Join(":", Numerals(cs)))) == Some(cs)
  {
    var dpart, cpart := Join("-", Numerals(ds)), Join(":", Numerals(cs));
    Join2(" ", dpart, cpart);
    NumeralsExclude(' ', "-", ds);
    NumeralsExclude(' ', ":", cs);
    SplitJoin(' ', [dpart, cpart]);
    ReadNumerals('-', ds);
    ReadNumerals(':', cs);
  }

  lemma NumeralsJoin3(sep: string, a: nat, b: nat, c: nat)
    ensures Join(sep, Numerals([a, b, c])) == NatToString(a) + sep + NatToString(b) + sep + NatToString(c)
  {
    assert Numerals([a, b, c]) == [NatToString(a), NatToString(b), NatToString(c)];
    Join3(sep, NatToString(a), NatToString(b), NatToString(c));
  }

  lemma NumeralsJoin4(sep: string, a: nat, b: nat, c: nat, d: nat)
    ensures Join(sep, Numerals([a, b, c, d]))
         == NatToString(a) + sep + NatToString(b) + sep + NatToString(c) + sep + NatToString(d)
  {
    assert Numerals([a, b, c, d]) == [NatToString(a), NatToString(b), NatToString(c), NatToString(d)];
    Join4(sep, NatToString(a), NatToString(b), NatToString(c), NatToString(d));
  }

  /** The date rendering is the date fields joined by '-', a space, and the clock fields joined by ':'. */
  lemma DateToStringParts(year: u16, month: u8, day: u8, hour: u8, minute: u8, second: u8, micro: u32)
    ensures DateToString(year, month, day, hour, minute, second, micro)
         == Join("-", Numerals([year as nat, month as nat, day as nat])) + " " +
            Join(":", Numerals([hour as nat, minute as nat, second as nat, micro as nat]))
  {
    NumeralsJoin3("-", year as nat, month as nat, day as nat);
    NumeralsJoin4(":", hour as nat, minute as nat, second as nat, micro as nat);
    var date := NatToString(year as nat) + "-" + NatToString(month as nat) + "-" + NatToString(day as nat);
    var h, mi, se, us := NatToString(hour as nat), NatToString(minute as nat), NatToString(second as nat), NatToString(micro as nat);
    assert date + " " + h + ":" + mi + ":" + se + ":" + us == date + " " + (h + ":" + mi + ":" + se + ":" + us);
  }

  /** The date rendering is lossless: every field can be read back from the text. */
  lemma ParseDateToString(year: u16, month: u8, day: u8, hour: u8, minute: u8, second: u8, micro: u32)
    ensures ParseDate(DateToString(year, month, day, hour, minute, second, micro))
         == Some(Date(year, month, day, hour, minute, second, micro))
  {
    var ds := [year as nat, month as nat, day as nat];
    var cs := [hour as nat, minute as nat, second as nat, micro as nat];
    DateToStringParts(year, month, day, hour, minute, second, micro);
    DateHalves(ds, cs);
  }

  /** Two dates with the same rendering are the same date. */
  lemma DateToStringInjective(a: Value, b: Value)
    requires a.Date? && b.Date?
    requires DateToString(a.year, a.month, a.day, a.hour, a.minute, a.second, a.micro)
          == DateToString(b.year, b.month, b.day, b.hour, b.minute, b.second, b.micro)
    ensures a == b
  {
    ParseDateToString(a.year, a.month, a.day, a.hour, a.minute, a.second, a.micro);
    ParseDateToString(b.year, b.month, b.day, b.hour, b.minute, b.second, b.micro);
  }

  /** The five duration fields "days:h:mi:s:us" after the sign. */
  function TimeFields(days: u32, hours: u8, minutes: u8, seconds: u8, micros: u32): string
  {
    NatToString(days as nat) + ":" + NatToString(hours as nat) + ":" + NatToString(minutes as nat) + ":" +
    NatToString(seconds as nat) + ":" + NatToString(micros as nat)
  }

  /** The duration rendering as my_sql.rs writes it: "+" when the driver's negative flag is set, "-" otherwise. */
  function TimeToStringAsWritten(isNegative: bool, days: u32, hours: u8, minutes: u8, seconds: u8, micros: u32): (r: string)
    ensures |r| > 0 && (r[0] == '+' <==> isNegative)
  {
    (if isNegative then "+" else "-") + TimeFields(days, hours, minutes, seconds, micros)
  }

  /** The duration rendering with the sign the value has: "-" for a negative duration, "+" otherwise. */
  function TimeToString(isNegative: bool, days: u32, hours: u8, minutes: u8, seconds: u8, micros: u32): (r: string)
    ensures |r| > 0 && (r[0] == '-' <==> isNegative)
  {
    (if isNegative then "-" else "+") + TimeFields(days, hours, minutes, seconds, micros)
  }

  /** The corrected rendering differs from the code's only in reading the flag the other way round. */
  lemma TimeToStringFlipsFlag(isNegative: bool, days: u32, hours: u8, minutes: u8, seconds: u8, micros: u32)
    ensures TimeToString(isNegative, days, hours, minutes, seconds, micros)
         == TimeToStringAsWritten(!isNegative, days, hours, minutes, seconds, micros)
  {
  }

  /** Reads a signed duration rendering back, "-" meaning negative; `None` for any other text. */
  function ParseTime(t: string): (r: Option<Value>)
    ensures r.Some? ==> r.value.Time?
  {
    if |t| == 0 || (t[0] != '+' && t[0] != '-') then None
    else
      match ParseNats(Split(':', t[1..]))
      case Some(c) =>
        if |c| == 5 && c[0] < 0x1_0000_0000 && c[1] < 0x100 && c[2] < 0x100 && c[3] < 0x100 && c[4] < 0x1_0000_0000
        then Some(Time(t[0] == '-', c[0] as u32, c[1] as u8, c[2] as u8, c[3] as u8, c[4] as u32))
        else None
      case None => None
  }

  lemma ParseTimeFields(sign: char, days: u32, hours: u8, minutes: u8, seconds: u8, micros: u32)
    requires sign == '+' || sign == '-'
    ensures ParseTime([sign] + TimeFields(days, hours, minutes, seconds, micros))
         == Some(Time(sign == '-', days, hours, minutes, seconds, micros))
  {
    var cs := [days as nat, hours as nat, minutes as nat, seconds as nat, micros as nat];
    assert Numerals(cs) == [NatToString(days as nat), NatToString(hours as nat), NatToString(minutes as nat),
                           NatToString(seconds as nat), NatToString(micros as nat)];
    Join5(":", NatToString(days as nat), NatToString(hours as nat), NatToString(minutes as nat),
          NatToString(seconds as nat), NatToString(micros as nat));
    var t := [sign] + TimeFields(days, hours, minutes, seconds, micros);
    assert t[1..] == Join(":", Numerals(cs));
    ReadNumerals(':', cs);
  }

  /** The corrected rendering is lossless, sign included. */
  lemma ParseTimeToString(isNegative: bool, days: u32, hours: u8, minutes: u8, seconds: u8, micros: u32)
    ensures ParseTime(TimeToString(isNegative, days, hours, minutes, seconds, micros))
         == Some(Time(isNegative, days, hours, minutes, seconds, micros))
  {
    ParseTimeFields(if isNegative then '-' else '+', days, hours, minutes, seconds, micros);
  }

  /** The rendering my_sql.rs writes reads back with the sign flipped: a negative duration is shown as positive. */
  lemma TimeAsWrittenFlipsSign(isNegative: bool, days: u32, hours: u8, minutes: u8, seconds: u8, micros: u32)
    ensures ParseTime(TimeToStringAsWritten(isNegative, days, hours, minutes, seconds, micros))
         == Some(Time(!isNegative, days, hours, minutes, seconds, micros))
  {
    ParseTimeFields(if isNegative then '+' else '-', days, hours, minutes, seconds, micros);
  }

  /** Minus one hour, as my_sql.rs renders it: "+0:1:0:0:0". */
  lemma TimeAsWrittenMinusOneHour()
    ensures TimeToStringAsWritten(true, 0, 1, 0, 0, 0) == "+0:1:0:0:0"
    ensures TimeToString(true, 0, 1, 0, 0, 0) == "-0:1:0:0:0"
  {
  }

  // ---------------------------------------------------------------------------
  // Row access
  // ---------------------------------------------------------------------------

  /** The canonical value of a column, or `None` when the row has no such column. */
  function GetVal(row: Row, key: string): (r: Option<Dypes>)
    ensures r.Some? <==> key in row
    ensures r.Some? ==> r.value == FromValue(row[key])
  {
    if key in row then Some(FromValue(row[key])) else None
  }

  /**
   * A date column formatted by the calendar library (`render`, applied to year,
   * month, day and the format): a conversion error for a value that is not a date
   * or has a zero month or day. The column must be present.
   */
  function GetDateString(render: (int, nat, nat, string) -> string, row: Row, key: string, format: string): (r: Desult<string>)
    requires key in row
    ensures r.Success? <==> row[key].Date? && row[key].month > 0 && row[key].day > 0
    ensures r.Failure? ==> r.error == DateConvErr(key)
    ensures r.Success? ==> r.value == render(row[key].year as int, row[key].month as nat, row[key].day as nat, format)
  {
    match row[key]
    case Date(y, m, d, _, _, _, _) =>
      if m <= 0 || d <= 0 then Failure(DateConvErr(key))
      else Success(render(y as int, m as nat, d as nat, format))
    case _ => Failure(DateConvErr(key))
  }

  // ---------------------------------------------------------------------------
  // Queries
  // ---------------------------------------------------------------------------

  /** The driver: rows for a query and its bound values, or a native error. */
  type Exec = (string, seq<Value>) -> Result<seq<Row>, NativeError>

  /** The driver's first-row query: the first row, `None` for an empty result, or a native error. */
  type First = (string, seq<Value>) -> Result<Option<Row>, NativeError>

  const NoResult := "Failed to get result out of query"

  /**
   * One column of the first row, converted by `conv`. A driver error is mapped,
   * an empty result is an SQL error; the column must be present in a row that exists.
   */
  function QueryValue<T>(first: First, conv: Dypes -> T, sql: string, colum: string, params: seq<Dypes>): (r: Desult<T>)
    requires first(sql, ToValues(params)).Success? && first(sql, ToValues(params)).value.Some?
             ==> colum in first(sql, ToValues(params)).value.value
    ensures first(sql, ToValues(params)).Failure? ==> r == Failure(ErrorFromNative(first(sql, ToValues(params)).error))
    ensures first(sql, ToValues(params)) == Success(None) ==> r == Failure(SQLErr(NoResult))
    ensures first(sql, ToValues(params)).Success? && first(sql, ToValues(params)).value.Some?
            ==> r == Success(conv(FromValue(first(sql, ToValues(params)).value.value[colum])))
    ensures r.Failure? ==> !r.error.Unknown?
  {
    match first(sql, ToValues(params))
    case Failure(e) => Failure(ErrorFromNative(e))
    case Success(None) => Failure(SQLErr(NoResult))
    case Success(Some(row)) => Success(conv(FromValue(row[colum])))
  }

  /** The first row, built into a record by `toRecord`; an empty result is an SQL error. */
  function QueryRow<T>(first: First, toRecord: Row -> T, sql: string, params: seq<Dypes>): (r: Desult<T>)
    ensures first(sql, ToValues(params)).Failure? ==> r == Failure(ErrorFromNative(first(sql, ToValues(params)).error))
    ensures first(sql, ToValues(params)) == Success(None) ==> r == Failure(SQLErr(NoResult))
    ensures first(sql, ToValues(params)).Success? && first(sql, ToValues(params)).value.Some?
            ==> r == Success(toRecord(first(sql, ToValues(params)).value.value))
    ensures r.Failure? ==> !r.error.Unknown?
  {
    match first(sql, ToValues(params))
    case Failure(e) => Failure(ErrorFromNative(e))
    case Success(None) => Failure(SQLErr(NoResult))
    case Success(Some(row)) => Success(toRecord(row))
  }

  const CountGetError := "Count get error"

  /**
   * A page of records and its count. Without found-rows counting the count is
   * the page size; with it, the count query (the SQL from its first " from " to
   * its first " limit ", searched ignoring case) is run with the same bound
   * values and the count is read from its first row by `countOf`.
   */
  function Select<T>(exec: Exec, toRecord: Row -> T, countOf: Row -> nat,
                     sql: string, params: seq<Dypes>, calcFoundRows: bool): (r: Desult<SelectHolder<T>>)
    requires calcFoundRows ==> FromPrecedesLimit(sql, true)
    ensures exec(sql, ToValues(params)).Failure? ==> r == Failure(ErrorFromNative(exec(sql, ToValues(params)).error))
    ensures r.Success? ==> exec(sql, ToValues(params)).Success?
                           && r.value.data == MapRows(toRecord, exec(sql, ToValues(params)).value)
    ensures exec(sql, ToValues(params)).Success? && !calcFoundRows
            ==> r.Success? && r.value.count == |r.value.data|
    ensures exec(sql, ToValues(params)).Success? && calcFoundRows && CountQuery(sql, true).Failure?
            ==> r == Failure(SQLErr(CountQuery(sql, true).error))
    ensures exec(sql, ToValues(params)).Success? && calcFoundRows && CountQuery(sql, true).Success?
            ==> var c := exec(CountQuery(sql, true).value, ToValues(params));
                (c.Failure? ==> r == Failure(ErrorFromNative(c.error))) &&
                (c == Success([]) ==> r == Failure(LibErr(CountGetError))) &&
                (c.Success? && |c.value| > 0 ==> r.Success? && r.value.count == countOf(c.value[0]))
  {
    match exec(sql, ToValues(params))
    case Failure(e) => Failure(ErrorFromNative(e))
    case Success(rows) =>
      var data := MapRows(toRecord, rows);
      if !calcFoundRows then Success(SelectHolder(data, |data|))
      else
        match CountQuery(sql, true)
        case Failure(msg) => Failure(SQLErr(msg))
        case Success(countSql) =>
          match exec(countSql, ToValues(params))
          case Failure(e) => Failure(ErrorFromNative(e))
          case Success(counts) =>
            if |counts| == 0 then Failure(LibErr(CountGetError)) else Success(SelectHolder(data, countOf(counts[0])))
  }

  /** A select fails with one of two SQL messages when the SQL has no " from ", or no " limit " in any letter case. */
  lemma SelectMarkerErrors<T>(exec: Exec, toRecord: Row -> T, countOf: Row -> nat, sql: string, params: seq<Dypes>)
    requires FromPrecedesLimit(sql, true)
    requires exec(sql, ToValues(params)).Success?
    ensures (forall j: nat :: !OccursAt(sql, FromMarker, j))
            ==> Select(exec, toRecord, countOf, sql, params, true) == Failure(SQLErr("No from in sql"))
    ensures (exists j: nat :: OccursAt(sql, FromMarker, j)) && (forall j: nat :: !OccursAt(ToLower(sql), LimitMarker, j))
            ==> Select(exec, toRecord, countOf, sql, params, true) == Failure(SQLErr("No limit in sql"))
  {
  }

  /** An upper-case " LIMIT " is found: the limit search ignores case. */
  lemma SelectFindsUpperCaseLimit(sql: string, j: nat)
    requires OccursAt(sql, " LIMIT ", j)
    ensures OccursAt(LimitHaystack(sql, true), LimitMarker, j)
  {
    LowerSlice(sql, j, j + 7);
    assert ToLower(" LIMIT ") == LimitMarker;
  }

  // ---------------------------------------------------------------------------
  // Statement builders
  // ---------------------------------------------------------------------------

  /** The upsert clause: one "c = VALUES(c) " per column, comma-joined. */
  method GenDupdate(colums: seq<string>) returns (r: string)
    ensures r == Dupdate(colums)
  {
    var rt: seq<string> := [];
    var i := 0;
    while i < |colums|
      invariant 0 <= i <= |colums|
      invariant rt == DupdateItems(colums[..i])
    {
      assert DupdateItems(colums[..i + 1]) == DupdateItems(colums[..i]) + [DupdateItem(colums[i])];
      rt := rt + [DupdateItem(colums[i])];
      i := i + 1;
    }
    assert colums[..i] == colums;
    r := Join(",", rt);
  }

  /**
   * One pass of the upsert's outer loop, for record `i`: a new row of
   * placeholders, then per field the column name (only for the first record),
   * one placeholder and one bound value, then the record's group appended to
   * the VALUES text.
   */
  method UpsertRecord(fields: seq<string>, records: seq<seq<Dypes>>, i: nat,
                      cArr: seq<string>, qArr: seq<seq<string>>, aArr: seq<Dypes>, qStr: string)
    returns (cOut: seq<string>, qOut: seq<seq<string>>, aOut: seq<Dypes>, qStrOut: string)
    requires Covers(records, |fields|) && i < |records|
    requires cArr == InsertColumns(fields, i)
    requires |qArr| == i
    requires aArr == FlattenRows(records, |fields|, i)
    requires qStr == Groups(i, |fields|)
    ensures cOut == InsertColumns(fields, i + 1)
    ensures qOut == qArr + [Repeat("?", |fields|)]
    ensures aOut == FlattenRows(records, |fields|, i + 1)
    ensures qStrOut == Groups(i + 1, |fields|)
  {
    cOut, qOut, aOut := cArr, qArr + [[]], aArr;
    var values := records[i];
    var j := 0;
    while j < |fields|
      invariant 0 <= j <= |fields|
      invariant cOut == if i == 0 then fields[..j] else fields
      invariant qOut == qArr + [Repeat("?", j)]
      invariant aOut == aArr + values[..j]
    {
      if i == 0 {
        cOut := cOut + [fields[j]];
        assert fields[..j + 1] == fields[..j] + [fields[j]];
      }
      RepeatSnoc("?", j);
      qOut := qOut[i := qOut[i] + ["?"]];
      aOut := aOut + [values[j]];
      assert values[..j + 1] == values[..j] + [values[j]];
      j := j + 1;
    }
    assert fields[..j] == fields;
    GroupsStep(i, |fields|, qOut[i]);
    qStrOut := qStr;
    if i != 0 {
      qStrOut := qStrOut + ",";
    }
    qStrOut := qStrOut + "(" + Join(",", qOut[i]) + ")";
  }

  /**
   * The multi-row upsert of `records` into `table`, whose type has the fields
   * `fields`: the column list is taken while the first record is processed,
   * each record contributes one group of placeholders and its first
   * `|fields|` values, and the upsert clause re-sets every column.
   */
  method InsertUpdate(table: string, fields: seq<string>, records: seq<seq<Dypes>>) returns (st: Statement<Dypes>)
    requires Covers(records, |fields|)
    ensures st.sql == InsertUpdateSql(table, fields, |records|)
    ensures st.params == FlattenPrefix(records, |fields|)
  {
    var cArr: seq<string> := [];
    var qArr: seq<seq<string>> := [];
    var aArr: seq<Dypes> := [];
    var qStr := "";
    var i := 0;
    while i < |records|
      invariant 0 <= i <= |records|
      invariant cArr == InsertColumns(fields, i)
      invariant |qArr| == i
      invariant aArr == FlattenRows(records, |fields|, i)
      invariant qStr == Groups(i, |fields|)
    {
      cArr, qArr, aArr, qStr := UpsertRecord(fields, records, i, cArr, qArr, aArr, qStr);
      i := i + 1;
    }
    FlattenRowsAll(records, |fields|);
    var dupdate := GenDupdate(cArr);
    st := Statement(UpsertText(table, cArr, qStr, dupdate), aArr);
  }

  /** The multi-row INSERT as my_sql.rs builds it, with one pair of parentheses too many around the rows. */
  function InsertAsWritten(table: string, fields: seq<string>, records: seq<seq<Dypes>>): (st: Statement<Dypes>)
    ensures st.sql == InsertSqlAsWritten(table, fields, |records|)
    ensures st.params == Flatten(records)
  {
    Statement(InsertHead(table, Join(",", fields), "(" + Groups(|records|, |fields|) + ")"), Flatten(records))
  }

  /**
   * The multi-row INSERT: one group of placeholders per record, every record's
   * values in order. For a non-empty batch it is exactly the head of the upsert
   * the same adapter builds, and it differs from the as-written text.
   */
  function Insert(table: string, fields: seq<string>, records: seq<seq<Dypes>>): (st: Statement<Dypes>)
    ensures st.params == Flatten(records)
    ensures |records| > 0 ==> st.sql + " ON DUPLICATE KEY UPDATE " + Dupdate(fields) == InsertUpdateSql(table, fields, |records|)
    ensures |records| > 0 ==> st.sql != InsertAsWritten(table, fields, records).sql
  {
    var st := Statement(InsertSql(table, fields, |records|), Flatten(records));
    if |records| == 0 then st
    else
      InsertAsWrittenDiffers(table, fields, |records|);
      InsertUpdateExtendsInsert(table, fields, |records|);
      st
  }

  /** When every record has one value per field and no name holds `?`, the INSERT binds exactly one value per placeholder. */
  lemma InsertBindsEveryPlaceholder(table: string, fields: seq<string>, records: seq<seq<Dypes>>)
    requires '?' !in table
    requires forall i :: 0 <= i < |fields| ==> '?' !in fields[i]
    requires forall i :: 0 <= i < |records| ==> |records[i]| == |fields|
    ensures Count('?', Insert(table, fields, records).sql) == |Insert(table, fields, records).params|
  {
    InsertPlaceholderCount(table, fields, records);
  }

  /** The value of field `j` of record `i` is bound at position `i * |fields| + j`. */
  lemma InsertBindsPositionally(table: string, fields: seq<string>, records: seq<seq<Dypes>>, i: nat, j: nat)
    requires forall k :: 0 <= k < |records| ==> |records[k]| == |fields|
    requires i < |records| && j < |fields|
    ensures i * |fields| + j < |Insert(table, fields, records).params|
    ensures Insert(table, fields, records).params[i * |fields| + j] == records[i][j]
  {
    FlattenExact(records, |fields|);
    FlattenPrefixAt(records, |fields|, i, j);
  }

  /**
   * The UPDATE: "c = ?" per field, and one "k?" term per where clause, joined by
   * " and "; the values of every record come first, then the where values in
   * the order the clauses are visited.
   */
  function Update(table: string, fields: seq<string>, records: seq<seq<Dypes>>, whereFields: seq<(string, Dypes)>): (st: Statement<Dypes>)
    ensures st.sql == UpdateSql(table, fields, seq(|whereFields|, i requires 0 <= i < |whereFields| => whereFields[i].0))
    ensures |st.params| == |Flatten(records)| + |whereFields|
    ensures st.params[..|Flatten(records)|] == Flatten(records)
    ensures forall i :: 0 <= i < |whereFields| ==> st.params[|Flatten(records)| + i] == whereFields[i].1
  {
    var keys := seq(|whereFields|, i requires 0 <= i < |whereFields| => whereFields[i].0);
    var values := seq(|whereFields|, i requires 0 <= i < |whereFields| => whereFields[i].1);
    Statement(UpdateSql(table, fields, keys), Flatten(records) + values)
  }

  /**
   * The UPDATE has one placeholder per field and one per where clause, so its
   * bound values match its placeholders exactly when one record is given.
   */
  lemma UpdateBindsOneRecord(table: string, fields: seq<string>, records: seq<seq<Dypes>>, whereFields: seq<(string, Dypes)>)
    requires '?' !in table
    requires forall i :: 0 <= i < |fields| ==> '?' !in fields[i]
    requires forall i :: 0 <= i < |whereFields| ==> '?' !in whereFields[i].0
    requires forall i :: 0 <= i < |records| ==> |records[i]| == |fields|
    requires |fields| > 0
    ensures var st := Update(table, fields, records, whereFields);
      Count('?', st.sql) == |fields| + |whereFields| &&
      |st.params| == |records| * |fields| + |whereFields| &&
      (Count('?', st.sql) == |st.params| <==> |records| == 1)
  {
    var keys := seq(|whereFields|, i requires 0 <= i < |whereFields| => whereFields[i].0);
    UpdatePlaceholderCount(table, fields, keys);
    FlattenExact(records, |fields|);
    FlattenPrefixLength(records, |fields|);
    var k := |records|;
    var n := |fields|;
    if k == 0 {
    } else if k > 1 {
      assert k * n >= 2 * n by {
        MulLe(2, k, n);
      }
    }
  }

  /** The DELETE of the rows whose `idColum` is (or, with "NOT IN", is not) one of `idValues`, bound in order. */
  method DeleteIds(table: string, idColum: string, idValues: seq<Dypes>, inOut: string) returns (st: Statement<Value>)
    ensures st.sql == DeleteSql(table, idColum, inOut, |idValues|)
    ensures st.params == ToValues(idValues)
  {
    var ids := ToValues(idValues);
    var cArr: seq<char> := [];
    var i := 0;
    while i < |ids|
      invariant 0 <= i <= |ids|
      invariant cArr == Repeat('?', i)
    {
      cArr := cArr + ['?'];
      i := i + 1;
    }
    CommaSpreadPlaceholders(|ids|);
    st := Statement("delete from " + table + " where " + idColum + " " + inOut + " (" + CommaSpread(cArr) + ")", ids);
  }

  method DeleteWid(table: string, idColum: string, idValues: seq<Dypes>) returns (st: Statement<Value>)
    ensures st.sql == DeleteSql(table, idColum, "IN", |idValues|)
    ensures st.params == ToValues(idValues)
  {
    st := DeleteIds(table, idColum, idValues, "IN");
  }

  method DeleteNwid(table: string, idColum: string, idValues: seq<Dypes>) returns (st: Statement<Value>)
    ensures st.sql == DeleteSql(table, idColum, "NOT IN", |idValues|)
    ensures st.params == ToValues(idValues)
  {
    st := DeleteIds(table, idColum, idValues, "NOT IN");
  }

  const ConcatPrefix := "concat_ws(' ', "

  /** The SQL expression concatenating `colums` with single spaces between them. */
  function ConcatColums(colums: seq<string>): (r: string)
    ensures |r| == |ConcatPrefix| + |Join(",", colums)| + 1
    ensures r[..|ConcatPrefix|] == ConcatPrefix && r[|r| - 1] == ')'
    ensures r[|ConcatPrefix|..|r| - 1] == Join(",", colums)
  {
    ConcatPrefix + Join(",", colums) + ")"
  }

  /** The argument list of the expression, read back at its commas, is the column list. */
  lemma ConcatColumsArguments(colums: seq<string>)
    requires |colums| > 0
    requires forall i :: 0 <= i < |colums| ==> ',' !in colums[i]
    ensures var c := ConcatColums(colums);
      |c| > |ConcatPrefix| && c[..|ConcatPrefix|] == ConcatPrefix && c[|c| - 1] == ')' &&
      Split(',', c[|ConcatPrefix|..|c| - 1]) == colums
  {
    var c := ConcatColums(colums);
    assert c[|ConcatPrefix|..|c| - 1] == Join(",", colums);
    SplitJoin(',', colums);
  }
}
