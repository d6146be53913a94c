# dengine: SQL generation and value normalisation, modelled in Dafny

dengine is a small Rust database layer with two interchangeable backend
adapters, one for MySQL and one for SQLite. Each adapter turns typed records
into parameterised SQL, and each converts between a canonical value type
(`Dypes`) and the values of its driver. The same files hold an earlier
single-backend engine and an earlier five-variant `Dypes`.

This project models four things:
- **Statement builders.** `insert`, `insert_update`/`gen_dupdate`, `update`,
  `delete_ids`/`delete_wid`/`delete_nwid` and `concat_colums`, both the SQL text
  and the positional parameter list.
- **The found-rows rewrite in `select`.** It turns a paged query into a count
  query.
- **The value conversions** in both directions, including the text renderings
  of MySQL dates and durations.
- **The mapping of each driver's errors** onto the canonical error taxonomy.

The database is not modelled. Each driver is a function parameter (an oracle):
it maps SQL text and bound values to rows or a native error.

Modules, one per file:
- `Base` (`base.dfy`): Option and Result, plus the Rust integer widths as
  ranges.
- `Text` (`text.dfy`): join, split, first-occurrence search, ASCII
  lower-casing, and decimal rendering with its parser.
- `Utf8` (`utf8.dfy`): the UTF-8 encoding behind `String::into_bytes`, and a
  decoder that proves the encoding loses nothing.
- `Canonical` (`canonical.dfy`): `Dypes`, `Error`, `SelectHolder` and a
  prepared `Statement`.
- `SqlText` (`sqltext.dfy`): the reference texts both adapters must produce,
  and the count-query rewrite. It also holds the lemmas about them:
  - placeholder counts;
  - the record-then-field order of parameters;
  - what the count query keeps and what it drops.
- `MySql` (`mysql.dfy`): src/my_sql.rs.
- `Sqlite` (`sqlite.dfy`): src/sqlite.rs.
- `Engine` (`engine.dfy`): src/lib.rs.
- `LegacyTypes` (`legacytypes.dfy`): src/types.rs.
- `Dialects` (`dialects.dfy`): facts that relate the two adapters and the
  earlier engine.

The loops in the source are Dafny methods with `while` loops: `insert_update`
in both adapters, `gen_dupdate`, `delete_ids` in both adapters, and SQLite's
`concat_colums`. `UpsertRecord` (one in each adapter) is one pass of the
upsert's outer loop, over the fields of one record. Each method is proved to
build a reference text, as follows:
- `MySql.InsertUpdate`, both `DeleteIds` and `GenDupdate` build exactly the
  reference texts in `SqlText`.
- `Sqlite.InsertUpdate` builds the `SqlText` upsert layout around the clause
  returned by its `genDupdate` parameter.
- `Sqlite.ConcatColums` builds the closed-form expression
  `"(" + Join(" || ", colums) + " )"`.

Some wrappers are methods too, because they call these loops:
- `DeleteWid` and `DeleteNwid` in both adapters;
- `Sqlite.ConcatColumsExamples`;
- `Dialects.SameUpsert`, `SameDelete` and `ConcatSyntaxDiffers`.

 SQLite's `Connection` is a class whose `Attach` method
updates the `attached` list in place. Every other member is a function or a
lemma.

The duration rendering follows the code: days:hours:minutes:seconds:micros
behind a sign.

## Model

| member | source | states |
|---|---|---|
| Text.Find | src/my_sql.rs:158 | the result is the first index at which the pattern occurs, and there is none exactly when the pattern does not occur |
| Text.ToLower | src/my_sql.rs:163 | the lower-cased copy has the length of the SQL, and each character is that character lower-cased |
| Text.LowerSlice | src/my_sql.rs:163-170 | lower-casing commutes with slicing, so an index found in the lower-cased copy can slice the original |
| Text.LowerKeepsOccurrence | src/my_sql.rs:163 | an occurrence of a lower-case pattern such as " limit " is still there after lower-casing |
| Utf8.DecodeEncode | src/my_sql.rs:410 | decoding the UTF-8 bytes of a text gives the text back |
| Utf8.EncodeInjective | src/types.rs:18 | two texts with the same UTF-8 bytes are the same text |
| Utf8.EncodeAscii | src/my_sql.rs:158-170 | an ASCII text encodes to one byte per character, each the character's code, so the byte indices `find` returns are character indices there |
| Canonical.DateConvErr | src/my_sql.rs:507 | a failed date read is a conversion error that names the column |
| SqlText.PlaceholdersShape | src/my_sql.rs:247-249 | a list of n placeholders is "?" and "," alternating, 2n-1 characters long, and empty for zero |
| SqlText.GroupsCount | src/my_sql.rs:214 | k groups of n placeholders hold k*n placeholders |
| SqlText.GroupsStart | src/my_sql.rs:214 | a run of groups starts with "(" followed by a placeholder, or by ")" when there are no fields |
| SqlText.GroupsJoin | src/my_sql.rs:211-214 | k groups built one after another are k copies of "(?,..)" joined by commas |
| SqlText.GroupsStep | src/my_sql.rs:211-214 | one more pass appends a comma (except on the first pass) and the parenthesised placeholders of one record |
| SqlText.DupdateAssignsEachColumn | src/my_sql.rs:321-327 | cut at its commas, the upsert clause is one "c = VALUES(c) " per column, in column order |
| SqlText.DupdateHasNoPlaceholder | src/my_sql.rs:321-327 | the upsert clause adds no placeholder |
| SqlText.FlattenPrefixAt | src/my_sql.rs:201-210 | field j of record i is parameter i*n+j |
| SqlText.FlattenPrefixLength | src/my_sql.rs:201-210 | the upsert binds records*fields values |
| SqlText.FlattenRowsAll | src/my_sql.rs:201-215 | collecting the first n values of each record, record after record, gives the record-then-field parameter list |
| SqlText.FlattenExact | src/my_sql.rs:242-245 | when each record has one value per field, taking n values per record is the same as concatenating all of them |
| SqlText.InsertUpdateExtendsInsert | src/my_sql.rs:217-223 | for at least one record, the upsert is the multi-row INSERT followed by " ON DUPLICATE KEY UPDATE " and the clause |
| SqlText.InsertUpdatePlaceholderCount | src/my_sql.rs:195-223 | the upsert text holds records*fields placeholders, the number of values it binds |
| SqlText.InsertPlaceholderCount | src/my_sql.rs:240-258 | the corrected INSERT holds one placeholder per bound value |
| SqlText.InsertAsWrittenNestsRows | src/my_sql.rs:253-258 | for t/(a,b) and two records, the as-written text is "... VALUES ((?,?),(?,?))" and the corrected one is "... VALUES (?,?),(?,?)" |
| SqlText.InsertAsWrittenDiffers | src/my_sql.rs:253-258 | for any non-empty batch, the as-written INSERT differs from the multi-row INSERT |
| SqlText.UpdatePlaceholderCount | src/my_sql.rs:287-305 | the UPDATE holds one placeholder per column and one per where key |
| SqlText.SetCount | src/my_sql.rs:287 | the SET list holds one placeholder per column |
| SqlText.WhereCount | src/my_sql.rs:289-292 | the WHERE terms hold one placeholder per key |
| SqlText.CommaSpreadPlaceholders | src/my_sql.rs:357-364 | spreading n '?' characters with a comma before every one after the first gives "?,?,..", with no spaces |
| SqlText.DeletePlaceholderCount | src/my_sql.rs:352-365 | the DELETE holds one placeholder per key, and "()" for none |
| SqlText.LimitHaystack | src/my_sql.rs:163 | the text searched for " limit " has the length of the SQL |
| SqlText.CountQuery | src/my_sql.rs:158-170 | "No from in sql" exactly when there is no " from "; "No limit in sql" exactly when " from " is there but " limit " is not; no other error |
| SqlText.CountQueryBetweenFirstMarkers | src/my_sql.rs:158-170 | the count query is the count prefix followed by the SQL from the first " from " up to the first " limit " |
| SqlText.CountQueryKeepsFrom | src/my_sql.rs:168-170 | the count query is the count prefix followed by a slice of the SQL that starts at its first " from " |
| SqlText.CountQueryDropsLimit | src/my_sql.rs:163-170 | after the count prefix, the count query holds no " limit ", so the count is not limited to one page |
| MySql.ErrorFromNative | src/my_sql.rs:11-26 | server errors become SQL errors; I/O, driver and URL errors become library errors; both conversion failures become conversion errors; the prefix names the failing kind and the text is kept |
| MySql.ErrorFromNativeInjective | src/my_sql.rs:11-26 | apart from the three transport kinds, the canonical error identifies the native one |
| MySql.ConversionPrefixesDiffer | src/my_sql.rs:18-23 | a value conversion failure and a row conversion failure never give the same message |
| MySql.TransportErrorsCollapse | src/my_sql.rs:14-17 | I/O, driver and URL errors with the same text map to the same library error |
| MySql.ToValue | src/my_sql.rs:404-415 | binding never yields a date or a duration; null goes to NULL and back; only text and bytes become bytes |
| MySql.FromValue | src/my_sql.rs:441-457 | dates and durations, and only those, become text; NULL is null |
| MySql.DypesRoundTrip | src/my_sql.rs:404-457 | binding then reading back is the identity, except that text comes back as its UTF-8 bytes |
| MySql.ValueRoundTrip | src/my_sql.rs:404-457 | reading then binding is the identity on every driver value but dates and durations |
| MySql.ToValueMergesTextAndBytes | src/my_sql.rs:410-411 | a text and its bytes bind to the same driver value |
| MySql.ToValueInjectiveOtherwise | src/my_sql.rs:404-415 | canonical values other than text bind to different driver values |
| MySql.DateToStringParts | src/my_sql.rs:459-464 | the rendering is the date fields joined by "-", one space, then the clock fields joined by ":" |
| MySql.ParseDateToString | src/my_sql.rs:459-464 | every field of a date can be read back from its "y-m-d h:mi:s:us" rendering |
| MySql.DateToStringInjective | src/my_sql.rs:459-464 | two dates with the same rendering are equal |
| MySql.TimeToStringAsWritten | src/my_sql.rs:466-472 | the as-written rendering starts with "+" exactly when the negative flag is set |
| MySql.TimeAsWrittenFlipsSign | src/my_sql.rs:466-472 | the as-written rendering reads back with the opposite sign |
| MySql.TimeAsWrittenMinusOneHour | src/my_sql.rs:466-472 | minus one hour is rendered "+0:1:0:0:0"; the corrected rendering gives "-0:1:0:0:0" |
| MySql.TimeToString | src/my_sql.rs:466-472 | the corrected rendering starts with "-" exactly when the duration is negative |
| MySql.TimeToStringFlipsFlag | src/my_sql.rs:466-472 | the corrected rendering is the as-written one with the negative flag inverted |
| MySql.ParseTimeToString | src/my_sql.rs:466-472 | the corrected rendering reads back to the same duration, sign included |
| MySql.GetVal | src/my_sql.rs:497-499 | a present column gives its canonical value; an absent one gives none |
| MySql.GetDateString | src/my_sql.rs:501-519 | a DATE with month and day above zero is formatted; any other value is a conversion error for that column |
| MySql.QueryValue | src/my_sql.rs:70-96 | a driver error is mapped; an empty result is SQLErr("Failed to get result out of query"); otherwise the column's value is converted; never an Unknown error |
| MySql.QueryRow | src/my_sql.rs:98-124 | as for the value query, with the first row built into a record |
| MySql.Select | src/my_sql.rs:126-193 | the page is the mapped rows. Without counting, count = page size. With counting: the marker errors of the count query as SQL errors; the count query runs with the same bound values; an empty count is LibErr("Count get error"); otherwise count = the first count row |
| MySql.SelectMarkerErrors | src/my_sql.rs:158-166 | with no " from " the error is SQLErr("No from in sql"); with no " limit " in any letter case it is SQLErr("No limit in sql") |
| MySql.SelectFindsUpperCaseLimit | src/my_sql.rs:163 | an upper-case " LIMIT " is found by the limit search |
| MySql.GenDupdate | src/my_sql.rs:321-327 | the loop builds exactly the reference upsert clause |
| MySql.UpsertRecord | src/my_sql.rs:202-214 | one pass adds the column names (first record only), one group of placeholders, the first n values of the record, and the next group to the text |
| MySql.InsertUpdate | src/my_sql.rs:195-223 | the loops build the reference upsert text (columns taken only from the first record, so none for no records) and bind the first n values of each record, record after record |
| MySql.InsertAsWritten | src/my_sql.rs:240-258 | the INSERT as written: groups wrapped in one more pair of parentheses, all values of all records bound in order |
| MySql.Insert | src/my_sql.rs:240-258 | corrected INSERT: all values bound in order; for a non-empty batch it is the head of this adapter's upsert and differs from the as-written text |
| MySql.InsertBindsEveryPlaceholder | src/my_sql.rs:240-258 | with one value per field, the corrected INSERT binds exactly one value per placeholder |
| MySql.InsertBindsPositionally | src/my_sql.rs:242-245 | field j of record i is bound at position i*fields+j |
| MySql.Update | src/my_sql.rs:274-305 | the text is the SET list of the fields and the WHERE terms of the clause keys, in visiting order; the values of every record come first, then the where values in the same order |
| MySql.UpdateBindsOneRecord | src/my_sql.rs:280-305 | the UPDATE holds fields+where placeholders and binds records*fields+where values, so the two agree exactly when there is one record |
| MySql.DeleteIds | src/my_sql.rs:329-365 | the loop builds "delete from t where col IN_OUT (?,..)", one placeholder per key, and binds the keys in order |
| MySql.DeleteWid | src/my_sql.rs:382-388 | the DELETE with "IN" |
| MySql.DeleteNwid | src/my_sql.rs:390-396 | the DELETE with "NOT IN" |
| MySql.ConcatColums | src/my_sql.rs:398-401 | the expression is "concat_ws(' ', ", then the columns joined by commas, then ")" |
| MySql.ConcatColumsArguments | src/my_sql.rs:398-401 | cut at its commas, the argument list of the expression is the column list |
| Sqlite.ErrorFromNative | src/sqlite.rs:8-20 | engine errors become SQL errors; bind and prepare errors become library errors; index, connection and unknown errors keep their kind; Empty becomes Unknown("Empty"); never a conversion error; the message is kept |
| Sqlite.ErrorFromNativeInjective | src/sqlite.rs:8-20 | apart from bind/prepare and Empty/Unknown("Empty"), the canonical error identifies the native one |
| Sqlite.ErrorFromNativeCollisions | src/sqlite.rs:13-16 | bind and prepare errors with one message collide, and so do Empty and Unknown("Empty") |
| Sqlite.ToValue | src/sqlite.rs:52-63 | binding keeps the variant and its payload |
| Sqlite.FromValue | src/sqlite.rs:66-77 | reading keeps the variant and its payload |
| Sqlite.DypesRoundTrip | src/sqlite.rs:52-77 | binding then reading back is the identity |
| Sqlite.ValueRoundTrip | src/sqlite.rs:52-77 | reading then binding is the identity |
| Sqlite.GetVal | src/sqlite.rs:90-95 | a failed lookup gives none, never an error; a present column gives a value that binds back to the stored one |
| Sqlite.GetDateString | src/sqlite.rs:97-116 | a text that parses as a date is formatted; a text that does not parse, or a value that is not text, is a conversion error, each with its own message |
| Sqlite.DateErrorsDistinct | src/sqlite.rs:100-113 | the two date error messages differ |
| Sqlite.PrepareBind | src/sqlite.rs:164-168 | prepare and bind succeed together, or the first failure is reported, mapped |
| Sqlite.QueryValue | src/sqlite.rs:136-153 | a prepare, bind or row failure is reported, mapped; otherwise the column of the first row is converted |
| Sqlite.QueryRow | src/sqlite.rs:221-238 | as for the value query, with the first row built into a record |
| Sqlite.Select | src/sqlite.rs:155-219 | prepare/bind failures come first; the marker errors and the count query are those of the MySQL adapter; the count statement is prepared and bound with the same values; an empty count is LibErr("Count get error") |
| Sqlite.Connection.constructor | src/sqlite.rs:30-38 | a successfully opened connection has its name and nothing attached |
| Sqlite.Connection.AttachSqlOnePlaceholder | src/sqlite.rs:42-45 | an ATTACH statement with a ?-free alias has exactly one placeholder, for the one bound file name |
| Sqlite.Connection.Attach | src/sqlite.rs:40-49 | it succeeds exactly when prepare and execute succeed; only then is the alias appended to the end of the attached list; on an error the list is unchanged; the database name never changes |
| Sqlite.InsertUpdate | src/sqlite.rs:240-268 | the loops build the MySQL upsert layout, with the clause from gen_dupdate, and bind the renderings of the first n values of each record |
| Sqlite.UpsertRecord | src/sqlite.rs:247-259 | one pass adds the column names (first record only), one group of placeholders, the renderings of the first n values of the record, and the next group to the text |
| Sqlite.DeleteIds | src/sqlite.rs:288-324 | the DELETE text of the MySQL adapter, one placeholder per key, keys bound in order |
| Sqlite.DeleteWid | src/sqlite.rs:344-350 | the DELETE with "IN" |
| Sqlite.DeleteNwid | src/sqlite.rs:352-358 | the DELETE with "NOT IN" |
| Sqlite.ConcatColums | src/sqlite.rs:360-373 | the loop builds "(" + the columns joined by " \|\| " + " )" |
| Sqlite.ConcatColumsExamples | src/sqlite.rs:360-373 | the loop turns ["a","b"] into "(a \|\| b )" and no columns into "( )" |
| Engine.Select | src/lib.rs:53-117 | as the adapters' select but with string errors: "Failed", the two marker messages, "Count error", "Count get error"; here " limit " is searched case-sensitively |
| Engine.SelectNeedsLowerCaseLimit | src/lib.rs:86-89 | with " from " present and no lower-case " limit ", the result is "No limit in sql", even when " LIMIT " is present |
| Engine.SelectNeedsFrom | src/lib.rs:81-84 | without " from " the result is "No from in sql" |
| LegacyTypes.ToValue | src/types.rs:12-22 | unsigned, signed and float values keep their payload; text becomes its UTF-8 bytes; bytes are unchanged; never NULL |
| LegacyTypes.Embed | src/types.rs:4-10 | the five legacy variants are the current ones without null |
| LegacyTypes.ToValueAgreesWithCurrent | src/types.rs:12-22 | the legacy binding is the current binding restricted to non-null values |
| LegacyTypes.EmbedMissesOnlyNull | src/types.rs:4-10 | every non-null current value has a legacy counterpart |
| LegacyTypes.ToValueNotInjective | src/types.rs:18-19 | a text and its bytes are different values that bind to the same driver value |
| LegacyTypes.ToValueOnto | src/types.rs:13-21 | every unsigned, signed, float and byte driver value is the binding of some legacy value |
| Dialects.SameUpsert | src/sqlite.rs:240-268 | given the MySQL upsert clause, both adapters build the same upsert text, and SQLite binds the renderings of the values MySQL binds |
| Dialects.SameDelete | src/sqlite.rs:299-324 | both adapters build the same DELETE text and bind one value per key |
| Dialects.ConcatSyntaxDiffers | src/sqlite.rs:360-373 | MySQL's expression is "concat_ws(' ', " .. ")" and SQLite's is "(" .. " )"; for every column list the two differ |
| Dialects.LimitSearchCaseSensitivity | src/lib.rs:86-89 | with only an upper-case " LIMIT ", the adapters build a count query but the earlier engine fails with "No limit in sql" |
| Dialects.CountQueriesAgreeWithoutCapitals | src/lib.rs:81-93 | on SQL without capital letters, the engine and the adapters build the same count query |

## Left out

- Driver and engine I/O are function parameters: `prep_exec`, `first_exec`, `Stmt::prepare`/`bind_values`/`execute`/`get_rows`/`get_row`, and the pool and connection handles.
- Write results are not modelled, because the database is not. The builders return the statement they would run; `Affected` (`affected_rows`, `last_insert_id`) is left out.
- `execute` (both adapters) is not modelled: it only runs a statement and maps its error with the mappings above.
- `Connection::new` and `DbEngine::new` in my_sql.rs are not modelled: they assemble a URL and open a pool.
- Sqlite.Connection.constructor: models only a successful open. The error path of `SqliteCon::new(..).map_err(Error::from)?` is not modelled, because opening the file is driver I/O.
- `println!` logging is left out.
- `round2`, `Rnd2` and `Rnd2Ir` are floating-point rounding and are left out; the model does no float arithmetic, and `Float` payloads are an opaque 64-bit token.
- src/traits.rs and the derive macros in dengine_derive are not part of this model. Record types are sequences of field names and sequences of values.
- Unicode case mapping is left out. `to_lowercase` is modelled on ASCII letters only, and other characters are kept.
- Byte indices are not modelled. Strings are sequences of characters, and `find`/slicing indices are character indices. These agree with Rust's byte indices on ASCII SQL, where each character is one byte (Utf8.EncodeAscii).
- MySql.Select, Engine.Select: the per-row `unwrap` of the driver's row results and the `row.get("count").unwrap()` are folded into the row oracle and the `countOf` parameter. The aborts they can cause are not modelled.
- Sqlite.Select: the `row.get::<usize, &str>("count").unwrap()` of the count rows is folded into the `countOf` parameter, and the abort it can cause is not modelled. The page rows are built without an unwrap.
- SqlText.CountQuery: the slice `sql[from..limit]` panics when the first " limit " comes before the first " from ". The model makes their order a precondition instead of modelling the abort.
- MySql.GetDateString: `NaiveDate::from_ymd` and `format` are calendar-library work, so they are a `render` parameter. `from_ymd` aborts on an impossible date such as month 13; that abort is not modelled, and only the guard in front of it is. An absent column aborts at the `unwrap`, so a present column is a precondition.
- Sqlite.GetDateString: `parse_from_str(.., "%Y-%m-%d")` and `format` are the calendar library, so they are the `parse` and `render` parameters. An absent column is a precondition, as in MySQL.
- Canonical.DateConvErr: the message `Error::date_conv_err` builds is defined outside the modelled files. The model keeps the variant and the column name only.
- Sqlite.InsertUpdate: `Self::gen_dupdate` is not defined in src/sqlite.rs, so the upsert clause is the `genDupdate` parameter. Dialects.SameUpsert shows the layouts agree when it is the MySQL clause. The `Display` rendering of `Dypes` (`values[j].to_string()`) is the `show` parameter.
- MySql.Update: the where clauses are a sequence in the order a `HashMap` visits them. `iter()` and `values()` on the same unmodified map visit in the same order, so keys and values stay paired. Which order that is, is not modelled.
- MySql.FromValue: durations are rendered with the corrected sign (see Findings). `TimeToStringAsWritten` is the rendering as the code writes it.
- MySql.QueryValue: `x.get(colum).unwrap()` aborts when the column is absent, so a present column is a precondition.
- Sqlite.QueryValue: `row.get(colum).unwrap()` aborts the same way, so a present column is a precondition here too.
- Sqlite.Connection.Attach: `bind_values(..).unwrap()` aborts when binding fails, so a successful prepare must be followed by a successful bind (a precondition).
- The `Unknown("Failed to unwrap value")` branch of `value`/`row` in my_sql.rs cannot be reached. The model has no such branch and proves that no Unknown error is returned.

## Findings

| source | as written | input that shows it | evidently intended | confidence | as-written member | corrected member |
|---|---|---|---|---|---|---|
| src/my_sql.rs:253-258 | `insert` formats "VALUES ({})" around groups that already carry their own parentheses | table t, fields a,b, two records: "INSERT INTO t (a,b) VALUES ((?,?),(?,?))" | "INSERT INTO t (a,b) VALUES (?,?),(?,?)", the layout `insert_update` in the same file uses and the multi-row INSERT syntax requires | medium; not executed | MySql.InsertAsWritten | MySql.Insert |
| src/my_sql.rs:466-472 | `time_to_string` prints "+" when the first field of the driver's duration is true | Time(true, 0, 1, 0, 0, 0), minus one hour: "+0:1:0:0:0" | "-" for a negative duration; the driver documents the first field as "is negative" | medium, resting on the driver's documented meaning of the flag; not executed | MySql.TimeToStringAsWritten | MySql.TimeToString |
