/**
 * The backend-independent types both adapters speak: the canonical value `Dypes`,
 * the error taxonomy, a page of selected records and a prepared statement.
 */
module Canonical {
  import opened Base

  /** A 64-bit float, kept as an opaque token: the model does no floating-point arithmetic. */
  datatype F64 = F64(bits: u64)

  /** The canonical value, with the six variants the adapters convert to and from. */
  datatype Dypes =
    | Uint(u: u64)
    | Int(i: i64)
    | Float(f: F64)
    | String(s: string)
    | Bytes(b: seq<byte>)
    | Null

  /** The error taxonomy; every variant carries a readable detail string. */
  datatype Error =
    | SQLErr(msg: string)
    | IndexOutOfBound(msg: string)
    | ConversionErr(msg: string)
    | LibErr(msg: string)
    | ConnectionErr(msg: string)
    | Unknown(msg: string)

  type Desult<T> = Result<T, Error>

  /** The records of one page and a count: their number, or the total number of matches. */
  datatype SelectHolder<T> = SelectHolder(data: seq<T>, count: nat)

  /** SQL text with `?` placeholders and the values bound to them, in placeholder order. */
  datatype Statement<P> = Statement(sql: string, params: seq<P>)

  /**
   * The error a failed date read reports. Its message is built outside the
   * modelled files; the model keeps the variant and the column name.
   */
  function DateConvErr(key: string): (e: Error)
    ensures e.ConversionErr? && e.msg == key
  {
    ConversionErr(key)
  }

  /** Every record of a page, mapped through the row constructor, in row order. */
  function MapRows<R, T>(toRecord: R -> T, rows: seq<R>): (r: seq<T>)
    ensures |r| == |rows|
    ensures forall i :: 0 <= i < |rows| ==> r[i] == toRecord(rows[i])
  {
    seq(|rows|, i requires 0 <= i < |rows| => toRecord(rows[i]))
  }
}
