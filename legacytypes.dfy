/**
 * The earlier canonical value of types.rs: five variants, no null, bound to
 * the MySQL driver's values as the current six-variant one is.
 */
module LegacyTypes {
  import opened Base
  import Utf8
  import Canonical
  import MySql

  datatype Dypes =
    | Uint(u: u64)
    | Int(i: i64)
    | Float(f: Canonical.F64)
    | String(s: string)
    | Bytes(b: seq<byte>)

  /** A legacy value as the driver binds it; the image never holds a null, a date or a duration. */
  function ToValue(d: Dypes): (v: MySql.Value)
    ensures v.UInt? || v.Int? || v.Float? || v.Bytes?
    ensures d.Uint? ==> v == MySql.UInt(d.u)
    ensures d.Int? ==> v == MySql.Value.Int(d.i)
    ensures d.Float? ==> v == MySql.Value.Float(d.f)
    ensures d.String? ==> v == MySql.Value.Bytes(Utf8.Encode(d.s))
    ensures d.Bytes? ==> v == MySql.Value.Bytes(d.b)
  {
    match d
    case Uint(x) => MySql.UInt(x)
    case Int(x) => MySql.Value.Int(x)
    case Float(x) => MySql.Value.Float(x)
    case String(x) => MySql.Value.Bytes(Utf8.Encode(x))
    case Bytes(x) => MySql.Value.Bytes(x)
  }

  /** The legacy value as the current one, variant for variant. */
  function Embed(d: Dypes): (e: Canonical.Dypes)
    ensures !e.Null?
  {
    match d
    case Uint(x) => Canonical.Uint(x)
    case Int(x) => Canonical.Dypes.Int(x)
    case Float(x) => Canonical.Dypes.Float(x)
    case String(x) => Canonical.Dypes.String(x)
    case Bytes(x) => Canonical.Dypes.Bytes(x)
  }

  /** The legacy binding is the current binding restricted to the non-null values. */
  lemma ToValueAgreesWithCurrent(d: Dypes)
    ensures ToValue(d) == MySql.ToValue(Embed(d))
  {
  }

  /** The legacy embedding misses exactly the null value. */
  lemma EmbedMissesOnlyNull(e: Canonical.Dypes)
    requires !e.Null?
    ensures exists d :: Embed(d) == e
  {
    match e
    case Uint(x) => assert Embed(Uint(x)) == e;
    case Int(x) => assert Embed(Int(x)) == e;
    case Float(x) => assert Embed(Float(x)) == e;
    case String(x) => assert Embed(String(x)) == e;
    case Bytes(x) => assert Embed(Bytes(x)) == e;
  }

  /** Binding is not injective: a text and its UTF-8 bytes bind to the same driver value. */
  lemma ToValueNotInjective(s: string)
    ensures String(s) != Bytes(Utf8.Encode(s))
    ensures ToValue(String(s)) == ToValue(Bytes(Utf8.Encode(s)))
  {
  }

  /** Every unsigned, signed, float and byte value of the driver is the binding of some legacy value. */
  lemma ToValueOnto(v: MySql.Value)
    requires v.UInt? || v.Int? || v.Float? || v.Bytes?
    ensures exists d :: ToValue(d) == v
  {
    match v
    case UInt(x) => assert ToValue(Uint(x)) == v;
    case Int(x) => assert ToValue(Int(x)) == v;
    case Float(x) => assert ToValue(Float(x)) == v;
    case Bytes(x) => assert ToValue(Bytes(x)) == v;
  }
}
