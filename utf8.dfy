/**
 * UTF-8, the byte encoding Rust's `String::into_bytes` exposes: each Unicode
 * scalar value becomes one to four bytes. The decoder is the partner that shows
 * the encoding keeps every character.
 */
module Utf8 {
  import opened Base

  /** The bytes of one scalar value. */
  function EncodeChar(c: char): (r: seq<byte>)
    ensures 1 <= |r| <= 4
    ensures (c as int < 0x80) <==> (|r| == 1)
  {
    var cp := c as int;
    if cp < 0x80 then
      [cp as byte]
    else if cp < 0x800 then
      [(0xC0 + cp / 0x40) as byte, (0x80 + cp % 0x40) as byte]
    else if cp < 0x1_0000 then
      [(0xE0 + cp / 0x1000) as byte, (0x80 + cp / 0x40 % 0x40) as byte, (0x80 + cp % 0x40) as byte]
    else
      [(0xF0 + cp / 0x4_0000) as byte, (0x80 + cp / 0x1000 % 0x40) as byte,
       (0x80 + cp / 0x40 % 0x40) as byte, (0x80 + cp % 0x40) as byte]
  }

  /** The UTF-8 encoding of `s`. */
  function Encode(s: string): seq<byte>
  {
    if |s| == 0 then [] else EncodeChar(s[0]) + Encode(s[1..])
  }

  predicate IsContinuation(b: byte)
  {
    0x80 <= b < 0xC0
  }

  function Payload(b: byte): int
  {
    b as int - 0x80
  }

  /** The scalar value at the front of `bs` and the number of bytes it takes; `None` for a malformed sequence. */
  function DecodeChar(bs: seq<byte>): (r: Option<(char, nat)>)
    requires |bs| > 0
    ensures r.Some? ==> 1 <= r.value.1 <= |bs|
  {
    var b0 := bs[0] as int;
    if b0 < 0x80 then
      Some((b0 as char, 1))
    else if 0xC0 <= b0 < 0xE0 && |bs| >= 2 && IsContinuation(bs[1]) then
      var cp := (b0 - 0xC0) * 0x40 + Payload(bs[1]);
      if cp >= 0x80 then Some((cp as char, 2)) else None
    else if 0xE0 <= b0 < 0xF0 && |bs| >= 3 && IsContinuation(bs[1]) && IsContinuation(bs[2]) then
      var cp := ((b0 - 0xE0) * 0x40 + Payload(bs[1])) * 0x40 + Payload(bs[2]);
      if cp >= 0x800 && !(0xD800 <= cp < 0xE000) then Some((cp as char, 3)) else None
    else if 0xF0 <= b0 < 0xF8 && |bs| >= 4 && IsContinuation(bs[1]) && IsContinuation(bs[2]) && IsContinuation(bs[3]) then
      var cp := (((b0 - 0xF0) * 0x40 + Payload(bs[1])) * 0x40 + Payload(bs[2])) * 0x40 + Payload(bs[3]);
      if 0x1_0000 <= cp < 0x11_0000 then Some((cp as char, 4)) else None
    else
      None
  }

  /** The text `bs` encodes, or `None` when it is not well-formed UTF-8. */
  function Decode(bs: seq<byte>): Option<string>
    decreases |bs|
  {
    if |bs| == 0 then Some([])
    else match DecodeChar(bs)
      case None => None
      case Some((c, k)) =>
        match Decode(bs[k..])
        case None => None
        case Some(rest) => Some([c] + rest)
  }

  lemma DivMod64(x: int)
    requires 0 <= x
    ensures x / 0x40 * 0x40 + x % 0x40 == x
    ensures x / 0x1000 == x / 0x40 / 0x40
    ensures x / 0x4_0000 == x / 0x1000 / 0x40
  {
  }

  /** Decoding the encoding of one character gives it back, whatever follows. */
  lemma DecodeEncodeChar(c: char, rest: seq<byte>)
    ensures DecodeChar(EncodeChar(c) + rest) == Some((c, |EncodeChar(c)|))
  {
    var cp := c as int;
    var bs := EncodeChar(c) + rest;
    DivMod64(cp);
    DivMod64(cp / 0x40);
    DivMod64(cp / 0x1000);
    if cp < 0x80 {
    } else if cp < 0x800 {
      assert (bs[0] as int - 0xC0) * 0x40 + Payload(bs[1]) == cp;
    } else if cp < 0x1_0000 {
      assert (bs[0] as int - 0xE0) * 0x40 + Payload(bs[1]) == cp / 0x40;
      assert ((bs[0] as int - 0xE0) * 0x40 + Payload(bs[1])) * 0x40 + Payload(bs[2]) == cp;
    } else {
      assert (bs[0] as int - 0xF0) * 0x40 + Payload(bs[1]) == cp / 0x1000;
      assert ((bs[0] as int - 0xF0) * 0x40 + Payload(bs[1])) * 0x40 + Payload(bs[2]) == cp / 0x40;
    }
  }

  /** UTF-8 encoding loses nothing: decoding gives the string back. */
  lemma {:induction false} DecodeEncode(s: string)
    ensures Decode(Encode(s)) == Some(s)
    decreases |s|
  {
    if |s| > 0 {
      var head := EncodeChar(s[0]);
      DecodeEncodeChar(s[0], Encode(s[1..]));
      assert (head + Encode(s[1..]))[|head|..] == Encode(s[1..]);
      DecodeEncode(s[1..]);
      assert s == [s[0]] + s[1..];
    }
  }

  /** Encoding is injective: two texts with the same bytes are the same text. */
  lemma EncodeInjective(s: string, t: string)
    requires Encode(s) == Encode(t)
    ensures s == t
  {
    DecodeEncode(s);
    DecodeEncode(t);
  }

  predicate IsAscii(s: string)
  {
    forall i :: 0 <= i < |s| ==> s[i] as int < 0x80
  }

  /** An ASCII text encodes to one byte per character, each holding the character's code. */
  lemma {:induction false} EncodeAscii(s: string)
    requires IsAscii(s)
    ensures |Encode(s)| == |s|
    ensures forall i :: 0 <= i < |s| ==> Encode(s)[i] as int == s[i] as int
    decreases |s|
  {
    if |s| > 0 {
      EncodeAscii(s[1..]);
    }
  }
}
