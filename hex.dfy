/**
 Lowercase hexadecimal text of a byte string, as the BSON driver's
 `ObjectID.Hex` prints an object identifier, and the decoding that
 `ObjectIDFromHex` applies to lowercase text.
 */
module Hex {
  import opened Numbers

  /** One of the sixteen characters 0-9, a-f. */
  predicate IsLowerHex(c: char) {
    '0' <= c <= '9' || 'a' <= c <= 'f'
  }

  function HexChar(d: nat): (c: char)
    requires d < 16
    ensures IsLowerHex(c)
  {
    if d < 10 then ('0' as int + d) as char else ('a' as int + d - 10) as char
  }

  function HexValue(c: char): (d: nat)
    requires IsLowerHex(c)
    ensures d < 16 && HexChar(d) == c
  {
    if '0' <= c <= '9' then c as int - '0' as int else c as int - 'a' as int + 10
  }

  lemma HexCharValue(d: nat)
    requires d < 16
    ensures HexValue(HexChar(d)) == d
  {
  }

  /** Two hex digits per byte, high nibble first, bytes in order. */
  function Encode(bytes: seq<Byte>): (r: string)
    ensures |r| == 2 * |bytes|
    ensures forall i :: 0 <= i < |r| ==> IsLowerHex(r[i])
  {
    if bytes == [] then ""
    else [HexChar(bytes[0] as int / 16), HexChar(bytes[0] as int % 16)] + Encode(bytes[1..])
  }

  predicate IsHexText(s: string) {
    |s| % 2 == 0 && forall i :: 0 <= i < |s| ==> IsLowerHex(s[i])
  }

  /** The bytes a lowercase hex string of even length denotes. */
  function Decode(s: string): (r: seq<Byte>)
    requires IsHexText(s)
    ensures |r| == |s| / 2
    decreases |s|
  {
    if s == [] then []
    else [(HexValue(s[0]) * 16 + HexValue(s[1])) as Byte] + Decode(s[2..])
  }

  /** Decoding the hex text of a byte string gives the bytes back. */
  lemma {:induction false} DecodeEncode(bytes: seq<Byte>)
    ensures IsHexText(Encode(bytes)) && Decode(Encode(bytes)) == bytes
  {
    if bytes != [] {
      var r := Encode(bytes);
      var b := bytes[0] as int;
      assert r[0] == HexChar(b / 16) && r[1] == HexChar(b % 16);
      assert r[2..] == Encode(bytes[1..]);
      DecodeEncode(bytes[1..]);
      HexCharValue(b / 16);
      HexCharValue(b % 16);
      assert (HexValue(r[0]) * 16 + HexValue(r[1])) as Byte == bytes[0];
    }
  }

  /** Re-encoding decoded lowercase hex text gives the same text. */
  lemma {:induction false} EncodeDecode(s: string)
    requires IsHexText(s)
    ensures |Decode(s)| == |s| / 2 && Encode(Decode(s)) == s
    decreases |s|
  {
    if s != [] {
      var hi, lo := HexValue(s[0]), HexValue(s[1]);
      var b := (hi * 16 + lo) as Byte;
      assert b as int / 16 == hi && b as int % 16 == lo;
      EncodeDecode(s[2..]);
      assert s == [s[0], s[1]] + s[2..];
    }
  }
}
