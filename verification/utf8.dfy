/**
  The conversions between strings and bytes around the cursor's Base64 step:
  `Buffer.from(text)` writes UTF-8, and `buffer.toString("utf8")` reads it back.
 */
module Utf8 {
  import opened Base64

  predicate IsAscii(s: string)
  {
    forall i :: 0 <= i < |s| ==> s[i] as int < 128
  }

  /** The UTF-8 bytes of one Unicode scalar value. */
  function EncodeChar(c: char): (bytes: seq<byte>)
    ensures 1 <= |bytes| <= 4
    ensures c as int < 128 <==> bytes == [c as int]
  {
    var n := c as int;
    if n < 0x80 then [n]
    else if n < 0x800 then [0xC0 + n / 64, 0x80 + n % 64]
    else if n < 0x1_0000 then [0xE0 + n / 4096, 0x80 + (n / 64) % 64, 0x80 + n % 64]
    else [0xF0 + n / 262144, 0x80 + (n / 4096) % 64, 0x80 + (n / 64) % 64, 0x80 + n % 64]
  }

  /** Buffer.from(text): the UTF-8 bytes of a string. */
  function Encode(s: string): (bytes: seq<byte>)
    ensures |bytes| >= |s|
  {
    if s == [] then [] else EncodeChar(s[0]) + Encode(s[1..])
  }

  /** buffer.toString("utf8") on one byte: ASCII as itself, any other byte as U+FFFD. */
  function DecodeByte(b: byte): char
  {
    if b < 128 then b as char else '\U{FFFD}'
  }

  function Decode(bytes: seq<byte>): (s: string)
    ensures |s| == |bytes|
  {
    if bytes == [] then [] else [DecodeByte(bytes[0])] + Decode(bytes[1..])
  }

  /** An ASCII string survives the trip through bytes unchanged. */
  lemma {:induction false} DecodeEncodeAscii(s: string)
    requires IsAscii(s)
    ensures Decode(Encode(s)) == s
  {
    if s != [] {
      assert IsAscii(s[1..]);
      DecodeEncodeAscii(s[1..]);
      var head: seq<byte> := [s[0] as int];
      assert Encode(s) == head + Encode(s[1..]);
      assert (head + Encode(s[1..]))[1..] == Encode(s[1..]);
    }
  }
}
