/**
  Base64 as Node's Buffer writes and reads it: `toString("base64")` is the padded
  encoding of RFC 4648 section 4, and `Buffer.from(text, "base64")` is a forgiving
  decoder that skips characters outside the alphabet, also accepts the URL-safe
  alphabet of section 5, stops at the first '=' and decodes a final group of two or
  three characters into one or two bytes.
 */
module Base64 {
  import opened Wrappers

  type byte = b: int | 0 <= b < 256

  type sextet = v: int | 0 <= v < 64

  /** The alphabet of RFC 4648 section 4, table 1. */
  function Char(v: sextet): (c: char)
    ensures c != '='
  {
    if v < 26 then (65 + v) as char
    else if v < 52 then (71 + v) as char
    else if v < 62 then (v - 4) as char
    else if v == 62 then '+'
    else '/'
  }

  /** The value the decoder gives a character, or None for a character it skips. */
  function Value(c: char): Option<sextet>
  {
    if 'A' <= c <= 'Z' then Some(c as int - 65)
    else if 'a' <= c <= 'z' then Some(c as int - 71)
    else if '0' <= c <= '9' then Some(c as int + 4)
    else if c == '+' || c == '-' then Some(62)
    else if c == '/' || c == '_' then Some(63)
    else None
  }

  lemma ValueOfChar(v: sextet)
    ensures Value(Char(v)) == Some(v)
  {
  }

  /** Three bytes as four characters. */
  function EncodeGroup(b0: byte, b1: byte, b2: byte): seq<char>
  {
    [Char(b0 / 4), Char((b0 % 4) * 16 + b1 / 16), Char((b1 % 16) * 4 + b2 / 64), Char(b2 % 64)]
  }

  /** Buffer.prototype.toString("base64"): groups of three bytes, the last group padded with '='. */
  function Encode(bytes: seq<byte>): (s: string)
    ensures |s| == 4 * ((|bytes| + 2) / 3)
  {
    if |bytes| == 0 then []
    else if |bytes| == 1 then [Char(bytes[0] / 4), Char((bytes[0] % 4) * 16), '=', '=']
    else if |bytes| == 2 then
      [Char(bytes[0] / 4), Char((bytes[0] % 4) * 16 + bytes[1] / 16), Char((bytes[1] % 16) * 4), '=']
    else EncodeGroup(bytes[0], bytes[1], bytes[2]) + Encode(bytes[3..])
  }

  /** The values the decoder reads: skipped characters dropped, everything from the first '=' ignored. */
  function Sextets(s: string): seq<sextet>
  {
    if s == [] || s[0] == '=' then []
    else
      match Value(s[0])
      case Some(v) => [v] + Sextets(s[1..])
      case None => Sextets(s[1..])
  }

  function First(v0: sextet, v1: sextet): byte { v0 as int * 4 + v1 as int / 16 }
  function Second(v1: sextet, v2: sextet): byte { (v1 as int % 16) * 16 + v2 as int / 4 }
  function Third(v2: sextet, v3: sextet): byte { (v2 as int % 4) * 64 + v3 as int }

  /** Four values make three bytes; a trailing three make two, two make one, one makes none. */
  function DecodeSextets(v: seq<sextet>): seq<byte>
  {
    if |v| >= 4 then [First(v[0], v[1]), Second(v[1], v[2]), Third(v[2], v[3])] + DecodeSextets(v[4..])
    else if |v| == 3 then [First(v[0], v[1]), Second(v[1], v[2])]
    else if |v| == 2 then [First(v[0], v[1])]
    else []
  }

  /** Buffer.from(text, "base64") */
  function Decode(s: string): seq<byte>
  {
    DecodeSextets(Sextets(s))
  }

  lemma SextetsCons(c: char, s: string)
    requires Value(c).Some?
    ensures Sextets([c] + s) == [Value(c).value] + Sextets(s)
  {
    assert ([c] + s)[1..] == s;
  }

  lemma {:induction false} SextetsOfGroup(b0: byte, b1: byte, b2: byte, rest: string)
    ensures Sextets(EncodeGroup(b0, b1, b2) + rest)
         == [b0 / 4, (b0 % 4) * 16 + b1 / 16, (b1 % 16) * 4 + b2 / 64, b2 % 64] + Sextets(rest)
  {
    var c0, c1, c2, c3 := Char(b0 / 4), Char((b0 % 4) * 16 + b1 / 16), Char((b1 % 16) * 4 + b2 / 64), Char(b2 % 64);
    ValueOfChar(b0 / 4);
    ValueOfChar((b0 % 4) * 16 + b1 / 16);
    ValueOfChar((b1 % 16) * 4 + b2 / 64);
    ValueOfChar(b2 % 64);
    assert EncodeGroup(b0, b1, b2) + rest == [c0] + ([c1] + ([c2] + ([c3] + rest)));
    SextetsCons(c3, rest);
    SextetsCons(c2, [c3] + rest);
    SextetsCons(c1, [c2] + ([c3] + rest));
    SextetsCons(c0, [c1] + ([c2] + ([c3] + rest)));
  }

  lemma GroupArithmetic(b0: byte, b1: byte, b2: byte)
    ensures (b0 / 4) * 4 + ((b0 % 4) * 16 + b1 / 16) / 16 == b0
    ensures (((b0 % 4) * 16 + b1 / 16) % 16) * 16 + ((b1 % 16) * 4 + b2 / 64) / 4 == b1
    ensures (((b1 % 16) * 4 + b2 / 64) % 4) * 64 + b2 % 64 == b2
  {
  }

  lemma DecodeOne(b0: byte)
    ensures Decode(Encode([b0])) == [b0]
  {
    var c0, c1 := Char(b0 / 4), Char((b0 % 4) * 16);
    ValueOfChar(b0 / 4);
    ValueOfChar((b0 % 4) * 16);
    assert Encode([b0]) == [c0] + ([c1] + ['=', '=']);
    SextetsCons(c1, ['=', '=']);
    SextetsCons(c0, [c1] + ['=', '=']);
    assert Sextets(Encode([b0])) == [b0 / 4, (b0 % 4) * 16];
  }

  lemma DecodeTwo(b0: byte, b1: byte)
    ensures Decode(Encode([b0, b1])) == [b0, b1]
  {
    var c0, c1, c2 := Char(b0 / 4), Char((b0 % 4) * 16 + b1 / 16), Char((b1 % 16) * 4);
    ValueOfChar(b0 / 4);
    ValueOfChar((b0 % 4) * 16 + b1 / 16);
    ValueOfChar((b1 % 16) * 4);
    assert Encode([b0, b1]) == [c0] + ([c1] + ([c2] + ['=']));
    SextetsCons(c2, ['=']);
    SextetsCons(c1, [c2] + ['=']);
    SextetsCons(c0, [c1] + ([c2] + ['=']));
    assert Sextets(Encode([b0, b1])) == [b0 / 4, (b0 % 4) * 16 + b1 / 16, (b1 % 16) * 4];
    GroupArithmetic(b0, b1, 0);
  }

  lemma DecodeGroupPrefix(b0: byte, b1: byte, b2: byte, rest: seq<sextet>)
    ensures DecodeSextets([b0 / 4, (b0 % 4) * 16 + b1 / 16, (b1 % 16) * 4 + b2 / 64, b2 % 64] + rest)
         == [b0, b1, b2] + DecodeSextets(rest)
  {
    var all: seq<sextet> := [b0 / 4, (b0 % 4) * 16 + b1 / 16, (b1 % 16) * 4 + b2 / 64, b2 % 64] + rest;
    assert all[4..] == rest;
    GroupArithmetic(b0, b1, b2);
  }

  /** Decoding what was encoded gives the same bytes back. */
  lemma {:induction false} DecodeEncode(bytes: seq<byte>)
    ensures Decode(Encode(bytes)) == bytes
  {
    if |bytes| == 1 {
      assert bytes == [bytes[0]];
      DecodeOne(bytes[0]);
    } else if |bytes| == 2 {
      assert bytes == [bytes[0], bytes[1]];
      DecodeTwo(bytes[0], bytes[1]);
    } else if |bytes| >= 3 {
      var b0, b1, b2 := bytes[0], bytes[1], bytes[2];
      SextetsOfGroup(b0, b1, b2, Encode(bytes[3..]));
      DecodeGroupPrefix(b0, b1, b2, Sextets(Encode(bytes[3..])));
      DecodeEncode(bytes[3..]);
      assert bytes == [b0, b1, b2] + bytes[3..];
    }
  }
}
