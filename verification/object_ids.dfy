/**
  MongoDB ObjectIds: twelve bytes, ordered as a big-endian number, written as
  24 lower-case hexadecimal digits by `toString()` and read back by `new ObjectId(text)`.
 */
module ObjectIds {
  import opened Wrappers

  function Pow16(k: nat): (p: nat)
    ensures p >= 1
  {
    if k == 0 then 1 else 16 * Pow16(k - 1)
  }

  /** Number of hexadecimal digits of an ObjectId. */
  const HexLength: nat := 24

  type ObjectId = n: nat | n < Pow16(24)

  predicate IsHexDigit(c: char)
  {
    '0' <= c <= '9' || 'a' <= c <= 'f' || 'A' <= c <= 'F'
  }

  function HexDigit(d: nat): (c: char)
    requires d < 16
    ensures IsHexDigit(c) && c as int < 128 && c != '|'
  {
    if d < 10 then (48 + d) as char else (87 + d) as char
  }

  function DigitValue(c: char): (r: Option<nat>)
    ensures r.Some? <==> IsHexDigit(c)
    ensures r.Some? ==> r.value < 16
  {
    if '0' <= c <= '9' then Some(c as int - 48)
    else if 'a' <= c <= 'f' then Some(c as int - 87)
    else if 'A' <= c <= 'F' then Some(c as int - 55)
    else None
  }

  /** The k lowest hexadecimal digits of n, most significant first. */
  function HexDigits(n: nat, k: nat): (s: string)
    ensures |s| == k
    ensures forall i :: 0 <= i < |s| ==> IsHexDigit(s[i]) && s[i] as int < 128 && s[i] != '|'
  {
    if k == 0 then [] else HexDigits(n / 16, k - 1) + [HexDigit(n % 16)]
  }

  /** ObjectId.prototype.toString */
  function ToHex(id: ObjectId): (s: string)
    ensures |s| == HexLength
    ensures forall i :: 0 <= i < |s| ==> IsHexDigit(s[i]) && s[i] as int < 128 && s[i] != '|'
  {
    HexDigits(id, HexLength)
  }

  /** The number written by a string of hexadecimal digits, or None if some character is not one. */
  function HexValue(s: string): (r: Option<nat>)
    ensures r.Some? <==> forall i :: 0 <= i < |s| ==> IsHexDigit(s[i])
    ensures r.Some? ==> r.value < Pow16(|s|)
  {
    if s == [] then Some(0)
    else
      match HexValue(s[..|s| - 1])
      case None => None
      case Some(v) =>
        match DigitValue(s[|s| - 1])
        case None => None
        case Some(d) => Some(16 * v + d)
  }

  /** new ObjectId(text): exactly 24 hexadecimal digits of either case; anything else throws (None). */
  function ParseObjectId(text: string): (r: Option<ObjectId>)
    ensures r.Some? <==> |text| == HexLength && forall i :: 0 <= i < |text| ==> IsHexDigit(text[i])
  {
    if |text| != HexLength then None
    else
      match HexValue(text)
      case None => None
      case Some(v) => Some(v)
  }

  lemma {:induction false} HexDigitsValue(n: nat, k: nat)
    requires n < Pow16(k)
    ensures HexValue(HexDigits(n, k)) == Some(n)
  {
    if k > 0 {
      var s := HexDigits(n, k);
      assert s[..|s| - 1] == HexDigits(n / 16, k - 1);
      HexDigitsValue(n / 16, k - 1);
      assert DigitValue(HexDigit(n % 16)) == Some(n % 16);
    }
  }

  /** Reading back the text of an ObjectId gives the same ObjectId. */
  lemma ParseToHex(id: ObjectId)
    ensures ParseObjectId(ToHex(id)) == Some(id)
  {
    HexDigitsValue(id, HexLength);
  }
}
