/** Bytes and their lowercase hexadecimal spelling, as Go's encoding/hex writes it. */
module Hex {
  import opened Wrappers

  newtype byte = x: int | 0 <= x < 256

  predicate IsLowerHexChar(c: char)
  {
    '0' <= c <= '9' || 'a' <= c <= 'f'
  }

  /** The character for a nibble, from "0123456789abcdef". */
  function HexDigit(v: int): (c: char)
    requires 0 <= v < 16
    ensures IsLowerHexChar(c)
    ensures HexValue(c) == v
  {
    if v < 10 then ('0' as int + v) as char else ('a' as int + (v - 10)) as char
  }

  /** The nibble a lowercase hex character stands for. */
  function HexValue(c: char): (v: int)
    requires IsLowerHexChar(c)
    ensures 0 <= v < 16
  {
    if c <= '9' then c as int - '0' as int else c as int - 'a' as int + 10
  }

  /** hex.EncodeToString: two characters per byte, high nibble first. */
  function EncodeToString(bs: seq<byte>): (s: string)
    ensures |s| == 2 * |bs|
    ensures forall i :: 0 <= i < |s| ==> IsLowerHexChar(s[i])
  {
    if bs == [] then []
    else [HexDigit(bs[0] as int / 16), HexDigit(bs[0] as int % 16)] + EncodeToString(bs[1..])
  }

  /**
   * The inverse of EncodeToString: pairs of lowercase hex characters back to bytes
   * (unlike Go's hex.DecodeString, upper case is refused).
   */
  function DecodeLowerHex(s: string): (r: Option<seq<byte>>)
    ensures r.Some? ==> 2 * |r.value| == |s|
    decreases |s|
  {
    if s == [] then Some([])
    else if |s| < 2 || !IsLowerHexChar(s[0]) || !IsLowerHexChar(s[1]) then None
    else
      match DecodeLowerHex(s[2..])
      case None => None
      case Some(rest) => Some([(HexValue(s[0]) * 16 + HexValue(s[1])) as byte] + rest)
  }

  /** Decoding the encoding gives the bytes back. */
  lemma {:induction false} DecodeEncode(bs: seq<byte>)
    ensures DecodeLowerHex(EncodeToString(bs)) == Some(bs)
    decreases |bs|
  {
    if bs != [] {
      var s := EncodeToString(bs);
      assert s[2..] == EncodeToString(bs[1..]);
      DecodeEncode(bs[1..]);
      assert [bs[0]] + bs[1..] == bs;
    }
  }

  /** Distinct byte strings have distinct encodings. */
  lemma EncodeInjective(a: seq<byte>, b: seq<byte>)
    ensures EncodeToString(a) == EncodeToString(b) ==> a == b
  {
    DecodeEncode(a);
    DecodeEncode(b);
  }
}
