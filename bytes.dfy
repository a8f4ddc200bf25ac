/**
 * Bytes, as read from a `Uint8Array` or a `DataView`, and their decoding to
 * text.
 */
module Bytes {

  newtype byte = x: int | 0 <= x < 256

  /** The character `TextDecoder` substitutes for bytes that are not valid UTF-8. */
  const Replacement: char := '\U{FFFD}'

  /**
   * The character of one byte: an ASCII byte is its own character, and every
   * other byte is decoded as the replacement character.
   */
  function ToChar(b: byte): (c: char)
    ensures b < 128 ==> c as int == b as int
    ensures b >= 128 ==> c == Replacement
  {
    if b < 128 then (b as int) as char else Replacement
  }

  /** `TextDecoder.decode`, byte by byte: one character per byte. */
  function Decode(bs: seq<byte>): (s: string)
    ensures |s| == |bs|
    ensures forall k :: 0 <= k < |bs| ==> s[k] == ToChar(bs[k])
  {
    seq(|bs|, k requires 0 <= k < |bs| => ToChar(bs[k]))
  }

  /** ASCII bytes decode to the characters with the same codes, and only those. */
  lemma DecodeAscii(bs: seq<byte>, k: nat)
    requires k < |bs|
    ensures (Decode(bs)[k] as int == bs[k] as int) <==> bs[k] < 128
  {
    assert Decode(bs)[k] == ToChar(bs[k]);
  }
}
