/** Byte strings and big-endian lengths, shared by the binary formats of the model. */
module Bytes {
  newtype byte = x: int | 0 <= x < 256
  type bytes = seq<byte>

  ghost predicate IsAscii(text: string) {
    forall i :: 0 <= i < |text| ==> text[i] as int < 128
  }

  /** The bytes of a text of ASCII characters. */
  ghost function Ascii(text: string): (b: bytes)
    requires IsAscii(text)
    ensures |b| == |text| && forall i :: 0 <= i < |b| ==> b[i] as int == text[i] as int
  {
    seq(|text|, i requires 0 <= i < |text| => text[i] as int as byte)
  }

  /** Big-endian value of the first two bytes. */
  function U16(b: bytes): (n: nat)
    requires |b| >= 2
    ensures n < 65536
  {
    b[0] as int * 256 + b[1] as int
  }

  function EncodeU16(n: nat): (b: bytes)
    requires n < 65536
    ensures |b| == 2
  {
    [(n / 256) as byte, (n % 256) as byte]
  }

  lemma U16RoundTrip(n: nat, rest: bytes)
    requires n < 65536
    ensures U16(EncodeU16(n) + rest) == n
    ensures (EncodeU16(n) + rest)[2..] == rest
  {
  }

  lemma U16Reencode(b: bytes)
    requires |b| >= 2
    ensures EncodeU16(U16(b)) + b[2..] == b
  {
  }
}
