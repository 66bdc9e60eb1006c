/** Numbers as bytes, in both orders. */
module Bytes {
  import opened Crc32

  function U16BE(b: seq<Byte>, i: nat): int
    requires i + 2 <= |b|
  {
    (b[i] as int) * 0x100 + b[i + 1]
  }

  function U16LE(b: seq<Byte>, i: nat): int
    requires i + 2 <= |b|
  {
    b[i] + (b[i + 1] as int) * 0x100
  }

  function U24LE(b: seq<Byte>, i: nat): int
    requires i + 3 <= |b|
  {
    b[i] + (b[i + 1] as int) * 0x100 + (b[i + 2] as int) * 0x1_0000
  }

  function U32BE(b: seq<Byte>, i: nat): int
    requires i + 4 <= |b|
  {
    (b[i] as int) * 0x100_0000 + (b[i + 1] as int) * 0x1_0000 + (b[i + 2] as int) * 0x100 + b[i + 3]
  }

  /** The byte of `n` at the given power of 256. */
  function Digit256(n: nat, power: nat): Byte {
    if power == 0 then n % 256 else Digit256(n / 256, power - 1)
  }

  function BE16(n: nat): seq<Byte> { [Digit256(n, 1), Digit256(n, 0)] }

  function LE16(n: nat): seq<Byte> { [Digit256(n, 0), Digit256(n, 1)] }

  function LE24(n: nat): seq<Byte> { [Digit256(n, 0), Digit256(n, 1), Digit256(n, 2)] }

  function LE32(n: nat): seq<Byte> { [Digit256(n, 0), Digit256(n, 1), Digit256(n, 2), Digit256(n, 3)] }

  function BE32(n: nat): seq<Byte> { [Digit256(n, 3), Digit256(n, 2), Digit256(n, 1), Digit256(n, 0)] }

  lemma DigitsMakeNumber(n: nat)
    ensures n < 0x1_0000 ==> n == (Digit256(n, 1) as int) * 0x100 + Digit256(n, 0)
    ensures n < 0x100_0000 ==> n == (Digit256(n, 2) as int) * 0x1_0000 + (Digit256(n, 1) as int) * 0x100 + Digit256(n, 0)
    ensures n < 0x1_0000_0000 ==>
              n == (Digit256(n, 3) as int) * 0x100_0000 + (Digit256(n, 2) as int) * 0x1_0000
                   + (Digit256(n, 1) as int) * 0x100 + Digit256(n, 0)
  {
  }

  /** A number written at some place is read back from there. */
  lemma ReadsBack(before: seq<Byte>, n: nat, after: seq<Byte>)
    ensures n < 0x1_0000 ==> U16BE(before + BE16(n) + after, |before|) == n && U16LE(before + LE16(n) + after, |before|) == n
    ensures n < 0x100_0000 ==> U24LE(before + LE24(n) + after, |before|) == n
    ensures n < 0x1_0000_0000 ==> U32BE(before + BE32(n) + after, |before|) == n
  {
    DigitsMakeNumber(n);
    hide Digit256;
  }

  /** The bytes of an ASCII text. */
  function Ascii(s: string): (b: seq<Byte>)
    requires forall i :: 0 <= i < |s| ==> s[i] < 128 as char
    ensures |b| == |s| && forall i :: 0 <= i < |s| ==> b[i] == s[i] as int
  {
    seq(|s|, i requires 0 <= i < |s| => s[i] as int)
  }
}
