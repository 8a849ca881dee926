/** Bytes and big-endian integers: the static Read and Write functions of CByteStream
    (base/UtilPdu.cpp:84-137). Shifts and masks are written as division and remainder. */
module Bytes {
  type Byte = b: int | 0 <= b < 256

  const TWO16: nat := 0x1_0000
  const TWO32: nat := 0x1_0000_0000

  type Uint16 = n: nat | n < TWO16
  type Uint32 = n: nat | n < TWO32

  /** A block of memory set to zero. */
  function Zeros(n: nat): (z: seq<Byte>)
    ensures |z| == n && forall i :: 0 <= i < n ==> z[i] == 0
  {
    seq(n, _ => 0)
  }

  function Be16(v: Uint16): (s: seq<Byte>)
    ensures |s| == 2
  {
    [v / 256, v % 256]
  }

  function Be32(v: Uint32): (s: seq<Byte>)
    ensures |s| == 4
  {
    [v / 0x100_0000, v / 0x1_0000 % 256, v / 256 % 256, v % 256]
  }

  function Read16(s: seq<Byte>): Uint16
    requires |s| >= 2
  {
    var hi: int, lo: int := s[0], s[1];
    hi * 256 + lo
  }

  function Read32(s: seq<Byte>): Uint32
    requires |s| >= 4
  {
    var b0: int, b1: int, b2: int, b3: int := s[0], s[1], s[2], s[3];
    b0 * 0x100_0000 + b1 * 0x1_0000 + b2 * 256 + b3
  }

  lemma Round16(v: Uint16, rest: seq<Byte>)
    ensures Read16(Be16(v) + rest) == v
  {
  }

  lemma Round32(v: Uint32, rest: seq<Byte>)
    ensures Read32(Be32(v) + rest) == v
  {
    var s := Be32(v) + rest;
    assert s[0] == v / 0x100_0000 && s[1] == v / 0x1_0000 % 256 && s[2] == v / 256 % 256 && s[3] == v % 256;
    assert v / 256 / 256 == v / 0x1_0000 && v / 0x1_0000 / 256 == v / 0x100_0000;
  }
}
