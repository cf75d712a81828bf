/**
 Fixed-width unsigned integers as ranges of mathematical integers, and their byte encodings.
 */
module Bytes {
  type byte = x: int | 0 <= x < 0x100
  type u16 = x: int | 0 <= x < 0x1_0000
  type u32 = x: int | 0 <= x < 0x1_0000_0000

  const TWO16 := 0x1_0000
  const TWO32 := 0x1_0000_0000

  function ReadU16Be(s: seq<byte>, i: nat): u16
    requires i + 2 <= |s|
  {
    s[i] as int * 0x100 + s[i + 1]
  }

  function ReadU32Be(s: seq<byte>, i: nat): u32
    requires i + 4 <= |s|
  {
    s[i] as int * 0x100_0000 + s[i + 1] as int * 0x1_0000 + s[i + 2] as int * 0x100 + s[i + 3]
  }

  function ReadU32Le(s: seq<byte>, i: nat): u32
    requires i + 4 <= |s|
  {
    s[i] + s[i + 1] as int * 0x100 + s[i + 2] as int * 0x1_0000 + s[i + 3] as int * 0x100_0000
  }

  function ReadU16Le(s: seq<byte>, i: nat): u16
    requires i + 2 <= |s|
  {
    s[i] + s[i + 1] as int * 0x100
  }

  /** `x.to_be_bytes()` for a u16. */
  function U16Be(x: u16): (s: seq<byte>)
    ensures |s| == 2 && ReadU16Be(s, 0) == x
  {
    [x / 0x100, x % 0x100]
  }

  /** `x.to_be_bytes()` for a u32. */
  function U32Be(x: u32): (s: seq<byte>)
    ensures |s| == 4 && ReadU32Be(s, 0) == x
  {
    var hi, lo := x / 0x1_0000, x % 0x1_0000;
    [hi / 0x100, hi % 0x100, lo / 0x100, lo % 0x100]
  }

  /** `x.to_le_bytes()` for a u32. */
  function U32Le(x: u32): (s: seq<byte>)
    ensures |s| == 4 && ReadU32Le(s, 0) == x
  {
    var hi, lo := x / 0x1_0000, x % 0x1_0000;
    [lo % 0x100, lo / 0x100, hi % 0x100, hi / 0x100]
  }

  /** `x.to_le_bytes()` for a u16. */
  function U16Le(x: u16): (s: seq<byte>)
    ensures |s| == 2 && ReadU16Le(s, 0) == x
  {
    [x % 0x100, x / 0x100]
  }

  function Zeros(n: nat): (s: seq<byte>)
    ensures |s| == n && forall i :: 0 <= i < n ==> s[i] == 0
  {
    seq(n, i => 0)
  }

  /** Network order puts the most significant byte first, pcap order last. */
  lemma ByteOrders(x: u32)
    ensures U32Be(x)[0] == x / 0x100_0000 && U32Be(x)[3] == x % 0x100
    ensures U32Le(x)[0] == x % 0x100 && U32Le(x)[3] == x / 0x100_0000
    ensures U16Be(x % 0x1_0000)[0] == x % 0x1_0000 / 0x100 && U16Be(x % 0x1_0000)[1] == x % 0x100
  {
  }
}
