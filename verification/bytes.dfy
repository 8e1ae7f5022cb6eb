/** Fixed-width unsigned integers and their little-endian byte layout. */
module Bytes {

  newtype u8 = x: int | 0 <= x < 0x100
  newtype u16 = x: int | 0 <= x < 0x1_0000
  newtype u32 = x: int | 0 <= x < 0x1_0000_0000

  /** The unsigned 16-bit value stored little-endian at `s[at..at + 2]`. */
  function LeU16(s: seq<u8>, at: nat): u16
    requires at + 2 <= |s|
  {
    (s[at] as int + 0x100 * s[at + 1] as int) as u16
  }

  /** The unsigned 32-bit value stored little-endian at `s[at..at + 4]`. */
  function LeU32(s: seq<u8>, at: nat): u32
    requires at + 4 <= |s|
  {
    (s[at] as int + 0x100 * s[at + 1] as int + 0x1_0000 * s[at + 2] as int
      + 0x100_0000 * s[at + 3] as int) as u32
  }

  /** The two bytes of `x`, least significant first. */
  function U16Le(x: u16): (r: seq<u8>)
    ensures |r| == 2
  {
    [(x as int % 0x100) as u8, (x as int / 0x100) as u8]
  }

  /** The four bytes of `x`, least significant first. */
  function U32Le(x: u32): (r: seq<u8>)
    ensures |r| == 4
  {
    var n := x as int;
    [(n % 0x100) as u8, (n / 0x100 % 0x100) as u8,
     (n / 0x1_0000 % 0x100) as u8, (n / 0x100_0000) as u8]
  }

  /** Reading back the bytes written for a 16-bit value gives the value. */
  lemma LeU16OfU16Le(x: u16, s: seq<u8>, at: nat)
    requires at + 2 <= |s| && s[at..at + 2] == U16Le(x)
    ensures LeU16(s, at) == x
  {
  }

  /** Writing the value read from two bytes gives back those bytes. */
  lemma U16LeOfLeU16(s: seq<u8>, at: nat)
    requires at + 2 <= |s|
    ensures U16Le(LeU16(s, at)) == s[at..at + 2]
  {
  }

  /** Reading back the bytes written for a 32-bit value gives the value. */
  lemma LeU32OfU32Le(x: u32, s: seq<u8>, at: nat)
    requires at + 4 <= |s| && s[at..at + 4] == U32Le(x)
    ensures LeU32(s, at) == x
  {
    var n := x as int;
    assert s[at] as int == n % 0x100 && s[at + 1] as int == n / 0x100 % 0x100;
    assert s[at + 2] as int == n / 0x1_0000 % 0x100 && s[at + 3] as int == n / 0x100_0000;
    assert n == n % 0x100 + 0x100 * (n / 0x100);
    assert n / 0x100 == n / 0x100 % 0x100 + 0x100 * (n / 0x1_0000);
    assert n / 0x1_0000 == n / 0x1_0000 % 0x100 + 0x100 * (n / 0x100_0000);
  }

  /** Writing the value read from four bytes gives back those bytes. */
  lemma U32LeOfLeU32(s: seq<u8>, at: nat)
    requires at + 4 <= |s|
    ensures U32Le(LeU32(s, at)) == s[at..at + 4]
  {
    var b0, b1, b2, b3 := s[at] as int, s[at + 1] as int, s[at + 2] as int, s[at + 3] as int;
    var n := LeU32(s, at) as int;
    assert n == b0 + 0x100 * (b1 + 0x100 * (b2 + 0x100 * b3));
    assert n % 0x100 == b0 && n / 0x100 == b1 + 0x100 * (b2 + 0x100 * b3);
    assert n / 0x1_0000 == (n / 0x100) / 0x100;
    assert n / 0x1_0000 == b2 + 0x100 * b3;
    assert n / 0x100_0000 == (n / 0x1_0000) / 0x100;
  }
}
