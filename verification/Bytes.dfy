/** Machine integers and their little- and big-endian byte images. */
module Bytes {
  const U8: int := 0x100
  const U32: int := 0x1_0000_0000
  const U48: int := 0x1_0000_0000_0000
  const U64: int := 0x1_0000_0000_0000_0000

  type byte = x: int | 0 <= x < 0x100
  type u8 = x: int | 0 <= x < 0x100
  type u32 = x: int | 0 <= x < 0x1_0000_0000
  type u64 = x: int | 0 <= x < 0x1_0000_0000_0000_0000

  datatype Option<+T> = None | Some(value: T)

  function Wrap8(x: int): u8 { x % 0x100 }

  function Wrap32(x: int): u32 { x % 0x1_0000_0000 }

  function Wrap64(x: int): u64 { x % 0x1_0000_0000_0000_0000 }

  /** `addr & 0xffffffffffff`: drops the memory tag kept in the top bits of an arm64 pointer. */
  function Untag(addr: u64): u64 { addr % 0x1_0000_0000_0000 }

  lemma WrapAdd(i: int, j: int)
    ensures Wrap8(Wrap8(i) + j) == Wrap8(i + j)
  {
  }

  lemma WrapIdempotent(i: int)
    ensures Wrap8(Wrap8(i)) == Wrap8(i)
  {
  }

  function Min(a: int, b: int): int { if a <= b then a else b }

  function Pow256(n: nat): nat {
    if n == 0 then 1 else 256 * Pow256(n - 1)
  }

  function Zeros(n: nat): (s: seq<byte>)
    ensures |s| == n
  {
    seq(n, _ => 0)
  }

  /** The `n` little-endian bytes of `v`; higher bytes are dropped, as a store does. */
  function LE(n: nat, v: nat): (s: seq<byte>)
    ensures |s| == n
    decreases n, v
  {
    if n == 0 then [] else [v % 256] + LE(n - 1, v / 256)
  }

  function FromLE(s: seq<byte>): nat {
    if s == [] then 0 else s[0] + 256 * FromLE(s[1..])
  }

  function FromBE(s: seq<byte>): nat {
    if s == [] then 0 else 256 * FromBE(s[..|s| - 1]) + s[|s| - 1]
  }

  /** The `n` big-endian bytes of `v`. */
  function BE(n: nat, v: nat): (s: seq<byte>)
    ensures |s| == n
    decreases n, v
  {
    if n == 0 then [] else BE(n - 1, v / 256) + [v % 256]
  }

  lemma PowValues()
    ensures Pow256(1) == U8 && Pow256(4) == U32 && Pow256(8) == U64
  {
    assert Pow256(2) == 0x10000;
    assert Pow256(3) == 0x1000000;
    assert Pow256(4) == U32;
    assert Pow256(5) == 0x100_0000_0000;
    assert Pow256(6) == U48;
    assert Pow256(7) == 0x100_0000_0000_0000;
  }

  lemma {:induction false} FromLERange(s: seq<byte>)
    ensures FromLE(s) < Pow256(|s|)
  {
    if s != [] {
      FromLERange(s[1..]);
    }
  }

  /** A value that fits is read back from its image. */
  lemma {:induction false} LERoundTrip(n: nat, v: nat)
    requires v < Pow256(n)
    ensures FromLE(LE(n, v)) == v
  {
    if n > 0 {
      LERoundTrip(n - 1, v / 256);
      assert LE(n, v)[1..] == LE(n - 1, v / 256);
    }
  }

  /** The image of the value read from `s` is `s` itself, so `FromLE` is injective on a length. */
  lemma {:induction false} LEOfFromLE(s: seq<byte>)
    ensures LE(|s|, FromLE(s)) == s
  {
    if s != [] {
      LEOfFromLE(s[1..]);
      assert FromLE(s) % 256 == s[0] && FromLE(s) / 256 == FromLE(s[1..]);
      assert s == [s[0]] + s[1..];
    }
  }

  lemma {:induction false} LEZero(n: nat)
    ensures LE(n, 0) == Zeros(n)
  {
    if n > 0 {
      LEZero(n - 1);
    }
  }

  lemma FourBytes(b: seq<byte>)
    requires |b| >= 4
    ensures FromLE(b) == (b[0] as int) + 0x100 * (b[1] as int) + 0x1_0000 * (b[2] as int) + 0x100_0000 * (b[3] as int)
                         + 0x1_0000_0000 * FromLE(b[4..])
  {
    assert b[1..][1..] == b[2..] && b[2..][1..] == b[3..] && b[3..][1..] == b[4..];
    assert FromLE(b[3..]) == b[3] + 256 * FromLE(b[4..]);
    assert FromLE(b[2..]) == b[2] + 256 * FromLE(b[3..]);
    assert FromLE(b[1..]) == b[1] + 256 * FromLE(b[2..]);
  }

  /** A word is the sum of its eight bytes, the lowest first; so is a half word of its four. */
  lemma WordBytes(b: seq<byte>)
    requires |b| == 8
    ensures FromLE(b) == (b[0] as int) + 0x100 * (b[1] as int) + 0x1_0000 * (b[2] as int) + 0x100_0000 * (b[3] as int)
                         + 0x1_0000_0000 * (b[4] as int) + 0x100_0000_0000 * (b[5] as int)
                         + 0x1_0000_0000_0000 * (b[6] as int) + 0x100_0000_0000_0000 * (b[7] as int)
    ensures FromLE(b[..4]) == (b[0] as int) + 0x100 * (b[1] as int) + 0x1_0000 * (b[2] as int)
                              + 0x100_0000 * (b[3] as int)
  {
    FourBytes(b);
    FourBytes(b[4..]);
    FourBytes(b[..4]);
    assert b[..4][4..] == [] && b[4..][4..] == [];
  }

  /** The top sixteen bits are dropped, and nothing else is. */
  lemma UntagKeepsLow(tag: nat, low: nat)
    requires tag < 0x1_0000 && low < 0x1_0000_0000_0000
    ensures Untag(tag * 0x1_0000_0000_0000 + low) == low
  {
  }

  lemma U32RoundTrip(v: u32)
    ensures FromLE(LE(4, v)) == v
  {
    PowValues();
    LERoundTrip(4, v);
  }

  lemma U64RoundTrip(v: u64)
    ensures FromLE(LE(8, v)) == v
  {
    PowValues();
    LERoundTrip(8, v);
  }
}
