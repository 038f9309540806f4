/**
 The on-disk layout that kernel/fs/ext2.c works on: blocks of bytes, 32-bit
 pointer tables and bitmaps inside them, inodes with twelve direct, one single
 indirect and one double indirect pointer, and who owns which block.
 */
module Ext2Layout {
  import opened Common

  type Block = seq<byte>

  const NDIR := 12
  const U16MAX := 0xFFFF
  const U32MAX := 0xFFFF_FFFF

  // ---------------------------------------------------------------- words

  /** The i-th little-endian 32-bit word of a block. */
  function Word(b: Block, i: nat): nat
    requires 4 * i + 4 <= |b|
  {
    var b0: int, b1: int, b2: int, b3: int := b[4 * i], b[4 * i + 1], b[4 * i + 2], b[4 * i + 3];
    b0 + 0x100 * b1 + 0x1_0000 * b2 + 0x100_0000 * b3
  }

  function SetWord(b: Block, i: nat, w: nat): (r: Block)
    requires 4 * i + 4 <= |b| && w < U32
    ensures |r| == |b|
  {
    b[4 * i := w % 0x100]
     [4 * i + 1 := w / 0x100 % 0x100]
     [4 * i + 2 := w / 0x1_0000 % 0x100]
     [4 * i + 3 := w / 0x100_0000]
  }

  lemma SetWordFrame(b: Block, i: nat, w: nat, j: nat)
    requires 4 * i + 4 <= |b| && 4 * j + 4 <= |b| && w < U32
    ensures Word(SetWord(b, i, w), j) == if j == i then w else Word(b, j)
  {
  }

  /** On disk the low byte comes first. */
  lemma LowByteFirst(b: Block, i: nat, b0: byte, b1: byte, b2: byte, b3: byte)
    requires 4 * i + 4 <= |b|
    ensures var w := b0 as int + 0x100 * b1 as int + 0x1_0000 * b2 as int + 0x100_0000 * b3 as int;
            w < U32 && SetWord(b, i, w) == b[..4 * i] + [b0, b1, b2, b3] + b[4 * i + 4..]
    ensures b[4 * i..4 * i + 4] == [b0, b1, b2, b3] ==>
              Word(b, i) == b0 as int + 0x100 * b1 as int + 0x1_0000 * b2 as int + 0x100_0000 * b3 as int
  {
    var w := b0 as int + 0x100 * b1 as int + 0x1_0000 * b2 as int + 0x100_0000 * b3 as int;
    Digits(b0, b1, b2, b3);
    assert SetWord(b, i, w)[4 * i..4 * i + 4] == [b0, b1, b2, b3];
    var v := b[4 * i..4 * i + 4];
    assert b[4 * i] == v[0] && b[4 * i + 1] == v[1] && b[4 * i + 2] == v[2] && b[4 * i + 3] == v[3];
  }

  lemma Digits(b0: byte, b1: byte, b2: byte, b3: byte)
    ensures var w := b0 as int + 0x100 * b1 as int + 0x1_0000 * b2 as int + 0x100_0000 * b3 as int;
            w < U32 && w % 0x100 == b0 && w / 0x100 % 0x100 == b1 && w / 0x1_0000 % 0x100 == b2 && w / 0x100_0000 == b3
  {
    var w2 := b2 as int + 0x100 * b3 as int;
    var w1 := b1 as int + 0x100 * w2;
    var w := b0 as int + 0x100 * w1;
    assert w / 0x100 == w1 && w / 0x1_0000 == w2;
  }

  function Zeros(n: nat): (r: Block)
    ensures |r| == n
  {
    seq(n, _ => 0)
  }

  lemma ZeroWord(n: nat, i: nat)
    requires 4 * i + 4 <= n
    ensures Word(Zeros(n), i) == 0
  {
  }

  // ----------------------------------------------------------------- bits

  function Pow2(k: nat): (p: nat)
    ensures p >= 1
  {
    if k == 0 then 1 else 2 * Pow2(k - 1)
  }

  /** Bit k of x, `(x & (1 << k)) != 0`. */
  predicate BitOn(x: nat, k: nat) {
    if k == 0 then x % 2 == 1 else BitOn(x / 2, k - 1)
  }

  /** `x | (1 << k)` when `on`, `x & ~(1 << k)` otherwise, for a number of w bits. */
  function WithBit(x: nat, k: nat, on: bool, w: nat): (r: nat)
    requires k < w && x < Pow2(w)
    ensures r < Pow2(w)
  {
    if k == 0 then x / 2 * 2 + (if on then 1 else 0)
    else WithBit(x / 2, k - 1, on, w - 1) * 2 + x % 2
  }

  lemma {:induction false} WithBitFrame(x: nat, k: nat, on: bool, w: nat, j: nat)
    requires k < w && x < Pow2(w)
    ensures BitOn(WithBit(x, k, on, w), j) == if j == k then on else BitOn(x, j)
  {
    if k > 0 && j > 0 {
      WithBitFrame(x / 2, k - 1, on, w - 1, j - 1);
    }
  }

  lemma ByteIsEightBits()
    ensures Pow2(8) == 256
  {
    assert Pow2(3) == 8;
    assert Pow2(6) == 64;
  }

  predicate Bit(b: Block, i: nat)
    requires i / 8 < |b|
  {
    BitOn(b[i / 8], i % 8)
  }

  function SetBit(b: Block, i: nat, on: bool): (r: Block)
    requires i / 8 < |b|
    ensures |r| == |b|
  {
    ByteIsEightBits();
    b[i / 8 := WithBit(b[i / 8], i % 8, on, 8)]
  }

  lemma SetBitFrame(b: Block, i: nat, on: bool, j: nat)
    requires i / 8 < |b| && j / 8 < |b|
    ensures Bit(SetBit(b, i, on), j) == if j == i then on else Bit(b, j)
  {
    ByteIsEightBits();
    WithBitFrame(b[i / 8], i % 8, on, 8, j % 8);
  }
}
