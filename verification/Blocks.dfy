/** Disk blocks as byte sequences, and the two views the kernel takes of one:
    an array of little-endian 32-bit words and an array of bits. */
module Blocks {
  import opened Machine

  const BSIZE: nat := 512
  const WORDS: nat := 128
  const BPB: nat := 4096

  type Block = b: seq<Byte> | |b| == BSIZE witness seq(BSIZE, _ => 0)
  type Disk = seq<Block>

  /** A block cleared by memset. */
  function Zero(): (b: Block)
    ensures forall i :: 0 <= i < BSIZE ==> b[i] == 0
  {
    seq(BSIZE, _ => 0)
  }

  /** The four little-endian bytes of a 32-bit word. */
  function Encode(v: Uint): (e: seq<Byte>)
    ensures |e| == 4
  {
    [v % 256, v / 256 % 256, v / 65536 % 256, v / 16777216]
  }

  function Decode(e: seq<Byte>): Uint
    requires |e| == 4
  {
    e[0] as int + 256 * (e[1] as int) + 65536 * (e[2] as int) + 16777216 * (e[3] as int)
  }

  lemma DecodeEncode(v: Uint)
    ensures Decode(Encode(v)) == v
  {
    assert v / 65536 == v / 256 / 256;
    assert v / 16777216 == v / 65536 / 256;
  }

  /** `((uint*)b->data)[i]`. */
  function Word(b: Block, i: nat): Uint
    requires i < WORDS
  {
    Decode(b[4 * i..4 * i + 4])
  }

  /** `((uint*)b->data)[i] = v`. */
  function SetWord(b: Block, i: nat, v: Uint): Block
    requires i < WORDS
  {
    b[..4 * i] + Encode(v) + b[4 * i + 4..]
  }

  /** Storing a word makes it readable and disturbs no other word. */
  lemma WordSetWord(b: Block, i: nat, v: Uint, j: nat)
    requires i < WORDS && j < WORDS
    ensures Word(SetWord(b, i, v), j) == if j == i then v else Word(b, j)
  {
    var r := SetWord(b, i, v);
    if i == j {
      assert r[4 * j..4 * j + 4] == Encode(v);
      DecodeEncode(v);
    } else {
      assert r[4 * j..4 * j + 4] == b[4 * j..4 * j + 4];
    }
  }

  lemma ZeroWords()
    ensures forall i: nat :: i < WORDS ==> Word(Zero(), i) == 0
  {
  }

  /** 2 to the power w. */
  function Pow2(w: nat): (p: nat)
    ensures p >= 1
  {
    if w == 0 then 1 else 2 * Pow2(w - 1)
  }

  /** `x & (1 << k)`, read off by halving. */
  predicate NatBit(x: nat, k: nat) {
    if k == 0 then x % 2 == 1 else NatBit(x / 2, k - 1)
  }

  /** `x | (1 << k)` when `on`, `x & ~(1 << k)` otherwise, for a w-bit number. */
  function SetNatBit(x: nat, w: nat, k: nat, on: bool): (y: nat)
    requires k < w && x < Pow2(w)
    ensures y < Pow2(w)
  {
    if k == 0 then x / 2 * 2 + (if on then 1 else 0)
    else x % 2 + 2 * SetNatBit(x / 2, w - 1, k - 1, on)
  }

  lemma {:induction false} NatBitSet(x: nat, w: nat, k: nat, on: bool, j: nat)
    requires k < w && x < Pow2(w)
    ensures NatBit(SetNatBit(x, w, k, on), j) == if j == k then on else NatBit(x, j)
  {
    if j > 0 && k > 0 {
      NatBitSet(x / 2, w - 1, k - 1, on, j - 1);
    }
  }

  lemma ByteIsEightBits()
    ensures Pow2(8) == 256
  {
    assert Pow2(4) == 16;
  }

  predicate ByteBit(x: Byte, k: nat)
    requires k < 8
  {
    NatBit(x, k)
  }

  function SetByteBit(x: Byte, k: nat, on: bool): Byte
    requires k < 8
  {
    ByteIsEightBits();
    SetNatBit(x, 8, k, on)
  }

  predicate Bit(b: Block, i: nat)
    requires i < BPB
  {
    ByteBit(b[i / 8], i % 8)
  }

  function SetBit(b: Block, i: nat, on: bool): Block
    requires i < BPB
  {
    b[i / 8 := SetByteBit(b[i / 8], i % 8, on)]
  }

  lemma BitSetBit(b: Block, i: nat, on: bool, j: nat)
    requires i < BPB && j < BPB
    ensures Bit(SetBit(b, i, on), j) == if j == i then on else Bit(b, j)
  {
    ByteIsEightBits();
    NatBitSet(b[i / 8], 8, i % 8, on, j % 8);
  }
}
