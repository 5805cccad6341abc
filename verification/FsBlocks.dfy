/** The bytes of a file system's disk blocks: block numbers stored in an indirect block, and the
    bits of the free map. */
module FsBlocks {

  const BSIZE: nat := 512
  const NDIRECT: nat := 12
  const NINDIRECT: nat := 128
  const MAXFILE: nat := 140
  /** Free-map bits in a block. */
  const BPB: nat := 4096
  const WORD: nat := 0x1_0000_0000

  type Byte = x: int | 0 <= x < 256

  type Block = b: seq<Byte> | |b| == 512 witness seq(512, i => 0)

  function Zero(): (b: Block)
    ensures forall i :: 0 <= i < BSIZE ==> b[i] == 0
  {
    seq(BSIZE, i => 0)
  }

  // ----- 32-bit little-endian entries of an indirect block -----

  function Entry(b: Block, j: nat): (v: nat)
    requires j < NINDIRECT
    ensures v < WORD
  {
    var b0: int, b1: int, b2: int, b3: int := b[4 * j], b[4 * j + 1], b[4 * j + 2], b[4 * j + 3];
    b0 + 0x100 * b1 + 0x1_0000 * b2 + 0x100_0000 * b3
  }

  function SetEntry(b: Block, j: nat, v: nat): Block
    requires j < NINDIRECT && v < WORD
  {
    b[4 * j := v % 0x100][4 * j + 1 := v / 0x100 % 0x100]
     [4 * j + 2 := v / 0x1_0000 % 0x100][4 * j + 3 := v / 0x100_0000]
  }

  lemma LittleEndian(v: nat)
    requires v < WORD
    ensures v == v % 0x100 + 0x100 * (v / 0x100 % 0x100)
                 + 0x1_0000 * (v / 0x1_0000 % 0x100) + 0x100_0000 * (v / 0x100_0000)
  {
    assert v / 0x100 == v / 0x100 % 0x100 + 0x100 * (v / 0x1_0000);
    assert v / 0x1_0000 == v / 0x1_0000 % 0x100 + 0x100 * (v / 0x100_0000);
  }

  /** Storing an entry stores exactly that entry. */
  lemma EntryStored(b: Block, j: nat, v: nat, k: nat)
    requires j < NINDIRECT && v < WORD && k < NINDIRECT
    ensures Entry(SetEntry(b, j, v), k) == if k == j then v else Entry(b, k)
  {
    LittleEndian(v);
  }

  lemma ZeroEntry(k: nat)
    requires k < NINDIRECT
    ensures Entry(Zero(), k) == 0
  { }

  // ----- bits -----

  function Pow2(m: nat): nat {
    if m == 0 then 1 else 2 * Pow2(m - 1)
  }

  /** x & (1 << k) is not zero. */
  predicate BitOf(x: nat, k: nat) {
    if k == 0 then x % 2 == 1 else BitOf(x / 2, k - 1)
  }

  const MASKS: seq<nat> := [1, 2, 4, 8, 16, 32, 64, 128]

  /** The bits of a byte, by their masks. */
  lemma BitOfByte(x: nat, k: nat)
    requires k < 8
    ensures |MASKS| == 8 && MASKS[k] > 0 && (BitOf(x, k) <==> x / MASKS[k] % 2 == 1)
  {
    assert x / 2 / 2 == x / 4 && x / 4 / 2 == x / 8 && x / 8 / 2 == x / 16 && x / 16 / 2 == x / 32;
    assert x / 32 / 2 == x / 64 && x / 64 / 2 == x / 128;
    BitDown(x, k);
    if k > 1 { BitDown(x / 2, k - 1); }
    if k > 2 { BitDown(x / 4, k - 2); }
    if k > 3 { BitDown(x / 8, k - 3); }
    if k > 4 { BitDown(x / 16, k - 4); }
    if k > 5 { BitDown(x / 32, k - 5); }
    if k > 6 { BitDown(x / 64, k - 6); }
  }

  lemma BitDown(x: nat, k: nat)
    ensures k > 0 ==> (BitOf(x, k) <==> BitOf(x / 2, k - 1))
  { }

  /** x | (1 << k), bit by bit. */
  function WithBit(x: nat, k: nat): nat {
    if k == 0 then x / 2 * 2 + 1 else WithBit(x / 2, k - 1) * 2 + x % 2
  }

  /** x & ~(1 << k), bit by bit. */
  function WithoutBit(x: nat, k: nat): (y: nat)
    ensures y <= x
  {
    if k == 0 then x / 2 * 2 else WithoutBit(x / 2, k - 1) * 2 + x % 2
  }

  lemma {:induction false} WithBitBound(x: nat, k: nat, m: nat)
    requires x < Pow2(m) && k < m
    ensures WithBit(x, k) < Pow2(m)
  {
    if k > 0 { WithBitBound(x / 2, k - 1, m - 1); }
  }

  lemma {:induction false} BitSet(x: nat, k: nat, j: nat)
    ensures BitOf(WithBit(x, k), j) <==> j == k || BitOf(x, j)
  {
    if k > 0 && j > 0 { BitSet(x / 2, k - 1, j - 1); }
  }

  lemma {:induction false} BitCleared(x: nat, k: nat, j: nat)
    ensures BitOf(WithoutBit(x, k), j) <==> j != k && BitOf(x, j)
  {
    if k > 0 && j > 0 { BitCleared(x / 2, k - 1, j - 1); }
  }

  function OrBit(x: Byte, k: nat): Byte
    requires k < 8
  {
    assert Pow2(8) == 256;
    WithBitBound(x, k, 8);
    WithBit(x, k)
  }

  /** Bit number bi of a free-map block. */
  predicate MapBit(b: Block, bi: nat)
    requires bi < BPB
  {
    BitOf(b[bi / 8], bi % 8)
  }

  function SetMapBit(b: Block, bi: nat): Block
    requires bi < BPB
  {
    b[bi / 8 := OrBit(b[bi / 8], bi % 8)]
  }

  function ClearMapBit(b: Block, bi: nat): Block
    requires bi < BPB
  {
    b[bi / 8 := WithoutBit(b[bi / 8], bi % 8)]
  }

  lemma MapBitSet(b: Block, bi: nat, bj: nat)
    requires bi < BPB && bj < BPB
    ensures MapBit(SetMapBit(b, bi), bj) <==> bj == bi || MapBit(b, bj)
  {
    BitSet(b[bi / 8], bi % 8, bj % 8);
  }

  lemma MapBitCleared(b: Block, bi: nat, bj: nat)
    requires bi < BPB && bj < BPB
    ensures MapBit(ClearMapBit(b, bi), bj) <==> bj != bi && MapBit(b, bj)
  {
    BitCleared(b[bi / 8], bi % 8, bj % 8);
  }
}
