/** On-disk inodes: eight of them to a block, each sixteen little-endian words. */
module Dinodes {
  import opened FsBlocks
  import opened FsState

  /** Inodes, and words of one inode. */
  const IPB: nat := 8
  const SLOT: nat := 16

  type Short = x: int | 0 <= x < 0x1_0000

  /** The fields of an inode that reading, writing and truncating a file leave alone. */
  datatype Head = Head(kind: Short, major: Short, minor: Short, nlink: Short)

  datatype Dinode = Dinode(head: Head, ino: Inode)

  /** Fields of 32 bits. */
  predicate Fits(ino: Inode) {
    ino.size < WORD && forall a :: 0 <= a <= NDIRECT ==> ino.addrs[a] < WORD
  }

  /** The struct dinode at index k of a block. */
  function DinodeAt(b: Block, k: nat): Dinode
    requires k < IPB
  {
    var kind, links := Entry(b, SLOT * k), Entry(b, SLOT * k + 1);
    Dinode(Head(kind % 0x1_0000, kind / 0x1_0000, links % 0x1_0000, links / 0x1_0000),
           Inode(Entry(b, SLOT * k + 2), WordsAt(b, SLOT * k + 3, NDIRECT + 1)))
  }

  /** n words, from word j on. */
  function WordsAt(b: Block, j: nat, n: nat): (ws: seq<nat>)
    requires j + n <= NINDIRECT
    ensures |ws| == n && forall a :: 0 <= a < n ==> ws[a] == Entry(b, j + a)
  {
    if n == 0 then [] else WordsAt(b, j, n - 1) + [Entry(b, j + n - 1)]
  }

  function Words(d: Dinode): (ws: seq<nat>)
    requires Fits(d.ino)
    ensures |ws| == SLOT && forall k :: 0 <= k < SLOT ==> ws[k] < WORD
  {
    var kind: int, major: int, minor: int, nlink: int := d.head.kind, d.head.major, d.head.minor, d.head.nlink;
    [kind + 0x1_0000 * major, minor + 0x1_0000 * nlink, d.ino.size] + d.ino.addrs
  }

  function PutWords(b: Block, j: nat, ws: seq<nat>): Block
    requires j + |ws| <= NINDIRECT && forall k :: 0 <= k < |ws| ==> ws[k] < WORD
  {
    if ws == [] then b
    else
      var n := |ws| - 1;
      SetEntry(PutWords(b, j, ws[..n]), j + n, ws[n])
  }

  /** The assignment to a struct dinode at index k of a block. */
  function PutDinode(b: Block, k: nat, d: Dinode): Block
    requires k < IPB && Fits(d.ino)
  {
    PutWords(b, SLOT * k, Words(d))
  }

  lemma {:induction false} WordsStored(b: Block, j: nat, ws: seq<nat>, k: nat)
    requires j + |ws| <= NINDIRECT && k < NINDIRECT && forall i :: 0 <= i < |ws| ==> ws[i] < WORD
    ensures Entry(PutWords(b, j, ws), k) == if j <= k < j + |ws| then ws[k - j] else Entry(b, k)
    decreases |ws|
  {
    hide Entry, SetEntry;
    if ws != [] {
      var n := |ws| - 1;
      WordsStored(b, j, ws[..n], k);
      EntryStored(PutWords(b, j, ws[..n]), j + n, ws[n], k);
    }
  }

  /** Storing an inode stores exactly that one of the block's eight. */
  lemma DinodeStored(b: Block, k: nat, d: Dinode, j: nat)
    requires k < IPB && j < IPB && Fits(d.ino)
    ensures DinodeAt(PutDinode(b, k, d), j) == if j == k then d else DinodeAt(b, j)
  {
    hide Entry, PutWords;
    var now := PutDinode(b, k, d);
    var ws := Words(d);
    WordsStored(b, SLOT * k, ws, SLOT * j);
    WordsStored(b, SLOT * k, ws, SLOT * j + 1);
    WordsStored(b, SLOT * k, ws, SLOT * j + 2);
    forall a: nat | a < 13
      ensures DinodeAt(now, j).ino.addrs[a] == if j == k then d.ino.addrs[a] else DinodeAt(b, j).ino.addrs[a]
    {
      WordsStored(b, SLOT * k, ws, SLOT * j + 3 + a);
    }
    if j == k {
      assert DinodeAt(now, k).ino.addrs == d.ino.addrs;
    } else {
      assert DinodeAt(now, j).ino.addrs == DinodeAt(b, j).ino.addrs;
    }
  }

  /** The fields of a sound inode are 32-bit numbers. */
  lemma SoundFits(sb: Super, s: Fs, owner: Owners, i: nat)
    requires Sound(sb, s, owner) && i < |s.inodes|
    ensures Fits(s.inodes[i])
  {
    forall a: nat | a <= NDIRECT ensures s.inodes[i].addrs[a] < WORD {
      var n := if a == NDIRECT then INDIRECT else a;
      AddrPtr(s, i, a);
      if P(s, i, n) != 0 { assert OwnedBy(sb, s, P(s, i, n), owner[P(s, i, n)]); }
    }
  }

  /** The little-endian number in n bytes of a block. */
  function BytesAt(b: Block, at: nat, n: nat): nat
    requires at + n <= BSIZE
  {
    if n == 0 then 0 else BytesAt(b, at, n - 1) + Pow256(n - 1) * b[at + n - 1]
  }

  function Pow256(n: nat): nat { if n == 0 then 1 else 0x100 * Pow256(n - 1) }

  lemma EntryBytes(b: Block, j: nat)
    requires j < NINDIRECT
    ensures Entry(b, j) == BytesAt(b, 4 * j, 4)
    ensures Entry(b, j) % 0x1_0000 == BytesAt(b, 4 * j, 2) && Entry(b, j) / 0x1_0000 == BytesAt(b, 4 * j + 2, 2)
  {
    var at := 4 * j;
    var b0: int, b1: int, b2: int, b3: int := b[at], b[at + 1], b[at + 2], b[at + 3];
    assert Pow256(1) == 0x100 && Pow256(2) == 0x1_0000 && Pow256(3) == 0x100_0000;
    assert BytesAt(b, at, 1) == b0 && BytesAt(b, at, 2) == b0 + 0x100 * b1;
    assert BytesAt(b, at, 3) == b0 + 0x100 * b1 + 0x1_0000 * b2;
    assert BytesAt(b, at + 2, 1) == b2 && BytesAt(b, at + 2, 2) == b2 + 0x100 * b3;
  }

  /** struct dinode byte by byte: four shorts, the size, and thirteen block numbers. */
  lemma DinodeLayout(b: Block, k: nat)
    requires k < IPB
    ensures var d, at := DinodeAt(b, k), 64 * k;
      && d.head.kind == BytesAt(b, at, 2) && d.head.major == BytesAt(b, at + 2, 2)
      && d.head.minor == BytesAt(b, at + 4, 2) && d.head.nlink == BytesAt(b, at + 6, 2)
      && d.ino.size == BytesAt(b, at + 8, 4)
      && forall a :: 0 <= a < 13 ==> d.ino.addrs[a] == BytesAt(b, at + 12 + 4 * a, 4)
  {
    hide Entry, BytesAt;
    EntryBytes(b, SLOT * k);
    EntryBytes(b, SLOT * k + 1);
    EntryBytes(b, SLOT * k + 2);
    forall a | 0 <= a < 13 ensures DinodeAt(b, k).ino.addrs[a] == BytesAt(b, 64 * k + 12 + 4 * a, 4) {
      EntryBytes(b, SLOT * k + 3 + a);
    }
  }

  // ----- the inode blocks -----

  function DiskInode(iblocks: seq<Block>, i: nat): Dinode
    requires i / IPB < |iblocks|
  {
    DinodeAt(iblocks[i / IPB], i % IPB)
  }

  function StoreInode(iblocks: seq<Block>, i: nat, d: Dinode): seq<Block>
    requires i / IPB < |iblocks| && Fits(d.ino)
  {
    iblocks[i / IPB := PutDinode(iblocks[i / IPB], i % IPB, d)]
  }

  lemma InodeStored(iblocks: seq<Block>, i: nat, d: Dinode, j: nat)
    requires i / IPB < |iblocks| && j / IPB < |iblocks| && Fits(d.ino)
    ensures DiskInode(StoreInode(iblocks, i, d), j) == if j == i then d else DiskInode(iblocks, j)
  {
    hide DinodeAt, PutDinode;
    DinodeStored(iblocks[i / IPB], i % IPB, d, j % IPB);
  }

  /** The inode blocks hold these inodes. */
  ghost predicate Encodes(iblocks: seq<Block>, heads: seq<Head>, inodes: seq<Inode>) {
    && |heads| == |inodes| <= IPB * |iblocks|
    && forall i: nat :: i < |inodes| ==> DiskInode(iblocks, i) == Dinode(heads[i], inodes[i])
  }

  lemma EncodesStored(iblocks: seq<Block>, heads: seq<Head>, inodes: seq<Inode>, i: nat, d: Dinode)
    requires Encodes(iblocks, heads, inodes) && i < |inodes| && Fits(d.ino)
    ensures Encodes(StoreInode(iblocks, i, d), heads[i := d.head], inodes[i := d.ino])
  {
    hide DiskInode;
    forall j: nat | j < |inodes|
      ensures DiskInode(StoreInode(iblocks, i, d), j) == Dinode(heads[i := d.head][j], inodes[i := d.ino][j])
    {
      InodeStored(iblocks, i, d, j);
    }
  }

  /** A disk has one set of inodes. */
  lemma DecodesBack(iblocks: seq<Block>, heads: seq<Head>, inodes: seq<Inode>, heads2: seq<Head>, inodes2: seq<Inode>)
    requires Encodes(iblocks, heads, inodes) && Encodes(iblocks, heads2, inodes2) && |inodes| == |inodes2|
    ensures heads == heads2 && inodes == inodes2
  {
    hide DiskInode;
    forall i: nat | i < |inodes| ensures heads[i] == heads2[i] && inodes[i] == inodes2[i] {
      assert DiskInode(iblocks, i) == Dinode(heads2[i], inodes2[i]);
    }
  }
}
