/** A file system as a value: its blocks and inodes, the block map of an inode, what a file's
    contents are, and the invariant that ties block maps and free map together. */
module FsState {
  import opened FsBlocks

  /** The index at which Ptr gives the number of the indirect block itself. */
  const INDIRECT: nat := MAXFILE

  type Addrs = a: seq<nat> | |a| == 13 witness seq(13, i => 0)

  datatype Inode = Inode(size: nat, addrs: Addrs)

  datatype Super = Super(size: nat, inodestart: nat, bmapstart: nat, datastart: nat)

  datatype Fs = Fs(blocks: seq<Block>, inodes: seq<Inode>)

  /** Who owns a block: inode i, as its n-th data block or as its indirect block. */
  datatype Owner = Owner(i: nat, n: nat)

  type Owners = map<nat, Owner>

  /** The free map covers every block and lies before the data. */
  ghost predicate Geometry(sb: Super, s: Fs) {
    && 0 < sb.datastart <= sb.size == |s.blocks| <= WORD / 2 - BPB
    && sb.bmapstart + (sb.size - 1) / BPB < sb.datastart
    && sb.inodestart + |s.inodes| / 8 < sb.bmapstart
  }

  function BBlock(sb: Super, b: nat): nat { b / BPB + sb.bmapstart }

  /** IBLOCK, with eight inodes to a block. */
  function IBlock(sb: Super, i: nat): nat { i / 8 + sb.inodestart }

  ghost predicate Bit(sb: Super, s: Fs, b: nat) {
    BBlock(sb, b) < |s.blocks| && MapBit(s.blocks[BBlock(sb, b)], b % BPB)
  }

  /** The block map: entry n < MAXFILE is the n-th data block, entry INDIRECT the indirect block;
      0 is none. */
  function Ptr(blocks: seq<Block>, ino: Inode, n: nat): nat
    requires n <= INDIRECT
  {
    if n < NDIRECT then ino.addrs[n]
    else if n == INDIRECT then ino.addrs[NDIRECT]
    else if ino.addrs[NDIRECT] == 0 || ino.addrs[NDIRECT] >= |blocks| then 0
    else Entry(blocks[ino.addrs[NDIRECT]], n - NDIRECT)
  }

  function P(s: Fs, i: nat, n: nat): nat
    requires i < |s.inodes| && n <= INDIRECT
  {
    Ptr(s.blocks, s.inodes[i], n)
  }

  function ByteAt(s: Fs, i: nat, k: nat): Byte
    requires i < |s.inodes| && k < MAXFILE * BSIZE
  {
    var b := P(s, i, k / BSIZE);
    if b < |s.blocks| then s.blocks[b][k % BSIZE] else 0
  }

  /** The file's contents, as a byte sequence. */
  function Content(s: Fs, i: nat): (c: seq<Byte>)
    requires i < |s.inodes| && s.inodes[i].size <= MAXFILE * BSIZE
    ensures |c| == s.inodes[i].size
  {
    seq(s.inodes[i].size, k requires 0 <= k < s.inodes[i].size => ByteAt(s, i, k))
  }

  // ----- the invariant -----

  /** Each block number in a block map is owned by that place and no other. */
  ghost predicate Mapped(s: Fs, owner: Owners) {
    forall i: nat, n: nat :: i < |s.inodes| && n <= INDIRECT && P(s, i, n) != 0 ==>
      P(s, i, n) in owner && owner[P(s, i, n)] == Owner(i, n)
  }

  /** Owned blocks are data blocks, and their owners know them. */
  ghost predicate Owned(sb: Super, s: Fs, owner: Owners) {
    forall b :: b in owner ==> OwnedBy(sb, s, b, owner[b])
  }

  ghost predicate OwnedBy(sb: Super, s: Fs, b: nat, o: Owner) {
    && sb.datastart <= b < sb.size
    && o.i < |s.inodes| && o.n <= INDIRECT && P(s, o.i, o.n) == b
  }

  /** The free map marks the blocks before the data and the owned blocks, and nothing else. */
  ghost predicate Marked(sb: Super, s: Fs, owner: Owners) {
    forall b :: 0 <= b < sb.size ==> (Bit(sb, s, b) <==> b < sb.datastart || b in owner)
  }

  /** Every block below an inode's size is allocated. */
  ghost predicate Filled(s: Fs) {
    && (forall i :: 0 <= i < |s.inodes| ==> s.inodes[i].size <= MAXFILE * BSIZE)
    && (forall i: nat, n: nat :: i < |s.inodes| && n < MAXFILE && n * BSIZE < s.inodes[i].size ==> P(s, i, n) != 0)
  }

  /** ... and of one inode. */
  ghost predicate FilledAt(s: Fs, i: nat) {
    && i < |s.inodes| && s.inodes[i].size <= MAXFILE * BSIZE
    && forall n: nat :: n < MAXFILE && n * BSIZE < s.inodes[i].size ==> P(s, i, n) != 0
  }

  ghost predicate Wired(sb: Super, s: Fs, owner: Owners) {
    Geometry(sb, s) && Mapped(s, owner) && Owned(sb, s, owner) && Marked(sb, s, owner)
  }

  ghost predicate Sound(sb: Super, s: Fs, owner: Owners) {
    Wired(sb, s, owner) && Filled(s)
  }

  lemma FilledEach(s: Fs, i: nat)
    requires Filled(s) && i < |s.inodes|
    ensures FilledAt(s, i)
  {
    hide P;
  }

  lemma SoundParts(sb: Super, s: Fs, owner: Owners)
    requires Sound(sb, s, owner)
    ensures Wired(sb, s, owner) && Filled(s)
  { }

  lemma AddrPtr(s: Fs, i: nat, a: nat)
    requires i < |s.inodes| && a <= NDIRECT
    ensures P(s, i, if a == NDIRECT then INDIRECT else a) == s.inodes[i].addrs[a]
  { }

  // ----- single steps -----

  /** Marking and zeroing block b, as balloc does. */
  function Claim(sb: Super, s: Fs, b: nat): Fs
    requires b < |s.blocks| && BBlock(sb, b) < |s.blocks|
  {
    var m := BBlock(sb, b);
    Fs(s.blocks[m := SetMapBit(s.blocks[m], b % BPB)][b := Zero()], s.inodes)
  }

  /** Unmarking block b, as bfree does. */
  function Release(sb: Super, s: Fs, b: nat): Fs
    requires BBlock(sb, b) < |s.blocks|
  {
    var m := BBlock(sb, b);
    Fs(s.blocks[m := ClearMapBit(s.blocks[m], b % BPB)], s.inodes)
  }

  lemma BBlockIn(sb: Super, s: Fs, b: nat)
    requires Geometry(sb, s) && b < sb.size
    ensures sb.bmapstart <= BBlock(sb, b) < sb.datastart
  { }

  lemma SameBBlock(sb: Super, b: nat, c: nat)
    ensures BBlock(sb, b) == BBlock(sb, c) && b % BPB == c % BPB ==> b == c
  {
    assert b == b / BPB * BPB + b % BPB && c == c / BPB * BPB + c % BPB;
  }

  lemma ClaimBit(sb: Super, s: Fs, b: nat, c: nat)
    requires Geometry(sb, s) && sb.datastart <= b < sb.size && c < sb.size
    ensures BBlock(sb, b) < |s.blocks|
    ensures Bit(sb, Claim(sb, s, b), c) <==> c == b || Bit(sb, s, c)
  {
    BBlockIn(sb, s, b);
    BBlockIn(sb, s, c);
    SameBBlock(sb, b, c);
    MapBitSet(s.blocks[BBlock(sb, b)], b % BPB, c % BPB);
  }

  lemma ReleaseBit(sb: Super, s: Fs, b: nat, c: nat)
    requires Geometry(sb, s) && b < sb.size && c < sb.size
    ensures BBlock(sb, b) < |s.blocks|
    ensures Bit(sb, Release(sb, s, b), c) <==> c != b && Bit(sb, s, c)
  {
    BBlockIn(sb, s, b);
    BBlockIn(sb, s, c);
    SameBBlock(sb, b, c);
    MapBitCleared(s.blocks[BBlock(sb, b)], b % BPB, c % BPB);
  }

  /** Blocks that only data and free map see: changing others' blocks leaves a block map alone. */
  lemma PtrFrame(s: Fs, t: Fs, i: nat, n: nat)
    requires i < |s.inodes| == |t.inodes| && n <= INDIRECT && s.inodes[i].addrs == t.inodes[i].addrs
    requires |s.blocks| == |t.blocks|
    requires P(s, i, INDIRECT) != 0 && P(s, i, INDIRECT) < |s.blocks| ==>
      s.blocks[P(s, i, INDIRECT)] == t.blocks[P(s, i, INDIRECT)]
    ensures P(t, i, n) == P(s, i, n)
  { }

  // ----- giving a free block to an inode -----

  /** Block b can be claimed: a data block that nobody owns. */
  ghost predicate Unowned(sb: Super, owner: Owners, b: nat) {
    sb.datastart <= b < sb.size && b !in owner
  }

  function SetAddr(s: Fs, i: nat, a: nat, b: nat): Fs
    requires i < |s.inodes| && a <= NDIRECT
  {
    Fs(s.blocks, s.inodes[i := Inode(s.inodes[i].size, s.inodes[i].addrs[a := b])])
  }

  function SetSize(s: Fs, i: nat, size: nat): Fs
    requires i < |s.inodes|
  {
    Fs(s.blocks, s.inodes[i := Inode(size, s.inodes[i].addrs)])
  }

  function SetBlock(s: Fs, b: nat, data: Block): Fs
    requires b < |s.blocks|
  {
    Fs(s.blocks[b := data], s.inodes)
  }

  function StoreEntry(s: Fs, ind: nat, j: nat, b: nat): Fs
    requires ind < |s.blocks| && j < NINDIRECT && b < WORD
  {
    SetBlock(s, ind, SetEntry(s.blocks[ind], j, b))
  }

  /** Entry (j, m) of t's block maps is that of s, except that (i, n) is now b. */
  ghost predicate AssignedAt(s: Fs, t: Fs, i: nat, n: nat, b: nat, j: nat, m: nat)
    requires j < |s.inodes| == |t.inodes| && m <= INDIRECT
  {
    P(t, j, m) == if j == i && m == n then b else P(s, j, m)
  }

  ghost predicate Assigned(s: Fs, t: Fs, i: nat, n: nat, b: nat) {
    && |t.inodes| == |s.inodes| && |t.blocks| == |s.blocks|
    && (forall j :: 0 <= j < |s.inodes| ==> t.inodes[j].size == s.inodes[j].size)
    && (forall j: nat, m: nat :: j < |s.inodes| && m <= INDIRECT ==> AssignedAt(s, t, i, n, b, j, m))
  }

  /** All owned blocks but inode i's indirect block are the same in both states. */
  ghost predicate Kept(s: Fs, t: Fs, owner: Owners, i: nat) {
    && |t.blocks| == |s.blocks|
    && forall c :: c in owner && owner[c] != Owner(i, INDIRECT) ==> c < |s.blocks| && t.blocks[c] == s.blocks[c]
  }

  ghost predicate Marks(sb: Super, s: Fs, t: Fs, b: nat) {
    forall c: nat :: c < sb.size ==> (Bit(sb, t, c) <==> c == b || Bit(sb, s, c))
  }

  /** The indirect block of an inode is an owned block. */
  lemma IndirectOwned(sb: Super, s: Fs, owner: Owners, j: nat)
    requires Wired(sb, s, owner) && j < |s.inodes| && P(s, j, INDIRECT) != 0
    ensures var ind := P(s, j, INDIRECT);
      ind in owner && owner[ind] == Owner(j, INDIRECT) && sb.datastart <= ind < sb.size
  {
    var ind := P(s, j, INDIRECT);
    assert ind in owner && OwnedBy(sb, s, ind, owner[ind]);
  }

  lemma ClaimPtr(sb: Super, s: Fs, owner: Owners, b: nat, j: nat, m: nat)
    requires Wired(sb, s, owner) && Unowned(sb, owner, b) && j < |s.inodes| && m <= INDIRECT
    ensures BBlock(sb, b) < |s.blocks| && P(Claim(sb, s, b), j, m) == P(s, j, m)
  {
    BBlockIn(sb, s, b);
    if P(s, j, INDIRECT) != 0 { IndirectOwned(sb, s, owner, j); }
    hide Ptr;
    PtrFrame(s, Claim(sb, s, b), j, m);
  }

  lemma ClaimKept(sb: Super, s: Fs, owner: Owners, b: nat, i: nat)
    requires Wired(sb, s, owner) && Unowned(sb, owner, b)
    ensures BBlock(sb, b) < |s.blocks| && Kept(s, Claim(sb, s, b), owner, i)
  {
    BBlockIn(sb, s, b);
    forall c | c in owner ensures sb.datastart <= c < sb.size && c != b {
      assert OwnedBy(sb, s, c, owner[c]);
    }
  }

  lemma ClaimMarks(sb: Super, s: Fs, owner: Owners, b: nat)
    requires Wired(sb, s, owner) && Unowned(sb, owner, b)
    ensures BBlock(sb, b) < |s.blocks| && Marks(sb, s, Claim(sb, s, b), b)
  {
    BBlockIn(sb, s, b);
    forall c: nat | c < sb.size ensures Bit(sb, Claim(sb, s, b), c) <==> c == b || Bit(sb, s, c) {
      ClaimBit(sb, s, b, c);
    }
  }

  /** Claiming b and storing it in an inode's addrs. */
  lemma AssignAddr(sb: Super, s: Fs, owner: Owners, i: nat, a: nat, b: nat)
    requires Wired(sb, s, owner) && Unowned(sb, owner, b) && i < |s.inodes| && a <= NDIRECT
    requires s.inodes[i].addrs[a] == 0
    ensures BBlock(sb, b) < |s.blocks|
    ensures Assigned(s, SetAddr(Claim(sb, s, b), i, a, b), i, if a == NDIRECT then INDIRECT else a, b)
  {
    BBlockIn(sb, s, b);
    var c := Claim(sb, s, b);
    var t, n := SetAddr(c, i, a, b), if a == NDIRECT then INDIRECT else a;
    forall j: nat, m: nat | j < |s.inodes| && m <= INDIRECT ensures AssignedAt(s, t, i, n, b, j, m) {
      ClaimPtr(sb, s, owner, b, j, m);
      if j == i { SetAddrPtr(c, i, a, b, m); }
    }
  }

  lemma SetAddrPtr(c: Fs, i: nat, a: nat, b: nat, m: nat)
    requires i < |c.inodes| && a <= NDIRECT && m <= INDIRECT && c.inodes[i].addrs[a] == 0
    requires a == NDIRECT ==> b < |c.blocks| && c.blocks[b] == Zero()
    ensures P(SetAddr(c, i, a, b), i, m) == if m == (if a == NDIRECT then INDIRECT else a) then b else P(c, i, m)
  {
    if NDIRECT <= m < INDIRECT { ZeroEntry(m - NDIRECT); }
  }

  /** Claiming b and storing it in an inode's indirect block. */
  lemma AssignEntry(sb: Super, s: Fs, owner: Owners, i: nat, n: nat, b: nat)
    requires Wired(sb, s, owner) && Unowned(sb, owner, b) && i < |s.inodes| && NDIRECT <= n < MAXFILE
    requires P(s, i, INDIRECT) != 0
    ensures BBlock(sb, b) < |s.blocks| && P(s, i, INDIRECT) < |s.blocks| && b < WORD
    ensures Assigned(s, StoreEntry(Claim(sb, s, b), P(s, i, INDIRECT), n - NDIRECT, b), i, n, b)
  {
    BBlockIn(sb, s, b);
    IndirectOwned(sb, s, owner, i);
    var c, ind := Claim(sb, s, b), P(s, i, INDIRECT);
    var t := StoreEntry(c, ind, n - NDIRECT, b);
    forall j: nat, m: nat | j < |s.inodes| && m <= INDIRECT ensures AssignedAt(s, t, i, n, b, j, m) {
      ClaimPtr(sb, s, owner, b, j, m);
      ClaimPtr(sb, s, owner, b, j, INDIRECT);
      if j == i {
        StoreEntryPtr(c, i, n, b, m);
      } else {
        if P(s, j, INDIRECT) != 0 { IndirectOwned(sb, s, owner, j); }
        PtrFrame(c, t, j, m);
      }
    }
  }

  lemma StoreEntryPtr(c: Fs, i: nat, n: nat, b: nat, m: nat)
    requires i < |c.inodes| && NDIRECT <= n < MAXFILE && m <= INDIRECT && b < WORD
    requires 0 < P(c, i, INDIRECT) < |c.blocks|
    ensures P(StoreEntry(c, P(c, i, INDIRECT), n - NDIRECT, b), i, m) == if m == n then b else P(c, i, m)
  {
    if NDIRECT <= m < INDIRECT {
      EntryStored(c.blocks[P(c, i, INDIRECT)], n - NDIRECT, b, m - NDIRECT);
    }
  }

  /** Storing an owned-by-nobody block in an empty entry keeps block maps and free map tied. */
  lemma AssignWired(sb: Super, s: Fs, t: Fs, owner: Owners, i: nat, n: nat, b: nat)
    requires Wired(sb, s, owner) && Unowned(sb, owner, b) && i < |s.inodes| && n <= INDIRECT && P(s, i, n) == 0
    requires Assigned(s, t, i, n, b) && Marks(sb, s, t, b)
    ensures Wired(sb, t, owner[b := Owner(i, n)])
  {
    hide P, Bit, Ptr;
    var now := owner[b := Owner(i, n)];
    forall j: nat, m: nat | j < |t.inodes| && m <= INDIRECT && P(t, j, m) != 0
      ensures P(t, j, m) in now && now[P(t, j, m)] == Owner(j, m)
    {
      assert AssignedAt(s, t, i, n, b, j, m);
    }
    forall c | c in now ensures OwnedBy(sb, t, c, now[c]) {
      if c != b { assert OwnedBy(sb, s, c, owner[c]); }
      assert AssignedAt(s, t, i, n, b, now[c].i, now[c].n);
    }
  }

  // ----- contents -----

  /** The block under a byte of a file is owned, as a data block. */
  lemma ByteOwned(sb: Super, s: Fs, owner: Owners, i: nat, k: nat)
    requires Sound(sb, s, owner) && i < |s.inodes| && k < s.inodes[i].size
    ensures k / BSIZE < MAXFILE
    ensures var b := P(s, i, k / BSIZE); b != 0 && b in owner && owner[b] == Owner(i, k / BSIZE) && b < |s.blocks|
  {
    FilledEach(s, i);
    ByteOwnedAt(sb, s, owner, i, k);
  }

  lemma ByteOwnedAt(sb: Super, s: Fs, owner: Owners, i: nat, k: nat)
    requires Wired(sb, s, owner) && FilledAt(s, i) && k < s.inodes[i].size
    ensures k / BSIZE < MAXFILE
    ensures var b := P(s, i, k / BSIZE); b != 0 && b in owner && owner[b] == Owner(i, k / BSIZE) && b < |s.blocks|
  {
    hide P;
    var n := k / BSIZE;
    assert n * BSIZE <= k;
    assert P(s, i, n) != 0;
    assert OwnedBy(sb, s, P(s, i, n), owner[P(s, i, n)]);
  }
}
