/** What freeing an inode's blocks one by one does to block maps, free map and files. */
module FsTrunc {
  import opened Params
  import opened FsBlocks
  import opened FsState
  import opened FsSteps

  /** The blocks in the first k entries of inode i's block map. */
  ghost function BlocksBelow(s: Fs, i: nat, k: nat): set<nat>
    requires i < |s.inodes| && k <= INDIRECT + 1
  {
    set n | 0 <= n < k && P(s, i, n) != 0 :: P(s, i, n)
  }

  /** All blocks of inode i, as the owners see them. */
  ghost function BlocksOf(owner: Owners, i: nat): set<nat> {
    set b | b in owner && owner[b].i == i
  }

  ghost function Without(owner: Owners, i: nat): Owners {
    map b | b in owner && owner[b].i != i :: owner[b]
  }

  /** The free-map blocks that a set of blocks has its bits in. */
  ghost function Maps(sb: Super, gone: set<nat>): set<nat> {
    set b | b in gone :: BBlock(sb, b)
  }

  lemma MapsMore(sb: Super, gone: set<nat>, b: nat)
    ensures Maps(sb, gone + {b}) == Maps(sb, gone) + {BBlock(sb, b)}
  { }

  /** What truncating inode i logs. */
  ghost function TruncLogs(sb: Super, owner: Owners, i: nat): set<nat> {
    Maps(sb, BlocksOf(owner, i)) + {IBlock(sb, i)}
  }

  /** Truncating stays within an operation's share of the log exactly when the file's blocks have
      their bits in fewer than MAXOPBLOCKS blocks of the free map; always, when the free map has no
      more blocks than that. */
  lemma TruncWithinOp(sb: Super, s: Fs, owner: Owners, i: nat)
    requires Wired(sb, s, owner) && i < |s.inodes|
    ensures |TruncLogs(sb, owner, i)| <= MAXOPBLOCKS <==> |Maps(sb, BlocksOf(owner, i))| < MAXOPBLOCKS
    ensures sb.size <= (MAXOPBLOCKS - 1) * BPB ==> |TruncLogs(sb, owner, i)| <= MAXOPBLOCKS
  {
    hide P, Bit;
    var maps := Maps(sb, BlocksOf(owner, i));
    forall m | m in maps ensures sb.bmapstart <= m <= sb.bmapstart + (sb.size - 1) / BPB {
      var b :| b in BlocksOf(owner, i) && m == BBlock(sb, b);
      assert OwnedBy(sb, s, b, owner[b]);
    }
    assert IBlock(sb, i) !in maps;
    SpanCard(maps, sb.bmapstart, (sb.size - 1) / BPB + 1);
  }

  lemma {:induction false} SpanCard(x: set<nat>, from: nat, n: nat)
    requires forall m :: m in x ==> from <= m < from + n
    ensures |x| <= n
  {
    if n == 0 {
      assert x == {};
    } else {
      SpanCard(x - {from + n - 1}, from, n - 1);
    }
  }

  /** From s0 to s exactly the blocks in gone have been freed. */
  ghost predicate Freed(sb: Super, s0: Fs, s: Fs, gone: set<nat>) {
    && Geometry(sb, s0) && |s.blocks| == |s0.blocks|
    && (forall c: nat :: sb.datastart <= c < sb.size ==> s.blocks[c] == s0.blocks[c])
    && (forall c: nat :: c < sb.size ==> (Bit(sb, s, c) <==> Bit(sb, s0, c) && c !in gone))
  }

  /** The next block is allocated and not yet freed, so bfree does not panic on it. */
  lemma NotYetFreed(sb: Super, s0: Fs, s: Fs, owner: Owners, i: nat, k: nat)
    requires Wired(sb, s0, owner) && i < |s0.inodes| && k <= INDIRECT && P(s0, i, k) != 0
    requires Freed(sb, s0, s, BlocksBelow(s0, i, k))
    ensures P(s0, i, k) < sb.size && Bit(sb, s, P(s0, i, k))
  {
    hide P, Bit;
    var b := P(s0, i, k);
    assert OwnedBy(sb, s0, b, owner[b]);
    forall n: nat | n < k && P(s0, i, n) != 0 ensures P(s0, i, n) != b {
      assert owner[P(s0, i, n)] == Owner(i, n);
    }
  }

  lemma FreeNext(sb: Super, s0: Fs, s: Fs, i: nat, k: nat)
    requires i < |s0.inodes| && |s.inodes| == |s0.inodes| && k <= INDIRECT && P(s0, i, k) < sb.size && P(s0, i, k) != 0
    requires Freed(sb, s0, s, BlocksBelow(s0, i, k))
    ensures BBlock(sb, P(s0, i, k)) < |s.blocks|
    ensures Freed(sb, s0, Release(sb, s, P(s0, i, k)), BlocksBelow(s0, i, k + 1))
  {
    hide P, Bit;
    var b := P(s0, i, k);
    var t := Fs(s.blocks, s0.inodes);
    BBlockIn(sb, s0, b);
    BelowNext(s0, i, k);
    forall c: nat | c < sb.size ensures Bit(sb, Release(sb, s, b), c) <==> c != b && Bit(sb, s, c) {
      ReleaseBit(sb, s, b, c);
    }
  }

  lemma BelowNext(s: Fs, i: nat, k: nat)
    requires i < |s.inodes| && k <= INDIRECT
    ensures BlocksBelow(s, i, k + 1) == BlocksBelow(s, i, k) + if P(s, i, k) != 0 then {P(s, i, k)} else {}
  {
    hide P;
    forall b | b in BlocksBelow(s, i, k + 1) ensures b in BlocksBelow(s, i, k) || (P(s, i, k) != 0 && b == P(s, i, k)) {
      var n: nat :| n < k + 1 && P(s, i, n) != 0 && b == P(s, i, n);
      if n < k { assert P(s, i, n) in BlocksBelow(s, i, k); }
    }
    forall b | b in BlocksBelow(s, i, k) ensures b in BlocksBelow(s, i, k + 1) {
      var n: nat :| n < k && P(s, i, n) != 0 && b == P(s, i, n);
    }
    if P(s, i, k) != 0 { assert P(s, i, k) in BlocksBelow(s, i, k + 1); }
  }

  /** Entries that are empty free nothing. */
  lemma {:induction false} BelowSkip(s: Fs, i: nat, k: nat, n: nat)
    requires i < |s.inodes| && k <= n <= INDIRECT + 1
    requires forall m: nat :: k <= m < n ==> P(s, i, m) == 0
    ensures BlocksBelow(s, i, n) == BlocksBelow(s, i, k)
    decreases n - k
  {
    hide P;
    if k < n {
      BelowSkip(s, i, k, n - 1);
      BelowNext(s, i, n - 1);
    }
  }

  lemma BelowAll(sb: Super, s: Fs, owner: Owners, i: nat)
    requires Wired(sb, s, owner) && i < |s.inodes|
    ensures BlocksBelow(s, i, INDIRECT + 1) == BlocksOf(owner, i)
  {
    hide P;
    forall b | b in BlocksOf(owner, i) ensures b in BlocksBelow(s, i, INDIRECT + 1) {
      assert OwnedBy(sb, s, b, owner[b]);
      assert P(s, i, owner[b].n) == b;
    }
  }

  /** The empty inode. */
  function Emptied(s: Fs, i: nat, blocks: seq<Block>): Fs
    requires i < |s.inodes|
  {
    Fs(blocks, s.inodes[i := Inode(0, seq(13, k => 0))])
  }

  lemma TruncPtr(sb: Super, s0: Fs, owner: Owners, i: nat, blocks: seq<Block>, j: nat, m: nat)
    requires Wired(sb, s0, owner) && i < |s0.inodes| && j < |s0.inodes| && m <= INDIRECT
    requires |blocks| == |s0.blocks| && forall c: nat :: sb.datastart <= c < sb.size ==> blocks[c] == s0.blocks[c]
    ensures P(Emptied(s0, i, blocks), j, m) == if j == i then 0 else P(s0, j, m)
  {
    var t := Emptied(s0, i, blocks);
    if j != i {
      if P(s0, j, INDIRECT) != 0 { IndirectOwned(sb, s0, owner, j); }
      PtrFrame(s0, t, j, m);
    }
  }

  lemma TruncWired(sb: Super, s0: Fs, owner: Owners, i: nat, s: Fs)
    requires Wired(sb, s0, owner) && i < |s0.inodes| && Freed(sb, s0, s, BlocksOf(owner, i))
    requires s == Emptied(s0, i, s.blocks)
    ensures Wired(sb, s, Without(owner, i))
  {
    hide P, Bit;
    var now := Without(owner, i);
    forall j: nat, m: nat | j < |s.inodes| && m <= INDIRECT && P(s, j, m) != 0
      ensures P(s, j, m) in now && now[P(s, j, m)] == Owner(j, m)
    {
      TruncPtr(sb, s0, owner, i, s.blocks, j, m);
    }
    forall c | c in now ensures OwnedBy(sb, s, c, now[c]) {
      assert OwnedBy(sb, s0, c, owner[c]);
      TruncPtr(sb, s0, owner, i, s.blocks, owner[c].i, owner[c].n);
    }
    forall b | 0 <= b < sb.size ensures Bit(sb, s, b) <==> b < sb.datastart || b in now {
      if b in owner { assert OwnedBy(sb, s0, b, owner[b]); }
      assert b in BlocksOf(owner, i) <==> b in owner && owner[b].i == i;
    }
  }

  /** A truncated inode is empty, exactly its blocks are free again, and other files are intact. */
  lemma TruncSound(sb: Super, s0: Fs, owner: Owners, i: nat, s: Fs)
    requires Sound(sb, s0, owner) && i < |s0.inodes| && Freed(sb, s0, s, BlocksOf(owner, i))
    requires s == Emptied(s0, i, s.blocks)
    ensures Sound(sb, s, Without(owner, i)) && Content(s, i) == []
    ensures forall j: nat :: j < |s.inodes| && j != i ==> s.inodes[j] == s0.inodes[j] && Content(s, j) == Content(s0, j)
  {
    hide P, Wired, Bit;
    TruncWired(sb, s0, owner, i, s);
    forall j: nat, m: nat | j < |s.inodes| && m < MAXFILE && m * BSIZE < s.inodes[j].size ensures P(s, j, m) != 0 {
      TruncPtr(sb, s0, owner, i, s.blocks, j, m);
      assert P(s0, j, m) != 0;
    }
    forall j: nat | j < |s.inodes| && j != i ensures s.inodes[j] == s0.inodes[j] && Content(s, j) == Content(s0, j) {
      forall k: nat | k < s0.inodes[j].size ensures ByteAt(s, j, k) == ByteAt(s0, j, k) {
        TruncByte(sb, s0, owner, i, s, j, k);
      }
    }
  }

  lemma TruncByte(sb: Super, s0: Fs, owner: Owners, i: nat, s: Fs, j: nat, k: nat)
    requires Sound(sb, s0, owner) && i < |s0.inodes| && Freed(sb, s0, s, BlocksOf(owner, i))
    requires s == Emptied(s0, i, s.blocks)
    requires j < |s0.inodes| && j != i && k < s0.inodes[j].size
    ensures k < MAXFILE * BSIZE && ByteAt(s, j, k) == ByteAt(s0, j, k)
  {
    hide P, Bit;
    ByteOwned(sb, s0, owner, j, k);
    var b := P(s0, j, k / BSIZE);
    assert OwnedBy(sb, s0, b, owner[b]);
    TruncPtr(sb, s0, owner, i, s.blocks, j, k / BSIZE);
  }
}
