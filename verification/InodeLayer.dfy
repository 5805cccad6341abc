/** The inode layer: the block allocator, the block map, reading, writing and truncating files, and
    the chunked file write above it.  Blocks are the logical blocks the buffer cache presents;
    every change of a block is logged. */
module InodeLayer {
  import opened Params
  import opened FsBlocks
  import opened FsState
  import opened FsSteps
  import opened FsTrunc
  import opened Dinodes

  ghost predicate NoneFree(sb: Super, s: Fs) {
    forall c: nat :: c < sb.size ==> Bit(sb, s, c)
  }

  lemma SameMap(sb: Super, b: nat, bi: nat)
    requires b % BPB == 0 && bi < BPB
    ensures BBlock(sb, b + bi) == BBlock(sb, b) && (b + bi) % BPB == bi
  { }

  lemma BitHere(sb: Super, s: Fs, b: nat, bi: nat)
    requires b % BPB == 0 && bi < BPB && BBlock(sb, b) < |s.blocks|
    ensures Bit(sb, s, b + bi) <==> MapBit(s.blocks[BBlock(sb, b)], bi)
  {
    SameMap(sb, b, bi);
  }

  class FileSystem {
    const sb: Super
    var blocks: seq<Block>
    /** The in-memory inodes. */
    var heads: seq<Head>
    var inodes: seq<Inode>
    /** The blocks that the on-disk inodes are in, from sb.inodestart on. */
    var iblocks: seq<Block>
    ghost var owner: Owners
    /** The blocks that log_write has been called on. */
    ghost var logged: set<nat>

    ghost function S(): Fs
      reads this
    {
      Fs(blocks, inodes)
    }

    /** Block maps and free map agree, files are allocated up to their size, and the disk's inodes
        are up to date. */
    ghost predicate Valid()
      reads this
    {
      Sound(sb, S(), owner) && Encodes(iblocks, heads, inodes)
    }

    /** A mounted disk with n inodes, as ilock reads them, nothing logged yet. */
    constructor (super: Super, image: seq<Block>, disk: seq<Block>, n: nat, ghost owners: Owners)
      requires n <= IPB * |disk|
      ensures sb == super && blocks == image && iblocks == disk && owner == owners && logged == {}
      ensures |inodes| == n && Encodes(disk, heads, inodes)
    {
      sb, blocks, iblocks := super, image, disk;
      heads := seq(n, i requires 0 <= i < n => DiskInode(disk, i).head);
      inodes := seq(n, i requires 0 <= i < n => DiskInode(disk, i).ino);
      owner, logged := owners, {};
    }

    /** The inner loop of balloc: the first clear bit of the map block for b and the blocks behind it. */
    method ClearBit(b: nat) returns (bi: nat)
      requires Geometry(sb, S()) && b < sb.size && b % BPB == 0
      ensures bi <= BPB && BBlock(sb, b) < |blocks|
      ensures forall c: nat :: b <= c < b + bi && c < sb.size ==> Bit(sb, S(), c)
      ensures bi < BPB && b + bi < sb.size ==> !Bit(sb, S(), b + bi)
    {
      hide MapBit;
      BBlockIn(sb, S(), b);
      var bp := BBlock(sb, b);
      bi := 0;
      while bi < BPB && b + bi < sb.size
        invariant bi <= BPB
        invariant forall c: nat :: b <= c < b + bi && c < sb.size ==> Bit(sb, S(), c)
      {
        BitHere(sb, S(), b, bi);
        if !MapBit(blocks[bp], bi) { return; }
        bi := bi + 1;
      }
    }

    /** balloc: the first free block, marked and zeroed; it fails (panics) only on a full disk. */
    method Balloc() returns (ok: bool, found: nat)
      requires Wired(sb, S(), owner)
      modifies this`blocks, this`logged
      ensures |blocks| == |old(blocks)|
      ensures ok ==> 0 < found < |blocks| && Unowned(sb, owner, found)
      ensures ok ==> BBlock(sb, found) < |old(S()).blocks| && S() == Claim(sb, old(S()), found)
      ensures ok ==> logged == old(logged) + {BBlock(sb, found), found}
      ensures ok ==> forall c: nat :: c < found ==> Bit(sb, old(S()), c)
      ensures !ok ==> S() == old(S()) && logged == old(logged) && NoneFree(sb, S())
    {
      hide Mapped, Owned, MapBit, Bit;
      var b := 0;
      while b < sb.size
        invariant b % BPB == 0 && S() == old(S()) && logged == old(logged)
        invariant forall c: nat :: c < b && c < sb.size ==> Bit(sb, S(), c)
      {
        var bi := ClearBit(b);
        if bi < BPB && b + bi < sb.size {
          SameMap(sb, b, bi);
          BBlockIn(sb, S(), b + bi);
          var bp := BBlock(sb, b);
          blocks := blocks[bp := SetMapBit(blocks[bp], bi)];
          logged := logged + {bp};
          blocks := blocks[b + bi := Zero()];
          logged := logged + {b + bi};
          return true, b + bi;
        }
        b := b + BPB;
      }
      return false, 0;
    }

    /** bfree: it fails (panics) exactly on a block that is free. */
    method Bfree(b: nat) returns (ok: bool)
      requires Geometry(sb, S()) && b < sb.size
      modifies this`blocks, this`logged
      ensures BBlock(sb, b) < |old(S()).blocks|
      ensures ok <==> Bit(sb, old(S()), b)
      ensures ok ==> S() == Release(sb, old(S()), b) && logged == old(logged) + {BBlock(sb, b)}
      ensures !ok ==> S() == old(S())
    {
      BBlockIn(sb, S(), b);
      var m, bi := BBlock(sb, b), b % BPB;
      if !MapBit(blocks[m], bi) { return false; }
      blocks := blocks[m := ClearMapBit(blocks[m], bi)];
      logged := logged + {m};
      return true;
    }

    /** ip->addrs[a] = balloc(). */
    method AllocAddr(i: nat, a: nat) returns (ok: bool, b: nat)
      requires Wired(sb, S(), owner) && i < |inodes| && a <= NDIRECT && inodes[i].addrs[a] == 0
      modifies this`blocks, this`inodes, this`owner, this`logged
      ensures |inodes| == |old(inodes)|
      ensures ok ==> b != 0 && Grown(sb, old(S()), old(owner), S(), owner, i)
      ensures ok ==> P(S(), i, if a == NDIRECT then INDIRECT else a) == b < |blocks| && blocks[b] == Zero()
      ensures ok ==> inodes[i].addrs == old(inodes[i].addrs)[a := b]
      ensures ok ==> logged == old(logged) + {BBlock(sb, b), b}
      ensures !ok ==> NoneFree(sb, S())
    {
      hide Wired, NoneFree, Extends, Kept;
      ghost var s, owner0 := S(), owner;
      ok, b := Balloc();
      if ok {
        GrowAddr(sb, s, owner, i, a, b);
        inodes := inodes[i := Inode(inodes[i].size, inodes[i].addrs[a := b])];
        owner := owner[b := Owner(i, if a == NDIRECT then INDIRECT else a)];
        assert S() == SetAddr(Claim(sb, s, b), i, a, b);
      }
    }

    /** a[bn] = balloc(); log_write(bp) on the inode's indirect block. */
    method AllocEntry(i: nat, bn: nat) returns (ok: bool, b: nat)
      requires Wired(sb, S(), owner) && i < |inodes| && NDIRECT <= bn < MAXFILE
      requires P(S(), i, INDIRECT) != 0 && P(S(), i, bn) == 0
      modifies this`blocks, this`owner, this`logged
      ensures ok ==> b != 0 && Grown(sb, old(S()), old(owner), S(), owner, i) && P(S(), i, bn) == b
      ensures ok ==> P(S(), i, INDIRECT) == P(old(S()), i, INDIRECT)
      ensures ok ==> logged == old(logged) + {BBlock(sb, b), b, P(S(), i, INDIRECT)}
      ensures !ok ==> NoneFree(sb, S())
    {
      hide Wired, NoneFree, Extends, Kept;
      ghost var s := S();
      var ind := inodes[i].addrs[NDIRECT];
      IndirectIn(sb, s, owner, i);
      ok, b := Balloc();
      if ok {
        GrowEntry(sb, s, owner, i, bn, b);
        blocks := blocks[ind := SetEntry(blocks[ind], bn - NDIRECT, b)];
        logged := logged + {ind};
        owner := owner[b := Owner(i, bn)];
        assert S() == StoreEntry(Claim(sb, s, b), ind, bn - NDIRECT, b);
      }
    }

    /** bmap: the n-th block of inode i, allocated if need be; it fails (panics) only beyond the
        largest file or on a full disk. */
    method Bmap(i: nat, bn: nat) returns (ok: bool, addr: nat, ghost bits: set<nat>)
      requires Wired(sb, S(), owner) && i < |inodes|
      modifies this`blocks, this`inodes, this`owner, this`logged
      ensures ok ==> bn < MAXFILE && Grown(sb, old(S()), old(owner), S(), owner, i) && addr == P(S(), i, bn) != 0
      ensures ok && P(old(S()), i, bn) != 0 ==>
        S() == old(S()) && owner == old(owner) && logged == old(logged) && bits == {}
      ensures |inodes| == |old(inodes)|
      ensures bn < MAXFILE && P(old(S()), i, bn) != 0 ==> ok
      ensures ok ==> BmapLogs(old(S()), S(), i, bn, old(logged), logged, bits)
      ensures !ok ==> bn >= MAXFILE || NoneFree(sb, S())
    {
      hide Wired, Extends, Kept, NoneFree;
      ghost var s0, owner0 := S(), owner;
      GrownSelf(sb, s0, owner0, i);
      bits, addr := {}, 0;
      if bn < NDIRECT {
        addr := inodes[i].addrs[bn];
        ok := true;
        if addr == 0 {
          ok, addr := AllocAddr(i, bn);
          bits := {BBlock(sb, addr)};
        }
        return;
      }
      if bn >= MAXFILE { return false, 0, bits; }
      var ind := inodes[i].addrs[NDIRECT];
      if ind == 0 {
        ok, ind := AllocAddr(i, NDIRECT);
        if !ok { return; }
        bits := {BBlock(sb, ind)};
        ZeroEntry(bn - NDIRECT);
      }
      ghost var s1, owner1 := S(), owner;
      assert P(s1, i, INDIRECT) == inodes[i].addrs[NDIRECT] == ind;
      IndirectIn(sb, s1, owner1, i);
      addr := Entry(blocks[ind], bn - NDIRECT);
      ok := true;
      if addr == 0 {
        ok, addr := AllocEntry(i, bn);
        if !ok { return; }
        bits := bits + {BBlock(sb, addr)};
        GrownTwice(sb, s0, owner0, s1, owner1, S(), owner, i);
      }
    }

    /** readi: the bytes from off on, as many as asked for and there are.  It goes through bmap,
        which never allocates for a file that is allocated up to its size, so nothing changes. */
    method Readi(i: nat, off: nat, n: nat) returns (r: int, dst: seq<Byte>)
      requires Wired(sb, S(), owner) && FilledAt(S(), i) && off < WORD && n < WORD
      modifies this`blocks, this`inodes, this`owner, this`logged
      ensures S() == old(S()) && owner == old(owner) && logged == old(logged)
      ensures off > inodes[i].size || off + n >= WORD ==> r == -1 && dst == []
      ensures off <= inodes[i].size && off + n < WORD ==>
        0 <= r == (if n < inodes[i].size - off then n else inodes[i].size - off) && dst == Content(S(), i)[off..off + r]
    {
      hide Wired, P, BmapLogs, Grown, Content;
      ghost var s, o := S(), owner;
      dst := [];
      if off > inodes[i].size || (off + n) % WORD < off { return -1, []; }
      var len := n;
      if off + n > inodes[i].size { len := inodes[i].size - off; }
      var tot := 0;
      while tot < len
        invariant tot <= len && S() == s && owner == o && logged == old(logged)
        invariant dst == Content(s, i)[off..off + tot]
      {
        var at := off + tot;
        ByteOwnedAt(sb, s, owner, i, at);
        var ok, x, _ := Bmap(i, at / BSIZE);
        var m := if len - tot < BSIZE - at % BSIZE then len - tot else BSIZE - at % BSIZE;
        ReadTurn(s, i, at, m);
        dst := dst + blocks[x][at % BSIZE..at % BSIZE + m];
        tot := tot + m;
      }
      return len, dst;
    }

    /** writei's arguments are refused. */
    ghost predicate Refuses(i: nat, off: nat, n: nat)
      requires i < |inodes|
      reads this
    {
      off > inodes[i].size || off + n >= WORD || off + n > MAXFILE * BSIZE
    }

    /** iupdate: the disk has inode i as it is in memory, and every other inode as before, those
        of the same block included. */
    method Iupdate(i: nat)
      requires i < |inodes| == |heads| <= IPB * |iblocks| && Fits(inodes[i])
      modifies this`iblocks, this`logged
      ensures |iblocks| == |old(iblocks)| && logged == old(logged) + {IBlock(sb, i)}
      ensures forall j: nat :: j / IPB < |iblocks| ==>
        DiskInode(iblocks, j) == if j == i then Dinode(heads[i], inodes[i]) else DiskInode(old(iblocks), j)
    {
      hide DiskInode, PutDinode;
      var d := Dinode(heads[i], inodes[i]);
      forall j: nat | j / IPB < |iblocks|
        ensures DiskInode(StoreInode(iblocks, i, d), j) == if j == i then d else DiskInode(iblocks, j)
      {
        InodeStored(iblocks, i, d, j);
      }
      iblocks := StoreInode(iblocks, i, d);
      logged := logged + {IBlock(sb, i)};
    }

    /** A turn of writei's loop: t and mid are the state and the log between bmap and the copy. */
    method WriteTurn(i: nat, src: seq<Byte>, off: nat, tot: nat, ghost s0: Fs)
      returns (ok: bool, m: nat, ghost more: set<nat>, ghost t: Fs, ghost mid: set<nat>)
      requires Sound(sb, S(), owner) && i < |inodes| == |s0.inodes| && off + |src| <= MAXFILE * BSIZE
      requires tot < |src| && Written(s0, S(), i, off, off + tot, src)
      modifies this`blocks, this`inodes, this`owner, this`logged
      ensures var k := (off + tot) % BSIZE; m == if |src| - tot < BSIZE - k then |src| - tot else BSIZE - k
      ensures ok ==> |inodes| == |s0.inodes| && inodes[i].size == s0.inodes[i].size
      ensures ok ==> Sound(sb, S(), owner) && Written(s0, S(), i, off, off + tot + m, src)
      ensures ok && P(old(S()), i, (off + tot) / BSIZE) != 0 ==> inodes == old(inodes)
      ensures ok ==>
        && |t.inodes| == |inodes| && BmapLogs(old(S()), t, i, (off + tot) / BSIZE, old(logged), mid, more)
        && logged == mid + {P(t, i, (off + tot) / BSIZE)} && P(S(), i, INDIRECT) == P(t, i, INDIRECT)
      ensures !ok ==> NoneFree(sb, S())
    {
      hide Sound, Wired, P, Written, Grown, NoneFree, BmapLogs, AfterTurn, Patch;
      var at := off + tot;
      m := if |src| - tot < BSIZE - at % BSIZE then |src| - tot else BSIZE - at % BSIZE;
      ghost var s, o := S(), owner;
      SoundParts(sb, s, o);
      var x;
      ok, x, more := Bmap(i, at / BSIZE);
      t, mid := S(), logged;
      if !ok { return; }
      WrittenGrown(sb, s0, s, o, t, owner, i, off, at, src);
      SameSize(s0, t, i, off, at, src);
      TurnReady(sb, t, owner, i, off, at, m, src);
      WrittenTurn(sb, s0, t, owner, i, off, at, m, src);
      blocks := blocks[x := Patch(blocks[x], at % BSIZE, src[tot..tot + m])];
      logged := logged + {x};
      TurnIs(t, S(), i, off, at, m, src);
      SoundParts(sb, t, owner);
      SamePtrs(sb, t, owner, i, at / BSIZE, blocks[x]);
    }

    /** The loop of writei.  touched are the data, free-map and indirect blocks it logs. */
    method WriteBlocks(i: nat, src: seq<Byte>, off: nat) returns (ok: bool, ghost touched: set<nat>)
      requires Sound(sb, S(), owner) && i < |inodes| && off <= inodes[i].size && off + |src| <= MAXFILE * BSIZE
      modifies this`blocks, this`inodes, this`owner, this`logged
      ensures ok ==>
        |inodes| == |old(inodes)| && Sound(sb, S(), owner) && Written(old(S()), S(), i, off, off + |src|, src)
      ensures ok && off + |src| <= old(inodes)[i].size ==> inodes == old(inodes)
      ensures logged <= old(logged) + touched
      ensures ok && |src| <= 3 * BSIZE ==> |touched| < MAXOPBLOCKS
      ensures !ok ==> NoneFree(sb, S())
    {
      hide Sound, Wired, P, Written, NoneFree, BmapLogs, WriteLogs, Turns;
      ghost var s0 := S();
      SizeIn(sb, s0, owner, i);
      WrittenNone(s0, i, off, src);
      ghost var data: set<nat>, bits: set<nat>, turns: nat := {}, {}, 0;
      ghost var ind, ind0 := P(s0, i, INDIRECT), P(s0, i, INDIRECT);
      NoTurns(off, |src|, ind0, logged);
      var tot := 0;
      while tot < |src|
        invariant tot <= |src| && |inodes| == |s0.inodes| && inodes[i].size == s0.inodes[i].size
        invariant Sound(sb, S(), owner) && Written(s0, S(), i, off, off + tot, src)
        invariant off + tot <= s0.inodes[i].size ==> inodes == s0.inodes
        invariant ind == P(S(), i, INDIRECT)
        invariant WriteLogs(ind0, ind, old(logged), logged, data, bits, turns, off % BSIZE)
        invariant Turns(off, off + tot, off + |src|, turns)
      {
        ghost var s, was, n := S(), logged, (off + tot) / BSIZE;
        Allocated(sb, s, owner, i, off + tot);
        FirstTurn(sb, s, owner, i, off + tot, off, off + |src|, turns);
        ghost var more, t, mid;
        var m;
        ok, m, more, t, mid := WriteTurn(i, src, off, tot, s0);
        if !ok { return false, logged; }
        LogsTurn(s, t, i, n, ind0, old(logged), was, mid, data, bits, more, turns, off % BSIZE);
        TurnTaken(off, off + tot, off + |src|, turns, m);
        data, bits, turns, ind := data + {P(t, i, n)}, bits + more, turns + 1, P(S(), i, INDIRECT);
        tot := tot + m;
      }
      touched := data + bits + (if ind != 0 then {ind} else {});
      LogsBound(ind0, ind, old(logged), logged, data, bits, turns, off, |src|);
      ok := true;
    }

    /** writei: the file becomes its old contents with src spliced in at off; no other file
        changes.  touched bounds what it logs: MAXOPBLOCKS blocks for up to three blocks of data. */
    method Writei(i: nat, src: seq<Byte>, off: nat) returns (ok: bool, r: int, ghost touched: set<nat>)
      requires Valid() && i < |inodes| && off < WORD && |src| < WORD
      modifies this
      ensures old(Refuses(i, off, |src|)) ==> ok && r == -1 && S() == old(S()) && logged == old(logged) && Valid()
      ensures ok && !old(Refuses(i, off, |src|)) ==> r == |src| && Valid() && Wrote(old(S()), S(), i, off, src)
      ensures ok && !old(Refuses(i, off, |src|)) ==> BytesWritten(old(S()), S(), i, off, src)
      ensures ok ==> |inodes| == |old(inodes)|
      ensures logged <= old(logged) + touched
      ensures ok && |src| <= 3 * BSIZE ==> |touched| <= MAXOPBLOCKS
      ensures !ok ==> NoneFree(sb, S())
    {
      hide Wired, Filled, P, Written, NoneFree, Content, DiskInode, Fits, BytesWritten;
      ghost var s0 := S();
      SizeIn(sb, s0, owner, i);
      if off > inodes[i].size || (off + |src|) % WORD < off { return true, -1, {}; }
      if off + |src| > MAXFILE * BSIZE { return true, -1, {}; }
      ok, touched := WriteBlocks(i, src, off);
      if !ok { return false, -1, touched; }
      ghost var s := S();
      SameSize(s0, s, i, off, off + |src|, src);
      WrittenAll(sb, s0, s, owner, i, off, src);
      if |src| > 0 && off + |src| > inodes[i].size {
        inodes := inodes[i := Inode(off + |src|, inodes[i].addrs)];
        SoundFits(sb, S(), owner, i);
        Iupdate(i);
      }
      assert S() == SetSize(s, i, SizeAfter(s.inodes[i].size, off, |src|));
      WroteBytes(s0, S(), i, off, src);
      UnionCard(touched, {IBlock(sb, i)});
      return true, |src|, touched + {IBlock(sb, i)};
    }

    /** The second half of itrunc: the blocks in the indirect block, then the indirect block. */
    method FreeIndirect(i: nat, ghost s0: Fs, ghost was: set<nat>) returns (ok: bool)
      requires Wired(sb, s0, owner) && i < |s0.inodes| == |inodes|
      requires inodes[i].addrs[NDIRECT] == s0.inodes[i].addrs[NDIRECT]
      requires Freed(sb, s0, S(), BlocksBelow(s0, i, NDIRECT))
      requires logged == was + Maps(sb, BlocksBelow(s0, i, NDIRECT))
      modifies this`blocks, this`logged
      ensures ok && Freed(sb, s0, S(), BlocksBelow(s0, i, INDIRECT + 1))
      ensures logged == was + Maps(sb, BlocksBelow(s0, i, INDIRECT + 1))
    {
      hide Wired, Freed, P, Release, Bit, BlocksBelow, Maps;
      ok := true;
      IndirectPtrs(sb, s0, owner, i);
      var ind := inodes[i].addrs[NDIRECT];
      if ind == 0 {
        BelowSkip(s0, i, NDIRECT, INDIRECT + 1);
        return;
      }
      var j := 0;
      while j < NINDIRECT
        invariant ok && j <= NINDIRECT && Freed(sb, s0, S(), BlocksBelow(s0, i, NDIRECT + j))
        invariant logged == was + Maps(sb, BlocksBelow(s0, i, NDIRECT + j))
      {
        FreedKeeps(sb, s0, S(), BlocksBelow(s0, i, NDIRECT + j), ind);
        var b := Entry(blocks[ind], j);
        assert b == P(s0, i, NDIRECT + j);
        BelowNext(s0, i, NDIRECT + j);
        if b != 0 {
          NotYetFreed(sb, s0, S(), owner, i, NDIRECT + j);
          FreeNext(sb, s0, S(), i, NDIRECT + j);
          MapsMore(sb, BlocksBelow(s0, i, NDIRECT + j), b);
          ok := Bfree(b);
        } else {
          assert BlocksBelow(s0, i, NDIRECT + j + 1) == BlocksBelow(s0, i, NDIRECT + j);
        }
        j := j + 1;
      }
      FreedKeeps(sb, s0, S(), BlocksBelow(s0, i, INDIRECT), ind);
      NotYetFreed(sb, s0, S(), owner, i, INDIRECT);
      FreeNext(sb, s0, S(), i, INDIRECT);
      BelowNext(s0, i, INDIRECT);
      MapsMore(sb, BlocksBelow(s0, i, INDIRECT), ind);
      ok := Bfree(ind);
    }

    /** The first half of itrunc: the direct blocks. */
    method FreeDirect(i: nat) returns (ok: bool)
      requires Wired(sb, S(), owner) && i < |inodes|
      modifies this`blocks, this`inodes, this`logged
      ensures ok && |inodes| == |old(inodes)| && Freed(sb, old(S()), S(), BlocksBelow(old(S()), i, NDIRECT))
      ensures inodes == old(inodes)[i := Inode(old(inodes)[i].size, inodes[i].addrs)]
      ensures forall a :: 0 <= a <= NDIRECT ==> inodes[i].addrs[a] == if a < NDIRECT then 0 else old(inodes)[i].addrs[a]
      ensures logged == old(logged) + Maps(sb, BlocksBelow(old(S()), i, NDIRECT))
    {
      hide Wired, Freed, P, Release, Bit, BlocksBelow, Maps;
      ghost var s0 := S();
      NoneFreed(sb, s0, owner, i);
      ok := true;
      var n := 0;
      while n < NDIRECT
        invariant ok && n <= NDIRECT && Freed(sb, s0, S(), BlocksBelow(s0, i, n)) && |inodes| == |s0.inodes|
        invariant inodes == s0.inodes[i := Inode(s0.inodes[i].size, inodes[i].addrs)]
        invariant forall a :: 0 <= a <= NDIRECT ==> inodes[i].addrs[a] == if a < n then 0 else s0.inodes[i].addrs[a]
        invariant logged == old(logged) + Maps(sb, BlocksBelow(s0, i, n))
      {
        AddrPtr(s0, i, n);
        BelowNext(s0, i, n);
        var b := inodes[i].addrs[n];
        if b != 0 {
          NotYetFreed(sb, s0, S(), owner, i, n);
          FreeNext(sb, s0, S(), i, n);
          FreedGeometry(sb, s0, S(), BlocksBelow(s0, i, n));
          MapsMore(sb, BlocksBelow(s0, i, n), b);
          ok := Bfree(b);
          var cleared := inodes[i := Inode(inodes[i].size, inodes[i].addrs[n := 0])];
          FreedInodes(sb, s0, S(), cleared, BlocksBelow(s0, i, n + 1));
          inodes := cleared;
        } else {
          assert BlocksBelow(s0, i, n + 1) == BlocksBelow(s0, i, n);
        }
        n := n + 1;
      }
    }

    /** itrunc: frees exactly the blocks that inode i owned, and empties it.  The panic on freeing
        a free block is out of reach (ok).  It logs the free-map blocks of what it frees and the
        inode's block. */
    method Itrunc(i: nat) returns (ok: bool)
      requires Valid() && i < |inodes|
      modifies this
      ensures ok && Valid() && owner == Without(old(owner), i) && |inodes| == |old(inodes)|
      ensures Freed(sb, old(S()), S(), BlocksOf(old(owner), i)) && S() == Emptied(old(S()), i, blocks)
      ensures Content(S(), i) == [] && logged == old(logged) + TruncLogs(sb, old(owner), i)
      ensures forall j: nat :: j < |inodes| && j != i ==>
        inodes[j] == old(inodes)[j] && Content(S(), j) == Content(old(S()), j)
    {
      hide Wired, Filled, Freed, Content, P, Release, Bit, BlocksBelow, BlocksOf, Without, Maps, DiskInode, Fits;
      ghost var s0 := S();
      ok := FreeDirect(i);
      ok := FreeIndirect(i, s0, old(logged));
      FreedInodes(sb, s0, S(), s0.inodes[i := Inode(0, seq(13, k => 0))], BlocksBelow(s0, i, INDIRECT + 1));
      BelowAll(sb, s0, owner, i);
      inodes := inodes[i := Inode(inodes[i].size, inodes[i].addrs[NDIRECT := 0])];
      inodes := inodes[i := Inode(0, inodes[i].addrs)];
      assert inodes[i].addrs == seq(13, k => 0);
      assert S() == Emptied(s0, i, blocks);
      TruncSound(sb, s0, owner, i, S());
      owner := Without(owner, i);
      SoundFits(sb, S(), owner, i);
      Iupdate(i);
    }
  }

  lemma IndirectPtrs(sb: Super, s: Fs, owner: Owners, i: nat)
    requires Wired(sb, s, owner) && i < |s.inodes|
    ensures var ind := s.inodes[i].addrs[NDIRECT];
      && P(s, i, INDIRECT) == ind
      && (ind == 0 ==> forall m: nat :: NDIRECT <= m <= INDIRECT ==> P(s, i, m) == 0)
      && (ind != 0 ==> sb.datastart <= ind < |s.blocks|)
      && (ind != 0 ==> forall j: nat :: j < NINDIRECT ==> P(s, i, NDIRECT + j) == Entry(s.blocks[ind], j))
  {
    if P(s, i, INDIRECT) != 0 { IndirectOwned(sb, s, owner, i); }
  }

  lemma FreedKeeps(sb: Super, s0: Fs, s: Fs, gone: set<nat>, b: nat)
    requires Freed(sb, s0, s, gone) && |s.inodes| == |s0.inodes| && sb.datastart <= b < |s0.blocks|
    ensures Geometry(sb, s) && b < |s.blocks| && s.blocks[b] == s0.blocks[b]
  { }

  lemma NoneFreed(sb: Super, s: Fs, owner: Owners, i: nat)
    requires Wired(sb, s, owner) && i < |s.inodes|
    ensures Freed(sb, s, s, BlocksBelow(s, i, 0)) && Maps(sb, BlocksBelow(s, i, 0)) == {}
  { }

  lemma FreedGeometry(sb: Super, s0: Fs, s: Fs, gone: set<nat>)
    requires Freed(sb, s0, s, gone) && |s.inodes| == |s0.inodes|
    ensures Geometry(sb, s)
  { }

  lemma FreedInodes(sb: Super, s0: Fs, s: Fs, inodes: seq<Inode>, gone: set<nat>)
    requires Freed(sb, s0, s, gone)
    ensures Freed(sb, s0, Fs(s.blocks, inodes), gone)
  {
    forall c: nat | c < sb.size ensures Bit(sb, Fs(s.blocks, inodes), c) <==> Bit(sb, s, c) { }
  }

  /** t is s with src written into file i at off. */
  ghost predicate Wrote(s: Fs, t: Fs, i: nat, off: nat, src: seq<Byte>) {
    && Filled(s) && Filled(t) && i < |s.inodes| == |t.inodes| && off <= s.inodes[i].size
    && Content(t, i) == Spliced(Content(s, i), off, src)
    && forall j: nat :: j < |s.inodes| && j != i ==> t.inodes[j] == s.inodes[j] && Content(t, j) == Content(s, j)
  }

  /** Byte by byte: file i has grown to hold src at off, or kept its size, and no other byte of it has
      changed. */
  ghost predicate BytesWritten(s: Fs, t: Fs, i: nat, off: nat, src: seq<Byte>) {
    && i < |s.inodes| == |t.inodes| && s.inodes[i].size <= MAXFILE * BSIZE && t.inodes[i].size <= MAXFILE * BSIZE
    && t.inodes[i].size == (if off + |src| > s.inodes[i].size then off + |src| else s.inodes[i].size)
    && forall k: nat :: k < t.inodes[i].size && (off <= k < off + |src| || k < s.inodes[i].size) ==>
         ByteAt(t, i, k) == if off <= k < off + |src| then src[k - off] else ByteAt(s, i, k)
  }

  lemma WroteBytes(s: Fs, t: Fs, i: nat, off: nat, src: seq<Byte>)
    requires Wrote(s, t, i, off, src)
    ensures BytesWritten(s, t, i, off, src)
  {
    SplicedBytes(Content(s, i), off, src);
    hide P, Spliced, ByteAt;
    forall k: nat | k < t.inodes[i].size && (off <= k < off + |src| || k < s.inodes[i].size)
      ensures ByteAt(t, i, k) == if off <= k < off + |src| then src[k - off] else ByteAt(s, i, k)
    {
      assert ByteAt(t, i, k) == Content(t, i)[k];
      if k < s.inodes[i].size { assert ByteAt(s, i, k) == Content(s, i)[k]; }
    }
  }

  /** A turn of readi's loop copies the next m bytes. */
  lemma ReadTurn(s: Fs, i: nat, at: nat, m: nat)
    requires i < |s.inodes| && at + m <= s.inodes[i].size <= MAXFILE * BSIZE && 0 < m <= BSIZE - at % BSIZE
    requires P(s, i, at / BSIZE) < |s.blocks|
    ensures Content(s, i)[at..at + m] == s.blocks[P(s, i, at / BSIZE)][at % BSIZE..at % BSIZE + m]
  {
    hide P;
    forall k | at <= k < at + m ensures Content(s, i)[k] == s.blocks[P(s, i, at / BSIZE)][at % BSIZE + (k - at)] {
      SameBlock(at, m, k);
    }
  }

  // ----- how much a write logs -----

  /** After some turns of writei's loop: the data blocks and free-map blocks logged, and the
      indirect block if there is one; lead tells whether the write began inside a block. */
  ghost predicate WriteLogs(ind0: nat, ind: nat, before: set<nat>, after: set<nat>, data: set<nat>, bits: set<nat>,
                            turns: nat, lead: nat) {
    && after <= before + data + bits + (if ind != 0 then {ind} else {})
    && |data| <= turns && (ind0 != 0 ==> ind == ind0)
    && |bits| <= turns - (if turns > 0 && lead != 0 then 1 else 0) + (if ind0 == 0 && ind != 0 then 1 else 0)
  }

  /** How many turns it takes to get from off to at, on the way to end. */
  ghost predicate Turns(off: nat, at: nat, end: nat, turns: nat) {
    var base := off - off % BSIZE;
    && (turns == 0 ==> at == off)
    && (turns > 0 ==> (turns - 1) * BSIZE < at - base <= turns * BSIZE)
    && (turns > 0 && at < end ==> at - base == turns * BSIZE)
  }

  lemma TurnTaken(off: nat, at: nat, end: nat, turns: nat, m: nat)
    requires Turns(off, at, end, turns) && at < end
    requires m == if end - at < BSIZE - at % BSIZE then end - at else BSIZE - at % BSIZE
    ensures Turns(off, at + m, end, turns + 1)
  {
    var base := off - off % BSIZE;
    assert base % BSIZE == 0;
    if turns > 0 { assert at == base + turns * BSIZE; assert at % BSIZE == 0; }
  }

  /** A write that begins inside a block finds that block allocated. */
  lemma FirstTurn(sb: Super, s: Fs, owner: Owners, i: nat, at: nat, off: nat, end: nat, turns: nat)
    requires Sound(sb, s, owner) && i < |s.inodes| && off <= s.inodes[i].size && at / BSIZE < MAXFILE
    requires Turns(off, at, end, turns)
    ensures turns == 0 && off % BSIZE != 0 ==> P(s, i, at / BSIZE) != 0
  {
    hide P, Wired;
    if turns == 0 && off % BSIZE != 0 { assert off / BSIZE * BSIZE < off; }
  }

  lemma Allocated(sb: Super, s: Fs, owner: Owners, i: nat, at: nat)
    requires Sound(sb, s, owner) && i < |s.inodes| && at / BSIZE < MAXFILE
    ensures at < s.inodes[i].size ==> P(s, i, at / BSIZE) != 0
  {
    if at < s.inodes[i].size { ByteOwned(sb, s, owner, i, at); }
  }

  lemma SameSize(s0: Fs, s: Fs, i: nat, off0: nat, off: nat, src: seq<Byte>)
    requires i < |s0.inodes| && Written(s0, s, i, off0, off, src)
    ensures |s.inodes| == |s0.inodes| && s.inodes[i].size == s0.inodes[i].size
  { }

  lemma TurnReady(sb: Super, s: Fs, owner: Owners, i: nat, off0: nat, off: nat, m: nat, src: seq<Byte>)
    requires Sound(sb, s, owner) && i < |s.inodes| && off0 <= off < off0 + |src| <= MAXFILE * BSIZE
    requires m == if off0 + |src| - off < BSIZE - off % BSIZE then off0 + |src| - off else BSIZE - off % BSIZE
    requires P(s, i, off / BSIZE) != 0
    ensures Turn(s, i, off0, off, m, src)
  {
    hide P;
    var b := P(s, i, off / BSIZE);
    assert OwnedBy(sb, s, b, owner[b]);
  }

  lemma TurnIs(s: Fs, t: Fs, i: nat, off0: nat, off: nat, m: nat, src: seq<Byte>)
    requires Turn(s, i, off0, off, m, src) && t.inodes == s.inodes
    requires var x := P(s, i, off / BSIZE);
      t.blocks == s.blocks[x := Patch(s.blocks[x], off % BSIZE, src[off - off0..off - off0 + m])]
    ensures t == AfterTurn(s, i, off0, off, m, src)
  { }

  lemma NoTurns(off: nat, n: nat, ind: nat, logged: set<nat>)
    ensures Turns(off, off, off + n, 0) && WriteLogs(ind, ind, logged, logged, {}, {}, 0, off % BSIZE)
  { }

  lemma LogsTurn(s: Fs, t: Fs, i: nat, bn: nat, ind0: nat, before: set<nat>, mid: set<nat>, after: set<nat>,
                 data: set<nat>, bits: set<nat>, more: set<nat>, turns: nat, lead: nat)
    requires i < |s.inodes| == |t.inodes| && bn < MAXFILE && BmapLogs(s, t, i, bn, mid, after, more)
    requires WriteLogs(ind0, P(s, i, INDIRECT), before, mid, data, bits, turns, lead)
    requires turns == 0 && lead != 0 ==> P(s, i, bn) != 0
    ensures WriteLogs(ind0, P(t, i, INDIRECT), before, after + {P(t, i, bn)},
                      data + {P(t, i, bn)}, bits + more, turns + 1, lead)
  {
    hide P;
    UnionCard(data, {P(t, i, bn)});
    UnionCard(bits, more);
  }

  lemma UnionCard(a: set<nat>, b: set<nat>)
    ensures |a + b| <= |a| + |b|
  {
    assert a + b == a + (b - a);
    assert |b| == |b - a| + |a * b| by { assert b == (b - a) + a * b; }
  }

  /** Up to four data blocks, four free-map blocks and one indirect block. */
  lemma LogsBound(ind0: nat, ind: nat, before: set<nat>, after: set<nat>, data: set<nat>, bits: set<nat>, turns: nat,
                  off: nat, n: nat)
    requires WriteLogs(ind0, ind, before, after, data, bits, turns, off % BSIZE) && Turns(off, off + n, off + n, turns)
    ensures var touched := data + bits + (if ind != 0 then {ind} else {});
      after <= before + touched && (n <= 3 * BSIZE ==> |touched| < MAXOPBLOCKS)
  {
    var i := if ind != 0 then {ind} else {};
    UnionCard(data, bits);
    UnionCard(data + bits, i);
    if n <= 3 * BSIZE && turns > 0 {
      assert (turns - 1) * BSIZE < off % BSIZE + n;
      assert turns <= 4 && (off % BSIZE == 0 ==> turns <= 3);
    }
  }

  lemma SamePtrs(sb: Super, s: Fs, owner: Owners, i: nat, n: nat, data: Block)
    requires Wired(sb, s, owner) && i < |s.inodes| && n < MAXFILE && P(s, i, n) != 0
    ensures P(s, i, n) < |s.blocks| && P(SetBlock(s, P(s, i, n), data), i, INDIRECT) == P(s, i, INDIRECT)
  {
    WriteWired(sb, s, owner, i, n, data);
  }

  lemma SizeIn(sb: Super, s: Fs, owner: Owners, i: nat)
    requires Sound(sb, s, owner) && i < |s.inodes|
    ensures s.inodes[i].size <= MAXFILE * BSIZE
  { }

  lemma IndirectIn(sb: Super, s: Fs, owner: Owners, i: nat)
    requires Wired(sb, s, owner) && i < |s.inodes| && P(s, i, INDIRECT) != 0
    ensures P(s, i, INDIRECT) < |s.blocks|
  {
    IndirectOwned(sb, s, owner, i);
  }

  /** What bmap logs: nothing for a block that is there; else the new block, the indirect block it
      is entered in, and the free-map blocks bits: one, or two if the indirect block is new. */
  ghost predicate BmapLogs(s: Fs, t: Fs, i: nat, bn: nat, before: set<nat>, after: set<nat>, bits: set<nat>)
    requires i < |s.inodes| == |t.inodes| && bn < MAXFILE
  {
    var missing := P(s, i, bn) == 0;
    var ind := P(t, i, INDIRECT);
    && after <= before + bits + (if missing then {P(t, i, bn)} else {})
                + (if missing && bn >= NDIRECT then {ind} else {})
    && |bits| <= (if missing then 1 else 0) + (if P(s, i, INDIRECT) == 0 && ind != 0 then 1 else 0)
    && (bn >= NDIRECT ==> ind != 0) && (P(s, i, INDIRECT) != 0 || bn < NDIRECT ==> ind == P(s, i, INDIRECT))
  }
}
