/** The image builder: inodes grow by appending, blocks come from a counter, and the free map is
    written last.  The image is compared with the kernel's view of it throughout: V is the image as
    it would be if the free map were written now. */
module Mkfs {
  import opened Params
  import opened FsBlocks
  import opened FsState
  import opened FsSteps
  import opened Dinodes

  const NINODES: nat := 200

  /** Inode blocks. */
  const IBLOCKS: nat := NINODES / IPB + 1

  /** nmeta blocks: boot, super, 30 of log, 26 of inodes, 1 of free map. */
  const SB := Super(FSSIZE, 32, 58, 59)

  /** Boot block, superblock, log, inodes, free map. */
  lemma SuperLayout()
    ensures IBLOCKS == NINODES / IPB + 1 && SB.size == FSSIZE && SB.inodestart == 2 + LOGSIZE
    ensures SB.bmapstart == SB.inodestart + IBLOCKS && SB.datastart == SB.bmapstart + FSSIZE / BPB + 1
  { }

  function Empty(): Inode { Inode(0, seq(13, i => 0)) }

  // ----- the free map -----

  /** The free-map block with the first used bits set, as balloc builds it. */
  function UsedMap(used: nat): Block
    requires used <= BPB
  {
    if used == 0 then Zero() else SetMapBit(UsedMap(used - 1), used - 1)
  }

  lemma {:induction false} ZeroBits(x: nat, k: nat)
    requires x == 0
    ensures !BitOf(x, k)
  {
    if k > 0 { ZeroBits(x / 2, k - 1); }
  }

  lemma {:induction false} UsedBits(used: nat, c: nat)
    requires used <= BPB && c < BPB
    ensures MapBit(UsedMap(used), c) <==> c < used
  {
    if used == 0 {
      ZeroBits(Zero()[c / 8], c % 8);
    } else {
      UsedBits(used - 1, c);
      MapBitSet(UsedMap(used - 1), used - 1, c);
    }
  }

  /** balloc: writes the block that marks exactly the first used blocks. */
  method UsedMapBlock(used: nat) returns (buf: Block)
    requires used < BPB
    ensures buf == UsedMap(used) && forall c: nat :: c < BPB ==> (MapBit(buf, c) <==> c < used)
  {
    buf := Zero();
    var i := 0;
    while i < used
      invariant i <= used && buf == UsedMap(i)
    {
      buf := buf[i / 8 := OrBit(buf[i / 8], i % 8)];
      i := i + 1;
    }
    forall c: nat | c < BPB ensures MapBit(buf, c) <==> c < used { UsedBits(used, c); }
  }

  // ----- the image as the kernel would see it -----

  ghost function View(blocks: seq<Block>, free: nat, inodes: seq<Inode>): Fs
    requires |blocks| == FSSIZE && free <= FSSIZE
  {
    Fs(blocks[SB.bmapstart := UsedMap(free)], inodes)
  }

  ghost predicate Blank(blocks: seq<Block>, free: nat) {
    forall b :: free <= b < |blocks| ==> blocks[b] == Zero()
  }

  lemma ViewBit(blocks: seq<Block>, free: nat, inodes: seq<Inode>, c: nat)
    requires |blocks| == FSSIZE && free <= FSSIZE && c < FSSIZE
    ensures Bit(SB, View(blocks, free, inodes), c) <==> c < free
  {
    UsedBits(free, c);
  }

  /** Taking the next block off the counter is what the kernel's allocator would do. */
  lemma TakeIsClaim(blocks: seq<Block>, free: nat, inodes: seq<Inode>, owner: Owners)
    requires |blocks| == FSSIZE && SB.datastart <= free < FSSIZE && Blank(blocks, free)
    requires Wired(SB, View(blocks, free, inodes), owner)
    ensures Unowned(SB, owner, free) && BBlock(SB, free) == SB.bmapstart
    ensures Claim(SB, View(blocks, free, inodes), free) == View(blocks, free + 1, inodes)
  {
    ViewBit(blocks, free, inodes, free);
    var v := View(blocks, free, inodes);
    assert Marked(SB, v, owner) && !Bit(SB, v, free);
    assert v.blocks[free] == Zero();
    assert Claim(SB, v, free).blocks == View(blocks, free + 1, inodes).blocks;
  }

  // ----- nothing beyond a file's end -----

  /** File i has no block at or above byte end (but perhaps the next one, if open), and only zeros
      from end on. */
  ghost predicate Ends(s: Fs, i: nat, end: nat, open: bool)
    requires i < |s.inodes|
  {
    && (forall n: nat :: n < MAXFILE && P(s, i, n) != 0 ==> n * BSIZE < end || (open && n == end / BSIZE))
    && (forall k: nat :: end <= k < MAXFILE * BSIZE && P(s, i, k / BSIZE) != 0 ==> ByteAt(s, i, k) == 0)
  }

  ghost predicate OthersEnd(s: Fs, i: nat) {
    forall j: nat :: j < |s.inodes| && j != i ==> Ends(s, j, s.inodes[j].size, false)
  }

  /** One new block, for entry n of inode i's block map. */
  ghost predicate Took(s: Fs, owner: Owners, t: Fs, owner2: Owners, i: nat, n: nat, b: nat) {
    && i < |s.inodes| && n <= INDIRECT && P(s, i, n) == 0 && 0 < b < |t.blocks| && t.blocks[b] == Zero()
    && Wired(SB, s, owner) && Grown(SB, s, owner, t, owner2, i) && Assigned(s, t, i, n, b)
  }

  lemma TookEnds(s: Fs, owner: Owners, t: Fs, owner2: Owners, i: nat, n: nat, b: nat, end: nat)
    requires Took(s, owner, t, owner2, i, n, b) && Ends(s, i, end, false) && (n == INDIRECT || n == end / BSIZE)
    ensures Ends(t, i, end, n != INDIRECT)
  {
    hide P, Wired;
    forall m: nat | m < MAXFILE && P(t, i, m) != 0 ensures m * BSIZE < end || (n != INDIRECT && m == end / BSIZE) {
      assert AssignedAt(s, t, i, n, b, i, m);
    }
    forall k: nat | end <= k < MAXFILE * BSIZE && P(t, i, k / BSIZE) != 0 ensures ByteAt(t, i, k) == 0 {
      assert AssignedAt(s, t, i, n, b, i, k / BSIZE);
      if k / BSIZE != n { GrownByte(SB, s, owner, t, owner2, i, i, k); }
    }
  }

  lemma TookOthers(s: Fs, owner: Owners, t: Fs, owner2: Owners, i: nat, n: nat, b: nat)
    requires Took(s, owner, t, owner2, i, n, b) && OthersEnd(s, i)
    ensures OthersEnd(t, i)
  {
    hide P, Wired;
    forall j: nat | j < |t.inodes| && j != i ensures Ends(t, j, t.inodes[j].size, false) {
      assert Ends(s, j, s.inodes[j].size, false);
      TookOther(s, owner, t, owner2, i, n, b, j, s.inodes[j].size);
    }
  }

  lemma TookOther(s: Fs, owner: Owners, t: Fs, owner2: Owners, i: nat, n: nat, b: nat, j: nat, end: nat)
    requires Took(s, owner, t, owner2, i, n, b) && j < |s.inodes| && j != i && Ends(s, j, end, false)
    ensures Ends(t, j, end, false)
  {
    hide P, Wired;
    forall m: nat | m < MAXFILE && P(t, j, m) != 0 ensures m * BSIZE < end {
      assert AssignedAt(s, t, i, n, b, j, m);
    }
    forall k: nat | end <= k < MAXFILE * BSIZE && P(t, j, k / BSIZE) != 0 ensures ByteAt(t, j, k) == 0 {
      assert AssignedAt(s, t, i, n, b, j, k / BSIZE);
      GrownByte(SB, s, owner, t, owner2, i, j, k);
    }
  }

  /** A turn of the loop moves the end past the bytes it wrote. */
  lemma TurnEnds(s: Fs, owner: Owners, i: nat, off0: nat, off: nat, m: nat, src: seq<Byte>)
    requires Wired(SB, s, owner) && Turn(s, i, off0, off, m, src) && Ends(s, i, off, true)
    ensures Ends(AfterTurn(s, i, off0, off, m, src), i, off + m, false)
  {
    hide P, Wired, TurnData;
    var t := AfterTurn(s, i, off0, off, m, src);
    WriteWired(SB, s, owner, i, off / BSIZE, TurnData(s, i, off0, off, m, src));
    forall k: nat | off + m <= k < MAXFILE * BSIZE && P(t, i, k / BSIZE) != 0 ensures ByteAt(t, i, k) == 0 {
      TurnByte(SB, s, owner, i, off0, off, m, src, k);
    }
  }

  lemma TurnOthers(s: Fs, owner: Owners, i: nat, off0: nat, off: nat, m: nat, src: seq<Byte>)
    requires Wired(SB, s, owner) && Turn(s, i, off0, off, m, src) && OthersEnd(s, i)
    ensures OthersEnd(AfterTurn(s, i, off0, off, m, src), i)
  {
    hide P, Wired, TurnData;
    var data := TurnData(s, i, off0, off, m, src);
    var t := AfterTurn(s, i, off0, off, m, src);
    forall j: nat | j < |t.inodes| && j != i ensures Ends(t, j, t.inodes[j].size, false) {
      var end := s.inodes[j].size;
      assert Ends(s, j, end, false);
      WriteWired(SB, s, owner, i, off / BSIZE, data);
      forall k: nat | end <= k < MAXFILE * BSIZE && P(t, j, k / BSIZE) != 0 ensures ByteAt(t, j, k) == 0 {
        WriteByte(SB, s, owner, i, off / BSIZE, data, j, k);
      }
    }
  }

  // ----- the program -----

  datatype Append = Append(inum: nat, bytes: seq<Byte>)

  /** Each file is the concatenation of what was appended to it. */
  ghost function Appended(files: seq<seq<Byte>>, appends: seq<Append>): seq<seq<Byte>> {
    seq(|files|, i requires 0 <= i < |files| => files[i] + BytesFor(appends, i))
  }

  function BytesFor(appends: seq<Append>, i: nat): seq<Byte> {
    if appends == [] then []
    else
      var last := |appends| - 1;
      BytesFor(appends[..last], i) + if appends[last].inum == i then appends[last].bytes else []
  }

  /** What a run of appends adds to file i: its own bytes, in order. */
  lemma {:induction false} BytesForLaws(a: seq<Append>, b: seq<Append>, x: Append, i: nat)
    ensures BytesFor(a + b, i) == BytesFor(a, i) + BytesFor(b, i)
    ensures BytesFor([x], i) == if x.inum == i then x.bytes else []
    decreases |b|
  {
    assert [x][..0] == [];
    if b == [] {
      assert a + b == a;
    } else {
      var n := |b| - 1;
      assert (a + b)[..|a + b| - 1] == a + b[..n] && (a + b)[|a + b| - 1] == b[n];
      BytesForLaws(a, b[..n], x, i);
    }
  }

  /** More blocks than these appends can take. */
  function Needed(appends: seq<Append>): nat {
    if appends == [] then 0
    else
      var last := |appends| - 1;
      Needed(appends[..last]) + 2 * (|appends[last].bytes| / BSIZE + 2)
  }

  /** The k-th append makes its file longer than a file can be. */
  ghost predicate TooLong(files: seq<seq<Byte>>, appends: seq<Append>, k: nat) {
    && k < |appends| && appends[k].inum < |files|
    && |Appended(files, appends[..k + 1])[appends[k].inum]| > MAXFILE * BSIZE
  }

  lemma {:induction false} NeededMore(appends: seq<Append>, k: nat)
    requires k < |appends|
    ensures Needed(appends[..k + 1]) == Needed(appends[..k]) + 2 * (|appends[k].bytes| / BSIZE + 2) <= Needed(appends)
    decreases |appends|
  {
    assert appends[..k + 1][..k] == appends[..k];
    var n := |appends| - 1;
    if k < n {
      NeededMore(appends[..n], k);
      assert appends[..n][..k + 1] == appends[..k + 1] && appends[..n][..k] == appends[..k];
    } else {
      assert appends[..k + 1] == appends;
    }
  }

  lemma AppendedNext(files: seq<seq<Byte>>, appends: seq<Append>, a: Append)
    requires a.inum < |files|
    ensures var before := Appended(files, appends);
      Appended(files, appends + [a]) == before[a.inum := before[a.inum] + a.bytes]
  {
    var all := appends + [a];
    assert all[..|appends|] == appends;
    var before := Appended(files, appends);
    var after := before[a.inum := before[a.inum] + a.bytes];
    forall i: nat | i < |files| ensures Appended(files, all)[i] == after[i] {
      assert BytesFor(all, i) == BytesFor(appends, i) + if a.inum == i then a.bytes else [];
      assert files[i] + BytesFor(all, i) == before[i] + if a.inum == i then a.bytes else [];
    }
  }

  lemma AppendedNone(files: seq<seq<Byte>>)
    ensures Appended(files, []) == files
  {
    forall i: nat | i < |files| ensures Appended(files, [])[i] == files[i] {
      assert files[i] + BytesFor([], i) == files[i];
    }
  }

  class Image {
    var blocks: seq<Block>
    /** The inode blocks, and the inodes in them. */
    var iblocks: seq<Block>
    ghost var heads: seq<Head>
    ghost var inodes: seq<Inode>
    var freeblock: nat
    var freeinode: nat
    ghost var owner: Owners
    /** What has been appended to each inode so far. */
    ghost var files: seq<seq<Byte>>

    ghost predicate Ready()
      reads this
    {
      && |blocks| == FSSIZE && |inodes| == NINODES == |files|
      && SB.datastart <= freeblock <= FSSIZE && Blank(blocks, freeblock)
    }

    /** The kernel's view, with inode inum's working copy din in place. */
    ghost function W(inum: nat, din: Inode): Fs
      requires Ready() && inum < NINODES
      reads this
    {
      View(blocks, freeblock, inodes[inum := din])
    }

    /** din.addrs[a] = freeblock++. */
    method TakeAddr(inum: nat, din: Inode, a: nat) returns (ok: bool, now: Inode)
      requires Ready() && inum < NINODES && Wired(SB, W(inum, din), owner) && a <= NDIRECT && din.addrs[a] == 0
      modifies this`freeblock, this`owner
      ensures Ready() && (!ok ==> freeblock == FSSIZE) && old(freeblock) <= freeblock <= old(freeblock) + 1
      ensures ok ==> now == Inode(din.size, din.addrs[a := now.addrs[a]])
      ensures ok ==>
        Took(old(W(inum, din)), old(owner), W(inum, now), owner, inum,
             if a == NDIRECT then INDIRECT else a, now.addrs[a])
    {
      hide Wired, Grown, Assigned, P, Claim, UsedMap;
      if freeblock == FSSIZE { return false, din; }
      ghost var s := W(inum, din);
      TakeIsClaim(blocks, freeblock, inodes[inum := din], owner);
      AddrPtr(s, inum, a);
      GrowAddr(SB, s, owner, inum, a, freeblock);
      now := Inode(din.size, din.addrs[a := freeblock]);
      owner := owner[freeblock := Owner(inum, if a == NDIRECT then INDIRECT else a)];
      freeblock := freeblock + 1;
      assert inodes[inum := now] == inodes[inum := din][inum := now];
      assert W(inum, now) == SetAddr(Claim(SB, s, freeblock - 1), inum, a, freeblock - 1);
      return true, now;
    }

    /** indirect[fbn - NDIRECT] = freeblock++, written back. */
    method TakeEntry(inum: nat, din: Inode, fbn: nat) returns (ok: bool, b: nat)
      requires Ready() && inum < NINODES && Wired(SB, W(inum, din), owner) && NDIRECT <= fbn < MAXFILE
      requires din.addrs[NDIRECT] != 0 && P(W(inum, din), inum, fbn) == 0
      modifies this`blocks, this`freeblock, this`owner
      ensures Ready() && (!ok ==> freeblock == FSSIZE) && old(freeblock) <= freeblock <= old(freeblock) + 1
      ensures ok ==> Took(old(W(inum, din)), old(owner), W(inum, din), owner, inum, fbn, b)
    {
      hide Wired, Grown, Assigned, Claim, UsedMap;
      if freeblock == FSSIZE { return false, 0; }
      ghost var s := W(inum, din);
      var ind := din.addrs[NDIRECT];
      BelowFree(blocks, freeblock, inodes[inum := din], owner, inum, INDIRECT);
      TakeIsClaim(blocks, freeblock, inodes[inum := din], owner);
      b := freeblock;
      GrowEntry(SB, s, owner, inum, fbn, b);
      StoreIsView(blocks, b + 1, inodes[inum := din], ind, fbn - NDIRECT, b);
      blocks := blocks[ind := SetEntry(blocks[ind], fbn - NDIRECT, b)];
      owner := owner[b := Owner(inum, fbn)];
      freeblock := freeblock + 1;
      return true, b;
    }

    /** The part of iappend's loop that finds the block for byte off. */
    method TakeBlock(inum: nat, din: Inode, off: nat) returns (ok: bool, now: Inode, x: nat)
      requires Ready() && inum < NINODES && Wired(SB, W(inum, din), owner) && off / BSIZE < MAXFILE
      requires Ends(W(inum, din), inum, off, false) && OthersEnd(W(inum, din), inum)
      modifies this`blocks, this`freeblock, this`owner
      ensures Ready() && (!ok ==> freeblock == FSSIZE) && old(freeblock) <= freeblock <= old(freeblock) + 2
      ensures ok ==> now.size == din.size && Grown(SB, old(W(inum, din)), old(owner), W(inum, now), owner, inum)
      ensures ok ==> x == P(W(inum, now), inum, off / BSIZE) != 0
      ensures ok ==> Ends(W(inum, now), inum, off, true) && OthersEnd(W(inum, now), inum)
    {
      hide Wired, Ends, OthersEnd, P, UsedMap, Kept, Extends, Assigned;
      var fbn := off / BSIZE;
      ghost var s0, owner0 := W(inum, din), owner;
      GrownSelf(SB, s0, owner0, inum);
      OpenEnds(s0, inum, off);
      now, x := din, 0;
      if fbn < NDIRECT {
        AddrPtr(s0, inum, fbn);
        if now.addrs[fbn] == 0 {
          ok, now := TakeAddr(inum, din, fbn);
          if !ok { return; }
          TookEnds(s0, owner0, W(inum, now), owner, inum, fbn, now.addrs[fbn], off);
          TookOthers(s0, owner0, W(inum, now), owner, inum, fbn, now.addrs[fbn]);
        }
        AddrPtr(W(inum, now), inum, fbn);
        return true, now, now.addrs[fbn];
      }
      if now.addrs[NDIRECT] == 0 {
        ok, now := TakeAddr(inum, din, NDIRECT);
        if !ok { return; }
        TookEnds(s0, owner0, W(inum, now), owner, inum, INDIRECT, now.addrs[NDIRECT], off);
        TookOthers(s0, owner0, W(inum, now), owner, inum, INDIRECT, now.addrs[NDIRECT]);
      }
      ghost var s1, owner1 := W(inum, now), owner;
      OpenEnds(s1, inum, off);
      AddrPtr(s1, inum, NDIRECT);
      BelowFree(blocks, freeblock, inodes[inum := now], owner, inum, INDIRECT);
      EntryPtr(s1, inum, fbn);
      x := Entry(blocks[now.addrs[NDIRECT]], fbn - NDIRECT);
      if x == 0 {
        ok, x := TakeEntry(inum, now, fbn);
        if !ok { return; }
        TookEnds(s1, owner1, W(inum, now), owner, inum, fbn, x, off);
        TookOthers(s1, owner1, W(inum, now), owner, inum, fbn, x);
        TookPtr(s1, owner1, W(inum, now), owner, inum, fbn, x);
        GrownTwice(SB, s0, owner0, s1, owner1, W(inum, now), owner, inum);
      }
      return true, now, x;
    }

    ghost function V(): Fs
      requires Ready()
      reads this
    {
      View(blocks, freeblock, inodes)
    }

    /** The kernel's invariant holds of the view, every file's contents are what was appended to
        it, and nothing lies behind its end. */
    ghost predicate Valid()
      reads this
    {
      && Ready() && Sound(SB, V(), owner) && Holds(V(), files)
      && |iblocks| == IBLOCKS && Encodes(iblocks, heads, inodes)
      && (forall i: nat :: i < NINODES ==> Ends(V(), i, inodes[i].size, false))
      && (forall i: nat :: freeinode <= i < NINODES ==> inodes[i] == Empty())
    }

    /** The zeroed image: nothing allocated but the blocks before the data. */
    constructor ()
      ensures Valid() && freeinode == 1 && freeblock == SB.datastart && owner == map[]
      ensures forall i :: 0 <= i < NINODES ==> files[i] == []
    {
      blocks := seq(FSSIZE, i => Zero());
      iblocks := seq(IBLOCKS, i => Zero());
      heads := seq(NINODES, i => Head(0, 0, 0, 0));
      inodes := seq(NINODES, i => Empty());
      freeblock, freeinode := SB.datastart, 1;
      owner := map[];
      files := seq(NINODES, i => []);
      new;
      FreshImage(V(), files);
      FreshInodes(iblocks, heads, inodes);
      forall c: nat | c < FSSIZE ensures Bit(SB, V(), c) <==> c < SB.datastart {
        ViewBit(blocks, freeblock, inodes, c);
      }
    }

    /** rinode. */
    method Rinode(inum: nat) returns (d: Dinode)
      requires inum < NINODES && |iblocks| == IBLOCKS && |inodes| == NINODES && Encodes(iblocks, heads, inodes)
      ensures d == Dinode(heads[inum], inodes[inum])
    {
      hide DinodeAt;
      d := DinodeAt(iblocks[inum / IPB], inum % IPB);
      assert d == DiskInode(iblocks, inum);
    }

    /** winode: the kernel will read d there, and the other inodes of the block as before. */
    method Winode(inum: nat, d: Dinode)
      requires inum < NINODES && |iblocks| == IBLOCKS && |inodes| == NINODES && Encodes(iblocks, heads, inodes)
      requires Fits(d.ino)
      modifies this`iblocks, this`heads, this`inodes
      ensures |iblocks| == IBLOCKS && Encodes(iblocks, heads, inodes)
      ensures heads == old(heads)[inum := d.head] && inodes == old(inodes)[inum := d.ino]
    {
      hide DinodeAt, PutDinode;
      EncodesStored(iblocks, heads, inodes, inum, d);
      iblocks := iblocks[inum / IPB := PutDinode(iblocks[inum / IPB], inum % IPB, d)];
      heads, inodes := heads[inum := d.head], inodes[inum := d.ino];
    }

    /** ialloc: the next inode number; its inode is empty and has one link.  The builder does not
        check that there is an inode left (!ok). */
    method Ialloc(kind: Short) returns (ok: bool, inum: nat)
      requires Valid()
      modifies this`freeinode, this`iblocks, this`heads, this`inodes
      ensures inum == old(freeinode) && freeinode == inum + 1 && (ok <==> inum < NINODES)
      ensures ok ==> Valid() && inodes == old(inodes) && heads == old(heads)[inum := Head(kind, 0, 0, 1)]
    {
      hide Sound, Holds, Ends, Encodes;
      inum := freeinode;
      freeinode := freeinode + 1;
      ok := inum < NINODES;
      if ok {
        assert inodes[inum] == Empty();
        assert inodes[inum := Empty()] == inodes;
        Winode(inum, Dinode(Head(kind, 0, 0, 1), Empty()));
      }
    }

    /** A turn of iappend's loop; q are the bytes that fit the largest file. */
    method AppendPart(inum: nat, inode: Inode, p: seq<Byte>, off: nat, n: nat, ghost s0: Fs, ghost q: seq<Byte>)
      returns (ok: bool, din: Inode, n1: nat)
      requires Ready() && inum < NINODES && 0 < n <= |p| && off == inode.size + |p| - n && off / BSIZE < MAXFILE
      requires |q| <= |p| && q == p[..|q|] && off + NextPart(off, n) <= inode.size + |q| && inum < |s0.inodes|
      requires Sound(SB, W(inum, inode), owner) && Written(s0, W(inum, inode), inum, inode.size, off, q)
      requires Ends(W(inum, inode), inum, off, false) && OthersEnd(W(inum, inode), inum)
      modifies this`blocks, this`freeblock, this`owner
      ensures Ready() && (!ok ==> freeblock == FSSIZE) && old(freeblock) <= freeblock <= old(freeblock) + 2
      ensures ok ==> n1 == NextPart(off, n) && din.size == inode.size && Sound(SB, W(inum, din), owner)
      ensures ok ==> Written(s0, W(inum, din), inum, inode.size, off + n1, q)
      ensures ok ==> Ends(W(inum, din), inum, off + n1, false) && OthersEnd(W(inum, din), inum)
    {
      hide Sound, Ends, OthersEnd, P, UsedMap, Grown, Wired, Written, AfterTurn, Patch, Blank, NextPart;
      ghost var s, o := W(inum, inode), owner;
      SoundParts(SB, s, o);
      var x;
      ok, din, x := TakeBlock(inum, inode, off);
      n1 := NextPart(off, n);
      if !ok { return; }
      WrittenGrown(SB, s0, s, o, W(inum, din), owner, inum, inode.size, off, q);
      NextPartIs(off, n);
      assert p[|p| - n..|p| - n + n1] == q[|p| - n..|p| - n + n1];
      AppendTurn(blocks, freeblock, inodes[inum := din], owner, inum, inode.size, off, n1, q, s0);
      blocks := blocks[x := Patch(blocks[x], off % BSIZE, p[|p| - n..|p| - n + n1])];
    }

    /** The loop of iappend, on the working copy of the inode. */
    method AppendBlocks(inum: nat, inode: Inode, p: seq<Byte>) returns (ok: bool, din: Inode, off: nat)
      requires Ready() && inum < NINODES && inodes[inum] == inode && inode.size <= MAXFILE * BSIZE
      requires Sound(SB, V(), owner) && Ends(V(), inum, inode.size, false) && OthersEnd(V(), inum)
      modifies this`blocks, this`freeblock, this`owner
      ensures Ready() && old(freeblock) <= freeblock <= old(freeblock) + 2 * (|p| / BSIZE + 2)
      ensures ok ==>
        off == inode.size + |p| <= MAXFILE * BSIZE && din.size == inode.size && Sound(SB, W(inum, din), owner)
      ensures ok ==> Written(old(V()), W(inum, din), inum, inode.size, off, p)
      ensures ok ==> Ends(W(inum, din), inum, off, false) && OthersEnd(W(inum, din), inum)
      ensures !ok ==> freeblock == FSSIZE || inode.size + |p| > MAXFILE * BSIZE
    {
      hide Sound, Ends, OthersEnd, P, UsedMap, Written, Spent, Blank, NextPart;
      ghost var s0, start := V(), inode.size;
      din, off := inode, inode.size;
      assert inodes[inum := din] == inodes;
      ghost var q := p[..if off + |p| <= MAXFILE * BSIZE then |p| else MAXFILE * BSIZE - off];
      WrittenNone(s0, inum, off, q);
      SpendNone(freeblock, off, off + |p|);
      var n := |p|;
      while n > 0
        invariant 0 <= n <= |p| && off == start + |p| - n <= MAXFILE * BSIZE && Ready() && din.size == start
        invariant Spent(old(freeblock), freeblock, start, off, start + |p|)
        invariant Sound(SB, W(inum, din), owner) && Written(s0, W(inum, din), inum, start, off, q)
        invariant Ends(W(inum, din), inum, off, false) && OthersEnd(W(inum, din), inum)
      {
        SpentSoFar(old(freeblock), freeblock, start, off, start + |p|);
        if off / BSIZE >= MAXFILE { return false, din, off; }
        NextPartIs(off, n);
        ghost var free := freeblock;
        var n1;
        ok, din, n1 := AppendPart(inum, din, p, off, n, s0, q);
        if !ok { return; }
        SpendMore(old(freeblock), free, freeblock, start, off, start + |p|, n1);
        n := n - n1;
        off := off + n1;
      }
      SpentSoFar(old(freeblock), freeblock, start, off, start + |p|);
      assert q == p;
      ok := true;
    }

    /** iappend: the kernel would now read the file's old contents followed by p, and every other
        file as before.  It stops the program only at the largest file or the end of the disk. */
    method Iappend(inum: nat, p: seq<Byte>) returns (ok: bool)
      requires Valid() && inum < freeinode && inum < NINODES
      modifies this`blocks, this`iblocks, this`heads, this`inodes, this`freeblock, this`owner, this`files
      ensures ok ==> Valid() && files == old(files)[inum := old(files)[inum] + p]
      ensures old(freeblock) <= freeblock <= old(freeblock) + 2 * (|p| / BSIZE + 2)
      ensures !ok ==> freeblock == FSSIZE || |old(files)[inum]| + |p| > MAXFILE * BSIZE
    {
      hide Sound, Ends, OthersEnd, P, UsedMap, Written, Holds, Content, Encodes, Fits;
      ghost var s0, size := V(), inodes[inum].size;
      FileSize(s0, files, inum);
      SoundParts(SB, s0, owner);
      BeginAppend(s0, inum);
      var d := Rinode(inum);
      var din, off := d.ino, 0;
      ok, din, off := AppendBlocks(inum, din, p);
      if !ok { return; }
      ghost var s := W(inum, din);
      WrittenAll(SB, s0, s, owner, inum, size, p);
      SoundParts(SB, SetSize(s, inum, size + |p|), owner);
      EndAppend(s0, s, inum, p, files);
      din := Inode(off, din.addrs);
      SoundFits(SB, SetSize(s, inum, off), owner, inum);
      Winode(inum, Dinode(d.head, din));
      files := files[inum := files[inum] + p];
      assert V() == SetSize(s, inum, size + |p|);
    }

    /** Any interleaving of appends to any inodes, as main makes them file after file. */
    method AppendAll(appends: seq<Append>) returns (ok: bool)
      requires Valid() && freeinode <= NINODES && forall a :: a in appends ==> a.inum < freeinode
      modifies this`blocks, this`iblocks, this`heads, this`inodes, this`freeblock, this`owner, this`files
      ensures ok ==> Valid() && files == Appended(old(files), appends)
      ensures !ok ==> freeblock == FSSIZE || exists k :: TooLong(old(files), appends, k)
      ensures old(freeblock) <= freeblock <= old(freeblock) + Needed(appends)
    {
      hide Valid;
      var k := 0;
      assert appends[..0] == [];
      AppendedNone(files);
      FilesTotal();
      while k < |appends|
        invariant k <= |appends| && Valid() && files == Appended(old(files), appends[..k])
        invariant old(freeblock) <= freeblock <= old(freeblock) + Needed(appends[..k])
      {
        var a := appends[k];
        assert a in appends && appends[..k + 1] == appends[..k] + [a];
        AppendedNext(old(files), appends[..k], a);
        NeededMore(appends, k);
        assert |files| == NINODES by { FilesTotal(); }
        ok := Iappend(a.inum, a.bytes);
        if !ok {
          assert freeblock == FSSIZE || TooLong(old(files), appends, k);
          return;
        }
        k := k + 1;
      }
      assert appends[..k] == appends;
      ok := true;
    }

    lemma FilesTotal()
      requires Valid()
      ensures |files| == NINODES
    { }

    /** The image as the kernel will mount it. */
    ghost function Mounted(): Fs
      reads this
    {
      Fs(blocks, inodes)
    }

    /** The end of main: the root directory's size is rounded up past its last block, and the free
        map is written.  The map marks exactly the blocks below freeblock, and the kernel reads in
        every other file what was appended; the kernel's invariant holds of the image just when
        the root's size was not a whole number of blocks, and then the root is padded with zeros. */
    method Finish(root: nat)
      requires Valid() && root < NINODES
      modifies this`blocks, this`iblocks, this`heads, this`inodes
      ensures |inodes| == NINODES && Wired(SB, Mounted(), owner)
      ensures |iblocks| == IBLOCKS && Encodes(iblocks, heads, inodes)
      ensures inodes[root].size == (|files[root]| / BSIZE + 1) * BSIZE
      ensures forall b: nat :: b < FSSIZE ==> (Bit(SB, Mounted(), b) <==> b < freeblock)
      ensures forall j: nat :: j < NINODES && j != root ==> FilledAt(Mounted(), j) && Content(Mounted(), j) == files[j]
      ensures Sound(SB, Mounted(), owner) <==> |files[root]| % BSIZE != 0
      ensures |files[root]| % BSIZE != 0 ==>
        && inodes[root].size <= MAXFILE * BSIZE
        && Content(Mounted(), root) == files[root] + Zeros(BSIZE - |files[root]| % BSIZE)
    {
      hide Wired, P, UsedMap, Content, Ends, Bit, FilledAt, Encodes, Fits;
      ghost var s := V();
      FileSize(s, files, root);
      var d := Rinode(root);
      var off := d.ino.size;
      off := (off / BSIZE + 1) * BSIZE;
      RoundedFits(s, owner, root, off);
      Winode(root, Dinode(d.head, Inode(off, d.ino.addrs)));
      var map_ := UsedMapBlock(freeblock);
      blocks := blocks[SB.bmapstart := map_];
      assert Mounted() == View(blocks, freeblock, inodes);
      forall b: nat | b < FSSIZE ensures Bit(SB, Mounted(), b) <==> b < freeblock {
        ViewBit(blocks, freeblock, inodes, b);
      }
      assert Mounted() == SetSize(s, root, off);
      SizeWired(SB, s, owner, root, off);
      RoundedRoot(s, owner, root, files);
    }
  }

  /** A root directory that fills its block exactly, as thirty files and "." and ".." make it, gets
      a size that reaches into a block it does not have. */
  method FullRootBlock(entries: seq<Byte>) returns (img: Image, root: nat)
    requires |entries| == BSIZE
    ensures fresh(img) && root < |img.inodes| && img.inodes[root].size == 2 * BSIZE
    ensures !Sound(SB, img.Mounted(), img.owner)
  {
    hide Sound, Wired, Bit, Content, Holds, Ends, Blank, P, UsedMap;
    img := new Image();
    var ok;
    ok, root := img.Ialloc(1);
    ok := img.Iappend(root, entries);
    img.Finish(root);
  }

  function Zeros(n: nat): seq<Byte> { seq(n, i => 0) }

  /** Rounding a file's size up past its last block. */
  lemma RoundedRoot(s: Fs, owner: Owners, root: nat, files: seq<seq<Byte>>)
    requires Sound(SB, s, owner) && Holds(s, files) && root < |s.inodes| && Ends(s, root, s.inodes[root].size, false)
    ensures var size := s.inodes[root].size;
      var t := SetSize(s, root, (size / BSIZE + 1) * BSIZE);
      && (Sound(SB, t, owner) <==> size % BSIZE != 0)
      && (forall j: nat :: j < |s.inodes| && j != root ==> FilledAt(t, j) && Content(t, j) == files[j])
      && (size % BSIZE != 0 ==> t.inodes[root].size <= MAXFILE * BSIZE)
      && (size % BSIZE != 0 ==> Content(t, root) == files[root] + Zeros(BSIZE - size % BSIZE))
  {
    hide Wired, P;
    var size := s.inodes[root].size;
    var n := size / BSIZE;
    var t := SetSize(s, root, (n + 1) * BSIZE);
    SizeWired(SB, s, owner, root, (n + 1) * BSIZE);
    forall j: nat | j < |s.inodes| && j != root ensures FilledAt(t, j) && Content(t, j) == files[j] {
      assert Content(s, j) == files[j];
      FilledEach(s, j);
      SameContent(s, t, j);
    }
    if size % BSIZE == 0 {
      if n < MAXFILE { assert P(s, root, n) == 0 && P(t, root, n) == 0; }
    } else {
      RoundedFilled(s, t, root, n);
      RoundedContent(s, t, root, files[root]);
    }
  }

  lemma SameContent(s: Fs, t: Fs, j: nat)
    requires j < |s.inodes| == |t.inodes| && t.inodes[j] == s.inodes[j] && s.blocks == t.blocks
    requires s.inodes[j].size <= MAXFILE * BSIZE
    ensures Content(t, j) == Content(s, j)
  {
    hide P;
    forall k: nat | k < s.inodes[j].size ensures ByteAt(t, j, k) == ByteAt(s, j, k) { SamePtr(s, t, j, k / BSIZE); }
  }

  lemma RoundedFilled(s: Fs, t: Fs, root: nat, n: nat)
    requires Filled(s) && root < |s.inodes| && n == s.inodes[root].size / BSIZE && s.inodes[root].size % BSIZE != 0
    requires t == SetSize(s, root, (n + 1) * BSIZE)
    requires forall j: nat, m: nat :: j < |s.inodes| && m <= INDIRECT ==> P(t, j, m) == P(s, j, m)
    ensures Filled(t)
  {
    hide P;
    forall j: nat, m: nat | j < |t.inodes| && m < MAXFILE && m * BSIZE < t.inodes[j].size ensures P(t, j, m) != 0 {
      assert j == root ==> m <= n && m * BSIZE < s.inodes[root].size;
      assert P(s, j, m) != 0;
    }
  }

  lemma RoundedContent(s: Fs, t: Fs, root: nat, file: seq<Byte>)
    requires Filled(s) && root < |s.inodes| && Content(s, root) == file && |file| % BSIZE != 0
    requires Ends(s, root, |file|, false) && t == SetSize(s, root, (|file| / BSIZE + 1) * BSIZE)
    requires forall j: nat, m: nat :: j < |s.inodes| && m <= INDIRECT ==> P(t, j, m) == P(s, j, m)
    ensures t.inodes[root].size <= MAXFILE * BSIZE && Content(t, root) == file + Zeros(BSIZE - |file| % BSIZE)
  {
    hide P;
    var n := |file| / BSIZE;
    assert n * BSIZE < |file|;
    assert P(s, root, n) != 0;
    forall k: nat | k < t.inodes[root].size ensures ByteAt(t, root, k) == (file + Zeros(BSIZE - |file| % BSIZE))[k] {
      assert ByteAt(t, root, k) == ByteAt(s, root, k);
      if k < |file| { assert Content(s, root)[k] == ByteAt(s, root, k); } else { assert k / BSIZE == n; }
    }
  }

  /** Each file's contents, as the kernel reads them. */
  ghost predicate Holds(s: Fs, files: seq<seq<Byte>>) {
    && |files| == |s.inodes| && Filled(s)
    && forall i: nat :: i < |files| ==> Content(s, i) == files[i]
  }

  lemma FreshImage(s: Fs, files: seq<seq<Byte>>)
    requires |files| == |s.inodes|
    requires forall i: nat :: i < |s.inodes| ==> s.inodes[i] == Empty() && files[i] == []
    ensures Mapped(s, map[]) && Holds(s, files)
    ensures forall i: nat :: i < |s.inodes| ==> Ends(s, i, 0, false)
  {
    forall i: nat, n: nat | i < |s.inodes| && n <= INDIRECT ensures P(s, i, n) == 0 { }
  }

  lemma FreshInodes(iblocks: seq<Block>, heads: seq<Head>, inodes: seq<Inode>)
    requires |iblocks| == IBLOCKS && |heads| == NINODES == |inodes|
    requires forall b :: 0 <= b < IBLOCKS ==> iblocks[b] == Zero()
    requires forall i :: 0 <= i < NINODES ==> heads[i] == Head(0, 0, 0, 0) && inodes[i] == Empty()
    ensures Encodes(iblocks, heads, inodes)
  {
    forall k: nat | k < NINDIRECT ensures Entry(Zero(), k) == 0 { ZeroEntry(k); }
    hide Entry;
    forall i: nat | i < NINODES ensures DiskInode(iblocks, i) == Dinode(heads[i], inodes[i]) {
      assert DiskInode(iblocks, i).ino.addrs == Empty().addrs;
    }
  }

  lemma RoundedFits(s: Fs, owner: Owners, root: nat, off: nat)
    requires Sound(SB, s, owner) && root < |s.inodes| && off == (s.inodes[root].size / BSIZE + 1) * BSIZE
    ensures Fits(Inode(off, s.inodes[root].addrs))
  {
    SoundFits(SB, s, owner, root);
  }

  lemma FileSize(s: Fs, files: seq<seq<Byte>>, i: nat)
    requires Holds(s, files) && i < |files|
    ensures s.inodes[i].size == |files[i]| <= MAXFILE * BSIZE
  {
    assert Content(s, i) == files[i];
  }

  lemma BeginAppend(s: Fs, i: nat)
    requires i < |s.inodes| && forall j: nat :: j < |s.inodes| ==> Ends(s, j, s.inodes[j].size, false)
    ensures OthersEnd(s, i)
  { }

  /** Up to byte off of [start, end) at most two blocks have been taken for each block written. */
  ghost predicate Spent(was: nat, free: nat, start: nat, off: nat, end: nat) {
    && was <= free && start <= off <= end && (off == start ==> free == was)
    && free - was <= 2 * ((off + 511) / BSIZE - start / BSIZE) && (off < end && off != start ==> off % BSIZE == 0)
    && free - was <= 2 * ((end - start) / BSIZE + 2)
  }

  lemma SpentSoFar(was: nat, free: nat, start: nat, off: nat, end: nat)
    requires Spent(was, free, start, off, end)
    ensures was <= free <= was + 2 * ((end - start) / BSIZE + 2)
    ensures off < end ==> free + 2 <= was + 2 * ((end - start) / BSIZE + 2)
  { }

  lemma SpendMore(was: nat, free: nat, now: nat, start: nat, off: nat, end: nat, m: nat)
    requires Spent(was, free, start, off, end) && off < end && free <= now <= free + 2
    requires m == NextPart(off, end - off)
    ensures Spent(was, now, start, off + m, end)
  { }

  lemma SpendNone(was: nat, start: nat, end: nat)
    requires start <= end
    ensures Spent(was, was, start, start, end)
  { }

  /** The rest of the loop: copying into the block it found. */
  lemma AppendTurn(blocks: seq<Block>, free: nat, inodes: seq<Inode>, owner: Owners, i: nat, start: nat, off: nat,
                   m: nat, p: seq<Byte>, s0: Fs)
    requires |blocks| == FSSIZE && free <= FSSIZE && Blank(blocks, free) && i < |inodes| && i < |s0.inodes|
    requires Sound(SB, View(blocks, free, inodes), owner) && Written(s0, View(blocks, free, inodes), i, start, off, p)
    requires Ends(View(blocks, free, inodes), i, off, true) && OthersEnd(View(blocks, free, inodes), i)
    requires 0 < m && off + m <= start + |p| && off % BSIZE + m <= BSIZE && off / BSIZE < MAXFILE
    requires P(View(blocks, free, inodes), i, off / BSIZE) != 0
    ensures P(View(blocks, free, inodes), i, off / BSIZE) < FSSIZE && start <= off
    ensures var x := P(View(blocks, free, inodes), i, off / BSIZE);
      var now := blocks[x := Patch(blocks[x], off % BSIZE, p[off - start..off - start + m])];
      var t := View(now, free, inodes);
      && Blank(now, free) && Sound(SB, t, owner) && Written(s0, t, i, start, off + m, p)
      && Ends(t, i, off + m, false) && OthersEnd(t, i)
  {
    var s := View(blocks, free, inodes);
    BelowFree(blocks, free, inodes, owner, i, off / BSIZE);
    hide P, UsedMap, Wired, Ends, OthersEnd, Filled, Patch;
    var x := P(s, i, off / BSIZE);
    assert start <= off by { WrittenBounds(s0, s, i, start, off, p); }
    assert Turn(s, i, start, off, m, p);
    WrittenTurn(SB, s0, s, owner, i, start, off, m, p);
    TurnEnds(s, owner, i, start, off, m, p);
    TurnOthers(s, owner, i, start, off, m, p);
    PatchIsView(blocks, free, inodes, x, Patch(blocks[x], off % BSIZE, p[off - start..off - start + m]));
  }

  /** How many of n bytes go into the block of byte off. */
  function NextPart(off: nat, n: nat): nat {
    if n < (off / BSIZE + 1) * BSIZE - off then n else (off / BSIZE + 1) * BSIZE - off
  }

  lemma NextPartIs(off: nat, n: nat)
    requires off / BSIZE < MAXFILE && n > 0
    ensures var m := NextPart(off, n); 0 < m <= n && off % BSIZE + m <= BSIZE && off + m <= MAXFILE * BSIZE
  { }

  lemma WrittenBounds(s0: Fs, s: Fs, i: nat, off0: nat, off: nat, src: seq<Byte>)
    requires i < |s0.inodes| && Written(s0, s, i, off0, off, src)
    ensures off0 <= off <= off0 + |src| <= MAXFILE * BSIZE
  { }

  lemma PatchIsView(blocks: seq<Block>, free: nat, inodes: seq<Inode>, x: nat, data: Block)
    requires |blocks| == FSSIZE && free <= FSSIZE && SB.datastart <= x < FSSIZE
    ensures SetBlock(View(blocks, free, inodes), x, data) == View(blocks[x := data], free, inodes)
  {
    hide UsedMap;
    assert blocks[x := data][SB.bmapstart := UsedMap(free)] == blocks[SB.bmapstart := UsedMap(free)][x := data];
  }

  /** Updating the size in the inode. */
  lemma EndAppend(s0: Fs, s: Fs, i: nat, p: seq<Byte>, files: seq<seq<Byte>>)
    requires i < |s.inodes| == |s0.inodes| && Holds(s0, files) && s.inodes[i].size == s0.inodes[i].size == |files[i]|
    requires Ends(s, i, s.inodes[i].size + |p|, false) && OthersEnd(s, i)
    requires var t := SetSize(s, i, s.inodes[i].size + |p|);
      && Filled(t) && Content(t, i) == Spliced(Content(s0, i), s0.inodes[i].size, p)
      && forall j: nat :: j < |s0.inodes| && j != i ==> t.inodes[j] == s0.inodes[j] && Content(t, j) == Content(s0, j)
    ensures var t := SetSize(s, i, s.inodes[i].size + |p|);
      && Holds(t, files[i := files[i] + p])
      && forall j: nat :: j < |t.inodes| ==> Ends(t, j, t.inodes[j].size, false)
  {
    hide Content, P;
    var t := SetSize(s, i, s.inodes[i].size + |p|);
    assert Content(s0, i) == files[i];
    assert Spliced(files[i], |files[i]|, p) == files[i] + p;
    forall j: nat | j < |t.inodes| ensures Ends(t, j, t.inodes[j].size, false) {
      assert Ends(s, j, t.inodes[j].size, false);
      SizeEnds(s, i, s.inodes[i].size + |p|, j, t.inodes[j].size);
    }
  }

  lemma SizeEnds(s: Fs, i: nat, size: nat, j: nat, end: nat)
    requires i < |s.inodes| && j < |s.inodes| && Ends(s, j, end, false)
    ensures Ends(SetSize(s, i, size), j, end, false)
  {
    var t := SetSize(s, i, size);
    forall n: nat | n <= INDIRECT ensures P(t, j, n) == P(s, j, n) { }
    hide P;
    forall k: nat | end <= k < MAXFILE * BSIZE ensures ByteAt(t, j, k) == ByteAt(s, j, k) { }
  }

  lemma BelowFree(blocks: seq<Block>, free: nat, inodes: seq<Inode>, owner: Owners, i: nat, n: nat)
    requires |blocks| == FSSIZE && free <= FSSIZE && Wired(SB, View(blocks, free, inodes), owner)
    requires i < |inodes| && n <= INDIRECT && P(View(blocks, free, inodes), i, n) != 0
    ensures SB.datastart <= P(View(blocks, free, inodes), i, n) < free
  {
    hide P, Bit;
    var v := View(blocks, free, inodes);
    var b := P(v, i, n);
    assert OwnedBy(SB, v, b, owner[b]);
    ViewBit(blocks, free, inodes, b);
  }

  lemma StoreIsView(blocks: seq<Block>, free: nat, inodes: seq<Inode>, ind: nat, j: nat, b: nat)
    requires |blocks| == FSSIZE && free <= FSSIZE && SB.datastart <= ind < FSSIZE && j < NINDIRECT && b < WORD
    ensures StoreEntry(View(blocks, free, inodes), ind, j, b) ==
      View(blocks[ind := SetEntry(blocks[ind], j, b)], free, inodes)
  {
    hide SetEntry, UsedMap;
    assert blocks[ind := SetEntry(blocks[ind], j, b)][SB.bmapstart := UsedMap(free)]
        == blocks[SB.bmapstart := UsedMap(free)][ind := SetEntry(blocks[ind], j, b)];
  }

  lemma OpenEnds(s: Fs, i: nat, end: nat)
    requires i < |s.inodes| && Ends(s, i, end, false)
    ensures Ends(s, i, end, true)
  { }

  lemma EntryPtr(s: Fs, i: nat, n: nat)
    requires i < |s.inodes| && NDIRECT <= n < MAXFILE && 0 < s.inodes[i].addrs[NDIRECT] < |s.blocks|
    ensures P(s, i, n) == Entry(s.blocks[s.inodes[i].addrs[NDIRECT]], n - NDIRECT)
  { }

  lemma TookPtr(s: Fs, owner: Owners, t: Fs, owner2: Owners, i: nat, n: nat, b: nat)
    requires Took(s, owner, t, owner2, i, n, b)
    ensures P(t, i, n) == b
  {
    assert AssignedAt(s, t, i, n, b, i, n);
  }
}
