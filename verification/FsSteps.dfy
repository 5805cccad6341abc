/** What allocating a block for an inode and writing a block's data do to every file. */
module FsSteps {
  import opened FsBlocks
  import opened FsState

  /** Inode i's block map may have grown from s to t; nothing else about inodes has changed. */
  ghost predicate Extends(s: Fs, t: Fs, i: nat) {
    && |t.inodes| == |s.inodes| && |t.blocks| == |s.blocks|
    && (forall j :: 0 <= j < |s.inodes| ==>
          t.inodes[j].size == s.inodes[j].size && (j != i ==> t.inodes[j] == s.inodes[j]))
    && (forall j: nat, m: nat :: j < |s.inodes| && m <= INDIRECT && (j != i || P(s, j, m) != 0) ==>
          P(t, j, m) == P(s, j, m))
  }

  /** t comes from s by giving blocks to inode i. */
  ghost predicate Grown(sb: Super, s: Fs, owner: Owners, t: Fs, owner2: Owners, i: nat) {
    && Wired(sb, t, owner2) && Extends(s, t, i) && Kept(s, t, owner, i)
    && (forall c :: c in owner ==> c in owner2 && owner2[c] == owner[c])
  }

  lemma GrownSelf(sb: Super, s: Fs, owner: Owners, i: nat)
    requires Wired(sb, s, owner)
    ensures Grown(sb, s, owner, s, owner, i)
  {
    forall c | c in owner ensures c < |s.blocks| { assert OwnedBy(sb, s, c, owner[c]); }
  }

  lemma GrownTwice(sb: Super, r: Fs, owner0: Owners, s: Fs, owner1: Owners, t: Fs, owner2: Owners, i: nat)
    requires Grown(sb, r, owner0, s, owner1, i) && Grown(sb, s, owner1, t, owner2, i)
    ensures Grown(sb, r, owner0, t, owner2, i)
  {
    hide P, Wired;
  }

  lemma AssignExtends(s: Fs, t: Fs, i: nat, n: nat, b: nat)
    requires Assigned(s, t, i, n, b) && i < |s.inodes| && n <= INDIRECT && P(s, i, n) == 0
    requires forall j :: 0 <= j < |s.inodes| && j != i ==> t.inodes[j] == s.inodes[j]
    ensures Extends(s, t, i) && P(t, i, n) == b
  {
    hide P;
    forall j: nat, m: nat | j < |s.inodes| && m <= INDIRECT && (j != i || P(s, j, m) != 0)
      ensures P(t, j, m) == P(s, j, m)
    {
      assert AssignedAt(s, t, i, n, b, j, m);
    }
    assert AssignedAt(s, t, i, n, b, i, n);
  }

  lemma AssignGrown(sb: Super, s: Fs, t: Fs, owner: Owners, i: nat, n: nat, b: nat)
    requires Wired(sb, s, owner) && Unowned(sb, owner, b) && i < |s.inodes| && n <= INDIRECT && P(s, i, n) == 0
    requires Assigned(s, t, i, n, b) && Marks(sb, s, t, b) && Kept(s, t, owner, i)
    requires forall j :: 0 <= j < |s.inodes| && j != i ==> t.inodes[j] == s.inodes[j]
    ensures Grown(sb, s, owner, t, owner[b := Owner(i, n)], i) && P(t, i, n) == b
  {
    hide P, Wired, Marks, Kept, Assigned, Extends;
    AssignWired(sb, s, t, owner, i, n, b);
    AssignExtends(s, t, i, n, b);
  }

  /** bmap's assignment of a fresh block to addrs[a]. */
  lemma GrowAddr(sb: Super, s: Fs, owner: Owners, i: nat, a: nat, b: nat)
    requires Wired(sb, s, owner) && Unowned(sb, owner, b) && i < |s.inodes| && a <= NDIRECT && s.inodes[i].addrs[a] == 0
    ensures BBlock(sb, b) < |s.blocks|
    ensures var n := if a == NDIRECT then INDIRECT else a;
      var t := SetAddr(Claim(sb, s, b), i, a, b);
      && Grown(sb, s, owner, t, owner[b := Owner(i, n)], i) && P(t, i, n) == b
      && t.blocks[b] == Zero() && Assigned(s, t, i, n, b)
  {
    hide Mapped, Owned, Marked, Marks, Kept, Assigned, Grown, Bit;
    var n := if a == NDIRECT then INDIRECT else a;
    AssignAddr(sb, s, owner, i, a, b);
    var c := Claim(sb, s, b);
    var t := SetAddr(c, i, a, b);
    ClaimMarks(sb, s, owner, b);
    ClaimKept(sb, s, owner, b, i);
    SameBlocksKept(sb, s, c, t, owner, i, b);
    AssignGrown(sb, s, t, owner, i, n, b);
  }

  lemma SameBlocksKept(sb: Super, s: Fs, c: Fs, t: Fs, owner: Owners, i: nat, b: nat)
    requires c.blocks == t.blocks && Marks(sb, s, c, b) && Kept(s, c, owner, i)
    ensures Marks(sb, s, t, b) && Kept(s, t, owner, i)
  {
    forall x: nat | x < sb.size ensures Bit(sb, t, x) <==> x == b || Bit(sb, s, x) {
      assert Bit(sb, c, x) <==> Bit(sb, t, x);
    }
  }

  /** ... and to an entry of the indirect block. */
  lemma GrowEntry(sb: Super, s: Fs, owner: Owners, i: nat, n: nat, b: nat)
    requires Wired(sb, s, owner) && Unowned(sb, owner, b) && i < |s.inodes| && NDIRECT <= n < MAXFILE
    requires P(s, i, INDIRECT) != 0 && P(s, i, n) == 0
    ensures BBlock(sb, b) < |s.blocks| && P(s, i, INDIRECT) < |s.blocks| && b < WORD
    ensures var t := StoreEntry(Claim(sb, s, b), P(s, i, INDIRECT), n - NDIRECT, b);
      && Grown(sb, s, owner, t, owner[b := Owner(i, n)], i) && P(t, i, n) == b
      && t.blocks[b] == Zero() && Assigned(s, t, i, n, b)
  {
    hide P, Marks, Kept, Assigned, Grown, Bit, Mapped, Owned, Marked;
    AssignEntry(sb, s, owner, i, n, b);
    var c, ind := Claim(sb, s, b), P(s, i, INDIRECT);
    var t := StoreEntry(c, ind, n - NDIRECT, b);
    ClaimMarks(sb, s, owner, b);
    ClaimKept(sb, s, owner, b, i);
    IndirectOwned(sb, s, owner, i);
    MarksIndirect(sb, s, c, t, b, ind);
    KeptIndirect(sb, s, c, t, owner, i, ind);
    AssignGrown(sb, s, t, owner, i, n, b);
  }

  lemma MarksIndirect(sb: Super, s: Fs, c: Fs, t: Fs, b: nat, ind: nat)
    requires Marks(sb, s, c, b) && Geometry(sb, c) && sb.datastart <= ind < sb.size
    requires |t.blocks| == |c.blocks| && forall x: nat :: x < |c.blocks| && x != ind ==> t.blocks[x] == c.blocks[x]
    ensures Marks(sb, s, t, b)
  {
    BitsBelowData(sb, c, t, ind);
    hide Bit;
  }

  lemma KeptIndirect(sb: Super, s: Fs, c: Fs, t: Fs, owner: Owners, i: nat, ind: nat)
    requires Kept(s, c, owner, i) && ind in owner && owner[ind] == Owner(i, INDIRECT)
    requires |t.blocks| == |c.blocks| && forall x: nat :: x < |c.blocks| && x != ind ==> t.blocks[x] == c.blocks[x]
    ensures Kept(s, t, owner, i)
  { }

  /** Changing a data block changes no bit of the free map. */
  lemma BitsBelowData(sb: Super, s: Fs, t: Fs, x: nat)
    requires Geometry(sb, s) && sb.datastart <= x < sb.size
    requires |t.blocks| == |s.blocks| && forall c: nat :: c < |s.blocks| && c != x ==> t.blocks[c] == s.blocks[c]
    ensures forall c: nat :: c < sb.size ==> (Bit(sb, t, c) <==> Bit(sb, s, c))
  {
    forall c: nat | c < sb.size ensures Bit(sb, t, c) <==> Bit(sb, s, c) {
      BBlockIn(sb, s, c);
    }
  }

  /** No byte under an allocated block changes. */
  lemma GrownByte(sb: Super, s: Fs, owner: Owners, t: Fs, owner2: Owners, i: nat, j: nat, k: nat)
    requires Wired(sb, s, owner) && Grown(sb, s, owner, t, owner2, i)
    requires j < |s.inodes| && k < MAXFILE * BSIZE && P(s, j, k / BSIZE) != 0
    ensures P(t, j, k / BSIZE) == P(s, j, k / BSIZE) && ByteAt(t, j, k) == ByteAt(s, j, k)
  {
    hide P;
    var b := P(s, j, k / BSIZE);
    assert b in owner && owner[b] == Owner(j, k / BSIZE);
    assert OwnedBy(sb, s, b, owner[b]);
  }

  lemma GrownFilled(s: Fs, t: Fs, i: nat)
    requires Filled(s) && Extends(s, t, i)
    ensures Filled(t)
  {
    hide P;
    forall j: nat, m: nat | j < |t.inodes| && m < MAXFILE && m * BSIZE < t.inodes[j].size ensures P(t, j, m) != 0 {
      assert P(s, j, m) != 0;
    }
  }

  // ----- writing a data block -----

  /** Writing the data block that inode i owns as its n-th changes the bytes of that block only. */
  lemma WriteWired(sb: Super, s: Fs, owner: Owners, i: nat, n: nat, data: Block)
    requires Wired(sb, s, owner) && i < |s.inodes| && n < MAXFILE && P(s, i, n) != 0
    ensures var x := P(s, i, n); sb.datastart <= x < |s.blocks| && Wired(sb, SetBlock(s, x, data), owner)
    ensures var t := SetBlock(s, P(s, i, n), data);
      forall j: nat, m: nat :: j < |s.inodes| && m <= INDIRECT ==> P(t, j, m) == P(s, j, m)
  {
    var x := P(s, i, n);
    assert x in owner && owner[x] == Owner(i, n);
    assert OwnedBy(sb, s, x, owner[x]);
    var t := SetBlock(s, x, data);
    forall j: nat, m: nat | j < |s.inodes| && m <= INDIRECT ensures P(t, j, m) == P(s, j, m) {
      if P(s, j, INDIRECT) != 0 { IndirectOwned(sb, s, owner, j); }
      hide P, Ptr;
      PtrFrame(s, t, j, m);
    }
    hide P, Ptr;
    BitsBelowData(sb, s, t, x);
    forall c | c in owner ensures OwnedBy(sb, t, c, owner[c]) { assert OwnedBy(sb, s, c, owner[c]); }
  }

  lemma WriteByte(sb: Super, s: Fs, owner: Owners, i: nat, n: nat, data: Block, j: nat, k: nat)
    requires Wired(sb, s, owner) && i < |s.inodes| && n < MAXFILE && P(s, i, n) != 0
    requires j < |s.inodes| && k < MAXFILE * BSIZE && P(s, j, k / BSIZE) != 0
    ensures P(s, i, n) < |s.blocks| && P(SetBlock(s, P(s, i, n), data), j, k / BSIZE) == P(s, j, k / BSIZE)
    ensures ByteAt(SetBlock(s, P(s, i, n), data), j, k) ==
      if j == i && k / BSIZE == n then data[k % BSIZE] else ByteAt(s, j, k)
  {
    WriteWired(sb, s, owner, i, n, data);
    hide P;
    var x, y := P(s, i, n), P(s, j, k / BSIZE);
    assert owner[x] == Owner(i, n) && owner[y] == Owner(j, k / BSIZE);
    assert OwnedBy(sb, s, y, owner[y]);
  }

  // ----- a write in progress -----

  /** s is s0 with src written into file i from off0 up to off, the size not yet updated. */
  ghost predicate Written(s0: Fs, s: Fs, i: nat, off0: nat, off: nat, src: seq<Byte>)
    requires i < |s0.inodes|
  {
    && |s.inodes| == |s0.inodes| && |s.blocks| == |s0.blocks| && s.inodes[i].size == s0.inodes[i].size
    && off0 <= off <= off0 + |src| <= MAXFILE * BSIZE && s0.inodes[i].size <= MAXFILE * BSIZE
    && (forall k: nat :: off0 <= k < off ==> Done(s, i, off0, src, k))
    && (forall k: nat :: k < s0.inodes[i].size && !(off0 <= k < off) ==> ByteAt(s, i, k) == ByteAt(s0, i, k))
    && (forall j: nat :: j < |s0.inodes| && j != i ==> Untouched(s0, s, j))
  }

  ghost predicate Done(s: Fs, i: nat, off0: nat, src: seq<Byte>, k: nat)
    requires i < |s.inodes| && off0 <= k < off0 + |src| <= MAXFILE * BSIZE
  {
    P(s, i, k / BSIZE) != 0 && ByteAt(s, i, k) == src[k - off0]
  }

  ghost predicate Untouched(s0: Fs, s: Fs, j: nat)
    requires j < |s0.inodes| == |s.inodes|
  {
    && s.inodes[j] == s0.inodes[j]
    && forall k: nat :: k < s0.inodes[j].size && k < MAXFILE * BSIZE ==> ByteAt(s, j, k) == ByteAt(s0, j, k)
  }

  lemma UntouchedGrown(sb: Super, s0: Fs, s: Fs, owner: Owners, t: Fs, owner2: Owners, i: nat, j: nat)
    requires Sound(sb, s, owner) && Grown(sb, s, owner, t, owner2, i)
    requires j < |s0.inodes| == |s.inodes| && j != i && Untouched(s0, s, j)
    ensures Untouched(s0, t, j)
  {
    hide P;
    forall k: nat | k < s0.inodes[j].size && k < MAXFILE * BSIZE ensures ByteAt(t, j, k) == ByteAt(s0, j, k) {
      ByteOwned(sb, s, owner, j, k);
      GrownByte(sb, s, owner, t, owner2, i, j, k);
    }
  }

  lemma WrittenGrown(sb: Super, s0: Fs, s: Fs, owner: Owners, t: Fs, owner2: Owners, i: nat, off0: nat, off: nat,
                     src: seq<Byte>)
    requires Sound(sb, s, owner) && Grown(sb, s, owner, t, owner2, i)
    requires i < |s0.inodes| && Written(s0, s, i, off0, off, src)
    ensures Sound(sb, t, owner2) && Written(s0, t, i, off0, off, src)
  {
    hide P, ByteAt, Wired, Untouched, Kept;
    GrownFilled(s, t, i);
    forall k: nat | off0 <= k < off ensures Done(t, i, off0, src, k) {
      assert Done(s, i, off0, src, k);
      GrownByte(sb, s, owner, t, owner2, i, i, k);
    }
    forall k: nat | k < s0.inodes[i].size && !(off0 <= k < off) ensures ByteAt(t, i, k) == ByteAt(s0, i, k) {
      ByteOwned(sb, s, owner, i, k);
      GrownByte(sb, s, owner, t, owner2, i, i, k);
    }
    forall j: nat | j < |s0.inodes| && j != i ensures Untouched(s0, t, j) {
      UntouchedGrown(sb, s0, s, owner, t, owner2, i, j);
    }
  }

  /** memmove into a block. */
  function Patch(was: Block, at: nat, part: seq<Byte>): Block
    requires at + |part| <= BSIZE
  {
    was[..at] + part + was[at + |part|..]
  }

  lemma PatchAt(was: Block, at: nat, part: seq<Byte>, r: nat)
    requires at + |part| <= BSIZE && r < BSIZE
    ensures Patch(was, at, part)[r] == if at <= r < at + |part| then part[r - at] else was[r]
  { }

  /** What one turn of writei's loop stores: the next m bytes, in the block they belong to. */
  ghost predicate Turn(s: Fs, i: nat, off0: nat, off: nat, m: nat, src: seq<Byte>) {
    && i < |s.inodes| && 0 < m && off0 <= off && off + m <= off0 + |src| && off % BSIZE + m <= BSIZE
    && off / BSIZE < MAXFILE && P(s, i, off / BSIZE) != 0 && P(s, i, off / BSIZE) < |s.blocks|
  }

  function TurnData(s: Fs, i: nat, off0: nat, off: nat, m: nat, src: seq<Byte>): Block
    requires Turn(s, i, off0, off, m, src)
  {
    Patch(s.blocks[P(s, i, off / BSIZE)], off % BSIZE, src[off - off0..off - off0 + m])
  }

  function AfterTurn(s: Fs, i: nat, off0: nat, off: nat, m: nat, src: seq<Byte>): Fs
    requires Turn(s, i, off0, off, m, src)
  {
    SetBlock(s, P(s, i, off / BSIZE), TurnData(s, i, off0, off, m, src))
  }

  /** A byte under an allocated block after a turn. */
  lemma TurnByte(sb: Super, s: Fs, owner: Owners, i: nat, off0: nat, off: nat, m: nat, src: seq<Byte>, k: nat)
    requires Wired(sb, s, owner) && Turn(s, i, off0, off, m, src)
    requires k < MAXFILE * BSIZE && P(s, i, k / BSIZE) != 0
    ensures P(AfterTurn(s, i, off0, off, m, src), i, k / BSIZE) == P(s, i, k / BSIZE)
    ensures ByteAt(AfterTurn(s, i, off0, off, m, src), i, k) ==
      if off <= k < off + m then src[k - off0] else ByteAt(s, i, k)
  {
    WriteByte(sb, s, owner, i, off / BSIZE, TurnData(s, i, off0, off, m, src), i, k);
    PatchAt(s.blocks[P(s, i, off / BSIZE)], off % BSIZE, src[off - off0..off - off0 + m], k % BSIZE);
    if off <= k < off + m { SameBlock(off, m, k); }
    hide P, Wired, Patch;
  }

  lemma UntouchedData(sb: Super, s0: Fs, s: Fs, owner: Owners, i: nat, n: nat, data: Block, j: nat)
    requires Sound(sb, s, owner) && i < |s.inodes| && n < MAXFILE && P(s, i, n) != 0
    requires j < |s0.inodes| == |s.inodes| && j != i && Untouched(s0, s, j)
    ensures P(s, i, n) < |s.blocks| && Untouched(s0, SetBlock(s, P(s, i, n), data), j)
  {
    WriteWired(sb, s, owner, i, n, data);
    hide P;
    var t := SetBlock(s, P(s, i, n), data);
    forall k: nat | k < s0.inodes[j].size && k < MAXFILE * BSIZE ensures ByteAt(t, j, k) == ByteAt(s0, j, k) {
      ByteOwned(sb, s, owner, j, k);
      WriteByte(sb, s, owner, i, n, data, j, k);
    }
  }

  /** One turn of writei's loop. */
  lemma WrittenTurn(sb: Super, s0: Fs, s: Fs, owner: Owners, i: nat, off0: nat, off: nat, m: nat, src: seq<Byte>)
    requires Sound(sb, s, owner) && i < |s0.inodes| && Written(s0, s, i, off0, off, src)
    requires Turn(s, i, off0, off, m, src)
    ensures Sound(sb, AfterTurn(s, i, off0, off, m, src), owner)
    ensures Written(s0, AfterTurn(s, i, off0, off, m, src), i, off0, off + m, src)
  {
    hide P, ByteAt, Wired, Untouched, TurnData;
    var n, data := off / BSIZE, TurnData(s, i, off0, off, m, src);
    var t := AfterTurn(s, i, off0, off, m, src);
    WriteWired(sb, s, owner, i, n, data);
    forall k: nat | off0 <= k < off + m ensures Done(t, i, off0, src, k) {
      if k < off { assert Done(s, i, off0, src, k); } else { SameBlock(off, m, k); }
      TurnByte(sb, s, owner, i, off0, off, m, src, k);
    }
    forall k: nat | k < s0.inodes[i].size && !(off0 <= k < off + m) ensures ByteAt(t, i, k) == ByteAt(s0, i, k) {
      ByteOwned(sb, s, owner, i, k);
      TurnByte(sb, s, owner, i, off0, off, m, src, k);
    }
    forall j: nat | j < |s0.inodes| && j != i ensures Untouched(s0, t, j) {
      UntouchedData(sb, s0, s, owner, i, n, data, j);
    }
    GrownFilled(s, t, i);
  }

  lemma SameBlock(off: nat, m: nat, k: nat)
    requires off % BSIZE + m <= BSIZE && off <= k < off + m
    ensures k / BSIZE == off / BSIZE && k % BSIZE == off % BSIZE + (k - off)
  { }

  // ----- a finished write -----

  /** The byte sequence c with src written at off. */
  function Spliced(c: seq<Byte>, off: nat, src: seq<Byte>): seq<Byte>
    requires off <= |c|
  {
    c[..off] + src + if off + |src| < |c| then c[off + |src|..] else []
  }

  /** A write reaches as far as the longer of the file and what is written, and changes the bytes it
      covers and no others. */
  lemma SplicedBytes(c: seq<Byte>, off: nat, src: seq<Byte>)
    requires off <= |c|
    ensures |Spliced(c, off, src)| == if off + |src| > |c| then off + |src| else |c|
    ensures forall k :: 0 <= k < |Spliced(c, off, src)| ==>
      Spliced(c, off, src)[k] == if off <= k < off + |src| then src[k - off] else c[k]
  { }

  lemma SizeWired(sb: Super, s: Fs, owner: Owners, i: nat, size: nat)
    requires Wired(sb, s, owner) && i < |s.inodes|
    ensures Wired(sb, SetSize(s, i, size), owner)
    ensures forall j: nat, m: nat :: j < |s.inodes| && m <= INDIRECT ==> P(SetSize(s, i, size), j, m) == P(s, j, m)
  {
    var t := SetSize(s, i, size);
    forall j: nat, m: nat | j < |s.inodes| && m <= INDIRECT ensures P(t, j, m) == P(s, j, m) { }
    hide P, Ptr;
    forall c | c in owner ensures OwnedBy(sb, t, c, owner[c]) { assert OwnedBy(sb, s, c, owner[c]); }
    forall b | 0 <= b < sb.size ensures Bit(sb, t, b) <==> Bit(sb, s, b) { }
  }

  /** The size after a write of n bytes at off. */
  function SizeAfter(size: nat, off: nat, n: nat): nat {
    if n > 0 && off + n > size then off + n else size
  }

  lemma WrittenFilled(sb: Super, s0: Fs, s: Fs, owner: Owners, i: nat, off: nat, src: seq<Byte>)
    requires Sound(sb, s, owner) && i < |s0.inodes| && Written(s0, s, i, off, off + |src|, src)
    requires off <= s0.inodes[i].size
    ensures Sound(sb, SetSize(s, i, SizeAfter(s.inodes[i].size, off, |src|)), owner)
  {
    hide Wired, P, ByteAt;
    var t := SetSize(s, i, SizeAfter(s.inodes[i].size, off, |src|));
    SizeWired(sb, s, owner, i, SizeAfter(s.inodes[i].size, off, |src|));
    forall j: nat, m: nat | j < |t.inodes| && m < MAXFILE && m * BSIZE < t.inodes[j].size ensures P(t, j, m) != 0 {
      if j == i && s.inodes[i].size <= m * BSIZE {
        assert Done(s, i, off, src, m * BSIZE);
        assert m * BSIZE / BSIZE == m;
      } else {
        assert P(s, j, m) != 0;
      }
    }
  }

  /** After the last turn the file holds the spliced bytes and every other file is as it was. */
  lemma WrittenAll(sb: Super, s0: Fs, s: Fs, owner: Owners, i: nat, off: nat, src: seq<Byte>)
    requires Sound(sb, s, owner) && Filled(s0) && i < |s0.inodes| && off <= s0.inodes[i].size
    requires Written(s0, s, i, off, off + |src|, src)
    ensures var t := SetSize(s, i, SizeAfter(s.inodes[i].size, off, |src|));
      && Sound(sb, t, owner) && Content(t, i) == Spliced(Content(s0, i), off, src)
      && forall j: nat :: j < |s0.inodes| && j != i ==> t.inodes[j] == s0.inodes[j] && Content(t, j) == Content(s0, j)
  {
    hide Wired, P, Untouched;
    var size := SizeAfter(s.inodes[i].size, off, |src|);
    var t := SetSize(s, i, size);
    WrittenFilled(sb, s0, s, owner, i, off, src);
    SizeWired(sb, s, owner, i, size);
    var c := Spliced(Content(s0, i), off, src);
    forall k: nat | k < size ensures ByteAt(t, i, k) == c[k] {
      assert ByteAt(t, i, k) == ByteAt(s, i, k);
      if off <= k < off + |src| { assert Done(s, i, off, src, k); } else { assert ByteAt(s, i, k) == ByteAt(s0, i, k); }
    }
    forall j: nat | j < |s0.inodes| && j != i ensures t.inodes[j] == s0.inodes[j] && Content(t, j) == Content(s0, j) {
      UntouchedContent(s0, s, t, j);
    }
  }

  lemma UntouchedContent(s0: Fs, s: Fs, t: Fs, j: nat)
    requires Filled(s0) && j < |s0.inodes| == |s.inodes| == |t.inodes| && Untouched(s0, s, j)
    requires t.blocks == s.blocks && t.inodes[j] == s.inodes[j]
    ensures t.inodes[j] == s0.inodes[j] && Content(t, j) == Content(s0, j)
  {
    hide P;
    forall k: nat | k < s0.inodes[j].size ensures ByteAt(t, j, k) == ByteAt(s0, j, k) {
      assert ByteAt(s, j, k) == ByteAt(s0, j, k);
      SamePtr(s, t, j, k / BSIZE);
    }
  }

  lemma SamePtr(s: Fs, t: Fs, j: nat, n: nat)
    requires j < |s.inodes| == |t.inodes| && n <= INDIRECT && t.blocks == s.blocks && t.inodes[j] == s.inodes[j]
    ensures P(t, j, n) == P(s, j, n)
  { }

  lemma WrittenNone(s: Fs, i: nat, off: nat, src: seq<Byte>)
    requires i < |s.inodes| && s.inodes[i].size <= MAXFILE * BSIZE && off + |src| <= MAXFILE * BSIZE
    ensures Written(s, s, i, off, off, src)
  { }
}
