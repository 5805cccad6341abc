/** Reading and writing an open file: the offset moves with the bytes, and a long write is cut into
    log operations small enough for the log. */
module FileOps {
  import opened Params
  import opened FsBlocks
  import opened FsState
  import opened FsSteps
  import opened InodeLayer
  import Dinodes

  /** filewrite's max: ((MAXOPBLOCKS-1-1-2) / 2) * 512. */
  const CHUNK: nat := (MAXOPBLOCKS - 1 - 1 - 2) / 2 * 512

  lemma SplicedTwice(c: seq<Byte>, off: nat, a: seq<Byte>, b: seq<Byte>)
    requires off <= |c|
    ensures off + |a| <= |Spliced(c, off, a)|
    ensures Spliced(Spliced(c, off, a), off + |a|, b) == Spliced(c, off, a + b)
  { }

  lemma SplicedReads(c: seq<Byte>, off: nat, src: seq<Byte>)
    requires off <= |c|
    ensures off + |src| <= |Spliced(c, off, src)| && Spliced(c, off, src)[off..off + |src|] == src
  { }

  /** writei followed by readi of the same range: what was written is what is read back. */
  method WriteThenRead(fs: FileSystem, i: nat, src: seq<Byte>, off: nat)
    returns (ok: bool, w: int, r: int, dst: seq<Byte>)
    requires fs.Valid() && i < |fs.inodes| && off < WORD && |src| < WORD
    modifies fs
    ensures ok && !old(fs.Refuses(i, off, |src|)) ==> w == r == |src| && dst == src
    ensures !ok ==> NoneFree(fs.sb, fs.S())
  {
    hide Wired, Filled, FilledAt, Content, Spliced, NoneFree;
    r, dst := -1, [];
    ghost var s := fs.S();
    SoundParts(fs.sb, s, fs.owner);
    SizeIn(fs.sb, s, fs.owner, i);
    ghost var touched;
    ok, w, touched := fs.Writei(i, src, off);
    if ok && w >= 0 {
      SoundParts(fs.sb, fs.S(), fs.owner);
      FilledEach(fs.S(), i);
      SplicedReads(Content(s, i), off, src);
      r, dst := fs.Readi(i, off, |src|);
    }
  }

  lemma WroteNothing(s: Fs, i: nat, off: nat)
    requires Filled(s) && i < |s.inodes| && off <= s.inodes[i].size
    ensures Wrote(s, s, i, off, [])
  {
    hide Content;
    var c := Content(s, i);
    assert c[..off] + [] + c[off..] == c;
    assert off == |c| ==> c[off..] == [];
  }

  lemma WroteTwice(r: Fs, s: Fs, t: Fs, i: nat, off: nat, a: seq<Byte>, b: seq<Byte>)
    requires Wrote(r, s, i, off, a) && Wrote(s, t, i, off + |a|, b)
    ensures Wrote(r, t, i, off, a + b)
  {
    hide Content;
    SplicedTwice(Content(r, i), off, a, b);
  }

  class File {
    const ip: nat
    const readable: bool
    const writable: bool
    var off: nat

    /** fileread on an inode. */
    method FileRead(fs: FileSystem, n: nat) returns (r: int, dst: seq<Byte>)
      requires fs.Valid() && ip < |fs.inodes| && off < WORD && n < WORD
      modifies this`off, fs
      ensures fs.Valid() && fs.S() == old(fs.S()) && fs.logged == old(fs.logged)
      ensures !readable || old(off) > fs.inodes[ip].size || old(off) + n >= WORD ==> r == -1 && off == old(off)
      ensures readable && old(off) <= fs.inodes[ip].size && old(off) + n < WORD ==>
        0 <= r == (if n < fs.inodes[ip].size - old(off) then n else fs.inodes[ip].size - old(off))
        && off == old(off) + r && dst == Content(fs.S(), ip)[old(off)..off]
    {
      hide Sound, Content, Wired, Filled, FilledAt, Dinodes.Encodes;
      SizeIn(fs.sb, fs.S(), fs.owner, ip);
      SoundParts(fs.sb, fs.S(), fs.owner);
      FilledEach(fs.S(), ip);
      dst := [];
      if !readable { return -1, dst; }
      r, dst := fs.Readi(ip, off, n);
      if r > 0 { off := off + r; }
    }

    /** The next chunk would be refused. */
    ghost predicate NextRefused(fs: FileSystem, left: nat)
      requires ip < |fs.inodes|
      reads this, fs
    {
      fs.Refuses(ip, off, if left > CHUNK then CHUNK else left)
    }

    /** One log operation of filewrite: a chunk is written at the offset, which moves past it, or refused. */
    method Chunk(fs: FileSystem, part: seq<Byte>) returns (ok: bool, r: int)
      requires fs.Valid() && ip < |fs.inodes| && off < WORD && 0 < |part| <= CHUNK
      modifies this`off, fs
      ensures ok ==> fs.Valid() && |fs.inodes| == |old(fs.inodes)| && |fs.logged| <= MAXOPBLOCKS
      ensures ok ==> (r < 0 <==> old(fs.Refuses(ip, off, |part|)))
      ensures ok && r < 0 ==> off == old(off) && fs.S() == old(fs.S()) && fs.Refuses(ip, off, |part|)
      ensures ok && r >= 0 ==> r == |part| && off == old(off) + r < WORD && off <= MAXFILE * BSIZE
      ensures ok && r >= 0 ==> Wrote(old(fs.S()), fs.S(), ip, old(off), part)
      ensures !ok ==> NoneFree(fs.sb, fs.S())
    {
      hide Wired, Filled, Content, NoneFree, Wrote, BytesWritten, Dinodes.Encodes;
      SizeIn(fs.sb, fs.S(), fs.owner, ip);
      fs.logged := {};
      ghost var touched;
      ok, r, touched := fs.Writei(ip, part, off);
      if !ok { return; }
      SubsetCard(fs.logged, touched);
      if r > 0 { off := off + r; }
    }

    /** filewrite on an inode.  done bytes are written and the offset has moved past them; all of
        them unless a chunk was refused.  ops are the sets of blocks that its log operations
        logged: none has more than MAXOPBLOCKS, and a whole write takes one for every 1536 bytes. */
    method FileWrite(fs: FileSystem, addr: seq<Byte>, n: int)
      returns (ok: bool, r: int, ghost done: nat, ghost ops: seq<set<nat>>)
      requires fs.Valid() && ip < |fs.inodes| && off < WORD && n <= |addr| && n < WORD / 2
      modifies this`off, fs
      ensures done <= |addr| && forall k :: 0 <= k < |ops| ==> |ops[k]| <= MAXOPBLOCKS
      ensures ok ==> fs.Valid() && |fs.inodes| == |old(fs.inodes)| && off == old(off) + done
      ensures ok ==> r == if writable && done == n then n else -1
      ensures ok && old(off <= fs.inodes[ip].size) ==> Wrote(old(fs.S()), fs.S(), ip, old(off), addr[..done])
      ensures ok && old(off > fs.inodes[ip].size) ==> done == 0 && fs.S() == old(fs.S())
      ensures ok && writable && done != n && n >= 0 ==> done < n && NextRefused(fs, n - done)
      ensures ok && writable && done == n ==> |ops| == (n + 1535) / 1536
      ensures ok && !writable ==> r == -1 && fs.S() == old(fs.S()) && off == old(off)
      ensures !ok ==> NoneFree(fs.sb, fs.S())
    {
      hide Sound, Content, Spliced, NoneFree, Wrote, BytesWritten, Dinodes.Encodes;
      ghost var s0 := fs.S();
      SizeIn(fs.sb, s0, fs.owner, ip);
      SoundParts(fs.sb, s0, fs.owner);
      if off <= fs.inodes[ip].size { WroteNothing(s0, ip, off); }
      done, ops := 0, [];
      assert addr[..0] == [];
      if !writable { return true, -1, done, ops; }
      var i := 0;
      while i < n
        invariant 0 <= i && (i <= n || i == 0)
        invariant done == i && off == old(off) + i
        invariant off < WORD
        invariant fs.Valid() && |fs.inodes| == |s0.inodes|
        invariant old(off <= fs.inodes[ip].size) ==> Wrote(s0, fs.S(), ip, old(off), addr[..i])
        invariant old(off > fs.inodes[ip].size) ==> i == 0 && fs.S() == s0
        invariant forall k :: 0 <= k < |ops| ==> |ops[k]| <= MAXOPBLOCKS
        invariant 0 <= 1536 * |ops| - i < 1536 && (i < n ==> i == 1536 * |ops|)
      {
        var n1 := n - i;
        if n1 > CHUNK { n1 := CHUNK; }
        ghost var s := fs.S();
        ok, r := Chunk(fs, addr[i..i + n1]);
        if !ok { return false, -1, done, ops; }
        ops := ops + [fs.logged];
        if r < 0 { break; }
        if old(off <= fs.inodes[ip].size) { WroteTwice(s0, s, fs.S(), ip, old(off), addr[..i], addr[i..i + n1]); }
        assert addr[..i] + addr[i..i + n1] == addr[..i + n1];
        i := i + r;
        done := i;
      }
      return true, if i == n then n else -1, done, ops;
    }
  }

  lemma SubsetCard(a: set<nat>, b: set<nat>)
    requires a <= b
    ensures |a| <= |b|
  {
    assert b == a + (b - a);
  }
}
