/** The image builder and the kernel joined: the kernel mounts a finished image and reads it. */
module Mount {
  import opened Params
  import opened FsBlocks
  import opened FsState
  import opened FsSteps
  import opened Dinodes
  import opened Mkfs
  import opened InodeLayer

  /** The bytes that a read of n at off of a file gets, or -1. */
  function Got(file: seq<Byte>, off: nat, n: nat): (int, seq<Byte>) {
    if off > |file| || off + n >= WORD then (-1, [])
    else
      var r := if n < |file| - off then n else |file| - off;
      (r, file[off..off + r])
  }

  /** What the root directory looks like once its size is rounded up. */
  function Padded(file: seq<Byte>): seq<Byte> {
    file + Zeros(BSIZE - |file| % BSIZE)
  }

  /** Finishing an image and mounting it: the file system is valid exactly when the root was not a
      whole number of blocks; block maps and free map agree, and every other file is allocated up
      to its size, in any case. */
  method FinishAndMount(img: Image, root: nat) returns (fs: FileSystem)
    requires img.Valid() && root < NINODES
    modifies img`blocks, img`iblocks, img`heads, img`inodes
    ensures fresh(fs) && fs.sb == SB && |fs.inodes| == NINODES == |img.files| && Wired(SB, fs.S(), fs.owner)
    ensures fs.Valid() <==> |img.files[root]| % BSIZE != 0
    ensures forall b: nat :: b < FSSIZE ==> (Bit(SB, fs.S(), b) <==> b < img.freeblock)
    ensures forall j: nat :: j < NINODES && j != root ==> FilledAt(fs.S(), j) && Content(fs.S(), j) == img.files[j]
    ensures |img.files[root]| % BSIZE != 0 ==>
      FilledAt(fs.S(), root) && Content(fs.S(), root) == Padded(img.files[root])
  {
    hide Wired, Filled, FilledAt, Content, Bit, Holds, Ends, Padded, Encodes;
    img.Finish(root);
    fs := new FileSystem(SB, img.blocks, img.iblocks, NINODES, img.owner);
    DecodesBack(img.iblocks, img.heads, img.inodes, fs.heads, fs.inodes);
    if |img.files[root]| % BSIZE != 0 {
      SoundParts(SB, fs.S(), fs.owner);
      FilledEach(fs.S(), root);
      PaddedIs(img.files[root]);
    }
  }

  lemma PaddedIs(file: seq<Byte>)
    ensures Padded(file) == file + Zeros(BSIZE - |file| % BSIZE)
  { }

  /** The kernel's readi on any inode of any finished image returns what was appended to it: for
      the root, padded with zeros, if its size was not a whole number of blocks; for every other
      inode whatever the root's size. */
  method ReadAfterMount(img: Image, root: nat, i: nat, off: nat, n: nat) returns (r: int, dst: seq<Byte>)
    requires img.Valid() && root < NINODES && i < NINODES && off < WORD && n < WORD
    requires i == root ==> |img.files[root]| % BSIZE != 0
    modifies img`blocks, img`iblocks, img`heads, img`inodes
    ensures |img.files| == NINODES
    ensures (r, dst) == Got(if i == root then Padded(img.files[root]) else img.files[i], off, n)
  {
    hide Wired, Filled, Content, Bit, Padded;
    var fs := FinishAndMount(img, root);
    r, dst := fs.Readi(i, off, n);
  }

  /** The kernel's balloc on a finished image returns the first block that the builder did not use,
      and panics only if it used them all. */
  method AllocAfterMount(img: Image, root: nat) returns (ok: bool, b: nat)
    requires img.Valid() && root < NINODES
    modifies img`blocks, img`iblocks, img`heads, img`inodes
    ensures if img.freeblock < FSSIZE then ok && b == img.freeblock else !ok
  {
    hide Mapped, Owned, Filled, Content, MapBit, Padded;
    var fs := FinishAndMount(img, root);
    ghost var s := fs.S();
    assert img.freeblock < FSSIZE ==> !Bit(SB, s, img.freeblock);
    ok, b := fs.Balloc();
    assert ok ==> !Bit(SB, s, b);
  }
}
