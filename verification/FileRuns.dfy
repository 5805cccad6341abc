/** Whole runs of the inode layer refine operations on byte sequences, one per inode. */
module FileRuns {
  import opened FsBlocks
  import opened FsState
  import opened FsSteps
  import opened FsTrunc
  import opened InodeLayer
  import Dinodes

  datatype Op = WriteAt(i: nat, off: nat, src: seq<Byte>) | ReadAt(i: nat, off: nat, n: nat) | Truncate(i: nat)

  datatype Outcome = Wrote(n: nat) | Got(bytes: seq<Byte>) | Refused | Emptied

  /** Arguments are 32-bit, and the inode exists. */
  predicate Proper(op: Op, inodes: nat) {
    && op.i < inodes
    && (op.WriteAt? ==> op.off < WORD && |op.src| < WORD)
    && (op.ReadAt? ==> op.off < WORD && op.n < WORD)
  }

  /** One operation on plain byte sequences. */
  function FlatStep(files: seq<seq<Byte>>, op: Op): (r: (seq<seq<Byte>>, Outcome))
    ensures |r.0| == |files|
  {
    if op.i >= |files| then (files, Refused) else
    var file := files[op.i];
    match op
    case WriteAt(i, off, src) =>
      if off > |file| || off + |src| >= WORD || off + |src| > MAXFILE * BSIZE then (files, Refused)
      else (files[i := Spliced(file, off, src)], Outcome.Wrote(|src|))
    case ReadAt(i, off, n) =>
      if off > |file| || off + n >= WORD then (files, Refused)
      else (files, Got(file[off..if n < |file| - off then off + n else |file|]))
    case Truncate(i) => (files[i := []], Emptied)
  }

  function FlatRun(files: seq<seq<Byte>>, ops: seq<Op>): (r: (seq<seq<Byte>>, seq<Outcome>))
    ensures |r.0| == |files|
    decreases |ops|
  {
    if ops == [] then (files, [])
    else
      var last := |ops| - 1;
      var (before, os) := FlatRun(files, ops[..last]);
      var (after, o) := FlatStep(before, ops[last]);
      (after, os + [o])
  }

  /** All files' contents. */
  ghost function Files(s: Fs): (files: seq<seq<Byte>>)
    requires Filled(s)
    ensures |files| == |s.inodes|
  {
    seq(|s.inodes|, i requires 0 <= i < |s.inodes| => Content(s, i))
  }

  /** One file changes, or none. */
  lemma FilesChanged(s: Fs, t: Fs, i: nat, now: seq<Byte>)
    requires Filled(s) && Filled(t) && i < |s.inodes| == |t.inodes| && Content(t, i) == now
    requires forall j: nat :: j < |s.inodes| && j != i ==> t.inodes[j] == s.inodes[j] && Content(t, j) == Content(s, j)
    ensures Files(t) == Files(s)[i := now]
  {
    hide Content;
  }

  lemma WroteFiles(s: Fs, t: Fs, i: nat, off: nat, src: seq<Byte>)
    requires InodeLayer.Wrote(s, t, i, off, src)
    ensures Files(t) == Files(s)[i := Spliced(Files(s)[i], off, src)]
  {
    hide Content, Spliced;
    FilesChanged(s, t, i, Spliced(Content(s, i), off, src));
  }

  lemma FileSizes(s: Fs, i: nat)
    requires Filled(s) && i < |s.inodes|
    ensures |Files(s)[i]| == s.inodes[i].size
  { }

  /** One operation, through block maps, bitmap and blocks, does what byte sequences do; it can
      only fail (panic) on a full disk. */
  method Perform(fs: FileSystem, op: Op) returns (ok: bool, o: Outcome)
    requires fs.Valid() && Proper(op, |fs.inodes|)
    modifies fs
    ensures ok ==>
      fs.Valid() && |fs.inodes| == |old(fs.inodes)| && (Files(fs.S()), o) == FlatStep(old(Files(fs.S())), op)
    ensures !ok ==> NoneFree(fs.sb, fs.S())
  {
    hide Wired, Filled, FilledAt, Content, NoneFree, InodeLayer.Wrote, BytesWritten, Files, Dinodes.Encodes;
    ghost var s := fs.S();
    SoundParts(fs.sb, s, fs.owner);
    FileSizes(s, op.i);
    ok := true;
    match op
    case WriteAt(i, off, src) =>
      var n;
      ghost var touched;
      ok, n, touched := fs.Writei(i, src, off);
      o := if n < 0 then Refused else Outcome.Wrote(n);
      if ok && n >= 0 { WroteFiles(s, fs.S(), i, off, src); }
    case ReadAt(i, off, n) =>
      FilledEach(s, i);
      var r, dst := fs.Readi(i, off, n);
      o := if r < 0 then Refused else Got(dst);
      FileIs(s, i);
    case Truncate(i) =>
      ok := fs.Itrunc(i);
      o := Emptied;
      SoundParts(fs.sb, fs.S(), fs.owner);
      FilesChanged(s, fs.S(), i, []);
  }

  lemma FileIs(s: Fs, i: nat)
    requires Filled(s) && i < |s.inodes|
    ensures Files(s)[i] == Content(s, i)
  { }

  /** Over every run the files are exactly what the same operations make of byte sequences, and so
      is everything that was read. */
  method Run(fs: FileSystem, ops: seq<Op>) returns (ok: bool, outcomes: seq<Outcome>)
    requires fs.Valid() && forall k :: 0 <= k < |ops| ==> Proper(ops[k], |fs.inodes|)
    modifies fs
    ensures ok ==> fs.Valid() && |fs.inodes| == |old(fs.inodes)|
    ensures ok ==> (Files(fs.S()), outcomes) == FlatRun(old(Files(fs.S())), ops)
    ensures !ok ==> NoneFree(fs.sb, fs.S())
  {
    hide Wired, Filled, Content, NoneFree, Files, FlatStep, Dinodes.Encodes;
    ghost var files := Files(fs.S());
    outcomes := [];
    var k := 0;
    while k < |ops|
      invariant k <= |ops| && fs.Valid() && |fs.inodes| == |old(fs.inodes)| == |files|
      invariant (Files(fs.S()), outcomes) == FlatRun(files, ops[..k])
    {
      assert ops[..k + 1][..k] == ops[..k];
      var o;
      ok, o := Perform(fs, ops[k]);
      if !ok { return; }
      outcomes := outcomes + [o];
      k := k + 1;
    }
    assert ops[..k] == ops;
    ok := true;
  }
}
