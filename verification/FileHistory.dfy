/** What every file holds, told from the operations of a run alone: how far the accepted writes since
    the last truncation reach, and which of them was the last to cover each byte. */
module FileHistory {
  import opened FsBlocks
  import opened FsState
  import opened FsSteps
  import opened InodeLayer
  import opened FileRuns

  /** writei takes the write, on a file of len bytes. */
  predicate Accepted(len: nat, off: nat, n: nat) {
    off <= len && off + n < WORD && off + n <= MAXFILE * BSIZE
  }

  function Max(a: nat, b: nat): nat { if a < b then b else a }

  /** The length of file i after the operations in done. */
  function LengthLeft(files: seq<seq<Byte>>, done: seq<Op>, i: nat): nat
    requires i < |files|
  {
    if done == [] then |files[i]|
    else
      var len, op := LengthLeft(files, done[..|done| - 1], i), done[|done| - 1];
      if op.i != i then len
      else
        match op
        case WriteAt(_, off, src) => if Accepted(len, off, |src|) then Max(len, off + |src|) else len
        case ReadAt(_, _, _) => len
        case Truncate(_) => 0
  }

  /** Byte k of file i, where there is one. */
  function ByteLeft(files: seq<seq<Byte>>, done: seq<Op>, i: nat, k: nat): Byte
    requires i < |files|
  {
    if done == [] then (if k < |files[i]| then files[i][k] else 0)
    else
      var front, op := done[..|done| - 1], done[|done| - 1];
      if op.i == i && op.WriteAt? && Accepted(LengthLeft(files, front, i), op.off, |op.src|)
         && op.off <= k < op.off + |op.src| then op.src[k - op.off]
      else ByteLeft(files, front, i, k)
  }

  /** What an operation returns after those in done. */
  predicate Shows(files: seq<seq<Byte>>, done: seq<Op>, op: Op, o: Outcome) {
    if op.i >= |files| then o == Refused
    else
      var len := LengthLeft(files, done, op.i);
      match op
      case WriteAt(i, off, src) => o == if Accepted(len, off, |src|) then Outcome.Wrote(|src|) else Refused
      case ReadAt(i, off, n) =>
        if off > len || off + n >= WORD then o == Refused
        else
          && o.Got? && |o.bytes| == (if n < len - off then n else len - off)
          && forall k :: 0 <= k < |o.bytes| ==> o.bytes[k] == ByteLeft(files, done, i, off + k)
      case Truncate(i) => o == Emptied
  }

  /** The files hold what the operations in done left. */
  ghost predicate Tells(files: seq<seq<Byte>>, done: seq<Op>, now: seq<seq<Byte>>) {
    && |now| == |files|
    && forall i: nat :: i < |files| ==> FileTold(files, done, i, now[i])
  }

  ghost predicate FileTold(files: seq<seq<Byte>>, done: seq<Op>, i: nat, file: seq<Byte>)
    requires i < |files|
  {
    && |file| == LengthLeft(files, done, i)
    && forall k :: 0 <= k < |file| ==> file[k] == ByteLeft(files, done, i, k)
  }

  lemma TellsFile(files: seq<seq<Byte>>, done: seq<Op>, now: seq<seq<Byte>>, op: Op, i: nat)
    requires Tells(files, done, now) && i < |files|
    ensures FileTold(files, done + [op], i, FlatStep(now, op).0[i])
  {
    hide Spliced;
    assert (done + [op])[..|done|] == done;
    assert FileTold(files, done, i, now[i]);
    if op.WriteAt? && op.i == i && op.off <= |now[i]| { SplicedBytes(now[i], op.off, op.src); }
  }

  lemma TellsStep(files: seq<seq<Byte>>, done: seq<Op>, now: seq<seq<Byte>>, op: Op)
    requires Tells(files, done, now)
    ensures Tells(files, done + [op], FlatStep(now, op).0) && Shows(files, done, op, FlatStep(now, op).1)
  {
    forall i: nat | i < |files| ensures FileTold(files, done + [op], i, FlatStep(now, op).0[i]) {
      TellsFile(files, done, now, op, i);
    }
    if op.i < |files| { assert FileTold(files, done, op.i, now[op.i]); }
  }

  /** Every run of operations on byte sequences. */
  lemma {:induction false} RunShows(files: seq<seq<Byte>>, ops: seq<Op>)
    ensures var (now, os) := FlatRun(files, ops);
      && |os| == |ops| && Tells(files, ops, now)
      && forall k :: 0 <= k < |ops| ==> Shows(files, ops[..k], ops[k], os[k])
    decreases |ops|
  {
    hide FlatStep, Shows;
    if ops == [] {
      forall i: nat | i < |files| ensures FileTold(files, [], i, files[i]) { }
    } else {
      hide Tells;
      var n := |ops| - 1;
      RunShows(files, ops[..n]);
      TellsStep(files, ops[..n], FlatRun(files, ops[..n]).0, ops[n]);
      assert ops[..n] + [ops[n]] == ops;
      forall k | 0 <= k < n ensures ops[..n][..k] == ops[..k] { }
    }
  }

  /** Every run of the inode layer: each read returns, byte by byte, what the last accepted write to
      cover it wrote, and each operation is refused exactly when its range is. */
  method Run(fs: FileSystem, ops: seq<Op>) returns (ok: bool, os: seq<Outcome>)
    requires fs.Valid() && forall k :: 0 <= k < |ops| ==> Proper(ops[k], |fs.inodes|)
    modifies fs
    ensures ok ==> fs.Valid() && Tells(old(Files(fs.S())), ops, Files(fs.S()))
    ensures ok ==>
      |os| == |ops| && forall k :: 0 <= k < |ops| ==> Shows(old(Files(fs.S())), ops[..k], ops[k], os[k])
    ensures !ok ==> NoneFree(fs.sb, fs.S())
  {
    hide Wired, Filled, Content, NoneFree, Files, FlatRun, Tells, Shows;
    RunShows(Files(fs.S()), ops);
    ok, os := FileRuns.Run(fs, ops);
  }
}
