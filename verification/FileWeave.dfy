/** A file write among other operations: filewrite gives up the inode's lock and ends its log
    operation between chunks, and anything may happen there. */
module FileWeave {
  import opened Params
  import opened FsBlocks
  import opened FsState
  import opened FsSteps
  import opened InodeLayer
  import Dinodes
  import opened FileRuns
  import opened FileOps

  datatype Turn = Own(op: Op) | Theirs(op: Op)

  function OpsOf(trace: seq<Turn>): (ops: seq<Op>)
    ensures |ops| == |trace|
  {
    seq(|trace|, k requires 0 <= k < |trace| => trace[k].op)
  }

  function TheirOps(trace: seq<Turn>): seq<Op> {
    if trace == [] then []
    else TheirOps(trace[..|trace| - 1]) + var last := trace[|trace| - 1]; if last.Theirs? then [last.op] else []
  }

  /** The bytes that the write's own turns carry, in order. */
  function OwnBytes(trace: seq<Turn>): seq<Byte> {
    if trace == [] then []
    else
      var last := trace[|trace| - 1];
      OwnBytes(trace[..|trace| - 1]) + if last.Own? && last.op.WriteAt? then last.op.src else []
  }

  /** The write's own turns are chunks of file ip, one behind the other from off on. */
  predicate Placed(trace: seq<Turn>, ip: nat, off: nat) {
    trace == [] ||
    var before, last := trace[..|trace| - 1], trace[|trace| - 1];
    && Placed(before, ip, off)
    && (last.Own? ==>
          last.op.WriteAt? && |last.op.src| <= CHUNK && last.op.i == ip && last.op.off == off + |OwnBytes(before)|)
  }

  function Flatten(ops: seq<seq<Op>>): seq<Op> {
    if ops == [] then [] else Flatten(ops[..|ops| - 1]) + ops[|ops| - 1]
  }

  function TheirTurns(ops: seq<Op>): (turns: seq<Turn>)
    ensures |turns| == |ops|
  {
    seq(|ops|, k requires 0 <= k < |ops| => Theirs(ops[k]))
  }

  lemma {:induction false} FlatRunConcat(files: seq<seq<Byte>>, a: seq<Op>, b: seq<Op>)
    ensures FlatRun(files, a + b).0 == FlatRun(FlatRun(files, a).0, b).0
    decreases |b|
  {
    if b == [] {
      assert a + b == a;
    } else {
      var n := |b| - 1;
      assert (a + b)[..|a + b| - 1] == a + b[..n] && (a + b)[|a + b| - 1] == b[n];
      FlatRunConcat(files, a, b[..n]);
    }
  }

  lemma OneTheirs(trace: seq<Turn>, op: Op, ip: nat, off: nat)
    requires Placed(trace, ip, off)
    ensures var all := trace + [Theirs(op)];
      && Placed(all, ip, off) && OwnBytes(all) == OwnBytes(trace) && TheirOps(all) == TheirOps(trace) + [op]
      && OpsOf(all) == OpsOf(trace) + [op]
  {
    var all := trace + [Theirs(op)];
    assert all[..|all| - 1] == trace;
  }

  lemma {:induction false} AppendTheirs(trace: seq<Turn>, ops: seq<Op>, ip: nat, off: nat)
    requires Placed(trace, ip, off)
    ensures var all := trace + TheirTurns(ops);
      && Placed(all, ip, off) && OwnBytes(all) == OwnBytes(trace) && TheirOps(all) == TheirOps(trace) + ops
      && OpsOf(all) == OpsOf(trace) + ops
    decreases |ops|
  {
    hide Placed, OwnBytes, TheirOps, OpsOf;
    var all := trace + TheirTurns(ops);
    if ops == [] {
      assert all == trace;
    } else {
      var n := |ops| - 1;
      AppendTheirs(trace, ops[..n], ip, off);
      OneTheirs(trace + TheirTurns(ops[..n]), ops[n], ip, off);
      assert all == trace + TheirTurns(ops[..n]) + [Theirs(ops[n])];
      assert ops == ops[..n] + [ops[n]];
    }
  }

  lemma AppendOwn(trace: seq<Turn>, op: Op, ip: nat, off: nat)
    requires Placed(trace, ip, off) && op.WriteAt? && op.i == ip && op.off == off + |OwnBytes(trace)|
    requires |op.src| <= CHUNK
    ensures var all := trace + [Own(op)];
      && Placed(all, ip, off) && OwnBytes(all) == OwnBytes(trace) + op.src && TheirOps(all) == TheirOps(trace)
      && OpsOf(all) == OpsOf(trace) + [op]
  {
    var all := trace + [Own(op)];
    assert all[..|all| - 1] == trace;
  }

  lemma OneOp(files: seq<seq<Byte>>, op: Op)
    ensures FlatRun(files, [op]).0 == FlatStep(files, op).0
  {
    assert [op][..0] == [];
    assert FlatRun(files, []) == (files, []);
  }

  /** What the parts of a trace are: the others' turns in order, and the bytes of its own. */
  lemma {:induction false} WeaveLaws(a: seq<Turn>, b: seq<Turn>, op: Op)
    ensures TheirOps(a + b) == TheirOps(a) + TheirOps(b) && OwnBytes(a + b) == OwnBytes(a) + OwnBytes(b)
    ensures TheirOps([Theirs(op)]) == [op] && TheirOps([Own(op)]) == [] && OwnBytes([Theirs(op)]) == []
    ensures OwnBytes([Own(op)]) == if op.WriteAt? then op.src else []
    decreases |b|
  {
    assert [Theirs(op)][..0] == [] && [Own(op)][..0] == [];
    if b == [] {
      assert a + b == a;
    } else {
      var n := |b| - 1;
      assert (a + b)[..|a + b| - 1] == a + b[..n] && (a + b)[|a + b| - 1] == b[n];
      WeaveLaws(a, b[..n], op);
    }
  }

  lemma {:induction false} FlattenLaws(a: seq<seq<Op>>, b: seq<seq<Op>>, ops: seq<Op>)
    ensures Flatten(a + b) == Flatten(a) + Flatten(b) && Flatten([ops]) == ops && Flatten([]) == []
    decreases |b|
  {
    assert [ops][..0] == [] && [] + ops == ops;
    if b == [] {
      assert a + b == a;
    } else {
      var n := |b| - 1;
      assert (a + b)[..|a + b| - 1] == a + b[..n] && (a + b)[|a + b| - 1] == b[n];
      FlattenLaws(a, b[..n], ops);
    }
  }

  /** One chunk: a log operation that writes part at the file's offset and moves it, or nothing. */
  method WriteChunk(f: File, fs: FileSystem, part: seq<Byte>) returns (ok: bool, r: int)
    requires fs.Valid() && f.ip < |fs.inodes| && f.off < WORD && 0 < |part| <= CHUNK
    modifies f`off, fs
    ensures ok ==> fs.Valid() && |fs.inodes| == |old(fs.inodes)| && |fs.logged| <= MAXOPBLOCKS
    ensures ok && r < 0 ==> f.off == old(f.off) && fs.S() == old(fs.S()) && fs.Refuses(f.ip, f.off, |part|)
    ensures ok && r >= 0 ==> r == |part| && f.off == old(f.off) + r < WORD
    ensures ok && r >= 0 ==> Files(fs.S()) == FlatStep(old(Files(fs.S())), WriteAt(f.ip, old(f.off), part)).0
    ensures !ok ==> NoneFree(fs.sb, fs.S())
  {
    hide Wired, Filled, Content, NoneFree, InodeLayer.Wrote, BytesWritten, Files, FlatStep, Dinodes.Encodes;
    ghost var s, off := fs.S(), f.off;
    ok, r := f.Chunk(fs, part);
    if ok && r >= 0 { ChunkFiles(s, fs.S(), WriteAt(f.ip, off, part)); }
  }

  /** The state of a woven write after i bytes and turns of the others' turns. */
  ghost predicate Woven(files: seq<seq<Byte>>, now: seq<seq<Byte>>, trace: seq<Turn>, ip: nat, off: nat,
                        bytes: seq<Byte>, theirs: seq<Op>) {
    && now == FlatRun(files, OpsOf(trace)).0 && Placed(trace, ip, off)
    && OwnBytes(trace) == bytes && TheirOps(trace) == theirs
  }

  lemma WovenTheirs(files: seq<seq<Byte>>, now: seq<seq<Byte>>, trace: seq<Turn>, ip: nat, off: nat,
                    bytes: seq<Byte>, theirs: seq<Op>, ops: seq<Op>)
    requires Woven(files, now, trace, ip, off, bytes, theirs)
    ensures Woven(files, FlatRun(now, ops).0, trace + TheirTurns(ops), ip, off, bytes, theirs + ops)
  {
    hide FlatRun, Placed, OwnBytes, TheirOps, OpsOf;
    FlatRunConcat(files, OpsOf(trace), ops);
    AppendTheirs(trace, ops, ip, off);
  }

  lemma WovenOwn(files: seq<seq<Byte>>, now: seq<seq<Byte>>, trace: seq<Turn>, ip: nat, off: nat, bytes: seq<Byte>,
                 theirs: seq<Op>, part: seq<Byte>)
    requires Woven(files, now, trace, ip, off, bytes, theirs) && |part| <= CHUNK
    ensures var op := WriteAt(ip, off + |bytes|, part);
      Woven(files, FlatStep(now, op).0, trace + [Own(op)], ip, off, bytes + part, theirs)
  {
    hide FlatRun, FlatStep, Placed, OwnBytes, TheirOps, OpsOf;
    var op := WriteAt(ip, off + |bytes|, part);
    OneOp(now, op);
    FlatRunConcat(files, OpsOf(trace), [op]);
    AppendOwn(trace, op, ip, off);
  }

  /** filewrite on an inode, with others[k] happening before its k-th chunk.  All files end up as
      the operations in trace make them, which are the others' in their order and the write's
      chunks, each of them atomic and logging at most MAXOPBLOCKS blocks; the chunks carry the
      bytes in order, one behind the other, all of them unless one was refused. */
  method FileWriteAmong(f: File, fs: FileSystem, addr: seq<Byte>, n: int, others: seq<seq<Op>>)
    returns (ok: bool, r: int, ghost done: nat, ghost turns: nat, ghost trace: seq<Turn>, ghost ops: seq<set<nat>>)
    requires fs.Valid() && f.ip < |fs.inodes| && f.off < WORD && n <= |addr| && n < WORD / 2
    requires forall k, m :: 0 <= k < |others| && 0 <= m < |others[k]| ==> Proper(others[k][m], |fs.inodes|)
    modifies f`off, fs
    ensures done <= |addr| && turns <= |others| && forall k :: 0 <= k < |ops| ==> |ops[k]| <= MAXOPBLOCKS
    ensures ok ==> fs.Valid() && |fs.inodes| == |old(fs.inodes)| && f.off == old(f.off) + done
    ensures ok ==>
      Woven(old(Files(fs.S())), Files(fs.S()), trace, f.ip, old(f.off), addr[..done], Flatten(others[..turns]))
    ensures ok ==> r == if f.writable && done == n then n else -1
    ensures ok && f.writable && done != n && n >= 0 ==> done < n && f.NextRefused(fs, n - done)
    ensures !f.writable ==> ok && done == 0 && trace == []
    ensures !ok ==> NoneFree(fs.sb, fs.S())
  {
    hide Wired, Filled, Content, NoneFree, Files, FlatRun, FlatStep, Flatten, Proper, Woven, Dinodes.Encodes;
    ghost var files, off := Files(fs.S()), f.off;
    done, turns, trace, ops := 0, 0, [], [];
    Nothing(files, f.ip, f.off);
    assert addr[..0] == [] && others[..0] == [];
    if !f.writable { return true, -1, done, turns, trace, ops; }
    var i, k := 0, 0;
    while i < n
      invariant 0 <= i && (i <= n || i == 0) && done == i && f.off == off + i < WORD
      invariant 0 <= k && turns == (if k < |others| then k else |others|)
      invariant fs.Valid() && |fs.inodes| == |old(fs.inodes)|
      invariant Woven(files, Files(fs.S()), trace, f.ip, off, addr[..i], Flatten(others[..turns]))
      invariant forall j :: 0 <= j < |ops| ==> |ops[j]| <= MAXOPBLOCKS
      decreases n - i
    {
      if k < |others| {
        ghost var before := Files(fs.S());
        var outcomes;
        ok, outcomes := FileRuns.Run(fs, others[k]);
        if !ok { return false, -1, done, turns, trace, ops; }
        WovenTheirs(files, before, trace, f.ip, off, addr[..i], Flatten(others[..k]), others[k]);
        FlattenNext(others, k);
        trace, turns := trace + TheirTurns(others[k]), k + 1;
      }
      k := k + 1;
      var n1 := n - i;
      if n1 > CHUNK { n1 := CHUNK; }
      ghost var before := Files(fs.S());
      ok, r := WriteChunk(f, fs, addr[i..i + n1]);
      if !ok { return false, -1, done, turns, trace, ops; }
      ops := ops + [fs.logged];
      if r < 0 { break; }
      WovenOwn(files, before, trace, f.ip, off, addr[..i], Flatten(others[..turns]), addr[i..i + n1]);
      trace := trace + [Own(WriteAt(f.ip, off + i, addr[i..i + n1]))];
      assert addr[..i] + addr[i..i + n1] == addr[..i + n1];
      i := i + r;
      done := i;
    }
    return true, if i == n then n else -1, done, turns, trace, ops;
  }

  lemma Nothing(files: seq<seq<Byte>>, ip: nat, off: nat)
    ensures Flatten([]) == [] && Woven(files, files, [], ip, off, [], [])
  {
    assert OpsOf([]) == [] && FlatRun(files, []).0 == files;
  }

  lemma FlattenNext(others: seq<seq<Op>>, k: nat)
    requires k < |others|
    ensures Flatten(others[..k + 1]) == Flatten(others[..k]) + others[k]
  {
    assert others[..k + 1][..k] == others[..k];
  }

  lemma ChunkFiles(s: Fs, t: Fs, op: Op)
    requires op.WriteAt? && InodeLayer.Wrote(s, t, op.i, op.off, op.src) && op.off + |op.src| <= MAXFILE * BSIZE
    ensures Files(t) == FlatStep(Files(s), op).0
  {
    hide Content, Spliced;
    FileSizes(s, op.i);
    WroteFiles(s, t, op.i, op.off, op.src);
  }
}
