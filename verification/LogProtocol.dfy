/** Group commit, crashes and recovery as one state machine over log.c.

    Any number of file system operations run concurrently.  One step is one critical
    section under log.lock, the unlocked capacity test of log_write, or one single-block
    disk write of commit or recovery; the machine may crash between any two steps. */
module LogProtocol {
  import opened Params
  import opened RedoLog

  /** One log_write: which operation wrote which block with which contents. */
  datatype Rec = Rec(op: nat, b: int, data: Block)

  /** A write whose capacity test has passed but which has not yet taken log.lock. */
  datatype Pending = NoWrite | Checked(b: int, data: Block)

  /** An operation between begin_op and end_op; used counts the blocks it appended. */
  datatype Op = Op(id: nat, used: nat, pending: Pending)

  datatype Reason = TooBigAppend | TooBigAbsorb | OutsideTransaction | EndWhileCommitting

  datatype Phase =
    | Running
    | Committing(k: nat)   // k disk writes of this commit are done
    | Finishing            // header erased, log.committing still set
    | Booting
    | Recovering(k: nat)   // k blocks are installed
    | Panicked(reason: Reason)

  datatype State = State(
    disk: Image,
    pinned: map<int, Block>,
    lh: seq<int>,
    outstanding: int,
    ops: seq<Op>,
    phase: Phase,
    // history
    nextId: nat,
    wrote: map<nat, seq<Rec>>,   // everything each operation ever log_wrote
    durable: seq<Rec>,           // writes of committed transactions, in order
    group: seq<Rec>)             // writes of the transaction in progress

  datatype Step =
    | Begin
    | Check(i: nat, b: int, data: Block)
    | Append(i: nat)
    | End(i: nat)
    | CommitWrite
    | CommitDone
    | Crash
    | ReadHead
    | RecoverWrite

  ghost predicate FileSystemUp(s: State) {
    s.phase.Running? || s.phase.Committing? || s.phase.Finishing?
  }

  /** All disk blocks that a commit or a recovery touches exist. */
  ghost predicate Replayable(L: Layout, s: State) {
    && L.Ok() && |s.disk| == L.blocks && |s.lh| <= LOGSIZE && L.start + |s.lh| < L.blocks
    && (forall t :: 0 <= t < |s.lh| ==> 0 <= s.lh[t] < L.blocks)
  }

  /** When the code can take a step.  Check carries the one promise operations make:
      each appends at most MAXOPBLOCKS distinct blocks. */
  ghost predicate Enabled(L: Layout, s: State, step: Step) {
    match step
    case Begin => s.phase.Running? && |s.lh| + (s.outstanding + 1) * MAXOPBLOCKS <= LOGSIZE
    case Check(i, b, data) =>
      && FileSystemUp(s) && i < |s.ops| && s.ops[i].pending == NoWrite && L.Home(b)
      && (b in s.lh || s.ops[i].used < MAXOPBLOCKS)
    case Append(i) => FileSystemUp(s) && i < |s.ops| && s.ops[i].pending.Checked?
    case End(i) => FileSystemUp(s) && i < |s.ops| && s.ops[i].pending == NoWrite
    case CommitWrite => s.phase.Committing? && s.lh != [] && Replayable(L, s)
    case CommitDone => s.phase.Finishing? || (s.phase.Committing? && s.lh == [])
    case Crash => true
    case ReadHead => s.phase.Booting? && HasHeader(L, s.disk)
    case RecoverWrite => s.phase.Recovering? && Replayable(L, s)
  }

  ghost function Without(ops: seq<Op>, i: nat): seq<Op>
    requires i < |ops|
  {
    ops[..i] + ops[i + 1..]
  }

  ghost function DoCheck(L: Layout, s: State, i: nat, b: int, data: Block): State
    requires i < |s.ops|
  {
    if |s.lh| >= LOGSIZE || |s.lh| >= L.size - 1 then
      s.(phase := Panicked(if b in s.lh then TooBigAbsorb else TooBigAppend))
    else if s.outstanding < 1 then s.(phase := Panicked(OutsideTransaction))
    else s.(ops := s.ops[i := s.ops[i].(pending := Checked(b, data))])
  }

  ghost function DoAppend(s: State, i: nat): State
    requires i < |s.ops| && s.ops[i].pending.Checked?
  {
    var op := s.ops[i];
    var b := op.pending.b;
    var novel := b !in s.lh;
    var rec := Rec(op.id, b, op.pending.data);
    s.(lh := if novel then s.lh + [b] else s.lh,
       pinned := s.pinned[b := op.pending.data],
       ops := s.ops[i := Op(op.id, if novel then op.used + 1 else op.used, NoWrite)],
       group := s.group + [rec],
       wrote := s.wrote[op.id := (if op.id in s.wrote then s.wrote[op.id] else []) + [rec]])
  }

  ghost function DoEnd(s: State, i: nat): State
    requires i < |s.ops|
  {
    var s1 := s.(outstanding := s.outstanding - 1, ops := Without(s.ops, i));
    if !s.phase.Running? then s1.(phase := Panicked(EndWhileCommitting))
    else if s1.outstanding == 0 then s1.(phase := Committing(0))
    else s1
  }

  /** The next single-block write of commit(). */
  ghost function DoCommitWrite(L: Layout, s: State): State
    requires s.phase.Committing? && s.lh != [] && Replayable(L, s)
  {
    var n, k := |s.lh|, s.phase.k;
    if k < n then
      s.(disk := s.disk[L.start + 1 + k := Seen(s.disk, s.pinned, s.lh[k])], phase := Committing(k + 1))
    else if k == n then
      s.(disk := s.disk[L.start := HeaderBlock(s.disk[L.start], s.lh)], phase := Committing(k + 1),
         durable := s.durable + s.group, group := [])
    else if k <= 2 * n then
      var b := s.lh[k - n - 1];
      s.(disk := s.disk[b := s.disk[L.start + k - n]], pinned := s.pinned - {b}, phase := Committing(k + 1))
    else
      s.(disk := s.disk[L.start := HeaderBlock(s.disk[L.start], [])], lh := [], phase := Finishing)
  }

  ghost function DoRecoverWrite(L: Layout, s: State): State
    requires s.phase.Recovering? && Replayable(L, s)
  {
    var k := s.phase.k;
    if k < |s.lh| then
      s.(disk := s.disk[s.lh[k] := s.disk[L.start + 1 + k]], phase := Recovering(k + 1))
    else
      s.(disk := s.disk[L.start := HeaderBlock(s.disk[L.start], [])], lh := [], phase := Running)
  }

  ghost function Do(L: Layout, s: State, step: Step): State
    requires Enabled(L, s, step)
  {
    match step
    case Begin =>
      s.(outstanding := s.outstanding + 1, ops := s.ops + [Op(s.nextId, 0, NoWrite)],
         nextId := s.nextId + 1, wrote := s.wrote[s.nextId := []])
    case Check(i, b, data) => DoCheck(L, s, i, b, data)
    case Append(i) => DoAppend(s, i)
    case End(i) => DoEnd(s, i)
    case CommitWrite => DoCommitWrite(L, s)
    case CommitDone => s.(phase := Running)
    case Crash => s.(pinned := map[], lh := [], outstanding := 0, ops := [], phase := Booting, group := [])
    case ReadHead => s.(lh := Listed(L, s.disk), phase := Recovering(0))
    case RecoverWrite => DoRecoverWrite(L, s)
  }

  /** A sequence of steps that the code can take from s. */
  ghost predicate Legal(L: Layout, s: State, steps: seq<Step>)
    decreases |steps|
  {
    steps == [] || (Enabled(L, s, steps[0]) && Legal(L, Do(L, s, steps[0]), steps[1..]))
  }

  ghost function After(L: Layout, s: State, steps: seq<Step>): State
    requires Legal(L, s, steps)
    decreases |steps|
  {
    if steps == [] then s else After(L, Do(L, s, steps[0]), steps[1..])
  }

  /** The list in memory never outgrows the log region during this run. */
  ghost predicate FitsThroughout(L: Layout, s: State, steps: seq<Step>)
    requires Legal(L, s, steps)
    decreases |steps|
  {
    |s.lh| < L.size && (steps == [] || FitsThroughout(L, Do(L, s, steps[0]), steps[1..]))
  }

  /** Power-on with an empty log. */
  ghost function Boot(image: Image): State {
    State(image, map[], [], 0, [], Booting, 0, map[], [], [])
  }

  ghost predicate EmptyLog(L: Layout, image: Image) {
    Recoverable(L, image) && Listed(L, image) == []
  }

  // ----- histories -----

  /** The disk contents that a history of writes describes. */
  ghost function Apply(image: Image, recs: seq<Rec>): (r: Image)
    ensures |r| == |image|
  {
    if recs == [] then image
    else
      var last := recs[|recs| - 1];
      var r := Apply(image, recs[..|recs| - 1]);
      if 0 <= last.b < |r| then r[last.b := last.data] else r
  }

  ghost function OfOp(recs: seq<Rec>, id: nat): seq<Rec> {
    if recs == [] then []
    else
      var last := recs[|recs| - 1];
      OfOp(recs[..|recs| - 1], id) + (if last.op == id then [last] else [])
  }

  lemma ApplySnoc(image: Image, recs: seq<Rec>, rec: Rec)
    requires 0 <= rec.b < |image|
    ensures Apply(image, recs + [rec]) == Apply(image, recs)[rec.b := rec.data]
  {
    assert (recs + [rec])[..|recs|] == recs;
  }

  lemma OfOpSnoc(recs: seq<Rec>, rec: Rec, id: nat)
    ensures OfOp(recs + [rec], id) == OfOp(recs, id) + (if rec.op == id then [rec] else [])
  {
    assert (recs + [rec])[..|recs|] == recs;
  }

  lemma OfOpNothing()
    ensures forall id: nat :: OfOp([], id) == []
  { }

  lemma {:induction false} OfOpConcat(a: seq<Rec>, b: seq<Rec>, id: nat)
    ensures OfOp(a + b, id) == OfOp(a, id) + OfOp(b, id)
    decreases |b|
  {
    if b == [] {
      assert a + b == a;
    } else {
      var front, last := b[..|b| - 1], b[|b| - 1];
      assert a + b == (a + front) + [last];
      OfOpSnoc(a + front, last, id);
      OfOpConcat(a, front, id);
    }
  }

  // ----- reservations -----

  /** Log blocks that outstanding operations have reserved but not yet used. */
  ghost function Unused(ops: seq<Op>): int {
    if ops == [] then 0 else MAXOPBLOCKS - ops[0].used + Unused(ops[1..])
  }

  lemma {:induction false} UnusedConcat(a: seq<Op>, b: seq<Op>)
    ensures Unused(a + b) == Unused(a) + Unused(b)
  {
    if a == [] {
      assert a + b == b;
    } else {
      UnusedConcat(a[1..], b);
      assert (a + b)[1..] == a[1..] + b;
    }
  }

  lemma UnusedSplit(ops: seq<Op>, i: nat)
    requires i < |ops|
    ensures Unused(ops) == Unused(Without(ops, i)) + MAXOPBLOCKS - ops[i].used
    ensures forall op :: Unused(ops[i := op]) == Unused(Without(ops, i)) + MAXOPBLOCKS - op.used
  {
    forall op ensures Unused(ops[i := op]) == Unused(Without(ops, i)) + MAXOPBLOCKS - op.used {
      UnusedConcat(ops[..i], ops[i + 1..]);
      UnusedConcat([op], ops[i + 1..]);
      UnusedConcat(ops[..i], [op] + ops[i + 1..]);
      assert ops[i := op] == ops[..i] + ([op] + ops[i + 1..]);
      assert Unused([op]) == MAXOPBLOCKS - op.used;
    }
    assert ops[i := ops[i]] == ops;
  }

  lemma {:induction false} UnusedLimits(ops: seq<Op>)
    requires forall i :: 0 <= i < |ops| ==> ops[i].used <= MAXOPBLOCKS
    ensures Unused(ops) <= MAXOPBLOCKS * |ops|
    ensures forall i :: 0 <= i < |ops| ==> MAXOPBLOCKS - ops[i].used <= Unused(ops)
    ensures 0 <= Unused(ops)
  {
    if ops != [] {
      UnusedLimits(ops[1..]);
      forall i | 0 <= i < |ops| ensures MAXOPBLOCKS - ops[i].used <= Unused(ops) {
        if i > 0 { assert ops[i] == ops[1..][i - 1]; }
      }
    }
  }

  ghost predicate Distinct(list: seq<int>) {
    forall t, u :: 0 <= t < u < |list| ==> list[t] != list[u]
  }

  /** The accounting part of the invariant; it needs no bound on the log region. */
  ghost predicate Accounted(L: Layout, s: State) {
    && Distinct(s.lh) && (forall t :: 0 <= t < |s.lh| ==> L.Home(s.lh[t]))
    && (FileSystemUp(s) ==>
          && s.outstanding == |s.ops|
          && |s.lh| + Unused(s.ops) <= LOGSIZE
          && (!s.phase.Running? ==> s.ops == [])
          && (s.phase.Running? && s.ops == [] ==> s.lh == [])
          && (s.phase.Finishing? ==> s.lh == [])
          && (forall i :: 0 <= i < |s.ops| ==>
                (s.ops[i].pending.Checked? ==>
                      && L.Home(s.ops[i].pending.b)
                      && (s.ops[i].pending.b in s.lh || s.ops[i].used < MAXOPBLOCKS))))
    && (!FileSystemUp(s) && !s.phase.Panicked? ==>
          s.ops == [] && s.outstanding == 0 && (s.phase.Booting? ==> s.lh == []))
    && (s.phase.Panicked? ==> s.phase.reason in {TooBigAppend, TooBigAbsorb})
    && |s.lh| <= LOGSIZE
    && (forall i :: 0 <= i < |s.ops| ==> s.ops[i].used <= MAXOPBLOCKS)
  }

  lemma UnusedNothing()
    ensures Unused([]) == 0
    ensures forall op :: Unused([op]) == MAXOPBLOCKS - op.used
  { }

  /** The on-disk header lists distinct home blocks, fitting the region or not. */
  ghost predicate SaneHeader(L: Layout, d: Image) {
    && HasHeader(L, d) && Distinct(Listed(L, d))
    && (forall t :: 0 <= t < |Listed(L, d)| ==> L.Home(Listed(L, d)[t]))
  }

  lemma SaneKept(L: Layout, d: Image, d': Image)
    requires SaneHeader(L, d) && |d'| == |d| && d'[L.start] == d[L.start]
    ensures SaneHeader(L, d')
  { }

  lemma SaneWritten(L: Layout, d: Image, list: seq<int>)
    requires SaneHeader(L, d) && |list| <= LOGSIZE && Distinct(list)
    requires forall t :: 0 <= t < |list| ==> L.Home(list[t])
    ensures SaneHeader(L, d[L.start := HeaderBlock(d[L.start], list)])
  {
    assert HeaderBlock(d[L.start], list)[1..1 + |list|] == list;
  }

  /** No log block and no home block is the header block, however long the list. */
  lemma SaneStep(L: Layout, s: State, step: Step)
    requires Accounted(L, s) && SaneHeader(L, s.disk) && Enabled(L, s, step)
    ensures SaneHeader(L, Do(L, s, step).disk)
  {
    hide Unused, SaneHeader, HeaderBlock, Seen, OfOp;
    if step.CommitWrite? {
      SaneCommit(L, s);
    } else if step.RecoverWrite? && s.phase.k >= |s.lh| {
      SaneWritten(L, s.disk, []);
    } else {
      SaneKept(L, s.disk, Do(L, s, step).disk);
    }
  }

  lemma SaneCommit(L: Layout, s: State)
    requires Accounted(L, s) && SaneHeader(L, s.disk) && Enabled(L, s, CommitWrite)
    ensures SaneHeader(L, DoCommitWrite(L, s).disk)
  {
    hide Unused, SaneHeader, HeaderBlock, Seen, OfOp;
    var n, k := |s.lh|, s.phase.k;
    if k == n {
      SaneWritten(L, s.disk, s.lh);
    } else if k > 2 * n {
      SaneWritten(L, s.disk, []);
    } else {
      SaneKept(L, s.disk, DoCommitWrite(L, s).disk);
    }
  }

  lemma AccountedStep(L: Layout, s: State, step: Step)
    requires Accounted(L, s) && Enabled(L, s, step)
    requires step.ReadHead? ==> SaneHeader(L, s.disk)
    ensures Accounted(L, Do(L, s, step))
  {
    hide Unused;
    UnusedNothing();
    UnusedLimits(s.ops);
    match step {
      case Begin => UnusedConcat(s.ops, [Op(s.nextId, 0, NoWrite)]);
      case Check(i, b, data) => AccountedCheck(L, s, i, b, data);
      case Append(i) => AccountedAppend(L, s, i);
      case End(i) => AccountedEnd(L, s, i);
      case _ =>
    }
  }

  lemma AccountedCheck(L: Layout, s: State, i: nat, b: int, data: Block)
    requires Accounted(L, s) && Enabled(L, s, Check(i, b, data))
    ensures Accounted(L, Do(L, s, Check(i, b, data)))
  {
    hide Unused;
    UnusedSplit(s.ops, i);
  }

  lemma AccountedEnd(L: Layout, s: State, i: nat)
    requires Accounted(L, s) && Enabled(L, s, End(i))
    ensures Accounted(L, DoEnd(s, i))
  {
    hide Unused;
    UnusedSplit(s.ops, i);
  }

  lemma AccountedAppend(L: Layout, s: State, i: nat)
    requires Accounted(L, s) && Enabled(L, s, Append(i))
    ensures Accounted(L, Do(L, s, Append(i)))
  {
    hide Unused;
    var s' := Do(L, s, Append(i));
    UnusedLimits(s.ops);
    UnusedSplit(s.ops, i);
    assert s'.ops == s.ops[i := s'.ops[i]];
    forall j | 0 <= j < |s'.ops| && s'.ops[j].pending.Checked?
      ensures L.Home(s'.ops[j].pending.b) && (s'.ops[j].pending.b in s'.lh || s'.ops[j].used < MAXOPBLOCKS)
    {
      assert j != i && s'.ops[j] == s.ops[j];
    }
  }

  // ----- the whole invariant -----

  /** Each operation's writes are in the current transaction, or durable, or lost in a
      crash: never split. */
  ghost predicate Whole(durable: seq<Rec>, group: seq<Rec>, wrote: seq<Rec>, id: nat) {
    || (OfOp(durable, id) == [] && OfOp(group, id) == wrote)
    || (OfOp(group, id) == [] && OfOp(durable, id) == wrote)
    || (OfOp(group, id) == [] && OfOp(durable, id) == [])
  }

  ghost predicate Histories(s: State) {
    && (forall id: nat :: id in s.wrote <==> id < s.nextId)
    && (forall id: nat :: id >= s.nextId ==> OfOp(s.durable, id) == [] && OfOp(s.group, id) == [])
    && (forall id :: id in s.wrote ==> Whole(s.durable, s.group, s.wrote[id], id))
    && (forall i :: 0 <= i < |s.ops| ==> s.ops[i].id in s.wrote)
    && (forall i, j :: 0 <= i < j < |s.ops| ==> s.ops[i].id != s.ops[j].id)
    && (forall i :: 0 <= i < |s.ops| ==>
          OfOp(s.durable, s.ops[i].id) == [] && OfOp(s.group, s.ops[i].id) == s.wrote[s.ops[i].id])
    && (!FileSystemUp(s) && !s.phase.Panicked? ==> s.group == [])
    && (s.lh == [] && FileSystemUp(s) ==> s.group == [])
    && (s.phase.Committing? && s.phase.k > |s.lh| ==> s.group == [])
  }

  /** The cache shows the current transaction applied to the committed contents. */
  ghost predicate Cached(L: Layout, s: State, init: Image) {
    && |s.disk| == |init| == L.blocks
    && (forall b :: b in s.pinned <==> b in s.lh)
    && (forall b :: L.Home(b) ==> Seen(s.disk, s.pinned, b) == Apply(init, s.durable + s.group)[b])
  }

  ghost predicate OnDisk(L: Layout, s: State, init: Image) {
    && |s.disk| == |init| == L.blocks
    && |s.lh| < L.size
    && RecoversTo(L, s.disk, Apply(init, s.durable))
    && match s.phase
       case Running => Listed(L, s.disk) == [] && Cached(L, s, init)
       case Finishing => Listed(L, s.disk) == [] && Cached(L, s, init)
       case Committing(k) =>
         (s.lh == [] ==> k == 0) &&
         if k <= |s.lh| then
           && Listed(L, s.disk) == [] && Cached(L, s, init)
           && LogHolds(L, s.disk, s.lh, Apply(init, s.durable + s.group), k)
         else
           && s.group == [] && k <= 2 * |s.lh| + 1
           && Listed(L, s.disk) == s.lh && Installed(L, s.disk, s.lh, k - |s.lh| - 1)
           && (forall b :: b in s.pinned <==> b in s.lh[k - |s.lh| - 1..])
       case Booting => s.pinned == map[]
       case Recovering(k) =>
         s.pinned == map[] && Listed(L, s.disk) == s.lh && Installed(L, s.disk, s.lh, k)
       case Panicked(_) => true
  }

  ghost predicate Inv(L: Layout, s: State, init: Image) {
    Accounted(L, s) && Histories(s) && OnDisk(L, s, init)
  }

  lemma HistoriesAppend(L: Layout, s: State, i: nat)
    requires Accounted(L, s) && Histories(s) && Enabled(L, s, Append(i))
    ensures Histories(DoAppend(s, i))
  {
    hide OfOp, Unused;
    var s' := DoAppend(s, i);
    var op := s.ops[i];
    var rec := Rec(op.id, op.pending.b, op.pending.data);
    forall id: nat ensures OfOp(s'.group, id) == OfOp(s.group, id) + (if op.id == id then [rec] else []) {
      OfOpSnoc(s.group, rec, id);
    }
    forall j | 0 <= j < |s'.ops|
      ensures OfOp(s'.durable, s'.ops[j].id) == [] && OfOp(s'.group, s'.ops[j].id) == s'.wrote[s'.ops[j].id]
    {
      assert s'.ops[j].id == s.ops[j].id;
    }
  }

  lemma HistoriesBegin(L: Layout, s: State)
    requires Accounted(L, s) && Histories(s) && Enabled(L, s, Begin)
    ensures Histories(Do(L, s, Begin))
  {
    hide OfOp, Unused;
    assert Whole(s.durable, s.group, [], s.nextId);
  }

  lemma HistoriesEnd(L: Layout, s: State, i: nat)
    requires Accounted(L, s) && Histories(s) && Enabled(L, s, End(i))
    ensures Histories(DoEnd(s, i))
  {
    hide OfOp, Unused, Whole;
    var s' := DoEnd(s, i);
    forall j | 0 <= j < |s'.ops| ensures s'.ops[j] == s.ops[if j < i then j else j + 1] { }
  }

  lemma HistoriesCommitPoint(L: Layout, s: State)
    requires Accounted(L, s) && Histories(s) && Enabled(L, s, CommitWrite) && s.phase.k == |s.lh|
    ensures Histories(DoCommitWrite(L, s))
  {
    hide OfOp, Unused;
    OfOpNothing();
    var s' := DoCommitWrite(L, s);
    forall id: nat ensures OfOp(s'.durable, id) == OfOp(s.durable, id) + OfOp(s.group, id) {
      OfOpConcat(s.durable, s.group, id);
    }
  }

  lemma HistoriesCrash(L: Layout, s: State)
    requires Histories(s)
    ensures Histories(Do(L, s, Crash))
  {
    hide OfOp;
    OfOpNothing();
  }

  lemma HistoriesStep(L: Layout, s: State, step: Step)
    requires Accounted(L, s) && Histories(s) && Enabled(L, s, step)
    ensures Histories(Do(L, s, step))
  {
    hide OfOp, Unused, HeaderBlock, Whole;
    match step {
      case Begin => HistoriesBegin(L, s);
      case Append(i) => HistoriesAppend(L, s, i);
      case End(i) => HistoriesEnd(L, s, i);
      case CommitWrite => if s.phase.k == |s.lh| { HistoriesCommitPoint(L, s); }
      case Check(i, b, data) =>
        var s' := Do(L, s, step);
        forall j | 0 <= j < |s'.ops| ensures s'.ops[j].id == s.ops[j].id { }
      case Crash => HistoriesCrash(L, s);
      case _ =>
    }
  }

  // ----- the disk -----

  lemma OnDiskAppend(L: Layout, s: State, init: Image, i: nat)
    requires Inv(L, s, init) && Enabled(L, s, Append(i))
    ensures var s' := DoAppend(s, i); |s'.lh| < L.size ==> OnDisk(L, s', init)
  {
    hide Apply, RecoveredAt, OfOp, Unused;
    var op := s.ops[i];
    var rec := Rec(op.id, op.pending.b, op.pending.data);
    assert s.durable + (s.group + [rec]) == (s.durable + s.group) + [rec];
    ApplySnoc(init, s.durable + s.group, rec);
  }

  lemma OnDiskLogBlock(L: Layout, s: State, init: Image)
    requires OnDisk(L, s, init) && Enabled(L, s, CommitWrite) && s.phase.k < |s.lh|
    ensures OnDisk(L, DoCommitWrite(L, s), init)
  {
    hide Apply, RecoveredAt, Accounted, Histories;
    LogBlockWrite(L, s.disk, Apply(init, s.durable), s.phase.k, Seen(s.disk, s.pinned, s.lh[s.phase.k]));
  }

  lemma OnDiskHeader(L: Layout, s: State, init: Image)
    requires OnDisk(L, s, init) && Enabled(L, s, CommitWrite) && s.phase.k == |s.lh|
    ensures OnDisk(L, DoCommitWrite(L, s), init)
  {
    hide Apply, RecoveredAt, Accounted, Histories;
    var before, after := Apply(init, s.durable), Apply(init, s.durable + s.group);
    EmptyLogIsHome(L, s.disk, before);
    CommitPoint(L, s.disk, s.lh, before, after);
  }

  lemma OnDiskInstall(L: Layout, s: State, init: Image)
    requires OnDisk(L, s, init) && Enabled(L, s, CommitWrite) && |s.lh| < s.phase.k <= 2 * |s.lh|
    ensures OnDisk(L, DoCommitWrite(L, s), init)
  {
    hide Apply, RecoveredAt, Accounted, Histories;
    var t := s.phase.k - |s.lh| - 1;
    InstallWrite(L, s.disk, Apply(init, s.durable), t);
    assert s.lh[t..] == [s.lh[t]] + s.lh[t + 1..];
    assert s.lh[t] !in s.lh[t + 1..];
  }

  lemma OnDiskErase(L: Layout, s: State, init: Image)
    requires OnDisk(L, s, init) && Enabled(L, s, CommitWrite) && s.phase.k == 2 * |s.lh| + 1
    ensures OnDisk(L, DoCommitWrite(L, s), init)
  {
    hide Apply, RecoveredAt, Accounted, Histories;
    assert s.durable + [] == s.durable;
    ClearWrite(L, s.disk, Apply(init, s.durable));
  }

  lemma OnDiskCommitWrite(L: Layout, s: State, init: Image)
    requires OnDisk(L, s, init) && Enabled(L, s, CommitWrite)
    ensures OnDisk(L, DoCommitWrite(L, s), init)
  {
    if s.phase.k < |s.lh| {
      OnDiskLogBlock(L, s, init);
    } else if s.phase.k == |s.lh| {
      OnDiskHeader(L, s, init);
    } else if s.phase.k <= 2 * |s.lh| {
      OnDiskInstall(L, s, init);
    } else {
      OnDiskErase(L, s, init);
    }
  }

  lemma OnDiskRecoverWrite(L: Layout, s: State, init: Image)
    requires Inv(L, s, init) && Enabled(L, s, RecoverWrite)
    ensures OnDisk(L, DoRecoverWrite(L, s), init)
  {
    if s.phase.k < |s.lh| {
      OnDiskReinstall(L, s, init);
    } else {
      OnDiskRecovered(L, s, init);
    }
  }

  lemma OnDiskReinstall(L: Layout, s: State, init: Image)
    requires OnDisk(L, s, init) && Enabled(L, s, RecoverWrite) && s.phase.k < |s.lh|
    ensures OnDisk(L, DoRecoverWrite(L, s), init)
  {
    hide Apply, RecoveredAt;
    InstallWrite(L, s.disk, Apply(init, s.durable), s.phase.k);
  }

  lemma OnDiskRecovered(L: Layout, s: State, init: Image)
    requires OnDisk(L, s, init) && Enabled(L, s, RecoverWrite) && s.phase.k >= |s.lh| && s.group == []
    ensures OnDisk(L, DoRecoverWrite(L, s), init)
  {
    hide Apply, RecoveredAt;
    assert s.durable + [] == s.durable;
    ClearWrite(L, s.disk, Apply(init, s.durable));
  }

  lemma OnDiskStep(L: Layout, s: State, init: Image, step: Step)
    requires Inv(L, s, init) && Enabled(L, s, step)
    ensures var s' := Do(L, s, step); |s'.lh| < L.size ==> OnDisk(L, s', init)
  {
    hide Apply, RecoveredAt, OfOp, Unused;
    match step {
      case Append(i) => OnDiskAppend(L, s, init, i);
      case CommitWrite => OnDiskCommitWrite(L, s, init);
      case RecoverWrite => OnDiskRecoverWrite(L, s, init);
      case _ =>
    }
  }

  lemma InvStep(L: Layout, s: State, init: Image, step: Step)
    requires Inv(L, s, init) && Enabled(L, s, step)
    ensures var s' := Do(L, s, step); |s'.lh| < L.size ==> Inv(L, s', init)
    ensures Accounted(L, Do(L, s, step))
  {
    AccountedStep(L, s, step);
    HistoriesStep(L, s, step);
    OnDiskStep(L, s, init, step);
  }
}
