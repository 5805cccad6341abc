/** How large the log region must be: runs that go wrong in a small one, and the theorems that they
    are the only reason to fail.  mkfs makes the region exactly LOGSIZE blocks. */
module LogRoom {
  import opened Params
  import opened RedoLog
  import opened LogProtocol
  import opened LogTheorems

  /** Room for the log region and as many blocks behind it as the log may list. */
  ghost predicate Ample(L: Layout) {
    L.Ok() && L.start + L.size + LOGSIZE <= L.blocks
  }

  /** No run panics on a write that appends within its operation's reservation. */
  ghost predicate AppendsNeverPanic(L: Layout) {
    forall image, steps :: EmptyLog(L, image) && Legal(L, Boot(image), steps) ==>
      After(L, Boot(image), steps).phase != Panicked(TooBigAppend)
  }

  ghost predicate NeverPanics(L: Layout) {
    forall image, steps :: EmptyLog(L, image) && Legal(L, Boot(image), steps) ==>
      !After(L, Boot(image), steps).phase.Panicked?
  }

  /** No run logs more blocks than the log region has room for. */
  ghost predicate AlwaysFits(L: Layout) {
    forall image, steps :: EmptyLog(L, image) && Legal(L, Boot(image), steps) ==>
      |After(L, Boot(image), steps).lh| < L.size
  }

  /** After a crash at any point of any run, recovery yields exactly the committed writes. */
  ghost predicate CrashAtomic(L: Layout) {
    forall image, steps :: EmptyLog(L, image) && Legal(L, Boot(image), steps) ==>
      RecoversTo(L, After(L, Boot(image), steps).disk, Apply(image, After(L, Boot(image), steps).durable))
  }

  /** Reserved appends go through, the list fits and every run is crash-atomic exactly when the
      region is larger than LOGSIZE. */
  lemma RoomExactlyWhenLarger(L: Layout)
    requires Ample(L) && L.size >= 2
    ensures AppendsNeverPanic(L) <==> L.size > LOGSIZE
    ensures AlwaysFits(L) <==> L.size > LOGSIZE
    ensures CrashAtomic(L) <==> L.size > LOGSIZE
  {
    if L.size > LOGSIZE {
      forall im, steps | EmptyLog(L, im) && Legal(L, Boot(im), steps)
        ensures After(L, Boot(im), steps).phase != Panicked(TooBigAppend)
        ensures |After(L, Boot(im), steps).lh| < L.size
        ensures RecoversTo(L, After(L, Boot(im), steps).disk, Apply(im, After(L, Boot(im), steps).durable))
      {
        LargeEnough(L, im, steps);
      }
    } else {
      var image := MarkedImage(L);
      var p := PanickingRun(L, image);
      var o := OverrunningRun(L, image);
      var t := TornRun(L, image);
    }
  }

  lemma LargeEnough(L: Layout, image: Image, steps: seq<Step>)
    requires EmptyLog(L, image) && Legal(L, Boot(image), steps) && L.size > LOGSIZE
    ensures var s := After(L, Boot(image), steps);
      && s.phase != Panicked(TooBigAppend) && |s.lh| < L.size && RecoversTo(L, s.disk, Apply(image, s.durable))
  {
    hide Accounted, Histories, SaneHeader, RecoveredAt, Apply;
    Reservations(L, image, steps);
    CrashAtomicity(L, image, steps);
    if steps != [] && After(L, Boot(image), steps).phase.Panicked? {
      var front, last := steps[..|steps| - 1], steps[|steps| - 1];
      assert steps == front + [last];
      LegalPrefix(L, Boot(image), front, [last]);
      RunConcat(L, Boot(image), front, [last]);
      BootOrderly(L, image);
      OrderlyRun(L, Boot(image), front);
      PanicStep(L, After(L, Boot(image), front), last);
    }
  }

  lemma PanicStep(L: Layout, s: State, step: Step)
    requires Accounted(L, s) && Enabled(L, s, step) && L.size > LOGSIZE
    requires Do(L, s, step).phase.Panicked?
    ensures Do(L, s, step).phase.reason == TooBigAbsorb
  {
    UnusedLimits(s.ops);
  }

  lemma {:induction false} LegalPrefix(L: Layout, s: State, a: seq<Step>, b: seq<Step>)
    requires Legal(L, s, a + b)
    ensures Legal(L, s, a)
    decreases |a|
  {
    if a != [] {
      assert (a + b)[0] == a[0] && (a + b)[1..] == a[1..] + b;
      LegalPrefix(L, Do(L, s, a[0]), a[1..], b);
    }
  }

  /** log_write within a reservation can panic whatever the size of the region. */
  lemma SomeRunPanics(L: Layout)
    requires Ample(L)
    ensures !NeverPanics(L)
  {
    var image := MarkedImage(L);
    if L.size > LOGSIZE {
      var steps := AbsorbPanicRun(L, image);
    } else {
      var steps := PanickingRun(L, image);
    }
  }

  // ----- filling the log -----

  ghost function Blank(): Block {
    seq(WORDS, _ => 0)
  }

  /** An image with an empty log whose blocks behind the region are not blank. */
  lemma MarkedImage(L: Layout) returns (image: Image)
    requires Ample(L)
    ensures EmptyLog(L, image)
    ensures forall b :: L.start + L.size <= b < L.blocks ==> image[b] != Blank()
  {
    var mark: Block := seq(WORDS, _ => 1);
    assert mark[0] != Blank()[0];
    image := seq(L.blocks, i => if i >= L.start + L.size then mark else Blank());
    assert Listed(L, image) == [];
  }

  /** Three operations running, each within its cap, having logged blank contents for the first
      blocks after the log region. */
  ghost predicate Filling(L: Layout, s: State, caps: seq<nat>) {
    && s.phase == Running && |s.ops| == 3 == |caps| && s.outstanding == 3
    && (forall i :: 0 <= i < 3 ==> s.ops[i].pending == NoWrite && s.ops[i].used <= caps[i] <= MAXOPBLOCKS)
    && |s.lh| == s.ops[0].used + s.ops[1].used + s.ops[2].used
    && BlankWrites(L, s)
  }

  ghost predicate BlankWrites(L: Layout, s: State) {
    && (forall t :: 0 <= t < |s.lh| ==> s.lh[t] == L.start + L.size + t)
    && (forall t :: 0 <= t < |s.lh| ==> s.lh[t] in s.pinned && s.pinned[s.lh[t]] == Blank())
    && |s.group| == |s.lh| && s.durable == []
    && (forall t :: 0 <= t < |s.lh| ==> s.group[t].b == s.lh[t] && s.group[t].data == Blank())
  }

  lemma StartFilling(L: Layout, image: Image, caps: seq<nat>) returns (steps: seq<Step>)
    requires EmptyLog(L, image) && |caps| == 3
    requires forall i :: 0 <= i < 3 ==> caps[i] <= MAXOPBLOCKS
    ensures Legal(L, Boot(image), steps)
    ensures var s := After(L, Boot(image), steps);
      Filling(L, s, caps) && s.lh == [] && s.disk == image[L.start := HeaderBlock(image[L.start], [])]
  {
    steps := Then(L, Boot(image), [], ReadHead);
    steps := Then(L, Boot(image), steps, RecoverWrite);
    steps := Then(L, Boot(image), steps, Begin);
    steps := Then(L, Boot(image), steps, Begin);
    steps := Then(L, Boot(image), steps, Begin);
  }

  lemma AppendOne(L: Layout, s: State, i: nat, b: int) returns (two: seq<Step>, s': State)
    requires s.phase == Running && i < |s.ops| && s.ops[i].pending == NoWrite && s.outstanding >= 1
    requires L.Home(b) && b !in s.lh && s.ops[i].used < MAXOPBLOCKS
    requires |s.lh| < LOGSIZE && |s.lh| < L.size - 1
    ensures Legal(L, s, two) && s' == After(L, s, two)
    ensures s'.phase == Running && s'.outstanding == s.outstanding && s'.lh == s.lh + [b]
    ensures s'.ops == s.ops[i := Op(s.ops[i].id, s.ops[i].used + 1, NoWrite)]
    ensures s'.disk == s.disk && s'.durable == s.durable && s'.pinned == s.pinned[b := Blank()]
    ensures s'.group == s.group + [Rec(s.ops[i].id, b, Blank())]
  {
    var c := Do(L, s, Check(i, b, Blank()));
    s' := Do(L, c, Append(i));
    var one := Then(L, s, [], Check(i, b, Blank()));
    two := Then(L, s, one, Append(i));
    assert s'.ops == s.ops[i := Op(s.ops[i].id, s.ops[i].used + 1, NoWrite)];
  }

  /** From a filling state the log can be filled up to any target below the capacity test. */
  lemma {:induction false} Fill(L: Layout, s: State, caps: seq<nat>, target: nat) returns (steps: seq<Step>)
    requires Filling(L, s, caps) && Ample(L)
    requires |s.lh| <= target <= caps[0] + caps[1] + caps[2] && target < L.size && target <= LOGSIZE
    ensures Legal(L, s, steps)
    ensures var t := After(L, s, steps); Filling(L, t, caps) && |t.lh| == target && t.disk == s.disk
    decreases target - |s.lh|
  {
    if |s.lh| == target {
      steps := [];
    } else {
      var i := if s.ops[0].used < caps[0] then 0 else if s.ops[1].used < caps[1] then 1 else 2;
      var two, s' := AppendOne(L, s, i, L.start + L.size + |s.lh|);
      var more := Fill(L, s', caps, target);
      steps := two + more;
      RunConcat(L, s, two, more);
    }
  }

  lemma Then(L: Layout, s: State, steps: seq<Step>, step: Step) returns (r: seq<Step>)
    requires Legal(L, s, steps) && Enabled(L, After(L, s, steps), step)
    ensures Legal(L, s, r) && After(L, s, r) == Do(L, After(L, s, steps), step)
  {
    r := steps + [step];
    var t := After(L, s, steps);
    assert Legal(L, Do(L, t, step), []) && Legal(L, t, [step]);
    RunConcat(L, s, steps, [step]);
  }

  /** Filling a fresh system to any length the capacity test lets through. */
  lemma FilledRun(L: Layout, image: Image, caps: seq<nat>, target: nat) returns (steps: seq<Step>)
    requires EmptyLog(L, image) && Ample(L) && |caps| == 3
    requires forall i :: 0 <= i < 3 ==> caps[i] <= MAXOPBLOCKS
    requires target <= caps[0] + caps[1] + caps[2] && target < L.size && target <= LOGSIZE
    ensures Legal(L, Boot(image), steps)
    ensures var t := After(L, Boot(image), steps);
      && Filling(L, t, caps) && |t.lh| == target
      && t.disk == image[L.start := HeaderBlock(image[L.start], [])]
  {
    var start := StartFilling(L, image, caps);
    var s := After(L, Boot(image), start);
    var fill := Fill(L, s, caps, target);
    RunConcat(L, Boot(image), start, fill);
    steps := start + fill;
  }

  ghost function Full(): seq<nat> { [MAXOPBLOCKS, MAXOPBLOCKS, MAXOPBLOCKS] }

  // ----- the runs -----

  /** An append within its reservation panics. */
  lemma PanickingRun(L: Layout, image: Image) returns (steps: seq<Step>)
    requires EmptyLog(L, image) && Ample(L) && L.size <= LOGSIZE
    ensures Legal(L, Boot(image), steps)
    ensures After(L, Boot(image), steps).phase == Panicked(TooBigAppend)
  {
    steps := FilledRun(L, image, Full(), L.size - 1);
    var t := After(L, Boot(image), steps);
    var i := if t.ops[0].used < MAXOPBLOCKS then 0 else if t.ops[1].used < MAXOPBLOCKS then 1 else 2;
    steps := Then(L, Boot(image), steps, Check(i, L.start + L.size + |t.lh|, Blank()));
  }

  /** With a region larger than LOGSIZE, writing an already logged block of a full log panics. */
  lemma AbsorbPanicRun(L: Layout, image: Image) returns (steps: seq<Step>)
    requires EmptyLog(L, image) && Ample(L) && L.size > LOGSIZE
    ensures Legal(L, Boot(image), steps)
    ensures After(L, Boot(image), steps).phase == Panicked(TooBigAbsorb)
  {
    steps := FilledRun(L, image, Full(), LOGSIZE);
    var t := After(L, Boot(image), steps);
    steps := Then(L, Boot(image), steps, Check(0, t.lh[0], Blank()));
  }

  /** Two capacity tests pass before either append, and the list outgrows the region. */
  lemma OverrunningRun(L: Layout, image: Image) returns (steps: seq<Step>)
    requires EmptyLog(L, image) && Ample(L) && 2 <= L.size <= LOGSIZE
    ensures Legal(L, Boot(image), steps)
    ensures var s := After(L, Boot(image), steps);
      && |s.lh| == L.size && Filling(L, s, Full())
      && s.disk == image[L.start := HeaderBlock(image[L.start], [])]
  {
    var caps := [MAXOPBLOCKS, MAXOPBLOCKS - 1, MAXOPBLOCKS - 1];
    var filled := FilledRun(L, image, caps, L.size - 2);
    var four := TwoAppends(L, After(L, Boot(image), filled), caps);
    RunConcat(L, Boot(image), filled, four);
    steps := filled + four;
  }

  /** The last two of three operations test and then append. */
  lemma TwoAppends(L: Layout, s: State, caps: seq<nat>) returns (four: seq<Step>)
    requires Filling(L, s, caps) && caps[1] < MAXOPBLOCKS && caps[2] < MAXOPBLOCKS && Ample(L)
    requires |s.lh| == L.size - 2 < LOGSIZE
    ensures Legal(L, s, four)
    ensures var t := After(L, s, four); |t.lh| == L.size && Filling(L, t, Full()) && t.disk == s.disk
  {
    var n := L.start + L.size + |s.lh|;
    four := Then(L, s, [], Check(1, n, Blank()));
    four := Then(L, s, four, Check(2, n + 1, Blank()));
    four := Then(L, s, four, Append(1));
    four := Then(L, s, four, Append(2));
  }

  /** Ending the three operations starts the commit. */
  lemma EndAll(L: Layout, image: Image, steps: seq<Step>, caps: seq<nat>) returns (r: seq<Step>)
    requires Legal(L, Boot(image), steps) && Filling(L, After(L, Boot(image), steps), caps)
    ensures Legal(L, Boot(image), r)
    ensures var s, t := After(L, Boot(image), steps), After(L, Boot(image), r);
      t == s.(outstanding := 0, ops := [], phase := Committing(0))
  {
    r := Then(L, Boot(image), steps, End(0));
    r := Then(L, Boot(image), r, End(0));
    r := Then(L, Boot(image), r, End(0));
  }

  /** The log writes of a commit, up to the n-th. */
  lemma {:induction false} WriteLogBlocks(L: Layout, s: State, n: nat) returns (steps: seq<Step>)
    requires s.phase.Committing? && s.phase.k <= n <= |s.lh| && s.lh != [] && Replayable(L, s) && BlankWrites(L, s)
    ensures Legal(L, s, steps)
    ensures var t := After(L, s, steps);
      && |t.disk| == |s.disk| && t == s.(disk := t.disk, phase := Committing(n))
      && (forall b :: 0 <= b < |s.disk| ==>
            t.disk[b] == if L.start + s.phase.k < b <= L.start + n then Blank() else s.disk[b])
    decreases n - s.phase.k
  {
    if s.phase.k == n {
      steps := [];
    } else {
      var s' := Do(L, s, CommitWrite);
      assert s' == s.(disk := s.disk[L.start + 1 + s.phase.k := Blank()], phase := Committing(s.phase.k + 1));
      var more := WriteLogBlocks(L, s', n);
      steps := [CommitWrite] + more;
    }
  }

  /** A crash in the middle of a commit that overran the region: the last log block has fallen on
      a home block before the header was written, and recovery yields neither the old contents nor
      the new ones. */
  lemma TornRun(L: Layout, image: Image) returns (steps: seq<Step>)
    requires EmptyLog(L, image) && Ample(L) && 2 <= L.size <= LOGSIZE
    requires image[L.start + L.size] != Blank() && image[L.start + L.size + 1] != Blank()
    ensures Legal(L, Boot(image), steps)
    ensures var s := After(L, Boot(image), steps);
      && !RecoversTo(L, s.disk, Apply(image, s.durable))
      && !RecoversTo(L, s.disk, Apply(image, s.durable + s.group))
  {
    var run := OverrunningRun(L, image);
    var ended := EndAll(L, image, run, Full());
    var s := After(L, Boot(image), ended);
    var write := WriteLogBlocks(L, s, L.size);
    RunConcat(L, Boot(image), ended, write);
    steps := ended + write;
    var t := After(L, Boot(image), steps);
    TornImage(L, image, t);
  }

  lemma TornImage(L: Layout, image: Image, t: State)
    requires EmptyLog(L, image) && Ample(L) && |t.lh| == L.size >= 2 && BlankWrites(L, t)
    requires image[L.start + L.size] != Blank() && image[L.start + L.size + 1] != Blank()
    requires |t.disk| == |image| && t.disk[L.start] == HeaderBlock(image[L.start], [])
    requires t.disk[L.start + L.size] == Blank() && t.disk[L.start + L.size + 1] == image[L.start + L.size + 1]
    ensures !RecoversTo(L, t.disk, Apply(image, t.durable))
    ensures !RecoversTo(L, t.disk, Apply(image, t.durable + t.group))
  {
    var a, b := L.start + L.size, L.start + L.size + 1;
    assert L.Home(a) && L.Home(b);
    assert Listed(L, t.disk) == [];
    assert t.durable + t.group == t.group;
    ApplyBlank(image, t.group, 1);
    assert RecoveredAt(L, t.disk, a) == Blank() != Apply(image, t.durable)[a];
    assert RecoveredAt(L, t.disk, b) == image[b] != Apply(image, t.group)[b];
  }

  /** A block that blank contents were written to is blank. */
  lemma {:induction false} ApplyBlank(image: Image, recs: seq<Rec>, t: nat)
    requires t < |recs| && 0 <= recs[t].b < |image|
    requires forall k :: 0 <= k < |recs| ==> recs[k].data == Blank()
    ensures Apply(image, recs)[recs[t].b] == Blank()
    decreases |recs|
  {
    if t < |recs| - 1 {
      ApplyBlank(image, recs[..|recs| - 1], t);
    }
  }

  /** A commit may have to log as many blocks as there are buffers. */
  lemma FullCommitRun(L: Layout, image: Image) returns (steps: seq<Step>)
    requires EmptyLog(L, image) && Ample(L) && L.size > LOGSIZE
    ensures Legal(L, Boot(image), steps)
    ensures var s := After(L, Boot(image), steps);
      && s.phase == Committing(0) && |s.lh| == NBUF && BlankWrites(L, s)
      && s.disk == image[L.start := HeaderBlock(image[L.start], [])]
  {
    var run := FilledRun(L, image, Full(), LOGSIZE);
    steps := EndAll(L, image, run, Full());
  }
}
