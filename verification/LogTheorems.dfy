/** What every run of the logging protocol guarantees, across any number of crashes. */
module LogTheorems {
  import opened Params
  import opened RedoLog
  import opened LogProtocol

  lemma {:induction false} RunConcat(L: Layout, s: State, a: seq<Step>, b: seq<Step>)
    requires Legal(L, s, a)
    ensures Legal(L, s, a + b) <==> Legal(L, After(L, s, a), b)
    ensures Legal(L, s, a + b) ==> After(L, s, a + b) == After(L, After(L, s, a), b)
    decreases |a|
  {
    if a == [] {
      assert a + b == b;
    } else {
      assert (a + b)[0] == a[0] && (a + b)[1..] == a[1..] + b;
      RunConcat(L, Do(L, s, a[0]), a[1..], b);
    }
  }

  // ----- for every log region -----

  /** The parts of the invariant that need no bound on the log region. */
  ghost predicate Orderly(L: Layout, s: State) {
    Accounted(L, s) && Histories(s) && SaneHeader(L, s.disk)
  }

  lemma BootOrderly(L: Layout, image: Image)
    requires EmptyLog(L, image)
    ensures Orderly(L, Boot(image))
  {
    OfOpNothing();
  }

  lemma {:induction false} OrderlyRun(L: Layout, s: State, steps: seq<Step>)
    requires Orderly(L, s) && Legal(L, s, steps)
    ensures Orderly(L, After(L, s, steps))
    decreases |steps|
  {
    hide Accounted, Histories, SaneHeader;
    if steps != [] {
      AccountedStep(L, s, steps[0]);
      HistoriesStep(L, s, steps[0]);
      SaneStep(L, s, steps[0]);
      OrderlyRun(L, Do(L, s, steps[0]), steps[1..]);
    }
  }

  /** Group commit, for a log region of any size.  Used and reserved log space never exceeds
      LOGSIZE; logged numbers are distinct; a commit runs only when no operation is outstanding, so
      the panic of end_op is out of reach and every panic is log_write's capacity test. */
  lemma Reservations(L: Layout, image: Image, steps: seq<Step>)
    requires EmptyLog(L, image) && Legal(L, Boot(image), steps)
    ensures var s := After(L, Boot(image), steps);
      && Distinct(s.lh) && |s.lh| <= LOGSIZE
      && (FileSystemUp(s) ==> s.outstanding == |s.ops| && |s.lh| + Unused(s.ops) <= LOGSIZE)
      && (s.phase.Committing? || s.phase.Finishing? ==> s.ops == [])
      && (s.phase.Panicked? ==> s.phase.reason == TooBigAppend || s.phase.reason == TooBigAbsorb)
  {
    BootOrderly(L, image);
    OrderlyRun(L, Boot(image), steps);
  }

  /** Exactly when log_write panics, in any reachable state and for a log region of any size: when
      the list is as long as the log or the region allows, whether the write appends or not. */
  lemma CheckPanics(L: Layout, image: Image, steps: seq<Step>, i: nat, b: int, data: Block)
    requires EmptyLog(L, image) && Legal(L, Boot(image), steps)
    requires Enabled(L, After(L, Boot(image), steps), Check(i, b, data))
    ensures var s := After(L, Boot(image), steps);
      var panics := Do(L, s, Check(i, b, data)).phase.Panicked?;
      && (panics <==> |s.lh| >= LOGSIZE || |s.lh| >= L.size - 1)
      && (L.size > LOGSIZE ==> (panics <==> |s.lh| == LOGSIZE) && (panics ==> b in s.lh))
  {
    BootOrderly(L, image);
    OrderlyRun(L, Boot(image), steps);
    UnusedLimits(After(L, Boot(image), steps).ops);
  }

  /** A commit never contains part of an operation, for a log region of any size. */
  lemma OperationsWhole(L: Layout, image: Image, steps: seq<Step>)
    requires EmptyLog(L, image) && Legal(L, Boot(image), steps)
    ensures var s := After(L, Boot(image), steps);
      forall id :: id in s.wrote ==> OfOp(s.durable, id) == [] || OfOp(s.durable, id) == s.wrote[id]
  {
    BootOrderly(L, image);
    OrderlyRun(L, Boot(image), steps);
    var s := After(L, Boot(image), steps);
    forall id | id in s.wrote ensures OfOp(s.durable, id) == [] || OfOp(s.durable, id) == s.wrote[id] {
      assert Whole(s.durable, s.group, s.wrote[id], id);
    }
  }

  /** Nothing any operation wrote is missing from the committed and current transactions. */
  ghost predicate Kept(s: State) {
    forall id :: id in s.wrote ==> OfOp(s.durable, id) + OfOp(s.group, id) == s.wrote[id]
  }

  lemma KeptStep(L: Layout, s: State, step: Step)
    requires Accounted(L, s) && Histories(s) && Kept(s) && Enabled(L, s, step) && !step.Crash?
    ensures Kept(Do(L, s, step))
  {
    hide OfOp, Unused;
    OfOpNothing();
    var s' := Do(L, s, step);
    if step.Append? {
      var op := s.ops[step.i];
      var rec := Rec(op.id, op.pending.b, op.pending.data);
      forall id: nat ensures OfOp(s'.group, id) == OfOp(s.group, id) + (if op.id == id then [rec] else []) {
        OfOpSnoc(s.group, rec, id);
      }
    } else if step.CommitWrite? && s.phase.k == |s.lh| {
      forall id: nat ensures OfOp(s'.durable, id) == OfOp(s.durable, id) + OfOp(s.group, id) {
        OfOpConcat(s.durable, s.group, id);
      }
    }
  }

  lemma {:induction false} KeptRun(L: Layout, s: State, steps: seq<Step>)
    requires Orderly(L, s) && Kept(s) && Legal(L, s, steps)
    requires forall k :: 0 <= k < |steps| ==> !steps[k].Crash?
    ensures Kept(After(L, s, steps))
    decreases |steps|
  {
    hide Accounted, Histories, SaneHeader, Kept;
    if steps != [] {
      AccountedStep(L, s, steps[0]);
      HistoriesStep(L, s, steps[0]);
      SaneStep(L, s, steps[0]);
      KeptStep(L, s, steps[0]);
      KeptRun(L, Do(L, s, steps[0]), steps[1..]);
    }
  }

  /** Absent crashes, once no operation is outstanding every operation is entirely durable, for a
      log region of any size. */
  lemma QuietMeansCommitted(L: Layout, image: Image, steps: seq<Step>)
    requires EmptyLog(L, image) && Legal(L, Boot(image), steps)
    requires forall k :: 0 <= k < |steps| ==> !steps[k].Crash?
    ensures var s := After(L, Boot(image), steps);
      s.phase.Running? && s.ops == [] ==>
        forall id :: id in s.wrote ==> OfOp(s.durable, id) == s.wrote[id]
  {
    BootOrderly(L, image);
    OrderlyRun(L, Boot(image), steps);
    KeptRun(L, Boot(image), steps);
    OfOpNothing();
  }

  // ----- while the list fits the log region -----

  lemma {:induction false} InvRun(L: Layout, s: State, init: Image, steps: seq<Step>)
    requires Inv(L, s, init) && Legal(L, s, steps)
    requires L.size > LOGSIZE || FitsThroughout(L, s, steps)
    ensures Inv(L, After(L, s, steps), init)
    decreases |steps|
  {
    hide Inv;
    if steps != [] {
      var s' := Do(L, s, steps[0]);
      InvStep(L, s, init, steps[0]);
      NextFits(L, s', steps[1..]);
      InvRun(L, s', init, steps[1..]);
    }
  }

  lemma NextFits(L: Layout, s: State, steps: seq<Step>)
    requires Accounted(L, s) && Legal(L, s, steps)
    requires L.size > LOGSIZE || FitsThroughout(L, s, steps)
    ensures |s.lh| < L.size
  { }

  lemma BootInv(L: Layout, image: Image)
    requires EmptyLog(L, image)
    ensures Inv(L, Boot(image), image)
  {
    OfOpNothing();
    EmptyLogIsHome(L, image, image);
  }

  /** Crash atomicity.  In every reachable state, crashed or not, a completed recovery yields
      exactly the writes of the committed transactions; the cache shows them and the current one;
      and whenever no operation is outstanding they are already at home.  LogRoom shows for which
      log regions every run is covered. */
  lemma CrashAtomicity(L: Layout, image: Image, steps: seq<Step>)
    requires EmptyLog(L, image) && Legal(L, Boot(image), steps)
    requires L.size > LOGSIZE || FitsThroughout(L, Boot(image), steps)
    ensures var s := After(L, Boot(image), steps);
      && RecoversTo(L, s.disk, Apply(image, s.durable))
      && (s.phase.Running? ==>
            forall b :: L.Home(b) ==> Seen(s.disk, s.pinned, b) == Apply(image, s.durable + s.group)[b])
      && (s.phase.Running? && s.ops == [] ==> s.group == [] && HomeIs(L, s.disk, Apply(image, s.durable)))
  {
    BootInv(L, image);
    InvRun(L, Boot(image), image, steps);
    var s := After(L, Boot(image), steps);
    if s.phase.Running? && s.ops == [] {
      EmptyLogIsHome(L, s.disk, Apply(image, s.durable));
    }
  }

  lemma {:induction false} DurableGrows(L: Layout, s: State, steps: seq<Step>)
    requires Legal(L, s, steps)
    ensures s.durable <= After(L, s, steps).durable
    decreases |steps|
  {
    if steps != [] {
      DurableGrows(L, Do(L, s, steps[0]), steps[1..]);
    }
  }

  /** Writes to other blocks leave a block as it was. */
  lemma {:induction false} ApplyElsewhere(image: Image, recs: seq<Rec>, more: seq<Rec>, b: int)
    requires 0 <= b < |image| && forall k :: 0 <= k < |more| ==> more[k].b != b
    ensures Apply(image, recs + more)[b] == Apply(image, recs)[b]
    decreases |more|
  {
    if more == [] {
      assert recs + more == recs;
    } else {
      var n := |more| - 1;
      assert (recs + more)[..|recs + more| - 1] == recs + more[..n];
      ApplyElsewhere(image, recs, more[..n], b);
    }
  }

  /** What is committed stays on the disk: after any later steps and crashes, recovery still yields
      it in every home block that no later committed operation rewrote. */
  lemma Durability(L: Layout, image: Image, earlier: seq<Step>, later: seq<Step>, b: int)
    requires EmptyLog(L, image) && Legal(L, Boot(image), earlier) && Legal(L, Boot(image), earlier + later)
    requires L.size > LOGSIZE || FitsThroughout(L, Boot(image), earlier + later)
    requires L.Home(b)
    ensures var s, t := After(L, Boot(image), earlier), After(L, Boot(image), earlier + later);
      && s.durable <= t.durable && Recoverable(L, t.disk)
      && ((forall k :: |s.durable| <= k < |t.durable| ==> t.durable[k].b != b) ==>
            RecoveredAt(L, t.disk, b) == Apply(image, s.durable)[b])
  {
    hide Apply, Enabled, Do, FitsThroughout;
    var s, t := After(L, Boot(image), earlier), After(L, Boot(image), earlier + later);
    CrashAtomicity(L, image, earlier + later);
    RunConcat(L, Boot(image), earlier, later);
    DurableGrows(L, s, later);
    var more := t.durable[|s.durable|..];
    assert t.durable == s.durable + more;
    if forall k :: |s.durable| <= k < |t.durable| ==> t.durable[k].b != b {
      forall k | 0 <= k < |more| ensures more[k].b != b { assert more[k] == t.durable[|s.durable| + k]; }
      ApplyElsewhere(image, s.durable, more, b);
    }
  }
}
