/** What a run of the log has written, read off its steps alone: which operation each step belongs to,
    which write each append completes, and which operations have been committed for good. */
module LogHistory {
  import opened Params
  import opened RedoLog
  import opened LogProtocol
  import opened LogTheorems

  /** How many operations have begun. */
  ghost function Begun(steps: seq<Step>): nat {
    if steps == [] then 0
    else Begun(steps[..|steps| - 1]) + if steps[|steps| - 1].Begin? then 1 else 0
  }

  /** The operations that have begun and not ended, by the order in which they began; End removes
      the one it names, a crash removes all. */
  ghost function Outstanding(steps: seq<Step>): seq<nat> {
    if steps == [] then []
    else
      var front := steps[..|steps| - 1];
      StillOutstanding(Outstanding(front), Begun(front), steps[|steps| - 1])
  }

  ghost function StillOutstanding(ids: seq<nat>, begun: nat, step: Step): seq<nat> {
    match step
    case Begin => ids + [begun]
    case End(i) => if i < |ids| then ids[..i] + ids[i + 1..] else ids
    case Crash => []
    case _ => ids
  }

  /** The write that operation id has last passed to log_write. */
  ghost function LastCheck(steps: seq<Step>, id: nat): Pending {
    if steps == [] then NoWrite
    else
      var front, last := steps[..|steps| - 1], steps[|steps| - 1];
      if last.Check? && last.i < |Outstanding(front)| && Outstanding(front)[last.i] == id then
        Checked(last.b, last.data)
      else LastCheck(front, id)
  }

  /** The write that a step completes: for an append, the last one its operation passed. */
  ghost function WriteNow(steps: seq<Step>, step: Step): seq<Rec> {
    var ids := Outstanding(steps);
    if step.Append? && step.i < |ids| then
      match LastCheck(steps, ids[step.i])
      case NoWrite => []
      case Checked(b, data) => [Rec(ids[step.i], b, data)]
    else []
  }

  ghost function WriteAt(steps: seq<Step>, k: nat): seq<Rec>
    requires k < |steps|
  {
    WriteNow(steps[..k], steps[k])
  }

  /** All writes of a run, in the order of their appends. */
  ghost function Writes(steps: seq<Step>): seq<Rec> {
    if steps == [] then []
    else Writes(steps[..|steps| - 1]) + WriteNow(steps[..|steps| - 1], steps[|steps| - 1])
  }

  /** The writes of some of the operations. */
  ghost function Only(recs: seq<Rec>, ids: set<nat>): seq<Rec> {
    if recs == [] then []
    else
      var last := recs[|recs| - 1];
      Only(recs[..|recs| - 1], ids) + if last.op in ids then [last] else []
  }

  /** Operations that ended since the last commit or crash. */
  ghost function Ended(steps: seq<Step>): set<nat> {
    if steps == [] then {}
    else
      var front, last := steps[..|steps| - 1], steps[|steps| - 1];
      var ids := Outstanding(front);
      match last
      case End(i) => Ended(front) + if i < |ids| then {ids[i]} else {}
      case CommitDone => {}
      case Crash => {}
      case _ => Ended(front)
  }

  /** Operations whose commit has run to its end. */
  ghost function Finished(steps: seq<Step>): set<nat> {
    if steps == [] then {}
    else
      var front := steps[..|steps| - 1];
      Finished(front) + if steps[|steps| - 1].CommitDone? then Ended(front) else {}
  }

  // ----- the history by position -----

  /** Step k is a call by operation id. */
  ghost predicate By(steps: seq<Step>, k: nat, i: nat, id: nat)
    requires k < |steps|
  {
    i < |Outstanding(steps[..k])| && Outstanding(steps[..k])[i] == id
  }

  /** An append completes the write of its operation's last test before it. */
  lemma {:induction false} LastCheckAt(steps: seq<Step>, n: nat, j: nat, id: nat)
    requires j < n <= |steps| && steps[j].Check? && By(steps, j, steps[j].i, id)
    requires forall k :: j < k < n && steps[k].Check? ==> !By(steps, k, steps[k].i, id)
    ensures LastCheck(steps[..n], id) == Checked(steps[j].b, steps[j].data)
    decreases n
  {
    var front := steps[..n - 1];
    assert steps[..n][..n - 1] == front && steps[..n][n - 1] == steps[n - 1];
    if j < n - 1 {
      LastCheckAt(steps, n - 1, j, id);
      assert steps[n - 1].Check? ==> !By(steps, n - 1, steps[n - 1].i, id);
    }
  }

  lemma AppendWrites(steps: seq<Step>, k: nat, j: nat, id: nat)
    requires j < k < |steps| && steps[k].Append? && By(steps, k, steps[k].i, id)
    requires steps[j].Check? && By(steps, j, steps[j].i, id)
    requires forall m :: j < m < k && steps[m].Check? ==> !By(steps, m, steps[m].i, id)
    ensures WriteAt(steps, k) == [Rec(id, steps[j].b, steps[j].data)]
  {
    LastCheckAt(steps, k, j, id);
  }

  // ----- one step more -----

  lemma Snoc(steps: seq<Step>, step: Step)
    ensures var more := steps + [step]; var ids := Outstanding(steps);
      && Begun(more) == Begun(steps) + (if step.Begin? then 1 else 0)
      && Outstanding(more) == StillOutstanding(ids, Begun(steps), step)
      && Writes(more) == Writes(steps) + WriteNow(steps, step)
      && (!step.Append? ==> Writes(more) == Writes(steps))
      && Finished(more) == Finished(steps) + (if step.CommitDone? then Ended(steps) else {})
      && Ended(more) == (if step.CommitDone? || step.Crash? then {}
                         else Ended(steps) + if step.End? && step.i < |ids| then {ids[step.i]} else {})
  {
    assert (steps + [step])[..|steps|] == steps;
    assert Writes(steps) + [] == Writes(steps);
  }

  lemma SnocCheck(steps: seq<Step>, step: Step, id: nat)
    ensures var ids := Outstanding(steps);
      LastCheck(steps + [step], id) ==
        if step.Check? && step.i < |ids| && ids[step.i] == id then Checked(step.b, step.data)
        else LastCheck(steps, id)
  {
    assert (steps + [step])[..|steps|] == steps;
  }

  /** The state's own record agrees with the history. */
  ghost predicate Told(steps: seq<Step>, s: State) {
    && s.nextId == Begun(steps)
    && |s.ops| == |Outstanding(steps)| && (forall i :: 0 <= i < |s.ops| ==> s.ops[i].id == Outstanding(steps)[i])
    && (forall i :: 0 <= i < |s.ops| && s.ops[i].pending.Checked? ==>
          LastCheck(steps, s.ops[i].id) == s.ops[i].pending)
    && (forall id: nat :: id < s.nextId ==> id in s.wrote && s.wrote[id] == OfOp(Writes(steps), id))
    && (forall k :: 0 <= k < |Writes(steps)| ==> Writes(steps)[k].op < s.nextId)
  }

  lemma {:induction false} OfOpNew(recs: seq<Rec>, id: nat)
    requires forall k :: 0 <= k < |recs| ==> recs[k].op != id
    ensures OfOp(recs, id) == []
  {
    if recs != [] { OfOpNew(recs[..|recs| - 1], id); }
  }

  lemma ToldBegin(L: Layout, s: State, steps: seq<Step>)
    requires Histories(s) && Told(steps, s) && Enabled(L, s, Begin)
    ensures Told(steps + [Begin], Do(L, s, Begin))
  {
    hide OfOp, Whole, Begun, Outstanding, LastCheck, Writes;
    Snoc(steps, Begin);
    OfOpNew(Writes(steps), s.nextId);
    forall id ensures LastCheck(steps + [Begin], id) == LastCheck(steps, id) { SnocCheck(steps, Begin, id); }
  }

  lemma CheckKeeps(L: Layout, s: State, i: nat, b: int, data: Block)
    requires Enabled(L, s, Check(i, b, data))
    ensures i < |s.ops| && s.ops[i].pending == NoWrite
    ensures var s' := Do(L, s, Check(i, b, data));
      && s'.nextId == s.nextId && s'.wrote == s.wrote
      && (s'.ops == s.ops || s'.ops == s.ops[i := s.ops[i].(pending := Checked(b, data))])
  { }

  lemma OneId(s: State, i: nat, j: nat)
    requires Histories(s) && i < |s.ops| && j < |s.ops|
    ensures s.ops[i].id == s.ops[j].id ==> i == j
  {
    hide OfOp, Whole;
  }

  lemma ToldCheck(L: Layout, s: State, steps: seq<Step>, i: nat, b: int, data: Block)
    requires Histories(s) && Told(steps, s) && Enabled(L, s, Check(i, b, data))
    ensures Told(steps + [Check(i, b, data)], Do(L, s, Check(i, b, data)))
  {
    hide OfOp, Begun, Outstanding, LastCheck, Writes, WriteNow, Histories, Do, Enabled;
    var step := Check(i, b, data);
    CheckKeeps(L, s, i, b, data);
    Snoc(steps, step);
    forall j | 0 <= j < |s.ops|
      ensures LastCheck(steps + [step], s.ops[j].id)
           == if j == i then Checked(b, data) else LastCheck(steps, s.ops[j].id)
    {
      OneId(s, i, j);
      SnocCheck(steps, step, s.ops[j].id);
    }
  }

  lemma ToldAppend(L: Layout, s: State, steps: seq<Step>, i: nat)
    requires Histories(s) && Told(steps, s) && Enabled(L, s, Append(i))
    ensures Told(steps + [Append(i)], Do(L, s, Append(i)))
    ensures WriteNow(steps, Append(i)) == [Rec(s.ops[i].id, s.ops[i].pending.b, s.ops[i].pending.data)]
  {
    hide OfOp, Whole, Begun, Outstanding, LastCheck, Writes;
    var step, op := Append(i), s.ops[i];
    Snoc(steps, step);
    forall id ensures LastCheck(steps + [step], id) == LastCheck(steps, id) { SnocCheck(steps, step, id); }
    var rec := Rec(op.id, op.pending.b, op.pending.data);
    forall id: nat
      ensures OfOp(Writes(steps + [step]), id) == OfOp(Writes(steps), id) + if op.id == id then [rec] else []
    {
      OfOpSnoc(Writes(steps), rec, id);
    }
  }

  /** Taking one entry out of two lists that go together. */
  lemma BothWithout(ops: seq<Op>, ids: seq<nat>, i: nat)
    requires i < |ops| == |ids| && forall j :: 0 <= j < |ops| ==> ops[j].id == ids[j]
    ensures var o, d := LogProtocol.Without(ops, i), ids[..i] + ids[i + 1..];
      && |o| == |d| && (forall j :: 0 <= j < |o| ==> o[j].id == d[j])
      && forall j :: 0 <= j < |o| ==> o[j] in ops
  {
    var o, d := LogProtocol.Without(ops, i), ids[..i] + ids[i + 1..];
    forall j | 0 <= j < |o| ensures o[j].id == d[j] && o[j] in ops {
      assert o[j] == ops[if j < i then j else j + 1];
    }
  }

  lemma ToldEnd(L: Layout, s: State, steps: seq<Step>, i: nat)
    requires Histories(s) && Told(steps, s) && Enabled(L, s, End(i))
    ensures Told(steps + [End(i)], Do(L, s, End(i)))
  {
    hide OfOp, Whole, Begun, Outstanding, LastCheck, Writes, WriteNow, Histories, LogProtocol.Without;
    var step := End(i);
    Snoc(steps, step);
    BothWithout(s.ops, Outstanding(steps), i);
    forall id ensures LastCheck(steps + [step], id) == LastCheck(steps, id) { SnocCheck(steps, step, id); }
  }

  lemma OthersKeep(L: Layout, s: State, step: Step)
    requires Enabled(L, s, step) && !step.Begin? && !step.Check? && !step.Append? && !step.End?
    ensures var s' := Do(L, s, step);
      s'.nextId == s.nextId && s'.wrote == s.wrote && s'.ops == if step.Crash? then [] else s.ops
  { }

  lemma ToldElse(L: Layout, s: State, steps: seq<Step>, step: Step)
    requires Told(steps, s) && Enabled(L, s, step)
    requires !step.Begin? && !step.Check? && !step.Append? && !step.End?
    ensures Told(steps + [step], Do(L, s, step))
  {
    OthersKeep(L, s, step);
    hide OfOp, Begun, Outstanding, LastCheck, Writes, Do, Enabled;
    Snoc(steps, step);
    forall id ensures LastCheck(steps + [step], id) == LastCheck(steps, id) { SnocCheck(steps, step, id); }
  }

  lemma ToldStep(L: Layout, s: State, steps: seq<Step>, step: Step)
    requires Histories(s) && Told(steps, s) && Enabled(L, s, step)
    ensures Told(steps + [step], Do(L, s, step))
  {
    hide Told, Histories, Do, Enabled;
    match step {
      case Begin => ToldBegin(L, s, steps);
      case Check(i, b, data) => ToldCheck(L, s, steps, i, b, data);
      case Append(i) => ToldAppend(L, s, steps, i);
      case End(i) => ToldEnd(L, s, steps, i);
      case _ => ToldElse(L, s, steps, step);
    }
  }

  // ----- which writes survive -----

  lemma OnlySnoc(recs: seq<Rec>, rec: Rec, ids: set<nat>)
    ensures Only(recs + [rec], ids) == Only(recs, ids) + if rec.op in ids then [rec] else []
  {
    assert (recs + [rec])[..|recs|] == recs;
  }

  lemma {:induction false} OnlyConcat(a: seq<Rec>, b: seq<Rec>, ids: set<nat>)
    ensures Only(a + b, ids) == Only(a, ids) + Only(b, ids)
    decreases |b|
  {
    if b == [] {
      assert a + b == a;
    } else {
      var front, last := b[..|b| - 1], b[|b| - 1];
      assert a + b == (a + front) + [last];
      OnlySnoc(a + front, last, ids);
      OnlyConcat(a, front, ids);
    }
  }

  lemma {:induction false} OnlyTwice(recs: seq<Rec>, ids: set<nat>, fewer: set<nat>)
    requires fewer <= ids
    ensures Only(Only(recs, ids), fewer) == Only(recs, fewer)
  {
    if recs != [] {
      var n := |recs| - 1;
      OnlyTwice(recs[..n], ids, fewer);
      assert Only(recs[..n], ids) + [] == Only(recs[..n], ids) && Only(recs[..n], fewer) + [] == Only(recs[..n], fewer);
      if recs[n].op in ids { OnlySnoc(Only(recs[..n], ids), recs[n], fewer); }
    }
  }

  lemma {:induction false} OnlyAll(recs: seq<Rec>, ids: set<nat>)
    requires forall k :: 0 <= k < |recs| ==> recs[k].op in ids
    ensures Only(recs, ids) == recs
  {
    if recs != [] { OnlyAll(recs[..|recs| - 1], ids); }
  }

  lemma {:induction false} OnlyNone(recs: seq<Rec>, ids: set<nat>)
    requires forall k :: 0 <= k < |recs| ==> recs[k].op !in ids
    ensures Only(recs, ids) == []
  {
    if recs != [] { OnlyNone(recs[..|recs| - 1], ids); }
  }

  lemma {:induction false} OnlyMembers(recs: seq<Rec>, ids: set<nat>)
    ensures forall k :: 0 <= k < |Only(recs, ids)| ==> Only(recs, ids)[k].op in ids
  {
    if recs != [] { OnlyMembers(recs[..|recs| - 1], ids); }
  }

  lemma {:induction false} OnlySame(recs: seq<Rec>, ids: set<nat>, more: set<nat>)
    requires forall k :: 0 <= k < |recs| ==> (recs[k].op in ids <==> recs[k].op in more)
    ensures Only(recs, ids) == Only(recs, more)
  {
    if recs != [] { OnlySame(recs[..|recs| - 1], ids, more); }
  }

  lemma {:induction false} OfOpSome(recs: seq<Rec>, k: nat)
    requires k < |recs|
    ensures OfOp(recs, recs[k].op) != []
  {
    if k < |recs| - 1 { OfOpSome(recs[..|recs| - 1], k); }
  }

  /** The log holds the writes of the operations in kept and no others: all that have finished,
      ended since, or are outstanding.  Those that finished are not in the current transaction. */
  ghost predicate Keeps(steps: seq<Step>, s: State, kept: set<nat>) {
    && s.durable + s.group == Only(Writes(steps), kept)
    && (forall id :: id in kept ==> id < s.nextId)
    && Ended(steps) <= kept && Finished(steps) <= kept
    && (forall i :: 0 <= i < |s.ops| ==>
          s.ops[i].id in kept && s.ops[i].id !in Ended(steps) && s.ops[i].id !in Finished(steps))
    && (forall id :: id in Finished(steps) ==> OfOp(s.group, id) == [])
  }

  ghost predicate All(s: State, kept: set<nat>) {
    forall id: nat :: id < s.nextId ==> id in kept
  }

  lemma KeepsBegin(L: Layout, s: State, steps: seq<Step>, kept: set<nat>)
    requires Histories(s) && Told(steps, s) && Keeps(steps, s, kept) && Enabled(L, s, Begin)
    ensures Keeps(steps + [Begin], Do(L, s, Begin), kept + {s.nextId})
  {
    hide OfOp, Whole, Begun, Outstanding, LastCheck, Writes, Only, Ended, Finished;
    Snoc(steps, Begin);
    OnlySame(Writes(steps), kept, kept + {s.nextId});
  }

  lemma KeepsAppend(L: Layout, s: State, steps: seq<Step>, kept: set<nat>, i: nat)
    requires Histories(s) && Told(steps, s) && Keeps(steps, s, kept) && Enabled(L, s, Append(i))
    ensures Keeps(steps + [Append(i)], Do(L, s, Append(i)), kept)
  {
    hide OfOp, Whole, Begun, Outstanding, LastCheck, Writes, WriteNow, Only, Ended, Finished, Told, Histories;
    Snoc(steps, Append(i));
    ToldAppend(L, s, steps, i);
    var op := s.ops[i];
    var rec := Rec(op.id, op.pending.b, op.pending.data);
    OnlySnoc(Writes(steps), rec, kept);
    assert s.durable + (s.group + [rec]) == (s.durable + s.group) + [rec];
    forall id: nat ensures OfOp(s.group + [rec], id) == OfOp(s.group, id) + if rec.op == id then [rec] else [] {
      OfOpSnoc(s.group, rec, id);
    }
  }

  lemma KeepsEnd(L: Layout, s: State, steps: seq<Step>, kept: set<nat>, i: nat)
    requires Histories(s) && Told(steps, s) && Keeps(steps, s, kept) && Enabled(L, s, End(i))
    ensures Keeps(steps + [End(i)], Do(L, s, End(i)), kept)
  {
    hide OfOp, Whole, Begun, Outstanding, LastCheck, Writes, Only, Ended, Finished;
    Snoc(steps, End(i));
    var s' := Do(L, s, End(i));
    forall j | 0 <= j < |s'.ops| ensures s'.ops[j] == s.ops[if j < i then j else j + 1] { }
  }

  lemma KeepsCommit(L: Layout, s: State, steps: seq<Step>, kept: set<nat>, step: Step)
    requires Accounted(L, s) && Histories(s) && Keeps(steps, s, kept) && Enabled(L, s, step)
    requires step.CommitWrite? || step.CommitDone? || step.Check? || step.ReadHead? || step.RecoverWrite?
    ensures Keeps(steps + [step], Do(L, s, step), kept)
  {
    hide OfOp, Whole, Unused, Begun, Outstanding, LastCheck, Writes, WriteNow, Only, Ended, Finished, Do, Enabled,
         Accounted, Histories;
    OfOpNothing();
    CommitKeeps(L, s, step);
    Snoc(steps, step);
  }

  lemma CommitKeeps(L: Layout, s: State, step: Step)
    requires Accounted(L, s) && Histories(s) && Enabled(L, s, step)
    requires step.CommitWrite? || step.CommitDone? || step.Check? || step.ReadHead? || step.RecoverWrite?
    ensures var s' := Do(L, s, step);
      && s'.nextId == s.nextId && |s'.ops| == |s.ops| && s'.durable + s'.group == s.durable + s.group
      && (s'.group == s.group || s'.group == []) && (step.CommitDone? ==> s'.group == [] && s'.ops == [])
      && (forall i :: 0 <= i < |s.ops| ==> s'.ops[i].id == s.ops[i].id)
  {
    hide OfOp, Whole, Unused;
    assert s.durable + s.group + [] == s.durable + s.group;
  }

  /** What is left of the kept operations when the current transaction is dropped. */
  ghost function Committed(s: State, kept: set<nat>): set<nat> {
    set id | id in kept && OfOp(s.group, id) == [] && forall i :: 0 <= i < |s.ops| ==> s.ops[i].id != id
  }

  lemma CommittedOnly(s: State, steps: seq<Step>, kept: set<nat>)
    requires Histories(s) && Told(steps, s) && Keeps(steps, s, kept)
    ensures s.durable == Only(Writes(steps), Committed(s, kept))
  {
    hide OfOp, Begun, Outstanding, LastCheck, Writes, Only, Ended, Finished;
    var rest, all := Committed(s, kept), Only(Writes(steps), kept);
    OnlyMembers(Writes(steps), kept);
    OnlyTwice(Writes(steps), kept, rest);
    OnlyConcat(s.durable, s.group, rest);
    forall k | 0 <= k < |s.group| ensures s.group[k].op !in rest { OfOpSome(s.group, k); }
    OnlyNone(s.group, rest);
    forall k | 0 <= k < |s.durable| ensures s.durable[k].op in rest {
      assert all[k] == s.durable[k];
      OfOpSome(s.durable, k);
      assert Whole(s.durable, s.group, s.wrote[s.durable[k].op], s.durable[k].op);
    }
    OnlyAll(s.durable, rest);
  }

  lemma KeepsCrash(L: Layout, s: State, steps: seq<Step>, kept: set<nat>)
    requires Histories(s) && Told(steps, s) && Keeps(steps, s, kept)
    ensures Keeps(steps + [Crash], Do(L, s, Crash), Committed(s, kept))
  {
    OfOpNothing();
    CommittedOnly(s, steps, kept);
    hide OfOp, Whole, Begun, Outstanding, LastCheck, Writes, Only, Ended, Finished;
    Snoc(steps, Crash);
    assert s.durable + [] == s.durable;
  }

  lemma KeepsStep(L: Layout, s: State, steps: seq<Step>, kept: set<nat>, step: Step) returns (now: set<nat>)
    requires Accounted(L, s) && Histories(s) && Told(steps, s) && Keeps(steps, s, kept) && Enabled(L, s, step)
    ensures Keeps(steps + [step], Do(L, s, step), now)
    ensures !step.Crash? && All(s, kept) ==> All(Do(L, s, step), now)
  {
    hide Accounted, Histories, Told, Keeps;
    now := kept;
    match step {
      case Begin =>
        now := kept + {s.nextId};
        KeepsBegin(L, s, steps, kept);
      case Append(i) => KeepsAppend(L, s, steps, kept, i);
      case End(i) => KeepsEnd(L, s, steps, kept, i);
      case Crash =>
        now := Committed(s, kept);
        KeepsCrash(L, s, steps, kept);
      case _ => KeepsCommit(L, s, steps, kept, step);
    }
  }

  // ----- every run -----

  ghost predicate CrashFree(steps: seq<Step>) {
    forall k :: 0 <= k < |steps| ==> !steps[k].Crash?
  }

  lemma {:induction false} HistoryRun(L: Layout, image: Image, steps: seq<Step>) returns (kept: set<nat>)
    requires EmptyLog(L, image) && Legal(L, Boot(image), steps)
    ensures var s := After(L, Boot(image), steps);
      Orderly(L, s) && Told(steps, s) && Keeps(steps, s, kept) && (CrashFree(steps) ==> All(s, kept))
    decreases |steps|
  {
    hide Accounted, Histories, SaneHeader, Enabled, Do;
    if steps == [] {
      BootOrderly(L, image);
      kept := {};
    } else {
      var n := |steps| - 1;
      var front, step := steps[..n], steps[n];
      assert steps == front + [step];
      LegalSnoc(L, Boot(image), front, step);
      kept := HistoryRun(L, image, front);
      var s := After(L, Boot(image), front);
      hide Told, Keeps, All;
      AccountedStep(L, s, step);
      HistoriesStep(L, s, step);
      SaneStep(L, s, step);
      ToldStep(L, s, front, step);
      kept := KeepsStep(L, s, front, kept, step);
    }
  }

  lemma {:induction false} LegalSnoc(L: Layout, s: State, front: seq<Step>, step: Step)
    requires Legal(L, s, front + [step])
    ensures Legal(L, s, front) && Enabled(L, After(L, s, front), step)
    ensures After(L, s, front + [step]) == Do(L, After(L, s, front), step)
    decreases |front|
  {
    hide Enabled, Do;
    var all := front + [step];
    if front == [] {
      assert all[1..] == [];
    } else {
      assert all[0] == front[0] && all[1..] == front[1..] + [step];
      LegalSnoc(L, Do(L, s, front[0]), front[1..], step);
    }
  }

  /** What the state records of each operation is what its steps say: one write for each append,
      with the block and the contents that the operation last passed to log_write before it. */
  lemma WroteAsPassed(L: Layout, image: Image, steps: seq<Step>, id: nat)
    requires EmptyLog(L, image) && Legal(L, Boot(image), steps)
    ensures var s := After(L, Boot(image), steps);
      && (id in s.wrote <==> id < Begun(steps))
      && (id in s.wrote ==> s.wrote[id] == OfOp(Writes(steps), id))
  {
    hide OfOp, Begun, Writes, Whole;
    var _ := HistoryRun(L, image, steps);
  }

  /** Crash atomicity in terms of the steps alone: recovery yields exactly the writes, in order, of
      some set of operations, none of them outstanding, and all of them in it whose commit has run to
      its end. */
  lemma RecoversOperations(L: Layout, image: Image, steps: seq<Step>) returns (committed: set<nat>)
    requires EmptyLog(L, image) && Legal(L, Boot(image), steps)
    requires L.size > LOGSIZE || FitsThroughout(L, Boot(image), steps)
    ensures RecoversTo(L, After(L, Boot(image), steps).disk, Apply(image, Only(Writes(steps), committed)))
    ensures Finished(steps) <= committed && forall id :: id in committed ==> id !in Outstanding(steps)
  {
    hide OfOp, Begun, Outstanding, LastCheck, Writes, Only, Ended, Finished, Apply, RecoversTo, Legal, After, Whole;
    var kept := HistoryRun(L, image, steps);
    var s := After(L, Boot(image), steps);
    committed := Committed(s, kept);
    CommittedOnly(s, steps, kept);
    CrashAtomicity(L, image, steps);
  }

  /** Step k completes a write of block b. */
  ghost predicate WritesBlock(steps: seq<Step>, k: nat, b: int)
    requires k < |steps|
  {
    WriteAt(steps, k) != [] && WriteAt(steps, k)[0].b == b
  }

  ghost predicate WritesLast(steps: seq<Step>, k: nat, b: int)
    requires k < |steps|
  {
    WritesBlock(steps, k, b) && forall j: nat :: k < j < |steps| ==> !WritesBlock(steps, j, b)
  }

  /** The contents that the last completed write of block b left, if there was one. */
  ghost predicate LastLeft(image: Image, steps: seq<Step>, b: int, data: Block)
    requires 0 <= b < |image|
  {
    && ((forall k: nat :: k < |steps| ==> !WritesBlock(steps, k, b)) ==> data == image[b])
    && (forall k: nat :: k < |steps| && WritesLast(steps, k, b) ==> data == WriteAt(steps, k)[0].data)
  }

  lemma ApplyOne(image: Image, recs: seq<Rec>, more: seq<Rec>, b: int)
    requires 0 <= b < |image| && |more| <= 1
    ensures Apply(image, recs + more)[b]
         == if more != [] && more[0].b == b then more[0].data else Apply(image, recs)[b]
  {
    if more == [] {
      assert recs + more == recs;
    } else {
      assert (recs + more)[..|recs + more| - 1] == recs;
    }
  }

  /** One step more leaves its own contents, or what was left before. */
  lemma LeftByLast(image: Image, steps: seq<Step>, b: int, before: Block, now: Block)
    requires 0 <= b < |image| && steps != [] && LastLeft(image, steps[..|steps| - 1], b, before)
    requires var n := |steps| - 1; now == if WritesBlock(steps, n, b) then WriteAt(steps, n)[0].data else before
    ensures LastLeft(image, steps, b, now)
  {
    hide WriteNow;
    var n := |steps| - 1;
    var front := steps[..n];
    forall k: nat | k < n ensures WriteAt(front, k) == WriteAt(steps, k) { assert front[..k] == steps[..k]; }
    hide WriteAt;
    if WritesBlock(steps, n, b) {
      forall k: nat | k < |steps| && WritesLast(steps, k, b) ensures k == n { }
    } else {
      forall k: nat | k < |steps| && WritesLast(steps, k, b) ensures k < n && WritesLast(front, k, b) {
        forall j: nat | k < j < n ensures !WritesBlock(front, j, b) { assert !WritesBlock(steps, j, b); }
      }
      if forall k: nat :: k < |steps| ==> !WritesBlock(steps, k, b) {
        forall k: nat | k < n ensures !WritesBlock(front, k, b) { assert !WritesBlock(steps, k, b); }
      }
    }
  }

  lemma {:induction false} ApplyLeaves(image: Image, steps: seq<Step>, b: int)
    requires 0 <= b < |image|
    ensures LastLeft(image, steps, b, Apply(image, Writes(steps))[b])
    decreases |steps|
  {
    if steps != [] {
      hide WriteNow, LastLeft, Apply;
      var n := |steps| - 1;
      ApplyLeaves(image, steps[..n], b);
      AtMostOne(steps, n);
      ApplyOne(image, Writes(steps[..n]), WriteAt(steps, n), b);
      LeftByLast(image, steps, b, Apply(image, Writes(steps[..n]))[b], Apply(image, Writes(steps))[b]);
    }
  }

  lemma AtMostOne(steps: seq<Step>, k: nat)
    requires k < |steps|
    ensures |WriteAt(steps, k)| <= 1
  { }

  /** The last write wins: in a run without crashes, bread shows in every home block the contents of
      the last write completed there, and so does the disk whenever no operation is outstanding. */
  lemma LastWriteWins(L: Layout, image: Image, steps: seq<Step>, b: int)
    requires EmptyLog(L, image) && Legal(L, Boot(image), steps) && CrashFree(steps) && L.Home(b)
    requires L.size > LOGSIZE || FitsThroughout(L, Boot(image), steps)
    ensures var s := After(L, Boot(image), steps);
      s.phase.Running? ==>
        && |s.disk| == L.blocks == |image| && LastLeft(image, steps, b, Seen(s.disk, s.pinned, b))
        && (s.ops == [] ==> LastLeft(image, steps, b, s.disk[b]))
  {
    hide OfOp, Begun, Outstanding, LastCheck, Writes, Only, Ended, Finished, Apply, Legal, After, Whole, LastLeft;
    var kept := HistoryRun(L, image, steps);
    var s := After(L, Boot(image), steps);
    OnlyAll(Writes(steps), kept);
    ApplyLeaves(image, steps, b);
    CrashAtomicity(L, image, steps);
    if s.phase.Running? && s.ops == [] { assert s.durable + s.group == s.durable; }
  }
}
