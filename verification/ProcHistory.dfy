/** Who forked whom, who exited and who waited for whom, told from the steps of a run alone; and what
    forking, exiting and killing set in motion. */
module ProcHistory {
  import opened ProcTable
  import opened ProcLifecycle

  /** How many slots fork has allocated. */
  function Allocs(steps: seq<Step>): nat {
    if steps == [] then 0 else Allocs(steps[..|steps| - 1]) + if steps[|steps| - 1].Alloc? then 1 else 0
  }

  /** The pid in slot i: pids are given out in order, from 2 on. */
  function PidLeft(steps: seq<Step>, i: nat): nat {
    if steps == [] then (if i == INIT then 1 else 0)
    else
      var front, last := steps[..|steps| - 1], steps[|steps| - 1];
      if last.Alloc? && last.c == i then 2 + Allocs(front)
      else if last.Reap? && last.c == i then 0
      else PidLeft(front, i)
  }

  /** The slot that process p last allocated for a child. */
  function ChildLeft(steps: seq<Step>, p: nat): nat {
    if steps == [] then 0
    else
      var last := steps[|steps| - 1];
      if last.Alloc? && last.p == p then last.c else ChildLeft(steps[..|steps| - 1], p)
  }

  /** The parent of slot i: the process that forked it, or init once that one has exited. */
  function ParentLeft(steps: seq<Step>, i: nat): int {
    if steps == [] then -1
    else
      var front, last := steps[..|steps| - 1], steps[|steps| - 1];
      if last.SetParent? && ChildLeft(front, last.p) == i then last.p
      else if last.Exits? && ParentLeft(front, i) == last.p then INIT
      else if last.Reap? && last.c == i then -1
      else ParentLeft(front, i)
  }

  /** The pids that wait has returned, and of the processes that it returned them to. */
  function Returned(steps: seq<Step>): seq<nat> {
    if steps == [] then []
    else
      var front, last := steps[..|steps| - 1], steps[|steps| - 1];
      Returned(front) + if last.Reap? then [PidLeft(front, last.c)] else []
  }

  function ReturnedTo(steps: seq<Step>): seq<nat> {
    if steps == [] then []
    else
      var front, last := steps[..|steps| - 1], steps[|steps| - 1];
      ReturnedTo(front) + if last.Reap? then [PidLeft(front, last.p)] else []
  }

  /** The pids that have exited, each with the pid of its parent then. */
  function ExitedUnder(steps: seq<Step>): map<nat, nat> {
    if steps == [] then map[]
    else
      var front, last := steps[..|steps| - 1], steps[|steps| - 1];
      if last.Exits? then
        var parent := ParentLeft(front, last.p);
        ExitedUnder(front)[PidLeft(front, last.p) := if parent < 0 then 0 else PidLeft(front, parent)]
      else ExitedUnder(front)
  }

  /** The table and its record agree with the history. */
  ghost predicate Told(steps: seq<Step>, s: State) {
    && s.nextpid == 2 + Allocs(steps) && SlotsTold(steps, s)
    && s.returned == Returned(steps) && s.gotBy == ReturnedTo(steps)
    && s.parentAtExit == ExitedUnder(steps) && s.exited == ExitedUnder(steps).Keys
  }

  ghost predicate SlotsTold(steps: seq<Step>, s: State) {
    forall i :: 0 <= i < |s.ps| ==> SlotTold(steps, i, s.ps[i])
  }

  predicate SlotTold(steps: seq<Step>, i: nat, x: Proc) {
    && x.parent == ParentLeft(steps, i)
    && (x.state != UNUSED ==> x.pid == PidLeft(steps, i))
    && (x.pc.InFork? ==> x.pc.np == ChildLeft(steps, i))
  }

  lemma Snoc(steps: seq<Step>, step: Step, i: nat)
    ensures var more := steps + [step];
      && Allocs(more) == Allocs(steps) + (if step.Alloc? then 1 else 0)
      && PidLeft(more, i) == (if step.Alloc? && step.c == i then 2 + Allocs(steps)
                              else if step.Reap? && step.c == i then 0 else PidLeft(steps, i))
      && ChildLeft(more, i) == (if step.Alloc? && step.p == i then step.c else ChildLeft(steps, i))
      && ParentLeft(more, i) == (if step.SetParent? && ChildLeft(steps, step.p) == i then step.p
                                 else if step.Exits? && ParentLeft(steps, i) == step.p then INIT
                                 else if step.Reap? && step.c == i then -1 else ParentLeft(steps, i))
  {
    assert (steps + [step])[..|steps|] == steps;
  }

  lemma SnocRecord(steps: seq<Step>, step: Step)
    ensures var more := steps + [step];
      && Returned(more) == Returned(steps) + (if step.Reap? then [PidLeft(steps, step.c)] else [])
      && ReturnedTo(more) == ReturnedTo(steps) + (if step.Reap? then [PidLeft(steps, step.p)] else [])
      && (!step.Exits? ==> ExitedUnder(more) == ExitedUnder(steps))
      && (step.Exits? ==>
            var parent := ParentLeft(steps, step.p);
            ExitedUnder(more) ==
              ExitedUnder(steps)[PidLeft(steps, step.p) := if parent < 0 then 0 else PidLeft(steps, parent)])
  {
    assert (steps + [step])[..|steps|] == steps;
  }

  lemma SlotStep(s: State, steps: seq<Step>, step: Step, i: nat)
    requires Tree(s) && Told(steps, s) && Enabled(s, step) && i < |s.ps|
    ensures |Do(s, step).ps| == |s.ps| && SlotTold(steps + [step], i, Do(s, step).ps[i])
  {
    hide Allocs, PidLeft, ChildLeft, ParentLeft, Returned, ReturnedTo, ExitedUnder;
    Snoc(steps, step, i);
    assert SlotTold(steps, i, s.ps[i]) && Family(s.ps, i) && Forking(s.ps, i);
    if step.SetParent? || step.ForkFail? || step.ForkDone? {
      assert SlotTold(steps, step.p, s.ps[step.p]) && Forking(s.ps, step.p);
    }
  }

  lemma RecordStep(s: State, steps: seq<Step>, step: Step)
    requires Tree(s) && Told(steps, s) && Enabled(s, step)
    ensures var t, more := Do(s, step), steps + [step];
      && t.nextpid == 2 + Allocs(more) && t.returned == Returned(more) && t.gotBy == ReturnedTo(more)
      && t.parentAtExit == ExitedUnder(more) && t.exited == ExitedUnder(more).Keys
  {
    hide Allocs, PidLeft, ChildLeft, ParentLeft, Returned, ReturnedTo, ExitedUnder;
    Snoc(steps, step, 0);
    SnocRecord(steps, step);
    assert Returned(steps) + [] == Returned(steps) && ReturnedTo(steps) + [] == ReturnedTo(steps);
    if step.Reap? {
      assert SlotTold(steps, step.c, s.ps[step.c]) && SlotTold(steps, step.p, s.ps[step.p]);
    } else if step.Exits? {
      assert SlotTold(steps, step.p, s.ps[step.p]) && Family(s.ps, step.p);
      var parent := s.ps[step.p].parent;
      assert SlotTold(steps, parent, s.ps[parent]);
    }
  }

  lemma {:induction false} LastStep(s: State, front: seq<Step>, step: Step, t: State) returns (m: State)
    requires Reaches(s, front + [step], t)
    ensures Reaches(s, front, m) && Enabled(m, step) && t == Do(m, step)
    decreases |front|
  {
    hide Do, Enabled;
    var all := front + [step];
    if front == [] {
      assert all[1..] == [];
      m := s;
    } else {
      assert all[0] == front[0] && all[1..] == front[1..] + [step];
      m := LastStep(Do(s, front[0]), front[1..], step, t);
    }
  }

  /** In every reachable table the pids, the parents, and who has exited under whom and been returned
      to whom, are as the steps say. */
  lemma {:induction false} HistoryTold(s: State, steps: seq<Step>, t: State)
    requires Initial(s) && Reaches(s, steps, t)
    ensures Told(steps, t)
    decreases |steps|
  {
    if steps != [] {
      var n := |steps| - 1;
      assert steps == steps[..n] + [steps[n]];
      hide Do, Enabled, Told, Tree, Histories;
      var m := LastStep(s, steps[..n], steps[n], t);
      HistoryTold(s, steps[..n], m);
      InitialInv(s);
      InvRun(s, steps[..n], m);
      TellStep(m, steps[..n], steps[n]);
    }
  }

  lemma TellStep(s: State, steps: seq<Step>, step: Step)
    requires Tree(s) && Told(steps, s) && Enabled(s, step)
    ensures Told(steps + [step], Do(s, step))
  {
    hide Do, Enabled, Tree, SlotTold;
    assert |Do(s, step).ps| == |s.ps| by { SameSlots(s, step); }
    forall i | 0 <= i < |s.ps| ensures SlotTold(steps + [step], i, Do(s, step).ps[i]) { SlotStep(s, steps, step, i); }
    RecordStep(s, steps, step);
  }

  lemma SameSlots(s: State, step: Step)
    requires Enabled(s, step)
    ensures |Do(s, step).ps| == |s.ps|
  { }

  // ----- what the steps set in motion -----

  /** fork: once it is done the child is its parent's and can run. */
  lemma ForkRuns(s: State, p: nat)
    requires Tree(s) && Enabled(s, ForkDone(p))
    ensures var c, t := s.ps[p].pc.np, Do(s, ForkDone(p));
      && t.ps[c].parent == p && t.ps[c].pid == s.ps[c].pid > t.ps[p].pid
      && Enabled(t, Schedule(c)) && Runs(Do(t, Schedule(c)), c) && Runs(t, p)
  {
    assert Forking(s.ps, p);
  }

  lemma {:induction false} FirstZombie(ps: seq<Proc>, p: nat, c: nat) returns (k: nat)
    requires c < |ps| && ZombieChild(ps, p, c)
    ensures k <= c && ZombieChild(ps, p, k) && forall j :: 0 <= j < k ==> !ZombieChild(ps, p, j)
  {
    if j :| 0 <= j < c && ZombieChild(ps, p, j) {
      k := FirstZombie(ps, p, j);
    } else {
      k := c;
    }
  }

  /** exit ends its parent's wait: the parent can run again, and then wait returns the child, or for
      init perhaps a zombie that it inherits from the child. */
  lemma ExitEndsWait(s: State, p: nat, c: nat) returns (k: nat)
    requires Tree(s) && Enabled(s, Exits(c)) && p < |s.ps| && p != c && s.ps[c].parent == p
    requires s.ps[p].state == SLEEPING && s.ps[p].pc == InWait && s.ps[p].chan == On(p)
    ensures var t := Do(s, Exits(c)); Enabled(t, Schedule(p)) && Enabled(Do(t, Schedule(p)), Reap(p, k))
    ensures p != INIT ==> k == c
  {
    assert Waiting(s.ps, p);
    var t := Do(Do(s, Exits(c)), Schedule(p));
    k := FirstZombie(t.ps, p, c);
    assert !ZombieChild(s.ps, p, k);
  }

  /** kill: a sleeping process can run again, and if it was in wait it gives up. */
  lemma KillWakes(s: State, p: nat)
    requires Tree(s) && p < |s.ps| && s.ps[p].state == SLEEPING
    ensures var t := Do(s, Kill(p));
      && Enabled(t, Schedule(p)) && Do(t, Schedule(p)).ps[p].killed
      && (s.ps[p].pc == InWait ==> Enabled(Do(t, Schedule(p)), WaitFails(p)))
  {
    assert Waiting(s.ps, p);
    var t := Do(Do(s, Kill(p)), Schedule(p));
    if s.ps[p].pc == InWait { NoZombieChild(s.ps, t.ps, p); }
  }

  /** Who gives up the processor, or sleeps and is woken, can run again. */
  lemma RunsAgain(s: State, p: nat)
    requires Runs(s, p) && s.ps[p].pc != InWait
    ensures Enabled(s, Yield(p)) && Enabled(Do(s, Yield(p)), Schedule(p))
    ensures var t := Do(s, SleepElsewhere(p));
      !Enabled(t, Schedule(p)) && Enabled(t, WakeElsewhere(p)) && Enabled(Do(t, WakeElsewhere(p)), Schedule(p))
  { }

  ghost function LifeOf(p: nat, c: nat): seq<Step> {
    [Alloc(p, c), SetParent(p), ForkDone(p), Schedule(c), Exits(c), Reap(p, c)]
  }

  /** A child's whole life: fork finds the first free slot, the child runs with the next pid and exits,
      and its parent's wait returns that pid and frees the slot. */
  lemma ChildLives(s: State, p: nat, c: nat) returns (t: State)
    requires Tree(s) && Runs(s, p) && s.ps[p].pc == User && !HasZombieChild(s.ps, p)
    requires Enabled(s, Alloc(p, c)) && c != INIT
    ensures Reaches(s, LifeOf(p, c), t)
    ensures t.returned == s.returned + [s.nextpid] && t.gotBy == s.gotBy + [s.ps[p].pid]
    ensures |t.ps| == |s.ps| && t.ps[c].state == UNUSED && Runs(t, p) && t.ps[p].pc == User
    ensures t.exited == s.exited + {s.nextpid}
  {
    var a, b, d, e := ChildBorn(s, p, c);
    ChildDies(s, p, c, e);
    var f := Do(e, Exits(c));
    t := Do(f, Reap(p, c));
    hide Do, Enabled, Tree;
    LifeReaches(s, p, c, a, b, d, e, f, t);
  }

  /** The first four steps put the child into its slot, running. */
  lemma ChildBorn(s: State, p: nat, c: nat) returns (a: State, b: State, d: State, e: State)
    requires Tree(s) && Enabled(s, Alloc(p, c))
    ensures a == Do(s, Alloc(p, c)) && Enabled(a, SetParent(p)) && b == Do(a, SetParent(p))
    ensures Enabled(b, ForkDone(p)) && d == Do(b, ForkDone(p)) && Enabled(d, Schedule(c)) && e == Do(d, Schedule(c))
    ensures e == s.(ps := s.ps[c := s.ps[c].(state := RUNNING, pid := s.nextpid, parent := p, chan := NoChan)],
                    nextpid := s.nextpid + 1)
  {
    a := Do(s, Alloc(p, c));
    b := Do(a, SetParent(p));
    d := Do(b, ForkDone(p));
    e := Do(d, Schedule(c));
    assert e.ps[p] == s.ps[p];
  }

  lemma ChildDies(s: State, p: nat, c: nat, e: State)
    requires Tree(s) && Enabled(s, Alloc(p, c)) && c != INIT && !HasZombieChild(s.ps, p)
    requires e == s.(ps := s.ps[c := s.ps[c].(state := RUNNING, pid := s.nextpid, parent := p, chan := NoChan)],
                     nextpid := s.nextpid + 1)
    ensures Enabled(e, Exits(c)) && Enabled(Do(e, Exits(c)), Reap(p, c))
    ensures var t := Do(Do(e, Exits(c)), Reap(p, c));
      && t.returned == s.returned + [s.nextpid] && t.gotBy == s.gotBy + [s.ps[p].pid]
      && |t.ps| == |s.ps| && t.ps[c].state == UNUSED && Runs(t, p) && t.ps[p].pc == User
      && t.exited == s.exited + {s.nextpid}
  {
    assert Forking(s.ps, c) && Waiting(s.ps, c);
    var f := Do(e, Exits(c));
    assert f.ps[p].state == RUNNING && f.ps[p].pc == User && f.ps[p].pid == s.ps[p].pid && ZombieChild(f.ps, p, c);
    forall k | 0 <= k < c ensures !ZombieChild(f.ps, p, k) {
      assert !ZombieChild(s.ps, p, k) && Family(s.ps, k);
    }
  }

  lemma LifeReaches(s: State, p: nat, c: nat, a: State, b: State, d: State, e: State, f: State, t: State)
    requires Enabled(s, Alloc(p, c)) && a == Do(s, Alloc(p, c)) && Enabled(a, SetParent(p)) && b == Do(a, SetParent(p))
    requires Enabled(b, ForkDone(p)) && d == Do(b, ForkDone(p)) && Enabled(d, Schedule(c)) && e == Do(d, Schedule(c))
    requires Enabled(e, Exits(c)) && f == Do(e, Exits(c)) && Enabled(f, Reap(p, c)) && t == Do(f, Reap(p, c))
    ensures Reaches(s, LifeOf(p, c), t)
  {
    hide Do, Enabled;
    var life := LifeOf(p, c);
    assert life[1..][0] == SetParent(p) && life[1..][1..][0] == ForkDone(p) && life[1..][1..][1..][0] == Schedule(c);
    assert life[1..][1..] == life[2..] && life[2..][1..] == life[3..] && life[3..][1..] == life[4..];
    assert life[4..][1..] == life[5..] && life[5..] == [Reap(p, c)] && [Reap(p, c)][1..] == [];
    assert Reaches(t, [], t);
    assert Reaches(f, life[5..], t);
    assert Reaches(e, life[4..], t);
    assert Reaches(d, life[3..], t);
    assert Reaches(b, life[2..], t);
    assert Reaches(a, life[1..], t);
  }
}
