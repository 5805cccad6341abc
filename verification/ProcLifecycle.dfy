/** Process creation, exit and reaping as a state machine: every step is one critical section
    under ptable.lock, or one of fork's unlocked assignments. */
module ProcLifecycle {
  import opened ProcTable

  const INIT: nat := 0   // initproc is the first slot allocated

  /** The table, the next pid, and history: the pids that have exited and the pids that wait has
      returned, in order; for each that exited, the pid of its parent then, and for each that was
      returned, the pid of the process that got it. */
  datatype State = State(
    ps: seq<Proc>, nextpid: nat, exited: set<nat>, returned: seq<nat>, parentAtExit: map<nat, nat>, gotBy: seq<nat>)

  datatype Step =
    | Alloc(p: nat, c: nat)   // allocproc in fork finds slot c
    | ForkFail(p: nat)        // no memory for the child
    | SetParent(p: nat)
    | ForkDone(p: nat)
    | Exits(p: nat)
    | Reap(p: nat, c: nat)    // wait finds zombie c
    | WaitFails(p: nat)       // wait returns -1
    | WaitSleeps(p: nat)
    | Schedule(p: nat)
    | Yield(p: nat)
    | SleepElsewhere(p: nat)
    | WakeElsewhere(p: nat)
    | Kill(p: nat)

  predicate Runs(s: State, p: nat) {
    p < |s.ps| && s.ps[p].state == RUNNING
  }

  predicate Waits(s: State, p: nat) {
    Runs(s, p) && (s.ps[p].pc == User || s.ps[p].pc == InWait)
  }

  predicate Enabled(s: State, step: Step) {
    match step
    case Alloc(p, c) =>
      && Runs(s, p) && s.ps[p].pc == User && c < |s.ps| && s.ps[c].state == UNUSED
      && (forall k :: 0 <= k < c ==> s.ps[k].state != UNUSED)
    case ForkFail(p) => Runs(s, p) && s.ps[p].pc.InFork? && s.ps[p].pc.np < |s.ps| && !s.ps[p].pc.parentSet
    case SetParent(p) => Runs(s, p) && s.ps[p].pc.InFork? && s.ps[p].pc.np < |s.ps| && !s.ps[p].pc.parentSet
    case ForkDone(p) => Runs(s, p) && s.ps[p].pc.InFork? && s.ps[p].pc.np < |s.ps| && s.ps[p].pc.parentSet
    case Exits(p) => Runs(s, p) && s.ps[p].pc == User && p != INIT
    case Reap(p, c) =>
      && Waits(s, p) && c < |s.ps| && ZombieChild(s.ps, p, c)
      && (forall k :: 0 <= k < c ==> !ZombieChild(s.ps, p, k))
    case WaitFails(p) => Waits(s, p) && !HasZombieChild(s.ps, p) && (!HasChild(s.ps, p) || s.ps[p].killed)
    case WaitSleeps(p) => Waits(s, p) && !HasZombieChild(s.ps, p) && HasChild(s.ps, p) && !s.ps[p].killed
    case Schedule(p) => p < |s.ps| && s.ps[p].state == RUNNABLE
    case Yield(p) => Runs(s, p)
    case SleepElsewhere(p) => Runs(s, p) && s.ps[p].pc != InWait
    case WakeElsewhere(p) => p < |s.ps| && s.ps[p].state == SLEEPING && s.ps[p].chan == Elsewhere
    case Kill(p) => p < |s.ps|
  }

  function PidOf(ps: seq<Proc>, i: int): nat {
    if 0 <= i < |ps| then ps[i].pid else 0
  }

  function Do(s: State, step: Step): State
    requires Enabled(s, step)
  {
    var ps := s.ps;
    match step
    case Alloc(p, c) =>
      s.(ps := ps[c := ps[c].(state := EMBRYO, pid := s.nextpid)][p := ps[p].(pc := InFork(c, false))],
         nextpid := s.nextpid + 1)
    case ForkFail(p) =>
      var c := ps[p].pc.np;
      s.(ps := ps[c := ps[c].(state := UNUSED)][p := ps[p].(pc := User)])
    case SetParent(p) =>
      var c := ps[p].pc.np;
      s.(ps := ps[c := ps[c].(parent := p)][p := ps[p].(pc := InFork(c, true))])
    case ForkDone(p) =>
      var c := ps[p].pc.np;
      s.(ps := ps[c := ps[c].(state := RUNNABLE)][p := ps[p].(pc := User)])
    case Exits(p) =>
      s.(ps := Exited(ps, p, INIT), exited := s.exited + {ps[p].pid},
         parentAtExit := s.parentAtExit[ps[p].pid := PidOf(ps, ps[p].parent)])
    case Reap(p, c) =>
      s.(ps := ps[c := Freed(ps[c])][p := ps[p].(pc := User)], returned := s.returned + [ps[c].pid],
         gotBy := s.gotBy + [ps[p].pid])
    case WaitFails(p) => s.(ps := ps[p := ps[p].(pc := User)])
    case WaitSleeps(p) => s.(ps := ps[p := ps[p].(state := SLEEPING, chan := On(p), pc := InWait)])
    case Schedule(p) => s.(ps := ps[p := ps[p].(state := RUNNING, chan := NoChan)])
    case Yield(p) => s.(ps := ps[p := ps[p].(state := RUNNABLE)])
    case SleepElsewhere(p) => s.(ps := ps[p := ps[p].(state := SLEEPING, chan := Elsewhere)])
    case WakeElsewhere(p) => s.(ps := ps[p := ps[p].(state := RUNNABLE)])
    case Kill(p) =>
      s.(ps := ps[p := ps[p].(killed := true, state := if ps[p].state == SLEEPING then RUNNABLE else ps[p].state)])
  }

  ghost predicate Initial(s: State) {
    && |s.ps| > 0 && s.ps[INIT].state == RUNNABLE && s.ps[INIT].pid == 1
    && s.ps[INIT].parent == -1 && s.ps[INIT].pc == User
    && (forall i :: 0 < i < |s.ps| ==> s.ps[i].state == UNUSED && s.ps[i].parent == -1 && s.ps[i].pc == User)
    && s.nextpid == 2 && s.exited == {} && s.returned == []
    && s.parentAtExit == map[] && s.gotBy == []
  }

  ghost predicate Reaches(s: State, steps: seq<Step>, t: State)
    decreases |steps|
  {
    if steps == [] then s == t
    else Enabled(s, steps[0]) && Reaches(Do(s, steps[0]), steps[1..], t)
  }

  // ----- the invariant -----

  predicate Alive(x: Proc) {
    x.state == SLEEPING || x.state == RUNNABLE || x.state == RUNNING
  }

  /** The parent of slot i is alive and older. */
  predicate HasParent(ps: seq<Proc>, i: nat)
    requires i < |ps|
  {
    0 <= ps[i].parent < |ps| && ps[i].parent != i && Alive(ps[ps[i].parent]) && ps[ps[i].parent].pid < ps[i].pid
  }

  /** Parents: those of alive processes and zombies are alive; an embryo's is unset or forking it. */
  ghost predicate Family(ps: seq<Proc>, i: nat)
    requires i < |ps|
  {
    match ps[i].state
    case UNUSED => ps[i].parent == -1 && i != INIT
    case EMBRYO =>
      i != INIT && (ps[i].parent == -1 || (0 <= ps[i].parent < |ps| && ps[ps[i].parent].pc == InFork(i, true)))
    case _ => if i == INIT then ps[i].parent == -1 && Alive(ps[i]) else HasParent(ps, i)
  }

  /** A forking process is alive and its child is an embryo younger than it. */
  ghost predicate Forking(ps: seq<Proc>, i: nat)
    requires i < |ps|
  {
    ps[i].pc.InFork? ==>
      && Alive(ps[i]) && ps[i].pc.np < |ps| && ps[i].pc.np != i && ps[ps[i].pc.np].state == EMBRYO
      && ps[ps[i].pc.np].parent == (if ps[i].pc.parentSet then i else -1)
      && ps[i].pid < ps[ps[i].pc.np].pid
  }

  /** A process asleep in wait has no zombie child. */
  ghost predicate Waiting(ps: seq<Proc>, i: nat)
    requires i < |ps|
  {
    && (ps[i].pc == InWait ==> Alive(ps[i]))
    && (ps[i].state == SLEEPING && ps[i].pc == InWait ==> ps[i].chan == On(i))
    && (ps[i].state == SLEEPING && ps[i].chan.On? ==>
          ps[i].chan == On(i) && ps[i].pc == InWait && !HasZombieChild(ps, i))
  }

  ghost predicate Tree(s: State) {
    && |s.ps| > 0
    && (forall i :: 0 <= i < |s.ps| ==> Family(s.ps, i))
    && (forall i :: 0 <= i < |s.ps| ==> Forking(s.ps, i))
    && (forall i :: 0 <= i < |s.ps| ==> Waiting(s.ps, i))
    && (forall i, j :: 0 <= i < j < |s.ps| ==> OneForker(s.ps[i], s.ps[j]))
  }

  predicate OneForker(x: Proc, y: Proc) {
    x.pc.InFork? && y.pc.InFork? ==> x.pc.np != y.pc.np
  }

  predicate DifferentPids(x: Proc, y: Proc) {
    x.state != UNUSED && y.state != UNUSED ==> x.pid != y.pid
  }

  /** A pid is in use, or retired to the history, never both; and a process has exited exactly
      when it is a zombie. */
  predicate Recorded(s: State, i: nat)
    requires i < |s.ps|
  {
    s.ps[i].state != UNUSED ==>
      && 1 <= s.ps[i].pid < s.nextpid && s.ps[i].pid !in s.returned
      && (s.ps[i].pid in s.exited <==> s.ps[i].state == ZOMBIE)
  }

  predicate ZombieWithPid(s: State, i: nat, pid: nat) {
    i < |s.ps| && s.ps[i].state == ZOMBIE && s.ps[i].pid == pid
  }

  ghost predicate Histories(s: State) {
    && (forall i, j :: 0 <= i < j < |s.ps| ==> DifferentPids(s.ps[i], s.ps[j]))
    && (forall i :: 0 <= i < |s.ps| ==> Recorded(s, i))
    && (forall k, m :: 0 <= k < m < |s.returned| ==> s.returned[k] != s.returned[m])
    && (forall k :: 0 <= k < |s.returned| ==> s.returned[k] in s.exited)
    && (forall x :: x in s.exited ==> x < s.nextpid && (x in s.returned || exists i :: ZombieWithPid(s, i, x)))
    && s.nextpid > 1 && |s.ps| > 0 && s.ps[INIT].state != UNUSED && s.ps[INIT].pid == 1
  }

  /** Zombie children only matter through state and parent. */
  lemma NoZombieChild(ps: seq<Proc>, qs: seq<Proc>, i: nat)
    requires |ps| == |qs| && !HasZombieChild(ps, i)
    requires forall c :: 0 <= c < |ps| && ZombieChild(qs, i, c) ==> ZombieChild(ps, i, c)
    ensures !HasZombieChild(qs, i)
  { }

  /** A step that changes one slot's scheduling fields only. */
  lemma TreeOneSlot(s: State, p: nat, x: Proc)
    requires Tree(s) && p < |s.ps|
    requires x.pid == s.ps[p].pid && x.parent == s.ps[p].parent
    requires x.state == s.ps[p].state || (Alive(x) && Alive(s.ps[p]))
    requires x.pc == s.ps[p].pc || (Alive(s.ps[p]) && !x.pc.InFork? && !s.ps[p].pc.InFork?)
    requires x.state == SLEEPING && x.pc == InWait ==> x.chan == On(p)
    requires x.state == SLEEPING && x.chan.On? ==> x.chan == On(p) && x.pc == InWait && !HasZombieChild(s.ps, p)
    ensures Tree(s.(ps := s.ps[p := x]))
  {
    var ps, qs := s.ps, s.ps[p := x];
    forall i | 0 <= i < |ps| ensures Family(qs, i) { assert Family(ps, i); }
    forall i | 0 <= i < |ps| ensures Forking(qs, i) { assert Forking(ps, i) && Family(ps, i); }
    forall i | 0 <= i < |ps| ensures Waiting(qs, i) {
      assert Waiting(ps, i);
      if !HasZombieChild(ps, i) { NoZombieChild(ps, qs, i); }
    }
    forall i, j | 0 <= i < j < |ps| ensures OneForker(qs[i], qs[j]) { assert OneForker(ps[i], ps[j]); }
  }

  lemma AllocFamily(s: State, p: nat, c: nat, i: nat)
    requires Tree(s) && Histories(s) && Enabled(s, Alloc(p, c)) && i < |s.ps|
    ensures Family(Do(s, Alloc(p, c)).ps, i)
  {
    var ps := s.ps;
    assert Family(ps, c) && Family(ps, p) && Family(ps, i);
  }

  lemma AllocForking(s: State, p: nat, c: nat, i: nat)
    requires Tree(s) && Histories(s) && Enabled(s, Alloc(p, c)) && i < |s.ps|
    ensures Forking(Do(s, Alloc(p, c)).ps, i)
  {
    var ps := s.ps;
    assert Family(ps, c) && Forking(ps, c) && Forking(ps, i) && Recorded(s, p);
  }

  lemma TreeAlloc(s: State, p: nat, c: nat)
    requires Tree(s) && Histories(s) && Enabled(s, Alloc(p, c))
    ensures Tree(Do(s, Alloc(p, c)))
  {
    hide Family, Histories;
    var ps, qs := s.ps, Do(s, Alloc(p, c)).ps;
    assert Forking(ps, c) && Waiting(ps, c);
    forall i | 0 <= i < |ps| ensures Family(qs, i) && Forking(qs, i) {
      AllocFamily(s, p, c, i);
      AllocForking(s, p, c, i);
    }
    forall i | 0 <= i < |ps| ensures Waiting(qs, i) {
      assert Waiting(ps, i);
      if !HasZombieChild(ps, i) { NoZombieChild(ps, qs, i); }
    }
    forall i, j | 0 <= i < j < |ps| ensures OneForker(qs[i], qs[j]) {
      assert OneForker(ps[i], ps[j]) && Forking(ps, i) && Forking(ps, j);
    }
  }

  predicate IsFork(step: Step) {
    step.ForkFail? || step.SetParent? || step.ForkDone?
  }

  lemma ForkFamily(s: State, step: Step, i: nat)
    requires Tree(s) && Enabled(s, step) && IsFork(step) && i < |s.ps|
    ensures Family(Do(s, step).ps, i)
  {
    var ps, p := s.ps, step.p;
    var c := ps[p].pc.np;
    assert Family(ps, i) && Family(ps, c) && Forking(ps, p) && Forking(ps, c);
  }

  lemma ForkForking(s: State, step: Step, i: nat)
    requires Tree(s) && Enabled(s, step) && IsFork(step) && i < |s.ps|
    ensures Forking(Do(s, step).ps, i)
  {
    var ps, p := s.ps, step.p;
    var c := ps[p].pc.np;
    assert Forking(ps, i) && Forking(ps, p) && Forking(ps, c);
    assert i < p ==> OneForker(ps[i], ps[p]);
    assert p < i ==> OneForker(ps[p], ps[i]);
  }

  lemma ForkWaiting(s: State, step: Step, i: nat)
    requires Tree(s) && Enabled(s, step) && IsFork(step) && i < |s.ps|
    ensures Waiting(Do(s, step).ps, i)
  {
    var ps, qs, p := s.ps, Do(s, step).ps, step.p;
    var c := ps[p].pc.np;
    assert Waiting(ps, i) && Forking(ps, p) && Forking(ps, c) && Waiting(ps, c);
    if !HasZombieChild(ps, i) { NoZombieChild(ps, qs, i); }
  }

  lemma TreeFork(s: State, step: Step)
    requires Tree(s) && Enabled(s, step) && IsFork(step)
    ensures Tree(Do(s, step))
  {
    var ps, qs := s.ps, Do(s, step).ps;
    assert |qs| == |ps|;
    assert Forking(ps, step.p) && Forking(ps, ps[step.p].pc.np);
    forall i, j | 0 <= i < j < |ps| ensures OneForker(qs[i], qs[j]) { assert OneForker(ps[i], ps[j]); }
    hide Do, Family, Forking, Waiting;
    forall i | 0 <= i < |ps| ensures Family(qs, i) && Forking(qs, i) && Waiting(qs, i) {
      ForkFamily(s, step, i);
      ForkForking(s, step, i);
      ForkWaiting(s, step, i);
    }
  }

  lemma TreeReap(s: State, p: nat, c: nat)
    requires Tree(s) && Enabled(s, Reap(p, c))
    ensures Tree(Do(s, Reap(p, c)))
  {
    var ps, qs := s.ps, Do(s, Reap(p, c)).ps;
    forall i | 0 <= i < |ps| ensures Family(qs, i) && Forking(qs, i) { ReapFamily(s, p, c, i); }
    forall i | 0 <= i < |ps| ensures Waiting(qs, i) { ReapWaiting(s, p, c, i); }
    forall i, j | 0 <= i < j < |ps| ensures OneForker(qs[i], qs[j]) { assert OneForker(ps[i], ps[j]); }
  }

  lemma ReapFamily(s: State, p: nat, c: nat, i: nat)
    requires Tree(s) && Enabled(s, Reap(p, c)) && i < |s.ps|
    ensures Family(Do(s, Reap(p, c)).ps, i) && Forking(Do(s, Reap(p, c)).ps, i)
  {
    var ps := s.ps;
    assert Family(ps, c) && Family(ps, p) && Forking(ps, c) && Forking(ps, p);
    assert Family(ps, i) && Forking(ps, i);
  }

  lemma ReapWaiting(s: State, p: nat, c: nat, i: nat)
    requires Tree(s) && Enabled(s, Reap(p, c)) && i < |s.ps|
    ensures Waiting(Do(s, Reap(p, c)).ps, i)
  {
    var ps := s.ps;
    assert Waiting(ps, c) && Waiting(ps, p) && Waiting(ps, i);
    if !HasZombieChild(ps, i) { NoZombieChild(ps, Do(s, Reap(p, c)).ps, i); }
  }

  lemma TreeExit(s: State, p: nat)
    requires Tree(s) && Histories(s) && Enabled(s, Exits(p))
    ensures Tree(Do(s, Exits(p)))
  {
    var ps, qs := s.ps, Do(s, Exits(p)).ps;
    assert Family(ps, p) && Family(ps, INIT) && Recorded(s, p);
    forall i | 0 <= i < |ps| ensures Family(qs, i) { ExitFamily(s, p, i); }
    forall i | 0 <= i < |ps| ensures Forking(qs, i) { assert Forking(ps, i); }
    forall i | 0 <= i < |ps| ensures Waiting(qs, i) { ExitWaiting(s, p, i); }
    forall i, j | 0 <= i < j < |ps| ensures OneForker(qs[i], qs[j]) { assert OneForker(ps[i], ps[j]); }
  }

  lemma ExitFamily(s: State, p: nat, i: nat)
    requires Tree(s) && Histories(s) && Enabled(s, Exits(p)) && i < |s.ps|
    ensures Family(Exited(s.ps, p, INIT), i)
  {
    var ps := s.ps;
    assert Family(ps, i) && Family(ps, p) && Family(ps, INIT) && Recorded(s, i);
    assert DifferentPids(ps[INIT], ps[if i == INIT then p else i]);
  }

  lemma ExitWaiting(s: State, p: nat, i: nat)
    requires Tree(s) && Enabled(s, Exits(p)) && i < |s.ps|
    ensures Waiting(Exited(s.ps, p, INIT), i)
  {
    var ps, qs := s.ps, Exited(s.ps, p, INIT);
    assert Waiting(ps, i) && Family(ps, p);
    if qs[i].state == SLEEPING && qs[i].chan.On? {
      assert i != p && ps[p].parent != i;
      forall c | 0 <= c < |ps| ensures !ZombieChild(qs, i, c) {
        if c != p && ps[c].parent == p && ps[c].state == ZOMBIE {
          assert ZombieChild(ps, p, c);
        } else {
          assert !ZombieChild(ps, i, c);
        }
      }
    }
  }

  lemma TreeStep(s: State, step: Step)
    requires Tree(s) && Histories(s) && Enabled(s, step)
    ensures Tree(Do(s, step))
  {
    match step {
      case Alloc(p, c) => TreeAlloc(s, p, c);
      case Reap(p, c) => TreeReap(s, p, c);
      case Exits(p) => TreeExit(s, p);
      case _ =>
        if IsFork(step) {
          TreeFork(s, step);
        } else {
          TreeScheduling(s, step);
        }
    }
  }

  lemma TreeScheduling(s: State, step: Step)
    requires Tree(s) && Enabled(s, step)
    requires !step.Alloc? && !step.Reap? && !step.Exits? && !IsFork(step)
    ensures Tree(Do(s, step))
  {
    var p := step.p;
    assert Waiting(s.ps, p) && Forking(s.ps, p);
    TreeOneSlot(s, p, Do(s, step).ps[p]);
    assert Do(s, step) == s.(ps := s.ps[p := Do(s, step).ps[p]]);
  }

  // ----- histories -----

  lemma HistoriesExit(s: State, p: nat)
    requires Tree(s) && Histories(s) && Enabled(s, Exits(p))
    ensures Histories(Do(s, Exits(p)))
  {
    var s' := Do(s, Exits(p));
    assert Recorded(s, p) && Family(s.ps, INIT);
    forall i | 0 <= i < |s'.ps| ensures Recorded(s', i) {
      assert Recorded(s, i);
      assert i < p ==> DifferentPids(s.ps[i], s.ps[p]);
      assert p < i ==> DifferentPids(s.ps[p], s.ps[i]);
    }
    forall i, j | 0 <= i < j < |s'.ps| ensures DifferentPids(s'.ps[i], s'.ps[j]) {
      assert DifferentPids(s.ps[i], s.ps[j]);
    }
    forall x | x in s'.exited ensures x < s'.nextpid && (x in s'.returned || exists i :: ZombieWithPid(s', i, x)) {
      if x == s.ps[p].pid {
        assert ZombieWithPid(s', p, x);
      } else if x !in s.returned {
        var i :| ZombieWithPid(s, i, x);
        assert ZombieWithPid(s', i, x);
      }
    }
  }

  lemma HistoriesReap(s: State, p: nat, c: nat)
    requires Tree(s) && Histories(s) && Enabled(s, Reap(p, c))
    ensures Histories(Do(s, Reap(p, c)))
  {
    var s' := Do(s, Reap(p, c));
    assert Recorded(s, c) && Family(s.ps, c) && Family(s.ps, INIT);
    forall i | 0 <= i < |s'.ps| ensures Recorded(s', i) {
      assert Recorded(s, i);
      assert i < c ==> DifferentPids(s.ps[i], s.ps[c]);
      assert c < i ==> DifferentPids(s.ps[c], s.ps[i]);
    }
    forall i, j | 0 <= i < j < |s'.ps| ensures DifferentPids(s'.ps[i], s'.ps[j]) {
      assert DifferentPids(s.ps[i], s.ps[j]);
    }
    forall x | x in s'.exited ensures x < s'.nextpid && (x in s'.returned || exists i :: ZombieWithPid(s', i, x)) {
      if x in s.returned || x == s.ps[c].pid {
        assert s.returned <= s'.returned;
        assert s'.returned[|s.returned|] == s.ps[c].pid;
      } else {
        var i :| ZombieWithPid(s, i, x);
        assert ZombieWithPid(s', i, x);
      }
    }
  }

  lemma RecordedOther(s: State, step: Step, i: nat)
    requires Tree(s) && Histories(s) && Enabled(s, step) && !step.Exits? && !step.Reap? && i < |s.ps|
    ensures Recorded(Do(s, step), i)
  {
    assert Forking(s.ps, step.p) && Recorded(s, i);
  }

  lemma PidsOther(s: State, step: Step, i: nat, j: nat)
    requires Tree(s) && Histories(s) && Enabled(s, step) && !step.Exits? && !step.Reap? && i < j < |s.ps|
    ensures DifferentPids(Do(s, step).ps[i], Do(s, step).ps[j])
  {
    assert Forking(s.ps, step.p) && DifferentPids(s.ps[i], s.ps[j]) && Recorded(s, i) && Recorded(s, j);
  }

  lemma HistoriesOther(s: State, step: Step)
    requires Tree(s) && Histories(s) && Enabled(s, step) && !step.Exits? && !step.Reap?
    ensures Histories(Do(s, step))
  {
    hide Recorded, DifferentPids;
    var s' := Do(s, step);
    assert Forking(s.ps, step.p) && Family(s.ps, INIT);
    forall i | 0 <= i < |s'.ps| ensures Recorded(s', i) { RecordedOther(s, step, i); }
    forall i, j | 0 <= i < j < |s'.ps| ensures DifferentPids(s'.ps[i], s'.ps[j]) { PidsOther(s, step, i, j); }
    forall x | x in s'.exited ensures x < s'.nextpid && (x in s'.returned || exists i :: ZombieWithPid(s', i, x)) {
      if x !in s.returned {
        var i :| ZombieWithPid(s, i, x);
        assert ZombieWithPid(s', i, x);
      }
    }
  }

  // ----- who gets a child -----

  /** A zombie waits for the parent it had when it exited, or for init. */
  predicate Inherited(s: State, i: nat)
    requires i < |s.ps|
  {
    s.ps[i].state == ZOMBIE ==>
      && s.ps[i].pid in s.parentAtExit
      && (s.ps[i].parent == INIT || PidOf(s.ps, s.ps[i].parent) == s.parentAtExit[s.ps[i].pid])
  }

  ghost predicate Returns(s: State) {
    && |s.gotBy| == |s.returned| && (forall x :: x in s.parentAtExit ==> x in s.exited)
    && (forall i: nat :: i < |s.ps| ==> Inherited(s, i))
    && (forall k :: 0 <= k < |s.returned| ==> GotByFamily(s, k))
  }

  ghost predicate GotByFamily(s: State, k: nat)
    requires k < |s.returned| == |s.gotBy|
  {
    s.returned[k] in s.parentAtExit && (s.gotBy[k] == s.parentAtExit[s.returned[k]] || s.gotBy[k] == 1)
  }

  lemma InheritedExit(s: State, p: nat, i: nat)
    requires Enabled(s, Exits(p)) && i < |s.ps| && Inherited(s, i) && Family(s.ps, i) && Family(s.ps, p)
    requires i != p && s.ps[i].state != UNUSED ==> s.ps[i].pid != s.ps[p].pid
    ensures Inherited(Do(s, Exits(p)), i)
  { }

  lemma InheritedReap(s: State, p: nat, c: nat, i: nat)
    requires Enabled(s, Reap(p, c)) && i < |s.ps| && Inherited(s, i) && Family(s.ps, i)
    ensures Inherited(Do(s, Reap(p, c)), i)
  { }

  lemma InheritedOther(s: State, step: Step, i: nat)
    requires Enabled(s, step) && i < |s.ps| && Inherited(s, i) && Family(s.ps, i) && !step.Exits? && !step.Reap?
    requires s.ps[step.p].pc.InFork? ==> s.ps[step.p].pc.np < |s.ps| && s.ps[s.ps[step.p].pc.np].state == EMBRYO
    ensures Inherited(Do(s, step), i)
  { }

  lemma InheritedStep(s: State, step: Step, i: nat)
    requires Tree(s) && Histories(s) && Returns(s) && Enabled(s, step) && i < |s.ps|
    ensures |Do(s, step).ps| == |s.ps| && Inherited(Do(s, step), i)
  {
    var ps := s.ps;
    assert Inherited(s, i) && Family(ps, i) && Forking(ps, step.p) && Family(ps, step.p);
    assert |Do(s, step).ps| == |s.ps|;
    if step.Exits? {
      assert i < step.p ==> DifferentPids(ps[i], ps[step.p]);
      assert step.p < i ==> DifferentPids(ps[step.p], ps[i]);
    }
    hide Do, Inherited, Waiting, Recorded;
    match step {
      case Exits(p) => InheritedExit(s, p, i);
      case Reap(p, c) => InheritedReap(s, p, c, i);
      case _ => InheritedOther(s, step, i);
    }
  }

  lemma ReturnsStep(s: State, step: Step)
    requires Tree(s) && Histories(s) && Returns(s) && Enabled(s, step)
    ensures Returns(Do(s, step))
  {
    var s' := Do(s, step);
    forall i: nat | i < |s'.ps| ensures Inherited(s', i) { InheritedStep(s, step, i); }
    if step.Reap? { assert Inherited(s, step.c); }
    if step.Exits? { assert Recorded(s, step.p); }
    forall k | 0 <= k < |s'.returned| ensures GotByFamily(s', k) {
      if k < |s.returned| { assert GotByFamily(s, k) && s.returned[k] in s.exited; }
    }
  }

  lemma {:induction false} ReturnsRun(s: State, steps: seq<Step>, t: State)
    requires Tree(s) && Histories(s) && Returns(s) && Reaches(s, steps, t)
    ensures Returns(t)
    decreases |steps|
  {
    hide Tree, Histories, Returns;
    if steps != [] {
      ReturnsStep(s, steps[0]);
      InvRun(s, [steps[0]], Do(s, steps[0]));
      ReturnsRun(Do(s, steps[0]), steps[1..], t);
    }
  }

  /** Every child that wait has returned went to the parent it had when it exited, or to init. */
  lemma ReturnedToParent(s: State, steps: seq<Step>, t: State)
    requires Initial(s) && Reaches(s, steps, t)
    ensures |t.gotBy| == |t.returned|
    ensures forall k :: 0 <= k < |t.returned| ==> GotByFamily(t, k)
  {
    InitialInv(s);
    ReturnsRun(s, steps, t);
  }

  lemma {:induction false} InvRun(s: State, steps: seq<Step>, t: State)
    requires Tree(s) && Histories(s) && Reaches(s, steps, t)
    ensures Tree(t) && Histories(t)
    decreases |steps|
  {
    hide Tree, Histories;
    if steps != [] {
      var s' := Do(s, steps[0]);
      TreeStep(s, steps[0]);
      match steps[0] {
        case Exits(p) => HistoriesExit(s, p);
        case Reap(p, c) => HistoriesReap(s, p, c);
        case _ => HistoriesOther(s, steps[0]);
      }
      InvRun(s', steps[1..], t);
    }
  }

  /** In every reachable table: nobody sleeps in wait while it has a zombie child; every process
      and zombie but init has a parent that is alive and older; no pid is returned by wait twice;
      and the exited processes are exactly those returned and the remaining zombies. */
  lemma Lifecycle(s: State, steps: seq<Step>, t: State)
    requires Initial(s) && Reaches(s, steps, t)
    ensures forall i :: 0 <= i < |t.ps| && t.ps[i].state == SLEEPING && t.ps[i].pc == InWait ==>
      !HasZombieChild(t.ps, i)
    ensures forall i :: 0 < i < |t.ps| && (Alive(t.ps[i]) || t.ps[i].state == ZOMBIE) ==> HasParent(t.ps, i)
    ensures forall k, m :: 0 <= k < m < |t.returned| ==> t.returned[k] != t.returned[m]
    ensures forall x :: x in t.exited <==> x in t.returned || exists i :: ZombieWithPid(t, i, x)
    ensures forall i, x :: ZombieWithPid(t, i, x) ==> x !in t.returned
  {
    InitialInv(s);
    InvRun(s, steps, t);
    forall i | 0 <= i < |t.ps| && t.ps[i].state == SLEEPING && t.ps[i].pc == InWait ensures !HasZombieChild(t.ps, i) {
      assert Waiting(t.ps, i);
    }
    forall i | 0 < i < |t.ps| && (Alive(t.ps[i]) || t.ps[i].state == ZOMBIE) ensures HasParent(t.ps, i) {
      assert Family(t.ps, i);
    }
    forall i, x | ZombieWithPid(t, i, x) ensures x !in t.returned && x in t.exited {
      assert Recorded(t, i);
    }
  }

  lemma InitialInv(s: State)
    requires Initial(s)
    ensures Tree(s) && Histories(s)
  {
    forall i | 0 <= i < |s.ps| ensures Family(s.ps, i) && Forking(s.ps, i) && Waiting(s.ps, i) { }
  }

  /** The parent relation is a forest rooted at init: from any process or zombie, following
      parents reaches init. */
  lemma {:induction false} PathToInit(t: State, i: nat) returns (path: seq<nat>)
    requires Tree(t) && i < |t.ps| && (Alive(t.ps[i]) || t.ps[i].state == ZOMBIE)
    ensures |path| > 0 && path[0] == i && path[|path| - 1] == INIT
    ensures forall k :: 0 <= k < |path| ==> path[k] < |t.ps|
    ensures forall k :: 0 <= k < |path| - 1 ==> t.ps[path[k]].parent == path[k + 1]
    decreases t.ps[i].pid
  {
    if i == INIT {
      path := [i];
    } else {
      assert Family(t.ps, i);
      var rest := PathToInit(t, t.ps[i].parent);
      path := [i] + rest;
    }
  }

  lemma Forest(s: State, steps: seq<Step>, t: State, i: nat) returns (path: seq<nat>)
    requires Initial(s) && Reaches(s, steps, t)
    requires i < |t.ps| && (Alive(t.ps[i]) || t.ps[i].state == ZOMBIE)
    ensures |path| > 0 && path[0] == i && path[|path| - 1] == INIT
    ensures forall k :: 0 <= k < |path| ==> path[k] < |t.ps|
    ensures forall k :: 0 <= k < |path| - 1 ==> t.ps[path[k]].parent == path[k + 1]
  {
    InitialInv(s);
    InvRun(s, steps, t);
    path := PathToInit(t, i);
  }
}
