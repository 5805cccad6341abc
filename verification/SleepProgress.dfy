/** Every process can always get the sleep lock: whatever has happened so far, some schedule leads to
    its holding it. */
module SleepProgress {
  import opened SleepLock

  /** Nobody holds a spin lock. */
  predicate Settled(s: State) {
    s.lk == Free && s.ptable == Free
  }

  lemma {:induction false} ReachesTwice(s: State, a: seq<Step>, t: State, b: seq<Step>, u: State)
    requires Reaches(s, a, t) && Reaches(t, b, u)
    ensures Reaches(s, a + b, u)
    decreases |a|
  {
    hide Do, Enabled;
    if a == [] {
      assert a + b == b;
    } else {
      assert (a + b)[0] == a[0] && (a + b)[1..] == a[1..] + b;
      ReachesTwice(Do(s, a[0]), a[1..], t, b, u);
    }
  }

  lemma ReachesOne(s: State, step: Step)
    requires Enabled(s, step)
    ensures Reaches(s, [step], Do(s, step))
  {
    hide Do, Enabled;
    assert Reaches(Do(s, step), [step][1..], Do(s, step));
  }

  lemma Then(s: State, steps: seq<Step>, t: State, step: Step)
    requires Reaches(s, steps, t) && Enabled(t, step)
    ensures Reaches(s, steps + [step], Do(t, step))
  {
    hide Do, Enabled;
    ReachesOne(t, step);
    ReachesTwice(s, steps, t, [step], Do(t, step));
  }

  // ----- giving up the spin locks -----

  /** Statements until a process that holds a spin lock holds none. */
  function Left(pc: Pc, n: nat): nat {
    match pc
    case Test => 9
    case SetLocked => 3
    case SetPid => 2
    case ReleaseAfterSet => 1
    case AcquirePtable => 8
    case ReleaseLk => 7
    case MarkSleeping => 6
    case Sched => 5
    case ClearChan => 2
    case ReleasePtable => 1
    case ClearLocked => n + 7
    case ClearPid => n + 6
    case WakeupAcquire => n + 5
    case Scan(i) => 3 + if i < n then n - i else 0
    case WakeupRelease => 2
    case ReleaseAtEnd => 1
    case _ => 0
  }

  function LeftOf(s: State, holder: Ptable): nat {
    if holder.ByProc? && holder.p < |s.procs| then Left(s.procs[holder.p].pc, |s.procs|)
    else if holder.ByOther? then 1 else 0
  }

  function Weight(s: State): nat {
    LeftOf(s, s.lk) + if s.ptable == s.lk then 0 else LeftOf(s, s.ptable)
  }

  /** The holder of ptable.lock goes on, or else the holder of lk->lk. */
  function Mover(s: State): Step {
    if s.ptable.ByOther? then OtherDrops else if s.ptable.ByProc? then Go(s.ptable.p)
    else if s.lk.ByProc? then Go(s.lk.p) else Go(0)
  }

  /** A holder's statement brings it nearer to holding nothing. */
  lemma GoDown(s: State, p: nat)
    requires p < |s.procs| && SpinLocks(s, p) && (s.lk == ByProc(p) || s.ptable == ByProc(p))
    requires s.ptable != ByProc(p) ==> s.ptable == Free
    ensures !Blocked(s, p)
    ensures var t, x := GoStep(s, p), s.procs[p].pc;
      && |t.procs| == |s.procs| && Left(t.procs[p].pc, |s.procs|) < Left(x, |s.procs|)
      && (t.lk == s.lk || t.lk == Free)
      && (t.ptable == s.ptable || t.ptable == ByProc(p) || t.ptable == Free || (t.ptable == ByOther && x == Sched))
  { }

  lemma OthersStay(s: State, p: nat, q: nat)
    requires p < |s.procs| && q < |s.procs| && p != q && !Blocked(s, p)
    ensures |GoStep(s, p).procs| == |s.procs| && GoStep(s, p).procs[q].pc == s.procs[q].pc
  { }

  lemma MoverMoves(s: State)
    requires Inv(s) && !Settled(s)
    ensures Enabled(s, Mover(s)) && Weight(Do(s, Mover(s))) < Weight(s)
  {
    if s.ptable.ByOther? { return; }
    var p := if s.ptable.ByProc? then s.ptable.p else s.lk.p;
    assert ProcInv(s, p);
    hide GoStep, Blocked, Inv, LockFields, SleepState;
    GoDown(s, p);
    if s.lk.ByProc? && s.lk.p != p { OthersStay(s, p, s.lk.p); }
  }

  lemma {:induction false} Settles(s: State) returns (steps: seq<Step>, t: State)
    requires Inv(s)
    ensures Reaches(s, steps, t) && Inv(t) && Settled(t) && |t.procs| == |s.procs|
    decreases Weight(s)
  {
    hide Inv, Do, Enabled, Weight, Mover;
    if Settled(s) {
      steps, t := [], s;
    } else {
      MoverMoves(s);
      var step := Mover(s);
      InvStep(s, step);
      SameProcs(s, step);
      var more, u := Settles(Do(s, step));
      ReachesOne(s, step);
      ReachesTwice(s, [step], Do(s, step), more, u);
      steps, t := [step] + more, u;
    }
  }

  lemma SameProcs(s: State, step: Step)
    requires Enabled(s, step)
    ensures |Do(s, step).procs| == |s.procs|
  { }

  // ----- giving up the sleep lock -----

  predicate Releasing(s: State, q: nat) {
    && q < |s.procs| && s.lk == ByProc(q) && (s.ptable == Free || s.ptable == ByProc(q))
    && (s.procs[q].pc.ClearLocked? || s.procs[q].pc.ClearPid? || s.procs[q].pc.WakeupAcquire? || s.procs[q].pc.Scan?
        || s.procs[q].pc.WakeupRelease? || s.procs[q].pc.ReleaseAtEnd?)
  }

  lemma ReleaseStep(s: State, q: nat)
    requires Inv(s) && Releasing(s, q)
    ensures Enabled(s, Go(q)) && Left(Do(s, Go(q)).procs[q].pc, |s.procs|) < Left(s.procs[q].pc, |s.procs|)
    ensures var t := Do(s, Go(q)); |t.procs| == |s.procs| && (Releasing(t, q) || (Settled(t) && !t.locked))
  {
    assert ProcInv(s, q);
    hide Inv, SleepState;
    GoDown(s, q);
  }

  lemma {:induction false} Releases(s: State, q: nat) returns (steps: seq<Step>, t: State)
    requires Inv(s) && Releasing(s, q)
    ensures Reaches(s, steps, t) && Inv(t) && Settled(t) && !t.locked && |t.procs| == |s.procs|
    decreases Left(s.procs[q].pc, |s.procs|)
  {
    hide Inv, Do, Enabled, Left;
    ReleaseStep(s, q);
    InvStep(s, Go(q));
    ReachesOne(s, Go(q));
    var u := Do(s, Go(q));
    if Releasing(u, q) {
      var more, v := Releases(u, q);
      ReachesTwice(s, [Go(q)], u, more, v);
      steps, t := [Go(q)] + more, v;
    } else {
      steps, t := [Go(q)], u;
    }
  }

  /** The owner of the lock, when nobody holds a spin lock, is about to give it up. */
  lemma OwnerReleases(s: State) returns (steps: seq<Step>, t: State, q: nat)
    requires Inv(s) && Settled(s) && s.locked
    ensures Reaches(s, steps, t) && Inv(t) && Releasing(t, q) && |t.procs| == |s.procs|
  {
    q := s.pid - 1;
    assert ProcInv(s, q);
    steps, t := [], s;
    if t.procs[q].pc.Holding? {
      Then(s, steps, t, Go(q));
      InvStep(t, Go(q));
      steps, t := steps + [Go(q)], Do(t, Go(q));
    }
    Then(s, steps, t, Go(q));
    InvStep(t, Go(q));
    steps, t := steps + [Go(q)], Do(t, Go(q));
  }

  lemma Unlocks(s: State) returns (steps: seq<Step>, t: State)
    requires Inv(s) && Settled(s)
    ensures Reaches(s, steps, t) && Inv(t) && Settled(t) && !t.locked && |t.procs| == |s.procs|
  {
    hide Inv;
    if s.locked {
      var a, u, q := OwnerReleases(s);
      var b, v := Releases(u, q);
      ReachesTwice(s, a, u, b, v);
      steps, t := a + b, v;
    } else {
      steps, t := [], s;
    }
  }

  // ----- getting it -----

  predicate Getting(s: State, p: nat) {
    && p < |s.procs| && s.lk == ByProc(p) && s.ptable == Free
    && ((s.procs[p].pc.Test? && !s.locked) || s.procs[p].pc.SetLocked? || s.procs[p].pc.SetPid?
        || s.procs[p].pc.ReleaseAfterSet?)
  }

  predicate Got(s: State, p: nat) {
    p < |s.procs| && s.procs[p].pc == Holding && s.locked && s.pid == p + 1
  }

  lemma GetStep(s: State, p: nat)
    requires Inv(s) && Getting(s, p)
    ensures Enabled(s, Go(p)) && Left(Do(s, Go(p)).procs[p].pc, |s.procs|) < Left(s.procs[p].pc, |s.procs|)
    ensures var t := Do(s, Go(p)); |t.procs| == |s.procs| && (Getting(t, p) || Got(t, p))
  {
    assert ProcInv(s, p);
    hide Inv, SleepState;
    GoDown(s, p);
  }

  lemma {:induction false} Gets(s: State, p: nat) returns (steps: seq<Step>, t: State)
    requires Inv(s) && Getting(s, p)
    ensures Reaches(s, steps, t) && Got(t, p)
    decreases Left(s.procs[p].pc, |s.procs|)
  {
    hide Inv, Do, Enabled, Left;
    GetStep(s, p);
    InvStep(s, Go(p));
    ReachesOne(s, Go(p));
    var u := Do(s, Go(p));
    if Getting(u, p) {
      var more, v := Gets(u, p);
      ReachesTwice(s, [Go(p)], u, more, v);
      steps, t := [Go(p)] + more, v;
    } else {
      steps, t := [Go(p)], u;
    }
  }

  predicate AboutTo(s: State, p: nat) {
    && p < |s.procs| && Settled(s) && !s.locked
    && (s.procs[p].pc == Idle || s.procs[p].pc == AcquireLk || s.procs[p].pc == ReacquireLk)
  }

  /** With all locks free a process wants the sleep lock, or can be woken to want it. */
  lemma Awakes(s: State, p: nat) returns (steps: seq<Step>, t: State)
    requires Inv(s) && Settled(s) && !s.locked && p < |s.procs|
    ensures Reaches(s, steps, t) && Inv(t) && AboutTo(t, p)
  {
    assert ProcInv(s, p);
    steps, t := [], s;
    if s.procs[p].pc == Asleep {
      Then(s, steps, t, OtherTakes);
      InvStep(t, OtherTakes);
      steps, t := steps + [OtherTakes], Do(t, OtherTakes);
      Then(s, steps, t, SwitchIn(p));
      InvStep(t, SwitchIn(p));
      steps, t := steps + [SwitchIn(p)], Do(t, SwitchIn(p));
      Then(s, steps, t, Go(p));
      InvStep(t, Go(p));
      steps, t := steps + [Go(p)], Do(t, Go(p));
      Then(s, steps, t, Go(p));
      InvStep(t, Go(p));
      steps, t := steps + [Go(p)], Do(t, Go(p));
    }
  }

  lemma Begins(s: State, p: nat) returns (steps: seq<Step>, t: State)
    requires Inv(s) && AboutTo(s, p)
    ensures Reaches(s, steps, t) && Inv(t) && Getting(t, p)
  {
    steps, t := [], s;
    if s.procs[p].pc == Idle {
      Then(s, steps, t, Go(p));
      InvStep(t, Go(p));
      steps, t := steps + [Go(p)], Do(t, Go(p));
    }
    Then(s, steps, t, Go(p));
    InvStep(t, Go(p));
    steps, t := steps + [Go(p)], Do(t, Go(p));
  }

  /** In every reachable state, for every process, some schedule of the processes leads to that
      process's holding the lock. */
  lemma EveryoneCanLock(s: State, steps: seq<Step>, t: State, p: nat) returns (more: seq<Step>, u: State)
    requires Init(s) && Reaches(s, steps, t) && p < |t.procs|
    ensures Reaches(t, more, u) && Got(u, p)
  {
    InitInv(s);
    InvRun(s, steps, t);
    hide Inv, Reaches, Init;
    var a, x := Settles(t);
    var b, y := Unlocks(x);
    var c, z := Awakes(y, p);
    var d, v := Begins(z, p);
    var e, w := Gets(v, p);
    ReachesTwice(t, a, x, b, y);
    ReachesTwice(t, a + b, y, c, z);
    ReachesTwice(t, a + b + c, z, d, v);
    ReachesTwice(t, a + b + c + d, v, e, w);
    more, u := a + b + c + d + e, w;
  }

  lemma InitInv(s: State)
    requires Init(s)
    ensures Inv(s)
  {
    forall p | 0 <= p < |s.procs| ensures ProcInv(s, p) { }
  }
}
