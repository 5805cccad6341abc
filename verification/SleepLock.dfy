/** Sleep locks (sleeplock.c) over sleep, wakeup and the scheduler hand-off (proc.c).

    Any number of processes use one sleep lock.  Each step is one access to shared state; the
    spin lock lk->lk, ptable.lock and its hand-off between a process and the scheduler are
    explicit. */
module SleepLock {

  /** Program counters, named after the statement about to run. */
  datatype Pc =
    | Idle
    // acquiresleep
    | AcquireLk | Test | SetLocked | SetPid | ReleaseAfterSet
    // sleep(lk, &lk->lk)
    | AcquirePtable | ReleaseLk | MarkSleeping | Sched | Asleep | ClearChan | ReleasePtable | ReacquireLk
    | Holding
    // releasesleep, with wakeup(lk) scanning the process table
    | AcquireToRelease | ClearLocked | ClearPid | WakeupAcquire | Scan(i: nat) | WakeupRelease | ReleaseAtEnd

  datatype RunState = Running | Runnable | Sleeping

  datatype Proc = Proc(pc: Pc, st: RunState, onChan: bool)

  /** Who holds ptable.lock: nobody, a process, or a scheduler or some other kernel thread. */
  datatype Ptable = Free | ByProc(p: nat) | ByOther

  datatype State = State(procs: seq<Proc>, lk: Ptable, ptable: Ptable, locked: bool, pid: nat)

  datatype Step =
    | Go(p: nat)        // the process takes its next step
    | SwitchIn(p: nat)  // a scheduler resumes a runnable process inside sched
    | OtherTakes        // a scheduler or other thread acquires ptable.lock
    | OtherDrops
    | Kill(p: nat)      // kill(), by the other thread holding ptable.lock

  predicate Blocked(s: State, p: nat)
    requires p < |s.procs|
  {
    match s.procs[p].pc
    case AcquireLk => s.lk != Free
    case ReacquireLk => s.lk != Free
    case AcquireToRelease => s.lk != Free
    case AcquirePtable => s.ptable != Free
    case WakeupAcquire => s.ptable != Free
    case Asleep => true
    case _ => false
  }

  predicate Enabled(s: State, step: Step) {
    match step
    case Go(p) => p < |s.procs| && !Blocked(s, p)
    case SwitchIn(p) => p < |s.procs| && s.procs[p].pc == Asleep && s.procs[p].st == Runnable && s.ptable == ByOther
    case OtherTakes => s.ptable == Free
    case OtherDrops => s.ptable == ByOther
    case Kill(p) => p < |s.procs| && s.ptable == ByOther
  }

  function At(s: State, p: nat, pc: Pc): State
    requires p < |s.procs|
  {
    s.(procs := s.procs[p := s.procs[p].(pc := pc)])
  }

  function Wake(x: Proc): Proc {
    if x.st == Sleeping then x.(st := Runnable) else x
  }

  /** One statement of process p. */
  function GoStep(s: State, p: nat): State
    requires p < |s.procs| && !Blocked(s, p)
  {
    match s.procs[p].pc
    case Idle => At(s, p, AcquireLk)
    case AcquireLk => At(s, p, Test).(lk := ByProc(p))
    case Test => At(s, p, if s.locked then AcquirePtable else SetLocked)
    case SetLocked => At(s, p, SetPid).(locked := true)
    case SetPid => At(s, p, ReleaseAfterSet).(pid := p + 1)
    case ReleaseAfterSet => At(s, p, Holding).(lk := Free)
    case AcquirePtable => At(s, p, ReleaseLk).(ptable := ByProc(p))
    case ReleaseLk => At(s, p, MarkSleeping).(lk := Free)
    case MarkSleeping => s.(procs := s.procs[p := Proc(Sched, Sleeping, true)])
    case Sched => At(s, p, Asleep).(ptable := ByOther)
    case Asleep => s
    case ClearChan => s.(procs := s.procs[p := s.procs[p].(pc := ReleasePtable, onChan := false)])
    case ReleasePtable => At(s, p, ReacquireLk).(ptable := Free)
    case ReacquireLk => At(s, p, Test).(lk := ByProc(p))
    case Holding => At(s, p, AcquireToRelease)
    case AcquireToRelease => At(s, p, ClearLocked).(lk := ByProc(p))
    case ClearLocked => At(s, p, ClearPid).(locked := false)
    case ClearPid => At(s, p, WakeupAcquire).(pid := 0)
    case WakeupAcquire => At(s, p, Scan(0)).(ptable := ByProc(p))
    case Scan(i) =>
      if i >= |s.procs| then At(s, p, WakeupRelease)
      else
        var s1 := if s.procs[i].onChan then s.(procs := s.procs[i := Wake(s.procs[i])]) else s;
        At(s1, p, Scan(i + 1))
    case WakeupRelease => At(s, p, ReleaseAtEnd).(ptable := Free)
    case ReleaseAtEnd => At(s, p, Idle).(lk := Free)
  }

  function Do(s: State, step: Step): State
    requires Enabled(s, step)
  {
    match step
    case Go(p) => GoStep(s, p)
    case SwitchIn(p) => s.(procs := s.procs[p := s.procs[p].(pc := ClearChan, st := Running)], ptable := ByProc(p))
    case OtherTakes => s.(ptable := ByOther)
    case OtherDrops => s.(ptable := Free)
    case Kill(p) => s.(procs := s.procs[p := Wake(s.procs[p])])
  }

  ghost predicate Init(s: State) {
    && (forall p :: 0 <= p < |s.procs| ==> s.procs[p] == Proc(Idle, Running, false))
    && s.lk == Free && s.ptable == Free && !s.locked && s.pid == 0
  }

  ghost predicate Reaches(s: State, steps: seq<Step>, t: State)
    decreases |steps|
  {
    if steps == [] then s == t
    else Enabled(s, steps[0]) && Reaches(Do(s, steps[0]), steps[1..], t)
  }

  // ----- the invariant -----

  predicate HoldsLk(pc: Pc) {
    pc.Test? || pc.SetLocked? || pc.SetPid? || pc.ReleaseAfterSet? || pc.AcquirePtable? || pc.ReleaseLk? ||
    pc.ClearLocked? || pc.ClearPid? || pc.WakeupAcquire? || pc.Scan? || pc.WakeupRelease? || pc.ReleaseAtEnd?
  }

  predicate HoldsPtable(pc: Pc) {
    pc.ReleaseLk? || pc.MarkSleeping? || pc.Sched? || pc.ClearChan? || pc.ReleasePtable? || pc.Scan? ||
    pc.WakeupRelease?
  }

  /** The process has the sleep lock: it set `locked` and has not cleared it. */
  predicate Owns(pc: Pc) {
    pc.SetPid? || pc.ReleaseAfterSet? || pc.Holding? || pc.AcquireToRelease? || pc.ClearLocked?
  }

  /** The process is between clearing `locked` and waking process p. */
  predicate WillWake(pc: Pc, p: nat) {
    pc.ClearPid? || pc.WakeupAcquire? || (pc.Scan? && pc.i <= p)
  }

  /** Somebody is still going to wake process p: the lock is held, or the holder of lk->lk is a
      releaser that has not passed p yet. */
  predicate Rescued(s: State, p: nat) {
    || s.locked
    || (s.lk.ByProc? && s.lk.p < |s.procs| && WillWake(s.procs[s.lk.p].pc, p))
  }

  /** Program counters say who holds the spin locks. */
  predicate SpinLocks(s: State, p: nat)
    requires p < |s.procs|
  {
    && (HoldsLk(s.procs[p].pc) <==> s.lk == ByProc(p))
    && (HoldsPtable(s.procs[p].pc) <==> s.ptable == ByProc(p))
  }

  /** What `locked` and `pid` are, as seen from process p. */
  predicate LockFields(s: State, p: nat)
    requires p < |s.procs|
  {
    match s.procs[p].pc
    case SetLocked => !s.locked && s.pid == 0
    case SetPid => s.locked && s.pid == 0
    case ReleaseAfterSet => s.locked && s.pid == p + 1
    case Holding => s.locked && s.pid == p + 1
    case AcquireToRelease => s.locked && s.pid == p + 1
    case ClearLocked => s.locked && s.pid == p + 1
    case ClearPid => !s.locked
    case WakeupAcquire => !s.locked && s.pid == 0
    case Scan(_) => !s.locked && s.pid == 0
    case WakeupRelease => !s.locked && s.pid == 0
    case ReleaseAtEnd => !s.locked && s.pid == 0
    case AcquirePtable => s.locked
    case ReleaseLk => s.locked
    case _ => true
  }

  /** Run state and channel of process p, and that a sleeping process will be woken. */
  predicate SleepState(s: State, p: nat)
    requires p < |s.procs|
  {
    var x := s.procs[p];
    match x.pc
    case MarkSleeping => x.st == Running && Rescued(s, p)
    case Sched => x.st == Sleeping && x.onChan && Rescued(s, p)
    case Asleep => x.onChan && x.st != Running && (x.st == Sleeping ==> Rescued(s, p))
    case _ => x.st == Running
  }

  ghost predicate ProcInv(s: State, p: nat)
    requires p < |s.procs|
  {
    SpinLocks(s, p) && LockFields(s, p) && SleepState(s, p)
  }

  ghost predicate Inv(s: State) {
    && (forall p :: 0 <= p < |s.procs| ==> ProcInv(s, p))
    && LocksInv(s)
  }

  ghost predicate LocksInv(s: State) {
    && (s.lk.ByProc? ==> s.lk.p < |s.procs|) && (s.ptable.ByProc? ==> s.ptable.p < |s.procs|)
    && !s.lk.ByOther?
    && (!s.locked && !(s.lk.ByProc? && s.procs[s.lk.p].pc.ClearPid?) ==> s.pid == 0)
    && (s.locked && s.pid == 0 ==> s.lk.ByProc? && s.procs[s.lk.p].pc.SetPid?)
    && (s.locked && s.pid != 0 ==>
          s.pid - 1 < |s.procs| && Owns(s.procs[s.pid - 1].pc) && !s.procs[s.pid - 1].pc.SetPid?)
  }

  /** The part of the invariant that a step of p needs to keep process q's share of it. */
  ghost predicate Around(s: State, p: nat, q: nat) {
    && p < |s.procs| && q < |s.procs| && LocksInv(s) && ProcInv(s, p) && ProcInv(s, q)
    && (s.lk.ByProc? ==> ProcInv(s, s.lk.p))
  }

  lemma SpinLocksGo(s: State, p: nat, q: nat)
    requires p < |s.procs| && q < |s.procs| && SpinLocks(s, p) && SpinLocks(s, q) && !Blocked(s, p)
    ensures SpinLocks(GoStep(s, p), q)
  { }

  lemma LockFieldsGo(s: State, p: nat, q: nat)
    requires p < |s.procs| && q < |s.procs| && SpinLocks(s, p) && SpinLocks(s, q) && !Blocked(s, p)
    requires LockFields(s, p) && LockFields(s, q) && LocksInv(s)
    ensures LockFields(GoStep(s, p), q)
  { }

  /** A process keeps its rescuer until the scan reaches it. */
  lemma RescuedGo(s: State, p: nat, q: nat)
    requires p < |s.procs| && q < |s.procs| && SpinLocks(s, p) && LockFields(s, p) && !Blocked(s, p)
    requires s.lk.ByProc? ==> s.lk.p < |s.procs|
    requires Rescued(s, q) && s.procs[p].pc != Scan(q)
    ensures Rescued(GoStep(s, p), q)
  { }

  lemma SleepStateGo(s: State, p: nat, q: nat)
    requires p < |s.procs| && q < |s.procs| && SpinLocks(s, p) && SpinLocks(s, q) && LockFields(s, p) && !Blocked(s, p)
    requires (s.lk.ByProc? ==> s.lk.p < |s.procs|) && SleepState(s, p) && SleepState(s, q)
    ensures SleepState(GoStep(s, p), q)
  {
    hide Rescued;
    if Rescued(s, q) && s.procs[p].pc != Scan(q) { RescuedGo(s, p, q); }
    if p == q && s.procs[p].pc.ReleaseLk? { LockedRescues(s, p); }
  }

  lemma LockedRescues(s: State, p: nat)
    requires p < |s.procs| && s.procs[p].pc.ReleaseLk? && LockFields(s, p)
    ensures Rescued(GoStep(s, p), p)
  { }

  lemma LocksGo(s: State, p: nat)
    requires Around(s, p, p) && !Blocked(s, p)
    ensures LocksInv(GoStep(s, p)) && |GoStep(s, p).procs| == |s.procs|
  {
    hide SleepState;
  }

  lemma AroundAll(s: State, p: nat, q: nat)
    requires Inv(s) && p < |s.procs| && q < |s.procs|
    ensures Around(s, p, q)
  { }

  lemma AroundParts(s: State, p: nat, q: nat)
    requires Inv(s) && p < |s.procs| && q < |s.procs|
    ensures SpinLocks(s, p) && SpinLocks(s, q) && LockFields(s, p) && LockFields(s, q)
    ensures SleepState(s, p) && SleepState(s, q) && LocksInv(s) && (s.lk.ByProc? ==> s.lk.p < |s.procs|)
  {
    assert ProcInv(s, p) && ProcInv(s, q);
  }

  lemma InvGo(s: State, p: nat)
    requires Inv(s) && p < |s.procs| && !Blocked(s, p)
    ensures Inv(GoStep(s, p))
  {
    hide GoStep, LocksInv, SpinLocks, LockFields, SleepState, Blocked, Around;
    AroundAll(s, p, p);
    LocksGo(s, p);
    forall q | 0 <= q < |s.procs| ensures ProcInv(GoStep(s, p), q) {
      AroundParts(s, p, q);
      SpinLocksGo(s, p, q);
      LockFieldsGo(s, p, q);
      SleepStateGo(s, p, q);
    }
  }

  lemma InvStep(s: State, step: Step)
    requires Inv(s) && Enabled(s, step)
    ensures Inv(Do(s, step))
  {
    var s' := Do(s, step);
    match step {
      case Go(p) => InvGo(s, p);
      case _ =>
        forall q | 0 <= q < |s'.procs| ensures ProcInv(s', q) { assert ProcInv(s, q); }
    }
  }

  lemma {:induction false} InvRun(s: State, steps: seq<Step>, t: State)
    requires Inv(s) && Reaches(s, steps, t)
    ensures Inv(t)
    decreases |steps|
  {
    if steps != [] {
      InvStep(s, steps[0]);
      InvRun(Do(s, steps[0]), steps[1..], t);
    }
  }

  /** At most one process owns the sleep lock, from setting `locked` until clearing it; a sleeping
      process can count on being woken; and holdingsleep, which looks while lk->lk is free, is exact. */
  lemma NoLostWakeup(s: State, steps: seq<Step>, t: State)
    requires Init(s) && Reaches(s, steps, t)
    ensures forall p, q ::
      0 <= p < |t.procs| && 0 <= q < |t.procs| && Owns(t.procs[p].pc) && Owns(t.procs[q].pc) ==> p == q
    ensures forall p :: 0 <= p < |t.procs| && t.procs[p].st == Sleeping ==> Rescued(t, p)
    ensures !t.locked && t.lk == Free ==> forall p :: 0 <= p < |t.procs| ==> t.procs[p].st != Sleeping
    ensures t.lk == Free ==>
              forall p :: 0 <= p < |t.procs| ==>
                (t.locked && t.pid == p + 1 <==> t.procs[p].pc == Holding || t.procs[p].pc == AcquireToRelease)
  {
    forall p | 0 <= p < |s.procs| ensures ProcInv(s, p) { }
    InvRun(s, steps, t);
    hide Inv, Rescued, Owns;
    forall p, q | 0 <= p < |t.procs| && 0 <= q < |t.procs| && Owns(t.procs[p].pc) && Owns(t.procs[q].pc)
      ensures p == q
    {
      OneOwner(t, p, q);
    }
    forall p | 0 <= p < |t.procs| && t.procs[p].st == Sleeping ensures Rescued(t, p) && (t.locked || t.lk != Free) {
      SleeperRescued(t, p);
    }
    forall p | 0 <= p < |t.procs| && t.lk == Free
      ensures t.locked && t.pid == p + 1 <==> t.procs[p].pc == Holding || t.procs[p].pc == AcquireToRelease
    {
      HoldingExact(t, p);
    }
  }

  lemma OneOwner(s: State, p: nat, q: nat)
    requires Inv(s) && p < |s.procs| && q < |s.procs| && Owns(s.procs[p].pc) && Owns(s.procs[q].pc)
    ensures p == q
  {
    assert ProcInv(s, p) && ProcInv(s, q);
  }

  lemma SleeperRescued(s: State, p: nat)
    requires Inv(s) && p < |s.procs| && s.procs[p].st == Sleeping
    ensures Rescued(s, p) && (s.locked || s.lk != Free)
  {
    assert ProcInv(s, p);
  }

  lemma HoldingExact(s: State, p: nat)
    requires Inv(s) && p < |s.procs| && s.lk == Free
    ensures s.locked && s.pid == p + 1 <==> s.procs[p].pc == Holding || s.procs[p].pc == AcquireToRelease
  {
    assert ProcInv(s, p);
  }
}
