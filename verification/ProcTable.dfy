/** The process table: what fork, exit, wait, wakeup1 and kill do to it (proc.c). */
module ProcTable {

  datatype RunState = UNUSED | EMBRYO | SLEEPING | RUNNABLE | RUNNING | ZOMBIE

  /** What a process sleeps on: a process slot (only wait sleeps on its own) or anything else. */
  datatype Chan = NoChan | On(p: nat) | Elsewhere

  /** Where a process is in the system calls that touch the table. */
  datatype Pc = User | InWait | InFork(np: nat, parentSet: bool)

  /** A struct proc; parent is a slot number, or -1 for none. */
  datatype Proc = Proc(state: RunState, pid: nat, parent: int, chan: Chan, killed: bool, pc: Pc)

  predicate WokenBy(x: Proc, c: nat) {
    x.state == SLEEPING && x.chan == On(c)
  }

  /** wakeup1(chan). */
  function Woken(ps: seq<Proc>, c: nat): seq<Proc> {
    seq(|ps|, i requires 0 <= i < |ps| => if WokenBy(ps[i], c) then ps[i].(state := RUNNABLE) else ps[i])
  }

  predicate ZombieChild(ps: seq<Proc>, p: nat, c: nat)
    requires c < |ps|
  {
    ps[c].parent == p && ps[c].state == ZOMBIE
  }

  predicate HasZombieChild(ps: seq<Proc>, p: nat) {
    exists c :: 0 <= c < |ps| && ZombieChild(ps, p, c)
  }

  predicate HasChild(ps: seq<Proc>, p: nat) {
    exists c :: 0 <= c < |ps| && ps[c].parent == p
  }

  /** One slot after exit by process p: the parent and, if a zombie is handed over, init are woken;
      p's children go to init; p becomes a zombie. */
  function ExitSlot(ps: seq<Proc>, p: nat, init: nat, i: nat): Proc
    requires p < |ps| && i < |ps|
  {
    var x := ps[i];
    var wake := (ps[p].parent >= 0 && WokenBy(x, ps[p].parent)) || (HasZombieChild(ps, p) && WokenBy(x, init));
    x.(parent := if x.parent == p then init else x.parent,
       state := if i == p then ZOMBIE else if wake then RUNNABLE else x.state)
  }

  function Exited(ps: seq<Proc>, p: nat, init: nat): seq<Proc>
    requires p < |ps|
  {
    seq(|ps|, i requires 0 <= i < |ps| => ExitSlot(ps, p, init, i))
  }

  /** wait frees a zombie's slot. */
  function Freed(x: Proc): Proc {
    x.(state := UNUSED, pid := 0, parent := -1, killed := false)
  }

  // ----- the table-scan loops -----

  /** wakeup1. */
  method Wakeup1(table: array<Proc>, c: nat)
    modifies table
    ensures table[..] == Woken(old(table[..]), c)
  {
    var i := 0;
    while i < table.Length
      invariant 0 <= i <= table.Length
      invariant forall k :: 0 <= k < i ==> table[k] == Woken(old(table[..]), c)[k]
      invariant forall k :: i <= k < table.Length ==> table[k] == old(table[k])
    {
      if table[i].state == SLEEPING && table[i].chan == On(c) {
        table[i] := table[i].(state := RUNNABLE);
      }
      i := i + 1;
    }
  }

  /** One slot part-way through exit's loop, with slots below n visited. */
  ghost function HandedOver(ps: seq<Proc>, p: nat, init: nat, n: nat, i: nat): Proc
    requires p < |ps| && i < |ps| && n <= |ps|
  {
    var x := ps[i];
    var wake := (ps[p].parent >= 0 && WokenBy(x, ps[p].parent)) || (HasZombieChild(ps[..n], p) && WokenBy(x, init));
    x.(parent := if i < n && x.parent == p then init else x.parent, state := if wake then RUNNABLE else x.state)
  }

  lemma HandOverStep(ps: seq<Proc>, p: nat, n: nat)
    requires n < |ps|
    ensures HasZombieChild(ps[..n + 1], p) <==> HasZombieChild(ps[..n], p) || ZombieChild(ps, p, n)
  {
    if HasZombieChild(ps[..n], p) {
      var c :| 0 <= c < n && ZombieChild(ps[..n], p, c);
      assert ZombieChild(ps[..n + 1], p, c);
    }
    if ZombieChild(ps, p, n) { assert ZombieChild(ps[..n + 1], p, n); }
    if HasZombieChild(ps[..n + 1], p) {
      var c :| 0 <= c < n + 1 && ZombieChild(ps[..n + 1], p, c);
      if c < n { assert ZombieChild(ps[..n], p, c); }
    }
  }

  /** wakeup1 makes the sleepers on its channel runnable, and nobody else. */
  lemma WokenEach(ps: seq<Proc>, c: nat, i: nat)
    requires i < |ps|
    ensures var x, y := ps[i], Woken(ps, c)[i];
      y == if x.state == SLEEPING && x.chan == On(c) then x.(state := RUNNABLE) else x
  { }

  /** What exit does to each process: its parent, if asleep in wait, and init, if it inherits a zombie,
      are woken; its children go to init; it is a zombie. */
  lemma ExitedEach(ps: seq<Proc>, p: nat, init: nat, i: nat)
    requires p < |ps| && i < |ps| && p != init
    ensures var x, y := ps[i], Exited(ps, p, init)[i];
      && y == x.(parent := y.parent, state := y.state)
      && y.parent == (if x.parent == p then init else x.parent)
      && (i == p ==> y.state == ZOMBIE)
      && (i != p && x.state != SLEEPING ==> y.state == x.state)
      && (i != p && x.state == SLEEPING ==>
            (y.state == RUNNABLE <==>
               x.chan.On? && (x.chan.p == ps[p].parent || (x.chan.p == init && HasZombieChild(ps, p)))))
      && (i != p && x.state == SLEEPING ==> y.state == RUNNABLE || y.state == SLEEPING)
  { }

  /** exit's critical section, for a process other than init. */
  method Exit(table: array<Proc>, p: nat, init: nat)
    requires p < table.Length && p != init
    modifies table
    ensures table[..] == Exited(old(table[..]), p, init)
  {
    ghost var ps := table[..];
    if table[p].parent >= 0 {
      Wakeup1(table, table[p].parent);
    }
    var i := 0;
    while i < table.Length
      invariant 0 <= i <= table.Length
      invariant forall k :: 0 <= k < table.Length ==> table[k] == HandedOver(ps, p, init, i, k)
    {
      HandOverStep(ps, p, i);
      assert table[i] == HandedOver(ps, p, init, i, i);
      label visit:
      if table[i].parent == p {
        table[i] := table[i].(parent := init);
        if table[i].state == ZOMBIE {
          Wakeup1(table, init);
        }
      }
      forall k | 0 <= k < table.Length ensures table[k] == HandedOver(ps, p, init, i + 1, k) {
        assert old@visit(table[k]) == HandedOver(ps, p, init, i, k);
        assert table[k] == table[..][k];
      }
      i := i + 1;
    }
    assert ps[..table.Length] == ps;
    table[p] := table[p].(state := ZOMBIE);
  }

  /** The scan of wait: the first zombie child, and whether there are children at all. */
  method ScanChildren(table: array<Proc>, p: nat) returns (zombie: int, havekids: bool)
    ensures zombie >= 0 ==>
              zombie < table.Length && ZombieChild(table[..], p, zombie) &&
              forall k :: 0 <= k < zombie ==> !ZombieChild(table[..], p, k)
    ensures zombie < 0 ==> !HasZombieChild(table[..], p) && (havekids <==> HasChild(table[..], p))
  {
    havekids := false;
    var i := 0;
    while i < table.Length
      invariant 0 <= i <= table.Length
      invariant forall k :: 0 <= k < i ==> !ZombieChild(table[..], p, k)
      invariant havekids <==> exists k :: 0 <= k < i && table[k].parent == p
    {
      if table[i].parent == p {
        havekids := true;
        if table[i].state == ZOMBIE {
          return i, true;
        }
      }
      i := i + 1;
    }
    zombie := -1;
    ghost var ps := table[..];
    assert havekids ==> HasChild(ps, p) by {
      if havekids {
        var k :| 0 <= k < table.Length && table[k].parent == p;
        assert ps[k].parent == p;
      }
    }
  }
}
