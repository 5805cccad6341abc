/** Who uses which buffer of the cache.  A ticket stands for one process's use, from its bget to the
    end of its brelse: which buffer it was given, for which block, and how far it has come. */
module CacheTickets {
  import opened Params
  import opened BufferRing

  /** Waiting for the buffer's lock; holding it; holding it with the block read; lock given up
      again, reference not yet dropped. */
  datatype Stage = Wanted | Locked | Open | Dropped

  datatype Ticket = Ticket(pid: nat, b: nat, dev: nat, blockno: nat, stage: Stage)

  type Tickets = map<nat, Ticket>

  predicate HasLock(k: Ticket) {
    k.stage.Locked? || k.stage.Open?
  }

  /** The tickets for a buffer. */
  ghost function Refs(tickets: Tickets, a: nat): set<nat> {
    set t | t in tickets && tickets[t].b == a
  }

  /** A buffer's reference count is the number of its tickets. */
  ghost predicate Counted(s: seq<Buf>, tickets: Tickets)
    requires |s| == NBUF + 1
  {
    forall a: nat :: a < NBUF ==> s[a].refcnt == |Refs(tickets, a)|
  }

  /** The buffer of a ticket still carries the block that was asked for. */
  predicate Honoured(s: seq<Buf>, k: Ticket)
    requires |s| == NBUF + 1
  {
    && k.b < NBUF && k.pid != 0 && Carries(s, k.b, k.dev, k.blockno)
    && (k.stage.Open? ==> s[k.b].valid)
  }

  ghost predicate AllHonoured(s: seq<Buf>, tickets: Tickets)
    requires |s| == NBUF + 1
  {
    forall t :: t in tickets ==> Honoured(s, tickets[t])
  }

  ghost predicate HoldsIt(s: seq<Buf>, tickets: Tickets, a: nat, t: nat)
    requires |s| == NBUF + 1
  {
    a < NBUF && t in tickets && tickets[t].b == a && s[a].holder == tickets[t].pid && HasLock(tickets[t])
  }

  /** lockers names the one ticket that holds each locked buffer; only the holder of a buffer that
      has been read may be changing it. */
  ghost predicate LockedOnce(s: seq<Buf>, tickets: Tickets, lockers: map<nat, nat>, touched: set<nat>)
    requires |s| == NBUF + 1
  {
    && (forall a: nat :: a < NBUF ==> (s[a].holder != 0 <==> a in lockers))
    && (forall a :: a in lockers ==> HoldsIt(s, tickets, a, lockers[a]))
    && (forall t :: t in tickets && HasLock(tickets[t]) ==> tickets[t].b in lockers && lockers[tickets[t].b] == t)
    && (forall a :: a in touched ==> a in lockers && lockers[a] in tickets && tickets[lockers[a]].stage.Open?)
  }

  ghost predicate Booked(s: seq<Buf>, tickets: Tickets, lockers: map<nat, nat>, touched: set<nat>)
    requires |s| == NBUF + 1
  {
    Counted(s, tickets) && AllHonoured(s, tickets) && LockedOnce(s, tickets, lockers, touched)
  }

  /** The buffer's fields that tickets speak of. */
  predicate SameUse(x: Buf, y: Buf) {
    x.dev == y.dev && x.blockno == y.blockno && x.holder == y.holder && (x.valid ==> y.valid)
  }

  lemma NoTickets(s: seq<Buf>, tickets: Tickets, lockers: map<nat, nat>, touched: set<nat>, b: nat)
    requires |s| == NBUF + 1 && Booked(s, tickets, lockers, touched) && b < NBUF && s[b].refcnt == 0
    ensures s[b].holder == 0 && b !in touched && forall t :: t in tickets ==> tickets[t].b != b
  {
    forall t | t in tickets ensures tickets[t].b != b {
      assert t in Refs(tickets, b) <==> tickets[t].b == b;
    }
    assert b in lockers ==> HoldsIt(s, tickets, b, lockers[b]);
  }

  lemma RefsAdded(tickets: Tickets, t: nat, k: Ticket, a: nat)
    requires t !in tickets
    ensures |Refs(tickets[t := k], a)| == |Refs(tickets, a)| + if k.b == a then 1 else 0
  {
    assert Refs(tickets[t := k], a) == Refs(tickets, a) + if k.b == a then {t} else {};
  }

  lemma RefsRemoved(tickets: Tickets, t: nat, a: nat)
    requires t in tickets
    ensures |Refs(tickets - {t}, a)| == |Refs(tickets, a)| - if tickets[t].b == a then 1 else 0
  {
    assert Refs(tickets - {t}, a) == Refs(tickets, a) - if tickets[t].b == a then {t} else {};
  }

  lemma RefsStaged(tickets: Tickets, t: nat, st: Stage, a: nat)
    requires t in tickets
    ensures Refs(tickets[t := tickets[t].(stage := st)], a) == Refs(tickets, a)
  { }

  /** bget: a new ticket, for a buffer that carries the block already or that nobody used. */
  lemma BookNew(s: seq<Buf>, tickets: Tickets, lockers: map<nat, nat>, touched: set<nat>, t: nat, k: Ticket, x: Buf)
    requires |s| == NBUF + 1 && Booked(s, tickets, lockers, touched) && t !in tickets && k.b < NBUF
    requires k.pid != 0 && k.stage == Wanted && x.dev == k.dev && x.blockno == k.blockno
    requires x.refcnt == s[k.b].refcnt + 1 && x.holder == s[k.b].holder
    requires SameUse(s[k.b], x) || s[k.b].refcnt == 0
    ensures Booked(s[k.b := x], tickets[t := k], lockers, touched)
  {
    var s', all := s[k.b := x], tickets[t := k];
    forall a: nat | a < NBUF ensures s'[a].refcnt == |Refs(all, a)| { RefsAdded(tickets, t, k, a); }
    if s[k.b].refcnt == 0 { NoTickets(s, tickets, lockers, touched, k.b); }
    forall u | u in all ensures Honoured(s', all[u]) {
      assert u != t ==> Honoured(s, tickets[u]);
    }
    forall a | a in lockers ensures HoldsIt(s', all, a, lockers[a]) { assert HoldsIt(s, tickets, a, lockers[a]); }
  }

  /** A step of one ticket to stage st: its buffer becomes x. */
  predicate Steps(k: Ticket, st: Stage, y: Buf, x: Buf, touched: bool) {
    && x.dev == y.dev && x.blockno == y.blockno && x.refcnt == y.refcnt && (y.valid ==> x.valid)
    && match st
       case Wanted => false
       case Locked => k.stage.Wanted? && y.holder == 0 && x.holder == k.pid
       case Open => k.stage.Locked? && x.holder == y.holder && x.valid
       case Dropped => HasLock(k) && x.holder == 0 && !touched
  }

  function LockersAfter(lockers: map<nat, nat>, b: nat, t: nat, st: Stage): map<nat, nat> {
    if st.Locked? then lockers[b := t] else if st.Dropped? then lockers - {b} else lockers
  }

  /** A step of one ticket: its stage and its buffer's lock change together. */
  lemma BookStage(s: seq<Buf>, tickets: Tickets, lockers: map<nat, nat>, touched: set<nat>, t: nat, st: Stage, x: Buf)
    requires |s| == NBUF + 1 && Booked(s, tickets, lockers, touched) && t in tickets && tickets[t].b < NBUF
    requires var k := tickets[t]; Steps(k, st, s[k.b], x, k.b in touched)
    ensures var b := tickets[t].b;
      Booked(s[b := x], tickets[t := tickets[t].(stage := st)], LockersAfter(lockers, b, t, st), touched)
  {
    var b := tickets[t].b;
    var s', all := s[b := x], tickets[t := tickets[t].(stage := st)];
    forall a: nat | a < NBUF ensures s'[a].refcnt == |Refs(all, a)| { RefsStaged(tickets, t, st, a); }
    assert AllHonoured(s', all) by {
      forall u | u in all ensures Honoured(s', all[u]) { assert Honoured(s, tickets[u]); }
    }
    assert Honoured(s, tickets[t]);
    hide Refs, Honoured, Carries;
    match st
    case Locked => LockTaken(s, tickets, lockers, touched, t, x);
    case Open => LockKept(s, tickets, lockers, touched, t, x);
    case Dropped => LockGiven(s, tickets, lockers, touched, t, x);
  }

  lemma LockTaken(s: seq<Buf>, tickets: Tickets, lockers: map<nat, nat>, touched: set<nat>, t: nat, x: Buf)
    requires |s| == NBUF + 1 && LockedOnce(s, tickets, lockers, touched) && t in tickets && tickets[t].b < NBUF
    requires tickets[t].stage.Wanted? && s[tickets[t].b].holder == 0 && x.holder == tickets[t].pid != 0
    ensures var b := tickets[t].b;
      LockedOnce(s[b := x], tickets[t := tickets[t].(stage := Locked)], lockers[b := t], touched)
  {
    var b := tickets[t].b;
    var s', all, locks := s[b := x], tickets[t := tickets[t].(stage := Locked)], lockers[b := t];
    forall a | a in locks ensures HoldsIt(s', all, a, locks[a]) {
      assert a != b ==> HoldsIt(s, tickets, a, lockers[a]);
    }
  }

  lemma LockKept(s: seq<Buf>, tickets: Tickets, lockers: map<nat, nat>, touched: set<nat>, t: nat, x: Buf)
    requires |s| == NBUF + 1 && LockedOnce(s, tickets, lockers, touched) && t in tickets && tickets[t].b < NBUF
    requires tickets[t].stage.Locked? && x.holder == s[tickets[t].b].holder
    ensures LockedOnce(s[tickets[t].b := x], tickets[t := tickets[t].(stage := Open)], lockers, touched)
  {
    var s', all := s[tickets[t].b := x], tickets[t := tickets[t].(stage := Open)];
    forall a | a in lockers ensures HoldsIt(s', all, a, lockers[a]) { assert HoldsIt(s, tickets, a, lockers[a]); }
  }

  lemma LockGiven(s: seq<Buf>, tickets: Tickets, lockers: map<nat, nat>, touched: set<nat>, t: nat, x: Buf)
    requires |s| == NBUF + 1 && LockedOnce(s, tickets, lockers, touched) && t in tickets && tickets[t].b < NBUF
    requires HasLock(tickets[t]) && x.holder == 0 && tickets[t].b !in touched
    ensures var b := tickets[t].b;
      LockedOnce(s[b := x], tickets[t := tickets[t].(stage := Dropped)], lockers - {b}, touched)
  {
    var b := tickets[t].b;
    var s', all, locks := s[b := x], tickets[t := tickets[t].(stage := Dropped)], lockers - {b};
    forall a | a in locks ensures HoldsIt(s', all, a, locks[a]) { assert HoldsIt(s, tickets, a, lockers[a]); }
  }

  /** A change to a buffer that its tickets do not see. */
  lemma BookSame(s: seq<Buf>, tickets: Tickets, lockers: map<nat, nat>, touched: set<nat>, b: nat, x: Buf,
                 now: set<nat>)
    requires |s| == NBUF + 1 && Booked(s, tickets, lockers, touched) && b < NBUF
    requires SameUse(s[b], x) && x.refcnt == s[b].refcnt
    requires now <= touched ||
      (now == touched + {b} && b in lockers && lockers[b] in tickets && tickets[lockers[b]].stage.Open?)
    ensures Booked(s[b := x], tickets, lockers, now)
  {
    var s' := s[b := x];
    forall u | u in tickets ensures Honoured(s', tickets[u]) { assert Honoured(s, tickets[u]); }
    forall a | a in lockers ensures HoldsIt(s', tickets, a, lockers[a]) { assert HoldsIt(s, tickets, a, lockers[a]); }
  }

  /** The end of brelse: the ticket is gone. */
  lemma BookGone(s: seq<Buf>, tickets: Tickets, lockers: map<nat, nat>, touched: set<nat>, t: nat, x: Buf)
    requires |s| == NBUF + 1 && Booked(s, tickets, lockers, touched) && t in tickets && tickets[t].stage.Dropped?
    requires tickets[t].b < NBUF && SameUse(s[tickets[t].b], x) && x.refcnt == s[tickets[t].b].refcnt - 1
    ensures Booked(s[tickets[t].b := x], tickets - {t}, lockers, touched)
  {
    var s', all := s[tickets[t].b := x], tickets - {t};
    forall a: nat | a < NBUF ensures s'[a].refcnt == |Refs(all, a)| { RefsRemoved(tickets, t, a); }
    forall u | u in all ensures Honoured(s', all[u]) { assert Honoured(s, tickets[u]); }
    forall a | a in lockers ensures HoldsIt(s', all, a, lockers[a]) { assert HoldsIt(s, tickets, a, lockers[a]); }
  }

  lemma BookRelinked(s: seq<Buf>, r: seq<Buf>, tickets: Tickets, lockers: map<nat, nat>, touched: set<nat>)
    requires |s| == NBUF + 1 && Booked(s, tickets, lockers, touched) && SameBuffers(s, r)
    ensures |r| == NBUF + 1 && Booked(r, tickets, lockers, touched)
  {
    forall u | u in tickets ensures Honoured(r, tickets[u]) { assert Honoured(s, tickets[u]); }
    forall a | a in lockers ensures HoldsIt(r, tickets, a, lockers[a]) { assert HoldsIt(s, tickets, a, lockers[a]); }
  }

  /** What the books say about one ticket. */
  lemma TicketFacts(s: seq<Buf>, tickets: Tickets, lockers: map<nat, nat>, touched: set<nat>, t: nat)
    requires |s| == NBUF + 1 && Booked(s, tickets, lockers, touched) && t in tickets
    ensures Honoured(s, tickets[t]) && s[tickets[t].b].refcnt >= 1
    ensures HasLock(tickets[t]) ==>
      s[tickets[t].b].holder == tickets[t].pid && tickets[t].b in lockers && lockers[tickets[t].b] == t
    ensures tickets[t].stage.Locked? ==> tickets[t].b !in touched
  {
    var b := tickets[t].b;
    assert t in Refs(tickets, b) && Honoured(s, tickets[t]);
    if HasLock(tickets[t]) { assert HoldsIt(s, tickets, b, lockers[b]); }
  }

  /** The holder of a locked buffer has exactly one ticket for it. */
  lemma LockerFacts(s: seq<Buf>, tickets: Tickets, lockers: map<nat, nat>, touched: set<nat>, b: nat)
    requires |s| == NBUF + 1 && Booked(s, tickets, lockers, touched) && b < NBUF && s[b].holder != 0
    ensures b in lockers && HoldsIt(s, tickets, b, lockers[b])
  { }
}
