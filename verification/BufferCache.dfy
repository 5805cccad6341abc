/** The buffer cache of bio.c over the memory disk of memide.c.

    Every method is one critical section: it runs under bcache.lock, or by the holder of one
    buffer's sleep lock, on behalf of one ticket. */
module BufferCache {
  import opened Params
  import opened BufferRing
  import opened CacheTickets

  /** A buffer that may be recycled. */
  predicate Idle(b: Buf) {
    b.refcnt == 0 && !b.dirty
  }

  predicate Differ(x: Buf, y: Buf) {
    x.dev != 0 ==> !(x.dev == y.dev && x.blockno == y.blockno)
  }

  /** At most one buffer carries a block of a real device. */
  ghost predicate Unique(s: seq<Buf>)
    requires |s| == NBUF + 1
  {
    forall a, b :: 0 <= a < b < NBUF ==> Differ(s[a], s[b])
  }

  ghost predicate Pins(s: seq<Buf>, a: nat, b: nat)
    requires |s| == NBUF + 1
  {
    a < NBUF && s[a].dirty && s[a].blockno == b
  }

  /** The contents of one buffer agree with the logical block it caches, unless its holder is in
      the middle of changing it. */
  ghost predicate Agrees(b: Buf, logical: seq<Data>, touched: bool) {
    && (b.dirty ==> b.valid)
    && (b.valid ==> b.dev == 1 && b.blockno < |logical| && (!touched ==> b.data == logical[b.blockno]))
    && (touched ==> b.valid && b.holder != 0)
  }

  /** A block whose disk copy is stale is pinned in the cache by a dirty buffer. */
  ghost predicate Coherent(s: seq<Buf>, disk: seq<Data>, logical: seq<Data>, touched: set<nat>)
    requires |s| == NBUF + 1
  {
    && |disk| == |logical|
    && (forall a :: 0 <= a < NBUF ==> Agrees(s[a], logical, a in touched))
    && (forall b :: 0 <= b < |disk| && disk[b] != logical[b] ==> exists a :: Pins(s, a, b))
  }

  /** The ring is in order of last release, most recent first. */
  ghost predicate Recency(ring: seq<nat>, stamp: seq<int>, clock: int) {
    && |ring| == NBUF && |stamp| == NBUF
    && (forall i :: 0 <= i < NBUF ==> ring[i] < NBUF)
    && (forall b :: 0 <= b < NBUF ==> stamp[b] <= clock)
    && (forall i, j :: 0 <= i < j < NBUF ==> stamp[ring[i]] > stamp[ring[j]])
  }

  lemma Older(ring: seq<nat>, stamp: seq<int>, clock: int, k: nat, i: nat)
    requires Recency(ring, stamp, clock) && k <= i < NBUF
    ensures |ring| == NBUF == |stamp| && ring[k] < NBUF && ring[i] < NBUF && stamp[ring[i]] <= stamp[ring[k]]
  { }

  // ----- one buffer changes -----

  /** A buffer's identity changes only while it is idle, to a block no buffer carries. */
  lemma RecycleKeeps(s: seq<Buf>, b: nat, dev: nat, blockno: nat, disk: seq<Data>, logical: seq<Data>,
                     touched: set<nat>)
    requires |s| == NBUF + 1 && b < NBUF && Idle(s[b]) && s[b].holder == 0
    requires Unique(s) && Coherent(s, disk, logical, touched)
    requires forall a :: 0 <= a < NBUF ==> !Carries(s, a, dev, blockno)
    ensures var r := s[b := s[b].(dev := dev, blockno := blockno, valid := false, dirty := false, refcnt := 1)];
            Unique(r) && Coherent(r, disk, logical, touched)
  {
    var r := s[b := s[b].(dev := dev, blockno := blockno, valid := false, dirty := false, refcnt := 1)];
    assert Agrees(s[b], logical, b in touched);
    forall a, c | 0 <= a < c < NBUF ensures Differ(r[a], r[c]) {
      assert !Carries(s, a, dev, blockno) && !Carries(s, c, dev, blockno);
    }
    forall k | 0 <= k < |disk| && disk[k] != logical[k] ensures exists a :: Pins(r, a, k) {
      var a :| Pins(s, a, k);
      assert Pins(r, a, k);
    }
  }

  /** Changes to one buffer that keep its identity and dirtiness. */
  lemma BufferKeeps(s: seq<Buf>, b: nat, x: Buf, disk: seq<Data>, logical: seq<Data>, touched: set<nat>,
                    touched': set<nat>)
    requires |s| == NBUF + 1 && b < NBUF && Unique(s) && Coherent(s, disk, logical, touched)
    requires x.dev == s[b].dev && x.blockno == s[b].blockno && (s[b].dirty ==> x.dirty)
    requires Agrees(x, logical, b in touched') && touched - {b} == touched' - {b}
    ensures Unique(s[b := x]) && Coherent(s[b := x], disk, logical, touched')
  {
    var r := s[b := x];
    forall a | 0 <= a < NBUF ensures Agrees(r[a], logical, a in touched') {
      assert Agrees(s[a], logical, a in touched);
      assert a != b ==> (a in touched - {b} <==> a in touched);
    }
    forall k | 0 <= k < |disk| && disk[k] != logical[k] ensures exists a :: Pins(r, a, k) {
      var a :| Pins(s, a, k);
      assert Pins(r, a, k);
    }
  }

  /** A valid buffer that is not dirty caches a block whose disk copy is current. */
  lemma CleanIsCurrent(s: seq<Buf>, b: nat, disk: seq<Data>, logical: seq<Data>, touched: set<nat>)
    requires |s| == NBUF + 1 && b < NBUF && Unique(s) && Coherent(s, disk, logical, touched)
    requires s[b].dev == 1 && s[b].blockno < |disk| && !s[b].dirty
    ensures disk[s[b].blockno] == logical[s[b].blockno]
  {
    forall a: nat ensures !Pins(s, a, s[b].blockno) {
      if a < NBUF {
        assert Agrees(s[a], logical, a in touched);
        assert a < b ==> Differ(s[a], s[b]);
        assert b < a ==> Differ(s[b], s[a]);
      }
    }
  }

  /** log_write publishes a buffer's contents by pinning it. */
  lemma PublishKeeps(s: seq<Buf>, b: nat, disk: seq<Data>, logical: seq<Data>, touched: set<nat>)
    requires |s| == NBUF + 1 && b < NBUF && Unique(s) && Coherent(s, disk, logical, touched)
    requires s[b].valid && s[b].holder != 0
    ensures var r := s[b := s[b].(dirty := true)];
            && s[b].blockno < |logical|
            && Unique(r) && Coherent(r, disk, logical[s[b].blockno := s[b].data], touched - {b})
  {
    var r, n := s[b := s[b].(dirty := true)], s[b].blockno;
    assert Agrees(s[b], logical, b in touched);
    var logical' := logical[n := s[b].data];
    forall a | 0 <= a < NBUF ensures Agrees(r[a], logical', a in touched - {b}) {
      assert Agrees(s[a], logical, a in touched);
      assert a < b ==> Differ(s[a], s[b]);
      assert b < a ==> Differ(s[b], s[a]);
    }
    forall k | 0 <= k < |disk| && disk[k] != logical'[k] ensures exists a :: Pins(r, a, k) {
      if k == n {
        assert Pins(r, b, n);
      } else {
        var a :| Pins(s, a, k);
        assert Pins(r, a, k);
      }
    }
  }

  /** bwrite makes the disk copy current and unpins the buffer. */
  lemma WriteBackKeeps(s: seq<Buf>, b: nat, disk: seq<Data>, logical: seq<Data>, touched: set<nat>)
    requires |s| == NBUF + 1 && b < NBUF && Unique(s) && Coherent(s, disk, logical, touched)
    requires s[b].dev == 1 && s[b].blockno < |disk| && s[b].holder != 0
    ensures var r, n := s[b := s[b].(dirty := false, valid := true)], s[b].blockno;
            n < |logical| &&
            Unique(r) && Coherent(r, disk[n := s[b].data], logical[n := s[b].data], touched - {b})
  {
    var r, n := s[b := s[b].(dirty := false, valid := true)], s[b].blockno;
    var disk', logical' := disk[n := s[b].data], logical[n := s[b].data];
    forall a | 0 <= a < NBUF ensures Agrees(r[a], logical', a in touched - {b}) {
      assert Agrees(s[a], logical, a in touched);
      assert a < b ==> Differ(s[a], s[b]);
      assert b < a ==> Differ(s[b], s[a]);
    }
    forall k | 0 <= k < |disk'| && disk'[k] != logical'[k] ensures exists a :: Pins(r, a, k) {
      var a :| Pins(s, a, k);
      assert Pins(r, a, k);
    }
  }

  lemma StillAgrees(s: seq<Buf>, b: nat, disk: seq<Data>, logical: seq<Data>, touched: set<nat>)
    requires |s| == NBUF + 1 && b < NBUF && Coherent(s, disk, logical, touched)
    ensures Agrees(s[b], logical, b in touched) && |disk| == |logical|
  { }

  lemma SameLength(s: seq<Buf>, disk: seq<Data>, logical: seq<Data>, touched: set<nat>)
    requires |s| == NBUF + 1 && Coherent(s, disk, logical, touched)
    ensures |disk| == |logical|
  { }

  lemma Relink(s: seq<Buf>, r: seq<Buf>, disk: seq<Data>, logical: seq<Data>, touched: set<nat>)
    requires |s| == NBUF + 1 && SameBuffers(s, r)
    requires Unique(s) && Coherent(s, disk, logical, touched)
    ensures |r| == NBUF + 1 && Unique(r) && Coherent(r, disk, logical, touched)
  {
    forall a | 0 <= a < NBUF ensures Agrees(r[a], logical, a in touched) {
      assert Agrees(s[a], logical, a in touched);
    }
    forall k | 0 <= k < |disk| && disk[k] != logical[k] ensures exists a :: Pins(r, a, k) {
      var a :| Pins(s, a, k);
      assert Pins(r, a, k);
    }
  }

  lemma Fresher(ring: seq<nat>, stamp: seq<int>, clock: int, i: nat)
    requires Recency(ring, stamp, clock) && i < NBUF
    ensures Recency([ring[i]] + Without(ring, i), stamp[ring[i] := clock + 1], clock + 1)
  {
    var r, st := [ring[i]] + Without(ring, i), stamp[ring[i] := clock + 1];
    forall a, b | 0 <= a < b < NBUF ensures st[r[a]] > st[r[b]] {
      var b' := if b <= i then b - 1 else b;
      assert r[b] == ring[b'] && stamp[ring[b']] != stamp[ring[i]];
      if a > 0 {
        var a' := if a <= i then a - 1 else a;
        assert r[a] == ring[a'] && stamp[ring[a']] != stamp[ring[i]];
      }
    }
  }

  /** Giving up the lock of a buffer whose contents are the logical block. */
  lemma ReleaseKeeps(s: seq<Buf>, ring: seq<nat>, tickets: Tickets, lockers: map<nat, nat>, disk: seq<Data>,
                     logical: seq<Data>, touched: set<nat>, b: nat)
    requires |s| == NBUF + 1 && FullRing(s, ring) && Unique(s) && Coherent(s, disk, logical, touched)
    requires Booked(s, tickets, lockers, touched) && b < NBUF && s[b].holder != 0
    requires s[b].valid ==> s[b].blockno < |logical| && s[b].data == logical[s[b].blockno]
    ensures b in lockers && lockers[b] in tickets
    ensures var t, r := lockers[b], s[b := s[b].(holder := 0)];
      && FullRing(r, ring) && Unique(r) && Coherent(r, disk, logical, touched - {b})
      && Booked(r, tickets[t := tickets[t].(stage := Dropped)], lockers - {b}, touched - {b})
  {
    hide FullRing, Coherent, Unique, Booked;
    var x := s[b].(holder := 0);
    LockerFacts(s, tickets, lockers, touched, b);
    StillAgrees(s, b, disk, logical, touched);
    BookSame(s, tickets, lockers, touched, b, s[b], touched - {b});
    assert s[b := s[b]] == s;
    RingKept(s, ring, b, x);
    BufferKeeps(s, b, x, disk, logical, touched, touched - {b});
    BookStage(s, tickets, lockers, touched - {b}, lockers[b], Dropped, x);
  }

  class Cache {
    var buf: seq<Buf>             // bcache.buf, then bcache.head
    var disk: seq<Data>           // device 1
    var tickets: Tickets          // the processes' uses of the cache
    ghost var ring: seq<nat>
    ghost var lockers: map<nat, nat>
    ghost var logical: seq<Data>  // each block's latest logged or written contents
    ghost var touched: set<nat>   // buffers being changed by their holder
    ghost var stamp: seq<int>
    ghost var clock: int

    ghost predicate Valid()
      reads this
    {
      && |buf| == NBUF + 1 && FullRing(buf, ring) && Unique(buf) && Booked(buf, tickets, lockers, touched)
      && Coherent(buf, disk, logical, touched) && Recency(ring, stamp, clock)
    }

    /** binit, on zeroed memory. */
    constructor (image: seq<Data>)
      ensures Valid() && disk == image && logical == image && tickets == map[]
      ensures forall a :: 0 <= a < NBUF ==> !buf[a].dirty
    {
      disk, logical, touched := image, image, {};
      var s := seq(NBUF + 1, i => Buf(0, 0, false, false, 0, 0, [], 0, 0));
      s := s[HEAD := s[HEAD].(prev := HEAD, next := HEAD)];
      ghost var r: seq<nat> := [];
      var b := 0;
      while b < NBUF
        invariant 0 <= b <= NBUF && |s| == NBUF + 1 && Links(s, r) && |r| == b
        invariant forall i :: 0 <= i < b ==> r[i] == b - 1 - i
        invariant forall i :: 0 <= i < NBUF ==>
                    s[i].dev == 0 && !s[i].valid && !s[i].dirty && s[i].refcnt == 0 && s[i].holder == 0
      {
        assert LinkAt(s, r, 0);
        PushFrontLinks(s, r, b);
        s := PushFront(s, b);
        r := [b] + r;
        b := b + 1;
      }
      forall c | 0 <= c < NBUF ensures c in r { assert r[NBUF - 1 - c] == c; }
      buf, ring, tickets, lockers := s, r, map[], map[];
      stamp, clock := seq(NBUF, i => i), NBUF;
      new;
      forall a: nat | a < NBUF ensures Refs(tickets, a) == {} { }
    }

    /** The forward scan of bget. */
    method FindCached(dev: nat, blockno: nat) returns (b: nat)
      requires Valid()
      ensures b < NBUF ==> Carries(buf, b, dev, blockno)
      ensures b >= NBUF ==> b == HEAD && forall a :: 0 <= a < NBUF ==> !Carries(buf, a, dev, blockno)
    {
      hide FullRing, Coherent, Unique, Booked, Recency;
      ghost var i := 0;
      RingStep(buf, ring, 0);
      b := buf[HEAD].next;
      while b != HEAD && !Carries(buf, b, dev, blockno)
        invariant 0 <= i <= NBUF == |ring| && |buf| == NBUF + 1 && b == Node(ring, i) <= HEAD
        invariant forall k :: 0 <= k < i ==> ring[k] < NBUF
        invariant forall k :: 0 <= k < i ==> !Carries(buf, ring[k], dev, blockno)
        decreases NBUF - i
      {
        RingStep(buf, ring, i);
        RingStep(buf, ring, i + 1);
        b := buf[b].next;
        i := i + 1;
      }
      RingStep(buf, ring, i);
      if b == HEAD {
        forall a | 0 <= a < NBUF ensures !Carries(buf, a, dev, blockno) {
          var k := Position(buf, ring, a);
        }
      }
    }

    /** The backward scan of bget: the least recently released buffer that is free and clean. */
    method FindIdle() returns (b: nat)
      requires Valid()
      ensures |stamp| == NBUF
      ensures b < NBUF ==> Idle(buf[b]) && forall a :: 0 <= a < NBUF && Idle(buf[a]) ==> stamp[b] <= stamp[a]
      ensures b >= NBUF ==> b == HEAD && forall a :: 0 <= a < NBUF ==> !Idle(buf[a])
    {
      hide FullRing, Coherent, Unique, Booked, Recency;
      Older(ring, stamp, clock, 0, 0);
      ghost var i := NBUF - 1;
      RingStep(buf, ring, NBUF);
      b := buf[HEAD].prev;
      while b != HEAD && !Idle(buf[b])
        invariant -1 <= i < NBUF == |ring| && |buf| == NBUF + 1 && b == Node(ring, i) <= HEAD
        invariant forall k :: i < k < NBUF ==> ring[k] < NBUF
        invariant forall k :: i < k < NBUF ==> !Idle(buf[ring[k]])
        decreases i
      {
        RingStep(buf, ring, i);
        b := buf[b].prev;
        i := i - 1;
      }
      if i >= 0 { RingStep(buf, ring, i); }
      forall a | 0 <= a < NBUF && Idle(buf[a]) ensures b != HEAD && stamp[b] <= stamp[a] {
        var k := Position(buf, ring, a);
        Older(ring, stamp, clock, k, i);
      }
    }

    /** bget up to acquiresleep, by process pid as ticket t: reference the buffer that carries the
        block, or recycle the least recently released idle one.  Returns NBUF for the "no buffers"
        panic. */
    method Bget(t: nat, pid: nat, dev: nat, blockno: nat) returns (b: nat)
      requires Valid() && t !in tickets && pid != 0
      modifies this`buf, this`tickets
      ensures b == NBUF ==>
                && buf == old(buf) && tickets == old(tickets)
                && (forall a :: 0 <= a < NBUF ==> !Carries(buf, a, dev, blockno) && !Idle(buf[a]))
      ensures b != NBUF ==>
                && Valid() && b < NBUF && Carries(buf, b, dev, blockno)
                && tickets == old(tickets)[t := Ticket(pid, b, dev, blockno, Wanted)]
                && (Carries(old(buf), b, dev, blockno) ==>
                      buf == old(buf)[b := old(buf)[b].(refcnt := old(buf)[b].refcnt + 1)])
                && (!Carries(old(buf), b, dev, blockno) ==>
                      && (forall a :: 0 <= a < NBUF ==> !Carries(old(buf), a, dev, blockno))
                      && Idle(old(buf)[b])
                      && (forall a :: 0 <= a < NBUF && Idle(old(buf)[a]) ==> stamp[b] <= stamp[a])
                      && buf == old(buf)[b := Recycled(old(buf)[b], dev, blockno)])
    {
      hide FullRing, Coherent, Unique, Booked, Recency;
      b := FindCached(dev, blockno);
      if b != HEAD {
        var x := buf[b].(refcnt := buf[b].refcnt + 1);
        RingKept(buf, ring, b, x);
        StillAgrees(buf, b, disk, logical, touched);
        BufferKeeps(buf, b, x, disk, logical, touched, touched);
        BookNew(buf, tickets, lockers, touched, t, Ticket(pid, b, dev, blockno, Wanted), x);
        buf := buf[b := x];
        tickets := tickets[t := Ticket(pid, b, dev, blockno, Wanted)];
        return;
      }
      b := FindIdle();
      if b != HEAD {
        var x := Recycled(buf[b], dev, blockno);
        NoTickets(buf, tickets, lockers, touched, b);
        RingKept(buf, ring, b, x);
        RecycleKeeps(buf, b, dev, blockno, disk, logical, touched);
        BookNew(buf, tickets, lockers, touched, t, Ticket(pid, b, dev, blockno, Wanted), x);
        buf := buf[b := x];
        tickets := tickets[t := Ticket(pid, b, dev, blockno, Wanted)];
      }
    }

    /** acquiresleep, once the lock is free. */
    method Acquire(t: nat)
      requires Valid() && t in tickets && tickets[t].stage.Wanted?
      requires tickets[t].b < NBUF && buf[tickets[t].b].holder == 0
      modifies this`buf, this`tickets, this`lockers
      ensures Valid() && tickets == old(tickets)[t := old(tickets)[t].(stage := Locked)]
      ensures var k := old(tickets)[t];
        && buf == old(buf)[k.b := old(buf)[k.b].(holder := k.pid)]
        && lockers == old(lockers)[k.b := t] && k.b !in touched
    {
      hide FullRing, Coherent, Unique, Booked, Recency;
      var b := tickets[t].b;
      var x := buf[b].(holder := tickets[t].pid);
      TicketFacts(buf, tickets, lockers, touched, t);
      StillAgrees(buf, b, disk, logical, touched);
      RingKept(buf, ring, b, x);
      BufferKeeps(buf, b, x, disk, logical, touched, touched);
      BookStage(buf, tickets, lockers, touched, t, Locked, x);
      lockers := lockers[b := t];
      buf := buf[b := x];
      tickets := tickets[t := tickets[t].(stage := Locked)];
    }

    /** The rest of bread: read from disk if the buffer is not valid.  Either way the buffer
        carries the block that was asked of bget, and its contents are the logical block.  iderw
        panics for other devices and blocks past the end. */
    method Fill(t: nat) returns (ok: bool)
      requires Valid() && t in tickets && tickets[t].stage.Locked?
      modifies this`buf, this`tickets
      ensures ok <==> old(tickets)[t].dev == 1 && old(tickets)[t].blockno < |disk|
      ensures !ok ==> buf == old(buf) && tickets == old(tickets)
      ensures ok ==> Valid() && tickets == old(tickets)[t := old(tickets)[t].(stage := Open)]
      ensures ok ==>
                var k := tickets[t];
                && k.b < NBUF && Carries(buf, k.b, k.dev, k.blockno) && k.blockno < |logical|
                && buf == old(buf)[k.b := old(buf)[k.b].(valid := true, data := logical[k.blockno])]
    {
      hide FullRing, Coherent, Unique, Booked, Recency;
      var b := tickets[t].b;
      TicketFacts(buf, tickets, lockers, touched, t);
      StillAgrees(buf, b, disk, logical, touched);
      if !buf[b].valid {
        if buf[b].dev != 1 || buf[b].blockno >= |disk| {
          return false;
        }
        CleanIsCurrent(buf, b, disk, logical, touched);
      }
      var x := if buf[b].valid then buf[b] else buf[b].(valid := true, data := disk[buf[b].blockno]);
      RingKept(buf, ring, b, x);
      BufferKeeps(buf, b, x, disk, logical, touched, touched);
      BookStage(buf, tickets, lockers, touched, t, Open, x);
      buf := buf[b := x];
      tickets := tickets[t := tickets[t].(stage := Open)];
      ok := true;
    }

    /** The holder changes the contents. */
    method Modify(t: nat, data: Data)
      requires Valid() && t in tickets && tickets[t].stage.Open?
      modifies this`buf, this`touched
      ensures Valid() && tickets[t].b < NBUF && touched == old(touched) + {tickets[t].b}
      ensures var b := tickets[t].b; buf == old(buf)[b := old(buf)[b].(data := data)]
    {
      hide FullRing, Coherent, Unique, Booked, Recency;
      var b := tickets[t].b;
      TicketFacts(buf, tickets, lockers, touched, t);
      var x := buf[b].(data := data);
      StillAgrees(buf, b, disk, logical, touched);
      RingKept(buf, ring, b, x);
      BufferKeeps(buf, b, x, disk, logical, touched, touched + {b});
      BookSame(buf, tickets, lockers, touched, b, x, touched + {b});
      buf := buf[b := x];
      touched := touched + {b};
    }

    /** log_write's effect on the cache: the contents become the logical block and are pinned. */
    method LogWrite(t: nat)
      requires Valid() && t in tickets && tickets[t].stage.Open?
      modifies this`buf, this`logical, this`touched
      ensures Valid() && tickets[t].b < NBUF && touched == old(touched) - {tickets[t].b}
      ensures var k := tickets[t];
        && buf == old(buf)[k.b := old(buf)[k.b].(dirty := true)]
        && k.blockno < |old(logical)| && logical == old(logical)[k.blockno := buf[k.b].data]
    {
      hide FullRing, Coherent, Unique, Booked, Recency;
      var b := tickets[t].b;
      TicketFacts(buf, tickets, lockers, touched, t);
      PublishKeeps(buf, b, disk, logical, touched);
      RingKept(buf, ring, b, buf[b].(dirty := true));
      BookSame(buf, tickets, lockers, touched, b, buf[b].(dirty := true), touched - {b});
      logical := logical[buf[b].blockno := buf[b].data];
      touched := touched - {b};
      buf := buf[b := buf[b].(dirty := true)];
    }

    /** bwrite: panics unless the caller holds the lock; otherwise the disk block and the logical
        block become the buffer's contents and the buffer is no longer pinned. */
    method Bwrite(b: nat, pid: nat) returns (ok: bool)
      requires Valid() && b < NBUF && pid != 0
      modifies this`buf, this`disk, this`logical, this`touched
      ensures ok <==> old(buf)[b].holder == pid && old(buf)[b].dev == 1 && old(buf)[b].blockno < |old(disk)|
      ensures ok ==>
                && Valid() && buf == old(buf)[b := old(buf)[b].(dirty := false, valid := true)]
                && disk == old(disk)[buf[b].blockno := buf[b].data] && |logical| == |disk|
                && logical == old(logical)[buf[b].blockno := buf[b].data] && touched == old(touched) - {b}
    {
      hide FullRing, Coherent, Unique, Booked, Recency;
      SameLength(buf, disk, logical, touched);
      if buf[b].holder != pid {
        return false;
      }
      if buf[b].dev != 1 || buf[b].blockno >= |disk| {
        return false;
      }
      var x := buf[b].(dirty := false, valid := true);
      WriteBackKeeps(buf, b, disk, logical, touched);
      RingKept(buf, ring, b, x);
      BookSame(buf, tickets, lockers, touched, b, x, touched - {b});
      disk := disk[buf[b].blockno := buf[b].data];
      logical := logical[buf[b].blockno := buf[b].data];
      touched := touched - {b};
      buf := buf[b := x];
      ok := true;
    }

    /** The contents of a buffer are those of the logical block it caches. */
    ghost predicate Published(b: nat)
      requires b < |buf|
      reads this
    {
      buf[b].valid ==> buf[b].blockno < |logical| && buf[b].data == logical[buf[b].blockno]
    }

    /** brelse, first part: panics unless the caller holds the lock; otherwise gives it up.  The
        cache stays coherent exactly when what is released has been logged or written. */
    method Unlock(b: nat, pid: nat) returns (ok: bool)
      requires Valid() && b < NBUF && pid != 0
      modifies this`buf, this`tickets, this`lockers, this`touched
      ensures ok <==> old(buf)[b].holder == pid
      ensures !ok ==> Valid() && buf == old(buf) && tickets == old(tickets)
      ensures ok ==> buf == old(buf)[b := old(buf)[b].(holder := 0)] && (Valid() <==> old(Published(b)))
      ensures ok ==> lockers == old(lockers) - {b} && touched == old(touched) - {b}
      ensures ok ==>
                && b in old(lockers) && old(lockers)[b] in old(tickets)
                && HoldsIt(old(buf), old(tickets), b, old(lockers)[b])
                && tickets == old(tickets)[old(lockers)[b] := old(tickets)[old(lockers)[b]].(stage := Dropped)]
    {
      hide FullRing, Coherent, Unique, Booked, Recency, Released, HasLock;
      if buf[b].holder != pid {
        return false;
      }
      LockerFacts(buf, tickets, lockers, touched, b);
      StillAgrees(buf, b, disk, logical, touched);
      if Published(b) {
        ReleaseKeeps(buf, ring, tickets, lockers, disk, logical, touched, b);
      }
      TicketDropped(buf, tickets, lockers, touched, b);
      tickets := Released(tickets, b);
      buf := buf[b := buf[b].(holder := 0)];
      lockers := lockers - {b};
      touched := touched - {b};
      assert Valid() ==> Coherent(buf, disk, logical, touched) && buf[b].valid == old(buf)[b].valid;
      if Valid() { StillAgrees(buf, b, disk, logical, touched); }
      ok := true;
    }

    /** brelse, second part, under bcache.lock: drop the reference, and when it was the last one
        make the buffer the most recently used. */
    method Unref(t: nat)
      requires Valid() && t in tickets && tickets[t].stage.Dropped?
      modifies this`buf, this`tickets, this`ring, this`stamp, this`clock
      ensures Valid() && tickets == old(tickets) - {t}
      ensures var b := old(tickets)[t].b;
        && b < NBUF && SameBuffers(old(buf)[b := old(buf)[b].(refcnt := old(buf)[b].refcnt - 1)], buf)
        && (old(buf)[b].refcnt == 1 ==> ring[0] == b && stamp == old(stamp)[b := clock] && clock > old(clock))
        && (old(buf)[b].refcnt != 1 ==> ring == old(ring) && stamp == old(stamp))
    {
      hide FullRing, Coherent, Unique, Booked, Recency;
      var b := tickets[t].b;
      TicketFacts(buf, tickets, lockers, touched, t);
      var x := buf[b].(refcnt := buf[b].refcnt - 1);
      StillAgrees(buf, b, disk, logical, touched);
      RingKept(buf, ring, b, x);
      BufferKeeps(buf, b, x, disk, logical, touched, touched);
      BookGone(buf, tickets, lockers, touched, t, x);
      buf := buf[b := x];
      tickets := tickets - {t};
      if buf[b].refcnt == 0 {
        ghost var i := Position(buf, ring, b);
        MoveToFront(buf, ring, i);
        Relink(buf, PushFront(Unlink(buf, b), b), disk, logical, touched);
        BookRelinked(buf, PushFront(Unlink(buf, b), b), tickets, lockers, touched);
        Older(ring, stamp, clock, i, i);
        Fresher(ring, stamp, clock, i);
        buf := PushFront(Unlink(buf, b), b);
        ring := [b] + Without(ring, i);
        clock := clock + 1;
        stamp := stamp[b := clock];
      }
    }
  }

  /** bget's new identity for an idle buffer. */
  function Recycled(b: Buf, dev: nat, blockno: nat): Buf {
    b.(dev := dev, blockno := blockno, valid := false, dirty := false, refcnt := 1)
  }

  /** The holder of buffer b has given up its lock. */
  function Released(tickets: Tickets, b: nat): Tickets {
    map u | u in tickets ::
      if tickets[u].b == b && HasLock(tickets[u]) then tickets[u].(stage := Dropped) else tickets[u]
  }

  lemma TicketDropped(s: seq<Buf>, tickets: Tickets, lockers: map<nat, nat>, touched: set<nat>, b: nat)
    requires |s| == NBUF + 1 && Booked(s, tickets, lockers, touched) && b < NBUF && s[b].holder != 0
    ensures b in lockers && lockers[b] in tickets
    ensures Released(tickets, b) == tickets[lockers[b] := tickets[lockers[b]].(stage := Dropped)]
  {
    LockerFacts(s, tickets, lockers, touched, b);
  }
}
