/** Whole runs of the buffer cache, in any interleaving of any processes, are runs on plain blocks
    with a lock for each block: caching, recycling and the order of the ring do not show. */
module CacheRuns {
  import opened Params
  import opened BufferRing
  import opened CacheTickets
  import opened BufferCache

  /** bget, acquiresleep and the rest of bread; the holder's changes, log_write and bwrite; the two
      parts of brelse.  t names one use of the cache, from its Get to its Unref. */
  datatype Event =
    | Get(t: nat, pid: nat, dev: nat, blockno: nat)
    | Lock(t: nat)
    | Read(t: nat)
    | Change(t: nat, data: Data)
    | Log(t: nat)
    | Write(t: nat)
    | Unlock(t: nat)
    | Unref(t: nat)

  /** Ignored: the event does not apply now.  Panic: a block that the disk does not have. */
  datatype Outcome = Ignored | Done | Saw(data: Data) | Panic | NoBuffers

  /** One use of a block, without a cache: contents are what its process sees once it has read. */
  datatype Use = Use(pid: nat, dev: nat, blockno: nat, stage: Stage, contents: Data)

  /** changed are the uses with changes that are neither logged nor written; log_write asks that a
      process does not give up its lock on them, and Cache.Unlock says what happens if it does. */
  datatype Plain = Plain(blocks: seq<Data>, uses: map<nat, Use>, changed: set<nat>)

  predicate Uses(u: Use, dev: nat, blockno: nat) {
    u.dev == dev && u.blockno == blockno && (u.stage.Locked? || u.stage.Open?)
  }

  predicate BlockFree(p: Plain, dev: nat, blockno: nat) {
    forall t :: t in p.uses ==> !Uses(p.uses[t], dev, blockno)
  }

  function SetUse(p: Plain, t: nat, u: Use): Plain {
    p.(uses := p.uses[t := u])
  }

  predicate At(p: Plain, t: nat, stage: Stage) {
    t in p.uses && p.uses[t].stage == stage
  }

  function PlainStep(p: Plain, e: Event): (Plain, Outcome) {
    match e
    case Get(t, pid, dev, blockno) =>
      if t in p.uses || pid == 0 || dev == 0 then (p, Ignored)
      else (SetUse(p, t, Use(pid, dev, blockno, Wanted, [])), Done)
    case Lock(t) =>
      if At(p, t, Wanted) && BlockFree(p, p.uses[t].dev, p.uses[t].blockno) then
        (SetUse(p, t, p.uses[t].(stage := Locked)), Done)
      else (p, Ignored)
    case Read(t) =>
      if !At(p, t, Locked) then (p, Ignored)
      else if p.uses[t].dev != 1 || p.uses[t].blockno >= |p.blocks| then (p, Panic)
      else
        var data := p.blocks[p.uses[t].blockno];
        (SetUse(p, t, p.uses[t].(stage := Open, contents := data)), Saw(data))
    case Change(t, data) =>
      if At(p, t, Open) then (SetUse(p, t, p.uses[t].(contents := data)).(changed := p.changed + {t}), Done)
      else (p, Ignored)
    case Log(t) => Publish(p, t)
    case Write(t) => Publish(p, t)
    case Unlock(t) =>
      if At(p, t, Locked) || (At(p, t, Open) && t !in p.changed) then
        (SetUse(p, t, p.uses[t].(stage := Dropped, contents := [])), Done)
      else (p, Ignored)
    case Unref(t) =>
      if At(p, t, Dropped) then (p.(uses := p.uses - {t}), Done) else (p, Ignored)
  }

  /** log_write and bwrite: the block becomes what its process sees. */
  function Publish(p: Plain, t: nat): (Plain, Outcome) {
    if At(p, t, Open) && p.uses[t].blockno < |p.blocks| then
      (Plain(p.blocks[p.uses[t].blockno := p.uses[t].contents], p.uses, p.changed - {t}), Done)
    else (p, Ignored)
  }

  predicate Stops(o: Outcome) { o == Panic || o == NoBuffers }

  function PlainRun(p: Plain, events: seq<Event>): (Plain, seq<Outcome>) {
    if events == [] then (p, [])
    else
      var last := |events| - 1;
      var (q, os) := PlainRun(p, events[..last]);
      var (r, o) := PlainStep(q, events[last]);
      (r, os + [o])
  }

  // ----- the cache seen as plain blocks -----

  ghost function UseOf(s: seq<Buf>, k: Ticket): Use {
    Use(k.pid, k.dev, k.blockno, k.stage, if k.stage.Open? && k.b < |s| then s[k.b].data else [])
  }

  ghost function Shown(s: seq<Buf>, tickets: Tickets, logical: seq<Data>, changed: set<nat>): Plain {
    Plain(logical, map t | t in tickets :: UseOf(s, tickets[t]), changed)
  }

  /** Tickets for a real device. */
  ghost predicate Real(tickets: Tickets) {
    forall t :: t in tickets ==> tickets[t].dev != 0
  }

  /** A buffer's lock is free exactly when no use of its block has it. */
  lemma LockIsBlockFree(s: seq<Buf>, tickets: Tickets, lockers: map<nat, nat>, touched: set<nat>, logical: seq<Data>,
                        changed: set<nat>, t: nat)
    requires |s| == NBUF + 1 && Booked(s, tickets, lockers, touched) && Unique(s) && Real(tickets) && t in tickets
    requires tickets[t].b < NBUF
    ensures s[tickets[t].b].holder == 0 <==>
      BlockFree(Shown(s, tickets, logical, changed), tickets[t].dev, tickets[t].blockno)
  {
    var p, k := Shown(s, tickets, logical, changed), tickets[t];
    TicketFacts(s, tickets, lockers, touched, t);
    if s[k.b].holder != 0 {
      LockerFacts(s, tickets, lockers, touched, k.b);
      var u := lockers[k.b];
      TicketFacts(s, tickets, lockers, touched, u);
      assert Uses(p.uses[u], k.dev, k.blockno);
    } else {
      forall u | u in p.uses ensures !Uses(p.uses[u], k.dev, k.blockno) {
        TicketFacts(s, tickets, lockers, touched, u);
        SameBuffer(s, tickets[u].b, k.b);
      }
    }
  }

  lemma SameBuffer(s: seq<Buf>, a: nat, b: nat)
    requires |s| == NBUF + 1 && Unique(s) && a < NBUF && b < NBUF && s[a].dev != 0
    ensures s[a].dev == s[b].dev && s[a].blockno == s[b].blockno ==> a == b
  {
    assert a < b ==> Differ(s[a], s[b]);
    assert b < a ==> Differ(s[b], s[a]);
  }

  // ----- what a change of the cache does to the view -----

  /** The uses other than t look the same. */
  ghost predicate OthersSame(s: seq<Buf>, r: seq<Buf>, tickets: Tickets, t: nat) {
    forall u :: u in tickets && u != t ==> UseOf(r, tickets[u]) == UseOf(s, tickets[u])
  }

  lemma ViewSet(s: seq<Buf>, r: seq<Buf>, tickets: Tickets, logical: seq<Data>, changed: set<nat>, t: nat, k: Ticket)
    requires OthersSame(s, r, tickets, t)
    ensures Shown(r, tickets[t := k], logical, changed) == SetUse(Shown(s, tickets, logical, changed), t, UseOf(r, k))
  {
    hide UseOf;
  }

  lemma ViewGone(s: seq<Buf>, r: seq<Buf>, tickets: Tickets, logical: seq<Data>, changed: set<nat>, t: nat)
    requires OthersSame(s, r, tickets, t)
    ensures Shown(r, tickets - {t}, logical, changed).uses == Shown(s, tickets, logical, changed).uses - {t}
  {
    hide UseOf;
  }

  /** Another use that has read its block has another buffer, so one holder's changes do not show. */
  lemma OthersKept(s: seq<Buf>, tickets: Tickets, lockers: map<nat, nat>, touched: set<nat>, t: nat, x: Buf)
    requires |s| == NBUF + 1 && Booked(s, tickets, lockers, touched) && t in tickets && HasLock(tickets[t])
    requires tickets[t].b < NBUF
    ensures OthersSame(s, s[tickets[t].b := x], tickets, t)
  {
    forall u | u in tickets && u != t && tickets[u].stage.Open?
      ensures UseOf(s[tickets[t].b := x], tickets[u]) == UseOf(s, tickets[u])
    {
      TicketFacts(s, tickets, lockers, touched, t);
      TicketFacts(s, tickets, lockers, touched, u);
    }
  }

  /** A change that leaves data alone, or that befalls a buffer without tickets. */
  lemma OthersUnmoved(s: seq<Buf>, tickets: Tickets, t: nat, b: nat, x: Buf)
    requires b < |s| && (x.data == s[b].data || forall u :: u in tickets ==> tickets[u].b != b)
    ensures OthersSame(s, s[b := x], tickets, t)
  { }

  lemma OthersRelinked(s: seq<Buf>, r: seq<Buf>, tickets: Tickets, t: nat)
    requires SameBuffers(s, r)
    ensures OthersSame(s, r, tickets, t)
  { }

  // ----- one event -----

  /** changed names the holders of all buffers that are being changed. */
  ghost predicate Ready(c: Cache, changed: set<nat>)
    reads c
  {
    c.Valid() && Real(c.tickets) && forall a :: a in c.touched ==> a in c.lockers && c.lockers[a] in changed
  }

  ghost function ViewOf(c: Cache, changed: set<nat>): Plain
    reads c
  {
    Shown(c.buf, c.tickets, c.logical, changed)
  }

  /** No ticket that stays changes hands, buffer or block. */
  ghost predicate Kept(before: Tickets, after: Tickets) {
    forall t :: t in before && t in after ==> after[t] == before[t].(stage := after[t].stage)
  }

  /** A ticket seen as a use. */
  lemma UseIs(s: seq<Buf>, k: Ticket)
    requires k.b < |s|
    ensures UseOf(s, k) == Use(k.pid, k.dev, k.blockno, k.stage, if k.stage.Open? then s[k.b].data else [])
  { }

  /** Publishing changes no use. */
  lemma ViewPublished(s: seq<Buf>, r: seq<Buf>, tickets: Tickets, logical: seq<Data>, changed: set<nat>, t: nat)
    requires t in tickets && OthersSame(s, r, tickets, t) && UseOf(r, tickets[t]) == UseOf(s, tickets[t])
    ensures Shown(r, tickets, logical, changed).uses == Shown(s, tickets, logical, changed).uses
  {
    hide UseOf;
  }

  method PerformGet(c: Cache, e: Event, changed: set<nat>) returns (o: Outcome)
    requires Ready(c, changed) && e.Get?
    modifies c
    ensures o == NoBuffers ==>
      && PlainStep(old(ViewOf(c, changed)), e).1 == Done && |c.buf| == NBUF + 1
      && Ready(c, changed) && ViewOf(c, changed) == old(ViewOf(c, changed))
      && forall a :: 0 <= a < NBUF ==> !Carries(c.buf, a, e.dev, e.blockno) && !Idle(c.buf[a])
    ensures o != NoBuffers ==>
      && Ready(c, changed) && (ViewOf(c, changed), o) == PlainStep(old(ViewOf(c, changed)), e)
      && Kept(old(c.tickets), c.tickets)
  {
    hide Booked, FullRing, Unique, Coherent, Recency, UseOf;
    var t := e.t;
    if t in c.tickets || e.pid == 0 || e.dev == 0 { return Ignored; }
    ghost var s, tickets := c.buf, c.tickets;
    var b := c.Bget(t, e.pid, e.dev, e.blockno);
    if b == NBUF { return NoBuffers; }
    if s[b].refcnt == 0 { NoTickets(s, tickets, c.lockers, c.touched, b); }
    OthersUnmoved(s, tickets, t, b, c.buf[b]);
    ViewSet(s, c.buf, tickets, c.logical, changed, t, c.tickets[t]);
    UseIs(c.buf, c.tickets[t]);
    o := Done;
  }

  method PerformLock(c: Cache, t: nat, changed: set<nat>) returns (o: Outcome)
    requires Ready(c, changed)
    modifies c
    ensures Ready(c, changed) && (ViewOf(c, changed), o) == PlainStep(old(ViewOf(c, changed)), Lock(t))
    ensures Kept(old(c.tickets), c.tickets)
  {
    hide Booked, FullRing, Unique, Coherent, Recency, UseOf, BlockFree;
    if t !in c.tickets { return Ignored; }
    TicketFacts(c.buf, c.tickets, c.lockers, c.touched, t);
    UseIs(c.buf, c.tickets[t]);
    LockIsBlockFree(c.buf, c.tickets, c.lockers, c.touched, c.logical, changed, t);
    if !c.tickets[t].stage.Wanted? || c.buf[c.tickets[t].b].holder != 0 { return Ignored; }
    ghost var s, tickets := c.buf, c.tickets;
    c.Acquire(t);
    OthersUnmoved(s, tickets, t, tickets[t].b, c.buf[tickets[t].b]);
    ViewSet(s, c.buf, tickets, c.logical, changed, t, c.tickets[t]);
    UseIs(c.buf, c.tickets[t]);
    o := Done;
  }

  /** What bread returns is the block that was asked for, with its latest contents. */
  method PerformRead(c: Cache, t: nat, changed: set<nat>) returns (o: Outcome)
    requires Ready(c, changed)
    modifies c
    ensures o == PlainStep(old(ViewOf(c, changed)), Read(t)).1 && Kept(old(c.tickets), c.tickets)
    ensures !Stops(o) ==> Ready(c, changed) && ViewOf(c, changed) == PlainStep(old(ViewOf(c, changed)), Read(t)).0
    ensures o.Saw? ==>
      && t in c.tickets && |c.buf| == NBUF + 1 && Honoured(c.buf, c.tickets[t])
      && c.buf[c.tickets[t].b].data == o.data
  {
    hide Booked, FullRing, Unique, Coherent, Recency, UseOf, Refs;
    if t !in c.tickets { return Ignored; }
    TicketFacts(c.buf, c.tickets, c.lockers, c.touched, t);
    SameLength(c.buf, c.disk, c.logical, c.touched);
    UseIs(c.buf, c.tickets[t]);
    if !c.tickets[t].stage.Locked? { return Ignored; }
    ghost var s, tickets := c.buf, c.tickets;
    var ok := c.Fill(t);
    if !ok { return Panic; }
    TicketFacts(c.buf, c.tickets, c.lockers, c.touched, t);
    OthersKept(s, tickets, c.lockers, c.touched, t, c.buf[tickets[t].b]);
    ViewSet(s, c.buf, tickets, c.logical, changed, t, c.tickets[t]);
    UseIs(c.buf, c.tickets[t]);
    o := Saw(c.buf[c.tickets[t].b].data);
  }

  method PerformChange(c: Cache, e: Event, changed: set<nat>) returns (o: Outcome, now: set<nat>)
    requires Ready(c, changed) && e.Change?
    modifies c
    ensures Ready(c, now) && (ViewOf(c, now), o) == PlainStep(old(ViewOf(c, changed)), e)
    ensures Kept(old(c.tickets), c.tickets)
  {
    hide Booked, FullRing, Unique, Coherent, Recency, UseOf;
    var t := e.t;
    if t !in c.tickets { return Ignored, changed; }
    TicketFacts(c.buf, c.tickets, c.lockers, c.touched, t);
    UseIs(c.buf, c.tickets[t]);
    if !c.tickets[t].stage.Open? { return Ignored, changed; }
    ghost var s, touched := c.buf, c.touched;
    c.Modify(t, e.data);
    OthersKept(s, c.tickets, c.lockers, touched, t, c.buf[c.tickets[t].b]);
    now := changed + {t};
    ViewSet(s, c.buf, c.tickets, c.logical, now, t, c.tickets[t]);
    assert c.tickets[t := c.tickets[t]] == c.tickets;
    UseIs(c.buf, c.tickets[t]);
    o := Done;
  }

  method PerformLog(c: Cache, t: nat, changed: set<nat>) returns (o: Outcome, now: set<nat>)
    requires Ready(c, changed)
    modifies c
    ensures Ready(c, now) && (ViewOf(c, now), o) == Publish(old(ViewOf(c, changed)), t)
    ensures Kept(old(c.tickets), c.tickets)
  {
    hide Booked, FullRing, Unique, Coherent, Recency, UseOf;
    if t !in c.tickets { return Ignored, changed; }
    TicketFacts(c.buf, c.tickets, c.lockers, c.touched, t);
    UseIs(c.buf, c.tickets[t]);
    if !c.tickets[t].stage.Open? { return Ignored, changed; }
    ghost var s, touched := c.buf, c.touched;
    c.LogWrite(t);
    now := changed - {t};
    HoldersDiffer(s, c.tickets, c.lockers, touched, t);
    OthersUnmoved(s, c.tickets, t, c.tickets[t].b, c.buf[c.tickets[t].b]);
    UseIs(c.buf, c.tickets[t]);
    ViewPublished(s, c.buf, c.tickets, c.logical, now, t);
    o := Done;
  }

  /** Other buffers have other holders. */
  lemma HoldersDiffer(s: seq<Buf>, tickets: Tickets, lockers: map<nat, nat>, touched: set<nat>, t: nat)
    requires |s| == NBUF + 1 && Booked(s, tickets, lockers, touched) && t in tickets
    ensures forall a :: a in lockers && a != tickets[t].b ==> lockers[a] != t
  {
    forall a | a in lockers && a != tickets[t].b ensures lockers[a] != t {
      assert HoldsIt(s, tickets, a, lockers[a]);
    }
  }

  method PerformWrite(c: Cache, t: nat, changed: set<nat>) returns (o: Outcome, now: set<nat>)
    requires Ready(c, changed)
    modifies c
    ensures Ready(c, now) && (ViewOf(c, now), o) == Publish(old(ViewOf(c, changed)), t)
    ensures Kept(old(c.tickets), c.tickets)
  {
    hide Booked, FullRing, Unique, Coherent, Recency, UseOf;
    if t !in c.tickets { return Ignored, changed; }
    TicketFacts(c.buf, c.tickets, c.lockers, c.touched, t);
    UseIs(c.buf, c.tickets[t]);
    if !c.tickets[t].stage.Open? { return Ignored, changed; }
    ghost var s, touched := c.buf, c.touched;
    StillAgrees(s, c.tickets[t].b, c.disk, c.logical, c.touched);
    var ok := c.Bwrite(c.tickets[t].b, c.tickets[t].pid);
    now := changed - {t};
    HoldersDiffer(s, c.tickets, c.lockers, touched, t);
    OthersUnmoved(s, c.tickets, t, c.tickets[t].b, c.buf[c.tickets[t].b]);
    UseIs(c.buf, c.tickets[t]);
    ViewPublished(s, c.buf, c.tickets, c.logical, now, t);
    o := Done;
  }

  method PerformUnlock(c: Cache, t: nat, changed: set<nat>) returns (o: Outcome)
    requires Ready(c, changed)
    modifies c
    ensures Ready(c, changed) && (ViewOf(c, changed), o) == PlainStep(old(ViewOf(c, changed)), Unlock(t))
    ensures Kept(old(c.tickets), c.tickets)
  {
    hide Booked, FullRing, Unique, Coherent, Recency, UseOf;
    if t !in c.tickets { return Ignored; }
    TicketFacts(c.buf, c.tickets, c.lockers, c.touched, t);
    UseIs(c.buf, c.tickets[t]);
    if !HasLock(c.tickets[t]) || (c.tickets[t].stage.Open? && t in changed) { return Ignored; }
    ghost var s, tickets, b := c.buf, c.tickets, c.tickets[t].b;
    StillAgrees(s, b, c.disk, c.logical, c.touched);
    var ok := c.Unlock(c.tickets[t].b, c.tickets[t].pid);
    OthersUnmoved(s, tickets, t, b, c.buf[b]);
    ViewSet(s, c.buf, tickets, c.logical, changed, t, c.tickets[t]);
    UseIs(c.buf, c.tickets[t]);
    o := Done;
  }

  method PerformUnref(c: Cache, t: nat, changed: set<nat>) returns (o: Outcome)
    requires Ready(c, changed)
    modifies c
    ensures Ready(c, changed) && (ViewOf(c, changed), o) == PlainStep(old(ViewOf(c, changed)), Unref(t))
    ensures Kept(old(c.tickets), c.tickets)
  {
    hide Booked, FullRing, Unique, Coherent, Recency, UseOf, SameBuffers;
    if t !in c.tickets { return Ignored; }
    TicketFacts(c.buf, c.tickets, c.lockers, c.touched, t);
    UseIs(c.buf, c.tickets[t]);
    if !c.tickets[t].stage.Dropped? { return Ignored; }
    ghost var s, tickets, b := c.buf, c.tickets, c.tickets[t].b;
    ghost var x := s[b].(refcnt := s[b].refcnt - 1);
    c.Unref(t);
    OthersUnmoved(s, tickets, t, b, x);
    OthersRelinked(s[b := x], c.buf, tickets, t);
    ViewGone(s, c.buf, tickets, c.logical, changed, t);
    o := Done;
  }

  /** bget of a block that no buffer carries, while every buffer is referenced or dirty. */
  ghost predicate OutOfBuffers(s: seq<Buf>, e: Event) {
    && e.Get? && |s| == NBUF + 1
    && forall a :: 0 <= a < NBUF ==> !Carries(s, a, e.dev, e.blockno) && !Idle(s[a])
  }

  /** Any event does to the cache what it does to plain blocks, and a ticket that stays keeps its
      process, buffer and block; only bget may fail for another reason, when every buffer is
      referenced or dirty. */
  method Perform(c: Cache, e: Event, changed: set<nat>) returns (o: Outcome, now: set<nat>)
    requires Ready(c, changed)
    modifies c
    ensures o == NoBuffers ==> OutOfBuffers(c.buf, e) && Ready(c, now) && ViewOf(c, now) == old(ViewOf(c, changed))
    ensures o != NoBuffers ==> o == PlainStep(old(ViewOf(c, changed)), e).1 && Kept(old(c.tickets), c.tickets)
    ensures !Stops(o) ==> Ready(c, now) && ViewOf(c, now) == PlainStep(old(ViewOf(c, changed)), e).0
  {
    hide Ready, Shown, UseOf, SetUse;
    now := changed;
    match e
    case Get(_, _, _, _) => o := PerformGet(c, e, changed);
    case Lock(t) => o := PerformLock(c, t, changed);
    case Read(t) => o := PerformRead(c, t, changed);
    case Change(_, _) => o, now := PerformChange(c, e, changed);
    case Log(t) => o, now := PerformLog(c, t, changed);
    case Write(t) => o, now := PerformWrite(c, t, changed);
    case Unlock(t) => o := PerformUnlock(c, t, changed);
    case Unref(t) => o := PerformUnref(c, t, changed);
  }

  /** Every interleaving of any processes' uses of a new cache: what each of them reads is what
      plain blocks would show, namely the latest logged or written contents of the block it asked
      for; and while a use lasts its buffer carries that block.  The run ends early at a block the
      disk does not have, or for want of buffers. */
  method Run(image: seq<Data>, events: seq<Event>) returns (c: Cache, outcomes: seq<Outcome>, changed: set<nat>)
    ensures |outcomes| <= |events| && fresh(c)
    ensures |outcomes| < |events| ==> |outcomes| > 0 && Stops(outcomes[|outcomes| - 1])
    ensures |outcomes| > 0 ==>
      var n := |outcomes| - 1;
      && outcomes[..n] == PlainRun(Plain(image, map[], {}), events[..n]).1
      && (outcomes[n] != NoBuffers ==> outcomes == PlainRun(Plain(image, map[], {}), events[..n + 1]).1)
      && (outcomes[n] == NoBuffers ==>
            && OutOfBuffers(c.buf, events[n]) && Ready(c, changed)
            && ViewOf(c, changed) == PlainRun(Plain(image, map[], {}), events[..n]).0)
    ensures (|outcomes| == 0 || !Stops(outcomes[|outcomes| - 1])) ==>
      && |outcomes| == |events| && Ready(c, changed) && AllHonoured(c.buf, c.tickets)
      && ViewOf(c, changed) == PlainRun(Plain(image, map[], {}), events).0
  {
    hide Shown, UseOf, PlainStep, Ready;
    c := new Cache(image);
    outcomes, changed := [], {};
    NewView(c, image);
    var k := 0;
    while k < |events|
      invariant k == |outcomes| <= |events| && Ready(c, changed) && fresh(c)
      invariant (ViewOf(c, changed), outcomes) == PlainRun(Plain(image, map[], {}), events[..k])
      invariant k == 0 || !Stops(outcomes[k - 1])
      invariant k > 0 ==> outcomes[..k - 1] == PlainRun(Plain(image, map[], {}), events[..k - 1]).1
    {
      assert events[..k + 1][..k] == events[..k];
      var o, now := Perform(c, events[k], changed);
      assert (outcomes + [o])[..k] == outcomes;
      outcomes, changed, k := outcomes + [o], now, k + 1;
      if Stops(o) { return; }
    }
    assert events[..k] == events;
    ReadyHonours(c, changed);
  }

  /** A use keeps its process and its block until its Unref. */
  lemma {:induction false} UseLasts(p: Plain, events: seq<Event>, t: nat)
    requires t in p.uses && forall k :: 0 <= k < |events| ==> events[k] != Unref(t)
    ensures var u, uses := p.uses[t], PlainRun(p, events).0.uses;
      t in uses && uses[t].pid == u.pid && uses[t].dev == u.dev && uses[t].blockno == u.blockno
  {
    if events != [] {
      UseLasts(p, events[..|events| - 1], t);
    }
  }

  lemma NewView(c: Cache, image: seq<Data>)
    requires c.Valid() && c.logical == image && c.tickets == map[]
    ensures Ready(c, {}) && ViewOf(c, {}) == Plain(image, map[], {})
  { }

  lemma ReadyHonours(c: Cache, changed: set<nat>)
    requires Ready(c, changed)
    ensures |c.buf| == NBUF + 1 && AllHonoured(c.buf, c.tickets)
  { }
}
