/** Whole runs of a pipe, in any interleaving of any reads and writes, each of them possibly asleep
    in the middle: they are runs on a plain queue of bytes. */
module PipeRuns {
  import opened Pipe

  /** Every write call has sent exactly a prefix of its bytes, all of them just when it is done. */
  ghost predicate WriteLedger(writes: seq<WriteCall>, accepted: seq<Sent>) {
    && (forall w: nat :: w < |writes| ==> WriteEntry(writes[w], SentBy(accepted, w)))
    && (forall i :: 0 <= i < |accepted| ==> accepted[i].from < |writes|)
  }

  ghost predicate WriteEntry(c: WriteCall, sent: seq<Byte>) {
    && c.next <= |c.addr| && sent == c.addr[..c.next]
    && (c.status == Done <==> c.next == |c.addr|)
  }

  lemma WriteLedgerAt(writes: seq<WriteCall>, accepted: seq<Sent>, w: nat)
    requires WriteLedger(writes, accepted) && w < |writes|
    ensures WriteEntry(writes[w], SentBy(accepted, w))
  { }

  lemma WritesGrow(writes: seq<WriteCall>, accepted: seq<Sent>, w: nat, now: WriteCall, start: nat)
    requires WriteLedger(writes, accepted) && w <= |writes|
    requires start == (if w < |writes| then writes[w].next else 0)
    requires w < |writes| ==> writes[w].addr == now.addr
    requires start <= now.next <= |now.addr| && (now.status == Done <==> now.next == |now.addr|)
    ensures WriteLedger(if w < |writes| then writes[w := now] else writes + [now],
                   accepted + Tagged(now.addr[start..now.next], w))
  {
    var part := now.addr[start..now.next];
    var all := if w < |writes| then writes[w := now] else writes + [now];
    if w == |writes| { SentByNone(accepted, w); }
    forall x: nat | x < |all| ensures WriteEntry(all[x], SentBy(accepted + Tagged(part, w), x)) {
      SentTagged(accepted, part, w, x);
      if x == w {
        assert now.addr[..start] + part == now.addr[..now.next];
      } else {
        assert WriteEntry(writes[x], SentBy(accepted, x));
      }
    }
  }

  /** Every read call got exactly the bytes that left the pipe for it, at most as many as it asked
      for, and none unless it is done. */
  ghost predicate ReadLedger(calls: seq<ReadCall>, taken: seq<Sent>) {
    && (forall r: nat :: r < |calls| ==> ReadEntry(calls[r], SentBy(taken, r)))
    && (forall i :: 0 <= i < |taken| ==> taken[i].from < |calls|)
  }

  ghost predicate ReadEntry(c: ReadCall, sent: seq<Byte>) {
    c.got == sent && (c.status != Done ==> c.got == []) && (|c.got| <= c.n || c.got == [])
  }

  lemma ReadsGrow(calls: seq<ReadCall>, taken: seq<Sent>, r: nat, now: ReadCall)
    requires ReadLedger(calls, taken) && r <= |calls| && (r < |calls| ==> calls[r].got == [])
    requires (now.status != Done ==> now.got == []) && (|now.got| <= now.n || now.got == [])
    ensures ReadLedger(if r < |calls| then calls[r := now] else calls + [now], taken + Tagged(now.got, r))
  {
    var all := if r < |calls| then calls[r := now] else calls + [now];
    if r == |calls| { SentByNone(taken, r); } else { assert ReadEntry(calls[r], SentBy(taken, r)); }
    forall x: nat | x < |all| ensures ReadEntry(all[x], SentBy(taken + Tagged(now.got, r), x)) {
      SentTagged(taken, now.got, r, x);
      if x != r { assert ReadEntry(calls[x], SentBy(taken, x)); }
    }
  }

  // ----- a pipe without a ring -----

  /** The bytes accepted and taken so far with their calls, who sleeps, and how the calls stand. */
  datatype Plain = Plain(
    accepted: seq<Sent>, taken: seq<Sent>, readopen: bool, writeopen: bool,
    sleepingWriters: set<nat>, sleepingReaders: set<nat>, writeCalls: seq<WriteCall>, readCalls: seq<ReadCall>)

  function Backlog(p: Plain): int { |p.accepted| - |p.taken| }

  function Min(a: int, b: int): int { if a < b then a else b }

  /** A write call that runs on from byte c.next: it puts in what there is room for. */
  function WriteOn(p: Plain, w: nat, c: WriteCall, killed: bool): (Plain, WriteCall)
    requires c.next <= |c.addr| && Backlog(p) <= PIPESIZE
  {
    var next := Min(|c.addr|, c.next + PIPESIZE - Backlog(p));
    var status := if next == |c.addr| then Done else if !p.readopen || killed then Failed else Asleep;
    (p.(accepted := p.accepted + Tagged(c.addr[c.next..next], w),
        sleepingReaders := if status == Failed then p.sleepingReaders else {},
        sleepingWriters := p.sleepingWriters + if status == Asleep then {w} else {}),
     WriteCall(c.addr, next, status))
  }

  /** A read call that runs on: it sleeps on an empty pipe that can be written, and otherwise takes
      the oldest bytes. */
  function ReadOn(p: Plain, r: nat, n: int, killed: bool): (Plain, ReadCall)
    requires 0 <= Backlog(p)
  {
    if Backlog(p) == 0 && p.writeopen then
      if killed then (p, ReadCall(n, [], Failed))
      else (p.(sleepingReaders := p.sleepingReaders + {r}), ReadCall(n, [], Asleep))
    else
      var k := if n < 0 then 0 else Min(n, Backlog(p));
      var got := Bytes(p.accepted)[|p.taken|..|p.taken| + k];
      (p.(taken := p.taken + Tagged(got, r), sleepingWriters := {}), ReadCall(n, got, Done))
  }

  predicate Fits(p: Plain) { 0 <= Backlog(p) <= PIPESIZE }

  predicate RousedWriter(p: Plain, w: nat) {
    w < |p.writeCalls| && p.writeCalls[w].status == Asleep && w !in p.sleepingWriters
    && p.writeCalls[w].next <= |p.writeCalls[w].addr|
  }

  predicate RousedReader(p: Plain, r: nat) {
    r < |p.readCalls| && p.readCalls[r].status == Asleep && r !in p.sleepingReaders
  }

  function PlainStep(p: Plain, e: Event): Plain
    requires Fits(p)
  {
    match e
    case Write(addr, killed) =>
      var (q, c) := WriteOn(p, |p.writeCalls|, WriteCall(addr, 0, Asleep), killed);
      q.(writeCalls := p.writeCalls + [c])
    case ResumeWrite(w, killed) =>
      if !RousedWriter(p, w) then p
      else
        var (q, c) := WriteOn(p, w, p.writeCalls[w], killed);
        q.(writeCalls := p.writeCalls[w := c])
    case KillWriter(w) => p.(sleepingWriters := p.sleepingWriters - {w})
    case Read(n, killed) =>
      var (q, c) := ReadOn(p, |p.readCalls|, n, killed);
      q.(readCalls := p.readCalls + [c])
    case ResumeRead(r, killed) =>
      if !RousedReader(p, r) then p
      else
        var (q, c) := ReadOn(p, r, p.readCalls[r].n, killed);
        q.(readCalls := p.readCalls[r := c])
    case KillReader(r) => p.(sleepingReaders := p.sleepingReaders - {r})
    case Close(writable) =>
      if writable then p.(writeopen := false, sleepingReaders := {})
      else p.(readopen := false, sleepingWriters := {})
  }

  lemma StepFits(p: Plain, e: Event)
    requires Fits(p)
    ensures Fits(PlainStep(p, e))
  { }

  function PlainRun(p: Plain, events: seq<Event>): (q: Plain)
    requires Fits(p)
    ensures Fits(q)
    decreases |events|
  {
    if events == [] then p
    else
      var q := PlainRun(p, events[..|events| - 1]);
      StepFits(q, events[|events| - 1]);
      PlainStep(q, events[|events| - 1])
  }

  // ----- what holds of every plain run -----

  /** A writer sleeps only while the pipe is full and can still be read. */
  predicate WritersJustified(p: Plain) {
    p.sleepingWriters != {} ==> Backlog(p) == PIPESIZE && p.readopen
  }

  /** A reader sleeps only while the pipe is empty and can still be written. */
  predicate ReadersJustified(p: Plain) {
    p.sleepingReaders != {} ==> Backlog(p) == 0 && p.writeopen
  }

  /** Bytes taken are a prefix of bytes accepted, the backlog fits, every call's bytes are accounted
      for, and no writer sleeps without cause. */
  ghost predicate Orderly(p: Plain) {
    && Fits(p) && Bytes(p.taken) <= Bytes(p.accepted)
    && WriteLedger(p.writeCalls, p.accepted) && ReadLedger(p.readCalls, p.taken) && WritersJustified(p)
  }

  /** A write that will fail after filling an empty pipe on which a reader sleeps. */
  predicate Starves(p: Plain, e: Event) {
    p.sleepingReaders != {} &&
    match e
    case Write(addr, killed) => (killed || !p.readopen) && |addr| > PIPESIZE
    case ResumeWrite(w, killed) =>
      && RousedWriter(p, w) && (killed || !p.readopen)
      && |p.writeCalls[w].addr| - p.writeCalls[w].next > PIPESIZE
    case _ => false
  }

  lemma BytesOf(a: seq<Sent>, bytes: seq<Byte>, w: nat)
    ensures Bytes(a + Tagged(bytes, w)) == Bytes(a) + bytes
  { }

  lemma WriteOnKeeps(p: Plain, w: nat, c: WriteCall, killed: bool)
    requires Orderly(p) && w <= |p.writeCalls|
    requires c == if w < |p.writeCalls| then p.writeCalls[w] else WriteCall(c.addr, 0, Asleep)
    requires c.next <= |c.addr| && c.status == Asleep
    ensures var (q, d) := WriteOn(p, w, c, killed);
      Orderly(q.(writeCalls := if w < |p.writeCalls| then p.writeCalls[w := d] else p.writeCalls + [d]))
  {
    hide WriteLedger, ReadLedger;
    var (q, d) := WriteOn(p, w, c, killed);
    WritesGrow(p.writeCalls, p.accepted, w, d, c.next);
    BytesOf(p.accepted, c.addr[c.next..d.next], w);
  }

  lemma ReadOnKeeps(p: Plain, r: nat, n: int, killed: bool)
    requires Orderly(p) && r <= |p.readCalls| && (r < |p.readCalls| ==> p.readCalls[r].got == [])
    ensures var (q, d) := ReadOn(p, r, n, killed);
      Orderly(q.(readCalls := if r < |p.readCalls| then p.readCalls[r := d] else p.readCalls + [d]))
  {
    hide WriteLedger, ReadLedger;
    var (q, d) := ReadOn(p, r, n, killed);
    ReadsGrow(p.readCalls, p.taken, r, d);
    assert Tagged([], r) == [] && p.taken + [] == p.taken;
    BytesOf(p.taken, d.got, r);
  }

  /** Every step keeps the pipe orderly, and the readers' sleep is kept by exactly those steps that
      are not starving writes. */
  lemma OrderlyStep(p: Plain, e: Event)
    requires Orderly(p)
    ensures Orderly(PlainStep(p, e))
    ensures ReadersJustified(p) ==> (ReadersJustified(PlainStep(p, e)) <==> !Starves(p, e))
  {
    hide WriteLedger, ReadLedger;
    match e
    case Write(addr, killed) => WriteOnKeeps(p, |p.writeCalls|, WriteCall(addr, 0, Asleep), killed);
    case ResumeWrite(w, killed) => if RousedWriter(p, w) { WriteOnKeeps(p, w, p.writeCalls[w], killed); }
    case Read(n, killed) => ReadOnKeeps(p, |p.readCalls|, n, killed);
    case ResumeRead(r, killed) =>
      if RousedReader(p, r) {
        AsleepGotNothing(p.readCalls, p.taken, r);
        ReadOnKeeps(p, r, p.readCalls[r].n, killed);
      }
    case _ =>
  }

  lemma AsleepGotNothing(calls: seq<ReadCall>, taken: seq<Sent>, r: nat)
    requires ReadLedger(calls, taken) && r < |calls| && calls[r].status == Asleep
    ensures calls[r].got == []
  {
    assert ReadEntry(calls[r], SentBy(taken, r));
  }

  predicate Peaceful(e: Event) {
    !(e.Write? && e.killed) && !(e.ResumeWrite? && e.killed) && e != Close(false)
  }

  /** Any run stays orderly; while no writer is killed and the read end stays open it also never
      leaves a reader asleep beside bytes it could read. */
  lemma {:induction false} OrderlyRun(p: Plain, events: seq<Event>)
    requires Orderly(p)
    ensures Orderly(PlainRun(p, events))
    ensures ReadersJustified(p) && p.readopen && (forall e :: e in events ==> Peaceful(e)) ==>
      ReadersJustified(PlainRun(p, events)) && PlainRun(p, events).readopen
    decreases |events|
  {
    hide Orderly, Starves, PlainStep;
    FitsOf(p);
    if events != [] {
      var n := |events| - 1;
      OrderlyRun(p, events[..n]);
      var q := PlainRun(p, events[..n]);
      OrderlyStep(q, events[n]);
      if ReadersJustified(p) && p.readopen && forall e :: e in events ==> Peaceful(e) {
        forall e | e in events[..n] ensures Peaceful(e) { assert e in events; }
        assert events[n] in events;
        PeacefulStep(q, events[n]);
      }
    }
  }

  lemma FitsOf(p: Plain)
    requires Orderly(p)
    ensures Fits(p)
  { }

  lemma PeacefulStep(p: Plain, e: Event)
    requires Fits(p) && p.readopen && Peaceful(e)
    ensures !Starves(p, e) && PlainStep(p, e).readopen
  { }

  // ----- whose bytes they are -----

  /** What the write calls of a run pass, and how much its read calls ask for, in order. */
  function Passed(events: seq<Event>): seq<seq<Byte>> {
    if events == [] then []
    else
      var last := events[|events| - 1];
      Passed(events[..|events| - 1]) + if last.Write? then [last.addr] else []
  }

  function Asked(events: seq<Event>): seq<int> {
    if events == [] then []
    else
      var last := events[|events| - 1];
      Asked(events[..|events| - 1]) + if last.Read? then [last.n] else []
  }

  /** The calls of a state are those of the events. */
  ghost predicate CallsTold(p: Plain, events: seq<Event>) {
    && |p.writeCalls| == |Passed(events)| && |p.readCalls| == |Asked(events)|
    && (forall w :: 0 <= w < |p.writeCalls| ==> p.writeCalls[w].addr == Passed(events)[w])
    && (forall r :: 0 <= r < |p.readCalls| ==> p.readCalls[r].n == Asked(events)[r])
  }

  /** Every call keeps the bytes it passed, or the number it asked for, to its end. */
  lemma {:induction false} CallsRun(events: seq<Event>)
    ensures CallsTold(PlainRun(NewPipe(), events), events)
    decreases |events|
  {
    if events != [] {
      var n := |events| - 1;
      CallsRun(events[..n]);
      CallsStep(PlainRun(NewPipe(), events[..n]), events[..n], events[n]);
      assert events[..n] + [events[n]] == events;
    }
  }

  lemma CallsStep(p: Plain, events: seq<Event>, e: Event)
    requires Fits(p) && CallsTold(p, events)
    ensures CallsTold(PlainStep(p, e), events + [e])
  {
    assert (events + [e])[..|events|] == events;
  }

  // ----- the pipe's runs are plain runs -----

  ghost function ViewOf(p: Pipe): Plain
    reads p
  {
    Plain(p.accepted, p.taken, p.readopen, p.writeopen, p.sleepingWriters, p.sleepingReaders, p.writeCalls, p.readCalls)
  }

  ghost predicate Ready(p: Pipe)
    reads p, p.data
  {
    p.Stream() && Orderly(ViewOf(p))
  }

  lemma Room(i: nat, n: nat, next: nat, before: int, after: int)
    requires before <= PIPESIZE && i <= next <= n && after == before + next - i <= PIPESIZE
    requires next < n ==> after == PIPESIZE
    ensures next == Min(n, i + PIPESIZE - before)
  { }

  /** The bytes a read got are the oldest ones. */
  lemma Oldest(p: Pipe, taken: seq<Sent>, got: seq<Byte>, r: nat)
    requires p.Stream() && p.taken == taken + Tagged(got, r)
    ensures |taken| + |got| <= |p.accepted| && got == Bytes(p.accepted)[|taken|..|taken| + |got|]
  {
    BytesOf(taken, got, r);
  }

  method PerformWrite(p: Pipe, w: nat, c: WriteCall, killed: bool) returns (d: WriteCall)
    requires p.Stream() && Fits(ViewOf(p)) && c.next <= |c.addr|
    modifies p`nwrite, p`accepted, p`sleepingWriters, p`sleepingReaders, p.data
    ensures p.Stream() && (ViewOf(p), d) == WriteOn(old(ViewOf(p)), w, c, killed)
  {
    hide Holds;
    var next, status := p.PipeWrite(w, c.addr, c.next, killed);
    Room(c.next, |c.addr|, next, old(Backlog(ViewOf(p))), Backlog(ViewOf(p)));
    d := WriteCall(c.addr, next, status);
  }

  method PerformRead(p: Pipe, r: nat, n: int, killed: bool) returns (d: ReadCall)
    requires p.Stream() && Fits(ViewOf(p))
    modifies p`nread, p`taken, p`sleepingWriters, p`sleepingReaders
    ensures p.Stream() && (ViewOf(p), d) == ReadOn(old(ViewOf(p)), r, n, killed)
  {
    hide Holds;
    var got, status := p.PipeRead(r, n, killed);
    Oldest(p, old(p.taken), got, r);
    ghost var backlog := old(Backlog(ViewOf(p)));
    assert status == Done ==> |got| == if n < 0 then 0 else Min(n, backlog);
    assert got == [] ==> Tagged(got, r) == [] && p.taken == old(p.taken);
    ghost var s, q := old(ViewOf(p)), ViewOf(p);
    assert status == Done ==> q == s.(taken := s.taken + Tagged(got, r), sleepingWriters := {});
    assert status == Failed ==> q == s;
    d := ReadCall(n, got, status);
  }

  /** Whatever the ring and its counters do, an event does to a pipe what it does to a plain one. */
  method Perform(p: Pipe, e: Event)
    requires Ready(p)
    modifies p, p.data
    ensures Ready(p) && ViewOf(p) == PlainStep(old(ViewOf(p)), e)
    ensures old(ReadersJustified(ViewOf(p))) ==> (ReadersJustified(ViewOf(p)) <==> !old(Starves(ViewOf(p), e)))
  {
    hide Holds, WriteLedger, ReadLedger, WriteOn, ReadOn, Starves;
    OrderlyStep(ViewOf(p), e);
    match e
    case Write(addr, killed) =>
      var c := PerformWrite(p, |p.writeCalls|, WriteCall(addr, 0, Asleep), killed);
      p.writeCalls := p.writeCalls + [c];
    case ResumeWrite(w, killed) =>
      if w < |p.writeCalls| && p.writeCalls[w].status == Asleep && w !in p.sleepingWriters {
        WriteLedgerAt(p.writeCalls, p.accepted, w);
        var c := PerformWrite(p, w, p.writeCalls[w], killed);
        p.writeCalls := p.writeCalls[w := c];
      }
    case KillWriter(w) =>
      p.sleepingWriters := p.sleepingWriters - {w};
    case Read(n, killed) =>
      var c := PerformRead(p, |p.readCalls|, n, killed);
      p.readCalls := p.readCalls + [c];
    case ResumeRead(r, killed) =>
      if r < |p.readCalls| && p.readCalls[r].status == Asleep && r !in p.sleepingReaders {
        var c := PerformRead(p, r, p.readCalls[r].n, killed);
        p.readCalls := p.readCalls[r := c];
      }
    case KillReader(r) =>
      p.sleepingReaders := p.sleepingReaders - {r};
    case Close(writable) =>
      var _ := p.PipeClose(writable);
  }

  /** Any interleaving of any calls on a new pipe: what each call has sent or got is what it would
      with a plain queue of bytes; what all reads got, in the order they got it, is a prefix of what
      all writes put in; and the backlog stays within PIPESIZE. */
  method Run(events: seq<Event>) returns (p: Pipe)
    ensures fresh(p) && Ready(p) && ViewOf(p) == PlainRun(NewPipe(), events)
    ensures Bytes(p.taken) <= Bytes(p.accepted) && |p.accepted| - |p.taken| <= PIPESIZE
    ensures forall w: nat :: w < |p.writeCalls| ==> WriteEntry(p.writeCalls[w], SentBy(p.accepted, w))
    ensures forall r: nat :: r < |p.readCalls| ==> ReadEntry(p.readCalls[r], SentBy(p.taken, r))
    ensures (forall e :: e in events ==> Peaceful(e)) ==> ReadersJustified(ViewOf(p))
    ensures CallsTold(ViewOf(p), events)
  {
    hide Holds, PlainStep, SentBy, CallsTold;
    CallsRun(events);
    p := new Pipe();
    OrderlyRun(NewPipe(), events);
    var i := 0;
    while i < |events|
      invariant i <= |events| && fresh(p) && fresh(p.data) && Ready(p) && ViewOf(p) == PlainRun(NewPipe(), events[..i])
    {
      assert events[..i + 1][..i] == events[..i];
      Perform(p, events[i]);
      i := i + 1;
    }
    assert events[..i] == events;
  }

  function NewPipe(): Plain { Plain([], [], true, true, {}, {}, [], []) }
}
