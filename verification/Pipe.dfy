/** The pipe: a ring of PIPESIZE bytes between two wrapping 32-bit counters, readers and writers
    that sleep in the middle of a call, and the wakeups that should rouse them.  The pipe's lock is
    held from one sleep to the next, so a call is a sequence of atomic segments. */
module Pipe {

  const PIPESIZE: nat := 512
  const WORD: nat := 0x1_0000_0000

  type Byte = bv8

  /** A byte that entered the pipe, and the write call it came from. */
  datatype Sent = Sent(from: nat, b: Byte)

  datatype Status = Asleep | Done | Failed

  /** A call of pipewrite: its n bytes, how many of them it has put in the pipe, how it stands. */
  datatype WriteCall = WriteCall(addr: seq<Byte>, next: nat, status: Status)

  datatype ReadCall = ReadCall(n: int, got: seq<Byte>, status: Status)

  /** Write and Read start a call, Resume runs an awakened one on; killed is what the call sees of
      its process when it asks.  Kill wakes one sleeper. */
  datatype Event =
    | Write(addr: seq<Byte>, killed: bool)
    | ResumeWrite(call: nat, killed: bool)
    | KillWriter(call: nat)
    | Read(n: int, killed: bool)
    | ResumeRead(call: nat, killed: bool)
    | KillReader(call: nat)
    | Close(writable: bool)

  function Bytes(s: seq<Sent>): (r: seq<Byte>)
    ensures |r| == |s|
  {
    seq(|s|, i requires 0 <= i < |s| => s[i].b)
  }

  /** What call w has sent, in order. */
  function SentBy(s: seq<Sent>, w: nat): seq<Byte> {
    if s == [] then []
    else
      var last := s[|s| - 1];
      SentBy(s[..|s| - 1], w) + if last.from == w then [last.b] else []
  }

  lemma SentSnoc(s: seq<Sent>, x: Sent, w: nat)
    ensures SentBy(s + [x], w) == SentBy(s, w) + if x.from == w then [x.b] else []
  {
    assert (s + [x])[..|s|] == s;
  }

  // ----- wrapping counters -----

  /** While at most PIPESIZE apart, two counters agree exactly when their low 32 bits do, and
      differ by PIPESIZE exactly when their low 32 bits do. */
  lemma CountersWrap(r: nat, w: nat)
    requires r <= w <= r + PIPESIZE
    ensures r % WORD == w % WORD <==> r == w
    ensures w % WORD == (r % WORD + PIPESIZE) % WORD <==> w == r + PIPESIZE
  {
    Congruent(r, w - r);
    Congruent(w, r + PIPESIZE - w);
    assert (r % WORD + PIPESIZE) % WORD == (r + PIPESIZE) % WORD by { AddMod(r, PIPESIZE); }
  }

  lemma AddMod(a: nat, b: nat)
    ensures (a % WORD + b) % WORD == (a + b) % WORD
  {
    var q := a / WORD;
    assert a == q * WORD + a % WORD;
    ModPlus(a % WORD + b, q);
  }

  lemma {:induction false} ModPlus(a: nat, q: nat)
    ensures (a + q * WORD) % WORD == a % WORD
  {
    if q > 0 {
      ModPlus(a, q - 1);
      assert (a + (q - 1) * WORD + WORD) % WORD == (a + (q - 1) * WORD) % WORD;
    }
  }

  lemma Congruent(a: nat, d: nat)
    requires d <= PIPESIZE
    ensures a % WORD == (a + d) % WORD <==> d == 0
  {
    AddMod(a, d);
  }

  /** The ring index of a counter does not depend on how often it wrapped: WORD is a multiple of
      PIPESIZE. */
  lemma SlotOf(a: nat)
    ensures (a % WORD) % PIPESIZE == a % PIPESIZE
    ensures (a % WORD + 1) % WORD == (a + 1) % WORD
  {
    var q := a / WORD * 0x80_0000;
    assert a == a % WORD + q * PIPESIZE;
    WholeRings(a % WORD, q);
    AddMod(a, 1);
  }

  lemma WholeRings(a: nat, q: nat)
    ensures (a + q * PIPESIZE) % PIPESIZE == a % PIPESIZE
  {
    var k := a / PIPESIZE + q;
    assert a + q * PIPESIZE == k * PIPESIZE + a % PIPESIZE;
  }

  lemma SlotsApart(a: nat, b: nat)
    requires a < b < a + PIPESIZE
    ensures a % PIPESIZE != b % PIPESIZE
  { }

  // ----- the state, as values -----

  /** The ring between the counters holds exactly the accepted bytes not yet delivered. */
  ghost predicate Holds(data: seq<Byte>, nread: nat, nwrite: nat, accepted: seq<Sent>, delivered: seq<Byte>) {
    && |data| == PIPESIZE
    && |delivered| <= |accepted| <= |delivered| + PIPESIZE
    && nread == |delivered| % WORD && nwrite == |accepted| % WORD
    && delivered == Bytes(accepted)[..|delivered|]
    && forall k: nat :: |delivered| <= k < |accepted| ==> data[k % PIPESIZE] == accepted[k].b
  }

  lemma PutKeeps(data: seq<Byte>, nread: nat, nwrite: nat, accepted: seq<Sent>, delivered: seq<Byte>, x: Sent)
    requires Holds(data, nread, nwrite, accepted, delivered) && |accepted| < |delivered| + PIPESIZE
    ensures Holds(data[nwrite % PIPESIZE := x.b], nread, (nwrite + 1) % WORD, accepted + [x], delivered)
  {
    SlotOf(|accepted|);
    var d, a := data[nwrite % PIPESIZE := x.b], accepted + [x];
    forall k: nat | |delivered| <= k < |a| ensures d[k % PIPESIZE] == a[k].b {
      if k < |accepted| { SlotsApart(k, |accepted|); }
    }
    assert Bytes(a) == Bytes(accepted) + [x.b];
  }

  lemma TakeKeeps(data: seq<Byte>, nread: nat, nwrite: nat, accepted: seq<Sent>, delivered: seq<Byte>)
    requires Holds(data, nread, nwrite, accepted, delivered) && |delivered| < |accepted|
    ensures data[nread % PIPESIZE] == accepted[|delivered|].b
    ensures Holds(data, (nread + 1) % WORD, nwrite, accepted, delivered + [data[nread % PIPESIZE]])
  {
    SlotOf(|delivered|);
  }

  function Tagged(bytes: seq<Byte>, w: nat): (r: seq<Sent>)
    ensures |r| == |bytes|
  {
    seq(|bytes|, i requires 0 <= i < |bytes| => Sent(w, bytes[i]))
  }

  lemma {:induction false} SentTagged(s: seq<Sent>, bytes: seq<Byte>, w: nat, x: nat)
    ensures SentBy(s + Tagged(bytes, w), x) == SentBy(s, x) + if x == w then bytes else []
    decreases |bytes|
  {
    hide SentBy;
    if bytes == [] {
      assert s + Tagged(bytes, w) == s;
    } else {
      var n := |bytes| - 1;
      var init := s + Tagged(bytes[..n], w);
      SentTagged(s, bytes[..n], w, x);
      SentSnoc(init, Sent(w, bytes[n]), x);
      assert s + Tagged(bytes, w) == init + [Sent(w, bytes[n])];
      assert bytes == bytes[..n] + [bytes[n]];
    }
  }

  lemma {:induction false} SentByNone(s: seq<Sent>, w: nat)
    requires forall i :: 0 <= i < |s| ==> s[i].from != w
    ensures SentBy(s, w) == []
  {
    if s != [] {
      SentByNone(s[..|s| - 1], w);
    }
  }

  lemma BytesSnoc(s: seq<Sent>, x: Sent)
    ensures Bytes(s + [x]) == Bytes(s) + [x.b]
  { }

  class Pipe {
    const data: array<Byte>
    var nread: nat
    var nwrite: nat
    var readopen: bool
    var writeopen: bool
    /** Who sleeps on &p->nwrite and on &p->nread. */
    var sleepingWriters: set<nat>
    var sleepingReaders: set<nat>
    var writeCalls: seq<WriteCall>
    var readCalls: seq<ReadCall>
    /** Bytes that entered the pipe, with their write calls, and bytes that left it, with the read
        calls that got them. */
    ghost var accepted: seq<Sent>
    ghost var taken: seq<Sent>

    /** Bytes read so far are a prefix of bytes accepted so far, and the backlog fits the ring. */
    ghost predicate Stream()
      reads this, data
    {
      Holds(data[..], nread, nwrite, accepted, Bytes(taken))
    }

    /** pipealloc. */
    constructor ()
      ensures Stream() && accepted == [] && taken == [] && readopen && writeopen
      ensures writeCalls == [] && readCalls == [] && sleepingWriters == {} && sleepingReaders == {}
      ensures fresh(data)
    {
      data := new Byte[PIPESIZE];
      nread, nwrite, readopen, writeopen := 0, 0, true, true;
      sleepingWriters, sleepingReaders, writeCalls, readCalls := {}, {}, [], [];
      accepted, taken := [], [];
      new;
      assert data[..] == data[..];
    }

    /** pipewrite from its i-th byte until it returns or sleeps: it puts in as many bytes as there
        is room for.  A call that fails leaves without waking the readers. */
    method PipeWrite(w: nat, addr: seq<Byte>, i: nat, killed: bool) returns (next: nat, status: Status)
      requires Stream() && i <= |addr|
      modifies this`nwrite, this`accepted, this`sleepingWriters, this`sleepingReaders, data
      ensures Stream() && i <= next <= |addr|
      ensures accepted == old(accepted) + Tagged(addr[i..next], w)
      ensures |accepted| <= |taken| + PIPESIZE
      ensures next < |addr| ==> |accepted| == |taken| + PIPESIZE
      ensures status == if next == |addr| then Done else if !readopen || killed then Failed else Asleep
      ensures sleepingReaders == if status == Failed then old(sleepingReaders) else {}
      ensures sleepingWriters == old(sleepingWriters) + if status == Asleep then {w} else {}
    {
      next := i;
      assert Tagged(addr[i..i], w) == [];
      while next < |addr|
        invariant i <= next <= |addr| && Stream()
        invariant accepted == old(accepted) + Tagged(addr[i..next], w)
        invariant sleepingReaders == old(sleepingReaders) && sleepingWriters == old(sleepingWriters)
      {
        CountersWrap(|taken|, |accepted|);
        if nwrite == (nread + PIPESIZE) % WORD {
          if !readopen || killed {
            status := Failed;
            return;
          }
          sleepingReaders := {};
          sleepingWriters := sleepingWriters + {w};
          status := Asleep;
          return;
        }
        ghost var x := Sent(w, addr[next]);
        PutKeeps(data[..], nread, nwrite, accepted, Bytes(taken), x);
        data[nwrite % PIPESIZE] := addr[next];
        nwrite := (nwrite + 1) % WORD;
        assert Tagged(addr[i..next + 1], w) == Tagged(addr[i..next], w) + [x];
        accepted := accepted + [x];
        next := next + 1;
      }
      sleepingReaders := {};
      status := Done;
    }

    /** piperead until it returns or sleeps: it sleeps on an empty pipe that can still be written,
        and otherwise delivers the oldest bytes, as many as it asked for and there are. */
    method PipeRead(r: nat, n: int, killed: bool) returns (got: seq<Byte>, status: Status)
      requires Stream()
      modifies this`nread, this`taken, this`sleepingWriters, this`sleepingReaders
      ensures Stream() && taken == old(taken) + Tagged(got, r)
      ensures status ==
        if |accepted| == |old(taken)| && writeopen then (if killed then Failed else Asleep) else Done
      ensures status != Done ==> got == []
      ensures status == Done ==> n <= |got| || |taken| == |accepted|
      ensures |got| <= n || got == []
      ensures sleepingWriters == if status == Done then {} else old(sleepingWriters)
      ensures sleepingReaders == old(sleepingReaders) + if status == Asleep then {r} else {}
    {
      got := [];
      CountersWrap(|taken|, |accepted|);
      if nread == nwrite && writeopen {
        if killed {
          status := Failed;
          return;
        }
        sleepingReaders := sleepingReaders + {r};
        status := Asleep;
        return;
      }
      while |got| < n
        invariant Stream() && taken == old(taken) + Tagged(got, r)
        invariant |got| <= n || got == []
        invariant sleepingReaders == old(sleepingReaders) && sleepingWriters == old(sleepingWriters)
        decreases n - |got|
      {
        CountersWrap(|taken|, |accepted|);
        if nread == nwrite { break; }
        TakeKeeps(data[..], nread, nwrite, accepted, Bytes(taken));
        var b := data[nread % PIPESIZE];
        nread := (nread + 1) % WORD;
        BytesSnoc(taken, Sent(r, b));
        assert Tagged(got + [b], r) == Tagged(got, r) + [Sent(r, b)];
        got := got + [b];
        taken := taken + [Sent(r, b)];
      }
      sleepingWriters := {};
      status := Done;
    }

    /** pipeclose. */
    method PipeClose(writable: bool) returns (freed: bool)
      modifies this`readopen, this`writeopen, this`sleepingReaders, this`sleepingWriters
      ensures writeopen == (old(writeopen) && !writable) && readopen == (old(readopen) && writable)
      ensures sleepingReaders == if writable then {} else old(sleepingReaders)
      ensures sleepingWriters == if writable then old(sleepingWriters) else {}
      ensures freed <==> !readopen && !writeopen
    {
      if writable {
        writeopen := false;
        sleepingReaders := {};
      } else {
        readopen := false;
        sleepingWriters := {};
      }
      freed := !readopen && !writeopen;
    }
  }

  /** A reader sleeps on an empty pipe; a writer that is being killed fills the pipe and leaves:
      the reader sleeps on beside PIPESIZE bytes. */
  method StarvedReader(addr: seq<Byte>) returns (p: Pipe)
    requires |addr| == PIPESIZE + 1
    ensures fresh(p) && p.Stream() && p.sleepingReaders == {0} && |p.accepted| == PIPESIZE && p.taken == []
  {
    p := new Pipe();
    var got, _ := p.PipeRead(0, 1, false);
    assert got == [];
    var next, status := p.PipeWrite(0, addr, 0, true);
  }
}
