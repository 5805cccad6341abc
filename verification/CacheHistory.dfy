/** What every use of the buffer cache sees, told from the events of a run and their outcomes alone. */
module CacheHistory {
  import opened BufferRing
  import opened CacheTickets
  import opened BufferCache
  import opened CacheRuns

  /** An event and what came of it. */
  datatype Entry = Entry(e: Event, o: Outcome)

  predicate Took(x: Entry) { x.o == Done || x.o.Saw? }

  function Zip(events: seq<Event>, outcomes: seq<Outcome>): (h: seq<Entry>)
    requires |events| == |outcomes|
    ensures |h| == |events|
  {
    seq(|events|, k requires 0 <= k < |events| => Entry(events[k], outcomes[k]))
  }

  datatype Past = Never | Past(e: Event)

  /** The last thing that use t did. */
  function LastStep(h: seq<Entry>, t: nat): Past {
    if h == [] then Never
    else
      var x := h[|h| - 1];
      if Took(x) && x.e.t == t then Past(x.e) else LastStep(h[..|h| - 1], t)
  }

  predicate InUse(h: seq<Entry>, t: nat) {
    LastStep(h, t).Past? && !LastStep(h, t).e.Unref?
  }

  /** It has read its block and not given it up. */
  predicate Opened(p: Past) {
    p.Past? && (p.e.Read? || p.e.Change? || p.e.Log? || p.e.Write?)
  }

  predicate HasIt(p: Past) {
    Opened(p) || (p.Past? && p.e.Lock?)
  }

  /** The bget that use t began with. */
  function LastGet(h: seq<Entry>, t: nat): Past {
    if h == [] then Never
    else
      var x := h[|h| - 1];
      if Took(x) && x.e.Get? && x.e.t == t then Past(x.e) else LastGet(h[..|h| - 1], t)
  }

  predicate For(p: Past, dev: nat, blockno: nat) {
    p.Past? && p.e.Get? && p.e.dev == dev && p.e.blockno == blockno
  }

  /** What use t has in its buffer: what it put there last, or what it read. */
  function InBuffer(h: seq<Entry>, t: nat): Data {
    if h == [] then []
    else
      var x := h[|h| - 1];
      if Took(x) && x.e.Change? && x.e.t == t then x.e.data
      else if x.e == Read(t) && x.o.Saw? then x.o.data
      else InBuffer(h[..|h| - 1], t)
  }

  predicate Publishes(h: seq<Entry>, x: Entry, blockno: nat) {
    Took(x) && (x.e.Log? || x.e.Write?) && For(LastGet(h, x.e.t), 1, blockno)
  }

  /** What was last logged or written to a block. */
  function LastPublished(image: seq<Data>, h: seq<Entry>, blockno: nat): Data
    requires blockno < |image|
  {
    if h == [] then image[blockno]
    else
      var front, x := h[..|h| - 1], h[|h| - 1];
      if Publishes(front, x, blockno) then InBuffer(front, x.e.t) else LastPublished(image, front, blockno)
  }

  /** Nobody holds the block. */
  ghost predicate Unheld(h: seq<Entry>, dev: nat, blockno: nat) {
    forall u :: HasIt(LastStep(h, u)) ==> !For(LastGet(h, u), dev, blockno)
  }

  /** What comes of an event after h. */
  ghost function Outcomes(image: seq<Data>, h: seq<Entry>, e: Event): Outcome {
    var last, get := LastStep(h, e.t), LastGet(h, e.t);
    match e
    case Get(t, pid, dev, blockno) => if InUse(h, t) || pid == 0 || dev == 0 then Ignored else Done
    case Lock(t) =>
      if last.Past? && last.e.Get? && Unheld(h, last.e.dev, last.e.blockno) then Done else Ignored
    case Read(t) =>
      if !(last.Past? && last.e.Lock? && get.Past? && get.e.Get?) then Ignored
      else if get.e.dev == 1 && get.e.blockno < |image| then Saw(LastPublished(image, h, get.e.blockno))
      else Panic
    case Change(t, _) => if Opened(last) then Done else Ignored
    case Log(t) => if Opened(last) then Done else Ignored
    case Write(t) => if Opened(last) then Done else Ignored
    case Unlock(t) => if HasIt(last) && !last.e.Change? then Done else Ignored
    case Unref(t) => if last.Past? && last.e.Unlock? then Done else Ignored
  }

  // ----- plain blocks keep to the history -----

  predicate StageIs(last: Past, st: Stage) {
    last.Past? &&
    match st
    case Wanted => last.e.Get?
    case Locked => last.e.Lock?
    case Open => Opened(last)
    case Dropped => last.e.Unlock?
  }

  /** Use t as the history has it. */
  predicate UseTold(image: seq<Data>, h: seq<Entry>, t: nat, u: Use) {
    && StageIs(LastStep(h, t), u.stage) && For(LastGet(h, t), u.dev, u.blockno) && LastGet(h, t).e.pid == u.pid
    && (u.stage.Wanted? ==> LastStep(h, t) == LastGet(h, t))
    && (u.stage.Open? ==> u.dev == 1 && u.blockno < |image| && u.contents == InBuffer(h, t))
  }

  ghost predicate Told(image: seq<Data>, h: seq<Entry>, p: Plain) {
    && |p.blocks| == |image|
    && (forall b: nat :: b < |image| ==> p.blocks[b] == LastPublished(image, h, b))
    && (forall t :: t in p.uses <==> InUse(h, t))
    && (forall t :: t in p.uses ==> UseTold(image, h, t, p.uses[t]))
    && (forall t :: t in p.changed <==> LastStep(h, t).Past? && LastStep(h, t).e.Change?)
  }

  lemma SnocUse(h: seq<Entry>, x: Entry, t: nat)
    ensures var more := h + [x];
      && LastStep(more, t) == (if Took(x) && x.e.t == t then Past(x.e) else LastStep(h, t))
      && LastGet(more, t) == (if Took(x) && x.e.Get? && x.e.t == t then Past(x.e) else LastGet(h, t))
      && InBuffer(more, t) == (if Took(x) && x.e.Change? && x.e.t == t then x.e.data
                               else if x.e == Read(t) && x.o.Saw? then x.o.data else InBuffer(h, t))
  {
    assert (h + [x])[..|h|] == h;
  }

  lemma SnocBlock(image: seq<Data>, h: seq<Entry>, x: Entry, b: nat)
    requires b < |image|
    ensures LastPublished(image, h + [x], b) ==
      if Publishes(h, x, b) then InBuffer(h, x.e.t) else LastPublished(image, h, b)
  {
    assert (h + [x])[..|h|] == h;
  }

  /** Of an event, only the use that it belongs to and the block that it publishes move on. */
  lemma OthersStay(image: seq<Data>, h: seq<Entry>, p: Plain, x: Entry, q: Plain)
    requires Told(image, h, p) && q.blocks == p.blocks && !x.e.Log? && !x.e.Write?
    requires forall u :: u != x.e.t ==> (u in q.uses <==> u in p.uses) && (u in q.changed <==> u in p.changed)
    requires forall u :: u != x.e.t && u in p.uses ==> q.uses[u] == p.uses[u]
    requires x.e.t in q.uses <==> InUse(h + [x], x.e.t)
    requires x.e.t in q.uses ==> UseTold(image, h + [x], x.e.t, q.uses[x.e.t])
    requires x.e.t in q.changed <==> LastStep(h + [x], x.e.t).Past? && LastStep(h + [x], x.e.t).e.Change?
    ensures Told(image, h + [x], q)
  {
    hide LastStep, LastGet, InBuffer, LastPublished, StageIs;
    forall b: nat | b < |image| ensures q.blocks[b] == LastPublished(image, h + [x], b) { SnocBlock(image, h, x, b); }
    forall u | u != x.e.t
      ensures LastStep(h + [x], u) == LastStep(h, u) && LastGet(h + [x], u) == LastGet(h, u)
      ensures InBuffer(h + [x], u) == InBuffer(h, u)
    {
      SnocUse(h, x, u);
    }
  }

  /** An event that takes no effect. */
  lemma IgnoredStay(image: seq<Data>, h: seq<Entry>, p: Plain, x: Entry)
    requires Told(image, h, p) && !Took(x)
    ensures Told(image, h + [x], p)
  {
    hide LastStep, LastGet, InBuffer, LastPublished, StageIs;
    forall b: nat | b < |image| ensures LastPublished(image, h + [x], b) == LastPublished(image, h, b) {
      SnocBlock(image, h, x, b);
    }
    forall u
      ensures LastStep(h + [x], u) == LastStep(h, u) && LastGet(h + [x], u) == LastGet(h, u)
      ensures InBuffer(h + [x], u) == InBuffer(h, u)
    {
      SnocUse(h, x, u);
    }
  }

  ghost predicate StepTold(image: seq<Data>, h: seq<Entry>, p: Plain, e: Event) {
    var (q, o) := PlainStep(p, e);
    o == Outcomes(image, h, e) && Told(image, h + [Entry(e, o)], q)
  }

  /** A use is at the stage that its last step says. */
  lemma StageTold(image: seq<Data>, h: seq<Entry>, p: Plain, t: nat)
    requires Told(image, h, p)
    ensures t in p.uses <==> InUse(h, t)
    ensures t in p.uses ==> UseTold(image, h, t, p.uses[t])
    ensures forall st: Stage :: At(p, t, st) <==> StageIs(LastStep(h, t), st)
  {
    hide LastStep, LastGet, InBuffer, LastPublished;
    if t in p.uses {
      assert UseTold(image, h, t, p.uses[t]);
    }
  }

  lemma FreeTold(image: seq<Data>, h: seq<Entry>, p: Plain, dev: nat, blockno: nat)
    requires Told(image, h, p)
    ensures BlockFree(p, dev, blockno) <==> Unheld(h, dev, blockno)
  {
    hide LastStep, LastGet, InBuffer, LastPublished;
    forall t
      ensures t in p.uses && Uses(p.uses[t], dev, blockno) <==>
        HasIt(LastStep(h, t)) && For(LastGet(h, t), dev, blockno)
    {
      StageTold(image, h, p, t);
    }
    if Unheld(h, dev, blockno) {
      forall t | t in p.uses ensures !Uses(p.uses[t], dev, blockno) {
        assert HasIt(LastStep(h, t)) ==> !For(LastGet(h, t), dev, blockno);
      }
    }
  }

  lemma ChangedTold(image: seq<Data>, h: seq<Entry>, p: Plain, t: nat)
    requires Told(image, h, p)
    ensures t in p.changed <==> LastStep(h, t).Past? && LastStep(h, t).e.Change?
    ensures |p.blocks| == |image| && forall b: nat :: b < |image| ==> p.blocks[b] == LastPublished(image, h, b)
  { }

  lemma GetTold(image: seq<Data>, h: seq<Entry>, p: Plain, t: nat, pid: nat, dev: nat, blockno: nat)
    requires Told(image, h, p)
    ensures StepTold(image, h, p, Get(t, pid, dev, blockno))
  {
    hide LastStep, LastGet, InBuffer, LastPublished, Told;
    var (q, o) := PlainStep(p, Get(t, pid, dev, blockno));
    var x := Entry(Get(t, pid, dev, blockno), o);
    StageTold(image, h, p, t);
    SnocUse(h, x, t);
    ChangedTold(image, h, p, t);
    if Took(x) { OthersStay(image, h, p, x, q); } else { IgnoredStay(image, h, p, x); }
  }

  lemma LockTold(image: seq<Data>, h: seq<Entry>, p: Plain, t: nat)
    requires Told(image, h, p)
    ensures StepTold(image, h, p, Lock(t))
  {
    hide LastStep, LastGet, InBuffer, LastPublished, Told;
    var (q, o) := PlainStep(p, Lock(t));
    var x := Entry(Lock(t), o);
    StageTold(image, h, p, t);
    SnocUse(h, x, t);
    ChangedTold(image, h, p, t);
    if t in p.uses { FreeTold(image, h, p, p.uses[t].dev, p.uses[t].blockno); }
    if Took(x) { OthersStay(image, h, p, x, q); } else { IgnoredStay(image, h, p, x); }
  }

  lemma ReadTold(image: seq<Data>, h: seq<Entry>, p: Plain, t: nat)
    requires Told(image, h, p)
    ensures StepTold(image, h, p, Read(t))
  {
    hide LastStep, LastGet, InBuffer, LastPublished, Told;
    var (q, o) := PlainStep(p, Read(t));
    var x := Entry(Read(t), o);
    StageTold(image, h, p, t);
    SnocUse(h, x, t);
    ChangedTold(image, h, p, t);
    if Took(x) { OthersStay(image, h, p, x, q); } else { IgnoredStay(image, h, p, x); }
  }

  lemma ChangeTold(image: seq<Data>, h: seq<Entry>, p: Plain, t: nat, data: Data)
    requires Told(image, h, p)
    ensures StepTold(image, h, p, Change(t, data))
  {
    hide LastStep, LastGet, InBuffer, LastPublished, Told;
    var (q, o) := PlainStep(p, Change(t, data));
    var x := Entry(Change(t, data), o);
    StageTold(image, h, p, t);
    SnocUse(h, x, t);
    ChangedTold(image, h, p, t);
    if Took(x) { OthersStay(image, h, p, x, q); } else { IgnoredStay(image, h, p, x); }
  }

  lemma UnlockTold(image: seq<Data>, h: seq<Entry>, p: Plain, t: nat)
    requires Told(image, h, p)
    ensures StepTold(image, h, p, Unlock(t))
  {
    hide LastStep, LastGet, InBuffer, LastPublished, Told;
    var (q, o) := PlainStep(p, Unlock(t));
    var x := Entry(Unlock(t), o);
    StageTold(image, h, p, t);
    SnocUse(h, x, t);
    ChangedTold(image, h, p, t);
    if Took(x) { OthersStay(image, h, p, x, q); } else { IgnoredStay(image, h, p, x); }
  }

  lemma UnrefTold(image: seq<Data>, h: seq<Entry>, p: Plain, t: nat)
    requires Told(image, h, p)
    ensures StepTold(image, h, p, Unref(t))
  {
    hide LastStep, LastGet, InBuffer, LastPublished, Told;
    var (q, o) := PlainStep(p, Unref(t));
    var x := Entry(Unref(t), o);
    StageTold(image, h, p, t);
    SnocUse(h, x, t);
    ChangedTold(image, h, p, t);
    if Took(x) { OthersStay(image, h, p, x, q); } else { IgnoredStay(image, h, p, x); }
  }

  lemma PublishTold(image: seq<Data>, h: seq<Entry>, p: Plain, t: nat, e: Event)
    requires Told(image, h, p) && (e == Log(t) || e == Write(t))
    ensures StepTold(image, h, p, e)
  {
    hide LastStep, LastGet, InBuffer, LastPublished;
    var (q, o) := PlainStep(p, e);
    var x := Entry(e, o);
    StageTold(image, h, p, t);
    if !Took(x) {
      IgnoredStay(image, h, p, x);
    } else {
      forall u
        ensures LastStep(h + [x], u) == (if u == t then Past(e) else LastStep(h, u))
        ensures LastGet(h + [x], u) == LastGet(h, u) && InBuffer(h + [x], u) == InBuffer(h, u)
      {
        SnocUse(h, x, u);
      }
      forall b: nat | b < |image| ensures q.blocks[b] == LastPublished(image, h + [x], b) {
        SnocBlock(image, h, x, b);
      }
    }
  }

  lemma ToldStep(image: seq<Data>, h: seq<Entry>, p: Plain, e: Event)
    requires Told(image, h, p)
    ensures StepTold(image, h, p, e)
  {
    hide Told, StepTold;
    match e
    case Get(t, pid, dev, blockno) => GetTold(image, h, p, t, pid, dev, blockno);
    case Lock(t) => LockTold(image, h, p, t);
    case Read(t) => ReadTold(image, h, p, t);
    case Change(t, data) => ChangeTold(image, h, p, t, data);
    case Log(t) => PublishTold(image, h, p, t, e);
    case Write(t) => PublishTold(image, h, p, t, e);
    case Unlock(t) => UnlockTold(image, h, p, t);
    case Unref(t) => UnrefTold(image, h, p, t);
  }

  // ----- every run -----

  ghost function NewPlain(image: seq<Data>): Plain { Plain(image, map[], {}) }

  /** Every outcome of every run on plain blocks is the one that the history before it calls for. */
  lemma {:induction false} RunTold(image: seq<Data>, events: seq<Event>)
    ensures var (p, os) := PlainRun(NewPlain(image), events);
      && |os| == |events| && Told(image, Zip(events, os), p)
      && forall k :: 0 <= k < |events| ==> os[k] == Outcomes(image, Zip(events[..k], os[..k]), events[k])
    decreases |events|
  {
    hide PlainStep, Told, Outcomes;
    if events == [] {
      NothingTold(image);
    } else {
      var n := |events| - 1;
      var front, e := events[..n], events[n];
      RunTold(image, front);
      var (p, os) := PlainRun(NewPlain(image), front);
      var h := Zip(front, os);
      ToldStep(image, h, p, e);
      var o := PlainStep(p, e).1;
      assert Zip(events, os + [o]) == h + [Entry(e, o)];
      assert (os + [o])[..n] == os;
      forall k | 0 <= k < n ensures events[..k] == front[..k] && (os + [o])[..k] == os[..k] { }
    }
  }

  lemma NothingTold(image: seq<Data>)
    ensures Told(image, Zip([], []), NewPlain(image))
  { }

  /** In particular a bread shows what was last logged or written: if use t changed its block to data,
      published that next, and nobody has published the block since, the block holds data. */
  lemma {:induction false} PublishedLast(image: seq<Data>, h: seq<Entry>, i: nat, j: nat, t: nat, b: nat, data: Data)
    requires b < |image| && i < j < |h| && Took(h[i]) && h[i].e == Change(t, data)
    requires forall k :: i < k < j && h[k].e.t == t ==> !Took(h[k])
    requires h[j].e.t == t && Publishes(h[..j], h[j], b)
    requires forall k :: j < k < |h| ==> !Publishes(h[..k], h[k], b)
    ensures LastPublished(image, h, b) == data
    decreases |h|
  {
    var n := |h| - 1;
    var front := h[..n];
    if j < n {
      assert front[..j] == h[..j] && !Publishes(h[..n], h[n], b);
      forall k | j < k < n ensures front[..k] == h[..k] { }
      PublishedLast(image, front, i, j, t, b, data);
    } else {
      ChangedLast(front, i, t, data);
    }
  }

  lemma {:induction false} ChangedLast(h: seq<Entry>, i: nat, t: nat, data: Data)
    requires i < |h| && Took(h[i]) && h[i].e == Change(t, data)
    requires forall k :: i < k < |h| && h[k].e.t == t ==> !Took(h[k])
    ensures InBuffer(h, t) == data
  {
    if i < |h| - 1 { ChangedLast(h[..|h| - 1], i, t, data); }
  }

  /** ... and every outcome of every run of the cache, unless it is out of buffers. */
  method Run(image: seq<Data>, events: seq<Event>) returns (c: Cache, outcomes: seq<Outcome>)
    ensures fresh(c) && |outcomes| <= |events|
    ensures |outcomes| < |events| ==> |outcomes| > 0 && Stops(outcomes[|outcomes| - 1])
    ensures forall k :: 0 <= k < |outcomes| && outcomes[k] != NoBuffers ==>
      outcomes[k] == Outcomes(image, Zip(events[..k], outcomes[..k]), events[k])
  {
    hide PlainStep, PlainRun, Outcomes, Told, OutOfBuffers;
    var changed;
    c, outcomes, changed := CacheRuns.Run(image, events);
    if |outcomes| > 0 {
      ghost var n := |outcomes| - 1;
      RunTold(image, events[..n]);
      RunTold(image, events[..n + 1]);
      assert events[..n + 1][..n] == events[..n];
      forall k | 0 <= k < n ensures outcomes[k] == Outcomes(image, Zip(events[..k], outcomes[..k]), events[k]) {
        assert events[..n][..k] == events[..k] && outcomes[..n][..k] == outcomes[..k] && events[..n][k] == events[k];
      }
    }
  }
}
