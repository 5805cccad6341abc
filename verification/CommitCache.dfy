/** log.c running on the buffer cache of bio.c, by one process while nobody else uses the cache: which
    breads of a commit find a buffer, and what the disk holds after each of its writes. */
module CommitCache {
  import opened Params
  import opened RedoLog
  import opened LogProtocol
  import opened LogRoom
  import R = BufferRing
  import T = CacheTickets
  import opened BufferCache
  import opened CommitBuffers

  /** Nobody uses a buffer, and exactly the listed blocks are pinned. */
  ghost predicate AtRest(c: Cache, lh: seq<int>)
    reads c
  {
    c.Valid() && c.tickets == map[] && Distinct(lh) && Pinned(c.buf, lh)
  }

  lemma RestFacts(c: Cache, lh: seq<int>)
    requires AtRest(c, lh)
    ensures PinsExactly(c.buf, lh) && c.touched == {} && |c.disk| == |c.logical|
  {
    forall a: nat | a < NBUF ensures c.buf[a].refcnt == 0 { assert T.Refs(c.tickets, a) == {}; }
  }

  /** A block that is not pinned is on the disk as it was last written. */
  lemma UnlistedCurrent(c: Cache, lh: seq<int>, b: nat)
    requires AtRest(c, lh) && b < |c.disk| && b !in lh
    ensures b < |c.logical| && c.disk[b] == c.logical[b]
  {
    assert forall a: nat :: !Pins(c.buf, a, b);
  }

  lemma LockFree(s: seq<R.Buf>, tickets: T.Tickets, lockers: map<nat, nat>, touched: set<nat>, b: nat, blockno: nat)
    requires |s| == NBUF + 1 && T.Booked(s, tickets, lockers, touched) && b < NBUF
    requires R.Carries(s, b, 1, blockno) || Idle(s[b])
    requires forall u :: u in tickets ==> tickets[u].blockno != blockno
    ensures s[b].holder == 0
  {
    if s[b].holder != 0 {
      T.LockerFacts(s, tickets, lockers, touched, b);
      T.TicketFacts(s, tickets, lockers, touched, lockers[b]);
    }
  }

  ghost predicate Cached(s: seq<R.Buf>, blockno: nat)
    requires |s| == NBUF + 1
  {
    exists a: nat :: a < NBUF && R.Carries(s, a, 1, blockno)
  }

  /** The listed blocks are cached, and any other block finds a buffer, while nobody uses the cache,
      exactly when fewer than NBUF are listed. */
  lemma Findable(s: seq<R.Buf>, lh: seq<int>, blockno: nat)
    requires |s| == NBUF + 1 && PinsExactly(s, lh)
    ensures Cached(s, blockno) || SomeIdle(s) <==> blockno in lh || |lh| < NBUF
  {
    CommitFindsBuffer(s, lh);
    if blockno in lh { ListedCached(s, lh, blockno); }
  }

  lemma ListedCached(s: seq<R.Buf>, lh: seq<int>, blockno: nat)
    requires |s| == NBUF + 1 && Pinned(s, lh) && blockno in lh
    ensures Cached(s, blockno)
  {
    var a: nat :| PinnedAs(s, a, blockno);
    assert R.Carries(s, a, 1, blockno);
  }

  /** bread of a block of device 1 that nobody uses: it runs out of buffers exactly when the block is
      not cached and no buffer is idle. */
  method Bread(c: Cache, t: nat, pid: nat, blockno: nat, ghost lh: seq<int>) returns (b: nat)
    requires c.Valid() && t !in c.tickets && pid != 0 && blockno < |c.disk| && Pinned(c.buf, lh)
    requires forall u :: u in c.tickets ==> c.tickets[u].blockno != blockno
    modifies c
    ensures c.Valid() && c.disk == old(c.disk) && c.logical == old(c.logical) && c.touched == old(c.touched)
    ensures Pinned(c.buf, lh) && (b == NBUF <==> !Cached(old(c.buf), blockno) && !SomeIdle(old(c.buf)))
    ensures b == NBUF ==> c.tickets == old(c.tickets)
    ensures b != NBUF ==>
              && b < NBUF && c.tickets == old(c.tickets)[t := T.Ticket(pid, b, 1, blockno, T.Open)]
              && b !in c.touched && blockno < |c.logical| && c.buf[b].data == c.logical[blockno]
  {
    hide T.Booked, R.FullRing, Unique, Coherent, Recency, Pinned;
    b := c.Bget(t, pid, 1, blockno);
    if b == NBUF {
      return;
    }
    LockFree(old(c.buf), old(c.tickets), c.lockers, c.touched, b, blockno);
    c.Acquire(t);
    var ok := c.Fill(t);
    assert ok;
    PinnedSame(old(c.buf), c.buf, lh);
  }

  /** brelse of a buffer whose contents have been logged, written or left alone. */
  method Brelse(c: Cache, t: nat, ghost lh: seq<int>)
    requires c.Valid() && t in c.tickets && c.tickets[t].stage.Open? && c.tickets[t].b !in c.touched
    requires Pinned(c.buf, lh)
    modifies c
    ensures c.Valid() && c.tickets == old(c.tickets) - {t} && Pinned(c.buf, lh)
    ensures c.disk == old(c.disk) && c.logical == old(c.logical) && c.touched == old(c.touched)
  {
    hide T.Booked, R.FullRing, Unique, Coherent, Recency, Pinned;
    var b := c.tickets[t].b;
    T.TicketFacts(c.buf, c.tickets, c.lockers, c.touched, t);
    StillAgrees(c.buf, b, c.disk, c.logical, c.touched);
    var ok := c.Unlock(b, c.tickets[t].pid);
    assert c.touched == old(c.touched);
    c.Unref(t);
    PinnedSame(old(c.buf), c.buf, lh);
  }

  /** What a buffer that was read holds while nobody changes it. */
  lemma StillShows(c: Cache, t: nat)
    requires c.Valid() && t in c.tickets && c.tickets[t].stage.Open? && c.tickets[t].b !in c.touched
    ensures c.tickets[t].b < NBUF && c.tickets[t].blockno < |c.logical|
    ensures c.buf[c.tickets[t].b].data == c.logical[c.tickets[t].blockno]
  {
    hide R.FullRing, Unique, Recency;
    T.TicketFacts(c.buf, c.tickets, c.lockers, c.touched, t);
    StillAgrees(c.buf, c.tickets[t].b, c.disk, c.logical, c.touched);
  }

  /** The listed blocks that stay pinned when block n is written to the disk. */
  function StillListed(lh: seq<int>, n: int): seq<int> {
    if lh != [] && lh[0] == n then lh[1..] else lh
  }

  /** The holder of a buffer fills it and writes it to the disk: a block that is not listed, or the
      first that is. */
  method Overwrite(c: Cache, t: nat, data: R.Data, ghost lh: seq<int>)
    requires c.Valid() && t in c.tickets && c.tickets[t].stage.Open? && c.touched == {}
    requires c.tickets[t].dev == 1 && c.tickets[t].blockno < |c.disk|
    requires Pinned(c.buf, lh) && Distinct(lh) && (c.tickets[t].blockno in lh ==> c.tickets[t].blockno == lh[0])
    modifies c
    ensures c.Valid() && c.tickets == old(c.tickets) && c.touched == {}
    ensures var n := c.tickets[t].blockno;
      && n < |old(c.logical)| && Pinned(c.buf, StillListed(lh, n))
      && c.disk == old(c.disk)[n := data] && c.logical == old(c.logical)[n := data]
  {
    hide T.Booked, R.FullRing, Unique, Coherent, Recency, Pinned;
    var b := c.tickets[t].b;
    T.TicketFacts(c.buf, c.tickets, c.lockers, c.touched, t);
    SameLength(c.buf, c.disk, c.logical, c.touched);
    ghost var cleaned := c.buf[b := c.buf[b].(dirty := false)];
    if c.tickets[t].blockno in lh {
      FirstClean(c.buf, b, lh);
    } else {
      UnlistedClean(c.buf, b, lh);
      PinnedSame(c.buf, cleaned, lh);
    }
    c.Modify(t, data);
    var ok := c.Bwrite(b, c.tickets[t].pid);
    assert ok;
    PinnedSame(cleaned, c.buf, StillListed(lh, c.tickets[t].blockno));
  }

  // ----- the pieces of a commit -----

  /** One turn of write_log: the cached contents of a listed block go to a log block. */
  method CopyToLog(c: Cache, pid: nat, to: nat, from: nat, ghost lh: seq<int>) returns (ok: bool)
    requires AtRest(c, lh) && pid != 0 && to < |c.disk| && from < |c.disk| && from in lh && to !in lh
    modifies c
    ensures AtRest(c, lh) && (ok <==> |lh| < NBUF) && |old(c.logical)| == |old(c.disk)|
    ensures !ok ==> c.disk == old(c.disk) && c.logical == old(c.logical)
    ensures ok ==>
              && c.disk == old(c.disk)[to := old(c.logical)[from]]
              && c.logical == old(c.logical)[to := old(c.logical)[from]]
  {
    hide T.Booked, R.FullRing, Unique, Coherent, Recency, Pinned, Cached, PinsExactly;
    RestFacts(c, lh);
    Findable(c.buf, lh, to);
    var b := Bread(c, 0, pid, to, lh);
    if b == NBUF {
      return false;
    }
    ListedCached(c.buf, lh, from);
    var a := Bread(c, 1, pid, from, lh);
    Overwrite(c, 0, c.buf[a].data, lh);
    Brelse(c, 1, lh);
    Brelse(c, 0, lh);
    assert c.tickets == map[];
    ok := true;
  }

  /** One turn of install_trans: a log block goes to the home of the first listed block, which is
      then no longer pinned. */
  method CopyHome(c: Cache, pid: nat, from: nat, to: nat, ghost lh: seq<int>) returns (ok: bool)
    requires AtRest(c, lh) && pid != 0 && to < |c.disk| && from < |c.disk| && from !in lh && lh != [] && to == lh[0]
    modifies c
    ensures (ok <==> |lh| < NBUF) && |old(c.logical)| == |old(c.disk)|
    ensures ok ==>
              && AtRest(c, lh[1..]) && c.disk == old(c.disk)[to := old(c.logical)[from]]
              && c.logical == old(c.logical)[to := old(c.logical)[from]]
  {
    hide T.Booked, R.FullRing, Unique, Coherent, Recency, Pinned, Cached, PinsExactly;
    RestFacts(c, lh);
    Findable(c.buf, lh, from);
    var a := Bread(c, 0, pid, from, lh);
    if a == NBUF {
      return false;
    }
    ListedCached(c.buf, lh, to);
    var b := Bread(c, 1, pid, to, lh);
    StillShows(c, 0);
    Overwrite(c, 1, c.buf[a].data, lh);
    Brelse(c, 0, lh[1..]);
    Brelse(c, 1, lh[1..]);
    assert c.tickets == map[];
    ok := true;
  }

  /** write_head. */
  method WriteHead(c: Cache, pid: nat, start: nat, list: seq<int>, ghost lh: seq<int>) returns (ok: bool)
    requires AtRest(c, lh) && pid != 0 && start < |c.disk| && start !in lh && |c.disk[start]| == WORDS
    requires |list| <= LOGSIZE
    modifies c
    ensures AtRest(c, lh) && (ok <==> |lh| < NBUF) && |old(c.logical)| == |old(c.disk)|
    ensures ok ==>
              && c.disk == old(c.disk)[start := HeaderBlock(old(c.disk)[start], list)]
              && c.logical == old(c.logical)[start := HeaderBlock(old(c.disk)[start], list)]
  {
    hide T.Booked, R.FullRing, Unique, Coherent, Recency, Pinned, Cached, PinsExactly;
    RestFacts(c, lh);
    UnlistedCurrent(c, lh, start);
    Findable(c.buf, lh, start);
    var b := Bread(c, 0, pid, start, lh);
    if b == NBUF {
      return false;
    }
    Overwrite(c, 0, HeaderBlock(c.buf[b].data, list), lh);
    Brelse(c, 0, lh);
    assert c.tickets == map[];
    ok := true;
  }

  // ----- the commit -----

  ghost predicate WholeBlocks(d: seq<R.Data>) {
    forall b :: 0 <= b < |d| ==> |d[b]| == WORDS
  }

  ghost function ImageOf(d: seq<R.Data>): Image
    requires WholeBlocks(d)
  {
    d
  }

  /** The cache as log.c finds it: the pinned blocks are the listed ones, and every block is whole. */
  ghost predicate Logging(L: Layout, c: Cache, lh: seq<int>)
    reads c
  {
    && AtRest(c, lh) && WholeBlocks(c.disk) && WholeBlocks(c.logical)
    && L.Ok() && |c.disk| == |c.logical| == L.blocks
  }

  /** One log block more holds its copy. */
  lemma LogTurn(L: Layout, d: Image, list: seq<int>, before: Image, after: Image, t: nat)
    requires RecoversTo(L, d, before) && Listed(L, d) == [] && LogHolds(L, d, list, after, t) && t < |list|
    ensures var d' := d[L.start + 1 + t := after[list[t]]];
      RecoversTo(L, d', before) && Listed(L, d') == [] && LogHolds(L, d', list, after, t + 1)
  {
    LogBlockWrite(L, d, before, t, after[list[t]]);
  }

  /** write_log has filled the first tail log blocks. */
  ghost predicate Copying(L: Layout, c: Cache, lh: seq<int>, before: Image, after: Image, tail: nat)
    reads c
  {
    && Logging(L, c, lh) && Loggable(L, lh) && tail <= |lh| && HomeIs(L, ImageOf(c.logical), after)
    && RecoversTo(L, ImageOf(c.disk), before) && Listed(L, ImageOf(c.disk)) == []
    && LogHolds(L, ImageOf(c.disk), lh, after, tail)
  }

  method CopyOne(c: Cache, pid: nat, L: Layout, lh: seq<int>, tail: nat, ghost before: Image, ghost after: Image)
    returns (ok: bool)
    requires Copying(L, c, lh, before, after, tail) && tail < |lh| && pid != 0
    modifies c
    ensures ok <==> |lh| < NBUF
    ensures !ok ==> Logging(L, c, lh) && c.disk == old(c.disk) && c.logical == old(c.logical)
    ensures ok ==> Copying(L, c, lh, before, after, tail + 1)
  {
    hide AtRest, RecoveredAt, Listed, LogHolds, Distinct;
    LogTurn(L, ImageOf(c.disk), lh, before, after, tail);
    ok := CopyToLog(c, pid, L.start + 1 + tail, lh[tail], lh);
  }

  /** write_log: it runs out of buffers at the first turn or not at all. */
  method WriteLog(c: Cache, pid: nat, L: Layout, lh: seq<int>, ghost before: Image, ghost after: Image)
    returns (ok: bool, ghost images: seq<Image>)
    requires Logging(L, c, lh) && pid != 0 && Loggable(L, lh) && HomeIs(L, ImageOf(c.logical), after)
    requires RecoversTo(L, ImageOf(c.disk), before) && Listed(L, ImageOf(c.disk)) == []
    modifies c
    ensures Logging(L, c, lh) && (ok <==> lh == [] || |lh| < NBUF)
    ensures ok ==>
              && RecoversTo(L, ImageOf(c.disk), before) && Listed(L, ImageOf(c.disk)) == []
              && LogHolds(L, ImageOf(c.disk), lh, after, |lh|) && HomeIs(L, ImageOf(c.logical), after)
              && |images| == |lh| && AllRecoverTo(L, images, before)
    ensures !ok ==> c.disk == old(c.disk) && c.logical == old(c.logical) && images == []
  {
    images := [];
    var tail := 0;
    LogEmpty(L, ImageOf(c.disk), lh, after);
    hide AtRest, Loggable, HomeIs, Listed, LogHolds, RecoveredAt;
    while tail < |lh|
      invariant Copying(L, c, lh, before, after, tail)
      invariant |images| == tail && AllRecoverTo(L, images, before) && (tail > 0 ==> |lh| < NBUF)
      invariant tail == 0 ==> c.disk == old(c.disk) && c.logical == old(c.logical)
    {
      ok := CopyOne(c, pid, L, lh, tail, before, after);
      if !ok {
        return;
      }
      images := images + [ImageOf(c.disk)];
      tail := tail + 1;
    }
    ok := true;
  }

  lemma LogEmpty(L: Layout, d: Image, list: seq<int>, after: Image)
    requires L.Ok() && Loggable(L, list) && |d| == |after| == L.blocks
    ensures LogHolds(L, d, list, after, 0)
  { }

  /** One block more is home. */
  lemma InstallTurn(L: Layout, d: Image, logical: Image, list: seq<int>, want: Image, t: nat)
    requires RecoversTo(L, d, want) && Listed(L, d) == list && Installed(L, d, list, t) && t < |list|
    requires HomeIs(L, logical, want) && logical[L.start + 1 + t] == d[L.start + 1 + t]
    ensures var data := d[L.start + 1 + t]; var d', logical' := d[list[t] := data], logical[list[t] := data];
      && RecoversTo(L, d', want) && Listed(L, d') == list && Installed(L, d', list, t + 1)
      && HomeIs(L, logical', want)
  {
    InstallWrite(L, d, want, t);
    PositionOf(list, t);
    assert RecoveredAt(L, d, list[t]) == want[list[t]];
  }

  /** install_trans has copied the first tail blocks home, and only the others are still pinned. */
  ghost predicate Installing(L: Layout, c: Cache, lh: seq<int>, want: Image, tail: nat)
    reads c
  {
    && Loggable(L, lh) && tail <= |lh| && Logging(L, c, lh[tail..]) && HomeIs(L, ImageOf(c.logical), want)
    && RecoversTo(L, ImageOf(c.disk), want) && Listed(L, ImageOf(c.disk)) == lh
    && Installed(L, ImageOf(c.disk), lh, tail)
  }

  method InstallOne(c: Cache, pid: nat, L: Layout, lh: seq<int>, tail: nat, ghost want: Image) returns (ok: bool)
    requires Installing(L, c, lh, want, tail) && tail < |lh| && pid != 0
    modifies c
    ensures ok <==> |lh| - tail < NBUF
    ensures ok ==> Installing(L, c, lh, want, tail + 1)
  {
    hide AtRest, RecoveredAt, HomeIs, Listed, Installed, Distinct;
    LogUnlisted(L, lh, tail);
    UnlistedCurrent(c, lh[tail..], L.start + 1 + tail);
    InstallTurn(L, ImageOf(c.disk), ImageOf(c.logical), lh, want, tail);
    ok := CopyHome(c, pid, L.start + 1 + tail, lh[tail], lh[tail..]);
    assert lh[tail..][1..] == lh[tail + 1..];
  }

  /** install_trans: no buffer is missing at a later turn either, as every turn unpins one. */
  method InstallTrans(c: Cache, pid: nat, L: Layout, lh: seq<int>, ghost want: Image)
    returns (ok: bool, ghost images: seq<Image>)
    requires Logging(L, c, lh) && pid != 0 && Loggable(L, lh) && HomeIs(L, ImageOf(c.logical), want)
    requires RecoversTo(L, ImageOf(c.disk), want) && Listed(L, ImageOf(c.disk)) == lh
    modifies c
    ensures ok <==> lh == [] || |lh| < NBUF
    ensures ok ==>
              && Logging(L, c, []) && HomeIs(L, ImageOf(c.logical), want)
              && RecoversTo(L, ImageOf(c.disk), want) && Listed(L, ImageOf(c.disk)) == lh
              && Installed(L, ImageOf(c.disk), lh, |lh|) && |images| == |lh| && AllRecoverTo(L, images, want)
  {
    images := [];
    var tail := 0;
    NoneInstalled(L, ImageOf(c.disk), lh);
    assert lh[0..] == lh && lh[|lh|..] == [];
    hide AtRest, Loggable, HomeIs, Listed, Installed, RecoveredAt;
    while tail < |lh|
      invariant Installing(L, c, lh, want, tail)
      invariant |images| == tail && AllRecoverTo(L, images, want) && (tail > 0 ==> |lh| < NBUF)
    {
      ok := InstallOne(c, pid, L, lh, tail, want);
      if !ok {
        return;
      }
      images := images + [ImageOf(c.disk)];
      tail := tail + 1;
    }
    ok := true;
  }

  lemma LogUnlisted(L: Layout, lh: seq<int>, tail: nat)
    requires L.Ok() && Loggable(L, lh) && tail < |lh|
    ensures L.start + 1 + tail !in lh[tail..] && L.start + 1 + tail < L.blocks
    ensures lh[tail..] != [] && lh[tail..][0] == lh[tail] && 0 <= lh[tail] < L.blocks
  { }

  lemma NoneInstalled(L: Layout, d: Image, list: seq<int>)
    requires L.Ok() && Loggable(L, list) && |d| == L.blocks
    ensures Installed(L, d, list, 0)
  { }

  /** commit, with every bread and bwrite going through the cache: it finds all its buffers exactly
      when it logs fewer than NBUF blocks.  Then a crash after any of its disk writes recovers to the
      old contents up to the header write and to the cached contents from it on, and at the end
      nothing is pinned and the disk is what the cache shows. */
  method Commit(c: Cache, pid: nat, L: Layout, lh: seq<int>)
    returns (ok: bool, ghost early: seq<Image>, ghost late: seq<Image>)
    requires Logging(L, c, lh) && pid != 0 && Loggable(L, lh)
    requires Recoverable(L, ImageOf(c.disk)) && Listed(L, ImageOf(c.disk)) == []
    modifies c
    ensures ok <==> |lh| < NBUF
    ensures ok ==>
              && Logging(L, c, []) && c.disk == c.logical
              && Recoverable(L, ImageOf(c.disk)) && Listed(L, ImageOf(c.disk)) == []
              && HomeIs(L, ImageOf(c.disk), old(ImageOf(c.logical)))
              && |early| == |lh| && AllRecoverTo(L, early, old(ImageOf(c.disk)))
              && |late| == (if lh == [] then 0 else |lh| + 2) && AllRecoverTo(L, late, old(ImageOf(c.logical)))
    ensures !ok ==> Logging(L, c, lh) && c.disk == old(c.disk) && c.logical == old(c.logical)
  {
    hide AtRest, RecoveredAt, LogHolds, Installed, Distinct, HeaderBlock;
    ghost var before, after := ImageOf(c.disk), ImageOf(c.logical);
    early, late := [], [];
    EmptyLogIsHome(L, before, before);
    if |lh| > 0 {
      UnlistedSame(c, L, lh);
      ok, early := WriteLog(c, pid, L, lh, before, after);
      if !ok {
        return;
      }
      CommitPoint(L, ImageOf(c.disk), lh, before, after);
      ok := WriteHead(c, pid, L.start, lh, lh);
      ghost var commitPoint := ImageOf(c.disk);
      ok, late := InstallTrans(c, pid, L, lh, after);
      ClearWrite(L, ImageOf(c.disk), after);
      ok := WriteHead(c, pid, L.start, [], []);
      late := [commitPoint] + late + [ImageOf(c.disk)];
    }
    AllCurrent(c);
    ok := true;
  }

  lemma UnlistedSame(c: Cache, L: Layout, lh: seq<int>)
    requires Logging(L, c, lh)
    ensures forall b :: L.Home(b) && b !in lh ==> ImageOf(c.disk)[b] == ImageOf(c.logical)[b]
  {
    forall b | L.Home(b) && b !in lh ensures c.disk[b] == c.logical[b] { UnlistedCurrent(c, lh, b); }
  }

  lemma AllCurrent(c: Cache)
    requires AtRest(c, [])
    ensures c.disk == c.logical
  {
    RestFacts(c, []);
    forall b | 0 <= b < |c.disk| ensures c.disk[b] == c.logical[b] { UnlistedCurrent(c, [], b); }
  }

  // ----- filling the cache -----

  /** bread, a change, log_write and brelse: one more block is pinned, unless it was already. */
  method LoggedWrite(c: Cache, pid: nat, blockno: nat, data: R.Data, ghost lh: seq<int>) returns (ok: bool)
    requires AtRest(c, lh) && pid != 0 && blockno < |c.disk|
    modifies c
    ensures |old(c.logical)| == |old(c.disk)| && c.disk == old(c.disk) && (ok <==> blockno in lh || |lh| < NBUF)
    ensures ok ==>
              && AtRest(c, if blockno in lh then lh else lh + [blockno])
              && c.logical == old(c.logical)[blockno := data]
  {
    hide T.Booked, R.FullRing, Unique, Coherent, Recency, Pinned, Cached, PinsExactly;
    RestFacts(c, lh);
    Findable(c.buf, lh, blockno);
    var b := Bread(c, 0, pid, blockno, lh);
    if b == NBUF {
      return false;
    }
    ghost var more := if blockno in lh then lh else lh + [blockno];
    T.TicketFacts(c.buf, c.tickets, c.lockers, c.touched, 0);
    PinMore(c.buf, b, lh);
    ghost var pinned := c.buf[b := c.buf[b].(dirty := true)];
    c.Modify(0, data);
    c.LogWrite(0);
    PinnedSame(pinned, c.buf, more);
    Brelse(c, 0, more);
    assert c.tickets == map[];
    ok := true;
  }

  /** The run of FullCommitRun: the disk it leaves, and the blocks it lists. */
  ghost predicate FullCommit(L: Layout, t: State, image: seq<R.Data>, lh: seq<int>) {
    && t.phase == Committing(0) && t.disk == image && t.lh == lh && |lh| == NBUF && Loggable(L, lh)
    && forall b :: b in lh ==> b in t.pinned
  }

  lemma FullCommitState(L: Layout, image: Image) returns (steps: seq<Step>)
    requires EmptyLog(L, image) && Ample(L) && L.size > LOGSIZE
    ensures Legal(L, Boot(image), steps)
    ensures FullCommit(L, After(L, Boot(image), steps), image[L.start := HeaderBlock(image[L.start], [])],
                       seq(NBUF, i => L.start + L.size + i))
    ensures forall b :: L.start + L.size <= b < L.start + L.size + NBUF ==>
      b in After(L, Boot(image), steps).pinned && After(L, Boot(image), steps).pinned[b] == Blank()
  {
    steps := FullCommitRun(L, image);
    var t := After(L, Boot(image), steps);
    assert t.lh == seq(NBUF, i => L.start + L.size + i);
    forall b | L.start + L.size <= b < L.start + L.size + NBUF ensures b in t.pinned && t.pinned[b] == Blank() {
      assert t.lh[b - L.start - L.size] == b;
    }
  }

  /** As many logged writes as there are buffers, of blocks in a row. */
  method FillCache(image: seq<R.Data>, first: nat, data: R.Data) returns (c: Cache)
    requires first + NBUF <= |image|
    ensures fresh(c) && AtRest(c, seq(NBUF, i => first + i)) && c.disk == image && |c.logical| == |image|
    ensures forall b :: 0 <= b < |image| ==> c.logical[b] == if first <= b < first + NBUF then data else image[b]
  {
    hide AtRest;
    c := new Cache(image);
    ghost var lh := seq(NBUF, i => first + i);
    NewAtRest(c);
    assert lh[..0] == [];
    var k := 0;
    while k < NBUF
      invariant 0 <= k <= NBUF && fresh(c) && AtRest(c, lh[..k]) && c.disk == image && |c.logical| == |image|
      invariant forall b :: 0 <= b < |image| ==> c.logical[b] == if first <= b < first + k then data else image[b]
    {
      var _ := LoggedWrite(c, 1, first + k, data, lh[..k]);
      assert lh[..k + 1] == lh[..k] + [first + k];
      k := k + 1;
    }
    assert lh[..k] == lh;
  }

  lemma NewAtRest(c: Cache)
    requires c.Valid() && c.tickets == map[] && forall a :: 0 <= a < NBUF ==> !c.buf[a].dirty
    ensures AtRest(c, [])
  { }

  /** Even with a region larger than LOGSIZE there is a run of operations after which the cache, as
      their writes leave it, has no buffer for the commit: the log may list as many blocks as there
      are buffers. */
  method StarvedCommit(L: Layout, image: Image) returns (ghost steps: seq<Step>, c: Cache, ok: bool)
    requires EmptyLog(L, image) && Ample(L) && L.size > LOGSIZE
    ensures Legal(L, Boot(image), steps) && fresh(c) && !ok
    ensures var t := After(L, Boot(image), steps);
      && t.phase == Committing(0) && |t.lh| == NBUF && Loggable(L, t.lh) && Logging(L, c, t.lh) && c.disk == t.disk
      && (forall b :: 0 <= b < L.blocks && b !in t.lh ==> c.logical[b] == t.disk[b])
      && (forall b :: b in t.lh ==> b in t.pinned && 0 <= b < L.blocks && c.logical[b] == t.pinned[b])
  {
    hide AtRest, Legal, After;
    steps := FullCommitState(L, image);
    var disk := image[L.start := HeaderBlock(image[L.start], [])];
    HeaderRoundTrip(L, image, []);
    c := FillCache(disk, L.start + L.size, seq(WORDS, _ => 0));
    ghost var t := After(L, Boot(image), steps);
    forall b | L.start + L.size <= b < L.start + L.size + NBUF ensures b in t.lh {
      assert t.lh[b - L.start - L.size] == b;
    }
    ghost var early, late;
    ok, early, late := Commit(c, 1, L, seq(NBUF, i => L.start + L.size + i));
  }
}
