/** The log and the cache together: a commit needs buffers for the log's own blocks while the blocks
    it logs stay pinned. */
module CommitBuffers {
  import opened Params
  import opened RedoLog
  import opened LogProtocol
  import opened LogTheorems
  import opened LogRoom
  import R = BufferRing
  import opened BufferCache

  /** Buffers that bget cannot recycle. */
  ghost function Busy(s: seq<R.Buf>): set<nat>
    requires |s| == NBUF + 1
  {
    set a: nat | a < NBUF && !Idle(s[a])
  }

  ghost predicate SomeIdle(s: seq<R.Buf>)
    requires |s| == NBUF + 1
  {
    exists a: nat :: a < NBUF && Idle(s[a])
  }

  ghost function Below(n: nat): (all: set<nat>)
    ensures |all| == n && forall a: nat :: a in all <==> a < n
  {
    if n == 0 then {} else Below(n - 1) + {n - 1}
  }

  /** A block that is not cached gets a buffer exactly when fewer than NBUF buffers are referenced
      or dirty. */
  lemma BufferLeft(s: seq<R.Buf>)
    requires |s| == NBUF + 1
    ensures SomeIdle(s) <==> |Busy(s)| < NBUF
  {
    var all := Below(NBUF);
    assert Busy(s) <= all;
    if SomeIdle(s) {
      var a: nat :| a < NBUF && Idle(s[a]);
      Smaller(Busy(s), all, a);
    } else {
      assert Busy(s) == all;
    }
  }

  lemma Smaller(x: set<nat>, y: set<nat>, a: nat)
    requires x <= y && a in y && a !in x
    ensures |x| < |y|
  {
    assert y == x + (y - x) && a in y - x;
  }

  ghost predicate PinnedAs(s: seq<R.Buf>, a: nat, b: int)
    requires |s| == NBUF + 1
  {
    a < NBUF && s[a].dirty && s[a].dev == 1 && s[a].blockno == b
  }

  /** The cache pins exactly the listed blocks. */
  ghost predicate Pinned(s: seq<R.Buf>, lh: seq<int>)
    requires |s| == NBUF + 1
  {
    && (forall a: nat :: a < NBUF && s[a].dirty ==> s[a].dev == 1 && s[a].blockno in lh)
    && (forall b :: b in lh ==> exists a: nat :: PinnedAs(s, a, b))
  }

  /** ... and nobody uses a buffer, as when a commit asks for its first log block. */
  ghost predicate PinsExactly(s: seq<R.Buf>, lh: seq<int>)
    requires |s| == NBUF + 1
  {
    && Unique(s) && Distinct(lh) && Pinned(s, lh)
    && (forall a: nat :: a < NBUF ==> s[a].refcnt == 0)
  }

  lemma {:induction false} PinnedCount(s: seq<R.Buf>, dirty: set<nat>, lh: seq<int>)
    requires |s| == NBUF + 1 && Unique(s) && Distinct(lh)
    requires forall a :: a in dirty ==> a < NBUF && s[a].dev == 1 && s[a].blockno in lh
    requires forall b :: b in lh ==> exists a :: a in dirty && PinnedAs(s, a, b)
    ensures |dirty| == |lh|
    decreases |lh|
  {
    if lh == [] {
      assert dirty == {};
    } else {
      var n := |lh| - 1;
      var b, rest := lh[n], lh[..n];
      assert b in lh;
      var a :| a in dirty && PinnedAs(s, a, b);
      var others := dirty - {a};
      forall c | c in others ensures s[c].blockno in rest {
        assert c < a ==> Differ(s[c], s[a]);
        assert a < c ==> Differ(s[a], s[c]);
        assert s[c].blockno in lh;
      }
      forall d | d in rest ensures exists c :: c in others && PinnedAs(s, c, d) {
        assert d in lh && d != b;
        var c :| c in dirty && PinnedAs(s, c, d);
        assert c in others;
      }
      PinnedCount(s, others, rest);
    }
  }

  /** A block that is neither listed nor cached gets a buffer exactly when fewer than NBUF blocks are
      listed, and with NBUF of them only listed blocks are cached. */
  lemma CommitFindsBuffer(s: seq<R.Buf>, lh: seq<int>)
    requires |s| == NBUF + 1 && PinsExactly(s, lh)
    ensures SomeIdle(s) <==> |lh| < NBUF
    ensures |lh| <= NBUF
    ensures |lh| == NBUF ==> forall a: nat :: a < NBUF ==> s[a].dev == 1 && s[a].blockno in lh
  {
    BufferLeft(s);
    var dirty := Busy(s);
    forall a | a in dirty ensures s[a].dev == 1 && s[a].blockno in lh { assert s[a].dirty; }
    forall b | b in lh ensures exists a :: a in dirty && PinnedAs(s, a, b) {
      var a: nat :| PinnedAs(s, a, b);
      assert a in dirty;
    }
    PinnedCount(s, dirty, lh);
    AtMostAll(dirty, NBUF);
    if |lh| == NBUF {
      forall a: nat | a < NBUF ensures a in dirty { assert !SomeIdle(s); }
    }
  }

  lemma AtMostAll(x: set<nat>, n: nat)
    requires forall a :: a in x ==> a < n
    ensures |x| <= n
  {
    var all := Below(n);
    assert x <= all && all == x + (all - x);
  }

  // ----- how the pins change -----

  predicate SamePin(x: R.Buf, y: R.Buf) {
    x.dirty == y.dirty && (x.dirty ==> x.dev == y.dev && x.blockno == y.blockno)
  }

  /** The same buffers are pinned, for the same blocks. */
  ghost predicate SamePins(s: seq<R.Buf>, r: seq<R.Buf>)
    requires |s| == NBUF + 1 == |r|
  {
    forall a: nat :: a < NBUF ==> SamePin(s[a], r[a])
  }

  lemma PinnedSame(s: seq<R.Buf>, r: seq<R.Buf>, lh: seq<int>)
    requires |s| == NBUF + 1 == |r| && SamePins(s, r) && Pinned(s, lh)
    ensures Pinned(r, lh)
  {
    forall a: nat | a < NBUF && r[a].dirty ensures r[a].dev == 1 && r[a].blockno in lh {
      assert SamePin(s[a], r[a]);
    }
    forall b | b in lh ensures exists a: nat :: PinnedAs(r, a, b) {
      var a: nat :| PinnedAs(s, a, b);
      assert SamePin(s[a], r[a]) && PinnedAs(r, a, b);
    }
  }

  /** Writing a block that is not listed to the disk pins and unpins nothing. */
  lemma UnlistedClean(s: seq<R.Buf>, b: nat, lh: seq<int>)
    requires |s| == NBUF + 1 && Pinned(s, lh) && b < NBUF && s[b].blockno !in lh
    ensures SamePins(s, s[b := s[b].(dirty := false)])
  { }

  /** Writing the first listed block to the disk unpins it. */
  lemma FirstClean(s: seq<R.Buf>, b: nat, lh: seq<int>)
    requires |s| == NBUF + 1 && Pinned(s, lh) && Unique(s) && Distinct(lh) && lh != []
    requires b < NBUF && s[b].dev == 1 && s[b].blockno == lh[0]
    ensures Pinned(s[b := s[b].(dirty := false)], lh[1..])
  {
    var r := s[b := s[b].(dirty := false)];
    forall a: nat | a < NBUF && r[a].dirty ensures r[a].dev == 1 && r[a].blockno in lh[1..] {
      assert s[a].blockno in lh;
      assert a < b ==> Differ(s[a], s[b]);
      assert b < a ==> Differ(s[b], s[a]);
    }
    forall n | n in lh[1..] ensures exists a: nat :: PinnedAs(r, a, n) {
      assert n in lh && n != lh[0];
      var a: nat :| PinnedAs(s, a, n);
      assert PinnedAs(r, a, n);
    }
  }

  /** log_write pins a block, once. */
  lemma PinMore(s: seq<R.Buf>, b: nat, lh: seq<int>)
    requires |s| == NBUF + 1 && Pinned(s, lh) && Distinct(lh) && b < NBUF && s[b].dev == 1
    ensures var n := s[b].blockno; var more := if n in lh then lh else lh + [n];
      Distinct(more) && Pinned(s[b := s[b].(dirty := true)], more)
  {
    var n, r := s[b].blockno, s[b := s[b].(dirty := true)];
    var more := if n in lh then lh else lh + [n];
    forall k | k in more ensures exists a: nat :: PinnedAs(r, a, k) {
      if k == n {
        assert PinnedAs(r, b, k);
      } else {
        assert k in lh;
        var a: nat :| PinnedAs(s, a, k);
        assert PinnedAs(r, a, k);
      }
    }
  }
}
