/** The write-ahead redo log of log.c.

    The disk is an array of blocks whose single-block writes are atomic.  The log
    region holds a header block followed by copies of the blocks being committed.
    This module gives the meaning of a disk image after a crash (RecoveredAt), the
    effect of each single-block write on that meaning, and the commit and recovery
    code itself, with every intermediate disk image recorded in a trail. */
module RedoLog {
  import opened Params

  const WORDS: nat := 128   // BSIZE / sizeof(int)

  /** A disk block seen as 32-bit words. */
  type Block = b: seq<int> | |b| == WORDS witness seq(WORDS, _ => 0)

  type Image = seq<Block>

  /** Where the log lives: header at start, log blocks at start+1 .. start+size-1. */
  datatype Layout = Layout(start: nat, size: nat, blocks: nat) {
    predicate Ok() {
      1 <= size && start + size <= blocks
    }

    /** A home block is any block outside the log region. */
    predicate Home(b: int) {
      0 <= b < blocks && !(start <= b < start + size)
    }
  }

  /** A list of block numbers that fits the log region and can be replayed. */
  ghost predicate Loggable(L: Layout, list: seq<int>) {
    && |list| <= LOGSIZE
    && |list| < L.size
    && (forall t :: 0 <= t < |list| ==> L.Home(list[t]))
    && (forall t, u :: 0 <= t < u < |list| ==> list[t] != list[u])
  }

  /** A header block as write_head leaves it: a count, the numbers, and whatever was there before. */
  function HeaderBlock(before: Block, list: seq<int>): (h: Block)
    requires |list| <= LOGSIZE
  {
    [|list|] + list + before[1 + |list|..]
  }

  ghost predicate HasHeader(L: Layout, d: Image) {
    L.Ok() && |d| == L.blocks && 0 <= d[L.start][0] <= LOGSIZE
  }

  /** The block numbers recorded by the on-disk header. */
  function Listed(L: Layout, d: Image): seq<int>
    requires HasHeader(L, d)
  {
    d[L.start][1..1 + d[L.start][0]]
  }

  /** A disk image that recovery can start from. */
  ghost predicate Recoverable(L: Layout, d: Image) {
    HasHeader(L, d) && Loggable(L, Listed(L, d))
  }

  /** First position of b in the list, or the length of the list. */
  function Position(list: seq<int>, b: int): (i: nat)
    ensures i <= |list|
    ensures i < |list| ==> list[i] == b
    ensures forall k :: 0 <= k < i ==> list[k] != b
  {
    if list == [] then 0
    else if list[0] == b then 0
    else 1 + Position(list[1..], b)
  }

  /** What a home block holds once recovery has run to completion on d. */
  ghost function RecoveredAt(L: Layout, d: Image, b: int): Block
    requires Recoverable(L, d) && L.Home(b)
  {
    var list := Listed(L, d);
    var i := Position(list, b);
    if i < |list| then d[L.start + 1 + i] else d[b]
  }

  /** After recovery from d every home block agrees with want. */
  ghost predicate RecoversTo(L: Layout, d: Image, want: Image) {
    && Recoverable(L, d)
    && |want| == L.blocks
    && (forall b :: L.Home(b) ==> RecoveredAt(L, d, b) == want[b])
  }

  ghost predicate AllRecoverTo(L: Layout, images: seq<Image>, want: Image) {
    forall k :: 0 <= k < |images| ==> RecoversTo(L, images[k], want)
  }

  /** The home blocks of d hold want. */
  ghost predicate HomeIs(L: Layout, d: Image, want: Image) {
    |d| == |want| == L.blocks && (forall b :: L.Home(b) ==> d[b] == want[b])
  }

  /** The first k log blocks hold want's contents for the listed blocks. */
  ghost predicate LogHolds(L: Layout, d: Image, list: seq<int>, want: Image, k: int) {
    && L.Ok() && Loggable(L, list) && |d| == |want| == L.blocks && k <= |list|
    && (forall t :: 0 <= t < k ==> d[L.start + 1 + t] == want[list[t]])
  }

  /** The first k listed blocks have been copied home. */
  ghost predicate Installed(L: Layout, d: Image, list: seq<int>, k: int) {
    && L.Ok() && Loggable(L, list) && |d| == L.blocks && k <= |list|
    && (forall t :: 0 <= t < k ==> d[list[t]] == d[L.start + 1 + t])
  }

  /** The contents of a block as bread returns them. */
  function Seen(disk: Image, pinned: map<int, Block>, b: int): Block
    requires 0 <= b < |disk|
  {
    if b in pinned then pinned[b] else disk[b]
  }

  // ----- the effect of each kind of disk write on what recovery would produce -----

  lemma HeaderRoundTrip(L: Layout, d: Image, list: seq<int>)
    requires L.Ok() && |d| == L.blocks && Loggable(L, list)
    ensures var d' := d[L.start := HeaderBlock(d[L.start], list)];
            Recoverable(L, d') && Listed(L, d') == list
  {
    var h := HeaderBlock(d[L.start], list);
    assert h[1..1 + |list|] == list;
  }

  lemma PositionOf(list: seq<int>, t: nat)
    requires t < |list|
    requires forall i, j :: 0 <= i < j < |list| ==> list[i] != list[j]
    ensures Position(list, list[t]) == t
  {
  }

  /** Before the header is written, log blocks do not matter. */
  lemma LogBlockWrite(L: Layout, d: Image, want: Image, t: nat, data: Block)
    requires RecoversTo(L, d, want) && Listed(L, d) == [] && t + 1 < L.size
    ensures RecoversTo(L, d[L.start + 1 + t := data], want)
    ensures Listed(L, d[L.start + 1 + t := data]) == []
  {
    var d' := d[L.start + 1 + t := data];
    forall b | L.Home(b) ensures RecoveredAt(L, d', b) == want[b] {
      assert RecoveredAt(L, d, b) == want[b];
    }
  }

  /** The header write is the commit point: it switches recovery from `before` to `after`. */
  lemma CommitPoint(L: Layout, d: Image, list: seq<int>, before: Image, after: Image)
    requires RecoversTo(L, d, before) && Listed(L, d) == []
    requires LogHolds(L, d, list, after, |list|)
    requires forall b :: L.Home(b) && b !in list ==> before[b] == after[b]
    ensures var d' := d[L.start := HeaderBlock(d[L.start], list)];
            RecoversTo(L, d', after) && Listed(L, d') == list
  {
    var d' := d[L.start := HeaderBlock(d[L.start], list)];
    HeaderRoundTrip(L, d, list);
    forall b | L.Home(b) ensures RecoveredAt(L, d', b) == after[b] {
      assert RecoveredAt(L, d, b) == before[b];
      var i := Position(list, b);
      if i == |list| { assert b !in list; }
    }
  }

  /** Copying a logged block home changes nothing that recovery would produce. */
  lemma InstallWrite(L: Layout, d: Image, want: Image, t: nat)
    requires RecoversTo(L, d, want) && t < |Listed(L, d)|
    requires Installed(L, d, Listed(L, d), t)
    ensures var list := Listed(L, d); var d' := d[list[t] := d[L.start + 1 + t]];
            RecoversTo(L, d', want) && Listed(L, d') == list && Installed(L, d', list, t + 1)
  {
    var list := Listed(L, d);
    var d' := d[list[t] := d[L.start + 1 + t]];
    assert L.Home(list[t]);
    assert d'[L.start] == d[L.start];
    PositionOf(list, t);
    hide Position;
    forall b | L.Home(b) ensures RecoveredAt(L, d', b) == want[b] {
      assert RecoveredAt(L, d, b) == want[b];
    }
  }

  /** Once everything is installed, erasing the header loses nothing. */
  lemma ClearWrite(L: Layout, d: Image, want: Image)
    requires RecoversTo(L, d, want)
    requires Installed(L, d, Listed(L, d), |Listed(L, d)|)
    ensures var d' := d[L.start := HeaderBlock(d[L.start], [])];
            RecoversTo(L, d', want) && Listed(L, d') == [] && HomeIs(L, d', want)
  {
    var d' := d[L.start := HeaderBlock(d[L.start], [])];
    HeaderRoundTrip(L, d, []);
    forall b | L.Home(b) ensures RecoveredAt(L, d', b) == want[b] && d'[b] == want[b] {
      assert RecoveredAt(L, d, b) == want[b];
    }
  }

  /** An image with an empty header already is what recovery would leave. */
  lemma EmptyLogIsHome(L: Layout, d: Image, want: Image)
    requires Recoverable(L, d) && Listed(L, d) == [] && |want| == L.blocks
    ensures RecoversTo(L, d, want) <==> HomeIs(L, d, want)
  {
    forall b | L.Home(b) ensures RecoveredAt(L, d, b) == d[b] { }
  }

  // ----- the code of log.c -----

  /** The in-memory log of one booted kernel together with its disk and its pinned
      (B_DIRTY) buffers. */
  class Log {
    const L: Layout
    var disk: Image
    var pinned: map<int, Block>
    const block: array<int>   // log.lh.block
    var n: nat                // log.lh.n
    /** Every disk image so far, one entry per completed single-block write. */
    ghost var trail: seq<Image>

    ghost predicate Valid()
      reads this, block
    {
      && L.Ok() && |disk| == L.blocks
      && block.Length == LOGSIZE && n <= LOGSIZE
    }

    ghost function Header(): seq<int>
      requires Valid()
      reads this, block
    {
      block[..n]
    }

    /** Between transactions: the on-disk header is empty and exactly the logged
        blocks are pinned in the cache. */
    ghost predicate Open()
      reads this, block
    {
      && Valid()
      && Recoverable(L, disk) && Listed(L, disk) == []
      && Loggable(L, Header())
      && (forall b :: b in pinned <==> b in Header())
    }

    /** A freshly booted kernel over some disk; nothing is cached yet. */
    constructor (layout: Layout, image: Image)
      requires layout.Ok() && |image| == layout.blocks
      ensures Valid() && fresh(block) && L == layout && disk == image
      ensures pinned == map[] && n == 0 && trail == []
    {
      L, disk, pinned, n, trail := layout, image, map[], 0, [];
      block := new int[LOGSIZE];
    }

    /** bwrite: one atomic block write, after which the buffer is clean. */
    method Bwrite(b: int, data: Block)
      requires Valid() && 0 <= b < |disk|
      modifies this
      ensures Valid() && n == old(n)
      ensures disk == old(disk)[b := data] && trail == old(trail) + [disk]
      ensures pinned == old(pinned) - {b}
    {
      disk := disk[b := data];
      trail := trail + [disk];
      pinned := pinned - {b};
    }

    /** log_write; panics when the log looks full or no operation is outstanding.  Absorbs a
        second write of a block that is already logged. */
    method LogWrite(b: int, data: Block, outstanding: int) returns (panicked: bool)
      requires Open() && L.Home(b)
      modifies this, block
      ensures disk == old(disk) && trail == old(trail)
      ensures panicked <==> old(n) >= LOGSIZE || old(n) >= L.size - 1 || outstanding < 1
      ensures panicked ==> Open() && Header() == old(Header()) && pinned == old(pinned)
      ensures !panicked ==> Open() && pinned == old(pinned)[b := data]
      ensures !panicked ==>
                Header() == if b in old(Header()) then old(Header()) else old(Header()) + [b]
    {
      if n >= LOGSIZE || n >= L.size - 1 {
        return true;
      }
      if outstanding < 1 {
        return true;
      }
      var i := 0;
      while i < n && block[i] != b
        invariant 0 <= i <= n
        invariant forall k :: 0 <= k < i ==> block[k] != b
      {
        i := i + 1;
      }
      ghost var was := block[..n];
      block[i] := b;
      if i == n {
        n := n + 1;
        assert block[..n] == was + [b];
      } else {
        assert was[i] == b;
        assert block[..n] == was;
      }
      pinned := pinned[b := data];
      panicked := false;
    }

    /** write_head. */
    method WriteHead()
      requires Valid() && n < L.size
      modifies this
      ensures Valid() && n == old(n)
      ensures disk == old(disk)[L.start := HeaderBlock(old(disk)[L.start], Header())]
      ensures trail == old(trail) + [disk] && pinned == old(pinned) - {L.start}
    {
      var before := disk[L.start];
      var hb := before[0 := n];
      var i := 0;
      while i < n
        invariant 0 <= i <= n && |hb| == WORDS
        invariant hb[0] == n && hb[1..1 + i] == block[..i] && hb[1 + i..] == before[1 + i..]
      {
        ghost var prev := hb;
        hb := hb[1 + i := block[i]];
        assert hb[1..2 + i] == prev[1..1 + i] + [block[i]];
        assert block[..i + 1] == block[..i] + [block[i]];
        assert hb[2 + i..] == prev[1 + i..][1..];
        i := i + 1;
      }
      assert hb == HeaderBlock(before, block[..n]);
      Bwrite(L.start, hb);
    }

    /** write_log: every image on the way recovers to `before`. */
    method WriteLog(ghost list: seq<int>, ghost before: Image, ghost after: Image) returns (ghost images: seq<Image>)
      requires Open() && list == Header() && HomeIs(L, disk, before)
      requires |after| == L.blocks && (forall b :: b in list ==> L.Home(b) && after[b] == Seen(disk, pinned, b))
      modifies this
      ensures Valid() && list == Header() && n == old(n) && pinned == old(pinned)
      ensures RecoversTo(L, disk, before) && Listed(L, disk) == []
      ensures LogHolds(L, disk, list, after, n)
      ensures trail == old(trail) + images && |images| == n && AllRecoverTo(L, images, before)
    {
      EmptyLogIsHome(L, disk, before);
      hide RecoveredAt;
      images := [];
      var tail := 0;
      while tail < n
        invariant 0 <= tail <= n == |list| && n == old(n) && pinned == old(pinned) && Valid()
        invariant RecoversTo(L, disk, before) && Listed(L, disk) == []
        invariant forall b :: b in list ==> disk[b] == old(disk)[b]
        invariant LogHolds(L, disk, list, after, tail)
        invariant trail == old(trail) + images && |images| == tail && AllRecoverTo(L, images, before)
      {
        assert block[tail] == list[tail] && list[tail] in list;
        LogBlockWrite(L, disk, before, tail, Seen(disk, pinned, block[tail]));
        Bwrite(L.start + 1 + tail, Seen(disk, pinned, block[tail]));
        images := images + [disk];
        tail := tail + 1;
      }
    }

    /** install_trans: every image on the way, and the last one, recovers to `want`. */
    method InstallTrans(ghost list: seq<int>, ghost want: Image) returns (ghost images: seq<Image>)
      requires Valid() && list == Header() && RecoversTo(L, disk, want) && Listed(L, disk) == list
      modifies this
      ensures Valid() && list == Header() && n == old(n)
      ensures RecoversTo(L, disk, want) && Listed(L, disk) == list && Installed(L, disk, list, n)
      ensures forall b :: b in pinned <==> b in old(pinned) && b !in list
      ensures trail == old(trail) + images && |images| == n && AllRecoverTo(L, images, want)
    {
      hide RecoveredAt;
      images := [];
      var tail := 0;
      while tail < n
        invariant 0 <= tail <= n == |list| && n == old(n) && Valid()
        invariant RecoversTo(L, disk, want) && Listed(L, disk) == list && Installed(L, disk, list, tail)
        invariant forall b :: b in pinned <==> b in old(pinned) && b !in list[..tail]
        invariant trail == old(trail) + images && |images| == tail && AllRecoverTo(L, images, want)
      {
        assert block[tail] == list[tail] && L.Home(list[tail]);
        InstallWrite(L, disk, want, tail);
        Bwrite(block[tail], disk[L.start + 1 + tail]);
        assert list[..tail + 1] == list[..tail] + [list[tail]];
        images := images + [disk];
        tail := tail + 1;
      }
      assert list[..tail] == list;
    }

    /** commit: after any single disk write a crash recovers either to the blocks as they
        were (before the header write) or to all of the logged writes (from it on). */
    method Commit(ghost before: Image, ghost after: Image) returns (ghost early: seq<Image>, ghost late: seq<Image>)
      requires Open() && HomeIs(L, disk, before)
      requires |after| == L.blocks && (forall b :: L.Home(b) ==> after[b] == Seen(disk, pinned, b))
      modifies this
      ensures Open() && n == 0 && HomeIs(L, disk, after)
      ensures trail == old(trail) + early + late
      ensures |early| == old(n) && AllRecoverTo(L, early, before)
      ensures |late| == (if old(n) > 0 then old(n) + 2 else 0) && AllRecoverTo(L, late, after)
    {
      hide RecoveredAt, LogHolds, Installed, HeaderBlock;
      early, late := [], [];
      if n > 0 {
        ghost var list := Header();
        early := WriteLog(list, before, after);
        CommitPoint(L, disk, list, before, after);
        WriteHead();
        ghost var commitPoint := disk;
        late := InstallTrans(list, after);
        ClearWrite(L, disk, after);
        n := 0;
        WriteHead();
        late := [commitPoint] + late + [disk];
      } else {
        forall b ensures b !in pinned { assert b !in Header(); }
      }
    }

    /** recover_from_log after a reboot: the home blocks end up as recovery promises, and a
        crash after any of its writes would recover to the same contents. */
    method Recover(ghost want: Image) returns (ghost images: seq<Image>)
      requires Valid() && pinned == map[] && RecoversTo(L, disk, want)
      modifies this, block
      ensures Open() && n == 0 && HomeIs(L, disk, want)
      ensures trail == old(trail) + images && AllRecoverTo(L, images, want)
      ensures |images| == old(|Listed(L, disk)|) + 1 && images[|images| - 1] == disk
    {
      hide RecoveredAt;
      ReadHead();
      images := InstallTrans(Header(), want);
      ClearWrite(L, disk, want);
      n := 0;
      WriteHead();
      images := images + [disk];
    }

    /** read_head. */
    method ReadHead()
      requires Valid() && Recoverable(L, disk)
      modifies this`n, block
      ensures Valid() && Header() == Listed(L, disk)
    {
      var lh := disk[L.start];
      n := lh[0];
      var i := 0;
      while i < n
        invariant 0 <= i <= n == lh[0]
        invariant block[..i] == lh[1..1 + i]
      {
        block[i] := lh[1 + i];
        assert block[..i + 1] == block[..i] + [lh[1 + i]];
        i := i + 1;
      }
    }
  }
}
