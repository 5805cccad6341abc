/** Tilings of a heap by free and live blocks, and how the steps of the K&R allocator change
    them.  Addresses count header-sized units. */
module Arena {

  datatype Block = Block(size: nat, free: bool)

  /** Who a unit of the heap belongs to.  Foreign units were obtained from sbrk by others. */
  datatype Owner = Of(block: nat) | Foreign

  /** Blocks by address, and the owner of every unit in [lo, brk). */
  datatype Tiling = Tiling(blocks: map<nat, Block>, owner: map<nat, Owner>, lo: nat, brk: nat)

  /** Unit u lies in the block of size n at b. */
  predicate Inside(u: int, b: int, n: int) {
    b <= u < b + n
  }

  ghost predicate Owns(h: Tiling, b: nat)
    requires b in h.blocks
  {
    h.blocks[b].size > 0 && forall u :: Inside(u, b, h.blocks[b].size) ==> u in h.owner && h.owner[u] == Of(b)
  }

  ghost predicate Accounted(h: Tiling, u: nat, o: Owner) {
    o.Of? ==> o.block in h.blocks && Inside(u, o.block, h.blocks[o.block].size)
  }

  /** The owner map and the blocks say the same thing: blocks are disjoint, and every unit of
      the heap is in exactly one block or is foreign. */
  ghost predicate Tiled(h: Tiling) {
    && h.lo <= h.brk
    && (forall u :: u in h.owner <==> h.lo <= u < h.brk)
    && (forall b :: b in h.blocks ==> Owns(h, b))
    && (forall u :: u in h.owner ==> Accounted(h, u, h.owner[u]))
  }

  /** fl is the base header followed by exactly the free blocks in address order. */
  ghost predicate Listed(h: Tiling, fl: seq<nat>) {
    && |fl| > 0 && fl[0] < h.lo
    && Ascending(fl)
    && (forall i :: 0 < i < |fl| ==> IsFree(h, fl[i]))
    && (forall b :: IsFree(h, b) ==> b in fl)
  }

  predicate Ascending(fl: seq<nat>) {
    forall i, j :: 0 <= i < j < |fl| ==> fl[i] < fl[j]
  }

  predicate IsFree(h: Tiling, b: nat) {
    b in h.blocks && h.blocks[b].free
  }

  /** Free blocks i and i+1 of the list touch. */
  ghost predicate Touching(h: Tiling, fl: seq<nat>, i: int)
  {
    0 < i < |fl| - 1 && fl[i] in h.blocks && fl[i] + h.blocks[fl[i]].size == fl[i + 1]
  }

  /** No two free blocks are adjacent. */
  ghost predicate Apart(h: Tiling, fl: seq<nat>) {
    forall i :: 0 < i < |fl| - 1 ==> !Touching(h, fl, i)
  }

  lemma BlocksApart(h: Tiling, a: nat, b: nat)
    requires Tiled(h) && a in h.blocks && b in h.blocks && a < b
    ensures a + h.blocks[a].size <= b
    ensures h.lo <= a && b + h.blocks[b].size <= h.brk
  {
    assert Owns(h, a) && Owns(h, b);
    assert Inside(a, a, h.blocks[a].size) && Inside(b, b, h.blocks[b].size);
    var last := b + h.blocks[b].size - 1;
    assert Inside(last, b, h.blocks[b].size);
    assert !Inside(b, a, h.blocks[a].size);
  }

  // ----- changes to the tiling -----

  /** A block changes hands without moving. */
  ghost function SetFree(h: Tiling, b: nat, free: bool): Tiling
    requires b in h.blocks
  {
    h.(blocks := h.blocks[b := h.blocks[b].(free := free)])
  }

  /** Block b absorbs block c. */
  ghost function Absorb(h: Tiling, b: nat, c: nat): Tiling
    requires b in h.blocks && c in h.blocks
  {
    var n := h.blocks[c].size;
    h.(blocks := (h.blocks - {c})[b := Block(h.blocks[b].size + n, true)],
       owner := map u | u in h.owner :: if Inside(u, c, n) then Of(b) else h.owner[u])
  }

  /** The last n units of block b become a live block of their own. */
  ghost function Carve(h: Tiling, b: nat, n: nat): Tiling
    requires b in h.blocks && n <= h.blocks[b].size
  {
    var m := h.blocks[b].size - n;
    h.(blocks := h.blocks[b := Block(m, true)][b + m := Block(n, false)],
       owner := map u | u in h.owner :: if Inside(u, b + m, n) then Of(b + m) else h.owner[u])
  }

  /** sbrk: others may have taken the units up to p, and [p, p+n) becomes a live block. */
  ghost function Extend(h: Tiling, p: nat, n: nat): Tiling {
    h.(blocks := h.blocks[p := Block(n, false)],
       owner := map u: nat | h.lo <= u < p + n :: if Inside(u, p, n) then Of(p)
                                                        else if u in h.owner then h.owner[u] else Foreign,
       brk := p + n)
  }

  lemma SetFreeTiled(h: Tiling, b: nat, free: bool)
    requires Tiled(h) && b in h.blocks
    ensures Tiled(SetFree(h, b, free))
  {
    var h' := SetFree(h, b, free);
    forall c | c in h'.blocks ensures Owns(h', c) { assert Owns(h, c); }
    forall u | u in h'.owner ensures Accounted(h', u, h'.owner[u]) { assert Accounted(h, u, h.owner[u]); }
  }

  lemma AbsorbTiled(h: Tiling, b: nat, c: nat)
    requires Tiled(h) && b in h.blocks && c in h.blocks && b + h.blocks[b].size == c && b < c
    ensures Tiled(Absorb(h, b, c))
  {
    var h' := Absorb(h, b, c);
    assert Owns(h, b) && Owns(h, c);
    forall d | d in h'.blocks ensures Owns(h', d) {
      assert Owns(h, d);
      forall u | Inside(u, d, h'.blocks[d].size) ensures u in h'.owner && h'.owner[u] == Of(d) {
        if d == b && u >= c { assert Inside(u, c, h.blocks[c].size); }
        if d != b { assert Inside(u, d, h.blocks[d].size); }
        if d == b && u < c { assert Inside(u, b, h.blocks[b].size); }
      }
    }
    forall u | u in h'.owner ensures Accounted(h', u, h'.owner[u]) { assert Accounted(h, u, h.owner[u]); }
  }

  lemma CarveTiled(h: Tiling, b: nat, n: nat)
    requires Tiled(h) && b in h.blocks && 0 < n < h.blocks[b].size
    ensures Tiled(Carve(h, b, n)) && b + h.blocks[b].size - n !in h.blocks
  {
    var h' := Carve(h, b, n);
    var p := b + h.blocks[b].size - n;
    assert Owns(h, b) && Inside(p, b, h.blocks[b].size);
    assert p in h.blocks ==> Owns(h, p) && Inside(p, p, h.blocks[p].size);
    forall d | d in h'.blocks ensures Owns(h', d) {
      if d in h.blocks { assert Owns(h, d); }
      forall u | Inside(u, d, h'.blocks[d].size) ensures u in h'.owner && h'.owner[u] == Of(d) {
        assert Inside(u, if d == p then b else d, h.blocks[if d == p then b else d].size);
      }
    }
    forall u | u in h'.owner ensures Accounted(h', u, h'.owner[u]) { assert Accounted(h, u, h.owner[u]); }
  }

  lemma ExtendTiled(h: Tiling, p: nat, n: nat)
    requires Tiled(h) && h.brk <= p && n > 0
    ensures Tiled(Extend(h, p, n)) && p !in h.blocks
  {
    var h' := Extend(h, p, n);
    assert p in h.blocks ==> Owns(h, p) && Inside(p, p, h.blocks[p].size);
    forall d | d in h'.blocks ensures Owns(h', d) {
      if d != p {
        assert Owns(h, d);
        forall u | Inside(u, d, h'.blocks[d].size) ensures u in h'.owner && h'.owner[u] == Of(d) {
          assert Inside(u, d, h.blocks[d].size);
        }
      }
    }
    forall u | u in h'.owner ensures Accounted(h', u, h'.owner[u]) {
      if u in h.owner { assert Accounted(h, u, h.owner[u]); }
    }
  }

  /** Live blocks with their sizes, and the units nobody here owns. */
  ghost function Live(h: Tiling): map<nat, nat> {
    map b | b in h.blocks && !h.blocks[b].free :: h.blocks[b].size
  }

  ghost function ForeignUnits(h: Tiling): set<nat> {
    set u | u in h.owner && h.owner[u].Foreign?
  }

  /** The heap has only grown, and no unit below the old break has become foreign: none is lost. */
  ghost predicate NothingLost(h: Tiling, h': Tiling) {
    && h.lo == h'.lo && h.brk <= h'.brk && ForeignUnits(h) <= ForeignUnits(h')
    && forall u :: u in ForeignUnits(h') && u < h.brk ==> u in ForeignUnits(h)
  }

  lemma NothingLostTwice(a: Tiling, b: Tiling, c: Tiling)
    requires NothingLost(a, b) && NothingLost(b, c)
    ensures NothingLost(a, c)
  { }

  lemma NothingLostSame(h: Tiling, h': Tiling)
    requires h.lo == h'.lo && h.brk == h'.brk && ForeignUnits(h) == ForeignUnits(h')
    ensures NothingLost(h, h')
  { }

  lemma AbsorbLive(h: Tiling, b: nat, c: nat)
    requires Tiled(h) && b in h.blocks && c in h.blocks && b != c && h.blocks[b].free && h.blocks[c].free
    ensures Live(Absorb(h, b, c)) == Live(h) && ForeignUnits(Absorb(h, b, c)) == ForeignUnits(h)
  {
    assert Owns(h, c);
  }

  lemma CarveLive(h: Tiling, b: nat, n: nat)
    requires Tiled(h) && b in h.blocks && h.blocks[b].free && 0 < n < h.blocks[b].size
    requires b + h.blocks[b].size - n !in h.blocks
    ensures Live(Carve(h, b, n)) == Live(h)[b + h.blocks[b].size - n := n]
    ensures ForeignUnits(Carve(h, b, n)) == ForeignUnits(h)
  {
    var m := h.blocks[b].size - n;
    assert Owns(h, b);
    forall u | Inside(u, b + m, n) ensures u in h.owner && h.owner[u] == Of(b) {
      assert Inside(u, b, h.blocks[b].size);
    }
  }

  // ----- changes to the list -----

  ghost function Inserted(fl: seq<nat>, j: nat, b: nat): seq<nat>
    requires j < |fl|
  {
    fl[..j + 1] + [b] + fl[j + 1..]
  }

  ghost function Removed(fl: seq<nat>, i: nat): seq<nat>
    requires i < |fl|
  {
    fl[..i] + fl[i + 1..]
  }

  lemma InsertedAscending(fl: seq<nat>, j: nat, b: nat)
    requires j < |fl| && Ascending(fl) && fl[j] < b && (j + 1 < |fl| ==> b < fl[j + 1])
    ensures Ascending(Inserted(fl, j, b))
  {
    var r := Inserted(fl, j, b);
    forall i, k | 0 <= i < k < |r| ensures r[i] < r[k] {
      var i', k' := if i <= j then i else i - 1, if k <= j then k else k - 1;
      assert i != j + 1 ==> r[i] == fl[i'];
      assert k != j + 1 ==> r[k] == fl[k'];
    }
  }

  lemma InsertedFacts(fl: seq<nat>, j: nat, b: nat)
    requires j < |fl| && Ascending(fl) && fl[j] < b && (j + 1 < |fl| ==> b < fl[j + 1])
    ensures var r := Inserted(fl, j, b);
            && |r| == |fl| + 1 && r[0] == fl[0] && Ascending(r)
            && (forall c :: c in r[1..] ==> c == b || c in fl[1..])
            && (forall c :: c in fl || c == b ==> c in r)
  {
    InsertedAscending(fl, j, b);
    hide Ascending;
    var r := Inserted(fl, j, b);
    assert r[1..] == fl[1..j + 1] + [b] + fl[j + 1..];
    forall c | c in fl || c == b ensures c in r {
      if c == b {
        assert r[j + 1] == c;
      } else {
        var i :| 0 <= i < |fl| && fl[i] == c;
        assert r[if i <= j then i else i + 1] == c;
      }
    }
  }

  lemma RemovedFacts(fl: seq<nat>, i: nat)
    requires 0 < i < |fl| && Ascending(fl)
    ensures var r := Removed(fl, i);
            && |r| == |fl| - 1 && r[0] == fl[0] && Ascending(r)
            && (forall c :: c in r[1..] ==> c in fl[1..] && c != fl[i])
            && (forall c :: c in fl && c != fl[i] ==> c in r)
  {
    var r := Removed(fl, i);
    forall c | c in fl && c != fl[i] ensures c in r {
      var k :| 0 <= k < |fl| && fl[k] == c;
      assert r[if k < i then k else k - 1] == c;
    }
    forall k | 0 < k < |r| ensures r[k] in fl[1..] && r[k] != fl[i] {
      assert r[k] == fl[if k < i then k else k + 1] == fl[1..][if k < i then k - 1 else k];
    }
  }

  lemma InsertListed(h: Tiling, fl: seq<nat>, j: nat, b: nat)
    requires Listed(h, fl) && j < |fl| && b in h.blocks && !h.blocks[b].free
    requires fl[j] < b && (j + 1 < |fl| ==> b < fl[j + 1])
    ensures Listed(SetFree(h, b, true), Inserted(fl, j, b))
  {
    hide Inserted, Ascending;
    InsertedFacts(fl, j, b);
    var h', r := SetFree(h, b, true), Inserted(fl, j, b);
    forall i | 0 < i < |r| ensures IsFree(h', r[i]) {
      assert r[1..][i - 1] in r[1..];
      if r[i] != b {
        var m :| 0 <= m < |fl[1..]| && fl[1..][m] == r[i];
        assert r[i] == fl[m + 1];
      }
    }
    forall c | IsFree(h', c) ensures c in r { assert c == b || IsFree(h, c); }
  }

  lemma TakenOff(h: Tiling, fl: seq<nat>, i: nat, h': Tiling)
    requires Listed(h, fl) && 0 < i < |fl| && h'.lo == h.lo
    requires forall b :: IsFree(h', b) <==> IsFree(h, b) && b != fl[i]
    ensures Listed(h', Removed(fl, i))
  {
    hide Removed, Ascending;
    RemovedFacts(fl, i);
    var r := Removed(fl, i);
    forall k | 0 < k < |r| ensures IsFree(h', r[k]) {
      assert r[1..][k - 1] in r[1..];
      var m :| 0 <= m < |fl[1..]| && fl[1..][m] == r[k];
      assert r[k] == fl[m + 1];
    }
  }

  /** After inserting at j, only the pairs around the new block can touch. */
  lemma InsertApart(h: Tiling, fl: seq<nat>, j: nat, b: nat, i: nat)
    requires Listed(h, fl) && Apart(h, fl) && j < |fl| && b in h.blocks && !h.blocks[b].free
    requires i != j && i != j + 1
    ensures !Touching(SetFree(h, b, true), Inserted(fl, j, b), i)
  {
    var r := Inserted(fl, j, b);
    if 0 < i < j {
      assert r[i] == fl[i] && r[i + 1] == fl[i + 1] && !Touching(h, fl, i);
    } else if j + 1 < i < |r| - 1 {
      assert r[i] == fl[i - 1] && r[i + 1] == fl[i] && !Touching(h, fl, i - 1);
    }
  }

  lemma AbsorbListed(h: Tiling, fl: seq<nat>, i: nat)
    requires Listed(h, fl) && Touching(h, fl, i)
    ensures Listed(Absorb(h, fl[i], fl[i + 1]), Removed(fl, i + 1))
  {
    assert IsFree(h, fl[i]);
    TakenOff(h, fl, i + 1, Absorb(h, fl[i], fl[i + 1]));
  }

  /** Absorbing the next block makes no new pair touch. */
  lemma AbsorbApart(h: Tiling, fl: seq<nat>, i: nat, k: nat)
    requires Listed(h, fl) && Touching(h, fl, i)
    requires Touching(Absorb(h, fl[i], fl[i + 1]), Removed(fl, i + 1), k)
    ensures Touching(h, fl, if k < i then k else k + 1)
  {
    var r := Removed(fl, i + 1);
    if k < i {
      assert r[k] == fl[k] && r[k + 1] == fl[k + 1];
    } else {
      assert r[k + 1] == fl[k + 2] && r[k] == fl[if k == i then k else k + 1];
    }
  }

  lemma RemoveListed(h: Tiling, fl: seq<nat>, i: nat)
    requires Listed(h, fl) && 0 < i < |fl|
    ensures Listed(SetFree(h, fl[i], false), Removed(fl, i))
  {
    TakenOff(h, fl, i, SetFree(h, fl[i], false));
  }

  lemma RemoveApart(h: Tiling, fl: seq<nat>, i: nat, k: nat)
    requires Tiled(h) && Listed(h, fl) && Apart(h, fl) && 0 < i < |fl|
    ensures !Touching(SetFree(h, fl[i], false), Removed(fl, i), k)
  {
    hide Tiled;
    var r := Removed(fl, i);
    if 0 < k < |r| - 1 {
      if k == i - 1 {
        assert r[k] == fl[k] && r[k + 1] == fl[i + 1];
        BlocksApart(h, fl[k], fl[i]);
      } else {
        var m := if k < i then k else k + 1;
        assert r[k] == fl[m] && r[k + 1] == fl[m + 1] && !Touching(h, fl, m);
      }
    }
  }

  lemma CarveListed(h: Tiling, fl: seq<nat>, i: nat, n: nat)
    requires Tiled(h) && Listed(h, fl) && 0 < i < |fl| && 0 < n < h.blocks[fl[i]].size
    requires fl[i] + h.blocks[fl[i]].size - n !in h.blocks
    ensures Listed(Carve(h, fl[i], n), fl)
    ensures Apart(h, fl) ==> Apart(Carve(h, fl[i], n), fl)
  {
    var h' := Carve(h, fl[i], n);
    assert forall b :: IsFree(h', b) <==> IsFree(h, b);
    forall k | Apart(h, fl) && 0 < k < |fl| - 1 ensures !Touching(h', fl, k) {
      assert !Touching(h, fl, k);
      BlocksApart(h, fl[k], fl[k + 1]);
    }
  }
}
