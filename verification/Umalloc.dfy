/** The K&R allocator of umalloc.c: a circular, address-ordered free list with splitting and
    two-sided coalescing.  Addresses count units of sizeof(Header) = 8 bytes. */
module Umalloc {
  import opened Arena

  const MINUNITS: nat := 4096

  /** The successor of entry i on the circular list. */
  function Next(fl: seq<nat>, i: nat): nat
    requires i < |fl|
  {
    if i + 1 < |fl| then fl[i + 1] else fl[0]
  }

  ghost predicate LinkedAt(fl: seq<nat>, ptr: map<nat, nat>, i: nat) {
    i < |fl| && fl[i] in ptr && ptr[fl[i]] == Next(fl, i)
  }

  ghost predicate Linked(fl: seq<nat>, ptr: map<nat, nat>) {
    forall i :: 0 <= i < |fl| ==> LinkedAt(fl, ptr, i)
  }

  ghost predicate Sized(h: Tiling, size: map<nat, nat>) {
    forall b :: b in h.blocks ==> b in size && size[b] == h.blocks[b].size
  }

  /** The headers describe the tiling: one address-ordered cycle through the base header and
      the free blocks. */
  ghost predicate Good(h: Tiling, fl: seq<nat>, ptr: map<nat, nat>, size: map<nat, nat>, base: nat) {
    && Tiled(h) && Listed(h, fl) && Linked(fl, ptr) && Sized(h, size)
    && fl[0] == base && base in size && size[base] == 0 && base !in h.blocks
  }

  lemma LinkInserted(fl: seq<nat>, j: nat, b: nat, ptr: map<nat, nat>)
    requires Linked(fl, ptr) && j < |fl| && Ascending(fl) && b !in fl && fl[j] in ptr
    ensures Linked(Inserted(fl, j, b), ptr[b := ptr[fl[j]]][fl[j] := b])
  {
    var r, p := Inserted(fl, j, b), ptr[b := ptr[fl[j]]][fl[j] := b];
    forall i | 0 <= i < |r| ensures LinkedAt(r, p, i) {
      assert r[i] == if i <= j then fl[i] else if i == j + 1 then b else fl[i - 1];
      assert Next(r, i) == if i < j then fl[i + 1] else if i == j then b else if i < |fl| then fl[i] else fl[0];
      assert LinkedAt(fl, ptr, j) && LinkedAt(fl, ptr, if i <= j then i else if i == j + 1 then j else i - 1);
    }
  }

  lemma LinkRemoved(fl: seq<nat>, i: nat, ptr: map<nat, nat>)
    requires Linked(fl, ptr) && 0 < i < |fl| && Ascending(fl) && fl[i] in ptr
    ensures Linked(Removed(fl, i), ptr[fl[i - 1] := ptr[fl[i]]])
  {
    var r, p := Removed(fl, i), ptr[fl[i - 1] := ptr[fl[i]]];
    forall k | 0 <= k < |r| ensures LinkedAt(r, p, k) {
      var m := if k < i then k else k + 1;
      assert r[k] == fl[m] && LinkedAt(fl, ptr, m) && LinkedAt(fl, ptr, i);
      assert Next(r, k) == if k == i - 1 then Next(fl, i) else Next(fl, m);
    }
  }

  lemma ListedFacts(h: Tiling, fl: seq<nat>, i: nat)
    requires Listed(h, fl) && Touching(h, fl, i)
    ensures Ascending(fl) && fl[i] < fl[i + 1] && IsFree(h, fl[i]) && IsFree(h, fl[i + 1])
  { }

  lemma InsertGood(h: Tiling, fl: seq<nat>, ptr: map<nat, nat>, size: map<nat, nat>, base: nat, j: nat, b: nat)
    requires Good(h, fl, ptr, size, base) && j < |fl| && fl[j] in ptr && b in h.blocks && !h.blocks[b].free
    requires fl[j] < b && (j + 1 < |fl| ==> b < fl[j + 1])
    ensures Good(SetFree(h, b, true), Inserted(fl, j, b), ptr[b := ptr[fl[j]]][fl[j] := b], size, base)
  {
    hide Tiled, Linked;
    SetFreeTiled(h, b, true);
    InsertListed(h, fl, j, b);
    assert b !in fl;
    LinkInserted(fl, j, b, ptr);
    assert Inserted(fl, j, b)[0] == fl[0];
  }

  lemma AbsorbGood(h: Tiling, fl: seq<nat>, ptr: map<nat, nat>, size: map<nat, nat>, base: nat, i: nat)
    requires Good(h, fl, ptr, size, base) && Touching(h, fl, i)
    requires fl[i + 1] in ptr && fl[i] in size && fl[i + 1] in size && fl[i] in h.blocks && fl[i + 1] in h.blocks
    ensures Good(Absorb(h, fl[i], fl[i + 1]), Removed(fl, i + 1),
                 ptr[fl[i] := ptr[fl[i + 1]]], size[fl[i] := size[fl[i]] + size[fl[i + 1]]], base)
  {
    hide Tiled, Linked, Listed;
    ListedFacts(h, fl, i);
    AbsorbTiled(h, fl[i], fl[i + 1]);
    AbsorbListed(h, fl, i);
    LinkRemoved(fl, i + 1, ptr);
    assert Removed(fl, i + 1)[0] == fl[0];
  }

  /** Only pairs lo .. hi of the list may touch. */
  ghost predicate OnlyTouching(h: Tiling, fl: seq<nat>, lo: int, hi: int) {
    forall k :: Touching(h, fl, k) ==> lo <= k <= hi
  }

  /** Block b goes onto the list after entry j; only its own neighbours may now touch it. */
  lemma LinkIn(h: Tiling, fl: seq<nat>, ptr: map<nat, nat>, size: map<nat, nat>, base: nat, j: nat, b: nat)
    requires Good(h, fl, ptr, size, base) && Apart(h, fl) && j < |fl| && fl[j] in ptr
    requires b in h.blocks && !h.blocks[b].free && fl[j] < b && (j + 1 < |fl| ==> b < fl[j + 1])
    ensures var h', fl' := SetFree(h, b, true), Inserted(fl, j, b);
            && Good(h', fl', ptr[b := ptr[fl[j]]][fl[j] := b], size, base)
            && OnlyTouching(h', fl', j, j + 1)
            && Live(h') == Live(h) - {b} && ForeignUnits(h') == ForeignUnits(h)
            && |fl'| == |fl| + 1 && fl'[j] == fl[j] && fl'[j + 1] == b && (j + 1 < |fl| ==> fl'[j + 2] == fl[j + 1])
  {
    hide Tiled, Linked;
    var h', fl' := SetFree(h, b, true), Inserted(fl, j, b);
    InsertGood(h, fl, ptr, size, base, j, b);
    forall k | Touching(h', fl', k) ensures j <= k <= j + 1 {
      if !(j <= k <= j + 1) { InsertApart(h, fl, j, b, k); }
    }
    assert Live(h') == Live(h) - {b};
  }

  /** Touching blocks i and i + 1 become one. */
  lemma Coalesce(h: Tiling, fl: seq<nat>, ptr: map<nat, nat>, size: map<nat, nat>, base: nat, i: nat, a: int)
    requires Good(h, fl, ptr, size, base) && Touching(h, fl, i) && OnlyTouching(h, fl, a, i) && i - 1 <= a <= i
    requires fl[i + 1] in ptr && fl[i] in size && fl[i + 1] in size && fl[i] in h.blocks && fl[i + 1] in h.blocks
    ensures var h', fl' := Absorb(h, fl[i], fl[i + 1]), Removed(fl, i + 1);
            && Good(h', fl', ptr[fl[i] := ptr[fl[i + 1]]], size[fl[i] := size[fl[i]] + size[fl[i + 1]]], base)
            && OnlyTouching(h', fl', a, i - 1)
            && Live(h') == Live(h) && ForeignUnits(h') == ForeignUnits(h)
            && |fl'| == |fl| - 1 && fl'[..i + 1] == fl[..i + 1]
            && h'.blocks[fl[i]].size == h.blocks[fl[i]].size + h.blocks[fl[i + 1]].size
  {
    hide Tiled, Linked;
    var h', fl' := Absorb(h, fl[i], fl[i + 1]), Removed(fl, i + 1);
    ListedFacts(h, fl, i);
    AbsorbGood(h, fl, ptr, size, base, i);
    AbsorbLive(h, fl[i], fl[i + 1]);
    forall k | Touching(h', fl', k) ensures a <= k <= i - 1 {
      AbsorbApart(h, fl, i, k);
    }
  }

  /** Where block b belongs in the list: after the last entry below it. */
  ghost function Place(fl: seq<nat>, b: nat): (j: nat)
    requires |fl| > 0 && fl[0] < b && Ascending(fl) && b !in fl
    ensures j < |fl| && fl[j] < b && (j + 1 < |fl| ==> b < fl[j + 1])
  {
    if fl[|fl| - 1] < b then |fl| - 1 else Place(fl[..|fl| - 1], b)
  }

  /** What a good list says about its entry i. */
  lemma ListFacts(h: Tiling, fl: seq<nat>, ptr: map<nat, nat>, size: map<nat, nat>, base: nat, i: nat)
    requires Good(h, fl, ptr, size, base) && i < |fl|
    ensures fl[i] in ptr && ptr[fl[i]] == Next(fl, i) && fl[i] in size && Ascending(fl)
    ensures i > 0 ==>
      fl[i] in h.blocks && h.blocks[fl[i]].free && h.blocks[fl[i]].size == size[fl[i]] > 0 && base < fl[i]
    ensures i > 0 && i + 1 < |fl| ==> (Touching(h, fl, i) <==> fl[i] + size[fl[i]] == fl[i + 1])
  {
    assert LinkedAt(fl, ptr, i);
    assert i > 0 ==> IsFree(h, fl[i]) && Owns(h, fl[i]);
  }

  /** The two exit tests of free()'s search loop hold at exactly the right entry. */
  lemma SearchStops(fl: seq<nat>, b: nat, j: nat, k: nat)
    requires Ascending(fl) && k < |fl| && j < |fl| && fl[0] < b
    requires fl[j] < b && (j + 1 < |fl| ==> b < fl[j + 1])
    ensures var p, n := fl[k], Next(fl, k);
            k == j <==> (b > p && b < n) || (p >= n && (b > p || b < n))
  {
    assert k < j ==> fl[k + 1] <= fl[j];
    assert k > j ==> fl[j + 1] <= fl[k];
    assert k + 1 < |fl| ==> fl[k] < fl[k + 1];
    assert k > 0 ==> fl[0] < fl[k];
  }

  /** First half of free's relinking: b goes in after entry j and absorbs the block above it if
      they touch. */
  lemma JoinAbove(h: Tiling, fl: seq<nat>, ptr: map<nat, nat>, size: map<nat, nat>, base: nat, j: nat, b: nat)
    returns (h': Tiling, fl': seq<nat>)
    requires Good(h, fl, ptr, size, base) && Apart(h, fl) && j < |fl|
    requires b in h.blocks && !h.blocks[b].free && fl[j] < b && (j + 1 < |fl| ==> b < fl[j + 1])
    ensures fl[j] in ptr && b in size
    ensures var p := fl[j];
            if b + size[b] == ptr[p] then
              ptr[p] in ptr && ptr[p] in size &&
              Good(h', fl', ptr[b := ptr[ptr[p]]][p := b], size[b := size[b] + size[ptr[p]]], base)
            else
              Good(h', fl', ptr[b := ptr[p]][p := b], size, base)
    ensures OnlyTouching(h', fl', j, j) && j + 1 < |fl'| && fl'[j] == fl[j] && fl'[j + 1] == b
    ensures Live(h') == Live(h) - {b} && ForeignUnits(h') == ForeignUnits(h) && h'.lo == h.lo && h'.brk == h.brk
    ensures b in h'.blocks && h'.blocks[b].size >= h.blocks[b].size
  {
    hide Tiled, Listed, Linked, Touching, Live, ForeignUnits, Inserted, Removed;
    ListFacts(h, fl, ptr, size, base, j);
    LinkIn(h, fl, ptr, size, base, j, b);
    var p := fl[j];
    h', fl' := SetFree(h, b, true), Inserted(fl, j, b);
    var ptr1 := ptr[b := ptr[p]][p := b];
    ListFacts(h', fl', ptr1, size, base, j + 1);
    if b + size[b] == ptr[p] {
      assert j + 1 < |fl| && ptr[p] == fl[j + 1];
      ListFacts(h', fl', ptr1, size, base, j + 2);
      ListFacts(h, fl, ptr, size, base, j + 1);
      Coalesce(h', fl', ptr1, size, base, j + 1, j);
      assert ptr1[b := ptr1[fl[j + 1]]] == ptr[b := ptr[ptr[p]]][p := b];
      assert fl'[..j + 2][j] == fl[j] && fl'[..j + 2][j + 1] == b;
      h', fl' := Absorb(h', b, fl[j + 1]), Removed(fl', j + 2);
    } else {
      NotTouching(h', fl', ptr1, size, base, j);
    }
  }

  lemma NotTouching(h: Tiling, fl: seq<nat>, ptr: map<nat, nat>, size: map<nat, nat>, base: nat, j: nat)
    requires Good(h, fl, ptr, size, base) && OnlyTouching(h, fl, j, j + 1) && j + 1 < |fl|
    requires fl[j + 1] in size && (j + 2 < |fl| ==> fl[j + 1] + size[fl[j + 1]] != fl[j + 2])
    ensures OnlyTouching(h, fl, j, j)
  { }

  /** Second half: the block below absorbs b if they touch; no two free blocks touch after. */
  lemma JoinBelow(h: Tiling, fl: seq<nat>, ptr: map<nat, nat>, size: map<nat, nat>, base: nat, j: nat, b: nat)
    returns (h': Tiling, fl': seq<nat>, t: nat)
    requires Good(h, fl, ptr, size, base) && OnlyTouching(h, fl, j, j) && j + 1 < |fl| && b == fl[j + 1]
    ensures fl[j] in size && b in size && b in ptr && b in h.blocks
    ensures var p := fl[j];
            if p + size[p] == b then
              Good(h', fl', ptr[p := ptr[b]], size[p := size[p] + size[b]], base)
            else
              Good(h', fl', ptr, size, base)
    ensures Apart(h', fl') && fl[j] in fl'
    ensures Live(h') == Live(h) && ForeignUnits(h') == ForeignUnits(h) && h'.lo == h.lo && h'.brk == h.brk
    ensures 0 < t < |fl'| && fl'[t] in h'.blocks && h'.blocks[fl'[t]].size >= h.blocks[b].size
  {
    hide Tiled, Listed, Linked, Live, ForeignUnits, Removed;
    ListFacts(h, fl, ptr, size, base, j);
    ListFacts(h, fl, ptr, size, base, j + 1);
    h', fl', t := h, fl, j + 1;
    if fl[j] + size[fl[j]] == b {
      assert j > 0;
      Coalesce(h, fl, ptr, size, base, j, j);
      h', fl', t := Absorb(h, fl[j], b), Removed(fl, j + 1), j;
      assert fl'[..j + 1][j] == fl[j];
    }
  }

  // ----- malloc -----

  /** Units that malloc looks for, in 32-bit arithmetic: the payload rounded up, plus a header. */
  function Units(nbytes: nat): nat {
    (nbytes + 8 - 1) % 0x1_0000_0000 / 8 + 1
  }

  /** The byte count morecore passes to sbrk, read as a signed 32-bit integer. */
  function SbrkBytes(units: nat): int {
    var u := (if units < MINUNITS then MINUNITS else units) * 8 % 0x1_0000_0000;
    if u < 0x8000_0000 then u else u - 0x1_0000_0000
  }

  /** sbrk is asked for exactly the units that morecore records. */
  predicate Exact(units: nat) {
    SbrkBytes(units) == 8 * (if units < MINUNITS then MINUNITS else units)
  }

  /** sbrk is asked for another amount than is recorded for exactly the requests between these
      bounds.  Those above them wrap to a block of one unit; for all others the units are the fewest
      that hold the payload and a header. */
  lemma RequestRanges(nbytes: nat)
    requires nbytes < 0x1_0000_0000
    ensures Exact(Units(nbytes)) <==> nbytes <= 0x7FFF_FFF0 || nbytes > 0xFFFF_FFF8
    ensures 8 * Units(nbytes) >= nbytes + 8 <==> nbytes <= 0xFFFF_FFF8
    ensures nbytes <= 0xFFFF_FFF8 ==> 8 * (Units(nbytes) - 1) < nbytes + 8
    ensures nbytes > 0xFFFF_FFF8 ==> Units(nbytes) == 1
  { }

  // ----- headers and payloads -----

  /** Unit u lies in a live block, behind its header. */
  ghost predicate InPayload(h: Tiling, u: nat) {
    && u in h.owner && h.owner[u].Of? && u != h.owner[u].block
    && h.owner[u].block in h.blocks && !h.blocks[h.owner[u].block].free
  }

  predicate SameAt(m: map<nat, nat>, m': map<nat, nat>, u: nat) {
    (u in m <==> u in m') && (u in m ==> m[u] == m'[u])
  }

  /** No header field has been written in the payload of a block that is live in h. */
  ghost predicate PayloadKept(h: Tiling, ptr: map<nat, nat>, size: map<nat, nat>, ptr': map<nat, nat>,
                              size': map<nat, nat>) {
    forall u :: InPayload(h, u) ==> SameAt(ptr, ptr', u) && SameAt(size, size', u)
  }

  lemma PayloadSame(h: Tiling, ptr: map<nat, nat>, size: map<nat, nat>)
    ensures PayloadKept(h, ptr, size, ptr, size)
  { }

  /** Headers written at x and y only, neither of them in a payload. */
  lemma PayloadWrites(h: Tiling, ptr: map<nat, nat>, size: map<nat, nat>, ptr': map<nat, nat>, size': map<nat, nat>,
                      x: nat, y: nat)
    requires !InPayload(h, x) && !InPayload(h, y)
    requires Elsewhere(ptr, ptr', x, y) && Elsewhere(size, size', x, y)
    ensures PayloadKept(h, ptr, size, ptr', size')
  { }

  /** The two maps agree but at x and y. */
  ghost predicate Elsewhere(m: map<nat, nat>, m': map<nat, nat>, x: nat, y: nat) {
    forall u :: u != x && u != y ==> SameAt(m, m', u)
  }

  lemma OneWrite(m: map<nat, nat>, m': map<nat, nat>, x: nat, y: nat, k: nat, v: nat)
    requires Elsewhere(m, m', x, y) && (k == x || k == y)
    ensures Elsewhere(m, m'[k := v], x, y)
  {
    var now := m'[k := v];
    forall u | u != x && u != y ensures SameAt(m, now, u) { assert SameAt(m, m', u); }
  }

  lemma NoWrite(m: map<nat, nat>, x: nat, y: nat)
    ensures Elsewhere(m, m, x, y)
  { }

  lemma PayloadTwice(h: Tiling, h1: Tiling, ptr: map<nat, nat>, size: map<nat, nat>, ptr1: map<nat, nat>,
                     size1: map<nat, nat>, ptr2: map<nat, nat>, size2: map<nat, nat>)
    requires PayloadKept(h, ptr, size, ptr1, size1) && PayloadKept(h1, ptr1, size1, ptr2, size2)
    requires Tiled(h) && Tiled(h1) && LivesOn(h, h1)
    ensures PayloadKept(h, ptr, size, ptr2, size2)
  {
    forall u | InPayload(h, u) ensures SameAt(ptr, ptr2, u) && SameAt(size, size2, u) {
      PayloadLivesOn(h, h1, u);
    }
  }

  /** Every live block is still live, with its size. */
  ghost predicate LivesOn(h: Tiling, h1: Tiling) {
    forall b :: b in Live(h) ==> b in Live(h1) && Live(h1)[b] == Live(h)[b]
  }

  lemma PayloadLivesOn(h: Tiling, h1: Tiling, u: nat)
    requires Tiled(h) && Tiled(h1) && LivesOn(h, h1) && InPayload(h, u)
    ensures InPayload(h1, u)
  {
    var b := h.owner[u].block;
    assert Accounted(h, u, h.owner[u]) && b in Live(h);
    assert Owns(h1, b) && Inside(u, b, h1.blocks[b].size);
  }

  /** The base header, block headers and units of free blocks are not payload. */
  lemma HeaderOutside(h: Tiling, fl: seq<nat>, x: nat)
    requires Tiled(h) && Listed(h, fl) && (x in fl || x in h.blocks)
    ensures !InPayload(h, x)
  {
    if x in fl && x !in h.blocks {
      var i :| 0 <= i < |fl| && fl[i] == x;
      assert i == 0 || IsFree(h, fl[i]);
    } else {
      assert Owns(h, x) && Inside(x, x, h.blocks[x].size);
    }
  }

  lemma BeyondOutside(h: Tiling, x: nat)
    requires Tiled(h) && h.brk <= x
    ensures !InPayload(h, x)
  { }

  lemma MoreLive(h: Tiling, h1: Tiling, b: nat, n: nat)
    requires b !in Live(h) && Live(h1) == Live(h)[b := n]
    ensures LivesOn(h, h1)
  {
    hide Live;
  }

  lemma SameLive(h: Tiling, h1: Tiling)
    requires Live(h1) == Live(h)
    ensures LivesOn(h, h1)
  {
    hide Live;
  }

  lemma FreeOutside(h: Tiling, b: nat, u: nat)
    requires Tiled(h) && IsFree(h, b) && Inside(u, b, h.blocks[b].size)
    ensures !InPayload(h, u)
  {
    assert Owns(h, b);
  }

  lemma ExtendGood(h: Tiling, fl: seq<nat>, ptr: map<nat, nat>, size: map<nat, nat>, base: nat, p: nat, n: nat)
    requires Good(h, fl, ptr, size, base) && Apart(h, fl) && h.brk <= p && n > 0
    ensures var h' := Extend(h, p, n);
            && Good(h', fl, ptr, size[p := n], base) && Apart(h', fl)
            && p !in Live(h) && Live(h') == Live(h)[p := n] && NothingLost(h, h')
  {
    hide Linked;
    var h' := Extend(h, p, n);
    ExtendTiled(h, p, n);
    forall b ensures IsFree(h', b) <==> IsFree(h, b) { }
    forall i | 0 < i < |fl| - 1 ensures !Touching(h', fl, i) {
      assert IsFree(h, fl[i]) && !Touching(h, fl, i);
    }
  }

  lemma TakeGood(h: Tiling, fl: seq<nat>, ptr: map<nat, nat>, size: map<nat, nat>, base: nat, i: nat)
    requires Good(h, fl, ptr, size, base) && Apart(h, fl) && 0 < i < |fl| && fl[i] in ptr && fl[i] in h.blocks
    ensures var h', fl' := SetFree(h, fl[i], false), Removed(fl, i);
            && Good(h', fl', ptr[fl[i - 1] := ptr[fl[i]]], size, base) && Apart(h', fl')
            && fl[i - 1] in fl' && ForeignUnits(h') == ForeignUnits(h)
            && fl[i] !in Live(h) && Live(h') == Live(h)[fl[i] := h.blocks[fl[i]].size]
  {
    hide Tiled, Linked;
    var h', fl' := SetFree(h, fl[i], false), Removed(fl, i);
    assert IsFree(h, fl[i]);
    SetFreeTiled(h, fl[i], false);
    RemoveListed(h, fl, i);
    LinkRemoved(fl, i, ptr);
    assert fl'[0] == fl[0] && fl'[i - 1] == fl[i - 1];
    forall k | 0 < k < |fl'| - 1 ensures !Touching(h', fl', k) { RemoveApart(h, fl, i, k); }
  }

  lemma CarveGood(h: Tiling, fl: seq<nat>, ptr: map<nat, nat>, size: map<nat, nat>, base: nat, i: nat, n: nat)
    requires Good(h, fl, ptr, size, base) && Apart(h, fl) && 0 < i < |fl| && fl[i] in h.blocks
    requires 0 < n < h.blocks[fl[i]].size
    ensures var m := h.blocks[fl[i]].size - n; var h' := Carve(h, fl[i], n);
            && Good(h', fl, ptr, size[fl[i] := m][fl[i] + m := n], base) && Apart(h', fl)
            && ForeignUnits(h') == ForeignUnits(h)
            && fl[i] + m !in Live(h) && Live(h') == Live(h)[fl[i] + m := n]
  {
    hide Tiled, Linked;
    assert IsFree(h, fl[i]);
    CarveTiled(h, fl[i], n);
    CarveListed(h, fl, i, n);
    CarveLive(h, fl[i], n);
    ListFacts(h, fl, ptr, size, base, i);
  }

  /** Steps along the cycle of n entries from i to f. */
  ghost function Dist(i: nat, f: nat, n: nat): int {
    if f >= i then f - i else f - i + n
  }

  ghost function After(i: nat, n: nat): nat {
    if i + 1 < n then i + 1 else 0
  }

  /** malloc's p and prevp stand at entry i of the free list and the entry before it. */
  ghost predicate Cursor(fl: seq<nat>, i: nat, p: nat, prevp: nat) {
    i < |fl| && p == fl[i] && prevp == fl[if i > 0 then i - 1 else |fl| - 1]
  }

  lemma CursorMoves(fl: seq<nat>, i: nat)
    requires i < |fl|
    ensures After(i, |fl|) < |fl| && Cursor(fl, After(i, |fl|), Next(fl, i), fl[i])
  { }

  lemma DistAfter(i: nat, f: nat, t: nat, n: nat)
    requires i < n && f < n && t < n
    ensures Dist(i, f, n) >= 0 && (Dist(i, f, n) == 0 <==> i == f)
    ensures i != f ==> Dist(After(i, n), f, n) == Dist(i, f, n) - 1
    ensures Dist(After(f, n), t, n) <= Dist(After(f, n), f, n)
  { }

  /** No free block has n units. */
  ghost predicate NoFit(h: Tiling, n: nat) {
    forall b :: IsFree(h, b) ==> h.blocks[b].size < n
  }

  /** The entries farther from f than i, which malloc has passed, are too small. */
  ghost predicate Scanned(fl: seq<nat>, size: map<nat, nat>, i: nat, f: nat, n: nat) {
    forall x: nat :: x < |fl| && Dist(x, f, |fl|) > Dist(i, f, |fl|) ==> TooSmall(size, fl[x], n)
  }

  predicate TooSmall(size: map<nat, nat>, b: nat, n: nat) {
    b in size && size[b] < n
  }

  lemma ScanStart(fl: seq<nat>, size: map<nat, nat>, f: nat, n: nat)
    requires f < |fl|
    ensures Scanned(fl, size, After(f, |fl|), f, n)
  { }

  lemma ScanMore(fl: seq<nat>, size: map<nat, nat>, i: nat, f: nat, n: nat)
    requires i < |fl| && f < |fl| && i != f && Scanned(fl, size, i, f, n) && TooSmall(size, fl[i], n)
    ensures Scanned(fl, size, After(i, |fl|), f, n)
  {
    forall x: nat | x < |fl| && Dist(x, f, |fl|) > Dist(After(i, |fl|), f, |fl|) ensures TooSmall(size, fl[x], n) {
      assert x == i || Dist(x, f, |fl|) > Dist(i, f, |fl|);
    }
  }

  lemma ScanDone(h: Tiling, fl: seq<nat>, ptr: map<nat, nat>, size: map<nat, nat>, base: nat, f: nat, n: nat)
    requires Good(h, fl, ptr, size, base) && f < |fl| && Scanned(fl, size, f, f, n) && TooSmall(size, fl[f], n)
    ensures NoFit(h, n)
  {
    forall b | IsFree(h, b) ensures h.blocks[b].size < n {
      assert b in fl;
      var x: nat :| x < |fl| && fl[x] == b;
      assert x == f || Dist(x, f, |fl|) > Dist(f, f, |fl|);
      assert TooSmall(size, fl[x], n);
    }
  }

  /** malloc took the last n units of entry i: the first one behind freep, at entry f, that is large
      enough; and the next search starts behind the entry before it. */
  ghost predicate Chosen(fl: seq<nat>, size: map<nat, nat>, freep: nat, f: nat, i: nat, n: nat, r: nat, next: nat) {
    && f < |fl| && fl[f] == freep && 0 < i < |fl| && Scanned(fl, size, i, f, n)
    && fl[i] in size && size[fl[i]] >= n && r == fl[i] + (size[fl[i]] - n) + 1 && next == fl[i - 1]
  }

  ghost predicate FirstFitting(fl: seq<nat>, size: map<nat, nat>, freep: nat, n: nat, r: nat, next: nat) {
    exists f: nat, i: nat :: Chosen(fl, size, freep, f, i, n, r, next)
  }

  lemma FitsFirst(fl: seq<nat>, size: map<nat, nat>, freep: nat, f: nat, i: nat, n: nat, r: nat, next: nat)
    requires Chosen(fl, size, freep, f, i, n, r, next)
    ensures FirstFitting(fl, size, freep, n, r, next)
  { }

  /** p is the last entry of the list before bp. */
  ghost predicate NearestBelow(fl: seq<nat>, bp: nat, p: nat) {
    p in fl && p < bp && forall e :: e in fl && e < bp ==> e <= p
  }

  lemma Nearest(fl: seq<nat>, j: nat, bp: nat)
    requires j < |fl| && Ascending(fl) && fl[j] < bp && (j + 1 < |fl| ==> bp < fl[j + 1])
    ensures NearestBelow(fl, bp, fl[j])
  {
    forall e | e in fl && e < bp ensures e <= fl[j] {
      var i :| 0 <= i < |fl| && fl[i] == e;
    }
  }

  /** malloc's search stands at entry i; it has found nothing yet since it began behind freep, or knows
      of a large enough block ahead that morecore added. */
  ghost predicate Searching(h: Tiling, fl: seq<nat>, ptr: map<nat, nat>, size: map<nat, nat>, base: nat, freep: nat,
                            p: nat, prevp: nat, i: nat, f: nat, t: nat, grew: bool, n: nat) {
    && Good(h, fl, ptr, size, base) && f < |fl| && fl[f] == freep && Cursor(fl, i, p, prevp)
    && (!grew ==> Scanned(fl, size, i, f, n))
    && (grew ==> Roomy(h, fl, t, n) && Dist(i, t, |fl|) <= Dist(i, f, |fl|))
  }

  lemma SearchBegins(h: Tiling, fl: seq<nat>, ptr: map<nat, nat>, size: map<nat, nat>, base: nat, f: nat, t: nat,
                     grew: bool, n: nat)
    requires Good(h, fl, ptr, size, base) && f < |fl| && (grew ==> Roomy(h, fl, t, n))
    ensures fl[f] in ptr
    ensures Searching(h, fl, ptr, size, base, fl[f], ptr[fl[f]], fl[f], After(f, |fl|), f, t, grew, n)
  {
    hide Good, Scanned;
    ListFacts(h, fl, ptr, size, base, f);
    CursorMoves(fl, f);
    ScanStart(fl, size, f, n);
    if grew {
      RoomyFacts(h, fl, ptr, size, base, t, n);
      DistAfter(f, f, t, |fl|);
    }
  }

  /** At each entry; once memory has grown the search cannot come back to freep. */
  lemma SearchAt(h: Tiling, fl: seq<nat>, ptr: map<nat, nat>, size: map<nat, nat>, base: nat, freep: nat,
                 p: nat, prevp: nat, i: nat, f: nat, t: nat, grew: bool, n: nat)
    requires Searching(h, fl, ptr, size, base, freep, p, prevp, i, f, t, grew, n)
    ensures i < |fl| && f < |fl| && fl[f] == freep && p == fl[i] && (i > 0 ==> prevp == fl[i - 1])
    ensures p in ptr && p in size && (!grew ==> Scanned(fl, size, i, f, n)) && Dist(i, f, |fl|) >= 0
    ensures size[p] < n && p == freep ==> !grew && NoFit(h, n)
  {
    hide Good, Scanned, NoFit, Dist, Ascending;
    ListFacts(h, fl, ptr, size, base, i);
    DistAfter(i, f, 0, |fl|);
    if size[p] < n && p == freep {
      Distinct(fl, i, f);
      if grew {
        RoomyFacts(h, fl, ptr, size, base, t, n);
        DistAfter(i, t, 0, |fl|);
      } else {
        ScanDone(h, fl, ptr, size, base, f, n);
      }
    }
  }

  lemma SearchOn(h: Tiling, fl: seq<nat>, ptr: map<nat, nat>, size: map<nat, nat>, base: nat, freep: nat,
                 p: nat, prevp: nat, i: nat, f: nat, t: nat, grew: bool, n: nat)
    requires Searching(h, fl, ptr, size, base, freep, p, prevp, i, f, t, grew, n) && p != freep
    requires p in size && size[p] < n && p in ptr
    ensures Searching(h, fl, ptr, size, base, freep, ptr[p], p, After(i, |fl|), f, t, grew, n)
    ensures 0 <= Dist(After(i, |fl|), f, |fl|) < Dist(i, f, |fl|)
  {
    hide Good, Scanned, Dist, Roomy;
    ListFacts(h, fl, ptr, size, base, i);
    CursorMoves(fl, i);
    DistAfter(i, f, 0, |fl|);
    DistAfter(After(i, |fl|), f, 0, |fl|);
    if grew {
      RoomyFacts(h, fl, ptr, size, base, t, n);
      DistAfter(i, t, 0, |fl|);
    } else {
      ScanMore(fl, size, i, f, n);
    }
  }

  class Allocator {
    const base: nat
    var ptr: map<nat, nat>     // header fields, by address
    var size: map<nat, nat>
    var freep: nat             // 0 until the first malloc
    var brk: nat
    /** sbrk has succeeded for another amount than morecore recorded, so that the last block is
        not all there. */
    var lost: bool
    ghost var h: Tiling
    ghost var fl: seq<nat>
    ghost var sbrks: nat       // successful sbrk calls so far
    ghost var refused: nat     // failed ones

    /** Free and live blocks tile the heap; once malloc has run, the free list is one
        address-ordered cycle with a single wrap, and no two free blocks are adjacent. */
    ghost predicate Valid()
      reads this
    {
      && 0 < base < h.lo && h.brk == brk && Tiled(h)
      && (freep == 0 ==> h.blocks == map[])
      && (freep != 0 ==> Good(h, fl, ptr, size, base) && Apart(h, fl) && freep in fl)
    }

    constructor (baseAddr: nat, start: nat)
      requires 0 < baseAddr < start
      ensures Valid() && Live(h) == map[] && sbrks == 0 && refused == 0 && !lost
    {
      base := baseAddr;
      ptr, size, freep, brk := map[], map[], 0, start;
      h := Tiling(map[], map[], start, start);
      fl, sbrks, refused, lost := [], 0, 0, false;
    }

    lemma Reachable()
      requires Valid() && freep != 0
      ensures Good(h, fl, ptr, size, base) && |fl| > 0 && fl[0] == base && freep in fl
    { }

    /** The search loop of free: the last list entry below bp. */
    method Search(bp: nat) returns (p: nat, ghost j: nat)
      requires Valid() && freep != 0 && bp !in fl && base < bp
      ensures j < |fl| && p == fl[j] && p < bp && (j + 1 < |fl| ==> bp < fl[j + 1])
      ensures NearestBelow(fl, bp, p)
    {
      hide Good, Ascending, Tiled, Apart, Place, NearestBelow, Valid;
      Reachable();
      ListFacts(h, fl, ptr, size, base, 0);
      j := Place(fl, bp);
      ghost var k: nat :| k < |fl| && fl[k] == freep;
      p := freep;
      ListFacts(h, fl, ptr, size, base, k);
      Nearest(fl, j, bp);
      SearchStops(fl, bp, j, k);
      while !(bp > p && bp < ptr[p])
        invariant 0 <= k < |fl| && p == fl[k] && p in ptr && ptr[p] == Next(fl, k)
        invariant k == j <==> (bp > p && bp < ptr[p]) || (p >= ptr[p] && (bp > p || bp < ptr[p]))
        decreases if k <= j then j - k else |fl| - k + j
      {
        if p >= ptr[p] && (bp > p || bp < ptr[p]) {
          break;
        }
        p := ptr[p];
        k := if k + 1 < |fl| then k + 1 else 0;
        ListFacts(h, fl, ptr, size, base, k);
        SearchStops(fl, bp, j, k);
      }
      assert k == j;
    }

    /** free: the block leaves the live set, joins the free list in address order and merges
        with its neighbours.  Block t of the list now contains it. */
    method Free(ap: nat) returns (ghost t: nat)
      requires Valid() && freep != 0 && ap > 0 && ap - 1 in Live(h)
      modifies this
      ensures Valid() && freep != 0 && sbrks == old(sbrks) && refused == old(refused) && brk == old(brk)
      ensures lost == old(lost)
      ensures NearestBelow(old(fl), ap - 1, freep)
      ensures Live(h) == old(Live(h)) - {ap - 1}
      ensures ForeignUnits(h) == old(ForeignUnits(h)) && h.lo == old(h.lo) && h.brk == old(h.brk)
      ensures 0 < t < |fl| && fl[t] in h.blocks && old(Live(h))[ap - 1] <= h.blocks[fl[t]].size
      ensures PayloadKept(old(h), old(ptr), old(size), ptr, size)
    {
      var bp := ap - 1;
      hide Tiled, Listed, Linked, Sized, Apart, Live, ForeignUnits, OnlyTouching, Ascending, InPayload,
           PayloadKept, Elsewhere, Touching, Inserted, Removed, Absorb, SetFree, NearestBelow;
      LiveNotListed(h, fl, bp);
      HeaderOutside(h, fl, bp);
      var p;
      ghost var j;
      p, j := Search(bp);
      ListFacts(h, fl, ptr, size, base, j);
      HeaderOutside(h, fl, p);
      NoWrite(ptr, bp, p);
      NoWrite(size, bp, p);
      ghost var h1, fl1 := JoinAbove(h, fl, ptr, size, base, j, bp);
      if bp + size[bp] == ptr[p] {
        OneWrite(size, size, bp, p, bp, size[bp] + size[ptr[p]]);
        OneWrite(ptr, ptr, bp, p, bp, ptr[ptr[p]]);
        size := size[bp := size[bp] + size[ptr[p]]];
        ptr := ptr[bp := ptr[ptr[p]]];
      } else {
        OneWrite(ptr, ptr, bp, p, bp, ptr[p]);
        ptr := ptr[bp := ptr[p]];
      }
      ghost var h2, fl2, t2 := JoinBelow(h1, fl1, ptr[p := bp], size, base, j, bp);
      ghost var linked := ptr[p := bp];
      if p + size[p] == bp {
        OneWrite(old(size), size, bp, p, p, size[p] + size[bp]);
        OneWrite(old(ptr), ptr, bp, p, p, ptr[bp]);
        size := size[p := size[p] + size[bp]];
        ptr := ptr[p := ptr[bp]];
        assert ptr == linked[p := linked[bp]];
      } else {
        OneWrite(old(ptr), ptr, bp, p, p, bp);
        ptr := ptr[p := bp];
      }
      freep := p;
      PayloadWrites(h, old(ptr), old(size), ptr, size, bp, p);
      h, fl, t := h2, fl2, t2;
    }

    /** sbrk succeeds or fails; other callers may have moved the break meanwhile.  n units are
        recorded from the old break on, and asked for only if exact. */
    method Sbrk(n: nat, exact: bool) returns (ok: bool, p: nat)
      modifies this`brk, this`refused, this`lost
      ensures !ok ==> brk == old(brk) && refused == old(refused) + 1 && lost == old(lost)
      ensures ok ==> old(brk) <= p && brk == p + n && refused == old(refused) && lost == (old(lost) || !exact)
    {
      ok, p := *, 0;
      if ok {
        var gap: nat :| 0 <= gap;
        p := brk + gap;
        brk := p + n;
        lost := lost || !exact;
      } else {
        refused := refused + 1;
      }
    }

    /** morecore: on success nu units, but at least 4096, have been added from `from` on, where sbrk's
        memory began, and some free block has at least nu units. */
    method Morecore(nu: nat) returns (p: nat, ghost t: nat, ghost from: nat)
      requires Valid() && freep != 0
      modifies this
      ensures Valid() && freep != 0 && h.lo == old(h.lo)
      ensures Live(h) == old(Live(h)) && NothingLost(old(h), h)
      ensures p == 0 ==> sbrks == old(sbrks) && brk == old(brk) && refused == old(refused) + 1 && lost == old(lost)
      ensures p != 0 ==> p == freep && sbrks == old(sbrks) + 1 && refused == old(refused) && Roomy(h, fl, t, nu)
      ensures p != 0 ==> lost == (old(lost) || !Exact(nu))
      ensures p != 0 ==> old(brk) <= from && brk == from + if nu < 4096 then 4096 else nu
      ensures PayloadKept(old(h), old(ptr), old(size), ptr, size)
    {
      hide Good, Tiled, Apart, Live, ForeignUnits, NothingLost, InPayload, PayloadKept, Exact;
      t, from := 0, 0;
      var n := if nu < MINUNITS then MINUNITS else nu;
      GoodTiled(h, fl, ptr, size, base);
      var ok, hp := Sbrk(n, Exact(nu));
      if !ok {
        NothingLostSame(h, h);
        PayloadSame(h, ptr, size);
        return 0, 0, 0;
      }
      from := hp;
      ExtendGood(h, fl, ptr, size, base, hp, n);
      BeyondOutside(h, hp);
      PayloadWrites(h, ptr, size, ptr, size[hp := n], hp, hp);
      size := size[hp := n];
      h := Extend(h, hp, n);
      ghost var extended := h;
      GoodTiled(h, fl, ptr, size, base);
      sbrks := sbrks + 1;
      ghost var sized := size;
      t := Free(hp + 1);
      MoreLive(old(h), extended, hp, n);
      PayloadTwice(old(h), extended, old(ptr), old(size), old(ptr), sized, ptr, size);
      NothingLostSame(extended, h);
      NothingLostTwice(old(h), extended, h);
      assert old(Live(h))[hp := n] - {hp} == old(Live(h));
      p := freep;
    }

    /** malloc: the block returned was not live and has the request's units, every other live block
        and its payload is untouched, and memory is grown at most once.  The block is not all
        there exactly when nothing fitted and sbrk was asked for another amount.  While memory is not
        grown, it is the end of the first free block behind freep that is large enough. */
    method Malloc(nbytes: nat) returns (r: nat)
      requires Valid() && !lost && nbytes < 0x1_0000_0000
      modifies this
      ensures Valid() && freep != 0 && h.lo == old(h.lo)
      ensures NothingLost(old(h), h) && sbrks <= old(sbrks) + 1
      ensures PayloadKept(old(h), old(ptr), old(size), ptr, size)
      ensures r == 0 ==> Live(h) == old(Live(h)) && sbrks == old(sbrks) && refused == old(refused) + 1
      ensures r != 0 ==> r - 1 !in old(Live(h)) && Live(h) == old(Live(h))[r - 1 := Units(nbytes)]
      ensures r != 0 ==> refused == old(refused)
      ensures r == 0 || sbrks != old(sbrks) ==> NoFit(old(h), Units(nbytes))
      ensures r != 0 && sbrks == old(sbrks) && old(freep) != 0 ==>
        FirstFitting(old(fl), old(size), old(freep), Units(nbytes), r, freep)
      ensures lost <==> sbrks != old(sbrks) && 0x7FFF_FFF0 < nbytes <= 0xFFFF_FFF8
    {
      hide Good, Tiled, Apart, Live, ForeignUnits, NoFit, NothingLost, PayloadKept, InPayload, Exact, FirstFitting;
      var nunits := Units(nbytes);
      assert nunits > 0;
      RequestRanges(nbytes);
      BaseOutside(h, base);
      if freep == 0 {
        ptr, freep := ptr[base := base], base;
        size := size[base := 0];
        fl := [base];
        EmptyGood(h, ptr, size, base);
      }
      PayloadWrites(h, old(ptr), old(size), ptr, size, base, base);
      SameLive(h, h);
      ghost var h0, ptr0, size0 := h, ptr, size;
      ValidTiled();
      r := FirstFit(nunits);
      PayloadTwice(h0, h0, old(ptr), old(size), ptr0, size0, ptr, size);
    }

    lemma ValidTiled()
      requires Valid()
      ensures Tiled(h)
    { }

    /** No unit and no payload has been lost since the heap was h0. */
    ghost predicate Since(h0: Tiling, ptr0: map<nat, nat>, size0: map<nat, nat>)
      reads this
    {
      && NothingLost(h0, h) && PayloadKept(h0, ptr0, size0, ptr, size) && LivesOn(h0, h) && Tiled(h0) && Tiled(h)
      && h.lo == h0.lo
    }

    /** The successful branch of malloc, from a heap that has perhaps been grown since h0. */
    method TakeSince(p: nat, prevp: nat, nunits: nat, ghost i: nat, ghost h0: Tiling, ghost ptr0: map<nat, nat>,
                     ghost size0: map<nat, nat>) returns (r: nat)
      requires Valid() && freep != 0 && i < |fl| && p == fl[i] && (i > 0 ==> prevp == fl[i - 1])
      requires p in size && 0 < nunits <= size[p] && Since(h0, ptr0, size0) && Live(h) == Live(h0)
      modifies this
      ensures Valid() && freep != 0 && h.lo == h0.lo && NothingLost(h0, h) && PayloadKept(h0, ptr0, size0, ptr, size)
      ensures sbrks == old(sbrks) && refused == old(refused) && lost == old(lost)
      ensures r != 0 && r - 1 !in Live(h0) && Live(h) == Live(h0)[r - 1 := nunits]
      ensures i > 0 && r == p + (old(size)[p] - nunits) + 1 && freep == prevp
    {
      hide Good, Tiled, Apart, Live, ForeignUnits, NothingLost, PayloadKept, InPayload, LivesOn;
      BaseIsEmpty(h, fl, ptr, size, base);
      ghost var before, ptr1, size1 := h, ptr, size;
      r := Take(p, prevp, nunits, i);
      PayloadTwice(h0, before, ptr0, size0, ptr1, size1, ptr, size);
      NothingLostSame(before, h);
      NothingLostTwice(h0, before, h);
    }

    /** morecore in malloc's loop: the search goes on at freep, with a large enough block ahead. */
    method GrowSince(nunits: nat, ghost h0: Tiling, ghost ptr0: map<nat, nat>, ghost size0: map<nat, nat>)
      returns (p: nat, ghost t: nat, ghost f: nat)
      requires Valid() && freep != 0 && !lost && Since(h0, ptr0, size0) && Live(h) == Live(h0)
      modifies this
      ensures Valid() && freep != 0 && Since(h0, ptr0, size0) && Live(h) == Live(h0)
      ensures p == 0 ==> sbrks == old(sbrks) && refused == old(refused) + 1 && !lost
      ensures p != 0 ==> sbrks == old(sbrks) + 1 && refused == old(refused) && (lost <==> !Exact(nunits))
      ensures p != 0 ==> p == freep && f < |fl| && fl[f] == freep && Roomy(h, fl, t, nunits) && t < |fl|
    {
      hide Good, Tiled, Apart, Live, ForeignUnits, Roomy, NothingLost, Exact, PayloadKept, InPayload, LivesOn;
      f := 0;
      ghost var before, ptr1, size1 := h, ptr, size;
      ghost var from;
      p, t, from := Morecore(nunits);
      NothingLostTwice(h0, before, h);
      PayloadTwice(h0, before, ptr0, size0, ptr1, size1, ptr, size);
      SameLive(h0, h);
      ValidTiled();
      if p != 0 {
        Reachable();
        f :| 0 <= f < |fl| && fl[f] == freep;
        RoomyFacts(h, fl, ptr, size, base, t, nunits);
      }
    }

    /** The loop of malloc: first fit from the entry after freep. */
    method FirstFit(nunits: nat) returns (r: nat)
      requires Valid() && freep != 0 && nunits > 0 && !lost
      modifies this
      ensures Valid() && freep != 0 && h.lo == old(h.lo)
      ensures NothingLost(old(h), h) && sbrks <= old(sbrks) + 1
      ensures PayloadKept(old(h), old(ptr), old(size), ptr, size)
      ensures r == 0 ==> Live(h) == old(Live(h)) && sbrks == old(sbrks) && refused == old(refused) + 1
      ensures r != 0 ==> r - 1 !in old(Live(h)) && Live(h) == old(Live(h))[r - 1 := nunits]
      ensures r != 0 ==> refused == old(refused)
      ensures r == 0 || sbrks != old(sbrks) ==> NoFit(old(h), nunits)
      ensures r != 0 && sbrks == old(sbrks) ==> FirstFitting(old(fl), old(size), old(freep), nunits, r, freep)
      ensures lost <==> sbrks != old(sbrks) && !Exact(nunits)
    {
      hide Good, Tiled, Live, NothingLost, NoFit, Exact, PayloadKept, LivesOn, FirstFitting, Searching, Dist, After,
           Roomy, Valid;
      ghost var h0, ptr0, size0, fl0 := h, ptr, size, fl;
      Reachable();
      ghost var f: nat :| f < |fl| && fl[f] == freep;
      SearchBegins(h, fl, ptr, size, base, f, 0, false, nunits);
      var prevp, p := freep, ptr[freep];
      ghost var i: nat, grew, t := After(f, |fl|), false, 0;
      NothingLostSame(h, h);
      PayloadSame(h, ptr, size);
      SameLive(h, h);
      ValidTiled();
      while true
        invariant Valid() && freep != 0 && Live(h) == Live(h0) && Since(h0, ptr0, size0)
        invariant sbrks == old(sbrks) + (if grew then 1 else 0) && refused == old(refused)
        invariant lost <==> grew && !Exact(nunits)
        invariant grew ==> NoFit(h0, nunits)
        invariant !grew ==> h == h0 && fl == fl0 && size == size0 && freep == old(freep)
        invariant Searching(h, fl, ptr, size, base, freep, p, prevp, i, f, t, grew, nunits)
        decreases if grew then 0 else 1, Dist(i, f, |fl|)
      {
        SearchAt(h, fl, ptr, size, base, freep, p, prevp, i, f, t, grew, nunits);
        if size[p] >= nunits {
          r := TakeSince(p, prevp, nunits, i, h0, ptr0, size0);
          if !grew { FitsFirst(fl0, size0, old(freep), f, i, nunits, r, freep); }
          return;
        }
        if p == freep {
          p, t, f := GrowSince(nunits, h0, ptr0, size0);
          if p == 0 {
            return 0;
          }
          grew := true;
          Reachable();
          SearchBegins(h, fl, ptr, size, base, f, t, true, nunits);
          i := After(f, |fl|);
        } else {
          SearchOn(h, fl, ptr, size, base, freep, p, prevp, i, f, t, grew, nunits);
          i := After(i, |fl|);
        }
        prevp, p := p, ptr[p];
      }
    }

    /** Unlink all of block i. */
    method TakeWhole(p: nat, prevp: nat, ghost i: nat)
      requires Valid() && freep != 0 && 0 < i < |fl| && p == fl[i] && prevp == fl[i - 1] && p in size && size[p] > 0
      modifies this`ptr, this`freep, this`h, this`fl
      ensures Valid() && freep == prevp != 0 && h.lo == old(h.lo) && h.brk == old(h.brk)
      ensures ForeignUnits(h) == old(ForeignUnits(h))
      ensures p !in old(Live(h)) && Live(h) == old(Live(h))[p := size[p]]
      ensures PayloadKept(old(h), old(ptr), size, ptr, size)
    {
      hide Good, Tiled, Apart, Live, ForeignUnits, InPayload, PayloadKept;
      ListOutside(h, fl, ptr, size, base, i);
      ListOutside(h, fl, ptr, size, base, i - 1);
      ListFacts(h, fl, ptr, size, base, i);
      ListFacts(h, fl, ptr, size, base, i - 1);
      TakeGood(h, fl, ptr, size, base, i);
      ptr := ptr[prevp := ptr[p]];
      PayloadWrites(h, old(ptr), size, ptr, size, prevp, p);
      h, fl := SetFree(h, p, false), Removed(fl, i);
      freep := prevp;
      GoodTiled(h, fl, ptr, size, base);
    }

    /** Carve off the last nunits units of block i. */
    method TakeTail(p: nat, prevp: nat, nunits: nat, ghost i: nat) returns (q: nat)
      requires Valid() && freep != 0 && 0 < i < |fl| && p == fl[i] && prevp == fl[i - 1]
      requires p in size && 0 < nunits < size[p]
      modifies this`size, this`freep, this`h
      ensures Valid() && freep == prevp != 0 && h.lo == old(h.lo) && h.brk == old(h.brk)
      ensures ForeignUnits(h) == old(ForeignUnits(h)) && q == p + (old(size)[p] - nunits)
      ensures q !in old(Live(h)) && Live(h) == old(Live(h))[q := nunits]
      ensures PayloadKept(old(h), ptr, old(size), ptr, size)
    {
      hide Good, Tiled, Apart, Live, ForeignUnits, InPayload, PayloadKept;
      ListOutside(h, fl, ptr, size, base, i);
      ListFacts(h, fl, ptr, size, base, i);
      ListFacts(h, fl, ptr, size, base, i - 1);
      CarveGood(h, fl, ptr, size, base, i, nunits);
      size := size[p := size[p] - nunits];
      q := p + size[p];
      TailOutside(h, fl, ptr, old(size), base, i, q);
      size := size[q := nunits];
      PayloadWrites(h, ptr, old(size), ptr, size, p, q);
      h := Carve(h, p, nunits);
      freep := prevp;
      GoodTiled(h, fl, ptr, size, base);
    }

    /** The successful branch of malloc: hand out all of block i, or its last nunits units. */
    method Take(p: nat, prevp: nat, nunits: nat, ghost i: nat) returns (r: nat)
      requires Valid() && freep != 0 && 0 < i < |fl| && p == fl[i] && prevp == fl[i - 1]
      requires p in size && 0 < nunits <= size[p]
      modifies this
      ensures Valid() && freep != 0 && h.lo == old(h.lo) && h.brk == old(h.brk) && sbrks == old(sbrks)
      ensures refused == old(refused) && lost == old(lost)
      ensures ForeignUnits(h) == old(ForeignUnits(h))
      ensures r != 0 && r - 1 !in old(Live(h)) && Live(h) == old(Live(h))[r - 1 := nunits]
      ensures r == p + (old(size)[p] - nunits) + 1 && freep == prevp
      ensures PayloadKept(old(h), old(ptr), old(size), ptr, size)
    {
      hide Good, Tiled, Apart, Live, ForeignUnits, PayloadKept;
      var q := p;
      if size[p] == nunits {
        TakeWhole(p, prevp, i);
      } else {
        q := TakeTail(p, prevp, nunits, i);
      }
      r := q + 1;
    }

    /** One request of a client that holds the blocks of held and frees only those. */
    method Serve(request: Request, held: map<nat, nat>) returns (r: nat)
      requires Valid() && !lost && Live(h) == held && (request.Allocate? ==> request.nbytes < 0x1_0000_0000)
      modifies this
      ensures Valid() && Live(h) == HeldAfter(held, request, r) && (r != 0 ==> r - 1 !in held)
      ensures refused == old(refused) + if request.Allocate? && r == 0 then 1 else 0
      ensures lost ==> r != 0 && Astray(request)
    {
      hide Live, Good, Tiled, Apart, NoFit, NothingLost, PayloadKept, Exact;
      r := 0;
      match request {
        case Allocate(nbytes) =>
          r := Malloc(nbytes);
        case Release(ap) =>
          if ap > 0 && ap - 1 in held {
            Started(ap - 1);
            ghost var t := Free(ap);
          }
      }
    }

    /** Any sequence of requests and releases: got is what each request returned (0 for a failed
        one and for a release), and the live blocks are exactly those that were given and not freed
        since, with the units of their requests.  No pointer is given out that is still held, and
        sbrk failed once for each request that did.  At worst the last block, for a request that
        makes morecore ask for another amount, is not all there. */
    method Run(requests: seq<Request>) returns (got: seq<nat>)
      requires Valid() && !lost && Live(h) == map[]
      requires forall k :: 0 <= k < |requests| && requests[k].Allocate? ==> requests[k].nbytes < 0x1_0000_0000
      modifies this
      ensures Valid() && |got| <= |requests| && Live(h) == Held(requests, got) && NeverHeld(requests, got)
      ensures refused == old(refused) + Failures(requests, got)
      ensures !lost ==> |got| == |requests|
      ensures lost ==> got != [] && got[|got| - 1] != 0 && Astray(requests[|got| - 1])
    {
      hide Live, Good, Tiled, Apart, HeldAfter, Held, Failures, NeverHeld, Astray;
      got := [];
      var held: map<nat, nat> := map[];
      NothingHeld(requests);
      while |got| < |requests| && !lost
        invariant |got| <= |requests| && Valid() && Live(h) == held == Held(requests, got)
        invariant NeverHeld(requests, got) && refused == old(refused) + Failures(requests, got)
        invariant lost ==> got != [] && got[|got| - 1] != 0 && Astray(requests[|got| - 1])
        decreases |requests| - |got|
      {
        var request := requests[|got|];
        var r := Serve(request, held);
        OneMore(requests, got, r);
        held, got := HeldAfter(held, request, r), got + [r];
      }
    }

    /** There are no live blocks before the first malloc. */
    lemma Started(b: nat)
      requires Valid() && b in Live(h)
      ensures freep != 0
    { }
  }

  datatype Request = Allocate(nbytes: nat) | Release(ap: nat)

  /** The blocks a client holds after one more request that returned r. */
  function HeldAfter(held: map<nat, nat>, request: Request, r: nat): map<nat, nat> {
    match request
    case Allocate(nbytes) => if r != 0 then held[r - 1 := Units(nbytes)] else held
    case Release(ap) => if ap > 0 then held - {ap - 1} else held
  }

  /** A request that makes morecore ask sbrk for another amount than it records. */
  predicate Astray(request: Request) {
    request.Allocate? && 0x7FFF_FFF0 < request.nbytes <= 0xFFFF_FFF8
  }

  /** Blocks given by the first requests and not freed by a later one, by header address, with the
      units they were given with. */
  ghost function Held(requests: seq<Request>, got: seq<nat>): map<nat, nat>
    requires |got| <= |requests|
    decreases |got|
  {
    if got == [] then map[]
    else
      var k := |got| - 1;
      HeldAfter(Held(requests, got[..k]), requests[k], got[k])
  }

  /** No request got a block that was held when it was made. */
  ghost predicate NeverHeld(requests: seq<Request>, got: seq<nat>)
    requires |got| <= |requests|
  {
    forall k :: 0 <= k < |got| && got[k] != 0 ==> got[k] - 1 !in Held(requests, got[..k])
  }

  /** Requests that got nothing. */
  ghost function Failures(requests: seq<Request>, got: seq<nat>): nat
    requires |got| <= |requests|
    decreases |got|
  {
    if got == [] then 0
    else
      var k := |got| - 1;
      Failures(requests, got[..k]) + if requests[k].Allocate? && got[k] == 0 then 1 else 0
  }

  lemma NothingHeld(requests: seq<Request>)
    ensures Held(requests, []) == map[] && Failures(requests, []) == 0 && NeverHeld(requests, [])
  { }

  lemma OneMore(requests: seq<Request>, got: seq<nat>, r: nat)
    requires |got| < |requests| && NeverHeld(requests, got) && (r != 0 ==> r - 1 !in Held(requests, got))
    ensures Held(requests, got + [r]) == HeldAfter(Held(requests, got), requests[|got|], r)
    ensures Failures(requests, got + [r])
         == Failures(requests, got) + if requests[|got|].Allocate? && r == 0 then 1 else 0
    ensures NeverHeld(requests, got + [r])
  {
    hide HeldAfter, NeverHeld;
    assert (got + [r])[..|got|] == got;
    NeverMore(requests, got, r);
  }

  /** Request k got block b, and no later request has freed it or got it. */
  ghost predicate GotLast(requests: seq<Request>, got: seq<nat>, k: nat, b: nat)
    requires |got| <= |requests|
  {
    && k < |got| && requests[k].Allocate? && got[k] == b + 1
    && forall j :: k < j < |got| ==> requests[j] != Release(b + 1) && !(requests[j].Allocate? && got[j] == b + 1)
  }

  /** By position: the client holds exactly the blocks that some request got and none has freed since,
      each with the units of that request. */
  lemma {:induction false} HeldByPosition(requests: seq<Request>, got: seq<nat>, b: nat)
    requires |got| <= |requests|
    ensures b in Held(requests, got) <==> exists k: nat :: GotLast(requests, got, k, b)
    ensures forall k: nat :: GotLast(requests, got, k, b) ==>
      b in Held(requests, got) && Held(requests, got)[b] == Units(requests[k].nbytes)
    decreases |got|
  {
    if got != [] {
      var n := |got| - 1;
      var front := got[..n];
      HeldByPosition(requests, front, b);
      forall k: nat | GotLast(requests, got, k, b) && k < n ensures GotLast(requests, front, k, b) { }
      forall k: nat | GotLast(requests, front, k, b) && b in Held(requests, got)
          && !(requests[n].Allocate? && got[n] == b + 1)
        ensures GotLast(requests, got, k, b) { }
      if requests[n].Allocate? && got[n] == b + 1 { assert GotLast(requests, got, n, b); }
    }
  }

  lemma NeverMore(requests: seq<Request>, got: seq<nat>, r: nat)
    requires |got| < |requests| && NeverHeld(requests, got) && (r != 0 ==> r - 1 !in Held(requests, got))
    ensures NeverHeld(requests, got + [r])
  {
    hide Held;
    forall k | 0 <= k <= |got| ensures (got + [r])[..k] == got[..k] { }
    assert got[..|got|] == got;
  }

  lemma GoodTiled(h: Tiling, fl: seq<nat>, ptr: map<nat, nat>, size: map<nat, nat>, base: nat)
    requires Good(h, fl, ptr, size, base)
    ensures Tiled(h) && |fl| > 0 && fl[0] == base
  { }

  lemma ListOutside(h: Tiling, fl: seq<nat>, ptr: map<nat, nat>, size: map<nat, nat>, base: nat, i: nat)
    requires Good(h, fl, ptr, size, base) && i < |fl|
    ensures !InPayload(h, fl[i])
  {
    HeaderOutside(h, fl, fl[i]);
  }

  lemma TailOutside(h: Tiling, fl: seq<nat>, ptr: map<nat, nat>, size: map<nat, nat>, base: nat, i: nat, u: nat)
    requires Good(h, fl, ptr, size, base) && 0 < i < |fl| && fl[i] in size && fl[i] <= u < fl[i] + size[fl[i]]
    ensures !InPayload(h, u)
  {
    assert IsFree(h, fl[i]);
    FreeOutside(h, fl[i], u);
  }

  lemma BaseOutside(h: Tiling, base: nat)
    requires Tiled(h) && base < h.lo
    ensures !InPayload(h, base)
  { }

  /** The first malloc starts with a list holding only the base header. */
  lemma EmptyGood(h: Tiling, ptr: map<nat, nat>, size: map<nat, nat>, base: nat)
    requires Tiled(h) && h.blocks == map[] && base < h.lo && base in ptr && ptr[base] == base
    requires base in size && size[base] == 0
    ensures Good(h, [base], ptr, size, base) && Apart(h, [base])
  {
    assert forall b :: !IsFree(h, b);
  }

  lemma BaseIsEmpty(h: Tiling, fl: seq<nat>, ptr: map<nat, nat>, size: map<nat, nat>, base: nat)
    requires Good(h, fl, ptr, size, base)
    ensures fl[0] in size && size[fl[0]] == 0
  { }

  lemma Distinct(fl: seq<nat>, i: nat, f: nat)
    requires Ascending(fl) && i < |fl| && f < |fl| && fl[i] == fl[f]
    ensures i == f
  { }

  ghost predicate Roomy(h: Tiling, fl: seq<nat>, t: nat, n: nat) {
    0 < t < |fl| && fl[t] in h.blocks && h.blocks[fl[t]].size >= n
  }

  lemma RoomyFacts(h: Tiling, fl: seq<nat>, ptr: map<nat, nat>, size: map<nat, nat>, base: nat, t: nat, n: nat)
    requires Good(h, fl, ptr, size, base) && Roomy(h, fl, t, n)
    ensures 0 < t < |fl| && fl[t] in size && size[fl[t]] >= n
  { }

  /** A live block is not on the free list and lies above the base header. */
  lemma LiveNotListed(h: Tiling, fl: seq<nat>, b: nat)
    requires Tiled(h) && Listed(h, fl) && b in Live(h) && fl[0] !in h.blocks
    ensures b !in fl && fl[0] < b && b in h.blocks && !h.blocks[b].free && h.blocks[b].size == Live(h)[b]
  {
    assert Owns(h, b) && Inside(b, b, h.blocks[b].size);
    forall i | 0 < i < |fl| ensures fl[i] != b { assert IsFree(h, fl[i]); }
  }
}
