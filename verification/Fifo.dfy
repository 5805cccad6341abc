/** The circular FIFO of resident pages kept by vm.c (ram_manager, fifoIndexStart,
    fifoIndexNext, page_mem_count), refining a bounded sequence of pages. */
module Fifo {

  const MAX_PSYC_PAGES: nat := 15

  /** A page_t entry; vAddr is the number of a virtual page. */
  datatype Slot = Slot(used: bool, vAddr: nat)

  /** The array as seen from the head. */
  ghost function Rotated(s: seq<Slot>, start: nat): (r: seq<Slot>)
    requires start < |s|
    ensures |r| == |s|
  {
    s[start..] + s[..start]
  }

  /** Array index of the k-th entry from the head. */
  function At(start: nat, k: nat): nat {
    (start + k) % MAX_PSYC_PAGES
  }

  lemma RotatedAt(s: seq<Slot>, start: nat, k: nat, x: Slot)
    requires |s| == MAX_PSYC_PAGES && start < |s| && k < |s|
    ensures Rotated(s, start)[k] == s[At(start, k)]
    ensures Rotated(s[At(start, k) := x], start) == Rotated(s, start)[k := x]
  {
    var i := At(start, k);
    assert i == if start + k < MAX_PSYC_PAGES then start + k else start + k - MAX_PSYC_PAGES;
    assert Rotated(s, start)[k] == s[i];
  }

  lemma RotatedNext(s: seq<Slot>, start: nat)
    requires |s| == MAX_PSYC_PAGES && start < |s|
    ensures Rotated(s, At(start, 1)) == Rotated(s, start)[1..] + [Rotated(s, start)[0]]
  { }

  /** The pages of the first n entries. */
  ghost function PagesOf(r: seq<Slot>, n: nat): (q: seq<nat>)
    requires n <= |r|
    ensures |q| == n && forall k :: 0 <= k < n ==> q[k] == r[k].vAddr
  {
    seq(n, k requires 0 <= k < n <= |r| => r[k].vAddr)
  }

  /** Exactly the first n entries are in use. */
  ghost predicate PrefixUsed(r: seq<Slot>, n: nat) {
    n <= |r| && forall k :: 0 <= k < |r| ==> r[k].used == (k < n)
  }

  /** Ring r with entry j freed and the entries after it moved down as far as m. */
  ghost function Closing(r: seq<Slot>, j: nat, m: nat): seq<Slot>
    requires j <= m < |r|
  {
    r[..j] + r[j + 1..m + 1] + [Slot(false, r[m].vAddr)] + r[m + 1..]
  }

  lemma ClosingStep(r: seq<Slot>, j: nat, m: nat)
    requires j <= m && m + 1 < |r|
    ensures Closing(r, j, m + 1) == Closing(r, j, m)[m := r[m + 1]][m + 1 := Slot(false, r[m + 1].vAddr)]
    ensures !Closing(r, j, m)[m].used && Closing(r, j, m)[m + 1] == r[m + 1]
  { }

  lemma ClosingStart(r: seq<Slot>, j: nat)
    requires j < |r| && !r[j].used
    ensures Closing(r, j, j) == r
  { }

  lemma AtStep(start: nat, k: nat)
    ensures At(start, k + 1) == (At(start, k) + 1) % MAX_PSYC_PAGES
    ensures At(start, k) < MAX_PSYC_PAGES
    ensures forall n :: 0 < n - k < MAX_PSYC_PAGES ==> At(start, k) != At(start, n)
  { }

  class Queue {
    const ram: array<Slot>
    var start: nat   // fifoIndexStart
    var next: nat    // fifoIndexNext
    var count: nat   // page_mem_count

    ghost function Ring(): seq<Slot>
      requires ram.Length == MAX_PSYC_PAGES && start < MAX_PSYC_PAGES
      reads this, ram
    {
      Rotated(ram[..], start)
    }

    /** A contiguous arc of used slots runs from start to just before next. */
    ghost predicate Valid()
      reads this, ram
    {
      && ram.Length == MAX_PSYC_PAGES
      && start < MAX_PSYC_PAGES && count <= MAX_PSYC_PAGES
      && next == At(start, count)
      && PrefixUsed(Ring(), count)
    }

    /** The queued pages, oldest first. */
    ghost function Pages(): seq<nat>
      requires Valid()
      reads this, ram
    {
      PagesOf(Ring(), count)
    }

    constructor ()
      ensures Valid() && Pages() == [] && fresh(ram)
    {
      ram := new Slot[MAX_PSYC_PAGES](_ => Slot(false, 0));
      start, next, count := 0, 0, 0;
    }

    /** nextFIFOFreePageIndex. */
    function FreeIndex(): int
      reads this
    {
      if count != MAX_PSYC_PAGES then next else -1
    }

    /** One array write, seen from the head. */
    method Put(i: nat, ghost k: nat, x: Slot)
      requires ram.Length == MAX_PSYC_PAGES && start < MAX_PSYC_PAGES && k < MAX_PSYC_PAGES && i == At(start, k)
      modifies ram
      ensures Ring() == old(Ring())[k := x]
    {
      RotatedAt(ram[..], start, k, x);
      ghost var was := ram[..];
      ram[i] := x;
      assert ram[..] == was[i := x];
    }

    /** insertPageToRAM appends to a queue that is not full. */
    method Insert(v: nat)
      requires Valid() && count < MAX_PSYC_PAGES
      modifies this, ram
      ensures Valid() && Pages() == old(Pages()) + [v] && start == old(start)
    {
      var index := FreeIndex();
      Put(index, count, Slot(true, v));
      count := count + 1;
      next := (start + count) % MAX_PSYC_PAGES;
    }

    /** deletePageFromRAM(index, false), insertPageToRAM and shiftFIFOIndex, as swap_out
        performs them on a full queue: the head leaves and the new page joins the tail. */
    method ReplaceHead(v: nat)
      requires Valid() && count == MAX_PSYC_PAGES
      modifies this, ram
      ensures Valid() && Pages() == old(Pages())[1..] + [v]
      ensures start == At(old(start), 1)
    {
      Put(start, 0, Slot(false, ram[start].vAddr));
      count := count - 1;
      var index := FreeIndex();
      Put(index, 0, Slot(true, v));
      count := count + 1;
      next := (start + count) % MAX_PSYC_PAGES;
      Shift();
    }

    /** page_in writes the incoming page's entry over the victim at the head of a full queue. */
    method OverwriteHead(entry: Slot)
      requires Valid() && count == MAX_PSYC_PAGES && entry.used
      modifies ram
      ensures Valid() && Pages() == old(Pages())[0 := entry.vAddr]
    {
      Put(start, 0, entry);
    }

    /** shiftFIFOIndex rotates a full queue: its head becomes its tail. */
    method Shift()
      requires Valid() && count == MAX_PSYC_PAGES
      modifies this
      ensures Valid() && count == old(count)
      ensures start == At(old(start), 1)
      ensures Pages() == old(Pages())[1..] + [old(Pages())[0]]
    {
      RotatedNext(ram[..], start);
      start := (start + 1) % MAX_PSYC_PAGES;
      next := (next + 1) % MAX_PSYC_PAGES;
    }

    /** deletePageFromRAM(index, true) at any occupied position removes that page and keeps
        the order of the others, across the wrap. */
    method Delete(index: nat, ghost j: nat)
      requires Valid() && j < count && index == At(start, j)
      modifies this, ram
      ensures Valid() && Pages() == old(Pages())[..j] + old(Pages())[j + 1..] && start == old(start)
    {
      Put(index, j, Slot(false, ram[index].vAddr));
      count := count - 1;
      Organize(index, j);
      next := (start + count) % MAX_PSYC_PAGES;
    }

    /** organizeFIFORAMqueue closes the gap at `from`; count is already reduced and next is
        still the old tail. */
    method Organize(from: nat, ghost j: nat)
      requires ram.Length == MAX_PSYC_PAGES && start < MAX_PSYC_PAGES && j <= count < MAX_PSYC_PAGES
      requires next == At(start, count + 1) && from == At(start, j)
      requires forall k :: 0 <= k < MAX_PSYC_PAGES ==> Ring()[k].used == (k <= count && k != j)
      modifies ram
      ensures Ring() == Closing(old(Ring()), j, count)
    {
      hide Rotated, At, Closing;
      ghost var r := Ring();
      AtStep(start, j);
      var i, nextIdx := from, (from + 1) % MAX_PSYC_PAGES;
      ghost var m := j;
      assert Closing(r, j, j) == r by { ClosingStart(r, j); }
      while nextIdx != next
        invariant j <= m <= count && i == At(start, m) && nextIdx == At(start, m + 1)
        invariant Ring() == Closing(r, j, m)
        decreases count - m
      {
        AtStep(start, m);
        AtStep(start, m + 1);
        ClosingStep(r, j, m);
        RotatedAt(ram[..], start, m, Slot(false, 0));
        RotatedAt(ram[..], start, m + 1, Slot(false, 0));
        var gap, taken := !ram[i].used, ram[nextIdx].used;
        if gap && taken {
          var moved := ram[nextIdx];
          Put(i, m, moved);
          Put(nextIdx, m + 1, Slot(false, moved.vAddr));
          i := nextIdx;
        } else if !gap {
          i := nextIdx;
        }
        nextIdx := (nextIdx + 1) % MAX_PSYC_PAGES;
        m := m + 1;
      }
      AtStep(start, m + 1);
      assert m == count;
    }

    /** removePageFromRAM drops the page if it is queued, and otherwise does nothing. */
    method Remove(v: nat)
      requires Valid()
      requires forall a, b :: 0 <= a < b < count ==> Pages()[a] != Pages()[b]
      modifies this, ram
      ensures Valid()
      ensures v !in old(Pages()) ==> Pages() == old(Pages())
      ensures forall j :: 0 <= j < old(count) && old(Pages())[j] == v ==>
                Pages() == old(Pages())[..j] + old(Pages())[j + 1..]
    {
      var i := 0;
      while i < MAX_PSYC_PAGES
        invariant 0 <= i <= MAX_PSYC_PAGES
        invariant forall k :: 0 <= k < i ==> !(ram[k].used && ram[k].vAddr == v)
      {
        if ram[i].used && ram[i].vAddr == v {
          ghost var j := if i >= start then i - start else i + MAX_PSYC_PAGES - start;
          RotatedAt(ram[..], start, j, ram[i]);
          assert Pages()[j] == v;
          Delete(i, j);
          return;
        }
        i := i + 1;
      }
      forall j | 0 <= j < count ensures Pages()[j] != v {
        RotatedAt(ram[..], start, j, Slot(false, 0));
        assert Ring()[j].used;
      }
    }
  }
}
