/** Demand paging with FIFO swapping (vm.c and the swap part of fs.c) refines flat memory.

    One process with one address space.  Virtual addresses are given as a page number and
    an offset.  The code's page table, frames, resident queue, swap slots and swap file
    move together; the ghost field mem is the flat memory the process should see. */
module Paging {
  import opened Fifo
  import opened PageTable

  const PGSIZE: nat := 4096
  const MAX_TOTAL_PAGES: nat := 30
  const MAX_FILE_PAGES: nat := 15

  const KERNBASE: nat := 0x8000_0000

  type Byte = x: int | 0 <= x < 256

  type Address = a: int | 0 <= a < 0x1_0000_0000

  type Page = p: seq<Byte> | |p| == PGSIZE witness seq(PGSIZE, _ => 0)

  /** Pages that a size in bytes takes. */
  function Pages(size: nat): nat {
    (size + PGSIZE - 1) / PGSIZE
  }

  ghost function ZeroPage(): Page {
    seq(PGSIZE, _ => 0)
  }

  // ----- sequences of page numbers -----

  ghost predicate DistinctPages(q: seq<nat>) {
    forall a, b :: 0 <= a < b < |q| ==> q[a] != q[b]
  }

  /** Every page number below n is in exactly one of the two lists, once. */
  ghost predicate Partition(q: seq<nat>, f: seq<nat>, n: nat) {
    && DistinctPages(q) && DistinctPages(f)
    && |q| + |f| == n
    && (forall a :: 0 <= a < |q| ==> q[a] < n)
    && (forall b :: 0 <= b < |f| ==> f[b] < n)
    && (forall a, b :: 0 <= a < |q| && 0 <= b < |f| ==> q[a] != f[b])
    && (forall v :: 0 <= v < n ==> v in q || v in f)
  }

  lemma PartitionGrow(q: seq<nat>, f: seq<nat>, n: nat)
    requires Partition(q, f, n)
    ensures Partition(q + [n], f, n + 1)
  {
    forall v | 0 <= v < n + 1 ensures v in q + [n] || v in f { }
  }

  lemma PartitionEvict(q: seq<nat>, f: seq<nat>, n: nat)
    requires Partition(q, f, n) && |q| > 0
    ensures Partition(q[1..] + [n], f + [q[0]], n + 1)
  {
    forall v | 0 <= v < n + 1 ensures v in q[1..] + [n] || v in f + [q[0]] {
      if v < n && v in q && v != q[0] { assert v in q[1..]; }
    }
  }

  lemma PartitionApart(q: seq<nat>, f: seq<nat>, n: nat, i: nat)
    requires Partition(q, f, n) && |q| > 0 && i < |f|
    ensures DistinctPages(f) && q[0] != f[i]
  { }

  lemma PartitionSwap(q: seq<nat>, f: seq<nat>, n: nat, i: nat)
    requires Partition(q, f, n) && |q| > 0 && i < |f|
    ensures Partition(q[1..] + [f[i]], f[i := q[0]], n)
  {
    var f' := f[i := q[0]];
    forall v | 0 <= v < n ensures v in q[1..] + [f[i]] || v in f' {
      if v == q[0] {
        assert f'[i] == v;
      } else if v in q {
        assert v in q[1..];
      } else {
        var k :| 0 <= k < |f| && f[k] == v;
        if k != i { assert f'[k] == v; }
      }
    }
  }

  // ----- one process's memory -----

  /** First unused slot, or the number of slots. */
  ghost function FirstUnused(f: seq<Slot>): (k: nat)
    ensures k <= |f| && (forall i :: 0 <= i < k ==> f[i].used) && (k < |f| ==> !f[k].used)
  {
    if f == [] || !f[0].used then 0 else 1 + FirstUnused(f[1..])
  }

  /** The swap file after a page is written at slot k. */
  ghost function Written(swap: seq<Page>, k: nat, data: Page): seq<Page>
    requires k <= |swap|
  {
    if k < |swap| then swap[k := data] else swap + [data]
  }

  /** First slot naming page v, or the number of slots. */
  ghost function FirstWith(f: seq<Slot>, v: nat): (k: nat)
    ensures k <= |f| && (forall i :: 0 <= i < k ==> f[i].vAddr != v) && (k < |f| ==> f[k].vAddr == v)
  {
    if f == [] || f[0].vAddr == v then 0 else 1 + FirstWith(f[1..], v)
  }

  lemma FirstUnusedIs(f: seq<Slot>, n: nat)
    requires n <= |f| && forall i :: 0 <= i < |f| ==> f[i].used == (i < n)
    ensures FirstUnused(f) == n
  {
    assert n < |f| ==> !f[n].used;
  }

  lemma HeadIsFirst(fifo: Queue)
    requires fifo.Valid() && fifo.count > 0
    ensures fifo.Pages()[0] == fifo.ram[fifo.start].vAddr
  {
    RotatedAt(fifo.ram[..], fifo.start, 0, fifo.ram[fifo.start]);
  }

  /** Page v is resident in an allocated frame that holds what memory should hold. */
  ghost predicate Held(v: nat, pte: map<nat, bv32>, phys: map<Frame, Page>, mem: seq<Page>) {
    && v in pte && v < |mem|
    && MapsTo(pte[v], Addr(pte[v])) && Aligned(Addr(pte[v]))
    && Addr(pte[v]) in phys && phys[Addr(pte[v])] == mem[v]
  }

  /** Every queued page is held, and no two share a frame. */
  ghost predicate ResidentOk(q: seq<nat>, pte: map<nat, bv32>, phys: map<Frame, Page>, mem: seq<Page>) {
    && (forall k :: 0 <= k < |q| ==> Held(q[k], pte, phys, mem))
    && (forall a, b :: 0 <= a < b < |q| ==> Addr(pte[q[a]]) != Addr(pte[q[b]]))
  }

  /** Page v is marked paged out and slot i of the swap file holds what memory should hold. */
  ghost predicate Stored(v: nat, i: nat, pte: map<nat, bv32>, swap: seq<Page>, mem: seq<Page>) {
    v in pte && Swapped(pte[v]) && v < |mem| && i < |swap| && swap[i] == mem[v]
  }

  ghost predicate SlotsOk(f: seq<nat>, pte: map<nat, bv32>, swap: seq<Page>, mem: seq<Page>) {
    forall i :: 0 <= i < |f| ==> Stored(f[i], i, pte, swap, mem)
  }

  /** The used slots are a prefix of file_manager. */
  ghost predicate FileOk(file: seq<Slot>, f: seq<nat>) {
    && |f| <= |file|
    && (forall i :: 0 <= i < |file| ==> file[i].used == (i < |f|))
    && (forall i :: 0 <= i < |f| ==> file[i].vAddr == f[i])
  }

  /** page_in finds a swapped page by its first match, and the slot it frees is the next one
      page_out takes. */
  lemma SlotReused(file: seq<Slot>, f: seq<nat>, i: nat, w: nat)
    requires FileOk(file, f) && DistinctPages(f) && i < |f|
    ensures FirstWith(file, f[i]) == i < |file| && file[i].used
    ensures var freed := file[i := Slot(false, f[i])];
            FirstUnused(freed) == i && FileOk(freed[i := Slot(true, w)], f[i := w])
  {
    hide FirstUnused, FirstWith;
    var freed := file[i := Slot(false, f[i])];
    var k, u := FirstWith(file, f[i]), FirstUnused(freed);
    assert file[i].vAddr == f[i] && k <= i;
    assert k < |f| && f[k] == f[i];
    assert u <= i by { assert !freed[i].used; }
    assert forall m :: 0 <= m < i ==> freed[m] == file[m] && freed[m].used;
  }

  ghost predicate FreeOk(free: seq<Frame>, phys: map<Frame, Page>) {
    && (forall i :: 0 <= i < |free| ==> Aligned(free[i]) && free[i] !in phys)
    && (forall i, j :: 0 <= i < j < |free| ==> free[i] != free[j])
  }

  /** Taking the first free frame and giving back a used one keeps the free list sound. */
  lemma FreeExchange(free: seq<Frame>, phys: map<Frame, Page>, data: Page, out: Frame)
    requires FreeOk(free, phys) && |free| > 0 && out in phys && Aligned(out)
    ensures FreeOk([out] + free[1..], phys[free[0] := data] - {out})
  { }

  lemma MapNewPage(q: seq<nat>, f: seq<nat>, pte: map<nat, bv32>, phys: map<Frame, Page>, swap: seq<Page>,
                   mem: seq<Page>, frame: Frame)
    requires ResidentOk(q, pte, phys, mem) && SlotsOk(f, pte, swap, mem)
    requires frame !in phys && Aligned(frame)
    ensures var v := |mem|;
            var pte', phys', mem' := pte[v := Mapped(frame)], phys[frame := ZeroPage()], mem + [ZeroPage()];
            ResidentOk(q + [v], pte', phys', mem') && SlotsOk(f, pte', swap, mem')
  {
    hide Present, PagedOut, Addr, Aligned, Mapped, MarkIn, MarkOut;
    MappedEntry(frame);
    var v := |mem|;
    var pte', phys', mem' := pte[v := Mapped(frame)], phys[frame := ZeroPage()], mem + [ZeroPage()];
    forall k | 0 <= k < |q| ensures Held(q[k], pte', phys', mem') && Addr(pte'[q[k]]) != frame {
      assert Held(q[k], pte, phys, mem);
    }
    assert Held(v, pte', phys', mem');
    forall i | 0 <= i < |f| ensures Stored(f[i], i, pte', swap, mem') {
      assert Stored(f[i], i, pte, swap, mem);
    }
    var r := q + [v];
    forall a, b | 0 <= a < b < |r| ensures Addr(pte'[r[a]]) != Addr(pte'[r[b]]) {
      assert Held(q[a], pte, phys, mem);
      if b < |q| { assert Held(q[b], pte, phys, mem); }
    }
  }

  lemma EvictHead(q: seq<nat>, f: seq<nat>, pte: map<nat, bv32>, phys: map<Frame, Page>, swap: seq<Page>,
                  mem: seq<Page>, swap': seq<Page>)
    requires |q| > 0 && ResidentOk(q, pte, phys, mem) && SlotsOk(f, pte, swap, mem)
    requires q[0] !in f && DistinctPages(q)
    requires |f| < |swap'| && q[0] in pte && Addr(pte[q[0]]) in phys && swap'[|f|] == phys[Addr(pte[q[0]])]
    requires forall i :: 0 <= i < |f| ==> i < |swap| && swap'[i] == swap[i]
    ensures var pte', phys' := pte[q[0] := MarkOut(pte[q[0]])], phys - {Addr(pte[q[0]])};
            ResidentOk(q[1..], pte', phys', mem) && SlotsOk(f + [q[0]], pte', swap', mem)
  {
    hide Present, PagedOut, Addr, Aligned, Mapped, MarkIn, MarkOut;
    OutEntry(pte[q[0]]);
    var pte', phys' := pte[q[0] := MarkOut(pte[q[0]])], phys - {Addr(pte[q[0]])};
    var r := q[1..];
    assert Held(q[0], pte, phys, mem);
    forall k | 0 <= k < |r| ensures Held(r[k], pte', phys', mem) {
      assert Held(q[k + 1], pte, phys, mem);
    }
    forall a, b | 0 <= a < b < |r| ensures Addr(pte'[r[a]]) != Addr(pte'[r[b]]) {
      assert Held(q[a + 1], pte, phys, mem) && Held(q[b + 1], pte, phys, mem);
    }
    forall i | 0 <= i < |f| ensures Stored(f[i], i, pte', swap', mem) {
      assert Stored(f[i], i, pte, swap, mem);
    }
  }

  lemma ExchangePages(q: seq<nat>, f: seq<nat>, i: nat, pte: map<nat, bv32>, phys: map<Frame, Page>, swap: seq<Page>,
                      mem: seq<Page>, frame: Frame, swap': seq<Page>)
    requires |q| > 0 && i < |f| && ResidentOk(q, pte, phys, mem) && SlotsOk(f, pte, swap, mem)
    requires Partition(q, f, |mem|) && frame !in phys && Aligned(frame)
    requires f[i] in pte && i < |swap| && q[0] in pte && q[0] < |mem| && swap' == swap[i := mem[q[0]]]
    ensures var pte1 := pte[f[i] := MarkIn(pte[f[i]], frame)];
            var pte', phys' := pte1[q[0] := MarkOut(pte1[q[0]])], phys[frame := swap[i]] - {Addr(pte[q[0]])};
            ResidentOk(q[1..] + [f[i]], pte', phys', mem) && SlotsOk(f[i := q[0]], pte', swap', mem)
  {
    hide Present, PagedOut, Addr, Aligned, Mapped, MarkIn, MarkOut;
    var v := f[i];
    var pte1 := pte[v := MarkIn(pte[v], frame)];
    var pte', phys' := pte1[q[0] := MarkOut(pte1[q[0]])], phys[frame := swap[i]] - {Addr(pte[q[0]])};
    var r, f' := q[1..] + [v], f[i := q[0]];
    assert Stored(v, i, pte, swap, mem) && Held(q[0], pte, phys, mem);
    InEntry(pte[v], frame);
    OutEntry(pte1[q[0]]);
    forall k | 0 < k < |q| ensures Held(q[k], pte', phys', mem) && Addr(pte'[q[k]]) == Addr(pte[q[k]]) != frame {
      assert Held(q[k], pte, phys, mem);
    }
    assert Held(v, pte', phys', mem);
    forall k | 0 <= k < |r| ensures Held(r[k], pte', phys', mem) {
      if k < |q| - 1 { assert r[k] == q[k + 1]; }
    }
    forall a, b | 0 <= a < b < |r| ensures Addr(pte'[r[a]]) != Addr(pte'[r[b]]) {
      assert r[a] == q[a + 1];
      if b < |q| - 1 { assert r[b] == q[b + 1]; }
    }
    forall k | 0 <= k < |f'| ensures Stored(f'[k], k, pte', swap', mem) {
      assert Stored(f[k], k, pte, swap, mem);
    }
  }

  /** A page that is not present is in some slot. */
  lemma FindSlot(q: seq<nat>, f: seq<nat>, pte: map<nat, bv32>, phys: map<Frame, Page>, swap: seq<Page>,
                 mem: seq<Page>, v: nat) returns (i: nat)
    requires ResidentOk(q, pte, phys, mem) && SlotsOk(f, pte, swap, mem) && Partition(q, f, |mem|)
    requires v < |mem| && v in pte && !Present(pte[v])
    ensures i < |f| && f[i] == v && i < |swap| && swap[i] == mem[v]
  {
    hide Present, Addr;
    forall k | 0 <= k < |q| ensures q[k] != v { assert Held(q[k], pte, phys, mem); }
    assert v in f;
    i :| 0 <= i < |f| && f[i] == v;
    assert Stored(f[i], i, pte, swap, mem);
  }

  lemma FreeHead(free: seq<Frame>, phys: map<Frame, Page>)
    requires FreeOk(free, phys) && |free| > 0
    ensures Aligned(free[0]) && free[0] !in phys
  { }

  lemma FreeTake(free: seq<Frame>, phys: map<Frame, Page>, data: Page)
    requires FreeOk(free, phys) && |free| > 0
    ensures FreeOk(free[1..], phys[free[0] := data])
  { }

  /** A registered page is in the page table, and it is present or marked paged out. */
  lemma PageKnown(q: seq<nat>, f: seq<nat>, pte: map<nat, bv32>, phys: map<Frame, Page>, swap: seq<Page>,
                  mem: seq<Page>, v: nat)
    requires ResidentOk(q, pte, phys, mem) && SlotsOk(f, pte, swap, mem) && Partition(q, f, |mem|) && v < |mem|
    ensures v in pte && (Present(pte[v]) || PagedOut(pte[v]))
    ensures Present(pte[v]) ==> v in q
  {
    hide Present, PagedOut, Addr;
    if v in q {
      var k :| 0 <= k < |q| && q[k] == v;
      assert Held(q[k], pte, phys, mem);
    } else {
      var i :| 0 <= i < |f| && f[i] == v;
      assert Stored(f[i], i, pte, swap, mem);
    }
  }

  lemma NotQueued(q: seq<nat>, pte: map<nat, bv32>, phys: map<Frame, Page>, mem: seq<Page>, v: nat)
    requires ResidentOk(q, pte, phys, mem) && v in pte && !Present(pte[v])
    ensures v !in q
  {
    hide Present, Addr;
    forall k | 0 <= k < |q| ensures q[k] != v { assert Held(q[k], pte, phys, mem); }
  }

  /** Storing to a resident page changes that page of memory only. */
  lemma StorePage(q: seq<nat>, f: seq<nat>, pte: map<nat, bv32>, phys: map<Frame, Page>, swap: seq<Page>,
                  mem: seq<Page>, v: nat, data: Page)
    requires ResidentOk(q, pte, phys, mem) && SlotsOk(f, pte, swap, mem) && Partition(q, f, |mem|)
    requires v in q && v < |mem| && v in pte
    ensures Addr(pte[v]) in phys && phys[Addr(pte[v])] == mem[v]
    ensures var phys', mem' := phys[Addr(pte[v]) := data], mem[v := data];
            ResidentOk(q, pte, phys', mem') && SlotsOk(f, pte, swap, mem')
  {
    hide Present, PagedOut, Addr, Aligned, Mapped, MarkIn, MarkOut;
    var phys', mem' := phys[Addr(pte[v]) := data], mem[v := data];
    var j :| 0 <= j < |q| && q[j] == v;
    assert Held(q[j], pte, phys, mem);
    forall k | 0 <= k < |q| ensures Held(q[k], pte, phys', mem') {
      assert Held(q[k], pte, phys, mem);
    }
    forall i | 0 <= i < |f| ensures Stored(f[i], i, pte, swap, mem') {
      assert Stored(f[i], i, pte, swap, mem);
    }
  }

  lemma QueuedPage(q: seq<nat>, k: nat, pte: map<nat, bv32>, phys: map<Frame, Page>, mem: seq<Page>)
    requires k < |q| && ResidentOk(q, pte, phys, mem)
    ensures q[k] in pte && Addr(pte[q[k]]) in phys && Aligned(Addr(pte[q[k]]))
    ensures q[k] < |mem| && phys[Addr(pte[q[k]])] == mem[q[k]] && MapsTo(pte[q[k]], Addr(pte[q[k]]))
  {
    assert Held(q[k], pte, phys, mem);
  }

  lemma FreeStore(free: seq<Frame>, phys: map<Frame, Page>, f: Frame, data: Page)
    requires FreeOk(free, phys) && f in phys
    ensures FreeOk(free, phys[f := data])
  { }

  // ----- page tables -----

  /** Each entry of the page directory covers this many pages. */
  const TABLE: nat := 1024

  /** setupkvm maps the kernel from KERNBASE up to PHYSTOP, and the devices above DEVSPACE. */
  predicate KernelTable(d: nat) {
    512 <= d < 568 || 1016 <= d < 1024
  }

  /** The page directory has an entry for page v of a process with n pages. */
  predicate HasTable(n: nat, v: nat) {
    (v / TABLE == 0 && n > 0) || KernelTable(v / TABLE)
  }

  /** Bit 0x200 (PTE_PG) of the first word of a page. */
  predicate LooksPagedOut(p: Page) {
    p[1] / 2 % 2 == 1
  }

  /** The word at the start of a page, as the kernel reads it. */
  function FirstWord(p: Page): nat {
    var b0: int, b1: int, b2: int, b3: int := p[0], p[1], p[2], p[3];
    b0 + 0x100 * b1 + 0x1_0000 * b2 + 0x100_0000 * b3
  }

  lemma LooksLike(p: Page)
    ensures LooksPagedOut(p) <==> FirstWord(p) / 0x200 % 2 == 1
  {
    var b0: int, b1: int, b2: int, b3: int := p[0], p[1], p[2], p[3];
    assert FirstWord(p) == 0x200 * (0x80 * b2 + 0x8000 * b3 + b1 / 2) + (b0 + 0x100 * (b1 % 2));
    assert FirstWord(p) / 0x200 == 0x80 * b2 + 0x8000 * b3 + b1 / 2;
  }

  // ----- flat memory -----

  /** Flat memory after storing x at addr; a store outside it has no effect. */
  ghost function AfterStore(mem: seq<Page>, addr: nat, x: Byte): seq<Page> {
    var v := addr / PGSIZE;
    if v < |mem| then mem[v := mem[v][addr % PGSIZE := x]] else mem
  }

  ghost function Grown(mem: seq<Page>, n: nat): seq<Page> {
    if |mem| <= n then mem + seq(n - |mem|, _ => ZeroPage()) else mem
  }

  lemma StoreLength(mem: seq<Page>, addr: nat, x: Byte)
    ensures |AfterStore(mem, addr, x)| == |mem|
    ensures addr / PGSIZE >= |mem| ==> AfterStore(mem, addr, x) == mem
  { }

  lemma GrownLength(mem: seq<Page>, n: nat)
    ensures |Grown(mem, n)| == if |mem| <= n then n else |mem|
    ensures n <= |mem| ==> Grown(mem, n) == mem
    ensures forall q, k: nat :: k <= |mem| ==> Queued(q, |mem|, k) == q
  { }

  /** The resident pages after page v is touched: a page that was swapped out takes the place of the
      oldest one. */
  ghost function Touched(queue: seq<nat>, v: nat): seq<nat> {
    if v in queue || queue == [] then queue else queue[1..] + [v]
  }

  /** ... and after pages from..to are added. */
  ghost function Queued(queue: seq<nat>, from: nat, to: nat): seq<nat>
    decreases to
  {
    if to <= from then queue
    else
      var q := Queued(queue, from, to - 1);
      (if |q| < MAX_PSYC_PAGES then q else q[1..]) + [to - 1]
  }

  lemma NoneGrown(mem: seq<Page>, queue: seq<nat>)
    ensures Grown(mem, |mem|) == mem && Queued(queue, |mem|, |mem|) == queue
  { }

  lemma OneGrown(mem: seq<Page>, queue: seq<nat>, n: nat)
    requires |mem| <= n
    ensures Grown(mem, n + 1) == Grown(mem, n) + [ZeroPage()]
    ensures Queued(queue, |mem|, n + 1) == Queued(Queued(queue, |mem|, n), n, n + 1)
  { }

  lemma QueuedOne(queue: seq<nat>, v: nat)
    ensures Queued(queue, v, v + 1) == (if |queue| < MAX_PSYC_PAGES then queue else queue[1..]) + [v]
  { }

  /** The size that allocuvm returns, 0 on failure: limited processes are all but the shell and
      init, and memory tells whether kalloc finds every frame. */
  function Allocated(oldsz: nat, newsz: nat, limited: bool, memory: bool): nat {
    if newsz >= KERNBASE then 0
    else if newsz < oldsz then oldsz
    else if (limited && Pages(newsz) > MAX_TOTAL_PAGES) || !memory then 0
    else newsz
  }

  /** What a process does with its memory, and what it sees.  Sbrk counts bytes. */
  datatype Access = Load(addr: Address) | Store(addr: Address, x: Byte) | Sbrk(n: nat)

  datatype Outcome = Value(x: Byte) | Stores | Grew(oldsz: nat) | Refused | Killed | KernelPanic

  /** A process's size in bytes, its flat memory, and which of its pages are resident, oldest first;
      the last only shows in the fate of wild accesses. */
  datatype Flat = Flat(size: nat, mem: seq<Page>, queue: seq<nat>)

  /** An access outside memory kills the process, if its address has a page table.  If not, the
      kernel takes the word at address 0 for the page's entry: that only ends well when page 0 is
      resident and the word does not look like the entry of a page that is swapped out. */
  ghost function Wild(mem: seq<Page>, queue: seq<nat>, v: nat): Outcome {
    if HasTable(|mem|, v) then Killed
    else if mem != [] && 0 in queue && !LooksPagedOut(mem[0]) then Killed
    else KernelPanic
  }

  /** One access on flat memory. */
  ghost function FlatStep(m: Flat, a: Access): (Flat, Outcome) {
    match a
    case Load(addr) =>
      var v := addr / PGSIZE;
      if v < |m.mem| then (m.(queue := Touched(m.queue, v)), Value(m.mem[v][addr % PGSIZE]))
      else (m, Wild(m.mem, m.queue, v))
    case Store(addr, x) =>
      var v := addr / PGSIZE;
      if v < |m.mem| then (m.(mem := AfterStore(m.mem, addr, x), queue := Touched(m.queue, v)), Stores)
      else (m, Wild(m.mem, m.queue, v))
    case Sbrk(n) =>
      if m.size + n >= KERNBASE || Pages(m.size + n) > MAX_TOTAL_PAGES then (m, Refused)
      else
        var pages := Pages(m.size + n);
        (Flat(m.size + n, Grown(m.mem, pages), Queued(m.queue, |m.mem|, pages)), Grew(m.size))
  }

  predicate Final(o: Outcome) { o == Killed || o == KernelPanic }

  /** A whole run on flat memory; it stops when the process is killed or the kernel panics. */
  ghost function FlatRun(m: Flat, accesses: seq<Access>): (Flat, seq<Outcome>)
    decreases |accesses|
  {
    if accesses == [] then (m, [])
    else
      var (m1, o) := FlatStep(m, accesses[0]);
      if Final(o) then (m1, [o])
      else
        var (m2, os) := FlatRun(m1, accesses[1..]);
        (m2, [o] + os)
  }

  lemma FlatRunFirst(m: Flat, accesses: seq<Access>)
    ensures accesses == [] ==> FlatRun(m, accesses) == (m, [])
    ensures accesses != [] ==>
              var (m1, o) := FlatStep(m, accesses[0]);
              FlatRun(m, accesses) ==
                if Final(o) then (m1, [o])
                else (FlatRun(m1, accesses[1..]).0, [o] + FlatRun(m1, accesses[1..]).1)
  { }

  /** Addresses that have a page table in a process with memory. */
  predicate Tabled(a: Access) {
    !a.Sbrk? ==> HasTable(1, a.addr / PGSIZE)
  }

  /** Which pages are resident does not show as long as every address has a page table. */
  lemma {:induction false} ResidenceInvisible(m: Flat, queue: seq<nat>, accesses: seq<Access>)
    requires m.mem != [] && forall k :: 0 <= k < |accesses| ==> Tabled(accesses[k])
    ensures FlatRun(m, accesses).1 == FlatRun(m.(queue := queue), accesses).1
    ensures FlatRun(m, accesses).0.mem == FlatRun(m.(queue := queue), accesses).0.mem
    decreases |accesses|
  {
    if accesses != [] {
      hide Touched, Queued;
      var a, m' := accesses[0], m.(queue := queue);
      assert Tabled(a);
      var (m1, o) := FlatStep(m, a);
      var (m2, p) := FlatStep(m', a);
      assert o == p && m2 == m1.(queue := m2.queue);
      FlatRunFirst(m, accesses);
      FlatRunFirst(m', accesses);
      StepKeepsMemory(m, a);
      ResidenceInvisible(m1, m2.queue, accesses[1..]);
    }
  }

  lemma StepKeepsMemory(m: Flat, a: Access)
    requires m.mem != []
    ensures FlatStep(m, a).0.mem != []
  { }

  /** A process with sixteen pages, whose first page has been swapped out, brings the kernel down by
      reading at 4 MB. */
  lemma PanicsWhenSwapped()
    ensures FlatRun(Flat(0, [], []), [Sbrk(16 * PGSIZE), Load(0x40_0000)]).1 == [Grew(0), KernelPanic]
  {
    var m := Flat(0, [], []);
    var accesses := [Sbrk(16 * PGSIZE), Load(0x40_0000)];
    FifteenResident(15);
    var m1 := FlatStep(m, accesses[0]).0;
    assert 0 !in m1.queue;
    FlatRunFirst(m, accesses);
    FlatRunFirst(m1, accesses[1..]);
    assert accesses[1..] == [Load(0x40_0000)] && accesses[1..][1..] == [];
    FlatRunFirst(FlatStep(m1, accesses[1]).0, []);
  }

  lemma {:induction false} FifteenResident(n: nat)
    requires n <= MAX_PSYC_PAGES
    ensures Queued([], 0, n) == seq(n, i => i)
  {
    if n > 0 {
      FifteenResident(n - 1);
    }
  }

  /** So does a process with one page that first stores 2 at address 1. */
  lemma PanicsOnWord()
    ensures FlatRun(Flat(0, [], []), [Sbrk(PGSIZE), Store(1, 2), Load(0x40_0000)]).1 == [Grew(0), Stores, KernelPanic]
  {
    var m := Flat(0, [], []);
    var accesses := [Sbrk(PGSIZE), Store(1, 2), Load(0x40_0000)];
    var m1 := FlatStep(m, accesses[0]).0;
    var m2 := FlatStep(m1, accesses[1]).0;
    assert m2.mem[0][1] == 2;
    FlatRunFirst(m, accesses);
    FlatRunFirst(m1, accesses[1..]);
    assert accesses[1..][1..] == [Load(0x40_0000)];
    FlatRunFirst(m2, [Load(0x40_0000)]);
    FlatRunFirst(FlatStep(m2, accesses[2]).0, []);
  }

  /** How an access ends: on a resident page, in a hard fault, or with the kernel. */
  datatype Fate = Resident | HardFault | Crash

  class AddressSpace {
    const fifo: Queue
    const file: array<Slot>        // file_manager
    var swap: seq<Page>            // contents of the swap file
    var pagedOut: int              // paged_out_count
    var pte: map<nat, bv32>
    var phys: map<Frame, Page>      // frames in use
    var free: seq<Frame>            // the kernel's free list, most recently freed first
    var tables: set<nat>            // page directory entries below KERNBASE
    ghost var slots: seq<nat>      // pages in the swap file, by slot
    ghost var mem: seq<Page>       // the flat memory this refines

    /** The resident pages q and the pages in slots account for the whole memory, and a page is
        swapped out only while the resident queue is full. */
    ghost predicate Consistent(q: seq<nat>)
      reads this, file
    {
      && file.Length == MAX_FILE_PAGES && FileOk(file[..], slots)
      && Partition(q, slots, |mem|) && |mem| <= MAX_TOTAL_PAGES
      && |q| <= MAX_PSYC_PAGES && (slots != [] ==> |q| == MAX_PSYC_PAGES)
      && |slots| <= |swap| && pagedOut == |slots|
      && (forall v :: v in pte ==> v < |mem|) && tables == (if mem == [] then {} else {0})
      && ResidentOk(q, pte, phys, mem) && SlotsOk(slots, pte, swap, mem)
      && FreeOk(free, phys)
    }

    ghost predicate Valid()
      reads this, fifo, fifo.ram, file
    {
      fifo.Valid() && fifo.ram != file && Consistent(fifo.Pages())
    }

    /** One more frame than a process may keep resident. */
    ghost predicate Roomy()
      reads this, fifo
    {
      |free| + fifo.count > MAX_PSYC_PAGES
    }

    /** kalloc and memset: a zeroed frame, not in use elsewhere. */
    method Kalloc() returns (frame: Frame)
      requires |free| > 0
      modifies this`free, this`phys
      ensures frame == old(free)[0] && free == old(free)[1..]
      ensures phys == old(phys)[frame := ZeroPage()]
    {
      frame := free[0];
      free := free[1..];
      phys := phys[frame := seq(PGSIZE, _ => 0)];
    }

    method Kfree(frame: Frame)
      modifies this`free, this`phys
      ensures free == [frame] + old(free) && phys == old(phys) - {frame}
    {
      free := [frame] + free;
      phys := phys - {frame};
    }

    /** nextFreePageIndexInFile. */
    method NextFreePageIndexInFile() returns (index: int)
      requires file.Length == MAX_FILE_PAGES
      ensures var k := FirstUnused(file[..]); index == if k < MAX_FILE_PAGES then k else -1
    {
      var i := 0;
      while i < MAX_FILE_PAGES
        invariant 0 <= i <= MAX_FILE_PAGES
        invariant forall k :: 0 <= k < i ==> file[k].used
      {
        if !file[i].used {
          return i;
        }
        i := i + 1;
      }
      index := -1;
    }

    /** page_out writes a resident page to the first unused slot, and fails when there is none
        or when the write would start past the end of the swap file. */
    method PageOut(v: nat) returns (index: int)
      requires file.Length == MAX_FILE_PAGES && v in pte && Addr(pte[v]) in phys
      modifies this`swap, this`pagedOut, file
      ensures var k := FirstUnused(old(file[..]));
              if k < MAX_FILE_PAGES && k <= |old(swap)| then
                && index == k && pagedOut == old(pagedOut) + 1
                && file[..] == old(file[..])[k := Slot(true, v)]
                && swap == Written(old(swap), k, phys[Addr(pte[v])])
              else
                index == -1 && swap == old(swap) && file[..] == old(file[..]) && pagedOut == old(pagedOut)
    {
      index := NextFreePageIndexInFile();
      if index < 0 || index > |swap| {
        return -1;
      }
      var data := phys[Addr(pte[v])];
      if index == |swap| {
        swap := swap + [data];
      } else {
        swap := swap[index := data];
      }
      file[index] := Slot(true, v);
      pagedOut := pagedOut + 1;
    }

    /** page_in reads the first slot whose vAddr matches, whether or not it is in use, and
        stores its entry over the head of the resident queue. */
    method PageIn(v: nat) returns (found: bool, data: Page)
      requires file.Length == MAX_FILE_PAGES && fifo.Valid() && fifo.count == MAX_PSYC_PAGES && fifo.ram != file
      requires var k := FirstWith(file[..], v); k < MAX_FILE_PAGES ==> file[k].used
      modifies this`pagedOut, file, fifo.ram
      ensures fifo.Valid()
      ensures var k := FirstWith(old(file[..]), v);
              if k < MAX_FILE_PAGES && k < |swap| then
                && found && data == swap[k] && pagedOut == old(pagedOut) - 1
                && file[..] == old(file[..])[k := Slot(false, v)]
                && fifo.Pages() == old(fifo.Pages())[0 := v]
              else
                !found && file[..] == old(file[..]) && fifo.Pages() == old(fifo.Pages()) && pagedOut == old(pagedOut)
    {
      data := seq(PGSIZE, _ => 0);
      var i := 0;
      while i < MAX_FILE_PAGES
        invariant 0 <= i <= MAX_FILE_PAGES
        invariant forall k :: 0 <= k < i ==> file[k].vAddr != v
      {
        if file[i].vAddr == v {
          if i >= |swap| {
            return false, data;
          }
          data := swap[i];
          fifo.OverwriteHead(file[i]);
          file[i] := Slot(false, file[i].vAddr);
          pagedOut := pagedOut - 1;
          return true, data;
        }
        i := i + 1;
      }
      found := false;
    }

    /** What swap_out and swap_in do to the page that leaves: write it to the swap file, mark its
        entry, and free its frame. */
    method Displace(out: nat)
      requires file.Length == MAX_FILE_PAGES && out in pte && Addr(pte[out]) in phys
      requires FirstUnused(file[..]) < MAX_FILE_PAGES && FirstUnused(file[..]) <= |swap|
      modifies this`swap, this`pagedOut, this`pte, this`phys, this`free, file
      ensures pagedOut == old(pagedOut) + 1
      ensures file[..] == old(file[..])[old(FirstUnused(file[..])) := Slot(true, out)]
      ensures swap == Written(old(swap), old(FirstUnused(file[..])), old(phys[Addr(pte[out])]))
      ensures pte == old(pte)[out := MarkOut(old(pte[out]))]
      ensures phys == old(phys) - {Addr(old(pte[out]))} && free == [Addr(old(pte[out]))] + old(free)
    {
      hide *;
      var frame := Addr(pte[out]);
      var index := PageOut(out);
      pte := pte[out := MarkOut(pte[out])];
      Kfree(frame);
    }

    /** The first half of swap_in: map v to a new frame and read its page from the swap file. */
    method Fetch(v: nat) returns (frame: Frame)
      requires file.Length == MAX_FILE_PAGES && fifo.Valid() && fifo.count == MAX_PSYC_PAGES && fifo.ram != file
      requires |free| > 0 && v in pte
      requires var k := FirstWith(file[..], v); k < MAX_FILE_PAGES && k < |swap| && file[k].used
      modifies this`pagedOut, this`pte, this`phys, this`free, file, fifo.ram
      ensures fifo.Valid() && fifo.Pages() == old(fifo.Pages())[0 := v]
      ensures var k := FirstWith(old(file[..]), v);
              file[..] == old(file[..])[k := Slot(false, v)] && phys == old(phys)[frame := swap[k]]
      ensures pagedOut == old(pagedOut) - 1
      ensures frame == old(free)[0] && free == old(free)[1..]
      ensures pte == old(pte)[v := MarkIn(old(pte)[v], frame)]
    {
      hide *;
      frame := Kalloc();
      pte := pte[v := MarkIn(pte[v], frame)];
      var found, buff := PageIn(v);
      phys := phys[frame := buff];
    }

    constructor (frames: seq<Frame>)
      requires |frames| > MAX_PSYC_PAGES && FreeOk(frames, map[])
      ensures Valid() && Roomy() && mem == []
      ensures fresh(fifo) && fresh(fifo.ram) && fresh(file)
    {
      fifo := new Queue();
      file := new Slot[MAX_FILE_PAGES](_ => Slot(false, 0));
      swap, pagedOut, pte, phys, free, tables := [], 0, map[], map[], frames, {};
      slots, mem := [], [];
    }

    /** swap_out for a new page v, mapped but not yet queued: the head of the full queue goes to
        the next slot of the swap file and v joins the tail. */
    method SwapOut(v: nat, ghost q: seq<nat>)
      requires fifo.Valid() && fifo.ram != file && fifo.count == MAX_PSYC_PAGES && q == fifo.Pages()
      requires file.Length == MAX_FILE_PAGES && FileOk(file[..], slots)
      requires Partition(q, slots, v) && |mem| == v + 1 <= MAX_TOTAL_PAGES
      requires |slots| <= |swap| && pagedOut == |slots| && (forall u :: u in pte ==> u < |mem|) && tables == {0}
      requires ResidentOk(q + [v], pte, phys, mem) && SlotsOk(slots, pte, swap, mem)
      requires FreeOk(free, phys)
      modifies this, fifo, fifo.ram, file
      ensures Valid() && mem == old(mem) && |free| == old(|free|) + 1 && fifo.count == MAX_PSYC_PAGES
      ensures fifo.Pages() == q[1..] + [v] && slots == old(slots) + [q[0]]
    {
      hide Present, PagedOut, Addr, Aligned, Mapped, MarkIn, MarkOut, FirstUnused, FirstWith, PagesOf,
           PrefixUsed, Rotated, At, ResidentOk, SlotsOk;
      var victim := fifo.ram[fifo.start].vAddr;
      HeadIsFirst(fifo);
      QueuedPage(q + [v], 0, pte, phys, mem);
      FirstUnusedIs(file[..], |slots|);
      Displace(victim);
      EvictHead(q + [v], slots, old(pte), old(phys), old(swap), mem, swap);
      fifo.ReplaceHead(v);
      PartitionEvict(q, slots, v);
      slots := slots + [victim];
      assert (q + [v])[1..] == q[1..] + [v];
    }

    /** One round of allocuvm's loop: the next page is mapped to a zeroed frame and joins the
        resident queue, evicting its head to the swap file when the queue is full. */
    method AddPage(v: nat)
      requires Valid() && Roomy() && v == |mem| < MAX_TOTAL_PAGES
      modifies this, fifo, fifo.ram, file
      ensures Valid() && Roomy() && mem == old(mem) + [ZeroPage()]
      ensures fifo.Pages() == Queued(old(fifo.Pages()), v, v + 1)
    {
      hide Present, PagedOut, Addr, Aligned, Mapped, MarkIn, MarkOut, FirstUnused, FirstWith, PagesOf,
           PrefixUsed, Rotated, At, ResidentOk, SlotsOk, FileOk, Partition, FreeOk, Queued;
      ghost var q := fifo.Pages();
      FreeHead(free, phys);
      FreeTake(free, phys, ZeroPage());
      QueuedOne(q, v);
      var frame := Kalloc();
      MapNewPage(q, slots, pte, old(phys), swap, mem, frame);
      pte := pte[v := Mapped(frame)];
      tables := tables + {v / TABLE};
      mem := mem + [ZeroPage()];
      if fifo.count != MAX_PSYC_PAGES {
        PartitionGrow(q, slots, v);
        fifo.Insert(v);
      } else {
        SwapOut(v, q);
      }
    }

    /** swap_in, on a fault at a page in the swap file: the page takes the place of the head of
        the full queue, which goes to the slot the page came from. */
    method SwapIn(v: nat)
      requires Valid() && Roomy() && v < |mem| && v in pte && !Present(pte[v])
      modifies this, fifo, fifo.ram, file
      ensures Valid() && Roomy() && mem == old(mem)
      ensures v in pte && MapsTo(pte[v], Addr(pte[v]))
      ensures fifo.Pages() == old(fifo.Pages())[1..] + [v]
    {
      hide Present, PagedOut, Addr, Aligned, Mapped, MarkIn, MarkOut, FirstUnused, FirstWith, PagesOf,
           PrefixUsed, Rotated, At, ResidentOk, SlotsOk, FileOk, Partition, FreeOk;
      ghost var q, f, file0 := fifo.Pages(), slots, file[..];
      ghost var i := FindSlot(q, f, pte, phys, swap, mem, v);
      HeadIsFirst(fifo);
      QueuedPage(q, 0, pte, phys, mem);
      FreeHead(free, phys);
      PartitionApart(q, f, |mem|, i);
      SlotReused(file0, f, i, q[0]);
      var avail := fifo.FreeIndex();
      assert avail == -1;
      var outPage := fifo.ram[fifo.start].vAddr;
      var frame := Fetch(v);
      Displace(outPage);
      ExchangePages(q, f, i, old(pte), old(phys), old(swap), mem, frame, swap);
      FreeExchange(old(free), old(phys), old(swap)[i], Addr(old(pte)[outPage]));
      fifo.Shift();
      assert (q[0 := v])[1..] + [v] == q[1..] + [v];
      PartitionSwap(q, f, |mem|, i);
      slots := f[i := outPage];
      QueuedPage(q[1..] + [v], |q| - 1, pte, phys, mem);
    }

    /** walkpgdir(pgdir, va, 0) finds a page table. */
    predicate Walks(v: nat)
      reads this
    {
      v / TABLE in tables || KernelTable(v / TABLE)
    }

    /** An access by the process and the page fault trap: a resident page needs nothing, a page in
        the swap file is swapped in, and any other address with a page table is a hard fault.
        Without a page table isPageInSwapFile reads its entry through a null pointer, which the
        kernel survives only if page 0 is resident and the word there has bit 0x200 clear. */
    method Fault(v: nat) returns (r: Fate)
      requires Valid() && Roomy()
      modifies this, fifo, fifo.ram, file
      ensures Valid() && Roomy() && mem == old(mem)
      ensures fifo.Pages() == if v < |mem| then Touched(old(fifo.Pages()), v) else old(fifo.Pages())
      ensures r == Resident <==> v < |mem|
      ensures r == Resident ==> v in pte && v in fifo.Pages()
      ensures v >= |mem| ==> (r == HardFault <==> Wild(mem, old(fifo.Pages()), v) == Killed)
    {
      hide Present, PagedOut, Addr, Aligned, Mapped, MarkIn, MarkOut, PagesOf, PrefixUsed, Rotated, At,
           ResidentOk, SlotsOk, FileOk, FreeOk;
      if mem != [] { PageKnown(fifo.Pages(), slots, pte, phys, swap, mem, 0); }
      if v < |mem| { PageKnown(fifo.Pages(), slots, pte, phys, swap, mem, v); }
      if v in pte && Present(pte[v]) {
        return Resident;
      }
      if !Walks(v) {
        if 0 !in pte || !Present(pte[0]) {
          if mem != [] { NotQueued(fifo.Pages(), pte, phys, mem, 0); }
          return Crash;
        }
        StorePage(fifo.Pages(), slots, pte, phys, swap, mem, 0, mem[0]);
        return if LooksPagedOut(phys[Addr(pte[0])]) then Crash else HardFault;
      }
      if v in pte && PagedOut(pte[v]) {
        NotQueued(fifo.Pages(), pte, phys, mem, v);
        SwapIn(v);
        return Resident;
      }
      return HardFault;
    }

    /** A user store. */
    method Write(addr: Address, x: Byte) returns (r: Fate)
      requires Valid() && Roomy()
      modifies this, fifo, fifo.ram, file
      ensures Valid() && Roomy() && mem == AfterStore(old(mem), addr, x)
      ensures var v := addr / PGSIZE;
        && fifo.Pages() == (if v < |mem| then Touched(old(fifo.Pages()), v) else old(fifo.Pages()))
        && (r == Resident <==> v < |mem|)
        && (v >= |mem| ==> (r == HardFault <==> Wild(mem, old(fifo.Pages()), v) == Killed))
    {
      hide Present, PagedOut, Addr, Aligned, Mapped, MarkIn, MarkOut, PagesOf, PrefixUsed, Rotated, At,
           ResidentOk, SlotsOk, FileOk, FreeOk, Wild, Touched;
      var v := addr / PGSIZE;
      r := Fault(v);
      if r == Resident {
        ghost var data := mem[v][addr % PGSIZE := x];
        StorePage(fifo.Pages(), slots, pte, phys, swap, mem, v, data);
        FreeStore(free, phys, Addr(pte[v]), data);
        phys := phys[Addr(pte[v]) := phys[Addr(pte[v])][addr % PGSIZE := x]];
        mem := mem[v := data];
      }
    }

    /** A user load. */
    method Read(addr: Address) returns (r: Fate, x: Byte)
      requires Valid() && Roomy()
      modifies this, fifo, fifo.ram, file
      ensures Valid() && Roomy() && mem == old(mem)
      ensures var v := addr / PGSIZE;
        && fifo.Pages() == (if v < |mem| then Touched(old(fifo.Pages()), v) else old(fifo.Pages()))
        && (r == Resident <==> v < |mem|) && (r == Resident ==> x == mem[v][addr % PGSIZE])
        && (v >= |mem| ==> (r == HardFault <==> Wild(mem, old(fifo.Pages()), v) == Killed))
    {
      hide Present, PagedOut, Addr, Aligned, Mapped, MarkIn, MarkOut, PagesOf, PrefixUsed, Rotated, At,
           ResidentOk, SlotsOk, FileOk, FreeOk, Wild, Touched;
      var v := addr / PGSIZE;
      x := 0;
      r := Fault(v);
      if r == Resident {
        StorePage(fifo.Pages(), slots, pte, phys, swap, mem, v, mem[v]);
        x := phys[Addr(pte[v])][addr % PGSIZE];
      }
    }

    /** The loop of allocuvm. */
    method AddPages(oldsz: nat, newsz: nat)
      requires Valid() && Roomy() && Pages(oldsz) == |mem| && oldsz <= newsz && Pages(newsz) <= MAX_TOTAL_PAGES
      modifies this, fifo, fifo.ram, file
      ensures Valid() && Roomy() && mem == Grown(old(mem), Pages(newsz))
      ensures fifo.Pages() == Queued(old(fifo.Pages()), |old(mem)|, Pages(newsz))
    {
      hide Consistent, Grown, Queued;
      var a := Pages(oldsz);
      NoneGrown(mem, fifo.Pages());
      while a * PGSIZE < newsz
        invariant Pages(oldsz) <= a <= Pages(newsz) && a == |mem| && Valid() && Roomy()
        invariant mem == Grown(old(mem), a) && fifo.Pages() == Queued(old(fifo.Pages()), |old(mem)|, a)
        decreases newsz - a * PGSIZE
      {
        OneGrown(old(mem), old(fifo.Pages()), a);
        AddPage(a);
        a := a + 1;
      }
    }

    /** allocuvm, growing from oldsz bytes (the process's size) to newsz. */
    method Grow(oldsz: nat, newsz: nat) returns (r: nat)
      requires Valid() && Roomy() && Pages(oldsz) == |mem|
      modifies this, fifo, fifo.ram, file
      ensures Valid() && Roomy()
      ensures r == Allocated(oldsz, newsz, true, true)
      ensures var n := if newsz < KERNBASE && Pages(newsz) <= MAX_TOTAL_PAGES then Pages(newsz) else 0;
        && mem == Grown(old(mem), n)
        && fifo.Pages() == Queued(old(fifo.Pages()), |old(mem)|, n)
    {
      hide Consistent, Grown, Queued;
      GrownLength(mem, 0);
      GrownLength(mem, Pages(newsz));
      if newsz >= KERNBASE {
        return 0;
      }
      if newsz < oldsz {
        return oldsz;
      }
      if Pages(newsz) > MAX_TOTAL_PAGES {
        return 0;
      }
      AddPages(oldsz, newsz);
      r := newsz;
    }

    lemma AtMostAll()
      requires Valid()
      ensures |mem| <= MAX_TOTAL_PAGES
    { }

    ghost function Model(size: nat): Flat
      requires Valid()
      reads this, fifo, fifo.ram, file
    {
      Flat(size, mem, fifo.Pages())
    }

    /** One access, through the page tables, queue and swap file, does what flat memory does. */
    method Perform(size: nat, a: Access) returns (sz: nat, o: Outcome)
      requires Valid() && Roomy() && Pages(size) == |mem|
      modifies this, fifo, fifo.ram, file
      ensures Valid() && Roomy() && Pages(sz) == |mem|
      ensures (Model(sz), o) == FlatStep(old(Model(size)), a)
    {
      hide Consistent, AfterStore, Grown, Touched, Queued, Wild;
      ghost var m := Model(size);
      AtMostAll();
      sz := size;
      match a {
        case Load(addr) =>
          var r, x := Read(addr);
          o := if r == Resident then Value(x) else if r == HardFault then Killed else KernelPanic;
          WildEnds(m.mem, m.queue, addr / PGSIZE);
        case Store(addr, x) =>
          var r := Write(addr, x);
          o := if r == Resident then Stores else if r == HardFault then Killed else KernelPanic;
          StoreLength(m.mem, addr, x);
          WildEnds(m.mem, m.queue, addr / PGSIZE);
        case Sbrk(n) =>
          o := Grew(size);
          if n > 0 {
            var r := Grow(size, size + n);
            GrownLength(m.mem, Pages(size + n));
            GrownLength(m.mem, 0);
            assert Pages(size + n) >= Pages(size);
            if r == 0 {
              o := Refused;
            } else {
              sz := r;
            }
          } else {
            GrownLength(m.mem, Pages(size));
          }
      }
    }

    /** Over every run of loads, stores and growth, a process sees exactly what it would see with
        flat memory. */
    method Run(size: nat, accesses: seq<Access>) returns (sz: nat, outcomes: seq<Outcome>)
      requires Valid() && Roomy() && Pages(size) == |mem|
      modifies this, fifo, fifo.ram, file
      ensures Valid() && Roomy() && Pages(sz) == |mem|
      ensures Model(sz) == FlatRun(old(Model(size)), accesses).0
      ensures outcomes == FlatRun(old(Model(size)), accesses).1
    {
      hide *;
      outcomes := [];
      sz := size;
      var i := 0;
      ghost var m := Model(size);
      assert accesses[0..] == accesses;
      assert [] + FlatRun(m, accesses).1 == FlatRun(m, accesses).1;
      while i < |accesses|
        invariant 0 <= i <= |accesses| && Valid() && Roomy() && Pages(sz) == |mem|
        invariant FlatRun(m, accesses).0 == FlatRun(Model(sz), accesses[i..]).0
        invariant FlatRun(m, accesses).1 == outcomes + FlatRun(Model(sz), accesses[i..]).1
      {
        FlatRunFirst(Model(sz), accesses[i..]);
        assert accesses[i..][1..] == accesses[i + 1..];
        var o;
        sz, o := Perform(sz, accesses[i]);
        outcomes := outcomes + [o];
        if Final(o) {
          return;
        }
        i := i + 1;
      }
      assert accesses[i..] == [];
      FlatRunFirst(Model(sz), accesses[i..]);
    }
  }

  lemma WildEnds(mem: seq<Page>, queue: seq<nat>, v: nat)
    ensures Final(Wild(mem, queue, v))
  { }
}
