/** What a process sees of its memory, told from its own accesses alone: the last byte stored at each
    address, and a size that grows with every sbrk that is granted. */
module PagingHistory {
  import opened Paging

  /** The process's size after its sbrk calls. */
  function SizeLeft(done: seq<Access>): nat {
    if done == [] then 0
    else
      var size, a := SizeLeft(done[..|done| - 1]), done[|done| - 1];
      if a.Sbrk? && size + a.n < KERNBASE && Pages(size + a.n) <= MAX_TOTAL_PAGES then size + a.n else size
  }

  /** The byte last stored at addr, or 0. */
  function ByteLeft(done: seq<Access>, addr: Address): Byte {
    if done == [] then 0
    else
      var a := done[|done| - 1];
      if a.Store? && a.addr == addr then a.x else ByteLeft(done[..|done| - 1], addr)
  }

  predicate Inside(done: seq<Access>, addr: Address) {
    addr / PGSIZE < Pages(SizeLeft(done))
  }

  /** What an access shows after those in done, none of which was fatal. */
  predicate Shows(done: seq<Access>, a: Access, o: Outcome) {
    match a
    case Load(addr) => if Inside(done, addr) then o == Value(ByteLeft(done, addr)) else Final(o)
    case Store(addr, x) => if Inside(done, addr) then o == Stores else Final(o)
    case Sbrk(n) =>
      var size := SizeLeft(done);
      o == if size + n < KERNBASE && Pages(size + n) <= MAX_TOTAL_PAGES then Grew(size) else Refused
  }

  /** Loads of other bytes do not see a store, and loads of its byte do. */
  lemma StoreThenLoad(m: Flat, a: Address, x: Byte, b: Address)
    requires a / PGSIZE < |m.mem| && b / PGSIZE < |m.mem|
    ensures FlatStep(FlatStep(m, Store(a, x)).0, Load(b)).1 == if a == b then Value(x) else FlatStep(m, Load(b)).1
  {
    assert a == b <==> a / PGSIZE == b / PGSIZE && a % PGSIZE == b % PGSIZE;
  }

  /** Flat memory holds what the accesses in done left. */
  ghost predicate Tells(done: seq<Access>, m: Flat) {
    && m.size == SizeLeft(done) && |m.mem| == Pages(m.size)
    && forall addr: Address :: addr / PGSIZE < |m.mem| ==> m.mem[addr / PGSIZE][addr % PGSIZE] == ByteLeft(done, addr)
  }

  /** Only what lies inside memory has been stored to. */
  ghost predicate Stored(done: seq<Access>) {
    forall addr: Address :: !Inside(done, addr) ==> ByteLeft(done, addr) == 0
  }

  lemma Snoc(done: seq<Access>, a: Access)
    ensures (done + [a])[..|done|] == done
  { }

  lemma TellsLoad(done: seq<Access>, m: Flat, addr: Address)
    requires Tells(done, m) && Stored(done)
    ensures var (n, o) := FlatStep(m, Load(addr));
      Shows(done, Load(addr), o) && (!Final(o) ==> Tells(done + [Load(addr)], n) && Stored(done + [Load(addr)]))
  {
    Snoc(done, Load(addr));
  }

  lemma TellsStore(done: seq<Access>, m: Flat, addr: Address, x: Byte)
    requires Tells(done, m) && Stored(done)
    ensures var (n, o) := FlatStep(m, Store(addr, x)); var more := done + [Store(addr, x)];
      Shows(done, Store(addr, x), o) && (!Final(o) ==> Tells(more, n) && Stored(more))
  {
    Snoc(done, Store(addr, x));
    var n := FlatStep(m, Store(addr, x)).0;
    if addr / PGSIZE < |m.mem| {
      forall b: Address | b / PGSIZE < |m.mem|
        ensures n.mem[b / PGSIZE][b % PGSIZE] == ByteLeft(done + [Store(addr, x)], b)
      {
        StoreThenLoad(m, addr, x, b);
      }
    }
  }

  lemma TellsSbrk(done: seq<Access>, m: Flat, k: nat)
    requires Tells(done, m) && Stored(done)
    ensures var (n, o) := FlatStep(m, Sbrk(k));
      Shows(done, Sbrk(k), o) && Tells(done + [Sbrk(k)], n) && Stored(done + [Sbrk(k)])
  {
    Snoc(done, Sbrk(k));
    var n := FlatStep(m, Sbrk(k)).0;
    forall addr: Address | addr / PGSIZE < |n.mem|
      ensures n.mem[addr / PGSIZE][addr % PGSIZE] == ByteLeft(done, addr)
    {
      assert addr / PGSIZE >= |m.mem| ==> !Inside(done, addr);
    }
  }

  ghost predicate AllShow(done: seq<Access>, accesses: seq<Access>, os: seq<Outcome>)
    requires |os| <= |accesses|
  {
    forall k :: 0 <= k < |os| ==> Shows(done + accesses[..k], accesses[k], os[k])
  }

  lemma {:induction false} RunShows(done: seq<Access>, m: Flat, accesses: seq<Access>)
    requires Tells(done, m) && Stored(done)
    ensures var os := FlatRun(m, accesses).1;
      && |os| <= |accesses| && AllShow(done, accesses, os)
      && (|os| < |accesses| ==> |os| > 0 && Final(os[|os| - 1]))
    decreases |accesses|
  {
    hide FlatStep, Tells, Stored, Shows;
    FlatRunFirst(m, accesses);
    if accesses != [] {
      var a := accesses[0];
      match a {
        case Load(addr) => TellsLoad(done, m, addr);
        case Store(addr, x) => TellsStore(done, m, addr, x);
        case Sbrk(n) => TellsSbrk(done, m, n);
      }
      var (n, o) := FlatStep(m, a);
      assert done + accesses[..0] == done;
      if !Final(o) || a.Sbrk? {
        SbrkGoesOn(m, a);
        RunShows(done + [a], n, accesses[1..]);
        var os, rest := FlatRun(m, accesses).1, FlatRun(n, accesses[1..]).1;
        forall k | 0 < k < |os| ensures Shows(done + accesses[..k], accesses[k], os[k]) {
          assert done + accesses[..k] == (done + [a]) + accesses[1..][..k - 1];
          assert Shows(done + [a] + accesses[1..][..k - 1], accesses[1..][k - 1], rest[k - 1]);
        }
      }
    }
  }

  lemma SbrkGoesOn(m: Flat, a: Access)
    requires !Final(FlatStep(m, a).1) || a.Sbrk?
    ensures !Final(FlatStep(m, a).1)
  { }

  /** Every run of a new process, through page tables, queue and swap file: each load shows the byte
      last stored at its address, or 0, and nothing but an access outside memory is fatal. */
  method Run(m: AddressSpace, accesses: seq<Access>) returns (os: seq<Outcome>)
    requires m.Valid() && m.Roomy() && m.mem == [] && m.fifo.Pages() == []
    modifies m, m.fifo, m.fifo.ram, m.file
    ensures |os| <= |accesses| && AllShow([], accesses, os)
    ensures |os| < |accesses| ==> |os| > 0 && Final(os[|os| - 1])
  {
    hide FlatRun, m.Consistent;
    RunShows([], Flat(0, [], []), accesses);
    var size;
    size, os := m.Run(0, accesses);
  }
}
