/** What sbrk does with the byte count that morecore passes it: growproc's 32-bit arithmetic on the
    size of a process, with allocuvm and deallocuvm. */
module SbrkSize {
  import opened Umalloc
  import Paging

  const WORD: nat := 0x1_0000_0000

  /** sbrk's success, the size the process then has on record, and the bytes that are mapped. */
  datatype Growth = Growth(ok: bool, sz: nat, mapped: nat)

  /** deallocuvm: the size it returns, which is also what stays mapped. */
  function Deallocated(oldsz: nat, newsz: nat): nat {
    if newsz >= oldsz then oldsz else newsz
  }

  /** growproc: a returned size of 0 counts as failure, whoever returned it. */
  function GrowProc(sz: nat, n: int, limited: bool, memory: bool): Growth {
    var newsz := (sz + n) % WORD;
    if n > 0 then
      var r := Paging.Allocated(sz, newsz, limited, memory);
      if r == 0 then Growth(false, sz, sz) else Growth(true, r, r)
    else if n < 0 then
      var r := Deallocated(sz, newsz);
      if r == 0 then Growth(false, sz, 0) else Growth(true, r, r)
    else
      Growth(true, sz, sz)
  }

  /** The units that morecore records for a request. */
  function Recorded(nbytes: nat): nat {
    if Units(nbytes) < MINUNITS then MINUNITS else Units(nbytes)
  }

  /** The block that morecore records becomes memory of the process exactly when sbrk is asked for it
      and the limits on the process allow it. */
  lemma SbrkGives(nbytes: nat, sz: nat, limited: bool, memory: bool)
    requires nbytes < WORD && 0 < sz < Paging.KERNBASE
    ensures var g, end := GrowProc(sz, SbrkBytes(Units(nbytes)), limited, memory), sz + 8 * Recorded(nbytes);
      (g.ok && g.mapped >= end)
        <==> (&& Exact(Units(nbytes)) && memory && end < Paging.KERNBASE
              && (limited ==> Paging.Pages(end) <= Paging.MAX_TOTAL_PAGES))
  {
    RequestRanges(nbytes);
  }

  /** In the other requests the byte count wraps to a number that is not positive, and the process
      never grows.  It shrinks exactly when it is large enough to: to nothing mapped, with a failing
      sbrk that leaves its size on record, when the count is just its size.  A smaller process keeps
      its size and sbrk succeeds: morecore records a block at the end of memory that is not there. */
  lemma SbrkWraps(nbytes: nat, sz: nat, limited: bool, memory: bool)
    requires 0x7FFF_FFF0 < nbytes <= 0xFFFF_FFF8 && 0 < sz < Paging.KERNBASE
    ensures var g, less := GrowProc(sz, SbrkBytes(Units(nbytes)), limited, memory), WORD - 8 * Recorded(nbytes);
      && less >= 0 && (g.mapped < sz <==> 0 < less <= sz)
      && (g.ok <==> less != sz) && (g.ok ==> g.sz == g.mapped) && (!g.ok ==> g.sz == sz && g.mapped == 0)
      && (0 < less < sz ==> g.sz == sz - less) && (less == 0 || less > sz ==> g.sz == sz)
  {
    RequestRanges(nbytes);
  }

  /** The first request beyond the bound: sbrk(-2^31) takes no memory away, as processes are smaller
      than that, and reports success. */
  lemma FirstWrap(sz: nat, limited: bool, memory: bool)
    requires 0 < sz < Paging.KERNBASE
    ensures SbrkBytes(Units(0x7FFF_FFF1)) == -0x8000_0000
    ensures GrowProc(sz, SbrkBytes(Units(0x7FFF_FFF1)), limited, memory) == Growth(true, sz, sz)
  {
    SbrkWraps(0x7FFF_FFF1, sz, limited, memory);
  }
}
