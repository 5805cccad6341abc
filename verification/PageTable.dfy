/** Page table entries and the flag updates of swapping (mmu.h, vm.c). */
module PageTable {

  /** A physical frame, by its address. */
  datatype Frame = Frame(pa: bv32)

  // Bits, as in mmu.h: PTE_P 0x001, PTE_W 0x002, PTE_U 0x004, PTE_PG 0x200.

  predicate Present(pte: bv32) { pte & 0x001 != 0 }

  predicate PagedOut(pte: bv32) { pte & 0x200 != 0 }

  /** PTE_ADDR. */
  function Addr(pte: bv32): Frame { Frame(pte & 0xFFFF_F000) }

  predicate Aligned(f: Frame) { f.pa & 0xFFF == 0 }

  /** The entry that mappages writes for a user page. */
  function Mapped(f: Frame): bv32 { f.pa | (0x002 | 0x004) | 0x001 }

  /** update_pageOUT_pte_flags. */
  function MarkOut(pte: bv32): bv32 {
    var q := (pte | 0x200) & 0xFFFF_FFFE;
    q & (q & 0xFFF)
  }

  /** update_pageIN_pte_flags. */
  function MarkIn(pte: bv32, f: Frame): bv32 {
    ((pte | (0x001 | 0x002 | 0x004)) & 0xFFFF_FDFF) | f.pa
  }

  /** The entry of a resident page backed by frame f, and of a page in the swap file. */
  predicate MapsTo(pte: bv32, f: Frame) {
    Present(pte) && !PagedOut(pte) && Addr(pte) == f
  }

  predicate Swapped(pte: bv32) {
    !Present(pte) && PagedOut(pte) && Addr(pte) == Frame(0)
  }

  lemma MappedEntry(f: Frame)
    requires Aligned(f)
    ensures MapsTo(Mapped(f), f)
  { }

  lemma OutEntry(pte: bv32)
    ensures Swapped(MarkOut(pte))
  { }

  /** Or-ing the new frame in works because the address bits were cleared on the way out. */
  lemma InEntry(pte: bv32, f: Frame)
    requires Aligned(f) && Swapped(pte)
    ensures MapsTo(MarkIn(pte, f), f)
  { }
}
