/**
 The physical page source of kern/arch/mips/mips/ram.c. Nothing is ever given
 back; the arithmetic is that of 32-bit unsigned words.
 */
module Ram {
  import opened Basics

  const PAGE_SIZE := 4096
  const KSEG0 := 0x8000_0000
  const MAX_RAM := 508 * 1024 * 1024

  predicate RamOk(first: nat, last: nat)
  {
    0 < first <= last <= MAX_RAM && first % PAGE_SIZE == 0
  }

  function Wrap(n: nat): (w: nat)
    ensures n < WORD ==> w == n
  {
    n % WORD
  }

  /** ram_stealmem: the frame's address (0 on failure) and the next free address. */
  function Steal(first: nat, last: nat, npages: nat): (r: (nat, nat))
  {
    var size := Wrap(npages * PAGE_SIZE);
    if Wrap(first + size) > last then (0, first) else (first, Wrap(first + size))
  }

  /** The request is served by fresh frames inside memory, or refused because there is no room. */
  predicate StealsRight(first: nat, last: nat, npages: nat)
  {
    Steal(first, last, npages) ==
      if first + npages * PAGE_SIZE <= last then (first, first + npages * PAGE_SIZE) else (0, first)
  }

  /** The page source is right exactly for requests whose end address fits a word. */
  lemma StealExact(first: nat, last: nat, npages: nat)
    requires RamOk(first, last) && npages * PAGE_SIZE < WORD
    ensures StealsRight(first, last, npages) <==> first + npages * PAGE_SIZE < WORD
  {
  }

  /** A request large enough to wrap moves the next free address backwards. */
  lemma StealWraps()
    ensures Steal(0x20000, 0x80000, 0xfffff) == (0x20000, 0x1f000)
  {
  }
}
