/**
 Address translation of kern/arch/mips/mips/dumbvm.c: address spaces of two
 regions and a stack, frames from ram.c, and the 64-entry TLB.
 */
module VmState {
  import opened Basics
  import opened Ram

  const NUM_TLB := 64
  const STACKPAGES := 12
  const USERSTACK := 0x8000_0000
  const STACKBASE := USERSTACK - STACKPAGES * PAGE_SIZE

  /** struct addrspace. */
  datatype Space = Space(vbase1: nat, pbase1: nat, npages1: nat, vbase2: nat, pbase2: nat, npages2: nat, stackpbase: nat)

  /** A TLB entry; `dirty` is the permission to write. */
  datatype Entry = Entry(vpage: nat, ppage: nat, dirty: bool, valid: bool)

  /** `runs` is the address space of the running thread, or -1 when it has none. */
  datatype Vm = Vm(spaces: seq<Space>, runs: int, tlb: seq<Entry>, mem: map<nat, nat>, first: nat, last: nat)

  // ---- regions ----

  function VBase(a: Space, r: nat): (n: nat)
  {
    if r == 0 then a.vbase1 else if r == 1 then a.vbase2 else STACKBASE
  }

  function NPages(a: Space, r: nat): (n: nat)
  {
    if r == 0 then a.npages1 else if r == 1 then a.npages2 else STACKPAGES
  }

  function PBase(a: Space, r: nat): (n: nat)
  {
    if r == 0 then a.pbase1 else if r == 1 then a.pbase2 else a.stackpbase
  }

  predicate InRegion(a: Space, r: nat, va: nat)
  {
    VBase(a, r) <= va < VBase(a, r) + NPages(a, r) * PAGE_SIZE
  }

  /** Which physical address a virtual one stands for, as vm_fault decides it. */
  function Translate(a: Space, va: nat): (pa: Option<nat>)
  {
    if InRegion(a, 0, va) then Some(va - a.vbase1 + a.pbase1)
    else if InRegion(a, 1, va) then Some(va - a.vbase2 + a.pbase2)
    else if InRegion(a, 2, va) then Some(va - STACKBASE + a.stackpbase)
    else None
  }

  function PageOf(va: nat): (p: nat)
    ensures p <= va < p + PAGE_SIZE && p % PAGE_SIZE == 0 && va - p == va % PAGE_SIZE
  {
    va / PAGE_SIZE * PAGE_SIZE
  }

  /** A region as vm_fault expects it: aligned, not empty, in user space. */
  predicate RegionOk(a: Space, r: nat)
  {
    && VBase(a, r) % PAGE_SIZE == 0 && VBase(a, r) != 0 && NPages(a, r) != 0
    && VBase(a, r) + NPages(a, r) * PAGE_SIZE <= USERSTACK
  }

  /** A region's frames: aligned and already handed out. */
  predicate FramesOk(a: Space, r: nat, first: nat)
  {
    PBase(a, r) % PAGE_SIZE == 0 && PBase(a, r) != 0 && PBase(a, r) + NPages(a, r) * PAGE_SIZE <= first
  }

  ghost predicate VirtuallyApart(a: Space)
  {
    forall r: nat, q: nat | r < q < 3 :: RegionsApart(a, r, q)
  }

  predicate RegionsApart(a: Space, r: nat, q: nat)
  {
    Apart(VBase(a, r), NPages(a, r) * PAGE_SIZE, VBase(a, q), NPages(a, q) * PAGE_SIZE)
  }

  ghost predicate LaidOut(a: Space)
  {
    (forall r: nat | r < 3 :: RegionOk(a, r)) && VirtuallyApart(a)
  }

  ghost predicate SpaceOk(a: Space, first: nat)
  {
    LaidOut(a) && forall r: nat | r < 3 :: FramesOk(a, r, first)
  }

  /** The frames of two regions, of the same space or of two. */
  predicate FramesApart(a: Space, r: nat, b: Space, q: nat)
  {
    Apart(PBase(a, r), NPages(a, r) * PAGE_SIZE, PBase(b, q), NPages(b, q) * PAGE_SIZE)
  }

  ghost predicate AllApart(s: seq<Space>)
  {
    forall i: nat, r: nat, j: nat, q: nat | i < |s| && j < |s| && r < 3 && q < 3 && (i != j || r != q) ::
      FramesApart(s[i], r, s[j], q)
  }

  // ---- the TLB ----

  /** Every valid entry is a page of the space, translated as the space says. */
  ghost predicate Agrees(tlb: seq<Entry>, a: Space)
  {
    forall i: nat | i < |tlb| && tlb[i].valid ::
      && tlb[i].vpage % PAGE_SIZE == 0 && tlb[i].vpage < USERSTACK && tlb[i].dirty
      && Translate(a, tlb[i].vpage) == Some(tlb[i].ppage)
  }

  /** An entry that is not valid stands for an address that is never looked up. */
  ghost predicate Parked(tlb: seq<Entry>)
  {
    forall i: nat | i < |tlb| && !tlb[i].valid :: tlb[i].vpage == InvalidPage(i)
  }

  function InvalidPage(i: nat): (n: nat)
  {
    (0x80000 + i) * PAGE_SIZE
  }

  /** No virtual page appears twice, not even in entries that are not valid. */
  ghost predicate NoTwice(tlb: seq<Entry>)
  {
    forall i: nat, j: nat | i < j < |tlb| :: tlb[i].vpage != tlb[j].vpage
  }

  ghost predicate TlbOk(tlb: seq<Entry>, a: Space)
  {
    Agrees(tlb, a) && Parked(tlb) && NoTwice(tlb)
  }

  /** What the hardware finds. */
  ghost predicate Hit(tlb: seq<Entry>, page: nat, i: nat)
  {
    i < |tlb| && tlb[i].valid && tlb[i].vpage == page
  }

  ghost predicate Inv(v: Vm)
  {
    && RamOk(v.first, v.last) && |v.tlb| == NUM_TLB && -1 <= v.runs < |v.spaces|
    && (forall i: nat | i < |v.spaces| :: SpaceOk(v.spaces[i], v.first))
    && AllApart(v.spaces)
    && (v.runs >= 0 ==> TlbOk(v.tlb, v.spaces[v.runs]))
  }

  /** The pages the TLB has. */
  ghost function TlbPages(tlb: seq<Entry>): (r: set<nat>)
  {
    set i: nat | i < |tlb| && tlb[i].valid :: tlb[i].vpage
  }

  lemma TlbPagesInsert(tlb: seq<Entry>, i: nat, e: Entry)
    requires i < |tlb| && !tlb[i].valid && e.valid
    ensures TlbPages(tlb[i := e]) == TlbPages(tlb) + {e.vpage}
  {
    var t := tlb[i := e];
    forall p | p in TlbPages(tlb)
      ensures p in TlbPages(t)
    {
      var j: nat :| j < |tlb| && tlb[j].valid && tlb[j].vpage == p;
      assert t[j] == tlb[j];
    }
    assert t[i] == e;
  }

  lemma HitPage(tlb: seq<Entry>, page: nat, i: nat)
    requires Hit(tlb, page, i)
    ensures page in TlbPages(tlb)
  {
  }

  /** With all its entries in use it has as many pages as entries, and otherwise fewer. */
  lemma {:induction false} TlbPagesCount(tlb: seq<Entry>)
    requires NoTwice(tlb)
    ensures |TlbPages(tlb)| <= |tlb|
    ensures |TlbPages(tlb)| == |tlb| <==> forall i: nat | i < |tlb| :: tlb[i].valid
  {
    if tlb != [] {
      var n := |tlb| - 1;
      var rest, e := tlb[..n], tlb[n];
      TlbPagesCount(rest);
      LastPage(tlb);
      assert e.valid ==> e.vpage !in TlbPages(rest);
    }
  }

  lemma LastPage(tlb: seq<Entry>)
    requires tlb != []
    ensures var n := |tlb| - 1; TlbPages(tlb) == TlbPages(tlb[..n]) + if tlb[n].valid then {tlb[n].vpage} else {}
  {
    var n := |tlb| - 1;
    forall p | p in TlbPages(tlb[..n])
      ensures p in TlbPages(tlb)
    {
      var j: nat :| j < n && tlb[..n][j].valid && tlb[..n][j].vpage == p;
      assert tlb[j] == tlb[..n][j];
    }
    forall p | p in TlbPages(tlb)
      ensures p in TlbPages(tlb[..n]) || (tlb[n].valid && p == tlb[n].vpage)
    {
      var j: nat :| j < |tlb| && tlb[j].valid && tlb[j].vpage == p;
      if j < n {
        assert tlb[..n][j] == tlb[j];
      }
    }
  }

  // ---- what a user program sees ----

  /** The word at an address of a space, if it has one. */
  function Seen(v: Vm, i: nat, va: nat): (w: Option<nat>)
    requires i < |v.spaces|
  {
    var pa := Translate(v.spaces[i], va);
    if pa.Some? then Some(Load(v.mem, pa.value)) else None
  }

  /** The TLB has no room for the page of an address, nor the page itself. */
  ghost predicate TlbFullOfOthers(v: Vm, va: nat)
  {
    (forall i: nat | i < |v.tlb| :: v.tlb[i].valid) && forall i: nat :: !Hit(v.tlb, PageOf(va), i)
  }

  /** An access of the running program fails: its space has no such address, or the TLB is full of others. */
  ghost predicate Faults(v: Vm, va: nat)
    requires 0 <= v.runs < |v.spaces|
  {
    Translate(v.spaces[v.runs], va).None? || TlbFullOfOthers(v, va)
  }

  // ---- programs ----

  /** The two regions a program asks for, each by address and size in bytes. */
  datatype Program = Program(v1: nat, s1: nat, v2: nat, s2: nat)

  /** The pages that bytes `v` to `v + s - 1` touch. */
  predicate Touched(v: nat, s: nat, va: nat)
  {
    s > 0 && PageOf(v) <= va < PageOf(v + s - 1) + PAGE_SIZE
  }

  /** The addresses a program may use: the pages its regions touch, and twelve pages of stack. */
  predicate HasAddress(p: Program, va: nat)
  {
    Touched(p.v1, p.s1, va) || Touched(p.v2, p.s2, va) || 0x7fff_4000 <= va < 0x8000_0000
  }

  /** Regions a loader can place: not empty, not in page 0, below the stack, on different pages. */
  predicate Placeable(p: Program)
  {
    && p.s1 > 0 && p.s2 > 0 && p.v1 >= PAGE_SIZE && p.v2 >= PAGE_SIZE
    && p.v1 + p.s1 <= STACKBASE && p.v2 + p.s2 <= STACKBASE
    && (PageOf(p.v1 + p.s1 - 1) < PageOf(p.v2) || PageOf(p.v2 + p.s2 - 1) < PageOf(p.v1))
  }

  /** A space has the regions of a program. */
  predicate Shows(a: Space, p: Program)
  {
    && p.s1 > 0 && a.vbase1 == PageOf(p.v1) && a.vbase1 + a.npages1 * PAGE_SIZE == PageOf(p.v1 + p.s1 - 1) + PAGE_SIZE
    && p.s2 > 0 && a.vbase2 == PageOf(p.v2) && a.vbase2 + a.npages2 * PAGE_SIZE == PageOf(p.v2 + p.s2 - 1) + PAGE_SIZE
  }

  /** Then it translates exactly the addresses the program may use. */
  lemma AddressesAre(a: Space, p: Program, va: nat)
    requires Shows(a, p)
    ensures Translate(a, va).Some? <==> HasAddress(p, va)
  {
  }

  // ---- lemmas ----

  lemma PagesAligned(n: nat)
    ensures (n * PAGE_SIZE) % PAGE_SIZE == 0
  {
  }

  /** An aligned region holds a page entirely or not at all. */
  lemma PageInRegion(a: Space, r: nat, va: nat)
    requires RegionOk(a, r)
    ensures InRegion(a, r, va) <==> InRegion(a, r, PageOf(va))
  {
  }

  /** Translating an address is translating its page and keeping the offset. */
  lemma TranslatePage(a: Space, va: nat)
    requires LaidOut(a)
    ensures Translate(a, va).Some? <==> Translate(a, PageOf(va)).Some?
    ensures Translate(a, va).Some? ==> Translate(a, va).value == Translate(a, PageOf(va)).value + va % PAGE_SIZE
  {
    hide PageOf, InRegion;
    assert RegionOk(a, 0) && RegionOk(a, 1) && RegionOk(a, 2);
    PageInRegion(a, 0, va);
    PageInRegion(a, 1, va);
    PageInRegion(a, 2, va);
    InRegionBound(a, va);
    InRegionBound(a, PageOf(va));
  }

  lemma InRegionBound(a: Space, va: nat)
    ensures InRegion(a, 0, va) ==> a.vbase1 <= va
    ensures InRegion(a, 1, va) ==> a.vbase2 <= va
    ensures InRegion(a, 2, va) ==> STACKBASE <= va
  {
  }

  /** The region of an address, and where in its frames it lies. */
  function RegionOf(a: Space, va: nat): (r: nat)
  {
    if InRegion(a, 0, va) then 0 else if InRegion(a, 1, va) then 1 else 2
  }

  lemma TranslateIn(a: Space, va: nat)
    requires Translate(a, va).Some?
    ensures var r := RegionOf(a, va);
            r < 3 && InRegion(a, r, va) && Translate(a, va).value == va - VBase(a, r) + PBase(a, r)
  {
  }

  /** No space has addresses past the user stack. */
  lemma TranslateUser(a: Space, va: nat)
    requires LaidOut(a) && Translate(a, va).Some?
    ensures va < USERSTACK
  {
    hide Translate, RegionOf;
    TranslateIn(a, va);
    assert RegionOk(a, RegionOf(a, va));
  }

  /** Different addresses of one space, and any addresses of two spaces, are different words of memory. */
  lemma TranslateInjective(s: seq<Space>, i: nat, va: nat, j: nat, vb: nat)
    requires AllApart(s) && i < |s| && j < |s| && (i != j || va != vb)
    requires Translate(s[i], va).Some? && Translate(s[j], vb).Some?
    ensures Translate(s[i], va) != Translate(s[j], vb)
  {
    hide Translate, RegionOf;
    TranslateIn(s[i], va);
    TranslateIn(s[j], vb);
    var r, q := RegionOf(s[i], va), RegionOf(s[j], vb);
    if i != j || r != q {
      assert FramesApart(s[i], r, s[j], q);
    }
  }

  /** Frames never reach past what has been handed out. */
  lemma TranslateBelow(a: Space, va: nat, first: nat)
    requires SpaceOk(a, first) && Translate(a, va).Some?
    ensures 0 < Translate(a, va).value < first
  {
    hide Translate, RegionOf;
    TranslateIn(a, va);
    assert FramesOk(a, RegionOf(a, va), first);
  }
}
