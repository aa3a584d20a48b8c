/**
 vm_fault, as_activate, as_prepare_load and as_copy as code, on a machine whose
 user accesses go through the TLB. Every address space behaves as a memory of
 its own.
 */
module DumbVm {
  import opened Basics
  import opened Errno
  import opened Ram
  import opened VmState

  datatype FaultType = FaultReadOnly | FaultRead | FaultWrite | FaultOther

  // ---- regions ----

  /** Pages of a region of `sz` bytes at `vaddr`, in 32-bit arithmetic. */
  function RegionPages(vaddr: nat, sz: nat): (n: nat)
  {
    Wrap(Wrap(sz + vaddr % PAGE_SIZE) + PAGE_SIZE - 1) / PAGE_SIZE
  }

  /** The pages cover the bytes asked for exactly when the rounding does not wrap. */
  lemma RegionCovers(vaddr: nat, sz: nat)
    requires sz < WORD
    ensures vaddr + sz <= PageOf(vaddr) + RegionPages(vaddr, sz) * PAGE_SIZE <==> vaddr % PAGE_SIZE + sz + PAGE_SIZE - 1 < WORD
  {
  }

  /** The last byte of the address space asked for: the rounding wraps, and no page is counted. */
  lemma RegionWraps()
    ensures RegionPages(0x1000, 0xffff_ffff) == 0
    ensures !(0x1000 + 0xffff_ffff <= PageOf(0x1000) + RegionPages(0x1000, 0xffff_ffff) * PAGE_SIZE)
  {
  }

  /** as_define_region: the first region not set, or none. */
  function DefineRegion(a: Space, vaddr: nat, sz: nat): (r: (Errno, Space))
    ensures r.0 == EUNIMP ==> r.1 == a
  {
    if a.vbase1 == 0 then (Success, a.(vbase1 := PageOf(vaddr), npages1 := RegionPages(vaddr, sz)))
    else if a.vbase2 == 0 then (Success, a.(vbase2 := PageOf(vaddr), npages2 := RegionPages(vaddr, sz)))
    else (EUNIMP, a)
  }

  const NEW_SPACE := Space(0, 0, 0, 0, 0, 0, 0)

  /**
   Two regions defined on a new space are both recorded exactly when the first
   does not begin in page 0, which stands for "not set"; a third is refused
   when the second does not either.
   */
  lemma BothRegionsRecorded(v1: nat, s1: nat, v2: nat, s2: nat)
    requires RegionPages(v2, s2) > 0
    ensures var a := DefineRegion(DefineRegion(NEW_SPACE, v1, s1).1, v2, s2).1;
            && (PageOf(v1) != 0 <==>
                  && a.vbase1 == PageOf(v1) && a.npages1 == RegionPages(v1, s1)
                  && a.vbase2 == PageOf(v2) && a.npages2 == RegionPages(v2, s2))
            && (PageOf(v1) != 0 && PageOf(v2) != 0 ==> forall v, s :: DefineRegion(a, v, s) == (EUNIMP, a))
  {
  }

  /** A first region in page 0 is overwritten by the second. */
  lemma FirstRegionForgotten()
    ensures DefineRegion(DefineRegion(NEW_SPACE, 0x100, 0x2000).1, 0x40_0000, 0x1000).1
         == NEW_SPACE.(vbase1 := 0x40_0000, npages1 := 1)
  {
  }

  /** The pages of a region within user space are those its bytes touch. */
  lemma RegionTouches(v: nat, s: nat)
    requires s > 0 && v + s <= USERSTACK
    ensures PageOf(v) + RegionPages(v, s) * PAGE_SIZE == PageOf(v + s - 1) + PAGE_SIZE
  {
    assert v % PAGE_SIZE + s + PAGE_SIZE - 1 < WORD;
  }

  /** The space of a program, before it has frames. */
  function Defined(p: Program): (a: Space)
  {
    DefineRegion(DefineRegion(NEW_SPACE, p.v1, p.s1).1, p.v2, p.s2).1
  }

  lemma DefinedShows(p: Program)
    requires Placeable(p)
    ensures DefineRegion(NEW_SPACE, p.v1, p.s1).0 == Success
    ensures DefineRegion(DefineRegion(NEW_SPACE, p.v1, p.s1).1, p.v2, p.s2).0 == Success
    ensures Shows(Defined(p), p) && LaidOut(Defined(p))
  {
    hide RegionPages, Apart;
    RegionTouches(p.v1, p.s1);
    RegionTouches(p.v2, p.s2);
    var a := Defined(p);
    assert PageOf(p.v1) != 0 && PageOf(p.v2) != 0;
    assert a == NEW_SPACE.(vbase1 := PageOf(p.v1), npages1 := RegionPages(p.v1, p.s1), vbase2 := PageOf(p.v2), npages2 := RegionPages(p.v2, p.s2));
    ShowsLaidOut(a, p);
  }

  lemma ShowsLaidOut(a: Space, p: Program)
    requires Placeable(p) && Shows(a, p)
    ensures LaidOut(a)
  {
    assert RegionOk(a, 0) && RegionOk(a, 1) && RegionOk(a, 2);
    assert RegionsApart(a, 0, 1) && RegionsApart(a, 0, 2) && RegionsApart(a, 1, 2);
  }

  /** The pages a region touches. */
  function PagesTouched(v: nat, s: nat): (n: int)
  {
    if s == 0 then 0 else (PageOf(v + s - 1) - PageOf(v)) / PAGE_SIZE + 1
  }

  lemma PagesShown(a: Space, p: Program)
    requires Shows(a, p)
    ensures PagesTouched(p.v1, p.s1) == a.npages1 && PagesTouched(p.v2, p.s2) == a.npages2
  {
  }

  /** Whether frames for two regions and a stack are there. */
  predicate FramesThere(first: nat, last: nat, n1: int, n2: int)
  {
    first + (n1 + n2 + STACKPAGES) * PAGE_SIZE <= last
  }

  /** The next free frame afterwards; what was found before the request failed stays taken. */
  function FramesTaken(first: nat, last: nat, n1: int, n2: int): (next: int)
  {
    if first + n1 * PAGE_SIZE > last then first
    else if first + (n1 + n2) * PAGE_SIZE > last then first + n1 * PAGE_SIZE
    else if !FramesThere(first, last, n1, n2) then first + (n1 + n2) * PAGE_SIZE
    else first + (n1 + n2 + STACKPAGES) * PAGE_SIZE
  }

  predicate SameRegions(a: Space, b: Space)
  {
    b.vbase1 == a.vbase1 && b.npages1 == a.npages1 && b.vbase2 == a.vbase2 && b.npages2 == a.npages2
  }

  // ---- the TLB ----

  lemma InsertOk(tlb: seq<Entry>, a: Space, i: nat, page: nat)
    requires TlbOk(tlb, a) && i < |tlb| <= NUM_TLB && !tlb[i].valid
    requires page % PAGE_SIZE == 0 && page < USERSTACK && Translate(a, page).Some?
    requires forall j: nat :: !Hit(tlb, page, j)
    ensures TlbOk(tlb[i := Entry(page, Translate(a, page).value, true, true)], a)
  {
    hide Translate;
    var t := tlb[i := Entry(page, Translate(a, page).value, true, true)];
    forall j: nat | j < |tlb| && j != i
      ensures tlb[j].vpage != page
    {
      assert !Hit(tlb, page, j);
    }
  }

  lemma RunsSomewhere(v: Vm)
    requires Inv(v)
    ensures -1 <= v.runs < |v.spaces| && |v.tlb| == NUM_TLB
  {
  }

  lemma HitFacts(v: Vm, i: int, page: nat)
    requires Inv(v) && 0 <= i < |v.tlb| && Hit(v.tlb, page, i) && v.runs >= 0
    ensures v.runs < |v.spaces| && v.tlb[i].dirty && Translate(v.spaces[v.runs], page) == Some(v.tlb[i].ppage)
  {
  }

  lemma FlushedOk(tlb: seq<Entry>, a: Space)
    requires forall i: nat | i < |tlb| :: tlb[i] == Entry(InvalidPage(i), 0, false, false)
    ensures TlbOk(tlb, a)
  {
  }

  // ---- frames ----

  /** Spaces stay in order when more frames are handed out. */
  lemma MoreFrames(a: Space, first: nat, first': nat)
    requires SpaceOk(a, first) && first <= first'
    ensures SpaceOk(a, first')
  {
    forall r: nat | r < 3
      ensures FramesOk(a, r, first')
    {
      assert FramesOk(a, r, first);
    }
  }

  /** The frames of `a` lie between two marks and apart from each other. */
  ghost predicate FreshFrames(a: Space, first: nat, first': nat)
  {
    && first <= first'
    && (forall r: nat | r < 3 :: FramesOk(a, r, first') && first <= PBase(a, r))
    && (forall r: nat, q: nat | r < 3 && q < 3 && r != q :: FramesApart(a, r, a, q))
  }

  lemma AddSpace(s: seq<Space>, a: Space, first: nat, first': nat)
    requires AllApart(s) && (forall i: nat | i < |s| :: SpaceOk(s[i], first)) && FreshFrames(a, first, first')
    ensures AllApart(s + [a])
  {
    var t := s + [a];
    forall i: nat, r: nat, j: nat, q: nat | i < |t| && j < |t| && r < 3 && q < 3 && (i != j || r != q)
      ensures FramesApart(t[i], r, t[j], q)
    {
      if i < |s| && j < |s| {
        assert FramesApart(s[i], r, s[j], q);
      } else if i < |s| {
        assert SpaceOk(s[i], first) && FramesOk(s[i], r, first);
      } else if j < |s| {
        assert SpaceOk(s[j], first) && FramesOk(s[j], q, first);
      }
    }
  }

  /** Where the word at `x` comes from when `len` words move from `src` to `dst`. */
  function Source(dst: nat, src: nat, len: nat, x: nat): (y: nat)
  {
    if dst <= x < dst + len then x - dst + src else x
  }

  /** What memmove between separate ranges does. */
  ghost predicate Moved(m: map<nat, nat>, m': map<nat, nat>, dst: nat, src: nat, len: nat)
  {
    forall x: nat :: Load(m', x) == Load(m, Source(dst, src, len, x))
  }

  class Machine {
    var spaces: seq<Space>
    var runs: int
    var tlb: array<Entry>
    var mem: map<nat, nat>
    var first: nat
    var last: nat

    ghost function View(): (v: Vm)
      reads this, tlb
    {
      Vm(spaces, runs, tlb[..], mem, first, last)
    }

    ghost predicate Valid()
      reads this, tlb
    {
      Inv(View())
    }

    constructor (first: nat, last: nat, mem: map<nat, nat>)
      requires RamOk(first, last)
      ensures Valid() && fresh(tlb) && spaces == [] && runs == -1 && this.first == first && this.last == last && this.mem == mem
      ensures forall i: nat | i < tlb.Length :: !tlb[i].valid
    {
      spaces, runs := [], -1;
      tlb := new Entry[NUM_TLB](_ => Entry(0, 0, false, false));
      this.mem, this.first, this.last := mem, first, last;
    }

    /** TLB lookup, as the hardware does it: some valid entry for the page. */
    method Probe(page: nat) returns (i: int)
      requires tlb.Length == NUM_TLB
      ensures -1 <= i < NUM_TLB
      ensures i >= 0 ==> Hit(tlb[..], page, i)
      ensures i < 0 ==> forall j: nat :: !Hit(tlb[..], page, j)
    {
      i := 0;
      while i < NUM_TLB
        invariant 0 <= i <= NUM_TLB && forall j: nat | j < i :: !Hit(tlb[..], page, j)
      {
        if tlb[i].valid && tlb[i].vpage == page {
          return;
        }
        i := i + 1;
      }
      i := -1;
    }

    ghost predicate TlbFull()
      reads tlb, this
    {
      forall i: nat | i < tlb.Length :: tlb[i].valid
    }

    /** A fault at `va`, which no entry translates. */
    method VmFault(fault: FaultType, va: nat) returns (err: Errno)
      requires Valid() && fault != FaultReadOnly
      requires forall j: nat :: !Hit(tlb[..], PageOf(va), j)
      modifies tlb
      ensures Valid() && View() == old(View()).(tlb := tlb[..])
      ensures fault == FaultOther ==> err == EINVAL
      ensures fault != FaultOther ==>
                (err == Success <==> runs >= 0 && Translate(spaces[runs], va).Some? && !old(TlbFull())) && (err != Success ==> err == EFAULT)
      ensures err != Success ==> tlb[..] == old(tlb[..])
      ensures err == Success ==> exists i: nat :: Hit(tlb[..], PageOf(va), i) && !old(tlb[..])[i].valid && tlb[..] == old(tlb[..])[i := tlb[i]]
    {
      hide Translate, SpaceOk, AllApart, PageOf, TlbOk;
      var page := PageOf(va);
      if fault == FaultOther {
        return EINVAL;
      }
      if runs == -1 {
        return EFAULT;
      }
      var a := spaces[runs];
      SpaceLaidOut(View(), runs);
      TranslatePage(a, va);
      var pa := Translate(a, page);
      if pa.None? {
        return EFAULT;
      }
      TranslateUser(a, page);
      var i := 0;
      while i < NUM_TLB
        invariant 0 <= i <= NUM_TLB && tlb[..] == old(tlb[..])
        invariant forall j: nat | j < i :: tlb[j].valid
      {
        if !tlb[i].valid {
          InsertOk(tlb[..], a, i, page);
          tlb[i] := Entry(page, pa.value, true, true);
          assert tlb[..] == old(tlb[..])[i := Entry(page, pa.value, true, true)];
          assert Hit(tlb[..], page, i);
          return Success;
        }
        i := i + 1;
      }
      return EFAULT;
    }

    /** as_activate: the whole TLB is invalidated. */
    method AsActivate()
      requires tlb.Length == NUM_TLB
      modifies tlb
      ensures forall i: nat | i < NUM_TLB :: tlb[i] == Entry(InvalidPage(i), 0, false, false)
    {
      var i := 0;
      while i < NUM_TLB
        invariant i <= NUM_TLB && forall j: nat | j < i :: tlb[j] == Entry(InvalidPage(j), 0, false, false)
      {
        tlb[i] := Entry(InvalidPage(i), 0, false, false);
        i := i + 1;
      }
    }

    /** The address-space half of a context switch to a thread with space `x`, or with none. */
    method Switch(x: int)
      requires Valid() && -1 <= x < |spaces|
      modifies this`runs, tlb
      ensures Valid() && View() == old(View()).(runs := x, tlb := tlb[..])
      ensures TlbPages(tlb[..]) == if x >= 0 then {} else old(TlbPages(tlb[..]))
    {
      hide Translate, SpaceOk, AllApart;
      runs := x;
      if x >= 0 {
        AsActivate();
        FlushedOk(tlb[..], spaces[x]);
      }
    }

    /** The physical address of a user access, through the TLB and, on a miss, vm_fault. */
    method Access(va: nat, write: bool) returns (pa: Option<nat>)
      requires Valid() && runs >= 0
      modifies tlb
      ensures Valid() && View() == old(View()).(tlb := tlb[..])
      ensures pa == if Faults(old(View()), va) then None else Translate(spaces[runs], va)
      ensures TlbPages(tlb[..]) == old(TlbPages(tlb[..])) + if Faults(old(View()), va) then {} else {PageOf(va)}
    {
      hide Inv, PageOf, Translate, TlbPages;
      var page := PageOf(va);
      RunsSomewhere(View());
      SpaceLaidOut(View(), runs);
      TranslatePage(spaces[runs], va);
      var i := Probe(page);
      if i < 0 {
        var err := VmFault(if write then FaultWrite else FaultRead, va);
        if err != Success {
          return None;
        }
        ghost var j: nat :| Hit(tlb[..], page, j) && !old(tlb[..])[j].valid && tlb[..] == old(tlb[..])[j := tlb[j]];
        TlbPagesInsert(old(tlb[..]), j, tlb[j]);
        i := Probe(page);
      } else {
        HitPage(tlb[..], page, i);
      }
      HitFacts(View(), i, page);
      assert tlb[i].dirty;
      pa := Some(tlb[i].ppage + va % PAGE_SIZE);
    }

    method UserLoad(va: nat) returns (w: Option<nat>)
      requires Valid() && runs >= 0
      modifies tlb
      ensures Valid() && View() == old(View()).(tlb := tlb[..])
      ensures w == if Faults(old(View()), va) then None else Seen(old(View()), runs, va)
      ensures TlbPages(tlb[..]) == old(TlbPages(tlb[..])) + if Faults(old(View()), va) then {} else {PageOf(va)}
    {
      hide Translate, Inv;
      var pa := Access(va, false);
      w := if pa.Some? then Some(Load(mem, pa.value)) else None;
    }

    /** A store changes the one word of the one space. */
    method UserStore(va: nat, w: nat) returns (ok: bool)
      requires Valid() && runs >= 0
      modifies this`mem, tlb
      ensures Valid() && View() == old(View()).(tlb := tlb[..], mem := mem)
      ensures ok <==> !Faults(old(View()), va)
      ensures TlbPages(tlb[..]) == old(TlbPages(tlb[..])) + if Faults(old(View()), va) then {} else {PageOf(va)}
      ensures !ok ==> mem == old(mem)
      ensures ok ==> forall i: nat, vb: nat | i < |spaces| ::
                Seen(View(), i, vb) == if i == runs && vb == va then Some(w) else Seen(old(View()), i, vb)
    {
      hide Translate, SpaceOk, TlbOk;
      var pa := Access(va, true);
      if pa.None? {
        return false;
      }
      mem := mem[pa.value := w];
      forall i: nat, vb: nat | i < |spaces|
        ensures Seen(View(), i, vb) == if i == runs && vb == va then Some(w) else Seen(old(View()), i, vb)
      {
        if (i != runs || vb != va) && Translate(spaces[i], vb).Some? {
          TranslateInjective(spaces, i, vb, runs, va);
        }
      }
      return true;
    }

    // ---- new spaces ----

    /** getppages, for a request that fits user space. */
    method GetPpages(n: nat) returns (pa: nat)
      requires RamOk(first, last) && 0 < n && n * PAGE_SIZE <= USERSTACK
      modifies this`first
      ensures RamOk(first, last)
      ensures if old(first) + n * PAGE_SIZE <= last then pa == old(first) && first == old(first) + n * PAGE_SIZE
              else pa == 0 && first == old(first)
    {
      StealExact(first, last, n);
      PagesAligned(n);
      var r := Steal(first, last, n);
      pa, first := r.0, r.1;
    }

    /** as_prepare_load: frames for the three regions. */
    method AsPrepareLoad(a: Space) returns (ok: bool, b: Space)
      requires RamOk(first, last) && LaidOut(a)
      modifies this`first
      ensures RamOk(first, last) && old(first) <= first
      ensures b == a.(pbase1 := b.pbase1, pbase2 := b.pbase2, stackpbase := b.stackpbase)
      ensures ok ==> FreshFrames(b, old(first), first) && SpaceOk(b, first)
      ensures ok <==> FramesThere(old(first), last, a.npages1, a.npages2)
      ensures first == FramesTaken(old(first), last, a.npages1, a.npages2)
    {
      assert RegionOk(a, 0) && RegionOk(a, 1);
      b := a;
      var pa := GetPpages(a.npages1);
      b := b.(pbase1 := pa);
      if pa == 0 {
        return false, b;
      }
      pa := GetPpages(a.npages2);
      b := b.(pbase2 := pa);
      if pa == 0 {
        return false, b;
      }
      pa := GetPpages(STACKPAGES);
      b := b.(stackpbase := pa);
      if pa == 0 {
        return false, b;
      }
      ok := true;
      LaidOutSame(a, b);
    }

    /** memmove between kernel addresses of frames. */
    method Memmove(dst: nat, src: nat, len: nat)
      requires Apart(dst, len, src, len)
      modifies this`mem
      ensures Moved(old(mem), mem, dst, src, len)
    {
      var o := 0;
      while o < len
        invariant o <= len
        invariant Moved(old(mem), mem, dst, src, o)
      {
        assert Source(dst, src, o, src + o) == src + o;
        ghost var m := mem;
        assert Load(mem, src + o) == Load(old(mem), src + o);
        mem := mem[dst + o := Load(mem, src + o)];
        forall x: nat
          ensures Load(mem, x) == Load(old(mem), Source(dst, src, o + 1, x))
        {
          assert Load(m, x) == Load(old(mem), Source(dst, src, o, x));
        }
        o := o + 1;
      }
    }

    /** A new program's space: as_create, two regions defined, frames found; its contents are arbitrary. */
    method Spawn(p: Program) returns (ok: bool)
      requires Valid() && Placeable(p)
      modifies this`spaces, this`first
      ensures Valid() && runs == old(runs) && tlb[..] == old(tlb[..]) && mem == old(mem) && last == old(last)
      ensures ok <==> FramesThere(old(first), last, PagesTouched(p.v1, p.s1), PagesTouched(p.v2, p.s2))
      ensures first == FramesTaken(old(first), last, PagesTouched(p.v1, p.s1), PagesTouched(p.v2, p.s2))
      ensures if ok then |spaces| == old(|spaces|) + 1 && spaces[..old(|spaces|)] == old(spaces) && Shows(spaces[old(|spaces|)], p)
              else spaces == old(spaces)
    {
      hide TlbOk, AllApart, FreshFrames, Translate, SpaceOk, DefineRegion, Placeable, LaidOut, FramesThere, FramesTaken, PagesTouched;
      ghost var v := View();
      DefinedShows(p);
      PagesShown(Defined(p), p);
      var a := DefineRegion(NEW_SPACE, p.v1, p.s1).1;
      a := DefineRegion(a, p.v2, p.s2).1;
      var b;
      ok, b := AsPrepareLoad(a);
      if !ok {
        LostFrames(v, first);
        return;
      }
      GrownInv(v, b, first, mem);
      spaces := spaces + [b];
    }

    /** The three moves of as_copy. */
    method CopyRegions(a: Space, b: Space, ghost first0: nat)
      requires b == a.(pbase1 := b.pbase1, pbase2 := b.pbase2, stackpbase := b.stackpbase)
      requires SpaceOk(a, first0) && FreshFrames(b, first0, first)
      modifies this`mem
      ensures Copied(old(mem), mem, a, b, first0)
    {
      hide SpaceOk, RegionOk, Moved, Copied;
      SpaceFrames(a, first0);
      FreshFacts(b, first0, first);
      ghost var m0 := mem;
      Memmove(b.pbase1, a.pbase1, a.npages1 * PAGE_SIZE);
      ghost var m1 := mem;
      Memmove(b.pbase2, a.pbase2, a.npages2 * PAGE_SIZE);
      ghost var m2 := mem;
      Memmove(b.stackpbase, a.stackpbase, STACKPAGES * PAGE_SIZE);
      ThreeMoves(m0, m1, m2, mem, a, b, first0);
    }

    /** as_copy: equal contents in frames of its own; no other space notices. */
    method AsCopy(i: nat) returns (err: Errno)
      requires Valid() && i < |spaces|
      modifies this`spaces, this`first, this`mem
      ensures Valid() && runs == old(runs) && tlb[..] == old(tlb[..]) && last == old(last)
      ensures err == Success <==> FramesThere(old(first), last, old(spaces)[i].npages1, old(spaces)[i].npages2)
      ensures first == FramesTaken(old(first), last, old(spaces)[i].npages1, old(spaces)[i].npages2)
      ensures err != Success ==> err == ENOMEM && spaces == old(spaces) && mem == old(mem)
      ensures err == Success ==> |spaces| == old(|spaces|) + 1 && spaces[..old(|spaces|)] == old(spaces)
      ensures err == Success ==> SameRegions(old(spaces)[i], spaces[old(|spaces|)])
      ensures err == Success ==> forall va: nat :: Seen(View(), old(|spaces|), va) == Seen(old(View()), i, va)
      ensures err == Success ==> forall j: nat, va: nat | j < old(|spaces|) :: Seen(View(), j, va) == Seen(old(View()), j, va)
    {
      hide TlbOk, AllApart, FreshFrames, Copied, Translate, SpaceOk, FramesThere, FramesTaken;
      var a := spaces[i];
      ghost var v := View();
      SpaceLaidOut(v, i);
      var c := a.(pbase1 := 0, pbase2 := 0, stackpbase := 0);
      LaidOutSame(a, c);
      var ok, b := AsPrepareLoad(c);
      if !ok {
        LostFrames(v, first);
        return ENOMEM;
      }
      CopyRegions(a, b, v.first);
      GrownInv(v, b, first, mem);
      spaces := spaces + [b];
      CopyEffect(v, i, b, first, mem);
      return Success;
    }
  }

  lemma FreshFacts(b: Space, first: nat, first': nat)
    requires FreshFrames(b, first, first')
    ensures FramesApart(b, 0, b, 1) && FramesApart(b, 0, b, 2) && FramesApart(b, 1, b, 2)
    ensures first <= b.pbase1 && first <= b.pbase2 && first <= b.stackpbase
  {
  }

  lemma ThreeMoves(m0: map<nat, nat>, m1: map<nat, nat>, m2: map<nat, nat>, m3: map<nat, nat>, a: Space, b: Space, first: nat)
    requires b == a.(pbase1 := b.pbase1, pbase2 := b.pbase2, stackpbase := b.stackpbase)
    requires Moved(m0, m1, b.pbase1, a.pbase1, a.npages1 * PAGE_SIZE)
    requires Moved(m1, m2, b.pbase2, a.pbase2, a.npages2 * PAGE_SIZE)
    requires Moved(m2, m3, b.stackpbase, a.stackpbase, STACKPAGES * PAGE_SIZE)
    requires FramesOk(a, 0, first) && FramesOk(a, 1, first) && FramesOk(a, 2, first)
    requires FramesApart(b, 0, b, 1) && FramesApart(b, 0, b, 2) && FramesApart(b, 1, b, 2)
    requires first <= b.pbase1 && first <= b.pbase2 && first <= b.stackpbase
    ensures Copied(m0, m3, a, b, first)
  {
    hide Load, Moved;
    forall x: nat
      ensures Load(m3, x) == Load(m0, Origin(a, b, x))
    {
      MovedAt(m2, m3, b.stackpbase, a.stackpbase, STACKPAGES * PAGE_SIZE, x);
      var y := Source(b.stackpbase, a.stackpbase, STACKPAGES * PAGE_SIZE, x);
      MovedAt(m1, m2, b.pbase2, a.pbase2, a.npages2 * PAGE_SIZE, y);
      var z := Source(b.pbase2, a.pbase2, a.npages2 * PAGE_SIZE, y);
      MovedAt(m0, m1, b.pbase1, a.pbase1, a.npages1 * PAGE_SIZE, z);
    }
    Origins(m0, m3, a, b, first);
  }

  /** Where a word of the copy's frames comes from, through all three moves. */
  function Origin(a: Space, b: Space, x: nat): (y: nat)
  {
    Source(b.pbase1, a.pbase1, a.npages1 * PAGE_SIZE,
           Source(b.pbase2, a.pbase2, a.npages2 * PAGE_SIZE,
                  Source(b.stackpbase, a.stackpbase, STACKPAGES * PAGE_SIZE, x)))
  }

  lemma OriginIs(a: Space, b: Space, first: nat, x: nat)
    requires b == a.(pbase1 := b.pbase1, pbase2 := b.pbase2, stackpbase := b.stackpbase)
    requires FramesOk(a, 0, first) && FramesOk(a, 1, first) && FramesOk(a, 2, first)
    requires FramesApart(b, 0, b, 1) && FramesApart(b, 0, b, 2) && FramesApart(b, 1, b, 2)
    requires first <= b.pbase1 && first <= b.pbase2 && first <= b.stackpbase
    ensures x < first ==> Origin(a, b, x) == x
    ensures forall r: nat | r < 3 :: Within(b, r, x) ==> Origin(a, b, x) == x - PBase(b, r) + PBase(a, r)
  {
  }

  predicate Within(b: Space, r: nat, x: nat)
  {
    PBase(b, r) <= x < PBase(b, r) + NPages(b, r) * PAGE_SIZE
  }

  lemma Origins(m0: map<nat, nat>, m3: map<nat, nat>, a: Space, b: Space, first: nat)
    requires b == a.(pbase1 := b.pbase1, pbase2 := b.pbase2, stackpbase := b.stackpbase)
    requires FromOrigin(m0, m3, a, b)
    requires FramesOk(a, 0, first) && FramesOk(a, 1, first) && FramesOk(a, 2, first)
    requires FramesApart(b, 0, b, 1) && FramesApart(b, 0, b, 2) && FramesApart(b, 1, b, 2)
    requires first <= b.pbase1 && first <= b.pbase2 && first <= b.stackpbase
    ensures Copied(m0, m3, a, b, first)
  {
    hide Load, Origin, FramesApart, FramesOk, FromOrigin, PBase;
    forall x: nat | x < first
      ensures Load(m3, x) == Load(m0, x)
    {
      OriginIs(a, b, first, x);
      OriginAt(m0, m3, a, b, x);
    }
    forall r: nat | r < 3
      ensures RegionCopied(m0, m3, a, b, r)
    {
      forall x: nat | Within(b, r, x)
        ensures Load(m3, x) == Load(m0, x - PBase(b, r) + PBase(a, r))
      {
        OriginIs(a, b, first, x);
        OriginAt(m0, m3, a, b, x);
      }
    }
  }

  ghost predicate FromOrigin(m0: map<nat, nat>, m3: map<nat, nat>, a: Space, b: Space)
  {
    forall x: nat :: Load(m3, x) == Load(m0, Origin(a, b, x))
  }

  lemma OriginAt(m0: map<nat, nat>, m3: map<nat, nat>, a: Space, b: Space, x: nat)
    requires FromOrigin(m0, m3, a, b)
    ensures Load(m3, x) == Load(m0, Origin(a, b, x))
  {
  }

  lemma MovedAt(m: map<nat, nat>, m': map<nat, nat>, dst: nat, src: nat, len: nat, x: nat)
    requires Moved(m, m', dst, src, len)
    ensures Load(m', x) == Load(m, Source(dst, src, len, x))
  {
  }

  lemma SpaceFrames(a: Space, first: nat)
    requires SpaceOk(a, first)
    ensures FramesOk(a, 0, first) && FramesOk(a, 1, first) && FramesOk(a, 2, first)
  {
  }

  lemma CopyEffect(v: Vm, i: nat, b: Space, first': nat, m: map<nat, nat>)
    requires Inv(v) && i < |v.spaces| && Copied(v.mem, m, v.spaces[i], b, v.first)
    requires b == v.spaces[i].(pbase1 := b.pbase1, pbase2 := b.pbase2, stackpbase := b.stackpbase)
    ensures var r := v.(spaces := v.spaces + [b], first := first', mem := m);
            && (forall va: nat :: Seen(r, |v.spaces|, va) == Seen(v, i, va))
            && (forall j: nat, va: nat | j < |v.spaces| :: Seen(r, j, va) == Seen(v, j, va))
  {
    hide Translate, TlbOk, AllApart;
    var r := v.(spaces := v.spaces + [b], first := first', mem := m);
    forall va: nat
      ensures Seen(r, |v.spaces|, va) == Seen(v, i, va)
    {
      CopySeen(v.mem, m, v.spaces[i], b, v.first, va);
    }
    forall j: nat, va: nat | j < |v.spaces|
      ensures Seen(r, j, va) == Seen(v, j, va)
    {
      SeenBelow(v, j, va, m);
    }
  }

  lemma SpaceLaidOut(v: Vm, i: nat)
    requires Inv(v) && i < |v.spaces|
    ensures LaidOut(v.spaces[i])
  {
  }

  lemma LaidOutSame(a: Space, b: Space)
    requires LaidOut(a) && b == a.(pbase1 := b.pbase1, pbase2 := b.pbase2, stackpbase := b.stackpbase)
    ensures LaidOut(b)
  {
    forall r: nat | r < 3
      ensures RegionOk(b, r)
    {
      assert RegionOk(a, r);
    }
    forall r: nat, q: nat | r < q < 3
      ensures RegionsApart(b, r, q)
    {
      assert RegionsApart(a, r, q);
    }
  }

  /** Memory below a mark is untouched when only fresh frames are written. */
  lemma SeenBelow(v: Vm, i: nat, va: nat, m: map<nat, nat>)
    requires i < |v.spaces| && SpaceOk(v.spaces[i], v.first)
    requires forall x: nat | x < v.first :: Load(m, x) == Load(v.mem, x)
    ensures Seen(v.(mem := m), i, va) == Seen(v, i, va)
  {
    hide Translate, SpaceOk;
    if Translate(v.spaces[i], va).Some? {
      TranslateBelow(v.spaces[i], va, v.first);
    }
  }

  /** The three moves of as_copy: each region of `b` holds what the same region of `a` held. */
  ghost predicate Copied(m: map<nat, nat>, m': map<nat, nat>, a: Space, b: Space, first: nat)
  {
    && (forall x: nat | x < first :: Load(m', x) == Load(m, x))
    && (forall r: nat | r < 3 :: RegionCopied(m, m', a, b, r))
  }

  ghost predicate RegionCopied(m: map<nat, nat>, m': map<nat, nat>, a: Space, b: Space, r: nat)
  {
    forall x: nat | PBase(b, r) <= x < PBase(b, r) + NPages(a, r) * PAGE_SIZE :: Load(m', x) == Load(m, x - PBase(b, r) + PBase(a, r))
  }

  /** So every address of the copy shows what the original showed. */
  lemma CopySeen(m: map<nat, nat>, m': map<nat, nat>, a: Space, b: Space, first: nat, va: nat)
    requires Copied(m, m', a, b, first) && b == a.(pbase1 := b.pbase1, pbase2 := b.pbase2, stackpbase := b.stackpbase)
    ensures Translate(b, va).Some? <==> Translate(a, va).Some?
    ensures Translate(a, va).Some? ==> Load(m', Translate(b, va).value) == Load(m, Translate(a, va).value)
  {
    assert RegionCopied(m, m', a, b, 0) && RegionCopied(m, m', a, b, 1) && RegionCopied(m, m', a, b, 2);
  }

  /** One more space, with its own fresh frames. */
  lemma GrownInv(v: Vm, b: Space, first': nat, m: map<nat, nat>)
    requires Inv(v) && RamOk(first', v.last) && FreshFrames(b, v.first, first') && SpaceOk(b, first')
    ensures Inv(v.(spaces := v.spaces + [b], first := first', mem := m))
  {
    hide TlbOk, FreshFrames, AllApart;
    var r := v.(spaces := v.spaces + [b], first := first', mem := m);
    FreshGrows(b, v.first, first');
    AddSpace(v.spaces, b, v.first, first');
    forall i: nat | i < |r.spaces|
      ensures SpaceOk(r.spaces[i], first')
    {
      if i < |v.spaces| {
        MoreFrames(v.spaces[i], v.first, first');
      }
    }
  }

  lemma FreshGrows(b: Space, first: nat, first': nat)
    requires FreshFrames(b, first, first')
    ensures first <= first'
  {
  }

  lemma LostFrames(v: Vm, first': nat)
    requires Inv(v) && RamOk(first', v.last) && v.first <= first'
    ensures Inv(v.(first := first'))
  {
    hide TlbOk, AllApart;
    forall i: nat | i < |v.spaces|
      ensures SpaceOk(v.spaces[i], first')
    {
      MoreFrames(v.spaces[i], v.first, first');
    }
  }
}
