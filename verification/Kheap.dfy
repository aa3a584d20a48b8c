/**
 kmalloc and kfree of kern/lib/kheap.c: the code itself, run over the page
 source of ram.c. Pointers to page records are indices, with NOREF for null.
 */
module Kheap {
  import opened Basics
  import opened Ram
  import opened KheapState
  import opened KheapSteps
  import opened KheapBlocks

  const WORDS := 8
  const WORD_BITS := 32
  const DEADBEEF := 0xdeadbeef

  // ---- sizes of requests ----

  /** Pages for a request of whole pages, in 32-bit arithmetic. */
  function PagesFor(sz: nat): (n: nat)
  {
    Wrap(sz + PAGE_SIZE - 1) / PAGE_SIZE
  }

  /** The rounding covers the request exactly for sizes up to the last whole page of a word. */
  lemma PagesCover(sz: nat)
    requires 0 < sz < WORD
    ensures PagesFor(sz) * PAGE_SIZE >= sz <==> sz <= WORD - PAGE_SIZE
    ensures sz <= WORD - PAGE_SIZE ==> 0 < PagesFor(sz) && PagesFor(sz) * PAGE_SIZE < sz + PAGE_SIZE
  {
  }

  /** Beyond that the rounding comes to no pages: the caller gets the next free frame, which stays free. */
  lemma WrappedRequest(first: nat, last: nat, sz: nat)
    requires RamOk(first, last) && WORD - PAGE_SIZE < sz < WORD
    ensures Steal(first, last, PagesFor(sz)) == (first, first)
  {
  }

  /** Requests for which neither the rounding nor the page source wraps around. */
  predicate Servable(sz: nat, first: nat)
  {
    sz <= WORD - PAGE_SIZE && first + PagesFor(sz) * PAGE_SIZE < WORD
  }

  /** The size class of a request below LARGEST_SUBPAGE_SIZE: the smallest that holds it. */
  method BlockTypeFor(sz: nat) returns (blk: nat)
    requires sz <= LARGEST_SUBPAGE_SIZE
    ensures blk < NSIZES && sz <= SizeOf(blk)
    ensures forall b: nat | b < blk :: SizeOf(b) < sz
  {
    blk := 0;
    while sz > SizeOf(blk)
      invariant blk < NSIZES
      invariant forall b: nat | b < blk :: SizeOf(b) < sz
      decreases NSIZES - blk
    {
      blk := blk + 1;
    }
  }

  class Kheap {
    var refs: array<PageRef>
    var inuse: array<bool>
    var bases: array<int>
    var allbase: int
    var mem: map<nat, nat>
    var first: nat
    var last: nat

    ghost var live: map<nat, Alloc>
    ghost var all: seq<nat>
    ghost var same: seq<seq<nat>>
    ghost var free: seq<seq<nat>>

    ghost function St(): (h: Heap)
      reads this, refs, inuse, bases
    {
      Heap(refs[..], inuse[..], bases[..], allbase, mem, first, live, all, same, free)
    }

    ghost predicate Separate()
      reads this
    {
      && refs as object != inuse && refs as object != bases && inuse as object != bases
      && refs.Length == inuse.Length == NPAGEREFS && bases.Length == NSIZES
    }

    ghost predicate Valid()
      reads this, refs, inuse, bases
    {
      Separate() && RamOk(first, last) && Inv(St())
    }

    /** The state at boot, before the first allocation. */
    constructor (first: nat, last: nat, mem: map<nat, nat>)
      requires RamOk(first, last)
      ensures Valid() && fresh(refs) && fresh(inuse) && fresh(bases)
      ensures Blocks(St()) == map[] && this.first == first && this.last == last
    {
      refs := new PageRef[NPAGEREFS](_ => PageRef(NOREF, NOREF, 0, 0, 0));
      inuse := new bool[NPAGEREFS](_ => false);
      bases := new int[NSIZES](_ => NOREF);
      allbase := NOREF;
      this.mem := mem;
      this.first := first;
      this.last := last;
      live, all := map[], [];
      same := seq(NSIZES, _ => []);
      free := seq(NPAGEREFS, _ => []);
      new;
      hide Blocks;
      BootOk(St());
    }

    // ---- page records ----

    /** Takes the lowest page record not in use. */
    method AllocPageRef() returns (pr: int)
      requires Separate()
      modifies inuse
      ensures NOREF <= pr < NPAGEREFS
      ensures pr == NOREF ==> inuse[..] == old(inuse[..]) && forall i: nat | i < NPAGEREFS :: inuse[i]
      ensures pr != NOREF ==> !old(inuse[pr]) && inuse[..] == old(inuse[..])[pr := true]
      ensures pr != NOREF ==> forall i: nat | i < pr :: old(inuse[i])
    {
      var i := 0;
      while i < WORDS
        invariant i <= WORDS
        invariant inuse[..] == old(inuse[..])
        invariant forall b: nat | b < i * WORD_BITS :: inuse[b]
      {
        var full := WordFull(i);
        if !full {
          var j := 0;
          while inuse[i * WORD_BITS + j]
            invariant j < WORD_BITS
            invariant forall b: nat | b < i * WORD_BITS + j :: inuse[b]
            decreases WORD_BITS - j
          {
            j := j + 1;
            if j == WORD_BITS {
              assert false;
            }
          }
          inuse[i * WORD_BITS + j] := true;
          return i * WORD_BITS + j;
        }
        i := i + 1;
      }
      pr := NOREF;
    }

    /** Whether all records of one word of in-use bits are taken. */
    method WordFull(i: nat) returns (full: bool)
      requires Separate() && i < WORDS
      ensures full <==> forall b: nat | i * WORD_BITS <= b < (i + 1) * WORD_BITS :: inuse[b]
    {
      var j := 0;
      while j < WORD_BITS
        invariant j <= WORD_BITS
        invariant forall b: nat | i * WORD_BITS <= b < i * WORD_BITS + j :: inuse[b]
      {
        if !inuse[i * WORD_BITS + j] {
          return false;
        }
        j := j + 1;
      }
      full := true;
    }

    // ---- pages from the page source ----

    /** ram_stealmem behind alloc_kpages. */
    method AllocKpages(npages: nat) returns (a: nat)
      requires RamOk(first, last) && npages > 0 && first + npages * PAGE_SIZE < WORD
      modifies this`first
      ensures if old(first) + npages * PAGE_SIZE <= last
              then a == KSEG0 + old(first) && first == old(first) + npages * PAGE_SIZE
              else a == 0 && first == old(first)
      ensures RamOk(first, last)
    {
      var size := Wrap(npages * PAGE_SIZE);
      if Wrap(first + size) > last {
        return 0;
      }
      var pa := first;
      first := Wrap(first + size);
      NextAligned(old(first), npages);
      return KSEG0 + pa;
    }

    /** Threads the free list of a fresh page through its blocks. */
    method ThreadPage(page: nat, blk: nat)
      requires blk < NSIZES
      modifies this`mem
      ensures Threaded(old(mem), mem, page, blk)
    {
      hide Off, SizeOf, PerPage;
      var n := PerPage(blk);
      PerPagePositive(blk);
      mem := mem[page := NULL];
      var i := 1;
      assert Off(blk, 0) == 0 by { OffZero(blk); }
      OffFacts(blk, 0);
      while i < n
        invariant 1 <= i <= n
        invariant forall k: nat | k < i :: ThreadedAt(mem, page, blk, k)
        invariant forall a: nat | !(page <= a < page + PAGE_SIZE) :: Load(mem, a) == Load(old(mem), a)
      {
        ghost var m := mem;
        mem := mem[page + Off(blk, i) := page + Off(blk, i - 1)];
        OffFacts(blk, i);
        forall k: nat | k <= i
          ensures ThreadedAt(mem, page, blk, k)
        {
          if k < i {
            assert ThreadedAt(m, page, blk, k);
            OffApart(blk, k, i);
            SizeBound(blk);
          }
        }
        i := i + 1;
      }
    }

    /** Fills in the record of a fresh page and puts it at the front of both lists. */
    method LinkPage(pr: nat, page: nat, blk: nat)
      requires Separate() && pr < NPAGEREFS && blk < NSIZES && PerPage(blk) > 0
      requires |same| == NSIZES && |free| == NPAGEREFS
      modifies this`allbase, this`all, this`same, this`free, refs, bases
      ensures refs[..] == old(refs[..])[pr := FreshRef(page, blk, old(bases[blk]), old(allbase))]
      ensures bases[..] == old(bases[..])[blk := pr] && allbase == pr
      ensures all == [pr] + old(all) && same == old(same)[blk := [pr] + old(same)[blk]]
      ensures free == old(free)[pr := Downward(PerPage(blk))]
      ensures inuse[..] == old(inuse[..])
    {
      refs[pr] := FreshRef(page, blk, bases[blk], allbase);
      bases[blk] := pr;
      allbase := pr;
      all := [pr] + all;
      same := same[blk := [pr] + same[blk]];
      free := free[pr := Downward(PerPage(blk))];
    }

    /** A fresh page of blocks of type `blk`, at the front of both lists. */
    method NewPage(blk: nat) returns (pr: int)
      requires Valid() && blk < NSIZES
      modifies this, refs, inuse, bases
      ensures refs == old(refs) && inuse == old(inuse) && bases == old(bases) && last == old(last)
      ensures Separate() && RamOk(first, last)
      ensures NOREF <= pr < NPAGEREFS
      ensures pr == NOREF ==> St() == old(St())
      ensures pr == NOREF <==> old(NoRecord()) || old(first) + PAGE_SIZE > last
      ensures pr != NOREF ==> PerPage(blk) > 0 && CanAdd(old(St()), pr, blk, mem) && St() == Added(old(St()), pr, blk, mem)
    {
      hide Inv, InvPages, Threaded, Off, SizeOf, PerPage, FreshRef, Downward;
      PerPagePositive(blk);
      InvPagesOf(St());
      pr := AllocPageRef();
      if pr == NOREF {
        return;
      }
      var page := AllocKpages(1);
      if page == 0 {
        inuse[pr] := false;
        assert inuse[..] == old(inuse[..]);
        return NOREF;
      }
      ThreadPage(page, blk);
      LinkPage(pr, page, blk);
    }

    ghost predicate NoRecord()
      reads this, inuse
    {
      forall i: nat | i < inuse.Length :: inuse[i]
    }

    // ---- allocation ----

    /** The block at the head of a page's free list is unlinked and returned. */
    method TakeBlock(pr: nat) returns (p: nat)
      requires Separate() && InvPages(St()) && InUse(St(), pr) && refs[pr].nfree > 0
      modifies this`live, this`free, refs
      ensures old(free)[pr] != [] && St() == Popped(old(St()), pr)
      ensures p == BlockAddr(old(refs[pr]), old(free)[pr][0])
    {
      hide InvPages, Off, SizeOf, PerPage, PageAddr, BlockType;
      ghost var h := St();
      PopFacts(h, pr);
      ghost var f := free[pr];
      var page := PageAddr(refs[pr]);
      p := page + refs[pr].freeOffset;
      var next := Load(mem, p);
      var r := refs[pr].(nfree := refs[pr].nfree - 1);
      refs[pr] := r.(freeOffset := if next != NULL then next - page else INVALID_OFFSET);
      free := free[pr := f[1..]];
      live := live[p := Sub(pr, f[0])];
      assert refs[..] == h.refs[pr := refs[pr]];
    }

    /** A block of a page, from a page with room or from a fresh one. */
    method SubpageKmalloc(sz: nat) returns (p: nat, ghost blk: nat)
      requires Valid() && sz < LARGEST_SUBPAGE_SIZE
      modifies this, refs, inuse, bases
      ensures refs == old(refs) && inuse == old(inuse) && bases == old(bases) && last == old(last)
      ensures Valid() && IsClass(sz, blk)
      ensures p == 0 ==> St() == old(St())
      ensures p == 0 <==> old(ClassFull(blk))
      ensures p != 0 ==> p !in old(live) && p in live && Extent(St(), p) == SizeOf(blk)
      ensures p != 0 ==> Blocks(St()) == old(Blocks(St()))[p := Words(St(), p)]
    {
      hide Inv, InvPages, Blocks, Off, SizeOf, PerPage, PageAddr, BlockType, Words, Extent;
      var b := BlockTypeFor(sz);
      blk := b;
      ghost var h := St();
      InvPagesOf(h);
      var pr := FirstWithRoom(b);
      if pr == NOREF {
        pr := NewPage(b);
        if pr == NOREF {
          return 0, b;
        }
        AddBlocks(h, pr, b, mem);
        AddedHasRoom(h, pr, b, mem);
      }
      ghost var g := St();
      p := TakeBlock(pr);
      TakenOk(h, g, pr, b, St());
    }

    /** The first page of the class with a free block. */
    method FirstWithRoom(blk: nat) returns (pr: int)
      requires Valid() && blk < NSIZES
      ensures NOREF <= pr < NPAGEREFS
      ensures pr == NOREF <==> forall i: nat | i in same[blk] && i < NPAGEREFS :: refs[i].nfree == 0
      ensures pr != NOREF ==> InUse(St(), pr) && refs[pr].nfree > 0 && BlockType(refs[pr]) == blk
    {
      hide Off, SizeOf, PerPage, PageAddr, BlockType, PageOk, LiveOk, IsList;
      pr := bases[blk];
      ghost var n, s := 0, same[blk];
      assert SameOk(St(), blk);
      ListHead(NextSame(refs[..]), bases[blk], s);
      while pr != NOREF
        invariant n <= |s| && pr == (if n < |s| then s[n] else NOREF)
        invariant forall k: nat | k < n :: s[k] < NPAGEREFS && refs[s[k]].nfree == 0
        decreases |s| - n
      {
        assert s[n] in s;
        if refs[pr].nfree > 0 {
          return;
        }
        ListStep(NextSame(refs[..]), bases[blk], s, n);
        pr := refs[pr].nextSame;
        n := n + 1;
      }
    }

    ghost predicate ClassFull(blk: nat)
      requires blk < |same|
      reads this, refs, inuse
    {
      && (forall i: nat | i in same[blk] && i < refs.Length :: refs[i].nfree == 0)
      && (NoRecord() || first + PAGE_SIZE > last)
    }

    /** Why kmalloc returns null. */
    ghost predicate Exhausted(sz: nat)
      requires |same| == NSIZES
      reads this, refs, inuse
    {
      if sz >= LARGEST_SUBPAGE_SIZE then first + PagesFor(sz) * PAGE_SIZE > last
      else exists blk: nat :: IsClass(sz, blk) && ClassFull(blk)
    }

    method Kmalloc(sz: nat) returns (p: nat)
      requires Valid() && Servable(sz, first)
      modifies this, refs, inuse, bases
      ensures refs == old(refs) && inuse == old(inuse) && bases == old(bases) && last == old(last)
      ensures Valid()
      ensures p == 0 <==> old(Exhausted(sz))
      ensures p == 0 ==> St() == old(St())
      ensures p != 0 ==> p !in old(live) && p in live && p % 16 == 0 && sz <= Extent(St(), p)
      ensures p != 0 ==> Blocks(St()) == old(Blocks(St()))[p := Words(St(), p)]
    {
      hide Inv, InvPages, Blocks, Off, SizeOf, PerPage, PageAddr, BlockType, Words, Extent;
      InvPagesOf(St());
      if sz >= LARGEST_SUBPAGE_SIZE {
        var npages := PagesFor(sz);
        PagesCover(sz);
        ghost var h := St();
        p := AllocKpages(npages);
        if p == 0 {
          return;
        }
        live := live[p := Big(npages)];
        assert St() == BigAdded(h, npages);
        BigAddBlocks(h, npages);
        BigAddInv(h, npages);
      } else {
        ghost var blk;
        p, blk := SubpageKmalloc(sz);
        ClassUnique(sz, blk);
        InvPagesOf(St());
      }
      if p != 0 {
        Aligned(St(), p);
      }
    }

    // ---- release ----

    /** Unlinks `pr`, at position `p` of `s`, from the list of its size. */
    method RemoveFromSame(pr: nat, blk: nat, ghost s: seq<nat>, ghost p: nat)
      requires Separate() && pr < NPAGEREFS && blk < NSIZES
      requires IsList(NextSame(refs[..]), bases[blk], s) && p < |s| && s[p] == pr && Before(s, p) < NPAGEREFS
      modifies refs, bases
      ensures refs[..] == UnlinkSame(old(refs[..]), pr, Before(s, p))
      ensures bases[..] == if p == 0 then old(bases[..])[blk := old(refs[pr]).nextSame] else old(bases[..])
    {
      hide IsList;
      var prev, cur := NOREF, bases[blk];
      ghost var n := 0;
      IsListDistinct(NextSame(refs[..]), bases[blk], s);
      ListHead(NextSame(refs[..]), bases[blk], s);
      while cur != pr
        invariant n <= p && cur == s[n] && prev == Before(s, n)
        invariant refs[..] == old(refs[..]) && bases[..] == old(bases[..])
        decreases p - n
      {
        ListStep(NextSame(refs[..]), bases[blk], s, n);
        prev, cur := cur, refs[cur].nextSame;
        n := n + 1;
      }
      if prev == NOREF {
        bases[blk] := refs[pr].nextSame;
      } else {
        refs[prev] := refs[prev].(nextSame := refs[pr].nextSame);
      }
    }

    /** Unlinks `pr`, at position `q` of `s`, from the list of all pages. */
    method RemoveFromAll(pr: nat, ghost s: seq<nat>, ghost q: nat)
      requires Separate() && pr < NPAGEREFS
      requires IsList(NextAll(refs[..]), allbase, s) && q < |s| && s[q] == pr && Before(s, q) < NPAGEREFS
      modifies refs, this`allbase
      ensures refs[..] == UnlinkAll(old(refs[..]), pr, Before(s, q))
      ensures allbase == if q == 0 then old(refs[pr]).nextAll else old(allbase)
    {
      hide IsList;
      var prev, cur := NOREF, allbase;
      ghost var n := 0;
      IsListDistinct(NextAll(refs[..]), allbase, s);
      ListHead(NextAll(refs[..]), allbase, s);
      while cur != pr
        invariant n <= q && cur == s[n] && prev == Before(s, n)
        invariant refs[..] == old(refs[..]) && allbase == old(allbase)
        decreases q - n
      {
        ListStep(NextAll(refs[..]), allbase, s, n);
        prev, cur := cur, refs[cur].nextAll;
        n := n + 1;
      }
      if prev == NOREF {
        allbase := refs[pr].nextAll;
      } else {
        refs[prev] := refs[prev].(nextAll := refs[pr].nextAll);
      }
    }

    /** remove_lists and freepageref: the record leaves both lists and is free for reuse. */
    method DropPage(pr: nat, blk: nat)
      requires Separate() && InvPages(St()) && InUse(St(), pr) && BlockType(refs[pr]) == blk
      modifies this`allbase, this`all, this`same, refs, inuse, bases
      ensures exists p: nat, q: nat :: At(old(St()), pr, p, q) && St() == Removed(old(St()), pr, p, q)
    {
      hide IsList, BlockType, PageOk, LiveOk;
      ghost var h := St();
      ghost var p, q := HasPlace(h, pr);
      assert SameOk(h, blk);
      RemoveFromSame(pr, blk, same[blk], p);
      assert NextAll(refs[..]) == NextAll(h.refs);
      RemoveFromAll(pr, all, q);
      inuse[pr] := false;
      all := Without(all, q);
      same := same[blk := Without(same[blk], p)];
      UnlinkKeepsAll(h.refs, pr, Before(h.same[blk], p));
      assert St() == Removed(h, pr, p, q);
    }

    /** The page of blocks that holds an address, if any. */
    method PageOf(a: nat) returns (pr: int)
      requires Valid()
      ensures NOREF <= pr < NPAGEREFS
      ensures pr != NOREF ==> InUse(St(), pr) && PageAddr(refs[pr]) <= a < PageAddr(refs[pr]) + PAGE_SIZE
      ensures pr == NOREF ==> forall i: nat | InUse(St(), i) :: !(PageAddr(refs[i]) <= a < PageAddr(refs[i]) + PAGE_SIZE)
    {
      hide IsList, BlockType, PageAddr, PageOk, LiveOk;
      pr := allbase;
      ghost var n := 0;
      ListHead(NextAll(refs[..]), allbase, all);
      while pr != NOREF
        invariant n <= |all| && pr == (if n < |all| then all[n] else NOREF)
        invariant forall k: nat | k < n :: all[k] < NPAGEREFS && !(PageAddr(refs[all[k]]) <= a < PageAddr(refs[all[k]]) + PAGE_SIZE)
        decreases |all| - n
      {
        assert all[n] in all;
        var page := PageAddr(refs[pr]);
        if page <= a < page + PAGE_SIZE {
          return;
        }
        ListStep(NextAll(refs[..]), allbase, all, n);
        pr := refs[pr].nextAll;
        n := n + 1;
      }
    }

    method FillDeadbeef(a: nat, len: nat)
      modifies this`mem
      ensures forall x: nat | !(a <= x < a + len) :: Load(mem, x) == Load(old(mem), x)
      ensures forall i: nat | i < len / 4 :: Load(mem, a + 4 * i) == DEADBEEF
    {
      var i := 0;
      while i < len / 4
        invariant i <= len / 4
        invariant forall x: nat | !(a <= x < a + len) :: Load(mem, x) == Load(old(mem), x)
        invariant forall k: nat | k < i :: Load(mem, a + 4 * k) == DEADBEEF
      {
        mem := mem[a + 4 * i := DEADBEEF];
        i := i + 1;
      }
    }

    /** The block goes to the front of its page's free list. */
    method GiveBlock(pr: nat, p: nat, ghost k: nat)
      requires Separate() && InvPages(St()) && InUse(St(), pr) && Freeable(St(), pr, k)
      requires p == BlockAddr(refs[pr], k)
      modifies this`mem, this`live, this`free, refs
      ensures LinkedIn(old(St()), pr, k, mem) && St() == Pushed(old(St()), pr, k, mem)
      ensures forall i: nat | 0 < i < SizeOf(BlockType(old(refs[pr]))) / 4 :: Load(mem, p + 4 * i) == DEADBEEF
    {
      hide InvPages, Off, SizeOf, PerPage, PageAddr, BlockType;
      ghost var h := St();
      HeadOffset(h, pr);
      var r := refs[pr];
      var page := PageAddr(r);
      SizeBound(BlockType(r));
      FillDeadbeef(p, SizeOf(BlockType(r)));
      mem := mem[p := if r.freeOffset == INVALID_OFFSET then NULL else page + r.freeOffset];
      refs[pr] := r.(freeOffset := p - page, nfree := r.nfree + 1);
      free := free[pr := [k] + free[pr]];
      live := live - {p};
      assert refs[..] == h.refs[pr := refs[pr]];
    }

    /** Frees a block of a page; false when the address is on no page of blocks. */
    method SubpageKfree(a: nat) returns (done: bool)
      requires Valid() && a in live
      modifies this, refs, inuse, bases
      ensures refs == old(refs) && inuse == old(inuse) && bases == old(bases) && last == old(last) && first == old(first)
      ensures Separate() && Inv(St())
      ensures done <==> old(live)[a].Sub?
      ensures !done ==> St() == old(St())
      ensures done ==> Blocks(St()) == old(Blocks(St())) - {a}
    {
      hide Inv, InvPages, Blocks, Off, SizeOf, PerPage, PageAddr, BlockType, LinkedIn, Pushed, Removed, Freeable;
      ghost var h := St();
      InvPagesOf(h);
      var pr := PageOf(a);
      OnPageIffSub(h, a, pr);
      if pr == NOREF {
        return false;
      }
      var blk := BlockType(refs[pr]);
      ghost var k := live[a].k;
      SizeBound(blk);
      OffMultiple(blk, k);
      assert (a - PageAddr(refs[pr])) % SizeOf(blk) == 0;
      GiveBlock(pr, a, k);
      PushBlocks(h, pr, k, mem);
      PushCounts(h, pr, k, mem);
      ShapeOf(St());
      if refs[pr].nfree == PAGE_SIZE / SizeOf(blk) {
        ghost var g := St();
        DropPage(pr, blk);
        ghost var p: nat, q: nat :| At(g, pr, p, q) && St() == Removed(g, pr, p, q);
        DroppedOk(g, pr, p, q);
      } else {
        StillInv(h, St(), pr);
      }
      done := true;
    }

    method Kfree(a: nat)
      requires Valid() && (a == NULL || a in live)
      modifies this, refs, inuse, bases
      ensures refs == old(refs) && inuse == old(inuse) && bases == old(bases) && last == old(last) && first == old(first)
      ensures Valid()
      ensures a == NULL ==> St() == old(St())
      ensures a != NULL ==> Blocks(St()) == old(Blocks(St())) - {a}
    {
      hide Inv, InvPages, Blocks;
      if a == NULL {
        return;
      }
      var done := SubpageKfree(a);
      if !done {
        ghost var h := St();
        InvPagesOf(h);
        BigAligned(h, a);
        assert a % PAGE_SIZE == 0;
        live := live - {a};
        BigRemoveBlocks(h, a);
        BigRemoveInv(h, a);
      }
    }

    /** A store by the owner of a block. */
    method Store(a: nat, j: nat, w: nat)
      requires Valid() && a in live && 4 * j + 4 <= Extent(St(), a)
      modifies this`mem
      ensures Valid() && j < |old(Words(St(), a))|
      ensures Blocks(St()) == old(Blocks(St()))[a := old(Words(St(), a))[j := w]]
    {
      hide Inv, InvPages, Blocks, Words, Extent;
      ghost var h := St();
      InvPagesOf(h);
      mem := mem[a + 4 * j := w];
      StoreBlocks(h, a, j, w);
      StoreInv(h, a + 4 * j, w);
    }
  }

  /** Unlinking from one list leaves the other list's links alone. */
  lemma UnlinkKeepsAll(refs: seq<PageRef>, i: nat, prev: int)
    requires i < |refs| && prev < |refs|
    ensures var u := UnlinkSame(refs, i, prev); |u| == |refs| && u[i].nextAll == refs[i].nextAll
  {
  }

  lemma ShapeOf(h: Heap)
    requires InvPages(h)
    ensures Shape(h)
  {
  }

  lemma HeadOffset(h: Heap, i: nat)
    requires InvPages(h) && InUse(h, i)
    ensures Shape(h)
    ensures var r, f := h.refs[i], h.free[i];
            && (r.freeOffset == INVALID_OFFSET <==> f == [])
            && (f != [] ==> BlockAddr(r, f[0]) == PageAddr(r) + r.freeOffset)
  {
  }

  /** A live address is on a page of blocks exactly when it was cut from one. */
  lemma OnPageIffSub(h: Heap, a: nat, pr: int)
    requires InvPages(h) && a in h.live && NOREF <= pr < NPAGEREFS
    requires Shape(h)
    requires pr != NOREF ==> InUse(h, pr) && PageAddr(h.refs[pr]) <= a < PageAddr(h.refs[pr]) + PAGE_SIZE
    requires pr == NOREF ==> forall i: nat | InUse(h, i) :: !(PageAddr(h.refs[i]) <= a < PageAddr(h.refs[i]) + PAGE_SIZE)
    ensures pr == NOREF <==> h.live[a].Big?
    ensures pr != NOREF ==> h.live[a].ref == pr && a == BlockAddr(h.refs[pr], h.live[a].k) && Freeable(h, pr, h.live[a].k)
  {
    hide SizeOf, PerPage, Off, PageAddr, BlockType, ListsOk, PageOk;
    assert LiveOk(h, a);
    if pr == NOREF {
      if h.live[a].Sub? {
        SubInPage(h, a);
        BlockInPage(h.refs[h.live[a].ref], h.live[a].k);
      }
    } else {
      LiveInPage(h, pr, a);
    }
  }

  lemma PushCounts(h: Heap, i: nat, k: nat, mem: map<nat, nat>)
    requires Inv(h) && InUse(h, i) && Shape(h)
    ensures var g := Pushed(h, i, k, mem);
            && g.refs[i].nfree == h.refs[i].nfree + 1 && BlockType(g.refs[i]) == BlockType(h.refs[i])
            && InUse(g, i) && g.inuse == h.inuse
            && forall j: nat | InUse(g, j) && j != i :: g.refs[j].nfree < PerPage(BlockType(g.refs[j]))
  {
  }

  lemma DroppedOk(g: Heap, i: nat, p: nat, q: nat)
    requires InvPages(g) && InUse(g, i) && At(g, i, p, q)
    requires g.refs[i].nfree == PAGE_SIZE / SizeOf(BlockType(g.refs[i]))
    requires forall j: nat | InUse(g, j) && j != i :: g.refs[j].nfree < PerPage(BlockType(g.refs[j]))
    ensures Inv(Removed(g, i, p, q)) && Blocks(Removed(g, i, p, q)) == Blocks(g)
  {
    hide InvPages, SizeOf, Off, PageAddr, BlockType, Removed;
    FreeCount(g, i);
    RemoveBlocks(g, i, p, q);
    DroppedCounts(g, i, p, q);
  }

  lemma DroppedCounts(g: Heap, i: nat, p: nat, q: nat)
    requires InvPages(g) && InUse(g, i) && At(g, i, p, q)
    requires forall j: nat | InUse(g, j) && j != i :: g.refs[j].nfree < PerPage(BlockType(g.refs[j]))
    ensures var h' := Removed(g, i, p, q);
            Shape(h') && forall j: nat | InUse(h', j) :: h'.refs[j].nfree < PerPage(BlockType(h'.refs[j]))
  {
    hide SizeOf, Off, PageAddr, BlockType, PerPage, ListsOk, PageOk, LiveOk, UnlinkAll, UnlinkSame;
    RemovedRecords(g, i, p, q);
    var h' := Removed(g, i, p, q);
    forall j: nat | InUse(h', j)
      ensures h'.refs[j].nfree < PerPage(BlockType(h'.refs[j]))
    {
      assert SameButLinks(g.refs[j], h'.refs[j]);
    }
  }

  lemma StillInv(h: Heap, g: Heap, i: nat)
    requires InvPages(g) && Shape(g) && InUse(g, i)
    requires Inv(h) && InUse(h, i) && Shape(h)
    requires h.refs[i].nfree + 1 == g.refs[i].nfree != PAGE_SIZE / SizeOf(BlockType(g.refs[i]))
    requires BlockType(g.refs[i]) == BlockType(h.refs[i])
    requires forall j: nat | InUse(g, j) && j != i :: g.refs[j].nfree < PerPage(BlockType(g.refs[j]))
    ensures Inv(g)
  {
  }

  lemma BigAligned(h: Heap, a: nat)
    requires InvPages(h) && a in h.live && h.live[a].Big?
    ensures a % PAGE_SIZE == 0
  {
  }

  lemma BigRemoveInv(h: Heap, a: nat)
    requires Inv(h) && InvPages(BigRemoved(h, a))
    ensures Inv(BigRemoved(h, a))
  {
  }

  lemma StoreInv(h: Heap, x: nat, w: nat)
    requires Inv(h) && InvPages(h.(mem := h.mem[x := w]))
    ensures Inv(h.(mem := h.mem[x := w]))
  {
  }

  /** The smallest size class that holds a request. */
  ghost predicate IsClass(sz: nat, blk: nat)
  {
    blk < NSIZES && sz <= SizeOf(blk) && forall b: nat | b < blk :: SizeOf(b) < sz
  }

  lemma ClassUnique(sz: nat, blk: nat)
    requires IsClass(sz, blk)
    ensures forall b: nat | IsClass(sz, b) :: b == blk
  {
  }

  lemma Aligned(h: Heap, a: nat)
    requires InvPages(h) && a in h.live
    ensures a % 16 == 0
  {
    hide InvPages;
    if h.live[a].Sub? {
      SubInPage(h, a);
    } else {
      BigExtent(h, a);
    }
  }

  lemma BigAddInv(h: Heap, n: nat)
    requires Inv(h) && InvPages(BigAdded(h, n))
    ensures Inv(BigAdded(h, n))
  {
  }

  lemma PopFacts(h: Heap, i: nat)
    requires InvPages(h) && InUse(h, i) && h.refs[i].nfree > 0
    ensures Shape(h) && h.free[i] != []
    ensures var r, f := h.refs[i], h.free[i];
            && r.freeOffset < PAGE_SIZE && PageAddr(r) + r.freeOffset == BlockAddr(r, f[0])
            && Load(h.mem, BlockAddr(r, f[0])) == (if |f| > 1 then PageAddr(r) + Off(BlockType(r), f[1]) else NULL)
            && PageAddr(r) > NULL
  {
    hide SizeOf, PerPage, Off, PageAddr, BlockType, ListsOk, LiveOk;
    assert PageOk(h, i);
    var r, f := h.refs[i], h.free[i];
    assert FreeLink(h.mem, r, f, 0);
    OffFacts(BlockType(r), f[0]);
  }

  lemma ListHead(next: seq<int>, head: int, s: seq<nat>)
    requires IsList(next, head, s)
    ensures head == if s == [] then NOREF else s[0]
  {
  }

  lemma ListStep(next: seq<int>, head: int, s: seq<nat>, n: nat)
    requires IsList(next, head, s) && n < |s|
    ensures s[n] < |next| && next[s[n]] == if n + 1 < |s| then s[n + 1] else NOREF
  {
    assert Linked(next, s, n);
  }

  /** A fresh page has room, and every other page still has a block out. */
  lemma AddedHasRoom(h: Heap, i: nat, blk: nat, mem: map<nat, nat>)
    requires Inv(h) && CanAdd(h, i, blk, mem)
    ensures var g := Added(h, i, blk, mem);
            && Shape(g) && InUse(g, i) && g.refs[i].nfree > 0 && BlockType(g.refs[i]) == blk
            && forall j: nat | InUse(g, j) && j != i :: g.refs[j].nfree < PerPage(BlockType(g.refs[j]))
  {
    hide InvPages, SizeOf, PerPage, Off, PageAddr, BlockType, Threaded;
    InvPagesOf(h);
    AddedRecords(h, i, blk, mem);
  }

  /** What taking a block of page `i` of `g` does, where `g` has the blocks of `h`. */
  lemma TakenOk(h: Heap, g: Heap, i: nat, blk: nat, h': Heap)
    requires Shape(h) && InvPages(g) && Blocks(g) == Blocks(h) && g.live == h.live
    requires InUse(g, i) && g.refs[i].nfree > 0 && BlockType(g.refs[i]) == blk
    requires forall j: nat | InUse(g, j) && j != i :: g.refs[j].nfree < PerPage(BlockType(g.refs[j]))
    requires g.free[i] != [] && h' == Popped(g, i)
    ensures Inv(h')
    ensures var x := BlockAddr(g.refs[i], g.free[i][0]);
            && x != 0 && x !in h.live && x in h'.live
            && Extent(h', x) == SizeOf(blk) && Blocks(h') == Blocks(h)[x := Words(h', x)]
  {
    hide InvPages, SizeOf, PerPage, Off, PageAddr, BlockType, Blocks, Words, Popped;
    PopFacts(g, i);
    PopBlocks(g, i);
    PopInv(g, i);
  }

  /** The heap at boot. */
  lemma BootOk(h: Heap)
    requires |h.refs| == |h.inuse| == |h.free| == NPAGEREFS && |h.bases| == |h.same| == NSIZES
    requires forall i: nat | i < NPAGEREFS :: !h.inuse[i]
    requires forall b: nat | b < NSIZES :: h.bases[b] == NOREF && h.same[b] == []
    requires h.allbase == NOREF && h.all == [] && h.live == map[] && h.first % PAGE_SIZE == 0
    ensures Inv(h) && Blocks(h) == map[]
  {
  }

  lemma PerPagePositive(blk: nat)
    requires blk < NSIZES
    ensures PerPage(blk) >= 2
  {
  }

  lemma OffZero(blk: nat)
    requires blk < NSIZES
    ensures Off(blk, 0) == 0
  {
  }

  lemma InvPagesOf(h: Heap)
    requires Inv(h)
    ensures InvPages(h) && Shape(h)
    ensures forall j: nat | InUse(h, j) :: h.refs[j].nfree < PerPage(BlockType(h.refs[j]))
  {
  }
}
