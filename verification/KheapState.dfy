/**
 The subpage allocator of kern/lib/kheap.c as a value: the page records, the
 two lists threaded through them, the memory through which each page's free
 list is threaded, and (for specification) the sequences these chains stand
 for and the blocks handed out.
 */
module KheapState {
  import opened Basics
  import opened Ram

  const NPAGEREFS := 256
  const NSIZES := 8
  const LARGEST_SUBPAGE_SIZE := 2048
  const INVALID_OFFSET := 0xffff
  const NULL := 0
  const NOREF := -1

  // ---- block sizes ----

  /** The table `sizes`. */
  function SizeOf(blk: nat): (n: nat)
    requires blk < NSIZES
  {
    match blk
    case 0 => 16
    case 1 => 32
    case 2 => 64
    case 3 => 128
    case 4 => 256
    case 5 => 512
    case 6 => 1024
    case _ => 2048
  }

  function PerPage(blk: nat): (n: nat)
    requires blk < NSIZES
  {
    PAGE_SIZE / SizeOf(blk)
  }

  /** Offset of block `k` in a page of blocks of type `blk`. */
  function Off(blk: nat, k: nat): (o: nat)
    requires blk < NSIZES
  {
    k * SizeOf(blk)
  }

  lemma OffFacts(blk: nat, k: nat)
    requires blk < NSIZES && k < PerPage(blk)
    ensures Off(blk, k) + SizeOf(blk) <= PAGE_SIZE && Off(blk, k) % 16 == 0 && SizeOf(blk) >= 16
    ensures Off(blk, k) % SizeOf(blk) == 0
  {
    hide Off, SizeOf, PerPage;
    SizeBound(blk);
    OffBound(blk, k);
    OffSixteens(blk, k);
    OffMultiple(blk, k);
  }

  lemma SizeBound(blk: nat)
    requires blk < NSIZES
    ensures SizeOf(blk) >= 16
  {
  }

  lemma OffBound(blk: nat, k: nat)
    requires blk < NSIZES && k < PerPage(blk)
    ensures Off(blk, k) + SizeOf(blk) <= PAGE_SIZE
  {
    match blk
    case 0 =>
    case 1 =>
    case 2 =>
    case 3 =>
    case 4 =>
    case 5 =>
    case 6 =>
    case _ =>
  }

  lemma OffSixteens(blk: nat, k: nat)
    requires blk < NSIZES
    ensures Off(blk, k) % 16 == 0
  {
    var q := match blk case 0 => k case 1 => 2 * k case 2 => 4 * k case 3 => 8 * k
             case 4 => 16 * k case 5 => 32 * k case 6 => 64 * k case _ => 128 * k;
    assert Off(blk, k) == 16 * q;
    Sixteens(q);
  }

  lemma OffMultiple(blk: nat, k: nat)
    requires blk < NSIZES
    ensures SizeOf(blk) > 0 && Off(blk, k) % SizeOf(blk) == 0
  {
    hide SizeOf;
    SizeBound(blk);
    ProductMultiple(k, SizeOf(blk));
  }

  lemma {:induction false} ProductMultiple(k: nat, m: nat)
    requires m > 0
    ensures (k * m) % m == 0
  {
    if k > 0 {
      ProductMultiple(k - 1, m);
      assert k * m == (k - 1) * m + m;
      AddMultiple((k - 1) * m, m);
    }
  }

  lemma AddMultiple(a: nat, m: nat)
    requires m > 0 && a % m == 0
    ensures (a + m) % m == 0
  {
    assert (a + m) == m * (a / m + 1);
    assert a + m == m * ((a + m) / m) + (a + m) % m;
    Quotient(m, (a + m) / m, (a + m) % m, a / m + 1);
  }

  lemma Quotient(m: int, q: int, r: int, p: int)
    requires m > 0 && 0 <= r < m && m * q + r == m * p
    ensures r == 0
  {
    assert r == m * (p - q);
    MulAtLeast(m, p - q);
  }

  lemma OffApart(blk: nat, j: nat, k: nat)
    requires blk < NSIZES && j < k
    ensures Off(blk, j) + SizeOf(blk) <= Off(blk, k)
  {
  }

  // ---- state ----

  /** struct pageref; the page address and the block type share one word. */
  datatype PageRef = PageRef(nextSame: int, nextAll: int, pab: nat, freeOffset: nat, nfree: nat)

  function MkPab(pa: nat, blk: nat): (w: nat)
  {
    pa / PAGE_SIZE * PAGE_SIZE + blk % PAGE_SIZE
  }

  function PageAddr(r: PageRef): (pa: nat)
  {
    r.pab / PAGE_SIZE * PAGE_SIZE
  }

  function BlockType(r: PageRef): (blk: nat)
  {
    r.pab % PAGE_SIZE
  }

  /** Page address and block type come back out of the packed word. */
  lemma PabRoundTrip(pa: nat, blk: nat, r: PageRef)
    requires pa % PAGE_SIZE == 0 && blk < PAGE_SIZE && r.pab == MkPab(pa, blk)
    ensures PageAddr(r) == pa && BlockType(r) == blk
  {
  }

  /** A block handed out: part of a page of blocks, or whole pages. */
  datatype Alloc = Sub(ref: nat, k: nat) | Big(npages: nat)

  datatype Heap = Heap(
    refs: seq<PageRef>, inuse: seq<bool>, bases: seq<int>, allbase: int, mem: map<nat, nat>, first: nat,
    live: map<nat, Alloc>, all: seq<nat>, same: seq<seq<nat>>, free: seq<seq<nat>>)

  /** Address of block `k` of the page of record `r`. */
  function BlockAddr(r: PageRef, k: nat): (a: nat)
    requires BlockType(r) < NSIZES
  {
    PageAddr(r) + Off(BlockType(r), k)
  }

  ghost predicate Distinct(s: seq<nat>)
  {
    forall i: nat, j: nat | i < j < |s| :: s[i] != s[j]
  }

  // ---- the lists of page records ----

  /** `s` is the list that starts at `head` and continues through `next`. */
  ghost predicate IsList(next: seq<int>, head: int, s: seq<nat>)
  {
    && Distinct(s)
    && head == (if s == [] then NOREF else s[0])
    && forall i: nat | i < |s| :: Linked(next, s, i)
  }

  ghost predicate Linked(next: seq<int>, s: seq<nat>, i: nat)
    requires i < |s|
  {
    s[i] < |next| && next[s[i]] == if i + 1 < |s| then s[i + 1] else NOREF
  }

  function NextAll(refs: seq<PageRef>): (next: seq<int>)
  {
    seq(|refs|, i requires 0 <= i < |refs| => refs[i].nextAll)
  }

  function NextSame(refs: seq<PageRef>): (next: seq<int>)
  {
    seq(|refs|, i requires 0 <= i < |refs| => refs[i].nextSame)
  }

  predicate InUse(h: Heap, i: nat)
  {
    i < |h.inuse| && h.inuse[i]
  }

  ghost predicate Shape(h: Heap)
  {
    && |h.refs| == |h.inuse| == |h.free| == NPAGEREFS
    && |h.bases| == |h.same| == NSIZES
    && (forall i: nat | InUse(h, i) :: BlockType(h.refs[i]) < NSIZES)
  }

  /** The list of record `i`'s size holds exactly the records in use with that size. */
  ghost predicate SameOk(h: Heap, b: nat)
    requires Shape(h) && b < NSIZES
  {
    && IsList(NextSame(h.refs), h.bases[b], h.same[b])
    && forall i: nat :: i in h.same[b] <==> InUse(h, i) && BlockType(h.refs[i]) == b
  }

  /** Both lists are well formed; the per-size lists partition the list of all pages. */
  ghost predicate ListsOk(h: Heap)
    requires Shape(h)
  {
    && IsList(NextAll(h.refs), h.allbase, h.all)
    && (forall i: nat :: i in h.all <==> InUse(h, i))
    && (forall b: nat | b < NSIZES :: SameOk(h, b))
  }

  // ---- pages and their free lists ----

  /** The free list of one page: distinct blocks, chained through their first words. */
  ghost predicate FreeOk(mem: map<nat, nat>, r: PageRef, f: seq<nat>)
    requires BlockType(r) < NSIZES
  {
    && Distinct(f)
    && |f| == r.nfree
    && r.freeOffset == (if f == [] then INVALID_OFFSET else Off(BlockType(r), f[0]))
    && forall j: nat | j < |f| :: FreeLink(mem, r, f, j)
  }

  ghost predicate FreeLink(mem: map<nat, nat>, r: PageRef, f: seq<nat>, j: nat)
    requires BlockType(r) < NSIZES && j < |f|
  {
    && f[j] < PerPage(BlockType(r))
    && Load(mem, BlockAddr(r, f[j])) == if j + 1 < |f| then BlockAddr(r, f[j + 1]) else NULL
  }

  ghost predicate Accounted(h: Heap, i: nat, k: nat)
    requires Shape(h) && InUse(h, i)
  {
    var a := BlockAddr(h.refs[i], k);
    k in h.free[i] || (a in h.live && h.live[a] == Sub(i, k))
  }

  ghost predicate PageOk(h: Heap, i: nat)
    requires Shape(h) && InUse(h, i)
  {
    var r := h.refs[i];
    && KSEG0 <= PageAddr(r) && PageAddr(r) + PAGE_SIZE <= KSEG0 + h.first
    && FreeOk(h.mem, r, h.free[i])
    && forall k: nat | k < PerPage(BlockType(r)) :: Accounted(h, i, k)
  }

  /** Records in use describe different pages. */
  ghost predicate PagesApart(h: Heap)
    requires Shape(h)
  {
    forall i: nat, j: nat | InUse(h, i) && InUse(h, j) && i != j :: PageAddr(h.refs[i]) != PageAddr(h.refs[j])
  }

  ghost predicate LiveOk(h: Heap, a: nat)
    requires Shape(h) && a in h.live
  {
    match h.live[a]
    case Sub(i, k) =>
      InUse(h, i) && k < PerPage(BlockType(h.refs[i])) && a == BlockAddr(h.refs[i], k) && k !in h.free[i]
    case Big(n) =>
      && n > 0 && a % PAGE_SIZE == 0 && KSEG0 <= a && a + n * PAGE_SIZE <= KSEG0 + h.first
      && forall i: nat | InUse(h, i) :: Apart(a, n * PAGE_SIZE, PageAddr(h.refs[i]), PAGE_SIZE)
  }

  ghost predicate BigsApart(h: Heap)
  {
    forall a, b | a in h.live && b in h.live && a != b && h.live[a].Big? && h.live[b].Big? ::
      Apart(a, h.live[a].npages * PAGE_SIZE, b, h.live[b].npages * PAGE_SIZE)
  }

  /** Everything but "no page is entirely free". */
  ghost predicate InvPages(h: Heap)
  {
    && Shape(h) && h.first % PAGE_SIZE == 0
    && ListsOk(h)
    && (forall i: nat | InUse(h, i) :: PageOk(h, i))
    && PagesApart(h)
    && (forall a | a in h.live :: LiveOk(h, a))
    && BigsApart(h)
  }

  /** What holds between calls. */
  ghost predicate Inv(h: Heap)
  {
    InvPages(h) && forall i: nat | InUse(h, i) :: h.refs[i].nfree < PerPage(BlockType(h.refs[i]))
  }

  // ---- what the invariant gives to callers ----

  /** Bytes usable by the owner of the block at `a`. */
  ghost function Extent(h: Heap, a: nat): (n: nat)
    requires Shape(h) && a in h.live
  {
    match h.live[a]
    case Sub(i, _) => if InUse(h, i) then SizeOf(BlockType(h.refs[i])) else 0
    case Big(n) => n * PAGE_SIZE
  }

  /** Live blocks never overlap, and each is aligned. */
  lemma LiveBlocksDisjoint(h: Heap, a: nat, b: nat)
    requires InvPages(h) && a in h.live && b in h.live && a != b
    ensures Apart(a, Extent(h, a), b, Extent(h, b))
    ensures a % 16 == 0
  {
    hide SizeOf, Off, PerPage, PageOk, ListsOk, PageAddr, BlockType, Extent;
    assert LiveOk(h, a) && LiveOk(h, b);
    if h.live[a].Sub? {
      SubInPage(h, a);
    } else {
      BigExtent(h, a);
    }
    if h.live[b].Sub? {
      SubInPage(h, b);
    } else {
      BigExtent(h, b);
    }
    if h.live[a].Sub? && h.live[b].Sub? {
      var i, j := h.live[a].ref, h.live[b].ref;
      if i == j {
        SamePageApart(h, a, b);
      } else {
        PageMultiples(h.refs[i], h.refs[j]);
      }
    }
  }

  lemma BigExtent(h: Heap, a: nat)
    requires InvPages(h) && a in h.live && h.live[a].Big?
    ensures Extent(h, a) == h.live[a].npages * PAGE_SIZE && a % 16 == 0
  {
    hide SizeOf, Off, PerPage, PageOk, ListsOk, PageAddr, BlockType;
    assert LiveOk(h, a);
    var q := a / PAGE_SIZE;
    Sixteens(256 * q);
  }

  lemma SamePageApart(h: Heap, a: nat, b: nat)
    requires InvPages(h) && a in h.live && b in h.live && a != b
    requires h.live[a].Sub? && h.live[b].Sub? && h.live[a].ref == h.live[b].ref
    ensures Apart(a, Extent(h, a), b, Extent(h, b))
  {
    hide SizeOf, Off, PerPage, PageOk, ListsOk, PageAddr, BlockType;
    assert LiveOk(h, a) && LiveOk(h, b);
    var r := h.refs[h.live[a].ref];
    if h.live[a].k < h.live[b].k {
      OffApart(BlockType(r), h.live[a].k, h.live[b].k);
    } else {
      OffApart(BlockType(r), h.live[b].k, h.live[a].k);
    }
  }

  lemma SubInPage(h: Heap, a: nat)
    requires InvPages(h) && a in h.live && h.live[a].Sub?
    ensures var i := h.live[a].ref;
            && InUse(h, i)
            && PageAddr(h.refs[i]) <= a && a + Extent(h, a) <= PageAddr(h.refs[i]) + PAGE_SIZE
            && a % 16 == 0
  {
    hide SizeOf, Off, PerPage, PageOk, ListsOk, PageAddr;
    assert LiveOk(h, a);
    OffFacts(BlockType(h.refs[h.live[a].ref]), h.live[a].k);
    PageAligned(h.refs[h.live[a].ref]);
  }

  lemma PageAligned(r: PageRef)
    ensures PageAddr(r) % PAGE_SIZE == 0 && PageAddr(r) % 16 == 0
  {
    var p := r.pab / PAGE_SIZE;
    Sixteens(256 * p);
  }

  lemma Sixteens(q: nat)
    ensures (16 * q) % 16 == 0
  {
  }

  /** Different pages do not overlap. */
  lemma PageMultiples(r: PageRef, q: PageRef)
    requires PageAddr(r) != PageAddr(q)
    ensures Apart(PageAddr(r), PAGE_SIZE, PageAddr(q), PAGE_SIZE)
  {
  }
}
