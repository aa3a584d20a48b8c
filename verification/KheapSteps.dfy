/**
 The elementary changes the allocator makes, and why each keeps the
 invariant: taking a block off a page's free list, putting one back, adding
 and removing a page, whole-page allocations, and stores by the block's owner.
 */
module KheapSteps {
  import opened Basics
  import opened Ram
  import opened KheapState

  // ---- changes confined to one page ----

  predicate InPage(h: Heap, i: nat, a: nat)
    requires i < |h.refs|
  {
    PageAddr(h.refs[i]) <= a < PageAddr(h.refs[i]) + PAGE_SIZE
  }

  ghost predicate SameElsewhere(h: Heap, h': Heap, i: nat, a: nat)
  {
    && Load(h'.mem, a) == Load(h.mem, a)
    && (a in h'.live <==> a in h.live)
    && (a in h.live ==> h'.live[a] == h.live[a])
  }

  ghost predicate SameRecord(h: Heap, h': Heap, j: nat)
    requires j < |h.refs| == |h'.refs| == |h.free| == |h'.free|
  {
    h'.refs[j] == h.refs[j] && h'.free[j] == h.free[j]
  }

  /** Only the free list of page `i`, and memory and blocks inside that page, changed. */
  ghost predicate OnPage(h: Heap, h': Heap, i: nat)
    requires Shape(h) && InUse(h, i)
  {
    && h' == h.(refs := h'.refs, mem := h'.mem, live := h'.live, free := h'.free)
    && |h'.refs| == |h'.free| == NPAGEREFS
    && (forall j: nat | j < NPAGEREFS && j != i :: SameRecord(h, h', j))
    && h'.refs[i] == h.refs[i].(freeOffset := h'.refs[i].freeOffset, nfree := h'.refs[i].nfree)
    && (forall a: nat | !InPage(h, i, a) :: SameElsewhere(h, h', i, a))
    && (forall a | a in h'.live && InPage(h, i, a) :: h'.live[a].Sub? && h'.live[a].ref == i)
  }

  lemma OnPageShape(h: Heap, h': Heap, i: nat)
    requires InvPages(h) && InUse(h, i) && OnPage(h, h', i)
    ensures Shape(h') && ListsOk(h') && PagesApart(h')
    ensures forall j: nat | InUse(h', j) :: InUse(h, j) && PageAddr(h'.refs[j]) == PageAddr(h.refs[j]) && BlockType(h'.refs[j]) == BlockType(h.refs[j])
  {
    hide PageOk, LiveOk, PageAddr, BlockType, IsList;
    forall j: nat | j < NPAGEREFS
      ensures h'.refs[j].pab == h.refs[j].pab && h'.refs[j].nextAll == h.refs[j].nextAll && h'.refs[j].nextSame == h.refs[j].nextSame
      ensures PageAddr(h'.refs[j]) == PageAddr(h.refs[j]) && BlockType(h'.refs[j]) == BlockType(h.refs[j])
    {
      if j != i {
        assert SameRecord(h, h', j);
      }
      SamePab(h.refs[j], h'.refs[j]);
    }
    assert NextAll(h'.refs) == NextAll(h.refs);
    assert NextSame(h'.refs) == NextSame(h.refs);
    forall b: nat | b < NSIZES
      ensures SameOk(h', b)
    {
      assert SameOk(h, b);
    }
  }

  lemma SamePab(r: PageRef, q: PageRef)
    requires r.pab == q.pab
    ensures PageAddr(r) == PageAddr(q) && BlockType(r) == BlockType(q)
  {
  }

  /** A block lies in its own page. */
  lemma BlockInPage(r: PageRef, k: nat)
    requires BlockType(r) < NSIZES && k < PerPage(BlockType(r))
    ensures PageAddr(r) <= BlockAddr(r, k) && BlockAddr(r, k) + SizeOf(BlockType(r)) <= PageAddr(r) + PAGE_SIZE
    ensures SizeOf(BlockType(r)) >= 16
  {
  }

  /** The free list of another page is untouched. */
  lemma OtherPageOk(h: Heap, h': Heap, i: nat, j: nat)
    requires InvPages(h) && InUse(h, i) && OnPage(h, h', i) && Shape(h')
    requires InUse(h, j) && j != i
    ensures PageOk(h', j)
  {
    hide PageAddr, BlockType, SizeOf, Off, PerPage, ListsOk, LiveOk, BlockAddr;
    assert PageOk(h, j) && SameRecord(h, h', j);
    var r := h.refs[j];
    PageMultiples(h.refs[i], r);
    forall k: nat | k < PerPage(BlockType(r))
      ensures !InPage(h, i, BlockAddr(r, k)) && SameElsewhere(h, h', i, BlockAddr(r, k))
    {
      BlockInPage(r, k);
    }
    forall n: nat | n < |h.free[j]|
      ensures FreeLink(h'.mem, r, h.free[j], n)
    {
      assert FreeLink(h.mem, r, h.free[j], n);
    }
    forall k: nat | k < PerPage(BlockType(r))
      ensures Accounted(h', j, k)
    {
      assert Accounted(h, j, k);
    }
  }

  lemma OtherLiveOk(h: Heap, h': Heap, i: nat, a: nat)
    requires InvPages(h) && InUse(h, i) && OnPage(h, h', i) && Shape(h')
    requires a in h'.live && !(h'.live[a].Sub? && h'.live[a].ref == i)
    requires forall j: nat | InUse(h', j) :: PageAddr(h'.refs[j]) == PageAddr(h.refs[j])
    ensures a in h.live && h.live[a] == h'.live[a] && LiveOk(h', a)
  {
    hide PageAddr, BlockType, SizeOf, Off, PerPage, ListsOk, PageOk, BlockAddr;
    assert !InPage(h, i, a) && SameElsewhere(h, h', i, a);
    assert LiveOk(h, a);
    if h.live[a].Sub? {
      assert SameRecord(h, h', h.live[a].ref);
    }
  }

  /** If only page `i` changed and its own part of the invariant holds, the invariant holds. */
  lemma OnePageChanged(h: Heap, h': Heap, i: nat)
    requires InvPages(h) && InUse(h, i) && OnPage(h, h', i)
    requires Shape(h') ==> PageOk(h', i)
    requires Shape(h') ==> forall a | a in h'.live && h'.live[a].Sub? && h'.live[a].ref == i :: LiveOk(h', a)
    ensures InvPages(h')
  {
    hide PageOk, LiveOk, ListsOk;
    OnPageShape(h, h', i);
    forall j: nat | InUse(h', j)
      ensures PageOk(h', j)
    {
      if j != i {
        OtherPageOk(h, h', i, j);
      }
    }
    forall a | a in h'.live
      ensures LiveOk(h', a)
    {
      if !(h'.live[a].Sub? && h'.live[a].ref == i) {
        OtherLiveOk(h, h', i, a);
      }
    }
    assert BigsApart(h') by {
      forall a, b | a in h'.live && b in h'.live && a != b && h'.live[a].Big? && h'.live[b].Big?
        ensures Apart(a, h'.live[a].npages * PAGE_SIZE, b, h'.live[b].npages * PAGE_SIZE)
      {
        OtherLiveOk(h, h', i, a);
        OtherLiveOk(h, h', i, b);
      }
    }
  }

  // ---- taking a block and putting one back ----

  /** The first free block of page `i` is handed out. */
  ghost function Popped(h: Heap, i: nat): (h': Heap)
    requires Shape(h) && InUse(h, i) && h.free[i] != [] && h.refs[i].nfree > 0
  {
    var r, f := h.refs[i], h.free[i];
    h.(refs := h.refs[i := r.(nfree := r.nfree - 1,
                              freeOffset := if |f| > 1 then Off(BlockType(r), f[1]) else INVALID_OFFSET)],
       free := h.free[i := f[1..]],
       live := h.live[BlockAddr(r, f[0]) := Sub(i, f[0])])
  }

  /** A live address inside a page of blocks is one of its blocks. */
  lemma LiveInPage(h: Heap, i: nat, a: nat)
    requires InvPages(h) && InUse(h, i) && a in h.live && InPage(h, i, a)
    ensures h.live[a].Sub? && h.live[a].ref == i
  {
    hide PageAddr, BlockType, SizeOf, Off, PerPage, ListsOk, PageOk, BlockAddr;
    assert LiveOk(h, a);
    if h.live[a].Sub? {
      var j := h.live[a].ref;
      BlockInPage(h.refs[j], h.live[a].k);
      if j != i {
        PageMultiples(h.refs[i], h.refs[j]);
      }
    }
  }

  lemma AddrInjective(r: PageRef, j: nat, k: nat)
    requires BlockType(r) < NSIZES && j != k
    ensures BlockAddr(r, j) != BlockAddr(r, k)
  {
  }

  lemma PoppedOnPage(h: Heap, i: nat)
    requires InvPages(h) && InUse(h, i) && h.free[i] != [] && h.refs[i].nfree > 0
    ensures OnPage(h, Popped(h, i), i)
    ensures BlockAddr(h.refs[i], h.free[i][0]) !in h.live
  {
    hide PageAddr, BlockType, SizeOf, Off, PerPage, ListsOk, BlockAddr, LiveOk;
    var h' := Popped(h, i);
    var r, f := h.refs[i], h.free[i];
    var a := BlockAddr(r, f[0]);
    assert PageOk(h, i) && FreeLink(h.mem, r, f, 0);
    BlockInPage(r, f[0]);
    forall x | x in h'.live && InPage(h, i, x)
      ensures h'.live[x].Sub? && h'.live[x].ref == i
    {
      if x != a {
        LiveInPage(h, i, x);
      }
    }
    FreeNotLive(h, i, f[0]);
  }

  lemma FreeNotLive(h: Heap, i: nat, k: nat)
    requires InvPages(h) && InUse(h, i) && k in h.free[i] && k < PerPage(BlockType(h.refs[i]))
    ensures BlockAddr(h.refs[i], k) !in h.live
  {
    hide PageAddr, BlockType, SizeOf, Off, PerPage, ListsOk, PageOk, BlockAddr;
    var a := BlockAddr(h.refs[i], k);
    if a in h.live {
      BlockInPage(h.refs[i], k);
      LiveInPage(h, i, a);
      assert LiveOk(h, a);
      AddrInjective(h.refs[i], h.live[a].k, k);
    }
  }

  /** subpage_kmalloc's allocation step. */
  lemma PopKeepsInv(h: Heap, i: nat)
    requires InvPages(h) && InUse(h, i) && h.free[i] != [] && h.refs[i].nfree > 0
    ensures InvPages(Popped(h, i))
    ensures BlockAddr(h.refs[i], h.free[i][0]) !in h.live
  {
    hide PageAddr, BlockType, SizeOf, Off, PerPage, ListsOk, OnPage, Popped;
    PoppedOnPage(h, i);
    var h' := Popped(h, i);
    PoppedPageOk(h, i);
    forall a | a in h'.live && h'.live[a].Sub? && h'.live[a].ref == i
      ensures Shape(h') ==> LiveOk(h', a)
    {
      PoppedLiveOk(h, i, a);
    }
    OnePageChanged(h, h', i);
  }

  lemma PoppedPageOk(h: Heap, i: nat)
    requires InvPages(h) && InUse(h, i) && h.free[i] != [] && h.refs[i].nfree > 0
    ensures var h' := Popped(h, i); Shape(h') ==> PageOk(h', i)
  {
    hide PageAddr, BlockType, SizeOf, Off, PerPage, ListsOk, LiveOk;
    var h' := Popped(h, i);
    var r, f := h.refs[i], h.free[i];
    assert PageOk(h, i);
    SamePab(r, h'.refs[i]);
    if Shape(h') {
      forall j: nat | j < |f| - 1
        ensures FreeLink(h'.mem, h'.refs[i], f[1..], j)
      {
        assert FreeLink(h.mem, r, f, j + 1);
      }
      assert FreeLink(h.mem, r, f, 0);
      forall k: nat | k < PerPage(BlockType(r))
        ensures Accounted(h', i, k)
      {
        assert Accounted(h, i, k);
        if k != f[0] {
          AddrInjective(r, f[0], k);
        }
      }
    }
  }

  lemma PoppedLiveOk(h: Heap, i: nat, a: nat)
    requires InvPages(h) && InUse(h, i) && h.free[i] != [] && h.refs[i].nfree > 0
    requires var h' := Popped(h, i); a in h'.live && h'.live[a].Sub? && h'.live[a].ref == i
    ensures var h' := Popped(h, i); Shape(h') ==> LiveOk(h', a)
  {
    hide PageAddr, BlockType, SizeOf, Off, PerPage, ListsOk;
    var h' := Popped(h, i);
    var r, f := h.refs[i], h.free[i];
    SamePab(r, h'.refs[i]);
    assert PageOk(h, i) && FreeLink(h.mem, r, f, 0);
    if a != BlockAddr(r, f[0]) {
      assert LiveOk(h, a);
    }
  }

  /** Block `k` of page `i` goes to the front of the page's free list; `mem` is memory after that. */
  ghost function Pushed(h: Heap, i: nat, k: nat, mem: map<nat, nat>): (h': Heap)
    requires Shape(h) && InUse(h, i)
  {
    var r := h.refs[i];
    h.(refs := h.refs[i := r.(nfree := r.nfree + 1, freeOffset := Off(BlockType(r), k))],
       free := h.free[i := [k] + h.free[i]],
       live := h.live - {BlockAddr(r, k)},
       mem := mem)
  }

  /** `mem` differs from the heap's memory only inside block `k` of page `i`, whose first word is the link. */
  ghost predicate LinkedIn(h: Heap, i: nat, k: nat, mem: map<nat, nat>)
    requires Shape(h) && InUse(h, i)
  {
    var r, f := h.refs[i], h.free[i];
    var a := BlockAddr(r, k);
    && (forall x: nat | !(a <= x < a + SizeOf(BlockType(r))) :: Load(mem, x) == Load(h.mem, x))
    && Load(mem, a) == if f == [] then NULL else BlockAddr(r, f[0])
  }

  ghost predicate Freeable(h: Heap, i: nat, k: nat)
    requires Shape(h) && InUse(h, i)
  {
    var a := BlockAddr(h.refs[i], k);
    a in h.live && h.live[a] == Sub(i, k)
  }

  lemma FreeableInRange(h: Heap, i: nat, k: nat)
    requires InvPages(h) && InUse(h, i) && Freeable(h, i, k)
    ensures k < PerPage(BlockType(h.refs[i])) && k !in h.free[i]
  {
  }

  lemma PushedOnPage(h: Heap, i: nat, k: nat, mem: map<nat, nat>)
    requires InvPages(h) && InUse(h, i) && Freeable(h, i, k) && LinkedIn(h, i, k, mem)
    ensures OnPage(h, Pushed(h, i, k, mem), i)
  {
    hide PageAddr, BlockType, SizeOf, Off, PerPage, ListsOk, BlockAddr, LiveOk, PageOk;
    var h' := Pushed(h, i, k, mem);
    FreeableInRange(h, i, k);
    BlockInPage(h.refs[i], k);
    forall x | x in h'.live && InPage(h, i, x)
      ensures h'.live[x].Sub? && h'.live[x].ref == i
    {
      LiveInPage(h, i, x);
    }
  }

  /** The first word of another block is outside block `k`. */
  lemma OtherBlock(r: PageRef, j: nat, k: nat)
    requires BlockType(r) < NSIZES && j != k
    ensures var a := BlockAddr(r, k); !(a <= BlockAddr(r, j) < a + SizeOf(BlockType(r)))
  {
  }

  lemma PushedPageOk(h: Heap, i: nat, k: nat, mem: map<nat, nat>)
    requires InvPages(h) && InUse(h, i) && Freeable(h, i, k) && LinkedIn(h, i, k, mem)
    ensures var h' := Pushed(h, i, k, mem); Shape(h') ==> PageOk(h', i)
  {
    hide PageAddr, BlockType, SizeOf, Off, PerPage, ListsOk, LiveOk, BlockAddr;
    var h' := Pushed(h, i, k, mem);
    var r, f := h.refs[i], h.free[i];
    var g := [k] + f;
    FreeableInRange(h, i, k);
    assert PageOk(h, i);
    var r' := h'.refs[i];
    SameAddrs(r, r');
    if Shape(h') {
      forall j: nat | j < |g|
        ensures FreeLink(mem, r', g, j)
      {
        if j > 0 {
          assert FreeLink(h.mem, r, f, j - 1);
          OtherBlock(r, f[j - 1], k);
        }
      }
      assert Distinct(g);
      forall x: nat | x < PerPage(BlockType(r))
        ensures Accounted(h', i, x)
      {
        assert Accounted(h, i, x);
        if x != k {
          AddrInjective(r, x, k);
        }
      }
    }
  }

  lemma SameAddrs(r: PageRef, q: PageRef)
    requires r.pab == q.pab
    ensures PageAddr(r) == PageAddr(q) && BlockType(r) == BlockType(q)
    ensures BlockType(r) < NSIZES ==> forall k: nat :: BlockAddr(r, k) == BlockAddr(q, k)
  {
  }

  lemma PushedLiveOk(h: Heap, i: nat, k: nat, mem: map<nat, nat>, a: nat)
    requires InvPages(h) && InUse(h, i) && Freeable(h, i, k)
    requires var h' := Pushed(h, i, k, mem); a in h'.live && h'.live[a].Sub? && h'.live[a].ref == i
    ensures var h' := Pushed(h, i, k, mem); Shape(h') ==> LiveOk(h', a)
  {
  }

  /** subpage_kfree's step, before the page may be given up. */
  lemma PushKeepsInv(h: Heap, i: nat, k: nat, mem: map<nat, nat>)
    requires InvPages(h) && InUse(h, i) && Freeable(h, i, k) && LinkedIn(h, i, k, mem)
    ensures InvPages(Pushed(h, i, k, mem))
  {
    hide PageAddr, BlockType, SizeOf, Off, PerPage, ListsOk, OnPage, Pushed, LiveOk, PageOk, LinkedIn;
    var h' := Pushed(h, i, k, mem);
    PushedOnPage(h, i, k, mem);
    PushedPageOk(h, i, k, mem);
    forall a | a in h'.live && h'.live[a].Sub? && h'.live[a].ref == i
      ensures Shape(h') ==> LiveOk(h', a)
    {
      PushedLiveOk(h, i, k, mem, a);
    }
    OnePageChanged(h, h', i);
  }

  // ---- counting the blocks of a page ----

  lemma {:induction false} DistinctSize(s: seq<nat>)
    requires Distinct(s)
    ensures |Elements(s)| == |s|
  {
    if s != [] {
      var t := s[..|s| - 1];
      DistinctSize(t);
      assert Elements(s) == Elements(t) + {s[|s| - 1]};
    }
  }

  lemma FreeBelow(h: Heap, i: nat)
    requires InvPages(h) && InUse(h, i)
    ensures Distinct(h.free[i]) && |h.free[i]| == h.refs[i].nfree
    ensures forall k | k in Elements(h.free[i]) :: k < PerPage(BlockType(h.refs[i]))
  {
    hide PageAddr, BlockType, SizeOf, Off, PerPage, ListsOk, BlockAddr;
    assert PageOk(h, i);
    var f := h.free[i];
    forall k | k in Elements(f)
      ensures k < PerPage(BlockType(h.refs[i]))
    {
      var j: nat :| j < |f| && f[j] == k;
      assert FreeLink(h.mem, h.refs[i], f, j);
    }
  }

  lemma LiveMeansNotFull(h: Heap, i: nat, a: nat)
    requires InvPages(h) && InUse(h, i) && a in h.live && h.live[a].Sub? && h.live[a].ref == i
    ensures h.refs[i].nfree < PerPage(BlockType(h.refs[i]))
  {
    hide PageAddr, BlockType, SizeOf, Off, PerPage, ListsOk, BlockAddr;
    assert LiveOk(h, a);
    var k, f := h.live[a].k, h.free[i];
    FreeBelow(h, i);
    DistinctSize(f);
    BelowSize(PerPage(BlockType(h.refs[i])), Elements(f) + {k});
  }

  /** A page's free count says exactly whether any of its blocks is still out. */
  lemma FreeCount(h: Heap, i: nat)
    requires InvPages(h) && InUse(h, i)
    ensures h.refs[i].nfree <= PerPage(BlockType(h.refs[i]))
    ensures h.refs[i].nfree == PerPage(BlockType(h.refs[i])) <==>
            forall a | a in h.live :: !(h.live[a].Sub? && h.live[a].ref == i)
  {
    hide PageAddr, BlockType, SizeOf, Off, PerPage, ListsOk, BlockAddr;
    var n, f := PerPage(BlockType(h.refs[i])), h.free[i];
    FreeBelow(h, i);
    DistinctSize(f);
    BelowSize(n, Elements(f));
    forall a | a in h.live && h.live[a].Sub? && h.live[a].ref == i
      ensures h.refs[i].nfree < n
    {
      LiveMeansNotFull(h, i, a);
    }
    if forall a | a in h.live :: !(h.live[a].Sub? && h.live[a].ref == i) {
      assert PageOk(h, i);
      forall k: nat | k < n
        ensures k in Elements(f)
      {
        assert Accounted(h, i, k);
      }
      AllBelow(n, Elements(f));
    }
  }

  lemma {:induction false} AllBelow(n: nat, s: set<nat>)
    requires forall k: nat | k < n :: k in s
    ensures |s| >= n
  {
    if n > 0 {
      AllBelow(n - 1, s - {n - 1});
      assert s == (s - {n - 1}) + {n - 1};
    }
  }

  // ---- list surgery ----

  /** A new record is put in front. */
  lemma ListCons(next: seq<int>, head: int, s: seq<nat>, i: nat)
    requires IsList(next, head, s) && i < |next| && i !in s
    ensures IsList(next[i := head], i, [i] + s)
  {
    var t, n := [i] + s, next[i := head];
    forall j: nat | j < |t|
      ensures Linked(n, t, j)
    {
      if j > 0 {
        assert Linked(next, s, j - 1) && s[j - 1] in s;
      }
    }
  }

  /** Unlinking the element at position `p`: its predecessor (or the head) takes over its successor. */
  lemma ListRemove(next: seq<int>, head: int, s: seq<nat>, p: nat)
    requires IsList(next, head, s) && p < |s|
    ensures Linked(next, s, p) && (p > 0 ==> Linked(next, s, p - 1))
    ensures var t := s[..p] + s[p + 1..];
            if p == 0 then IsList(next, next[s[0]], t)
            else IsList(next[s[p - 1] := next[s[p]]], head, t)
  {
    assert Linked(next, s, p) && (p > 0 ==> Linked(next, s, p - 1));
    var t := s[..p] + s[p + 1..];
    var n := if p == 0 then next else next[s[p - 1] := next[s[p]]];
    forall j: nat | j < |t|
      ensures t[j] == s[Shift(p, j)]
    {
    }
    forall j: nat | j < |t|
      ensures Linked(n, t, j)
    {
      assert t[j] == s[Shift(p, j)] && Linked(next, s, Shift(p, j));
      assert j + 1 < |t| ==> t[j + 1] == s[Shift(p, j + 1)];
    }
  }

  /** Where the element now at position `j` was before position `p` was removed. */
  function Shift(p: nat, j: nat): (i: nat)
  {
    if j < p then j else j + 1
  }

  lemma RemoveMembers(s: seq<nat>, p: nat, x: nat)
    requires Distinct(s) && p < |s|
    ensures x in s[..p] + s[p + 1..] <==> x in s && x != s[p]
  {
  }

  // ---- pages come and go ----

  /** Two records that differ in their list links only. */
  predicate SameButLinks(r: PageRef, q: PageRef)
  {
    q == r.(nextSame := q.nextSame, nextAll := q.nextAll)
  }

  lemma SameFree(mem: map<nat, nat>, r: PageRef, q: PageRef, f: seq<nat>)
    requires SameButLinks(r, q) && BlockType(r) < NSIZES && FreeOk(mem, r, f)
    ensures BlockType(q) < NSIZES && FreeOk(mem, q, f)
  {
    hide PageAddr, BlockType, SizeOf, Off, PerPage, BlockAddr;
    SameAddrs(r, q);
    forall j: nat | j < |f|
      ensures FreeLink(mem, q, f, j)
    {
      assert FreeLink(mem, r, f, j);
    }
  }

  /** What stays the same on page `j` when other pages are added or removed. */
  ghost predicate PageKept(h: Heap, h': Heap, j: nat)
    requires Shape(h) && Shape(h') && InUse(h, j) && InUse(h', j)
  {
    && SameButLinks(h.refs[j], h'.refs[j]) && h'.free[j] == h.free[j]
    && h.first <= h'.first
    && forall a: nat | InPage(h, j, a) :: SameElsewhere(h, h', j, a)
  }

  lemma KeptPageOk(h: Heap, h': Heap, j: nat)
    requires InvPages(h) && Shape(h') && InUse(h, j) && InUse(h', j) && PageKept(h, h', j)
    ensures PageOk(h', j)
  {
    hide PageAddr, BlockType, SizeOf, Off, PerPage, ListsOk, LiveOk, BlockAddr;
    assert PageOk(h, j);
    var r, q := h.refs[j], h'.refs[j];
    SameAddrs(r, q);
    forall k: nat | k < PerPage(BlockType(r))
      ensures SameElsewhere(h, h', j, BlockAddr(r, k))
    {
      BlockInPage(r, k);
    }
    SameFree(h.mem, r, q, h.free[j]);
    forall n: nat | n < |h.free[j]|
      ensures FreeLink(h'.mem, q, h.free[j], n)
    {
      assert FreeLink(h.mem, r, h.free[j], n);
    }
    forall k: nat | k < PerPage(BlockType(q))
      ensures Accounted(h', j, k)
    {
      assert Accounted(h, j, k);
    }
  }

  /** Where page `i` of blocks of type `blk` starts out: every block free, chained from the last to the first. */
  ghost predicate Threaded(mem0: map<nat, nat>, mem: map<nat, nat>, page: nat, blk: nat)
    requires blk < NSIZES
  {
    && (forall a: nat | !(page <= a < page + PAGE_SIZE) :: Load(mem, a) == Load(mem0, a))
    && forall k: nat | k < PerPage(blk) :: ThreadedAt(mem, page, blk, k)
  }

  predicate ThreadedAt(mem: map<nat, nat>, page: nat, blk: nat, k: nat)
    requires blk < NSIZES
  {
    Load(mem, page + Off(blk, k)) == if k == 0 then NULL else page + Off(blk, k - 1)
  }

  ghost function Downward(n: nat): (s: seq<nat>)
    ensures |s| == n && forall j: nat | j < n :: s[j] == n - 1 - j
  {
    seq(n, j requires 0 <= j < n => n - 1 - j)
  }

  /** The record of a fresh page. */
  function FreshRef(page: nat, blk: nat, nextSame: int, nextAll: int): (r: PageRef)
    requires blk < NSIZES && PerPage(blk) > 0
  {
    PageRef(nextSame, nextAll, MkPab(page, blk), Off(blk, PerPage(blk) - 1), PerPage(blk))
  }

  /** Record `i` takes the next page, as a page of blocks of type `blk`, and goes to the front of both lists. */
  ghost function Added(h: Heap, i: nat, blk: nat, mem: map<nat, nat>): (h': Heap)
    requires Shape(h) && i < NPAGEREFS && blk < NSIZES && PerPage(blk) > 0
  {
    h.(refs := h.refs[i := FreshRef(KSEG0 + h.first, blk, h.bases[blk], h.allbase)],
       inuse := h.inuse[i := true],
       bases := h.bases[blk := i],
       allbase := i,
       mem := mem,
       first := h.first + PAGE_SIZE,
       all := [i] + h.all,
       same := h.same[blk := [i] + h.same[blk]],
       free := h.free[i := Downward(PerPage(blk))])
  }

  ghost predicate CanAdd(h: Heap, i: nat, blk: nat, mem: map<nat, nat>)
  {
    && InvPages(h) && i < NPAGEREFS && !InUse(h, i) && blk < NSIZES && PerPage(blk) > 0
    && Threaded(h.mem, mem, KSEG0 + h.first, blk)
  }

  lemma AddedRecords(h: Heap, i: nat, blk: nat, mem: map<nat, nat>)
    requires CanAdd(h, i, blk, mem)
    ensures var h' := Added(h, i, blk, mem);
            && Shape(h')
            && PageAddr(h'.refs[i]) == KSEG0 + h.first && BlockType(h'.refs[i]) == blk
            && forall j: nat :: InUse(h', j) <==> InUse(h, j) || j == i
  {
    hide PageOk, LiveOk, ListsOk, SizeOf, PerPage, Off, MkPab, PageAddr, BlockType, Threaded;
    var h' := Added(h, i, blk, mem);
    FirstAligned(h);
    PabRoundTrip(KSEG0 + h.first, blk, h'.refs[i]);
  }

  lemma FirstAligned(h: Heap)
    requires h.first % PAGE_SIZE == 0
    ensures (KSEG0 + h.first) % PAGE_SIZE == 0
  {
  }

  lemma AddedLists(h: Heap, i: nat, blk: nat, mem: map<nat, nat>)
    requires CanAdd(h, i, blk, mem)
    ensures var h' := Added(h, i, blk, mem); Shape(h') && ListsOk(h')
  {
    hide PageOk, LiveOk, SizeOf, PerPage, Off, MkPab, PageAddr, BlockType, Threaded, IsList;
    var h' := Added(h, i, blk, mem);
    AddedRecords(h, i, blk, mem);
    assert i !in h.all && SameOk(h, blk) && i !in h.same[blk];
    assert NextAll(h'.refs) == NextAll(h.refs)[i := h.allbase];
    ListCons(NextAll(h.refs), h.allbase, h.all, i);
    assert NextSame(h'.refs) == NextSame(h.refs)[i := h.bases[blk]];
    forall b: nat | b < NSIZES
      ensures SameOk(h', b)
    {
      assert SameOk(h, b) && i !in h.same[b];
      if b == blk {
        ListCons(NextSame(h.refs), h.bases[b], h.same[b], i);
      } else {
        ListElsewhere(NextSame(h.refs), h.bases[b], h.same[b], i, h.bases[blk]);
      }
    }
  }

  /** A list does not notice a link outside it. */
  lemma ListElsewhere(next: seq<int>, head: int, s: seq<nat>, i: nat, x: int)
    requires IsList(next, head, s) && i < |next| && i !in s
    ensures IsList(next[i := x], head, s)
  {
    var n := next[i := x];
    forall j: nat | j < |s|
      ensures Linked(n, s, j)
    {
      assert Linked(next, s, j) && s[j] in s;
    }
  }

  lemma AddedPageOk(h: Heap, i: nat, blk: nat, mem: map<nat, nat>)
    requires CanAdd(h, i, blk, mem)
    ensures var h' := Added(h, i, blk, mem); Shape(h') && PageOk(h', i)
  {
    hide LiveOk, SizeOf, PerPage, Off, MkPab, PageAddr, BlockType, ListsOk;
    var h' := Added(h, i, blk, mem);
    AddedRecords(h, i, blk, mem);
    var f, n, r := h'.free[i], PerPage(blk), h'.refs[i];
    forall j: nat | j < n
      ensures FreeLink(mem, r, f, j)
    {
      assert ThreadedAt(mem, KSEG0 + h.first, blk, f[j]);
    }
    forall k: nat | k < n
      ensures Accounted(h', i, k)
    {
      assert f[n - 1 - k] == k;
    }
  }

  /** Addresses in use lie below the next page. */
  lemma LiveBelow(h: Heap, a: nat)
    requires InvPages(h) && a in h.live
    ensures a < KSEG0 + h.first
  {
    hide SizeOf, PerPage, Off, PageAddr, BlockType, ListsOk;
    assert LiveOk(h, a);
    if h.live[a].Sub? {
      SubInPage(h, a);
      assert PageOk(h, h.live[a].ref);
      BlockInPage(h.refs[h.live[a].ref], h.live[a].k);
    }
  }

  lemma AddedLiveOk(h: Heap, i: nat, blk: nat, mem: map<nat, nat>, a: nat)
    requires CanAdd(h, i, blk, mem) && a in h.live
    ensures var h' := Added(h, i, blk, mem); Shape(h') && LiveOk(h', a)
  {
    hide SizeOf, PerPage, Off, MkPab, PageAddr, BlockType, ListsOk, PageOk, BlockAddr, Threaded;
    AddedRecords(h, i, blk, mem);
    assert LiveOk(h, a);
  }

  lemma AddedKeptPages(h: Heap, i: nat, blk: nat, mem: map<nat, nat>, j: nat)
    requires CanAdd(h, i, blk, mem) && InUse(h, j)
    ensures var h' := Added(h, i, blk, mem); Shape(h') && InUse(h', j) && PageOk(h', j) && PageAddr(h'.refs[j]) != PageAddr(h'.refs[i])
  {
    hide SizeOf, PerPage, Off, MkPab, PageAddr, BlockType, ListsOk, BlockAddr, LiveOk;
    AddedRecords(h, i, blk, mem);
    assert PageOk(h, j);
    KeptPageOk(h, Added(h, i, blk, mem), j);
  }

  /** A fresh page keeps the invariant. */
  lemma AddKeepsInv(h: Heap, i: nat, blk: nat, mem: map<nat, nat>)
    requires CanAdd(h, i, blk, mem)
    ensures InvPages(Added(h, i, blk, mem))
  {
    hide SizeOf, PerPage, Off, MkPab, PageAddr, BlockType, ListsOk, BlockAddr, LiveOk, PageOk, Threaded;
    var h' := Added(h, i, blk, mem);
    AddedRecords(h, i, blk, mem);
    AddedLists(h, i, blk, mem);
    forall j: nat | InUse(h', j)
      ensures PageOk(h', j)
      ensures j != i ==> PageAddr(h'.refs[j]) != PageAddr(h'.refs[i])
    {
      if j == i {
        AddedPageOk(h, i, blk, mem);
      } else {
        AddedKeptPages(h, i, blk, mem, j);
      }
    }
    forall a | a in h'.live
      ensures LiveOk(h', a)
    {
      AddedLiveOk(h, i, blk, mem, a);
    }
  }

  /** Unlinking from the list of the page's own size, then from the list of all pages. */
  function UnlinkSame(refs: seq<PageRef>, i: nat, prev: int): (r: seq<PageRef>)
    requires i < |refs| && prev < |refs|
  {
    if prev < 0 then refs else refs[prev := refs[prev].(nextSame := refs[i].nextSame)]
  }

  function UnlinkAll(refs: seq<PageRef>, i: nat, prev: int): (r: seq<PageRef>)
    requires i < |refs| && prev < |refs|
  {
    if prev < 0 then refs else refs[prev := refs[prev].(nextAll := refs[i].nextAll)]
  }

  /** The predecessor of position `p`. */
  function Before(s: seq<nat>, p: nat): (i: int)
    requires p < |s|
  {
    if p == 0 then NOREF else s[p - 1]
  }

  /** `p` and `q` are the positions of record `i` in its two lists. */
  ghost predicate At(h: Heap, i: nat, p: nat, q: nat)
    requires Shape(h) && InUse(h, i)
  {
    var b := BlockType(h.refs[i]);
    && p < |h.same[b]| && h.same[b][p] == i && Before(h.same[b], p) < NPAGEREFS
    && q < |h.all| && h.all[q] == i && Before(h.all, q) < NPAGEREFS
  }

  /** Record `i` leaves both lists and is marked unused. */
  ghost function Removed(h: Heap, i: nat, p: nat, q: nat): (h': Heap)
    requires Shape(h) && InUse(h, i) && At(h, i, p, q)
  {
    var b := BlockType(h.refs[i]);
    h.(refs := UnlinkAll(UnlinkSame(h.refs, i, Before(h.same[b], p)), i, Before(h.all, q)),
       inuse := h.inuse[i := false],
       bases := if p == 0 then h.bases[b := h.refs[i].nextSame] else h.bases,
       allbase := if q == 0 then h.refs[i].nextAll else h.allbase,
       all := Without(h.all, q),
       same := h.same[b := Without(h.same[b], p)])
  }

  /** Every record in use has its place in both lists. */
  lemma HasPlace(h: Heap, i: nat) returns (p: nat, q: nat)
    requires InvPages(h) && InUse(h, i)
    ensures At(h, i, p, q)
  {
    hide PageOk, LiveOk, BlockType, PageAddr;
    var b := BlockType(h.refs[i]);
    assert SameOk(h, b) && i in h.same[b] && i in h.all;
    p :| p < |h.same[b]| && h.same[b][p] == i;
    q :| q < |h.all| && h.all[q] == i;
    BeforeInRange(NextSame(h.refs), h.bases[b], h.same[b], p);
    BeforeInRange(NextAll(h.refs), h.allbase, h.all, q);
  }

  lemma BeforeInRange(next: seq<int>, head: int, s: seq<nat>, p: nat)
    requires IsList(next, head, s) && p < |s|
    ensures Before(s, p) < |next|
  {
    assert Linked(next, s, p);
    assert p > 0 ==> Linked(next, s, p - 1);
  }

  lemma RemovedRecords(h: Heap, i: nat, p: nat, q: nat)
    requires InvPages(h) && InUse(h, i) && At(h, i, p, q)
    ensures var h' := Removed(h, i, p, q);
            && Shape(h')
            && (forall j: nat | j < NPAGEREFS :: SameButLinks(h.refs[j], h'.refs[j]) && BlockType(h'.refs[j]) == BlockType(h.refs[j]) && PageAddr(h'.refs[j]) == PageAddr(h.refs[j]))
            && (forall j: nat :: InUse(h', j) <==> InUse(h, j) && j != i)
  {
    hide PageOk, LiveOk, ListsOk, PageAddr, BlockType, PerPage, SizeOf;
    var h' := Removed(h, i, p, q);
    forall j: nat | j < NPAGEREFS
      ensures SameButLinks(h.refs[j], h'.refs[j])
      ensures BlockType(h'.refs[j]) == BlockType(h.refs[j]) && PageAddr(h'.refs[j]) == PageAddr(h.refs[j])
    {
      SamePab(h.refs[j], h'.refs[j]);
    }
  }

  lemma RemovedNexts(h: Heap, i: nat, p: nat, q: nat)
    requires InvPages(h) && InUse(h, i) && At(h, i, p, q)
    ensures var h' := Removed(h, i, p, q); var b := BlockType(h.refs[i]);
            && (if p == 0 then NextSame(h'.refs) == NextSame(h.refs)
                else NextSame(h'.refs) == NextSame(h.refs)[h.same[b][p - 1] := NextSame(h.refs)[i]])
            && (if q == 0 then NextAll(h'.refs) == NextAll(h.refs)
                else NextAll(h'.refs) == NextAll(h.refs)[h.all[q - 1] := NextAll(h.refs)[i]])
  {
    hide PageOk, LiveOk, ListsOk, PageAddr, BlockType, PerPage, SizeOf;
  }

  lemma RemovedSame(h: Heap, i: nat, p: nat, q: nat, b: nat)
    requires InvPages(h) && InUse(h, i) && At(h, i, p, q) && b < NSIZES
    ensures var h' := Removed(h, i, p, q); Shape(h') && SameOk(h', b)
  {
    hide PageOk, LiveOk, PageAddr, BlockType, PerPage, SizeOf, IsList, NextSame, NextAll, UnlinkSame, UnlinkAll;
    var h', bi := Removed(h, i, p, q), BlockType(h.refs[i]);
    RemovedRecords(h, i, p, q);
    RemovedNexts(h, i, p, q);
    NextSameAt(h.refs, i);
    assert SameOk(h, b) && SameOk(h, bi);
    if b == bi {
      ListRemove(NextSame(h.refs), h.bases[b], h.same[b], p);
      IsListDistinct(NextSame(h.refs), h.bases[b], h.same[b]);
      forall j: nat
        ensures j in h'.same[b] <==> j in h.same[b] && j != i
      {
        RemoveMembers(h.same[b], p, j);
      }
    } else if p > 0 {
      assert h.same[bi][p - 1] in h.same[bi];
      ListElsewhere(NextSame(h.refs), h.bases[b], h.same[b], h.same[bi][p - 1], NextSame(h.refs)[i]);
    }
  }

  lemma NextSameAt(refs: seq<PageRef>, i: nat)
    requires i < |refs|
    ensures |NextSame(refs)| == |NextAll(refs)| == |refs|
    ensures NextSame(refs)[i] == refs[i].nextSame && NextAll(refs)[i] == refs[i].nextAll
  {
  }

  lemma IsListDistinct(next: seq<int>, head: int, s: seq<nat>)
    requires IsList(next, head, s)
    ensures Distinct(s)
  {
  }

  lemma RemovedLists(h: Heap, i: nat, p: nat, q: nat)
    requires InvPages(h) && InUse(h, i) && At(h, i, p, q)
    ensures var h' := Removed(h, i, p, q); Shape(h') && ListsOk(h')
  {
    hide PageOk, LiveOk, PageAddr, BlockType, PerPage, SizeOf, IsList, NextSame, NextAll, UnlinkSame, UnlinkAll, SameOk;
    var h' := Removed(h, i, p, q);
    RemovedRecords(h, i, p, q);
    RemovedNexts(h, i, p, q);
    ListRemove(NextAll(h.refs), h.allbase, h.all, q);
    IsListDistinct(NextAll(h.refs), h.allbase, h.all);
    NextSameAt(h.refs, i);
    forall j: nat
      ensures j in h'.all <==> j in h.all && j != i
    {
      RemoveMembers(h.all, q, j);
    }
    forall b: nat | b < NSIZES
      ensures SameOk(h', b)
    {
      RemovedSame(h, i, p, q, b);
    }
  }

  lemma RemovedLiveOk(h: Heap, i: nat, p: nat, q: nat, a: nat)
    requires InvPages(h) && InUse(h, i) && At(h, i, p, q) && a in h.live
    requires !(h.live[a].Sub? && h.live[a].ref == i)
    ensures var h' := Removed(h, i, p, q); Shape(h') && LiveOk(h', a)
  {
    hide PageOk, PageAddr, BlockType, PerPage, SizeOf, ListsOk, UnlinkSame, UnlinkAll, BlockAddr, Off, At;
    var h' := Removed(h, i, p, q);
    RemovedRecords(h, i, p, q);
    assert LiveOk(h, a);
    if h.live[a].Sub? {
      SameAddrs(h.refs[h.live[a].ref], h'.refs[h.live[a].ref]);
    }
  }

  lemma RemovedPageOk(h: Heap, i: nat, p: nat, q: nat, j: nat)
    requires InvPages(h) && InUse(h, i) && At(h, i, p, q) && InUse(h, j) && j != i
    ensures var h' := Removed(h, i, p, q); Shape(h') && InUse(h', j) && PageOk(h', j)
  {
    hide PageOk, LiveOk, PageAddr, BlockType, PerPage, SizeOf, ListsOk, UnlinkSame, UnlinkAll, At;
    RemovedRecords(h, i, p, q);
    KeptPageOk(h, Removed(h, i, p, q), j);
  }

  /** A page with no block out can be given up. */
  lemma RemoveKeepsInv(h: Heap, i: nat, p: nat, q: nat)
    requires InvPages(h) && InUse(h, i) && At(h, i, p, q)
    requires forall a | a in h.live :: !(h.live[a].Sub? && h.live[a].ref == i)
    ensures InvPages(Removed(h, i, p, q))
  {
    hide PageOk, LiveOk, PageAddr, BlockType, PerPage, SizeOf, ListsOk, UnlinkSame, UnlinkAll, At;
    var h' := Removed(h, i, p, q);
    RemovedRecords(h, i, p, q);
    RemovedLists(h, i, p, q);
    forall j: nat | InUse(h', j)
      ensures PageOk(h', j)
    {
      RemovedPageOk(h, i, p, q, j);
    }
    forall a | a in h'.live
      ensures LiveOk(h', a)
    {
      RemovedLiveOk(h, i, p, q, a);
    }
  }

  // ---- whole pages, and stores by the owner ----

  /** alloc_kpages: the next `n` pages become one block. */
  ghost function BigAdded(h: Heap, n: nat): (h': Heap)
  {
    h.(first := h.first + n * PAGE_SIZE, live := h.live[KSEG0 + h.first := Big(n)])
  }

  /** The lists and pages do not depend on which blocks are out, nor on where the next page comes from. */
  lemma ListsSame(h: Heap, h': Heap)
    requires Shape(h) && ListsOk(h) && h' == h.(mem := h'.mem, live := h'.live, first := h'.first)
    ensures Shape(h') && ListsOk(h')
  {
    hide BlockType, IsList;
    forall b: nat | b < NSIZES
      ensures SameOk(h', b)
    {
      assert SameOk(h, b);
    }
  }

  lemma BigAddKeepsInv(h: Heap, n: nat)
    requires InvPages(h) && n > 0
    ensures InvPages(BigAdded(h, n)) && KSEG0 + h.first !in h.live
  {
    hide PageAddr, BlockType, PerPage, SizeOf, ListsOk, Off, PageOk, LiveOk;
    var h', x := BigAdded(h, n), KSEG0 + h.first;
    if x in h.live {
      LiveBelow(h, x);
    }
    ListsSame(h, h');
    NextAligned(h.first, n);
    forall j: nat | InUse(h', j)
      ensures PageOk(h', j)
    {
      BigAddedPage(h, n, j);
    }
    forall a | a in h'.live
      ensures LiveOk(h', a)
      ensures a != x && h.live[a].Big? ==> a + h.live[a].npages * PAGE_SIZE <= x
    {
      BigAddedLive(h, n, a);
    }
  }

  lemma BigAddedPage(h: Heap, n: nat, j: nat)
    requires InvPages(h) && n > 0 && InUse(h, j)
    ensures var h' := BigAdded(h, n); Shape(h') && PageOk(h', j)
  {
    hide PageAddr, BlockType, PerPage, SizeOf, ListsOk, Off, LiveOk;
    assert PageOk(h, j);
    KeptPageOk(h, BigAdded(h, n), j);
  }

  lemma BigAddedLive(h: Heap, n: nat, a: nat)
    requires InvPages(h) && n > 0 && a in BigAdded(h, n).live
    ensures var h' := BigAdded(h, n); Shape(h') && LiveOk(h', a)
    ensures a != KSEG0 + h.first && h.live[a].Big? ==> a + h.live[a].npages * PAGE_SIZE <= KSEG0 + h.first
  {
    hide PageAddr, BlockType, PerPage, SizeOf, ListsOk, Off;
    if a == KSEG0 + h.first {
      FirstAligned(h);
      forall i: nat | InUse(h, i)
        ensures Apart(a, n * PAGE_SIZE, PageAddr(h.refs[i]), PAGE_SIZE)
      {
        assert PageOk(h, i);
      }
    } else {
      assert LiveOk(h, a);
    }
  }

  lemma NextAligned(first: nat, n: nat)
    requires first % PAGE_SIZE == 0
    ensures (first + n * PAGE_SIZE) % PAGE_SIZE == 0
  {
  }

  /** kfree of whole pages: the pages themselves are never reused. */
  ghost function BigRemoved(h: Heap, a: nat): (h': Heap)
  {
    h.(live := h.live - {a})
  }

  lemma BigRemoveKeepsInv(h: Heap, a: nat)
    requires InvPages(h) && a in h.live && h.live[a].Big?
    ensures InvPages(BigRemoved(h, a))
  {
    hide PageAddr, BlockType, PerPage, SizeOf, ListsOk, Off, PageOk, LiveOk;
    var h' := BigRemoved(h, a);
    ListsSame(h, h');
    forall j: nat | InUse(h', j)
      ensures PageOk(h', j)
    {
      BigRemovedPage(h, a, j);
    }
    forall x | x in h'.live
      ensures LiveOk(h', x)
    {
      BigRemovedLive(h, a, x);
    }
  }

  lemma BigRemovedPage(h: Heap, a: nat, j: nat)
    requires InvPages(h) && a in h.live && h.live[a].Big? && InUse(h, j)
    ensures var h' := BigRemoved(h, a); Shape(h') && PageOk(h', j)
  {
    hide PageAddr, BlockType, PerPage, SizeOf, ListsOk, Off, LiveOk, BlockAddr;
    var h' := BigRemoved(h, a);
    assert PageOk(h, j);
    forall k: nat | k < PerPage(BlockType(h.refs[j]))
      ensures Accounted(h', j, k)
    {
      assert Accounted(h, j, k);
    }
  }

  lemma BigRemovedLive(h: Heap, a: nat, x: nat)
    requires InvPages(h) && x in h.live
    ensures var h' := BigRemoved(h, a); Shape(h') && (x in h'.live ==> LiveOk(h', x))
  {
    hide PageAddr, BlockType, PerPage, SizeOf, ListsOk, Off;
    assert LiveOk(h, x);
  }

  /** The owner of a live block may store anywhere in it. */
  lemma StoreKeepsInv(h: Heap, a: nat, x: nat, w: nat)
    requires InvPages(h) && a in h.live
    requires a <= x < a + Extent(h, a)
    ensures InvPages(h.(mem := h.mem[x := w]))
  {
    hide PageAddr, BlockType, PerPage, SizeOf, ListsOk, Off, LiveOk, BlockAddr;
    var h' := h.(mem := h.mem[x := w]);
    ListsSame(h, h');
    forall j: nat | InUse(h', j)
      ensures PageOk(h', j)
    {
      assert PageOk(h, j);
      var r, f := h.refs[j], h.free[j];
      forall n: nat | n < |f|
        ensures FreeLink(h'.mem, r, f, n)
      {
        assert FreeLink(h.mem, r, f, n);
        FreeApartFromLive(h, j, f[n], a);
      }
      forall k: nat | k < PerPage(BlockType(r))
        ensures Accounted(h', j, k)
      {
        assert Accounted(h, j, k);
      }
    }
    forall y | y in h'.live
      ensures LiveOk(h', y)
    {
      SameLive(h, h', y);
    }
  }

  lemma SameLive(h: Heap, h': Heap, a: nat)
    requires InvPages(h) && a in h.live && h' == h.(mem := h'.mem)
    ensures Shape(h') && LiveOk(h', a)
  {
    assert LiveOk(h, a);
  }

  /** The first word of a free block is outside every live block. */
  lemma FreeApartFromLive(h: Heap, j: nat, k: nat, a: nat)
    requires InvPages(h) && InUse(h, j) && k < PerPage(BlockType(h.refs[j])) && k in h.free[j]
    requires a in h.live
    ensures !(a <= BlockAddr(h.refs[j], k) < a + Extent(h, a))
  {
    hide PageAddr, BlockType, PerPage, SizeOf, ListsOk, Off, PageOk, BlockAddr;
    assert LiveOk(h, a);
    BlockInPage(h.refs[j], k);
    if h.live[a].Sub? {
      var i := h.live[a].ref;
      BlockInPage(h.refs[i], h.live[a].k);
      if i == j {
        OtherBlock(h.refs[i], k, h.live[a].k);
      } else {
        PageMultiples(h.refs[i], h.refs[j]);
      }
    }
  }
}
