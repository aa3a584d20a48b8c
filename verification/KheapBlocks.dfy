/**
 What callers of the allocator see: a collection of separate arrays of words,
 one per live block. Each elementary change is tied to its effect on that view.
 */
module KheapBlocks {
  import opened Basics
  import opened Ram
  import opened KheapState
  import opened KheapSteps

  ghost function Words(h: Heap, a: nat): (s: seq<nat>)
    requires Shape(h) && a in h.live
  {
    seq(Extent(h, a) / 4, j requires 0 <= j => Load(h.mem, a + 4 * j))
  }

  ghost function Blocks(h: Heap): (m: map<nat, seq<nat>>)
    requires Shape(h)
  {
    map a | a in h.live :: Words(h, a)
  }

  ghost predicate SameBlock(h: Heap, h': Heap, a: nat)
    requires Shape(h) && Shape(h')
  {
    && a in h.live && a in h'.live && Extent(h', a) == Extent(h, a)
    && forall x: nat | a <= x < a + Extent(h, a) :: Load(h'.mem, x) == Load(h.mem, x)
  }

  lemma SameWords(h: Heap, h': Heap, a: nat)
    requires Shape(h) && Shape(h') && SameBlock(h, h', a)
    ensures Words(h', a) == Words(h, a)
  {
  }

  lemma LiveEndsBelow(h: Heap, a: nat)
    requires InvPages(h) && a in h.live
    ensures a + Extent(h, a) <= KSEG0 + h.first
  {
    hide SizeOf, PerPage, Off, PageAddr, BlockType, ListsOk;
    assert LiveOk(h, a);
    if h.live[a].Sub? {
      SubInPage(h, a);
      assert PageOk(h, h.live[a].ref);
    }
  }

  // ---- blocks of pages ----

  lemma PopBlocks(h: Heap, i: nat)
    requires InvPages(h) && InUse(h, i) && h.free[i] != [] && h.refs[i].nfree > 0
    ensures var h', x := Popped(h, i), BlockAddr(h.refs[i], h.free[i][0]);
            && InvPages(h') && x !in h.live && x in h'.live
            && Extent(h', x) == SizeOf(BlockType(h.refs[i]))
            && Blocks(h') == Blocks(h)[x := Words(h', x)]
  {
    hide SizeOf, PerPage, Off, PageAddr, BlockType, ListsOk, PageOk, LiveOk, Words;
    PopKeepsInv(h, i);
    var h', x := Popped(h, i), BlockAddr(h.refs[i], h.free[i][0]);
    SamePab(h.refs[i], h'.refs[i]);
    forall a | a in h.live
      ensures Words(h', a) == Words(h, a)
    {
      SameWords(h, h', a);
    }
  }

  lemma PushBlocks(h: Heap, i: nat, k: nat, mem: map<nat, nat>)
    requires InvPages(h) && InUse(h, i) && Freeable(h, i, k) && LinkedIn(h, i, k, mem)
    ensures var h' := Pushed(h, i, k, mem);
            InvPages(h') && Blocks(h') == Blocks(h) - {BlockAddr(h.refs[i], k)}
  {
    hide SizeOf, PerPage, Off, PageAddr, BlockType, ListsOk, PageOk, LiveOk, Words, BlockAddr;
    PushKeepsInv(h, i, k, mem);
    var h', x := Pushed(h, i, k, mem), BlockAddr(h.refs[i], k);
    SamePab(h.refs[i], h'.refs[i]);
    forall a | a in h'.live
      ensures Words(h', a) == Words(h, a)
    {
      LiveBlocksDisjoint(h, a, x);
      SameWords(h, h', a);
    }
  }

  lemma AddBlocks(h: Heap, i: nat, blk: nat, mem: map<nat, nat>)
    requires CanAdd(h, i, blk, mem)
    ensures InvPages(Added(h, i, blk, mem)) && Blocks(Added(h, i, blk, mem)) == Blocks(h)
  {
    hide SizeOf, PerPage, Off, PageAddr, BlockType, ListsOk, PageOk, Words, BlockAddr;
    AddKeepsInv(h, i, blk, mem);
    var h' := Added(h, i, blk, mem);
    forall a | a in h.live
      ensures Words(h', a) == Words(h, a)
    {
      assert LiveOk(h, a);
      LiveEndsBelow(h, a);
      SameWords(h, h', a);
    }
  }

  lemma RemoveBlocks(h: Heap, i: nat, p: nat, q: nat)
    requires InvPages(h) && InUse(h, i) && At(h, i, p, q)
    requires forall a | a in h.live :: !(h.live[a].Sub? && h.live[a].ref == i)
    ensures InvPages(Removed(h, i, p, q)) && Blocks(Removed(h, i, p, q)) == Blocks(h)
  {
    hide SizeOf, PerPage, Off, PageAddr, BlockType, ListsOk, PageOk, Words, BlockAddr, UnlinkAll, UnlinkSame;
    RemoveKeepsInv(h, i, p, q);
    RemovedRecords(h, i, p, q);
    var h' := Removed(h, i, p, q);
    forall a | a in h.live
      ensures Words(h', a) == Words(h, a)
    {
      assert LiveOk(h, a);
      SameWords(h, h', a);
    }
  }

  // ---- whole pages and stores ----

  lemma BigAddBlocks(h: Heap, n: nat)
    requires InvPages(h) && n > 0
    ensures var h', x := BigAdded(h, n), KSEG0 + h.first;
            && InvPages(h') && x !in h.live && x in h'.live && Extent(h', x) == n * PAGE_SIZE
            && Blocks(h') == Blocks(h)[x := Words(h', x)]
  {
    hide SizeOf, PerPage, Off, PageAddr, BlockType, ListsOk, PageOk, LiveOk, Words;
    BigAddKeepsInv(h, n);
    var h' := BigAdded(h, n);
    forall a | a in h.live
      ensures Words(h', a) == Words(h, a)
    {
      SameWords(h, h', a);
    }
  }

  lemma BigRemoveBlocks(h: Heap, a: nat)
    requires InvPages(h) && a in h.live && h.live[a].Big?
    ensures InvPages(BigRemoved(h, a)) && Blocks(BigRemoved(h, a)) == Blocks(h) - {a}
  {
    hide SizeOf, PerPage, Off, PageAddr, BlockType, ListsOk, PageOk, LiveOk, Words;
    BigRemoveKeepsInv(h, a);
    var h' := BigRemoved(h, a);
    forall x | x in h'.live
      ensures Words(h', x) == Words(h, x)
    {
      SameWords(h, h', x);
    }
  }

  /** The word stored is the only word of any block that changes. */
  lemma StoreBlocks(h: Heap, a: nat, j: nat, w: nat)
    requires InvPages(h) && a in h.live && 4 * j + 4 <= Extent(h, a)
    ensures var h' := h.(mem := h.mem[a + 4 * j := w]);
            && InvPages(h') && j < |Words(h, a)|
            && Blocks(h') == Blocks(h)[a := Words(h, a)[j := w]]
  {
    hide SizeOf, PerPage, Off, PageAddr, BlockType, ListsOk, PageOk, LiveOk, BlockAddr;
    var h' := h.(mem := h.mem[a + 4 * j := w]);
    StoreKeepsInv(h, a, a + 4 * j, w);
    forall x | x in h.live
      ensures Words(h', x) == if x == a then Words(h, a)[j := w] else Words(h, x)
    {
      if x != a {
        LiveBlocksDisjoint(h, a, x);
        SameWords(h, h', x);
      } else {
        assert Extent(h', a) == Extent(h, a);
      }
    }
  }

  // ---- which pages are listed ----

  /** The pages on the lists are exactly the pages with a block still out. */
  lemma ListedIffOccupied(h: Heap, i: nat)
    requires Inv(h)
    ensures i in h.all <==> exists a :: a in h.live && h.live[a].Sub? && h.live[a].ref == i
    ensures i in h.all <==> InUse(h, i)
    ensures i in h.all <==> exists b: nat :: b < NSIZES && i in h.same[b]
  {
    hide SizeOf, PerPage, Off, PageAddr, BlockType, PageOk, BlockAddr, IsList;
    assert i in h.all <==> InUse(h, i);
    if InUse(h, i) {
      FreeCount(h, i);
      assert SameOk(h, BlockType(h.refs[i]));
    }
    forall a | a in h.live && h.live[a].Sub? && h.live[a].ref == i
      ensures InUse(h, i)
    {
      assert LiveOk(h, a);
    }
    forall b: nat | b < NSIZES && i in h.same[b]
      ensures InUse(h, i)
    {
      assert SameOk(h, b);
    }
  }

  /** No page record is on two per-size lists. */
  lemma SizeListsDisjoint(h: Heap, i: nat, b: nat, c: nat)
    requires Inv(h) && b < NSIZES && c < NSIZES && i in h.same[b] && i in h.same[c]
    ensures b == c
  {
    hide PageOk, LiveOk, BlockType;
    assert SameOk(h, b) && SameOk(h, c);
  }

  /** Taking a block leaves every page with a block out, if only page `i` could lack one. */
  lemma PopInv(h: Heap, i: nat)
    requires InvPages(h) && InUse(h, i) && h.free[i] != [] && h.refs[i].nfree > 0
    requires forall j: nat | InUse(h, j) && j != i :: h.refs[j].nfree < PerPage(BlockType(h.refs[j]))
    ensures Inv(Popped(h, i))
  {
    hide SizeOf, PerPage, Off, PageAddr, BlockType, ListsOk, PageOk, LiveOk, BlockAddr;
    PopKeepsInv(h, i);
    FreeCount(h, i);
    SamePab(h.refs[i], Popped(h, i).refs[i]);
  }
}
