/**
 Whole runs of a client that allocates, stores and frees in any order. The
 client's own record of what it stored where is kept without looking at the
 heap, and agrees with the heap after every run.
 */
module KheapRun {
  import opened Basics
  import opened Ram
  import opened KheapState
  import opened KheapBlocks
  import opened Kheap

  /** Calls name earlier allocations by their position in the run. */
  datatype Op = Malloc(sz: nat) | Free(k: nat) | Put(k: nat, j: nat, w: nat) | Get(k: nat, j: nat)

  /** What the client is told: the address (NULL for none), or the word read. */
  datatype Reply = NotIssued | Got(addr: nat) | Word(w: nat) | Done

  /** What the client knows of one allocation: its address, the size asked for, the words stored. */
  datatype Slot = Gone | Held(addr: nat, size: nat, put: map<nat, nat>)

  predicate InRange(slots: seq<Slot>, k: nat, j: nat)
  {
    k < |slots| && slots[k].Held? && 4 * j + 4 <= slots[k].size
  }

  /** The client's bookkeeping. */
  function Noted(slots: seq<Slot>, op: Op, r: Reply): (s: seq<Slot>)
  {
    match op
    case Malloc(sz) => slots + [if r.Got? && r.addr != NULL then Held(r.addr, sz, map[]) else Gone]
    case Free(k) => if k < |slots| then slots[k := Gone] else slots
    case Put(k, j, w) => if InRange(slots, k, j) then slots[k := slots[k].(put := slots[k].put[j := w])] else slots
    case Get(_, _) => slots
  }

  function NotedAll(ops: seq<Op>, rs: seq<Reply>): (s: seq<Slot>)
    requires |ops| == |rs|
  {
    if ops == [] then []
    else Noted(NotedAll(ops[..|ops| - 1], rs[..|rs| - 1]), ops[|ops| - 1], rs[|rs| - 1])
  }

  /** No page of the class has a free block, and no page can be added. */
  ghost predicate NoBlock(h: Heap, last: nat, blk: nat)
    requires blk < |h.same|
  {
    && (forall i: nat | i in h.same[blk] && i < |h.refs| :: h.refs[i].nfree == 0)
    && ((forall i: nat | i < |h.inuse| :: h.inuse[i]) || h.first + PAGE_SIZE > last)
  }

  ghost predicate OutOfMemory(h: Heap, last: nat, sz: nat)
    requires |h.same| == NSIZES
  {
    if sz >= LARGEST_SUBPAGE_SIZE then h.first + PagesFor(sz) * PAGE_SIZE > last
    else exists blk: nat :: IsClass(sz, blk) && NoBlock(h, last, blk)
  }

  /**
   What each call is told. Memory is refused exactly when there is none, a
   word stored is read back, and requests that would wrap around, frees of
   nothing and accesses outside the allocation are not issued.
   */
  ghost predicate Answered(h: Heap, last: nat, slots: seq<Slot>, op: Op, r: Reply)
    requires |h.same| == NSIZES
  {
    match op
    case Malloc(sz) => if Servable(sz, h.first) then r.Got? && (r.addr == NULL <==> OutOfMemory(h, last, sz)) else r == NotIssued
    case Free(k) => r == if k < |slots| && slots[k].Held? then Done else NotIssued
    case Put(k, j, _) => r == if InRange(slots, k, j) then Done else NotIssued
    case Get(k, j) => if InRange(slots, k, j) then r.Word? && (j in slots[k].put ==> r.w == slots[k].put[j]) else r == NotIssued
  }

  /** The block of one allocation is there, large enough, and holds the words stored. */
  ghost predicate Kept(blocks: map<nat, seq<nat>>, s: Slot)
  {
    s.Held? ==>
      && s.addr in blocks && s.size <= 4 * |blocks[s.addr]|
      && forall j | j in s.put :: j < |blocks[s.addr]| && blocks[s.addr][j] == s.put[j]
  }

  ghost predicate Holds(slots: seq<Slot>, k: nat, a: nat)
  {
    k < |slots| && slots[k].Held? && slots[k].addr == a
  }

  /** Every allocation not freed is a block of its own, and there are no other blocks. */
  ghost predicate Agree(blocks: map<nat, seq<nat>>, slots: seq<Slot>)
  {
    && (forall k: nat | k < |slots| :: Kept(blocks, slots[k]))
    && (forall k: nat, n: nat, a | Holds(slots, k, a) && Holds(slots, n, a) :: k == n)
    && (forall a | a in blocks :: exists k: nat :: Holds(slots, k, a))
  }

  lemma AgreeMalloc(blocks: map<nat, seq<nat>>, slots: seq<Slot>, a: nat, sz: nat, c: seq<nat>)
    requires Agree(blocks, slots) && a !in blocks && sz <= 4 * |c|
    ensures Agree(blocks[a := c], slots + [Held(a, sz, map[])])
  {
    var s', b' := slots + [Held(a, sz, map[])], blocks[a := c];
    forall k: nat | k < |s'|
      ensures Kept(b', s'[k])
    {
      if k < |slots| {
        assert Kept(blocks, slots[k]);
      }
    }
    forall x | x in b'
      ensures exists k: nat :: Holds(s', k, x)
    {
      if x == a {
        assert Holds(s', |slots|, x);
      } else {
        var k: nat :| Holds(slots, k, x);
        assert Holds(s', k, x);
      }
    }
    forall k: nat, n: nat, x | Holds(s', k, x) && Holds(s', n, x)
      ensures k == n
    {
      assert k < |slots| ==> Holds(slots, k, x) && Kept(blocks, slots[k]);
      assert n < |slots| ==> Holds(slots, n, x) && Kept(blocks, slots[n]);
    }
  }

  lemma AgreeNull(blocks: map<nat, seq<nat>>, slots: seq<Slot>)
    requires Agree(blocks, slots)
    ensures Agree(blocks, slots + [Gone])
  {
    var s' := slots + [Gone];
    forall k: nat, x
      ensures Holds(s', k, x) <==> Holds(slots, k, x)
    {
    }
    forall k: nat | k < |s'|
      ensures Kept(blocks, s'[k])
    {
      if k < |slots| {
        assert Kept(blocks, slots[k]);
      }
    }
  }

  lemma AgreeFree(blocks: map<nat, seq<nat>>, slots: seq<Slot>, k: nat)
    requires Agree(blocks, slots) && k < |slots| && slots[k].Held?
    ensures Agree(blocks - {slots[k].addr}, slots[k := Gone])
  {
    var s', b', a := slots[k := Gone], blocks - {slots[k].addr}, slots[k].addr;
    assert Holds(slots, k, a);
    forall n: nat, x
      ensures Holds(s', n, x) <==> Holds(slots, n, x) && n != k
    {
    }
    forall n: nat | n < |s'|
      ensures Kept(b', s'[n])
    {
      if n != k {
        assert Kept(blocks, slots[n]);
        if slots[n].Held? {
          assert Holds(slots, n, slots[n].addr);
        }
      }
    }
    forall x | x in b'
      ensures exists n: nat :: Holds(s', n, x)
    {
      var n: nat :| Holds(slots, n, x);
      assert Holds(s', n, x);
    }
  }

  function PutWord(s: seq<nat>, j: nat, w: nat): (r: seq<nat>)
    requires j < |s|
  {
    s[j := w]
  }

  lemma AgreePut(blocks: map<nat, seq<nat>>, slots: seq<Slot>, k: nat, j: nat, w: nat)
    requires Agree(blocks, slots) && k < |slots| && slots[k].Held? && 4 * j + 4 <= slots[k].size
    ensures slots[k].addr in blocks && j < |blocks[slots[k].addr]|
    ensures var a := slots[k].addr;
            Agree(blocks[a := PutWord(blocks[a], j, w)], slots[k := slots[k].(put := slots[k].put[j := w])])
  {
    assert Kept(blocks, slots[k]);
    var a := slots[k].addr;
    var s', b' := slots[k := slots[k].(put := slots[k].put[j := w])], blocks[a := PutWord(blocks[a], j, w)];
    assert Holds(slots, k, a);
    forall n: nat, x
      ensures Holds(s', n, x) <==> Holds(slots, n, x)
    {
    }
    forall n: nat | n < |s'|
      ensures Kept(b', s'[n])
    {
      assert Kept(blocks, slots[n]);
      if n != k && slots[n].Held? {
        assert Holds(slots, n, slots[n].addr);
      }
    }
    forall x | x in b'
      ensures exists n: nat :: Holds(s', n, x)
    {
      var n: nat :| Holds(slots, n, x);
      assert Holds(s', n, x);
    }
  }

  /** What agreement means for two allocations: separate, aligned, and large enough. */
  lemma HeldApart(h: Heap, slots: seq<Slot>, k: nat, n: nat)
    requires Inv(h) && Agree(Blocks(h), slots)
    requires k < |slots| && n < |slots| && k != n && slots[k].Held? && slots[n].Held?
    ensures Apart(slots[k].addr, slots[k].size, slots[n].addr, slots[n].size)
    ensures slots[k].addr % 16 == 0
  {
    hide SizeOf, Off, PerPage, PageOk, ListsOk, PageAddr, BlockType, LiveOk, InvPages;
    InvPagesOf(h);
    assert Kept(Blocks(h), slots[k]) && Kept(Blocks(h), slots[n]);
    assert Holds(slots, k, slots[k].addr) && Holds(slots, n, slots[n].addr);
    LiveBlocksDisjoint(h, slots[k].addr, slots[n].addr);
  }

  /** kmalloc, if the request does not wrap around. */
  method StepMalloc(kh: Kheap, slots: seq<Slot>, sz: nat) returns (s: seq<Slot>, r: Reply)
    requires kh.Valid() && Agree(Blocks(kh.St()), slots)
    modifies kh, kh.refs, kh.inuse, kh.bases
    ensures kh.refs == old(kh.refs) && kh.inuse == old(kh.inuse) && kh.bases == old(kh.bases) && kh.last == old(kh.last)
    ensures kh.Valid() && Agree(Blocks(kh.St()), s) && s == Noted(slots, Malloc(sz), r)
    ensures |old(kh.St()).same| == NSIZES && Answered(old(kh.St()), kh.last, slots, Malloc(sz), r)
  {
    hide Inv, InvPages, Agree, Extent, Words, Blocks, Servable, Answered;
    ghost var h := kh.St();
    InvPagesOf(h);
    if !Servable(sz, kh.first) {
      s, r := slots + [Gone], NotIssued;
      AgreeNull(Blocks(h), slots);
      AnswerMalloc(h, kh.last, slots, sz, r);
      return;
    }
    ExhaustedIs(kh, sz);
    var got := kh.Kmalloc(sz);
    r := Got(got);
    AnswerMalloc(h, kh.last, slots, sz, r);
    if got != NULL {
      s := slots + [Held(got, sz, map[])];
      InvPagesOf(kh.St());
      BlockSize(kh.St(), got);
      InBlocks(h, got);
      AgreeMalloc(Blocks(h), slots, got, sz, Words(kh.St(), got));
    } else {
      s := slots + [Gone];
      AgreeNull(Blocks(h), slots);
    }
  }

  lemma AnswerMalloc(h: Heap, last: nat, slots: seq<Slot>, sz: nat, r: Reply)
    requires |h.same| == NSIZES
    requires if Servable(sz, h.first) then r.Got? && (r.addr == NULL <==> OutOfMemory(h, last, sz)) else r == NotIssued
    ensures Answered(h, last, slots, Malloc(sz), r)
  {
  }

  lemma ExhaustedIs(kh: Kheap, sz: nat)
    requires |kh.same| == NSIZES
    ensures kh.Exhausted(sz) <==> OutOfMemory(kh.St(), kh.last, sz)
  {
    forall blk: nat | blk < NSIZES
      ensures kh.ClassFull(blk) <==> NoBlock(kh.St(), kh.last, blk)
    {
    }
  }

  /** One call of the client. */
  method Step(kh: Kheap, slots: seq<Slot>, op: Op) returns (s: seq<Slot>, r: Reply)
    requires kh.Valid() && Agree(Blocks(kh.St()), slots)
    modifies kh, kh.refs, kh.inuse, kh.bases
    ensures kh.refs == old(kh.refs) && kh.inuse == old(kh.inuse) && kh.bases == old(kh.bases) && kh.last == old(kh.last)
    ensures kh.Valid() && Agree(Blocks(kh.St()), s) && s == Noted(slots, op, r)
    ensures |old(kh.St()).same| == NSIZES && Answered(old(kh.St()), kh.last, slots, op, r)
  {
    hide Inv, InvPages, Agree, Extent, Words, Blocks, Servable;
    r := NotIssued;
    s := slots;
    InvPagesOf(kh.St());
    match op
    case Malloc(sz) =>
      s, r := StepMalloc(kh, slots, sz);
    case Free(k) =>
      if k < |slots| && slots[k].Held? {
        AgreeLive(kh.St(), slots, k);
        AgreeFree(Blocks(kh.St()), slots, k);
        kh.Kfree(slots[k].addr);
        s, r := slots[k := Gone], Done;
      }
    case Put(k, j, w) =>
      if InRange(slots, k, j) {
        AgreeLive(kh.St(), slots, k);
        AgreePut(Blocks(kh.St()), slots, k, j, w);
        BlockIs(kh.St(), slots[k].addr);
        kh.Store(slots[k].addr, j, w);
        s, r := slots[k := slots[k].(put := slots[k].put[j := w])], Done;
      }
    case Get(k, j) =>
      if InRange(slots, k, j) {
        WordIs(kh.St(), slots, k, j);
        r := Word(Load(kh.mem, slots[k].addr + 4 * j));
      }
  }

  /** A word the client stored is the one in memory. */
  lemma WordIs(h: Heap, slots: seq<Slot>, k: nat, j: nat)
    requires InvPages(h) && Shape(h) && Agree(Blocks(h), slots) && InRange(slots, k, j)
    ensures j in slots[k].put ==> Load(h.mem, slots[k].addr + 4 * j) == slots[k].put[j]
  {
    hide InvPages, Extent;
    AgreeLive(h, slots, k);
    assert Kept(Blocks(h), slots[k]);
    BlockIs(h, slots[k].addr);
  }

  lemma InBlocks(h: Heap, a: nat)
    requires Shape(h)
    ensures a in Blocks(h) <==> a in h.live
  {
  }

  lemma BlockIs(h: Heap, a: nat)
    requires Shape(h) && a in h.live
    ensures a in Blocks(h) && Blocks(h)[a] == Words(h, a)
  {
  }

  /** Blocks are a whole number of words. */
  lemma BlockSize(h: Heap, a: nat)
    requires InvPages(h) && a in h.live
    ensures 4 * |Words(h, a)| == Extent(h, a)
  {
    hide PageAddr, BlockType, ListsOk, PageOk;
    assert LiveOk(h, a);
    if h.live[a].Sub? {
      SizeWords(BlockType(h.refs[h.live[a].ref]));
    }
  }

  lemma SizeWords(blk: nat)
    requires blk < NSIZES
    ensures SizeOf(blk) % 4 == 0
  {
  }

  lemma AgreeLive(h: Heap, slots: seq<Slot>, k: nat)
    requires InvPages(h) && Shape(h) && Agree(Blocks(h), slots) && k < |slots| && slots[k].Held?
    ensures slots[k].addr in h.live && slots[k].size <= Extent(h, slots[k].addr) && slots[k].addr != NULL
  {
    hide InvPages, Extent, LiveOk;
    assert Kept(Blocks(h), slots[k]);
    BlockSize(h, slots[k].addr);
    LiveNotNull(h, slots[k].addr);
  }

  lemma LiveNotNull(h: Heap, a: nat)
    requires InvPages(h) && a in h.live
    ensures a != NULL
  {
    hide PageAddr, BlockType, ListsOk, Off, PerPage;
    assert LiveOk(h, a);
    if h.live[a].Sub? {
      assert PageOk(h, h.live[a].ref);
    }
  }

  /** What holds before call `i` of a run and what it is told. */
  ghost predicate RunAt(trace: seq<Heap>, last: nat, ops: seq<Op>, rs: seq<Reply>, i: nat)
    requires i < |ops| == |rs| && i < |trace|
  {
    var slots := NotedAll(ops[..i], rs[..i]);
    && Inv(trace[i]) && Shape(trace[i]) && Agree(Blocks(trace[i]), slots)
    && |trace[i].same| == NSIZES && Answered(trace[i], last, slots, ops[i], rs[i])
  }

  /** A whole run from boot: at every moment the heap holds exactly what the client noted, and answers as it should. */
  method Run(first: nat, last: nat, mem: map<nat, nat>, ops: seq<Op>)
    returns (kh: Kheap, slots: seq<Slot>, rs: seq<Reply>, ghost trace: seq<Heap>)
    requires RamOk(first, last)
    ensures kh.Valid() && |rs| == |ops| && slots == NotedAll(ops, rs)
    ensures Agree(Blocks(kh.St()), slots)
    ensures |trace| == |ops| && forall i: nat | i < |ops| :: RunAt(trace, last, ops, rs, i)
  {
    hide ListsOk, PageOk, LiveOk, PagesApart, BigsApart, PerPage, BlockType, Agree, Blocks, Answered;
    kh := new Kheap(first, last, mem);
    slots, rs, trace := [], [], [];
    AgreeBoot();
    var i := 0;
    while i < |ops|
      invariant i <= |ops| && |rs| == |trace| == i && kh.Valid() && kh.last == last
      invariant fresh(kh) && fresh(kh.refs) && fresh(kh.inuse) && fresh(kh.bases)
      invariant Agree(Blocks(kh.St()), slots) && slots == NotedAll(ops[..i], rs)
      invariant forall n: nat | n < i :: RunAt(trace, last, ops[..i], rs, n)
    {
      ghost var h, rsBefore, traceBefore := kh.St(), rs, trace;
      var r;
      slots, r := Step(kh, slots, ops[i]);
      rs := rs + [r];
      trace := trace + [h];
      i := i + 1;
      assert ops[..i][..i - 1] == ops[..i - 1] && rs[..i - 1] == rsBefore && trace[..i - 1] == traceBefore;
      RunGrows(trace, last, ops[..i], rs);
    }
    assert ops[..i] == ops;
  }

  lemma RunGrows(trace: seq<Heap>, last: nat, ops: seq<Op>, rs: seq<Reply>)
    requires |rs| == |trace| == |ops| > 0
    requires var n := |ops| - 1; forall k: nat | k < n :: RunAt(trace[..n], last, ops[..n], rs[..n], k)
    requires RunAt(trace, last, ops, rs, |ops| - 1)
    ensures forall k: nat | k < |ops| :: RunAt(trace, last, ops, rs, k)
  {
    hide Inv, Shape, Agree, Blocks, Answered;
    var n := |ops| - 1;
    forall k: nat | k < |ops|
      ensures RunAt(trace, last, ops, rs, k)
    {
      if k < n {
        assert ops[..n][..k] == ops[..k] && rs[..n][..k] == rs[..k];
        assert RunAt(trace[..n], last, ops[..n], rs[..n], k);
      }
    }
  }

  lemma AgreeBoot()
    ensures Agree(map[], [])
  {
  }
}
