/**
 Whole runs of user programs: stores, loads, forks, new programs and context
 switches in any order. What each program stored is what it finds, whatever
 the others do and however the TLB was filled and flushed; and what each is
 told follows from the operations alone.
 */
module VmRun {
  import opened Basics
  import opened Errno
  import opened Ram
  import opened VmState
  import opened DumbVm

  datatype Op = SwitchTo(x: int) | Store(va: nat, w: nat) | LoadAt(va: nat) | Fork(i: nat) | NewProgram(p: Program)

  /** What a program, or its parent, is told. */
  datatype Reply = NotIssued | Failed | Ok | Word(w: nat)

  /**
   What can be known from outside: who runs; of each space the program whose
   regions it has and the words stored there or inherited by fork; the next
   free frame; the pages used since the last switch to a program.
   */
  datatype Known = Known(runs: int, progs: seq<Program>, words: seq<map<nat, nat>>, first: int, pages: set<nat>)

  function WithWord(m: map<nat, nat>, va: nat, w: nat): (r: map<nat, nat>)
  {
    m[va := w]
  }

  predicate Knows(k: Known, i: int)
  {
    0 <= i < |k.words| && i < |k.progs|
  }

  /** Whether the frames of another space for `p` are there, and the next free one after they were asked for. */
  predicate Fits(k: Known, last: nat, p: Program)
  {
    k.first >= 0 && FramesThere(k.first, last, PagesTouched(p.v1, p.s1), PagesTouched(p.v2, p.s2))
  }

  function Charged(k: Known, last: nat, p: Program): (r: Known)
  {
    k.(first := if k.first >= 0 then FramesTaken(k.first, last, PagesTouched(p.v1, p.s1), PagesTouched(p.v2, p.s2)) else k.first)
  }

  function Grown(k: Known, p: Program, words: map<nat, nat>): (r: Known)
  {
    k.(progs := k.progs + [p], words := k.words + [words])
  }

  /** The bookkeeping of one operation. */
  function Noted(k: Known, last: nat, op: Op, r: Reply): (s: Known)
  {
    match op
    case SwitchTo(x) => if r == Ok then k.(runs := x, pages := if x >= 0 then {} else k.pages) else k
    case Store(va, w) =>
      if r == Ok && Knows(k, k.runs)
      then k.(words := k.words[k.runs := WithWord(k.words[k.runs], va, w)], pages := k.pages + {PageOf(va)})
      else k
    case LoadAt(va) => if r.Word? then k.(pages := k.pages + {PageOf(va)}) else k
    case Fork(i) =>
      if !Knows(k, i) || r == NotIssued then k
      else if r == Ok then Grown(Charged(k, last, k.progs[i]), k.progs[i], k.words[i])
      else Charged(k, last, k.progs[i])
    case NewProgram(p) =>
      if r == NotIssued then k
      else if r == Ok then Grown(Charged(k, last, p), p, map[])
      else Charged(k, last, p)
  }

  function NotedAll(first: nat, last: nat, ops: seq<Op>, rs: seq<Reply>): (k: Known)
    requires |ops| == |rs|
  {
    if ops == [] then Known(-1, [], [], first, {})
    else Noted(NotedAll(first, last, ops[..|ops| - 1], rs[..|rs| - 1]), last, ops[|ops| - 1], rs[|rs| - 1])
  }

  /** An access fails: the program has no such address, or 64 other pages were used since the last switch. */
  predicate Refused(k: Known, va: nat)
    requires Knows(k, k.runs)
  {
    !HasAddress(k.progs[k.runs], va) || (PageOf(va) !in k.pages && |k.pages| == NUM_TLB)
  }

  /** What each operation is told. */
  predicate Answered(k: Known, last: nat, op: Op, r: Reply)
  {
    match op
    case SwitchTo(x) => r == if x == -1 || Knows(k, x) then Ok else NotIssued
    case Store(va, _) => r == if !Knows(k, k.runs) then NotIssued else if Refused(k, va) then Failed else Ok
    case LoadAt(va) =>
      if !Knows(k, k.runs) then r == NotIssued
      else if Refused(k, va) then r == Failed
      else r.Word? && (va in k.words[k.runs] ==> r.w == k.words[k.runs][va])
    case Fork(i) => r == if !Knows(k, i) then NotIssued else if Fits(k, last, k.progs[i]) then Ok else Failed
    case NewProgram(p) => r == if !Placeable(p) then NotIssued else if Fits(k, last, p) then Ok else Failed
  }

  /** The machine is as known. */
  ghost predicate Holds(v: Vm, k: Known)
  {
    && k.runs == v.runs && |k.words| == |k.progs| == |v.spaces| && k.first == v.first && k.pages == TlbPages(v.tlb)
    && (forall i: nat | i < |k.progs| :: Shows(v.spaces[i], k.progs[i]))
    && forall i: nat, va: nat | i < |k.words| && va in k.words[i] :: Seen(v, i, va) == Some(k.words[i][va])
  }

  lemma PageHit(tlb: seq<Entry>, page: nat)
    ensures page in TlbPages(tlb) <==> exists i: nat :: Hit(tlb, page, i)
  {
    if i: nat :| Hit(tlb, page, i) {
      HitPage(tlb, page, i);
    }
    if page in TlbPages(tlb) {
      var i: nat :| i < |tlb| && tlb[i].valid && tlb[i].vpage == page;
      assert Hit(tlb, page, i);
    }
  }

  /** What the machine refuses is what can be known to be refused. */
  lemma RefusedIs(v: Vm, k: Known, va: nat)
    requires Inv(v) && Holds(v, k) && v.runs >= 0
    ensures Knows(k, k.runs) && (Faults(v, va) <==> Refused(k, va))
  {
    hide Translate, HasAddress, PageOf, SpaceOk, AllApart, TlbPages, Seen, Hit;
    assert Shows(v.spaces[v.runs], k.progs[v.runs]);
    AddressesAre(v.spaces[v.runs], k.progs[v.runs], va);
    TlbPagesCount(v.tlb);
    PageHit(v.tlb, PageOf(va));
  }

  /** Stores and loads. */
  method ExecAccess(m: Machine, ghost k: Known, op: Op) returns (r: Reply)
    requires m.Valid() && Holds(m.View(), k) && (op.Store? || op.LoadAt?)
    modifies m, m.tlb
    ensures m.tlb == old(m.tlb) && m.Valid() && m.last == old(m.last) && Holds(m.View(), Noted(k, m.last, op, r))
    ensures Answered(k, m.last, op, r)
  {
    hide Inv, Seen, Faults, Refused, TlbPages, Shows;
    ghost var v := m.View();
    RunsSomewhere(v);
    if m.runs < 0 {
      return NotIssued;
    }
    RefusedIs(v, k, op.va);
    if op.Store? {
      var ok := m.UserStore(op.va, op.w);
      r := if ok then Ok else Failed;
      if !ok {
        SeenSame(v, m.View());
      }
    } else {
      var got := m.UserLoad(op.va);
      LoadsSomething(v, op.va);
      r := if got.Some? then Word(got.value) else Failed;
      SeenSame(v, m.View());
    }
  }

  /** One operation, if it makes sense now. */
  method Exec(m: Machine, ghost k: Known, op: Op) returns (r: Reply)
    requires m.Valid() && Holds(m.View(), k)
    modifies m, m.tlb
    ensures m.tlb == old(m.tlb) && m.Valid() && m.last == old(m.last) && Holds(m.View(), Noted(k, m.last, op, r))
    ensures Answered(k, m.last, op, r)
  {
    hide Inv, Seen, TlbPages, Shows, FramesThere, FramesTaken, PagesTouched;
    ghost var v := m.View();
    RunsSomewhere(v);
    r := NotIssued;
    match op
    case SwitchTo(x) =>
      if -1 <= x < |m.spaces| {
        m.Switch(x);
        SeenSame(v, m.View());
        r := Ok;
      }
    case Store(_, _) => r := ExecAccess(m, k, op);
    case LoadAt(_) => r := ExecAccess(m, k, op);
    case Fork(i) =>
      if i < |m.spaces| {
        PagesShown(m.spaces[i], k.progs[i]);
        var err := m.AsCopy(i);
        r := if err == Success then Ok else Failed;
        if err != Success {
          SeenSame(v, m.View());
        } else {
          ShowsSame(v.spaces[i], m.spaces[|v.spaces|], k.progs[i]);
        }
      }
    case NewProgram(p) =>
      if Placeable(p) {
        var ok := m.Spawn(p);
        r := if ok then Ok else Failed;
        SeenGrown(v, m.View());
      }
  }

  lemma ShowsSame(a: Space, b: Space, p: Program)
    requires Shows(a, p) && SameRegions(a, b)
    ensures Shows(b, p)
  {
  }

  lemma LoadsSomething(v: Vm, va: nat)
    requires 0 <= v.runs < |v.spaces|
    ensures !Faults(v, va) ==> Seen(v, v.runs, va).Some?
  {
  }

  /** What a space shows depends only on the space and on memory. */
  lemma SeenSame(v: Vm, r: Vm)
    requires r.spaces == v.spaces && r.mem == v.mem
    ensures forall i: nat, va: nat | i < |v.spaces| :: Seen(r, i, va) == Seen(v, i, va)
  {
  }

  lemma SeenGrown(v: Vm, r: Vm)
    requires |v.spaces| <= |r.spaces| && r.spaces[..|v.spaces|] == v.spaces && r.mem == v.mem
    ensures forall i: nat, va: nat | i < |v.spaces| :: Seen(r, i, va) == Seen(v, i, va)
  {
  }

  /** Operation `i` of a run is told what follows from the operations before it. */
  predicate AnsweredAt(first: nat, last: nat, ops: seq<Op>, rs: seq<Reply>, i: nat)
    requires i < |ops| == |rs|
  {
    Answered(NotedAll(first, last, ops[..i], rs[..i]), last, ops[i], rs[i])
  }

  /** Every run from boot: each operation is told what it should be, and each space shows what its program stored. */
  method Run(first: nat, last: nat, mem: map<nat, nat>, ops: seq<Op>) returns (m: Machine, rs: seq<Reply>)
    requires RamOk(first, last)
    ensures m.Valid() && |rs| == |ops| && Holds(m.View(), NotedAll(first, last, ops, rs))
    ensures forall i: nat | i < |ops| :: AnsweredAt(first, last, ops, rs, i)
  {
    hide Inv, Seen, Answered, Holds;
    m := new Machine(first, last, mem);
    rs := [];
    NothingKnown(m.View());
    var i := 0;
    while i < |ops|
      invariant i <= |ops| && |rs| == i && m.Valid() && fresh(m) && fresh(m.tlb) && m.last == last
      invariant Holds(m.View(), NotedAll(first, last, ops[..i], rs))
      invariant forall n: nat | n < i :: AnsweredAt(first, last, ops[..i], rs, n)
    {
      ghost var before := rs;
      var r := Exec(m, NotedAll(first, last, ops[..i], rs), ops[i]);
      rs := rs + [r];
      i := i + 1;
      assert ops[..i][..i - 1] == ops[..i - 1] && rs[..i - 1] == before;
      RunGrows(first, last, ops[..i], rs);
    }
    assert ops[..i] == ops;
  }

  lemma NothingKnown(v: Vm)
    requires v.runs == -1 && v.spaces == [] && forall i: nat | i < |v.tlb| :: !v.tlb[i].valid
    ensures Holds(v, Known(-1, [], [], v.first, {}))
  {
  }

  lemma RunGrows(first: nat, last: nat, ops: seq<Op>, rs: seq<Reply>)
    requires |rs| == |ops| > 0
    requires var n := |ops| - 1; forall k: nat | k < n :: AnsweredAt(first, last, ops[..n], rs[..n], k)
    requires AnsweredAt(first, last, ops, rs, |ops| - 1)
    ensures forall k: nat | k < |ops| :: AnsweredAt(first, last, ops, rs, k)
  {
    hide Answered;
    var n := |ops| - 1;
    forall k: nat | k < |ops|
      ensures AnsweredAt(first, last, ops, rs, k)
    {
      if k < n {
        assert ops[..n][..k] == ops[..k] && rs[..n][..k] == rs[..k];
        assert AnsweredAt(first, last, ops[..n], rs[..n], k);
      }
    }
  }
}
