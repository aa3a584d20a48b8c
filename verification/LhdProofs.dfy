/** Why every interleaving of disk clients, card and interrupt handler keeps its promises. */
module LhdProofs {
  import opened Errno
  import opened Lhd

  // ---- the record of finished operations ----

  lemma LatestNext(start: seq<Data>, log: seq<Op>, op: Op, x: nat)
    requires x < |start|
    ensures Latest(start, log + [op], x) ==
            if op.write && op.code == Success && op.sector == x then op.data else Latest(start, log, x)
  {
  }

  lemma ReadsRightNext(start: seq<Data>, log: seq<Op>, op: Op)
    requires ReadsRight(start, log)
    requires !op.write && op.code == Success ==> op.sector < |start| && op.data == Latest(start, log, op.sector)
    ensures ReadsRight(start, log + [op])
  {
    hide Latest;
    var l := log + [op];
    forall k: nat | k < |l|
      ensures ReadRight(start, l, k)
    {
      assert l[..k] == log[..k];
      if k < |log| {
        assert ReadRight(start, log, k);
      } else {
        assert log[..k] == log;
      }
    }
  }

  // ---- steps that concern one thread ----

  /** The log only grows. */
  predicate Later(s: Disk, r: Disk)
  {
    |s.log| <= |r.log| && r.log[..|s.log|] == s.log && |r.sectors| == |s.sectors|
  }

  lemma ClientStays(s: Disk, r: Disk, c: Client, t: nat)
    requires Later(s, r) && ClientOk(s, c, t)
    ensures ClientOk(r, c, t)
  {
    forall j: nat | j < |c.marks|
      ensures Served(r, c, t, j)
    {
      assert Served(s, c, t, j);
      assert r.log[..|s.log|][c.marks[j]] == r.log[c.marks[j]];
    }
  }

  /** A thread moves on to another point of the same sector, or gives up with an error. */
  lemma ClientMoves(s: Disk, r: Disk, c: Client, d: Client, t: nat)
    requires Later(s, r) && ClientOk(s, c, t) && d == c.(phase := d.phase, res := d.res)
    requires c.phase != Out && c.phase != Copied && d.phase != Copied && (d.phase == Out ==> d.res != Success)
    ensures ClientOk(r, d, t)
  {
    ClientStays(s, r, c, t);
    forall j: nat | j < |d.marks|
      ensures Served(r, d, t, j)
    {
      assert Served(r, c, t, j);
    }
  }

  ghost predicate CardFits(s: Disk)
    requires OneOwner(s)
  {
    if s.owner == -1 then s.status == Idle && s.done == 0 else CardOk(s, s.clients[s.owner], s.owner)
  }

  /** A step that changes thread `t` alone. */
  lemma OneThread(s: Disk, r: Disk, t: nat)
    requires Inv(s) && t < |s.clients| && |r.clients| == |s.clients| && r.clients == s.clients[t := r.clients[t]]
    requires Later(s, r) && OneOwner(r) && Contents(r) && ClientOk(r, r.clients[t], t) && CardFits(r)
    ensures Inv(r)
  {
    hide OneOwner, Contents, ClientOk, CardOk;
    forall x: nat | x < |r.clients|
      ensures ClientOk(r, r.clients[x], x)
    {
      if x != t {
        ClientStays(s, r, s.clients[x], x);
      }
    }
  }

  lemma SubmitKeeps(s: Disk, t: nat, req: Req)
    requires Inv(s) && t < |s.clients|
    ensures Inv(Submit(s, t, req))
  {
    hide Latest, ReadsRight;
    var r := Submit(s, t, req);
    if r != s {
      assert ClientOk(s, s.clients[t], t);
      OneThread(s, r, t);
    }
  }

  lemma PClearKeeps(s: Disk, t: nat)
    requires Inv(s) && t < |s.clients|
    ensures Inv(PClear(s, t))
  {
    hide Latest, ReadsRight;
    var r, c := PClear(s, t), s.clients[t];
    if r != s {
      assert ClientOk(s, c, t);
      ClientMoves(s, r, c, r.clients[t], t);
      OneThread(s, r, t);
    }
  }

  lemma FillKeeps(s: Disk, t: nat, readable: bool)
    requires Inv(s) && t < |s.clients|
    ensures Inv(Fill(s, t, readable))
  {
    hide Latest, ReadsRight;
    var r, c := Fill(s, t, readable), s.clients[t];
    assert ClientOk(s, c, t);
    if r != s {
      ClientMoves(s, r, c, r.clients[t], t);
      OneThread(s, r, t);
    }
  }

  lemma AimKeeps(s: Disk, t: nat)
    requires Inv(s) && t < |s.clients|
    ensures Inv(Aim(s, t)) && Inv(Start(s, t))
  {
    hide Latest, ReadsRight;
    var c := s.clients[t];
    assert ClientOk(s, c, t);
    if c.phase == Loaded {
      ClientMoves(s, Aim(s, t), c, c.(phase := Aimed), t);
      OneThread(s, Aim(s, t), t);
    } else if c.phase == Aimed {
      ClientMoves(s, Start(s, t), c, c.(phase := Started), t);
      OneThread(s, Start(s, t), t);
    }
  }

  lemma PDoneKeeps(s: Disk, t: nat)
    requires Inv(s) && t < |s.clients|
    ensures Inv(PDone(s, t))
  {
    hide Latest, ReadsRight;
    var r, c := PDone(s, t), s.clients[t];
    assert ClientOk(s, c, t);
    if r != s {
      ClientMoves(s, r, c, r.clients[t], t);
      OneThread(s, r, t);
    }
  }

  lemma CopiedClient(s: Disk, t: nat, writable: bool)
    requires Inv(s) && t < |s.clients| && s.clients[t].phase == Told
    ensures var r := Copy(s, t, writable); ClientOk(r, r.clients[t], t)
  {
    hide Latest, ReadsRight;
    var r, c := Copy(s, t, writable), s.clients[t];
    var d := r.clients[t];
    assert ClientOk(s, c, t) && s.owner == t && Mine(s, c, t, s.result);
    forall j: nat | j < |d.marks|
      ensures Served(r, d, t, j)
    {
      if j < |c.marks| {
        assert Served(s, c, t, j);
      }
    }
  }

  lemma CopyKeeps(s: Disk, t: nat, writable: bool)
    requires Inv(s) && t < |s.clients|
    ensures Inv(Copy(s, t, writable))
  {
    hide Latest, ReadsRight;
    var r := Copy(s, t, writable);
    if s.clients[t].phase == Told {
      CopiedClient(s, t, writable);
      OneThread(s, r, t);
    }
  }

  lemma VClearKeeps(s: Disk, t: nat)
    requires Inv(s) && t < |s.clients|
    ensures Inv(VClear(s, t))
  {
    hide Latest, ReadsRight;
    var r, c := VClear(s, t), s.clients[t];
    assert ClientOk(s, c, t);
    if c.phase == Copied {
      var d := r.clients[t];
      forall j: nat | j < |d.marks|
        ensures Served(r, d, t, j)
      {
        assert Served(s, c, t, j);
      }
      OneThread(s, r, t);
    }
  }

  // ---- the card and the interrupt handler ----

  lemma Everyone(s: Disk, r: Disk)
    requires Inv(s) && r.clients == s.clients && r.owner == s.owner && r.clear == s.clear
    requires Later(s, r) && Contents(r) && (OneOwner(r) ==> CardFits(r))
    ensures Inv(r)
  {
    hide Contents, ClientOk, CardOk;
    forall x: nat | x < |r.clients|
      ensures ClientOk(r, r.clients[x], x)
    {
      ClientStays(s, r, s.clients[x], x);
    }
  }

  lemma CardContents(s: Disk, code: Code, junk: Data)
    requires Contents(s)
    ensures Contents(CardDone(s, code, junk))
  {
    hide Latest;
    var r := CardDone(s, code, junk);
    if r.log != s.log {
      var op := r.log[|s.log|];
      assert r.log == s.log + [op];
      ReadsRightNext(s.start, s.log, op);
      forall x: nat | x < |r.sectors|
        ensures r.sectors[x] == Latest(r.start, r.log, x)
      {
        LatestNext(s.start, s.log, op, x);
      }
    }
  }

  lemma CardKeeps(s: Disk, code: Code, junk: Data)
    requires Inv(s)
    ensures Inv(CardDone(s, code, junk))
  {
    hide Latest, ReadsRight;
    var r := CardDone(s, code, junk);
    CardContents(s, code, junk);
    if r != s {
      var c := s.clients[s.owner];
      assert ClientOk(s, c, s.owner);
      assert c.marks != [] ==> Served(s, c, s.owner, |c.marks| - 1);
      Everyone(s, r);
    }
  }

  lemma IrqKeeps(s: Disk)
    requires Inv(s)
    ensures Inv(Irq(s))
  {
    hide Latest, ReadsRight;
    var r := Irq(s);
    if r != s {
      Everyone(s, r);
    }
  }

  lemma StepKeeps(s: Disk, e: Event)
    requires Inv(s)
    ensures Inv(Step(s, e))
  {
    hide Inv, Submit, PClear, Fill, Aim, Start, CardDone, Irq, PDone, Copy, VClear;
    match e
    case DoSubmit(t, req) => if t < |s.clients| { SubmitKeeps(s, t, req); }
    case DoPClear(t) => if t < |s.clients| { PClearKeeps(s, t); }
    case DoFill(t, readable) => if t < |s.clients| { FillKeeps(s, t, readable); }
    case DoAim(t) => if t < |s.clients| { AimKeeps(s, t); }
    case DoStart(t) => if t < |s.clients| { AimKeeps(s, t); }
    case DoCard(code, junk) => CardKeeps(s, code, junk);
    case DoIrq => IrqKeeps(s);
    case DoPDone(t) => if t < |s.clients| { PDoneKeeps(s, t); }
    case DoCopy(t, writable) => if t < |s.clients| { CopyKeeps(s, t, writable); }
    case DoVClear(t) => if t < |s.clients| { VClearKeeps(s, t); }
  }

  lemma ConfiguredOk(sectors: seq<Data>, threads: nat)
    ensures Inv(Configured(sectors, threads))
  {
  }

  /** Every interleaving keeps the invariant. */
  lemma RunKeeps(sectors: seq<Data>, threads: nat, es: seq<Event>)
    ensures Inv(Run(Configured(sectors, threads), es))
  {
    hide Inv, Configured;
    ConfiguredOk(sectors, threads);
    RunKeepsFrom(Configured(sectors, threads), es);
  }

  // ---- what it means ----

  /** At most one thread is past P(lh_clear), and only then is the card at work. */
  lemma OneOwnerOfCard(sectors: seq<Data>, threads: nat, es: seq<Event>, t: nat, u: nat)
    ensures var s := Run(Configured(sectors, threads), es);
            && (t < |s.clients| && u < |s.clients| && Holds(s.clients[t]) && Holds(s.clients[u]) ==> t == u)
            && (s.status != Idle ==> 0 <= s.owner < |s.clients| && s.clients[s.owner].phase == Started)
            && s.clear + (if exists x: nat :: x < |s.clients| && Holds(s.clients[x]) then 1 else 0) == 1
  {
    hide Run, Latest, ReadsRight, Configured;
    RunKeeps(sectors, threads, es);
  }

  /** A thread about to read the result finds that of its own operation, the one it started last, and the data with it. */
  lemma ResultIsOwn(sectors: seq<Data>, threads: nat, es: seq<Event>, t: nat)
    requires var s := Run(Configured(sectors, threads), es); t < |s.clients| && s.clients[t].phase == Told
    ensures var s := Run(Configured(sectors, threads), es); var c := s.clients[t];
            && c.since < |s.log| && (forall j: nat | j < |c.marks| :: c.marks[j] < |s.log| - 1)
            && var op := s.log[|s.log| - 1];
               && op.who == t && op.sector == c.req.sector + c.i && op.write == c.req.write && op.code == s.result
               && (op.code == Success && !op.write ==> s.buf == op.data)
  {
    hide Run, Latest, ReadsRight, Configured;
    RunKeeps(sectors, threads, es);
    var s := Run(Configured(sectors, threads), es);
    assert ClientOk(s, s.clients[t], t);
    forall j: nat | j < |s.clients[t].marks|
      ensures s.clients[t].marks[j] < |s.log| - 1
    {
      MarksRise(s, s.clients[t], t, j, |s.clients[t].marks| - 1);
    }
  }

  /** The operations that serve a call come one after the other. */
  lemma {:induction false} MarksRise(s: Disk, c: Client, t: nat, j: nat, k: nat)
    requires ClientOk(s, c, t) && j <= k < |c.marks|
    ensures c.marks[j] <= c.marks[k] && (j < k ==> c.marks[j] < c.marks[k])
    decreases k
  {
    assert Served(s, c, t, k);
    if j < k {
      MarksRise(s, c, t, j, k - 1);
    }
  }

  /** The operation numbered `m` was thread `t`'s own for this call, and after those for the sectors before. */
  ghost predicate OwnOp(s: Disk, t: nat, j: nat, m: nat)
    requires t < |s.clients|
  {
    var c := s.clients[t];
    && j < |c.marks| && m == c.marks[j] && c.since <= m < |s.log|
    && s.log[m].who == t && (forall k: nat | k < j :: c.marks[k] < m)
  }

  lemma MarkIsOwn(s: Disk, t: nat, j: nat)
    requires t < |s.clients| && ClientOk(s, s.clients[t], t) && j < |s.clients[t].marks|
    ensures OwnOp(s, t, j, s.clients[t].marks[j])
  {
    var c := s.clients[t];
    assert Served(s, c, t, j);
    forall k: nat | k < j
      ensures c.marks[k] < c.marks[j]
    {
      MarksRise(s, c, t, k, j);
    }
  }

  /**
   What a thread has read, sector by sector, was read by its own operation
   during the call, and is the data of the latest write finished before that.
   */
  lemma ReadsLatest(sectors: seq<Data>, threads: nat, es: seq<Event>, t: nat, j: nat)
    requires var s := Run(Configured(sectors, threads), es);
             t < |s.clients| && !s.clients[t].req.write && j < |s.clients[t].got|
    ensures var s := Run(Configured(sectors, threads), es); var c := s.clients[t];
            && j < |c.marks| && OwnOp(s, t, j, c.marks[j])
            && c.req.sector + j < |s.start|
            && s.log[c.marks[j]] == Op(c.req.sector + j, false, c.got[j], Success, t)
            && c.got[j] == Latest(s.start, s.log[..c.marks[j]], c.req.sector + j)
  {
    hide Run, Latest, Configured, OwnOp;
    RunKeeps(sectors, threads, es);
    var s := Run(Configured(sectors, threads), es);
    var c := s.clients[t];
    assert ClientOk(s, c, t) && Served(s, c, t, j);
    MarkIsOwn(s, t, j);
    assert ReadRight(s.start, s.log, c.marks[j]);
  }

  /** A write call that returned success wrote each of its sectors, during the call, with its own data. */
  lemma WritesDone(sectors: seq<Data>, threads: nat, es: seq<Event>, t: nat, j: nat)
    requires var s := Run(Configured(sectors, threads), es);
             t < |s.clients| && s.clients[t].phase == Out && s.clients[t].res == Success
             && s.clients[t].req.write && j < s.clients[t].req.len
    ensures var s := Run(Configured(sectors, threads), es); var c := s.clients[t];
            && j < |c.marks| && OwnOp(s, t, j, c.marks[j]) && j < |c.req.data|
            && s.log[c.marks[j]] == Op(c.req.sector + j, true, c.req.data[j], Success, t)
  {
    hide Run, Latest, Configured, ReadsRight, OwnOp;
    RunKeeps(sectors, threads, es);
    var s := Run(Configured(sectors, threads), es);
    assert ClientOk(s, s.clients[t], t) && Served(s, s.clients[t], t, j);
    MarkIsOwn(s, t, j);
  }

  /** The card always holds the latest data, and a read call that returned success read all its sectors. */
  lemma SectorsLatest(sectors: seq<Data>, threads: nat, es: seq<Event>, x: nat)
    requires x < |Run(Configured(sectors, threads), es).sectors|
    ensures var s := Run(Configured(sectors, threads), es);
            && x < |s.start| && s.sectors[x] == Latest(s.start, s.log, x)
            && forall t: nat | t < |s.clients| && s.clients[t].phase == Out && s.clients[t].res == Success && !s.clients[t].req.write ::
                 |s.clients[t].got| == s.clients[t].req.len
  {
    hide Run, Latest, Configured, ReadsRight;
    RunKeeps(sectors, threads, es);
    var s := Run(Configured(sectors, threads), es);
    forall t: nat | t < |s.clients|
      ensures ClientOk(s, s.clients[t], t)
    {
    }
  }

  // ---- one sector without competition ----

  /** The steps of one turn of the loop of lhd_io, with the card and the interrupt in their places. */
  function SectorEvents(t: nat, code: Code, junk: Data): (es: seq<Event>)
  {
    [DoPClear(t), DoFill(t, true), DoAim(t), DoStart(t), DoCard(code, junk), DoIrq, DoPDone(t), DoCopy(t, true), DoVClear(t)]
  }

  lemma RunMore(s: Disk, es: seq<Event>, n: nat)
    requires n < |es|
    ensures Run(s, es[..n + 1]) == Step(Run(s, es[..n]), es[n])
  {
    assert es[..n + 1][..n] == es[..n];
  }

  /** A thread that wants a sector while nobody owns the card. */
  ghost predicate Alone(s: Disk, t: nat)
  {
    Inv(s) && s.owner == -1 && t < |s.clients| && s.clients[t].phase == Wanting
  }

  /** Up to the start of the operation. */
  function Begun(s: Disk, t: nat): (r: Disk)
    requires t < |s.clients| && (s.clients[t].req.write ==> s.clients[t].i < |s.clients[t].req.data|)
  {
    var c := s.clients[t];
    Put(s, t, c.(phase := Started)).(
      clear := 0, owner := t, sect := c.req.sector + c.i, status := Working(c.req.write),
      buf := if c.req.write then c.req.data[c.i] else s.buf)
  }

  /** From the start of the operation on. */
  function Ended(s: Disk, t: nat, code: Code, junk: Data): (r: Disk)
    requires t < |s.clients|
  {
    VClear(Copy(PDone(Irq(CardDone(s, code, junk)), t), t, true), t)
  }

  /** What the card has been told. */
  lemma AtWork(s: Disk, t: nat)
    requires Inv(s) && t < |s.clients| && s.owner == t && s.clients[t].phase == Started
    requires s.status.Working?
    ensures var c := s.clients[t];
            && s.clear == 0 && s.sect == c.req.sector + c.i < |s.sectors|
            && (c.req.write ==> c.i < |c.req.data| && s.buf == c.req.data[c.i])
  {
    hide Latest, ReadsRight, Contents;
    assert ClientOk(s, s.clients[t], t) && CardOk(s, s.clients[t], t);
  }

  /** The end of a turn that was begun as it should be. */
  lemma EndAlone(s: Disk, t: nat, code: Code, junk: Data)
    requires Inv(s) && t < |s.clients| && s.owner == t && s.clients[t].phase == Started
    requires s.status == Working(s.clients[t].req.write) && s.done == 0
    ensures var c, r := s.clients[t], Ended(s, t, code, junk); var x := c.req.sector + c.i;
            && r.clear == 1 && r.done == 0 && r.status == Idle && r.owner == -1
            && x < |s.sectors| && (c.req.write ==> c.i < |c.req.data|)
            && r.sectors == (if code == Good && c.req.write then s.sectors[x := c.req.data[c.i]] else s.sectors)
            && |r.clients| == |s.clients| && r.clients == s.clients[t := r.clients[t]]
            && r.clients[t].res == ToErrno(code)
            && r.clients[t].got == (if code == Good && !c.req.write then c.got + [s.sectors[x]] else c.got)
  {
    hide Inv, ToErrno;
    AtWork(s, t);
    var a := CardDone(s, code, junk);
    var b := Irq(a);
    var d := PDone(b, t);
    var e := Copy(d, t, true);
  }

  lemma BeginAlone(s: Disk, t: nat)
    requires Alone(s, t)
    ensures s.clients[t].req.write ==> s.clients[t].i < |s.clients[t].req.data|
    ensures s.clear == 1 && Start(Aim(Fill(PClear(s, t), t, true), t), t) == Begun(s, t)
  {
    hide Latest, ReadsRight;
    assert ClientOk(s, s.clients[t], t);
    var a := PClear(s, t);
    var b := Fill(a, t, true);
    var c := Aim(b, t);
    assert Start(c, t).clients == Begun(s, t).clients;
  }

  /** What one turn of the loop comes to: the card, the result and the data are those of lhd_io running alone. */
  lemma AloneSector(s: Disk, t: nat, code: Code, junk: Data)
    requires Alone(s, t)
    ensures var c, r := s.clients[t], Run(s, SectorEvents(t, code, junk)); var x := c.req.sector + c.i;
            && Inv(r) && r.clear == 1 && r.done == 0 && r.status == Idle && r.owner == -1 && |r.clients| == |s.clients|
            && x < |s.sectors| && (c.req.write ==> c.i < |c.req.data|)
            && r.sectors == (if code == Good && c.req.write then s.sectors[x := c.req.data[c.i]] else s.sectors)
            && r.clients[t].res == ToErrno(code)
            && r.clients[t].got == (if code == Good && !c.req.write then c.got + [s.sectors[x]] else c.got)
            && r.clients == s.clients[t := r.clients[t]]
  {
    hide Latest, ReadsRight, Contents, Run, Ended, PClear, Fill, Aim, Start;
    var es := SectorEvents(t, code, junk);
    FirstSteps(s, t, es);
    BeginAlone(s, t);
    BegunInv(s, t);
    LastSteps(s, Begun(s, t), t, es);
    EndAlone(Begun(s, t), t, code, junk);
    RunKeepsFrom(s, es);
    assert s.clients[t := Begun(s, t).clients[t]][t := Run(s, es).clients[t]] == s.clients[t := Run(s, es).clients[t]];
  }

  lemma BegunInv(s: Disk, t: nat)
    requires Alone(s, t) && s.clear == 1 && (s.clients[t].req.write ==> s.clients[t].i < |s.clients[t].req.data|)
    requires Start(Aim(Fill(PClear(s, t), t, true), t), t) == Begun(s, t)
    ensures Inv(Begun(s, t))
  {
    hide Inv, PClear, Fill, Aim, Start, Begun;
    StepSize(s, DoPClear(t));
    PClearKeeps(s, t);
    var a := PClear(s, t);
    StepSize(a, DoFill(t, true));
    FillKeeps(a, t, true);
    var b := Fill(a, t, true);
    StepSize(b, DoAim(t));
    AimKeeps(b, t);
    AimKeeps(Aim(b, t), t);
  }

  ghost predicate SectorSteps(t: nat, es: seq<Event>)
  {
    && |es| == 9 && es[0] == DoPClear(t) && es[1] == DoFill(t, true) && es[2] == DoAim(t) && es[3] == DoStart(t)
    && es[4].DoCard? && es[5] == DoIrq && es[6] == DoPDone(t) && es[7] == DoCopy(t, true) && es[8] == DoVClear(t)
  }

  lemma FirstSteps(s: Disk, t: nat, es: seq<Event>)
    requires t < |s.clients| && SectorSteps(t, es)
    ensures Run(s, es[..4]) == Start(Aim(Fill(PClear(s, t), t, true), t), t)
  {
    hide Run, Submit, PClear, Fill, Aim, Start, CardDone, Irq, PDone, Copy, VClear;
    RunFirst(s, es);
    RunMore(s, es, 0);
    StepSize(s, es[0]);
    RunMore(s, es, 1);
    StepSize(PClear(s, t), es[1]);
    RunMore(s, es, 2);
    StepSize(Fill(PClear(s, t), t, true), es[2]);
    RunMore(s, es, 3);
  }

  lemma LastSteps(s: Disk, b: Disk, t: nat, es: seq<Event>)
    requires t < |b.clients| && SectorSteps(t, es) && Run(s, es[..4]) == b
    ensures Run(s, es) == Ended(b, t, es[4].code, es[4].junk)
  {
    hide Run, Submit, PClear, Fill, Aim, Start, CardDone, Irq, PDone, Copy, VClear;
    RunMore(s, es, 4);
    StepSize(b, es[4]);
    var s5 := CardDone(b, es[4].code, es[4].junk);
    RunMore(s, es, 5);
    StepSize(s5, es[5]);
    var s6 := Irq(s5);
    RunMore(s, es, 6);
    StepSize(s6, es[6]);
    var s7 := PDone(s6, t);
    RunMore(s, es, 7);
    StepSize(s7, es[7]);
    RunMore(s, es, 8);
    assert es[..9] == es;
  }

  lemma StepSize(s: Disk, e: Event)
    ensures |Step(s, e).clients| == |s.clients|
  {
  }

  lemma RunFirst(s: Disk, es: seq<Event>)
    ensures Run(s, es[..0]) == s
  {
  }

  lemma {:induction false} RunKeepsFrom(s: Disk, es: seq<Event>)
    requires Inv(s)
    ensures Inv(Run(s, es))
  {
    hide Inv, Step;
    if es != [] {
      RunKeepsFrom(s, es[..|es| - 1]);
      StepKeeps(Run(s, es[..|es| - 1]), es[|es| - 1]);
    }
  }
}
