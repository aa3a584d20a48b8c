/**
 Calls of lhd_io told from outside: from the arguments with which threads made
 them, what came back, and the operations the card finished, in every interleaving.
 */
module LhdCalls {
  import opened Errno
  import opened Lhd
  import opened LhdProofs

  /**
   A thread's latest call: its argument, how many operations were finished
   before it, and whether the caller's own buffer turned out bad during it.
   */
  datatype Call = NoCall | Call(req: Req, since: nat, fault: bool)

  predicate Accepts(s: Disk, t: nat, e: Event)
  {
    e.DoSubmit? && e.t == t && WellFormed(e.req) && t < |s.clients| && s.clients[t].phase == Out
  }

  predicate Faults(t: nat, e: Event)
  {
    e == DoFill(t, false) || e == DoCopy(t, false)
  }

  function Next(s: Disk, q: Call, e: Event, t: nat): (q': Call)
  {
    if Accepts(s, t, e) then Call(e.req, |s.log|, false) else if q.Call? && Faults(t, e) then q.(fault := true) else q
  }

  /** By the events of a run alone. */
  function LastCall(s: Disk, es: seq<Event>, t: nat): (q: Call)
  {
    if es == [] then NoCall
    else Next(Run(s, es[..|es| - 1]), LastCall(s, es[..|es| - 1], t), es[|es| - 1], t)
  }

  /** What a thread's call has come to, for its latest argument. */
  ghost predicate AnswerOk(s: Disk, q: Call, t: nat)
    requires t < |s.clients|
  {
    var c := s.clients[t];
    && (q.Call? ==> c.req == q.req && c.since == q.since)
    && (q.Call? && (c.phase != Out || c.res == Success) ==> q.req.sector + q.req.len <= |s.sectors|)
    && (q.NoCall? ==> c.phase == Out && c.res == Success)
    && (c.phase in {Out, Copied} && c.res != Success ==> Refused(s, q, t))
  }

  /** The operation numbered `m` was the thread's own, for the first sector not done, and failed with the call's result. */
  ghost predicate FailedOp(s: Disk, q: Call, t: nat, m: nat)
    requires t < |s.clients| && q.Call?
  {
    var c := s.clients[t];
    && q.since <= m < |s.log| && (forall j: nat | j < |c.marks| :: c.marks[j] < m)
    && s.log[m].who == t && s.log[m].sector == q.req.sector + |c.marks| && s.log[m].write == q.req.write
    && s.log[m].code == c.res
  }

  /** Why a call failed: beyond the disk, the caller's buffer, or the card. */
  ghost predicate Refused(s: Disk, q: Call, t: nat)
    requires t < |s.clients|
  {
    var c := s.clients[t];
    q.Call? &&
    if q.req.sector + q.req.len > |s.sectors| then c.res == EINVAL && c.marks == []
    else |c.marks| < q.req.len && ((c.res == EFAULT && q.fault) || exists m: nat :: FailedOp(s, q, t, m))
  }

  // ---- why ----

  /** A thread that the step leaves alone. */
  lemma OtherThread(s: Disk, r: Disk, q: Call, q': Call, t: nat)
    requires t < |s.clients| && AnswerOk(s, q, t) && Later(s, r) && t < |r.clients| && r.clients[t] == s.clients[t]
    requires q' == q || (q.Call? && q' == q.(fault := true))
    ensures AnswerOk(r, q', t)
  {
    if s.clients[t].phase in {Out, Copied} && s.clients[t].res != Success {
      assert Refused(s, q, t);
      if m: nat :| FailedOp(s, q, t, m) {
        assert r.log[m] == r.log[..|s.log|][m];
        assert FailedOp(r, q', t, m);
      }
    }
  }

  lemma SubmitAnswer(s: Disk, q: Call, t: nat, req: Req)
    requires Inv(s) && t < |s.clients| && AnswerOk(s, q, t)
    ensures var r := Submit(s, t, req);
            AnswerOk(r, if Accepts(s, t, DoSubmit(t, req)) then Call(req, |s.log|, false) else q, t)
  {
    hide Contents, CardOk, Refused;
    if Accepts(s, t, DoSubmit(t, req)) {
      RefusedHere(Submit(s, t, req), Call(req, |s.log|, false), t);
    }
  }

  lemma RefusedHere(s: Disk, q: Call, t: nat)
    requires t < |s.clients| && q.Call?
    ensures s.clients[t].res == EINVAL && s.clients[t].marks == [] && q.req.sector + q.req.len > |s.sectors| ==> Refused(s, q, t)
  {
  }

  lemma FillAnswer(s: Disk, q: Call, t: nat, readable: bool)
    requires Inv(s) && t < |s.clients| && AnswerOk(s, q, t)
    ensures var q' := if q.Call? && !readable then q.(fault := true) else q;
            AnswerOk(Fill(s, t, readable), q', t)
  {
    hide Contents, CardOk;
    var r, c := Fill(s, t, readable), s.clients[t];
    var q' := if q.Call? && !readable then q.(fault := true) else q;
    assert ClientOk(s, c, t);
    if c.phase != Owning {
      OtherThread(s, r, q, q', t);
    }
  }

  lemma CopyAnswer(s: Disk, q: Call, t: nat, writable: bool)
    requires Inv(s) && t < |s.clients| && AnswerOk(s, q, t)
    ensures var q' := if q.Call? && !writable then q.(fault := true) else q;
            AnswerOk(Copy(s, t, writable), q', t)
  {
    hide Contents;
    var r, c := Copy(s, t, writable), s.clients[t];
    var q' := if q.Call? && !writable then q.(fault := true) else q;
    assert ClientOk(s, c, t);
    if c.phase != Told {
      OtherThread(s, r, q, q', t);
    } else if s.result != Success {
      assert Mine(s, c, t, s.result);
      MarksBefore(s, c, t);
      assert FailedOp(r, q', t, |s.log| - 1);
    }
  }

  lemma MarksBefore(s: Disk, c: Client, t: nat)
    requires ClientOk(s, c, t) && Mine(s, c, t, s.result)
    ensures forall j: nat | j < |c.marks| :: c.marks[j] < |s.log| - 1
  {
    forall j: nat | j < |c.marks|
      ensures c.marks[j] < |s.log| - 1
    {
      MarksRise(s, c, t, j, |c.marks| - 1);
    }
  }

  lemma VClearAnswer(s: Disk, q: Call, t: nat)
    requires Inv(s) && t < |s.clients| && AnswerOk(s, q, t)
    ensures AnswerOk(VClear(s, t), q, t)
  {
    hide Contents, CardOk;
    var r, c := VClear(s, t), s.clients[t];
    if c.phase != Copied {
      OtherThread(s, r, q, q, t);
    } else if c.res != Success {
      assert Refused(s, q, t);
      if m: nat :| FailedOp(s, q, t, m) {
        assert FailedOp(r, q, t, m);
      }
    }
  }

  /** A step within a call, during which it has no answer. */
  lemma MiddleAnswer(s: Disk, r: Disk, q: Call, t: nat)
    requires t < |s.clients| && AnswerOk(s, q, t) && Later(s, r) && t < |r.clients|
    requires var c, d := s.clients[t], r.clients[t];
             d == c || (d == c.(phase := d.phase) && c.phase != Out && d.phase != Out && d.phase != Copied)
    ensures AnswerOk(r, q, t)
  {
    hide Refused;
    if r.clients[t] == s.clients[t] {
      OtherThread(s, r, q, q, t);
    }
  }

  lemma LogGrows(s: Disk, e: Event)
    ensures Later(s, Step(s, e))
  {
  }

  /** The thread whose step it is. */
  predicate By(e: Event, t: nat)
  {
    match e
    case DoCard(_, _) => false
    case DoIrq => false
    case _ => e.t == t
  }

  lemma NotByThread(s: Disk, e: Event, t: nat)
    requires t < |s.clients| && !By(e, t)
    ensures |Step(s, e).clients| == |s.clients| && Step(s, e).clients[t] == s.clients[t]
  {
  }

  lemma Within(s: Disk, e: Event, t: nat)
    requires t < |s.clients| && By(e, t) && (e.DoPClear? || e.DoAim? || e.DoStart? || e.DoPDone?)
    ensures |Step(s, e).clients| == |s.clients|
    ensures var c, d := s.clients[t], Step(s, e).clients[t];
            d == c || (d == c.(phase := d.phase) && c.phase != Out && d.phase != Out && d.phase != Copied)
  {
  }

  lemma StepAnswer(s: Disk, q: Call, e: Event, t: nat)
    requires Inv(s) && t < |s.clients| && AnswerOk(s, q, t)
    ensures |Step(s, e).clients| == |s.clients| && AnswerOk(Step(s, e), Next(s, q, e, t), t)
  {
    hide Inv, Later, AnswerOk, Submit, Fill, Copy, VClear, PClear, Aim, Start, PDone, CardDone, Irq;
    LogGrows(s, e);
    StepSize(s, e);
    var r := Step(s, e);
    if !By(e, t) {
      NotByThread(s, e, t);
      OtherThread(s, r, q, q, t);
    } else {
      match e {
        case DoSubmit(u, req) => SubmitAnswer(s, q, t, req);
        case DoFill(u, readable) => FillAnswer(s, q, t, readable);
        case DoCopy(u, writable) => CopyAnswer(s, q, t, writable);
        case DoVClear(u) => VClearAnswer(s, q, t);
        case _ =>
          Within(s, e, t);
          MiddleAnswer(s, r, q, t);
      }
    }
  }

  lemma {:induction false} RunAnswers(sectors: seq<Data>, threads: nat, es: seq<Event>, t: nat)
    requires t < threads
    ensures var s := Configured(sectors, threads);
            && Inv(Run(s, es)) && |Run(s, es).clients| == threads && AnswerOk(Run(s, es), LastCall(s, es, t), t)
            && |Run(s, es).sectors| == |sectors| && Run(s, es).start == sectors
  {
    hide Inv, AnswerOk, Step;
    var s := Configured(sectors, threads);
    RunKeeps(sectors, threads, es);
    if es == [] {
      assert AnswerOk(s, NoCall, t) by { NotCalled(sectors, threads, t); }
    } else {
      var r, e := Run(s, es[..|es| - 1]), es[|es| - 1];
      RunAnswers(sectors, threads, es[..|es| - 1], t);
      StepAnswer(r, LastCall(s, es[..|es| - 1], t), e, t);
      SameSize(r, e);
    }
  }

  lemma NotCalled(sectors: seq<Data>, threads: nat, t: nat)
    requires t < threads
    ensures AnswerOk(Configured(sectors, threads), NoCall, t)
  {
  }

  lemma SameSize(s: Disk, e: Event)
    ensures |Step(s, e).sectors| == |s.sectors| && Step(s, e).start == s.start
  {
  }

  // ---- what it means ----

  /** Sector `j` of the call was transferred by the thread's own operation, finished during the call. */
  ghost predicate Transferred(s: Disk, q: Call, t: nat, j: nat)
    requires t < |s.clients| && q.Call?
  {
    var c := s.clients[t];
    && j < |c.marks| && q.since <= c.marks[j] < |s.log| && (j > 0 ==> c.marks[j - 1] < c.marks[j])
    && var op := s.log[c.marks[j]];
       && op.who == t && op.sector == q.req.sector + j && op.write == q.req.write && op.code == Success
       && if q.req.write then j < |q.req.data| && op.data == q.req.data[j]
          else j < |c.got| && op.sector < |s.start| && c.got[j] == op.data == Latest(s.start, s.log[..c.marks[j]], q.req.sector + j)
  }

  /**
   A call that is back, for the argument it was made with. Success: every
   sector transferred in order. Otherwise the sectors before the failure were,
   and the result is EINVAL past the end of the disk, EFAULT for a bad buffer,
   or that of the operation that failed.
   */
  lemma CallAnswered(sectors: seq<Data>, threads: nat, es: seq<Event>, t: nat)
    requires t < threads && LastCall(Configured(sectors, threads), es, t).Call?
    requires var s := Run(Configured(sectors, threads), es); t < |s.clients| && s.clients[t].phase == Out
    ensures var s, q := Run(Configured(sectors, threads), es), LastCall(Configured(sectors, threads), es, t);
            && (s.clients[t].res == Success ==> q.req.sector + q.req.len <= |sectors| && |s.clients[t].marks| == q.req.len)
            && (s.clients[t].res != Success ==> Refused(s, q, t))
            && (!q.req.write ==> |s.clients[t].got| == |s.clients[t].marks|)
            && forall j: nat | j < |s.clients[t].marks| :: Transferred(s, q, t, j)
  {
    hide Run, LastCall, Latest, Configured, OneOwner, CardOk, Refused;
    var s, q := Run(Configured(sectors, threads), es), LastCall(Configured(sectors, threads), es, t);
    RunAnswers(sectors, threads, es, t);
    assert ClientOk(s, s.clients[t], t);
    forall j: nat | j < |s.clients[t].marks|
      ensures Transferred(s, q, t, j)
    {
      assert Served(s, s.clients[t], t, j);
      assert ReadRight(s.start, s.log, s.clients[t].marks[j]);
    }
  }
}
