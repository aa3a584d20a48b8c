/**
 Output on the serial console: the driver of kern/dev/lamebus/lser.c under
 kern/dev/generic/console.c. Writers that can sleep wait for an interrupt;
 writers that cannot (interrupts off) spin. Both share one device.

 A step is a region run with interrupts off, one look at the device by a
 spinning writer, or the device finishing a character. While a writer spins
 nothing else runs but the device.
 */
module Lser {
  import opened Basics

  /** A polled writer: none, waiting for an earlier character, or waiting for its own. */
  datatype Poll = NoPoll | WaitReady(ch: nat) | WaitSent(pending: bool)

  /**
   The driver's busy flag, the console's semaphore count, the characters of
   writers past P that have not called the driver yet, the polled writer; the
   device: the character being sent, the write-done condition, what has come
   out. Then the record: whether the driver panicked, and whether a character
   was given to a busy device.
   */
  datatype Line = Line(
    wbusy: bool, wsem: nat, cleared: seq<nat>, poll: Poll,
    inflight: Option<nat>, active: bool, out: seq<nat>, panicked: bool, clobbered: bool)

  // ---- steps ----

  /** Stores to the character register: the device starts on it, dropping any character it was sending. */
  function PutChar(d: Line, ch: nat): (r: Line)
  {
    d.(inflight := Some(ch), clobbered := d.clobbered || d.inflight.Some?)
  }

  /** The device finishes a character. */
  function Complete(d: Line): (r: Line)
  {
    if d.inflight.Some? then d.(inflight := None, active := true, out := d.out + [d.inflight.value]) else d
  }

  /** lser_irq, its write half, with con_start. */
  function Irq(d: Line): (r: Line)
  {
    if d.active then d.(active := false, wbusy := false, wsem := d.wsem + 1) else d
  }

  /** putch_intr, its P. */
  function Claim(d: Line, ch: nat): (r: Line)
  {
    if d.wsem > 0 then d.(wsem := d.wsem - 1, cleared := d.cleared + [ch]) else d
  }

  /** lser_write, called by the `i`-th of the writers past P. */
  function Send(d: Line, i: nat): (r: Line)
    requires i < |d.cleared|
  {
    var ch := d.cleared[i];
    var e := d.(cleared := d.cleared[..i] + d.cleared[i + 1..]);
    if d.wbusy then e.(panicked := true)
    else PutChar(e.(wbusy := true), ch)
  }

  /** lser_writepolled up to its first look at the device. */
  function PollStart(d: Line, ch: nat): (r: Line)
  {
    if d.wbusy then d.(poll := WaitReady(ch)) else PutChar(d.(poll := WaitSent(false)), ch)
  }

  /** One look at the write-done condition by the polled writer, and what follows if it is there. */
  function PollLook(d: Line): (r: Line)
  {
    if !d.active then d
    else match d.poll
      case NoPoll => d
      case WaitReady(ch) => PutChar(d.(active := false, poll := WaitSent(true)), ch)
      case WaitSent(pending) => d.(active := pending, poll := NoPoll)
  }

  datatype Event = DoClaim(ch: nat) | DoSend(i: nat) | DoIrq | DoPollStart(ch: nat) | DoPollLook | DoComplete

  /** While a writer polls, interrupts are off and nothing else runs. */
  function Step(d: Line, e: Event): (r: Line)
  {
    match e
    case DoComplete => Complete(d)
    case DoPollLook => PollLook(d)
    case DoIrq => if d.poll.NoPoll? then Irq(d) else d
    case DoClaim(ch) => if d.poll.NoPoll? then Claim(d, ch) else d
    case DoSend(i) => if d.poll.NoPoll? && i < |d.cleared| then Send(d, i) else d
    case DoPollStart(ch) => if d.poll.NoPoll? then PollStart(d, ch) else d
  }

  function Run(d: Line, es: seq<Event>): (r: Line)
  {
    if es == [] then d else Step(Run(d, es[..|es| - 1]), es[|es| - 1])
  }

  /** As configured: idle device, console semaphore at one. */
  function Attached(): (d: Line)
  {
    Line(false, 1, [], NoPoll, None, false, [], false, false)
  }

  // ---- the invariant ----

  function Sending(d: Line): (s: seq<nat>)
  {
    if d.inflight.Some? then [d.inflight.value] else []
  }

  function Bit(b: bool): (n: nat)
  {
    if b then 1 else 0
  }

  ghost predicate Inv(d: Line)
  {
    // one permit: in the semaphore, with a writer about to send, or with a send not yet reported
    && d.wsem + |d.cleared| + Bit(d.wbusy) == 1
    // the device has a character or a report exactly while something is outstanding, and never both
    && (match d.poll
        case NoPoll => Bit(d.inflight.Some?) + Bit(d.active) == Bit(d.wbusy)
        case WaitReady(_) => d.wbusy && Bit(d.inflight.Some?) + Bit(d.active) == 1
        case WaitSent(pending) => pending == d.wbusy && Bit(d.inflight.Some?) + Bit(d.active) == 1)
    && !d.panicked && !d.clobbered
  }

  /** What the device has been given: what has come out, and what it is sending. */
  function Given(d: Line): (s: seq<nat>)
  {
    d.out + Sending(d)
  }

  lemma SendKeeps(d: Line, i: nat)
    requires Inv(d) && d.poll.NoPoll? && i < |d.cleared|
    ensures Inv(Send(d, i))
  {
    assert |d.cleared| == 1 && d.cleared == [d.cleared[i]];
    assert d.cleared[..i] + d.cleared[i + 1..] == [];
  }

  lemma StepKeeps(d: Line, e: Event)
    requires Inv(d)
    ensures Inv(Step(d, e))
  {
    match e
    case DoSend(i) =>
      if d.poll.NoPoll? && i < |d.cleared| {
        SendKeeps(d, i);
      }
    case _ =>
  }

  lemma {:induction false} RunKeeps(es: seq<Event>)
    ensures Inv(Run(Attached(), es))
  {
    if es != [] {
      RunKeeps(es[..|es| - 1]);
      StepKeeps(Run(Attached(), es[..|es| - 1]), es[|es| - 1]);
    }
  }

  // ---- the calls of a run ----

  /** The run without its last event, and where it leads. */
  function Before(es: seq<Event>): (d: Line)
    requires es != []
  {
    Run(Attached(), es[..|es| - 1])
  }

  /** The characters of the interrupt-driven writers that got past P, in that order. */
  function Claims(es: seq<Event>): (s: seq<nat>)
  {
    if es == [] then []
    else
      var e := es[|es| - 1];
      Claims(es[..|es| - 1]) + if e.DoClaim? && Before(es).poll.NoPoll? && Before(es).wsem > 0 then [e.ch] else []
  }

  /** The characters of the polled writers, in the order of their calls. */
  function Polls(es: seq<Event>): (s: seq<nat>)
  {
    if es == [] then []
    else
      var e := es[|es| - 1];
      Polls(es[..|es| - 1]) + if e.DoPollStart? && Before(es).poll.NoPoll? then [e.ch] else []
  }

  /** How many interrupts found a character finished. */
  function Reports(es: seq<Event>): (n: nat)
  {
    if es == [] then 0
    else Reports(es[..|es| - 1]) + if es[|es| - 1] == DoIrq && Before(es).poll.NoPoll? && Before(es).active then 1 else 0
  }

  /** `w` is made of `a` and `b`, each in its own order. */
  predicate Interleaved(w: seq<nat>, a: seq<nat>, b: seq<nat>)
  {
    if w == [] then a == [] && b == []
    else
      var c, rest := w[|w| - 1], w[..|w| - 1];
      || (a != [] && a[|a| - 1] == c && Interleaved(rest, a[..|a| - 1], b))
      || (b != [] && b[|b| - 1] == c && Interleaved(rest, a, b[..|b| - 1]))
  }

  lemma InterleavedMore(w: seq<nat>, a: seq<nat>, b: seq<nat>, c: nat)
    requires Interleaved(w, a, b)
    ensures Interleaved(w + [c], a + [c], b) && Interleaved(w + [c], a, b + [c])
  {
    assert (w + [c])[..|w|] == w && (a + [c])[..|a|] == a && (b + [c])[..|b|] == b;
  }

  lemma {:induction false} OnlyOne(w: seq<nat>, a: seq<nat>)
    requires Interleaved(w, a, [])
    ensures w == a
  {
    if w != [] {
      OnlyOne(w[..|w| - 1], a[..|a| - 1]);
      assert w == w[..|w| - 1] + [w[|w| - 1]];
    }
  }

  /** The polled character not yet given to the device. */
  function Waiting(d: Line): (s: seq<nat>)
  {
    if d.poll.WaitReady? then [d.poll.ch] else []
  }

  /** `sent` and `polled` are the characters of either kind that have been given to the device. */
  ghost predicate Accounted(d: Line, claims: seq<nat>, polls: seq<nat>, reports: nat, sent: seq<nat>, polled: seq<nat>)
  {
    && claims == sent + d.cleared && polls == polled + Waiting(d)
    && Interleaved(Given(d), sent, polled)
    && reports + Bit(d.wbusy) == |sent|
  }

  lemma SendAccounted(d: Line, i: nat, claims: seq<nat>, polls: seq<nat>, reports: nat, sent: seq<nat>, polled: seq<nat>)
    requires Inv(d) && d.poll.NoPoll? && i < |d.cleared| && Accounted(d, claims, polls, reports, sent, polled)
    ensures Accounted(Send(d, i), claims, polls, reports, sent + d.cleared, polled)
  {
    assert d.cleared == [d.cleared[i]] && d.cleared[..i] + d.cleared[i + 1..] == [];
    assert Given(d) == d.out;
    InterleavedMore(d.out, sent, polled, d.cleared[i]);
  }

  lemma PolledAccounted(d: Line, e: Event, ch: nat, claims: seq<nat>, polls: seq<nat>, reports: nat, sent: seq<nat>, polled: seq<nat>)
    requires Inv(d) && Accounted(d, claims, polls, reports, sent, polled)
    requires (e == DoPollStart(ch) && d.poll.NoPoll? && !d.wbusy) || (e == DoPollLook && d.active && d.poll == WaitReady(ch))
    ensures Accounted(Step(d, e), claims, if e.DoPollStart? then polls + [ch] else polls, reports, sent, polled + [ch])
  {
    assert Given(d) == d.out;
    InterleavedMore(d.out, sent, polled, ch);
  }

  /** Every event keeps the account. */
  lemma StepAccounted(es: seq<Event>, sent: seq<nat>, polled: seq<nat>) returns (sent': seq<nat>, polled': seq<nat>)
    requires es != [] && Inv(Before(es))
    requires var fs := es[..|es| - 1]; Accounted(Before(es), Claims(fs), Polls(fs), Reports(fs), sent, polled)
    ensures Accounted(Run(Attached(), es), Claims(es), Polls(es), Reports(es), sent', polled')
  {
    hide Interleaved, Run;
    var fs, e, d := es[..|es| - 1], es[|es| - 1], Before(es);
    RunLast(es);
    assert Claims(fs) + [] == Claims(fs) && Polls(fs) + [] == Polls(fs) && polled + [] == polled;
    assert Given(Complete(d)) == Given(d);
    sent', polled' := sent, polled;
    match e {
      case DoSend(i) =>
        if d.poll.NoPoll? && i < |d.cleared| {
          SendAccounted(d, i, Claims(fs), Polls(fs), Reports(fs), sent, polled);
          sent' := sent + d.cleared;
        }
      case DoPollStart(ch) =>
        if d.poll.NoPoll? && !d.wbusy {
          PolledAccounted(d, e, ch, Claims(fs), Polls(fs), Reports(fs), sent, polled);
          polled' := polled + [ch];
        }
      case DoPollLook =>
        if d.active && d.poll.WaitReady? {
          PolledAccounted(d, e, d.poll.ch, Claims(fs), Polls(fs), Reports(fs), sent, polled);
          polled' := polled + [d.poll.ch];
        }
      case DoClaim(ch) =>
        assert sent + (d.cleared + [ch]) == (sent + d.cleared) + [ch];
      case _ =>
    }
  }

  lemma RunLast(es: seq<Event>)
    requires es != []
    ensures Run(Attached(), es) == Step(Before(es), es[|es| - 1])
  {
  }

  lemma {:induction false} RunAccounted(es: seq<Event>) returns (sent: seq<nat>, polled: seq<nat>)
    ensures Accounted(Run(Attached(), es), Claims(es), Polls(es), Reports(es), sent, polled)
  {
    if es == [] {
      sent, polled := [], [];
    } else {
      sent, polled := RunAccounted(es[..|es| - 1]);
      RunKeeps(es[..|es| - 1]);
      sent, polled := StepAccounted(es, sent, polled);
    }
  }

  /**
   In every interleaving: the driver is never asked to write while not clear,
   and no character is given to a busy device. What the device has been given
   is made of the characters of the writers past P, in that order and up to
   the one that has not called the driver yet, and of those of the polled
   writers, in the order of their calls and up to the one still waiting. Each
   interrupt-driven character but one still outstanding has had its report.
   */
  lemma Protocol(es: seq<Event>)
    ensures var d := Run(Attached(), es);
            && !d.panicked && !d.clobbered && |d.cleared| <= 1
            && exists sent, polled :: Accounted(d, Claims(es), Polls(es), Reports(es), sent, polled)
  {
    hide Accounted;
    RunKeeps(es);
    var sent, polled := RunAccounted(es);
  }

  /** Without polled writes, what the device has been given is what the writers past P brought, in that order. */
  lemma InterruptsOnly(es: seq<Event>)
    requires Polls(es) == []
    ensures var d := Run(Attached(), es); Given(d) + d.cleared == Claims(es)
  {
    hide Interleaved, Run, Claims, Polls, Reports;
    var sent, polled := RunAccounted(es);
    OnlyOne(Given(Run(Attached(), es)), sent);
  }

  /** When nothing is outstanding, everything sent has come out and been reported. */
  lemma Quiescent(es: seq<Event>)
    requires var d := Run(Attached(), es); d.poll.NoPoll? && d.inflight.None? && !d.active
    ensures var d := Run(Attached(), es);
            && d.wsem + |d.cleared| == 1 && Reports(es) + |d.cleared| == |Claims(es)|
            && (Polls(es) == [] ==> d.out + d.cleared == Claims(es))
  {
    hide Interleaved, Run, Claims, Polls, Reports;
    RunKeeps(es);
    var sent, polled := RunAccounted(es);
    if Polls(es) == [] {
      InterruptsOnly(es);
    }
  }

  /** A writer past P can always send, and a sent character can always be finished and reported. */
  lemma Progress(es: seq<Event>)
    ensures var d := Run(Attached(), es);
            && (d.poll.NoPoll? && d.cleared != [] ==> !d.wbusy)
            && (d.poll.NoPoll? && d.wbusy ==> Irq(Complete(d)).wsem == 1)
            && (d.poll.WaitSent? ==> PollLook(Complete(d)).poll.NoPoll?)
            && (d.poll.WaitReady? ==> PollLook(Complete(PollLook(Complete(d)))).poll.NoPoll?)
  {
    RunKeeps(es);
  }

  // ---- a polled write as a whole ----

  /** The events of one polled write: the device finishes while the writer spins. */
  function PolledEvents(d: Line, ch: nat): (es: seq<Event>)
  {
    [DoPollStart(ch)] + (if d.wbusy then [DoComplete, DoPollLook] else []) + [DoComplete, DoPollLook]
  }

  function Polled(d: Line, ch: nat): (r: Line)
  {
    var a := PollStart(d, ch);
    var b := if d.wbusy then PollLook(Complete(a)) else a;
    PollLook(Complete(b))
  }

  lemma RunSnoc(d: Line, es: seq<Event>, e: Event)
    ensures Run(d, es + [e]) == Step(Run(d, es), e)
  {
    assert (es + [e])[..|es|] == es;
  }

  lemma PolledIsRun(d: Line, ch: nat)
    requires d.poll.NoPoll?
    ensures Run(d, PolledEvents(d, ch)) == Polled(d, ch)
  {
    hide Run;
    var a1: seq<Event> := [] + [DoPollStart(ch)];
    var a2 := a1 + [DoComplete];
    var a3 := a2 + [DoPollLook];
    RunNone(d);
    RunSnoc(d, [], DoPollStart(ch));
    RunSnoc(d, a1, DoComplete);
    RunSnoc(d, a2, DoPollLook);
    if d.wbusy {
      RunSnoc(d, a3, DoComplete);
      RunSnoc(d, a3 + [DoComplete], DoPollLook);
      assert PolledEvents(d, ch) == a3 + [DoComplete] + [DoPollLook];
    } else {
      assert PolledEvents(d, ch) == a3;
    }
  }

  lemma RunNone(d: Line)
    ensures Run(d, []) == d
  {
  }

  /** A polled write gets its character out at once, and leaves a pending report pending. */
  lemma PolledEffect(d: Line, ch: nat)
    requires Inv(d) && d.poll.NoPoll?
    ensures var r := Polled(d, ch);
            && r == d.(inflight := None, active := d.wbusy, out := Given(d) + [ch])
            && Inv(r)
  {
  }

  // ---- the code ----

  /** The driver's record, the console's semaphore and the device's registers. */
  class Softc {
    var wbusy: bool
    var wsem: nat
    var active: bool
    var inflight: Option<nat>
    var out: seq<nat>
    ghost var cleared: seq<nat>

    ghost function View(): (d: Line)
      reads this
    {
      Line(wbusy, wsem, cleared, NoPoll, inflight, active, out, false, false)
    }

    constructor ()
      ensures View() == Attached()
    {
      wbusy, wsem, active, inflight, out := false, 1, false, None, [];
      cleared := [];
    }

    method WriteRegister(ch: nat)
      requires inflight.None?
      modifies this`inflight
      ensures inflight == Some(ch)
    {
      inflight := Some(ch);
    }

    method HandleIrq()
      requires Inv(View())
      modifies this
      ensures View() == Irq(old(View())) && Inv(View())
    {
      StepKeeps(View(), DoIrq);
      var clearToWrite := false;
      if active {
        wbusy := false;
        clearToWrite := true;
        active := false;
      }
      if clearToWrite {
        wsem := wsem + 1;
      }
    }

    /** The P of putch_intr, once the count lets it through. */
    method PassP(ch: nat)
      requires Inv(View()) && wsem > 0
      modifies this
      ensures View() == Claim(old(View()), ch) && Inv(View()) && cleared == [ch]
    {
      StepKeeps(View(), DoClaim(ch));
      assert cleared == [];
      wsem := wsem - 1;
      cleared := cleared + [ch];
    }

    /** lser_write by the writer past P; it finds the device clear. */
    method Write(ch: nat)
      requires Inv(View()) && cleared == [ch]
      modifies this
      ensures View() == Send(old(View()), 0) && Inv(View())
    {
      StepKeeps(View(), DoSend(0));
      assert !wbusy;
      assert cleared[..0] + cleared[1..] == [];
      wbusy := true;
      cleared := [];
      WriteRegister(ch);
    }

    /** Reads the status until the device has finished, which takes it `patience` reads. */
    method SpinUntilWrite(patience: nat)
      requires active || inflight.Some?
      modifies this`active, this`inflight, this`out
      ensures active && inflight == (if old(active) then old(inflight) else None)
      ensures out == if old(active) then old(out) else old(out) + [old(inflight).value]
    {
      var left := patience;
      while !active
        invariant active || inflight.Some?
        invariant !active ==> inflight == old(inflight) && out == old(out) && !old(active)
        invariant active ==> inflight == (if old(active) then old(inflight) else None)
        invariant active ==> out == if old(active) then old(out) else old(out) + [old(inflight).value]
        decreases !active, left
      {
        if left == 0 {
          out := out + [inflight.value];
          inflight := None;
          active := true;
        } else {
          left := left - 1;
        }
      }
    }

    method WritePolled(ch: nat, patience: nat)
      requires Inv(View())
      modifies this
      ensures View() == Polled(old(View()), ch) && Inv(View())
      ensures out == old(Given(View())) + [ch] && active == wbusy == old(wbusy)
    {
      PolledEffect(View(), ch);
      var irqpending := false;
      if wbusy {
        irqpending := true;
        SpinUntilWrite(patience);
        active := false;
      }
      WriteRegister(ch);
      SpinUntilWrite(patience);
      if !irqpending {
        active := false;
      }
    }
  }
}
