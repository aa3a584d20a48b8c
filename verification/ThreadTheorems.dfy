/** What the invariant of the thread system means for its users. */
module ThreadTheorems {
  import opened Basics
  import opened Arrays
  import opened Queues
  import opened ThreadState
  import opened ThreadProofs

  // ---- what a step can do ----

  predicate Prefix(s: seq<nat>, t: seq<nat>)
  {
    |s| <= |t| && t[..|s|] == s
  }

  lemma PrefixAt(s: seq<nat>, t: seq<nat>, i: nat)
    requires Prefix(s, t) && i < |s|
    ensures i < |t| && t[i] == s[i]
  {
  }

  /** The run queue and the zombies only gain at the end; storage for sleepers is kept. */
  ghost predicate Grew(k: Threads, r: Threads)
  {
    Prefix(k.runq, r.runq) && k.smax <= r.smax && Prefix(k.zombies, r.zombies) && r.gone == k.gone
  }

  /** A lock is kept, or released by its holder, or taken by the running thread when free. */
  ghost predicate LockMoved(k: Threads, r: Threads, e: Event, l: nat)
    requires l < |k.locks| <= |r.locks|
  {
    || r.locks[l] == k.locks[l]
    || (e == Release(l) && k.locks[l].holder == k.cur && r.locks[l] == Lock(true, None))
    || (k.locks[l].available && r.cur.Some? && r.locks[l] == Lock(false, r.cur))
  }

  lemma WakeEffect(k: Threads, a: Addr)
    ensures var r := Wakeup(k, a); Grew(k, r) && r.locks == k.locks && r.cur == k.cur
  {
    hide Wakeup, Those;
    WakeupIs(k, a);
  }

  lemma VEffect(k: Threads, s: nat)
    requires s < |k.sems|
    ensures var r := DoV(k, s); Grew(k, r) && r.locks == k.locks
  {
    hide Wakeup, Grew;
    var j := k.(sems := k.sems[s := Sem(k.sems[s].count + 1)]);
    WakeEffect(j, OnSem(s));
    GrewFrom(k, j, Wakeup(j, OnSem(s)));
  }

  lemma GrewFrom(k: Threads, j: Threads, r: Threads)
    requires Grew(j, r) && j.runq == k.runq && j.smax == k.smax && j.zombies == k.zombies && j.gone == k.gone
    ensures Grew(k, r)
  {
  }

  lemma ReleaseEffect(k: Threads, x: nat)
    requires x < |k.locks|
    ensures var r := DoRelease(k, x);
            && Grew(k, r) && |r.locks| == |k.locks|
            && forall l: nat | l < |k.locks| :: LockMoved(k, r, Release(x), l)
  {
    hide Wakeup;
    if k.locks[x].holder == k.cur {
      var j := k.(locks := k.locks[x := Lock(true, None)]);
      WakeEffect(j, OnLock(x));
      GrewFrom(k, j, Wakeup(j, OnLock(x)));
    }
  }

  lemma TryPEffect(k: Threads, s: nat)
    requires Running(k) && s < |k.sems|
    ensures var r := TryP(k, s); Grew(k, r) && r.runq == k.runq && r.zombies == k.zombies && r.locks == k.locks
  {
  }

  lemma TryLockEffect(k: Threads, x: nat)
    requires Running(k) && x < |k.locks|
    ensures var r := TryLock(k, x);
            && Grew(k, r) && r.runq == k.runq && r.zombies == k.zombies && |r.locks| == |k.locks|
            && forall e, l: nat | l < |k.locks| :: LockMoved(k, r, e, l)
  {
  }

  lemma ForkEffect(k: Threads, lack: Shortage)
    requires k.qsize > 0
    ensures var r := DoFork(k, lack); Grew(k, r) && r.locks == k.locks
  {
  }

  lemma SimpleEffect(k: Threads, e: Event)
    requires Enabled(k, e) && (e.Yield? || e.Exit? || e.SemCreate? || e.LockCreate? || e.TryAcquire?)
    ensures var r := Step(k, e);
            && Grew(k, r) && |k.locks| <= |r.locks|
            && forall l: nat | l < |k.locks| :: LockMoved(k, r, e, l)
  {
  }

  /** Every step but the scheduler's choice. */
  lemma StepEffect(k: Threads, e: Event)
    requires Enabled(k, e) && e != Pick
    ensures var r := Step(k, e);
            && Grew(k, r) && |k.locks| <= |r.locks|
            && forall l: nat | l < |k.locks| :: LockMoved(k, r, e, l)
  {
    hide Grew, DoFork, TryP, DoV, TryLock, DoRelease;
    match e
    case Fork(lack) => ForkEffect(k, lack);
    case P(s) => TryPEffect(k, s);
    case V(s) => VEffect(k, s);
    case Acquire(l) => TryLockEffect(k, l);
    case Release(l) => ReleaseEffect(k, l);
    case _ => SimpleEffect(k, e);
  }

  /** The scheduler's choice, with what the chosen thread does at once. */
  lemma PickEffect(k: Threads)
    requires Enabled(k, Pick)
    ensures var r := Step(k, Pick);
            && r.runq == k.runq[1..] && k.smax <= r.smax && |k.locks| == |r.locks|
            && ((r.zombies == k.zombies && r.gone == k.gone) || (r.zombies == [] && r.gone == k.gone + Elements(k.zombies)))
            && forall l: nat | l < |k.locks| :: LockMoved(k, r, Pick, l)
  {
    hide Grew, TryP, TryLock, Elements;
    var c, t := Chosen(k), k.runq[0];
    match c.pc[t]
    case InP(s) =>
      if s < |c.sems| {
        var j := Exorcised(c).(addr := c.addr[t := None]);
        TryPEffect(j, s);
        GrewParts(j, TryP(j, s));
      }
    case InAcquire(l) =>
      if l < |c.locks| {
        var j := Exorcised(c).(addr := c.addr[t := None]);
        TryLockEffect(j, l);
        GrewParts(j, TryLock(j, l));
        forall x: nat | x < |k.locks|
          ensures LockMoved(k, TryLock(j, l), Pick, x)
        {
          assert LockMoved(j, TryLock(j, l), Pick, x);
        }
      }
    case _ =>
  }

  lemma GrewParts(k: Threads, r: Threads)
    requires Grew(k, r)
    ensures k.smax <= r.smax && r.gone == k.gone
  {
  }

  // ---- places ----

  function Occurs(s: seq<nat>, t: nat): (n: nat)
  {
    multiset(s)[t]
  }

  /** Every thread ever made is, once, in exactly one place, or has been destroyed; the live ones are counted. */
  lemma OnePlace(es: seq<Event>, t: nat)
    ensures var k := Run(Boot(), es);
            && (t < |k.pc| <==> t in k.gone || Occurs(CurList(k), t) + Occurs(k.runq, t) + Occurs(k.sleepers, t) + Occurs(k.zombies, t) == 1)
            && (t in k.gone || t >= |k.pc| ==> k.cur != Some(t) && t !in k.runq && t !in k.sleepers && t !in k.zombies)
            && k.num == |CurList(k)| + |k.runq| + |k.sleepers|
  {
    hide Run;
    var k := Run(Boot(), es);
    RunKeeps(es);
    assert Everywhere(k)[t] == Occurs(CurList(k), t) + Occurs(k.runq, t) + Occurs(k.sleepers, t) + Occurs(k.zombies, t);
    assert t in k.runq <==> t in multiset(k.runq);
    assert t in k.sleepers <==> t in multiset(k.sleepers);
    assert t in k.zombies <==> t in multiset(k.zombies);
    assert t in CurList(k) <==> t in multiset(CurList(k));
  }

  ghost predicate Dead(k: Threads, t: nat)
  {
    t in k.zombies || t in k.gone
  }

  /** A zombie is never chosen again, whatever happens. */
  lemma DeadStaysDead(k: Threads, e: Event, t: nat)
    requires Inv(k) && Dead(k, t)
    ensures Dead(Step(k, e), t) && k.cur != Some(t) && t !in k.runq
  {
    hide Step, Inv;
    DeadIsNowhere(k, t);
    if !Enabled(k, e) {
      StepIdle(k, e);
    } else if e == Pick {
      PickEffect(k);
      ElementsAre(k.zombies, t);
      assert t in k.zombies <==> t in multiset(k.zombies);
    } else {
      StepEffect(k, e);
      if t in k.zombies {
        var i: nat :| i < |k.zombies| && k.zombies[i] == t;
        PrefixAt(k.zombies, Step(k, e).zombies, i);
      }
    }
  }

  lemma StepIdle(k: Threads, e: Event)
    requires !Enabled(k, e)
    ensures Step(k, e) == k
  {
  }

  lemma DeadIsNowhere(k: Threads, t: nat)
    requires Inv(k) && Dead(k, t)
    ensures k.cur != Some(t) && t !in k.runq && t !in k.sleepers
  {
    assert Everywhere(k)[t] <= 1;
    assert t in k.runq <==> t in multiset(k.runq);
    assert t in k.sleepers <==> t in multiset(k.sleepers);
    assert t in k.zombies <==> t in multiset(k.zombies);
    assert t in CurList(k) <==> t in multiset(CurList(k));
    if t in k.gone {
      assert Everywhere(k)[t] == 0;
    }
  }

  // ---- semaphores and locks ----

  /** No lost wakeup: in every reachable state nobody sleeps on a positive count. */
  lemma NobodySleepsOnCount(es: seq<Event>, s: nat)
    requires s < |Run(Boot(), es).sems|
    ensures var k := Run(Boot(), es); k.sems[s].count > 0 ==> NobodyOn(k, OnSem(s))
  {
    hide Run, Placed, RoomOk;
    RunKeeps(es);
    assert SemOk(Run(Boot(), es), s);
  }

  lemma LockLaw(es: seq<Event>, l: nat)
    requires l < |Run(Boot(), es).locks|
    ensures var k := Run(Boot(), es);
            && (k.locks[l].available <==> k.locks[l].holder.None?)
            && (k.locks[l].available ==> NobodyOn(k, OnLock(l)))
  {
    hide Run, Placed, RoomOk;
    RunKeeps(es);
    assert LockOk(Run(Boot(), es), l);
  }

  /** A lock changes hands only through its holder's own release. */
  lemma OnlyHolderReleases(k: Threads, e: Event, l: nat, t: nat)
    requires Inv(k) && l < |k.locks| && k.locks[l].holder == Some(t)
    ensures var r := Step(k, e);
            l < |r.locks| && (r.locks[l] == k.locks[l] || (e == Release(l) && k.cur == Some(t) && r.locks[l] == Lock(true, None)))
  {
    hide Step, Placed, RoomOk;
    assert LockOk(k, l);
    LockEffect(k, e, l);
  }

  /** A free lock is taken only by the thread that runs. */
  lemma FreeLockTaken(k: Threads, e: Event, l: nat)
    requires Inv(k) && l < |k.locks| && k.locks[l].available
    ensures var r := Step(k, e);
            && l < |r.locks|
            && (r.locks[l] == Lock(true, None) || (r.cur.Some? && r.locks[l] == Lock(false, r.cur)))
  {
    hide Step, Placed, RoomOk;
    assert LockOk(k, l);
    LockEffect(k, e, l);
  }

  lemma LockEffect(k: Threads, e: Event, l: nat)
    requires l < |k.locks|
    ensures l < |Step(k, e).locks| && |k.locks| <= |Step(k, e).locks| && LockMoved(k, Step(k, e), e, l)
  {
    hide Step;
    if !Enabled(k, e) {
      StepIdle(k, e);
    } else if e == Pick {
      PickEffect(k);
    } else {
      StepEffect(k, e);
    }
  }

  // ---- room ----

  /**
   Going to sleep takes storage exactly while the sleepers array is still
   empty-handed, which no fork or sleep has happened to change; afterwards it
   never does.
   */
  lemma SleepTakesStorage(k: Threads)
    requires Inv(k) && Running(k)
    ensures |k.sleepers| == k.smax <==> k.smax == 0
    ensures k.smax > 0 ==> forall a :: SleepOn(k, a).smax == k.smax
  {
  }

  lemma {:induction false} StorageStays(k: Threads, es: seq<Event>)
    ensures k.smax <= Run(k, es).smax
  {
    if es != [] {
      var j := Run(k, es[..|es| - 1]);
      StorageStays(k, es[..|es| - 1]);
      StepStorage(j, es[|es| - 1]);
    }
  }

  lemma StepStorage(k: Threads, e: Event)
    ensures k.smax <= Step(k, e).smax
  {
    hide Step;
    if !Enabled(k, e) {
      StepIdle(k, e);
    } else if e == Pick {
      PickEffect(k);
    } else {
      StepEffect(k, e);
    }
  }

  /** The first thread to sleep before any fork does take storage. */
  lemma FirstSleepTakesStorage()
    ensures var k := Run(Boot(), [SemCreate(0), P(0)]); k.sleepers == [0] && k.smax == 2 && Boot().smax == 0
  {
  }

  /** A wakeup by a running thread, or under one, never makes the ring grow. */
  lemma WakeupNeedsNoRoom(k: Threads, a: Addr)
    requires Inv(k) && Running(k)
    ensures Wakeup(k, a).qsize == k.qsize
  {
    hide Everywhere, Wakeup;
    WakeupIs(k, a);
  }

  /** thread_fork makes room first; adding the new thread then never grows the ring. */
  lemma ForkNeedsNoRoom(k: Threads, lack: Shortage)
    requires Inv(k) && Running(k)
    ensures DoFork(k, lack).qsize == k.qsize || DoFork(k, lack).qsize == Doubled(k.qsize, k.num + 1)
    ensures |k.runq| + 1 < Doubled(k.qsize, k.num + 1)
  {
  }

  /** A yield, by contrast, grows the ring exactly when every other thread waits in it and it is full. */
  lemma YieldGrows(k: Threads)
    requires Inv(k) && Running(k)
    ensures DoYield(k).qsize > k.qsize <==> |k.runq| == k.qsize - 1
    ensures DoYield(k).qsize > k.qsize ==> k.num == k.qsize && k.sleepers == []
  {
  }

  // ---- order ----

  /** Only the scheduler takes from the run queue, and only its head; everything else adds at the tail. */
  lemma StepOrder(k: Threads, e: Event)
    ensures e == Pick && Enabled(k, e) ==> Step(k, e).runq == k.runq[1..]
    ensures !(e == Pick && Enabled(k, e)) ==> Prefix(k.runq, Step(k, e).runq)
  {
    hide Step;
    if !Enabled(k, e) {
      StepIdle(k, e);
    } else if e == Pick {
      PickEffect(k);
    } else {
      StepEffect(k, e);
    }
  }

  /** How often the scheduler chooses during a run. */
  ghost function Picks(k: Threads, es: seq<Event>): (n: nat)
  {
    if es == [] then 0
    else Picks(k, es[..|es| - 1]) + if es[|es| - 1] == Pick && Enabled(Run(k, es[..|es| - 1]), Pick) then 1 else 0
  }

  /** A thread at position `i` moves up by one with every choice, whatever else happens. */
  lemma {:induction false} MovesUp(k: Threads, es: seq<Event>, i: nat)
    requires Picks(k, es) <= i < |k.runq|
    ensures var r := Run(k, es); i - Picks(k, es) < |r.runq| && r.runq[i - Picks(k, es)] == k.runq[i]
  {
    hide Step, Enabled;
    if es != [] {
      var j, e := Run(k, es[..|es| - 1]), es[|es| - 1];
      MovesUp(k, es[..|es| - 1], i);
      StepOrder(j, e);
      if !(e == Pick && Enabled(j, e)) {
        PrefixAt(j.runq, Step(j, e).runq, i - Picks(k, es));
      }
    }
  }

  /** So it runs after exactly `i` further choices. */
  lemma RunsAfter(k: Threads, es: seq<Event>, i: nat)
    requires i < |k.runq| && Picks(k, es) == i
    requires var r := Run(k, es); Inv(r) && r.cur.None?
    ensures var r := Run(k, es); Enabled(r, Pick) && Chosen(r).cur == Some(k.runq[i])
  {
    hide Run, Picks, Core;
    MovesUp(k, es, i);
    var r := Run(k, es);
    ChosenRunning(r);
  }

  lemma ChosenRunning(k: Threads)
    requires Inv(k) && k.cur.None? && k.runq != []
    ensures k.runq[0] < |k.pc| && k.runq[0] < |k.addr|
  {
    hide Core, Chosen;
    ChosenCore(k);
    ChosenIs(k);
  }

  lemma ChosenIs(k: Threads)
    requires k.runq != []
    ensures Chosen(k).cur == Some(k.runq[0]) && Chosen(k).pc == k.pc && Chosen(k).addr == k.addr
  {
  }
}
