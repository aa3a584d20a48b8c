/**
 Semaphores and locks told from outside: from the calls made in a run and from
 whether they came back, and not from what the thread system keeps about them.
 */
module ThreadSync {
  import opened Basics
  import opened Arrays
  import opened Queues
  import opened ThreadState
  import opened ThreadProofs
  import opened ThreadTheorems

  /** The run without its last event, and where it leads. */
  ghost function Before(es: seq<Event>): (k: Threads)
    requires es != []
  {
    Run(Boot(), es[..|es| - 1])
  }

  /** With this step thread `t`, called or chosen, is past its wait loop: it runs, and is anywhere else. */
  ghost predicate ComesBack(k: Threads, e: Event, t: nat, call: Event, waiting: Pc)
  {
    var r := Step(k, e);
    && Enabled(k, e) && r.cur == Some(t) && t < |k.pc| && t < |r.pc| && r.pc[t] == Elsewhere
    && if e == Pick then k.runq[0] == t && k.pc[t] == waiting else e == call && k.cur == Some(t)
  }

  // ---- semaphores ----

  /** With this step thread `t` comes back from P. */
  ghost predicate PReturns(k: Threads, e: Event, t: nat, s: nat)
  {
    ComesBack(k, e, t, P(s), InP(s))
  }

  ghost predicate PBack(k: Threads, e: Event, s: nat)
  {
    exists t: nat :: PReturns(k, e, t, s)
  }

  /** The initial counts of the semaphores made in a run. */
  ghost function Inits(es: seq<Event>): (r: seq<nat>)
  {
    if es == [] then []
    else
      var e := es[|es| - 1];
      Inits(es[..|es| - 1]) + if e.SemCreate? && Enabled(Before(es), e) then [e.n] else []
  }

  /** How often V was called on a semaphore in a run. */
  ghost function Vs(es: seq<Event>, s: nat): (n: nat)
  {
    if es == [] then 0
    else Vs(es[..|es| - 1], s) + if es[|es| - 1] == V(s) && Enabled(Before(es), V(s)) then 1 else 0
  }

  /** How often P came back. */
  ghost function Ps(es: seq<Event>, s: nat): (n: nat)
  {
    if es == [] then 0 else Ps(es[..|es| - 1], s) + if PBack(Before(es), es[|es| - 1], s) then 1 else 0
  }

  lemma VCounts(k: Threads, x: nat, s: nat)
    requires x < |k.sems| && s < |k.sems|
    ensures var r := DoV(k, x);
            && |r.sems| == |k.sems| && r.sems[s].count == k.sems[s].count + (if x == s then 1 else 0)
            && r.cur == k.cur && r.pc == k.pc
  {
    hide Wakeup, Those, Others, NobodyOn;
    WakeupIs(k.(sems := k.sems[x := Sem(k.sems[x].count + 1)]), OnSem(x));
  }

  lemma ReleaseCounts(k: Threads, l: nat)
    requires l < |k.locks|
    ensures var r := DoRelease(k, l); r.sems == k.sems && r.cur == k.cur && r.pc == k.pc
  {
    hide Wakeup, Those, Others, NobodyOn;
    WakeupIs(k.(locks := k.locks[l := Lock(true, None)]), OnLock(l));
  }

  lemma ChosenPc(k: Threads)
    requires Inv(k) && Enabled(k, Pick)
    ensures PcOk(k, k.runq[0])
  {
  }

  lemma PickCounts(k: Threads, s: nat)
    requires Inv(k) && Enabled(k, Pick) && s < |k.sems|
    ensures var r := Step(k, Pick);
            && |r.sems| == |k.sems|
            && r.sems[s].count + (if PReturns(k, Pick, k.runq[0], s) then 1 else 0) == k.sems[s].count
  {
    hide Inv, Elements;
    ChosenPc(k);
  }

  /** The scheduler brings nobody back but the thread it chose. */
  lemma OnlyChosenBack(k: Threads, s: nat)
    requires Enabled(k, Pick)
    ensures PBack(k, Pick, s) <==> PReturns(k, Pick, k.runq[0], s)
  {
  }

  lemma OnlyCallerBack(k: Threads, e: Event, s: nat)
    requires e != Pick
    ensures PBack(k, e, s) <==> e == P(s) && k.cur.Some? && PReturns(k, e, k.cur.value, s)
  {
  }

  /** A V raises its count by one, a P that comes back lowers it by one, and nothing else changes it. */
  lemma SemStep(k: Threads, e: Event, s: nat)
    requires Inv(k) && s < |k.sems|
    ensures var r := Step(k, e);
            && s < |r.sems|
            && r.sems[s].count + (if PBack(k, e, s) then 1 else 0) == k.sems[s].count + (if e == V(s) then 1 else 0)
  {
    hide Inv, DoFork, DoV, DoRelease, Resume, Elements, PBack;
    if !Enabled(k, e) {
      NotBack(k, e, s);
    } else if e == Pick {
      OnlyChosenBack(k, s);
      PickCounts(k, s);
    } else {
      OnlyCallerBack(k, e, s);
      match e {
        case V(x) => VCounts(k, x, s);
        case Release(l) => ReleaseCounts(k, l);
        case Fork(lack) => ForkSems(k, lack);
        case _ =>
      }
    }
  }

  lemma NotBack(k: Threads, e: Event, s: nat)
    requires !Enabled(k, e)
    ensures !PBack(k, e, s) && Step(k, e) == k && (e == V(s) ==> s >= |k.sems|)
  {
  }

  lemma ForkSems(k: Threads, lack: Shortage)
    requires k.qsize > 0
    ensures DoFork(k, lack).sems == k.sems && DoFork(k, lack).locks == k.locks
  {
  }

  lemma SemsMade(k: Threads, e: Event)
    ensures |Step(k, e).sems| == |k.sems| + (if e.SemCreate? && Enabled(k, e) then 1 else 0)
    ensures e.SemCreate? && Enabled(k, e) ==> Step(k, e).sems[|k.sems|].count == e.n
  {
    hide DoFork, DoV, DoRelease;
    if Enabled(k, e) {
      match e {
        case V(x) => VCounts(k, x, x);
        case Release(l) => ReleaseCounts(k, l);
        case Fork(lack) => ForkSems(k, lack);
        case _ =>
      }
    }
  }

  lemma NotYet(k: Threads, e: Event, s: nat)
    requires Inv(k) && s >= |k.sems|
    ensures !PBack(k, e, s) && !(e == V(s) && Enabled(k, e))
  {
    hide Core, Step;
    if e == Pick && Enabled(k, e) {
      ChosenPc(k);
    }
  }

  /** The counts of semaphores not made yet are no counts. */
  lemma {:induction false} NothingBefore(es: seq<Event>, s: nat)
    requires s >= |Run(Boot(), es).sems|
    ensures Vs(es, s) == 0 && Ps(es, s) == 0
  {
    hide Step, PBack, Enabled;
    if es != [] {
      var k, e := Before(es), es[|es| - 1];
      SemsMade(k, e);
      NothingBefore(es[..|es| - 1], s);
      RunKeeps(es[..|es| - 1]);
      NotYet(k, e, s);
    }
  }

  /**
   The law of counting semaphores, in every run: the count is the initial
   value, plus the calls of V, minus the Ps that have come back.
   */
  lemma {:induction false} SemaphoreLaw(es: seq<Event>, s: nat)
    ensures |Run(Boot(), es).sems| == |Inits(es)|
    ensures s < |Inits(es)| ==> Run(Boot(), es).sems[s].count == Inits(es)[s] + Vs(es, s) - Ps(es, s)
  {
    hide Step, PBack, Enabled, Inv;
    if es != [] {
      var k, e := Before(es), es[|es| - 1];
      SemaphoreLaw(es[..|es| - 1], s);
      RunKeeps(es[..|es| - 1]);
      SemsMade(k, e);
      if s < |k.sems| {
        SemStep(k, e, s);
        VAlways(k, s);
      } else if s == |k.sems| {
        NothingBefore(es[..|es| - 1], s);
        NotYet(k, e, s);
      }
    }
  }

  lemma VAlways(k: Threads, s: nat)
    requires s < |k.sems|
    ensures Enabled(k, V(s))
  {
  }

  /** So no more Ps come back than the initial value and the Vs allow. */
  lemma NoMoreThanAllowed(es: seq<Event>, s: nat)
    requires s < |Inits(es)|
    ensures Ps(es, s) <= Inits(es)[s] + Vs(es, s)
  {
    hide Run, Inits, Vs, Ps;
    SemaphoreLaw(es, s);
  }

  /** P comes back at once exactly when the count is positive; otherwise the caller sleeps on the semaphore. */
  lemma PTakesOrSleeps(k: Threads, s: nat, t: nat)
    requires Inv(k) && k.cur == Some(t) && s < |k.sems|
    ensures var r := Step(k, P(s));
            && (PReturns(k, P(s), t, s) <==> k.sems[s].count > 0)
            && (k.sems[s].count == 0 ==> r.cur == None && t in r.sleepers && WaitsOn(r, t, OnSem(s)))
  {
    hide Core;
    assert (k.sleepers + [t])[|k.sleepers|] == t;
  }

  // ---- locks ----

  /** With this step thread `t` comes back from lock_acquire, or from a lock_try_acquire_alert that says yes. */
  ghost predicate LockReturns(k: Threads, e: Event, t: nat, l: nat)
  {
    || ComesBack(k, e, t, Acquire(l), InAcquire(l))
    || (e == TryAcquire(l) && Enabled(k, e) && k.cur == Some(t) && TryAnswer(k, l))
  }

  /** Thread `t` has come back with the lock and has not called lock_release since. */
  ghost predicate InSection(es: seq<Event>, l: nat, t: nat)
  {
    es != [] &&
    var e := es[|es| - 1];
    if LockReturns(Before(es), e, t, l) then true
    else if e == Release(l) && Enabled(Before(es), e) && Before(es).cur == Some(t) then false
    else InSection(es[..|es| - 1], l, t)
  }

  lemma ReleaseLocks(k: Threads, x: nat)
    requires x < |k.locks|
    ensures DoRelease(k, x).locks == if k.locks[x].holder == k.cur then k.locks[x := Lock(true, None)] else k.locks
  {
    hide Wakeup, Those, Others, NobodyOn;
    WakeupIs(k.(locks := k.locks[x := Lock(true, None)]), OnLock(x));
  }

  lemma VLocks(k: Threads, x: nat)
    requires x < |k.sems|
    ensures DoV(k, x).locks == k.locks
  {
    hide Wakeup, Those, Others, NobodyOn;
    WakeupIs(k.(sems := k.sems[x := Sem(k.sems[x].count + 1)]), OnSem(x));
  }

  lemma PickLocks(k: Threads, l: nat)
    requires Inv(k) && Enabled(k, Pick) && l < |k.locks|
    ensures var r, t := Step(k, Pick), k.runq[0];
            && |r.locks| == |k.locks|
            && r.locks[l] == (if LockReturns(k, Pick, t, l) then Lock(false, Some(t)) else k.locks[l])
            && forall u: nat :: LockReturns(k, Pick, u, l) ==> u == t && k.locks[l].available
  {
    hide Inv, Elements;
    ChosenPc(k);
  }

  /** Coming back with the lock takes it, its holder's release frees it, and nothing else changes it. */
  lemma LockStep(k: Threads, e: Event, l: nat, t: nat)
    requires Inv(k) && l < |k.locks|
    ensures var r := Step(k, e);
            && l < |r.locks|
            && (LockReturns(k, e, t, l) ==> k.locks[l].available && r.locks[l] == Lock(false, Some(t)))
            && (e == Release(l) && k.locks[l].holder == k.cur ==> r.locks[l] == Lock(true, None))
            && (r.locks[l].holder == Some(t) ==> LockReturns(k, e, t, l) || k.locks[l].holder == Some(t))
            && (k.locks[l].holder == Some(t) && !(e == Release(l) && k.cur == Some(t)) ==> r.locks[l] == k.locks[l])
  {
    hide Core, DoFork, DoV, DoRelease, Resume, Elements;
    assert LockOk(k, l) by { LockHolds(k, l); }
    if Enabled(k, e) {
      match e {
        case Pick => PickLocks(k, l);
        case V(x) => VLocks(k, x);
        case Release(x) => ReleaseLocks(k, x);
        case Fork(lack) => ForkSems(k, lack);
        case _ =>
      }
    }
  }

  lemma LockHolds(k: Threads, l: nat)
    requires Inv(k) && l < |k.locks|
    ensures LockOk(k, l)
  {
    hide Placed, RoomOk;
  }

  lemma LocksMade(k: Threads, e: Event)
    ensures |Step(k, e).locks| == |k.locks| + (if e == LockCreate && Enabled(k, e) then 1 else 0)
    ensures e == LockCreate && Enabled(k, e) ==> Step(k, e).locks[|k.locks|] == Lock(true, None)
  {
    hide DoFork, DoV, DoRelease;
    if Enabled(k, e) {
      match e {
        case V(x) => VLocks(k, x);
        case Release(l) => ReleaseLocks(k, l);
        case Fork(lack) => ForkSems(k, lack);
        case _ =>
      }
    }
  }

  lemma NoLockYet(k: Threads, e: Event, l: nat, t: nat)
    requires Inv(k) && l >= |k.locks|
    ensures !LockReturns(k, e, t, l)
  {
    hide Core, Step;
    if e == Pick && Enabled(k, e) {
      ChosenPc(k);
    }
  }

  lemma {:induction false} NobodyBefore(es: seq<Event>, l: nat, t: nat)
    requires l >= |Run(Boot(), es).locks|
    ensures !InSection(es, l, t)
  {
    hide Step, LockReturns, Enabled, Inv;
    if es != [] {
      var k, e := Before(es), es[|es| - 1];
      LocksMade(k, e);
      NobodyBefore(es[..|es| - 1], l, t);
      RunKeeps(es[..|es| - 1]);
      NoLockYet(k, e, l, t);
    }
  }

  /** The holder recorded in a lock is the thread between acquire and release, in every run. */
  lemma {:induction false} HolderIsInSection(es: seq<Event>, l: nat, t: nat)
    requires l < |Run(Boot(), es).locks|
    ensures Run(Boot(), es).locks[l].holder == Some(t) <==> InSection(es, l, t)
  {
    hide Step, LockReturns, Enabled, Inv;
    if es != [] {
      var k, e := Before(es), es[|es| - 1];
      RunKeeps(es[..|es| - 1]);
      LocksMade(k, e);
      if l < |k.locks| {
        HolderIsInSection(es[..|es| - 1], l, t);
        LockStep(k, e, l, t);
        ReleaseAlways(k, l);
      } else {
        NobodyBefore(es[..|es| - 1], l, t);
        NoLockYet(k, e, l, t);
      }
    }
  }

  lemma ReleaseAlways(k: Threads, l: nat)
    requires l < |k.locks|
    ensures Enabled(k, Release(l))
  {
  }

  /** Mutual exclusion: in no run are two threads between acquire and release of one lock. */
  lemma MutualExclusion(es: seq<Event>, l: nat, t: nat, u: nat)
    requires InSection(es, l, t) && InSection(es, l, u)
    ensures t == u
  {
    hide Run, InSection;
    if l < |Run(Boot(), es).locks| {
      HolderIsInSection(es, l, t);
      HolderIsInSection(es, l, u);
    } else {
      NobodyBefore(es, l, t);
    }
  }

  /** After its holder's release a lock is free, and nobody is in the section. */
  lemma ReleaseFrees(es: seq<Event>, l: nat, t: nat, u: nat)
    requires InSection(es, l, t) && Run(Boot(), es).cur == Some(t)
    ensures var r := Run(Boot(), es + [Release(l)]);
            && l < |r.locks| && r.locks[l] == Lock(true, None)
            && !InSection(es + [Release(l)], l, u)
  {
    hide Step, InSection, LockReturns, Enabled, Inv;
    var fs := es + [Release(l)];
    assert fs[..|fs| - 1] == es;
    if l >= |Run(Boot(), es).locks| {
      NobodyBefore(es, l, t);
    }
    RunKeeps(es);
    HolderIsInSection(es, l, t);
    LockStep(Run(Boot(), es), Release(l), l, t);
    HolderIsInSection(fs, l, u);
  }

  lemma FreeMeansNobody(es: seq<Event>, l: nat)
    requires l < |Run(Boot(), es).locks|
    ensures Run(Boot(), es).locks[l].available <==> forall u: nat :: !InSection(es, l, u)
  {
    hide Run, Inv;
    var k := Run(Boot(), es);
    RunKeeps(es);
    LockHolds(k, l);
    if k.locks[l].available {
      forall u: nat
        ensures !InSection(es, l, u)
      {
        HolderIsInSection(es, l, u);
      }
    } else {
      HolderIsInSection(es, l, k.locks[l].holder.value);
    }
  }

  /** lock_acquire comes back at once, and a try says yes, exactly when nobody is in the section; otherwise the caller sleeps. */
  lemma AcquireTakesOrSleeps(es: seq<Event>, l: nat, t: nat)
    requires var k := Run(Boot(), es); l < |k.locks| && k.cur == Some(t)
    ensures var k := Run(Boot(), es); var r := Step(k, Acquire(l));
            && (LockReturns(k, Acquire(l), t, l) <==> forall u: nat :: !InSection(es, l, u))
            && (TryAnswer(k, l) <==> forall u: nat :: !InSection(es, l, u))
            && (!LockReturns(k, Acquire(l), t, l) ==> r.cur == None && t in r.sleepers && WaitsOn(r, t, OnLock(l)))
  {
    hide Run, InSection, Core;
    var k := Run(Boot(), es);
    RunKeeps(es);
    LockHolds(k, l);
    assert (k.sleepers + [t])[|k.sleepers|] == t;
    FreeMeansNobody(es, l);
  }

  // ---- threads that end, begin and give way ----

  /** A thread that has exited is dead in every state of the run from then on. */
  lemma {:induction false} ExitIsForever(es: seq<Event>, i: nat, t: nat)
    requires i < |es| && es[i] == Exit
    requires var k := Run(Boot(), es[..i]); Enabled(k, Exit) && k.cur == Some(t)
    ensures Dead(Run(Boot(), es), t)
    decreases |es|
  {
    hide Step, Dead, Inv, Enabled;
    var n := |es| - 1;
    RunKeeps(es[..n]);
    if i == n {
      ExitDies(Run(Boot(), es[..n]), t);
    } else {
      assert es[..n][..i] == es[..i];
      ExitIsForever(es[..n], i, t);
      DeadStaysDead(Run(Boot(), es[..n]), es[n], t);
    }
  }

  lemma ExitDies(k: Threads, t: nat)
    requires Enabled(k, Exit) && k.cur == Some(t)
    ensures Dead(Step(k, Exit), t)
  {
    assert (k.zombies + [t])[|k.zombies|] == t;
  }

  /** A thread that yields is last in the run queue, so it runs again after all who were in it. */
  lemma YieldRunsAgain(k: Threads, es: seq<Event>, t: nat)
    requires Inv(k) && k.cur == Some(t)
    requires var j := Step(k, Yield); Picks(j, es) == |k.runq| && Run(j, es).cur.None? && Inv(Run(j, es))
    ensures var r := Run(Step(k, Yield), es); Enabled(r, Pick) && Chosen(r).cur == Some(t)
  {
    hide Core, Run, Picks;
    RunsAfter(Step(k, Yield), es, |k.runq|);
  }

  /** So is a thread just forked, which begins to run then. */
  lemma ForkRuns(k: Threads, es: seq<Event>)
    requires Inv(k) && Running(k)
    requires var j := Step(k, Fork(Nothing)); Picks(j, es) == |k.runq| && Run(j, es).cur.None? && Inv(Run(j, es))
    ensures var r := Run(Step(k, Fork(Nothing)), es); Enabled(r, Pick) && Chosen(r).cur == Some(|k.pc|)
    ensures Step(k, Fork(Nothing)).num == k.num + 1
  {
    hide Placed, Run, Picks, Doubled, NewMax;
    RunsAfter(Step(k, Fork(Nothing)), es, |k.runq|);
  }

  /** A fork that fails makes no thread and changes nothing that the others can see. */
  lemma ForkFails(k: Threads, lack: Shortage)
    requires Inv(k) && Running(k)
    ensures var r := Step(k, Fork(lack));
            if lack.Nothing? || (lack.ForRunQueue? && k.num < k.qsize)
            then |r.pc| == |k.pc| + 1 && r.num == k.num + 1 && r.runq == k.runq + [|k.pc|]
            else r == k.(smax := r.smax) && k.smax <= r.smax
  {
    hide Placed, Doubled;
  }

  /** The dead are destroyed, all of them, by the next thread that comes back from a switch; a new one leaves them. */
  lemma ZombiesGo(k: Threads, t: nat)
    requires Inv(k) && Enabled(k, Pick) && t in k.zombies
    ensures var r := Step(k, Pick);
            if k.pc[k.runq[0]] == Fresh then r.zombies == k.zombies && r.gone == k.gone
            else r.zombies == [] && t in r.gone
  {
    hide Inv;
    ChosenPc(k);
    ElementsAre(k.zombies, t);
  }
}
