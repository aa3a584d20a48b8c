/**
 thread.c, scheduler.c and synch.c as code over the ring buffer and the
 resizable array, each routine tied to its step of the state machine. A
 routine that switches threads is cut where the scheduler takes over; the
 rest of it is run by Dispatch when the thread is chosen again.
 */
module ThreadSystem {
  import opened Basics
  import opened Arrays
  import opened Queues
  import opened ThreadState
  import opened ThreadProofs

  class Kernel {
    var curthread: Option<nat>
    var runqueue: Queue<nat>
    var sleepers: Array<nat>
    var zombies: Array<nat>
    var numthreads: nat
    var sleepaddr: seq<Option<Addr>>
    var pc: seq<Pc>
    var sems: seq<Sem>
    var locks: seq<Lock>
    ghost var gone: set<nat>

    ghost function Repr(): (r: set<object>)
      reads this, runqueue, sleepers, zombies
    {
      {this, runqueue, runqueue.data, sleepers, sleepers.v, zombies, zombies.v}
    }

    ghost predicate Valid()
      reads this, runqueue, sleepers, zombies
    {
      && runqueue.Valid() && sleepers.Valid() && zombies.Valid()
      && sleepers != zombies && sleepers.v != zombies.v
      && runqueue.data != sleepers.v && runqueue.data != zombies.v
    }

    ghost function View(): (k: Threads)
      requires Valid()
      reads this, runqueue, runqueue.data, sleepers, sleepers.v, zombies, zombies.v
    {
      Threads(curthread, runqueue.Contents(), sleepers.Contents(), zombies.Contents(), gone, numthreads,
              pc, sleepaddr, sems, locks, runqueue.size, sleepers.max)
    }

    /** thread_bootstrap and scheduler_bootstrap. */
    constructor ()
      ensures Valid() && View() == Boot() && fresh(Repr())
    {
      curthread := Some(0);
      var q, s, z := Lists();
      runqueue, sleepers, zombies := q, s, z;
      numthreads := 1;
      sleepaddr, pc, sems, locks, gone := [None], [Elsewhere], [], [], {};
      new;
      hide Ring;
    }

    static method Lists() returns (q: Queue<nat>, s: Array<nat>, z: Array<nat>)
      ensures q.Valid() && s.Valid() && z.Valid() && fresh({q, q.data, s, s.v, z, z.v})
      ensures q.Contents() == [] && s.Contents() == [] && z.Contents() == []
      ensures q.size == RUNQUEUE_SIZE && s.max == 0 && s != z && s.v != z.v && q.data != s.v && q.data != z.v
    {
      hide Ring;
      q := new Queue<nat>(RUNQUEUE_SIZE);
      s := new Array<nat>();
      z := new Array<nat>();
    }

    // ---- the scheduler ----

    method MakeRunnable(t: nat)
      requires Valid()
      modifies runqueue, runqueue.data
      ensures Valid() && (runqueue.data == old(runqueue.data) || fresh(runqueue.data))
      ensures View() == ThreadState.MakeRunnable(old(View()), t)
    {
      hide Ring;
      var r := runqueue.AddTail(t, true);
    }

    /** The sleeper at a position becomes runnable. */
    method WakeAt(i: nat)
      requires Valid() && i < sleepers.num
      modifies runqueue, runqueue.data, sleepers`num, sleepers.v
      ensures Valid() && (runqueue.data == old(runqueue.data) || fresh(runqueue.data))
      ensures sleepers.num == old(sleepers.num) - 1
      ensures var k := old(View());
              View() == ThreadState.MakeRunnable(k.(sleepers := Without(k.sleepers, i)), k.sleepers[i])
    {
      hide ThreadState.MakeRunnable, Ring;
      var t := sleepers.v[i];
      sleepers.Remove(i);
      MakeRunnable(t);
    }

    /** thread_wakeup. */
    method Wakeup(a: Addr)
      requires Valid()
      modifies runqueue, runqueue.data, sleepers`num, sleepers.v
      ensures Valid() && (runqueue.data == old(runqueue.data) || fresh(runqueue.data))
      ensures View() == ThreadState.Wakeup(old(View()), a)
    {
      hide ThreadState.MakeRunnable, Ring;
      var i := 0;
      while i < sleepers.num
        invariant Valid() && (runqueue.data == old(runqueue.data) || fresh(runqueue.data)) && i <= sleepers.num
        invariant Woken(View(), a, i) == Woken(old(View()), a, 0)
        decreases sleepers.num - i
      {
        var t := sleepers.v[i];
        assert t == View().sleepers[i];
        if t < |sleepaddr| && sleepaddr[t] == Some(a) {
          WakeAt(i);
        } else {
          i := i + 1;
        }
      }
    }

    /** The scheduler's choice, once the run queue is not empty. */
    method Choose()
      requires Valid() && View().runq != []
      modifies this`curthread, runqueue`nextread
      ensures Valid() && View() == Chosen(old(View()))
    {
      hide Ring;
      var t := runqueue.RemHead();
      curthread := Some(t);
    }

    // ---- leaving the processor ----

    method Sleep(a: Addr)
      requires Valid() && Running(View())
      modifies this`curthread, this`sleepaddr, sleepers, sleepers.v
      ensures Valid() && (sleepers.v == old(sleepers.v) || fresh(sleepers.v))
      ensures View() == SleepOn(old(View()), a)
    {
      hide Ring;
      var cur := curthread.value;
      sleepaddr := sleepaddr[cur := Some(a)];
      curthread := None;
      var r := sleepers.Add(cur, true);
    }

    method Yield()
      requires Valid() && Running(View())
      modifies this`curthread, runqueue, runqueue.data
      ensures Valid() && (runqueue.data == old(runqueue.data) || fresh(runqueue.data))
      ensures View() == DoYield(old(View()))
    {
      hide Ring;
      var cur := curthread.value;
      curthread := None;
      MakeRunnable(cur);
    }

    method Exit()
      requires Valid() && Running(View()) && numthreads > 0
      modifies this`curthread, this`numthreads, zombies, zombies.v
      ensures Valid() && (zombies.v == old(zombies.v) || fresh(zombies.v))
      ensures View() == DoExit(old(View()))
    {
      hide Ring;
      numthreads := numthreads - 1;
      var cur := curthread.value;
      curthread := None;
      var r := zombies.Add(cur, true);
    }

    /** Destroys the zombies, none of which is running. */
    method Exorcise()
      requires Valid() && (forall t | t in View().zombies :: curthread != Some(t))
      modifies this`gone, zombies
      ensures Valid() && (zombies.v == old(zombies.v) || fresh(zombies.v))
      ensures View() == Exorcised(old(View()))
    {
      hide Ring;
      var i := 0;
      ghost var k := View();
      while i < zombies.num
        invariant Valid() && i <= zombies.num == |k.zombies| && zombies.v == old(zombies.v)
        invariant gone == k.gone + Elements(k.zombies[..i])
        invariant View() == k.(gone := gone)
      {
        var z := zombies.v[i];
        assert z == k.zombies[i] && z in k.zombies;
        assert curthread != Some(z);
        ElementsNext(k.zombies, i);
        gone := gone + {z};
        i := i + 1;
      }
      assert k.zombies[..i] == k.zombies;
      var r := zombies.SetSize(0, true);
    }

    // ---- thread_fork ----

    /** Makes room for one more thread. */
    method Reserve(lack: Shortage) returns (ok: bool)
      requires Valid()
      modifies runqueue, sleepers, zombies
      ensures Valid() && (runqueue.data == old(runqueue.data) || fresh(runqueue.data))
      ensures (sleepers.v == old(sleepers.v) || fresh(sleepers.v)) && (zombies.v == old(zombies.v) || fresh(zombies.v))
      ensures var k := old(View());
              View() == if lack == ForSleepers then k
                        else k.(smax := NewMax(k.smax, k.num + 1), qsize := if ok then Doubled(k.qsize, k.num + 1) else k.qsize)
      ensures ok <==> lack == Nothing || (lack == ForRunQueue && numthreads + 1 <= old(runqueue.size))
    {
      hide Ring, Doubled, NewMax;
      ok := sleepers.Preallocate(numthreads + 1, lack != ForSleepers);
      if !ok {
        return;
      }
      ok := zombies.Preallocate(numthreads + 1, lack != ForZombies);
      if !ok {
        return;
      }
      ok := runqueue.Preallocate(numthreads + 1, lack != ForRunQueue);
    }

    /** The new thread becomes runnable and is counted. */
    method Launch()
      requires Valid()
      modifies this`pc, this`sleepaddr, this`numthreads, runqueue, runqueue.data
      ensures Valid() && (runqueue.data == old(runqueue.data) || fresh(runqueue.data))
      ensures View() == Launched(old(View()))
    {
      hide Ring;
      var child := |pc|;
      pc, sleepaddr := pc + [Fresh], sleepaddr + [None];
      MakeRunnable(child);
      numthreads := numthreads + 1;
    }

    method Fork(lack: Shortage) returns (ok: bool)
      requires Valid()
      modifies this`pc, this`sleepaddr, this`numthreads, runqueue, runqueue.data, sleepers, zombies
      ensures Valid() && (runqueue.data == old(runqueue.data) || fresh(runqueue.data))
      ensures (sleepers.v == old(sleepers.v) || fresh(sleepers.v)) && (zombies.v == old(zombies.v) || fresh(zombies.v))
      ensures View() == DoFork(old(View()), lack)
      ensures ok <==> lack == Nothing || (lack == ForRunQueue && old(numthreads) + 1 <= old(runqueue.size))
    {
      hide Ring, Doubled, NewMax, Launched;
      ghost var k := View();
      ok := Reserve(lack);
      ghost var j := View();
      if ok {
        Launch();
      }
      ForkParts(k, lack, ok, j);
    }

    // ---- synch.c ----

    /** P, from its entry or from where it slept: one look at the count. */
    method SemP(s: nat)
      requires Valid() && Running(View()) && s < |sems|
      modifies this`curthread, this`sleepaddr, this`pc, this`sems, sleepers, sleepers.v
      ensures Valid() && (sleepers.v == old(sleepers.v) || fresh(sleepers.v))
      ensures View() == TryP(old(View()), s)
    {
      hide Ring, NewMax;
      var cur := curthread.value;
      if sems[s].count == 0 {
        pc := pc[cur := InP(s)];
        Sleep(OnSem(s));
      } else {
        pc := pc[cur := Elsewhere];
        sems := sems[s := Sem(sems[s].count - 1)];
      }
    }

    method SemV(s: nat)
      requires Valid() && s < |sems|
      modifies this`sems, runqueue, runqueue.data, sleepers`num, sleepers.v
      ensures Valid() && (runqueue.data == old(runqueue.data) || fresh(runqueue.data))
      ensures View() == DoV(old(View()), s)
    {
      hide Ring, ThreadState.Wakeup;
      sems := sems[s := Sem(sems[s].count + 1)];
      Wakeup(OnSem(s));
    }

    /** lock_acquire, from its entry or from where it slept. */
    method LockAcquire(l: nat)
      requires Valid() && Running(View()) && l < |locks|
      modifies this`curthread, this`sleepaddr, this`pc, this`locks, sleepers, sleepers.v
      ensures Valid() && (sleepers.v == old(sleepers.v) || fresh(sleepers.v))
      ensures View() == TryLock(old(View()), l)
    {
      hide Ring, NewMax;
      var cur := curthread.value;
      if !locks[l].available {
        pc := pc[cur := InAcquire(l)];
        Sleep(OnLock(l));
      } else {
        pc := pc[cur := Elsewhere];
        locks := locks[l := Lock(false, curthread)];
      }
    }

    predicate LockDoIHold(l: nat)
      requires l < |locks|
      reads this
    {
      locks[l].holder == curthread
    }

    method LockTryAcquire(l: nat) returns (got: bool)
      requires Valid() && Running(View()) && l < |locks|
      modifies this`locks
      ensures Valid() && View() == TryOnce(old(View()), l)
      ensures got == TryAnswer(old(View()), l)
    {
      hide Ring;
      if LockDoIHold(l) {
        return false;
      }
      if !locks[l].available {
        return false;
      }
      locks := locks[l := Lock(false, curthread)];
      return true;
    }

    method LockRelease(l: nat)
      requires Valid() && l < |locks|
      modifies this`locks, runqueue, runqueue.data, sleepers`num, sleepers.v
      ensures Valid() && (runqueue.data == old(runqueue.data) || fresh(runqueue.data))
      ensures View() == DoRelease(old(View()), l)
    {
      hide Ring, ThreadState.Wakeup;
      if LockDoIHold(l) {
        locks := locks[l := Lock(true, None)];
        Wakeup(OnLock(l));
      }
    }

    // ---- coming back ----

    /** The rest of mi_switch and of thread_sleep, in the thread just chosen. */
    method Return()
      requires Valid() && Running(View()) && (forall t | t in View().zombies :: curthread != Some(t))
      modifies this`gone, this`sleepaddr, zombies
      ensures Valid() && (zombies.v == old(zombies.v) || fresh(zombies.v))
      ensures View() == Exorcised(old(View())).(addr := sleepaddr)
      ensures var t := curthread.value;
              sleepaddr == if old(pc[t]).Elsewhere? then old(sleepaddr) else old(sleepaddr)[t := None]
    {
      hide Ring;
      Exorcise();
      var t := curthread.value;
      if !pc[t].Elsewhere? {
        sleepaddr := sleepaddr[t := None];
      }
    }

    /** The thread just chosen runs until it lets interrupts in. */
    method Proceed()
      requires Valid() && Running(View()) && (forall t | t in View().zombies :: curthread != Some(t))
      requires PcOk(View(), curthread.value)
      modifies Repr()
      ensures Valid() && fresh(Repr() - old(Repr()))
      ensures View() == Resume(old(View()))
    {
      hide Ring, TryP, TryLock;
      var t := curthread.value;
      match pc[t]
      case Fresh =>
        pc := pc[t := Elsewhere];
      case Elsewhere =>
        Return();
      case InP(s) =>
        Return();
        SemP(s);
      case InAcquire(l) =>
        Return();
        LockAcquire(l);
    }

    method Dispatch()
      requires Valid() && Inv(View()) && Enabled(View(), Pick)
      modifies Repr()
      ensures Valid() && fresh(Repr() - old(Repr()))
      ensures View() == Step(old(View()), Pick)
    {
      hide Ring, Resume, Inv;
      ghost var k := View();
      ChosenFacts(k);
      Choose();
      Proceed();
    }

    // ---- runs ----

    /** One event, if it can happen now. */
    method Exec(e: Event)
      requires Valid() && Inv(View())
      modifies Repr()
      ensures Valid() && fresh(Repr() - old(Repr()))
      ensures View() == Step(old(View()), e) && Inv(View())
    {
      hide Ring, Inv, DoFork, DoYield, DoExit, TryP, DoV, TryLock, TryOnce, DoRelease, Resume;
      StepKeeps(View(), e);
      var possible := CanHappen(e);
      if !possible {
        return;
      }
      match e
      case Fork(lack) => var ok := Fork(lack);
      case Yield => Yield();
      case Exit => Exit();
      case SemCreate(n) => sems := sems + [Sem(n)];
      case LockCreate => locks := locks + [Lock(true, None)];
      case P(s) => SemP(s);
      case V(s) => SemV(s);
      case Acquire(l) => LockAcquire(l);
      case TryAcquire(l) => var got := LockTryAcquire(l);
      case Release(l) => LockRelease(l);
      case Pick => Dispatch();
    }

    method ExecAll(es: seq<Event>)
      requires Valid() && Inv(View())
      modifies Repr()
      ensures Valid() && fresh(Repr() - old(Repr()))
      ensures View() == Run(old(View()), es) && Inv(View())
    {
      hide Ring, Inv, Step;
      if es != [] {
        ExecAll(es[..|es| - 1]);
        Exec(es[|es| - 1]);
      }
    }

    method CanHappen(e: Event) returns (b: bool)
      requires Valid()
      ensures b == Enabled(View(), e)
    {
      hide Ring;
      var running := curthread.Some? && curthread.value < |pc| && curthread.value < |sleepaddr|;
      match e
      case V(s) => b := s < |sems|;
      case Release(l) => b := l < |locks|;
      case P(s) => b := running && s < |sems|;
      case Acquire(l) => b := running && l < |locks|;
      case TryAcquire(l) => b := running && l < |locks|;
      case Exit => b := running && numthreads > 0;
      case Pick =>
        b := curthread.None? && !runqueue.Empty();
        if b {
          HeadIs(runqueue.data[..], runqueue.nextread, runqueue.nextwrite);
          var t := runqueue.data[runqueue.nextread];
          b := t < |pc| && t < |sleepaddr|;
        }
      case _ => b := running;
    }
  }

  lemma HeadIs(d: seq<nat>, nr: nat, nw: nat)
    requires nr < |d| && nw < |d| && nr != nw
    ensures Ring(d, nr, nw) != [] && Ring(d, nr, nw)[0] == d[nr]
  {
  }

  /** The chosen thread is no zombie and stands somewhere sensible. */
  lemma ChosenFacts(k: Threads)
    requires Inv(k) && k.cur.None? && k.runq != []
    ensures var r := Chosen(k);
            && Running(r) && PcOk(r, k.runq[0])
            && forall t | t in r.zombies :: r.cur != Some(t)
  {
    hide Placed, RoomOk;
    ChosenCore(k);
    assert PcOk(k, k.runq[0]);
    RunningOnly(Chosen(k));
  }

  /** Whole runs of the code are runs of the state machine, and keep its invariant. */
  method RunEvents(es: seq<Event>) returns (kernel: Kernel)
    ensures kernel.Valid() && kernel.View() == Run(Boot(), es) && Inv(kernel.View())
  {
    hide Ring, Inv, Run, Boot;
    BootOk();
    kernel := new Kernel();
    kernel.ExecAll(es);
  }

  function Launched(k: Threads): (r: Threads)
  {
    ThreadState.MakeRunnable(k.(pc := k.pc + [Fresh], addr := k.addr + [None]), |k.pc|).(num := k.num + 1)
  }

  lemma ForkParts(k: Threads, lack: Shortage, ok: bool, j: Threads)
    requires k.qsize > 0 && (ok <==> lack == Nothing || (lack == ForRunQueue && k.num + 1 <= k.qsize))
    requires j == if lack == ForSleepers then k
                  else k.(smax := NewMax(k.smax, k.num + 1), qsize := if ok then Doubled(k.qsize, k.num + 1) else k.qsize)
    ensures DoFork(k, lack) == if ok then Launched(j) else j
  {
    hide Doubled, NewMax;
  }

  lemma ElementsNext(s: seq<nat>, i: nat)
    requires i < |s|
    ensures Elements(s[..i + 1]) == Elements(s[..i]) + {s[i]}
  {
    assert s[..i + 1] == s[..i] + [s[i]];
  }
}
