/**
 The thread system of kern/thread as a uniprocessor state machine. Each step
 is one region run with interrupts off: a call by the running thread, an
 interrupt handler's V, or the scheduler's choice of the next thread, which
 includes what that thread does before it lets interrupts in again.
 */
module ThreadState {
  import opened Basics
  import opened Arrays
  import opened Queues

  const RUNQUEUE_SIZE := 32

  /** What a thread sleeps on. */
  datatype Addr = OnSem(s: nat) | OnLock(l: nat)

  /** Where a thread stands: not yet started, in the wait loop of P or lock_acquire, or anywhere else. */
  datatype Pc = Fresh | InP(s: nat) | InAcquire(l: nat) | Elsewhere

  datatype Sem = Sem(count: nat)

  datatype Lock = Lock(available: bool, holder: Option<nat>)

  /**
   Threads are numbered in the order of their creation. `gone` are those
   destroyed; `qsize` and `smax` are the sizes of the run queue's ring and of
   the sleepers array.
   */
  datatype Threads = Threads(
    cur: Option<nat>, runq: seq<nat>, sleepers: seq<nat>, zombies: seq<nat>, gone: set<nat>, num: nat,
    pc: seq<Pc>, addr: seq<Option<Addr>>, sems: seq<Sem>, locks: seq<Lock>, qsize: nat, smax: nat)

  // ---- steps ----

  /** make_runnable: q_addtail, which doubles a full ring. */
  function MakeRunnable(k: Threads, t: nat): (r: Threads)
  {
    k.(runq := k.runq + [t], qsize := if |k.runq| + 1 == k.qsize then 2 * k.qsize else k.qsize)
  }

  predicate WaitsOn(k: Threads, t: nat, a: Addr)
  {
    t < |k.addr| && k.addr[t] == Some(a)
  }

  /** thread_wakeup's loop, from position `i` on. */
  function Woken(k: Threads, a: Addr, i: nat): (r: Threads)
    requires i <= |k.sleepers|
    decreases |k.sleepers| - i
  {
    if i == |k.sleepers| then k
    else if WaitsOn(k, k.sleepers[i], a)
    then Woken(MakeRunnable(k.(sleepers := Without(k.sleepers, i)), k.sleepers[i]), a, i)
    else Woken(k, a, i + 1)
  }

  function Wakeup(k: Threads, a: Addr): (r: Threads)
  {
    Woken(k, a, 0)
  }

  predicate Running(k: Threads)
  {
    k.cur.Some? && k.cur.value < |k.pc| && k.cur.value < |k.addr|
  }

  /** thread_sleep, up to the choice of the next thread. */
  function SleepOn(k: Threads, a: Addr): (r: Threads)
    requires Running(k)
  {
    var t := k.cur.value;
    k.(cur := None, addr := k.addr[t := Some(a)], sleepers := k.sleepers + [t],
       smax := NewMax(k.smax, |k.sleepers| + 1))
  }

  /** One turn of the loop of P: sleep, or take a unit. */
  function TryP(k: Threads, s: nat): (r: Threads)
    requires Running(k) && s < |k.sems|
  {
    var t, m := k.cur.value, k.sems[s];
    if m.count == 0 then SleepOn(k.(pc := k.pc[t := InP(s)]), OnSem(s))
    else k.(pc := k.pc[t := Elsewhere], sems := k.sems[s := Sem(m.count - 1)])
  }

  function DoV(k: Threads, s: nat): (r: Threads)
    requires s < |k.sems|
  {
    Wakeup(k.(sems := k.sems[s := Sem(k.sems[s].count + 1)]), OnSem(s))
  }

  /** One turn of the loop of lock_acquire. */
  function TryLock(k: Threads, l: nat): (r: Threads)
    requires Running(k) && l < |k.locks|
  {
    var t := k.cur.value;
    if !k.locks[l].available then SleepOn(k.(pc := k.pc[t := InAcquire(l)]), OnLock(l))
    else k.(pc := k.pc[t := Elsewhere], locks := k.locks[l := Lock(false, k.cur)])
  }

  /** lock_try_acquire_alert. */
  function TryOnce(k: Threads, l: nat): (r: Threads)
    requires Running(k) && l < |k.locks|
  {
    if k.locks[l].holder == k.cur || !k.locks[l].available then k
    else k.(locks := k.locks[l := Lock(false, k.cur)])
  }

  /** What that call returns. */
  predicate TryAnswer(k: Threads, l: nat)
    requires l < |k.locks|
  {
    k.locks[l].holder != k.cur && k.locks[l].available
  }

  function DoRelease(k: Threads, l: nat): (r: Threads)
    requires l < |k.locks|
  {
    if k.locks[l].holder == k.cur then Wakeup(k.(locks := k.locks[l := Lock(true, None)]), OnLock(l)) else k
  }

  /** Which allocation of thread_fork fails, if any. */
  datatype Shortage = Nothing | ForSleepers | ForZombies | ForRunQueue

  function DoFork(k: Threads, lack: Shortage): (r: Threads)
    requires k.qsize > 0
  {
    if lack == ForSleepers then k
    else
      var k1 := k.(smax := NewMax(k.smax, k.num + 1));
      if lack == ForZombies || (lack == ForRunQueue && k.num + 1 > k.qsize) then k1
      else
        var k2 := k1.(qsize := Doubled(k.qsize, k.num + 1), pc := k.pc + [Fresh], addr := k.addr + [None]);
        MakeRunnable(k2, |k.pc|).(num := k.num + 1)
  }

  function DoYield(k: Threads): (r: Threads)
    requires Running(k)
  {
    MakeRunnable(k.(cur := None), k.cur.value)
  }

  function DoExit(k: Threads): (r: Threads)
    requires Running(k) && k.num > 0
  {
    k.(cur := None, num := k.num - 1, zombies := k.zombies + [k.cur.value])
  }

  ghost function Exorcised(k: Threads): (r: Threads)
  {
    k.(zombies := [], gone := k.gone + Elements(k.zombies))
  }

  /** What the thread just chosen does before it lets interrupts in. */
  ghost function Resume(k: Threads): (r: Threads)
    requires Running(k)
  {
    var t := k.cur.value;
    match k.pc[t]
    case Fresh => k.(pc := k.pc[t := Elsewhere])
    case InP(s) => if s < |k.sems| then TryP(Exorcised(k).(addr := k.addr[t := None]), s) else k
    case InAcquire(l) => if l < |k.locks| then TryLock(Exorcised(k).(addr := k.addr[t := None]), l) else k
    case Elsewhere => Exorcised(k)
  }

  /** The scheduler takes the head of the run queue. */
  function Chosen(k: Threads): (r: Threads)
    requires k.runq != []
  {
    k.(cur := Some(k.runq[0]), runq := k.runq[1..])
  }

  // ---- runs ----

  datatype Event =
    | Fork(lack: Shortage) | Yield | Exit | SemCreate(n: nat) | LockCreate
    | P(s: nat) | V(s: nat) | Acquire(l: nat) | TryAcquire(l: nat) | Release(l: nat) | Pick

  /** V may come from an interrupt handler, even with no thread running. */
  predicate Enabled(k: Threads, e: Event)
  {
    match e
    case V(s) => s < |k.sems|
    case Release(l) => l < |k.locks|
    case Pick => k.cur.None? && k.runq != [] && k.runq[0] < |k.pc| && k.runq[0] < |k.addr|
    case P(s) => Running(k) && s < |k.sems|
    case Acquire(l) => Running(k) && l < |k.locks|
    case TryAcquire(l) => Running(k) && l < |k.locks|
    case Fork(_) => Running(k) && k.qsize > 0
    case Exit => Running(k) && k.num > 0
    case Yield => Running(k)
    case SemCreate(_) => Running(k)
    case LockCreate => Running(k)
  }

  ghost function Step(k: Threads, e: Event): (r: Threads)
  {
    if !Enabled(k, e) then k else
      match e
      case Fork(lack) => DoFork(k, lack)
      case Yield => DoYield(k)
      case Exit => DoExit(k)
      case SemCreate(n) => k.(sems := k.sems + [Sem(n)])
      case LockCreate => k.(locks := k.locks + [Lock(true, None)])
      case P(s) => TryP(k, s)
      case V(s) => DoV(k, s)
      case Acquire(l) => TryLock(k, l)
      case TryAcquire(l) => TryOnce(k, l)
      case Release(l) => DoRelease(k, l)
      case Pick => Resume(Chosen(k))
  }

  ghost function Run(k: Threads, es: seq<Event>): (r: Threads)
  {
    if es == [] then k else Step(Run(k, es[..|es| - 1]), es[|es| - 1])
  }

  /** Only the first thread, running, and nothing else. */
  function Boot(): (k: Threads)
  {
    Threads(Some(0), [], [], [], {}, 1, [Elsewhere], [None], [], [], RUNQUEUE_SIZE, 0)
  }

  // ---- the invariant ----

  function CurList(k: Threads): (s: seq<nat>)
  {
    if k.cur.Some? then [k.cur.value] else []
  }

  /** Every occurrence of a thread anywhere. */
  ghost function Everywhere(k: Threads): (m: multiset<nat>)
  {
    multiset(CurList(k)) + multiset(k.runq) + multiset(k.sleepers) + multiset(k.zombies)
  }

  /** Each thread ever made is in exactly one place, or destroyed and in none; `num` counts the live ones. */
  ghost predicate Placed(k: Threads)
  {
    && |k.pc| == |k.addr|
    && (forall t: nat :: Everywhere(k)[t] == if t < |k.pc| && t !in k.gone then 1 else 0)
    && k.num == |CurList(k)| + |k.runq| + |k.sleepers|
    && (forall t | t in k.gone :: t < |k.pc|)
  }

  /** A sleeper is in the wait loop of what it sleeps on. */
  ghost predicate SleeperOk(k: Threads, t: nat)
  {
    && t < |k.pc| && t < |k.addr|
    && match k.pc[t]
       case InP(s) => s < |k.sems| && k.addr[t] == Some(OnSem(s))
       case InAcquire(l) => l < |k.locks| && k.addr[t] == Some(OnLock(l))
       case _ => false
  }

  ghost predicate PcOk(k: Threads, t: nat)
  {
    t < |k.pc| ==>
      match k.pc[t]
      case InP(s) => s < |k.sems|
      case InAcquire(l) => l < |k.locks|
      case _ => true
  }

  ghost predicate NobodyOn(k: Threads, a: Addr)
  {
    forall t | t in k.sleepers :: !WaitsOn(k, t, a)
  }

  /** A positive count means that nobody waits. */
  ghost predicate SemOk(k: Threads, s: nat)
    requires s < |k.sems|
  {
    k.sems[s].count > 0 ==> NobodyOn(k, OnSem(s))
  }

  /** Available exactly without a holder, and then nobody waits. */
  ghost predicate LockOk(k: Threads, l: nat)
    requires l < |k.locks|
  {
    (k.locks[l].available <==> k.locks[l].holder.None?) && (k.locks[l].available ==> NobodyOn(k, OnLock(l)))
  }

  /** The room made by thread_fork. */
  ghost predicate RoomOk(k: Threads)
  {
    && |k.runq| < k.qsize && 2 <= k.qsize && k.num <= k.qsize
    && |k.sleepers| <= k.smax && (k.num <= k.smax || (k.smax == 0 && k.num == 1))
  }

  /** All but what the running thread is doing. */
  ghost predicate Core(k: Threads)
  {
    && Placed(k)
    && (forall t | t in k.sleepers :: SleeperOk(k, t))
    && (forall t: nat :: PcOk(k, t))
    && (forall s: nat | s < |k.sems| :: SemOk(k, s))
    && (forall l: nat | l < |k.locks| :: LockOk(k, l))
    && RoomOk(k)
  }

  /** What holds between steps. */
  ghost predicate Inv(k: Threads)
  {
    Core(k) && (k.cur.Some? ==> Running(k) && k.pc[k.cur.value] == Elsewhere)
  }
}
