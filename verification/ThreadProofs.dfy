/**
 What every run of the thread system keeps: threads are in one place each,
 semaphore counts and locks are right, no wakeup is lost, the room made by
 thread_fork suffices, and the run queue is served in order.
 */
module ThreadProofs {
  import opened Basics
  import opened Arrays
  import opened Queues
  import opened ThreadState

  // ---- thread_wakeup ----

  /** Of `s`, the threads that wait on `a`, in order. */
  ghost function Those(k: Threads, s: seq<nat>, a: Addr): (r: seq<nat>)
  {
    if s == [] then [] else (if WaitsOn(k, s[0], a) then [s[0]] else []) + Those(k, s[1..], a)
  }

  ghost function Others(k: Threads, s: seq<nat>, a: Addr): (r: seq<nat>)
  {
    if s == [] then [] else (if WaitsOn(k, s[0], a) then [] else [s[0]]) + Others(k, s[1..], a)
  }

  lemma {:induction false} ThoseSameAddr(k: Threads, j: Threads, s: seq<nat>, a: Addr)
    requires j.addr == k.addr
    ensures Those(j, s, a) == Those(k, s, a) && Others(j, s, a) == Others(k, s, a)
  {
    if s != [] {
      ThoseSameAddr(k, j, s[1..], a);
    }
  }

  lemma ThoseCons(k: Threads, t: nat, rest: seq<nat>, a: Addr)
    ensures Those(k, [t] + rest, a) == (if WaitsOn(k, t, a) then [t] else []) + Those(k, rest, a)
    ensures Others(k, [t] + rest, a) == (if WaitsOn(k, t, a) then [] else [t]) + Others(k, rest, a)
  {
  }

  /** The loop takes out exactly the threads that wait on the address, and makes them runnable in order. */
  lemma {:induction false} WokenIs(k: Threads, a: Addr, i: nat)
    requires i <= |k.sleepers|
    ensures var r := Woken(k, a, i);
            && r == k.(runq := r.runq, sleepers := r.sleepers, qsize := r.qsize)
            && r.sleepers == k.sleepers[..i] + Others(k, k.sleepers[i..], a)
            && r.runq == k.runq + Those(k, k.sleepers[i..], a)
    decreases |k.sleepers| - i
  {
    hide WaitsOn, Those, Others;
    if i < |k.sleepers| {
      var t, rest := k.sleepers[i], k.sleepers[i + 1..];
      assert k.sleepers[i..] == [t] + rest;
      ThoseCons(k, t, rest, a);
      if WaitsOn(k, t, a) {
        var j := MakeRunnable(k.(sleepers := Without(k.sleepers, i)), t);
        assert j.sleepers[..i] == k.sleepers[..i] && j.sleepers[i..] == rest;
        WokenIs(j, a, i);
        ThoseSameAddr(k, j, rest, a);
        assert k.runq + ([t] + Those(k, rest, a)) == (k.runq + [t]) + Those(k, rest, a);
      } else {
        WokenIs(k, a, i + 1);
        assert k.sleepers[..i + 1] == k.sleepers[..i] + [t];
        assert k.sleepers[..i] + ([t] + Others(k, rest, a)) == (k.sleepers[..i] + [t]) + Others(k, rest, a);
      }
    } else {
      NoneLeft(k, a);
      assert k.sleepers[i..] == [] && k.sleepers[..i] == k.sleepers;
    }
  }

  lemma NoneLeft(k: Threads, a: Addr)
    ensures Those(k, [], a) == [] && Others(k, [], a) == []
  {
  }

  /** The ring stays large enough, and grows only when the woken threads do not fit. */
  lemma {:induction false} WokenRoom(k: Threads, a: Addr, i: nat)
    requires i <= |k.sleepers|
    ensures var r := Woken(k, a, i);
            && k.qsize <= r.qsize && |k.runq| <= |r.runq| && (|k.runq| < k.qsize ==> |r.runq| < r.qsize)
            && (|r.runq| < k.qsize ==> r.qsize == k.qsize)
    decreases |k.sleepers| - i
  {
    hide WaitsOn;
    if i < |k.sleepers| {
      if WaitsOn(k, k.sleepers[i], a) {
        WokenRoom(MakeRunnable(k.(sleepers := Without(k.sleepers, i)), k.sleepers[i]), a, i);
      } else {
        WokenRoom(k, a, i + 1);
      }
    }
  }

  lemma {:induction false} ThoseMembers(k: Threads, s: seq<nat>, a: Addr, t: nat)
    ensures t in Those(k, s, a) <==> t in s && WaitsOn(k, t, a)
    ensures t in Others(k, s, a) <==> t in s && !WaitsOn(k, t, a)
  {
    hide WaitsOn;
    if s != [] {
      ThoseMembers(k, s[1..], a, t);
      assert t in s <==> t == s[0] || t in s[1..];
    }
  }

  lemma {:induction false} ThoseSplit(k: Threads, s: seq<nat>, a: Addr)
    ensures multiset(Those(k, s, a)) + multiset(Others(k, s, a)) == multiset(s)
    ensures |Those(k, s, a)| + |Others(k, s, a)| == |s|
  {
    hide WaitsOn;
    if s != [] {
      ThoseSplit(k, s[1..], a);
      assert s == [s[0]] + s[1..];
    }
  }

  /** What thread_wakeup does, as one statement. */
  lemma WakeupIs(k: Threads, a: Addr)
    ensures var r := Wakeup(k, a);
            && r == k.(runq := r.runq, sleepers := r.sleepers, qsize := r.qsize)
            && r.sleepers == Others(k, k.sleepers, a) && r.runq == k.runq + Those(k, k.sleepers, a)
            && Everywhere(r) == Everywhere(k)
            && |r.runq| + |r.sleepers| == |k.runq| + |k.sleepers|
            && (forall t | t in r.sleepers :: t in k.sleepers)
            && NobodyOn(r, a)
            && k.qsize <= r.qsize && (|k.runq| < k.qsize ==> |r.runq| < r.qsize)
            && (|r.runq| < k.qsize ==> r.qsize == k.qsize)
  {
    hide Woken, Those, Others;
    WokenIs(k, a, 0);
    WokenRoom(k, a, 0);
    ThoseSplit(k, k.sleepers, a);
    forall t | t in Others(k, k.sleepers, a)
      ensures t in k.sleepers && !WaitsOn(k, t, a)
    {
      ThoseMembers(k, k.sleepers, a, t);
    }
    assert k.sleepers[0..] == k.sleepers && k.sleepers[..0] == [];
    assert multiset(k.runq + Those(k, k.sleepers, a)) == multiset(k.runq) + multiset(Those(k, k.sleepers, a));
    WokenIsWakeup(k, a);
  }

  lemma WokenIsWakeup(k: Threads, a: Addr)
    ensures Wakeup(k, a) == Woken(k, a, 0)
  {
  }

  /** Waking everyone on `a` keeps the invariant, and establishes it for `a` itself. */
  lemma WakeupKeeps(k: Threads, a: Addr)
    requires Placed(k) && RoomOk(k)
    requires forall t | t in k.sleepers :: SleeperOk(k, t)
    requires forall t: nat :: PcOk(k, t)
    requires forall s: nat | s < |k.sems| :: a != OnSem(s) ==> SemOk(k, s)
    requires forall l: nat | l < |k.locks| :: (k.locks[l].available <==> k.locks[l].holder.None?) && (a != OnLock(l) ==> LockOk(k, l))
    ensures Core(Wakeup(k, a))
  {
    hide Wakeup, Those, Others, Everywhere;
    var r := Wakeup(k, a);
    WakeupIs(k, a);
    SamePlaces(k, r);
    forall t | t in r.sleepers
      ensures SleeperOk(r, t)
    {
      assert SleeperOk(k, t);
    }
    forall t: nat
      ensures PcOk(r, t)
    {
      assert PcOk(k, t);
    }
    forall s: nat | s < |r.sems|
      ensures SemOk(r, s)
    {
      assert a != OnSem(s) ==> SemOk(k, s);
    }
    forall l: nat | l < |r.locks|
      ensures LockOk(r, l)
    {
      assert a != OnLock(l) ==> LockOk(k, l);
    }
  }

  // ---- moves between places ----

  lemma HeadMoves(s: seq<nat>)
    requires s != []
    ensures multiset([s[0]]) + multiset(s[1..]) == multiset(s)
  {
    assert s == [s[0]] + s[1..];
  }

  lemma AddOne(s: seq<nat>, t: nat)
    ensures multiset(s + [t]) == multiset(s) + multiset([t])
  {
  }

  lemma ElementsAre(s: seq<nat>, t: nat)
    ensures t in Elements(s) <==> multiset(s)[t] > 0
  {
  }

  /** Nobody new sleeps, and those who do are as before. */
  ghost predicate Quiet(k: Threads, r: Threads)
  {
    && r.sems == k.sems && r.locks == k.locks
    && (forall t | t in r.sleepers :: t in k.sleepers && SamePlace(k, r, t))
  }

  predicate SamePlace(k: Threads, r: Threads, t: nat)
  {
    && t < |k.pc| && t < |k.addr| && t < |r.pc| && t < |r.addr|
    && r.pc[t] == k.pc[t] && r.addr[t] == k.addr[t]
  }

  lemma QuietKeeps(k: Threads, r: Threads)
    requires Core(k) && Quiet(k, r) && Placed(r) && RoomOk(r) && forall t: nat :: PcOk(r, t)
    ensures Core(r)
  {
    hide Placed, RoomOk;
    forall t | t in r.sleepers
      ensures SleeperOk(r, t)
    {
      assert SleeperOk(k, t);
    }
    forall s: nat | s < |r.sems|
      ensures SemOk(r, s)
    {
      assert SemOk(k, s);
    }
    forall l: nat | l < |r.locks|
      ensures LockOk(r, l)
    {
      assert LockOk(k, l);
    }
  }

  /** Who sleeps, and how, is as before. */
  lemma Unmoved(k: Threads, r: Threads)
    requires Core(k) && r.sleepers == k.sleepers && r.pc == k.pc && r.addr == k.addr && r.sems == k.sems && r.locks == k.locks
    ensures Quiet(k, r) && forall t: nat :: PcOk(r, t)
  {
    hide Placed, RoomOk;
    forall t | t in r.sleepers
      ensures SamePlace(k, r, t)
    {
      assert SleeperOk(k, t);
    }
    forall t: nat
      ensures PcOk(r, t)
    {
      assert PcOk(k, t);
    }
  }

  /** A thread that is running is nowhere else. */
  lemma RunningOnly(k: Threads)
    requires Placed(k) && k.cur.Some?
    ensures k.cur.value < |k.pc| && k.cur.value !in k.runq && k.cur.value !in k.sleepers && k.cur.value !in k.zombies
  {
    var t := k.cur.value;
    assert multiset(CurList(k))[t] == 1;
    assert Everywhere(k)[t] == multiset(CurList(k))[t] + multiset(k.runq)[t] + multiset(k.sleepers)[t] + multiset(k.zombies)[t];
    assert t !in multiset(k.runq) && t !in multiset(k.sleepers) && t !in multiset(k.zombies);
  }

  // ---- each step ----

  lemma ForkKeeps(k: Threads, lack: Shortage)
    requires Inv(k) && Running(k)
    ensures Inv(DoFork(k, lack))
  {
    hide Everywhere;
    var r := DoFork(k, lack);
    assert forall t: nat :: PcOk(r, t) by {
      forall t: nat ensures PcOk(r, t) { assert PcOk(k, t); }
    }
    forall t | t in r.sleepers
      ensures SamePlace(k, r, t)
    {
      assert SleeperOk(k, t);
    }
    ForkPlaced(k, lack);
    QuietKeeps(k, r);
  }

  lemma ForkPlaced(k: Threads, lack: Shortage)
    requires Placed(k) && k.qsize > 0 && |k.pc| == |k.addr|
    ensures Placed(DoFork(k, lack))
  {
    hide Placed, NewMax, Doubled, Everywhere;
    var r := DoFork(k, lack);
    if r.num == k.num + 1 {
      NewPlaced(k, r);
    } else {
      PlacesOnly(k, r);
    }
  }

  lemma PlacesOnly(k: Threads, r: Threads)
    requires Placed(k)
    requires r.cur == k.cur && r.runq == k.runq && r.sleepers == k.sleepers && r.zombies == k.zombies && r.gone == k.gone
    requires |r.pc| == |r.addr| == |k.pc| && r.num == k.num
    ensures Placed(r)
  {
    assert Everywhere(r) == Everywhere(k);
  }

  lemma NewPlaced(k: Threads, r: Threads)
    requires Placed(k) && r.cur == k.cur && r.sleepers == k.sleepers && r.zombies == k.zombies && r.gone == k.gone
    requires r.runq == k.runq + [|k.pc|] && r.num == k.num + 1 && |r.pc| == |r.addr| == |k.pc| + 1
    ensures Placed(r)
  {
    hide Everywhere;
    NewEverywhere(k, r);
    forall t: nat
      ensures Everywhere(r)[t] == if t < |r.pc| && t !in r.gone then 1 else 0
    {
      OneMore(Everywhere(k), |k.pc|, t);
    }
  }

  lemma NewEverywhere(k: Threads, r: Threads)
    requires r.cur == k.cur && r.sleepers == k.sleepers && r.zombies == k.zombies && r.runq == k.runq + [|k.pc|]
    ensures Everywhere(r) == Everywhere(k) + multiset([|k.pc|])
  {
    AddOne(k.runq, |k.pc|);
  }

  lemma OneMore(m: multiset<nat>, x: nat, t: nat)
    ensures (m + multiset([x]))[t] == m[t] + if t == x then 1 else 0
  {
  }

  lemma SamePlaces(k: Threads, r: Threads)
    requires Placed(k) && Everywhere(r) == Everywhere(k) && r.gone == k.gone
    requires |r.pc| == |r.addr| == |k.pc| && r.num == |CurList(r)| + |r.runq| + |r.sleepers|
    ensures Placed(r)
  {
    hide Everywhere;
  }

  lemma YieldKeeps(k: Threads)
    requires Inv(k) && Running(k)
    ensures Inv(DoYield(k))
  {
    var r := DoYield(k);
    AddOne(k.runq, k.cur.value);
    assert Everywhere(r) == Everywhere(k);
    SamePlaces(k, r);
    Unmoved(k, r);
    QuietKeeps(k, r);
  }

  lemma ExitKeeps(k: Threads)
    requires Inv(k) && Running(k)
    ensures k.num > 0 && Inv(DoExit(k))
  {
    var r := DoExit(k);
    AddOne(k.zombies, k.cur.value);
    assert Everywhere(r) == Everywhere(k);
    SamePlaces(k, r);
    Unmoved(k, r);
    QuietKeeps(k, r);
  }

  /** Choosing the head of the run queue. */
  lemma ChosenCore(k: Threads)
    requires Inv(k) && k.cur.None? && k.runq != []
    ensures Core(Chosen(k)) && Running(Chosen(k))
  {
    var r := Chosen(k);
    HeadMoves(k.runq);
    assert Everywhere(r) == Everywhere(k);
    SamePlaces(k, r);
    RunningOnly(r);
    Unmoved(k, r);
    QuietKeeps(k, r);
  }

  /** The zombies are destroyed; none of them was anywhere else. */
  lemma ExorcisedCore(k: Threads)
    requires Core(k)
    ensures Core(Exorcised(k))
  {
    var r := Exorcised(k);
    ExorcisedPlaced(k);
    Unmoved(k, r);
    QuietKeeps(k, r);
  }

  lemma ExorcisedPlaced(k: Threads)
    requires Placed(k)
    ensures Placed(Exorcised(k))
  {
    var r := Exorcised(k);
    assert Everywhere(k) == Everywhere(r) + multiset(k.zombies);
    forall t: nat
      ensures Everywhere(r)[t] == if t < |r.pc| && t !in r.gone then 1 else 0
      ensures t in r.gone ==> t < |r.pc|
    {
      ElementsAre(k.zombies, t);
    }
  }

  lemma AddrCleared(k: Threads)
    requires Core(k) && Running(k)
    ensures var r := k.(addr := k.addr[k.cur.value := None]); Core(r) && Running(r)
  {
    var r := k.(addr := k.addr[k.cur.value := None]);
    RunningOnly(k);
    PlacesOnly(k, r);
    forall t | t in r.sleepers
      ensures SamePlace(k, r, t)
    {
      assert SleeperOk(k, t);
    }
    forall t: nat
      ensures PcOk(r, t)
    {
      assert PcOk(k, t);
    }
    QuietKeeps(k, r);
  }

  /** The running thread changes what it is doing. */
  lemma PcSet(k: Threads, p: Pc)
    requires Core(k) && Running(k)
    requires match p case InP(s) => s < |k.sems| case InAcquire(l) => l < |k.locks| case _ => true
    ensures var r := k.(pc := k.pc[k.cur.value := p]); Core(r) && Running(r)
  {
    var r := k.(pc := k.pc[k.cur.value := p]);
    RunningOnly(k);
    PlacesOnly(k, r);
    forall t | t in r.sleepers
      ensures SamePlace(k, r, t)
    {
      assert SleeperOk(k, t);
    }
    forall t: nat
      ensures PcOk(r, t)
    {
      assert PcOk(k, t);
    }
    QuietKeeps(k, r);
  }

  /** Going to sleep in the wait loop of something that is not to be had. */
  lemma SleepKeeps(k: Threads, a: Addr)
    requires Core(k) && Running(k)
    requires match a
             case OnSem(s) => s < |k.sems| && k.sems[s].count == 0 && k.pc[k.cur.value] == InP(s)
             case OnLock(l) => l < |k.locks| && !k.locks[l].available && k.pc[k.cur.value] == InAcquire(l)
    ensures Inv(SleepOn(k, a))
  {
    hide NewMax;
    var r, t := SleepOn(k, a), k.cur.value;
    SleepPlaced(k, a);
    SleepRoom(k, a);
    RunningOnly(k);
    forall x | x in r.sleepers
      ensures SleeperOk(r, x)
    {
      assert x != t ==> SleeperOk(k, x);
    }
    forall x: nat
      ensures PcOk(r, x)
    {
      assert PcOk(k, x);
    }
    forall s: nat | s < |r.sems|
      ensures SemOk(r, s)
    {
      assert SemOk(k, s);
    }
    forall l: nat | l < |r.locks|
      ensures LockOk(r, l)
    {
      assert LockOk(k, l);
    }
  }

  lemma SleepPlaced(k: Threads, a: Addr)
    requires Placed(k) && Running(k)
    ensures Placed(SleepOn(k, a))
  {
    hide NewMax;
    var r := SleepOn(k, a);
    AddOne(k.sleepers, k.cur.value);
    assert Everywhere(r) == Everywhere(k);
    SamePlaces(k, r);
  }

  lemma SleepRoom(k: Threads, a: Addr)
    requires Placed(k) && Running(k) && RoomOk(k)
    ensures RoomOk(SleepOn(k, a))
  {
  }

  lemma TryPKeeps(k: Threads, s: nat)
    requires Core(k) && Running(k) && s < |k.sems|
    ensures Inv(TryP(k, s))
  {
    hide Placed, RoomOk;
    if k.sems[s].count == 0 {
      PcSet(k, InP(s));
      SleepKeeps(k.(pc := k.pc[k.cur.value := InP(s)]), OnSem(s));
    } else {
      var j := k.(pc := k.pc[k.cur.value := Elsewhere]);
      PcSet(k, Elsewhere);
      assert SemOk(k, s);
      SemSet(j, s, Sem(k.sems[s].count - 1));
    }
  }

  /** A semaphore's count may change if it was not zero. */
  lemma SemSet(k: Threads, s: nat, m: Sem)
    requires Core(k) && s < |k.sems| && k.sems[s].count > 0
    ensures Core(k.(sems := k.sems[s := m]))
  {
    var r := k.(sems := k.sems[s := m]);
    PlacesOnly(k, r);
    SameRest(k, r);
    forall x: nat | x < |r.sems|
      ensures SemOk(r, x)
    {
      assert SemOk(k, x);
    }
    forall l: nat | l < |r.locks|
      ensures LockOk(r, l)
    {
      assert LockOk(k, l);
    }
  }

  lemma SameRest(k: Threads, r: Threads)
    requires Core(k) && r == k.(sems := r.sems, locks := r.locks) && |r.sems| >= |k.sems| && |r.locks| >= |k.locks|
    ensures Placed(r) && RoomOk(r)
    ensures forall t | t in r.sleepers :: SleeperOk(r, t)
    ensures forall t: nat :: PcOk(r, t)
  {
    PlacesOnly(k, r);
    forall t | t in r.sleepers
      ensures SleeperOk(r, t)
    {
      assert SleeperOk(k, t);
    }
    forall t: nat
      ensures PcOk(r, t)
    {
      assert PcOk(k, t);
    }
  }

  lemma TryLockKeeps(k: Threads, l: nat)
    requires Core(k) && Running(k) && l < |k.locks|
    ensures Inv(TryLock(k, l))
  {
    hide Placed, RoomOk;
    if !k.locks[l].available {
      PcSet(k, InAcquire(l));
      SleepKeeps(k.(pc := k.pc[k.cur.value := InAcquire(l)]), OnLock(l));
    } else {
      PcSet(k, Elsewhere);
      LockTaken(k.(pc := k.pc[k.cur.value := Elsewhere]), l);
    }
  }

  lemma LockTaken(k: Threads, l: nat)
    requires Core(k) && Running(k) && l < |k.locks|
    ensures Core(k.(locks := k.locks[l := Lock(false, k.cur)]))
  {
    var r := k.(locks := k.locks[l := Lock(false, k.cur)]);
    SameRest(k, r);
    forall s: nat | s < |r.sems|
      ensures SemOk(r, s)
    {
      assert SemOk(k, s);
    }
    forall x: nat | x < |r.locks|
      ensures LockOk(r, x)
    {
      assert LockOk(k, x);
    }
  }

  lemma VKeeps(k: Threads, s: nat)
    requires Inv(k) && s < |k.sems|
    ensures Inv(DoV(k, s))
  {
    hide Placed, RoomOk, Wakeup;
    var j := k.(sems := k.sems[s := Sem(k.sems[s].count + 1)]);
    SameRest(k, j);
    forall x: nat | x < |j.sems|
      ensures OnSem(s) != OnSem(x) ==> SemOk(j, x)
    {
      assert SemOk(k, x);
    }
    forall l: nat | l < |j.locks|
      ensures LockOk(j, l)
    {
      assert LockOk(k, l);
    }
    WakeupKeeps(j, OnSem(s));
    WakeupIs(j, OnSem(s));
  }

  lemma ReleaseKeeps(k: Threads, l: nat)
    requires Inv(k) && l < |k.locks|
    ensures Inv(DoRelease(k, l))
  {
    hide Placed, RoomOk, Wakeup;
    if k.locks[l].holder == k.cur {
      var j := k.(locks := k.locks[l := Lock(true, None)]);
      SameRest(k, j);
      forall x: nat | x < |j.sems|
        ensures SemOk(j, x)
      {
        assert SemOk(k, x);
      }
      forall x: nat | x < |j.locks|
        ensures (j.locks[x].available <==> j.locks[x].holder.None?) && (OnLock(l) != OnLock(x) ==> LockOk(j, x))
      {
        assert LockOk(k, x);
      }
      WakeupKeeps(j, OnLock(l));
      WakeupIs(j, OnLock(l));
    }
  }

  lemma ResumeKeeps(k: Threads)
    requires Core(k) && Running(k)
    ensures Inv(Resume(k))
  {
    hide Placed, RoomOk;
    var t := k.cur.value;
    assert PcOk(k, t);
    match k.pc[t]
    case Fresh => PcSet(k, Elsewhere);
    case Elsewhere => ExorcisedCore(k);
    case InP(s) =>
      ExorcisedCore(k);
      AddrCleared(Exorcised(k));
      TryPKeeps(Exorcised(k).(addr := k.addr[t := None]), s);
    case InAcquire(l) =>
      ExorcisedCore(k);
      AddrCleared(Exorcised(k));
      TryLockKeeps(Exorcised(k).(addr := k.addr[t := None]), l);
  }

  lemma CreateKeeps(k: Threads, n: nat)
    requires Inv(k)
    ensures Inv(k.(sems := k.sems + [Sem(n)])) && Inv(k.(locks := k.locks + [Lock(true, None)]))
  {
    hide Placed, RoomOk;
    var a, b := k.(sems := k.sems + [Sem(n)]), k.(locks := k.locks + [Lock(true, None)]);
    SameRest(k, a);
    SameRest(k, b);
    NobodyOnNew(k);
    forall s: nat | s < |a.sems|
      ensures SemOk(a, s) && (s < |k.sems| ==> SemOk(b, s))
    {
      assert s < |k.sems| ==> SemOk(k, s);
    }
    forall l: nat | l < |b.locks|
      ensures LockOk(b, l) && (l < |k.locks| ==> LockOk(a, l))
    {
      assert l < |k.locks| ==> LockOk(k, l);
    }
  }

  lemma NobodyOnNew(k: Threads)
    requires Core(k)
    ensures NobodyOn(k, OnSem(|k.sems|)) && NobodyOn(k, OnLock(|k.locks|))
  {
  }

  /** Every step keeps the invariant. */
  lemma StepKeeps(k: Threads, e: Event)
    requires Inv(k)
    ensures Inv(Step(k, e))
  {
    hide Core, DoFork, DoYield, DoExit, TryP, DoV, TryLock, DoRelease, Resume;
    if Enabled(k, e) {
      match e
      case Fork(lack) => ForkKeeps(k, lack);
      case Yield => YieldKeeps(k);
      case Exit => ExitKeeps(k);
      case SemCreate(n) => CreateKeeps(k, n);
      case LockCreate => CreateKeeps(k, 0);
      case P(s) => TryPKeeps(k, s);
      case V(s) => VKeeps(k, s);
      case Acquire(l) => TryLockKeeps(k, l);
      case TryAcquire(l) => LockTaken(k, l);
      case Release(l) => ReleaseKeeps(k, l);
      case Pick =>
        ChosenCore(k);
        ResumeKeeps(Chosen(k));
    }
  }

  lemma BootOk()
    ensures Inv(Boot())
  {
    assert multiset(CurList(Boot())) == multiset([0]);
  }

  /** Every state a run can reach satisfies the invariant. */
  lemma {:induction false} RunKeeps(es: seq<Event>)
    ensures Inv(Run(Boot(), es))
  {
    hide Inv;
    if es == [] {
      BootOk();
    } else {
      RunKeeps(es[..|es| - 1]);
      StepKeeps(Run(Boot(), es[..|es| - 1]), es[|es| - 1]);
    }
  }
}
