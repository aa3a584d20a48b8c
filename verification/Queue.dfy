/**
 The ring buffer of kern/lib/queue.c, which refines a first-in first-out
 sequence and doubles when full.
 */
module Queues {
  /** The size q_grow settles on. */
  function Doubled(size: nat, target: nat): (n: nat)
    requires size > 0
    ensures n >= size && n >= target
    ensures target <= size ==> n == size
    ensures size < target <= 2 * size ==> n == 2 * size
    decreases target - size
  {
    if size >= target then size else Doubled(2 * size, target)
  }

  // ---- rings ----

  /** The elements from `nr` up to, but not including, `nw`, going around the end. */
  function Ring<T>(d: seq<T>, nr: nat, nw: nat): (s: seq<T>)
    requires nr < |d| && nw < |d|
    ensures |s| == Count(|d|, nr, nw) < |d|
  {
    if nr <= nw then d[nr..nw] else d[nr..] + d[..nw]
  }

  function Count(size: nat, nr: nat, nw: nat): (n: nat)
    requires nr < size && nw < size
  {
    if nr <= nw then nw - nr else nw + size - nr
  }

  function Next(size: nat, i: nat): (j: nat)
    requires i < size
    ensures j < size && j == (i + 1) % size
  {
    if i + 1 < size then i + 1 else 0
  }

  /** The ring has room for one more exactly while the positions do not meet. */
  lemma FullWhenMeeting(size: nat, nr: nat, nw: nat)
    requires nr < size && nw < size
    ensures Next(size, nw) == nr <==> Count(size, nr, nw) == size - 1
  {
  }

  lemma EmptyRing<T>(d: seq<T>, n: nat)
    requires n < |d|
    ensures Ring(d, n, n) == []
  {
  }

  lemma RingAdd<T>(d: seq<T>, nr: nat, nw: nat, x: T)
    requires nr < |d| && nw < |d| && Next(|d|, nw) != nr
    ensures Ring(d[nw := x], nr, Next(|d|, nw)) == Ring(d, nr, nw) + [x]
  {
  }

  lemma RingRem<T>(d: seq<T>, nr: nat, nw: nat)
    requires nr < |d| && nw < |d| && nr != nw
    ensures Ring(d, nr, nw) == [d[nr]] + Ring(d, Next(|d|, nr), nw)
  {
  }

  class Queue<T(0)> {
    var size: nat
    var nextwrite: nat
    var nextread: nat
    var data: array<T>

    ghost predicate Valid()
      reads this
    {
      size > 0 && data.Length == size && nextwrite < size && nextread < size
    }

    ghost function Contents(): (s: seq<T>)
      requires Valid()
      reads this, data
    {
      Ring(data[..], nextread, nextwrite)
    }

    constructor (size: nat)
      requires size > 0
      ensures Valid() && fresh(data) && Contents() == [] && this.size == size
    {
      this.size := size;
      nextread, nextwrite := 0, 0;
      data := new T[size];
    }

    predicate Empty()
      requires Valid()
      reads this, data
      ensures Empty() <==> Contents() == []
    {
      nextwrite == nextread
    }

    ghost predicate Full()
      requires Valid()
      reads this
    {
      Count(size, nextread, nextwrite) == size - 1
    }

    /** Copies everything into a larger ring; `memory` says whether there is room for it. */
    method Grow(target: nat, memory: bool) returns (ok: bool)
      requires Valid() && target > size
      modifies this
      ensures Valid() && ok == memory && Contents() == old(Contents())
      ensures ok ==> size == Doubled(old(size), target) && fresh(data)
      ensures !ok ==> size == old(size) && data == old(data)
      decreases 2
    {
      hide Ring;
      var olddata, onr, onw := data, nextread, nextwrite;
      var nsize := NewSize(target);
      if !memory {
        return false;
      }
      size := nsize;
      data := new T[nsize];
      nextread, nextwrite := 0, 0;
      CopyIn(olddata, onr, onw);
      return true;
    }

    method NewSize(target: nat) returns (nsize: nat)
      requires size > 0
      ensures nsize == Doubled(size, target)
    {
      nsize := size;
      while nsize < target
        invariant nsize > 0 && Doubled(nsize, target) == Doubled(size, target)
        decreases target - nsize
      {
        nsize := nsize * 2;
      }
    }

    /** Adds the elements of another ring, one by one; there is room for all, so none of these grows. */
    method CopyIn(olddata: array<T>, onr: nat, onw: nat)
      requires Valid() && data != olddata && onr < olddata.Length < size && onw < olddata.Length && nextread == nextwrite
      modifies this, data
      ensures Valid() && size == old(size) && data == old(data)
      ensures Contents() == Ring(olddata[..], onr, onw)
      decreases 1
    {
      hide Ring, Count;
      var osize, i := olddata.Length, onr;
      ghost var from := olddata[..];
      EmptyRing(data[..], nextread);
      while i != onw
        invariant 0 <= i < osize && Valid() && size == old(size) && data == old(data) && olddata[..] == from
        invariant Contents() + Ring(from, i, onw) == Ring(from, onr, onw)
        decreases Count(osize, i, onw)
      {
        RingRem(from, i, onw);
        NotFull(from, onr, i, onw);
        ghost var done, rest := Contents(), Ring(from, Next(osize, i), onw);
        assert done + ([from[i]] + rest) == (done + [from[i]]) + rest;
        var r := AddTail(olddata[i], true);
        i := Next(osize, i);
      }
      EmptyRing(from, i);
    }

    lemma NotFull(from: seq<T>, onr: nat, i: nat, onw: nat)
      requires Valid() && |from| < size && onr < |from| && i < |from| && onw < |from| && i != onw
      requires Contents() + Ring(from, i, onw) == Ring(from, onr, onw)
      ensures !Full()
    {
    }

    /** Adds at the tail. The queue grows exactly when full, and then doubles. */
    method AddTail(x: T, memory: bool) returns (ok: bool)
      requires Valid()
      modifies this, data
      ensures Valid() && (data == old(data) || fresh(data))
      ensures ok <==> memory || !old(Full())
      ensures Contents() == if ok then old(Contents()) + [x] else old(Contents())
      ensures size == if old(Full()) && ok then 2 * old(size) else old(size)
      ensures !old(Full()) ==> data == old(data)
      decreases if Full() then 3 else 0
    {
      hide Ring;
      var nextnext := Next(size, nextwrite);
      FullWhenMeeting(size, nextread, nextwrite);
      if nextnext == nextread {
        var r := Grow(size + 1, memory);
        if !r {
          return false;
        }
        assert |Contents()| < size - 1;
        nextnext := Next(size, nextwrite);
        FullWhenMeeting(size, nextread, nextwrite);
      }
      RingAdd(data[..], nextread, nextwrite, x);
      ghost var d := data[..];
      data[nextwrite] := x;
      assert data[..] == d[nextwrite := x];
      nextwrite := nextnext;
      return true;
    }

    /** Takes the head. */
    method RemHead() returns (x: T)
      requires Valid() && Contents() != []
      modifies this`nextread
      ensures Valid() && [x] + Contents() == old(Contents())
    {
      RingRem(data[..], nextread, nextwrite);
      x := data[nextread];
      nextread := Next(size, nextread);
    }

    /** Makes room in advance; never loses or reorders anything. */
    method Preallocate(n: nat, memory: bool) returns (ok: bool)
      requires Valid()
      modifies this
      ensures Valid() && Contents() == old(Contents()) && (data == old(data) || fresh(data))
      ensures ok <==> memory || n <= old(size)
      ensures size == if ok then Doubled(old(size), n) else old(size)
    {
      if n > size {
        ok := Grow(n, memory);
      } else {
        ok := true;
      }
    }
  }
}
