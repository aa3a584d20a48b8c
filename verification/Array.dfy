/**
 The resizable array of kern/lib/array.c. Removal and growth keep the order
 of the rest; only emptying a large array gives its storage back.
 */
module Arrays {
  import opened Basics

  const SMALL := 16

  /** The capacity array_preallocate settles on. */
  function NewMax(max: nat, n: nat): (m: nat)
    ensures m >= max && m >= n
    ensures n <= max ==> m == max
    decreases n - max
  {
    if n <= max then max else NewMax((max + 1) * 2, n)
  }

  class Array<T(0)> {
    var num: nat
    var max: nat
    var v: array<T>

    ghost predicate Valid()
      reads this
    {
      num <= max == v.Length
    }

    ghost function Contents(): (s: seq<T>)
      requires Valid()
      reads this, v
      ensures |s| == num
    {
      v[..num]
    }

    constructor ()
      ensures Valid() && fresh(v) && Contents() == [] && max == 0
    {
      num, max := 0, 0;
      v := new T[0];
    }

    /** Room for `n` elements; always moves to new storage. `memory` says whether there is room for it. */
    method Preallocate(n: nat, memory: bool) returns (ok: bool)
      requires Valid()
      modifies this`max, this`v
      ensures Valid() && ok == memory && Contents() == old(Contents())
      ensures max == if ok then NewMax(old(max), n) else old(max)
      ensures if ok then fresh(v) else v == old(v)
    {
      var newmax := max;
      while n > newmax
        invariant newmax >= max && NewMax(newmax, n) == NewMax(max, n)
        decreases n - newmax
      {
        newmax := (newmax + 1) * 2;
      }
      if !memory {
        return false;
      }
      var newv := new T[newmax];
      var i := 0;
      while i < num
        invariant i <= num && v == old(v) && max == old(max) && v[..] == old(v[..]) && newv[..i] == v[..i]
      {
        newv[i] := v[i];
        i := i + 1;
      }
      max, v := newmax, newv;
      return true;
    }

    /** Changes the size; new elements are arbitrary. Storage is taken only to grow past `max`. */
    method SetSize(n: nat, memory: bool) returns (ok: bool)
      requires Valid()
      modifies this
      ensures Valid() && (ok <==> memory || n <= old(max))
      ensures num == if ok then n else old(num)
      ensures ok && old(num) <= n ==> Contents()[..old(num)] == old(Contents())
      ensures ok && n <= old(num) ==> Contents() == old(Contents())[..n]
      ensures !ok ==> Contents() == old(Contents())
      ensures max == if !ok then old(max) else if n > old(max) then NewMax(old(max), n)
                     else if n == 0 && old(max) > SMALL then 0 else old(max)
      ensures fresh(v) || v == old(v)
      ensures 0 < n <= old(max) ==> v == old(v)
    {
      if n > max {
        ok := Preallocate(n, memory);
        if !ok {
          return;
        }
      } else if n == 0 && max > SMALL {
        v := new T[0];
        max := 0;
      }
      num := n;
      return true;
    }

    /** Appends. Storage is taken exactly when the array is full. */
    method Add(x: T, memory: bool) returns (ok: bool)
      requires Valid()
      modifies this, v
      ensures Valid() && (ok <==> memory || old(num) < old(max))
      ensures Contents() == if ok then old(Contents()) + [x] else old(Contents())
      ensures max == if ok then NewMax(old(max), old(num) + 1) else old(max)
      ensures fresh(v) || v == old(v)
    {
      var ix := num;
      ok := SetSize(ix + 1, memory);
      if ok {
        v[ix] := x;
        assert v[..ix + 1] == v[..ix] + [x];
      }
    }

    /** Takes one element out; the others keep their order. */
    method Remove(index: nat)
      requires Valid() && index < num
      modifies this`num, v
      ensures Valid() && Contents() == Without(old(Contents()), index)
      ensures max == old(max)
    {
      forall i | index <= i < num - 1 {
        v[i] := v[i + 1];
      }
      num := num - 1;
    }
  }
}
