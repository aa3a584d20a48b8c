/** Definitions shared by models of different parts of the kernel. */
module Basics {
  datatype Option<T> = None | Some(value: T)

  /** One more than the largest 32-bit word. */
  const WORD := 0x1_0000_0000

  /** Two address ranges do not overlap. */
  predicate Apart(a: nat, m: nat, b: nat, n: nat)
  {
    a + m <= b || b + n <= a
  }

  /** A word of memory. */
  function Load(mem: map<nat, nat>, a: nat): (w: nat)
  {
    if a in mem then mem[a] else 0
  }

  ghost function Elements(s: seq<nat>): (r: set<nat>)
  {
    set i: nat | i < |s| :: s[i]
  }

  function Without<T>(s: seq<T>, i: nat): (r: seq<T>)
    requires i < |s|
  {
    s[..i] + s[i + 1..]
  }

  lemma MulAtLeast(m: int, d: int)
    requires m > 0
    ensures d >= 1 ==> m * d >= m
    ensures d >= 2 ==> m * d >= 2 * m
    ensures d <= 0 ==> m * d <= 0
    ensures d <= -1 ==> m * d <= -m
  {
  }

  /** A set of numbers below `n` has at most `n` elements, and then all of them. */
  lemma {:induction false} BelowSize(n: nat, s: set<nat>)
    requires forall k | k in s :: k < n
    ensures |s| <= n
    ensures |s| == n ==> forall k: nat | k < n :: k in s
  {
    if n > 0 {
      var t := s - {n - 1};
      BelowSize(n - 1, t);
      if n - 1 in s {
        assert s == t + {n - 1};
      } else {
        assert s == t;
      }
    } else {
      assert s == {};
    }
  }

  function Pow(b: nat, k: nat): (p: nat)
    ensures b > 0 ==> p > 0
  {
    if k == 0 then 1 else b * Pow(b, k - 1)
  }
}
