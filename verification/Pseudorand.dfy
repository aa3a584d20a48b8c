/** The Park-Miller generator of kern/dev/generic/pseudorand.c, with Schrage's way of avoiding overflow. */
module Pseudorand {
  import opened Basics

  const MULTIPLIER := 16807
  const MODULUS := 0x7fff_ffff
  const K1 := 127773
  const K2 := 2836
  const INVERSE := 1407677000
  const SEED := 305824

  predicate InRange(seed: int)
  {
    1 <= seed < MODULUS
  }

  predicate FitsInt32(x: int)
  {
    -0x8000_0000 <= x <= 0x7fff_ffff
  }

  /** One step, as the code takes it. */
  function Schrage(seed: int): (r: int)
    requires InRange(seed)
  {
    var hi, lo := seed / K1, seed % K1;
    var tmp := MULTIPLIER * lo - K2 * hi;
    if tmp <= 0 then tmp + MODULUS else tmp
  }

  /** No intermediate value leaves 32 bits. */
  lemma NoOverflow(seed: int)
    requires InRange(seed)
    ensures var hi, lo := seed / K1, seed % K1;
            && FitsInt32(hi) && FitsInt32(lo) && FitsInt32(MULTIPLIER * lo) && FitsInt32(K2 * hi)
            && FitsInt32(MULTIPLIER * lo - K2 * hi) && FitsInt32(Schrage(seed))
  {
  }

  lemma Remainder(x: int, q: int, r: int)
    requires x == q * MODULUS + r && 0 <= r < MODULUS
    ensures x % MODULUS == r
  {
  }

  /** The step is multiplication modulo a prime, and stays in range. */
  lemma SchrageIsProduct(seed: int)
    requires InRange(seed)
    ensures Schrage(seed) == MULTIPLIER * seed % MODULUS && InRange(Schrage(seed))
  {
    var hi, lo := seed / K1, seed % K1;
    var tmp := MULTIPLIER * lo - K2 * hi;
    assert seed == hi * K1 + lo;
    assert MULTIPLIER * seed == hi * MODULUS + tmp;
    if tmp > 0 {
      Remainder(MULTIPLIER * seed, hi, tmp);
    } else {
      NotMultiple(seed, hi);
      Remainder(MULTIPLIER * seed, hi - 1, tmp + MODULUS);
    }
  }

  /** The product is never a multiple of the modulus. */
  lemma NotMultiple(seed: int, q: int)
    requires InRange(seed)
    ensures MULTIPLIER * seed != q * MODULUS
  {
  }

  function Back(t: int): (s: int)
    requires InRange(t)
  {
    INVERSE * t % MODULUS
  }

  /** The step has an inverse on both sides, so it permutes the range. */
  lemma StepThenBack(seed: int)
    requires InRange(seed)
    ensures InRange(Schrage(seed)) && Back(Schrage(seed)) == seed
  {
    SchrageIsProduct(seed);
    Cancel(MULTIPLIER, INVERSE, seed, Schrage(seed));
  }

  lemma BackThenStep(t: int)
    requires InRange(t)
    ensures InRange(Back(t)) && Schrage(Back(t)) == t
  {
    Cancel(INVERSE, MULTIPLIER, t, Back(t));
    SchrageIsProduct(Back(t));
  }

  lemma Cancel(a: int, b: int, s: int, r: int)
    requires (a == MULTIPLIER && b == INVERSE) || (a == INVERSE && b == MULTIPLIER)
    requires InRange(s) && r == a * s % MODULUS
    ensures InRange(r) && b * r % MODULUS == s
  {
    var q := a * s / MODULUS;
    assert a * s == q * MODULUS + r;
    assert b * r == (11017 * s - b * q) * MODULUS + s;
    Remainder(b * r, 11017 * s - b * q, s);
  }

  /** The seed after `n` steps. */
  function Iterate(seed: int, n: nat): (s: int)
    requires InRange(seed)
    ensures InRange(s)
  {
    if n == 0 then seed
    else
      var s := Iterate(seed, n - 1);
      SchrageIsProduct(s);
      Schrage(s)
  }

  /** In closed form. */
  lemma {:induction false} IterateIs(seed: int, n: nat)
    requires InRange(seed)
    ensures Iterate(seed, n) == Pow(MULTIPLIER, n) * seed % MODULUS
  {
    if n == 0 {
      Remainder(seed, 0, seed);
    } else {
      IterateIs(seed, n - 1);
      var s, p := Iterate(seed, n - 1), Pow(MULTIPLIER, n - 1) * seed;
      SchrageIsProduct(s);
      assert p == (p / MODULUS) * MODULUS + s;
      assert Pow(MULTIPLIER, n) * seed == MULTIPLIER * p by { Swap(Pow(MULTIPLIER, n - 1), seed); }
      assert MULTIPLIER * p == (MULTIPLIER * (p / MODULUS)) * MODULUS + MULTIPLIER * s;
      SameRemainder(MULTIPLIER * (p / MODULUS), MULTIPLIER * s);
    }
  }

  lemma Swap(p: int, s: int)
    ensures (MULTIPLIER * p) * s == MULTIPLIER * (p * s)
  {
  }

  lemma SameRemainder(q: int, x: int)
    ensures (q * MODULUS + x) % MODULUS == x % MODULUS
  {
  }

  class Softc {
    var seed: int

    ghost predicate Valid()
      reads this
    {
      InRange(seed)
    }

    constructor ()
      ensures Valid() && seed == SEED
    {
      seed := SEED;
    }

    /** A value from 0 to MODULUS - 2; the seed moves one step. */
    method Random() returns (r: int)
      requires Valid()
      modifies this
      ensures Valid() && seed == MULTIPLIER * old(seed) % MODULUS && r == seed - 1 && 0 <= r <= MODULUS - 2
    {
      NoOverflow(seed);
      SchrageIsProduct(seed);
      var hi := seed / K1;
      var lo := seed % K1;
      var tmp := MULTIPLIER * lo - K2 * hi;
      if tmp <= 0 {
        tmp := tmp + MODULUS;
      }
      seed := tmp;
      r := seed - 1;
    }
  }
}
