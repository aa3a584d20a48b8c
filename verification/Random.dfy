/**
 The additive-feedback generator of lib/libc/random.c: a ring of words under
 two pointers, seeding, and switching between state arrays.
 */
module Random {
  import opened Basics

  const MAX_TYPES := 5

  /** Degree and separation of the trinomial of each type; type 0 is a plain congruential generator. */
  function Deg(kind: nat): (d: nat)
    requires kind < MAX_TYPES
  {
    match kind
    case 0 => 0
    case 1 => 7
    case 2 => 15
    case 3 => 31
    case _ => 63
  }

  function Sep(kind: nat): (s: nat)
    requires kind < MAX_TYPES
    ensures kind > 0 ==> 0 < s < Deg(kind)
  {
    match kind
    case 0 => 0
    case 1 => 3
    case 2 => 1
    case 3 => 3
    case _ => 1
  }

  // ---- the sequence ----

  /** y[t] = y[t - deg] + y[t - sep], starting from the words of `w`. */
  function Y(w: seq<nat>, sep: nat, t: nat): (y: nat)
    requires 0 < sep < |w|
  {
    if t < |w| then w[t] else (Y(w, sep, t - |w|) + Y(w, sep, t - sep)) % WORD
  }

  /** The last words of the sequence, oldest first, one step on. */
  function Advance(w: seq<nat>, sep: nat): (r: seq<nat>)
    requires 0 < sep < |w|
    ensures |r| == |w|
  {
    w[1..] + [(w[0] + w[|w| - sep]) % WORD]
  }

  function After(w: seq<nat>, sep: nat, n: nat): (r: seq<nat>)
    requires 0 < sep < |w|
    ensures |r| == |w|
  {
    if n == 0 then w else Advance(After(w, sep, n - 1), sep)
  }

  /** After `n` steps the words are those of the sequence from `n` on. */
  lemma {:induction false} AfterIs(w: seq<nat>, sep: nat, n: nat, i: nat)
    requires 0 < sep < |w| && i < |w|
    ensures After(w, sep, n)[i] == Y(w, sep, n + i)
    decreases n
  {
    if n > 0 {
      var p := After(w, sep, n - 1);
      if i < |w| - 1 {
        AfterIs(w, sep, n - 1, i + 1);
      } else {
        AfterIs(w, sep, n - 1, 0);
        AfterIs(w, sep, n - 1, |w| - sep);
      }
    }
  }

  // ---- the ring ----

  /** The words of the ring from the front pointer on, oldest first. */
  function Window(words: seq<nat>, f: nat): (w: seq<nat>)
    requires f < |words|
    ensures |w| == |words|
  {
    words[f..] + words[..f]
  }

  /** `f` is `sep` places ahead of `r`. */
  predicate Ahead(deg: nat, sep: nat, r: nat, f: nat)
  {
    r < deg && f < deg && f == if r + sep < deg then r + sep else r + sep - deg
  }

  function Bump(deg: nat, i: nat): (j: nat)
    requires i < deg
    ensures j < deg
  {
    if i + 1 >= deg then 0 else i + 1
  }

  /** Both pointers keep their distance, and never wrap together. */
  lemma PointersStayApart(deg: nat, sep: nat, r: nat, f: nat)
    requires 0 < sep < deg && Ahead(deg, sep, r, f)
    ensures Ahead(deg, sep, Bump(deg, r), Bump(deg, f))
    ensures !(Bump(deg, r) == 0 && Bump(deg, f) == 0)
    ensures (f + 1 >= deg ==> r + 1 < deg)
  {
  }

  /** Adding the rear word into the front word is one step of the sequence. */
  lemma RingStep(words: seq<nat>, sep: nat, r: nat, f: nat)
    requires 0 < sep < |words| && Ahead(|words|, sep, r, f)
    ensures var words' := words[f := (words[f] + words[r]) % WORD];
            Window(words', Bump(|words|, f)) == Advance(Window(words, f), sep)
  {
  }

  // ---- generators as values ----

  /** A generator: its type, rear position, and words (one word for type 0). */
  datatype Gen = Gen(kind: nat, rear: nat, words: seq<nat>)

  function Size(kind: nat): (n: nat)
    requires kind < MAX_TYPES
  {
    if kind == 0 then 1 else Deg(kind)
  }

  predicate GenOk(g: Gen)
  {
    g.kind < MAX_TYPES && |g.words| == Size(g.kind) && if g.kind == 0 then g.rear == 0 else g.rear < Deg(g.kind)
  }

  function Front(g: Gen): (f: nat)
    requires GenOk(g) && g.kind > 0
    ensures Ahead(Deg(g.kind), Sep(g.kind), g.rear, f)
  {
    AheadMod(Deg(g.kind), Sep(g.kind), g.rear);
    (g.rear + Sep(g.kind)) % Deg(g.kind)
  }

  lemma AheadMod(deg: nat, sep: nat, rear: nat)
    requires 0 < sep < deg && rear < deg
    ensures Ahead(deg, sep, rear, (rear + sep) % deg)
  {
  }

  /** The recent words of the sequence, oldest first. */
  function Recent(g: Gen): (w: seq<nat>)
    requires GenOk(g) && g.kind > 0
    ensures |w| == Deg(g.kind)
  {
    Window(g.words, Front(g))
  }

  /** One call of random: the generator after it, and the number returned. */
  function StepGen(g: Gen): (r: Gen)
    requires GenOk(g)
    ensures GenOk(r) && r.kind == g.kind
  {
    if g.kind == 0 then Gen(0, 0, [(g.words[0] * 1103515245 + 12345) % 0x8000_0000])
    else
      var f := Front(g);
      Gen(g.kind, Bump(Deg(g.kind), g.rear), g.words[f := (g.words[f] + g.words[g.rear]) % WORD])
  }

  function OutOf(g: Gen): (i: nat)
    requires GenOk(g)
  {
    if g.kind == 0 then (g.words[0] * 1103515245 + 12345) % 0x8000_0000
    else (g.words[Front(g)] + g.words[g.rear]) % WORD / 2 % 0x8000_0000
  }

  function Steps(g: Gen, n: nat): (r: Gen)
    requires GenOk(g)
    ensures GenOk(r) && r.kind == g.kind
  {
    if n == 0 then g else StepGen(Steps(g, n - 1))
  }

  lemma FrontIs(g: Gen, f: nat)
    requires GenOk(g) && g.kind > 0 && Ahead(Deg(g.kind), Sep(g.kind), g.rear, f)
    ensures Front(g) == f
  {
  }

  lemma RingStepIs(g: Gen, f: nat)
    requires GenOk(g) && g.kind > 0 && Ahead(Deg(g.kind), Sep(g.kind), g.rear, f)
    ensures f < |g.words| == Deg(g.kind) && g.rear < |g.words|
    ensures var sum := (g.words[f] + g.words[g.rear]) % WORD;
            && StepGen(g) == Gen(g.kind, Bump(Deg(g.kind), g.rear), g.words[f := sum])
            && OutOf(g) == sum / 2 % 0x8000_0000
  {
    FrontIs(g, f);
  }

  /** A call is one step of the sequence, and returns its newest word without the low bit. */
  lemma StepIsAdvance(g: Gen)
    requires GenOk(g) && g.kind > 0
    ensures Recent(StepGen(g)) == Advance(Recent(g), Sep(g.kind))
    ensures OutOf(g) == Advance(Recent(g), Sep(g.kind))[Deg(g.kind) - 1] / 2 % 0x8000_0000
  {
    hide Deg, Sep, Window, Advance;
    var deg, sep, f := Deg(g.kind), Sep(g.kind), Front(g);
    PointersStayApart(deg, sep, g.rear, f);
    FrontIs(StepGen(g), Bump(deg, f));
    RingStep(g.words, sep, g.rear, f);
    NewestIs(g.words, sep, g.rear, f);
  }

  lemma {:induction false} StepsRecent(g: Gen, n: nat)
    requires GenOk(g) && g.kind > 0
    ensures Recent(Steps(g, n)) == After(Recent(g), Sep(g.kind), n)
  {
    hide Deg, Sep, Window, Advance, StepGen, Recent;
    if n > 0 {
      StepsRecent(g, n - 1);
      StepIsAdvance(Steps(g, n - 1));
    }
  }

  /** The numbers returned are the sequence itself, from its first new word on. */
  lemma NumbersAre(g: Gen, i: nat)
    requires GenOk(g) && g.kind > 0
    ensures OutOf(Steps(g, i)) == Y(Recent(g), Sep(g.kind), Deg(g.kind) + i) / 2 % 0x8000_0000
  {
    hide Deg, Sep, Window, Advance, StepGen, Recent, OutOf, Y;
    var w, sep := Recent(g), Sep(g.kind);
    StepsRecent(g, i);
    StepIsAdvance(Steps(g, i));
    AfterIs(w, sep, i + 1, Deg(g.kind) - 1);
  }

  lemma BumpMod(kind: nat, m: nat)
    requires 0 < kind < MAX_TYPES && Deg(kind) > 0
    ensures Bump(Deg(kind), m % Deg(kind)) == (m + 1) % Deg(kind)
  {
    hide Deg;
    var deg := Deg(kind);
    var q, r := m / deg, m % deg;
    if r + 1 < deg {
      ModUnique(m + 1, deg, q, r + 1);
    } else {
      assert deg * (q + 1) == deg * q + deg;
      ModUnique(m + 1, deg, q + 1, 0);
    }
  }

  lemma ModUnique(a: nat, deg: nat, q: nat, r: nat)
    requires r < deg && a == deg * q + r
    ensures a % deg == r
  {
    var p := a / deg;
    assert deg * (q - p) == deg * q - deg * p;
    MulAtLeast(deg, q - p);
  }

  /** The rear pointer goes round once in as many calls as there are words. */
  lemma {:induction false} StepsRear(g: Gen, n: nat)
    requires GenOk(g) && g.kind > 0
    ensures Steps(g, n).rear == (g.rear + n) % Deg(g.kind)
  {
    hide Deg, Sep, Window, Front;
    if n == 0 {
      SmallMod(g.rear, Deg(g.kind));
    } else {
      StepsRear(g, n - 1);
      BumpMod(g.kind, g.rear + n - 1);
    }
  }

  lemma SmallMod(r: nat, deg: nat)
    requires r < deg
    ensures r % deg == r
  {
  }

  lemma SamePlace(kind: nat, r: nat, n: nat)
    requires 0 < kind < MAX_TYPES && r < Deg(kind)
    ensures (r + n) % Deg(kind) == r <==> n % Deg(kind) == 0
  {
  }

  /** After `n` calls the generator is back at its position exactly if the ring was gone round. */
  lemma BackAtRear(g: Gen, n: nat)
    requires GenOk(g)
    ensures Steps(g, n).rear == g.rear <==> g.kind == 0 || n % Deg(g.kind) == 0
  {
    hide Deg;
    if g.kind > 0 {
      StepsRear(g, n);
      SamePlace(g.kind, g.rear, n);
    }
  }

  // ---- state arrays ----

  /** The type named by the first word of a state array: the remainder of a signed division, so it may be negative. */
  function TypeOf(w: nat): (k: int)
    ensures k < MAX_TYPES
  {
    if w < 0x8000_0000 then w % MAX_TYPES else -((WORD - w) % MAX_TYPES)
  }

  /** A state array keeps type and rear position in its first word. */
  predicate Saved(a: seq<nat>)
  {
    && a != [] && TypeOf(a[0]) >= 0 && |a| >= 1 + Size(TypeOf(a[0]))
    && (TypeOf(a[0]) > 0 ==> a[0] / MAX_TYPES < Deg(TypeOf(a[0])))
  }

  ghost function Decode(a: seq<nat>): (g: Gen)
    requires Saved(a)
    ensures GenOk(g)
  {
    var kind := TypeOf(a[0]);
    Gen(kind, if kind == 0 then 0 else a[0] / MAX_TYPES, a[1..1 + Size(kind)])
  }

  function Code(kind: nat, rear: nat): (n: nat)
  {
    MAX_TYPES * rear + kind
  }

  lemma CodeDecodes(kind: nat, rear: nat)
    requires kind < MAX_TYPES && rear < 63
    ensures TypeOf(Code(kind, rear)) == kind && Code(kind, rear) / MAX_TYPES == rear
  {
  }

  /** The type chosen for a state array of `n` bytes. */
  function KindFor(n: nat): (kind: nat)
    requires n >= 8
    ensures kind < MAX_TYPES && 4 * (1 + Size(kind)) <= n
  {
    if n < 32 then 0 else if n < 64 then 1 else if n < 128 then 2 else if n < 256 then 3 else 4
  }

  /** The words srandom starts from. */
  function Congruence(x: nat, n: nat): (y: nat)
  {
    if n == 0 then x else (1103515245 * Congruence(x, n - 1) + 12345) % WORD
  }

  function SeedWords(x: nat, deg: nat): (w: seq<nat>)
    ensures |w| == deg
  {
    seq(deg, i requires 0 <= i < deg => Congruence(x, i))
  }

  /** A generator just seeded: ten times round from words in congruence. */
  function Seeded(kind: nat, x: nat): (g: Gen)
    requires kind < MAX_TYPES
    ensures GenOk(g) && g.kind == kind
  {
    if kind == 0 then Gen(0, 0, [x]) else Steps(Gen(kind, 0, SeedWords(x, Deg(kind))), 10 * Deg(kind))
  }

  /** Seeding leaves the rear pointer at zero. */
  lemma SeededRear(kind: nat, x: nat)
    requires kind < MAX_TYPES
    ensures Seeded(kind, x).rear == 0
  {
    hide Steps, SeedWords;
    if kind > 0 {
      StepsRear(Gen(kind, 0, SeedWords(x, Deg(kind))), 10 * Deg(kind));
    }
  }

  /** x, a x + c, a (a x + c) + c and so on, modulo 2^31. */
  function Congruence31(x: nat, n: nat): (y: nat)
  {
    if n == 0 then x else (1103515245 * Congruence31(x, n - 1) + 12345) % 0x8000_0000
  }

  /**
   Number `i` after srandom(x): a term of a congruence, or of the trinomial's
   sequence that starts with the seed's words from the separation on and has
   gone on for ten times the degree.
   */
  function Number(kind: nat, x: nat, i: nat): (y: nat)
    requires kind < MAX_TYPES
  {
    if kind == 0 then Congruence31(x, i + 1)
    else
      var deg, sep, w := Deg(kind), Sep(kind), SeedWords(x, Deg(kind));
      Y(w[sep..] + w[..sep], sep, 11 * deg + i) / 2 % 0x8000_0000
  }

  lemma {:induction false} PlainNumbers(x: nat, n: nat)
    ensures Steps(Gen(0, 0, [x]), n) == Gen(0, 0, [Congruence31(x, n)])
  {
    if n > 0 {
      PlainNumbers(x, n - 1);
    }
  }

  lemma {:induction false} StepsAdd(g: Gen, m: nat, n: nat)
    requires GenOk(g)
    ensures Steps(Steps(g, m), n) == Steps(g, m + n)
  {
    hide StepGen;
    if n > 0 {
      StepsAdd(g, m, n - 1);
    }
  }

  lemma FirstWindow(kind: nat, words: seq<nat>)
    requires 0 < kind < MAX_TYPES && |words| == Deg(kind)
    ensures Recent(Gen(kind, 0, words)) == words[Sep(kind)..] + words[..Sep(kind)]
  {
  }

  /** What random returns after srandom. */
  lemma SeededNumbers(kind: nat, x: nat, i: nat)
    requires kind < MAX_TYPES
    ensures OutOf(Steps(Seeded(kind, x), i)) == Number(kind, x, i)
  {
    if kind == 0 {
      PlainNumbers(x, i);
    } else {
      hide Deg, Sep, Steps, OutOf, Y, Recent, SeedWords;
      var g := Gen(kind, 0, SeedWords(x, Deg(kind)));
      StepsAdd(g, 10 * Deg(kind), i);
      NumbersAre(g, 10 * Deg(kind) + i);
      FirstWindow(kind, g.words);
    }
  }

  /** The trinomials x^7 + x^3 + 1, x^15 + x + 1, x^31 + x^3 + 1 and x^63 + x + 1, for arrays of 32, 64, 128 and 256 bytes. */
  lemma Trinomials(n: nat)
    requires n >= 8
    ensures var k := KindFor(n);
            && (k == 0 <==> n < 32)
            && (32 <= n < 64 ==> Deg(k) == 7 && Sep(k) == 3)
            && (64 <= n < 128 ==> Deg(k) == 15 && Sep(k) == 1)
            && (128 <= n < 256 ==> Deg(k) == 31 && Sep(k) == 3)
            && (256 <= n ==> Deg(k) == 63 && Sep(k) == 1)
  {
  }

  /** The array in use after `n` calls, its first word still as it was noted. */
  ghost function Used(a: seq<nat>, n: nat): (b: seq<nat>)
    requires Saved(a)
  {
    var g := Steps(Decode(a), n);
    [a[0]] + g.words + a[1 + Size(g.kind)..]
  }

  /**
   setstate with the array already in use finds the position noted in it, not
   the current one. It is harmless exactly when that makes no difference: for
   type 0, or after a whole number of rounds since the position was noted.
   */
  lemma SameArray(a: seq<nat>, n: nat)
    requires Saved(a)
    ensures Saved(Used(a, n))
    ensures var kind := Decode(a).kind;
            Decode(Used(a, n)) == Steps(Decode(a), n) <==> kind == 0 || n % Deg(kind) == 0
  {
    hide Deg, Steps;
    var g := Steps(Decode(a), n);
    var b := Used(a, n);
    assert b[1..1 + Size(g.kind)] == g.words;
    BackAtRear(Decode(a), n);
  }

  class Generator {
    var tbl: array<nat>
    var kind: nat
    var rptr: nat
    var fptr: nat

    ghost predicate Valid()
      reads this
    {
      && kind < MAX_TYPES && tbl.Length >= 1 + Size(kind)
      && (kind > 0 ==> Ahead(Deg(kind), Sep(kind), rptr, fptr))
    }

    /** A generator that goes on from a state array. */
    constructor Resume(a: array<nat>)
      requires Saved(a[..])
      ensures Valid() && tbl == a && Current() == Decode(a[..])
    {
      tbl := a;
      var k: nat := TypeOf(a[0]);
      kind := k;
      rptr := if k == 0 then 0 else a[0] / MAX_TYPES;
      fptr := if k == 0 then 0 else (a[0] / MAX_TYPES + Sep(k)) % Deg(k);
      new;
      if k > 0 {
        AheadMod(Deg(k), Sep(k), rptr);
      }
    }

    ghost function Words(): (w: seq<nat>)
      requires Valid()
      reads this, tbl
    {
      tbl[1..1 + Size(kind)]
    }

    ghost function Current(): (g: Gen)
      requires Valid()
      reads this, tbl
      ensures GenOk(g)
    {
      Gen(kind, if kind == 0 then 0 else rptr, Words())
    }

    /** The position noted in the array is the current one. */
    ghost predicate Noted()
      requires Valid()
      reads this, tbl
    {
      Saved(tbl[..]) && Decode(tbl[..]) == Current()
    }

    /** The rear word is added into the front word. */
    method AddRear() returns (i: nat)
      requires Valid() && kind > 0
      modifies tbl
      ensures Valid() && tbl[0] == old(tbl[0]) && tbl[1 + Deg(kind)..] == old(tbl[1 + Deg(kind)..])
      ensures fptr < |old(Words())| && rptr < |old(Words())|
      ensures var w := old(Words()); var sum := (w[fptr] + w[rptr]) % WORD;
              Words() == w[fptr := sum] && i == sum / 2 % 0x8000_0000
    {
      hide Deg, Sep;
      ghost var w, all := Words(), tbl[..];
      var sum := (tbl[1 + fptr] + tbl[1 + rptr]) % WORD;
      assert w[fptr] == tbl[1 + fptr] && w[rptr] == tbl[1 + rptr];
      tbl[1 + fptr] := sum;
      i := sum / 2 % 0x8000_0000;
      assert tbl[..] == all[1 + fptr := sum];
      SliceUpdate(all, Deg(kind), fptr, sum);
    }

    /** The trinomial half of random_unlocked. */
    method NextOfRing() returns (i: nat)
      requires Valid() && kind > 0
      modifies tbl, this`rptr, this`fptr
      ensures Valid() && tbl[0] == old(tbl[0]) && tbl[1 + Deg(kind)..] == old(tbl[1 + Deg(kind)..])
      ensures Current() == StepGen(old(Current())) && i == OutOf(old(Current()))
    {
      hide Deg, Sep, StepGen, OutOf, GenOk;
      PointersStayApart(Deg(kind), Sep(kind), rptr, fptr);
      RingStepIs(Current(), fptr);
      i := AddRear();
      var f, r := fptr + 1, rptr;
      if f >= Deg(kind) {
        f := 0;
        r := r + 1;
      } else {
        r := r + 1;
        if r >= Deg(kind) {
          r := 0;
        }
      }
      fptr, rptr := f, r;
    }

    /** random_unlocked. */
    method Next() returns (i: nat)
      requires Valid()
      modifies tbl, this`rptr, this`fptr
      ensures Valid() && tbl[0] == old(tbl[0]) && tbl[1 + Size(kind)..] == old(tbl[1 + Size(kind)..])
      ensures Current() == StepGen(old(Current())) && i == OutOf(old(Current()))
    {
      hide Deg, Sep, Front;
      if kind == 0 {
        i := (tbl[1] * 1103515245 + 12345) % 0x8000_0000;
        tbl[1] := i;
      } else {
        i := NextOfRing();
      }
    }

    /** `n` calls of random: the next `n` numbers of the generator. */
    method Draw(n: nat) returns (out: seq<nat>)
      requires Valid()
      modifies tbl, this`rptr, this`fptr
      ensures Valid() && tbl[0] == old(tbl[0]) && tbl[1 + Size(kind)..] == old(tbl[1 + Size(kind)..])
      ensures Current() == Steps(old(Current()), n)
      ensures |out| == n && forall i: nat | i < n :: out[i] == OutOf(Steps(old(Current()), i))
    {
      hide Size, StepGen, OutOf;
      ghost var g := Current();
      out := [];
      while |out| < n
        invariant Valid() && tbl[0] == old(tbl[0]) && tbl[1 + Size(kind)..] == old(tbl[1 + Size(kind)..])
        invariant |out| <= n && Current() == Steps(g, |out|)
        invariant forall i: nat | i < |out| :: out[i] == OutOf(Steps(g, i))
      {
        var x := Next();
        out := out + [x];
      }
    }

    /** The first part of srandom: words from a congruential generator, pointers at their places. */
    method Fill(x: nat)
      requires Valid() && kind > 0
      modifies tbl, this`rptr, this`fptr
      ensures Valid() && tbl[0] == old(tbl[0]) && Current() == Gen(kind, 0, SeedWords(x, Deg(kind)))
    {
      tbl[1] := x;
      var i := 1;
      while i < Deg(kind)
        invariant 1 <= i <= Deg(kind) && tbl[0] == old(tbl[0]) && rptr == old(rptr) && fptr == old(fptr)
        invariant forall j: nat | j < i :: tbl[1 + j] == Congruence(x, j)
      {
        tbl[1 + i] := (1103515245 * tbl[i] + 12345) % WORD;
        i := i + 1;
      }
      fptr, rptr := Sep(kind), 0;
    }

    /** srandom_unlocked. */
    method Seed(x: nat)
      requires Valid()
      modifies tbl, this`rptr, this`fptr
      ensures Valid() && tbl[0] == old(tbl[0]) && Current() == Seeded(kind, x)
    {
      hide Steps, SeedWords;
      if kind == 0 {
        tbl[1] := x;
        return;
      }
      Fill(x);
      var unused := Draw(10 * Deg(kind));
    }

    /** srandom and then `n` calls of random. */
    method SeedAndDraw(x: nat, n: nat) returns (out: seq<nat>)
      requires Valid()
      modifies tbl, this`rptr, this`fptr
      ensures Valid() && |out| == n && forall i: nat | i < n :: out[i] == Number(kind, x, i)
    {
      hide Seeded, Steps, OutOf, Number;
      Seed(x);
      out := Draw(n);
      forall i: nat | i < n
        ensures out[i] == Number(kind, x, i)
      {
        SeededNumbers(kind, x, i);
      }
    }

    /** Notes type and rear position in the array in use. */
    method Save()
      requires Valid()
      modifies tbl
      ensures Valid() && Current() == old(Current()) && tbl[0] == Code(kind, if kind == 0 then 0 else rptr)
      ensures tbl[1..] == old(tbl[1..])
      ensures Noted()
    {
      tbl[0] := if kind == 0 then kind else MAX_TYPES * rptr + kind;
      CodeDecodes(kind, if kind == 0 then 0 else rptr);
      assert tbl[..][1..1 + Size(kind)] == Words();
    }

    /** initstate: null for less than eight bytes, otherwise the best type that fits, freshly seeded. */
    method InitState(seed: nat, arg: array<nat>, n: nat) returns (ok: bool)
      requires Valid() && n <= 4 * arg.Length
      modifies this, tbl, arg
      ensures Valid() && (ok <==> n >= 8)
      ensures !ok ==> tbl == old(tbl) && Current() == old(Current())
      ensures ok ==> tbl == arg && Noted() && Current() == Seeded(KindFor(n), seed)
      ensures var o := old(tbl); o != arg || !ok ==> Saved(o[..]) && Decode(o[..]) == old(Current())
    {
      hide Seeded;
      Save();
      if n < 8 {
        return false;
      }
      kind := KindFor(n);
      tbl := arg;
      fptr, rptr := Sep(kind), 0;
      Seed(seed);
      Save();
      ok := true;
    }

    /** Points at a type and position in another array. */
    method GoTo(arg: array<nat>, k: nat, rear: nat)
      requires k < MAX_TYPES && arg.Length >= 1 + Size(k) && (k > 0 ==> rear < Deg(k))
      modifies this
      ensures Valid() && tbl == arg && kind == k
      ensures Current() == Gen(k, if k == 0 then 0 else rear, arg[1..1 + Size(k)])
    {
      hide Deg, Sep;
      kind := k;
      tbl := arg;
      if kind != 0 {
        rptr := rear;
        fptr := (rear + Sep(kind)) % Deg(kind);
        AheadMod(Deg(kind), Sep(kind), rear);
      }
    }

    /**
     setstate: type and position come from the array's first word, as it was
     before the call. A first word that names no type is refused.
     */
    method SetState(arg: array<nat>) returns (ok: bool)
      requires Valid() && arg.Length > 0 && (TypeOf(arg[0]) >= 0 ==> Saved(arg[..]))
      modifies this, tbl
      ensures Valid() && (ok <==> old(TypeOf(arg[0])) >= 0)
      ensures !ok ==> tbl == old(tbl) && Current() == old(Current())
      ensures ok ==> tbl == arg && Current() == Decode(old(arg[..]))
      ensures var o := old(tbl); o != arg ==> arg[..] == old(arg[..])
      ensures var o := old(tbl); o != arg || !ok ==> Saved(o[..]) && Decode(o[..]) == old(Current())
    {
      hide Deg, Sep, TypeOf, Code;
      ghost var a := arg[..];
      var newKind := TypeOf(arg[0]);
      var rear := arg[0] / MAX_TYPES;
      Save();
      if newKind < 0 {
        return false;
      }
      assert arg[1..] == a[1..];
      SameTail(arg[..], a, Size(newKind));
      GoTo(arg, newKind, rear);
      ok := true;
    }

    /** `n` calls after the position was noted, setstate with the same array: the position is kept as `SameArray` says. */
    method SetSame(n: nat) returns (ghost before: Gen)
      requires Valid() && Noted()
      modifies this, tbl
      ensures Valid() && tbl == old(tbl) && before == Steps(old(Current()), n)
      ensures Current() == before <==> kind == 0 || n % Deg(kind) == 0
    {
      hide Steps, Deg, Size;
      ghost var a := tbl[..];
      SameArray(a, n);
      var unused := Draw(n);
      before := Current();
      UsedIs(a, tbl[..], n, before);
      var ok := SetState(tbl);
    }

    /**
     Other state arrays are set, made, seeded and drawn from for a while, and
     then this one is set again: it goes on where it was.
     */
    method Excursion(other: array<nat>, pool: seq<array<nat>>, acts: seq<Act>)
      requires Valid() && Saved(other[..]) && other != tbl && tbl !in pool
      modifies this, tbl, other, pool
      ensures Valid() && tbl == old(tbl) && Current() == old(Current())
    {
      hide Saved, Decode, Size, Steps, Seeded;
      var home := tbl;
      assert TypeOf(other[0]) >= 0 by { SavedType(other[..]); }
      var ok := SetState(other);
      ghost var kept := home[..];
      for i := 0 to |acts|
        invariant Valid() && (tbl == other || tbl in pool) && home[..] == kept
      {
        DoAct(acts[i], pool);
      }
      SavedType(home[..]);
      ok := SetState(home);
    }

    /** One call on an array of the pool or the one in use, if its caller may make it. */
    method DoAct(act: Act, pool: seq<array<nat>>)
      requires Valid()
      modifies this, tbl, pool
      ensures Valid() && (tbl == old(tbl) || tbl in pool)
    {
      match act
      case Use(k) =>
        if k < |pool| && pool[k].Length > 0 && (TypeOf(pool[k][0]) < 0 || Saved(pool[k][..])) {
          var ok := SetState(pool[k]);
        }
      case Init(seed, k, n) =>
        if k < |pool| && n <= 4 * pool[k].Length {
          var ok := InitState(seed, pool[k], n);
        }
      case Reseed(x) => Seed(x);
      case Take => var unused := Next();
    }
  }

  /** A call that may come between. */
  datatype Act = Use(k: nat) | Init(seed: nat, k: nat, n: nat) | Reseed(x: nat) | Take

  lemma SavedType(a: seq<nat>)
    requires Saved(a)
    ensures a != [] && TypeOf(a[0]) >= 0
  {
  }

  lemma UsedIs(a: seq<nat>, b: seq<nat>, n: nat, g: Gen)
    requires Saved(a) && g == Steps(Decode(a), n) && |b| == |a| && b[0] == a[0]
    requires b[1..1 + Size(g.kind)] == g.words && b[1 + Size(g.kind)..] == a[1 + Size(g.kind)..]
    ensures b == Used(a, n)
  {
    hide Steps;
    assert b == [b[0]] + b[1..1 + Size(g.kind)] + b[1 + Size(g.kind)..];
  }

  lemma SameTail(a: seq<nat>, b: seq<nat>, n: nat)
    requires |a| == |b| && 1 + n <= |a| && a[1..] == b[1..]
    ensures a[1..1 + n] == b[1..1 + n]
  {
    assert a[1..1 + n] == a[1..][..n] && b[1..1 + n] == b[1..][..n];
  }

  lemma SliceUpdate(a: seq<nat>, n: nat, f: nat, v: nat)
    requires f < n && 1 + n <= |a|
    ensures a[1 + f := v][1..1 + n] == a[1..1 + n][f := v]
  {
  }

  /** The word just written is the newest of the window. */
  lemma NewestIs(words: seq<nat>, sep: nat, r: nat, f: nat)
    requires 0 < sep < |words| && Ahead(|words|, sep, r, f)
    ensures Advance(Window(words, f), sep)[|words| - 1] == (words[f] + words[r]) % WORD
  {
  }

  /** One call of random between two setstates is enough to lose the position. */
  method SameArrayExample() returns (before: nat, after: nat)
    ensures before == 1 && after == 0
  {
    var a := new nat[8](_ => 0);
    a[0] := 1;
    var g := new Generator.Resume(a);
    var unused := g.Next();
    before := g.rptr;
    var ok := g.SetState(a);
    after := g.rptr;
  }
}
