/**
 The bit array of kern/lib/bitmap.c: a byte array whose set bits are the
 numbers in use. `Marked` is the set it stands for; every method is specified
 on that set.
 */
module Bitmaps {
  import opened Errno

  const BITS_PER_WORD := 8
  const WORD_ALLBITS: bv8 := 0xff

  /** The mask selecting bit `offset` of a byte, as a table. */
  function Mask(offset: nat): (m: bv8)
    requires offset < BITS_PER_WORD
  {
    match offset
    case 0 => 1
    case 1 => 2
    case 2 => 4
    case 3 => 8
    case 4 => 16
    case 5 => 32
    case 6 => 64
    case _ => 128
  }

  /** The table is the shift that bitmap_translate computes. */
  lemma MaskIsShift(offset: nat)
    requires offset < BITS_PER_WORD
    ensures Mask(offset) == (1 as bv8) << offset
  {
  }

  predicate Bit(x: bv8, offset: nat)
    requires offset < BITS_PER_WORD
  {
    x & Mask(offset) != 0
  }

  /** Setting or clearing one bit of a byte leaves every other bit alone. */
  lemma BitAfterUpdate(x: bv8, i: nat, j: nat)
    requires i < BITS_PER_WORD && j < BITS_PER_WORD
    ensures Bit(x | Mask(i), j) == (i == j || Bit(x, j))
    ensures Bit(x & !Mask(i), j) == (i != j && Bit(x, j))
  {
  }

  lemma NoBits()
    ensures forall j | 0 <= j < BITS_PER_WORD :: !Bit(0, j)
  {
  }

  /** A byte is full exactly when all eight of its bits are set. */
  lemma FullByte(x: bv8)
    ensures x == WORD_ALLBITS <==> forall j | 0 <= j < BITS_PER_WORD :: Bit(x, j)
  {
    assert Bit(x, 0) && Bit(x, 1) && Bit(x, 2) && Bit(x, 3) && Bit(x, 4) && Bit(x, 5) && Bit(x, 6) && Bit(x, 7)
      ==> x == WORD_ALLBITS;
  }

  predicate IsSet(bytes: seq<bv8>, i: nat)
    requires i < 8 * |bytes|
  {
    Bit(bytes[i / 8], i % 8)
  }

  /** The numbers below `nbits` whose bit is set. */
  ghost function MarkedIn(bytes: seq<bv8>, nbits: nat): (m: set<nat>)
    requires nbits <= 8 * |bytes|
  {
    set i: nat | i < nbits && IsSet(bytes, i)
  }

  /** `bytes` with bit `index` given the value `value`. */
  function WithBit(bytes: seq<bv8>, index: nat, value: bool): (r: seq<bv8>)
    requires index < 8 * |bytes|
    ensures |r| == |bytes|
  {
    var ix, mask := index / 8, Mask(index % 8);
    bytes[ix := if value then bytes[ix] | mask else bytes[ix] & !mask]
  }

  lemma WithBitAt(bytes: seq<bv8>, index: nat, value: bool, i: nat)
    requires index < 8 * |bytes| && i < 8 * |bytes|
    ensures IsSet(WithBit(bytes, index, value), i) == if i == index then value else IsSet(bytes, i)
  {
  }

  lemma MarkedAfterUpdate(bytes: seq<bv8>, nbits: nat, index: nat, value: bool)
    requires index < nbits <= 8 * |bytes|
    ensures MarkedIn(WithBit(bytes, index, value), nbits)
         == if value then MarkedIn(bytes, nbits) + {index} else MarkedIn(bytes, nbits) - {index}
  {
    forall i: nat | i < nbits
      ensures IsSet(WithBit(bytes, index, value), i) == if i == index then value else IsSet(bytes, i)
    {
      WithBitAt(bytes, index, value, i);
    }
  }

  /** The spare bits of the last byte are all marked, so they are never handed out. */
  ghost predicate SpareMarked(bytes: seq<bv8>, nbits: nat)
  {
    && |bytes| == (nbits + 7) / 8
    && forall i {:trigger IsSet(bytes, i)} :: nbits <= i < 8 * |bytes| ==> IsSet(bytes, i)
  }

  lemma SpareAfterUpdate(bytes: seq<bv8>, nbits: nat, index: nat, value: bool)
    requires SpareMarked(bytes, nbits) && index < nbits
    ensures SpareMarked(WithBit(bytes, index, value), nbits)
  {
    forall i | nbits <= i < 8 * |bytes|
      ensures IsSet(WithBit(bytes, index, value), i)
    {
      WithBitAt(bytes, index, value, i);
    }
  }

  class Bitmap {
    const nbits: nat
    const v: array<bv8>

    ghost predicate Valid()
      reads v
    {
      SpareMarked(v[..], nbits)
    }

    ghost function Marked(): (m: set<nat>)
      requires Valid()
      reads v
    {
      MarkedIn(v[..], nbits)
    }

    /** bitmap_create: everything is free, and the spare bits of the last byte are marked. */
    constructor (nbits: nat)
      ensures this.nbits == nbits
      ensures Valid() && fresh(v)
      ensures Marked() == {}
    {
      this.nbits := nbits;
      this.v := new bv8[(nbits + 7) / 8](_ => 0);
      new;
      NoBits();
      MarkSpare();
    }

    /** The tail of bitmap_create: only the numbers from `nbits` up end up set. */
    method MarkSpare()
      requires v.Length == (nbits + 7) / 8
      requires forall i: nat {:trigger IsSet(v[..], i)} :: i < 8 * v.Length ==> !IsSet(v[..], i)
      modifies v
      ensures forall i: nat {:trigger IsSet(v[..], i)} :: i < 8 * v.Length ==> IsSet(v[..], i) == (nbits <= i)
    {
      if nbits / 8 < v.Length {
        var ix := v.Length - 1;
        var overbits := nbits - ix * 8;
        for j := overbits to 8
          invariant forall i: nat {:trigger IsSet(v[..], i)} ::
              i < 8 * v.Length ==> IsSet(v[..], i) == (nbits <= i < 8 * ix + j)
        {
          SetSpare(ix, j);
        }
      }
    }

    method SetSpare(ix: nat, j: nat)
      requires ix < v.Length && j < 8
      modifies v
      ensures forall i: nat {:trigger IsSet(v[..], i)} ::
                i < 8 * v.Length ==> IsSet(v[..], i) == (old(IsSet(v[..], i)) || i == 8 * ix + j)
    {
      hide Mask, Bit;
      ghost var before := v[..];
      v[ix] := v[ix] | Mask(j);
      assert (8 * ix + j) / 8 == ix && (8 * ix + j) % 8 == j;
      assert v[..] == WithBit(before, 8 * ix + j, true);
      forall i: nat | i < 8 * v.Length
        ensures IsSet(v[..], i) == (IsSet(before, i) || i == 8 * ix + j)
      {
        WithBitAt(before, 8 * ix + j, true, i);
      }
    }

    /** The search of bitmap_alloc: full bytes are skipped whole. */
    method FirstClear() returns (found: bool, index: nat)
      requires Valid()
      ensures found ==> index < nbits && index !in Marked()
      ensures found ==> forall j: nat | j < index :: j in Marked()
      ensures !found ==> forall j: nat | j < nbits :: j in Marked()
    {
      hide Mask;
      var maxix := (nbits + 7) / 8;
      for ix := 0 to maxix
        invariant forall j: nat {:trigger IsSet(v[..], j)} :: j < 8 * ix ==> IsSet(v[..], j)
      {
        FullByte(v[ix]);
        if v[ix] != WORD_ALLBITS {
          ghost var clear: nat :| clear < 8 && !Bit(v[ix], clear);
          for offset := 0 to 8
            invariant offset <= clear
            invariant forall j: nat {:trigger IsSet(v[..], j)} :: j < 8 * ix + offset ==> IsSet(v[..], j)
          {
            index := ix * 8 + offset;
            assert index / 8 == ix && index % 8 == offset;
            if v[ix] & Mask(offset) == 0 {
              assert !IsSet(v[..], index);
              return true, index;
            }
          }
          assert false;
        }
        assert forall j: nat | 8 * ix <= j < 8 * (ix + 1) :: j / 8 == ix;
      }
      return false, 0;
    }

    /** bitmap_alloc: hand out the lowest free number, or report that there is none. */
    method Alloc() returns (result: Errno, index: nat)
      requires Valid()
      modifies v
      ensures Valid()
      ensures result == Success || result == ENOSPC
      ensures result == Success ==>
                && index < nbits
                && index !in old(Marked())
                && (forall j: nat | j < index :: j in old(Marked()))
                && Marked() == old(Marked()) + {index}
      ensures result == ENOSPC ==>
                && Marked() == old(Marked())
                && (forall j: nat | j < nbits :: j in Marked())
    {
      var found;
      found, index := FirstClear();
      if !found {
        return ENOSPC, 0;
      }
      SetBit(index, true);
      return Success, index;
    }

    /** Rewrite one bit; the other bits keep their values. */
    method SetBit(index: nat, value: bool)
      requires Valid() && index < nbits
      modifies v
      ensures Valid()
      ensures Marked() == if value then old(Marked()) + {index} else old(Marked()) - {index}
    {
      hide Mask, Bit;
      MarkedAfterUpdate(v[..], nbits, index, value);
      SpareAfterUpdate(v[..], nbits, index, value);
      ghost var after := WithBit(v[..], index, value);
      var ix, offset := index / 8, index % 8;
      v[ix] := if value then v[ix] | Mask(offset) else v[ix] & !Mask(offset);
      assert v[..] == after;
    }

    /** bitmap_mark: the number must be free. */
    method Mark(index: nat)
      requires Valid() && index < nbits && index !in Marked()
      modifies v
      ensures Valid() && Marked() == old(Marked()) + {index}
    {
      SetBit(index, true);
    }

    /** bitmap_unmark: the number must be in use. */
    method Unmark(index: nat)
      requires Valid() && index in Marked()
      modifies v
      ensures Valid() && Marked() == old(Marked()) - {index}
    {
      SetBit(index, false);
    }
  }
}
