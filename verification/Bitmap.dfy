/** The packed bitmap as a set of indices. */
module Bitmap {

  /** The greatest `size_t`, which is also what the searches return for "none". */
  const ALL_ONES: nat := 0xFFFF_FFFF_FFFF_FFFF

  /** The byte with bit `k` set. */
  function Mask(k: nat): bv8
    requires k < 8
  {
    match k
    case 0 => 1
    case 1 => 2
    case 2 => 4
    case 3 => 8
    case 4 => 16
    case 5 => 32
    case 6 => 64
    case 7 => 128
  }

  /** `1 << k` */
  function Shifted(k: nat): (b: bv8)
    requires k < 8
    ensures b == Mask(k)
  {
    1 << k
  }

  predicate Bit(b: bv8, k: nat)
    requires k < 8
  {
    b & Mask(k) != 0
  }

  lemma MasksApart(k: nat, j: nat)
    requires k < 8 && j < 8
    ensures Mask(k) & Mask(j) == if k == j then Mask(k) else 0
    ensures Mask(k) != 0
  {}

  lemma MaskOps(b: bv8, m: bv8, n: bv8)
    requires m & n == 0
    ensures (b | m) & n == b & n && (b & !m) & n == b & n
  {}

  lemma OwnMask(b: bv8, m: bv8)
    ensures (b | m) & m == m && (b & !m) & m == 0
  {}

  lemma OneBitAt(b: bv8, m: bv8, k: nat, j: nat)
    requires k < 8 && m == Mask(k) && j < 8
    ensures Bit(b | m, j) <==> j == k || Bit(b, j)
    ensures Bit(b & !m, j) <==> j != k && Bit(b, j)
  {
    MasksApart(k, j);
    if j == k {
      OwnMask(b, m);
    } else {
      MaskOps(b, m, Mask(j));
    }
  }

  /** Or-ing and masking out the byte with bit `k` leave the other bits alone. */
  lemma OneBit(b: bv8, m: bv8, k: nat)
    requires k < 8 && m == Mask(k)
    ensures forall j | 0 <= j < 8 :: Bit(b | m, j) <==> j == k || Bit(b, j)
    ensures forall j | 0 <= j < 8 :: Bit(b & !m, j) <==> j != k && Bit(b, j)
  {
    forall j | 0 <= j < 8
      ensures (Bit(b | m, j) <==> j == k || Bit(b, j)) && (Bit(b & !m, j) <==> j != k && Bit(b, j))
    {
      OneBitAt(b, m, k, j);
    }
  }

  class Bitmap {
    const bits: array<bv8>
    const size: nat

    predicate Valid() {
      bits.Length == (size + 7) / 8 && size <= ALL_ONES - 7
    }

    /** `bitmap_init`, over a buffer of any contents. */
    constructor (buffer: array<bv8>, size: nat)
      requires buffer.Length == (size + 7) / 8 && size <= ALL_ONES - 7
      modifies buffer
      ensures Valid() && bits == buffer && this.size == size && Members() == {}
    {
      bits := buffer;
      this.size := size;
      new;
      for i := 0 to (size + 7) / 8
        invariant forall k | 0 <= k < i :: bits[k] == 0
      {
        bits[i] := 0;
      }
      assert forall b, k | b == 0 && 0 <= k < 8 :: !Bit(b, k);
    }

    /** The indices whose bit is set. */
    ghost function Members(): set<nat>
      requires Valid()
      reads bits
    {
      set i: nat | i < size && Bit(bits[i / 8], i % 8)
    }

    /** `bitmap_test`: an index past the end reads as clear. */
    method Test(index: nat) returns (r: bool)
      requires Valid()
      ensures r <==> index in Members()
    {
      if index < size {
        return bits[index / 8] & Shifted(index % 8) != 0;
      }
      return false;
    }

    /** `bitmap_set`: an index past the end is ignored. */
    method Set(index: nat)
      requires Valid()
      modifies bits
      ensures Members() == old(Members()) + if index < size then {index} else {}
    {
      if index < size {
        var mask := Shifted(index % 8);
        OneBit(bits[index / 8], mask, index % 8);
        bits[index / 8] := bits[index / 8] | mask;
        assert forall i: nat | i < size :: Bit(bits[i / 8], i % 8) <==> i == index || old(Bit(bits[i / 8], i % 8));
      }
    }

    /** `bitmap_clear` */
    method Clear(index: nat)
      requires Valid()
      modifies bits
      ensures Members() == old(Members()) - {index}
    {
      if index < size {
        var mask := Shifted(index % 8);
        OneBit(bits[index / 8], mask, index % 8);
        bits[index / 8] := bits[index / 8] & !mask;
        assert forall i: nat | i < size :: Bit(bits[i / 8], i % 8) <==> i != index && old(Bit(bits[i / 8], i % 8));
      }
    }

    /** None of the `count` bits from `start` is set, where indices wrap around after `ALL_ONES` and those past the end
        read as clear. */
    ghost predicate FreeRun(start: nat, count: nat)
      requires Valid()
      reads bits
    {
      forall m | m in Members() :: !(start <= m < start + count) && !(start <= m + ALL_ONES + 1 < start + count)
    }

    /** `bitmap_find_first_free` */
    method FindFirstFree() returns (r: nat)
      requires Valid()
      ensures r == ALL_ONES ==> forall i | 0 <= i < size :: i in Members()
      ensures r != ALL_ONES ==> r < size && r !in Members() && forall i | 0 <= i < r :: i in Members()
    {
      var i := 0;
      while i < size
        invariant 0 <= i <= size && forall k | 0 <= k < i :: k in Members()
      {
        var taken := Test(i);
        if !taken {
          return i;
        }
        i := i + 1;
      }
      return ALL_ONES;
    }

    /** A run that starts past the end is clear only if the one that starts at the end is. */
    lemma RunAtEnd(i: nat, count: nat)
      requires Valid() && size <= i && FreeRun(i, count) && count <= ALL_ONES && i <= ALL_ONES
      ensures FreeRun(size, count)
    {}

    lemma LongerRun(start: nat, j: nat, count: nat)
      requires Valid() && start <= ALL_ONES && j < count <= ALL_ONES && FreeRun(start, j)
      ensures var next := (start + j) % (ALL_ONES + 1);
        if next in Members() then !FreeRun(start, count) else FreeRun(start, j + 1)
    {
      var next := (start + j) % (ALL_ONES + 1);
      assert next == start + j || next + ALL_ONES + 1 == start + j;
    }

    /** The inner loop of the search. */
    method TryRun(start: nat, count: nat) returns (free: bool)
      requires Valid() && start <= ALL_ONES && count <= ALL_ONES
      ensures free <==> FreeRun(start, count)
    {
      var j := 0;
      while j < count
        invariant 0 <= j <= count && FreeRun(start, j)
      {
        LongerRun(start, j, count);
        var taken := Test((start + j) % (ALL_ONES + 1));
        if taken {
          break;
        }
        j := j + 1;
      }
      return j == count;
    }

    /** `bitmap_find_contiguous_free`: the least start, up to a bound, of a run of `count` clear bits, or all ones when
        there is none.  For counts up to the size the bound is the last start from which the run stays inside.  For
        greater counts the bound wraps around: the result, if any, is at most the size and its run leaves the map, and
        there is none only if the indices of the run wrap around too.  With a bound of all ones the loop ends only at a
        clear run; one starts at the end of any map of less than 2^63 bits. */
    method FindContiguousFree(count: nat) returns (r: nat)
      requires Valid() && count <= ALL_ONES
      requires count != size + 1 || size + count <= ALL_ONES || exists i | 0 <= i <= size :: FreeRun(i, count)
      ensures count <= size && r == ALL_ONES ==> forall i | 0 <= i <= size - count :: !FreeRun(i, count)
      ensures count <= size && r != ALL_ONES ==> r + count <= size
      ensures count > size && r == ALL_ONES ==>
        size + count > ALL_ONES + 1 && forall i | 0 <= i <= size - count + ALL_ONES + 1 :: !FreeRun(i, count)
      ensures count > size && r != ALL_ONES ==> r <= size < r + count && r <= size - count + ALL_ONES + 1
      ensures r != ALL_ONES ==> FreeRun(r, count) && forall i | 0 <= i < r :: !FreeRun(i, count)
    {
      var limit := (size - count) % (ALL_ONES + 1);
      ghost var last := size;
      if count == size + 1 && size + count > ALL_ONES {
        last :| 0 <= last <= size && FreeRun(last, count);
      }
      var i := 0;
      while i <= limit
        invariant 0 <= i <= limit + 1
        invariant count > size && size + count <= ALL_ONES + 1 ==> i <= size
        invariant count == size + 1 ==> i <= last && FreeRun(last, count)
        invariant forall k | 0 <= k < i :: !FreeRun(k, count)
        decreases limit - i
      {
        var free := TryRun(i, count);
        if free {
          if i > size {
            RunAtEnd(i, count);
          }
          return i;
        }
        i := i + 1;
      }
      return ALL_ONES;
    }

    /** A search for one clear bit is the search for the first free one, except in a map without bits. */
    method FindOne() returns (a: nat, b: nat)
      requires Valid()
      ensures a == b <==> size > 0
    {
      a := FindFirstFree();
      b := FindContiguousFree(1);
      if b != ALL_ONES && size > 0 {
        assert b !in Members();
      }
      if a != ALL_ONES {
        assert FreeRun(a, 1);
      }
    }
  }

  /** In a clear map of 8 bits, 9 clear bits are found from 0 on; with bits 0 and 7 set, the run of the greatest count
      meets one of them wherever it starts. */
  method Oversized() returns (nine: nat, most: nat)
    ensures nine == 0 && most == ALL_ONES
  {
    var buffer := new bv8[1];
    var bitmap := new Bitmap(buffer, 8);
    nine := bitmap.FindContiguousFree(9);
    assert bitmap.FreeRun(0, 9);
    bitmap.Set(0);
    bitmap.Set(7);
    assert 0 in bitmap.Members() && 7 in bitmap.Members();
    assert forall i: nat | i <= 8 :: !bitmap.FreeRun(i, ALL_ONES);
    most := bitmap.FindContiguousFree(ALL_ONES);
  }
}
