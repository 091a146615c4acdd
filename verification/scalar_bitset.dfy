/** Sets of small numbers packed into one word. */
module ScalarBitSet {
  import opened Wrappers
  import opened Bits

  /** The members of a word of `w` bits. */
  ghost function Members(x: nat, w: nat): (r: set<nat>)
    ensures forall i: nat :: i in r <==> i < w && Bit(x, i)
  {
    set i: nat | i < w && Bit(x, i)
  }

  function Contains(x: nat, i: nat): bool {
    BitAnd(x, Pow2(i)) != 0
  }

  function Insert(x: nat, i: nat): nat {
    BitOr(x, Pow2(i))
  }

  function Remove(x: nat, i: nat, w: nat): nat
    requires Pow2(i) < Pow2(w)
  {
    BitAnd(x, BitNot(Pow2(i), w))
  }

  lemma {:induction false} NonzeroBit(x: nat) returns (i: nat)
    requires x > 0
    ensures Bit(x, i)
  {
    if x % 2 == 1 { i := 0; } else {
      i := NonzeroBit(x / 2);
      i := i + 1;
    }
  }

  lemma {:induction false} PowStrict(i: nat, w: nat)
    requires i < w
    ensures Pow2(i) < Pow2(w)
  {
    PowMonotone(i + 1, w);
  }

  lemma {:induction false} ContainsSpec(x: nat, i: nat)
    ensures Contains(x, i) <==> Bit(x, i)
  {
    AndBits(x, Pow2(i), i);
    PowBits(i, i);
    if Contains(x, i) {
      var j := NonzeroBit(BitAnd(x, Pow2(i)));
      AndBits(x, Pow2(i), j);
      PowBits(i, j);
    } else {
      ZeroBits(i);
    }
  }

  lemma {:induction false} InsertSpec(x: nat, i: nat, w: nat)
    requires x < Pow2(w) && i < w
    ensures Insert(x, i) < Pow2(w) && Members(Insert(x, i), w) == Members(x, w) + {i}
  {
    PowStrict(i, w);
    OrFits(x, Pow2(i), w);
    forall j: nat ensures Bit(Insert(x, i), j) <==> Bit(x, j) || j == i {
      OrBits(x, Pow2(i), j);
      PowBits(i, j);
    }
  }

  lemma {:induction false} RemoveSpec(x: nat, i: nat, w: nat)
    requires x < Pow2(w) && i < w
    ensures Pow2(i) < Pow2(w) && Remove(x, i, w) < Pow2(w) && Members(Remove(x, i, w), w) == Members(x, w) - {i}
  {
    PowStrict(i, w);
    AndFits(x, BitNot(Pow2(i), w), w);
    forall j: nat | j < w ensures Bit(Remove(x, i, w), j) <==> Bit(x, j) && j != i {
      AndBits(x, BitNot(Pow2(i), w), j);
      NotBits(Pow2(i), w, j);
      PowBits(i, j);
    }
  }

  /** An empty word has no members. */
  lemma {:induction false} EmptySpec(x: nat, w: nat)
    requires x < Pow2(w)
    ensures x == 0 <==> Members(x, w) == {}
  {
    if x == 0 {
      forall i: nat ensures !Bit(0, i) { ZeroBits(i); }
    } else {
      var i := NonzeroBit(x);
      if i >= w { WordBits(x, w, i); }
      assert i in Members(x, w);
    }
  }

  // ---- ranges ----

  /** 1 shifted by `i` in a word of `w` bits; without overflow checks the shift is taken modulo the width. */
  function ShiftedOne(i: nat, w: nat): nat
    requires w > 0
  {
    Pow2(i % w)
  }

  /** Meant to be the numbers from `lo` up to `hi`. */
  function FromRange(lo: nat, hi: nat, w: nat): int
    requires lo <= hi <= w && w > 0
  {
    var hiRange := if hi >= 1 then ShiftedOne(hi - 1, w) + (ShiftedOne(hi - 1, w) - 1) else 0;
    hiRange - (ShiftedOne(lo, w) - 1)
  }

  /** The digits of 2^hi - 2^lo. */
  lemma {:induction false} RangeBits(lo: nat, hi: nat, i: nat, x: nat)
    requires lo <= hi && x == Pow2(hi) - Pow2(lo)
    ensures Bit(x, i) <==> lo <= i < hi
  {
    hide Bit;
    BitStep(x, i);
    if hi == 0 {
      ZeroBits(i);
    } else if lo > 0 {
      assert x == 2 * (Pow2(hi - 1) - Pow2(lo - 1));
      PowMonotone(lo - 1, hi - 1);
      if i > 0 { RangeBits(lo - 1, hi - 1, i - 1, x / 2); }
    } else {
      assert x == 2 * (Pow2(hi - 1) - 1) + 1;
      if i > 0 { RangeBits(0, hi - 1, i - 1, x / 2); }
    }
  }

  lemma {:induction false} RangeMembers(lo: nat, hi: nat, w: nat, x: nat)
    requires lo <= hi <= w && x == Pow2(hi) - Pow2(lo)
    ensures forall i: nat :: i in Members(x, w) <==> lo <= i < hi
  {
    hide Bit;
    forall i: nat ensures Bit(x, i) <==> lo <= i < hi { RangeBits(lo, hi, i, x); }
  }

  /** Shifts below the width are powers of two. */
  lemma {:induction false} ShiftsInside(i: nat, w: nat)
    requires i < w
    ensures ShiftedOne(i, w) == Pow2(i) && 2 * Pow2(i) <= Pow2(w)
  {
    hide Pow2;
    assert i % w == i;
    PowDouble(i);
    PowMonotone(i + 1, w);
  }

  lemma PowDouble(i: nat)
    ensures Pow2(i + 1) == 2 * Pow2(i) && Pow2(0) == 1
  {
  }

  lemma {:induction false} RangeValue(lo: nat, hi: nat, w: nat)
    requires lo <= hi <= w && lo < w
    ensures FromRange(lo, hi, w) == Pow2(hi) - Pow2(lo) >= 0
  {
    hide Pow2, ShiftedOne;
    ShiftsInside(lo, w);
    PowDouble(0);
    if hi >= 1 {
      ShiftsInside(hi - 1, w);
      PowDouble(hi - 1);
    }
    PowMonotone(lo, hi);
  }

  /** At the capacity the empty range comes out as the full set. */
  lemma {:induction false} FromRangeAtCapacity(w: nat)
    requires w > 0
    ensures FromRange(w, w, w) == Pow2(w) - 1
    ensures forall i: nat :: i in Members(FromRange(w, w, w), w) <==> i < w
  {
    hide Pow2, Bit, Members;
    assert w % w == 0;
    PowDouble(0);
    ShiftsInside(w - 1, w);
    PowDouble(w - 1);
    RangeMembers(0, w, w, FromRange(w, w, w));
  }

  /** No intermediate result overflows the word. The members are exactly the numbers from `lo` up to `hi` if
      and only if `lo` is below the width. */
  lemma {:induction false} FromRangeSpec(lo: nat, hi: nat, w: nat)
    requires lo <= hi <= w && w > 0
    ensures ShiftedOne(lo, w) < Pow2(w) && (hi >= 1 ==> ShiftedOne(hi - 1, w) + (ShiftedOne(hi - 1, w) - 1) < Pow2(w))
    ensures 0 <= FromRange(lo, hi, w) < Pow2(w)
    ensures (forall i: nat :: i in Members(FromRange(lo, hi, w), w) <==> lo <= i < hi) <==> lo < w
  {
    hide Pow2, Bit, Members, ShiftedOne, FromRange;
    if hi >= 1 { ShiftsInside(hi - 1, w); }
    if lo < w {
      ShiftsInside(lo, w);
      RangeValue(lo, hi, w);
      PowMonotone(hi, w);
      PowPositive(lo);
      RangeMembers(lo, hi, w, FromRange(lo, hi, w));
    } else {
      ShiftAtCapacity(w);
      PowPositive(w);
      FromRangeAtCapacity(w);
      assert 0 in Members(FromRange(w, w, w), w);
    }
  }

  lemma ShiftAtCapacity(w: nat)
    requires w > 0
    ensures ShiftedOne(w, w) == 1 < Pow2(w)
  {
    assert w % w == 0;
  }

  lemma PowPositive(i: nat)
    ensures Pow2(i) > 0
  {
  }

  // ---- counting and extremes ----

  function CountOnes(x: nat): nat {
    if x == 0 then 0 else x % 2 + CountOnes(x / 2)
  }

  function TrailingZeros(x: nat): nat
    requires x > 0
  {
    if x % 2 == 1 then 0 else 1 + TrailingZeros(x / 2)
  }

  function LeadingZeros(x: nat, w: nat): (r: nat)
    requires x < Pow2(w)
    ensures r <= w && (x > 0 ==> r < w)
  {
    if x == 0 then w else LeadingZeros(x / 2, w - 1)
  }

  /** The number of digits 1 among the first `w`. */
  ghost function CountBelow(x: nat, w: nat): nat {
    if w == 0 then 0 else CountBelow(x, w - 1) + (if Bit(x, w - 1) then 1 else 0)
  }

  lemma {:induction false} CountShift(x: nat, w: nat)
    requires w > 0
    ensures CountBelow(x, w) == x % 2 + CountBelow(x / 2, w - 1)
  {
    hide Bit;
    BitStep(x, w - 1);
    if w > 1 { CountShift(x, w - 1); }
  }

  lemma {:induction false} OnesAreCounted(x: nat, w: nat)
    requires x < Pow2(w)
    ensures CountOnes(x) == CountBelow(x, w)
  {
    if w > 0 {
      CountShift(x, w);
      OnesAreCounted(x / 2, w - 1);
    }
  }

  lemma {:induction false} CountIsSize(x: nat, w: nat)
    ensures CountBelow(x, w) == |Members(x, w)|
  {
    hide Bit;
    if w > 0 {
      CountIsSize(x, w - 1);
      assert Members(x, w) == Members(x, w - 1) + (if Bit(x, w - 1) then {w - 1} else {});
    } else {
      assert Members(x, w) == {};
    }
  }

  /** The number of digits 1 is the number of members. */
  lemma {:induction false} CountSpec(x: nat, w: nat)
    requires x < Pow2(w)
    ensures CountOnes(x) == |Members(x, w)|
  {
    hide Members, CountOnes;
    OnesAreCounted(x, w);
    CountIsSize(x, w);
  }

  function Min(x: nat): Option<nat> {
    if x == 0 then None else Some(TrailingZeros(x))
  }

  function Max(x: nat, w: nat): Option<nat>
    requires x < Pow2(w)
  {
    if x == 0 then None else Some(w - LeadingZeros(x, w) - 1)
  }

  lemma {:induction false} TrailingSpec(x: nat, i: nat)
    requires x > 0
    ensures Bit(x, TrailingZeros(x)) && (i < TrailingZeros(x) ==> !Bit(x, i))
  {
    if x % 2 == 0 { TrailingSpec(x / 2, if i > 0 then i - 1 else 0); }
  }

  lemma {:induction false} TrailingFits(x: nat, w: nat)
    requires 0 < x < Pow2(w)
    ensures TrailingZeros(x) < w
  {
    if x % 2 == 0 { TrailingFits(x / 2, w - 1); }
  }

  /** The least member. */
  lemma {:induction false} MinSpec(x: nat, w: nat)
    requires x < Pow2(w)
    ensures Min(x).None? <==> Members(x, w) == {}
    ensures Min(x).Some? ==> Min(x).value in Members(x, w) && forall i :: i in Members(x, w) ==> Min(x).value <= i
  {
    EmptySpec(x, w);
    if x > 0 {
      forall i: nat ensures Bit(x, TrailingZeros(x)) && (i < TrailingZeros(x) ==> !Bit(x, i)) { TrailingSpec(x, i); }
      TrailingFits(x, w);
    }
  }

  lemma {:induction false} LeadingSpec(x: nat, w: nat, i: nat)
    requires 0 < x < Pow2(w)
    ensures Bit(x, w - LeadingZeros(x, w) - 1) && (i > w - LeadingZeros(x, w) - 1 ==> !Bit(x, i))
  {
    if x / 2 == 0 {
      assert x == 1;
      if i > 0 { ZeroBits(i - 1); }
    } else {
      LeadingSpec(x / 2, w - 1, if i > 0 then i - 1 else 0);
    }
  }

  /** The greatest member. */
  lemma {:induction false} MaxSpec(x: nat, w: nat)
    requires x < Pow2(w)
    ensures Max(x, w).None? <==> Members(x, w) == {}
    ensures Max(x, w).Some? ==> Max(x, w).value in Members(x, w) && forall i :: i in Members(x, w) ==>
      i <= Max(x, w).value
  {
    EmptySpec(x, w);
    if x > 0 {
      forall i: nat ensures Bit(x, w - LeadingZeros(x, w) - 1) &&
        (i > w - LeadingZeros(x, w) - 1 ==> !Bit(x, i)) { LeadingSpec(x, w, i); }
    }
  }

  /** An iterator that can be advanced from both ends. */
  class Iter {
    const w: nat
    var bits: nat

    ghost predicate Valid()
      reads this
    {
      bits < Pow2(w)
    }

    /** What has not been returned from either end. */
    ghost function Rest(): set<nat>
      reads this
    {
      Members(bits, w)
    }

    constructor (bits: nat, w: nat)
      requires bits < Pow2(w)
      ensures Valid() && this.w == w && Rest() == Members(bits, w)
    {
      this.bits, this.w := bits, w;
    }

    method Next() returns (r: Option<nat>)
      requires Valid()
      modifies this
      ensures Valid() && (r.None? <==> old(Rest()) == {})
      ensures r.None? ==> Rest() == {}
      ensures r.Some? ==> r.value in old(Rest()) && Rest() == old(Rest()) - {r.value}
      ensures r.Some? ==> forall i :: i in old(Rest()) ==> r.value <= i
    {
      hide Bit, Min, Remove;
      MinSpec(bits, w);
      r := Min(bits);
      if r.Some? {
        RemoveSpec(bits, r.value, w);
        bits := Remove(bits, r.value, w);
      }
    }

    method NextBack() returns (r: Option<nat>)
      requires Valid()
      modifies this
      ensures Valid() && (r.None? <==> old(Rest()) == {})
      ensures r.None? ==> Rest() == {}
      ensures r.Some? ==> r.value in old(Rest()) && Rest() == old(Rest()) - {r.value}
      ensures r.Some? ==> forall i :: i in old(Rest()) ==> i <= r.value
    {
      hide Bit, Max, Remove;
      MaxSpec(bits, w);
      r := Max(bits, w);
      if r.Some? {
        RemoveSpec(bits, r.value, w);
        bits := Remove(bits, r.value, w);
      }
    }

    /** How many are left. */
    method Len() returns (n: nat)
      requires Valid()
      ensures n == |Rest()|
    {
      CountSpec(bits, w);
      return CountOnes(bits);
    }
  }
}
