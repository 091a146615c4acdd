/** Sets of numbers as arrays of words, with the maximum cached. */
module CompoundBitSets {
  import opened Wrappers
  import opened Bits
  import opened ScalarBitSet

  const BITS_PER_WORD: nat := 64

  /** Exclusive bound of the elements: the maximum is cached in 32 bits. */
  const ELEMENT_LIMIT: nat := 0x1_0000_0000

  ghost predicate WordsOk(elems: seq<nat>) {
    forall w :: 0 <= w < |elems| ==> elems[w] < Pow2(BITS_PER_WORD)
  }

  /** Element `n` is bit `n % 64` of word `n / 64`. */
  predicate HasElem(elems: seq<nat>, n: nat) {
    n / BITS_PER_WORD < |elems| && Bit(elems[n / BITS_PER_WORD], n % BITS_PER_WORD)
  }

  ghost function ElemsOf(elems: seq<nat>): (r: set<nat>)
    ensures forall n: nat :: n in r <==> HasElem(elems, n)
  {
    set n: nat | n < BITS_PER_WORD * |elems| && HasElem(elems, n)
  }

  function Elem(word: nat, bit: nat): nat {
    word * BITS_PER_WORD + bit
  }

  lemma ElemSplits(word: nat, bit: nat)
    requires bit < BITS_PER_WORD
    ensures Elem(word, bit) / BITS_PER_WORD == word && Elem(word, bit) % BITS_PER_WORD == bit
  {
  }

  /** Replacing a word by one with the same members but for `i` changes the set by `i` alone. */
  lemma {:induction false} WordInserted(elems: seq<nat>, n: nat)
    requires WordsOk(elems) && n / BITS_PER_WORD < |elems|
    ensures
      var w, b := n / BITS_PER_WORD, n % BITS_PER_WORD;
      var elems' := elems[w := Insert(elems[w], b)];
      WordsOk(elems') && ElemsOf(elems') == ElemsOf(elems) + {n}
  {
    hide Bit;
    var w, b := n / BITS_PER_WORD, n % BITS_PER_WORD;
    var elems' := elems[w := Insert(elems[w], b)];
    InsertSpec(elems[w], b, BITS_PER_WORD);
    forall m: nat ensures HasElem(elems', m) <==> HasElem(elems, m) || m == n {
      if m / BITS_PER_WORD == w {
        assert m % BITS_PER_WORD in Members(elems'[w], BITS_PER_WORD) <==>
          m % BITS_PER_WORD in Members(elems[w], BITS_PER_WORD) + {b};
      }
    }
  }

  lemma {:induction false} WordRemoved(elems: seq<nat>, n: nat)
    requires WordsOk(elems) && n / BITS_PER_WORD < |elems|
    ensures Pow2(n % BITS_PER_WORD) < Pow2(BITS_PER_WORD)
    ensures
      var w, b := n / BITS_PER_WORD, n % BITS_PER_WORD;
      var elems' := elems[w := Remove(elems[w], b, BITS_PER_WORD)];
      WordsOk(elems') && ElemsOf(elems') == ElemsOf(elems) - {n}
  {
    hide Bit;
    var w, b := n / BITS_PER_WORD, n % BITS_PER_WORD;
    RemoveSpec(elems[w], b, BITS_PER_WORD);
    var elems' := elems[w := Remove(elems[w], b, BITS_PER_WORD)];
    forall m: nat ensures HasElem(elems', m) <==> HasElem(elems, m) && m != n {
      if m / BITS_PER_WORD == w {
        assert m % BITS_PER_WORD in Members(elems'[w], BITS_PER_WORD) <==>
          m % BITS_PER_WORD in Members(elems[w], BITS_PER_WORD) - {b};
      }
    }
  }

  lemma {:induction false} ZerosAdded(elems: seq<nat>, k: nat)
    requires WordsOk(elems)
    ensures WordsOk(elems + seq(k, _ => 0)) && ElemsOf(elems + seq(k, _ => 0)) == ElemsOf(elems)
  {
    hide Bit;
    var elems' := elems + seq(k, _ => 0);
    forall m: nat ensures HasElem(elems', m) <==> HasElem(elems, m) {
      ZeroBits(m % BITS_PER_WORD);
    }
  }

  // ---- cardinality ----

  function SumOnes(elems: seq<nat>): nat {
    if elems == [] then 0 else SumOnes(elems[..|elems| - 1]) + CountOnes(elems[|elems| - 1])
  }

  lemma {:induction false} SumIsSize(elems: seq<nat>)
    requires WordsOk(elems)
    ensures SumOnes(elems) == |ElemsOf(elems)|
  {
    hide Bit, Members, CountOnes;
    if elems != [] {
      var w := |elems| - 1;
      var rest, last := elems[..w], elems[w];
      SumIsSize(rest);
      CountSpec(last, BITS_PER_WORD);
      var top := set b: nat | b in Members(last, BITS_PER_WORD) :: Elem(w, b);
      ElemCount(Members(last, BITS_PER_WORD), w);
      LastWord(elems);
      assert ElemsOf(elems) == ElemsOf(rest) + top;
      assert ElemsOf(rest) !! top;
    } else {
      assert ElemsOf(elems) == {};
    }
  }

  lemma {:induction false} ElemCount(s: set<nat>, w: nat)
    ensures |set b: nat | b in s :: Elem(w, b)| == |s|
  {
    var t := set b: nat | b in s :: Elem(w, b);
    if s != {} {
      var x :| x in s;
      ElemCount(s - {x}, w);
      var t' := set b: nat | b in s - {x} :: Elem(w, b);
      assert t == t' + {Elem(w, x)};
      assert Elem(w, x) !in t';
    } else {
      assert t == {};
    }
  }

  lemma {:induction false} LastWord(elems: seq<nat>)
    requires |elems| > 0
    ensures
      var w := |elems| - 1;
      var top := set b: nat | b in Members(elems[w], BITS_PER_WORD) :: Elem(w, b);
      && (forall n: nat :: n in ElemsOf(elems) <==> n in ElemsOf(elems[..w]) || n in top)
      && (forall n: nat :: n in ElemsOf(elems[..w]) ==> n !in top)
  {
    hide Bit;
    var w := |elems| - 1;
    var top := set b: nat | b in Members(elems[w], BITS_PER_WORD) :: Elem(w, b);
    forall n: nat ensures n in ElemsOf(elems) <==> n in ElemsOf(elems[..w]) || n in top
      ensures n in ElemsOf(elems[..w]) ==> n !in top
    {
      if n / BITS_PER_WORD == w && HasElem(elems, n) {
        assert n % BITS_PER_WORD in Members(elems[w], BITS_PER_WORD) && n == Elem(w, n % BITS_PER_WORD);
      }
      if n in top {
        var b :| b in Members(elems[w], BITS_PER_WORD) && n == Elem(w, b);
        ElemSplits(w, b);
      }
    }
  }

  // ---- the set ----

  ghost predicate IsMax(s: set<nat>, max: Option<nat>) {
    match max
    case None => s == {}
    case Some(m) => m in s && forall n :: n in s ==> n <= m
  }

  /** All elements lie in the first `w` words. */
  ghost predicate WordsBelow(elems: seq<nat>, w: nat) {
    forall n :: n in ElemsOf(elems) ==> n / BITS_PER_WORD < w
  }

  lemma OldMaxBounds(elems: seq<nat>, m: nat)
    requires forall n :: n in ElemsOf(elems) ==> n <= m
    ensures WordsBelow(elems, m / BITS_PER_WORD + 1)
  {
  }

  lemma {:induction false} WordHasMax(elems: seq<nat>, w: nat)
    requires WordsOk(elems) && w < |elems| && WordsBelow(elems, w + 1) && Max(elems[w], BITS_PER_WORD).Some?
    ensures IsMax(ElemsOf(elems), Some(Elem(w, Max(elems[w], BITS_PER_WORD).value)))
  {
    hide Bit, Max;
    MaxSpec(elems[w], BITS_PER_WORD);
    var b := Max(elems[w], BITS_PER_WORD).value;
    ElemSplits(w, b);
    forall n | n in ElemsOf(elems) ensures n <= Elem(w, b) {
      if n / BITS_PER_WORD == w { assert n % BITS_PER_WORD in Members(elems[w], BITS_PER_WORD); }
    }
  }

  lemma {:induction false} WordIsEmpty(elems: seq<nat>, w: nat)
    requires WordsOk(elems) && w < |elems| && WordsBelow(elems, w + 1) && Max(elems[w], BITS_PER_WORD).None?
    ensures WordsBelow(elems, w)
  {
    hide Bit, Max;
    MaxSpec(elems[w], BITS_PER_WORD);
    assert forall b: nat :: b !in Members(elems[w], BITS_PER_WORD);
  }

  lemma NothingBelow(elems: seq<nat>)
    requires WordsBelow(elems, 0)
    ensures IsMax(ElemsOf(elems), None)
  {
  }

  class CompoundBitSet {
    var elems: seq<nat>
    var max: Option<nat>

    ghost function Elements(): set<nat>
      reads this
    {
      ElemsOf(elems)
    }

    /** The cached maximum is the true one. */
    ghost predicate Valid()
      reads this
    {
      WordsOk(elems) && IsMax(Elements(), max) && forall n :: n in Elements() ==> n < ELEMENT_LIMIT
    }

    constructor ()
      ensures Valid() && Elements() == {}
    {
      elems, max := [], None;
    }

    method Contains(i: nat) returns (b: bool)
      ensures b <==> i in Elements()
    {
      if i / BITS_PER_WORD < |elems| {
        ContainsSpec(elems[i / BITS_PER_WORD], i % BITS_PER_WORD);
        return ScalarBitSet.Contains(elems[i / BITS_PER_WORD], i % BITS_PER_WORD);
      }
      return false;
    }

    /** The number of elements. */
    method Len() returns (n: nat)
      requires Valid()
      ensures n == |Elements()|
    {
      n := 0;
      for w := 0 to |elems|
        invariant n == SumOnes(elems[..w])
      {
        assert elems[..w + 1][..w] == elems[..w];
        n := n + CountOnes(elems[w]);
      }
      assert elems[..|elems|] == elems;
      SumIsSize(elems);
    }

    method EnsureCapacity(n: nat)
      requires Valid()
      modifies `elems
      ensures Valid() && Elements() == old(Elements()) && n / BITS_PER_WORD < |elems|
      ensures old(elems) <= elems && (n / BITS_PER_WORD < |old(elems)| ==> elems == old(elems))
      ensures elems != old(elems) ==> |elems| >= 3 * |old(elems)| && |elems| >= |old(elems)| + 4
    {
      hide Bit;
      var word := n / BITS_PER_WORD;
      if word >= |elems| {
        var toGrow := word - |elems| + 1;
        toGrow := if toGrow < |elems| * 2 then |elems| * 2 else toGrow;
        toGrow := if toGrow < 4 then 4 else toGrow;
        ZerosAdded(elems, toGrow);
        elems := elems + seq(toGrow, _ => 0);
      }
    }

    /** Adds `i`; tells whether it is new. */
    method Insert(i: nat) returns (isNew: bool)
      requires Valid() && i < ELEMENT_LIMIT
      modifies this
      ensures Valid() && Elements() == old(Elements()) + {i} && isNew == (i !in old(Elements()))
    {
      hide Bit;
      EnsureCapacity(i + 1);
      var word, bit := i / BITS_PER_WORD, i % BITS_PER_WORD;
      WordInserted(elems, i);
      ContainsSpec(elems[word], bit);
      isNew := !ScalarBitSet.Contains(elems[word], bit);
      elems := elems[word := ScalarBitSet.Insert(elems[word], bit)];
      max := match max case Some(m) => Some(if m < i then i else m) case None => Some(i);
    }

    /** Takes `i` out; tells whether it was there. */
    method Remove(i: nat) returns (wasPresent: bool)
      requires Valid()
      modifies this
      ensures Valid() && Elements() == old(Elements()) - {i} && wasPresent == (i in old(Elements()))
    {
      hide Bit;
      var word, bit := i / BITS_PER_WORD, i % BITS_PER_WORD;
      if word < |elems| {
        WordRemoved(elems, i);
        ContainsSpec(elems[word], bit);
        wasPresent := ScalarBitSet.Contains(elems[word], bit);
        elems := elems[word := ScalarBitSet.Remove(elems[word], bit, BITS_PER_WORD)];
        if wasPresent && max == Some(i) {
          OldMaxBounds(elems, i);
          UpdateMax(word);
        }
      } else {
        wasPresent := false;
      }
    }

    /** Looks for the maximum again, from the word of the old one downwards. */
    method UpdateMax(word: nat)
      requires WordsOk(elems) && word < |elems| && WordsBelow(elems, word + 1)
      modifies `max
      ensures IsMax(Elements(), max)
    {
      hide Bit, WordsBelow, IsMax, ElemsOf;
      var w: nat := word + 1;
      while w > 0
        invariant w <= word + 1 && WordsBelow(elems, w)
      {
        w := w - 1;
        var bit := ScalarBitSet.Max(elems[w], BITS_PER_WORD);
        if bit.Some? {
          WordHasMax(elems, w);
          max := Some(Elem(w, bit.value));
          return;
        }
        WordIsEmpty(elems, w);
      }
      NothingBelow(elems);
      max := None;
    }

    /** Takes the greatest element out. */
    method Pop() returns (r: Option<nat>)
      requires Valid()
      modifies this
      ensures Valid() && IsMax(old(Elements()), r) &&
        Elements() == (if r.Some? then old(Elements()) - {r.value} else old(Elements()))
    {
      r := max;
      if r.Some? {
        var removed := Remove(r.value);
      }
    }

    /** Empties the set, touching only the words up to the cached maximum. */
    method Clear()
      requires Valid()
      modifies this
      ensures Valid() && Elements() == {} && |elems| == |old(elems)|
    {
      hide Bit;
      if max.None? { return; }
      var word := max.value / BITS_PER_WORD;
      ghost var elems0 := elems;
      var cleared := elems;
      for w := 0 to word + 1
        invariant |cleared| == |elems0| && (forall i :: 0 <= i < w ==> cleared[i] == 0) &&
          (forall i :: w <= i < |elems0| ==> cleared[i] == elems0[i])
      {
        cleared := cleared[w := 0];
      }
      elems, max := cleared, None;
      forall n: nat ensures !HasElem(elems, n) {
        ZeroBits(n % BITS_PER_WORD);
        if n / BITS_PER_WORD > word { assert HasElem(elems0, n) <==> n in ElemsOf(elems0); }
      }
    }
  }

  // ---- iteration ----

  /** What an iterator has yet to return: the members of the rest of the current word, and all elements
      of the words after it. */
  ghost function Remaining(elems: seq<nat>, word: nat, sub: Option<nat>): (r: set<nat>)
    ensures forall n: nat :: n in r <==>
      n in ElemsOf(elems) &&
        (n / BITS_PER_WORD > word || (n / BITS_PER_WORD == word && (sub.None? || Bit(sub.value, n % BITS_PER_WORD))))
  {
    set n: nat | n in ElemsOf(elems) &&
      (n / BITS_PER_WORD > word || (n / BITS_PER_WORD == word && (sub.None? || Bit(sub.value, n % BITS_PER_WORD))))
  }

  ghost predicate SubOk(elems: seq<nat>, word: nat, sub: Option<nat>) {
    sub.Some? ==>
      && sub.value < Pow2(BITS_PER_WORD)
      && (word >= |elems| ==> sub.value == 0)
      && (word < |elems| ==> forall b :: 0 <= b < BITS_PER_WORD && Bit(sub.value, b) ==> Bit(elems[word], b))
  }

  /** The digits of a word without its least member. */
  lemma {:induction false} WithoutLeast(x: nat, i: nat)
    requires 0 < x < Pow2(BITS_PER_WORD) && i < BITS_PER_WORD
    ensures Min(x).Some? && Min(x).value < BITS_PER_WORD && Pow2(Min(x).value) < Pow2(BITS_PER_WORD)
    ensures Bit(x, Min(x).value) && (Bit(x, i) ==> Min(x).value <= i)
    ensures Remove(x, Min(x).value, BITS_PER_WORD) < Pow2(BITS_PER_WORD)
    ensures Bit(Remove(x, Min(x).value, BITS_PER_WORD), i) <==> Bit(x, i) && i != Min(x).value
  {
    hide Bit, Min, Remove;
    MinSpec(x, BITS_PER_WORD);
    EmptySpec(x, BITS_PER_WORD);
    var b := Min(x).value;
    RemoveSpec(x, b, BITS_PER_WORD);
    assert i in Members(Remove(x, b, BITS_PER_WORD), BITS_PER_WORD) <==> i in Members(x, BITS_PER_WORD) - {b};
    assert i in Members(x, BITS_PER_WORD) <==> Bit(x, i);
  }

  /** The least member of the current word is the least element left. */
  lemma {:induction false} TakeLeast(elems: seq<nat>, word: nat, x: nat)
    requires WordsOk(elems) && SubOk(elems, word, Some(x)) && x > 0
    ensures
      && Min(x).Some? && Min(x).value < BITS_PER_WORD && Pow2(Min(x).value) < Pow2(BITS_PER_WORD)
      && var b, x', rest := Min(x).value, Remove(x, Min(x).value, BITS_PER_WORD), Remaining(elems, word, Some(x));
      && SubOk(elems, word, Some(x')) && Elem(word, b) in rest && (forall n :: n in rest ==> Elem(word, b) <= n)
      && Remaining(elems, word, Some(x')) == rest - {Elem(word, b)}
  {
    hide Bit, Min, Remove;
    WithoutLeast(x, 0);
    var b := Min(x).value;
    ElemSplits(word, b);
    var x', rest := Remove(x, b, BITS_PER_WORD), Remaining(elems, word, Some(x));
    forall i: nat | i < BITS_PER_WORD ensures (Bit(x', i) <==> Bit(x, i) && i != b) &&
      (Bit(x, i) ==> b <= i) { WithoutLeast(x, i); }
    assert Bit(elems[word], b);
    forall n | n in rest ensures Elem(word, b) <= n { LaterWord(word, b, n); }
    forall n: nat ensures n in Remaining(elems, word, Some(x')) <==> n in rest && n != Elem(word, b) {
      if n / BITS_PER_WORD == word { SameElem(word, b, n); }
    }
  }

  lemma LaterWord(word: nat, b: nat, n: nat)
    requires b < BITS_PER_WORD && (n / BITS_PER_WORD > word || (n / BITS_PER_WORD == word && b <= n % BITS_PER_WORD))
    ensures Elem(word, b) <= n
  {
  }

  lemma SameElem(word: nat, b: nat, n: nat)
    requires n / BITS_PER_WORD == word
    ensures n == Elem(word, b) <==> n % BITS_PER_WORD == b
  {
  }

  /** A word with no members left: what remains is in the words after it. */
  lemma {:induction false} WordDone(elems: seq<nat>, word: nat)
    ensures Remaining(elems, word, Some(0)) == Remaining(elems, word + 1, None)
  {
    hide Bit;
    forall n: nat ensures !Bit(0, n % BITS_PER_WORD) { ZeroBits(n % BITS_PER_WORD); }
  }

  lemma {:induction false} WordBegins(elems: seq<nat>, word: nat)
    requires WordsOk(elems) && word < |elems|
    ensures SubOk(elems, word, Some(elems[word])) &&
      Remaining(elems, word, Some(elems[word])) == Remaining(elems, word, None)
  {
    hide Bit;
  }

  lemma {:induction false} NothingLeft(elems: seq<nat>, word: nat, sub: Option<nat>)
    requires word >= |elems|
    ensures Remaining(elems, word, sub) == {}
  {
    hide Bit;
  }

  class Iter {
    const elems: seq<nat>
    var word: nat
    var sub: Option<nat>

    ghost predicate Valid()
      reads this
    {
      WordsOk(elems) && SubOk(elems, word, sub)
    }

    ghost function Rest(): set<nat>
      reads this
    {
      Remaining(elems, word, sub)
    }

    constructor (bitset: CompoundBitSet)
      requires bitset.Valid()
      ensures Valid() && elems == bitset.elems && Rest() == bitset.Elements()
    {
      elems, word, sub := bitset.elems, 0, None;
    }

    /** Returns the least element not returned yet. */
    method Next() returns (r: Option<nat>)
      requires Valid()
      modifies this
      ensures Valid()
      ensures r.None? <==> old(Rest()) == {}
      ensures r.None? ==> Rest() == {}
      ensures r.Some? ==>
        r.value in old(Rest()) && (forall n :: n in old(Rest()) ==> r.value <= n) && Rest() == old(Rest()) - {r.value}
    {
      hide Bit, Remaining, SubOk;
      ghost var rest0 := Rest();
      while true
        invariant Valid() && Rest() == rest0
        decreases |elems| - word, if sub.None? then 1 else 0
      {
        if sub.Some? {
          var bit := Min(sub.value);
          if bit.Some? {
            TakeLeast(elems, word, sub.value);
            sub := Some(ScalarBitSet.Remove(sub.value, bit.value, BITS_PER_WORD));
            return Some(Elem(word, bit.value));
          }
          WordDone(elems, word);
          word := word + 1;
        }
        NoMore(elems, word, sub);
        if word >= |elems| {
          NothingLeft(elems, word, None);
          NothingLeft(elems, word, sub);
          return None;
        }
        WordBegins(elems, word);
        sub := Some(elems[word]);
      }
    }
  }

  lemma NoMore(elems: seq<nat>, word: nat, sub: Option<nat>)
    requires sub.None? || sub.value == 0
    ensures word >= |elems| ==> SubOk(elems, word, sub)
  {
    PowPositive();
  }

  lemma PowPositive()
    ensures 0 < Pow2(BITS_PER_WORD)
  {
  }

  ghost predicate Ascending(out: seq<nat>) {
    forall i, j :: 0 <= i < j < |out| ==> out[i] < out[j]
  }

  /** `out` holds, in order, the elements of `all` that come before those of `rest`. */
  ghost predicate Collected(all: set<nat>, out: seq<nat>, rest: set<nat>) {
    && Ascending(out) && (forall n :: n in all <==> n in out || n in rest)
    && (forall i, n :: 0 <= i < |out| && n in rest ==> out[i] < n)
  }

  lemma {:induction false} CollectOne(all: set<nat>, out: seq<nat>, rest: set<nat>, x: nat)
    requires Collected(all, out, rest) && x in rest && forall n :: n in rest ==> x <= n
    ensures Collected(all, out + [x], rest - {x}) && |rest - {x}| < |rest|
  {
  }

  lemma CollectAll(all: set<nat>, out: seq<nat>)
    requires Collected(all, out, {})
    ensures (forall n :: n in out <==> n in all) && Ascending(out)
  {
  }

  /** Iterating yields every element once, in increasing order. */
  method Collect(bitset: CompoundBitSet) returns (out: seq<nat>)
    requires bitset.Valid()
    ensures (forall n :: n in out <==> n in bitset.Elements()) && Ascending(out)
  {
    hide Bit, Remaining, Collected, ElemsOf, WordsOk, SubOk, Ascending;
    var iter := new Iter(bitset);
    out := [];
    ghost var all := bitset.Elements();
    NoneCollected(all);
    while true
      invariant iter.Valid() && fresh(iter) && Collected(all, out, iter.Rest())
      decreases |iter.Rest()|
    {
      ghost var rest := iter.Rest();
      var x := iter.Next();
      if x.None? {
        CollectAll(all, out);
        return;
      }
      CollectOne(all, out, rest, x.value);
      out := out + [x.value];
    }
  }

  lemma NoneCollected(all: set<nat>)
    ensures Collected(all, [], all)
  {
  }
}
