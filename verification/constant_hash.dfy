/** Constant hash tables: open addressing with quadratic probing. */
module ConstantHash {
  import opened Bits

  datatype Slot = Vacant | Full(key: int)

  type Table = seq<Slot>

  datatype Probed = Ok(index: nat) | Err(index: nat)

  // ---- probe sequences ----

  /** The sum of the first `s` steps. */
  function Triangle(s: nat): nat {
    if s == 0 then 0 else Triangle(s - 1) + s
  }

  /** The slot looked at after `s` steps. */
  function Position(hash: nat, s: nat, len: nat): (r: nat)
    requires len > 0
    ensures r < len
  {
    Rem(hash + Triangle(s), len)
  }

  lemma {:induction false} TwiceTriangle(s: nat)
    ensures 2 * Triangle(s) == s * (s + 1)
  {
    if s > 0 { TwiceTriangle(s - 1); }
  }

  lemma HalfFactor(a: nat, b: nat, x: int)
    requires a % 2 == 1 && a * b == 2 * x
    ensures b % 2 == 0 && a * (b / 2) == x
  {
    if b % 2 == 1 {
      OddTimesOdd(a, b);
    } else {
      assert a * (2 * (b / 2)) == 2 * (a * (b / 2));
    }
  }

  lemma DoubleMultiple(b: nat, h: nat)
    requires h > 0 && b % 2 == 0 && (b / 2) % h == 0
    ensures b % (2 * h) == 0
  {
    var q := (b / 2) / h;
    assert b / 2 == h * q;
    assert b == (2 * h) * q by { assert (2 * h) * q == 2 * (h * q); }
    ModUnique(b, 2 * h, q, 0);
  }

  lemma PowUp(c: int, m: nat)
    requires m > 0
    ensures Pow2(m) == 2 * Pow2(m - 1) && c * Pow2(m) == 2 * (c * Pow2(m - 1))
  {
    var h := Pow2(m - 1);
    assert c * (2 * h) == 2 * (c * h);
  }

  /** An odd factor does not help to be divisible by a power of two. */
  lemma {:induction false} OddFactor(a: nat, b: nat, c: int, m: nat)
    requires a % 2 == 1 && a * b == c * Pow2(m)
    ensures b % Pow2(m) == 0
  {
    if m > 0 {
      hide Pow2;
      PowUp(c, m);
      HalfFactor(a, b, c * Pow2(m - 1));
      OddFactor(a, b / 2, c, m - 1);
      DoubleMultiple(b, Pow2(m - 1));
    }
  }

  lemma OddTimesOdd(a: nat, b: nat)
    requires a % 2 == 1 && b % 2 == 1
    ensures (a * b) % 2 == 1
  {
    var x, y := a / 2, b / 2;
    assert a * b == 2 * (2 * x * y + x + y) + 1 by {
      assert a == 2 * x + 1 && b == 2 * y + 1;
      assert (2 * x + 1) * (2 * y + 1) == 4 * (x * y) + 2 * x + 2 * y + 1;
      assert 2 * x * y == 2 * (x * y);
    }
  }

  lemma SmallMultiple(b: nat, m: nat)
    requires m > 0 && b % m == 0 && b < m
    ensures b == 0
  {
  }

  lemma {:induction false} SameRemainder(x: nat, y: nat, m: nat) returns (c: int)
    requires m > 0 && x <= y && x % m == y % m
    ensures y - x == c * m
  {
    c := y / m - x / m;
    assert y == m * (y / m) + y % m && x == m * (x / m) + x % m;
    assert m * (y / m) - m * (x / m) == m * (y / m - x / m);
  }

  /** One of the factors is odd, and the other is too small. */
  lemma {:induction false} NoMultiple(s: nat, t: nat, c: int, n: nat)
    requires s < t < Pow2(n)
    ensures (t - s) * (t + s + 1) != c * Pow2(n + 1)
  {
    var a, b := t - s, t + s + 1;
    if a * b == c * Pow2(n + 1) {
      if a % 2 == 1 {
        OddFactor(a, b, c, n + 1);
        SmallMultiple(b, Pow2(n + 1));
      } else {
        OddSum(s, t);
        OddFactor(b, a, c, n + 1);
        SmallMultiple(a, Pow2(n + 1));
      }
    }
  }

  lemma OddSum(s: nat, t: nat)
    requires s < t && (t - s) % 2 == 0
    ensures (t + s + 1) % 2 == 1 && (t + s + 1) * (t - s) == (t - s) * (t + s + 1)
  {
  }

  /** In a table of 2^n slots, the first 2^n positions are pairwise different. */
  lemma {:induction false} PositionsDiffer(hash: nat, n: nat, s: nat, t: nat)
    requires s < t < Pow2(n)
    ensures Position(hash, s, Pow2(n)) != Position(hash, t, Pow2(n))
  {
    if Position(hash, s, Pow2(n)) == Position(hash, t, Pow2(n)) {
      TwiceTriangle(s);
      TwiceTriangle(t);
      TriangleGrows(s, t);
      Factor(s, t);
      var c := SameRemainder(hash + Triangle(s), hash + Triangle(t), Pow2(n));
      Twice(c, Pow2(n));
      NoMultiple(s, t, c, n);
    }
  }

  lemma Twice(c: int, m: nat)
    ensures c * (2 * m) == 2 * (c * m)
  {
  }

  lemma Factor(s: nat, t: nat)
    requires s <= t
    ensures (t - s) * (t + s + 1) == t * (t + 1) - s * (s + 1)
  {
  }

  lemma {:induction false} TriangleGrows(s: nat, t: nat)
    requires s <= t
    ensures Triangle(s) <= Triangle(t)
  {
    if s < t { TriangleGrows(s, t - 1); }
  }

  // ---- all slots are visited ----

  ghost function Visited(hash: nat, n: nat, k: nat): (r: set<nat>)
    requires k <= Pow2(n)
  {
    set s: nat | 0 <= s < k :: Position(hash, s, Pow2(n))
  }

  lemma {:induction false} NewPosition(hash: nat, n: nat, k: nat)
    requires k < Pow2(n)
    ensures Position(hash, k, Pow2(n)) !in Visited(hash, n, k)
  {
    hide Position, Pow2;
    forall s: nat | s < k ensures Position(hash, s, Pow2(n)) != Position(hash, k, Pow2(n)) {
      PositionsDiffer(hash, n, s, k);
    }
  }

  lemma {:induction false} VisitedCount(hash: nat, n: nat, k: nat)
    requires k <= Pow2(n)
    ensures |Visited(hash, n, k)| == k
  {
    hide Position, Pow2;
    if k == 0 {
      assert Visited(hash, n, 0) == {};
    } else {
      VisitedCount(hash, n, k - 1);
      NewPosition(hash, n, k - 1);
      assert Visited(hash, n, k) == Visited(hash, n, k - 1) + {Position(hash, k - 1, Pow2(n))};
    }
  }
  function Below(n: nat): (r: set<nat>)
    ensures |r| == n && forall i: nat :: i in r <==> i < n
  {
    if n == 0 then {} else Below(n - 1) + {n - 1}
  }

  lemma SubsetOfSameSize(a: set<nat>, b: set<nat>)
    requires a <= b && |a| == |b|
    ensures a == b
  {
    assert b == a + (b - a);
    assert |b| == |a| + |b - a|;
  }

  /** In a table of 2^n slots, every slot is visited within 2^n steps. */
  lemma {:induction false} EverySlotVisited(hash: nat, n: nat, i: nat) returns (s: nat)
    requires i < Pow2(n)
    ensures s < Pow2(n) && Position(hash, s, Pow2(n)) == i
  {
    VisitedCount(hash, n, Pow2(n));
    SubsetOfSameSize(Visited(hash, n, Pow2(n)), Below(Pow2(n)));
    assert i in Visited(hash, n, Pow2(n));
    s :| 0 <= s < Pow2(n) && Position(hash, s, Pow2(n)) == i;
  }

  // ---- lookups ----

  ghost predicate HasVacancy(table: Table) {
    exists i :: 0 <= i < |table| && table[i].Vacant?
  }

  /** The first `s` slots of the probe sequence are occupied, by other keys than `key`. */
  ghost predicate PassedOver(table: Table, hash: nat, key: int, s: nat) {
    |table| > 0 && forall t :: 0 <= t < s ==>
      table[Position(hash, t, |table|)].Full? && table[Position(hash, t, |table|)].key != key
  }

  /** Looks for `key` along its probe sequence: the search ends, within as many steps as there are
      slots, at the key or at a vacant slot. */
  method Probe(table: Table, key: int, hash: nat, ghost n: nat) returns (r: Probed, ghost steps: nat)
    requires |table| == Pow2(n) && HasVacancy(table)
    ensures steps < |table| && PassedOver(table, hash, key, steps) && r.index == Position(hash, steps, |table|)
    ensures if r.Ok? then table[r.index] == Full(key) else table[r.index] == Vacant
  {
    hide Rem, Position, Triangle, BitAnd, Pow2, HasVacancy, PassedOver;
    var mask := |table| - 1;
    StartPosition(table, hash, key);
    var idx: nat, step: nat := hash, 0;
    steps := 0;
    while true
      invariant steps == step < |table| && PassedOver(table, hash, key, step)
      invariant Rem(idx, |table|) == Position(hash, step, |table|)
      decreases |table| - step
    {
      MaskIsRem(idx, n);
      idx := BitAnd(idx, mask);
      if table[idx].Vacant? {
        return Err(idx), step;
      }
      if table[idx].key == key {
        return Ok(idx), step;
      }
      OneMorePassed(table, hash, key, step);
      step := step + 1;
      StepsLeft(table, hash, key, n, step);
      NextPosition(hash, step, |table|);
      idx := idx + step;
      steps := step;
    }
  }

  lemma StartPosition(table: Table, hash: nat, key: int)
    requires |table| > 0
    ensures Position(hash, 0, |table|) == Rem(hash, |table|) && PassedOver(table, hash, key, 0)
  {
  }

  lemma OneMorePassed(table: Table, hash: nat, key: int, s: nat)
    requires PassedOver(table, hash, key, s) && table[Position(hash, s, |table|)].Full? &&
      table[Position(hash, s, |table|)].key != key
    ensures PassedOver(table, hash, key, s + 1)
  {
  }

  lemma {:induction false} StepsLeft(table: Table, hash: nat, key: int, n: nat, step: nat)
    requires |table| == Pow2(n) && HasVacancy(table) && PassedOver(table, hash, key, step)
    ensures step < |table|
  {
    var i :| 0 <= i < |table| && table[i].Vacant?;
    var s := EverySlotVisited(hash, n, i);
  }

  lemma NextPosition(hash: nat, s: nat, len: nat)
    requires len > 0 && s > 0
    ensures Rem(Position(hash, s - 1, len) + s, len) == Position(hash, s, len)
  {
    ModAdd(hash + Triangle(s - 1), s, len);
  }

  lemma ModAdd(a: nat, b: nat, m: nat)
    requires m > 0
    ensures (a % m + b) % m == (a + b) % m
  {
    var q, r := (a % m + b) / m, (a % m + b) % m;
    assert a == m * (a / m) + a % m;
    assert a % m + b == m * q + r;
    assert a + b == m * (a / m + q) + r by { assert m * (a / m + q) == m * (a / m) + m * q; }
    ModUnique(a + b, m, a / m + q, r);
  }

  // ---- tables ----

  /** Slot `i` lies on the probe sequence of its key, behind occupied slots only. */
  ghost predicate Reachable(table: Table, hash: int -> nat, i: nat) {
    && i < |table| && table[i].Full?
    && var h := hash(table[i].key);
    && exists s :: 0 <= s < |table| && Position(h, s, |table|) == i && AllFull(table, h, s)
  }

  ghost predicate AllFull(table: Table, hash: nat, s: nat) {
    |table| > 0 && forall t :: 0 <= t < s ==> table[Position(hash, t, |table|)].Full?
  }

  /** Every key is reachable. */
  ghost predicate TableOk(table: Table, hash: int -> nat) {
    forall i :: 0 <= i < |table| && table[i].Full? ==> Reachable(table, hash, i)
  }

  /** The keys of a table, each as often as it occurs. */
  ghost function Keys(table: Table): multiset<int> {
    if table == [] then multiset{}
    else Keys(table[1..]) + (match table[0] case Full(key) => multiset{key} case Vacant => multiset{})
  }

  ghost predicate HasKey(table: Table, key: int) {
    exists i :: 0 <= i < |table| && table[i] == Full(key)
  }

  /** A search finds exactly the keys of the table. */
  lemma {:induction false} ProbeFinds(table: Table, hash: int -> nat, key: int, n: nat, r: Probed, steps: nat)
    requires |table| == Pow2(n) && TableOk(table, hash)
    requires steps < |table| && PassedOver(table, hash(key), key, steps) &&
      r.index == Position(hash(key), steps, |table|)
    requires if r.Ok? then table[r.index] == Full(key) else table[r.index] == Vacant
    ensures r.Ok? <==> HasKey(table, key)
  {
    hide PassedOver, AllFull, Position;
    if HasKey(table, key) && r.Err? {
      var i :| 0 <= i < |table| && table[i] == Full(key);
      assert Reachable(table, hash, i);
      var s :| 0 <= s < |table| && Position(hash(key), s, |table|) == i && AllFull(table, hash(key), s);
      NotBeyond(table, hash(key), s, steps);
      NotPassed(table, hash(key), key, s, steps);
    }
  }

  lemma NotBeyond(table: Table, hash: nat, s: nat, steps: nat)
    requires AllFull(table, hash, s) && table[Position(hash, steps, |table|)].Vacant?
    ensures s <= steps
  {
  }

  lemma NotPassed(table: Table, hash: nat, key: int, s: nat, steps: nat)
    requires PassedOver(table, hash, key, steps) && table[Position(hash, s, |table|)] == Full(key)
    ensures s >= steps
  {
  }

  lemma {:induction false} KeysFill(table: Table, i: nat, key: int)
    requires i < |table| && table[i].Vacant?
    ensures Keys(table[i := Full(key)]) == Keys(table) + multiset{key}
  {
    var table' := table[i := Full(key)];
    if i > 0 {
      assert table'[1..] == table[1..][i - 1 := Full(key)];
      KeysFill(table[1..], i - 1, key);
    }
  }

  /** Filling the vacant slot a search has ended at keeps the table in order. */
  lemma {:induction false} FillKeeps(table: Table, hash: int -> nat, key: int, n: nat, i: nat, steps: nat)
    requires |table| == Pow2(n) && TableOk(table, hash)
    requires steps < |table| && AllFull(table, hash(key), steps) && i == Position(hash(key), steps, |table|) &&
      table[i].Vacant?
    ensures TableOk(table[i := Full(key)], hash) && Keys(table[i := Full(key)]) == Keys(table) + multiset{key}
    ensures forall k :: HasKey(table[i := Full(key)], k) <==> HasKey(table, k) || k == key
  {
    hide Keys;
    var table' := table[i := Full(key)];
    KeysFill(table, i, key);
    forall j | 0 <= j < |table'| && table'[j].Full? ensures Reachable(table', hash, j) {
      if j != i {
        assert Reachable(table, hash, j);
        var s :| 0 <= s < |table| && Position(hash(table[j].key), s, |table|) == j &&
          AllFull(table, hash(table[j].key), s);
        assert AllFull(table', hash(table[j].key), s);
      } else {
        assert AllFull(table', hash(key), steps);
      }
    }
    forall k ensures HasKey(table', k) <==> HasKey(table, k) || k == key {
      KeysHave(table, k);
      KeysHave(table', k);
    }
  }

  // ---- building tables ----

  predicate IsPow2(n: nat) {
    n > 0 && (n == 1 || (n % 2 == 0 && IsPow2(n / 2)))
  }

  function NextPow2(n: nat): (r: nat)
    ensures r >= n && IsPow2(r) && (n > 0 ==> r < 2 * n)
  {
    if n <= 1 then 1 else 2 * NextPow2((n + 1) / 2)
  }

  lemma {:induction false} Pow2Exponent(n: nat) returns (k: nat)
    requires IsPow2(n)
    ensures n == Pow2(k)
  {
    if n == 1 { k := 0; } else {
      k := Pow2Exponent(n / 2);
      k := k + 1;
    }
  }

  /** The number of slots for so many items: the least power of two above six fifths of their number. */
  function TableSize(items: nat): (r: nat)
    ensures r > items && IsPow2(r) && r / 2 <= items * 12 / 10 < r
  {
    var size := items * 12 / 10;
    if IsPow2(size) then size * 2 else NextPow2(size)
  }

  /** Builds a table of the given keys: all of them can be found, and nothing else; each occurs as often as it
      was given; one slot at least is left vacant. */
  method GenerateTable(items: seq<int>, hash: int -> nat) returns (table: Table, ghost n: nat)
    ensures |table| == Pow2(n) && HasVacancy(table) && TableOk(table, hash) && Keys(table) == multiset(items)
    ensures forall k :: HasKey(table, k) <==> k in items
    ensures |table| / 2 <= |items| * 12 / 10 < |table|
  {
    hide TableOk, HasKey, HasVacancy, AllFull, Position, IsPow2, Rem, Pow2, TableSize, Keys;
    TableSizeOk(|items|);
    var size := TableSize(|items|);
    n := Pow2Exponent(size);
    table := seq(size, _ => Vacant);
    VacantTable(size, hash);
    for i := 0 to |items|
      invariant |table| == size && TableOk(table, hash) && Keys(table) == multiset(items[..i])
    {
      var key := items[i];
      KeysVacancy(table);
      var h: nat, s: nat := Rem(hash(key), size), 0;
      FirstPosition(table, hash(key));
      while table[h].Full?
        invariant h < size && s < size && h == Position(hash(key), s, size) && AllFull(table, hash(key), s)
        decreases size - s
      {
        OneMoreFull(table, hash(key), s);
        s := s + 1;
        FullStepsLeft(table, hash(key), n, s);
        NextPosition(hash(key), s, size);
        h := Rem(h + s, size);
      }
      FillKeeps(table, hash, key, n, h, s);
      assert items[..i + 1] == items[..i] + [key];
      table := table[h := Full(key)];
    }
    assert items[..|items|] == items;
    KeysVacancy(table);
    forall k ensures HasKey(table, k) <==> k in items {
      KeysHave(table, k);
    }
  }

  lemma TableSizeOk(items: nat)
    ensures TableSize(items) > items && IsPow2(TableSize(items))
    ensures TableSize(items) / 2 <= items * 12 / 10 < TableSize(items)
  {
  }

  lemma FirstPosition(table: Table, hash: nat)
    requires |table| > 0
    ensures Position(hash, 0, |table|) == Rem(hash, |table|) && AllFull(table, hash, 0)
  {
  }

  lemma OneMoreFull(table: Table, hash: nat, s: nat)
    requires AllFull(table, hash, s) && table[Position(hash, s, |table|)].Full?
    ensures AllFull(table, hash, s + 1)
  {
  }

  lemma {:induction false} VacantTable(n: nat, hash: int -> nat)
    ensures
      var table := seq(n, _ => Vacant);
      TableOk(table, hash) && Keys(table) == multiset{}
  {
    NoKeys(seq(n, _ => Vacant));
  }

  lemma {:induction false} NoKeys(table: Table)
    requires forall i :: 0 <= i < |table| ==> table[i].Vacant?
    ensures Keys(table) == multiset{}
  {
    if table != [] { NoKeys(table[1..]); }
  }

  lemma {:induction false} FullStepsLeft(table: Table, hash: nat, n: nat, s: nat)
    requires |table| == Pow2(n) && HasVacancy(table) && AllFull(table, hash, s)
    ensures s < |table|
  {
    var i :| 0 <= i < |table| && table[i].Vacant?;
    var t := EverySlotVisited(hash, n, i);
  }

  /** A table with fewer keys than slots has a vacant one. */
  lemma {:induction false} KeysVacancy(table: Table)
    requires |Keys(table)| < |table|
    ensures HasVacancy(table)
  {
    if table[0].Full? {
      KeysVacancy(table[1..]);
      var i :| 0 <= i < |table| - 1 && table[1..][i].Vacant?;
      assert table[i + 1].Vacant?;
    }
  }

  lemma {:induction false} KeysHave(table: Table, key: int)
    ensures HasKey(table, key) <==> key in Keys(table)
  {
    if table != [] {
      KeysHave(table[1..], key);
      if HasKey(table[1..], key) {
        var i :| 0 <= i < |table| - 1 && table[1..][i] == Full(key);
        assert table[i + 1] == Full(key);
      }
      if HasKey(table, key) && table[0] != Full(key) {
        var i :| 0 <= i < |table| && table[i] == Full(key);
        assert table[1..][i - 1] == Full(key);
      }
    }
  }
}
