/** B+-tree nodes: what each node operation does to the sequence of entries. */
module BForestNode {
  import opened Wrappers

  type Key = int
  type Val = int
  type Node = nat

  /** The maximum branching factor of an inner node. */
  const INNER_SIZE: nat := 8

  /** A node's arrays, cut off at its size. An inner node has one sub-tree more than it has keys. */
  datatype NodeData =
    | Inner(keys: seq<Key>, tree: seq<Node>)
    | Leaf(keys: seq<Key>, vals: seq<Val>)
    | Free(next: Option<Node>)

  /** One entry of a level of a tree: a node with the exclusive upper bound of its keys, or, below the
      leaves, a key-value pair. */
  datatype Item = Edge(node: Node, upper: Option<Key>) | Pair(key: Key, val: Val)

  predicate WellShaped(nd: NodeData, cap: nat) {
    match nd
    case Inner(keys, tree) => |tree| == |keys| + 1 && |tree| <= INNER_SIZE
    case Leaf(keys, vals) => |keys| == |vals| && |keys| <= cap
    case Free(_) => false
  }

  function Entries(nd: NodeData): nat {
    match nd
    case Inner(_, tree) => |tree|
    case Leaf(keys, _) => |keys|
    case Free(_) => 0
  }

  function Capacity(nd: NodeData, cap: nat): nat {
    if nd.Inner? then INNER_SIZE else cap
  }

  predicate HalfFull(nd: NodeData, cap: nat) {
    2 * Entries(nd) >= Capacity(nd, cap)
  }

  /** The entries of a node whose keys are bounded by `upper`: sub-trees with their own bounds, or pairs. */
  function Expand(nd: NodeData, upper: Option<Key>): (r: seq<Item>)
    ensures nd.Inner? ==> |r| == |nd.tree|
    ensures nd.Leaf? && |nd.keys| == |nd.vals| ==> |r| == |nd.keys|
  {
    match nd
    case Inner(keys, tree) =>
      seq(|tree|, i requires 0 <= i < |tree| => Edge(tree[i], if i < |keys| then Some(keys[i]) else upper))
    case Leaf(keys, vals) =>
      if |keys| == |vals| then seq(|keys|, i requires 0 <= i < |keys| => Pair(keys[i], vals[i])) else []
    case Free(_) => []
  }

  function InsertAt<T>(s: seq<T>, i: nat, x: T): (r: seq<T>)
    requires i <= |s|
    ensures |r| == |s| + 1
  {
    s[..i] + [x] + s[i..]
  }

  function RemoveAt<T>(s: seq<T>, i: nat): (r: seq<T>)
    requires i < |s|
    ensures |r| == |s| - 1
  {
    s[..i] + s[i + 1..]
  }

  // ---- insertion ----

  /** `key` goes in front of position `index` of the keys, `node` just after sub-tree `index`. */
  function TryInnerInsert(nd: NodeData, index: nat, key: Key, node: Node): (r: Option<NodeData>)
    requires nd.Inner? && |nd.tree| == |nd.keys| + 1 && index <= |nd.keys|
  {
    if |nd.keys| < INNER_SIZE - 1
    then Some(Inner(InsertAt(nd.keys, index, key), InsertAt(nd.tree, index + 1, node)))
    else None
  }

  function TryLeafInsert(nd: NodeData, index: nat, key: Key, val: Val, cap: nat): (r: Option<NodeData>)
    requires nd.Leaf? && |nd.keys| == |nd.vals| && index <= |nd.keys|
  {
    if |nd.keys| < cap then Some(Leaf(InsertAt(nd.keys, index, key), InsertAt(nd.vals, index, val))) else None
  }

  /** The entry list after a sub-tree has been split in two at `key`. */
  function SplitItem(s: seq<Item>, i: nat, key: Key, node: Node): (r: seq<Item>)
    requires i < |s| && s[i].Edge?
  {
    s[..i] + [Edge(s[i].node, Some(key)), Edge(node, s[i].upper)] + s[i + 1..]
  }

  lemma InnerInsertExpands(nd: NodeData, upper: Option<Key>, index: nat, key: Key, node: Node, cap: nat)
    requires nd.Inner? && WellShaped(nd, cap) && index < |nd.tree|
    ensures
      var r := TryInnerInsert(nd, index, key, node);
      && (r.None? <==> Entries(nd) == INNER_SIZE)
      && (r.Some? ==> r.value.Inner? && WellShaped(r.value, cap) && Entries(r.value) == Entries(nd) + 1
                      && Expand(r.value, upper) == SplitItem(Expand(nd, upper), index, key, node))
  {
    var r := TryInnerInsert(nd, index, key, node);
    if r.Some? {
      var a, b := Expand(r.value, upper), SplitItem(Expand(nd, upper), index, key, node);
      assert |a| == |b|;
      forall i | 0 <= i < |a| ensures a[i] == b[i] {}
    }
  }

  lemma LeafInsertExpands(nd: NodeData, upper: Option<Key>, index: nat, key: Key, val: Val, cap: nat)
    requires nd.Leaf? && WellShaped(nd, cap) && index <= |nd.keys|
    ensures
      var r := TryLeafInsert(nd, index, key, val, cap);
      && (r.None? <==> Entries(nd) == cap)
      && (r.Some? ==> r.value.Leaf? && WellShaped(r.value, cap) && Entries(r.value) == Entries(nd) + 1
                      && Expand(r.value, upper) == InsertAt(Expand(nd, upper), index, Pair(key, val)))
  {
    var r := TryLeafInsert(nd, index, key, val, cap);
    if r.Some? {
      var a, b := Expand(r.value, upper), InsertAt(Expand(nd, upper), index, Pair(key, val));
      assert |a| == |b|;
      forall i | 0 <= i < |a| ensures a[i] == b[i] {}
    }
  }

  // ---- splitting ----

  /** Where to halve a full node of `len` entries after a failed insertion at `ins`. */
  function SplitPos(len: nat, ins: nat): nat {
    if ins <= len / 2 then len / 2 else (len + 1) / 2
  }

  datatype SplitOff = SplitOff(lhs: NodeData, rhs: NodeData, critKey: Key)

  /** Splits off the second half of a full node; the critical key of an inner node ends up in neither half. */
  function Split(nd: NodeData, insertIndex: nat, cap: nat): (r: SplitOff)
    requires cap >= 2 && WellShaped(nd, cap) && Entries(nd) == Capacity(nd, cap)
  {
    match nd
    case Inner(keys, tree) =>
      var l := SplitPos(INNER_SIZE, insertIndex + 1);
      SplitOff(Inner(keys[..l - 1], tree[..l]), Inner(keys[l..], tree[l..]), keys[l - 1])
    case Leaf(keys, vals) =>
      var l := SplitPos(cap, insertIndex);
      SplitOff(Leaf(keys[..l], vals[..l]), Leaf(keys[l..], vals[l..]), keys[l])
  }

  /** Two inner nodes side by side, with the critical key between them, are one longer node. */
  lemma InnerJoins(k1: seq<Key>, t1: seq<Node>, crit: Key, k2: seq<Key>, t2: seq<Node>, upper: Option<Key>)
    requires |t1| == |k1| + 1 && |t2| == |k2| + 1
    ensures Expand(Inner(k1 + [crit] + k2, t1 + t2), upper) ==
      Expand(Inner(k1, t1), Some(crit)) + Expand(Inner(k2, t2), upper)
  {
    var a, b := Expand(Inner(k1 + [crit] + k2, t1 + t2), upper), Expand(Inner(k1, t1),
      Some(crit)) + Expand(Inner(k2, t2), upper);
    forall i | 0 <= i < |a| ensures a[i] == b[i] {}
  }

  lemma LeafJoins(k1: seq<Key>, v1: seq<Val>, k2: seq<Key>, v2: seq<Val>, upper: Option<Key>, upper': Option<Key>)
    requires |k1| == |v1| && |k2| == |v2|
    ensures Expand(Leaf(k1 + k2, v1 + v2), upper) == Expand(Leaf(k1, v1), upper') + Expand(Leaf(k2, v2), upper)
  {
    var a, b := Expand(Leaf(k1 + k2, v1 + v2), upper), Expand(Leaf(k1, v1), upper') + Expand(Leaf(k2, v2), upper);
    forall i | 0 <= i < |a| ensures a[i] == b[i] {}
  }

  lemma InnerSplits(keys: seq<Key>, tree: seq<Node>, l: nat, upper: Option<Key>)
    requires |tree| == |keys| + 1 && 1 <= l < |tree|
    ensures Expand(Inner(keys[..l - 1], tree[..l]), Some(keys[l - 1])) + Expand(Inner(keys[l..], tree[l..]), upper) ==
      Expand(Inner(keys, tree), upper)
  {
    InnerJoins(keys[..l - 1], tree[..l], keys[l - 1], keys[l..], tree[l..], upper);
    assert keys[..l - 1] + [keys[l - 1]] + keys[l..] == keys && tree[..l] + tree[l..] == tree;
  }

  lemma LeafSplits(keys: seq<Key>, vals: seq<Val>, l: nat, upper: Option<Key>, upper': Option<Key>)
    requires |keys| == |vals| && l <= |keys|
    ensures Expand(Leaf(keys[..l], vals[..l]), upper') + Expand(Leaf(keys[l..], vals[l..]), upper) ==
      Expand(Leaf(keys, vals), upper)
  {
    LeafJoins(keys[..l], vals[..l], keys[l..], vals[l..], upper, upper');
    assert keys[..l] + keys[l..] == keys && vals[..l] + vals[l..] == vals;
  }

  /** A split conserves the entries, in order, with the critical key as the new bound between the halves. */
  lemma SplitConserves(nd: NodeData, upper: Option<Key>, insertIndex: nat, cap: nat)
    requires cap >= 2 && WellShaped(nd, cap) && Entries(nd) == Capacity(nd, cap)
    ensures
      var r := Split(nd, insertIndex, cap);
      && WellShaped(r.lhs, cap) && WellShaped(r.rhs, cap) && r.lhs.Inner? == r.rhs.Inner? == nd.Inner?
      && Entries(r.lhs) == (if nd.Inner? then INNER_SIZE / 2 else SplitPos(cap, insertIndex))
      && Entries(r.lhs) + Entries(r.rhs) == Entries(nd)
      && Expand(r.lhs, Some(r.critKey)) + Expand(r.rhs, upper) == Expand(nd, upper)
      && (nd.Leaf? ==> r.lhs.Leaf? && r.rhs.Leaf? && r.critKey == r.rhs.keys[0] && r.lhs.keys[0] == nd.keys[0])
  {
    hide Expand;
    match nd {
      case Inner(keys, tree) => InnerSplits(keys, tree, SplitPos(INNER_SIZE, insertIndex + 1), upper);
      case Leaf(keys, vals) =>
        var l := SplitPos(cap, insertIndex);
        LeafSplits(keys, vals, l, upper, Some(keys[l]));
    }
  }

  // ---- removal ----

  datatype Removed = Healthy | Rightmost | Underflow | Empty

  function RemovedStatus(removed: nat, newSize: nat, capacity: nat): Removed {
    if 2 * newSize >= capacity then (if removed == newSize then Rightmost else Healthy)
    else if newSize > 0 then Underflow
    else Empty
  }

  /** Removes sub-tree `index` and the key to its left, or to its right for the first sub-tree. */
  function InnerRemove(nd: NodeData, index: nat): (r: (NodeData, Removed))
    requires nd.Inner? && |nd.tree| == |nd.keys| + 1 && index < |nd.tree|
  {
    var keys := if |nd.tree| > 1 then RemoveAt(nd.keys, if index == 0 then 0 else index - 1) else [];
    (Inner(keys, RemoveAt(nd.tree, index)), RemovedStatus(index, |nd.tree| - 1, INNER_SIZE))
  }

  function LeafRemove(nd: NodeData, index: nat, cap: nat): (r: (NodeData, Removed))
    requires nd.Leaf? && |nd.keys| == |nd.vals| && index < |nd.keys|
  {
    (Leaf(RemoveAt(nd.keys, index), RemoveAt(nd.vals, index)), RemovedStatus(index, |nd.keys| - 1, cap))
  }

  /** The entry list without entry `i`, whose left neighbour takes over its bound. */
  function DropItem(s: seq<Item>, i: nat): (r: seq<Item>)
    requires i < |s|
    ensures |r| == |s| - 1
  {
    if i > 0 && s[i - 1].Edge? && s[i].Edge?
    then s[..i - 1] + [Edge(s[i - 1].node, s[i].upper)] + s[i + 1..]
    else RemoveAt(s, i)
  }

  lemma InnerEntry(nd: NodeData, upper: Option<Key>, i: nat)
    requires nd.Inner? && i < |nd.tree|
    ensures Expand(nd, upper)[i] == Edge(nd.tree[i], if i < |nd.keys| then Some(nd.keys[i]) else upper)
  {
  }

  lemma RemovedIndex<T>(s: seq<T>, i: nat, j: nat)
    requires i < |s| && j < |s| - 1
    ensures RemoveAt(s, i)[j] == s[if j < i then j else j + 1]
  {
  }

  lemma DroppedIndex(s: seq<Item>, i: nat, j: nat)
    requires i < |s| && j < |s| - 1 && s[i].Edge? && (i > 0 ==> s[i - 1].Edge?)
    ensures DropItem(s, i)[j] ==
      if i > 0 && j == i - 1 then Edge(s[j].node, s[i].upper) else s[if j < i then j else j + 1]
  {
  }

  lemma InnerRemoveEntry(nd: NodeData, upper: Option<Key>, index: nat, i: nat)
    requires nd.Inner? && |nd.tree| == |nd.keys| + 1 <= INNER_SIZE && index < |nd.tree| && i < |nd.tree| - 1
    ensures Expand(InnerRemove(nd, index).0, upper)[i] == DropItem(Expand(nd, upper), index)[i]
  {
    hide Expand, DropItem, RemoveAt;
    var r := InnerRemove(nd, index).0;
    InnerEntry(r, upper, i);
    RemovedIndex(nd.tree, index, i);
    if i < |r.keys| { RemovedIndex(nd.keys, if index == 0 then 0 else index - 1, i); }
    InnerEntry(nd, upper, index);
    InnerEntry(nd, upper, i);
    InnerEntry(nd, upper, i + 1);
    if index > 0 { InnerEntry(nd, upper, index - 1); }
    DroppedIndex(Expand(nd, upper), index, i);
  }

  lemma InnerRemoveExpands(nd: NodeData, upper: Option<Key>, index: nat, cap: nat)
    requires nd.Inner? && WellShaped(nd, cap) && index < |nd.tree|
    ensures
      var r := InnerRemove(nd, index).0;
      && r.Inner? && Entries(r) == Entries(nd) - 1
      && (Entries(nd) > 1 ==> WellShaped(r, cap))
      && Expand(r, upper) == DropItem(Expand(nd, upper), index)
  {
    hide Expand, DropItem, RemoveAt;
    var a, b := Expand(InnerRemove(nd, index).0, upper), DropItem(Expand(nd, upper), index);
    assert |a| == |b|;
    forall i | 0 <= i < |a| ensures a[i] == b[i] {
      InnerRemoveEntry(nd, upper, index, i);
    }
  }

  lemma LeafRemoveExpands(nd: NodeData, upper: Option<Key>, index: nat, cap: nat)
    requires nd.Leaf? && WellShaped(nd, cap) && index < |nd.keys|
    ensures
      var r := LeafRemove(nd, index, cap).0;
      && r.Leaf? && WellShaped(r, cap) && Entries(r) == Entries(nd) - 1
      && Expand(r, upper) == RemoveAt(Expand(nd, upper), index)
  {
    var r := LeafRemove(nd, index, cap).0;
    var a, b := Expand(r, upper), RemoveAt(Expand(nd, upper), index);
    assert |a| == |b|;
    forall i | 0 <= i < |a| ensures a[i] == b[i] {}
  }

  // ---- balancing ----

  datatype Balanced = Balanced(lhs: NodeData, rhs: NodeData, newCrit: Option<Key>)

  /** Moves everything to the right sibling if it fits there, otherwise moves entries to the left so
      that both halves are about even. */
  function Balance(lhs: NodeData, crit: Key, rhs: NodeData, cap: nat): (r: Balanced)
    requires WellShaped(lhs, cap) && WellShaped(rhs, cap) && lhs.Inner? == rhs.Inner?
    requires Entries(lhs) > 0 && Entries(rhs) > 0 && !HalfFull(lhs, cap)
  {
    var ents := Entries(lhs) + Entries(rhs);
    if lhs.Inner? then
      var keys, tree := lhs.keys + [crit] + rhs.keys, lhs.tree + rhs.tree;
      if ents <= INNER_SIZE then Balanced(Inner([], []), Inner(keys, tree), None)
      else
        var l := ents - ents / 2;
        Balanced(Inner(keys[..l - 1], tree[..l]), Inner(keys[l..], tree[l..]), Some(keys[l - 1]))
    else
      var keys, vals := lhs.keys + rhs.keys, lhs.vals + rhs.vals;
      if ents <= cap then Balanced(Leaf([], []), Leaf(keys, vals), None)
      else
        var l := ents - ents / 2;
        Balanced(Leaf(keys[..l], vals[..l]), Leaf(keys[l..], vals[l..]), Some(keys[l]))
  }

  /** Balancing conserves the entries of the two nodes with the critical key interleaved, and either
      empties the left node or leaves both at least half full. */
  predicate BalanceSpec(lhs: NodeData, crit: Key, rhs: NodeData, upper: Option<Key>, cap: nat, r: Balanced)
    requires Entries(lhs) > 0
  {
    && r.lhs.Inner? == r.rhs.Inner? == lhs.Inner? && r.lhs.Leaf? == r.rhs.Leaf? == lhs.Leaf?
    && WellShaped(r.rhs, cap) && Entries(r.rhs) > 0
    && (if r.newCrit.None? then
          && Entries(r.lhs) == 0 && Entries(r.rhs) == Entries(lhs) + Entries(rhs)
          && Expand(r.rhs, upper) == Expand(lhs, Some(crit)) + Expand(rhs, upper)
          && (r.rhs.Leaf? ==> r.rhs.keys[0] == lhs.keys[0])
        else
          && WellShaped(r.lhs, cap) && HalfFull(r.lhs, cap) && HalfFull(r.rhs, cap) && Entries(r.lhs) > Entries(lhs)
          && Expand(r.lhs, r.newCrit) + Expand(r.rhs, upper) == Expand(lhs, Some(crit)) + Expand(rhs, upper)
          && (r.rhs.Leaf? ==> r.newCrit == Some(r.rhs.keys[0]) && r.lhs.keys[0] == lhs.keys[0]))
  }

  lemma BalanceInner(lhs: NodeData, crit: Key, rhs: NodeData, upper: Option<Key>, cap: nat)
    requires lhs.Inner? && rhs.Inner? && WellShaped(lhs, cap) && WellShaped(rhs, cap)
    requires Entries(lhs) > 0 && Entries(rhs) > 0 && !HalfFull(lhs, cap)
    ensures BalanceSpec(lhs, crit, rhs, upper, cap, Balance(lhs, crit, rhs, cap))
  {
    hide Expand;
    var ents := Entries(lhs) + Entries(rhs);
    var keys, tree := lhs.keys + [crit] + rhs.keys, lhs.tree + rhs.tree;
    InnerJoins(lhs.keys, lhs.tree, crit, rhs.keys, rhs.tree, upper);
    if ents > INNER_SIZE { InnerSplits(keys, tree, ents - ents / 2, upper); }
  }

  lemma BalanceLeaf(lhs: NodeData, crit: Key, rhs: NodeData, upper: Option<Key>, cap: nat)
    requires cap >= 2 && lhs.Leaf? && rhs.Leaf? && WellShaped(lhs, cap) && WellShaped(rhs, cap)
    requires Entries(lhs) > 0 && Entries(rhs) > 0 && !HalfFull(lhs, cap)
    ensures BalanceSpec(lhs, crit, rhs, upper, cap, Balance(lhs, crit, rhs, cap))
  {
    hide Expand;
    var ents := Entries(lhs) + Entries(rhs);
    var l := ents - ents / 2;
    var keys, vals := lhs.keys + rhs.keys, lhs.vals + rhs.vals;
    LeafJoins(lhs.keys, lhs.vals, rhs.keys, rhs.vals, upper, Some(crit));
    if ents > cap { LeafSplits(keys, vals, l, upper, Some(keys[l])); }
  }

  lemma BalanceConserves(lhs: NodeData, crit: Key, rhs: NodeData, upper: Option<Key>, cap: nat)
    requires cap >= 2 && WellShaped(lhs, cap) && WellShaped(rhs, cap) && lhs.Inner? == rhs.Inner?
    requires Entries(lhs) > 0 && Entries(rhs) > 0 && !HalfFull(lhs, cap)
    ensures BalanceSpec(lhs, crit, rhs, upper, cap, Balance(lhs, crit, rhs, cap))
  {
    hide BalanceSpec, Balance;
    if lhs.Inner? { BalanceInner(lhs, crit, rhs, upper, cap); } else { BalanceLeaf(lhs, crit, rhs, upper, cap); }
  }

  /** The left node is emptied exactly if everything fits into one node; otherwise the entries are split evenly,
      with a bias to the left. */
  lemma BalanceIsEven(lhs: NodeData, crit: Key, rhs: NodeData, cap: nat)
    requires cap >= 2 && WellShaped(lhs, cap) && WellShaped(rhs, cap) && lhs.Inner? == rhs.Inner?
    requires Entries(lhs) > 0 && Entries(rhs) > 0 && !HalfFull(lhs, cap)
    ensures
      var r := Balance(lhs, crit, rhs, cap);
      && (r.newCrit.None? <==> Entries(lhs) + Entries(rhs) <= if lhs.Inner? then 8 else cap)
      && (r.newCrit.Some? ==> Entries(r.rhs) <= Entries(r.lhs) <= Entries(r.rhs) + 1)
  {
  }
}
