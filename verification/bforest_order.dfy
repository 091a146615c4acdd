/** How the bounds stored in inner nodes relate to the sorted contents. */
module BForestOrder {
  import opened Wrappers
  import opened BForestNode
  import opened BForestLevels
  import opened BForestPath
  import opened BForestRemove
  import opened BForestGrow

  /** Where the entries below item `j` of level `l` begin in the contents. */
  ghost function Start(nodes: Nodes, levels: seq<Level>, l: nat, j: nat): nat
    requires l < |levels|
    decreases |levels| - l
  {
    if l + 1 == |levels| || j > |levels[l]| then j else Start(nodes, levels, l + 1, Offset(nodes, levels[l], j))
  }

  lemma {:induction false} StartOrder(nodes: Nodes, levels: seq<Level>, cap: nat, l: nat, i: nat, j: nat)
    requires l < |levels| && LinksOk(nodes, levels, 0, |levels| - 1, cap) && i < j <= |levels[l]|
    ensures Start(nodes, levels, l, i) < Start(nodes, levels, l, j)
    decreases |levels| - l
  {
    hide ExpandAll, KindOk, HalfOk, Offset;
    if l + 1 < |levels| {
      assert LinkOk(nodes, levels, l, cap);
      OffsetsApart(nodes, levels[l], l + 2 < |levels|, cap, i, j);
      StartOrder(nodes, levels, cap, l + 1, Offset(nodes, levels[l], i), Offset(nodes, levels[l], j));
    }
  }

  lemma {:induction false} OffsetsApart(nodes: Nodes, es: Level, inner: bool, cap: nat, i: nat, j: nat)
    requires KindOk(nodes, es, inner, cap) && i < j <= |es|
    ensures Offset(nodes, es, i) < Offset(nodes, es, j) <= |ExpandAll(nodes, es)|
  {
    hide ExpandAll, KindOk;
    ItemSize(nodes, es, i, inner, cap);
    ExpandAround(nodes, es, i);
    OffsetMonotone(nodes, es, i + 1, j);
    OffsetMonotone(nodes, es, j, |es|);
    OffsetEnds(nodes, es);
  }

  lemma {:induction false} StartEnds(nodes: Nodes, levels: seq<Level>, cap: nat, l: nat)
    requires l < |levels| && LinksOk(nodes, levels, 0, |levels| - 1, cap)
    ensures Start(nodes, levels, l, 0) == 0 && Start(nodes, levels, l, |levels[l]|) == |levels[|levels| - 1]|
    decreases |levels| - l
  {
    hide ExpandAll, KindOk, HalfOk;
    if l + 1 < |levels| {
      assert LinkOk(nodes, levels, l, cap);
      OffsetEnds(nodes, levels[l]);
      StartEnds(nodes, levels, cap, l + 1);
    }
  }

  lemma {:induction false} StartInside(nodes: Nodes, levels: seq<Level>, cap: nat, l: nat, j: nat)
    requires l < |levels| && LinksOk(nodes, levels, 0, |levels| - 1, cap) && j < |levels[l]|
    ensures Start(nodes, levels, l, j) < |levels[|levels| - 1]|
  {
    StartOrder(nodes, levels, cap, l, j, |levels[l]|);
    StartEnds(nodes, levels, cap, l);
  }

  /** The bound of item `j` is the smallest key to its right; the last item has no bound. */
  lemma {:induction false} BoundIsKey(nodes: Nodes, root: Node, levels: seq<Level>, cap: nat, l: nat, j: nat)
    requires TreeOk(nodes, root, levels, cap) && l < |levels| - 1 && j < |levels[l]|
    ensures LinksOk(nodes, levels, 0, |levels| - 1, cap) && levels[l][j].Edge?
    ensures j + 1 == |levels[l]| ==> levels[l][j].upper == None
    ensures j + 1 < |levels[l]| ==>
      && Start(nodes, levels, l, j + 1) < |levels[|levels| - 1]|
      && levels[l][j].upper == Some(KeyAt(levels, Start(nodes, levels, l, j + 1)))
    decreases |levels| - l
  {
    hide ExpandAll, KindOk, HalfOk, Offset, Distinct, Sorted, Start;
    TreeLinks(nodes, root, levels, cap);
    assert LinkOk(nodes, levels, l, cap);
    WellShapedAt(nodes, levels[l], j, l + 2 < |levels|, cap);
    StartStep(nodes, levels, l, j + 1);
    if j + 1 < |levels[l]| { StartInside(nodes, levels, cap, l, j + 1); }
    if l + 2 == |levels| {
      LeafBoundIsKey(nodes, levels, cap, j);
      LastIsUnbounded(nodes, root, levels, cap, l);
    } else {
      InnerBoundIsKey(nodes, root, levels, cap, l, j);
      BoundIsKey(nodes, root, levels, cap, l + 1, Offset(nodes, levels[l], j + 1) - 1);
    }
  }

  function KeyAt(levels: seq<Level>, c: nat): Key
    requires |levels| > 0 && c < |levels[|levels| - 1]|
  {
    var x := levels[|levels| - 1][c];
    if x.Pair? then x.key else 0
  }

  lemma StartStep(nodes: Nodes, levels: seq<Level>, l: nat, j: nat)
    requires l + 1 < |levels| && j <= |levels[l]|
    ensures Start(nodes, levels, l, j) == Start(nodes, levels, l + 1, Offset(nodes, levels[l], j))
    ensures l + 2 == |levels| ==> Start(nodes, levels, l, j) == Offset(nodes, levels[l], j)
  {
    hide Offset;
  }

  /** The bound of an inner node is the bound of its last sub-tree. */
  lemma {:induction false} InnerBoundIsKey(nodes: Nodes, root: Node, levels: seq<Level>, cap: nat, l: nat, j: nat)
    requires LinkOk(nodes, levels, l, cap) && l + 2 < |levels| && j < |levels[l]|
    ensures
      var last := Offset(nodes, levels[l], j + 1) - 1;
      && 0 <= last < |levels[l + 1]| && levels[l + 1][last].Edge? && levels[l][j].Edge? &&
        levels[l + 1][last].upper == levels[l][j].upper
      && (last + 1 == |levels[l + 1]| <==> j + 1 == |levels[l]|)
  {
    hide ExpandAll, HalfOk, Offset, ExpandItem;
    var es := levels[l];
    ItemOfInner(nodes, es, j, cap);
    ExpandAround(nodes, es, j);
    ExpandIndex(nodes, es, j, |nodes[es[j].node].tree| - 1);
    OffsetEnds(nodes, es);
    if j + 1 < |es| { OffsetsApart(nodes, es, true, cap, j + 1, |es|); }
  }

  lemma {:induction false} LeafBoundIsKey(nodes: Nodes, levels: seq<Level>, cap: nat, j: nat)
    requires |levels| >= 2 && LinkOk(nodes, levels, |levels| - 2, cap) && SepsOk(nodes, levels[|levels| - 2]) &&
      j + 1 <= |levels[|levels| - 2]|
    ensures j + 1 < |levels[|levels| - 2]| ==>
      && Offset(nodes, levels[|levels| - 2], j + 1) < |levels[|levels| - 1]| && levels[|levels| - 2][j].Edge?
      && levels[|levels| - 2][j].upper == Some(KeyAt(levels, Offset(nodes, levels[|levels| - 2], j + 1)))
  {
    hide ExpandAll, HalfOk, Offset;
    var es := levels[|levels| - 2];
    if j + 1 < |es| {
      assert SepAt(nodes, es, j);
      ItemSize(nodes, es, j + 1, false, cap);
      ExpandIndex(nodes, es, j + 1, 0);
    }
  }

  lemma {:induction false} LastIsUnbounded(nodes: Nodes, root: Node, levels: seq<Level>, cap: nat, l: nat)
    requires l < |levels| - 1 && LinksOk(nodes, levels, 0, |levels| - 1, cap) && levels[0] == [Edge(root, None)]
    ensures |levels[l]| > 0 && levels[l][|levels[l]| - 1].Edge? && levels[l][|levels[l]| - 1].upper == None
  {
    hide ExpandAll, HalfOk, Offset, KindOk;
    if l > 0 {
      LastIsUnbounded(nodes, root, levels, cap, l - 1);
      assert LinkOk(nodes, levels, l - 1, cap);
      InnerBoundIsKey(nodes, root, levels, cap, l - 1, |levels[l - 1]| - 1);
    }
  }

  lemma KeysAscend(levels: seq<Level>, c: nat, d: nat)
    requires |levels| > 0 && Sorted(levels[|levels| - 1]) && c < d < |levels[|levels| - 1]|
    ensures KeyAt(levels, c) < KeyAt(levels, d)
  {
  }

  /** `k` is the smallest key below item `q` of level `l`. */
  ghost predicate SmallestBelow(nodes: Nodes, levels: seq<Level>, l: nat, q: nat, k: Key) {
    && l < |levels| && q < |levels[l]| && Start(nodes, levels, l, q) < |levels[|levels| - 1]|
    && k == KeyAt(levels, Start(nodes, levels, l, q))
  }

  /** Key `i` of an inner node is the smallest key below its sub-tree `i + 1`. */
  lemma {:induction false} InnerKey(nodes: Nodes, root: Node, levels: seq<Level>, cap: nat, l: nat, j: nat, i: nat)
    requires TreeOk(nodes, root, levels, cap) && l + 2 < |levels| && j < |levels[l]|
    requires levels[l][j].Edge? && levels[l][j].node < |nodes| && nodes[levels[l][j].node].Inner? &&
      i < |nodes[levels[l][j].node].keys|
    ensures SmallestBelow(nodes, levels, l + 1, Offset(nodes, levels[l], j) + i + 1, nodes[levels[l][j].node].keys[i])
  {
    hide ExpandAll, HalfOk, Offset, Distinct, Sorted, Start, ExpandItem, KindOk, SepsOk;
    TreeLinks(nodes, root, levels, cap);
    assert LinkOk(nodes, levels, l, cap);
    ItemOfInner(nodes, levels[l], j, cap);
    ExpandIndex(nodes, levels[l], j, i);
    ExpandIndex(nodes, levels[l], j, i + 1);
    BoundIsKey(nodes, root, levels, cap, l + 1, Offset(nodes, levels[l], j) + i);
  }

  /** Entry `i` of leaf `j` is entry `Offset + i` of the contents. */
  lemma {:induction false} LeafEntry(nodes: Nodes, root: Node, levels: seq<Level>, cap: nat, j: nat, i: nat)
    requires TreeOk(nodes, root, levels, cap) && j < |levels[|levels| - 2]|
    requires
      var e := levels[|levels| - 2][j];
      e.Edge? && e.node < |nodes| && nodes[e.node].Leaf? && i < |nodes[e.node].keys| == |nodes[e.node].vals|
    ensures
      var c, nd := Offset(nodes, levels[|levels| - 2], j) + i, nodes[levels[|levels| - 2][j].node];
      && c < |levels[|levels| - 1]| && levels[|levels| - 1][c] == Pair(nd.keys[i], nd.vals[i])
      && KeyAt(levels, c) == nd.keys[i]
  {
    hide ExpandAll, HalfOk, Offset, Distinct, Sorted, KindOk, SepsOk;
    TreeLinks(nodes, root, levels, cap);
    var l := |levels| - 2;
    assert LinkOk(nodes, levels, l, cap);
    ExpandIndex(nodes, levels[l], j, i);
  }

  /** The bound to the left of item `j`. */
  ghost function Lower(levels: seq<Level>, l: nat, j: nat): Option<Key>
    requires l < |levels| && j < |levels[l]|
  {
    if j == 0 || !levels[l][j - 1].Edge? then None else levels[l][j - 1].upper
  }

  // ---- the written invariant ----

  ghost function BoundBefore(keys: seq<Key>, lower: Option<Key>, i: nat): Option<Key>
    requires i <= |keys|
  {
    if i == 0 then lower else Some(keys[i - 1])
  }

  ghost function BoundAfter(keys: seq<Key>, upper: Option<Key>, i: nat): Option<Key>
    requires i <= |keys|
  {
    if i < |keys| then Some(keys[i]) else upper
  }

  /** What the consistency check asks of one node, given the bounds of its keys. */
  ghost predicate NodeChecks(nd: NodeData, lower: Option<Key>, upper: Option<Key>, cap: nat) {
    && !nd.Free?
    && (nd.Leaf? ==> |nd.keys| > 0)
    && (upper.None? || 2 * Entries(nd) >= Capacity(nd, cap))
    && forall i :: 0 <= i <= |nd.keys| ==>
      BoundsOrdered(BoundBefore(nd.keys, lower, i), BoundAfter(nd.keys, upper, i), nd.Leaf? && i == 0)
  }

  predicate BoundsOrdered(a: Option<Key>, b: Option<Key>, equal: bool) {
    a.Some? && b.Some? ==> if equal then a == b else a.value < b.value
  }

  /** A proper tree passes the consistency check, node by node; and its root has several sub-trees if it
      is an inner node. */
  lemma {:induction false} VerifyTree(nodes: Nodes, root: Node, levels: seq<Level>, cap: nat, l: nat, j: nat)
    requires TreeOk(nodes, root, levels, cap) && l < |levels| - 1 && j < |levels[l]|
    ensures levels[l][j].Edge? && levels[l][j].node < |nodes|
    ensures NodeChecks(nodes[levels[l][j].node], Lower(levels, l, j), levels[l][j].upper, cap)
  {
    hide ExpandAll, Offset, Distinct, Sorted, Start, KindOk, SepsOk, KeyAt;
    TreeLinks(nodes, root, levels, cap);
    assert LinkOk(nodes, levels, l, cap);
    WellShapedAt(nodes, levels[l], j, l + 2 < |levels|, cap);
    var nd, lower, upper := nodes[levels[l][j].node], Lower(levels, l, j), levels[l][j].upper;
    BoundIsKey(nodes, root, levels, cap, l, j);
    forall i | 0 <= i <= |nd.keys|
      ensures BoundsOrdered(BoundBefore(nd.keys, lower, i), BoundAfter(nd.keys, upper, i), nd.Leaf? && i == 0) {
      if nd.Inner? {
        InnerBounds(nodes, root, levels, cap, l, j, i);
      } else {
        LeafBounds(nodes, root, levels, cap, j, i);
      }
    }
  }

  lemma {:induction false} InnerBounds(nodes: Nodes, root: Node, levels: seq<Level>, cap: nat, l: nat, j: nat, i: nat)
    requires TreeOk(nodes, root, levels, cap) && l + 2 < |levels| && j < |levels[l]|
    requires levels[l][j].Edge? && levels[l][j].node < |nodes| && nodes[levels[l][j].node].Inner? &&
      i <= |nodes[levels[l][j].node].keys|
    ensures
      var nd := nodes[levels[l][j].node];
      BoundsOrdered(BoundBefore(nd.keys, Lower(levels, l, j), i), BoundAfter(nd.keys, levels[l][j].upper, i), false)
  {
    hide ExpandAll, Offset, Distinct, Start, KindOk, SepsOk, KeyAt, HalfOk;
    TreeLinks(nodes, root, levels, cap);
    assert LinkOk(nodes, levels, l, cap);
    ItemOfInner(nodes, levels[l], j, cap);
    var nd, o := nodes[levels[l][j].node], Offset(nodes, levels[l], j);
    var a, b := BoundBefore(nd.keys, Lower(levels, l, j), i), BoundAfter(nd.keys, levels[l][j].upper, i);
    if a.Some? && b.Some? {
      if i > 0 {
        InnerKey(nodes, root, levels, cap, l, j, i - 1);
      } else {
        BoundIsKey(nodes, root, levels, cap, l, j - 1);
        StartStep(nodes, levels, l, j);
      }
      if i < |nd.keys| {
        InnerKey(nodes, root, levels, cap, l, j, i);
      } else {
        BoundIsKey(nodes, root, levels, cap, l, j);
        StartStep(nodes, levels, l, j + 1);
        ExpandAround(nodes, levels[l], j);
      }
      OffsetsApart(nodes, levels[l], true, cap, j, j + 1);
      StartOrder(nodes, levels, cap, l + 1, o + i, o + i + 1);
      KeysAscend(levels, Start(nodes, levels, l + 1, o + i), Start(nodes, levels, l + 1, o + i + 1));
    }
  }

  lemma {:induction false} LeafBounds(nodes: Nodes, root: Node, levels: seq<Level>, cap: nat, j: nat, i: nat)
    requires TreeOk(nodes, root, levels, cap) && j < |levels[|levels| - 2]|
    requires
      var e := levels[|levels| - 2][j];
      e.Edge? && e.node < |nodes| && nodes[e.node].Leaf? && i <= |nodes[e.node].keys| == |nodes[e.node].vals| &&
        |nodes[e.node].keys| > 0
    ensures
      var nd := nodes[levels[|levels| - 2][j].node];
      BoundsOrdered(BoundBefore(nd.keys, Lower(levels, |levels| - 2, j), i),
        BoundAfter(nd.keys, levels[|levels| - 2][j].upper, i), i == 0)
  {
    hide ExpandAll, Offset, Distinct, Start, KindOk, SepsOk, KeyAt, HalfOk;
    var l := |levels| - 2;
    TreeLinks(nodes, root, levels, cap);
    assert LinkOk(nodes, levels, l, cap);
    var nd, o := nodes[levels[l][j].node], Offset(nodes, levels[l], j);
    ExpandAround(nodes, levels[l], j);
    ItemSize(nodes, levels[l], j, false, cap);
    StartStep(nodes, levels, l, j);
    StartStep(nodes, levels, l, j + 1);
    if i > 0 { LeafEntry(nodes, root, levels, cap, j, i - 1); }
    else if j > 0 { BoundIsKey(nodes, root, levels, cap, l, j - 1); }
    if i < |nd.keys| { LeafEntry(nodes, root, levels, cap, j, i); }
    else { BoundIsKey(nodes, root, levels, cap, l, j); }
    if i > 0 && o + i < |levels[l + 1]| { KeysAscend(levels, o + i - 1, o + i); }
  }

  lemma {:induction false} VerifyRoot(nodes: Nodes, root: Node, levels: seq<Level>, cap: nat)
    requires TreeOk(nodes, root, levels, cap)
    ensures root < |nodes| && (nodes[root].Inner? ==> |nodes[root].keys| > 0)
  {
    hide ExpandAll, Offset, Distinct, SepsOk, HalfOk;
    TreeLinks(nodes, root, levels, cap);
    assert LinkOk(nodes, levels, 0, cap);
    assert levels[0][0] == Edge(root, None);
    if |levels| > 2 {
      ExpandOne(nodes, levels[0][0]);
      ItemOfInner(nodes, levels[0], 0, cap);
    }
  }
}
