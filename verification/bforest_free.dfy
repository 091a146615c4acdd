/** Freeing whole trees, and what operations on one tree mean for the others in the pool. */
module BForestFree {
  import opened BForestNode
  import opened BForestLevels
  import opened BForestPath
  import opened BForestEdit
  import opened BForestPool
  import opened BForestCursor
  import opened BForestRemove
  import opened BForestTree
  import opened BForestRemoval
  import opened BForestGrow
  import opened BForestInsert

  // ---- the nodes of a sub-tree ----

  ghost predicate AtLevel(es: Level, lo: nat, hi: nat, n: Node) {
    exists j :: lo <= j < hi && j < |es| && es[j].Edge? && es[j].node == n
  }

  /** `n` is a node of the sub-trees `lo` up to `hi` of level `l`. */
  ghost predicate Under(nodes: Nodes, levels: seq<Level>, l: nat, lo: nat, hi: nat, n: Node)
    decreases |levels| - l
  {
    && l + 1 < |levels| && lo <= hi <= |levels[l]|
    && (|| AtLevel(levels[l], lo, hi, n)
        || Under(nodes, levels, l + 1, Offset(nodes, levels[l], lo), Offset(nodes, levels[l], hi), n))
  }

  lemma {:induction false} UnderLevel(nodes: Nodes, levels: seq<Level>, l: nat, lo: nat, hi: nat,
      n: Node) returns (m: nat, j: nat)
    requires Under(nodes, levels, l, lo, hi, n)
    ensures l <= m < |levels| - 1 && j < |levels[m]| && levels[m][j].Edge? && levels[m][j].node == n &&
      (m == l ==> lo <= j < hi)
    decreases |levels| - l
  {
    hide Offset;
    if AtLevel(levels[l], lo, hi, n) {
      m := l;
      j :| lo <= j < hi && j < |levels[l]| && levels[l][j].Edge? && levels[l][j].node == n;
    } else {
      m, j := UnderLevel(nodes, levels, l + 1, Offset(nodes, levels[l], lo), Offset(nodes, levels[l], hi), n);
    }
  }

  lemma {:induction false} OffsetInside(nodes: Nodes, levels: seq<Level>, cap: nat, l: nat, lo: nat, hi: nat)
    requires l + 1 < |levels| && LinksOk(nodes, levels, 0, |levels| - 1, cap) && lo <= hi <= |levels[l]|
    ensures Offset(nodes, levels[l], lo) <= Offset(nodes, levels[l], hi) <= |levels[l + 1]|
  {
    hide Offset, KindOk, HalfOk, ExpandAll;
    assert LinkOk(nodes, levels, l, cap);
    OffsetMonotone(nodes, levels[l], lo, hi);
    OffsetMonotone(nodes, levels[l], hi, |levels[l]|);
    OffsetEnds(nodes, levels[l]);
  }

  lemma {:induction false} UnderSplit(nodes: Nodes, levels: seq<Level>, cap: nat, l: nat, lo: nat, mid: nat, hi: nat,
      n: Node)
    requires l < |levels| && LinksOk(nodes, levels, 0, |levels| - 1, cap) && lo <= mid <= hi <= |levels[l]|
    ensures Under(nodes, levels, l, lo, hi, n) <==>
      Under(nodes, levels, l, lo, mid, n) || Under(nodes, levels, l, mid, hi, n)
    decreases |levels| - l
  {
    hide Offset, LinksOk;
    if l + 1 < |levels| {
      var es := levels[l];
      assert AtLevel(es, lo, hi, n) <==> AtLevel(es, lo, mid, n) || AtLevel(es, mid, hi, n);
      OffsetInside(nodes, levels, cap, l, lo, mid);
      OffsetInside(nodes, levels, cap, l, mid, hi);
      UnderSplit(nodes, levels, cap, l + 1, Offset(nodes, es, lo), Offset(nodes, es, mid), Offset(nodes, es, hi), n);
    }
  }

  /** Different sub-trees of a tree have no node in common. */
  lemma {:induction false} UnderApart(nodes: Nodes, levels: seq<Level>, cap: nat, l: nat, a: nat, b: nat, c: nat,
      d: nat, n: Node)
    requires |levels| > 0 && LinksOk(nodes, levels, 0, |levels| - 1, cap) && Distinct(levels) && b <= c
    requires Under(nodes, levels, l, a, b, n)
    ensures !Under(nodes, levels, l, c, d, n)
    decreases |levels| - l
  {
    hide Offset, LinksOk, Distinct;
    if Under(nodes, levels, l, c, d, n) {
      var m, j := UnderLevel(nodes, levels, l, a, b, n);
      var m', j' := UnderLevel(nodes, levels, l, c, d, n);
      if m != m' || j != j' {
        NowhereElse(levels, m, j, m', j');
        assert false;
      }
      if m > l {
        OneBelow(nodes, levels, l, a, b, m, j, n);
        OneBelow(nodes, levels, l, c, d, m, j, n);
        OffsetInside(nodes, levels, cap, l, b, c);
        UnderApart(nodes, levels, cap, l + 1, Offset(nodes, levels[l], a), Offset(nodes, levels[l], b),
          Offset(nodes, levels[l], c), Offset(nodes, levels[l], d), n);
      }
    }
  }

  /** A node of a deeper level is not a node of level `l`. */
  lemma {:induction false} OneBelow(nodes: Nodes, levels: seq<Level>, l: nat, a: nat, b: nat, m: nat, j: nat, n: Node)
    requires Distinct(levels) && Under(nodes, levels, l, a, b, n) && l < m < |levels| && j < |levels[m]| &&
      levels[m][j].Edge? && levels[m][j].node == n
    ensures Under(nodes, levels, l + 1, Offset(nodes, levels[l], a), Offset(nodes, levels[l], b), n)
  {
    hide Offset, Distinct;
    forall i | a <= i < b && i < |levels[l]| && levels[l][i].Edge? ensures levels[l][i].node != n {
      NowhereElse(levels, m, j, l, i);
    }
  }

  /** All nodes of a tree are under its root. */
  lemma {:induction false} UnderRoot(nodes: Nodes, levels: seq<Level>, cap: nat, l: nat, m: nat, j: nat)
    requires |levels| > 0 && LinksOk(nodes, levels, 0, |levels| - 1, cap) && l <= m < |levels| - 1 && j < |levels[m]| &&
      levels[m][j].Edge?
    ensures Under(nodes, levels, l, 0, |levels[l]|, levels[m][j].node)
    decreases |levels| - l
  {
    hide Offset, KindOk, HalfOk, ExpandAll;
    if l == m {
      assert AtLevel(levels[l], 0, |levels[l]|, levels[m][j].node);
    } else {
      assert LinkOk(nodes, levels, l, cap);
      OffsetEnds(nodes, levels[l]);
      UnderRoot(nodes, levels, cap, l + 1, m, j);
    }
  }

  lemma {:induction false} TreeUnder(nodes: Nodes, root: Node, levels: seq<Level>, cap: nat, n: Node)
    requires TreeOk(nodes, root, levels, cap)
    ensures Under(nodes, levels, 0, 0, 1, n) <==> HasNode(levels, n)
  {
    hide ExpandAll, KindOk, HalfOk, SepsOk, Distinct, Under;
    TreeLinks(nodes, root, levels, cap);
    if HasNode(levels, n) {
      var m, j :| 0 <= m < |levels| && 0 <= j < |levels[m]| && levels[m][j].Edge? && levels[m][j].node == n;
      UnderRoot(nodes, levels, cap, 0, m, j);
    }
    if Under(nodes, levels, 0, 0, 1, n) {
      var m, j := UnderLevel(nodes, levels, 0, 0, 1, n);
    }
  }

  // ---- freeing ----

  ghost predicate AgreeUnder(nodes0: Nodes, nodes: Nodes, levels: seq<Level>, l: nat, lo: nat, hi: nat) {
    |nodes| == |nodes0| && forall n :: 0 <= n < |nodes0| && Under(nodes0, levels, l, lo, hi, n) ==>
      nodes[n] == nodes0[n]
  }

  /** Exactly the nodes of the sub-trees `lo` up to `hi` of level `l` have been freed. */
  ghost predicate FreedUnder(nodes0: Nodes, nodes: Nodes, nodes': Nodes, levels: seq<Level>, l: nat, lo: nat, hi: nat) {
    && |nodes'| == |nodes| == |nodes0|
    && (forall n :: 0 <= n < |nodes| && Under(nodes0, levels, l, lo, hi, n) ==> nodes'[n].Free?)
    && (forall n :: 0 <= n < |nodes| && !Under(nodes0, levels, l, lo, hi, n) ==> nodes'[n] == nodes[n])
  }

  lemma {:induction false} FreedNone(nodes0: Nodes, nodes: Nodes, levels: seq<Level>, l: nat, lo: nat)
    requires |nodes| == |nodes0|
    ensures FreedUnder(nodes0, nodes, nodes, levels, l, lo, lo)
  {
    hide Under;
    forall n | 0 <= n < |nodes| ensures !Under(nodes0, levels, l, lo, lo, n) {
      NothingUnder(nodes0, levels, l, lo, n);
    }
  }

  lemma {:induction false} NothingUnder(nodes: Nodes, levels: seq<Level>, l: nat, lo: nat, n: Node)
    ensures !Under(nodes, levels, l, lo, lo, n)
    decreases |levels| - l
  {
    hide Offset;
    if l + 1 < |levels| && lo <= |levels[l]| { NothingUnder(nodes, levels, l + 1, Offset(nodes, levels[l], lo), n); }
  }

  lemma {:induction false} FreedMore(nodes0: Nodes, nodes: Nodes, nodes1: Nodes, nodes2: Nodes, levels: seq<Level>,
      cap: nat, l: nat, lo: nat, mid: nat, hi: nat)
    requires |levels| > 0 && LinksOk(nodes0, levels, 0, |levels| - 1, cap) && Distinct(levels) && l < |levels| &&
      lo <= mid <= hi <= |levels[l]|
    requires FreedUnder(nodes0, nodes, nodes1, levels, l, lo, mid) &&
      FreedUnder(nodes0, nodes1, nodes2, levels, l, mid, hi)
    ensures FreedUnder(nodes0, nodes, nodes2, levels, l, lo, hi)
  {
    hide Under, LinksOk, Distinct;
    forall n | 0 <= n < |nodes|
      ensures if Under(nodes0, levels, l, lo, hi, n) then nodes2[n].Free? else nodes2[n] == nodes[n] {
      UnderSplit(nodes0, levels, cap, l, lo, mid, hi, n);
      if Under(nodes0, levels, l, lo, mid, n) { UnderApart(nodes0, levels, cap, l, lo, mid, mid, hi, n); }
    }
  }

  lemma {:induction false} AgreeBelow(nodes0: Nodes, nodes: Nodes, nodes1: Nodes, levels: seq<Level>, cap: nat, l: nat,
      j: nat, o: nat, mid: nat, hi: nat)
    requires |levels| > 0 && LinksOk(nodes0, levels, 0, |levels| - 1, cap) && Distinct(levels) && l + 2 < |levels| &&
      j < |levels[l]|
    requires o == Offset(nodes0, levels[l], j) <= mid <= hi <= Offset(nodes0, levels[l], j + 1)
    requires AgreeUnder(nodes0, nodes, levels, l, j, j + 1) && FreedUnder(nodes0, nodes, nodes1, levels, l + 1, o, mid)
    ensures AgreeUnder(nodes0, nodes1, levels, l + 1, mid, hi)
  {
    hide Under, LinksOk, Distinct, Offset;
    OffsetInside(nodes0, levels, cap, l, j, j + 1);
    forall n | 0 <= n < |nodes0| && Under(nodes0, levels, l + 1, mid, hi, n) ensures nodes1[n] == nodes0[n] {
      if Under(nodes0, levels, l + 1, o, mid, n) { UnderApart(nodes0, levels, cap, l + 1, o, mid, mid, hi, n); }
      UnderSplit(nodes0, levels, cap, l + 1, o, mid, hi, n);
      UnderSplit(nodes0, levels, cap, l + 1, o, hi, Offset(nodes0, levels[l], j + 1), n);
      UnderStep(nodes0, levels, l, j, j + 1, n);
    }
  }

  lemma UnderStep(nodes: Nodes, levels: seq<Level>, l: nat, lo: nat, hi: nat, n: Node)
    requires l + 1 < |levels| && lo <= hi <= |levels[l]|
    ensures Under(nodes, levels, l, lo, hi, n) <==>
      || AtLevel(levels[l], lo, hi, n)
      || Under(nodes, levels, l + 1, Offset(nodes, levels[l], lo), Offset(nodes, levels[l], hi), n)
  {
    hide Offset;
  }

  /** With the sub-trees gone, freeing the node itself completes the job. */
  lemma {:induction false} FreedTop(nodes0: Nodes, nodes: Nodes, nodes1: Nodes, levels: seq<Level>, cap: nat, l: nat,
      j: nat, data: NodeData)
    requires |levels| > 0 && LinksOk(nodes0, levels, 0, |levels| - 1, cap) && Distinct(levels) && l + 1 < |levels| &&
      j < |levels[l]|
    requires levels[l][j].Edge? && levels[l][j].node < |nodes0| && data.Free?
    requires FreedUnder(nodes0, nodes, nodes1, levels, l + 1, Offset(nodes0, levels[l], j),
      Offset(nodes0, levels[l], j + 1))
    ensures levels[l][j].node < |nodes1| && nodes1[levels[l][j].node] == nodes[levels[l][j].node]
    ensures FreedUnder(nodes0, nodes, nodes1[levels[l][j].node := data], levels, l, j, j + 1)
  {
    hide Under, LinksOk, Distinct, Offset;
    var top := levels[l][j].node;
    var o, o' := Offset(nodes0, levels[l], j), Offset(nodes0, levels[l], j + 1);
    if Under(nodes0, levels, l + 1, o, o', top) {
      var m, i := UnderLevel(nodes0, levels, l + 1, o, o', top);
      NowhereElse(levels, l, j, m, i);
      assert false;
    }
    forall n | 0 <= n < |nodes| ensures
      if Under(nodes0, levels, l, j, j + 1, n) then nodes1[top := data][n].Free? else nodes1[top := data][n] == nodes[n]
    {
      UnderStep(nodes0, levels, l, j, j + 1, n);
      assert AtLevel(levels[l], j, j + 1, n) <==> n == top;
    }
  }

  /** Frees the tree below `node`, sub-trees first. */
  method FreeTree(pool: Pool, node: Node, ghost nodes0: Nodes, ghost root: Node, ghost levels: seq<Level>, ghost l: nat,
      ghost j: nat, ghost cap: nat)
    requires pool.Valid() && TreeOk(nodes0, root, levels, cap) && l + 1 < |levels| && j < |levels[l]|
    requires levels[l][j].Edge? && levels[l][j].node == node && AgreeUnder(nodes0, pool.nodes, levels, l, j, j + 1)
    modifies pool
    ensures pool.Valid() && FreedUnder(nodes0, old(pool.nodes), pool.nodes, levels, l, j, j + 1)
    decreases |levels| - l
  {
    hide PoolOk, NextFree, TreeOk, Under, LinksOk, Distinct, Offset, AgreeUnder, FreedUnder, WellShaped, Entries,
      ExpandAll;
    TreeDistinct(nodes0, root, levels, cap);
    NodeHere(nodes0, pool.nodes, root, levels, cap, l, j);
    ghost var nodes1, o, o' := pool.nodes, Offset(nodes0, levels[l], j), Offset(nodes0, levels[l], j + 1);
    if pool.nodes[node].Inner? {
      var tree := pool.nodes[node].tree;
      FreedNone(nodes0, nodes1, levels, l + 1, o);
      for i := 0 to |tree|
        invariant pool.Valid() && FreedUnder(nodes0, nodes1, pool.nodes, levels, l + 1, o, o + i)
      {
        ChildHere(nodes0, root, levels, cap, l, j, i);
        AgreeBelow(nodes0, nodes1, pool.nodes, levels, cap, l, j, o, o + i, o + i + 1);
        ghost var nodes2 := pool.nodes;
        FreeTree(pool, tree[i], nodes0, root, levels, l + 1, o + i, cap);
        FreedMore(nodes0, nodes1, nodes2, pool.nodes, levels, cap, l + 1, o, o + i, o + i + 1);
      }
    } else {
      LeafBelow(nodes0, nodes1, levels, l + 1, o, o');
    }
    FreedTop(nodes0, nodes1, pool.nodes, levels, cap, l, j, Free(pool.freelist));
    pool.FreeNode(node);
  }

  lemma TreeDistinct(nodes: Nodes, root: Node, levels: seq<Level>, cap: nat)
    requires TreeOk(nodes, root, levels, cap)
    ensures |levels| >= 2 && LinksOk(nodes, levels, 0, |levels| - 1, cap) && Distinct(levels)
  {
    hide LinksOk, Distinct, KindOk, HalfOk, ExpandAll, SepsOk, Sorted;
    TreeLinks(nodes, root, levels, cap);
  }

  lemma {:induction false} NodeHere(nodes0: Nodes, nodes: Nodes, root: Node, levels: seq<Level>, cap: nat, l: nat,
      j: nat)
    requires TreeOk(nodes0, root, levels, cap) && l + 1 < |levels| && j < |levels[l]| && levels[l][j].Edge? &&
      AgreeUnder(nodes0, nodes, levels, l, j, j + 1)
    ensures |nodes| == |nodes0| && levels[l][j].node < |nodes0| &&
      nodes[levels[l][j].node] == nodes0[levels[l][j].node] && !nodes0[levels[l][j].node].Free?
    ensures nodes0[levels[l][j].node].Inner? == (l + 2 < |levels|)
    ensures nodes0[levels[l][j].node].Inner? ==>
      Offset(nodes0, levels[l], j + 1) == Offset(nodes0, levels[l], j) + |nodes0[levels[l][j].node].tree|
  {
    hide Offset, LinksOk, Distinct, KindOk, HalfOk, ExpandAll, SepsOk, Sorted, LinkOk;
    TreeLinks(nodes0, root, levels, cap);
    assert LinkOk(nodes0, levels, l, cap) by { LinkFrom(nodes0, levels, cap, l); }
    LinkKind(nodes0, levels, l, cap);
    WellShapedAt(nodes0, levels[l], j, l + 2 < |levels|, cap);
    ExpandAround(nodes0, levels[l], j);
    if l + 2 < |levels| { ItemOfInner(nodes0, levels[l], j, cap); }
    assert AtLevel(levels[l], j, j + 1, levels[l][j].node);
    assert Under(nodes0, levels, l, j, j + 1, levels[l][j].node);
  }

  lemma LinkFrom(nodes: Nodes, levels: seq<Level>, cap: nat, l: nat)
    requires |levels| > 0 && LinksOk(nodes, levels, 0, |levels| - 1, cap) && l + 1 < |levels|
    ensures LinkOk(nodes, levels, l, cap)
  {
  }

  lemma {:induction false} ChildHere(nodes: Nodes, root: Node, levels: seq<Level>, cap: nat, l: nat, j: nat, i: nat)
    requires TreeOk(nodes, root, levels, cap) && l + 2 < |levels| && j < |levels[l]| && levels[l][j].Edge? &&
      levels[l][j].node < |nodes|
    requires nodes[levels[l][j].node].Inner? && i < |nodes[levels[l][j].node].tree|
    ensures
      var q := Offset(nodes, levels[l], j) + i;
      && q < |levels[l + 1]| && levels[l + 1][q].Edge? && levels[l + 1][q].node == nodes[levels[l][j].node].tree[i]
      && Offset(nodes, levels[l], j + 1) == Offset(nodes, levels[l], j) + |nodes[levels[l][j].node].tree|
  {
    hide Offset, LinksOk, Distinct, KindOk, HalfOk, ExpandAll, SepsOk, Sorted, LinkOk, ExpandItem;
    TreeLinks(nodes, root, levels, cap);
    LinkFrom(nodes, levels, cap, l);
    LinkKind(nodes, levels, l, cap);
    ExpandAround(nodes, levels[l], j);
    ItemOfInner(nodes, levels[l], j, cap);
    ExpandIndex(nodes, levels[l], j, i);
  }

  lemma {:induction false} LeafBelow(nodes0: Nodes, nodes: Nodes, levels: seq<Level>, l: nat, lo: nat, hi: nat)
    requires l + 1 >= |levels| && |nodes| == |nodes0|
    ensures FreedUnder(nodes0, nodes, nodes, levels, l, lo, hi)
  {
  }

  // ---- the other trees of the pool ----

  /** From `nodes` to `nodes'`, the tree with node levels `levels` has become `levels'`, touching and
      taking only its own nodes and free ones, and losing none. */
  ghost predicate Footprint(nodes: Nodes, nodes': Nodes, levels: seq<Level>, levels': seq<Level>) {
    && |nodes| <= |nodes'|
    && (forall n :: 0 <= n < |nodes| && !nodes[n].Free? && !HasNode(levels, n) ==> nodes'[n] == nodes[n])
    && (forall n: Node :: HasNode(levels', n) && n < |nodes| && !nodes[n].Free? ==> HasNode(levels, n))
    && NoneLost(nodes, nodes', levels, levels')
  }

  ghost predicate Disjoint(levels: seq<Level>, levels': seq<Level>) {
    forall n: Node :: !(HasNode(levels, n) && HasNode(levels', n))
  }

  lemma GrowthFootprint(nodes: Nodes, nodes': Nodes, levels: seq<Level>, levels': seq<Level>)
    requires GrowsWithin(nodes, nodes', levels, levels')
    ensures Footprint(nodes, nodes', levels, levels')
  {
    hide HasNode;
  }

  lemma ShrinkFootprint(nodes: Nodes, nodes': Nodes, levels: seq<Level>, levels': seq<Level>)
    requires OnlyWithin(nodes, nodes', levels) && NodesWithin(levels, levels') && Freed(nodes', levels, levels')
    ensures Footprint(nodes, nodes', levels, levels')
  {
    hide HasNode;
  }

  lemma {:induction false} FootprintTrans(nodes: Nodes, nodes1: Nodes, nodes2: Nodes, levels: seq<Level>,
      levels1: seq<Level>, levels2: seq<Level>)
    requires Footprint(nodes, nodes1, levels, levels1) && Footprint(nodes1, nodes2, levels1, levels2)
    ensures Footprint(nodes, nodes2, levels, levels2)
  {
    hide HasNode;
  }

  /** The nodes of a tree are in use. */
  lemma {:induction false} TreeLive(nodes: Nodes, root: Node, levels: seq<Level>, cap: nat, n: Node)
    requires TreeOk(nodes, root, levels, cap) && HasNode(levels, n)
    ensures n < |nodes| && !nodes[n].Free?
  {
    hide Distinct, HalfOk, SepsOk, ExpandAll, Chain;
    var l, j :| 0 <= l < |levels| && 0 <= j < |levels[l]| && levels[l][j].Edge? && levels[l][j].node == n;
    assert l < |levels| - 1;
    assert KindOk(nodes, levels[l], l < |levels| - 2, cap);
  }

  /** Whatever happens to one tree, every tree disjoint from it is still there, unchanged and disjoint. */
  lemma {:induction false} OthersSurvive(nodes: Nodes, nodes': Nodes, levels: seq<Level>, levels': seq<Level>,
      root2: Node, levels2: seq<Level>, cap: nat)
    requires Footprint(nodes, nodes', levels, levels') && Disjoint(levels, levels2) &&
      TreeOk(nodes, root2, levels2, cap)
    ensures TreeOk(nodes', root2, levels2, cap) && Disjoint(levels', levels2)
  {
    hide HasNode, TreeOk, Almost;
    forall n: Node ensures !(HasNode(levels', n) && HasNode(levels2, n)) {
      if HasNode(levels2, n) { TreeLive(nodes, root2, levels2, cap, n); }
    }
    TreeIsAlmost(nodes, root2, levels2, cap);
    forall n | 0 <= n < |nodes| && HasNode(levels2, n) ensures nodes'[n] == nodes[n] {
      TreeLive(nodes, root2, levels2, cap, n);
    }
    AlmostFrame(nodes, nodes', root2, levels2, cap);
    TreeTop(nodes, root2, levels2, cap);
    AlmostIsTree(nodes', root2, levels2, cap);
  }

  lemma TreeTop(nodes: Nodes, root: Node, levels: seq<Level>, cap: nat)
    requires TreeOk(nodes, root, levels, cap)
    ensures |levels| >= 2 && (|levels| > 2 ==> |levels[1]| >= 2) && HasNode(levels, root)
  {
    hide Distinct, HalfOk, SepsOk, ExpandAll, KindOk;
    HasNodeAt(levels, 0, 0);
  }

  /** Freeing a whole tree leaves exactly its nodes free. */
  lemma {:induction false} FreedTree(nodes: Nodes, nodes': Nodes, root: Node, levels: seq<Level>, cap: nat)
    requires TreeOk(nodes, root, levels, cap) && FreedUnder(nodes, nodes, nodes', levels, 0, 0, 1)
    ensures Footprint(nodes, nodes', levels, []) && |nodes'| == |nodes|
    ensures forall n :: 0 <= n < |nodes| && HasNode(levels, n) ==> nodes'[n].Free?
  {
    hide HasNode, TreeOk, Under;
    forall n | 0 <= n < |nodes| ensures Under(nodes, levels, 0, 0, 1, n) <==>
      HasNode(levels, n) { TreeUnder(nodes, root, levels, cap, n); }
    forall n: Node ensures !HasNode([], n) { EmptyHas(n); }
  }

  lemma EmptyHas(n: Node)
    ensures !HasNode([], n)
  {
  }
}
