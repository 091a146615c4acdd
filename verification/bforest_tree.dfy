/** Whole trees: a prefix of node levels with the contents below it. */
module BForestTree {
  import opened Wrappers
  import opened BForestNode
  import opened BForestLevels
  import opened BForestPath
  import opened BForestEdit
  import opened BForestHeal
  import opened BForestRemove

  /** A proper tree, except that the root may be an inner node with a single sub-tree. */
  ghost predicate Almost(nodes: Nodes, root: Node, levels: seq<Level>, cap: nat) {
    && |levels| >= 2
    && var h := |levels| - 1;
    && PrefixOk(nodes, root, levels[..h], cap)
    && LeavesOk(nodes, levels[h - 1], cap)
    && levels[h] == ExpandAll(nodes, levels[h - 1])
    && Sorted(levels[h])
  }

  ghost predicate LeavesOk(nodes: Nodes, leaves: Level, cap: nat) {
    KindOk(nodes, leaves, false, cap) && HalfOk(nodes, leaves, cap) && SepsOk(nodes, leaves)
  }

  lemma {:induction false} TreeIsAlmost(nodes: Nodes, root: Node, levels: seq<Level>, cap: nat)
    requires TreeOk(nodes, root, levels, cap)
    ensures Almost(nodes, root, levels, cap)
  {
    hide ExpandAll, HalfOk, SepsOk, WellShaped;
    var lv: seq<Level> := levels[..|levels| - 1];
    assert forall l :: 0 <= l < |lv| ==> lv[l] == levels[l];
    DistinctUp(levels);
    assert KindOk(nodes, levels[|levels| - 2], false, cap);
  }

  lemma {:induction false} AlmostIsTree(nodes: Nodes, root: Node, levels: seq<Level>, cap: nat)
    requires Almost(nodes, root, levels, cap) && (|levels| > 2 ==> |levels[1]| >= 2)
    ensures TreeOk(nodes, root, levels, cap)
  {
    hide ExpandAll, HalfOk, SepsOk, KindOk, Distinct;
    var h := |levels| - 1;
    var lv: seq<Level> := levels[..h];
    assert forall l :: 0 <= l < h ==> lv[l] == levels[l];
    forall l | 0 <= l < h ensures KindOk(nodes, levels[l], l < h - 1, cap) && HalfOk(nodes, levels[l], cap) {
      assert lv[l] == levels[l];
    }
    ContentsDistinct(lv, levels[h]);
    assert levels == lv + [levels[h]];
  }

  lemma {:induction false} ContentsDistinct(lv: seq<Level>, contents: Level)
    requires Distinct(lv) && forall i :: 0 <= i < |contents| ==> contents[i].Pair?
    ensures Distinct(lv + [contents])
  {
    var levels: seq<Level> := lv + [contents];
    assert forall l :: 0 <= l < |lv| ==> levels[l] == lv[l];
  }

  /** The item list of a tree, one level at a time: its node levels followed by its contents. */
  lemma {:induction false} MakeAlmost(nodes: Nodes, root: Node, lv: seq<Level>, cap: nat)
    requires |lv| > 0 && PrefixOk(nodes, root, lv, cap) && LeavesOk(nodes, lv[|lv| - 1], cap) &&
      Sorted(ExpandAll(nodes, lv[|lv| - 1]))
    ensures Almost(nodes, root, lv + [ExpandAll(nodes, lv[|lv| - 1])], cap)
  {
    hide PrefixOk, LeavesOk, ExpandAll;
    var levels := lv + [ExpandAll(nodes, lv[|lv| - 1])];
    assert levels[..|lv|] == lv;
  }

  lemma {:induction false} SortedWithout(contents: Level, c: nat)
    requires Sorted(contents) && c < |contents|
    ensures Sorted(RemoveAt(contents, c))
  {
    var r := RemoveAt(contents, c);
    assert forall i :: 0 <= i < |r| ==> r[i] == contents[if i < c then i else i + 1];
  }

  // ---- collapsing the root ----

  /** A root with a single sub-tree: the tree below it is the tree at that sub-tree. */
  lemma {:induction false} Collapse(nodes: Nodes, root: Node, levels: seq<Level>, cap: nat)
    requires Almost(nodes, root, levels, cap) && root < |nodes| && nodes[root].Inner? && |nodes[root].keys| == 0
    ensures |levels| > 2 && |nodes[root].tree| == 1 && levels[1] == [Edge(nodes[root].tree[0], None)]
    ensures Almost(nodes, nodes[root].tree[0], levels[1..], cap)
  {
    hide SepsOk, HalfOk, Distinct, ExpandAll;
    var h := |levels| - 1;
    var lv: seq<Level> := levels[..h];
    assert lv[0] == [Edge(root, None)] && lv[0][0].node == root;
    assert h > 1;
    assert KindOk(nodes, lv[0], true, cap);
    ExpandOne(nodes, Edge(root, None));
    assert lv[1] == ExpandAll(nodes, lv[0]);
    assert ExpandItem(nodes, Edge(root, None)) == [Edge(nodes[root].tree[0], None)];
    assert levels[1..][..h - 1] == lv[1..];
    PrefixBelow(nodes, root, lv, cap, nodes[root].tree[0]);
  }

  lemma {:induction false} PrefixBelow(nodes: Nodes, root: Node, lv: seq<Level>, cap: nat, child: Node)
    requires PrefixOk(nodes, root, lv, cap) && |lv| > 1 && lv[1] == [Edge(child, None)]
    ensures PrefixOk(nodes, child, lv[1..], cap)
  {
    hide ExpandAll, KindOk, HalfOk;
    var lv': seq<Level> := lv[1..];
    assert forall l :: 0 <= l < |lv'| ==> lv'[l] == lv[l + 1];
    forall l | 0 < l < |lv'| ensures lv'[l] == ExpandAll(nodes, lv'[l - 1]) {
      assert lv[l + 1] == ExpandAll(nodes, lv[(l + 1) - 1]);
    }
    DistinctBelow(lv);
  }

  lemma {:induction false} DistinctBelow(lv: seq<Level>)
    requires Distinct(lv) && |lv| > 1
    ensures Distinct(lv[1..])
  {
    var lv': seq<Level> := lv[1..];
    assert forall l :: 0 <= l < |lv'| ==> lv'[l] == lv[l + 1];
    forall l, j, l', j' | 0 <= l < |lv'| && 0 <= l' < |lv'| && 0 <= j < |lv'[l]| && 0 <= j' < |lv'[l']| &&
      lv'[l][j].Edge? && lv'[l'][j'].Edge? && lv'[l][j].node == lv'[l'][j'].node ensures l == l' && j == j' {
      assert lv[l + 1][j] == lv'[l][j] && lv[l' + 1][j'] == lv'[l'][j'];
    }
  }

  /** The path below a root with a single sub-tree. */
  lemma {:induction false} OnPathBelow(nodes: Nodes, lv: seq<Level>, node: seq<Node>, entry: seq<nat>, pos: seq<nat>,
      node': seq<Node>, entry': seq<nat>)
    requires OnPath(nodes, lv, node, entry, pos) && |lv| > 1 && |lv[1]| == 1
    requires |lv| - 1 <= |node'| == |entry'| && forall l :: 0 <= l < |lv| - 1 ==>
      node'[l] == node[l + 1] && entry'[l] == entry[l + 1]
    ensures OnPath(nodes, lv[1..], node', entry', pos[1..]) && pos[1] == 0
  {
    hide Offset, Entries;
    var lv': seq<Level>, pos' := lv[1..], pos[1..];
    assert forall l :: 0 <= l < |lv'| ==> lv'[l] == lv[l + 1] && pos'[l] == pos[l + 1];
  }

  /** A tree is unaffected by changes to nodes that are not in it. */
  lemma {:induction false} AlmostFrame(nodes: Nodes, nodes': Nodes, root: Node, levels: seq<Level>, cap: nat)
    requires Almost(nodes, root, levels, cap) && |nodes| <= |nodes'|
    requires forall n :: 0 <= n < |nodes| && HasNode(levels, n) ==> nodes'[n] == nodes[n]
    ensures Almost(nodes', root, levels, cap)
  {
    hide PrefixOk, ExpandAll, HasNode, Sorted, WellShaped, HalfFull, Entries, SepAt;
    var h := |levels| - 1;
    var lv: seq<Level>, es := levels[..h], levels[h - 1];
    forall n | 0 <= n < |nodes| && HasNode(lv[..h - 1], n) ensures nodes'[n] == nodes[n] {
      HasNodeWithin(lv[..h - 1], levels, n);
    }
    PrefixFrame(nodes, nodes', root, lv, cap);
    forall j | 0 <= j < |es| ensures es[j].Edge? && es[j].node < |nodes| && nodes'[es[j].node] == nodes[es[j].node] {
      HasNodeAt(levels, h - 1, j);
    }
    ExpandFrame(nodes, nodes', es);
    forall j | 0 <= j < |es| - 1 ensures SepAt(nodes', es, j) {
      assert SepAt(nodes, es, j);
      SepAtFrame(nodes, nodes', es, j);
    }
  }

  lemma SepAtFrame(nodes: Nodes, nodes': Nodes, es: Level, j: nat)
    requires SepAt(nodes, es, j) && |nodes| <= |nodes'| && nodes'[es[j + 1].node] == nodes[es[j + 1].node]
    ensures SepAt(nodes', es, j)
  {
  }

  lemma {:induction false} HasNodeWithin(lv: seq<Level>, levels: seq<Level>, n: Node)
    requires HasNode(lv, n) && |lv| <= |levels| && lv == levels[..|lv|]
    ensures HasNode(levels, n)
  {
    var l, j :| 0 <= l < |lv| && 0 <= j < |lv[l]| && lv[l][j].Edge? && lv[l][j].node == n;
    assert levels[l][j] == lv[l][j];
  }
}
