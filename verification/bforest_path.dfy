/** Paths from the root to a position, and the neighbours of the nodes on them. */
module BForestPath {
  import opened Wrappers
  import opened BForestNode
  import opened BForestLevels

  /** Path length that the path arrays have room for. */
  const MAX_PATH: nat := 16

  /** Every level but the last is made of proper inner nodes. */
  ghost predicate UpperOk(nodes: Nodes, root: Node, lv: seq<Level>, cap: nat) {
    && Chain(nodes, root, lv)
    && forall l :: 0 <= l < |lv| - 1 ==> KindOk(nodes, lv[l], true, cap)
  }

  /** The path visits, on each level `l`, item `pos[l]`, and leaves it through entry `entry[l]`. */
  ghost predicate OnPath(nodes: Nodes, lv: seq<Level>, node: seq<Node>, entry: seq<nat>, pos: seq<nat>) {
    && 0 < |lv| == |pos| <= |node| == |entry|
    && pos[0] == 0
    && (forall l :: 0 <= l < |lv| ==> pos[l] < |lv[l]| && lv[l][pos[l]].Edge? && lv[l][pos[l]].node == node[l])
    && (forall l :: 0 <= l < |lv| - 1 ==>
      && node[l] < |nodes| && entry[l] < Entries(nodes[node[l]])
      && pos[l + 1] == Offset(nodes, lv[l], pos[l]) + entry[l])
  }

  /** What a level knows about the item of an inner node: its entries are its sub-trees. */
  lemma ItemOfInner(nodes: Nodes, es: Level, j: nat, cap: nat)
    requires KindOk(nodes, es, true, cap) && j < |es|
    ensures es[j].Edge? && es[j].node < |nodes| && nodes[es[j].node].Inner?
    ensures
      var nd := nodes[es[j].node];
      && |nd.tree| == |nd.keys| + 1 == Entries(nd)
      && |ExpandItem(nodes, es[j])| == |nd.tree|
      && forall i :: 0 <= i < |nd.tree| ==>
        ExpandItem(nodes, es[j])[i] == Edge(nd.tree[i], if i < |nd.keys| then Some(nd.keys[i]) else es[j].upper)
  {
  }

  /** The neighbour to the right, one level down. */
  lemma {:induction false} RightNeighbour(nodes: Nodes, root: Node, lv: seq<Level>, node: seq<Node>, entry: seq<nat>,
      pos: seq<nat>, cap: nat, l: nat)
    requires UpperOk(nodes, root, lv, cap) && OnPath(nodes, lv, node, entry, pos) && l < |lv| - 1
    ensures node[l] < |nodes| && nodes[node[l]].Inner? && |nodes[node[l]].tree| == |nodes[node[l]].keys| + 1
    ensures entry[l] < |nodes[node[l]].keys| ==>
      && pos[l + 1] + 1 < |lv[l + 1]|
      && lv[l + 1][pos[l + 1] + 1].Edge? && lv[l + 1][pos[l + 1] + 1].node == nodes[node[l]].tree[entry[l] + 1]
      && lv[l + 1][pos[l + 1]].Edge? && lv[l + 1][pos[l + 1]].upper == Some(nodes[node[l]].keys[entry[l]])
    ensures entry[l] == |nodes[node[l]].keys| && pos[l] + 1 < |lv[l]| ==>
      && pos[l + 1] + 1 < |lv[l + 1]|
      && lv[l][pos[l] + 1].Edge? && lv[l][pos[l] + 1].node < |nodes| && nodes[lv[l][pos[l] + 1].node].Inner?
      && |nodes[lv[l][pos[l] + 1].node].tree| > 0
      && lv[l + 1][pos[l + 1] + 1].Edge? && lv[l + 1][pos[l + 1] + 1].node == nodes[lv[l][pos[l] + 1].node].tree[0]
      && pos[l + 1] + 1 == Offset(nodes, lv[l], pos[l] + 1)
    ensures entry[l] == |nodes[node[l]].keys| ==>
      lv[l + 1][pos[l + 1]].Edge? && lv[l + 1][pos[l + 1]].upper == lv[l][pos[l]].upper
    ensures entry[l] == |nodes[node[l]].keys| && pos[l] + 1 == |lv[l]| ==> pos[l + 1] + 1 == |lv[l + 1]|
  {
    hide ExpandAll, Offset, ExpandItem, WellShaped, Entries;
    var es, p := lv[l], pos[l];
    assert lv[l + 1] == ExpandAll(nodes, es);
    ItemOfInner(nodes, es, p, cap);
    ExpandIndex(nodes, es, p, entry[l]);
    ExpandAround(nodes, es, p);
    if entry[l] < |nodes[node[l]].keys| {
      ExpandIndex(nodes, es, p, entry[l] + 1);
    } else if p + 1 < |es| {
      ItemOfInner(nodes, es, p + 1, cap);
      ExpandIndex(nodes, es, p + 1, 0);
    } else {
      OffsetEnds(nodes, es);
    }
  }

  /** The neighbour to the left, one level down. */
  lemma {:induction false} LeftNeighbour(nodes: Nodes, root: Node, lv: seq<Level>, node: seq<Node>, entry: seq<nat>,
      pos: seq<nat>, cap: nat, l: nat)
    requires UpperOk(nodes, root, lv, cap) && OnPath(nodes, lv, node, entry, pos) && l < |lv| - 1
    ensures node[l] < |nodes| && nodes[node[l]].Inner? && |nodes[node[l]].tree| == |nodes[node[l]].keys| + 1
    ensures entry[l] > 0 ==>
      && 0 < pos[l + 1] && entry[l] - 1 < |nodes[node[l]].keys|
      && lv[l + 1][pos[l + 1] - 1].Edge? && lv[l + 1][pos[l + 1] - 1].upper == Some(nodes[node[l]].keys[entry[l] - 1])
    ensures entry[l] == 0 && pos[l] > 0 ==>
      && 0 < pos[l + 1] && lv[l][pos[l] - 1].Edge?
      && lv[l + 1][pos[l + 1] - 1].Edge? && lv[l + 1][pos[l + 1] - 1].upper == lv[l][pos[l] - 1].upper
      && pos[l + 1] == Offset(nodes, lv[l], pos[l])
    ensures entry[l] == 0 && pos[l] == 0 ==> pos[l + 1] == 0
  {
    hide ExpandAll, Offset, ExpandItem, WellShaped, Entries;
    var es, p := lv[l], pos[l];
    assert lv[l + 1] == ExpandAll(nodes, es);
    ItemOfInner(nodes, es, p, cap);
    if entry[l] > 0 {
      ExpandIndex(nodes, es, p, entry[l] - 1);
    } else if p > 0 {
      ItemOfInner(nodes, es, p - 1, cap);
      assert Entries(nodes[es[p - 1].node]) > 0;
      ExpandIndex(nodes, es, p - 1, |nodes[es[p - 1].node].tree| - 1);
      ExpandAround(nodes, es, p - 1);
    } else {
      OffsetEnds(nodes, es);
    }
  }

  /** `bl` is the deepest level above `|lv| - 1` where the path does not take the last branch. */
  ghost predicate RightBranch(nodes: Nodes, node: seq<Node>, entry: seq<nat>, level: nat, bl: Option<nat>)
    requires level <= |node| == |entry|
  {
    match bl
    case None => forall l :: 0 <= l < level ==>
      node[l] < |nodes| && nodes[node[l]].Inner? && entry[l] >= |nodes[node[l]].keys|
    case Some(b) =>
      && b < level && node[b] < |nodes| && nodes[node[b]].Inner? && entry[b] < |nodes[node[b]].keys|
      && forall l :: b < l < level ==> node[l] < |nodes| && nodes[node[l]].Inner? && entry[l] >= |nodes[node[l]].keys|
  }

  ghost predicate LeftBranch(entry: seq<nat>, level: nat, bl: Option<nat>)
    requires level <= |entry|
  {
    match bl
    case None => forall l :: 0 <= l < level ==> entry[l] == 0
    case Some(b) => b < level && entry[b] != 0 && forall l :: b < l < level ==> entry[l] == 0
  }

  lemma {:induction false} RightBranchNone(nodes: Nodes, root: Node, lv: seq<Level>, node: seq<Node>, entry: seq<nat>,
      pos: seq<nat>, cap: nat, l: nat)
    requires UpperOk(nodes, root, lv, cap) && OnPath(nodes, lv, node, entry, pos) && l < |lv|
    requires RightBranch(nodes, node, entry, |lv| - 1, None)
    ensures pos[l] + 1 == |lv[l]|
  {
    hide ExpandAll, Offset, KindOk, Entries;
    if l > 0 {
      RightBranchNone(nodes, root, lv, node, entry, pos, cap, l - 1);
      EntryInRange(nodes, root, lv, node, entry, pos, cap, l - 1);
      RightNeighbour(nodes, root, lv, node, entry, pos, cap, l - 1);
    }
  }

  lemma EntryInRange(nodes: Nodes, root: Node, lv: seq<Level>, node: seq<Node>, entry: seq<nat>, pos: seq<nat>,
      cap: nat, l: nat)
    requires UpperOk(nodes, root, lv, cap) && OnPath(nodes, lv, node, entry, pos) && l < |lv| - 1
    ensures node[l] < |nodes| && nodes[node[l]].Inner? && entry[l] <= |nodes[node[l]].keys| &&
      |nodes[node[l]].tree| == |nodes[node[l]].keys| + 1 <= INNER_SIZE
  {
    hide ExpandAll, Offset;
    assert KindOk(nodes, lv[l], true, cap);
  }

  /** Below the branch level, the node on the path has a right neighbour, separated from it by the
      branch node's key; the neighbours descend from one another through first sub-trees. */
  lemma {:induction false} RightBranchSome(nodes: Nodes, root: Node, lv: seq<Level>, node: seq<Node>, entry: seq<nat>,
      pos: seq<nat>, cap: nat, b: nat, l: nat)
    requires UpperOk(nodes, root, lv, cap) && OnPath(nodes, lv, node, entry, pos) && b < l < |lv|
    requires RightBranch(nodes, node, entry, |lv| - 1, Some(b))
    ensures pos[l] + 1 < |lv[l]| && lv[l][pos[l] + 1].Edge?
    ensures lv[l][pos[l]].upper == Some(nodes[node[b]].keys[entry[b]])
    ensures l == b + 1 ==>
      entry[b] + 1 < |nodes[node[b]].tree| && lv[l][pos[l] + 1].node == nodes[node[b]].tree[entry[b] + 1]
  {
    hide ExpandAll, Offset, KindOk, Entries;
    EntryInRange(nodes, root, lv, node, entry, pos, cap, l - 1);
    RightNeighbour(nodes, root, lv, node, entry, pos, cap, l - 1);
    if l > b + 1 {
      RightBranchSome(nodes, root, lv, node, entry, pos, cap, b, l - 1);
    }
  }

  lemma {:induction false} LeftBranchNone(nodes: Nodes, root: Node, lv: seq<Level>, node: seq<Node>, entry: seq<nat>,
      pos: seq<nat>, cap: nat, l: nat)
    requires UpperOk(nodes, root, lv, cap) && OnPath(nodes, lv, node, entry, pos) && l < |lv|
    requires LeftBranch(entry, |lv| - 1, None)
    ensures pos[l] == 0
  {
    hide ExpandAll, Offset, KindOk, Entries;
    if l > 0 {
      LeftBranchNone(nodes, root, lv, node, entry, pos, cap, l - 1);
      LeftNeighbour(nodes, root, lv, node, entry, pos, cap, l - 1);
    }
  }

  lemma {:induction false} LeftBranchSome(nodes: Nodes, root: Node, lv: seq<Level>, node: seq<Node>, entry: seq<nat>,
      pos: seq<nat>, cap: nat, b: nat, l: nat)
    requires UpperOk(nodes, root, lv, cap) && OnPath(nodes, lv, node, entry, pos) && b < l < |lv|
    requires LeftBranch(entry, |lv| - 1, Some(b))
    ensures node[b] < |nodes| && nodes[node[b]].Inner? && entry[b] - 1 < |nodes[node[b]].keys|
    ensures 0 < pos[l] && lv[l][pos[l] - 1].Edge? && lv[l][pos[l] - 1].upper == Some(nodes[node[b]].keys[entry[b] - 1])
  {
    hide ExpandAll, Offset, KindOk, Entries;
    LeftNeighbour(nodes, root, lv, node, entry, pos, cap, l - 1);
    if l > b + 1 {
      LeftBranchSome(nodes, root, lv, node, entry, pos, cap, b, l - 1);
    }
  }
}
