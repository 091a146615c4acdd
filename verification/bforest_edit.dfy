/** How local changes to nodes change the levels of a tree. */
module BForestEdit {
  import opened Wrappers
  import opened BForestNode
  import opened BForestLevels
  import opened BForestPath

  /** All levels but the last are in order; nothing is said about the nodes of the last. */
  ghost predicate PrefixOk(nodes: Nodes, root: Node, lv: seq<Level>, cap: nat) {
    && UpperOk(nodes, root, lv, cap)
    && Distinct(lv)
    && (forall l :: 0 <= l < |lv| - 1 ==> HalfOk(nodes, lv[l], cap))
    && AllEdges(nodes, lv[|lv| - 1])
  }

  ghost predicate AllEdges(nodes: Nodes, es: Level) {
    forall j :: 0 <= j < |es| ==> es[j].Edge? && es[j].node < |nodes|
  }

  function SetUpper(es: Level, q: nat, k: Option<Key>): (r: Level)
    requires q < |es| && es[q].Edge?
  {
    es[q := Edge(es[q].node, k)]
  }

  /** Splicing a level: what is outside the replaced stretch expands as before. */
  lemma {:induction false} ExpandSplice(nodes: Nodes, nodes': Nodes, a: Level, mid: Level, mid': Level, b: Level)
    requires |nodes| <= |nodes'|
    requires forall j :: 0 <= j < |a| && a[j].Edge? ==> a[j].node < |nodes| && nodes'[a[j].node] == nodes[a[j].node]
    requires forall j :: 0 <= j < |b| && b[j].Edge? ==> b[j].node < |nodes| && nodes'[b[j].node] == nodes[b[j].node]
    ensures ExpandAll(nodes', a + mid' + b) == ExpandAll(nodes, a) + ExpandAll(nodes', mid') + ExpandAll(nodes, b)
    ensures ExpandAll(nodes, a + mid + b) == ExpandAll(nodes, a) + ExpandAll(nodes, mid) + ExpandAll(nodes, b)
  {
    hide ExpandAll;
    ExpandAppend(nodes', a + mid', b);
    ExpandAppend(nodes', a, mid');
    ExpandAppend(nodes, a + mid, b);
    ExpandAppend(nodes, a, mid);
    ExpandFrame(nodes, nodes', a);
    ExpandFrame(nodes, nodes', b);
  }

  /** Only items `lo` up to `hi` of a level may refer to changed nodes. */
  ghost predicate UnchangedOutside(nodes: Nodes, nodes': Nodes, es: Level, lo: nat, hi: nat) {
    && |nodes| <= |nodes'|
    && forall j :: 0 <= j < |es| && !(lo <= j < hi) && es[j].Edge? ==>
      es[j].node < |nodes| && nodes'[es[j].node] == nodes[es[j].node]
  }

  lemma {:induction false} ReplaceInLevel(nodes: Nodes, nodes': Nodes, es: Level, lo: nat, hi: nat, mid': Level)
    requires lo <= hi <= |es| && UnchangedOutside(nodes, nodes', es, lo, hi)
    ensures ExpandAll(nodes', es[..lo] + mid' + es[hi..]) ==
      ExpandAll(nodes, es[..lo]) + ExpandAll(nodes', mid') + ExpandAll(nodes, es[hi..])
    ensures ExpandAll(nodes, es) ==
      ExpandAll(nodes, es[..lo]) + ExpandAll(nodes, es[lo..hi]) + ExpandAll(nodes, es[hi..])
  {
    hide ExpandAll;
    assert es == es[..lo] + es[lo..hi] + es[hi..];
    forall j | 0 <= j < |es[hi..]| && es[hi..][j].Edge?
      ensures es[hi..][j].node < |nodes| && nodes'[es[hi..][j].node] == nodes[es[hi..][j].node]
    {
      assert es[hi..][j] == es[hi + j];
    }
    ExpandSplice(nodes, nodes', es[..lo], es[lo..hi], mid', es[hi..]);
  }

  /** Changing one node of a level changes exactly its own stretch of the level below. */
  lemma {:induction false} ChangeNode(nodes: Nodes, nodes': Nodes, es: Level, g: nat)
    requires g < |es| && es[g].Edge? && UnchangedOutside(nodes, nodes', es, g, g + 1)
    ensures ExpandAll(nodes', es) ==
      ExpandAll(nodes, es[..g]) + ExpandItem(nodes', es[g]) + ExpandAll(nodes, es[g + 1..])
    ensures Offset(nodes', es, g) == Offset(nodes, es, g)
  {
    hide ExpandAll, ExpandItem;
    ReplaceInLevel(nodes, nodes', es, g, g + 1, [es[g]]);
    assert es[..g] + [es[g]] + es[g + 1..] == es;
    ExpandOne(nodes', es[g]);
    ExpandFrame(nodes, nodes', es[..g]);
  }

  /** A new bound for an inner node is the new bound of its last sub-tree. */
  lemma {:induction false} ExpandSetUpper(nodes: Nodes, es: Level, q: nat, k: Option<Key>, cap: nat)
    requires KindOk(nodes, es, true, cap) && q < |es|
    ensures
      var below, last := ExpandAll(nodes, es), Offset(nodes, es, q + 1) - 1;
      && Offset(nodes, es, q) <= last < |below| && below[last].Edge?
      && ExpandAll(nodes, SetUpper(es, q, k)) == SetUpper(below, last, k)
  {
    hide ExpandAll, ExpandItem, WellShaped;
    var es' := SetUpper(es, q, k);
    ReplaceInLevel(nodes, nodes, es, q, q + 1, [es'[q]]);
    assert es' == es[..q] + [es'[q]] + es[q + 1..];
    assert es[q..q + 1] == [es[q]];
    ExpandOne(nodes, es[q]);
    ExpandOne(nodes, es'[q]);
    ExpandAround(nodes, es, q);
    ItemSetUpper(nodes, es, q, k, cap);
    var a, mid, b := ExpandAll(nodes, es[..q]), ExpandItem(nodes, es[q]), ExpandAll(nodes, es[q + 1..]);
    assert a + SetUpper(mid, |mid| - 1, k) + b == SetUpper(a + mid + b, |a| + |mid| - 1, k);
  }

  lemma {:induction false} ItemSetUpper(nodes: Nodes, es: Level, q: nat, k: Option<Key>, cap: nat)
    requires KindOk(nodes, es, true, cap) && q < |es|
    ensures
      var mid := ExpandItem(nodes, es[q]);
      |mid| > 0 && mid[|mid| - 1].Edge? && ExpandItem(nodes, Edge(es[q].node, k)) == SetUpper(mid, |mid| - 1, k)
  {
  }

  /** Leaves do not pass their bound on. */
  lemma {:induction false} LeafSetUpper(nodes: Nodes, es: Level, q: nat, k: Option<Key>, cap: nat)
    requires KindOk(nodes, es, false, cap) && q < |es|
    ensures ExpandAll(nodes, SetUpper(es, q, k)) == ExpandAll(nodes, es)
  {
    hide ExpandAll;
    var es' := SetUpper(es, q, k);
    ReplaceInLevel(nodes, nodes, es, q, q + 1, [es'[q]]);
    assert es' == es[..q] + [es'[q]] + es[q + 1..];
    assert es[q..q + 1] == [es[q]];
    ExpandOne(nodes, es[q]);
    ExpandOne(nodes, es'[q]);
  }

  // ---- sizes and offsets ----

  lemma {:induction false} OffsetSame(nodes: Nodes, nodes': Nodes, es: Level, es': Level, j: nat)
    requires j <= |es| == |es'|
    requires forall i :: 0 <= i < j ==> |ExpandItem(nodes', es'[i])| == |ExpandItem(nodes, es[i])|
    ensures Offset(nodes', es', j) == Offset(nodes, es, j)
  {
    hide ExpandItem;
    if j > 0 {
      OffsetSame(nodes, nodes', es, es', j - 1);
      ExpandAround(nodes, es, j - 1);
      ExpandAround(nodes', es', j - 1);
    } else {
      assert es[..0] == [] && es'[..0] == [];
    }
  }

  // ---- changing a critical key ----

  /** The levels after the bound of item `q[l]` has become `k` on every level below `b`. */
  ghost function Raised(lv: seq<Level>, b: nat, q: seq<nat>, k: Key): (r: seq<Level>)
    requires |q| == |lv| && forall l :: b < l < |lv| ==> q[l] < |lv[l]| && lv[l][q[l]].Edge?
    ensures |r| == |lv|
  {
    seq(|lv|, l requires 0 <= l < |lv| => if l <= b then lv[l] else SetUpper(lv[l], q[l], Some(k)))
  }

  /** Below level `b`, the items `q[l]` are last sub-trees of one another, starting from entry `i` of item `p`. */
  ghost predicate LastChain(nodes: Nodes, lv: seq<Level>, b: nat, p: nat, i: nat, q: seq<nat>) {
    && b + 1 < |lv| == |q| && p < |lv[b]|
    && q[b + 1] == Offset(nodes, lv[b], p) + i
    && (forall l :: b < l < |lv| ==> q[l] < |lv[l]| && lv[l][q[l]].Edge?)
    && (forall l :: b + 1 < l < |lv| ==> q[l] + 1 == Offset(nodes, lv[l - 1], q[l - 1] + 1))
  }

  function WithKey(nodes: Nodes, n: Node, i: nat, k: Key): (r: Nodes)
    requires n < |nodes| && nodes[n].Inner? && i < |nodes[n].keys|
    ensures |r| == |nodes| && r[n].Inner?
  {
    nodes[n := Inner(nodes[n].keys[i := k], nodes[n].tree)]
  }

  /** At level `b` itself, changing key `i` of item `p` changes the bound of its sub-tree `i`. */
  lemma {:induction false} ChangeKeyAt(nodes: Nodes, es: Level, p: nat, i: nat, k: Key, cap: nat)
    requires KindOk(nodes, es, true, cap) && p < |es| && i < |nodes[es[p].node].keys|
    requires forall j :: 0 <= j < |es| && j != p ==> es[j].node != es[p].node
    ensures
      var g := Offset(nodes, es, p) + i;
      && g < |ExpandAll(nodes, es)| && ExpandAll(nodes, es)[g].Edge?
      && ExpandAll(WithKey(nodes, es[p].node, i, k), es) == SetUpper(ExpandAll(nodes, es), g, Some(k))
  {
    hide ExpandAll, ExpandItem, WellShaped;
    var nodes' := WithKey(nodes, es[p].node, i, k);
    ChangeNode(nodes, nodes', es, p);
    ExpandAround(nodes, es, p);
    ItemChangeKey(nodes, es, p, i, k, cap);
    var a, mid, b := ExpandAll(nodes, es[..p]), ExpandItem(nodes, es[p]), ExpandAll(nodes, es[p + 1..]);
    assert a + SetUpper(mid, i, Some(k)) + b == SetUpper(a + mid + b, |a| + i, Some(k));
  }

  lemma {:induction false} ItemChangeKey(nodes: Nodes, es: Level, p: nat, i: nat, k: Key, cap: nat)
    requires KindOk(nodes, es, true, cap) && p < |es| && i < |nodes[es[p].node].keys|
    ensures
      var mid := ExpandItem(nodes, es[p]);
      i < |mid| && mid[i].Edge? && ExpandItem(WithKey(nodes, es[p].node, i, k), es[p]) == SetUpper(mid, i, Some(k))
  {
  }

  lemma KeySizes(nodes: Nodes, n: Node, i: nat, k: Key, e: Item, e': Item)
    requires n < |nodes| && nodes[n].Inner? && i < |nodes[n].keys|
    requires e.Edge? && e'.Edge? && e.node == e'.node
    ensures |ExpandItem(WithKey(nodes, n, i, k), e')| == |ExpandItem(nodes, e)|
  {
  }

  lemma {:induction false} AllEdgesAt(nodes: Nodes, root: Node, lv: seq<Level>, cap: nat, l: nat)
    requires PrefixOk(nodes, root, lv, cap) && l < |lv|
    ensures AllEdges(nodes, lv[l])
  {
    hide WellShaped, HalfOk, Chain, Distinct;
    if l < |lv| - 1 { assert KindOk(nodes, lv[l], true, cap); }
  }

  /** The node of item `p` of level `b` is no other item's node. */
  lemma {:induction false} NowhereElse(lv: seq<Level>, b: nat, p: nat, l: nat, j: nat)
    requires Distinct(lv) && b < |lv| && l < |lv| && p < |lv[b]| && j < |lv[l]| && (b != l || p != j)
    requires lv[b][p].Edge? && lv[l][j].Edge?
    ensures lv[l][j].node != lv[b][p].node
  {
  }

  lemma {:induction false} RaisedChain(nodes: Nodes, root: Node, lv: seq<Level>, cap: nat, b: nat, p: nat, i: nat,
      q: seq<nat>, k: Key, l: nat)
    requires PrefixOk(nodes, root, lv, cap) && LastChain(nodes, lv, b, p, i, q) && 0 < l < |lv|
    requires lv[b][p].Edge? && lv[b][p].node < |nodes| && nodes[lv[b][p].node].Inner? && i < |nodes[lv[b][p].node].keys|
    ensures
      var lv', nodes' := Raised(lv, b, q, k), WithKey(nodes, lv[b][p].node, i, k);
      lv'[l] == ExpandAll(nodes', lv'[l - 1])
  {
    hide ExpandAll, KindOk, Offset, HalfOk, Distinct;
    var lv', nodes' := Raised(lv, b, q, k), WithKey(nodes, lv[b][p].node, i, k);
    AllEdgesAt(nodes, root, lv, cap, l - 1);
    var es := lv[l - 1];
    forall j | 0 <= j < |es| && (l - 1 != b || j != p) ensures es[j].node != lv[b][p].node {
      NowhereElse(lv, b, p, l - 1, j);
    }
    if l == b + 1 {
      ChangeKeyAt(nodes, lv[b], p, i, k, cap);
    } else {
      ExpandFrame(nodes, nodes', lv'[l - 1]);
      if l > b + 1 {
        ExpandSetUpper(nodes, lv[l - 1], q[l - 1], Some(k), cap);
      }
    }
  }

  lemma {:induction false} WithKeyKind(nodes: Nodes, n: Node, i: nat, k: Key, es: Level, es': Level, inner: bool,
      cap: nat)
    requires n < |nodes| && nodes[n].Inner? && i < |nodes[n].keys|
    requires |es| == |es'| && forall j :: 0 <= j < |es| && es[j].Edge? ==> es'[j].Edge? && es'[j].node == es[j].node
    ensures KindOk(nodes, es, inner, cap) ==> KindOk(WithKey(nodes, n, i, k), es', inner, cap)
    ensures AllEdges(nodes, es) && HalfOk(nodes, es, cap) ==> HalfOk(WithKey(nodes, n, i, k), es', cap)
    ensures AllEdges(nodes, es) ==> AllEdges(WithKey(nodes, n, i, k), es')
  {
  }

  lemma {:induction false} RaisedDistinct(lv: seq<Level>, b: nat, q: seq<nat>, k: Key)
    requires Distinct(lv) && |q| == |lv| && forall l :: b < l < |lv| ==> q[l] < |lv[l]| && lv[l][q[l]].Edge?
    ensures Distinct(Raised(lv, b, q, k))
  {
    var lv': seq<Level> := Raised(lv, b, q, k);
    assert forall l: nat, j: nat :: l < |lv| && j < |lv[l]| && lv'[l][j].Edge? ==>
      lv[l][j].Edge? && lv'[l][j].node == lv[l][j].node;
  }

  /** Changing a critical key changes nothing but the bounds along one chain of last sub-trees. */
  lemma {:induction false} ChangeKey(nodes: Nodes, root: Node, lv: seq<Level>, cap: nat, b: nat, p: nat, i: nat,
      q: seq<nat>, k: Key)
    requires PrefixOk(nodes, root, lv, cap) && LastChain(nodes, lv, b, p, i, q)
    requires lv[b][p].Edge? && lv[b][p].node < |nodes| && nodes[lv[b][p].node].Inner? && i < |nodes[lv[b][p].node].keys|
    ensures PrefixOk(WithKey(nodes, lv[b][p].node, i, k), root, Raised(lv, b, q, k), cap)
  {
    hide ExpandAll, WellShaped, Offset, HalfOk, KindOk, Distinct;
    var lv', nodes' := Raised(lv, b, q, k), WithKey(nodes, lv[b][p].node, i, k);
    RaisedDistinct(lv, b, q, k);
    forall l | 0 < l < |lv'| ensures lv'[l] == ExpandAll(nodes', lv'[l - 1]) {
      RaisedChain(nodes, root, lv, cap, b, p, i, q, k, l);
    }
    forall l | 0 <= l < |lv| - 1 ensures KindOk(nodes', lv'[l], true, cap) && HalfOk(nodes', lv'[l], cap) {
      AllEdgesAt(nodes, root, lv, cap, l);
      WithKeyKind(nodes, lv[b][p].node, i, k, lv[l], lv'[l], true, cap);
    }
    WithKeyKind(nodes, lv[b][p].node, i, k, lv[|lv| - 1], lv'[|lv| - 1], true, cap);
  }

  lemma {:induction false} ChangeKeyOnPath(nodes: Nodes, root: Node, lv: seq<Level>, cap: nat, b: nat, p: nat, i: nat,
      q: seq<nat>, k: Key, node: seq<Node>, entry: seq<nat>, pos: seq<nat>)
    requires PrefixOk(nodes, root, lv, cap) && LastChain(nodes, lv, b, p, i, q) && OnPath(nodes, lv, node, entry, pos)
    requires lv[b][p].Edge? && lv[b][p].node < |nodes| && nodes[lv[b][p].node].Inner? && i < |nodes[lv[b][p].node].keys|
    ensures OnPath(WithKey(nodes, lv[b][p].node, i, k), Raised(lv, b, q, k), node, entry, pos)
  {
    hide ExpandAll, WellShaped, Offset, HalfOk, KindOk, ExpandItem, Chain, Distinct;
    var lv', nodes' := Raised(lv, b, q, k), WithKey(nodes, lv[b][p].node, i, k);
    forall l | 0 <= l < |lv| - 1 ensures Offset(nodes', lv'[l], pos[l]) == Offset(nodes, lv[l], pos[l]) {
      AllEdgesAt(nodes, root, lv, cap, l);
      forall j | 0 <= j < pos[l] ensures |ExpandItem(nodes', lv'[l][j])| == |ExpandItem(nodes, lv[l][j])| {
        KeySizes(nodes, lv[b][p].node, i, k, lv[l][j], lv'[l][j]);
      }
      OffsetSame(nodes, nodes', lv[l], lv'[l], pos[l]);
    }
  }

  /** The bound to the right of the path: the critical key of the right neighbours below the branch level. */
  lemma {:induction false} RightLastChain(nodes: Nodes, root: Node, lv: seq<Level>, cap: nat, node: seq<Node>,
      entry: seq<nat>, pos: seq<nat>, b: nat)
    requires UpperOk(nodes, root, lv, cap) && OnPath(nodes, lv, node, entry, pos)
    requires RightBranch(nodes, node, entry, |lv| - 1, Some(b))
    ensures LastChain(nodes, lv, b, pos[b], entry[b], pos)
  {
    hide ExpandAll, Offset, KindOk, Entries, Chain;
    forall l | b + 1 < l < |lv| ensures pos[l] + 1 == Offset(nodes, lv[l - 1], pos[l - 1] + 1) {
      RightBranchSome(nodes, root, lv, node, entry, pos, cap, b, l - 1);
      RightBranchSome(nodes, root, lv, node, entry, pos, cap, b, l);
      EntryInRange(nodes, root, lv, node, entry, pos, cap, l - 1);
      RightNeighbour(nodes, root, lv, node, entry, pos, cap, l - 1);
    }
  }

  /** The positions just left of the path, below level `b`. */
  ghost function LeftOf(pos: seq<nat>, b: nat): (q: seq<nat>)
    requires forall l :: b < l < |pos| ==> pos[l] > 0
    ensures |q| == |pos| && forall l :: b < l < |pos| ==> q[l] == pos[l] - 1
  {
    seq(|pos|, l requires 0 <= l < |pos| => if b < l then pos[l] - 1 else 0)
  }

  /** One link of the chain left of the path. */
  lemma {:induction false} LeftLink(nodes: Nodes, root: Node, lv: seq<Level>, cap: nat, node: seq<Node>,
      entry: seq<nat>, pos: seq<nat>, b: nat, l: nat)
    requires UpperOk(nodes, root, lv, cap) && OnPath(nodes, lv, node, entry, pos)
    requires LeftBranch(entry, |lv| - 1, Some(b)) && b < l < |lv|
    ensures |pos| == |lv| <= |node| == |entry| && 0 < pos[l] <= |lv[l]| && lv[l][pos[l] - 1].Edge?
    ensures pos[b] < |lv[b]| && pos[b + 1] == Offset(nodes, lv[b], pos[b]) + entry[b]
    ensures l > b + 1 ==> pos[l - 1] < |lv[l - 1]| && pos[l] == Offset(nodes, lv[l - 1], pos[l - 1])
  {
    hide ExpandAll, Offset, KindOk, Entries, Chain, UpperOk;
    LeftBranchSome(nodes, root, lv, node, entry, pos, cap, b, l);
    if l > b + 1 { LeftNeighbour(nodes, root, lv, node, entry, pos, cap, l - 1); }
  }

  lemma {:induction false} LeftLastChain(nodes: Nodes, root: Node, lv: seq<Level>, cap: nat, node: seq<Node>,
      entry: seq<nat>, pos: seq<nat>, b: nat)
    requires UpperOk(nodes, root, lv, cap) && OnPath(nodes, lv, node, entry, pos)
    requires LeftBranch(entry, |lv| - 1, Some(b))
    ensures forall l :: b < l < |pos| ==> pos[l] > 0
    ensures LastChain(nodes, lv, b, pos[b], entry[b] - 1, LeftOf(pos, b))
  {
    hide Offset, UpperOk, OnPath;
    LeftLink(nodes, root, lv, cap, node, entry, pos, b, b + 1);
    forall l | b < l < |lv|
      ensures 0 < pos[l] <= |lv[l]| && lv[l][pos[l] - 1].Edge?
      ensures l > b + 1 ==> pos[l - 1] < |lv[l - 1]| && pos[l] == Offset(nodes, lv[l - 1], pos[l - 1])
    {
      LeftLink(nodes, root, lv, cap, node, entry, pos, b, l);
    }
  }
}
