/** Removing the entry a path points at, from the leaf up to the root. */
module BForestRemoval {
  import opened Wrappers
  import opened BForestNode
  import opened BForestLevels
  import opened BForestPath
  import opened BForestEdit
  import opened BForestPool
  import opened BForestCursor
  import opened BForestHeal
  import opened BForestRemove
  import opened BForestTree
  import opened BForestSlices

  /** The path points at entry `c` of the tree's contents. */
  ghost predicate PointsAt(nodes: Nodes, levels: seq<Level>, node: seq<Node>, entry: seq<nat>, pos: seq<nat>, size: nat,
      c: nat) {
    |levels| >= 2 && size == |levels| - 1 <= |node| && Leads(nodes, levels[..size], node, entry, pos, c)
  }

  /** The path points at entry `c`, or is off the end if there is no such entry. */
  ghost predicate PointsAtOrOff(nodes: Nodes, levels: seq<Level>, node: seq<Node>, entry: seq<nat>, pos: seq<nat>,
      size: nat, c: nat) {
    |levels| >= 2 &&
      if c < |levels[|levels| - 1]| then PointsAt(nodes, levels, node, entry, pos, size, c) else size == 0
  }

  /** The nodes of `levels'` are among those of `levels`. */
  ghost predicate NodesWithin(levels: seq<Level>, levels': seq<Level>) {
    forall n :: HasNode(levels', n) ==> HasNode(levels, n)
  }

  // ---- at the leaf ----

  lemma {:induction false} TakeFromLeaf(nodes: Nodes, leaves: Level, g: nat, e: nat, cap: nat)
    requires LeavesOk(nodes, leaves, cap) && Apart(leaves) && g < |leaves| && e < Entries(nodes[leaves[g].node])
    ensures nodes[leaves[g].node].Leaf? && WellShaped(nodes[leaves[g].node], cap)
    ensures
      var nodes' := nodes[leaves[g].node := LeafRemove(nodes[leaves[g].node], e, cap).0];
      && KindExcept(nodes', leaves, g, false, cap) && HalfExcept(nodes', leaves, g, cap)
      && StatusOk(nodes', leaves[g].node, e, LeafRemove(nodes[leaves[g].node], e, cap).1, cap)
      && nodes'[leaves[g].node].Leaf? && Entries(nodes'[leaves[g].node]) == Entries(nodes[leaves[g].node]) - 1
      && (Entries(nodes'[leaves[g].node]) > 0 ==> KindOk(nodes', leaves, false, cap))
      && Offset(nodes, leaves, g) + e < |ExpandAll(nodes, leaves)|
      && ExpandAll(nodes', leaves) == RemoveAt(ExpandAll(nodes, leaves), Offset(nodes, leaves, g) + e)
      && Offset(nodes', leaves, g) == Offset(nodes, leaves, g)
  {
    hide ExpandAll, SepsOk, ExpandItem, Expand, RemoveAt;
    var nd := nodes[leaves[g].node];
    var nodes' := nodes[leaves[g].node := LeafRemove(nd, e, cap).0];
    LeafRemoveExpands(nd, leaves[g].upper, e, cap);
    ItemIsExpand(nodes, leaves[g]);
    ItemIsExpand(nodes', leaves[g]);
    ItemSize(nodes, leaves, g, false, cap);
    ExpandAround(nodes, leaves, g);
    ChangeNode(nodes, nodes', leaves, g);
    RemoveWithin(ExpandAll(nodes, leaves[..g]), ExpandItem(nodes, leaves[g]), ExpandAll(nodes, leaves[g + 1..]), e);
  }

  lemma RemoveWithin(a: Level, mid: Level, b: Level, e: nat)
    requires e < |mid|
    ensures RemoveAt(a + mid + b, |a| + e) == a + RemoveAt(mid, e) + b
  {
  }

  /** The bounds between leaves, once the critical key of the reduced leaf is its first key again. */
  lemma {:induction false} SepsAfter(nodes: Nodes, nodes': Nodes, leaves: Level, leaves': Level, g: nat, e: nat,
      cap: nat)
    requires SepsOk(nodes, leaves) && KindOk(nodes, leaves, false, cap) && g < |leaves| && |nodes'| == |nodes| &&
      e < Entries(nodes[leaves[g].node])
    requires forall j :: 0 <= j < |leaves| && j != g ==> nodes'[leaves[j].node] == nodes[leaves[j].node]
    requires nodes'[leaves[g].node] == LeafRemove(nodes[leaves[g].node], e, cap).0 &&
      Entries(nodes'[leaves[g].node]) > 0
    requires leaves' == if e == 0 &&
      g > 0 then SetUpper(leaves, g - 1, Some(nodes'[leaves[g].node].keys[0])) else leaves
    ensures SepsOk(nodes', leaves')
  {
    hide WellShaped;
    forall j | 0 <= j < |leaves'| - 1 ensures SepAt(nodes', leaves', j) {
      assert SepAt(nodes, leaves, j);
    }
  }

  /** The state just after the leaf has lost its entry. */
  ghost predicate Taken(nodes0: Nodes, nodes1: Nodes, root: Node, levels: seq<Level>, cap: nat, node: seq<Node>,
      entry: seq<nat>, pos: seq<nat>, size: nat, c: nat, status: Removed) {
    && cap >= 3 && TreeOk(nodes0, root, levels, cap) && PointsAt(nodes0, levels, node, entry, pos, size, c)
    && |node| == |entry| == MAX_PATH && node[size - 1] < |nodes0|
    && var nd, e := nodes0[node[size - 1]], entry[size - 1];
    && nd.Leaf? && |nd.keys| == |nd.vals| && e < |nd.keys| && status == LeafRemove(nd, e, cap).1
    && nodes1 == nodes0[node[size - 1] := LeafRemove(nd, e, cap).0]
  }

  /** What the path says about the leaf it ends in. */
  lemma {:induction false} LeafAt(nodes: Nodes, root: Node, levels: seq<Level>, cap: nat, node: seq<Node>,
      entry: seq<nat>, pos: seq<nat>, size: nat, c: nat)
    requires TreeOk(nodes, root, levels, cap) && PointsAt(nodes, levels, node, entry, pos, size, c)
    ensures Almost(nodes, root, levels, cap) && PrefixOk(nodes, root, levels[..size], cap) &&
      OnPath(nodes, levels[..size], node, entry, pos)
    ensures |pos| == size == |levels| - 1 <= |node| == |entry| && pos[size - 1] < |levels[size - 1]| &&
      node[size - 1] < |nodes| && entry[size - 1] < Entries(nodes[node[size - 1]])
    ensures levels[size - 1][pos[size - 1]].Edge? && levels[size - 1][pos[size - 1]].node == node[size - 1]
    ensures Offset(nodes, levels[size - 1], pos[size - 1]) + entry[size - 1] == c && Apart(levels[size - 1])
    ensures nodes[node[size - 1]].Leaf? && WellShaped(nodes[node[size - 1]], cap)
    ensures size > 1 ==> |levels[1]| >= 2
  {
    hide Offset, ExpandAll, SepsOk, HalfOk, Chain, PrefixOk, Entries;
    TreeIsAlmost(nodes, root, levels, cap);
    LevelApart(levels, size - 1);
    assert KindOk(nodes, levels[size - 1], false, cap);
  }

  lemma {:induction false} TakenFacts(nodes0: Nodes, nodes1: Nodes, root: Node, levels: seq<Level>, cap: nat,
      node: seq<Node>, entry: seq<nat>, pos: seq<nat>, size: nat, c: nat, status: Removed)
    requires Taken(nodes0, nodes1, root, levels, cap, node, entry, pos, size, c, status)
    ensures size == |levels| - 1 && Reached(nodes1, root, levels[..size], cap, node, entry, pos, size - 1)
    ensures StatusOk(nodes1, node[size - 1], entry[size - 1], status, cap) && nodes1[node[size - 1]].Leaf?
    ensures |pos| == size && pos[size - 1] < |levels[size - 1]|
    ensures KindExcept(nodes1, levels[size - 1], pos[size - 1], false, cap) &&
      HalfExcept(nodes1, levels[size - 1], pos[size - 1], cap)
    ensures !status.Empty? ==> |nodes1[node[size - 1]].keys| > 0
    ensures status.Empty? ==>
      pos[size - 1] + 1 == |levels[size - 1]| && Droppable(levels[size - 1], pos[size - 1]) && entry[size - 1] == 0
    ensures c < |levels[size]|
  {
    hide TreeOk, PointsAt, PrefixOk, OnPath, KindOk, HalfOk, SepsOk, Offset, ExpandAll, KindExcept, HalfExcept, Apart;
    LeafAt(nodes0, root, levels, cap, node, entry, pos, size, c);
    TakeFromLeaf(nodes0, levels[size - 1], pos[size - 1], entry[size - 1], cap);
    SetLast(nodes0, root, levels[..size], cap, node, entry, pos, pos[size - 1],
      LeafRemove(nodes0[node[size - 1]], entry[size - 1], cap).0);
    if status.Empty? { OnlyLastThin(nodes0, levels[size - 1], pos[size - 1], cap); }
  }

  /** A leaf with a single entry can only be the last one. */
  lemma {:induction false} OnlyLastThin(nodes: Nodes, leaves: Level, g: nat, cap: nat)
    requires KindOk(nodes, leaves, false, cap) && HalfOk(nodes, leaves, cap) && g < |leaves| &&
      Entries(nodes[leaves[g].node]) == 1 && cap >= 3
    ensures g + 1 == |leaves|
  {
  }

  /** The leaf level after the critical key of the reduced leaf has been updated. */
  lemma {:induction false} TakenRekeyed(nodes0: Nodes, nodes1: Nodes, nodes2: Nodes, root: Node, levels: seq<Level>,
      lv: seq<Level>, cap: nat, node: seq<Node>, entry: seq<nat>, pos: seq<nat>, size: nat, c: nat, status: Removed)
    requires Taken(nodes0, nodes1, root, levels, cap, node, entry, pos, size, c, status) && !status.Empty?
    requires PrefixOk(nodes2, root, lv, cap) && OnPath(nodes2, lv, node, entry, pos)
    requires SameNodes(levels[..size], lv) && OnlyWithin(nodes1, nodes2, levels[..size - 1])
    requires
      var g := pos[size - 1];
      if entry[size - 1] == 0 && g > 0
      then g < |levels[size - 1]| && levels[size - 1][g - 1].Edge? && nodes1[node[size - 1]].Leaf? &&
        |nodes1[node[size - 1]].keys| > 0
           && lv[size - 1] == SetUpper(levels[size - 1], g - 1, Some(nodes1[node[size - 1]].keys[0]))
      else lv[size - 1] == levels[size - 1]
    ensures Reached(nodes2, root, lv, cap, node, entry, pos, size - 1) &&
      StatusOk(nodes2, node[size - 1], entry[size - 1], status, cap)
    ensures nodes2[node[size - 1]].Leaf?
    ensures KindOk(nodes2, lv[size - 1], false, cap) && HalfExcept(nodes2, lv[size - 1], pos[size - 1], cap) &&
      SepsOk(nodes2, lv[size - 1])
    ensures c < |levels[size]| && ExpandAll(nodes2, lv[size - 1]) == RemoveAt(levels[size], c)
    ensures pos[size - 1] < |lv[size - 1]| && Offset(nodes2, lv[size - 1], pos[size - 1]) + entry[size - 1] == c
    ensures OnlyWithin(nodes0, nodes2, levels)
  {
    hide TreeOk, PointsAt, PrefixOk, OnPath, SepsOk, ExpandAll, HalfExcept, KindExcept, Apart, HasNode, SameNodes,
      RemoveAt, Offset, OnlyWithin, KindOk, HalfOk, LeafRemove, StatusOk;
    LeafAt(nodes0, root, levels, cap, node, entry, pos, size, c);
    var leaves, g, e := levels[size - 1], pos[size - 1], entry[size - 1];
    TakeFromLeaf(nodes0, leaves, g, e, cap);
    SetLast(nodes0, root, levels[..size], cap, node, entry, pos, g, LeafRemove(nodes0[node[size - 1]], e, cap).0);
    assert levels[..size][..size - 1] == levels[..size - 1];
    LeafOnPath(nodes2, lv, node, entry, pos);
    LeavesSurvive(nodes1, nodes2, root, levels[..size], cap);
    StatusEntries(nodes0[node[size - 1]], e, cap);
    LeavesRekeyed(nodes0, nodes1, nodes2, leaves, lv[size - 1], g, e, cap);
    RekeyedReached(nodes1, nodes2, root, levels, lv, cap, node, entry, pos, size);
    ChangedWithin(nodes0, nodes1, nodes2, levels, size, g);
    StatusKept(nodes1, nodes2, node[size - 1], e, status, cap);
  }

  lemma StatusEntries(nd: NodeData, e: nat, cap: nat)
    requires nd.Leaf? && |nd.keys| == |nd.vals| && e < |nd.keys| && cap > 0
    ensures !LeafRemove(nd, e, cap).1.Empty? ==> Entries(LeafRemove(nd, e, cap).0) > 0
  {
  }

  lemma StatusKept(nodes: Nodes, nodes': Nodes, n: Node, e: nat, status: Removed, cap: nat)
    requires StatusOk(nodes, n, e, status, cap) && n < |nodes'| && nodes'[n] == nodes[n]
    ensures StatusOk(nodes', n, e, status, cap)
  {
  }

  lemma {:induction false} RekeyedReached(nodes1: Nodes, nodes2: Nodes, root: Node, levels: seq<Level>, lv: seq<Level>,
      cap: nat, node: seq<Node>, entry: seq<nat>, pos: seq<nat>, size: nat)
    requires |levels| > size > 0 && (size > 1 ==> |levels[1]| >= 2) && SameNodes(levels[..size], lv) &&
      |node| == |entry| == MAX_PATH && cap >= 2
    requires PrefixOk(nodes2, root, lv, cap) && OnPath(nodes2, lv, node, entry, pos)
    ensures Reached(nodes2, root, lv, cap, node, entry, pos, size - 1)
  {
    hide PrefixOk, Offset, Entries;
    if size > 1 { assert SameItems(levels[..size][1], lv[1]); }
  }

  lemma {:induction false} LeavesSurvive(nodes1: Nodes, nodes2: Nodes, root: Node, lv: seq<Level>, cap: nat)
    requires |lv| > 0 && PrefixOk(nodes1, root, lv, cap) && OnlyWithin(nodes1, nodes2, lv[..|lv| - 1])
    ensures Untouched(nodes1, nodes2, lv[|lv| - 1])
  {
    hide PrefixOk;
    var es := lv[|lv| - 1];
    forall j | 0 <= j < |es| ensures es[j].Edge? && es[j].node < |nodes1| && nodes2[es[j].node] == nodes1[es[j].node] {
      NotAbove(nodes1, root, lv, cap, j);
    }
  }

  lemma {:induction false} LeavesRekeyed(nodes0: Nodes, nodes1: Nodes, nodes2: Nodes, leaves: Level, leaves': Level,
      g: nat, e: nat, cap: nat)
    requires LeavesOk(nodes0, leaves, cap) && Apart(leaves) && g < |leaves| && e < Entries(nodes0[leaves[g].node])
    requires nodes0[leaves[g].node].Leaf? && WellShaped(nodes0[leaves[g].node], cap)
    requires nodes1 == nodes0[leaves[g].node := LeafRemove(nodes0[leaves[g].node], e, cap).0] &&
      Entries(nodes1[leaves[g].node]) > 0
    requires KindOk(nodes1, leaves, false, cap) && HalfExcept(nodes1, leaves, g, cap)
    requires Untouched(nodes1, nodes2, leaves)
    requires leaves' == if e == 0 &&
      g > 0 then SetUpper(leaves, g - 1, Some(nodes1[leaves[g].node].keys[0])) else leaves
    ensures KindOk(nodes2, leaves', false, cap) && HalfExcept(nodes2, leaves', g, cap) && SepsOk(nodes2, leaves')
    ensures ExpandAll(nodes2, leaves') == ExpandAll(nodes1, leaves) &&
      Offset(nodes2, leaves', g) == Offset(nodes1, leaves, g)
  {
    hide ExpandAll, SepsOk, ExpandItem, HalfOk, LeafRemove, Apart, KindOk, HalfExcept, Entries, WellShaped;
    LeavesEdges(nodes0, leaves, cap);
    OthersUntouched(nodes0, nodes1, nodes2, leaves, g);
    SepsAfter(nodes0, nodes2, leaves, leaves', g, e, cap);
    ExpandFrame(nodes1, nodes2, leaves);
    MovedKind(nodes1, nodes2, leaves, leaves', g, cap);
    if e == 0 && g > 0 { LeafSetUpper(nodes2, leaves, g - 1, leaves'[g - 1].upper, cap); }
    forall i | 0 <= i < g ensures |ExpandItem(nodes2, leaves'[i])| == |ExpandItem(nodes1, leaves[i])| {
      SizeOf(nodes1, nodes2, leaves[i], leaves'[i]);
    }
    OffsetUpTo(nodes1, nodes2, leaves, leaves', g);
  }

  lemma LeavesEdges(nodes: Nodes, leaves: Level, cap: nat)
    requires KindOk(nodes, leaves, false, cap)
    ensures forall j :: 0 <= j < |leaves| ==> leaves[j].Edge? && leaves[j].node < |nodes|
  {
    hide WellShaped, Entries;
  }

  lemma {:induction false} OthersUntouched(nodes0: Nodes, nodes1: Nodes, nodes2: Nodes, leaves: Level, g: nat)
    requires Apart(leaves) && g < |leaves| && leaves[g].Edge? && Untouched(nodes1, nodes2, leaves) &&
      |nodes0| == |nodes1|
    requires forall n :: 0 <= n < |nodes0| && n != leaves[g].node ==> nodes1[n] == nodes0[n]
    ensures forall j :: 0 <= j < |leaves| && j != g ==> nodes2[leaves[j].node] == nodes0[leaves[j].node]
  {
  }

  lemma {:induction false} MovedKind(nodes: Nodes, nodes': Nodes, leaves: Level, leaves': Level, g: nat, cap: nat)
    requires KindOk(nodes, leaves, false, cap) && HalfExcept(nodes, leaves, g, cap) &&
      Untouched(nodes, nodes', leaves) && SameItems(leaves, leaves')
    ensures KindOk(nodes', leaves', false, cap) && HalfExcept(nodes', leaves', g, cap) &&
      KindOk(nodes', leaves, false, cap)
  {
    hide WellShaped, HalfFull, Entries;
  }

  lemma {:induction false} ChangedWithin(nodes0: Nodes, nodes1: Nodes, nodes2: Nodes, levels: seq<Level>, size: nat,
      g: nat)
    requires 0 < size < |levels| && g < |levels[size - 1]| && levels[size - 1][g].Edge? &&
      levels[size - 1][g].node < |nodes0|
    requires |nodes1| == |nodes0| &&
      (forall n :: 0 <= n < |nodes0| && n != levels[size - 1][g].node ==> nodes1[n] == nodes0[n])
    requires OnlyWithin(nodes1, nodes2, levels[..size - 1])
    ensures OnlyWithin(nodes0, nodes2, levels)
  {
    hide HasNode;
    forall n | 0 <= n < |nodes0| && !HasNode(levels, n) ensures nodes2[n] == nodes0[n] {
      HasNodeAt(levels, size - 1, g);
      if HasNode(levels[..size - 1], n) { HasNodeWithin(levels[..size - 1], levels, n); }
    }
  }

  // ---- putting the tree together again ----

  /** The entry is gone and the tree is in order, except that the root may have shrunk to one sub-tree. */
  ghost predicate Shrunk(nodes0: Nodes, nodes: Nodes, root: Node, levels: seq<Level>, levels': seq<Level>, cap: nat,
      c: nat, node: seq<Node>, entry: seq<nat>, pos: seq<nat>, size: nat) {
    && Almost(nodes, root, levels', cap) && |levels'| == |levels| && c < |levels[|levels| - 1]|
    && levels'[|levels| - 1] == RemoveAt(levels[|levels| - 1], c)
    && PointsAtOrOff(nodes, levels', node, entry, pos, size, c) && |node| > 0 && node[0] == root
    && NodesWithin(levels, levels') && OnlyWithin(nodes0, nodes, levels)
  }

  /** The entry is gone, the tree is proper, and the path is at the entry's successor or off the end. */
  ghost predicate EntryRemoved(nodes0: Nodes, nodes: Nodes, root: Node, levels: seq<Level>, levels': seq<Level>,
      cap: nat, c: nat, node: seq<Node>, entry: seq<nat>, pos: seq<nat>, size: nat) {
    && TreeOk(nodes, root, levels', cap) && |levels| > 0 && c < |levels[|levels| - 1]|
    && levels'[|levels'| - 1] == RemoveAt(levels[|levels| - 1], c)
    && PointsAtOrOff(nodes, levels', node, entry, pos, size, c)
    && NodesWithin(levels, levels') && OnlyWithin(nodes0, nodes, levels)
  }

  lemma {:induction false} SubWithin(levels: seq<Level>, h: nat, lv: seq<Level>, contents: Level)
    requires h < |levels| && SubLevels(levels[..h], lv) && forall i :: 0 <= i < |contents| ==> contents[i].Pair?
    ensures NodesWithin(levels, lv + [contents])
  {
    var levels': seq<Level> := lv + [contents];
    forall n | HasNode(levels', n) ensures HasNode(levels, n) {
      var l, j :| 0 <= l < |levels'| && 0 <= j < |levels'[l]| && levels'[l][j].Edge? && levels'[l][j].node == n;
      assert l < h;
      assert SubItems(levels[..h][l], lv[l]);
      assert NodeIn(levels[l], n);
    }
  }

  lemma {:induction false} SamePlaces(lv0: seq<Level>, lv: seq<Level>, lv': seq<Level>)
    requires SameNodes(lv0, lv) && SubLevels(lv, lv')
    ensures SubLevels(lv0, lv')
  {
    hide SubLevels, SameNodes;
    SameIsSub(lv0, lv);
    SubTrans(lv0, lv, lv');
  }

  lemma {:induction false} WithinTrans(nodes0: Nodes, nodes: Nodes, nodes': Nodes, levels: seq<Level>, h: nat,
      lv: seq<Level>)
    requires h < |levels| && SubLevels(levels[..h], lv) && OnlyWithin(nodes0, nodes, levels) &&
      OnlyWithin(nodes, nodes', lv)
    ensures OnlyWithin(nodes0, nodes', levels)
  {
    hide HasNode, SubLevels;
    forall n | 0 <= n < |nodes0| && !HasNode(levels, n) ensures nodes'[n] == nodes0[n] {
      if HasNode(lv, n) { SubHas(levels, h, lv, n); }
    }
  }

  lemma {:induction false} SubHas(levels: seq<Level>, h: nat, lv: seq<Level>, n: Node)
    requires h <= |levels| && SubLevels(levels[..h], lv) && HasNode(lv, n)
    ensures HasNode(levels, n)
  {
    var l, j :| 0 <= l < |lv| && 0 <= j < |lv[l]| && lv[l][j].Edge? && lv[l][j].node == n;
    assert SubItems(levels[..h][l], lv[l]);
    assert NodeIn(levels[l], n);
  }

  /** From a repaired leaf level to a tree. */
  lemma {:induction false} HealedShrunk(nodes0: Nodes, nodes: Nodes, nodes': Nodes, root: Node, levels: seq<Level>,
      lv: seq<Level>, lv': seq<Level>, cap: nat, c: nat, node: seq<Node>, entry: seq<nat>, pos: seq<nat>, size': nat,
      size: nat)
    requires size == |levels| - 1 > 0 && c < |levels[size]| && Sorted(levels[size]) && SameNodes(levels[..size], lv) &&
      OnlyWithin(nodes0, nodes, levels)
    requires Healed(nodes, nodes', root, lv, lv', false, cap) &&
      ExpandAll(nodes, lv[size - 1]) == RemoveAt(levels[size], c)
    requires LeadsOrOff(nodes', lv', node, entry, pos, size', size, c, |RemoveAt(levels[size], c)|)
    requires 0 < |node| && size <= |node| && node[0] == root
    ensures Shrunk(nodes0, nodes', root, levels, lv' + [RemoveAt(levels[size], c)], cap, c, node, entry, pos, size')
  {
    hide PrefixOk, KindOk, HalfOk, SepsOk, ExpandAll, SubLevels, SameNodes, OnlyWithin, RemoveAt, Leads, NodesWithin,
      HasNode;
    SortedWithout(levels[size], c);
    SameLength(levels[..size], lv);
    MakeAlmost(nodes', root, lv', cap);
    SamePlaces(levels[..size], lv, lv');
    SameIsSub(levels[..size], lv);
    SubWithin(levels, size, lv', RemoveAt(levels[size], c));
    WithinTrans(nodes0, nodes, nodes', levels, size, lv);
    assert (lv' + [RemoveAt(levels[size], c)])[..size] == lv';
  }

  lemma SameLength(lv: seq<Level>, lv': seq<Level>)
    requires SameNodes(lv, lv')
    ensures |lv| == |lv'|
  {
  }

  /** The last leaf is gone together with its only entry. */
  lemma {:induction false} LastLeafGone(nodes0: Nodes, nodes': Nodes, leaves: Level, cap: nat)
    requires LeavesOk(nodes0, leaves, cap) && |leaves| > 0 && Entries(nodes0[leaves[|leaves| - 1].node]) == 1 &&
      Untouched(nodes0, nodes', leaves[..|leaves| - 1])
    ensures LeavesOk(nodes', DropItem(leaves, |leaves| - 1), cap)
    ensures |ExpandAll(nodes0, leaves)| > 0
    ensures ExpandAll(nodes', DropItem(leaves, |leaves| - 1)) ==
      RemoveAt(ExpandAll(nodes0, leaves), |ExpandAll(nodes0, leaves)| - 1)
  {
    hide ExpandAll, LeavesOk, ExpandItem, Entries, KindOk, DropItem;
    var last := |leaves| - 1;
    var rest, leaves' := leaves[..last], DropItem(leaves, last);
    LeavesOfLeaves(nodes0, leaves, cap);
    ItemSize(nodes0, leaves, last, false, cap);
    ExpandAround(nodes0, leaves, last);
    assert leaves[last + 1..] == [];
    NothingBelow(nodes0);
    NothingBelow(nodes');
    ExpandFrame(nodes0, nodes', rest);
    LeavesPrefix(nodes0, nodes', leaves, cap);
    if last > 0 {
      DropSplits(leaves, last);
      assert leaves' == SetUpper(rest, last - 1, leaves[last].upper);
      LastUpper(nodes', rest, leaves[last].upper, cap);
    } else {
      DropSole(leaves);
      assert leaves' == rest == [];
    }
  }

  lemma DropSole(es: Level)
    requires |es| == 1
    ensures DropItem(es, 0) == []
  {
  }

  lemma LeavesOfLeaves(nodes: Nodes, leaves: Level, cap: nat)
    requires LeavesOk(nodes, leaves, cap)
    ensures KindOk(nodes, leaves, false, cap) && forall j :: 0 <= j < |leaves| ==>
      leaves[j].Edge? && leaves[j].node < |nodes|
  {
    hide WellShaped, Entries, SepsOk, HalfOk;
  }

  lemma {:induction false} LeavesPrefix(nodes: Nodes, nodes': Nodes, leaves: Level, cap: nat)
    requires LeavesOk(nodes, leaves, cap) && |leaves| > 0 && Untouched(nodes, nodes', leaves[..|leaves| - 1])
    ensures LeavesOk(nodes', leaves[..|leaves| - 1], cap)
  {
    hide WellShaped, Entries, HalfFull, SepAt;
    var rest := leaves[..|leaves| - 1];
    assert forall j :: 0 <= j < |rest| ==> rest[j] == leaves[j];
    forall j | 0 <= j < |rest| - 1 ensures SepAt(nodes', rest, j) {
      assert SepAt(nodes, leaves, j);
      assert rest[j + 1] == leaves[j + 1] && rest[j] == leaves[j];
      SepMoved(nodes, nodes', leaves, rest, j);
    }
  }

  /** The bound of the last leaf is nobody's separator. */
  lemma {:induction false} LastUpper(nodes: Nodes, leaves: Level, k: Option<Key>, cap: nat)
    requires LeavesOk(nodes, leaves, cap) && |leaves| > 0
    ensures leaves[|leaves| - 1].Edge? && LeavesOk(nodes, SetUpper(leaves, |leaves| - 1, k), cap)
    ensures ExpandAll(nodes, SetUpper(leaves, |leaves| - 1, k)) == ExpandAll(nodes, leaves)
  {
    hide WellShaped, Entries, HalfFull, SepAt, ExpandAll;
    LeafSetUpper(nodes, leaves, |leaves| - 1, k, cap);
    var leaves' := SetUpper(leaves, |leaves| - 1, k);
    forall j | 0 <= j < |leaves'| - 1 ensures SepAt(nodes, leaves', j) {
      assert SepAt(nodes, leaves, j);
      SepMoved(nodes, nodes, leaves, leaves', j);
    }
  }

  lemma NothingBelow(nodes: Nodes)
    ensures ExpandAll(nodes, []) == []
  {
  }

  lemma SepMoved(nodes: Nodes, nodes': Nodes, leaves: Level, leaves': Level, j: nat)
    requires SepAt(nodes, leaves, j) && j + 1 < |leaves'| && leaves'[j] == leaves[j] && leaves'[j + 1].Edge? &&
      leaves'[j + 1].node == leaves[j + 1].node
    requires leaves[j + 1].node < |nodes'| && nodes'[leaves[j + 1].node] == nodes[leaves[j + 1].node]
    ensures SepAt(nodes', leaves', j)
  {
  }

  lemma {:induction false} EmptiedShrunk(nodes0: Nodes, nodes1: Nodes, nodes': Nodes, root: Node, levels: seq<Level>,
      lv': seq<Level>, cap: nat, node0: seq<Node>, entry0: seq<nat>, pos0: seq<nat>, c: nat, node: seq<Node>,
      entry: seq<nat>, pos: seq<nat>, size': nat, size: nat)
    requires Taken(nodes0, nodes1, root, levels, cap, node0, entry0, pos0, size, c, Empty)
    requires Emptied(nodes1, nodes', root, levels[..size], lv', pos0[size - 1], cap) &&
      OnlyAbove(nodes1, nodes', levels[..size], node0[size - 1])
    requires AtOrOff(nodes', lv', node, entry, pos, size', size, pos0[size - 1], 0)
    requires |node| > 0 && node[0] == root
    ensures c < |levels[size]| &&
      Shrunk(nodes0, nodes', root, levels, lv' + [RemoveAt(levels[size], c)], cap, c, node, entry, pos, size')
  {
    hide TreeOk, PointsAt, PrefixOk, KindOk, HalfOk, SepsOk, ExpandAll, SubLevels, SameNodes, RemoveAt, Leads,
      NodesWithin, HasNode, OnPath, Offset, DropItem, Reached, StatusOk, KindExcept, HalfExcept, Apart, Entries;
    LeafAt(nodes0, root, levels, cap, node0, entry0, pos0, size, c);
    TakenFacts(nodes0, nodes1, root, levels, cap, node0, entry0, pos0, size, c, Empty);
    ReachedItem(nodes1, root, levels[..size], cap, node0, entry0, pos0, size - 1);
    var leaves := levels[size - 1];
    OneEntry(nodes0[node0[size - 1]], entry0[size - 1], cap);
    OtherLeaves(nodes0, nodes1, nodes', root, levels[..size], cap);
    LastLeafGone(nodes0, nodes', leaves, cap);
    TargetAt(nodes0, leaves, |leaves| - 1, 1, false, cap);
    SortedWithout(levels[size], c);
    MakeAlmost(nodes', root, lv', cap);
    SubWithin(levels, size, lv', RemoveAt(levels[size], c));
    assert (lv' + [RemoveAt(levels[size], c)])[..size] == lv';
    HasNodeAt(levels, size - 1, |leaves| - 1);
    forall n | 0 <= n < |nodes0| && !HasNode(levels, n) ensures nodes'[n] == nodes0[n] {
      if HasNode(levels[..size][..size - 1], n) {
        assert levels[..size][..size - 1] == levels[..size - 1];
        HasNodeWithin(levels[..size - 1], levels, n);
      }
    }
  }

  lemma OneEntry(nd: NodeData, e: nat, cap: nat)
    requires nd.Leaf? && |nd.keys| == |nd.vals| && e < |nd.keys| && LeafRemove(nd, e, cap).1.Empty?
    ensures Entries(nd) == 1
  {
  }

  lemma {:induction false} OtherLeaves(nodes0: Nodes, nodes1: Nodes, nodes': Nodes, root: Node, lv: seq<Level>,
      cap: nat)
    requires |lv| > 0 && |lv[|lv| - 1]| > 0 && PrefixOk(nodes1, root, lv, cap) &&
      lv[|lv| - 1][|lv[|lv| - 1]| - 1].Edge? && lv[|lv| - 1][|lv[|lv| - 1]| - 1].node < |nodes0|
    requires nodes1 == nodes0[lv[|lv| - 1][|lv[|lv| - 1]| - 1].node := nodes1[lv[|lv| - 1][|lv[|lv| - 1]| - 1].node]]
    requires OnlyAbove(nodes1, nodes', lv, lv[|lv| - 1][|lv[|lv| - 1]| - 1].node)
    ensures Untouched(nodes0, nodes', lv[|lv| - 1][..|lv[|lv| - 1]| - 1])
  {
    hide UpperOk, HalfOk, HasNode, Distinct;
    var es := lv[|lv| - 1];
    forall j | 0 <= j < |es| - 1 ensures es[j].Edge? && es[j].node < |nodes0| &&
      nodes'[es[j].node] == nodes0[es[j].node] {
      NotAbove(nodes1, root, lv, cap, j);
      NowhereElse(lv, |lv| - 1, |es| - 1, |lv| - 1, j);
    }
  }

  // ---- the root ----

  /** After `ns` steps down from a root with a single sub-tree. */
  ghost predicate Descended(nodes: Nodes, levels: seq<Level>, cap: nat, c: nat, node: seq<Node>, entry: seq<nat>,
      pos: seq<nat>, size: nat, ns: nat) {
    && ns + 2 <= |levels| <= MAX_PATH + 1 && |node| == |entry| == MAX_PATH
    && (forall l :: 0 <= l <= ns ==> levels[l] == [Edge(node[l], None)])
    && Almost(nodes, node[ns], levels[ns..], cap)
    && if c < |levels[|levels| - 1]|
       then size == |levels| - 1 && |pos| == size &&
         Leads(nodes, levels[ns..][..size - ns], node[ns..], entry[ns..], pos[ns..], c)
       else size == 0
  }

  lemma {:induction false} DescendFirst(nodes0: Nodes, nodes: Nodes, root: Node, levels: seq<Level>,
      levels': seq<Level>, cap: nat, c: nat, node: seq<Node>, entry: seq<nat>, pos: seq<nat>, size: nat)
    requires Shrunk(nodes0, nodes, root, levels, levels', cap, c, node, entry, pos, size) &&
      |node| == |entry| == MAX_PATH && |levels| <= MAX_PATH + 1
    ensures Descended(nodes, levels', cap, c, node, entry, pos, size, 0)
  {
    hide PrefixOk, LeavesOk, Offset, Entries, Sorted, ExpandAll, RemoveAt, NodesWithin, OnlyWithin;
    assert levels'[0..] == levels' && node[0..] == node && entry[0..] == entry;
    AlmostTop(nodes, root, levels', cap);
    if size > 0 { assert pos[0..] == pos; }
  }

  lemma AlmostTop(nodes: Nodes, root: Node, levels: seq<Level>, cap: nat)
    requires Almost(nodes, root, levels, cap)
    ensures levels[0] == [Edge(root, None)] && root < |nodes| && !nodes[root].Free?
  {
    hide ExpandAll, Distinct, HalfOk, SepsOk;
    var h := |levels| - 1;
    var lv: seq<Level> := levels[..h];
    assert lv[0] == levels[0] == [Edge(root, None)] && levels[0][0] == Edge(root, None);
    assert KindOk(nodes, levels[0], h > 1, cap);
  }

  lemma TailTail<T>(s: seq<T>, n: nat)
    requires n < |s|
    ensures s[n..][1..] == s[n + 1..]
  {
  }

  lemma TailTake<T>(s: seq<T>, n: nat, k: nat)
    requires n + k <= |s| && k > 0
    ensures s[n..][..k][1..] == s[n + 1..][..k - 1]
  {
  }

  lemma {:induction false} DescendNext(nodes: Nodes, levels: seq<Level>, cap: nat, c: nat, node: seq<Node>,
      entry: seq<nat>, pos: seq<nat>, size: nat, ns: nat)
    requires Descended(nodes, levels, cap, c, node, entry, pos, size, ns) && node[ns] < |nodes| &&
      nodes[node[ns]].Inner? && |nodes[node[ns]].keys| == 0
    ensures ns + 1 < MAX_PATH && |nodes[node[ns]].tree| == 1
    ensures Descended(nodes, levels, cap, c, node[ns + 1 := nodes[node[ns]].tree[0]], entry, pos, size, ns + 1)
  {
    hide PrefixOk, LeavesOk, Offset, Entries, Sorted, ExpandAll, Almost, OnPath;
    Collapse(nodes, node[ns], levels[ns..], cap);
    AlmostSize(nodes, node[ns], levels[ns..], cap);
    var node' := node[ns + 1 := nodes[node[ns]].tree[0]];
    TailTail(levels, ns);
    assert levels[ns..][1] == levels[ns + 1];
    if size > 0 {
      var lv: seq<Level> := levels[ns..][..size - ns];
      TailTake(levels, ns, size - ns);
      TailTail(pos, ns);
      LeadsBelow(nodes, lv, node[ns..], entry[ns..], pos[ns..], c, node'[ns + 1..], entry[ns + 1..],
        nodes[node[ns]].tree[0]);
    }
  }

  lemma AlmostSize(nodes: Nodes, root: Node, levels: seq<Level>, cap: nat)
    requires Almost(nodes, root, levels, cap)
    ensures |levels| >= 2
  {
    hide PrefixOk, LeavesOk, Sorted;
  }

  lemma {:induction false} LeadsBelow(nodes: Nodes, lv: seq<Level>, node: seq<Node>, entry: seq<nat>, pos: seq<nat>,
      c: nat, node': seq<Node>, entry': seq<nat>, child: Node)
    requires |lv| > 1 && lv[1] == [Edge(child, None)] && Leads(nodes, lv, node, entry, pos, c)
    requires |node'| == |entry'| == |node| - 1 && node' == node[1..][0 := child] && entry' == entry[1..]
    ensures Leads(nodes, lv[1..], node', entry', pos[1..], c)
  {
    hide Offset, Entries;
    assert lv[1][pos[1]] == Edge(child, None) && node[1] == child;
    OnPathBelow(nodes, lv, node, entry, pos, node', entry');
  }

  /** The nodes above the new root are not nodes of the remaining tree. */
  lemma {:induction false} DiscardedApart(nodes: Nodes, root: Node, levels: seq<Level>, cap: nat, ns: nat,
      node: seq<Node>)
    requires Almost(nodes, root, levels, cap) && ns < |levels| && ns <= |node| &&
      (forall l :: 0 <= l < ns ==> levels[l] == [Edge(node[l], None)])
    ensures forall l :: 0 <= l < ns ==> node[l] < |nodes| && !HasNode(levels[ns..], node[l]) && !nodes[node[l]].Free?
    ensures forall l, l' :: 0 <= l < l' < ns ==> node[l] != node[l']
  {
    hide ExpandAll, HalfOk, SepsOk, WellShaped;
    var h := |levels| - 1;
    assert Distinct(levels) by { ContentsDistinct(levels[..h], levels[h]); assert levels[..h] + [levels[h]] == levels; }
    var below: seq<Level> := levels[ns..];
    forall l | 0 <= l < ns ensures node[l] < |nodes| && !HasNode(below, node[l]) && !nodes[node[l]].Free? {
      assert levels[l][0] == Edge(node[l], None);
      SoleLive(nodes, root, levels, cap, l);
      forall m, j | 0 <= m < |below| && 0 <= j < |below[m]| && below[m][j].Edge? ensures below[m][j].node != node[l] {
        NowhereElse(levels, l, 0, ns + m, j);
      }
    }
    forall l, l' | 0 <= l < l' < ns ensures node[l] != node[l'] {
      assert levels[l][0] == Edge(node[l], None) && levels[l'][0] == Edge(node[l'], None);
      NowhereElse(levels, l, 0, l', 0);
    }
  }

  lemma {:induction false} SoleLive(nodes: Nodes, root: Node, levels: seq<Level>, cap: nat, l: nat)
    requires Almost(nodes, root, levels, cap) && l < |levels| && |levels[l]| > 0 && levels[l][0].Edge?
    ensures levels[l][0].node < |nodes| && !nodes[levels[l][0].node].Free?
  {
    hide ExpandAll, Distinct, HalfOk, SepsOk;
    var h := |levels| - 1;
    var lv: seq<Level> := levels[..h];
    if l < h - 1 { assert KindOk(nodes, lv[l], true, cap) && lv[l] == levels[l]; }
    else if l == h - 1 { assert KindOk(nodes, levels[l], false, cap); }
  }

  /** A path is unaffected by changes to nodes outside its tree, and to the unused part of its arrays. */
  lemma {:induction false} LeadsFrame(nodes: Nodes, nodes': Nodes, root: Node, levels: seq<Level>, cap: nat,
      node: seq<Node>, entry: seq<nat>, pos: seq<nat>, c: nat, node': seq<Node>, entry': seq<nat>)
    requires Almost(nodes, root, levels, cap) && |nodes| <= |nodes'|
    requires forall n :: 0 <= n < |nodes| && HasNode(levels, n) ==> nodes'[n] == nodes[n]
    requires Leads(nodes, levels[..|levels| - 1], node, entry, pos, c)
    requires |levels| - 1 <= |node'| == |entry'| &&
      (forall l :: 0 <= l < |levels| - 1 ==> node'[l] == node[l] && entry'[l] == entry[l])
    ensures Leads(nodes', levels[..|levels| - 1], node', entry', pos, c)
  {
    hide PrefixOk, ExpandAll, HasNode, Sorted, SepsOk, HalfOk, KindOk;
    var h := |levels| - 1;
    var lv: seq<Level>, es := levels[..h], levels[h - 1];
    forall n | 0 <= n < |nodes| && HasNode(lv[..h - 1], n) ensures nodes'[n] == nodes[n] {
      HasNodeWithin(lv[..h - 1], levels, n);
    }
    OnPathFrame(nodes, nodes', root, lv, cap, node, entry, pos);
    LeavesEdges(nodes, es, cap);
    forall j | 0 <= j < |es| ensures nodes'[es[j].node] == nodes[es[j].node] {
      HasNodeAt(levels, h - 1, j);
    }
    ExpandFrame(nodes, nodes', es[..pos[h - 1]]);
  }

  lemma {:induction false} CollapseDone(nodes0: Nodes, nodes: Nodes, nodes': Nodes, levels: seq<Level>,
      levels1: seq<Level>, cap: nat, c: nat, node: seq<Node>, entry: seq<nat>, pos: seq<nat>, size: nat, ns: nat)
    requires Descended(nodes, levels1, cap, c, node, entry, pos, size, ns)
    requires node[ns] < |nodes| && !(nodes[node[ns]].Inner? && |nodes[node[ns]].keys| == 0)
    requires |nodes'| == |nodes| && forall n :: 0 <= n < |nodes| && n !in node[..ns] ==> nodes'[n] == nodes[n]
    requires |levels1| == |levels| && c < |levels[|levels| - 1]| &&
      levels1[|levels| - 1] == RemoveAt(levels[|levels| - 1], c)
    requires NodesWithin(levels, levels1) && OnlyWithin(nodes0, nodes, levels)
    requires forall l :: 0 <= l < ns ==> !HasNode(levels1[ns..], node[l])
    ensures
      EntryRemoved(nodes0, nodes', node[ns], levels, levels1[ns..], cap, c, Shifted(node, ns), Shifted(entry, ns),
                   if size > 0 then pos[ns..] else pos, if size > 0 then size - ns else 0)
  {
    hide PrefixOk, LeavesOk, Offset, Entries, Sorted, ExpandAll, RemoveAt, OnPath, HasNode, Almost, Leads, NodesWithin,
      TreeOk;
    var levels', root' := levels1[ns..], node[ns];
    forall n | 0 <= n < |nodes| && HasNode(levels', n) ensures nodes'[n] == nodes[n] {}
    AlmostFrame(nodes, nodes', root', levels', cap);
    if |levels'| > 2 { RootBranches(nodes, root', levels', cap); }
    AlmostIsTree(nodes', root', levels', cap);
    if size > 0 {
      assert levels'[..size - ns] == levels'[..|levels'| - 1];
      LeadsFrame(nodes, nodes', root', levels', cap, node[ns..], entry[ns..], pos[ns..], c, Shifted(node, ns),
        Shifted(entry, ns));
    }
    DiscardedWithin(nodes0, nodes, nodes', levels, levels1, node, ns);
  }

  lemma {:induction false} RootBranches(nodes: Nodes, root: Node, levels: seq<Level>, cap: nat)
    requires Almost(nodes, root, levels, cap) && |levels| > 2 && root < |nodes| &&
      !(nodes[root].Inner? && |nodes[root].keys| == 0)
    ensures |levels[1]| >= 2
  {
    hide ExpandAll, Distinct, HalfOk, SepsOk, LeavesOk;
    var lv: seq<Level> := levels[..|levels| - 1];
    RootAlone(nodes, root, lv, cap, 1);
    assert KindOk(nodes, lv[0], true, cap) && lv[0][0].node == root;
  }

  lemma {:induction false} DiscardedWithin(nodes0: Nodes, nodes: Nodes, nodes': Nodes, levels: seq<Level>,
      levels1: seq<Level>, node: seq<Node>, ns: nat)
    requires NodesWithin(levels, levels1) && OnlyWithin(nodes0, nodes, levels) && |nodes'| == |nodes| && ns <= |node| &&
      ns <= |levels1|
    requires forall n :: 0 <= n < |nodes| && n !in node[..ns] ==> nodes'[n] == nodes[n]
    requires forall l :: 0 <= l < ns ==> levels1[l] == [Edge(node[l], None)]
    ensures NodesWithin(levels, levels1[ns..]) && OnlyWithin(nodes0, nodes', levels)
  {
    var below: seq<Level> := levels1[ns..];
    forall n | HasNode(below, n) ensures HasNode(levels, n) {
      var l, j :| 0 <= l < |below| && 0 <= j < |below[l]| && below[l][j].Edge? && below[l][j].node == n;
      assert levels1[ns + l][j] == below[l][j];
      assert HasNode(levels1, n);
    }
    forall l | 0 <= l < ns ensures HasNode(levels, node[l]) {
      assert levels1[l][0] == Edge(node[l], None);
      assert HasNode(levels1, node[l]);
    }
  }

  /** Steps down from the root while it has a single sub-tree, recording the nodes passed in the path. */
  method FindRoot(path: Path, pool: Pool, ghost levels: seq<Level>, ghost pos: seq<nat>, ghost c: nat,
      ghost cap: nat) returns (ns: nat)
    requires path.Valid() && Descended(pool.nodes, levels, cap, c, path.node, path.entry, pos, path.size, 0)
    modifies path`node
    ensures path.Valid() && Descended(pool.nodes, levels, cap, c, path.node, path.entry, pos, path.size, ns) &&
      path.node[0] == old(path.node[0])
    ensures path.node[ns] < |pool.nodes| && !(pool.nodes[path.node[ns]].Inner? && |pool.nodes[path.node[ns]].keys| == 0)
  {
    hide Descended;
    ns := 0;
    DescendedRoot(pool.nodes, levels, cap, c, path.node, path.entry, pos, path.size, 0);
    while pool.nodes[path.node[ns]].Inner? && |pool.nodes[path.node[ns]].keys| == 0
      invariant path.Valid() && ns < MAX_PATH && path.node[ns] < |pool.nodes| && path.node[0] == old(path.node[0])
      invariant Descended(pool.nodes, levels, cap, c, path.node, path.entry, pos, path.size, ns)
      decreases MAX_PATH - ns
    {
      DescendNext(pool.nodes, levels, cap, c, path.node, path.entry, pos, path.size, ns);
      var child := pool.nodes[path.node[ns]].tree[0];
      ns := ns + 1;
      path.node := path.node[ns := child];
      DescendedRoot(pool.nodes, levels, cap, c, path.node, path.entry, pos, path.size, ns);
    }
  }

  lemma DescendedRoot(nodes: Nodes, levels: seq<Level>, cap: nat, c: nat, node: seq<Node>, entry: seq<nat>,
      pos: seq<nat>, size: nat, ns: nat)
    requires Descended(nodes, levels, cap, c, node, entry, pos, size, ns)
    ensures ns < |node| && node[ns] < |nodes|
  {
    hide Almost, Leads;
    AlmostTop(nodes, node[ns], levels[ns..], cap);
  }

  /** Frees the first `ns` nodes of the path. */
  method FreeAbove(path: Path, pool: Pool, ns: nat)
    requires path.Valid() && pool.Valid() && ns <= MAX_PATH
    requires forall l :: 0 <= l < ns ==> path.node[l] < |pool.nodes| && !pool.nodes[path.node[l]].Free?
    requires forall l, l' :: 0 <= l < l' < ns ==> path.node[l] != path.node[l']
    modifies pool
    ensures pool.Valid() && |pool.nodes| == |old(pool.nodes)|
    ensures forall n :: 0 <= n < |pool.nodes| && n !in path.node[..ns] ==> pool.nodes[n] == old(pool.nodes)[n]
    ensures forall l :: 0 <= l < ns ==> pool.nodes[path.node[l]].Free?
  {
    hide PoolOk, NextFree;
    for l := 0 to ns
      invariant pool.Valid() && |pool.nodes| == |old(pool.nodes)|
      invariant forall n :: 0 <= n < |pool.nodes| && n !in path.node[..l] ==> pool.nodes[n] == old(pool.nodes)[n]
      invariant forall i :: 0 <= i < l ==> pool.nodes[path.node[i]].Free?
    {
      assert path.node[l] !in path.node[..l];
      pool.FreeNode(path.node[l]);
      assert path.node[..l + 1] == path.node[..l] + [path.node[l]];
    }
  }

  /** Discards roots that have shrunk to a single sub-tree. */
  method CollapseRoot(path: Path, pool: Pool, ghost nodes0: Nodes, ghost root: Node, ghost levels: seq<Level>,
      ghost levels1: seq<Level>, ghost pos: seq<nat>, ghost c: nat, ghost cap: nat)
    returns (ghost levels': seq<Level>, ghost pos': seq<nat>)
    requires path.Valid() && pool.Valid() && |levels| <= MAX_PATH + 1
    requires Shrunk(nodes0, pool.nodes, root, levels, levels1, cap, c, path.node, path.entry, pos, path.size)
    requires Freed(pool.nodes, levels, levels1)
    modifies path, pool
    ensures path.Valid() && pool.Valid() && Freed(pool.nodes, levels, levels')
    ensures EntryRemoved(nodes0, pool.nodes, path.node[0], levels, levels', cap, c, path.node, path.entry, pos',
      path.size)
  {
    hide PoolOk, NextFree, Almost, Leads, OnPath, HasNode, NodesWithin, OnlyWithin, RemoveAt, PointsAtOrOff,
      EntryRemoved, Descended, Freed, Shrunk;
    ghost var nodes1 := pool.nodes;
    ShrunkFacts(nodes0, nodes1, root, levels, levels1, cap, c, path.node, path.entry, pos, path.size);
    DescendFirst(nodes0, nodes1, root, levels, levels1, cap, c, path.node, path.entry, pos, path.size);
    var ns := FindRoot(path, pool, levels1, pos, c, cap);
    DescendedSole(nodes1, levels1, cap, c, path.node, path.entry, pos, path.size, ns);
    DiscardedApart(nodes1, root, levels1, cap, ns, path.node);
    ghost var node1, entry1, size1 := path.node, path.entry, path.size;
    FreeAbove(path, pool, ns);
    CollapseDone(nodes0, nodes1, pool.nodes, levels, levels1, cap, c, node1, entry1, pos, size1, ns);
    FreedAbove(nodes1, pool.nodes, levels, levels1, node1, ns);
    levels', pos' := levels1[ns..], if size1 > 0 then pos[ns..] else pos;
    if ns > 0 {
      path.node, path.entry := Shifted(path.node, ns), Shifted(path.entry, ns);
      if path.size > 0 {
        path.size := path.size - ns;
      }
    } else {
      NotShifted(node1);
      NotShifted(entry1);
    }
  }

  lemma NotShifted<T>(s: seq<T>)
    ensures Shifted(s, 0) == s
  {
  }

  lemma ShrunkFacts(nodes0: Nodes, nodes: Nodes, root: Node, levels: seq<Level>, levels': seq<Level>, cap: nat, c: nat,
      node: seq<Node>, entry: seq<nat>, pos: seq<nat>, size: nat)
    requires Shrunk(nodes0, nodes, root, levels, levels', cap, c, node, entry, pos, size)
    ensures Almost(nodes, root, levels', cap) && |levels'| == |levels| > 0 && c < |levels[|levels| - 1]|
    ensures levels'[|levels| - 1] == RemoveAt(levels[|levels| - 1], c)
    ensures NodesWithin(levels, levels') && OnlyWithin(nodes0, nodes, levels)
  {
    hide PointsAtOrOff, NodesWithin, OnlyWithin, RemoveAt, PrefixOk, LeavesOk, Sorted;
  }

  /** With the discarded roots, all nodes gone from the tree are free. */
  lemma {:induction false} FreedAbove(nodes: Nodes, nodes': Nodes, levels: seq<Level>, levels1: seq<Level>,
      node: seq<Node>, ns: nat)
    requires Freed(nodes, levels, levels1) && |nodes'| == |nodes| && ns <= |levels1| && ns <= |node|
    requires forall n :: 0 <= n < |nodes| && n !in node[..ns] ==> nodes'[n] == nodes[n]
    requires forall l :: 0 <= l < ns ==>
      levels1[l] == [Edge(node[l], None)] && node[l] < |nodes| && nodes'[node[l]].Free?
    ensures Freed(nodes', levels, levels1[ns..])
  {
    forall n: Node | HasNode(levels, n) && !HasNode(levels1[ns..], n) ensures n < |nodes'| && nodes'[n].Free? {
      if HasNode(levels1, n) {
        SplitHas(levels1, ns, n);
        var l, j :| 0 <= l < ns && 0 <= j < |levels1[..ns][l]| && levels1[..ns][l][j].Edge? &&
          levels1[..ns][l][j].node == n;
        assert levels1[l] == [Edge(node[l], None)];
      }
    }
  }

  lemma {:induction false} SplitHas(levels: seq<Level>, ns: nat, n: Node)
    requires ns <= |levels| && HasNode(levels, n)
    ensures HasNode(levels[..ns], n) || HasNode(levels[ns..], n)
  {
    var l, j :| 0 <= l < |levels| && 0 <= j < |levels[l]| && levels[l][j].Edge? && levels[l][j].node == n;
    if l < ns { HasNodeAt(levels[..ns], l, j); } else { HasNodeAt(levels[ns..], l - ns, j); }
  }

  lemma FreedSelf(nodes: Nodes, lv: seq<Level>)
    ensures Freed(nodes, lv, lv)
  {
  }

  lemma {:induction false} FreedLevels(nodes: Nodes, levels: seq<Level>, lv: seq<Level>, lv': seq<Level>,
      contents: Level)
    requires |levels| > 0 && Sorted(levels[|levels| - 1]) && SameNodes(levels[..|levels| - 1], lv) &&
      Freed(nodes, lv, lv')
    ensures Freed(nodes, levels, lv' + [contents]) && (lv' == [] ==> Freed(nodes, levels, []))
  {
    hide SameNodes;
    FreedAfter(nodes, levels[..|levels| - 1], lv, lv');
    forall n: Node | HasNode(levels, n) && !HasNode(lv', n) ensures n < |nodes| && nodes[n].Free? {
      var l, j :| 0 <= l < |levels| && 0 <= j < |levels[l]| && levels[l][j].Edge? && levels[l][j].node == n;
      assert l < |levels| - 1;
      HasNodeAt(levels[..|levels| - 1], l, j);
    }
    forall n: Node | HasNode(lv', n) ensures HasNode(lv' + [contents], n) {
      var l, j :| 0 <= l < |lv'| && 0 <= j < |lv'[l]| && lv'[l][j].Edge? && lv'[l][j].node == n;
      assert (lv' + [contents])[l] == lv'[l];
      HasNodeAt(lv' + [contents], l, j);
    }
  }

  lemma DescendedSole(nodes: Nodes, levels: seq<Level>, cap: nat, c: nat, node: seq<Node>, entry: seq<nat>,
      pos: seq<nat>, size: nat, ns: nat)
    requires Descended(nodes, levels, cap, c, node, entry, pos, size, ns)
    ensures ns + 2 <= |levels| && ns < MAX_PATH == |node| == |entry| &&
      (forall l :: 0 <= l <= ns ==> levels[l] == [Edge(node[l], None)])
    ensures size > 0 ==> ns < size == |pos|
  {
    hide Almost, Leads;
  }

  // ---- removal ----

  /** A tree is never empty. */
  lemma {:induction false} ContentsNonempty(nodes: Nodes, root: Node, levels: seq<Level>, cap: nat)
    requires TreeOk(nodes, root, levels, cap)
    ensures |levels| >= 2 && |levels[|levels| - 1]| > 0
  {
    LevelNonempty(nodes, root, levels, cap, |levels| - 1);
  }

  lemma {:induction false} LevelNonempty(nodes: Nodes, root: Node, levels: seq<Level>, cap: nat, l: nat)
    requires TreeOk(nodes, root, levels, cap) && l < |levels|
    ensures |levels[l]| > 0
  {
    hide Distinct, HalfOk, SepsOk, Sorted, ExpandAll;
    if l > 0 {
      LevelNonempty(nodes, root, levels, cap, l - 1);
      var es := levels[l - 1];
      assert KindOk(nodes, es, l - 1 < |levels| - 2, cap);
      ItemSize(nodes, es, 0, l - 1 < |levels| - 2, cap);
      ExpandAround(nodes, es, 0);
    }
  }

  /** The leaf was the root, and its only entry is gone. */
  lemma {:induction false} LastEntry(nodes0: Nodes, nodes1: Nodes, nodes': Nodes, root: Node, levels: seq<Level>,
      cap: nat, node: seq<Node>, entry: seq<nat>, pos: seq<nat>, c: nat)
    requires Taken(nodes0, nodes1, root, levels, cap, node, entry, pos, 1, c, Empty) &&
      OnlyAbove(nodes1, nodes', levels[..1], node[0])
    ensures |levels| == 2 && |levels[1]| == 1 && OnlyWithin(nodes0, nodes', levels)
  {
    hide TreeOk, PointsAt, PrefixOk, KindOk, HalfOk, SepsOk, ExpandAll, Leads, OnPath, Offset, DropItem, Reached,
      StatusOk, KindExcept, HalfExcept, Apart, Entries;
    LeafAt(nodes0, root, levels, cap, node, entry, pos, 1, c);
    OneEntry(nodes0[node[0]], entry[0], cap);
    AlmostTop(nodes0, root, levels, cap);
    ExpandOne(nodes0, levels[0][0]);
    ItemSize(nodes0, levels[0], 0, false, cap);
    assert levels[..1][..0] == [];
    HasNodeAt(levels, 0, 0);
  }

  lemma {:induction false} HealthyDone(nodes0: Nodes, nodes: Nodes, root: Node, levels: seq<Level>, lv: seq<Level>,
      cap: nat, c: nat, node: seq<Node>, entry: seq<nat>, pos: seq<nat>, size: nat)
    requires size == |levels| - 1 > 0 && c < |levels[size]| && Sorted(levels[size]) && SameNodes(levels[..size], lv) &&
      OnlyWithin(nodes0, nodes, levels)
    requires Reached(nodes, root, lv, cap, node, entry, pos, size - 1) &&
      StatusOk(nodes, node[size - 1], entry[size - 1], Healthy, cap)
    requires KindOk(nodes, lv[size - 1], false, cap) && HalfExcept(nodes, lv[size - 1], pos[size - 1], cap) &&
      SepsOk(nodes, lv[size - 1])
    requires ExpandAll(nodes, lv[size - 1]) == RemoveAt(levels[size], c)
    requires pos[size - 1] < |lv[size - 1]| && Offset(nodes, lv[size - 1], pos[size - 1]) + entry[size - 1] == c
    ensures EntryRemoved(nodes0, nodes, root, levels, lv + [RemoveAt(levels[size], c)], cap, c, node, entry, pos,
      size) && node[0] == root
  {
    hide PrefixOk, OnPath, KindOk, HalfExcept, HalfOk, SepsOk, ExpandAll, SubLevels, SameNodes, OnlyWithin, RemoveAt,
      NodesWithin, HasNode, Offset, Entries, TreeOk, Almost;
    ReachedItem(nodes, root, lv, cap, node, entry, pos, size - 1);
    HalfIsHealed(nodes, root, lv, cap, node, entry, pos, size - 1, false);
    SortedWithout(levels[size], c);
    SameLength(levels[..size], lv);
    MakeAlmost(nodes, root, lv, cap);
    AlmostIsTree(nodes, root, lv + [RemoveAt(levels[size], c)], cap);
    SameIsSub(levels[..size], lv);
    SubWithin(levels, size, lv, RemoveAt(levels[size], c));
    assert (lv + [RemoveAt(levels[size], c)])[..size] == lv;
    LeadsAt(nodes, lv, node, entry, pos, false, cap);
    TargetAt(nodes, lv[size - 1], pos[size - 1], entry[size - 1], false, cap);
    PathRoot(nodes, root, lv, cap, node, entry, pos);
  }

  lemma PathRoot(nodes: Nodes, root: Node, lv: seq<Level>, cap: nat, node: seq<Node>, entry: seq<nat>, pos: seq<nat>)
    requires PrefixOk(nodes, root, lv, cap) && OnPath(nodes, lv, node, entry, pos)
    ensures node[0] == root
  {
    hide Distinct, HalfOk, KindOk, ExpandAll, Offset, Entries;
  }

  lemma {:induction false} TakenSetup(nodes0: Nodes, nodes1: Nodes, root: Node, levels: seq<Level>, cap: nat,
      node: seq<Node>, entry: seq<nat>, pos: seq<nat>, size: nat, c: nat, status: Removed)
    requires Taken(nodes0, nodes1, root, levels, cap, node, entry, pos, size, c, status)
    ensures |levels| == size + 1 > 1 && PrefixOk(nodes1, root, levels[..size], cap) &&
      OnPath(nodes1, levels[..size], node, entry, pos)
    ensures node[0] == root && OnlyWithin(nodes1, nodes1, levels[..size - 1]) &&
      SameNodes(levels[..size], levels[..size])
    ensures Sorted(levels[size]) && levels[..size][..size - 1] == levels[..size - 1] &&
      levels[..size][size - 1] == levels[size - 1]
  {
    hide PointsAt, PrefixOk, OnPath, KindOk, HalfOk, SepsOk, ExpandAll, KindExcept, HalfExcept, Distinct, Chain,
      StatusOk, Droppable, SameNodes;
    TakenFacts(nodes0, nodes1, root, levels, cap, node, entry, pos, size, c, status);
    PathRoot(nodes1, root, levels[..size], cap, node, entry, pos);
    NothingChanged(nodes1, root, levels[..size], cap);
  }

  /** Makes the first key of the reduced leaf its critical key, if it has lost its first entry. */
  method RefreshCritKey(path: Path, pool: Pool, ghost nodes0: Nodes, status: Removed, ghost root: Node,
      ghost levels: seq<Level>, ghost pos: seq<nat>, ghost c: nat, ghost cap: nat)
    returns (ghost lv: seq<Level>)
    requires path.Valid() && pool.Valid() && path.size > 0 && !status.Empty?
    requires Taken(nodes0, pool.nodes, root, levels, cap, path.node, path.entry, pos, path.size, c, status)
    modifies pool`nodes
    ensures pool.Valid() && path.size == |levels| - 1 && |lv| == |pos| == path.size &&
      SameNodes(levels[..path.size], lv) && OnlyWithin(nodes0, pool.nodes, levels)
    ensures Reached(pool.nodes, root, lv, cap, path.node, path.entry, pos, path.size - 1)
    ensures StatusOk(pool.nodes, path.node[path.size - 1], path.entry[path.size - 1], status, cap) &&
      pool.nodes[path.node[path.size - 1]].Leaf?
    ensures KindOk(pool.nodes, lv[path.size - 1], false, cap) &&
      HalfExcept(pool.nodes, lv[path.size - 1], pos[path.size - 1], cap) && SepsOk(pool.nodes, lv[path.size - 1])
    ensures c < |levels[path.size]| && ExpandAll(pool.nodes, lv[path.size - 1]) == RemoveAt(levels[path.size], c)
    ensures pos[path.size - 1] < |lv[path.size - 1]| &&
      Offset(pool.nodes, lv[path.size - 1], pos[path.size - 1]) + path.entry[path.size - 1] == c
  {
    hide PoolOk, NextFree, PrefixOk, OnPath, KindOk, HalfExcept, SepsOk, ExpandAll, Offset, RemoveAt, OnlyWithin,
      SameNodes, Taken, Reached, StatusOk, KindExcept, Droppable;
    ghost var nodes1 := pool.nodes;
    TakenFacts(nodes0, nodes1, root, levels, cap, path.node, path.entry, pos, path.size, c, status);
    TakenSetup(nodes0, nodes1, root, levels, cap, path.node, path.entry, pos, path.size, c, status);
    ReachedItem(nodes1, root, levels[..path.size], cap, path.node, path.entry, pos, path.size - 1);
    lv := levels[..path.size];
    if path.entry[path.size - 1] == 0 {
      lv := path.UpdateCritKey(pool, root, lv, pos, cap);
    }
    SameLength(levels[..path.size], lv);
    TakenRekeyed(nodes0, nodes1, pool.nodes, root, levels, lv, cap, path.node, path.entry, pos, path.size, c, status);
  }

  method BalanceNodes(path: Path, pool: Pool, status: Removed, ghost nodes0: Nodes, ghost root: Node,
      ghost levels: seq<Level>, ghost pos: seq<nat>, ghost c: nat, cap: nat)
    returns (r: Option<Node>, ghost levels': seq<Level>, ghost pos': seq<nat>)
    requires path.Valid() && pool.Valid() && path.size > 0
    requires Taken(nodes0, pool.nodes, root, levels, cap, path.node, path.entry, pos, path.size, c, status)
    modifies path, pool
    ensures path.Valid() && pool.Valid() && Freed(pool.nodes, levels, if r.None? then [] else levels')
    ensures r.None? ==> |levels| == 2 && |levels[1]| == 1 && path.size == 0 && OnlyWithin(nodes0, pool.nodes, levels)
    ensures r.Some? ==>
      EntryRemoved(nodes0, pool.nodes, r.value, levels, levels', cap, c, path.node, path.entry, pos', path.size)
  {
    hide PoolOk, NextFree, PrefixOk, OnPath, KindOk, HalfExcept, SepsOk, ExpandAll, Offset, RemoveAt, OnlyWithin,
      SameNodes, Taken, Reached, StatusOk, KindExcept, Droppable, Healed, LeadsOrOff, Emptied, AtOrOff, Shrunk,
      EntryRemoved, OnlyAbove, Freed;
    ghost var nodes1, node0, entry0, size := pool.nodes, path.node, path.entry, path.size;
    TakenFacts(nodes0, nodes1, root, levels, cap, path.node, path.entry, pos, path.size, c, status);
    TakenSetup(nodes0, nodes1, root, levels, cap, path.node, path.entry, pos, path.size, c, status);
    ReachedItem(nodes1, root, levels[..size], cap, path.node, path.entry, pos, size - 1);
    ghost var lv: seq<Level> := levels[..path.size];
    if !status.Empty? {
      lv := RefreshCritKey(path, pool, nodes0, status, root, levels, pos, c, cap);
      KindIsExcept(pool.nodes, lv[size - 1], pos[size - 1], false, cap);
    }
    ghost var nodes2 := pool.nodes;
    var leafLevel := path.size - 1;
    var treeEmpty;
    ghost var lv', pos1;
    treeEmpty, lv', pos1 := HealLevel(path, pool, status, leafLevel, root, lv, pos, false, cap);
    FreedLevels(pool.nodes, levels, lv, if treeEmpty then [] else lv', RemoveAt(levels[size], c));
    if treeEmpty {
      LastEntry(nodes0, nodes1, pool.nodes, root, levels, cap, node0, entry0, pos, c);
      path.size := 0;
      return None, levels, pos;
    }
    if status.Empty? {
      EmptiedShrunk(nodes0, nodes1, pool.nodes, root, levels, lv', cap, node0, entry0, pos, c, path.node, path.entry,
        pos1, path.size, size);
    } else {
      HealedShrunk(nodes0, nodes2, pool.nodes, root, levels, lv, lv', cap, c, path.node, path.entry, pos1, path.size,
        size);
    }
    levels', pos' := CollapseRoot(path, pool, nodes0, root, levels, lv' + [RemoveAt(levels[size], c)], pos1, c, cap);
    r := Some(path.node[0]);
  }

  lemma KindIsExcept(nodes: Nodes, es: Level, g: nat, inner: bool, cap: nat)
    requires KindOk(nodes, es, inner, cap)
    ensures KindExcept(nodes, es, g, inner, cap)
  {
  }

  /** Removes the entry the path points at and moves the path to its successor, or off the end. */
  method Remove(path: Path, pool: Pool, ghost root: Node, ghost levels: seq<Level>, ghost pos: seq<nat>, ghost c: nat,
      cap: nat)
    returns (r: Option<Node>, ghost levels': seq<Level>, ghost pos': seq<nat>)
    requires path.Valid() && pool.Valid() && cap >= 3
    requires TreeOk(pool.nodes, root, levels, cap) &&
      PointsAt(pool.nodes, levels, path.node, path.entry, pos, path.size, c)
    modifies path, pool
    ensures path.Valid() && pool.Valid() && Freed(pool.nodes, levels, if r.None? then [] else levels')
    ensures r.None? <==> |levels[|levels| - 1]| == 1
    ensures r.None? ==> path.size == 0 && OnlyWithin(old(pool.nodes), pool.nodes, levels)
    ensures r.Some? ==>
      EntryRemoved(old(pool.nodes), pool.nodes, r.value, levels, levels', cap, c, path.node, path.entry, pos',
        path.size)
  {
    hide PoolOk, NextFree, PrefixOk, OnPath, KindOk, HalfExcept, SepsOk, ExpandAll, Offset, OnlyWithin, SameNodes,
      Taken, Reached, Leads, TreeOk, LeafRemove, NodesWithin, Almost, PointsAtOrOff, Freed;
    ghost var nodes0 := pool.nodes;
    LeafAt(nodes0, root, levels, cap, path.node, path.entry, pos, path.size, c);
    var e := path.entry[path.size - 1];
    var (leaf, status) := LeafRemove(pool.nodes[path.node[path.size - 1]], e, cap);
    TakenNow(nodes0, root, levels, cap, path.node, path.entry, pos, path.size, c);
    pool.SetNode(path.node[path.size - 1], leaf);
    if status.Healthy? {
      TakenSetup(nodes0, pool.nodes, root, levels, cap, path.node, path.entry, pos, path.size, c, status);
      ghost var lv := RefreshCritKey(path, pool, nodes0, status, root, levels, pos, c, cap);
      HealthyDone(nodes0, pool.nodes, root, levels, lv, cap, c, path.node, path.entry, pos, path.size);
      FreedSelf(pool.nodes, lv);
      FreedLevels(pool.nodes, levels, lv, lv, RemoveAt(levels[path.size], c));
      levels', pos' := lv + [RemoveAt(levels[path.size], c)], pos;
      r := Some(path.node[0]);
    } else {
      r, levels', pos' := BalanceNodes(path, pool, status, nodes0, root, levels, pos, c, cap);
    }
    if r.Some? { ContentsNonempty(pool.nodes, r.value, levels', cap); }
  }

  lemma TakenNow(nodes: Nodes, root: Node, levels: seq<Level>, cap: nat, node: seq<Node>, entry: seq<nat>,
      pos: seq<nat>, size: nat, c: nat)
    requires cap >= 3 && TreeOk(nodes, root, levels, cap) && PointsAt(nodes, levels, node, entry, pos, size, c) &&
      |node| == |entry| == MAX_PATH
    ensures 0 < size <= MAX_PATH && node[size - 1] < |nodes|
    ensures
      var nd, e := nodes[node[size - 1]], entry[size - 1];
      && nd.Leaf? && |nd.keys| == |nd.vals| && e < |nd.keys|
      && Taken(nodes, nodes[node[size - 1] := LeafRemove(nd, e, cap).0], root, levels, cap, node, entry, pos, size, c,
        LeafRemove(nd, e, cap).1)
      && LeafRemove(nd, e, cap).0.Leaf?
  {
    hide TreeOk, PointsAt;
    LeafAt(nodes, root, levels, cap, node, entry, pos, size, c);
  }
}
