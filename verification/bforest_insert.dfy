/** Insertion: into the leaf if it has room, otherwise splitting nodes on the way up. */
module BForestInsert {
  import opened Wrappers
  import opened BForestNode
  import opened BForestLevels
  import opened BForestPath
  import opened BForestEdit
  import opened BForestPool
  import opened BForestCursor
  import opened BForestHeal
  import opened BForestRemove
  import opened BForestRemoval
  import opened BForestGrow

  // ---- the height of a tree ----

  function Pow4(n: nat): nat {
    if n == 0 then 1 else 4 * Pow4(n - 1)
  }

  /** Every node but the last of a level has at least four entries. */
  lemma {:induction false} FourEach(nodes: Nodes, es: Level, j: nat, inner: bool, cap: nat)
    requires KindOk(nodes, es, inner, cap) && HalfOk(nodes, es, cap) && j < |es| && cap >= 7
    ensures Offset(nodes, es, j) >= 4 * j
  {
    hide ExpandAll, WellShaped;
    if j > 0 {
      FourEach(nodes, es, j - 1, inner, cap);
      ItemSize(nodes, es, j - 1, inner, cap);
      ExpandAround(nodes, es, j - 1);
    }
  }

  lemma {:induction false} LevelGrows(nodes: Nodes, es: Level, inner: bool, cap: nat)
    requires KindOk(nodes, es, inner, cap) && HalfOk(nodes, es, cap) && |es| > 0 && cap >= 7
    ensures |ExpandAll(nodes, es)| >= 4 * (|es| - 1) + 1
  {
    hide ExpandAll, KindOk, HalfOk;
    FourEach(nodes, es, |es| - 1, inner, cap);
    ItemSize(nodes, es, |es| - 1, inner, cap);
    ExpandAround(nodes, es, |es| - 1);
  }

  lemma {:induction false} LevelSize(nodes: Nodes, root: Node, levels: seq<Level>, cap: nat, l: nat)
    requires TreeOk(nodes, root, levels, cap) && cap >= 7 && |levels| > 2 && 1 <= l < |levels|
    ensures |levels[l]| >= Pow4(l - 1) + 1
  {
    hide ExpandAll, KindOk, HalfOk, Distinct, SepsOk, Sorted;
    if l > 1 {
      LevelSize(nodes, root, levels, cap, l - 1);
      assert KindOk(nodes, levels[l - 1], l - 1 < |levels| - 2, cap) && HalfOk(nodes, levels[l - 1], cap);
      LevelGrows(nodes, levels[l - 1], l - 1 < |levels| - 2, cap);
    }
  }

  const MAX_ENTRIES: nat := 0x1_0000_0000

  /** A tree of at least two node levels has more than 4^(height - 1) entries; with at most 2^32 entries,
      no path is longer than the path arrays. */
  lemma {:induction false} HeightBound(nodes: Nodes, root: Node, levels: seq<Level>, cap: nat)
    requires TreeOk(nodes, root, levels, cap) && cap >= 7
    ensures |levels| > 2 ==> |levels[|levels| - 1]| >= Pow4(|levels| - 2) + 1
    ensures |levels[|levels| - 1]| <= MAX_ENTRIES ==> |levels| - 1 <= MAX_PATH
  {
    hide ExpandAll, KindOk, HalfOk, Distinct, SepsOk, Sorted;
    if |levels| > 2 {
      LevelSize(nodes, root, levels, cap, |levels| - 1);
      if |levels| - 1 > MAX_PATH { Pow4Grows(MAX_PATH, |levels| - 2); }
    }
  }

  lemma {:induction false} Pow4Grows(m: nat, n: nat)
    requires m <= n
    ensures Pow4(m) <= Pow4(n) && Pow4(MAX_PATH) == MAX_ENTRIES
  {
    assert Pow4(4) == 256;
    assert Pow4(8) == 65536;
    assert Pow4(12) == 16777216;
    if m < n { Pow4Grows(m, n - 1); }
  }

  // ---- where an entry is inserted ----

  /** The path points at the place, before entry `c` of the contents, where a new entry goes. */
  ghost predicate InsertsAt(nodes: Nodes, levels: seq<Level>, node: seq<Node>, entry: seq<nat>, pos: seq<nat>,
      size: nat, c: nat) {
    && |levels| >= 2 && size == |levels| - 1 <= |node| && OnPath(nodes, levels[..size], node, entry, pos)
    && node[size - 1] < |nodes| && entry[size - 1] <= Entries(nodes[node[size - 1]])
    && Offset(nodes, levels[size - 1], pos[size - 1]) + entry[size - 1] == c
    && (entry[size - 1] > 0 || pos[size - 1] == 0)
  }

  /** The new entry is in place, the tree is proper, and the path points at the entry. */
  ghost predicate EntryInserted(nodes0: Nodes, nodes: Nodes, root: Node, levels: seq<Level>, levels': seq<Level>,
      cap: nat, c: nat, x: Item, node: seq<Node>, entry: seq<nat>, pos: seq<nat>, size: nat) {
    && TreeOk(nodes, root, levels', cap) && |levels| > 0 && c <= |levels[|levels| - 1]|
    && levels'[|levels'| - 1] == InsertAt(levels[|levels| - 1], c, x)
    && PointsAt(nodes, levels', node, entry, pos, size, c)
    && GrowsWithin(nodes0, nodes, levels, levels')
  }

  /** Only the tree's own nodes and free nodes have been touched or taken. */
  ghost predicate GrowsWithin(nodes: Nodes, nodes': Nodes, levels: seq<Level>, levels': seq<Level>) {
    && |nodes| <= |nodes'|
    && (forall n :: 0 <= n < |nodes| && !nodes[n].Free? && !HasNode(levels, n) ==> nodes'[n] == nodes[n])
    && (forall n :: 0 <= n < |nodes| && !nodes[n].Free? ==> !nodes'[n].Free?)
    && (forall n: Node :: HasNode(levels', n) && n < |nodes| && !nodes[n].Free? ==> HasNode(levels, n))
    && (forall n: Node :: HasNode(levels, n) ==> HasNode(levels', n))
    && NoneLost(nodes, nodes', levels, levels')
  }

  /** No node but `n` and `added` has changed. */
  ghost predicate ChangedBut(nodes: Nodes, nodes': Nodes, n: Node, added: Node) {
    |nodes| <= |nodes'| && forall m :: 0 <= m < |nodes'| && m != n && m != added ==>
      m < |nodes| && nodes'[m] == nodes[m]
  }

  /** Before anything is split. */
  ghost predicate Full(nodes: Nodes, levels: seq<Level>, cap: nat, node: seq<Node>, entry: seq<nat>, pos: seq<nat>,
      c: nat, x: Item) {
    && cap >= 2 && 2 <= |levels| == |pos| && |levels| - 1 <= |node| == |entry| && x.Pair?
    && LinksOk(nodes, levels, 0, |levels| - 1, cap) && Distinct(levels) && SepsOk(nodes, levels[|levels| - 2]) &&
      Sorted(levels[|levels| - 1])
    && StepsOk(nodes, levels, node, entry, pos, 0, |levels| - 2)
    && var f := |levels| - 2;
    && pos[f] < |levels[f]| && levels[f][pos[f]].Edge? && levels[f][pos[f]].node == node[f] < |nodes|
    && entry[f] <= Entries(nodes[node[f]]) && Offset(nodes, levels[f], pos[f]) + entry[f] == c &&
      (entry[f] > 0 || pos[f] == 0)
    && c <= |levels[f + 1]| && Sorted(InsertAt(levels[f + 1], c, x))
  }

  // ---- splitting ----

  /** `added` is a node taken from the pool, and `n` has been rewritten. */
  ghost predicate Halved(nodes: Nodes, nodes': Nodes, n: Node, g: Grown, added: Node) {
    && n < |nodes| && !nodes[n].Free? && (added >= |nodes| || nodes[added].Free?) && added < |nodes'|
    && ChangedOnly(nodes, nodes', n) && ChangedBut(nodes, nodes', n, added) && nodes'[n] == g.lhs &&
      nodes'[added] == g.rhs
  }

  lemma {:induction false} HalvedLevel(nodes: Nodes, nodes': Nodes, es: Level, p: nat, g: Grown, added: Node,
      inner: bool, cap: nat)
    requires KindOk(nodes, es, inner, cap) && Apart(es) && p < |es| && Halved(nodes, nodes', es[p].node, g, added)
    ensures SplitInto(nodes, nodes', es, p, g, added)
  {
  }

  /** The parent is full: it is split, and the climb goes on one level up. */
  lemma {:induction false} SplitParent(nodes: Nodes, nodes': Nodes, levels: seq<Level>, new': seq<Level>, d: nat,
      key: Key, ins: Node, cap: nat, node: seq<Node>, entry: seq<nat>, pos: seq<nat>, npos: seq<nat>, added: Node)
    requires Growing(nodes, levels, new', d, key, ins, cap, node, entry, pos, npos) && d > 0 && node[d - 1] < |nodes|
    requires nodes[node[d - 1]].Inner? && WellShaped(nodes[node[d - 1]], cap) &&
      Entries(nodes[node[d - 1]]) == INNER_SIZE && entry[d - 1] < INNER_SIZE
    requires Halved(nodes, nodes', node[d - 1], GrowInner(nodes[node[d - 1]], entry[d - 1], key, ins, cap), added)
    ensures pos[d - 1] < |levels[d - 1]| && levels[d - 1][pos[d - 1]].Edge?
    ensures
      var g := GrowInner(nodes[node[d - 1]], entry[d - 1], key, ins, cap);
      var new'' := new'[d - 1 := SplitItem(levels[d - 1], pos[d - 1], g.critKey, added)];
      var node' := if g.moved then node[d - 1 := added] else node;
      var entry' := entry[d - 1 := if node[d] == ins then g.entry + 1 else g.entry];
      var npos' := npos[d - 1 := if g.moved then pos[d - 1] + 1 else pos[d - 1]];
      Growing(nodes', levels, new'', d - 1, g.critKey, added, cap, node', entry', pos, npos')
  {
    hide LinkOk, StepOk, Distinct, SepsOk, Sorted, SplitItem, Apart, Without, WellShaped, GrowInner, Entries, Offset,
      ExpandAll, KindOk, HalfOk, SplitInto;
    ParentOnPath(nodes, levels, new', d, key, ins, cap, node, entry, pos, npos);
    StepItem(nodes, levels, node, entry, pos, d - 1);
    LinkKind(nodes, levels, d - 1, cap);
    var P, p, e, h := node[d - 1], pos[d - 1], entry[d - 1], |levels| - 1;
    var g := GrowInner(nodes[P], e, key, ins, cap);
    HalvedLevel(nodes, nodes', levels[d - 1], p, g, added, true, cap);
    SplitInnerLevel(nodes, nodes', levels[d - 1], p, e, key, ins, added, cap);
    var new'' := new'[d - 1 := SplitItem(levels[d - 1], p, g.critKey, added)];
    var node' := if g.moved then node[d - 1 := added] else node;
    var entry' := entry[d - 1 := if node[d] == ins then g.entry + 1 else g.entry];
    var npos' := npos[d - 1 := if g.moved then p + 1 else p];
    LinksKept(nodes, nodes', levels, 0, d - 1, cap, P);
    LinksKept(nodes, nodes', new', d, h, cap, P);
    LinksCopied(nodes', new', new'', d, h, cap);
    MakeLink(nodes', new'', d - 1, cap);
    StepsKept(nodes, nodes', levels, 0, d - 1, cap, P, node, entry, pos, node', entry', pos);
    StepsKept(nodes, nodes', new', d, h, cap, P, node, entry, npos, node', entry', npos');
    StepsCopied(nodes', new', new'', node', entry', npos', d, h);
    SplitPosition(levels[d - 1], p, g.critKey, added);
    MakeStep(nodes', new'', node', entry', npos', d - 1);
    LeafLevelKept(nodes, nodes', new', cap, P);
    forall l | 0 <= l < |new'| ensures Without(new'[l], added) {
      if l >= d { AddedApart(nodes, new', d, l, cap, added); } else { AddedAbove(nodes, levels, d, l, cap, added); }
    }
    SplitDistinct(new', d - 1, p, g.critKey, added);
  }

  lemma SplitPosition(es: Level, p: nat, key: Key, added: Node)
    requires p < |es| && es[p].Edge?
    ensures
      var es' := SplitItem(es, p, key, added);
      |es'| == |es| + 1 && es'[p] == Edge(es[p].node, Some(key)) && es'[p + 1] == Edge(added, es[p].upper)
  {
  }

  lemma {:induction false} AddedAbove(nodes: Nodes, lv: seq<Level>, hi: nat, l: nat, cap: nat, added: Node)
    requires l < hi && LinksOk(nodes, lv, 0, hi, cap) && (added >= |nodes| || nodes[added].Free?)
    ensures l < |lv| && Without(lv[l], added)
  {
    hide ExpandAll, HalfOk;
    assert LinkOk(nodes, lv, l, cap);
  }

  /** The leaf is full: it is split, and the climb begins. */
  lemma {:induction false} SplitFull(nodes: Nodes, nodes': Nodes, levels: seq<Level>, cap: nat, node: seq<Node>,
      entry: seq<nat>, pos: seq<nat>, c: nat, key: Key, val: Val, f: nat, g: Grown, added: Node)
    requires Full(nodes, levels, cap, node, entry, pos, c, Pair(key, val)) && f == |levels| - 2
    requires nodes[node[f]].Leaf? && WellShaped(nodes[node[f]], cap) && Entries(nodes[node[f]]) == cap
    requires g == GrowLeaf(nodes[node[f]], entry[f], key, val, cap) && Halved(nodes, nodes', node[f], g, added)
    ensures
      var new' := levels[f := SplitItem(levels[f], pos[f], g.critKey, added)];
      var new'' := new'[f + 1 := InsertAt(levels[f + 1], c, Pair(key, val))];
      var node' := if g.moved then node[f := added] else node;
      var npos' := pos[f := if g.moved then pos[f] + 1 else pos[f]][f + 1 := c];
      Growing(nodes', levels, new'', f, g.critKey, added, cap, node', entry[f := g.entry], pos, npos')
  {
    hide LinkOk, StepOk, Distinct, SepsOk, Sorted, SplitItem, Apart, Without, WellShaped, GrowLeaf, Entries, Offset,
      ExpandAll, KindOk, HalfOk, SplitInto, InsertAt;
    var L, p, e := node[f], pos[f], entry[f];
    assert LinkOk(nodes, levels, f, cap);
    LinkKind(nodes, levels, f, cap);
    LevelApart(levels, f);
    forall l | 0 <= l < |levels| && l != f ensures Without(levels[l], L) { WithoutAt(levels, f, p, l); }
    HalvedLevel(nodes, nodes', levels[f], p, g, added, false, cap);
    SplitLeafLevel(nodes, nodes', levels[f], p, e, key, val, added, cap);
    SplitSeps(nodes, nodes', levels[f], p, e, key, val, added, cap);
    var mid := levels[f := SplitItem(levels[f], p, g.critKey, added)];
    var new' := mid[f + 1 := InsertAt(levels[f + 1], c, Pair(key, val))];
    var node', entry' := if g.moved then node[f := added] else node, entry[f := g.entry];
    var npos' := pos[f := if g.moved then p + 1 else p][f + 1 := c];
    LinksKept(nodes, nodes', levels, 0, f, cap, L);
    MakeLink(nodes', new', f, cap);
    StepsKept(nodes, nodes', levels, 0, f, cap, L, node, entry, pos, node', entry', pos);
    SplitPosition(levels[f], p, g.critKey, added);
    MakeStep(nodes', new', node', entry', npos', f);
    forall l | 0 <= l < |levels| ensures Without(levels[l], added) { AddedApart(nodes, levels, 0, l, cap, added); }
    SplitDistinct(levels, f, p, g.critKey, added);
    ContentsReplaced(mid, InsertAt(levels[f + 1], c, Pair(key, val)));
  }

  lemma {:induction false} ContentsReplaced(lv: seq<Level>, contents: Level)
    requires Distinct(lv) && |lv| > 0 && Sorted(contents)
    ensures Distinct(lv[|lv| - 1 := contents])
  {
    var lv': seq<Level> := lv[|lv| - 1 := contents];
    assert forall l :: 0 <= l < |lv| - 1 ==> lv'[l] == lv[l];
  }

  // ---- finishing ----

  lemma {:induction false} FullNow(nodes: Nodes, root: Node, levels: seq<Level>, cap: nat, node: seq<Node>,
      entry: seq<nat>, pos: seq<nat>, size: nat, c: nat, x: Item)
    requires cap >= 2 && TreeOk(nodes, root, levels, cap) && InsertsAt(nodes, levels, node, entry, pos, size, c) &&
      x.Pair?
    requires c <= |levels[|levels| - 1]| && Sorted(InsertAt(levels[|levels| - 1], c, x))
    ensures |pos| == size && pos[0] == 0 && Full(nodes, levels, cap, node, entry, pos + [c], c, x) &&
      levels[0] == [Edge(root, None)] && (size > 1 ==> |levels[1]| >= 2)
    ensures nodes[node[size - 1]].Leaf? && WellShaped(nodes[node[size - 1]], cap)
  {
    hide OnPath, ExpandAll, KindOk, HalfOk, SepsOk, Distinct, Entries, Offset, Sorted, LinkOk, StepOk, WellShaped;
    TreeLinks(nodes, root, levels, cap);
    PathSteps(nodes, levels[..size], levels[size], node, entry, pos, c);
    assert levels[..size] + [levels[size]] == levels;
    LeafOnPath(nodes, levels[..size], node, entry, pos);
    WellShapedAt(nodes, levels[size - 1], pos[size - 1], false, cap);
    assert LinkOk(nodes, levels, size - 1, cap);
    LiveLeaf(nodes[node[size - 1]], cap);
  }

  lemma LiveLeaf(nd: NodeData, cap: nat)
    requires WellShaped(nd, cap) && !nd.Inner?
    ensures nd.Leaf?
  {
  }

  /** The leaf has room. */
  lemma {:induction false} RoomInLeaf(nodes: Nodes, root: Node, levels: seq<Level>, cap: nat, node: seq<Node>,
      entry: seq<nat>, pos: seq<nat>, size: nat, c: nat, key: Key, val: Val)
    requires cap >= 2 && TreeOk(nodes, root, levels, cap) && InsertsAt(nodes, levels, node, entry, pos, size, c)
    requires c <= |levels[|levels| - 1]| && Sorted(InsertAt(levels[|levels| - 1], c, Pair(key, val)))
    requires nodes[node[size - 1]].Leaf? && WellShaped(nodes[node[size - 1]], cap) &&
      Entries(nodes[node[size - 1]]) < cap
    ensures
      var r := TryLeafInsert(nodes[node[size - 1]], entry[size - 1], key, val, cap);
      && r.Some? && r.value.Leaf?
      && EntryInserted(nodes, nodes[node[size - 1] := r.value], root, levels,
        levels[size := InsertAt(levels[size], c, Pair(key, val))], cap, c, Pair(key, val), node, entry, pos, size)
  {
    hide OnPath, ExpandAll, KindOk, HalfOk, SepsOk, Distinct, Entries, Offset, Sorted, LinkOk, StepOk, WellShaped,
      TreeOk, TryLeafInsert, InsertAt, HasNode, Without, Apart;
    FullNow(nodes, root, levels, cap, node, entry, pos, size, c, Pair(key, val));
    var f, L, h := size - 1, node[size - 1], size;
    LinkKind(nodes, levels, f, cap);
    LevelApart(levels, f);
    EnterInLeaf(nodes, levels[f], pos[f], entry[f], key, val, cap);
    var r := TryLeafInsert(nodes[L], entry[f], key, val, cap);
    var nodes', levels', pos' := nodes[L := r.value], levels[size := InsertAt(levels[size], c, Pair(key, val))],
      pos + [c];
    forall l | 0 <= l < |levels| && l != f ensures Without(levels[l], L) { WithoutAt(levels, f, pos[f], l); }
    LinksKept(nodes, nodes', levels, 0, f, cap, L);
    LinksCopied(nodes', levels, levels', 0, f, cap);
    MakeLink(nodes', levels', f, cap);
    StepsKept(nodes, nodes', levels, 0, f, cap, L, node, entry, pos', node, entry, pos');
    StepsCopied(nodes', levels, levels', node, entry, pos', 0, f);
    MakeStep(nodes', levels', node, entry, pos', f);
    ContentsReplaced(levels, InsertAt(levels[size], c, Pair(key, val)));
    LinksTree(nodes', root, levels', cap);
    StepsPoint(nodes', levels', node, entry, pos', c);
    assert pos'[..size] == pos;
    GrowsNothing(nodes, levels, cap);
    HasNodeAt(levels, f, pos[f]);
    forall l | 0 <= l < |levels'| ensures FromOrNew(levels, levels'[l], |nodes|) {
      if l < size { FromSelf(levels, l, |nodes|); } else { FromPairs(levels, levels'[l], |nodes|); }
    }
    forall l | 0 <= l < |levels| ensures Holds(levels[l], levels'[l]) {
      if l < size {
        HoldsSelf(levels[l]);
      } else {
        LastSorted(nodes, root, levels, cap);
        HoldsPairs(levels[l], levels'[l]);
      }
    }
    HoldsAll(levels, levels');
    GrowsStep(nodes, nodes, nodes', levels, levels, levels', L, |nodes|);
  }

  lemma {:induction false} EnterInLeaf(nodes: Nodes, es: Level, p: nat, e: nat, key: Key, val: Val, cap: nat)
    requires KindOk(nodes, es, false, cap) && HalfOk(nodes, es, cap) && Apart(es) && SepsOk(nodes, es) && p < |es| &&
      (e > 0 || p == 0)
    requires nodes[es[p].node].Leaf? && WellShaped(nodes[es[p].node], cap) && e <= Entries(nodes[es[p].node]) < cap
    ensures |nodes[es[p].node].keys| == |nodes[es[p].node].vals| && e <= |nodes[es[p].node].keys|
    ensures
      var r := TryLeafInsert(nodes[es[p].node], e, key, val, cap);
      && r.Some? && r.value.Leaf? && e < Entries(r.value)
      && var nodes', q := nodes[es[p].node := r.value], Offset(nodes, es, p) + e;
      && q <= |ExpandAll(nodes, es)| && ExpandAll(nodes', es) == InsertAt(ExpandAll(nodes, es), q, Pair(key, val))
      && KindOk(nodes', es, false, cap) && HalfOk(nodes', es, cap) && SepsOk(nodes', es) &&
        Offset(nodes', es, p) == Offset(nodes, es, p)
  {
    hide ExpandAll, Expand, ExpandItem, KindOk, HalfOk, SepsOk, WellShaped, InsertAt, Entries;
    LeavesEdges(nodes, es, cap);
    var nd := nodes[es[p].node];
    LeafEntries(nd, e, key, val, cap);
    LeafInsertExpands(nd, es[p].upper, e, key, val, cap);
    var nodes' := nodes[es[p].node := TryLeafInsert(nd, e, key, val, cap).value];
    OneChanged(nodes, nodes', es, p, false, cap);
    ChangeNode(nodes, nodes', es, p);
    ExpandAround(nodes, es, p);
    ItemIsExpand(nodes, es[p]);
    ItemIsExpand(nodes', es[p]);
    ItemSize(nodes, es, p, false, cap);
    InsertWithin(ExpandAll(nodes, es[..p]), Expand(nd, es[p].upper), ExpandAll(nodes, es[p + 1..]), e, Pair(key, val));
    EnteredSeps(nodes, nodes', es, p, cap);
  }

  lemma LeafEntries(nd: NodeData, e: nat, key: Key, val: Val, cap: nat)
    requires nd.Leaf? && WellShaped(nd, cap) && e <= Entries(nd) < cap
    ensures |nd.keys| == |nd.vals| && e <= |nd.keys|
    ensures
      var r := TryLeafInsert(nd, e, key, val, cap);
      r.Some? && r.value.Leaf? && |r.value.keys| == |nd.keys| + 1 == Entries(r.value) &&
        (e > 0 ==> |nd.keys| > 0 && r.value.keys[0] == nd.keys[0]) && e < Entries(r.value)
  {
  }

  lemma {:induction false} EnteredSeps(nodes: Nodes, nodes': Nodes, es: Level, p: nat, cap: nat)
    requires SepsOk(nodes, es) && p < |es| && UnchangedOutside(nodes, nodes', es, p, p + 1) && es[p].Edge? &&
      es[p].node < |nodes|
    requires nodes'[es[p].node].Leaf? && |nodes'[es[p].node].keys| > 0
    requires p > 0 ==>
      nodes[es[p].node].Leaf? && |nodes[es[p].node].keys| > 0 && nodes'[es[p].node].keys[0] == nodes[es[p].node].keys[0]
    ensures SepsOk(nodes', es)
  {
    forall j | 0 <= j < |es| - 1 ensures SepAt(nodes', es, j) {
      assert SepAt(nodes, es, j);
    }
  }

  /** Complete steps are a path to an entry. */
  lemma {:induction false} StepsPoint(nodes: Nodes, levels: seq<Level>, node: seq<Node>, entry: seq<nat>, pos: seq<nat>,
      c: nat)
    requires 2 <= |levels| == |pos| && StepsOk(nodes, levels, node, entry, pos, 0, |levels| - 1) && pos[0] == 0 &&
      pos[|levels| - 1] == c
    ensures PointsAt(nodes, levels, node, entry, pos[..|levels| - 1], |levels| - 1, c)
  {
    hide Leads;
    StepsPath(nodes, levels, node, entry, pos);
    assert StepOk(nodes, levels, node, entry, pos, |levels| - 2);
  }

  lemma LastSorted(nodes: Nodes, root: Node, levels: seq<Level>, cap: nat)
    requires TreeOk(nodes, root, levels, cap)
    ensures Sorted(levels[|levels| - 1])
  {
    hide Distinct, HalfOk, SepsOk, ExpandAll, KindOk, Chain, Sorted;
  }

  lemma GrowsNothing(nodes: Nodes, levels: seq<Level>, cap: nat)
    ensures GrowsWithin(nodes, nodes, levels, levels)
  {
  }

  lemma {:induction false} GrowsStep(nodes0: Nodes, nodes: Nodes, nodes': Nodes, levels: seq<Level>, lv: seq<Level>,
      lv': seq<Level>, n: Node, added: Node)
    requires GrowsWithin(nodes0, nodes, levels, lv) && ChangedBut(nodes, nodes', n, added)
    requires n < |nodes| && HasNode(levels, n) && !nodes'[n].Free?
    requires (added >= |nodes| || nodes[added].Free?) && (added < |nodes'| ==> HasNode(lv', added))
    requires forall l :: 0 <= l < |lv'| ==> FromOrNew(lv, lv'[l], added)
    requires forall m: Node :: HasNode(lv, m) ==> HasNode(lv', m)
    ensures GrowsWithin(nodes0, nodes', levels, lv')
  {
    hide HasNode;
    forall m: Node | HasNode(lv', m) && m < |nodes0| && !nodes0[m].Free? ensures HasNode(levels, m) {
      FromWhere(lv, lv', m, added);
    }
  }

  lemma {:induction false} FromWhere(lv: seq<Level>, lv': seq<Level>, m: Node, added: Node)
    requires HasNode(lv', m) && forall l :: 0 <= l < |lv'| ==> FromOrNew(lv, lv'[l], added)
    ensures m == added || HasNode(lv, m)
  {
    var l, j :| 0 <= l < |lv'| && 0 <= j < |lv'[l]| && lv'[l][j].Edge? && lv'[l][j].node == m;
    assert FromOrNew(lv, lv'[l], added);
  }

  /** The nodes of `es` are among those of `es'`. */
  ghost predicate Holds(es: Level, es': Level) {
    forall j :: 0 <= j < |es| && es[j].Edge? ==> NodeIn(es', es[j].node)
  }

  lemma {:induction false} HoldsAll(lv: seq<Level>, lv': seq<Level>)
    requires |lv| == |lv'| && forall l :: 0 <= l < |lv| ==> Holds(lv[l], lv'[l])
    ensures forall n: Node :: HasNode(lv, n) ==> HasNode(lv', n)
  {
    forall n: Node | HasNode(lv, n) ensures HasNode(lv', n) {
      var l, j :| 0 <= l < |lv| && 0 <= j < |lv[l]| && lv[l][j].Edge? && lv[l][j].node == n;
      assert Holds(lv[l], lv'[l]);
    }
  }

  lemma HoldsSelf(es: Level)
    ensures Holds(es, es)
  {
  }

  lemma HoldsPairs(es: Level, es': Level)
    requires Sorted(es)
    ensures Holds(es, es')
  {
  }

  lemma {:induction false} HoldsSplit(lv: seq<Level>, l: nat, es: Level, p: nat, key: Key, added: Node)
    requires p < |es| && es[p].Edge? && l < |lv| && lv[l] == SplitItem(es, p, key, added)
    ensures Holds(es, lv[l]) && HasNode(lv, added)
  {
    var es' := lv[l];
    forall j | 0 <= j < |es| && es[j].Edge? ensures NodeIn(es', es[j].node) {
      var i := if j <= p then j else j + 1;
      assert es'[i].Edge? && es'[i].node == es[j].node;
    }
    assert es'[p + 1].Edge? && es'[p + 1].node == added;
  }

  ghost predicate FromOrNew(lv: seq<Level>, es: Level, added: Node) {
    forall j :: 0 <= j < |es| && es[j].Edge? ==> es[j].node == added || HasNode(lv, es[j].node)
  }

  lemma FromSelf(lv: seq<Level>, l: nat, added: Node)
    requires l < |lv|
    ensures FromOrNew(lv, lv[l], added)
  {
  }

  lemma FromPairs(lv: seq<Level>, contents: Level, added: Node)
    requires Sorted(contents)
    ensures FromOrNew(lv, contents, added)
  {
  }

  lemma {:induction false} FromSplit(lv: seq<Level>, l: nat, p: nat, key: Key, added: Node)
    requires l < |lv| && p < |lv[l]| && lv[l][p].Edge?
    ensures FromOrNew(lv, SplitItem(lv[l], p, key, added), added)
  {
    var es' := SplitItem(lv[l], p, key, added);
    forall j | 0 <= j < |es'| && es'[j].Edge? ensures es'[j].node == added || HasNode(lv, es'[j].node) {
      if j <= p { HasNodeAt(lv, l, j); } else if j > p + 1 { HasNodeAt(lv, l, j - 1); }
    }
  }

  /** What a climb has done so far: the new entry is in the contents, and the levels above are untouched. */
  ghost predicate Climbing(nodes0: Nodes, nodes: Nodes, levels: seq<Level>, new': seq<Level>, npos: seq<nat>, c: nat,
      x: Item) {
    && |levels| == |new'| == |npos| >= 2 && c <= |levels[|levels| - 1]| &&
      new'[|levels| - 1] == InsertAt(levels[|levels| - 1], c, x)
    && npos[|levels| - 1] == c && GrowsWithin(nodes0, nodes, levels, new')
  }

  /** All levels are complete. */
  lemma {:induction false} JoinDone(nodes0: Nodes, nodes: Nodes, levels: seq<Level>, new': seq<Level>, d: nat, key: Key,
      ins: Node, root: Node, cap: nat, node: seq<Node>, entry: seq<nat>, pos: seq<nat>, npos: seq<nat>, c: nat, x: Item)
    requires Growing(nodes, levels, new', d, key, ins, cap, node, entry, pos, npos) && d > 0 && node[d - 1] < |nodes|
    requires Climbing(nodes0, nodes, levels, new', npos, c, x) && levels[0] == [Edge(root, None)] && |levels[1]| >= 2 &&
      pos[0] == 0
    requires nodes[node[d - 1]].Inner? && |nodes[node[d - 1]].tree| == |nodes[node[d - 1]].keys| + 1 &&
      Entries(nodes[node[d - 1]]) < INNER_SIZE
    requires entry[d - 1] <= |nodes[node[d - 1]].keys|
    ensures
      var r := TryInnerInsert(nodes[node[d - 1]], entry[d - 1], key, ins);
      && r.Some? && r.value.Inner?
      && var nodes' := nodes[node[d - 1] := r.value];
      && var entry' := if node[d] == ins then entry[d - 1 := entry[d - 1] + 1] else entry;
      && EntryInserted(nodes0, nodes', root, levels, new', cap, c, x, node, entry',
        (pos[..d] + npos[d..])[..|levels| - 1], |levels| - 1)
  {
    hide LinkOk, StepOk, Distinct, SepsOk, Sorted, TryInnerInsert, Entries, Offset, ExpandAll, KindOk, HalfOk, HasNode,
      InsertAt, TreeOk, PointsAt, Without, SplitItem;
    JoinParent(nodes, levels, new', d, key, ins, cap, node, entry, pos, npos);
    ParentOnPath(nodes, levels, new', d, key, ins, cap, node, entry, pos, npos);
    var r := TryInnerInsert(nodes[node[d - 1]], entry[d - 1], key, ins);
    var nodes' := nodes[node[d - 1] := r.value];
    var entry' := if node[d] == ins then entry[d - 1 := entry[d - 1] + 1] else entry;
    if d == 1 { SplitPosition(levels[1], pos[1], key, ins); }
    LinksTree(nodes', root, new', cap);
    StepsPoint(nodes', new', node, entry', pos[..d] + npos[d..], c);
    StepItem(nodes, levels, node, entry, pos, d - 1);
    HasNodeAt(levels, d - 1, pos[d - 1]);
    forall l | 0 <= l < |new'| ensures FromOrNew(new', new'[l], |nodes|) { FromSelf(new', l, |nodes|); }
    GrowsStep(nodes0, nodes, nodes', levels, new', new', node[d - 1], |nodes|);
  }

  /** The split of a parent, as a step of the climb. */
  lemma {:induction false} ClimbOn(nodes0: Nodes, nodes: Nodes, nodes': Nodes, levels: seq<Level>, new': seq<Level>,
      npos: seq<nat>, c: nat, x: Item, l: nat, p: nat, g: Grown, added: Node, q: nat)
    requires Climbing(nodes0, nodes, levels, new', npos, c, x) && l < |levels| - 1 && p < |levels[l]| &&
      levels[l][p].Edge? && new'[l] == levels[l]
    requires Halved(nodes, nodes', levels[l][p].node, g, added) && !g.lhs.Free?
    ensures Climbing(nodes0, nodes', levels, new'[l := SplitItem(levels[l], p, g.critKey, added)], npos[l := q], c, x)
  {
    hide Sorted, HasNode, SplitItem, InsertAt;
    var new'' := new'[l := SplitItem(levels[l], p, g.critKey, added)];
    forall m | 0 <= m < |new''| ensures FromOrNew(new', new''[m], added) {
      if m == l { FromSplit(new', l, p, g.critKey, added); } else { FromSelf(new', m, added); }
    }
    HoldsSplit(new'', l, levels[l], p, g.critKey, added);
    forall m | 0 <= m < |new'| ensures Holds(new'[m], new''[m]) {
      if m != l { HoldsSelf(new'[m]); }
    }
    HoldsAll(new', new'');
    HasNodeAt(levels, l, p);
    GrowsStep(nodes0, nodes, nodes', levels, new', new'', levels[l][p].node, added);
  }

  lemma {:induction false} ClimbStart(nodes: Nodes, nodes': Nodes, levels: seq<Level>, pos: seq<nat>, c: nat, x: Item,
      p: nat, g: Grown, added: Node, q: nat)
    requires 2 <= |levels| == |pos| && p < |levels[|levels| - 2]| && levels[|levels| - 2][p].Edge? &&
      c <= |levels[|levels| - 1]|
    requires Halved(nodes, nodes', levels[|levels| - 2][p].node, g, added) && !g.lhs.Free?
    requires Sorted(InsertAt(levels[|levels| - 1], c, x)) && Sorted(levels[|levels| - 1])
    ensures
      var f := |levels| - 2;
      Climbing(nodes, nodes', levels,
        levels[f := SplitItem(levels[f], p, g.critKey, added)][f + 1 := InsertAt(levels[f + 1], c, x)],
        pos[f := q][f + 1 := c], c, x)
  {
    hide Sorted, HasNode, SplitItem, InsertAt;
    var f := |levels| - 2;
    var new' := levels[f := SplitItem(levels[f], p, g.critKey, added)][f + 1 := InsertAt(levels[f + 1], c, x)];
    forall m | 0 <= m < |new'| ensures FromOrNew(levels, new'[m], added) {
      if m == f { FromSplit(levels, f, p, g.critKey, added); }
      else if m == f + 1 { FromPairs(levels, new'[m], added); }
      else { FromSelf(levels, m, added); }
    }
    HoldsSplit(new', f, levels[f], p, g.critKey, added);
    forall m | 0 <= m < |levels| ensures Holds(levels[m], new'[m]) {
      if m == f + 1 { HoldsPairs(levels[m], new'[m]); } else if m != f { HoldsSelf(levels[m]); }
    }
    HoldsAll(levels, new');
    HasNodeAt(levels, f, p);
    GrowsNothing(nodes, levels, 0);
    GrowsStep(nodes, nodes, nodes', levels, levels, new', levels[f][p].node, added);
  }

  // ---- a new root ----

  lemma {:induction false} LinksShifted(nodes: Nodes, lv: seq<Level>, top: Level, cap: nat)
    requires |lv| >= 2 && LinksOk(nodes, lv, 0, |lv| - 1, cap) && LinkOk(nodes, [top] + lv, 0, cap)
    ensures LinksOk(nodes, [top] + lv, 0, |lv|, cap)
  {
    hide ExpandAll, KindOk, HalfOk;
    var lv': seq<Level> := [top] + lv;
    forall l | 0 <= l < |lv| ensures LinkOk(nodes, lv', l, cap) {
      if l > 0 {
        assert LinkOk(nodes, lv, l - 1, cap);
        assert lv'[l] == lv[l - 1] && lv'[l + 1] == lv[(l - 1) + 1];
      }
    }
  }

  lemma {:induction false} StepsShifted(nodes: Nodes, lv: seq<Level>, top: Level, node: seq<Node>, entry: seq<nat>,
      pos: seq<nat>, node': seq<Node>, entry': seq<nat>)
    requires |lv| >= 2 && |pos| == |lv| && StepsOk(nodes, lv, node, entry, pos, 0, |lv| - 1) &&
      |lv| <= |node'| == |entry'| && |lv| - 1 <= |node| == |entry|
    requires StepOk(nodes, [top] + lv, node', entry', [0] + pos, 0)
    requires forall l :: 0 < l < |lv| ==> node'[l] == node[l - 1] && entry'[l] == entry[l - 1]
    ensures StepsOk(nodes, [top] + lv, node', entry', [0] + pos, 0, |lv|)
  {
    hide Entries, Offset;
    var lv': seq<Level>, pos' := [top] + lv, [0] + pos;
    forall l | 0 <= l < |lv| ensures StepOk(nodes, lv', node', entry', pos', l) {
      if l > 0 {
        assert StepOk(nodes, lv, node, entry, pos, l - 1);
        assert lv'[l] == lv[l - 1] && lv'[l + 1] == lv[(l - 1) + 1] && pos'[l] == pos[l - 1] &&
          pos'[l + 1] == pos[(l - 1) + 1];
      }
    }
  }

  lemma {:induction false} DistinctTop(lv: seq<Level>, n: Node)
    requires Distinct(lv) && forall l :: 0 <= l < |lv| ==> Without(lv[l], n)
    ensures Distinct([[Edge(n, None)]] + lv)
  {
    var lv': seq<Level> := [[Edge(n, None)]] + lv;
    forall l, j | 0 < l < |lv'| && 0 <= j < |lv'[l]| && lv'[l][j].Edge? ensures lv'[l][j].node != n {
      assert lv[l - 1][j] == lv'[l][j] && Without(lv[l - 1], n);
    }
    forall l, j, l', j' | 0 <= l < |lv'| && 0 <= l' < |lv'| && 0 <= j < |lv'[l]| && 0 <= j' < |lv'[l']| &&
      lv'[l][j].Edge? && lv'[l'][j'].Edge? && lv'[l][j].node == lv'[l'][j'].node
      ensures l == l' && j == j'
    {
      if l > 0 && l' > 0 {
        assert lv[l - 1][j] == lv'[l][j] && lv[l' - 1][j'] == lv'[l'][j'];
      }
    }
  }

  /** The original root has been split: a new root above the two halves completes the tree. */
  lemma {:induction false} NewRoot(nodes0: Nodes, nodes: Nodes, nodes': Nodes, levels: seq<Level>, new': seq<Level>,
      key: Key, ins: Node, root: Node, top: Node, cap: nat, node: seq<Node>, entry: seq<nat>, pos: seq<nat>,
      npos: seq<nat>, c: nat, x: Item, node': seq<Node>, entry': seq<nat>)
    requires Growing(nodes, levels, new', 0, key, ins, cap, node, entry, pos, npos) &&
      Climbing(nodes0, nodes, levels, new', npos, c, x)
    requires levels[0] == [Edge(root, None)] && pos[0] == 0
    requires (top >= |nodes| || nodes[top].Free?) && top < |nodes'| && nodes'[top] == Inner([key], [root, ins]) &&
      ChangedOnly(nodes, nodes', top) && ChangedBut(nodes, nodes', top, top)
    requires |levels| <= |node'| == |entry'| && node'[0] == top && entry'[0] == (if node[0] == ins then 1 else 0) &&
      |levels| - 1 <= |node|
    requires forall l :: 0 < l < |levels| ==> node'[l] == node[l - 1] && entry'[l] == entry[l - 1]
    ensures EntryInserted(nodes0, nodes', top, levels, [[Edge(top, None)]] + new', cap, c, x, node', entry',
      ([0] + npos)[..|levels|], |levels|)
  {
    hide LinkOk, StepOk, Distinct, SepsOk, Sorted, Entries, Offset, ExpandAll, KindOk, HalfOk, HasNode, InsertAt,
      TreeOk, PointsAt, Without, SplitItem;
    var h := |levels| - 1;
    var top' := [Edge(top, None)];
    var levels' := [top'] + new';
    forall l | 0 <= l < |new'| ensures Without(new'[l], top) { AddedApart(nodes, new', 0, l, cap, top); }
    LinksKept(nodes, nodes', new', 0, h, cap, top);
    StepsKept(nodes, nodes', new', 0, h, cap, top, node, entry, npos, node, entry, npos);
    LeafLevelKept(nodes, nodes', new', cap, top);
    RootLevel(nodes', levels[0], root, key, ins, top, new', cap, node', entry', npos);
    LinksShifted(nodes', new', top', cap);
    StepsShifted(nodes', new', top', node, entry, npos, node', entry');
    DistinctTop(new', top);
    LinksTree(nodes', top, levels', cap);
    StepsPoint(nodes', levels', node', entry', [0] + npos, c);
    RootGrows(nodes0, nodes, nodes', levels, new', top);
  }

  lemma {:induction false} RootLevel(nodes: Nodes, old': Level, root: Node, key: Key, ins: Node, top: Node,
      new': seq<Level>, cap: nat, node: seq<Node>, entry: seq<nat>, npos: seq<nat>)
    requires old' == [Edge(root, None)] && |new'| == |npos| >= 2 && new'[0] == SplitItem(old', 0, key, ins)
    requires top < |nodes| && nodes[top] == Inner([key], [root, ins]) && 0 < |node| == |entry| && node[0] == top &&
      entry[0] == npos[0] < 2
    ensures LinkOk(nodes, [[Edge(top, None)]] + new', 0, cap) &&
      StepOk(nodes, [[Edge(top, None)]] + new', node, entry, [0] + npos, 0) && |new'[0]| == 2
  {
    var top' := [Edge(top, None)];
    ExpandOne(nodes, Edge(top, None));
    assert ExpandAll(nodes, top') == [Edge(root, Some(key)), Edge(ins, None)];
    assert top'[..0] == [];
  }

  lemma {:induction false} RootGrows(nodes0: Nodes, nodes: Nodes, nodes': Nodes, levels: seq<Level>, new': seq<Level>,
      top: Node)
    requires GrowsWithin(nodes0, nodes, levels, new') && (top >= |nodes| || nodes[top].Free?) && top < |nodes'| &&
      !nodes'[top].Free?
    requires ChangedBut(nodes, nodes', top, top)
    ensures GrowsWithin(nodes0, nodes', levels, [[Edge(top, None)]] + new')
  {
    hide HasNode;
    var levels': seq<Level> := [[Edge(top, None)]] + new';
    forall m: Node ensures HasNode(levels', m) <==> m == top || HasNode(new', m) {
      RootHas(new', top, m);
    }
  }

  lemma {:induction false} RootHas(lv: seq<Level>, top: Node, m: Node)
    ensures HasNode([[Edge(top, None)]] + lv, m) <==> m == top || HasNode(lv, m)
  {
    var lv': seq<Level> := [[Edge(top, None)]] + lv;
    HasNodeAt(lv', 0, 0);
    if HasNode(lv', m) {
      var l, j :| 0 <= l < |lv'| && 0 <= j < |lv'[l]| && lv'[l][j].Edge? && lv'[l][j].node == m;
      if l > 0 { HasNodeAt(lv, l - 1, j); }
    }
    if HasNode(lv, m) {
      var l, j :| 0 <= l < |lv| && 0 <= j < |lv[l]| && lv[l][j].Edge? && lv[l][j].node == m;
      HasNodeAt(lv', l + 1, j);
    }
  }

  // ---- the methods ----

  /** Splits the full leaf on the path and inserts the pair into one of the halves. */
  method SplitLeaf(path: Path, pool: Pool, level: nat, key: Key, val: Val, ghost levels: seq<Level>,
      ghost pos: seq<nat>, ghost c: nat, cap: nat)
    returns (critKey: Key, rhsNode: Node, ghost new': seq<Level>, ghost npos: seq<nat>)
    requires path.Valid() && pool.Valid() && level == |levels| - 2 < MAX_PATH
    requires Full(pool.nodes, levels, cap, path.node, path.entry, pos, c, Pair(key, val))
    requires pool.nodes[path.node[level]].Leaf? && WellShaped(pool.nodes[path.node[level]], cap) &&
      Entries(pool.nodes[path.node[level]]) == cap
    modifies path`node, path`entry, pool
    ensures path.Valid() && pool.Valid()
    ensures Growing(pool.nodes, levels, new', level, critKey, rhsNode, cap, path.node, path.entry, pos, npos)
    ensures Climbing(old(pool.nodes), pool.nodes, levels, new', npos, c, Pair(key, val))
  {
    hide PoolOk, NextFree, Growing, Climbing, Full, Entries, Split, WellShaped, InsertAt, GrowLeaf, TryLeafInsert,
      SplitItem, MovesRight, Halved;
    ghost var nodes0, node0, entry0 := pool.nodes, path.node, path.entry;
    FullLeaf(pool.nodes, levels, cap, path.node, path.entry, pos, c, Pair(key, val));
    var node, entry := path.node[level], path.entry[level];
    ghost var g := GrowLeaf(pool.nodes[node], entry, key, val, cap);
    GrowLeafSteps(pool.nodes[node], entry, key, val, cap);
    var split := Split(pool.nodes[node], entry, cap);
    pool.SetNode(node, split.lhs);
    rhsNode := pool.AllocNode(split.rhs);
    ghost var nodes1 := pool.nodes;
    var lhs, rhs := Entries(split.lhs), Entries(split.rhs);
    critKey := split.critKey;
    ghost var left := node;
    if MovesRight(entry, lhs, rhs, false) {
      node, entry := rhsNode, entry - lhs;
      path.node, path.entry := path.node[level := node], path.entry[level := entry];
    }
    var inserted := TryLeafInsert(pool.nodes[node], entry, key, val, cap);
    pool.SetNode(node, inserted.value);
    if entry == 0 && node == rhsNode {
      critKey := key;
    }
    HalvedNow(nodes0, nodes1, pool.nodes, left, rhsNode, split, g);
    SplitFull(nodes0, pool.nodes, levels, cap, node0, entry0, pos, c, key, val, level, g, rhsNode);
    ClimbStart(nodes0, pool.nodes, levels, pos, c, Pair(key, val), pos[level], g, rhsNode,
      if g.moved then pos[level] + 1 else pos[level]);
    new' := levels[level := SplitItem(levels[level], pos[level], g.critKey, rhsNode)];
    new' := new'[level + 1 := InsertAt(levels[level + 1], c, Pair(key, val))];
    npos := pos[level := if g.moved then pos[level] + 1 else pos[level]][level + 1 := c];
    assert path.entry == entry0[level := g.entry];
  }

  lemma FullLeaf(nodes: Nodes, levels: seq<Level>, cap: nat, node: seq<Node>, entry: seq<nat>, pos: seq<nat>, c: nat,
      x: Item)
    requires Full(nodes, levels, cap, node, entry, pos, c, x)
    ensures
      var f := |levels| - 2;
      && cap >= 2 && |pos| == |levels| && pos[f] < |levels[f]| && levels[f][pos[f]].Edge? &&
        levels[f][pos[f]].node == node[f] < |nodes|
      && entry[f] <= Entries(nodes[node[f]]) && c <= |levels[f + 1]| && Sorted(InsertAt(levels[f + 1], c, x)) &&
        Sorted(levels[f + 1])
  {
  }

  /** A leaf split and its retried insertion, step by step. */
  lemma {:induction false} GrowLeafSteps(nd: NodeData, e: nat, key: Key, val: Val, cap: nat)
    requires cap >= 2 && nd.Leaf? && WellShaped(nd, cap) && Entries(nd) == cap && e <= cap
    ensures
      var g, s := GrowLeaf(nd, e, key, val, cap), Split(nd, e, cap);
      && s.lhs.Leaf? && s.rhs.Leaf? && |s.lhs.keys| == |s.lhs.vals| && |s.rhs.keys| == |s.rhs.vals| && !g.lhs.Free?
      && g.moved == MovesRight(e, Entries(s.lhs), Entries(s.rhs), false)
      && (if g.moved
          then Entries(s.lhs) + g.entry == e && g.entry <= |s.rhs.keys| && g.lhs == s.lhs &&
            TryLeafInsert(s.rhs, g.entry, key, val, cap) == Some(g.rhs)
          else g.entry == e <= |s.lhs.keys| && g.rhs == s.rhs && TryLeafInsert(s.lhs, e, key, val, cap) == Some(g.lhs))
      && g.critKey == (if g.moved && g.entry == 0 then key else s.critKey) && !g.rhs.Free?
  {
    hide InsertAt;
  }

  lemma HalvedNow(nodes0: Nodes, nodes1: Nodes, nodes: Nodes, left: Node, added: Node, s: SplitOff, g: Grown)
    requires left < |nodes0| && !nodes0[left].Free? && (added == |nodes0| || (added < |nodes0| && nodes0[added].Free?))
    requires nodes1 == if added < |nodes0| then nodes0[left := s.lhs][added := s.rhs]
      else nodes0[left := s.lhs] + [s.rhs]
    requires |nodes| == |nodes1| && nodes[left] == g.lhs && nodes[added] == g.rhs
    requires forall n :: 0 <= n < |nodes1| && n != left && n != added ==> nodes[n] == nodes1[n]
    ensures Halved(nodes0, nodes, left, g, added)
  {
  }

  /** Splits the full inner node on the path and enters node `ins` in one of the halves. */
  method SplitInner(path: Path, pool: Pool, level: nat, key: Key, ins: Node, ghost nodes0: Nodes,
      ghost levels: seq<Level>, ghost new0: seq<Level>, ghost pos: seq<nat>, ghost npos0: seq<nat>, ghost c: nat,
      ghost x: Item, cap: nat)
    returns (critKey: Key, rhsNode: Node, ghost new': seq<Level>, ghost npos: seq<nat>)
    requires path.Valid() && pool.Valid() && level < MAX_PATH - 1 && path.node[level] < |pool.nodes|
    requires Growing(pool.nodes, levels, new0, level + 1, key, ins, cap, path.node, path.entry, pos, npos0) &&
      Climbing(nodes0, pool.nodes, levels, new0, npos0, c, x)
    requires Entries(pool.nodes[path.node[level]]) == INNER_SIZE
    modifies path`node, path`entry, pool
    ensures path.Valid() && pool.Valid()
    ensures Growing(pool.nodes, levels, new', level, critKey, rhsNode, cap, path.node, path.entry, pos, npos)
    ensures Climbing(nodes0, pool.nodes, levels, new', npos, c, x)
  {
    hide PoolOk, NextFree, Growing, Climbing, Entries, Split, WellShaped, InsertAt, LinkOk, Apart, Without, GrowInner,
      TryInnerInsert, SplitItem, MovesRight, StepOk, Halved;
    ghost var nodes1, node1, entry1 := pool.nodes, path.node, path.entry;
    ParentOnPath(pool.nodes, levels, new0, level + 1, key, ins, cap, path.node, path.entry, pos, npos0);
    ClimbAt(pool.nodes, levels, new0, level + 1, key, ins, cap, path.node, path.entry, pos, npos0);
    var node, entry := path.node[level], path.entry[level];
    ghost var g := GrowInner(pool.nodes[node], entry, key, ins, cap);
    GrowInnerSteps(pool.nodes[node], entry, key, ins, cap);
    var split := Split(pool.nodes[node], entry, cap);
    pool.SetNode(node, split.lhs);
    rhsNode := pool.AllocNode(split.rhs);
    ghost var nodes2, left := pool.nodes, node;
    var lhs, rhs := Entries(split.lhs), Entries(split.rhs);
    critKey := split.critKey;
    if MovesRight(entry, lhs, rhs, true) {
      node, entry := rhsNode, entry - lhs;
      path.node, path.entry := path.node[level := node], path.entry[level := entry];
    }
    var inserted := TryInnerInsert(pool.nodes[node], entry, key, ins);
    pool.SetNode(node, inserted.value);
    if ins == path.node[level + 1] {
      path.entry := path.entry[level := path.entry[level] + 1];
    }
    HalvedNow(nodes1, nodes2, pool.nodes, left, rhsNode, split, g);
    SplitParent(nodes1, pool.nodes, levels, new0, level + 1, key, ins, cap, node1, entry1, pos, npos0, rhsNode);
    ClimbOn(nodes0, nodes1, pool.nodes, levels, new0, npos0, c, x, level, pos[level], g, rhsNode,
      if g.moved then pos[level] + 1 else pos[level]);
    new' := new0[level := SplitItem(levels[level], pos[level], g.critKey, rhsNode)];
    npos := npos0[level := if g.moved then pos[level] + 1 else pos[level]];
    assert path.entry == entry1[level := if node1[level + 1] == ins then g.entry + 1 else g.entry];
  }

  lemma ClimbAt(nodes: Nodes, levels: seq<Level>, new': seq<Level>, d: nat, key: Key, ins: Node, cap: nat,
      node: seq<Node>, entry: seq<nat>, pos: seq<nat>, npos: seq<nat>)
    requires Growing(nodes, levels, new', d, key, ins, cap, node, entry, pos, npos) && d > 0
    requires StepOk(nodes, levels, node, entry, pos, d - 1)
    ensures cap >= 2 && d + 1 < |levels| == |new'| == |pos| == |npos| && new'[d - 1] == levels[d - 1]
    ensures pos[d - 1] < |levels[d - 1]| && levels[d - 1][pos[d - 1]].Edge? &&
      levels[d - 1][pos[d - 1]].node == node[d - 1]
    ensures node[d - 1] < |nodes| && entry[d - 1] < Entries(nodes[node[d - 1]])
  {
    hide LinksOk, StepsOk, Distinct, SepsOk, Sorted, SplitItem, Offset, Entries;
  }

  lemma {:induction false} GrowInnerSteps(nd: NodeData, e: nat, key: Key, ins: Node, cap: nat)
    requires cap >= 2 && nd.Inner? && WellShaped(nd, cap) && Entries(nd) == INNER_SIZE && e < INNER_SIZE
    ensures
      var g, s := GrowInner(nd, e, key, ins, cap), Split(nd, e, cap);
      && s.lhs.Inner? && s.rhs.Inner? && |s.lhs.tree| == |s.lhs.keys| + 1 && |s.rhs.tree| == |s.rhs.keys| + 1
      && g.moved == MovesRight(e, Entries(s.lhs), Entries(s.rhs), true) && g.critKey == s.critKey && !g.lhs.Free? &&
        !g.rhs.Free?
      && (if g.moved
          then Entries(s.lhs) + g.entry == e && g.entry <= |s.rhs.keys| && g.lhs == s.lhs &&
            TryInnerInsert(s.rhs, g.entry, key, ins) == Some(g.rhs)
          else g.entry == e <= |s.lhs.keys| && g.rhs == s.rhs && TryInnerInsert(s.lhs, e, key, ins) == Some(g.lhs))
  {
    hide InsertAt;
  }

  /** Splits the full leaf, and full nodes above it, until the new node fits into its parent or becomes
      a sub-tree of a new root. */
  method SplitAndInsert(path: Path, pool: Pool, key0: Key, val: Val, ghost root: Node, ghost levels: seq<Level>,
      ghost pos: seq<nat>, ghost c: nat, cap: nat)
    returns (ghost levels': seq<Level>, ghost pos': seq<nat>)
    requires path.Valid() && pool.Valid() && path.size == |levels| - 1 > 0 && cap >= 7
    requires Full(pool.nodes, levels, cap, path.node, path.entry, pos, c, Pair(key0, val)) && pos[0] == 0
    requires pool.nodes[path.node[path.size - 1]].Leaf? && WellShaped(pool.nodes[path.node[path.size - 1]], cap) &&
      Entries(pool.nodes[path.node[path.size - 1]]) == cap
    requires levels[0] == [Edge(root, None)] && path.node[0] == root && (path.size > 1 ==> |levels[1]| >= 2) &&
      |levels[|levels| - 1]| < MAX_ENTRIES
    modifies path, pool
    ensures path.Valid() && pool.Valid()
    ensures EntryInserted(old(pool.nodes), pool.nodes, path.node[0], levels, levels', cap, c, Pair(key0, val),
      path.node, path.entry, pos', path.size)
  {
    hide PoolOk, NextFree, Growing, Climbing, Full, Entries, WellShaped, InsertAt, EntryInserted, StepOk, LinkOk, Apart,
      Without;
    ghost var nodes0, x, size0 := pool.nodes, Pair(key0, val), path.size;
    var origRoot := path.node[0];
    var key, insNode: Option<Node>, level: nat := key0, None, path.size;
    ghost var new': seq<Level>, npos: seq<nat> := levels, pos;
    while level > 0
      invariant path.Valid() && pool.Valid() && path.size == size0 && level <= size0
      invariant insNode.None? <==> level == size0
      invariant insNode.None? ==>
        key == key0 && pool.nodes == nodes0 && path.node == old(path.node) && path.entry == old(path.entry)
      invariant insNode.Some? ==>
        && Growing(pool.nodes, levels, new', level, key, insNode.value, cap, path.node, path.entry, pos, npos)
        && Climbing(nodes0, pool.nodes, levels, new', npos, c, x)
        && (level > 0 ==>
          && path.node[level - 1] < |pool.nodes|
          && Entries(pool.nodes[path.node[level - 1]]) == INNER_SIZE)
    {
      level := level - 1;
      var rhsNode;
      if insNode.None? {
        key, rhsNode, new', npos := SplitLeaf(path, pool, level, key, val, levels, pos, c, cap);
      } else {
        key, rhsNode, new', npos := SplitInner(path, pool, level, key, insNode.value, nodes0, levels, new', pos, npos,
          c, x, cap);
      }
      insNode := Some(rhsNode);
      if level > 0 {
        ParentOnPath(pool.nodes, levels, new', level, key, rhsNode, cap, path.node, path.entry, pos, npos);
        ClimbAt(pool.nodes, levels, new', level, key, rhsNode, cap, path.node, path.entry, pos, npos);
        var parent := path.node[level - 1];
        TreeEntries(pool.nodes[parent], cap);
        var inserted := TryInnerInsert(pool.nodes[parent], path.entry[level - 1], key, rhsNode);
        if inserted.Some? {
          ClimbRoot(pool.nodes, levels, new', level, key, rhsNode, origRoot, cap, path.node, path.entry, pos, npos);
          JoinDone(nodes0, pool.nodes, levels, new', level, key, rhsNode, origRoot, cap, path.node, path.entry, pos,
            npos, c, x);
          pool.SetNode(parent, inserted.value);
          if path.node[level] == rhsNode {
            path.entry := path.entry[level - 1 := path.entry[level - 1] + 1];
          }
          levels', pos' := new', (pos[..level] + npos[level..])[..|levels| - 1];
          return;
        }
      }
    }
    levels', pos' := GrowRoot(path, pool, key, insNode.value, origRoot, nodes0, levels, new', pos, npos, c, x, cap);
  }

  lemma ClimbRoot(nodes: Nodes, levels: seq<Level>, new': seq<Level>, d: nat, key: Key, ins: Node, root: Node, cap: nat,
      node: seq<Node>, entry: seq<nat>, pos: seq<nat>, npos: seq<nat>)
    requires Growing(nodes, levels, new', d, key, ins, cap, node, entry, pos, npos) && d > 0 &&
      levels[0] == [Edge(root, None)] && pos[0] == 0
    ensures node[0] == root
  {
    hide LinksOk, Distinct, SepsOk, Sorted, SplitItem, Offset, Entries;
    assert StepOk(nodes, levels, node, entry, pos, 0);
  }

  lemma TreeEntries(nd: NodeData, cap: nat)
    requires nd.Inner? && WellShaped(nd, cap)
    ensures Entries(nd) == |nd.tree| == |nd.keys| + 1 <= INNER_SIZE
  {
  }

  /** Adds a level above the two halves of the original root. */
  method GrowRoot(path: Path, pool: Pool, key: Key, ins: Node, origRoot: Node, ghost nodes0: Nodes,
      ghost levels: seq<Level>, ghost new': seq<Level>, ghost pos: seq<nat>, ghost npos: seq<nat>, ghost c: nat,
      ghost x: Item, ghost cap: nat)
    returns (ghost levels': seq<Level>, ghost pos': seq<nat>)
    requires path.Valid() && pool.Valid() && path.size == |levels| - 1 && cap >= 7
    requires Growing(pool.nodes, levels, new', 0, key, ins, cap, path.node, path.entry, pos, npos) &&
      Climbing(nodes0, pool.nodes, levels, new', npos, c, x)
    requires levels[0] == [Edge(origRoot, None)] && pos[0] == 0 && |levels[|levels| - 1]| < MAX_ENTRIES
    modifies path, pool
    ensures path.Valid() && pool.Valid()
    ensures EntryInserted(nodes0, pool.nodes, path.node[0], levels, levels', cap, c, x, path.node, path.entry, pos',
      path.size)
  {
    hide PoolOk, NextFree, Growing, EntryInserted, GrowsWithin;
    ghost var nodes1 := pool.nodes;
    var root := pool.AllocNode(Inner([key], [origRoot, ins]));
    var entry := if path.node[0] == ins then 1 else 0;
    NewRoot(nodes0, nodes1, pool.nodes, levels, new', key, ins, origRoot, root, cap, path.node, path.entry, pos, npos,
      c, x,
            [root] + path.node, [entry] + path.entry);
    RootFits(nodes0, pool.nodes, root, levels, [[Edge(root, None)]] + new', cap, c, x, [root] + path.node,
      [entry] + path.entry, ([0] + npos)[..|levels|], |levels|);
    path.size := path.size + 1;
    var node', entry' := InsertAt(path.node[..path.size - 1], 0, root) + path.node[path.size..],
      InsertAt(path.entry[..path.size - 1], 0, entry) + path.entry[path.size..];
    NewRoot(nodes0, nodes1, pool.nodes, levels, new', key, ins, origRoot, root, cap, path.node, path.entry, pos, npos,
      c, x, node', entry');
    path.node, path.entry := node', entry';
    levels', pos' := [[Edge(root, None)]] + new', ([0] + npos)[..|levels|];
  }

  lemma {:induction false} RootFits(nodes0: Nodes, nodes: Nodes, root: Node, levels: seq<Level>, levels': seq<Level>,
      cap: nat, c: nat, x: Item, node: seq<Node>, entry: seq<nat>, pos: seq<nat>, size: nat)
    requires EntryInserted(nodes0, nodes, root, levels, levels', cap, c, x, node, entry, pos, size) && cap >= 7 &&
      |levels[|levels| - 1]| < MAX_ENTRIES
    ensures |levels'| - 1 <= MAX_PATH
  {
    hide TreeOk, PointsAt, GrowsWithin;
    HeightBound(nodes, root, levels', cap);
  }

  /** Inserts a pair where the path points, and leaves the path pointing at it. */
  method Insert(path: Path, pool: Pool, key: Key, val: Val, ghost root: Node, ghost levels: seq<Level>,
      ghost pos: seq<nat>, ghost c: nat, cap: nat)
    returns (r: Node, ghost levels': seq<Level>, ghost pos': seq<nat>)
    requires path.Valid() && pool.Valid() && cap >= 7
    requires TreeOk(pool.nodes, root, levels, cap) &&
      InsertsAt(pool.nodes, levels, path.node, path.entry, pos, path.size, c)
    requires |levels[|levels| - 1]| < MAX_ENTRIES && c <= |levels[|levels| - 1]| &&
      Sorted(InsertAt(levels[|levels| - 1], c, Pair(key, val)))
    modifies path, pool
    ensures path.Valid() && pool.Valid()
    ensures EntryInserted(old(pool.nodes), pool.nodes, r, levels, levels', cap, c, Pair(key, val), path.node,
      path.entry, pos', path.size)
  {
    hide PoolOk, NextFree, EntryInserted, TreeOk, Full, Sorted, InsertAt, OnPath, Offset;
    FullNow(pool.nodes, root, levels, cap, path.node, path.entry, pos, path.size, c, Pair(key, val));
    StartRoot(pool.nodes, root, levels, cap, path.node, path.entry, pos, path.size);
    var leaf := path.node[path.size - 1];
    var inserted := TryLeafInsert(pool.nodes[leaf], path.entry[path.size - 1], key, val, cap);
    if inserted.Some? {
      RoomInLeaf(pool.nodes, root, levels, cap, path.node, path.entry, pos, path.size, c, key, val);
      pool.SetNode(leaf, inserted.value);
      levels', pos' := levels[path.size := InsertAt(levels[path.size], c, Pair(key, val))], pos;
    } else {
      levels', pos' := SplitAndInsert(path, pool, key, val, root, levels, pos + [c], c, cap);
    }
    r := path.node[0];
  }

  lemma StartRoot(nodes: Nodes, root: Node, levels: seq<Level>, cap: nat, node: seq<Node>, entry: seq<nat>,
      pos: seq<nat>, size: nat)
    requires 0 < size < |levels| && levels[0] == [Edge(root, None)] && OnPath(nodes, levels[..size], node, entry, pos)
    ensures node[0] == root
  {
    hide Offset, Entries;
    var lv: seq<Level> := levels[..size];
    assert lv[0] == levels[0];
  }
}
