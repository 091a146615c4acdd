/** Splitting full nodes on the way up from an insertion. */
module BForestGrow {
  import opened Wrappers
  import opened BForestNode
  import opened BForestLevels
  import opened BForestPath
  import opened BForestEdit
  import opened BForestHeal
  import opened BForestRemove
  import opened BForestTree
  import opened BForestRemoval

  // ---- one level at a time ----

  /** Level `l` is made of proper nodes, and level `l + 1` lists their entries. */
  ghost predicate LinkOk(nodes: Nodes, lv: seq<Level>, l: nat, cap: nat) {
    && l + 1 < |lv| && lv[l + 1] == ExpandAll(nodes, lv[l])
    && KindOk(nodes, lv[l], l + 2 < |lv|, cap) && HalfOk(nodes, lv[l], cap)
  }

  ghost predicate LinksOk(nodes: Nodes, lv: seq<Level>, lo: nat, hi: nat, cap: nat) {
    forall l :: lo <= l < hi ==> LinkOk(nodes, lv, l, cap)
  }

  /** On level `l`, the path leaves item `pos[l]` through entry `entry[l]`, to item `pos[l + 1]`. */
  ghost predicate StepOk(nodes: Nodes, lv: seq<Level>, node: seq<Node>, entry: seq<nat>, pos: seq<nat>, l: nat) {
    && l + 1 < |lv| == |pos| && l < |node| == |entry|
    && pos[l] < |lv[l]| && lv[l][pos[l]].Edge? && lv[l][pos[l]].node == node[l] < |nodes|
    && entry[l] < Entries(nodes[node[l]]) && pos[l + 1] == Offset(nodes, lv[l], pos[l]) + entry[l]
  }

  ghost predicate StepsOk(nodes: Nodes, lv: seq<Level>, node: seq<Node>, entry: seq<nat>, pos: seq<nat>, lo: nat,
      hi: nat) {
    forall l :: lo <= l < hi ==> StepOk(nodes, lv, node, entry, pos, l)
  }

  lemma {:induction false} TreeLinks(nodes: Nodes, root: Node, levels: seq<Level>, cap: nat)
    requires TreeOk(nodes, root, levels, cap)
    ensures LinksOk(nodes, levels, 0, |levels| - 1, cap) && levels[0] == [Edge(root, None)]
  {
    hide Distinct, HalfOk, SepsOk, Sorted, ExpandAll, KindOk;
    forall l | 0 <= l < |levels| - 1 ensures LinkOk(nodes, levels, l, cap) {
      assert levels[l + 1] == ExpandAll(nodes, levels[(l + 1) - 1]);
    }
  }

  lemma {:induction false} LinksTree(nodes: Nodes, root: Node, levels: seq<Level>, cap: nat)
    requires |levels| >= 2 && LinksOk(nodes, levels, 0, |levels| - 1, cap) && levels[0] == [Edge(root, None)] &&
      Distinct(levels)
    requires (|levels| > 2 ==> |levels[1]| >= 2) && SepsOk(nodes, levels[|levels| - 2]) && Sorted(levels[|levels| - 1])
    ensures TreeOk(nodes, root, levels, cap)
  {
    hide Distinct, HalfOk, SepsOk, Sorted, ExpandAll, KindOk;
    forall l | 0 < l < |levels| ensures levels[l] == ExpandAll(nodes, levels[l - 1]) {
      assert LinkOk(nodes, levels, l - 1, cap);
    }
    forall l | 0 <= l < |levels| - 1 ensures KindOk(nodes, levels[l], l < |levels| - 2, cap) &&
      HalfOk(nodes, levels[l], cap) {
      assert LinkOk(nodes, levels, l, cap);
    }
  }

  lemma {:induction false} PathSteps(nodes: Nodes, lv: seq<Level>, contents: Level, node: seq<Node>, entry: seq<nat>,
      pos: seq<nat>, c: nat)
    requires OnPath(nodes, lv, node, entry, pos)
    ensures StepsOk(nodes, lv + [contents], node, entry, pos + [c], 0, |lv| - 1)
  {
    hide Entries, Offset;
  }

  lemma {:induction false} StepsPath(nodes: Nodes, lv: seq<Level>, node: seq<Node>, entry: seq<nat>, pos: seq<nat>)
    requires 1 < |lv| == |pos| && StepsOk(nodes, lv, node, entry, pos, 0, |lv| - 1) && pos[0] == 0
    ensures Leads(nodes, lv[..|lv| - 1], node, entry, pos[..|lv| - 1], pos[|lv| - 1])
  {
    hide Entries, Offset;
    var h := |lv| - 1;
    var lv': seq<Level>, pos' := lv[..h], pos[..h];
    assert StepOk(nodes, lv, node, entry, pos, h - 1);
    forall l | 0 <= l < h ensures pos'[l] < |lv'[l]| && lv'[l][pos'[l]].Edge? && lv'[l][pos'[l]].node == node[l] {
      assert StepOk(nodes, lv, node, entry, pos, l);
    }
    forall l | 0 <= l < h - 1 ensures
      node[l] < |nodes| && entry[l] < Entries(nodes[node[l]]) &&
        pos'[l + 1] == Offset(nodes, lv'[l], pos'[l]) + entry[l]
    {
      assert StepOk(nodes, lv, node, entry, pos, l);
    }
  }

  // ---- frames ----

  /** The nodes of a level are as before. */
  ghost predicate Kept(nodes: Nodes, nodes': Nodes, es: Level) {
    && |nodes| <= |nodes'|
    && forall j :: 0 <= j < |es| && es[j].Edge? ==> es[j].node < |nodes| && nodes'[es[j].node] == nodes[es[j].node]
  }

  lemma {:induction false} LinkKept(nodes: Nodes, nodes': Nodes, lv: seq<Level>, l: nat, cap: nat)
    requires LinkOk(nodes, lv, l, cap) && Kept(nodes, nodes', lv[l])
    ensures LinkOk(nodes', lv, l, cap)
  {
    hide ExpandAll, WellShaped, HalfFull, Entries;
    ExpandFrame(nodes, nodes', lv[l]);
  }

  lemma {:induction false} StepKept(nodes: Nodes, nodes': Nodes, lv: seq<Level>, node: seq<Node>, entry: seq<nat>,
      pos: seq<nat>, l: nat)
    requires StepOk(nodes, lv, node, entry, pos, l) && Kept(nodes, nodes', lv[l])
    ensures StepOk(nodes', lv, node, entry, pos, l)
  {
    hide ExpandAll, Entries;
    ExpandFrame(nodes, nodes', lv[l][..pos[l]]);
  }

  /** A level in which node `n` does not occur is unaffected by a change to node `n`, and by new nodes. */
  ghost predicate Without(es: Level, n: Node) {
    forall j :: 0 <= j < |es| && es[j].Edge? ==> es[j].node != n
  }

  // ---- splitting a node and retrying the insertion ----

  datatype Grown = Grown(lhs: NodeData, rhs: NodeData, critKey: Key, moved: bool, entry: nat)

  /** Whether the retried insertion goes to the new right half. */
  predicate MovesRight(entry: nat, lhs: nat, rhs: nat, inner: bool) {
    entry > lhs || (entry == lhs && (lhs > rhs || inner))
  }

  function GrowLeaf(nd: NodeData, e: nat, key: Key, val: Val, cap: nat): Grown
    requires cap >= 2 && nd.Leaf? && WellShaped(nd, cap) && Entries(nd) == cap && e <= cap
  {
    var s := Split(nd, e, cap);
    var l := Entries(s.lhs);
    if MovesRight(e, l, Entries(s.rhs), false) then
      Grown(s.lhs, Leaf(InsertAt(s.rhs.keys, e - l, key), InsertAt(s.rhs.vals, e - l, val)),
        if e == l then key else s.critKey, true, e - l)
    else
      Grown(Leaf(InsertAt(s.lhs.keys, e, key), InsertAt(s.lhs.vals, e, val)), s.rhs, s.critKey, false, e)
  }

  function GrowInner(nd: NodeData, e: nat, key: Key, node: Node, cap: nat): Grown
    requires cap >= 2 && nd.Inner? && WellShaped(nd, cap) && Entries(nd) == INNER_SIZE && e < INNER_SIZE
  {
    var s := Split(nd, e, cap);
    var l := Entries(s.lhs);
    if MovesRight(e, l, Entries(s.rhs), true) then
      Grown(s.lhs, Inner(InsertAt(s.rhs.keys, e - l, key), InsertAt(s.rhs.tree, e - l + 1, node)), s.critKey, true,
        e - l)
    else
      Grown(Inner(InsertAt(s.lhs.keys, e, key), InsertAt(s.lhs.tree, e + 1, node)), s.rhs, s.critKey, false, e)
  }

  /** Both halves of a split node, after the retried insertion, are at least half full. */
  ghost predicate GrownOk(g: Grown, inner: bool, cap: nat) {
    && WellShaped(g.lhs, cap) && WellShaped(g.rhs, cap) && g.lhs.Inner? == g.rhs.Inner? == inner
    && Entries(g.lhs) > 0 && Entries(g.rhs) > 0 && HalfFull(g.lhs, cap) && HalfFull(g.rhs, cap)
    && g.entry < Entries(if g.moved then g.rhs else g.lhs)
  }

  /** The halves of a leaf are even after the retried insertion: equal where the capacity is odd, and one apart where
      it is even. */
  lemma GrownIsEven(nd: NodeData, e: nat, key: Key, val: Val, cap: nat)
    requires cap >= 2 && nd.Leaf? && WellShaped(nd, cap) && Entries(nd) == cap && e <= cap
    ensures
      var g := GrowLeaf(nd, e, key, val, cap);
      var l, r := Entries(g.lhs), Entries(g.rhs);
      l + r == cap + 1 && (if cap % 2 == 1 then l == r else l == r + 1 || r == l + 1)
  {
  }

  lemma {:induction false} InsertLeft<T>(a: seq<T>, b: seq<T>, e: nat, x: T)
    requires e <= |a|
    ensures InsertAt(a + b, e, x) == InsertAt(a, e, x) + b
  {
    var l, r := InsertAt(a + b, e, x), InsertAt(a, e, x) + b;
    forall i | 0 <= i < |l| ensures l[i] == r[i] {}
  }

  lemma {:induction false} InsertRight<T>(a: seq<T>, b: seq<T>, e: nat, x: T)
    requires e <= |b|
    ensures InsertAt(a + b, |a| + e, x) == a + InsertAt(b, e, x)
  {
    var l, r := InsertAt(a + b, |a| + e, x), a + InsertAt(b, e, x);
    forall i | 0 <= i < |l| ensures l[i] == r[i] {}
  }

  lemma {:induction false} SplitLeft(a: Level, b: Level, e: nat, key: Key, node: Node)
    requires e < |a| && a[e].Edge?
    ensures SplitItem(a + b, e, key, node) == SplitItem(a, e, key, node) + b
  {
    var l, r := SplitItem(a + b, e, key, node), SplitItem(a, e, key, node) + b;
    assert (a + b)[e] == a[e];
    forall i | 0 <= i < |l| ensures l[i] == r[i] {}
  }

  lemma {:induction false} SplitRight(a: Level, b: Level, e: nat, key: Key, node: Node)
    requires e < |b| && b[e].Edge?
    ensures (a + b)[|a| + e].Edge? && SplitItem(a + b, |a| + e, key, node) == a + SplitItem(b, e, key, node)
  {
    var l, r := SplitItem(a + b, |a| + e, key, node), a + SplitItem(b, e, key, node);
    assert (a + b)[|a| + e] == b[e];
    forall i | 0 <= i < |l| ensures l[i] == r[i] {}
  }

  /** The two halves hold the old entries with the new one in its place; the critical key is the first
      key of the right half; the position is where it was. */
  lemma {:induction false} GrowLeafSpec(nd: NodeData, e: nat, key: Key, val: Val, upper: Option<Key>, cap: nat)
    requires cap >= 2 && nd.Leaf? && WellShaped(nd, cap) && Entries(nd) == cap && e <= cap
    ensures
      var g := GrowLeaf(nd, e, key, val, cap);
      && GrownOk(g, false, cap)
      && Expand(g.lhs, Some(g.critKey)) + Expand(g.rhs, upper) == InsertAt(Expand(nd, upper), e, Pair(key, val))
      && g.rhs.Leaf? && g.critKey == g.rhs.keys[0] && g.lhs.Leaf? &&
        g.lhs.keys[0] == (if e == 0 then key else nd.keys[0])
      && e == (if g.moved then Entries(g.lhs) + g.entry else g.entry)
  {
    hide Expand, Split, InsertAt, HalfFull;
    var s := Split(nd, e, cap);
    var g := GrowLeaf(nd, e, key, val, cap);
    SplitConserves(nd, upper, e, cap);
    var l := Entries(s.lhs);
    LeafBound(s.lhs, Some(s.critKey), Some(g.critKey));
    if g.moved {
      InsertFirst(s.rhs.keys, e - l, key);
      LeafInsertExpands(s.rhs, upper, e - l, key, val, cap);
      InsertRight(Expand(s.lhs, Some(g.critKey)), Expand(s.rhs, upper), e - l, Pair(key, val));
    } else {
      InsertFirst(s.lhs.keys, e, key);
      LeafInsertExpands(s.lhs, Some(g.critKey), e, key, val, cap);
      InsertLeft(Expand(s.lhs, Some(g.critKey)), Expand(s.rhs, upper), e, Pair(key, val));
    }
    GrowLeafHalf(nd, e, key, val, cap);
  }

  lemma GrowLeafHalf(nd: NodeData, e: nat, key: Key, val: Val, cap: nat)
    requires cap >= 2 && nd.Leaf? && WellShaped(nd, cap) && Entries(nd) == cap && e <= cap
    ensures
      var g := GrowLeaf(nd, e, key, val, cap);
      g.lhs.Leaf? && g.rhs.Leaf? && HalfFull(g.lhs, cap) && HalfFull(g.rhs, cap)
  {
  }

  lemma InsertFirst(keys: seq<Key>, e: nat, key: Key)
    requires e <= |keys| && |keys| > 0
    ensures |InsertAt(keys, e, key)| == |keys| + 1 && InsertAt(keys, e, key)[0] == if e == 0 then key else keys[0]
  {
  }

  /** The bound of a leaf does not show in its entries. */
  lemma LeafBound(nd: NodeData, a: Option<Key>, b: Option<Key>)
    requires nd.Leaf?
    ensures Expand(nd, a) == Expand(nd, b) && (|nd.keys| == |nd.vals| ==> |Expand(nd, a)| == |nd.keys|)
  {
  }

  lemma {:induction false} GrowInnerSpec(nd: NodeData, e: nat, key: Key, node: Node, upper: Option<Key>, cap: nat)
    requires cap >= 2 && nd.Inner? && WellShaped(nd, cap) && Entries(nd) == INNER_SIZE && e < INNER_SIZE
    ensures
      var g := GrowInner(nd, e, key, node, cap);
      && GrownOk(g, true, cap)
      && |Expand(nd, upper)| == INNER_SIZE && Expand(nd, upper)[e].Edge?
      && Expand(g.lhs, Some(g.critKey)) + Expand(g.rhs, upper) == SplitItem(Expand(nd, upper), e, key, node)
      && g.entry + 1 < Entries(if g.moved then g.rhs else g.lhs)
      && e == (if g.moved then Entries(g.lhs) + g.entry else g.entry)
  {
    hide Expand, Split, SplitItem, InsertAt;
    var s := Split(nd, e, cap);
    var g := GrowInner(nd, e, key, node, cap);
    SplitConserves(nd, upper, e, cap);
    var l := Entries(s.lhs);
    InnerEdges(s.lhs, Some(s.critKey));
    InnerEdges(s.rhs, upper);
    if g.moved {
      InnerInsertExpands(s.rhs, upper, e - l, key, node, cap);
      SplitRight(Expand(s.lhs, Some(s.critKey)), Expand(s.rhs, upper), e - l, key, node);
    } else {
      InnerInsertExpands(s.lhs, Some(s.critKey), e, key, node, cap);
      SplitLeft(Expand(s.lhs, Some(s.critKey)), Expand(s.rhs, upper), e, key, node);
    }
  }

  lemma InnerEdges(nd: NodeData, upper: Option<Key>)
    requires nd.Inner?
    ensures |Expand(nd, upper)| == |nd.tree| && forall i :: 0 <= i < |nd.tree| ==> Expand(nd, upper)[i].Edge?
  {
  }

  // ---- the level a node is split on ----

  /** Node `es[p]` has become `g.lhs`, the new node `added` is `g.rhs`, and no other node of the level has changed. */
  ghost predicate SplitInto(nodes: Nodes, nodes': Nodes, es: Level, p: nat, g: Grown, added: Node) {
    && p < |es| && es[p].Edge? && es[p].node < |nodes'| && nodes'[es[p].node] == g.lhs
    && added < |nodes'| && nodes'[added] == g.rhs && Without(es, added)
    && UnchangedOutside(nodes, nodes', es, p, p + 1)
  }

  lemma {:induction false} SplitLevel(nodes: Nodes, nodes': Nodes, es: Level, p: nat, g: Grown, added: Node,
      inner: bool, cap: nat)
    requires SplitInto(nodes, nodes', es, p, g, added) && GrownOk(g, inner, cap)
    requires KindOk(nodes, es, inner, cap) && HalfOk(nodes, es, cap)
    ensures
      var es' := SplitItem(es, p, g.critKey, added);
      && ExpandAll(nodes', es') ==
        ExpandAll(nodes, es[..p]) + (Expand(g.lhs, Some(g.critKey)) + Expand(g.rhs, es[p].upper)) +
        ExpandAll(nodes, es[p + 1..])
      && KindOk(nodes', es', inner, cap) && HalfOk(nodes', es', cap)
      && Offset(nodes', es', p) == Offset(nodes, es, p) &&
        Offset(nodes', es', p + 1) == Offset(nodes, es, p) + Entries(g.lhs)
  {
    hide ExpandAll, Expand, SplitItem, KindOk, HalfOk;
    var a, b := Edge(es[p].node, Some(g.critKey)), Edge(added, es[p].upper);
    var es' := SplitItem(es, p, g.critKey, added);
    SplitAsSplice(es, p, g.critKey, added);
    ReplaceInLevel(nodes, nodes', es, p, p + 1, [a, b]);
    ExpandTwo(nodes', a, b);
    SplitKind(nodes, nodes', es, p, g, added, inner, cap);
    assert es'[..p] == es[..p];
    ExpandFrame(nodes, nodes', es[..p]);
    ExpandAround(nodes', es', p);
    ItemSize(nodes', es', p, inner, cap);
  }

  lemma SplitAsSplice(es: Level, p: nat, key: Key, added: Node)
    requires p < |es| && es[p].Edge?
    ensures SplitItem(es, p, key, added) ==
      es[..p] + [Edge(es[p].node, Some(key)), Edge(added, es[p].upper)] + es[p + 1..]
    ensures |SplitItem(es, p, key, added)| == |es| + 1
  {
  }

  lemma {:induction false} SplitKind(nodes: Nodes, nodes': Nodes, es: Level, p: nat, g: Grown, added: Node, inner: bool,
      cap: nat)
    requires SplitInto(nodes, nodes', es, p, g, added) && GrownOk(g, inner, cap)
    requires KindOk(nodes, es, inner, cap) && HalfOk(nodes, es, cap)
    ensures KindOk(nodes', SplitItem(es, p, g.critKey, added), inner, cap) &&
      HalfOk(nodes', SplitItem(es, p, g.critKey, added), cap)
  {
    hide WellShaped, HalfFull, Entries;
    var es' := SplitItem(es, p, g.critKey, added);
    forall j | 0 <= j < |es'| ensures
      && es'[j].Edge? && es'[j].node < |nodes'| && WellShaped(nodes'[es'[j].node], cap) &&
        Entries(nodes'[es'[j].node]) > 0
      && nodes'[es'[j].node].Inner? == inner && (j < |es'| - 1 ==> HalfFull(nodes'[es'[j].node], cap))
    {
      if j < p {
        assert es'[j] == es[j];
      } else if j > p + 1 {
        assert es'[j] == es[j - 1];
      }
    }
  }

  /** Splitting an inner node and retrying the insertion splits item `pos` of the level below. */
  lemma {:induction false} SplitInnerLevel(nodes: Nodes, nodes': Nodes, es: Level, p: nat, e: nat, key: Key, ins: Node,
      added: Node, cap: nat)
    requires cap >= 2 && KindOk(nodes, es, true, cap) && HalfOk(nodes, es, cap) && p < |es| &&
      Entries(nodes[es[p].node]) == INNER_SIZE && e < INNER_SIZE
    requires WellShaped(nodes[es[p].node], cap) &&
      SplitInto(nodes, nodes', es, p, GrowInner(nodes[es[p].node], e, key, ins, cap), added)
    ensures
      var g := GrowInner(nodes[es[p].node], e, key, ins, cap);
      var es', q := SplitItem(es, p, g.critKey, added), Offset(nodes, es, p) + e;
      && q < |ExpandAll(nodes, es)| && ExpandAll(nodes, es)[q].Edge?
      && ExpandAll(nodes', es') == SplitItem(ExpandAll(nodes, es), q, key, ins)
      && KindOk(nodes', es', true, cap) && HalfOk(nodes', es', cap)
      && g.entry + 1 < Entries(if g.moved then g.rhs else g.lhs)
      && q == Offset(nodes', es', if g.moved then p + 1 else p) + g.entry
  {
    hide ExpandAll, Expand, KindOk, HalfOk, GrowInner, SplitItem, WellShaped, Entries, ExpandItem;
    ItemOfInner(nodes, es, p, cap);
    var nd := nodes[es[p].node];
    var g := GrowInner(nd, e, key, ins, cap);
    GrowInnerSpec(nd, e, key, ins, es[p].upper, cap);
    SplitLevel(nodes, nodes', es, p, g, added, true, cap);
    ExpandAround(nodes, es, p);
    ItemIsExpand(nodes, es[p]);
    SplitWithin(ExpandAll(nodes, es[..p]), Expand(nd, es[p].upper), ExpandAll(nodes, es[p + 1..]), e, key, ins);
  }

  lemma {:induction false} SplitWithin(a: Level, mid: Level, b: Level, e: nat, key: Key, ins: Node)
    requires e < |mid| && mid[e].Edge?
    ensures (a + mid + b)[|a| + e].Edge? &&
      SplitItem(a + mid + b, |a| + e, key, ins) == a + SplitItem(mid, e, key, ins) + b
  {
    hide SplitItem;
    SplitRight(a, mid, e, key, ins);
    SplitLeft(a + mid, b, |a| + e, key, ins);
  }

  /** Splitting a leaf and retrying the insertion inserts into the contents. */
  lemma {:induction false} SplitLeafLevel(nodes: Nodes, nodes': Nodes, es: Level, p: nat, e: nat, key: Key, val: Val,
      added: Node, cap: nat)
    requires cap >= 2 && KindOk(nodes, es, false, cap) && HalfOk(nodes, es, cap) && p < |es| &&
      Entries(nodes[es[p].node]) == cap && e <= cap
    requires nodes[es[p].node].Leaf? && WellShaped(nodes[es[p].node], cap) &&
      SplitInto(nodes, nodes', es, p, GrowLeaf(nodes[es[p].node], e, key, val, cap), added)
    ensures
      var g := GrowLeaf(nodes[es[p].node], e, key, val, cap);
      var es', q := SplitItem(es, p, g.critKey, added), Offset(nodes, es, p) + e;
      && q <= |ExpandAll(nodes, es)| && ExpandAll(nodes', es') == InsertAt(ExpandAll(nodes, es), q, Pair(key, val))
      && KindOk(nodes', es', false, cap) && HalfOk(nodes', es', cap)
      && g.entry < Entries(if g.moved then g.rhs else g.lhs)
      && q == Offset(nodes', es', if g.moved then p + 1 else p) + g.entry
  {
    hide ExpandAll, Expand, KindOk, HalfOk, GrowLeaf, SplitItem, WellShaped, Entries, ExpandItem, InsertAt;
    LeavesEdges(nodes, es, cap);
    var nd := nodes[es[p].node];
    var g := GrowLeaf(nd, e, key, val, cap);
    GrowLeafSpec(nd, e, key, val, es[p].upper, cap);
    SplitLevel(nodes, nodes', es, p, g, added, false, cap);
    ExpandAround(nodes, es, p);
    ItemSize(nodes, es, p, false, cap);
    ItemIsExpand(nodes, es[p]);
    InsertWithin(ExpandAll(nodes, es[..p]), Expand(nd, es[p].upper), ExpandAll(nodes, es[p + 1..]), e, Pair(key, val));
  }

  lemma {:induction false} InsertWithin(a: Level, mid: Level, b: Level, e: nat, x: Item)
    requires e <= |mid|
    ensures InsertAt(a + mid + b, |a| + e, x) == a + InsertAt(mid, e, x) + b
  {
    hide InsertAt;
    InsertRight(a, mid, e, x);
    InsertLeft(a + mid, b, |a| + e, x);
  }

  /** The bounds between leaves after a leaf split. */
  lemma {:induction false} SplitSeps(nodes: Nodes, nodes': Nodes, es: Level, p: nat, e: nat, key: Key, val: Val,
      added: Node, cap: nat)
    requires cap >= 2 && KindOk(nodes, es, false, cap) && SepsOk(nodes, es) && p < |es| &&
      Entries(nodes[es[p].node]) == cap && e <= cap
    requires nodes[es[p].node].Leaf? && WellShaped(nodes[es[p].node], cap) &&
      SplitInto(nodes, nodes', es, p, GrowLeaf(nodes[es[p].node], e, key, val, cap), added)
    requires e > 0 || p == 0
    ensures SepsOk(nodes', SplitItem(es, p, GrowLeaf(nodes[es[p].node], e, key, val, cap).critKey, added))
  {
    hide GrowLeaf, WellShaped, HalfFull, Expand;
    var nd := nodes[es[p].node];
    var g := GrowLeaf(nd, e, key, val, cap);
    GrowLeafSpec(nd, e, key, val, es[p].upper, cap);
    var es' := SplitItem(es, p, g.critKey, added);
    forall j | 0 <= j < |es'| - 1 ensures SepAt(nodes', es', j) {
      if j < p {
        assert SepAt(nodes, es, j);
        assert es'[j] == es[j];
      } else if j > p {
        assert SepAt(nodes, es, j - 1);
        assert es'[j + 1] == es[j];
      }
    }
  }

  // ---- the climb ----

  /** Levels `d` and below are done: on level `d` the node on the path has been split at `key`, and the
      new node `ins` still has to be entered one level up. Levels above `d` are untouched. */
  ghost predicate Growing(nodes: Nodes, levels: seq<Level>, new': seq<Level>, d: nat, key: Key, ins: Node, cap: nat,
      node: seq<Node>, entry: seq<nat>, pos: seq<nat>, npos: seq<nat>) {
    && cap >= 2 && d + 1 < |levels| == |new'| == |pos| == |npos| && d < |node| == |entry|
    && (forall l :: 0 <= l < d ==> new'[l] == levels[l])
    && LinksOk(nodes, levels, 0, d, cap) && LinksOk(nodes, new', d, |levels| - 1, cap)
    && pos[d] < |levels[d]| && levels[d][pos[d]].Edge? && new'[d] == SplitItem(levels[d], pos[d], key, ins)
    && Distinct(new') && SepsOk(nodes, new'[|levels| - 2]) && Sorted(new'[|levels| - 1])
    && StepsOk(nodes, levels, node, entry, pos, 0, d) && StepsOk(nodes, new', node, entry, npos, d, |levels| - 1)
    && npos[d] == pos[d] + (if node[d] == ins then 1 else 0)
  }

  /** Nothing but node `n` changes among the nodes in use; `added` is new. */
  ghost predicate ChangedOnly(nodes: Nodes, nodes': Nodes, n: Node) {
    |nodes| <= |nodes'| && forall m :: 0 <= m < |nodes| && m != n && !nodes[m].Free? ==> nodes'[m] == nodes[m]
  }

  /** The nodes of a proper level other than `n` are kept. */
  lemma {:induction false} KeptOnly(nodes: Nodes, nodes': Nodes, lv: seq<Level>, l: nat, cap: nat, n: Node)
    requires LinkOk(nodes, lv, l, cap) && ChangedOnly(nodes, nodes', n) && Without(lv[l], n)
    ensures Kept(nodes, nodes', lv[l])
  {
    hide ExpandAll, HalfOk;
  }

  lemma {:induction false} WithoutAt(lv: seq<Level>, b: nat, p: nat, l: nat)
    requires Distinct(lv) && b < |lv| && l < |lv| && b != l && p < |lv[b]| && lv[b][p].Edge?
    ensures Without(lv[l], lv[b][p].node)
  {
    hide Distinct;
    forall j | 0 <= j < |lv[l]| && lv[l][j].Edge? ensures lv[l][j].node != lv[b][p].node {
      NowhereElse(lv, b, p, l, j);
    }
  }

  /** Entering the new node in a parent that has room splits the item on the level below. */
  lemma {:induction false} EnterInParent(nodes: Nodes, es: Level, p: nat, e: nat, key: Key, ins: Node, cap: nat)
    requires KindOk(nodes, es, true, cap) && HalfOk(nodes, es, cap) && Apart(es) && p < |es| &&
      e < Entries(nodes[es[p].node]) < INNER_SIZE
    ensures nodes[es[p].node].Inner? && |nodes[es[p].node].tree| == |nodes[es[p].node].keys| + 1
    ensures
      var r := TryInnerInsert(nodes[es[p].node], e, key, ins);
      && r.Some? && r.value.Inner? && Entries(r.value) == Entries(nodes[es[p].node]) + 1
      && var nodes', q := nodes[es[p].node := r.value], Offset(nodes, es, p) + e;
      && q < |ExpandAll(nodes, es)| && ExpandAll(nodes, es)[q].Edge?
      && ExpandAll(nodes', es) == SplitItem(ExpandAll(nodes, es), q, key, ins)
      && KindOk(nodes', es, true, cap) && HalfOk(nodes', es, cap) && Offset(nodes', es, p) == Offset(nodes, es, p)
  {
    hide ExpandAll, Expand, ExpandItem, SplitItem, TryInnerInsert, KindOk, HalfOk;
    ItemOfInner(nodes, es, p, cap);
    var nd := nodes[es[p].node];
    WellShapedAt(nodes, es, p, true, cap);
    InnerInsertExpands(nd, es[p].upper, e, key, ins, cap);
    var nodes' := nodes[es[p].node := TryInnerInsert(nd, e, key, ins).value];
    OneChanged(nodes, nodes', es, p, true, cap);
    ChangeNode(nodes, nodes', es, p);
    ExpandAround(nodes, es, p);
    ItemIsExpand(nodes, es[p]);
    ItemIsExpand(nodes', es[p]);
    SplitWithin(ExpandAll(nodes, es[..p]), Expand(nd, es[p].upper), ExpandAll(nodes, es[p + 1..]), e, key, ins);
  }

  lemma WellShapedAt(nodes: Nodes, es: Level, p: nat, inner: bool, cap: nat)
    requires KindOk(nodes, es, inner, cap) && p < |es|
    ensures es[p].Edge? && es[p].node < |nodes| && WellShaped(nodes[es[p].node], cap) &&
      nodes[es[p].node].Inner? == inner && Entries(nodes[es[p].node]) > 0
  {
  }

  lemma {:induction false} OneChanged(nodes: Nodes, nodes': Nodes, es: Level, p: nat, inner: bool, cap: nat)
    requires KindOk(nodes, es, inner, cap) && HalfOk(nodes, es, cap) && Apart(es) && p < |es| && |nodes'| == |nodes|
    requires nodes' == nodes[es[p].node := nodes'[es[p].node]]
    requires WellShaped(nodes'[es[p].node], cap) && nodes'[es[p].node].Inner? == inner &&
      Entries(nodes'[es[p].node]) >= Entries(nodes[es[p].node])
    ensures KindOk(nodes', es, inner, cap) && HalfOk(nodes', es, cap) && UnchangedOutside(nodes, nodes', es, p, p + 1)
  {
    hide WellShaped;
  }

  lemma {:induction false} LinksKept(nodes: Nodes, nodes': Nodes, lv: seq<Level>, lo: nat, hi: nat, cap: nat, n: Node)
    requires LinksOk(nodes, lv, lo, hi, cap) && ChangedOnly(nodes, nodes', n)
    requires forall l :: lo <= l < hi && l < |lv| ==> Without(lv[l], n)
    ensures LinksOk(nodes', lv, lo, hi, cap)
  {
    hide LinkOk, ChangedOnly, Without;
    forall l | lo <= l < hi ensures LinkOk(nodes', lv, l, cap) {
      assert LinkOk(nodes, lv, l, cap);
      LinkSize(nodes, lv, l, cap);
      KeptOnly(nodes, nodes', lv, l, cap, n);
      LinkKept(nodes, nodes', lv, l, cap);
    }
  }

  lemma LinkSize(nodes: Nodes, lv: seq<Level>, l: nat, cap: nat)
    requires LinkOk(nodes, lv, l, cap)
    ensures l + 1 < |lv|
  {
  }

  lemma {:induction false} StepsKept(nodes: Nodes, nodes': Nodes, lv: seq<Level>, lo: nat, hi: nat, cap: nat, n: Node,
      node: seq<Node>, entry: seq<nat>, pos: seq<nat>, node': seq<Node>, entry': seq<nat>, pos': seq<nat>)
    requires StepsOk(nodes, lv, node, entry, pos, lo, hi) && LinksOk(nodes, lv, lo, hi, cap) &&
      ChangedOnly(nodes, nodes', n)
    requires forall l :: lo <= l < hi && l < |lv| ==> Without(lv[l], n)
    requires |node'| == |entry'| == |node| == |entry| && |pos'| == |pos|
    requires forall l :: lo <= l < hi && l < |node| ==> node'[l] == node[l] && entry'[l] == entry[l]
    requires forall l :: lo <= l <= hi && l < |pos| ==> pos'[l] == pos[l]
    ensures StepsOk(nodes', lv, node', entry', pos', lo, hi)
  {
    hide LinkOk, ChangedOnly, Without, Entries, Offset;
    forall l | lo <= l < hi ensures StepOk(nodes', lv, node', entry', pos', l) {
      assert StepOk(nodes, lv, node, entry, pos, l);
      assert LinkOk(nodes, lv, l, cap);
      KeptOnly(nodes, nodes', lv, l, cap, n);
      StepKept(nodes, nodes', lv, node, entry, pos, l);
      StepAgain(nodes', lv, node, entry, pos, node', entry', pos', l);
    }
  }

  lemma StepAgain(nodes: Nodes, lv: seq<Level>, node: seq<Node>, entry: seq<nat>, pos: seq<nat>, node': seq<Node>,
      entry': seq<nat>, pos': seq<nat>, l: nat)
    requires StepOk(nodes, lv, node, entry, pos, l) && |node'| == |entry'| == |node| && |pos'| == |pos|
    requires node'[l] == node[l] && entry'[l] == entry[l] && pos'[l] == pos[l] && pos'[l + 1] == pos[l + 1]
    ensures StepOk(nodes, lv, node', entry', pos', l)
  {
  }

  /** All levels of a prefix are those of another list of levels. */
  lemma {:induction false} LinksCopied(nodes: Nodes, lv: seq<Level>, lv': seq<Level>, lo: nat, hi: nat, cap: nat)
    requires LinksOk(nodes, lv, lo, hi, cap) && |lv'| == |lv| && hi < |lv| && forall l :: lo <= l <= hi ==>
      lv'[l] == lv[l]
    ensures LinksOk(nodes, lv', lo, hi, cap)
  {
    hide ExpandAll, KindOk, HalfOk;
    forall l | lo <= l < hi ensures LinkOk(nodes, lv', l, cap) {
      assert LinkOk(nodes, lv, l, cap);
    }
  }

  lemma {:induction false} StepsCopied(nodes: Nodes, lv: seq<Level>, lv': seq<Level>, node: seq<Node>, entry: seq<nat>,
      pos: seq<nat>, lo: nat, hi: nat)
    requires StepsOk(nodes, lv, node, entry, pos, lo, hi) && |lv'| == |lv| && hi < |lv| && forall l :: lo <= l <= hi ==>
      lv'[l] == lv[l]
    ensures StepsOk(nodes, lv', node, entry, pos, lo, hi)
  {
    hide Entries, Offset;
    forall l | lo <= l < hi ensures StepOk(nodes, lv', node, entry, pos, l) {
      assert StepOk(nodes, lv, node, entry, pos, l);
    }
  }

  lemma {:induction false} SepsKept(nodes: Nodes, nodes': Nodes, es: Level)
    requires SepsOk(nodes, es) && Kept(nodes, nodes', es)
    ensures SepsOk(nodes', es)
  {
    hide SepAt;
    forall j | 0 <= j < |es| - 1 ensures SepAt(nodes', es, j) {
      assert SepAt(nodes, es, j);
      SepEdge(nodes, es, j);
      SepAtFrame(nodes, nodes', es, j);
    }
  }

  lemma SepEdge(nodes: Nodes, es: Level, j: nat)
    requires SepAt(nodes, es, j)
    ensures j + 1 < |es| && es[j + 1].Edge?
  {
  }

  /** Splitting an item in two keeps the nodes apart, if the second is new. */
  lemma {:induction false} SplitDistinct(lv: seq<Level>, l: nat, p: nat, key: Key, added: Node)
    requires Distinct(lv) && l < |lv| && p < |lv[l]| && lv[l][p].Edge? && forall m :: 0 <= m < |lv| ==>
      Without(lv[m], added)
    ensures Distinct(lv[l := SplitItem(lv[l], p, key, added)])
  {
    hide Distinct;
    var lv': seq<Level> := lv[l := SplitItem(lv[l], p, key, added)];
    forall m, j, m', j' | 0 <= m < |lv'| && 0 <= m' < |lv'| && 0 <= j < |lv'[m]| && 0 <= j' < |lv'[m']| &&
      lv'[m][j].Edge? && lv'[m'][j'].Edge? && lv'[m][j].node == lv'[m'][j'].node
      ensures m == m' && j == j'
    {
      var i, i' := SplitOrigin(lv, l, p, key, added, m, j), SplitOrigin(lv, l, p, key, added, m', j');
      if lv'[m][j].node != added {
        if (m, i) != (m', i') { NowhereElse(lv, m, i, m', i'); }
      }
    }
    MakeDistinct(lv');
  }

  lemma MakeDistinct(lv: seq<Level>)
    requires forall l, j, l', j' ::
      (0 <= l < |lv| && 0 <= l' < |lv| && 0 <= j < |lv[l]| && 0 <= j' < |lv[l']| &&
       lv[l][j].Edge? && lv[l'][j'].Edge? && lv[l][j].node == lv[l'][j'].node)
      ==> l == l' && j == j'
    ensures Distinct(lv)
  {
  }

  /** Where item `j` of level `m` was before the split; the new item has no such place. */
  ghost function SplitOrigin(lv: seq<Level>, l: nat, p: nat, key: Key, added: Node, m: nat, j: nat): (i: nat)
    requires l < |lv| && p < |lv[l]| && lv[l][p].Edge? && m < |lv| && j < |lv[l := SplitItem(lv[l], p, key, added)][m]|
    ensures
      var lv' := lv[l := SplitItem(lv[l], p, key, added)];
      if m == l && j == p + 1 then lv'[m][j].Edge? && lv'[m][j].node == added
      else
        && i < |lv[m]| && i == (if m == l && j > p then j - 1 else j)
        && lv'[m][j].Edge? == lv[m][i].Edge? && (lv[m][i].Edge? ==> lv'[m][j].node == lv[m][i].node)
  {
    if m == l && j > p then j - 1 else j
  }

  /** No level has the new node yet. */
  lemma {:induction false} AddedApart(nodes: Nodes, lv: seq<Level>, lo: nat, l: nat, cap: nat, added: Node)
    requires lo <= l < |lv| && LinksOk(nodes, lv, lo, |lv| - 1, cap) && Sorted(lv[|lv| - 1]) &&
      (added >= |nodes| || nodes[added].Free?)
    ensures Without(lv[l], added)
  {
    hide ExpandAll, HalfOk;
    if l < |lv| - 1 { assert LinkOk(nodes, lv, l, cap); }
  }

  /** What a climb knows about the parent of the level it has reached. */
  lemma {:induction false} ParentOnPath(nodes: Nodes, levels: seq<Level>, new': seq<Level>, d: nat, key: Key, ins: Node,
      cap: nat, node: seq<Node>, entry: seq<nat>, pos: seq<nat>, npos: seq<nat>)
    requires Growing(nodes, levels, new', d, key, ins, cap, node, entry, pos, npos) && d > 0
    ensures LinkOk(nodes, levels, d - 1, cap) && StepOk(nodes, levels, node, entry, pos, d - 1) && Apart(levels[d - 1])
    ensures forall l :: 0 <= l < |new'| && l != d - 1 ==> Without(new'[l], node[d - 1])
    ensures nodes[node[d - 1]].Inner? && WellShaped(nodes[node[d - 1]], cap) &&
      |nodes[node[d - 1]].tree| == |nodes[node[d - 1]].keys| + 1
  {
    hide LinkOk, StepOk, Distinct, SepsOk, Sorted, SplitItem, Apart, Without, WellShaped;
    assert LinkOk(nodes, levels, d - 1, cap) && StepOk(nodes, levels, node, entry, pos, d - 1);
    StepItem(nodes, levels, node, entry, pos, d - 1);
    LevelApart(new', d - 1);
    forall l | 0 <= l < |new'| && l != d - 1 ensures Without(new'[l], node[d - 1]) {
      WithoutAt(new', d - 1, pos[d - 1], l);
    }
    LinkKind(nodes, levels, d - 1, cap);
    WellShapedAt(nodes, levels[d - 1], pos[d - 1], true, cap);
    ItemOfInner(nodes, levels[d - 1], pos[d - 1], cap);
  }

  lemma LinkKind(nodes: Nodes, lv: seq<Level>, l: nat, cap: nat)
    requires LinkOk(nodes, lv, l, cap)
    ensures KindOk(nodes, lv[l], l + 2 < |lv|, cap) && HalfOk(nodes, lv[l], cap) && lv[l + 1] == ExpandAll(nodes, lv[l])
  {
  }

  lemma StepItem(nodes: Nodes, lv: seq<Level>, node: seq<Node>, entry: seq<nat>, pos: seq<nat>, l: nat)
    requires StepOk(nodes, lv, node, entry, pos, l)
    ensures l + 1 < |lv| == |pos| && l < |node| == |entry| && pos[l] < |lv[l]| &&
      lv[l][pos[l]] == Edge(node[l], lv[l][pos[l]].upper)
    ensures node[l] < |nodes| && entry[l] < Entries(nodes[node[l]]) &&
      pos[l + 1] == Offset(nodes, lv[l], pos[l]) + entry[l]
  {
  }

  /** The parent has room: entering the new node there completes all levels. */
  lemma {:induction false} JoinParent(nodes: Nodes, levels: seq<Level>, new': seq<Level>, d: nat, key: Key, ins: Node,
      cap: nat, node: seq<Node>, entry: seq<nat>, pos: seq<nat>, npos: seq<nat>)
    requires Growing(nodes, levels, new', d, key, ins, cap, node, entry, pos, npos) && d > 0 && node[d - 1] < |nodes|
    requires nodes[node[d - 1]].Inner? && |nodes[node[d - 1]].tree| == |nodes[node[d - 1]].keys| + 1 &&
      Entries(nodes[node[d - 1]]) < INNER_SIZE
    requires entry[d - 1] <= |nodes[node[d - 1]].keys|
    ensures
      var r := TryInnerInsert(nodes[node[d - 1]], entry[d - 1], key, ins);
      && r.Some? && r.value.Inner?
      && var nodes' := nodes[node[d - 1] := r.value];
      && var entry' := if node[d] == ins then entry[d - 1 := entry[d - 1] + 1] else entry;
      && LinksOk(nodes', new', 0, |levels| - 1, cap) &&
        StepsOk(nodes', new', node, entry', pos[..d] + npos[d..], 0, |levels| - 1)
      && SepsOk(nodes', new'[|levels| - 2])
  {
    hide LinkOk, StepOk, Distinct, SepsOk, Sorted, SplitItem, Apart, Without, WellShaped, TryInnerInsert, Entries,
      Offset, ExpandAll, KindOk, HalfOk;
    ParentOnPath(nodes, levels, new', d, key, ins, cap, node, entry, pos, npos);
    StepItem(nodes, levels, node, entry, pos, d - 1);
    LinkKind(nodes, levels, d - 1, cap);
    EnterInParent(nodes, levels[d - 1], pos[d - 1], entry[d - 1], key, ins, cap);
    var r := TryInnerInsert(nodes[node[d - 1]], entry[d - 1], key, ins);
    var nodes' := nodes[node[d - 1] := r.value];
    var entry' := if node[d] == ins then entry[d - 1 := entry[d - 1] + 1] else entry;
    var npos', h := pos[..d] + npos[d..], |levels| - 1;
    LinksKept(nodes, nodes', levels, 0, d - 1, cap, node[d - 1]);
    LinksKept(nodes, nodes', new', d, h, cap, node[d - 1]);
    LinksCopied(nodes', levels, new', 0, d - 1, cap);
    StepsKept(nodes, nodes', levels, 0, d - 1, cap, node[d - 1], node, entry, pos, node, entry', npos');
    StepsKept(nodes, nodes', new', d, h, cap, node[d - 1], node, entry, npos, node, entry', npos');
    StepsCopied(nodes', levels, new', node, entry', npos', 0, d - 1);
    LeafLevelKept(nodes, nodes', new', cap, node[d - 1]);
    MakeLink(nodes', new', d - 1, cap);
    MakeStep(nodes', new', node, entry', npos', d - 1);
  }

  lemma MakeLink(nodes: Nodes, lv: seq<Level>, l: nat, cap: nat)
    requires l + 1 < |lv| && lv[l + 1] == ExpandAll(nodes, lv[l]) && KindOk(nodes, lv[l], l + 2 < |lv|, cap) &&
      HalfOk(nodes, lv[l], cap)
    ensures LinkOk(nodes, lv, l, cap)
  {
  }

  lemma MakeStep(nodes: Nodes, lv: seq<Level>, node: seq<Node>, entry: seq<nat>, pos: seq<nat>, l: nat)
    requires l + 1 < |lv| == |pos| && l < |node| == |entry| && pos[l] < |lv[l]| && lv[l][pos[l]].Edge? &&
      lv[l][pos[l]].node == node[l] < |nodes|
    requires entry[l] < Entries(nodes[node[l]]) && pos[l + 1] == Offset(nodes, lv[l], pos[l]) + entry[l]
    ensures StepOk(nodes, lv, node, entry, pos, l)
  {
  }

  lemma {:induction false} LeafLevelKept(nodes: Nodes, nodes': Nodes, lv: seq<Level>, cap: nat, n: Node)
    requires |lv| >= 2 && LinkOk(nodes, lv, |lv| - 2, cap) && SepsOk(nodes, lv[|lv| - 2]) &&
      ChangedOnly(nodes, nodes', n) && Without(lv[|lv| - 2], n)
    ensures SepsOk(nodes', lv[|lv| - 2])
  {
    hide LinkOk, SepsOk, Without;
    KeptOnly(nodes, nodes', lv, |lv| - 2, cap, n);
    SepsKept(nodes, nodes', lv[|lv| - 2]);
  }
}
