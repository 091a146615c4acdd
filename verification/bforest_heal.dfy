/** What rebalancing does to the levels of a tree. */
module BForestHeal {
  import opened Wrappers
  import opened BForestNode
  import opened BForestLevels
  import opened BForestPath
  import opened BForestEdit

  ghost predicate HalfExcept(nodes: Nodes, es: Level, g: nat, cap: nat) {
    forall j :: 0 <= j < |es| - 1 && j != g && es[j].Edge? && es[j].node < |nodes| ==> HalfFull(nodes[es[j].node], cap)
  }

  ghost predicate KindExcept(nodes: Nodes, es: Level, g: nat, inner: bool, cap: nat) {
    forall j :: 0 <= j < |es| ==>
      && es[j].Edge? && es[j].node < |nodes|
      && (j != g ==>
          && WellShaped(nodes[es[j].node], cap) && Entries(nodes[es[j].node]) > 0
          && nodes[es[j].node].Inner? == inner)
  }

  /** No node of a level occurs twice in it. */
  ghost predicate Apart(es: Level) {
    forall i, j :: 0 <= i < j < |es| && es[i].Edge? && es[j].Edge? ==> es[i].node != es[j].node
  }

  lemma {:induction false} LevelApart(lv: seq<Level>, l: nat)
    requires Distinct(lv) && l < |lv|
    ensures Apart(lv[l])
  {
  }

  // ---- frames ----

  lemma {:induction false} UpperUnchanged(nodes: Nodes, nodes': Nodes, root: Node, lv: seq<Level>, cap: nat, l: nat,
      j: nat)
    requires PrefixOk(nodes, root, lv, cap) && l < |lv| - 1 && j < |lv[l]|
    requires |nodes| <= |nodes'|
    requires forall n :: 0 <= n < |nodes| && HasNode(lv[..|lv| - 1], n) ==> nodes'[n] == nodes[n]
    ensures lv[l][j].Edge? && lv[l][j].node < |nodes| && nodes'[lv[l][j].node] == nodes[lv[l][j].node]
  {
    hide ExpandAll, Chain, Distinct, HalfOk;
    AllEdgesAt(nodes, root, lv, cap, l);
    var up: seq<Level> := lv[..|lv| - 1];
    assert up[l][j].Edge? && up[l][j].node == lv[l][j].node;
  }

  /** Changing nodes of the last level, or nodes outside, leaves the levels above it alone. */
  lemma {:induction false} PrefixFrame(nodes: Nodes, nodes': Nodes, root: Node, lv: seq<Level>, cap: nat)
    requires PrefixOk(nodes, root, lv, cap) && |nodes| <= |nodes'|
    requires forall n :: 0 <= n < |nodes| && HasNode(lv[..|lv| - 1], n) ==> nodes'[n] == nodes[n]
    ensures PrefixOk(nodes', root, lv, cap)
  {
    hide ExpandAll, Distinct, HasNode, WellShaped, HalfFull;
    forall l | 0 <= l < |lv| - 1 ensures
      lv[l + 1] == ExpandAll(nodes', lv[l]) && KindOk(nodes', lv[l], true, cap) && HalfOk(nodes', lv[l], cap)
    {
      var es := lv[l];
      forall j | 0 <= j < |es| ensures es[j].Edge? && es[j].node < |nodes| && nodes'[es[j].node] == nodes[es[j].node] {
        UpperUnchanged(nodes, nodes', root, lv, cap, l, j);
      }
      ExpandFrame(nodes, nodes', es);
    }
    forall l | 0 < l < |lv| ensures lv[l] == ExpandAll(nodes', lv[l - 1]) {
      assert lv[(l - 1) + 1] == ExpandAll(nodes', lv[l - 1]);
    }
  }

  lemma {:induction false} OnPathFrame(nodes: Nodes, nodes': Nodes, root: Node, lv: seq<Level>, cap: nat,
      node: seq<Node>, entry: seq<nat>, pos: seq<nat>)
    requires PrefixOk(nodes, root, lv, cap) && |nodes| <= |nodes'| && OnPath(nodes, lv, node, entry, pos)
    requires forall n :: 0 <= n < |nodes| && HasNode(lv[..|lv| - 1], n) ==> nodes'[n] == nodes[n]
    ensures OnPath(nodes', lv, node, entry, pos)
  {
    hide ExpandAll, Distinct, HasNode, WellShaped, HalfFull, Entries, Chain, HalfOk, KindOk;
    forall l | 0 <= l < |lv| - 1 ensures
      node[l] < |nodes'| && nodes'[node[l]] == nodes[node[l]] &&
        Offset(nodes', lv[l], pos[l]) == Offset(nodes, lv[l], pos[l])
    {
      var es := lv[l];
      forall j | 0 <= j < |es| ensures es[j].Edge? && es[j].node < |nodes| && nodes'[es[j].node] == nodes[es[j].node] {
        UpperUnchanged(nodes, nodes', root, lv, cap, l, j);
      }
      ExpandFrame(nodes, nodes', es[..pos[l]]);
    }
  }

  // ---- balancing two neighbours ----

  /** The two neighbours after balancing. */
  ghost function BalancedNodes(nodes: Nodes, es: Level, g: nat, r: Balanced): (nodes': Nodes)
    requires AllEdges(nodes, es) && g + 1 < |es|
    ensures |nodes'| == |nodes|
  {
    nodes[es[g].node := r.lhs][es[g + 1].node := r.rhs]
  }

  ghost predicate Unbalanced(nodes: Nodes, es: Level, g: nat, inner: bool, cap: nat) {
    && cap >= 2 && KindOk(nodes, es, inner, cap) && Apart(es) && g + 1 < |es|
    && HalfExcept(nodes, es, g, cap) && es[g].upper.Some? && !HalfFull(nodes[es[g].node], cap)
  }

  ghost function BalancedAt(nodes: Nodes, es: Level, g: nat, inner: bool, cap: nat): (r: Balanced)
    requires Unbalanced(nodes, es, g, inner, cap)
    ensures BalanceSpec(nodes[es[g].node], es[g].upper.value, nodes[es[g + 1].node], es[g + 1].upper, cap, r)
  {
    BalanceConserves(nodes[es[g].node], es[g].upper.value, nodes[es[g + 1].node], es[g + 1].upper, cap);
    Balance(nodes[es[g].node], es[g].upper.value, nodes[es[g + 1].node], cap)
  }

  lemma {:induction false} BalancedOutside(nodes: Nodes, es: Level, g: nat, r: Balanced)
    requires AllEdges(nodes, es) && g + 1 < |es| && Apart(es)
    ensures UnchangedOutside(nodes, BalancedNodes(nodes, es, g, r), es, g, g + 2)
    ensures
      var nodes' := BalancedNodes(nodes, es, g, r);
      nodes'[es[g].node] == r.lhs && nodes'[es[g + 1].node] == r.rhs
  {
  }

  lemma {:induction false} ExpandTwo(nodes: Nodes, a: Item, b: Item)
    ensures ExpandAll(nodes, [a, b]) == ExpandItem(nodes, a) + ExpandItem(nodes, b)
  {
    assert [a, b] == [a] + [b];
    ExpandAppend(nodes, [a], [b]);
    ExpandOne(nodes, a);
    ExpandOne(nodes, b);
  }

  /** Redistribution: the level below stays as it is, under the new critical key. */
  lemma {:induction false} Redistribute(nodes: Nodes, es: Level, g: nat, inner: bool, cap: nat)
    requires Unbalanced(nodes, es, g, inner, cap) && BalancedAt(nodes, es, g, inner, cap).newCrit.Some?
    ensures
      var r := BalancedAt(nodes, es, g, inner, cap);
      var nodes', es' := BalancedNodes(nodes, es, g, r), SetUpper(es, g, r.newCrit);
      && ExpandAll(nodes', es') == ExpandAll(nodes, es)
      && KindOk(nodes', es', inner, cap) && HalfOk(nodes', es', cap)
      && Offset(nodes', es', g) == Offset(nodes, es, g)
  {
    hide ExpandAll, WellShaped, HalfFull, Expand, Entries;
    var r := BalancedAt(nodes, es, g, inner, cap);
    var nodes', es' := BalancedNodes(nodes, es, g, r), SetUpper(es, g, r.newCrit);
    BalancedOutside(nodes, es, g, r);
    var mid' := [es'[g], es[g + 1]];
    ReplaceInLevel(nodes, nodes', es, g, g + 2, mid');
    assert es[..g] + mid' + es[g + 2..] == es';
    assert es[g..g + 2] == [es[g], es[g + 1]];
    ExpandTwo(nodes, es[g], es[g + 1]);
    ExpandTwo(nodes', es'[g], es[g + 1]);
    assert es'[..g] == es[..g];
    ExpandFrame(nodes, nodes', es[..g]);
  }

  lemma {:induction false} MergedItem(nodes: Nodes, es: Level, g: nat, inner: bool, cap: nat)
    requires Unbalanced(nodes, es, g, inner, cap) && BalancedAt(nodes, es, g, inner, cap).newCrit.None?
    ensures
      var nodes' := BalancedNodes(nodes, es, g, BalancedAt(nodes, es, g, inner, cap));
      ExpandItem(nodes', es[g + 1]) == ExpandItem(nodes, es[g]) + ExpandItem(nodes, es[g + 1])
  {
    hide WellShaped, Expand, HalfFull, HalfExcept, Apart;
    BalancedOutside(nodes, es, g, BalancedAt(nodes, es, g, inner, cap));
  }

  lemma {:induction false} MergeExpands(nodes: Nodes, es: Level, g: nat, inner: bool, cap: nat)
    requires Unbalanced(nodes, es, g, inner, cap) && BalancedAt(nodes, es, g, inner, cap).newCrit.None?
    ensures
      var nodes', es' := BalancedNodes(nodes, es, g, BalancedAt(nodes, es, g, inner, cap)), RemoveAt(es, g);
      ExpandAll(nodes', es') == ExpandAll(nodes, es) && Offset(nodes', es', g) == Offset(nodes, es, g)
  {
    hide ExpandAll, ExpandItem, WellShaped, BalanceSpec, HalfFull, HalfExcept, Apart;
    var r := BalancedAt(nodes, es, g, inner, cap);
    var nodes', es' := BalancedNodes(nodes, es, g, r), RemoveAt(es, g);
    BalancedOutside(nodes, es, g, r);
    ReplaceInLevel(nodes, nodes', es, g, g + 2, [es[g + 1]]);
    assert es[..g] + [es[g + 1]] + es[g + 2..] == es';
    assert es[g..g + 2] == [es[g], es[g + 1]];
    ExpandTwo(nodes, es[g], es[g + 1]);
    ExpandOne(nodes', es[g + 1]);
    MergedItem(nodes, es, g, inner, cap);
    assert es'[..g] == es[..g];
    ExpandFrame(nodes, nodes', es[..g]);
  }

  lemma {:induction false} MergeKind(nodes: Nodes, es: Level, g: nat, inner: bool, cap: nat)
    requires Unbalanced(nodes, es, g, inner, cap) && BalancedAt(nodes, es, g, inner, cap).newCrit.None?
    ensures
      var nodes', es' := BalancedNodes(nodes, es, g, BalancedAt(nodes, es, g, inner, cap)), RemoveAt(es, g);
      KindOk(nodes', es', inner, cap) && HalfOk(nodes', es', cap)
  {
    hide WellShaped, Expand;
    var r := BalancedAt(nodes, es, g, inner, cap);
    var nodes', es' := BalancedNodes(nodes, es, g, r), RemoveAt(es, g);
    BalancedOutside(nodes, es, g, r);
    forall j | 0 <= j < |es'| ensures es'[j] == es[if j < g then j else j + 1] {}
  }

  /** Merging: everything is in the right neighbour, and the level below stays as it is once the left one is
      gone. */
  lemma {:induction false} Merge(nodes: Nodes, es: Level, g: nat, inner: bool, cap: nat)
    requires Unbalanced(nodes, es, g, inner, cap) && BalancedAt(nodes, es, g, inner, cap).newCrit.None?
    ensures
      var r := BalancedAt(nodes, es, g, inner, cap);
      var nodes', es' := BalancedNodes(nodes, es, g, r), RemoveAt(es, g);
      && ExpandAll(nodes', es') == ExpandAll(nodes, es)
      && KindOk(nodes', es', inner, cap) && HalfOk(nodes', es', cap)
      && Offset(nodes', es', g) == Offset(nodes, es, g)
  {
    hide ExpandAll, WellShaped, Expand, KindOk, HalfOk, HalfExcept, Apart, BalanceSpec, BalancedNodes, RemoveAt;
    MergeExpands(nodes, es, g, inner, cap);
    MergeKind(nodes, es, g, inner, cap);
  }

  // ---- removing a node from its parent ----

  /** The bound of item `g` may be handed to its left neighbour without changing any other bound that matters. */
  ghost predicate Droppable(es: Level, g: nat) {
    g < |es| && es[g].Edge? && (g == 0 || g + 1 == |es| || (es[g - 1].Edge? && es[g - 1].upper == es[g].upper))
  }

  /** Removing one of several sub-trees of a node drops that item from the level below. */
  lemma {:induction false} DropChild(nodes: Nodes, es: Level, p: nat, e: nat, cap: nat)
    requires KindOk(nodes, es, true, cap) && Apart(es) && p < |es| && 1 < Entries(nodes[es[p].node]) &&
      e < Entries(nodes[es[p].node])
    requires Droppable(ExpandAll(nodes, es), Offset(nodes, es, p) + e)
    ensures
      var nodes' := nodes[es[p].node := InnerRemove(nodes[es[p].node], e).0];
      && ExpandAll(nodes', es) == DropItem(ExpandAll(nodes, es), Offset(nodes, es, p) + e)
      && KindOk(nodes', es, true, cap)
      && Offset(nodes', es, p) == Offset(nodes, es, p)
  {
    hide ExpandAll, WellShaped, Expand, ExpandItem, InnerRemove;
    ItemOfInner(nodes, es, p, cap);
    var nd := nodes[es[p].node];
    var nodes' := nodes[es[p].node := InnerRemove(nd, e).0];
    ExpandAround(nodes, es, p);
    InnerRemoveExpands(nd, es[p].upper, e, cap);
    ChangeNode(nodes, nodes', es, p);
    ItemIsExpand(nodes, es[p]);
    ItemIsExpand(nodes', es[p]);
    DropWithin(ExpandAll(nodes, es[..p]), ExpandItem(nodes, es[p]), ExpandAll(nodes, es[p + 1..]), e);
  }

  lemma ItemIsExpand(nodes: Nodes, e: Item)
    requires e.Edge? && e.node < |nodes|
    ensures ExpandItem(nodes, e) == Expand(nodes[e.node], e.upper)
  {
  }

  lemma {:induction false} DropWithin(a: Level, mid: Level, b: Level, e: nat)
    requires 1 < |mid| && e < |mid| && Droppable(a + mid + b, |a| + e) && forall i :: 0 <= i < |mid| ==> mid[i].Edge?
    ensures DropItem(a + mid + b, |a| + e) == a + DropItem(mid, e) + b
  {
    hide DropItem;
    var s, n := a + mid + b, |a| + e;
    assert s[n] == mid[e];
    if e > 0 {
      var x := Edge(mid[e - 1].node, mid[e].upper);
      assert s[n - 1] == mid[e - 1];
      DropSplits(s, n);
      DropSplits(mid, e);
      SpliceWithin(a, mid, b, e - 1, e + 1, [x]);
    } else {
      DropHead(a, mid, b);
    }
  }

  lemma {:induction false} SpliceWithin(a: Level, mid: Level, b: Level, lo: nat, hi: nat, x: Level)
    requires lo <= hi <= |mid|
    ensures (a + mid + b)[..|a| + lo] + x + (a + mid + b)[|a| + hi..] == a + (mid[..lo] + x + mid[hi..]) + b
  {
    var s := a + mid + b;
    assert s[..|a| + lo] == a + mid[..lo];
    assert s[|a| + hi..] == mid[hi..] + b;
  }

  /** Dropping an item that is not the last changes no bound. */
  lemma {:induction false} DropPlain(s: Level, g: nat)
    requires Droppable(s, g) && g + 1 < |s|
    ensures DropItem(s, g) == s[..g] + s[g + 1..]
  {
    if g > 0 {
      assert s[..g] == s[..g - 1] + [s[g - 1]];
      assert Edge(s[g - 1].node, s[g].upper) == s[g - 1];
    }
  }

  lemma {:induction false} DropHead(a: Level, mid: Level, b: Level)
    requires 1 < |mid| && mid[0].Edge? && Droppable(a + mid + b, |a|)
    ensures DropItem(a + mid + b, |a|) == a + DropItem(mid, 0) + b
  {
    hide DropItem, Droppable;
    DropPlain(a + mid + b, |a|);
    DropFront(mid);
    SpliceWithin(a, mid, b, 0, 1, []);
    assert mid[..0] + [] + mid[1..] == mid[1..];
  }

  lemma DropFront(mid: Level)
    requires 1 < |mid| && mid[0].Edge?
    ensures DropItem(mid, 0) == mid[1..]
  {
  }

  /** A node with a single sub-tree: dropping the sub-tree from its level is dropping the emptied node
      from the level above. */
  lemma {:induction false} DropOnlyChild(nodes: Nodes, nodes': Nodes, es: Level, p: nat, cap: nat)
    requires KindOk(nodes, es, true, cap) && p < |es| && Entries(nodes[es[p].node]) == 1
    requires Droppable(ExpandAll(nodes, es), Offset(nodes, es, p)) && UnchangedOutside(nodes, nodes', es, p, p + 1)
    ensures Droppable(es, p)
    ensures ExpandAll(nodes', DropItem(es, p)) == DropItem(ExpandAll(nodes, es), Offset(nodes, es, p))
  {
    hide ExpandAll, WellShaped, Expand, ExpandItem, Entries;
    DropRight(nodes, es, p, cap);
    if p == 0 {
      DropFirst(nodes, nodes', es, cap);
    } else {
      DropLater(nodes, nodes', es, p, cap);
    }
  }

  lemma {:induction false} DropFirst(nodes: Nodes, nodes': Nodes, es: Level, cap: nat)
    requires KindOk(nodes, es, true, cap) && 0 < |es| && Entries(nodes[es[0].node]) == 1
    requires UnchangedOutside(nodes, nodes', es, 0, 1)
    ensures |ExpandAll(nodes, es)| > 0 && ExpandAll(nodes', DropItem(es, 0)) == DropItem(ExpandAll(nodes, es), 0)
    ensures Offset(nodes, es, 0) == 0
  {
    hide WellShaped, Expand, ExpandItem, Entries;
    ItemOfInner(nodes, es, 0, cap);
    assert DropItem(es, 0) == es[1..];
    forall j | 0 <= j < |es[1..]| && es[1..][j].Edge?
      ensures es[1..][j].node < |nodes| && nodes'[es[1..][j].node] == nodes[es[1..][j].node]
    {
      assert es[1..][j] == es[j + 1];
    }
    ExpandFrame(nodes, nodes', es[1..]);
    var c := ExpandItem(nodes, es[0])[0];
    assert ExpandItem(nodes, es[0]) == [c];
    OffsetEnds(nodes, es);
  }

  lemma {:induction false} DropLater(nodes: Nodes, nodes': Nodes, es: Level, p: nat, cap: nat)
    requires KindOk(nodes, es, true, cap) && 0 < p < |es| && Entries(nodes[es[p].node]) == 1
    requires UnchangedOutside(nodes, nodes', es, p, p + 1)
    ensures Offset(nodes, es, p) < |ExpandAll(nodes, es)|
    ensures ExpandAll(nodes', DropItem(es, p)) == DropItem(ExpandAll(nodes, es), Offset(nodes, es, p))
  {
    hide ExpandAll, WellShaped, Expand, ExpandItem, Entries, DropItem;
    ItemOfInner(nodes, es, p, cap);
    ExpandAround(nodes, es, p);
    ExpandAround(nodes, es, p - 1);
    ItemSetUpper(nodes, es, p - 1, es[p].upper, cap);
    var a, m, b := ExpandAll(nodes, es[..p - 1]), ExpandItem(nodes, es[p - 1]), ExpandAll(nodes, es[p + 1..]);
    var c := ExpandItem(nodes, es[p])[0];
    assert ExpandItem(nodes, es[p]) == [c] && c.upper == es[p].upper;
    assert ExpandAll(nodes, es) == a + m + [c] + b;
    DropAfter(a, m, c, b);
    var x := Edge(es[p - 1].node, es[p].upper);
    DropSplits(es, p);
    ReplaceInLevel(nodes, nodes', es, p - 1, p + 1, [x]);
    ExpandOne(nodes', x);
    ItemUnchanged(nodes, nodes', es, p, p - 1, es[p].upper);
  }

  lemma ItemUnchanged(nodes: Nodes, nodes': Nodes, es: Level, p: nat, j: nat, k: Option<Key>)
    requires UnchangedOutside(nodes, nodes', es, p, p + 1) && j < |es| && j != p && es[j].Edge?
    ensures ExpandItem(nodes', Edge(es[j].node, k)) == ExpandItem(nodes, Edge(es[j].node, k))
  {
  }

  lemma DropSplits(es: Level, p: nat)
    requires 0 < p < |es| && es[p - 1].Edge? && es[p].Edge?
    ensures DropItem(es, p) == es[..p - 1] + [Edge(es[p - 1].node, es[p].upper)] + es[p + 1..]
  {
  }

  lemma {:induction false} DropAfter(a: Level, m: Level, c: Item, b: Level)
    requires |m| > 0 && m[|m| - 1].Edge? && c.Edge?
    ensures DropItem(a + m + [c] + b, |a + m|) == a + SetUpper(m, |m| - 1, c.upper) + b
  {
    var s := a + m + [c] + b;
    var l, r := DropItem(s, |a + m|), a + SetUpper(m, |m| - 1, c.upper) + b;
    assert s[|a + m|] == c && s[|a + m| - 1] == m[|m| - 1];
    assert |l| == |r|;
    forall i | 0 <= i < |l| ensures l[i] == r[i] {}
  }

  /** If the only sub-tree of item `p` can be dropped, so can item `p`. */
  lemma {:induction false} DropRight(nodes: Nodes, es: Level, p: nat, cap: nat)
    requires KindOk(nodes, es, true, cap) && p < |es| && Entries(nodes[es[p].node]) == 1
    requires Droppable(ExpandAll(nodes, es), Offset(nodes, es, p))
    ensures Droppable(es, p)
  {
    hide ExpandAll, WellShaped, Expand, ExpandItem, Entries;
    var below, g := ExpandAll(nodes, es), Offset(nodes, es, p);
    ItemOfInner(nodes, es, p, cap);
    ExpandIndex(nodes, es, p, 0);
    ExpandAround(nodes, es, p);
    if p > 0 && p + 1 < |es| {
      ItemOfInner(nodes, es, p - 1, cap);
      ItemOfInner(nodes, es, p + 1, cap);
      var last := |ExpandItem(nodes, es[p - 1])| - 1;
      assert Entries(nodes[es[p - 1].node]) > 0 && Entries(nodes[es[p + 1].node]) > 0;
      ExpandIndex(nodes, es, p - 1, last);
      ExpandAround(nodes, es, p - 1);
      ExpandAround(nodes, es, p + 1);
      assert g > 0 && g + 1 < |below|;
    }
  }
}
