/** Removal: taking an entry out of a leaf and repairing the tree upwards along the path. */
module BForestRemove {
  import opened Wrappers
  import opened BForestNode
  import opened BForestLevels
  import opened BForestPath
  import opened BForestEdit
  import opened BForestPool
  import opened BForestCursor
  import opened BForestHeal

  ghost predicate NodeIn(es: Level, n: Node) {
    exists i :: 0 <= i < |es| && es[i].Edge? && es[i].node == n
  }

  /** The nodes of `es'` are among those of `es`. */
  ghost predicate SubItems(es: Level, es': Level) {
    forall j :: 0 <= j < |es'| ==> es'[j].Edge? && NodeIn(es, es'[j].node)
  }

  ghost predicate SubLevels(lv: seq<Level>, lv': seq<Level>) {
    |lv'| == |lv| && forall l :: 0 <= l < |lv| ==> SubItems(lv[l], lv'[l])
  }

  lemma {:induction false} SameIsSub(lv: seq<Level>, lv': seq<Level>)
    requires SameNodes(lv, lv')
    ensures SubLevels(lv, lv')
  {
    forall l | 0 <= l < |lv| ensures SubItems(lv[l], lv'[l]) {
      assert SameItems(lv[l], lv'[l]);
    }
  }

  lemma {:induction false} SubTrans(lv: seq<Level>, lv1: seq<Level>, lv2: seq<Level>)
    requires SubLevels(lv, lv1) && SubLevels(lv1, lv2)
    ensures SubLevels(lv, lv2)
  {
    forall l | 0 <= l < |lv| ensures SubItems(lv[l], lv2[l]) {
      assert SubItems(lv[l], lv1[l]) && SubItems(lv1[l], lv2[l]);
    }
  }

  lemma {:induction false} DropSub(es: Level, g: nat)
    requires g < |es| && forall j :: 0 <= j < |es| ==> es[j].Edge?
    ensures SubItems(es, DropItem(es, g))
    ensures Apart(es) ==> Apart(DropItem(es, g))
    ensures forall j :: 0 <= j < |es| - 1 ==>
      DropItem(es, g)[j].Edge? && DropItem(es, g)[j].node == es[if j < g then j else j + 1].node
  {
    var es' := DropItem(es, g);
    forall j | 0 <= j < |es'| ensures es'[j].Edge? && es'[j].node == es[if j < g then j else j + 1].node {}
  }

  // ---- taking prefixes apart and putting them together ----

  lemma {:induction false} PrefixUp(nodes: Nodes, root: Node, lv: seq<Level>, cap: nat)
    requires PrefixOk(nodes, root, lv, cap) && |lv| > 1
    ensures
      var up := lv[..|lv| - 1];
      && PrefixOk(nodes, root, up, cap) && KindOk(nodes, up[|up| - 1], true, cap) && HalfOk(nodes, up[|up| - 1], cap)
      && lv[|lv| - 1] == ExpandAll(nodes, up[|up| - 1])
  {
    hide ExpandAll, WellShaped, HalfFull;
    DistinctUp(lv);
  }

  lemma {:induction false} DistinctUp(lv: seq<Level>)
    requires Distinct(lv) && |lv| > 1
    ensures Distinct(lv[..|lv| - 1])
  {
    var up: seq<Level> := lv[..|lv| - 1];
    assert forall l :: 0 <= l < |up| ==> up[l] == lv[l];
  }

  lemma {:induction false} OnPathUp(nodes: Nodes, lv: seq<Level>, node: seq<Node>, entry: seq<nat>, pos: seq<nat>)
    requires OnPath(nodes, lv, node, entry, pos) && |lv| > 1
    ensures OnPath(nodes, lv[..|lv| - 1], node, entry, pos[..|lv| - 1])
  {
    hide ExpandAll, Entries, Offset;
  }

  lemma {:induction false} DistinctDown(lv: seq<Level>, up': seq<Level>, es': Level)
    requires Distinct(lv) && |up'| == |lv| - 1 && Distinct(up') && SubLevels(lv[..|lv| - 1], up')
    requires Apart(es') && SubItems(lv[|lv| - 1], es')
    ensures Distinct(up' + [es'])
  {
    hide Apart;
    var lv': seq<Level> := up' + [es'];
    forall l, j, l', j' |
      0 <= l < |lv'| && 0 <= l' < |lv'| && 0 <= j < |lv'[l]| && 0 <= j' < |lv'[l']| &&
      lv'[l][j].Edge? && lv'[l'][j'].Edge? && lv'[l][j].node == lv'[l'][j'].node
      ensures l == l' && j == j'
    {
      if l < |up'| && l' < |up'| {
        assert up'[l][j].node == up'[l'][j'].node;
      } else {
        var i := SubOrigin(lv, up', es', l, j);
        var i' := SubOrigin(lv, up', es', l', j');
        assert l == l';
        ApartIndex(es', j, j');
      }
    }
  }

  lemma ApartIndex(es: Level, i: nat, j: nat)
    requires Apart(es) && i < |es| && j < |es| && es[i].Edge? && es[j].Edge? && es[i].node == es[j].node
    ensures i == j
  {
  }

  lemma {:induction false} SubOrigin(lv: seq<Level>, up': seq<Level>, es': Level, l: nat, j: nat) returns (i: nat)
    requires |up'| == |lv| - 1 && SubLevels(lv[..|lv| - 1], up') && SubItems(lv[|lv| - 1], es')
    requires l < |lv| && j < |(up' + [es'])[l]|
    ensures i < |lv[l]| && lv[l][i].Edge? && (up' + [es'])[l][j].Edge? && lv[l][i].node == (up' + [es'])[l][j].node
  {
    var e: Item := (up' + [es'])[l][j];
    assert SubItems(lv[l], (up' + [es'])[l]);
    assert NodeIn(lv[l], e.node);
    i :| 0 <= i < |lv[l]| && lv[l][i].Edge? && lv[l][i].node == e.node;
  }

  /** A repaired upper part and the level below it make a prefix again. */
  lemma {:induction false} PrefixDown(nodes: Nodes, root: Node, lv: seq<Level>, up': seq<Level>, es': Level, cap: nat)
    requires PrefixOk(nodes, root, up', cap) && |up'| == |lv| - 1
    requires KindOk(nodes, up'[|up'| - 1], true, cap) && HalfOk(nodes, up'[|up'| - 1], cap) &&
      es' == ExpandAll(nodes, up'[|up'| - 1])
    requires Distinct(lv) && SubLevels(lv[..|lv| - 1], up') && Apart(es') && SubItems(lv[|lv| - 1], es') &&
      AllEdges(nodes, es')
    ensures PrefixOk(nodes, root, up' + [es'], cap) && SubLevels(lv, up' + [es'])
  {
    hide ExpandAll, WellShaped, HalfFull, Distinct, Apart, SubItems;
    DistinctDown(lv, up', es');
    forall l | 0 <= l < |lv| ensures SubItems(lv[l], (up' + [es'])[l]) {
      if l < |up'| { assert SubItems(lv[..|lv| - 1][l], up'[l]); }
    }
  }

  lemma {:induction false} OnPathDown(nodes: Nodes, up: seq<Level>, es: Level, node: seq<Node>, entry: seq<nat>,
      pos: seq<nat>)
    requires OnPath(nodes, up, node, entry, pos) && |up| < |node|
    requires node[|up| - 1] < |nodes| && entry[|up| - 1] < Entries(nodes[node[|up| - 1]])
    requires
      var g := Offset(nodes, up[|up| - 1], pos[|up| - 1]) + entry[|up| - 1];
      g < |es| && es[g].Edge? && es[g].node == node[|up|]
    ensures OnPath(nodes, up + [es], node, entry, pos + [Offset(nodes, up[|up| - 1], pos[|up| - 1]) + entry[|up| - 1]])
  {
    hide ExpandAll, Entries, Offset;
  }

  // ---- contracts ----

  /** A path down to `level` in a tree whose levels above are in order. */
  ghost predicate Reached(nodes: Nodes, root: Node, lv: seq<Level>, cap: nat, node: seq<Node>, entry: seq<nat>,
      pos: seq<nat>, level: nat) {
    && cap >= 2 && level < MAX_PATH == |node| == |entry| && |lv| == level + 1
    && PrefixOk(nodes, root, lv, cap) && OnPath(nodes, lv, node, entry, pos)
    && (level > 0 ==> |lv[1]| >= 2)
  }

  /** The last level has lost its item `g`; the levels above are in order again. */
  ghost predicate Emptied(nodes: Nodes, nodes': Nodes, root: Node, lv: seq<Level>, lv': seq<Level>, g: nat, cap: nat) {
    && |lv'| == |lv| > 1 && PrefixOk(nodes', root, lv', cap) && SubLevels(lv, lv')
    && g < |lv[|lv| - 1]| && lv'[|lv| - 1] == DropItem(lv[|lv| - 1], g)
  }

  /** Only the levels above, and node `n` of the last level, have been touched. */
  ghost predicate OnlyAbove(nodes: Nodes, nodes': Nodes, lv: seq<Level>, n: Node) {
    |nodes'| == |nodes| && |lv| > 0 && forall m :: 0 <= m < |nodes| && !HasNode(lv[..|lv| - 1], m) && m != n ==>
      nodes'[m] == nodes[m]
  }

  /** The last level is in order again, with the same entries below it. */
  ghost predicate Healed(nodes: Nodes, nodes': Nodes, root: Node, lv: seq<Level>, lv': seq<Level>, inner: bool,
      cap: nat) {
    && |lv'| == |lv| > 0 && PrefixOk(nodes', root, lv', cap) && SubLevels(lv, lv')
    && KindOk(nodes', lv'[|lv| - 1], inner, cap) && HalfOk(nodes', lv'[|lv| - 1], cap)
    && ExpandAll(nodes', lv'[|lv| - 1]) == ExpandAll(nodes, lv[|lv| - 1])
    && (!inner ==> SepsOk(nodes', lv'[|lv| - 1]))
    && OnlyWithin(nodes, nodes', lv)
  }

  /** The path still leads to entry number `target` of the level below, or off the end. */
  ghost predicate Leads(nodes: Nodes, lv: seq<Level>, node: seq<Node>, entry: seq<nat>, pos: seq<nat>, target: nat) {
    && OnPath(nodes, lv, node, entry, pos)
    && var top := |lv| - 1;
    && node[top] < |nodes| && entry[top] < Entries(nodes[node[top]])
    && Offset(nodes, lv[top], pos[top]) + entry[top] == target
  }

  /** The path leads to entry `target` of the `n` entries below, or is off the end. */
  ghost predicate LeadsOrOff(nodes: Nodes, lv: seq<Level>, node: seq<Node>, entry: seq<nat>, pos: seq<nat>, size: nat,
      size0: nat, target: nat, n: nat) {
    if target < n then size == size0 && Leads(nodes, lv, node, entry, pos, target) else size == 0
  }

  /** The path passes through item `g` of the last level, if there is one, with entry `e` untouched. */
  ghost predicate AtOrOff(nodes: Nodes, lv: seq<Level>, node: seq<Node>, entry: seq<nat>, pos: seq<nat>, size: nat,
      size0: nat, g: nat, e: nat) {
    if |lv| > 0 && g < |lv[|lv| - 1]|
    then size == size0 && OnPath(nodes, lv, node, entry, pos) && pos[|lv| - 1] == g && entry[|lv| - 1] == e
    else size == 0
  }

  /** The nodes that are gone from the tree are free. */
  ghost predicate Freed(nodes: Nodes, lv: seq<Level>, lv': seq<Level>) {
    forall n: Node :: HasNode(lv, n) && !HasNode(lv', n) ==> n < |nodes| && nodes[n].Free?
  }

  /** What `status` says about the node just reduced. */
  ghost predicate StatusOk(nodes: Nodes, n: Node, e: nat, status: Removed, cap: nat) {
    && n < |nodes|
    && match status
       case Healthy => HalfFull(nodes[n], cap) && e < Entries(nodes[n])
       case Rightmost => HalfFull(nodes[n], cap) && e == Entries(nodes[n])
       case Underflow => !HalfFull(nodes[n], cap) && e <= Entries(nodes[n])
       case Empty => Entries(nodes[n]) == 0 && e == 0
  }

  // ---- steps of the proofs ----

  lemma {:induction false} ItemSize(nodes: Nodes, es: Level, j: nat, inner: bool, cap: nat)
    requires KindOk(nodes, es, inner, cap) && j < |es|
    ensures |ExpandItem(nodes, es[j])| == Entries(nodes[es[j].node]) > 0
  {
  }

  /** Where entry `e` of item `g` lies in the level below; one past the last entry is the first entry of the
      next item. */
  lemma {:induction false} TargetAt(nodes: Nodes, es: Level, g: nat, e: nat, inner: bool, cap: nat)
    requires KindOk(nodes, es, inner, cap) && g < |es| && e <= Entries(nodes[es[g].node])
    ensures
      var target, n := Offset(nodes, es, g) + e, |ExpandAll(nodes, es)|;
      && (e < Entries(nodes[es[g].node]) ==> target < n)
      && (e == Entries(nodes[es[g].node]) ==> target == Offset(nodes, es, g + 1))
      && (e == Entries(nodes[es[g].node]) && g + 1 < |es| ==> target < n)
      && (e == Entries(nodes[es[g].node]) && g + 1 == |es| ==> target == n)
  {
    hide ExpandAll, KindOk, Entries;
    ItemSize(nodes, es, g, inner, cap);
    ExpandAround(nodes, es, g);
    if e < Entries(nodes[es[g].node]) {
      ExpandIndex(nodes, es, g, e);
    } else if g + 1 < |es| {
      ItemSize(nodes, es, g + 1, inner, cap);
      ExpandIndex(nodes, es, g + 1, 0);
    } else {
      OffsetEnds(nodes, es);
    }
  }

  lemma {:induction false} AlreadyHealed(nodes: Nodes, root: Node, lv: seq<Level>, g: nat, inner: bool, cap: nat)
    requires PrefixOk(nodes, root, lv, cap) && g < |lv[|lv| - 1]|
    requires KindOk(nodes, lv[|lv| - 1], inner, cap) && HalfExcept(nodes, lv[|lv| - 1], g, cap)
    requires g + 1 == |lv[|lv| - 1]| || HalfFull(nodes[lv[|lv| - 1][g].node], cap)
    requires !inner ==> SepsOk(nodes, lv[|lv| - 1])
    ensures Healed(nodes, nodes, root, lv, lv, inner, cap)
  {
    hide ExpandAll, Distinct, WellShaped, HalfFull, SepsOk;
    SameNodesSelf(nodes, root, lv, cap);
    SameIsSub(lv, lv);
  }

  lemma {:induction false} ReachedItem(nodes: Nodes, root: Node, lv: seq<Level>, cap: nat, node: seq<Node>,
      entry: seq<nat>, pos: seq<nat>, level: nat)
    requires Reached(nodes, root, lv, cap, node, entry, pos, level)
    ensures level < MAX_PATH == |node| == |entry| && node[level] < |nodes| && |pos| == |lv| == level + 1 &&
      pos[level] < |lv[level]| && lv[level][pos[level]] == Edge(node[level], lv[level][pos[level]].upper)
    ensures PrefixOk(nodes, root, lv, cap) && UpperOk(nodes, root, lv, cap) && OnPath(nodes, lv, node, entry, pos)
  {
    hide ExpandAll, UpperOk, HalfOk, Distinct, Offset;
  }

  lemma {:induction false} LeadsAt(nodes: Nodes, lv: seq<Level>, node: seq<Node>, entry: seq<nat>, pos: seq<nat>,
      inner: bool, cap: nat)
    requires OnPath(nodes, lv, node, entry, pos) && KindOk(nodes, lv[|lv| - 1], inner, cap)
    requires entry[|lv| - 1] == 0 || entry[|lv| - 1] < Entries(nodes[lv[|lv| - 1][pos[|lv| - 1]].node])
    ensures Leads(nodes, lv, node, entry, pos, Offset(nodes, lv[|lv| - 1], pos[|lv| - 1]) + entry[|lv| - 1])
  {
    hide ExpandAll, Offset;
  }

  /** Nodes of the last level are not nodes of the levels above. */
  lemma {:induction false} NotAbove(nodes: Nodes, root: Node, lv: seq<Level>, cap: nat, j: nat)
    requires PrefixOk(nodes, root, lv, cap) && j < |lv[|lv| - 1]|
    ensures lv[|lv| - 1][j].Edge? && lv[|lv| - 1][j].node < |nodes| && !HasNode(lv[..|lv| - 1], lv[|lv| - 1][j].node)
  {
    hide ExpandAll, KindOk, HalfOk;
    var up: seq<Level> := lv[..|lv| - 1];
    var n := lv[|lv| - 1][j].node;
    forall l, i | 0 <= l < |up| && 0 <= i < |up[l]| && up[l][i].Edge? ensures up[l][i].node != n {
      assert up[l][i] == lv[l][i];
    }
  }

  lemma {:induction false} SepsFrame(nodes: Nodes, nodes': Nodes, es: Level)
    requires SepsOk(nodes, es) && |nodes| == |nodes'|
    requires forall j :: 0 <= j < |es| && es[j].Edge? ==>
      es[j].node < |nodes| && nodes'[es[j].node] == nodes[es[j].node]
    ensures SepsOk(nodes', es)
  {
    forall j | 0 <= j < |es| - 1 ensures SepAt(nodes', es, j) {
      assert SepAt(nodes, es, j);
    }
  }

  lemma {:induction false} HalfIsHealed(nodes: Nodes, root: Node, lv: seq<Level>, cap: nat, node: seq<Node>,
      entry: seq<nat>, pos: seq<nat>, level: nat, inner: bool)
    requires Reached(nodes, root, lv, cap, node, entry, pos, level) && node[level] < |nodes| &&
      HalfFull(nodes[node[level]], cap)
    requires KindOk(nodes, lv[level], inner, cap) && HalfExcept(nodes, lv[level], pos[level], cap) &&
      (!inner ==> SepsOk(nodes, lv[level]))
    ensures Healed(nodes, nodes, root, lv, lv, inner, cap)
  {
    hide PrefixOk, OnPath, KindOk, ExpandAll, HalfFull, HalfExcept, SepsOk, Healed;
    ReachedItem(nodes, root, lv, cap, node, entry, pos, level);
    AlreadyHealed(nodes, root, lv, pos[level], inner, cap);
  }

  /** Changing a node of the last level leaves the levels above, and the path, alone. */
  lemma {:induction false} SetLast(nodes: Nodes, root: Node, lv: seq<Level>, cap: nat, node: seq<Node>, entry: seq<nat>,
      pos: seq<nat>, j: nat, data: NodeData)
    requires PrefixOk(nodes, root, lv, cap) && OnPath(nodes, lv, node, entry, pos) && j < |lv[|lv| - 1]|
    ensures lv[|lv| - 1][j].Edge? && lv[|lv| - 1][j].node < |nodes|
    ensures
      var nodes' := nodes[lv[|lv| - 1][j].node := data];
      PrefixOk(nodes', root, lv, cap) && UpperOk(nodes', root, lv, cap) && OnPath(nodes', lv, node, entry, pos)
  {
    hide OnPath, KindOk, Distinct, HalfOk, HasNode;
    NotAbove(nodes, root, lv, cap, j);
    var nodes' := nodes[lv[|lv| - 1][j].node := data];
    PrefixFrame(nodes, nodes', root, lv, cap);
    OnPathFrame(nodes, nodes', root, lv, cap, node, entry, pos);
  }

  lemma {:induction false} UnbalancedAt(nodes: Nodes, root: Node, lv: seq<Level>, cap: nat, node: seq<Node>,
      entry: seq<nat>, pos: seq<nat>, level: nat, inner: bool)
    requires Reached(nodes, root, lv, cap, node, entry, pos, level)
    requires node[level] < |nodes| && !HalfFull(nodes[node[level]], cap)
    requires KindOk(nodes, lv[level], inner, cap) && HalfExcept(nodes, lv[level], pos[level], cap)
    requires pos[level] + 1 < |lv[level]| && lv[level][pos[level]].upper.Some?
    ensures Unbalanced(nodes, lv[level], pos[level], inner, cap)
  {
    hide OnPath, UpperOk, KindOk, HalfOk, HalfExcept, HalfFull;
    ReachedItem(nodes, root, lv, cap, node, entry, pos, level);
    LevelApart(lv, level);
  }

  /** The balanced nodes are nodes in use. */
  lemma {:induction false} BalanceLive(nodes: Nodes, es: Level, g: nat, inner: bool, cap: nat)
    requires Unbalanced(nodes, es, g, inner, cap)
    ensures
      && es[g].node < |nodes| && es[g + 1].node < |nodes|
      && var l, r := nodes[es[g].node], nodes[es[g + 1].node];
      && WellShaped(l, cap) && WellShaped(r, cap) && l.Inner? == r.Inner? && Entries(l) > 0 && Entries(r) > 0 &&
        !HalfFull(l, cap)
      && var b := Balance(l, es[g].upper.value, r, cap);
      && b == BalancedAt(nodes, es, g, inner, cap)
      && !l.Free? && !r.Free? && !b.lhs.Free? && !b.rhs.Free? && es[g].node != es[g + 1].node
  {
    hide Expand;
  }

  /** The levels above have changed at most some bounds. */
  ghost predicate Rekeyed(nodes: Nodes, nodes': Nodes, root: Node, lv: seq<Level>, lv': seq<Level>, cap: nat) {
    && PrefixOk(nodes, root, lv, cap) && PrefixOk(nodes', root, lv', cap)
    && OnlyWithin(nodes, nodes', lv[..|lv| - 1]) && SameNodes(lv, lv')
  }

  lemma {:induction false} NothingRekeyed(nodes: Nodes, root: Node, lv: seq<Level>, cap: nat)
    requires PrefixOk(nodes, root, lv, cap)
    ensures Rekeyed(nodes, nodes, root, lv, lv, cap)
  {
    hide OnPath, KindOk, Distinct, HalfOk, HasNode, ExpandAll, SameNodes;
    SameNodesSelf(nodes, root, lv, cap);
  }

  lemma {:induction false} ReachedAgain(nodes: Nodes, nodes': Nodes, root: Node, lv: seq<Level>, lv': seq<Level>,
      cap: nat, node: seq<Node>, entry: seq<nat>, pos: seq<nat>, level: nat)
    requires Reached(nodes, root, lv, cap, node, entry, pos, level) && SameNodes(lv, lv')
    requires PrefixOk(nodes', root, lv', cap) && OnPath(nodes', lv', node, entry, pos)
    ensures Reached(nodes', root, lv', cap, node, entry, pos, level)
  {
    hide OnPath, PrefixOk;
    if level > 0 { assert SameItems(lv[1], lv'[1]); }
  }

  lemma {:induction false} DroppableNow(es: Level, es': Level, g: nat)
    requires g < |es| && es[g].Edge?
    requires if g == 0 then es' == es else es[g - 1].Edge? && es' == SetUpper(es, g, es[g - 1].upper)
    ensures Droppable(es', g)
  {
  }

  /** After balancing and rekeying, the nodes of the last level are the balanced ones. */
  lemma {:induction false} BalancedLast(nodes0: Nodes, nodes1: Nodes, nodes2: Nodes, root: Node, lv: seq<Level>,
      lv1: seq<Level>, cap: nat, g: nat, inner: bool)
    requires |lv| > 0 && Unbalanced(nodes0, lv[|lv| - 1], g, inner, cap)
    requires nodes1 == BalancedNodes(nodes0, lv[|lv| - 1], g, BalancedAt(nodes0, lv[|lv| - 1], g, inner, cap))
    requires Rekeyed(nodes1, nodes2, root, lv, lv1, cap)
    ensures |nodes2| == |nodes1| == |nodes0|
    ensures Untouched(nodes1, nodes2, lv[|lv| - 1])
    ensures OnlyWithin(nodes0, nodes2, lv)
  {
    hide KindOk, PrefixOk, ExpandAll, Balance, BalanceSpec, HalfExcept, Apart;
    var es := lv[|lv| - 1];
    forall j | 0 <= j < |es| ensures es[j].Edge? && es[j].node < |nodes1| && nodes2[es[j].node] == nodes1[es[j].node] {
      NotAbove(nodes1, root, lv, cap, j);
    }
    forall n | 0 <= n < |nodes0| && !HasNode(lv, n) ensures nodes2[n] == nodes0[n] {
      HasNodeAt(lv, |lv| - 1, g);
      HasNodeAt(lv, |lv| - 1, g + 1);
      HasNodeUp(lv, n);
    }
  }

  lemma HasNodeAt(lv: seq<Level>, l: nat, j: nat)
    requires l < |lv| && j < |lv[l]| && lv[l][j].Edge?
    ensures HasNode(lv, lv[l][j].node)
  {
  }

  lemma {:induction false} HasNodeUp(lv: seq<Level>, n: Node)
    requires |lv| > 0 && !HasNode(lv, n)
    ensures !HasNode(lv[..|lv| - 1], n)
  {
    var up: seq<Level> := lv[..|lv| - 1];
    forall l, i | 0 <= l < |up| && 0 <= i < |up[l]| && up[l][i].Edge? ensures up[l][i].node != n {
      assert up[l][i] == lv[l][i];
    }
  }

  lemma {:induction false} LiveNow(nodes0: Nodes, nodes1: Nodes, nodes2: Nodes, root: Node, lv: seq<Level>, cap: nat,
      g: nat, inner: bool)
    requires |lv| > 0 && Unbalanced(nodes0, lv[|lv| - 1], g, inner, cap)
    requires nodes1 == BalancedNodes(nodes0, lv[|lv| - 1], g, BalancedAt(nodes0, lv[|lv| - 1], g, inner, cap))
    requires PrefixOk(nodes1, root, lv, cap) && OnlyWithin(nodes1, nodes2, lv[..|lv| - 1])
    ensures lv[|lv| - 1][g].node < |nodes2| && !nodes2[lv[|lv| - 1][g].node].Free?
  {
    hide PrefixOk, ExpandAll, Balance, BalanceSpec, HalfExcept;
    NotAbove(nodes1, root, lv, cap, g);
    BalanceLive(nodes0, lv[|lv| - 1], g, inner, cap);
    BalancedOutside(nodes0, lv[|lv| - 1], g, BalancedAt(nodes0, lv[|lv| - 1], g, inner, cap));
  }

  lemma {:induction false} RedistributeSeps(nodes: Nodes, es: Level, g: nat, cap: nat)
    requires Unbalanced(nodes, es, g, false, cap) && SepsOk(nodes, es) &&
      BalancedAt(nodes, es, g, false, cap).newCrit.Some?
    ensures
      var r := BalancedAt(nodes, es, g, false, cap);
      SepsOk(BalancedNodes(nodes, es, g, r), SetUpper(es, g, r.newCrit))
  {
    hide ExpandAll, Expand, HalfFull, HalfExcept, Apart;
    var r := BalancedAt(nodes, es, g, false, cap);
    var nodes', es' := BalancedNodes(nodes, es, g, r), SetUpper(es, g, r.newCrit);
    BalancedOutside(nodes, es, g, r);
    BalanceLive(nodes, es, g, false, cap);
    forall j | 0 <= j < |es'| - 1 ensures SepAt(nodes', es', j) {
      assert SepAt(nodes, es, j);
    }
  }

  lemma {:induction false} MergeSeps(nodes: Nodes, es: Level, g: nat, cap: nat)
    requires Unbalanced(nodes, es, g, false, cap) && SepsOk(nodes, es) &&
      BalancedAt(nodes, es, g, false, cap).newCrit.None?
    ensures SepsOk(BalancedNodes(nodes, es, g, BalancedAt(nodes, es, g, false, cap)), RemoveAt(es, g))
  {
    hide ExpandAll, Expand, HalfFull, HalfExcept, Apart;
    var r := BalancedAt(nodes, es, g, false, cap);
    var nodes', es' := BalancedNodes(nodes, es, g, r), RemoveAt(es, g);
    BalancedOutside(nodes, es, g, r);
    BalanceLive(nodes, es, g, false, cap);
    forall j | 0 <= j < |es'| - 1 ensures SepAt(nodes', es', j) {
      if j < g {
        assert SepAt(nodes, es, j);
      } else {
        assert SepAt(nodes, es, j + 1);
      }
    }
  }

  lemma {:induction false} RedistributeHealed(nodes0: Nodes, nodes1: Nodes, nodes2: Nodes, root: Node, lv: seq<Level>,
      lv1: seq<Level>, g: nat, inner: bool, cap: nat)
    requires Siblings(nodes0, nodes1, nodes2, root, lv, lv1, g, false, inner, cap) &&
      (!inner ==> SepsOk(nodes0, lv[|lv| - 1]))
    ensures Healed(nodes0, nodes2, root, lv, lv1, inner, cap)
    ensures Offset(nodes2, lv1[|lv| - 1], g) == Offset(nodes0, lv[|lv| - 1], g)
    ensures SameNodes(lv, lv1) && Entries(nodes2[lv[|lv| - 1][g].node]) > Entries(nodes0[lv[|lv| - 1][g].node])
  {
    hide PrefixOk, ExpandAll, Balance, HalfExcept, HalfFull, WellShaped, Expand, Offset, Entries, SepsOk, HasNode,
      HalfOk;
    var es, es' := lv[|lv| - 1], lv1[|lv| - 1];
    var r := BalancedAt(nodes0, es, g, inner, cap);
    Redistribute(nodes0, es, g, inner, cap);
    BalancedLast(nodes0, nodes1, nodes2, root, lv, lv1, cap, g, inner);
    BalancedOutside(nodes0, es, g, r);
    if !inner { RedistributeSeps(nodes0, es, g, cap); }
    SameIsSub(lv, lv1);
    LevelFrame(nodes1, nodes2, es', inner, cap);
  }

  ghost predicate Untouched(nodes: Nodes, nodes': Nodes, es: Level) {
    |nodes'| == |nodes| && forall j :: 0 <= j < |es| ==>
      es[j].Edge? && es[j].node < |nodes| && nodes'[es[j].node] == nodes[es[j].node]
  }

  /** A level whose nodes are unchanged keeps all its properties. */
  lemma {:induction false} LevelFrame(nodes: Nodes, nodes': Nodes, es: Level, inner: bool, cap: nat)
    requires Untouched(nodes, nodes', es)
    ensures ExpandAll(nodes', es) == ExpandAll(nodes, es)
    ensures KindOk(nodes, es, inner, cap) ==> KindOk(nodes', es, inner, cap)
    ensures HalfOk(nodes, es, cap) ==> HalfOk(nodes', es, cap)
    ensures SepsOk(nodes, es) ==> SepsOk(nodes', es)
    ensures forall j :: 0 <= j <= |es| ==> Offset(nodes', es, j) == Offset(nodes, es, j)
  {
    hide ExpandAll, WellShaped, HalfFull, Entries, SepsOk;
    ExpandFrame(nodes, nodes', es);
    if SepsOk(nodes, es) { SepsFrame(nodes, nodes', es); }
    forall j | 0 <= j <= |es| ensures Offset(nodes', es, j) == Offset(nodes, es, j) {
      ExpandFrame(nodes, nodes', es[..j]);
    }
  }

  lemma {:induction false} RedistributeLeads(nodes0: Nodes, nodes2: Nodes, root: Node, lv: seq<Level>, lv1: seq<Level>,
      node: seq<Node>, entry: seq<nat>, pos: seq<nat>, size: nat, inner: bool, cap: nat)
    requires |lv| > 0 && Healed(nodes0, nodes2, root, lv, lv1, inner, cap) && OnPath(nodes2, lv1, node, entry, pos)
    requires
      var top, g := |lv| - 1, pos[|lv| - 1];
      && SameNodes(lv, lv1) && g < |lv[top]|
      && Offset(nodes2, lv1[top], g) == Offset(nodes0, lv[top], g)
      && lv[top][g].node < |nodes0| && entry[top] <= Entries(nodes0[lv[top][g].node]) < Entries(nodes2[lv[top][g].node])
    ensures
      var top, g := |lv| - 1, pos[|lv| - 1];
      LeadsOrOff(nodes2, lv1, node, entry, pos, size, size, Offset(nodes0, lv[top], g) + entry[top],
        |ExpandAll(nodes0, lv[top])|)
  {
    hide PrefixOk, ExpandAll, KindOk, Offset, Entries, SepsOk, HalfOk, OnlyWithin, SubLevels;
    var top, g := |lv| - 1, pos[|lv| - 1];
    assert SameItems(lv[top], lv1[top]);
    LeadsAt(nodes2, lv1, node, entry, pos, inner, cap);
    TargetAt(nodes2, lv1[top], g, entry[top], inner, cap);
  }

  lemma {:induction false} EmptiedReached(nodes0: Nodes, nodes1: Nodes, nodes2: Nodes, root: Node, lv: seq<Level>,
      lv1: seq<Level>, cap: nat, node: seq<Node>, entry: seq<nat>, pos: seq<nat>, level: nat, inner: bool)
    requires Reached(nodes0, root, lv, cap, node, entry, pos, level) && OnPath(nodes2, lv1, node, entry, pos)
    requires Siblings(nodes0, nodes1, nodes2, root, lv, lv1, pos[level], true, inner, cap)
    ensures Reached(nodes2, root, lv1, cap, node, entry, pos, level) && Droppable(lv1[level], pos[level])
    ensures node[level] < |nodes2| && !nodes2[node[level]].Free?
  {
    hide PrefixOk, OnPath, ExpandAll, HalfExcept, SameNodes, OnlyWithin, BalanceSpec, Balance, WellShaped, Entries,
      Apart;
    ReachedItem(nodes0, root, lv, cap, node, entry, pos, level);
    ReachedAgain(nodes0, nodes2, root, lv, lv1, cap, node, entry, pos, level);
    DroppableNow(lv[level], lv1[level], pos[level]);
    LiveNow(nodes0, nodes1, nodes2, root, lv, cap, pos[level], inner);
  }

  lemma {:induction false} MergeHealed(nodes0: Nodes, nodes1: Nodes, nodes2: Nodes, nodes3: Nodes, root: Node,
      lv: seq<Level>, lv1: seq<Level>, lv2: seq<Level>, g: nat, inner: bool, cap: nat)
    requires Siblings(nodes0, nodes1, nodes2, root, lv, lv1, g, true, inner, cap) &&
      (!inner ==> SepsOk(nodes0, lv[|lv| - 1]))
    requires Emptied(nodes2, nodes3, root, lv1, lv2, g, cap) && OnlyAbove(nodes2, nodes3, lv1, lv[|lv| - 1][g].node)
    ensures Healed(nodes0, nodes3, root, lv, lv2, inner, cap)
    ensures lv2[|lv| - 1] == RemoveAt(lv[|lv| - 1], g)
    ensures Offset(nodes3, lv2[|lv| - 1], g) == Offset(nodes0, lv[|lv| - 1], g)
    ensures lv[|lv| - 1][g + 1].Edge? && lv[|lv| - 1][g + 1].node < |nodes3| &&
      Entries(nodes3[lv[|lv| - 1][g + 1].node]) > Entries(nodes0[lv[|lv| - 1][g].node])
  {
    hide PrefixOk, ExpandAll, Balance, HalfExcept, HalfFull, WellShaped, Expand, Offset, Entries, SepsOk, HasNode,
      HalfOk, Apart, SubLevels, SameNodes;
    var es, es' := lv[|lv| - 1], RemoveAt(lv[|lv| - 1], g);
    var r := BalancedAt(nodes0, es, g, inner, cap);
    Merge(nodes0, es, g, inner, cap);
    BalancedLast(nodes0, nodes1, nodes2, root, lv, lv1, cap, g, inner);
    BalancedOutside(nodes0, es, g, r);
    if !inner { MergeSeps(nodes0, es, g, cap); }
    SameIsSub(lv, lv1);
    SubTrans(lv, lv1, lv2);
    DropRekeyed(es, lv1[|lv| - 1], g);
    MergedLast(nodes1, nodes2, nodes3, root, lv, lv1, cap, g);
    LevelFrame(nodes1, nodes3, es', inner, cap);
    assert es'[g] == es[g + 1];
    EmptiedWithin(nodes0, nodes2, nodes3, lv, lv1, g);
  }

  lemma {:induction false} DropRekeyed(es: Level, es1: Level, g: nat)
    requires g < |es| && (forall j :: 0 <= j < |es| ==> es[j].Edge?)
    requires es1 == (if g == 0 then es else SetUpper(es, g, es[g - 1].upper))
    ensures DropItem(es1, g) == RemoveAt(es, g)
  {
    var a, b := DropItem(es1, g), RemoveAt(es, g);
    forall i | 0 <= i < |a| ensures a[i] == b[i] {}
  }

  /** Removing the merged node does not touch the others of its level. */
  lemma {:induction false} MergedLast(nodes1: Nodes, nodes2: Nodes, nodes3: Nodes, root: Node, lv: seq<Level>,
      lv1: seq<Level>, cap: nat, g: nat)
    requires |lv| > 0 && g < |lv[|lv| - 1]| && Rekeyed(nodes1, nodes2, root, lv, lv1, cap) &&
      OnlyAbove(nodes2, nodes3, lv1, lv[|lv| - 1][g].node)
    requires Untouched(nodes1, nodes2, lv[|lv| - 1])
    ensures Untouched(nodes1, nodes3, RemoveAt(lv[|lv| - 1], g))
  {
    hide UpperOk, HalfOk, HasNode, Distinct;
    var es, es' := lv[|lv| - 1], RemoveAt(lv[|lv| - 1], g);
    assert SameItems(es, lv1[|lv| - 1]);
    forall j | 0 <= j < |es'| ensures es'[j].Edge? && es'[j].node < |nodes1| &&
      nodes3[es'[j].node] == nodes1[es'[j].node] {
      var i := if j < g then j else j + 1;
      assert es'[j] == es[i];
      NotAbove(nodes2, root, lv1, cap, i);
      NowhereElse(lv, |lv| - 1, g, |lv| - 1, i);
    }
  }

  lemma {:induction false} EmptiedWithin(nodes0: Nodes, nodes2: Nodes, nodes3: Nodes, lv: seq<Level>, lv1: seq<Level>,
      g: nat)
    requires |lv| > 0 && OnlyWithin(nodes0, nodes2, lv) && SameNodes(lv, lv1)
    requires g < |lv[|lv| - 1]| && lv[|lv| - 1][g].Edge? && OnlyAbove(nodes2, nodes3, lv1, lv[|lv| - 1][g].node)
    ensures OnlyWithin(nodes0, nodes3, lv)
  {
    hide HasNode, SameNodes;
    forall n | 0 <= n < |nodes0| && !HasNode(lv, n) ensures nodes3[n] == nodes0[n] {
      HasNodeAt(lv, |lv| - 1, g);
      SameHas(lv, lv1, n);
      HasNodeUp(lv1, n);
    }
  }

  lemma {:induction false} SameHas(lv: seq<Level>, lv1: seq<Level>, n: Node)
    requires SameNodes(lv, lv1) && !HasNode(lv, n)
    ensures !HasNode(lv1, n)
  {
    forall l, i | 0 <= l < |lv1| && 0 <= i < |lv1[l]| && lv1[l][i].Edge? ensures lv1[l][i].node != n {
      assert SameItems(lv[l], lv1[l]);
      assert lv[l][i].Edge?;
    }
  }

  lemma {:induction false} FreedNothing(nodes: Nodes, lv: seq<Level>, lv1: seq<Level>)
    requires SameNodes(lv, lv1)
    ensures Freed(nodes, lv, lv1)
  {
    hide HasNode, SameNodes;
    forall n: Node | HasNode(lv, n) ensures HasNode(lv1, n) {
      SameBack(lv, lv1, n);
    }
  }

  lemma {:induction false} FreedAfter(nodes: Nodes, lv: seq<Level>, lv1: seq<Level>, lv2: seq<Level>)
    requires SameNodes(lv, lv1) && Freed(nodes, lv1, lv2)
    ensures Freed(nodes, lv, lv2)
  {
    hide HasNode, SameNodes;
    forall n: Node | HasNode(lv, n) && !HasNode(lv2, n) ensures n < |nodes| && nodes[n].Free? {
      SameBack(lv, lv1, n);
    }
  }

  lemma {:induction false} SameBack(lv: seq<Level>, lv1: seq<Level>, n: Node)
    requires SameNodes(lv, lv1) && HasNode(lv, n)
    ensures HasNode(lv1, n)
  {
    var l, i :| 0 <= l < |lv| && 0 <= i < |lv[l]| && lv[l][i].Edge? && lv[l][i].node == n;
    assert SameItems(lv[l], lv1[l]);
    HasNodeAt(lv1, l, i);
  }

  lemma {:induction false} MergeLeads(nodes0: Nodes, nodes3: Nodes, root: Node, lv: seq<Level>, lv2: seq<Level>,
      node: seq<Node>, entry: seq<nat>, pos: seq<nat>, size: nat, size0: nat, g: nat, e: nat, inner: bool, cap: nat)
    requires |lv| > 0 && Healed(nodes0, nodes3, root, lv, lv2, inner, cap) && g + 1 < |lv[|lv| - 1]|
    requires lv2[|lv| - 1] == RemoveAt(lv[|lv| - 1], g) && AtOrOff(nodes3, lv2, node, entry, pos, size, size0, g, e)
    requires Offset(nodes3, lv2[|lv| - 1], g) == Offset(nodes0, lv[|lv| - 1], g)
    requires
      var es := lv[|lv| - 1];
      && es[g].Edge? && es[g + 1].Edge? && es[g].node < |nodes0| && es[g + 1].node < |nodes3|
      && e <= Entries(nodes0[es[g].node]) < Entries(nodes3[es[g + 1].node])
    ensures
      var es := lv[|lv| - 1];
      LeadsOrOff(nodes3, lv2, node, entry, pos, size, size0, Offset(nodes0, es, g) + e, |ExpandAll(nodes0, es)|)
  {
    hide PrefixOk, ExpandAll, KindOk, Offset, Entries, SepsOk, HalfOk, OnlyWithin, SubLevels;
    var es' := lv2[|lv| - 1];
    assert es'[g] == lv[|lv| - 1][g + 1];
    LeadsAt(nodes3, lv2, node, entry, pos, inner, cap);
    TargetAt(nodes3, es', g, e, inner, cap);
  }

  /** The node is still at least half full: only the path may have to move on to the next node. */
  method PassOver(path: Path, pool: Pool, status: Removed, level: nat, ghost root: Node, ghost lv: seq<Level>,
      ghost pos: seq<nat>, ghost inner: bool, ghost cap: nat)
    returns (ghost pos': seq<nat>)
    requires path.Valid() && Reached(pool.nodes, root, lv, cap, path.node, path.entry, pos, level)
    requires (status.Healthy? || status.Rightmost?) &&
      StatusOk(pool.nodes, path.node[level], path.entry[level], status, cap)
    requires KindOk(pool.nodes, lv[level], inner, cap)
    modifies path
    ensures path.Valid() && path.node[0] == old(path.node[0])
    ensures forall l :: level < l < MAX_PATH ==>
      path.node[l] == old(path.node[l]) && path.entry[l] == old(path.entry[l])
    ensures
      LeadsOrOff(pool.nodes, lv, path.node, path.entry, pos', path.size, old(path.size),
                 Offset(pool.nodes, lv[level], pos[level]) + old(path.entry[level]), |ExpandAll(pool.nodes, lv[level])|)
  {
    hide PoolOk, NextFree, PrefixOk, OnPath, KindOk, ExpandAll, Offset, HalfFull, Entries, Leads;
    pos' := pos;
    ReachedItem(pool.nodes, root, lv, cap, path.node, path.entry, pos, level);
    TargetAt(pool.nodes, lv[level], pos[level], path.entry[level], inner, cap);
    if status.Rightmost? {
      var next;
      next, pos' := path.NextNode(level, pool, root, lv, pos, cap);
      if next.Some? { LeadsAt(pool.nodes, lv, path.node, path.entry, pos', inner, cap); }
    } else {
      LeadsAt(pool.nodes, lv, path.node, path.entry, pos, inner, cap);
    }
  }

  /** Repairs the node on the path at `level`, which has just lost an entry. */
  method HealLevel(path: Path, pool: Pool, status: Removed, level: nat, ghost root: Node, ghost lv: seq<Level>,
      ghost pos: seq<nat>, ghost inner: bool, cap: nat)
    returns (treeEmpty: bool, ghost lv': seq<Level>, ghost pos': seq<nat>)
    requires path.Valid() && pool.Valid() && Reached(pool.nodes, root, lv, cap, path.node, path.entry, pos, level)
    requires StatusOk(pool.nodes, path.node[level], path.entry[level], status, cap) &&
      !pool.nodes[path.node[level]].Free?
    requires KindExcept(pool.nodes, lv[level], pos[level], inner, cap) &&
      HalfExcept(pool.nodes, lv[level], pos[level], cap)
    requires !status.Empty? ==> KindOk(pool.nodes, lv[level], inner, cap) && (!inner ==> SepsOk(pool.nodes, lv[level]))
    requires status.Empty? ==> Droppable(lv[level], pos[level])
    modifies path, pool
    ensures path.Valid() && pool.Valid() && path.node[0] == old(path.node[0])
    ensures forall l :: level < l < MAX_PATH ==>
      path.node[l] == old(path.node[l]) && path.entry[l] == old(path.entry[l])
    ensures treeEmpty <==> status.Empty? && level == 0
    ensures Freed(pool.nodes, lv, if treeEmpty then [] else lv')
    ensures !status.Empty? ==> Healed(old(pool.nodes), pool.nodes, root, lv, lv', inner, cap)
    ensures !status.Empty? ==>
      LeadsOrOff(pool.nodes, lv', path.node, path.entry, pos', path.size, old(path.size),
                 Offset(old(pool.nodes), lv[level], pos[level]) + old(path.entry[level]),
                   |ExpandAll(old(pool.nodes), lv[level])|)
    ensures status.Empty? ==> OnlyAbove(old(pool.nodes), pool.nodes, lv, old(path.node[level]))
    ensures status.Empty? && !treeEmpty ==> Emptied(old(pool.nodes), pool.nodes, root, lv, lv', pos[level], cap)
    ensures status.Empty? && !treeEmpty ==>
      AtOrOff(pool.nodes, lv', path.node, path.entry, pos', path.size, old(path.size), pos[level],
        old(path.entry[level]))
    decreases level, 2
  {
    hide PoolOk, NextFree, PrefixOk, OnPath, KindOk, ExpandAll, Offset, SepsOk, HalfFull, Entries, Healed, Emptied,
      KindExcept, LeadsOrOff, AtOrOff, OnlyAbove, Droppable, HalfExcept, Reached, HasNode;
    treeEmpty, lv', pos' := false, lv, pos;
    match status {
      case Underflow =>
        lv', pos' := UnderflowedNode(path, pool, level, root, lv, pos, inner, cap);
      case Empty =>
        treeEmpty, lv', pos' := EmptyNode(path, pool, level, root, lv, pos, cap);
      case _ =>
        HalfIsHealed(pool.nodes, root, lv, cap, path.node, path.entry, pos, level, inner);
        assert Freed(pool.nodes, lv, lv);
        pos' := PassOver(path, pool, status, level, root, lv, pos, inner, cap);
    }
  }

  /** After balancing: the two neighbours hold `nodes1`, and then only the bound between them changes. */
  ghost predicate Siblings(nodes0: Nodes, nodes1: Nodes, nodes2: Nodes, root: Node, lv: seq<Level>, lv1: seq<Level>,
      g: nat, empty: bool, inner: bool, cap: nat) {
    && |lv| > 0 && Unbalanced(nodes0, lv[|lv| - 1], g, inner, cap)
    && var es, r := lv[|lv| - 1], BalancedAt(nodes0, lv[|lv| - 1], g, inner, cap);
    && nodes1 == BalancedNodes(nodes0, es, g, r) && Rekeyed(nodes1, nodes2, root, lv, lv1, cap)
    && empty == r.newCrit.None?
    && lv1[|lv| - 1] ==
      (if !empty then SetUpper(es, g, r.newCrit) else if g == 0 then es else SetUpper(es, g, es[g - 1].upper))
  }

  /** The rightmost node of a level may stay underfull. */
  lemma {:induction false} UnderflowedLast(nodes: Nodes, root: Node, lv: seq<Level>, cap: nat, node: seq<Node>,
      entry: seq<nat>, pos: seq<nat>, level: nat, size: nat, inner: bool)
    requires Reached(nodes, root, lv, cap, node, entry, pos, level) &&
      StatusOk(nodes, node[level], entry[level], Underflow, cap)
    requires KindOk(nodes, lv[level], inner, cap) && HalfExcept(nodes, lv[level], pos[level], cap) &&
      (!inner ==> SepsOk(nodes, lv[level]))
    requires pos[level] + 1 == |lv[level]|
    ensures Healed(nodes, nodes, root, lv, lv, inner, cap)
    ensures
      LeadsOrOff(nodes, lv, node, entry, pos, if entry[level] >= Entries(nodes[node[level]]) then 0 else size, size,
                 Offset(nodes, lv[level], pos[level]) + entry[level], |ExpandAll(nodes, lv[level])|)
  {
    hide PrefixOk, OnPath, KindOk, ExpandAll, Offset, SepsOk, HalfFull, Entries, Healed, HalfExcept, Leads;
    ReachedItem(nodes, root, lv, cap, node, entry, pos, level);
    TargetAt(nodes, lv[level], pos[level], entry[level], inner, cap);
    AlreadyHealed(nodes, root, lv, pos[level], inner, cap);
    if entry[level] < Entries(nodes[node[level]]) {
      LeadsAt(nodes, lv, node, entry, pos, inner, cap);
    }
  }

  /** Balances an underflowed node with its right sibling, wherever in the tree that hangs. */
  method UnderflowedNode(path: Path, pool: Pool, level: nat, ghost root: Node, ghost lv: seq<Level>,
      ghost pos: seq<nat>, ghost inner: bool, cap: nat)
    returns (ghost lv': seq<Level>, ghost pos': seq<nat>)
    requires path.Valid() && pool.Valid() && Reached(pool.nodes, root, lv, cap, path.node, path.entry, pos, level)
    requires StatusOk(pool.nodes, path.node[level], path.entry[level], Underflow, cap)
    requires KindOk(pool.nodes, lv[level], inner, cap) && HalfExcept(pool.nodes, lv[level], pos[level], cap)
    requires !inner ==> SepsOk(pool.nodes, lv[level])
    modifies path, pool
    ensures path.Valid() && pool.Valid() && path.node[0] == old(path.node[0])
    ensures forall l :: level < l < MAX_PATH ==>
      path.node[l] == old(path.node[l]) && path.entry[l] == old(path.entry[l])
    ensures Healed(old(pool.nodes), pool.nodes, root, lv, lv', inner, cap) && Freed(pool.nodes, lv, lv')
    ensures
      LeadsOrOff(pool.nodes, lv', path.node, path.entry, pos', path.size, old(path.size),
                 Offset(old(pool.nodes), lv[level], pos[level]) + old(path.entry[level]),
                   |ExpandAll(old(pool.nodes), lv[level])|)
    decreases level, 1
  {
    hide PoolOk, NextFree, PrefixOk, OnPath, KindOk, ExpandAll, Offset, SepsOk, HalfFull, Healed, HalfExcept,
      LeadsOrOff, Reached, Entries, UpperOk, HasNode;
    lv', pos' := lv, pos;
    ReachedItem(pool.nodes, root, lv, cap, path.node, path.entry, pos, level);
    var sibling := path.RightSibling(level, pool, root, lv, pos, cap);
    if sibling.Some? {
      lv', pos' := BalanceWith(path, pool, level, sibling.value.0, sibling.value.1, root, lv, pos, inner, cap);
    } else {
      UnderflowedLast(pool.nodes, root, lv, cap, path.node, path.entry, pos, level, path.size, inner);
      if path.entry[level] >= Entries(pool.nodes[path.node[level]]) {
        path.size := 0;
      }
    }
  }

  /** Balances the node on the path with its right sibling and updates the critical key between them. */
  method BalanceSiblings(path: Path, pool: Pool, level: nat, critKey: Key, rhs: Node, ghost root: Node,
      ghost lv: seq<Level>, ghost pos: seq<nat>, ghost inner: bool, cap: nat)
    returns (empty: bool, ghost nodes1: Nodes, ghost lv': seq<Level>)
    requires path.Valid() && pool.Valid() && Reached(pool.nodes, root, lv, cap, path.node, path.entry, pos, level)
    requires Unbalanced(pool.nodes, lv[level], pos[level], inner, cap)
    requires lv[level][pos[level]].upper == Some(critKey) && lv[level][pos[level] + 1].node == rhs
    modifies pool`nodes
    ensures pool.Valid() && OnPath(pool.nodes, lv', path.node, path.entry, pos)
    ensures Siblings(old(pool.nodes), nodes1, pool.nodes, root, lv, lv', pos[level], empty, inner, cap)
  {
    hide PoolOk, NextFree, PrefixOk, OnPath, KindOk, ExpandAll, Offset, HalfFull, Entries, HalfExcept, OnlyWithin,
      SameNodes, BalanceSpec, Balance, WellShaped, Distinct, Apart;
    ghost var nodes0 := pool.nodes;
    ReachedItem(nodes0, root, lv, cap, path.node, path.entry, pos, level);
    BalanceLive(nodes0, lv[level], pos[level], inner, cap);
    var r := Balance(pool.nodes[path.node[level]], critKey, pool.nodes[rhs], cap);
    SetLast(pool.nodes, root, lv, cap, path.node, path.entry, pos, pos[level], r.lhs);
    pool.SetNode(path.node[level], r.lhs);
    var newCrit := r.newCrit;
    if r.newCrit.None? {
      newCrit := path.CurrentCritKey(level, pool, root, lv, pos, cap);
    }
    SetLast(pool.nodes, root, lv, cap, path.node, path.entry, pos, pos[level] + 1, r.rhs);
    pool.SetNode(rhs, r.rhs);
    empty, nodes1, lv' := r.newCrit.None?, pool.nodes, lv;
    if newCrit.Some? {
      lv' := path.UpdateRightCritKey(level, newCrit.value, pool, root, lv, pos, cap);
    } else {
      NothingRekeyed(nodes1, root, lv, cap);
    }
  }

  method BalanceWith(path: Path, pool: Pool, level: nat, critKey: Key, rhs: Node, ghost root: Node,
      ghost lv: seq<Level>, ghost pos: seq<nat>, ghost inner: bool, cap: nat)
    returns (ghost lv': seq<Level>, ghost pos': seq<nat>)
    requires path.Valid() && pool.Valid() && Reached(pool.nodes, root, lv, cap, path.node, path.entry, pos, level)
    requires StatusOk(pool.nodes, path.node[level], path.entry[level], Underflow, cap)
    requires KindOk(pool.nodes, lv[level], inner, cap) && HalfExcept(pool.nodes, lv[level], pos[level], cap)
    requires !inner ==> SepsOk(pool.nodes, lv[level])
    requires pos[level] + 1 < |lv[level]| && lv[level][pos[level]].upper == Some(critKey) &&
      lv[level][pos[level] + 1].node == rhs
    modifies path, pool
    ensures path.Valid() && pool.Valid() && path.node[0] == old(path.node[0])
    ensures forall l :: level < l < MAX_PATH ==>
      path.node[l] == old(path.node[l]) && path.entry[l] == old(path.entry[l])
    ensures Healed(old(pool.nodes), pool.nodes, root, lv, lv', inner, cap) && Freed(pool.nodes, lv, lv')
    ensures
      LeadsOrOff(pool.nodes, lv', path.node, path.entry, pos', path.size, old(path.size),
                 Offset(old(pool.nodes), lv[level], pos[level]) + old(path.entry[level]),
                   |ExpandAll(old(pool.nodes), lv[level])|)
    decreases level, 1, 0
  {
    hide PoolOk, NextFree, PrefixOk, OnPath, KindOk, ExpandAll, Offset, SepsOk, HalfFull, Entries, Healed, HalfExcept,
      LeadsOrOff, Emptied, AtOrOff, OnlyAbove, Droppable, OnlyWithin, SameNodes, Unbalanced, Siblings, Reached, Freed;
    ghost var nodes0, entry0 := pool.nodes, path.entry;
    ReachedItem(nodes0, root, lv, cap, path.node, path.entry, pos, level);
    ghost var g := pos[level];
    UnbalancedAt(nodes0, root, lv, cap, path.node, path.entry, pos, level, inner);
    var empty;
    ghost var nodes1, lv1;
    empty, nodes1, lv1 := BalanceSiblings(path, pool, level, critKey, rhs, root, lv, pos, inner, cap);
    ghost var nodes2 := pool.nodes;
    if empty {
      EmptiedReached(nodes0, nodes1, nodes2, root, lv, lv1, cap, path.node, path.entry, pos, level, inner);
      var emptied;
      emptied, lv', pos' := EmptyNode(path, pool, level, root, lv1, pos, cap);
      MergeHealed(nodes0, nodes1, nodes2, pool.nodes, root, lv, lv1, lv', g, inner, cap);
      SiblingsSame(nodes0, nodes1, nodes2, root, lv, lv1, g, empty, inner, cap);
      FreedAfter(pool.nodes, lv, lv1, lv');
      MergeLeads(nodes0, pool.nodes, root, lv, lv', path.node, path.entry, pos', path.size, old(path.size), g,
        entry0[level], inner, cap);
    } else {
      lv', pos' := lv1, pos;
      RedistributeHealed(nodes0, nodes1, nodes2, root, lv, lv1, g, inner, cap);
      FreedNothing(pool.nodes, lv, lv1);
      RedistributeLeads(nodes0, nodes2, root, lv, lv1, path.node, path.entry, pos, path.size, inner, cap);
    }
  }

  lemma SiblingsSame(nodes0: Nodes, nodes1: Nodes, nodes2: Nodes, root: Node, lv: seq<Level>, lv1: seq<Level>, g: nat,
      empty: bool, inner: bool, cap: nat)
    requires Siblings(nodes0, nodes1, nodes2, root, lv, lv1, g, empty, inner, cap)
    ensures SameNodes(lv, lv1)
  {
    hide PrefixOk, Unbalanced, OnlyWithin, SameNodes;
  }

  // ---- removing an empty node ----

  /** Taking the sub-tree on the path out of its parent. */
  lemma {:induction false} ParentReduced(nodes: Nodes, root: Node, lv: seq<Level>, cap: nat, node: seq<Node>,
      entry: seq<nat>, pos: seq<nat>, level: nat)
    requires Reached(nodes, root, lv, cap, node, entry, pos, level) && level > 0 && Droppable(lv[level], pos[level])
    ensures ParentOk(nodes, node, entry, level)
    ensures
      var (parent, status) := InnerRemove(nodes[node[level - 1]], entry[level - 1]);
      && Reduced(nodes, nodes[node[level - 1] := parent], root, lv[..level], pos[..level], cap, node, entry, level - 1,
        lv[level], pos[level], status)
      && StatusOk(nodes[node[level - 1] := parent], node[level - 1], entry[level - 1], status, cap)
  {
    hide OnPath, PrefixOk, KindOk, HalfOk, ExpandAll, Offset, HalfFull, Droppable, KindExcept, HalfExcept, Distinct,
      InnerRemove;
    PrefixUp(nodes, root, lv, cap);
    OnPathUp(nodes, lv, node, entry, pos);
    ParentAt(nodes, root, lv, cap, node, entry, pos, level);
    var up: seq<Level>, upPos := lv[..level], pos[..level];
    var (parent, status) := InnerRemove(nodes[node[level - 1]], entry[level - 1]);
    SetLast(nodes, root, up, cap, node, entry, upPos, pos[level - 1], parent);
    ReduceStatus(nodes, node[level - 1], entry[level - 1], cap);
    assert level - 1 > 0 ==> up[1] == lv[1];
    assert Distinct(up) by { DistinctOf(nodes, root, up, cap); }
    LevelApart(up, level - 1);
    ReducedExcept(nodes, up[level - 1], pos[level - 1], parent, cap);
    if status.Empty? {
      DropRight(nodes, up[level - 1], pos[level - 1], cap);
      if level == 1 { RootAlone(nodes, root, lv, cap, level); }
    } else {
      DropChild(nodes, up[level - 1], pos[level - 1], entry[level - 1], cap);
    }
  }

  lemma DistinctOf(nodes: Nodes, root: Node, lv: seq<Level>, cap: nat)
    requires PrefixOk(nodes, root, lv, cap)
    ensures Distinct(lv)
  {
    hide UpperOk, Distinct, HalfOk;
  }

  ghost predicate ParentOk(nodes: Nodes, node: seq<Node>, entry: seq<nat>, level: nat) {
    && 0 < level < |node| == |entry| && node[level - 1] < |nodes|
    && var nd := nodes[node[level - 1]];
    nd.Inner? && |nd.tree| == |nd.keys| + 1 <= INNER_SIZE && entry[level - 1] < |nd.tree|
  }

  lemma {:induction false} ParentAt(nodes: Nodes, root: Node, lv: seq<Level>, cap: nat, node: seq<Node>,
      entry: seq<nat>, pos: seq<nat>, level: nat)
    requires Reached(nodes, root, lv, cap, node, entry, pos, level) && level > 0
    ensures ParentOk(nodes, node, entry, level) && |pos| == level + 1
    ensures pos[level - 1] < |lv[level - 1]| && lv[level - 1][pos[level - 1]].Edge? &&
      lv[level - 1][pos[level - 1]].node == node[level - 1]
    ensures pos[level] == Offset(nodes, lv[level - 1], pos[level - 1]) + entry[level - 1] < |lv[level]|
  {
    hide KindOk, HalfOk, ExpandAll, Offset, Distinct, Chain;
    EntryInRange(nodes, root, lv, node, entry, pos, cap, level - 1);
  }

  lemma ReduceStatus(nodes: Nodes, n: Node, e: nat, cap: nat)
    requires n < |nodes| && nodes[n].Inner? && |nodes[n].tree| == |nodes[n].keys| + 1 <= INNER_SIZE &&
      e < |nodes[n].tree|
    ensures
      var (parent, status) := InnerRemove(nodes[n], e);
      StatusOk(nodes[n := parent], n, e, status, cap) && parent.Inner? && Entries(parent) == Entries(nodes[n]) - 1
      && (status.Empty? <==> Entries(nodes[n]) == 1)
  {
  }

  lemma {:induction false} ReducedExcept(nodes: Nodes, es: Level, p: nat, parent: NodeData, cap: nat)
    requires KindOk(nodes, es, true, cap) && HalfOk(nodes, es, cap) && Apart(es) && p < |es|
    ensures KindExcept(nodes[es[p].node := parent], es, p, true, cap) &&
      HalfExcept(nodes[es[p].node := parent], es, p, cap)
  {
    hide WellShaped, HalfFull, Entries;
  }

  /** A root with a single sub-tree is not above an inner level of several. */
  lemma {:induction false} RootAlone(nodes: Nodes, root: Node, lv: seq<Level>, cap: nat, level: nat)
    requires PrefixOk(nodes, root, lv, cap) && |lv| > 1
    ensures root < |nodes| && |lv[1]| == Entries(nodes[root])
  {
    hide Distinct, HalfOk, ExpandAll, WellShaped;
    assert lv[1] == ExpandAll(nodes, lv[0]);
    assert KindOk(nodes, lv[0], true, cap) && lv[0] == [Edge(root, None)];
    assert lv[0][0] == Edge(root, None);
    ExpandOne(nodes, Edge(root, None));
  }

  /** The parent level, after the parent has lost the sub-tree that is item `g` of level `es`. */
  ghost predicate Reduced(nodes: Nodes, nodes': Nodes, root: Node, up: seq<Level>, pos: seq<nat>, cap: nat,
      node: seq<Node>, entry: seq<nat>, pl: nat, es: Level, g: nat, status: Removed) {
    && Reached(nodes, root, up, cap, node, entry, pos, pl) && Reached(nodes', root, up, cap, node, entry, pos, pl) &&
      g < |es|
    && |nodes'| == |nodes| && (forall n :: 0 <= n < |nodes| && n != node[pl] ==> nodes'[n] == nodes[n])
    && !nodes'[node[pl]].Free?
    && es == ExpandAll(nodes, up[pl]) && KindOk(nodes, up[pl], true, cap) && HalfOk(nodes, up[pl], cap)
    && KindExcept(nodes', up[pl], pos[pl], true, cap) && HalfExcept(nodes', up[pl], pos[pl], cap)
    && pos[pl] < |up[pl]| && Offset(nodes, up[pl], pos[pl]) + entry[pl] == g && Droppable(es, g)
    && if status.Empty?
       then pl > 0 && entry[pl] == 0 && Entries(nodes[node[pl]]) == 1 && Droppable(up[pl], pos[pl])
       else
         && KindOk(nodes', up[pl], true, cap) && ExpandAll(nodes', up[pl]) == DropItem(es, g)
         && Offset(nodes', up[pl], pos[pl]) + entry[pl] == g
  }

  /** The levels above are in order, and lead down to level `es'`. */
  ghost predicate Upper(nodes: Nodes, root: Node, up: seq<Level>, up': seq<Level>, es': Level, cap: nat) {
    && |up'| == |up| > 0 && PrefixOk(nodes, root, up', cap) && SubLevels(up, up')
    && KindOk(nodes, up'[|up| - 1], true, cap) && HalfOk(nodes, up'[|up| - 1], cap)
    && ExpandAll(nodes, up'[|up| - 1]) == es'
  }

  /** The parent is repaired: the levels above lead down to what is left of level `es`. */
  lemma {:induction false} ParentHealed(nodes: Nodes, nodes2: Nodes, nodes3: Nodes, root: Node, up: seq<Level>,
      up': seq<Level>, pos: seq<nat>, cap: nat, node: seq<Node>, entry: seq<nat>, pl: nat, es: Level, g: nat,
      status: Removed)
    requires Reduced(nodes, nodes2, root, up, pos, cap, node, entry, pl, es, g, status) && !status.Empty?
    requires Healed(nodes2, nodes3, root, up, up', true, cap)
    ensures Upper(nodes3, root, up, up', DropItem(es, g), cap) && |nodes3| == |nodes|
    ensures OnlyAbove(nodes, nodes3, up + [es], |nodes|)
  {
    hide Reached, PrefixOk, KindOk, HalfOk, ExpandAll, Offset, KindExcept, HalfExcept, Droppable, HasNode, SubLevels;
    assert (up + [es])[..|up|] == up;
    OnPathNode(nodes, root, up, cap, node, entry, pos, pl);
  }

  lemma OnPathNode(nodes: Nodes, root: Node, up: seq<Level>, cap: nat, node: seq<Node>, entry: seq<nat>, pos: seq<nat>,
      pl: nat)
    requires Reached(nodes, root, up, cap, node, entry, pos, pl)
    ensures HasNode(up, node[pl]) && |up| == pl + 1 && |pos| == pl + 1
  {
    hide PrefixOk, OnPath;
    ReachedItem(nodes, root, up, cap, node, entry, pos, pl);
    HasNodeAt(up, pl, pos[pl]);
  }

  /** The parent is gone as well: the levels above lead down to what is left of level `es`. */
  lemma {:induction false} ParentGone(nodes: Nodes, nodes2: Nodes, nodes3: Nodes, root: Node, up: seq<Level>,
      up': seq<Level>, pos: seq<nat>, cap: nat, node: seq<Node>, entry: seq<nat>, pl: nat, es: Level, g: nat)
    requires Reduced(nodes, nodes2, root, up, pos, cap, node, entry, pl, es, g, Empty)
    requires Emptied(nodes2, nodes3, root, up, up', pos[pl], cap) && OnlyAbove(nodes2, nodes3, up, node[pl])
    ensures Upper(nodes3, root, up, up', DropItem(es, g), cap) && |nodes3| == |nodes|
    ensures OnlyAbove(nodes, nodes3, up + [es], |nodes|)
  {
    hide Reached, PrefixOk, ExpandAll, Offset, KindExcept, HalfExcept, Droppable, HasNode, SubLevels, WellShaped,
      HalfFull, Entries, DropItem, KindOk, HalfOk;
    assert (up + [es])[..|up|] == up;
    OnPathNode(nodes, root, up, cap, node, entry, pos, pl);
    ReachedItem(nodes, root, up, cap, node, entry, pos, pl);
    ReachedItem(nodes2, root, up, cap, node, entry, pos, pl);
    OthersKept(nodes, nodes2, nodes3, root, up, cap, pos[pl]);
    DropOnlyChild(nodes, nodes3, up[pl], pos[pl], cap);
    DropKind(nodes, nodes3, up[pl], pos[pl], cap);
    forall n | 0 <= n < |nodes| && !HasNode(up, n) ensures nodes3[n] == nodes[n] {
      HasNodeUp(up, n);
    }
  }

  lemma {:induction false} OthersKept(nodes: Nodes, nodes2: Nodes, nodes3: Nodes, root: Node, up: seq<Level>, cap: nat,
      p: nat)
    requires PrefixOk(nodes2, root, up, cap) && p < |up[|up| - 1]| && up[|up| - 1][p].Edge?
    requires |nodes2| == |nodes| &&
      (forall n :: 0 <= n < |nodes| && n != up[|up| - 1][p].node ==> nodes2[n] == nodes[n])
    requires OnlyAbove(nodes2, nodes3, up, up[|up| - 1][p].node)
    ensures UnchangedOutside(nodes, nodes3, up[|up| - 1], p, p + 1)
  {
    hide UpperOk, HalfOk, HasNode, Distinct;
    var es := up[|up| - 1];
    forall j | 0 <= j < |es| && j != p ensures es[j].node < |nodes| && nodes3[es[j].node] == nodes[es[j].node] {
      NotAbove(nodes2, root, up, cap, j);
      NowhereElse(up, |up| - 1, p, |up| - 1, j);
    }
  }

  lemma {:induction false} DropKind(nodes: Nodes, nodes': Nodes, es: Level, p: nat, cap: nat)
    requires KindOk(nodes, es, true, cap) && HalfOk(nodes, es, cap) && p < |es| &&
      UnchangedOutside(nodes, nodes', es, p, p + 1)
    ensures KindOk(nodes', DropItem(es, p), true, cap) && HalfOk(nodes', DropItem(es, p), cap)
  {
    hide WellShaped, HalfFull, Entries, DropItem;
    DropSub(es, p);
    var es' := DropItem(es, p);
    forall j | 0 <= j < |es'|
      ensures es'[j].Edge? && es'[j].node < |nodes'|
      ensures exists i ::
        && 0 <= i < |es| && (j < |es'| - 1 ==> i < |es| - 1)
        && es'[j].node == es[i].node && nodes'[es[i].node] == nodes[es[i].node]
    {
      var i := if j < p then j else j + 1;
      assert es'[j].node == es[i].node;
    }
  }

  /** If the parent went with its only sub-tree, the path goes on with the next parent's first sub-tree. */
  lemma {:induction false} GoneLeads(nodes: Nodes, nodes2: Nodes, nodes3: Nodes, root: Node, up: seq<Level>,
      up': seq<Level>, pos: seq<nat>, cap: nat, node: seq<Node>, entry: seq<nat>, pl: nat, es: Level, g: nat,
      node': seq<Node>, entry': seq<nat>, pos': seq<nat>, size': nat, size: nat)
    requires Reduced(nodes, nodes2, root, up, pos, cap, node, entry, pl, es, g, Empty)
    requires Emptied(nodes2, nodes3, root, up, up', pos[pl], cap) && Upper(nodes3, root, up, up', DropItem(es, g), cap)
    requires OnlyAbove(nodes2, nodes3, up, node[pl]) &&
      AtOrOff(nodes3, up', node', entry', pos', size', size, pos[pl], 0)
    ensures LeadsOrOff(nodes3, up', node', entry', pos', size', size, g, |DropItem(es, g)|)
  {
    hide Reached, PrefixOk, ExpandAll, KindExcept, HalfExcept, Droppable, HasNode, SubLevels, WellShaped, HalfFull,
      Entries, DropItem, KindOk, HalfOk, Offset, Leads, OnPath;
    ReachedItem(nodes, root, up, cap, node, entry, pos, pl);
    ReachedItem(nodes2, root, up, cap, node, entry, pos, pl);
    var us, p := up[pl], pos[pl];
    OthersKept(nodes, nodes2, nodes3, root, up, cap, p);
    OnlyChildOffset(nodes, nodes3, us, p, cap);
    if p < |up'[pl]| {
      LeadsAt(nodes3, up', node', entry', pos', true, cap);
      TargetAt(nodes, us, p, 1, true, cap);
    } else {
      TargetAt(nodes, us, p, 1, true, cap);
    }
  }

  lemma {:induction false} OnlyChildOffset(nodes: Nodes, nodes': Nodes, es: Level, p: nat, cap: nat)
    requires KindOk(nodes, es, true, cap) && p < |es| && UnchangedOutside(nodes, nodes', es, p, p + 1)
    ensures Offset(nodes', DropItem(es, p), p) == Offset(nodes, es, p)
  {
    hide ExpandAll, WellShaped, ExpandItem, DropItem;
    DropSub(es, p);
    var es' := DropItem(es, p);
    forall i | 0 <= i < p ensures |ExpandItem(nodes', es'[i])| == |ExpandItem(nodes, es[i])| {
      assert es'[i].node == es[i].node;
      SizeOf(nodes, nodes', es[i], es'[i]);
    }
    OffsetUpTo(nodes, nodes', es, es', p);
  }

  lemma SizeOf(nodes: Nodes, nodes': Nodes, e: Item, e': Item)
    requires e.Edge? && e'.Edge? && e.node == e'.node < |nodes| <= |nodes'| && nodes'[e.node] == nodes[e.node]
    ensures |ExpandItem(nodes', e')| == |ExpandItem(nodes, e)|
  {
  }

  lemma {:induction false} OffsetUpTo(nodes: Nodes, nodes': Nodes, es: Level, es': Level, j: nat)
    requires j <= |es| && j <= |es'|
    requires forall i :: 0 <= i < j ==> |ExpandItem(nodes', es'[i])| == |ExpandItem(nodes, es[i])|
    ensures Offset(nodes', es', j) == Offset(nodes, es, j)
  {
    hide ExpandItem, ExpandAll;
    OffsetSame(nodes, nodes', es[..j], es'[..j], j);
    assert es[..j][..j] == es[..j] && es'[..j][..j] == es'[..j];
  }

  /** The parent repaired or gone, the levels above lead down to what is left of level `es`, and so does the
      path. */
  lemma {:induction false} ParentDone(nodes: Nodes, nodes2: Nodes, nodes3: Nodes, root: Node, up: seq<Level>,
      up': seq<Level>, pos: seq<nat>, cap: nat, node: seq<Node>, entry: seq<nat>, pl: nat, es: Level, g: nat,
      status: Removed, node': seq<Node>, entry': seq<nat>, pos': seq<nat>, size': nat, size: nat)
    requires Reduced(nodes, nodes2, root, up, pos, cap, node, entry, pl, es, g, status)
    requires status.Empty? ==>
      && Emptied(nodes2, nodes3, root, up, up', pos[pl], cap) && OnlyAbove(nodes2, nodes3, up, node[pl])
      && AtOrOff(nodes3, up', node', entry', pos', size', size, pos[pl], entry[pl])
    requires !status.Empty? ==>
      && Healed(nodes2, nodes3, root, up, up', true, cap)
      && LeadsOrOff(nodes3, up', node', entry', pos', size', size,
                    Offset(nodes2, up[pl], pos[pl]) + entry[pl], |ExpandAll(nodes2, up[pl])|)
    ensures Upper(nodes3, root, up, up', DropItem(es, g), cap) && |nodes3| == |nodes|
    ensures OnlyAbove(nodes, nodes3, up + [es], |nodes|)
    ensures LeadsOrOff(nodes3, up', node', entry', pos', size', size, g, |DropItem(es, g)|)
  {
    hide Reduced, Emptied, OnlyAbove, AtOrOff, Healed, LeadsOrOff, Upper, DropItem, ExpandAll, Offset, Reached, KindOk,
      KindExcept, HalfExcept, Droppable;
    ReducedFacts(nodes, nodes2, root, up, pos, cap, node, entry, pl, es, g, status);
    if status.Empty? {
      ParentGone(nodes, nodes2, nodes3, root, up, up', pos, cap, node, entry, pl, es, g);
      GoneLeads(nodes, nodes2, nodes3, root, up, up', pos, cap, node, entry, pl, es, g, node', entry', pos', size',
        size);
    } else {
      ParentHealed(nodes, nodes2, nodes3, root, up, up', pos, cap, node, entry, pl, es, g, status);
    }
  }

  /** The level without its item `g`, under the repaired levels above. */
  lemma {:induction false} EmptiedNow(nodes: Nodes, nodes3: Nodes, root: Node, lv: seq<Level>, up': seq<Level>,
      cap: nat, level: nat, g: nat)
    requires PrefixOk(nodes, root, lv, cap) && |lv| == level + 1 > 1 && g < |lv[level]|
    requires Upper(nodes3, root, lv[..level], up', DropItem(lv[level], g), cap) && |nodes3| == |nodes|
    ensures Emptied(nodes, nodes3, root, lv, up' + [DropItem(lv[level], g)], g, cap)
  {
    hide UpperOk, KindOk, HalfOk, ExpandAll, SubLevels, Distinct, DropItem, SubItems, Apart;
    DropSub(lv[level], g);
    LevelApart(lv, level);
    PrefixDown(nodes3, root, lv, up', DropItem(lv[level], g), cap);
  }

  /** The path continues through the right sibling, if there is one. */
  lemma {:induction false} EmptiedPath(nodes3: Nodes, root: Node, up: seq<Level>, up': seq<Level>, es: Level, g: nat,
      cap: nat, node: seq<Node>, entry: seq<nat>, pos: seq<nat>, size: nat, size0: nat, level: nat,
      sibling: Option<Node>)
    requires |up| == level < |node| == |entry| && g < |es| && (forall j :: 0 <= j < |es| ==> es[j].Edge?)
    requires Upper(nodes3, root, up, up', DropItem(es, g), cap) &&
      LeadsOrOff(nodes3, up', node, entry, pos, size, size0, g, |DropItem(es, g)|)
    requires sibling == if g + 1 < |es| then Some(es[g + 1].node) else None
    ensures
      if sibling.Some?
      then AtOrOff(nodes3, up' + [DropItem(es, g)], node[level := sibling.value], entry, pos + [g], size, size0, g,
        entry[level])
      else AtOrOff(nodes3, up' + [DropItem(es, g)], node, entry, pos + [g], 0, size0, g, entry[level])
  {
    hide PrefixOk, KindOk, HalfOk, ExpandAll, SubLevels, DropItem, Offset, Entries;
    DropSub(es, g);
    if sibling.Some? {
      OnPathDown(nodes3, up', DropItem(es, g), node[level := sibling.value], entry, pos);
    }
  }

  /** Takes the sub-tree on the path out of its parent, and repairs the parent. */
  method DropFromParent(path: Path, pool: Pool, level: nat, ghost root: Node, ghost lv: seq<Level>, ghost pos: seq<nat>,
      cap: nat)
    returns (ghost up': seq<Level>, ghost upPos': seq<nat>)
    requires path.Valid() && pool.Valid() && level > 0
    requires Reached(pool.nodes, root, lv, cap, path.node, path.entry, pos, level) && Droppable(lv[level], pos[level])
    modifies path, pool
    ensures path.Valid() && pool.Valid() && path.node[0] == old(path.node[0]) && |pool.nodes| == |old(pool.nodes)|
    ensures forall l :: level <= l < MAX_PATH ==>
      path.node[l] == old(path.node[l]) && path.entry[l] == old(path.entry[l])
    ensures Upper(pool.nodes, root, lv[..level], up', DropItem(lv[level], pos[level]), cap)
    ensures OnlyAbove(old(pool.nodes), pool.nodes, lv, |pool.nodes|) && Freed(pool.nodes, lv[..level], up')
    ensures
      LeadsOrOff(pool.nodes, up', path.node, path.entry, upPos', path.size, old(path.size), pos[level],
                 |DropItem(lv[level], pos[level])|)
    decreases level, 0, 0
  {
    hide PoolOk, NextFree, PrefixOk, OnPath, KindOk, ExpandAll, Offset, Reached, Reduced, Upper, Emptied, AtOrOff,
      LeadsOrOff, Healed, Droppable, KindExcept, HalfExcept, StatusOk, UpperOk, HasNode, DropItem, InnerRemove, Freed,
      OnlyAbove;
    ReachedItem(pool.nodes, root, lv, cap, path.node, path.entry, pos, level);
    ghost var g, nodes1, node0, entry0 := pos[level], pool.nodes, path.node, path.entry;
    var pl := level - 1;
    var pe := path.entry[pl];
    ParentReduced(nodes1, root, lv, cap, path.node, path.entry, pos, level);
    var (parent, status) := InnerRemove(pool.nodes[path.node[pl]], pe);
    ghost var up: seq<Level>, upPos := lv[..level], pos[..level];
    ReducedFacts(nodes1, nodes1[path.node[pl] := parent], root, up, upPos, cap, path.node, path.entry, pl, lv[level], g,
      status);
    pool.SetNode(path.node[pl], parent);
    ghost var nodes2 := pool.nodes;
    var emptied;
    emptied, up', upPos' := HealLevel(path, pool, status, pl, root, up, upPos, true, cap);
    ParentDone(nodes1, nodes2, pool.nodes, root, up, up', upPos, cap, node0, entry0, pl, lv[level], g, status,
      path.node,
      path.entry, upPos', path.size, old(path.size));
    assert up + [lv[level]] == lv;
  }

  /** Removes an empty node from its parent, and repairs the parent. */
  method EmptyNode(path: Path, pool: Pool, level: nat, ghost root: Node, ghost lv: seq<Level>, ghost pos: seq<nat>,
      cap: nat)
    returns (treeEmpty: bool, ghost lv': seq<Level>, ghost pos': seq<nat>)
    requires path.Valid() && pool.Valid() && Reached(pool.nodes, root, lv, cap, path.node, path.entry, pos, level)
    requires Droppable(lv[level], pos[level]) && !pool.nodes[path.node[level]].Free?
    modifies path, pool
    ensures path.Valid() && pool.Valid() && path.node[0] == old(path.node[0])
    ensures forall l :: level < l < MAX_PATH ==>
      path.node[l] == old(path.node[l]) && path.entry[l] == old(path.entry[l])
    ensures treeEmpty <==> level == 0
    ensures Freed(pool.nodes, lv, if treeEmpty then [] else lv')
    ensures OnlyAbove(old(pool.nodes), pool.nodes, lv, old(path.node[level]))
    ensures !treeEmpty ==> Emptied(old(pool.nodes), pool.nodes, root, lv, lv', pos[level], cap)
    ensures !treeEmpty ==>
      AtOrOff(pool.nodes, lv', path.node, path.entry, pos', path.size, old(path.size), pos[level],
              old(path.entry[level]))
    decreases level, 0
  {
    hide PoolOk, NextFree, PrefixOk, OnPath, KindOk, ExpandAll, Offset, Reached, Upper, Emptied, AtOrOff, LeadsOrOff,
      Droppable, UpperOk, HasNode, DropItem, Freed;
    ReachedItem(pool.nodes, root, lv, cap, path.node, path.entry, pos, level);
    ghost var g, nodes0 := pos[level], pool.nodes;
    lv', pos' := lv, pos;
    var n := path.node[level];
    pool.FreeNode(n);
    ghost var nodes1 := pool.nodes;
    if level == 0 {
      FreedRoot(nodes0, pool.nodes, root, lv, cap, path.node, path.entry, pos);
      return true, lv, pos;
    }
    SetReached(nodes0, root, lv, cap, path.node, path.entry, pos, level, pool.nodes[n]);
    var sibling := path.RightSibling(level, pool, root, lv, pos, cap);
    ghost var up', upPos' := DropFromParent(path, pool, level, root, lv, pos, cap);
    EmptiedNow(nodes0, pool.nodes, root, lv, up', cap, level, g);
    EmptiedPath(pool.nodes, root, lv[..level], up', lv[level], g, cap, path.node, path.entry, upPos', path.size,
      old(path.size), level, if sibling.Some? then Some(sibling.value.1) else None);
    FreedBelow(nodes0, nodes1, pool.nodes, root, lv, up', cap, level, g);
    if sibling.Some? {
      path.node := path.node[level := sibling.value.1];
    } else {
      path.size := 0;
    }
    lv' := up' + [DropItem(lv[level], g)];
    pos' := upPos' + [g];
    treeEmpty := false;
  }

  lemma FreedRoot(nodes: Nodes, nodes': Nodes, root: Node, lv: seq<Level>, cap: nat, node: seq<Node>, entry: seq<nat>,
      pos: seq<nat>)
    requires Reached(nodes, root, lv, cap, node, entry, pos, 0) && node[0] < |nodes'| && nodes'[node[0]].Free?
    ensures Freed(nodes', lv, [])
  {
    hide Distinct, HalfOk, KindOk, ExpandAll;
  }

  lemma {:induction false} FreedBelow(nodes: Nodes, nodes1: Nodes, nodes3: Nodes, root: Node, lv: seq<Level>,
      up': seq<Level>, cap: nat, level: nat, g: nat)
    requires PrefixOk(nodes, root, lv, cap) && |lv| == level + 1 > 1 && g < |lv[level]| && lv[level][g].Edge? &&
      |nodes| == |nodes1|
    requires OnlyAbove(nodes1, nodes3, lv, |nodes|) && lv[level][g].node < |nodes1| && nodes1[lv[level][g].node].Free?
    requires Freed(nodes3, lv[..level], up')
    ensures Freed(nodes3, lv, up' + [DropItem(lv[level], g)])
  {
    hide UpperOk, HalfOk, Distinct, DropItem, ExpandAll;
    NotAbove(nodes, root, lv, cap, g);
    var es := lv[level];
    DropSub(es, g);
    var lv' := up' + [DropItem(es, g)];
    forall n: Node | HasNode(lv, n) && !HasNode(lv', n) ensures n < |nodes3| && nodes3[n].Free? {
      var l, j :| 0 <= l < |lv| && 0 <= j < |lv[l]| && lv[l][j].Edge? && lv[l][j].node == n;
      HasNodeUp(lv', n);
      assert lv'[..|lv'| - 1] == up';
      if l < level {
        HasNodeAt(lv[..level], l, j);
      } else {
        DropKeeps(up', es, g, j);
      }
    }
  }

  lemma {:induction false} DropKeeps(up: seq<Level>, es: Level, g: nat, j: nat)
    requires g < |es| && j < |es| && forall i :: 0 <= i < |es| ==> es[i].Edge?
    ensures j != g ==> HasNode(up + [DropItem(es, g)], es[j].node)
  {
    hide DropItem, HasNode;
    DropSub(es, g);
    if j != g {
      assert (up + [DropItem(es, g)])[|up|] == DropItem(es, g);
      HasNodeAt(up + [DropItem(es, g)], |up|, if j < g then j else j - 1);
    }
  }

  lemma {:induction false} SetReached(nodes: Nodes, root: Node, lv: seq<Level>, cap: nat, node: seq<Node>,
      entry: seq<nat>, pos: seq<nat>, level: nat, data: NodeData)
    requires Reached(nodes, root, lv, cap, node, entry, pos, level)
    ensures node[level] < |nodes| && Reached(nodes[node[level] := data], root, lv, cap, node, entry, pos, level)
    ensures UpperOk(nodes[node[level] := data], root, lv, cap) &&
      OnPath(nodes[node[level] := data], lv, node, entry, pos)
    ensures AllEdges(nodes, lv[level])
  {
    hide UpperOk, OnPath, Distinct, HalfOk;
    ReachedItem(nodes, root, lv, cap, node, entry, pos, level);
    SetLast(nodes, root, lv, cap, node, entry, pos, pos[level], data);
  }

  /** What the repair of the parent level asks for. */
  lemma {:induction false} ReducedFacts(nodes: Nodes, nodes2: Nodes, root: Node, up: seq<Level>, pos: seq<nat>,
      cap: nat, node: seq<Node>, entry: seq<nat>, pl: nat, es: Level, g: nat, status: Removed)
    requires Reduced(nodes, nodes2, root, up, pos, cap, node, entry, pl, es, g, status)
    ensures pl < |node| && node[pl] < |nodes2| && !nodes2[node[pl]].Free? &&
      Reached(nodes2, root, up, cap, node, entry, pos, pl)
    ensures pl < |up| && pl < |pos| && KindExcept(nodes2, up[pl], pos[pl], true, cap) &&
      HalfExcept(nodes2, up[pl], pos[pl], cap)
    ensures !status.Empty? ==>
      && KindOk(nodes2, up[pl], true, cap) && pos[pl] < |up[pl]| && ExpandAll(nodes2, up[pl]) == DropItem(es, g)
      && Offset(nodes2, up[pl], pos[pl]) + entry[pl] == g
    ensures status.Empty? ==> pl > 0 && entry[pl] == 0 && Droppable(up[pl], pos[pl])
  {
    hide PrefixOk, OnPath, KindOk, ExpandAll, Offset, Droppable, KindExcept, HalfExcept, DropItem;
    ReachedItem(nodes2, root, up, cap, node, entry, pos, pl);
  }
}
