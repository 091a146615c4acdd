/** Maps and their cursors, against sorted sequences and finite maps. */
module BForestMap {
  import opened Wrappers
  import opened BForestNode
  import opened BForestLevels
  import opened BForestPath
  import opened BForestEdit
  import opened BForestHeal
  import opened BForestRemove
  import opened BForestTree
  import opened BForestRemoval
  import opened BForestGrow
  import opened BForestInsert
  import opened BForestSearch
  import opened BForestFree

  // ---- what a sorted sequence of pairs maps ----

  ghost function ToMap(contents: Level): map<Key, Val> {
    if contents == [] then map[]
    else
      var last := contents[|contents| - 1];
      if last.Pair? then ToMap(contents[..|contents| - 1])[last.key := last.val] else ToMap(contents[..|contents| - 1])
  }

  /** A sorted sequence maps each of its keys to the value next to it, and nothing else. */
  lemma {:induction false} Maps(contents: Level, k: Key, v: Val)
    requires Sorted(contents)
    ensures (k in ToMap(contents) && ToMap(contents)[k] == v) <==> Pair(k, v) in contents
  {
    if contents != [] {
      var rest, last := contents[..|contents| - 1], contents[|contents| - 1];
      assert contents == rest + [last];
      Maps(rest, k, v);
      forall i | 0 <= i < |rest| ensures rest[i].key < last.key { assert contents[i] == rest[i]; }
    }
  }

  /** A key that lies between two neighbours is not a key of the sequence. */
  lemma {:induction false} NotMapped(contents: Level, c: nat, k: Key)
    requires Sorted(contents) && Between(contents, c, k)
    ensures k !in ToMap(contents)
  {
    hide ToMap;
    if k in ToMap(contents) {
      Maps(contents, k, ToMap(contents)[k]);
      assert false;
    }
  }

  lemma {:induction false} LookedUp(contents: Level, c: nat, k: Key, r: Option<Val>)
    requires Sorted(contents) && (r.Some? ==> c < |contents| && contents[c] == Pair(k, r.value)) &&
      (r.None? ==> Between(contents, c, k))
    ensures r == if k in ToMap(contents) then Some(ToMap(contents)[k]) else None
  {
    hide ToMap, Between, Sorted;
    if r.Some? { Maps(contents, k, r.value); } else { NotMapped(contents, c, k); }
  }

  lemma {:induction false} InsertMaps(contents: Level, c: nat, k: Key, v: Val)
    requires Sorted(contents) && Between(contents, c, k)
    ensures ToMap(InsertAt(contents, c, Pair(k, v))) == ToMap(contents)[k := v]
  {
    hide ToMap, Sorted, InsertAt;
    var r := InsertAt(contents, c, Pair(k, v));
    InsertKeepsSorted(contents, c, k, v);
    NotMapped(contents, c, k);
    forall x ensures x in ToMap(r) <==> x in ToMap(contents)[k := v]
      ensures x in ToMap(r) ==> ToMap(r)[x] == ToMap(contents)[k := v][x]
    {
      if x in ToMap(r) {
        Maps(r, x, ToMap(r)[x]);
        Maps(contents, x, ToMap(r)[x]);
        InsertHas(contents, c, Pair(k, v), Pair(x, ToMap(r)[x]));
      }
      if x in ToMap(contents)[k := v] {
        var w := ToMap(contents)[k := v][x];
        Maps(r, x, w);
        Maps(contents, x, w);
        InsertHas(contents, c, Pair(k, v), Pair(x, w));
      }
    }
  }

  lemma {:induction false} InsertHas(contents: Level, c: nat, x: Item, y: Item)
    requires c <= |contents|
    ensures y in InsertAt(contents, c, x) <==> y in contents || y == x
  {
    assert contents == contents[..c] + contents[c..];
  }

  lemma {:induction false} UpdateSorted(contents: Level, c: nat, v: Val)
    requires Sorted(contents) && c < |contents|
    ensures Sorted(contents[c := Pair(contents[c].key, v)])
  {
  }

  /** Replacing a value is taking the entry out and putting it back in with the new value. */
  lemma {:induction false} UpdateMaps(contents: Level, c: nat, v: Val)
    requires Sorted(contents) && c < |contents|
    ensures ToMap(contents[c := Pair(contents[c].key, v)]) == ToMap(contents)[contents[c].key := v]
  {
    hide ToMap;
    var k, r := contents[c].key, RemoveAt(contents, c);
    SortedWithout(contents, c);
    RemoveMaps(contents, c);
    assert contents[c := Pair(k, v)] == InsertAt(r, c, Pair(k, v));
    forall i | 0 <= i < |r| ensures r[i] == contents[if i < c then i else i + 1] {}
    assert Between(r, c, k);
    InsertMaps(r, c, k, v);
  }

  lemma {:induction false} RemoveMaps(contents: Level, c: nat)
    requires Sorted(contents) && c < |contents|
    ensures ToMap(RemoveAt(contents, c)) == ToMap(contents) - {contents[c].key}
  {
    hide ToMap, RemoveAt;
    var r, k := RemoveAt(contents, c), contents[c].key;
    SortedWithout(contents, c);
    forall x ensures x in ToMap(r) <==> x in ToMap(contents) - {k}
      ensures x in ToMap(r) ==> ToMap(r)[x] == ToMap(contents)[x]
    {
      if x in ToMap(r) {
        Maps(r, x, ToMap(r)[x]);
        Maps(contents, x, ToMap(r)[x]);
        RemoveHas(contents, c, Pair(x, ToMap(r)[x]));
      }
      if x in ToMap(contents) && x != k {
        var w := ToMap(contents)[x];
        Maps(r, x, w);
        Maps(contents, x, w);
        RemoveHas(contents, c, Pair(x, w));
      }
    }
  }

  lemma {:induction false} RemoveHas(contents: Level, c: nat, y: Item)
    requires Sorted(contents) && c < |contents| && y.Pair?
    ensures y in RemoveAt(contents, c) <==> y in contents && y.key != contents[c].key
  {
    var front, back := contents[..c], contents[c + 1..];
    assert contents == front + [contents[c]] + back;
    forall i | 0 <= i < |front| ensures front[i].key < contents[c].key { assert front[i] == contents[i]; }
    forall i | 0 <= i < |back| ensures back[i].key > contents[c].key { assert back[i] == contents[c + 1 + i]; }
  }

  // ---- steps of the proofs ----

  /** Overwriting the value of the entry a path points at. */
  lemma {:induction false} SetValue(nodes: Nodes, root: Node, levels: seq<Level>, cap: nat, node: seq<Node>,
      entry: seq<nat>, pos: seq<nat>, size: nat, c: nat, v: Val)
    requires TreeOk(nodes, root, levels, cap) && PointsAt(nodes, levels, node, entry, pos, size, c)
    ensures
      && 0 < size == |levels| - 1 <= |node| == |entry| && node[size - 1] < |nodes| && c < |levels[size]| &&
        levels[size][c].Pair?
      && var nd, e := nodes[node[size - 1]], entry[size - 1];
      && nd.Leaf? && e < |nd.keys| == |nd.vals| && levels[size][c] == Pair(nd.keys[e], nd.vals[e])
      && var nodes', levels' := nodes[node[size - 1] := Leaf(nd.keys, nd.vals[e := v])],
        levels[size := levels[size][c := Pair(levels[size][c].key, v)]];
      && TreeOk(nodes', root, levels', cap) && PointsAt(nodes', levels', node, entry, pos, size, c) &&
        Footprint(nodes, nodes', levels, levels')
  {
    hide OnPath, Offset, ExpandAll, HalfOk, KindOk, SepsOk, Distinct, Sorted, TreeOk, Entries, LinkOk, StepOk, HasNode,
      Without, PointsAt, UpperOk;
    PointsStands(nodes, levels, node, entry, pos, size, c);
    PointsInside(nodes, root, levels, cap, node, entry, pos, size, c);
    PointsEntry(nodes, levels, node, entry, pos, size, c);
    StandsAt(nodes, root, levels, cap, node, entry, pos, size, c);
    SameLeaf(nodes, root, levels, cap, node, entry, pos, size, c, entry[size - 1]);
    var nd, e, f, L := nodes[node[size - 1]], entry[size - 1], size - 1, node[size - 1];
    var nodes', levels' := nodes[L := Leaf(nd.keys, nd.vals[e := v])],
      levels[size := levels[size][c := Pair(levels[size][c].key, v)]];
    TreeParts(nodes, root, levels, cap);
    LevelApart(levels, f);
    NewValue(nodes, levels[f], pos[f], e, v, cap);
    forall l | 0 <= l < |levels| && l != f ensures Without(levels[l], L) { WithoutAt(levels, f, pos[f], l); }
    LinksKept(nodes, nodes', levels, 0, f, cap, L);
    LinksCopied(nodes', levels, levels', 0, f, cap);
    MakeLink(nodes', levels', f, cap);
    PathSteps(nodes, levels[..size], levels[size], node, entry, pos, c);
    assert levels[..size] + [levels[size]] == levels;
    StepsKept(nodes, nodes', levels, 0, f, cap, L, node, entry, pos + [c], node, entry, pos + [c]);
    StepsCopied(nodes', levels, levels', node, entry, pos + [c], 0, f);
    MakeStep(nodes', levels', node, entry, pos + [c], f);
    UpdateSorted(levels[size], c, v);
    ContentsReplaced(levels, levels'[size]);
    LinksTree(nodes', root, levels', cap);
    PathStart(nodes, levels, node, entry, pos, size, c);
    StepsPoint(nodes', levels', node, entry, pos + [c], c);
    assert (pos + [c])[..size] == pos;
    HasNodeAt(levels, f, pos[f]);
    SameNodesFootprint(nodes, nodes', levels, levels', L);
  }

  lemma TreeParts(nodes: Nodes, root: Node, levels: seq<Level>, cap: nat)
    requires TreeOk(nodes, root, levels, cap)
    ensures |levels| >= 2 && LinksOk(nodes, levels, 0, |levels| - 1, cap) && levels[0] == [Edge(root, None)] &&
      Distinct(levels)
    ensures SepsOk(nodes, levels[|levels| - 2]) && Sorted(levels[|levels| - 1]) && (|levels| > 2 ==> |levels[1]| >= 2)
    ensures KindOk(nodes, levels[|levels| - 2], false, cap) && HalfOk(nodes, levels[|levels| - 2], cap) &&
      levels[|levels| - 1] == ExpandAll(nodes, levels[|levels| - 2])
  {
    hide KindOk, HalfOk, ExpandAll, SepsOk, Sorted, Distinct;
    TreeLinks(nodes, root, levels, cap);
    assert LinkOk(nodes, levels, |levels| - 2, cap);
  }

  lemma PathStart(nodes: Nodes, levels: seq<Level>, node: seq<Node>, entry: seq<nat>, pos: seq<nat>, size: nat, c: nat)
    requires PointsAt(nodes, levels, node, entry, pos, size, c)
    ensures |pos| == size > 0 && pos[0] == 0
  {
    hide Offset, Entries;
  }

  lemma {:induction false} NewValue(nodes: Nodes, es: Level, p: nat, e: nat, v: Val, cap: nat)
    requires KindOk(nodes, es, false, cap) && HalfOk(nodes, es, cap) && SepsOk(nodes, es) && Apart(es) && p < |es|
    requires nodes[es[p].node].Leaf? && e < |nodes[es[p].node].keys| == |nodes[es[p].node].vals|
    ensures
      var nd, c := nodes[es[p].node], Offset(nodes, es, p) + e;
      var nodes' := nodes[es[p].node := Leaf(nd.keys, nd.vals[e := v])];
      && KindOk(nodes', es, false, cap) && HalfOk(nodes', es, cap) && SepsOk(nodes', es) &&
        Offset(nodes', es, p) == Offset(nodes, es, p)
      && c < |ExpandAll(nodes, es)| && ExpandAll(nodes', es) == ExpandAll(nodes, es)[c := Pair(nd.keys[e], v)]
      && Entries(nodes'[es[p].node]) == Entries(nd)
  {
    hide ExpandAll, Expand, ExpandItem, KindOk, HalfOk, SepsOk;
    LeavesEdges(nodes, es, cap);
    var nd := nodes[es[p].node];
    var nd' := Leaf(nd.keys, nd.vals[e := v]);
    var nodes' := nodes[es[p].node := nd'];
    WellShapedAt(nodes, es, p, false, cap);
    OneChanged(nodes, nodes', es, p, false, cap);
    ChangeNode(nodes, nodes', es, p);
    ExpandAround(nodes, es, p);
    ItemIsExpand(nodes, es[p]);
    ItemIsExpand(nodes', es[p]);
    ExpandValue(nd, e, v, es[p].upper);
    var a, mid, b := ExpandAll(nodes, es[..p]), Expand(nd, es[p].upper), ExpandAll(nodes, es[p + 1..]);
    assert (a + mid + b)[|a| + e := Pair(nd.keys[e], v)] == a + mid[e := Pair(nd.keys[e], v)] + b;
    EnteredSeps(nodes, nodes', es, p, cap);
  }

  lemma ExpandValue(nd: NodeData, e: nat, v: Val, upper: Option<Key>)
    requires nd.Leaf? && e < |nd.keys| == |nd.vals|
    ensures |Expand(nd, upper)| == |nd.keys| &&
      Expand(Leaf(nd.keys, nd.vals[e := v]), upper) == Expand(nd, upper)[e := Pair(nd.keys[e], v)]
  {
  }

  lemma {:induction false} SameNodesFootprint(nodes: Nodes, nodes': Nodes, levels: seq<Level>, levels': seq<Level>,
      n: Node)
    requires |levels| > 0 && |nodes'| == |nodes| && HasNode(levels, n) &&
      (forall m :: 0 <= m < |nodes| && m != n ==> nodes'[m] == nodes[m])
    requires |levels'| == |levels| && levels' == levels[|levels| - 1 := levels'[|levels| - 1]] &&
      Sorted(levels'[|levels| - 1])
    requires Sorted(levels[|levels| - 1]) && n < |nodes| && !nodes[n].Free?
    ensures Footprint(nodes, nodes', levels, levels')
  {
    forall m: Node | HasNode(levels, m) ensures HasNode(levels', m) {
      var l, j :| 0 <= l < |levels| && 0 <= j < |levels[l]| && levels[l][j].Edge? && levels[l][j].node == m;
      assert l < |levels| - 1 && levels[l] == levels'[l];
    }
    forall m: Node | HasNode(levels', m) ensures HasNode(levels, m) {
      var l, j :| 0 <= l < |levels'| && 0 <= j < |levels'[l]| && levels'[l][j].Edge? && levels'[l][j].node == m;
      assert l < |levels| - 1 && levels[l] == levels'[l];
    }
  }

  /** A tree with a single entry. */
  lemma {:induction false} SoleEntry(nodes: Nodes, n: Node, key: Key, val: Val, cap: nat, node: seq<Node>,
      entry: seq<nat>)
    requires n < |nodes| && nodes[n] == Leaf([key], [val]) && cap > 0 && 0 < |node| == |entry| && node[0] == n &&
      entry[0] == 0
    ensures TreeOk(nodes, n, [[Edge(n, None)], [Pair(key, val)]], cap) &&
      PointsAt(nodes, [[Edge(n, None)], [Pair(key, val)]], node, entry, [0], 1, 0)
  {
    var levels: seq<Level> := [[Edge(n, None)], [Pair(key, val)]];
    ExpandOne(nodes, Edge(n, None));
    assert ExpandAll(nodes, levels[0]) == levels[1];
    assert levels[..1] == [levels[0]];
    assert levels[0][..0] == [];
  }

  lemma {:induction false} SoleFootprint(nodes: Nodes, nodes': Nodes, n: Node, key: Key, val: Val)
    requires n == |nodes| || (n < |nodes| && nodes[n].Free?)
    requires nodes' == if n < |nodes| then nodes[n := Leaf([key], [val])] else nodes + [Leaf([key], [val])]
    ensures Footprint(nodes, nodes', [], [[Edge(n, None)], [Pair(key, val)]])
  {
    var levels: seq<Level> := [[Edge(n, None)], [Pair(key, val)]];
    forall m: Node | HasNode(levels, m) ensures m == n {
      var l, j :| 0 <= l < |levels| && 0 <= j < |levels[l]| && levels[l][j].Edge? && levels[l][j].node == m;
    }
    HasNodeAt(levels, 0, 0);
  }
}
