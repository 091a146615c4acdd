/** Looking up keys and moving along the sorted contents. */
module BForestSearch {
  import opened Wrappers
  import opened BForestNode
  import opened BForestLevels
  import opened BForestPath
  import opened BForestEdit
  import opened BForestPool
  import opened BForestCursor
  import opened BForestRemove
  import opened BForestTree
  import opened BForestRemoval
  import opened BForestGrow
  import opened BForestInsert
  import opened BForestOrder

  // ---- searching a node ----

  datatype SearchResult = Ok(index: nat) | Err(index: nat)

  predicate Ascending(s: seq<Key>) {
    forall i, j :: 0 <= i < j < |s| ==> s[i] < s[j]
  }

  /** The index of `k`, or where it would have to be inserted. */
  predicate SearchOk(s: seq<Key>, k: Key, r: SearchResult) {
    match r
    case Ok(i) => i < |s| && s[i] == k
    case Err(i) => i <= |s| && (forall j :: 0 <= j < i ==> s[j] < k) && (forall j :: i <= j < |s| ==> k < s[j])
  }

  method Search(k: Key, s: seq<Key>) returns (r: SearchResult)
    requires Ascending(s)
    ensures SearchOk(s, k, r)
  {
    var lo, hi := 0, |s|;
    while lo < hi
      invariant 0 <= lo <= hi <= |s|
      invariant forall j :: 0 <= j < lo ==> s[j] < k
      invariant forall j :: hi <= j < |s| ==> k < s[j]
    {
      var mid := lo + (hi - lo) / 2;
      if s[mid] == k {
        return Ok(mid);
      } else if s[mid] < k {
        lo := mid + 1;
      } else {
        hi := mid;
      }
    }
    return Err(lo);
  }

  // ---- searching a tree ----

  /** The bounds of item `p` bracket `k`. */
  ghost predicate Brackets(levels: seq<Level>, l: nat, p: nat, k: Key) {
    && l < |levels| && p < |levels[l]| && levels[l][p].Edge?
    && (Lower(levels, l, p).Some? ==> Lower(levels, l, p).value <= k)
    && (levels[l][p].upper.Some? ==> k < levels[l][p].upper.value)
  }

  lemma {:induction false} NodeAscending(nodes: Nodes, root: Node, levels: seq<Level>, cap: nat, l: nat, p: nat)
    requires TreeOk(nodes, root, levels, cap) && l < |levels| - 1 && p < |levels[l]|
    ensures levels[l][p].Edge? && levels[l][p].node < |nodes| && !nodes[levels[l][p].node].Free? &&
      WellShaped(nodes[levels[l][p].node], cap)
    ensures Ascending(nodes[levels[l][p].node].keys) && nodes[levels[l][p].node].Inner? == (l + 2 < |levels|) &&
      |nodes[levels[l][p].node].keys| + 1 > 0
    ensures nodes[levels[l][p].node].Leaf? ==> |nodes[levels[l][p].node].keys| > 0
  {
    hide TreeOk, WellShaped;
    VerifyTree(nodes, root, levels, cap, l, p);
    TreeLinks(nodes, root, levels, cap);
    assert LinkOk(nodes, levels, l, cap);
    LinkKind(nodes, levels, l, cap);
    WellShapedAt(nodes, levels[l], p, l + 2 < |levels|, cap);
    ChecksAscend(nodes[levels[l][p].node], Lower(levels, l, p), levels[l][p].upper, cap);
  }

  lemma {:induction false} ChecksAscend(nd: NodeData, lower: Option<Key>, upper: Option<Key>, cap: nat)
    requires NodeChecks(nd, lower, upper, cap)
    ensures Ascending(nd.keys)
  {
    forall i | 0 < i < |nd.keys| ensures nd.keys[i - 1] < nd.keys[i] {
      assert BoundsOrdered(BoundBefore(nd.keys, lower, i), BoundAfter(nd.keys, upper, i), nd.Leaf? && i == 0);
    }
    StepwiseAscending(nd.keys);
  }

  lemma {:induction false} StepwiseAscending(s: seq<Key>)
    requires forall i :: 0 < i < |s| ==> s[i - 1] < s[i]
    ensures Ascending(s)
  {
    if |s| > 0 {
      var r := s[..|s| - 1];
      StepwiseAscending(r);
      forall i, j | 0 <= i < j < |s| ensures s[i] < s[j] {
        if j == |s| - 1 && i < j - 1 { assert r[i] < r[j - 1]; }
        else if j < |s| - 1 { assert r[i] < r[j]; }
      }
    }
  }

  /** Following the branch that a key belongs to. */
  lemma {:induction false} Descend(nodes: Nodes, root: Node, levels: seq<Level>, cap: nat, l: nat, p: nat, i: nat,
      k: Key)
    requires TreeOk(nodes, root, levels, cap) && l + 2 < |levels| && Brackets(levels, l, p, k)
    requires levels[l][p].node < |nodes| && nodes[levels[l][p].node].Inner? && i <= |nodes[levels[l][p].node].keys|
    requires i > 0 ==> nodes[levels[l][p].node].keys[i - 1] <= k
    requires i < |nodes[levels[l][p].node].keys| ==> k < nodes[levels[l][p].node].keys[i]
    ensures i < |nodes[levels[l][p].node].tree| && Brackets(levels, l + 1, Offset(nodes, levels[l], p) + i, k)
    ensures levels[l + 1][Offset(nodes, levels[l], p) + i].node == nodes[levels[l][p].node].tree[i]
  {
    hide ExpandAll, Offset, Distinct, KindOk, SepsOk, HalfOk, Sorted, ExpandItem;
    TreeLinks(nodes, root, levels, cap);
    assert LinkOk(nodes, levels, l, cap);
    var es := levels[l];
    ItemOfInner(nodes, es, p, cap);
    ExpandIndex(nodes, es, p, i);
    if i > 0 {
      ExpandIndex(nodes, es, p, i - 1);
    } else if p > 0 {
      InnerBoundIsKey(nodes, root, levels, cap, l, p - 1);
    } else {
      OffsetEnds(nodes, es);
    }
  }

  /** What a search in the right leaf says about the whole contents. */
  lemma {:induction false} LeafAnswer(nodes: Nodes, root: Node, levels: seq<Level>, cap: nat, p: nat, k: Key,
      r: SearchResult)
    requires TreeOk(nodes, root, levels, cap) && Brackets(levels, |levels| - 2, p, k)
    requires
      var n := levels[|levels| - 2][p].node;
      && n < |nodes| && nodes[n].Leaf? && WellShaped(nodes[n], cap)
      && |nodes[n].keys| > 0 && SearchOk(nodes[n].keys, k, r)
    ensures
      var leaves, contents := levels[|levels| - 2], levels[|levels| - 1];
      var c, nd := Offset(nodes, leaves, p) + r.index, nodes[leaves[p].node];
      match r
      case Ok(i) => c < |contents| && contents[c] == Pair(k, nd.vals[i])
      case Err(i) => Between(contents, c, k) && (i > 0 || p == 0)
  {
    match r {
      case Ok(i) => LeafEntry(nodes, root, levels, cap, p, i);
      case Err(i) => LeafMiss(nodes, root, levels, cap, p, k, i);
    }
  }

  lemma {:induction false} LeafMiss(nodes: Nodes, root: Node, levels: seq<Level>, cap: nat, p: nat, k: Key, i: nat)
    requires TreeOk(nodes, root, levels, cap) && Brackets(levels, |levels| - 2, p, k)
    requires
      var n := levels[|levels| - 2][p].node;
      && n < |nodes| && nodes[n].Leaf? && WellShaped(nodes[n], cap)
      && |nodes[n].keys| > 0 && SearchOk(nodes[n].keys, k, Err(i))
    ensures Between(levels[|levels| - 1], Offset(nodes, levels[|levels| - 2], p) + i, k) && (i > 0 || p == 0)
  {
    hide ExpandAll, Offset, Distinct, KindOk, SepsOk, HalfOk, Start, Sorted, KeyAt, Between;
    var l := |levels| - 2;
    TreeLinks(nodes, root, levels, cap);
    assert LinkOk(nodes, levels, l, cap);
    var nd, o := nodes[levels[l][p].node], Offset(nodes, levels[l], p);
    OffsetEnds(nodes, levels[l]);
    ExpandAround(nodes, levels[l], p);
    ItemSize(nodes, levels[l], p, false, cap);
    StartStep(nodes, levels, l, p);
    StartStep(nodes, levels, l, p + 1);
    LeafEntry(nodes, root, levels, cap, p, 0);
    if p > 0 { BoundIsKey(nodes, root, levels, cap, l, p - 1); }
    if i > 0 { LeafEntry(nodes, root, levels, cap, p, i - 1); }
    if i < |nd.keys| { LeafEntry(nodes, root, levels, cap, p, i); } else { BoundIsKey(nodes, root, levels, cap, l, p); }
    MakeBetween(levels, o + i, k);
  }

  /** `k` lies strictly between the entries before position `c` and those from `c` on. */
  ghost predicate Between(contents: Level, c: nat, k: Key) {
    && c <= |contents|
    && (forall i :: 0 <= i < |contents| ==> contents[i].Pair?)
    && (forall i :: 0 <= i < c ==> contents[i].key < k)
    && (forall i :: c <= i < |contents| ==> k < contents[i].key)
  }

  lemma MakeBetween(levels: seq<Level>, c: nat, k: Key)
    requires |levels| > 0 && Sorted(levels[|levels| - 1]) && c <= |levels[|levels| - 1]|
    requires (c > 0 ==> KeyAt(levels, c - 1) < k) && (c < |levels[|levels| - 1]| ==> k < KeyAt(levels, c))
    ensures Between(levels[|levels| - 1], c, k)
  {
  }

  lemma {:induction false} InsertKeepsSorted(contents: Level, c: nat, k: Key, v: Val)
    requires Sorted(contents) && Between(contents, c, k)
    ensures Sorted(InsertAt(contents, c, Pair(k, v)))
  {
    var r := InsertAt(contents, c, Pair(k, v));
    assert forall i :: 0 <= i < |r| ==>
      r[i] == if i < c then contents[i] else if i == c then Pair(k, v) else contents[i - 1];
  }

  // ---- the methods ----

  /** A path that has come down to `level`, to item `p` there. */
  ghost predicate Descending(nodes: Nodes, levels: seq<Level>, node: seq<Node>, entry: seq<nat>, pos: seq<nat>,
      level: nat, p: nat) {
    && level + 1 < |levels| && level < |node| && OnPath(nodes, levels[..level + 1], node, entry, pos) && pos[level] == p
  }

  lemma {:induction false} DescendFrom(nodes: Nodes, root: Node, levels: seq<Level>, cap: nat, node: seq<Node>,
      entry: seq<nat>)
    requires TreeOk(nodes, root, levels, cap) && 0 < |node| == |entry| && node[0] == root
    ensures |levels| >= 2 && Descending(nodes, levels, node, entry, [0], 0, 0) && levels[0] == [Edge(root, None)]
  {
    hide ExpandAll, KindOk, HalfOk, SepsOk, Sorted, Distinct;
  }

  lemma {:induction false} DescendOn(nodes: Nodes, levels: seq<Level>, node: seq<Node>, entry: seq<nat>, pos: seq<nat>,
      level: nat, p: nat, q: nat, node': seq<Node>, entry': seq<nat>)
    requires Descending(nodes, levels, node, entry, pos, level, p) && level + 2 < |levels| &&
      level + 1 < |node'| == |entry'| == |node|
    requires forall l :: 0 <= l <= level ==> node'[l] == node[l]
    requires forall l :: 0 <= l < level ==> entry'[l] == entry[l]
    requires node[level] < |nodes| && entry'[level] < Entries(nodes[node[level]]) &&
      q == Offset(nodes, levels[level], p) + entry'[level]
    requires q < |levels[level + 1]| && levels[level + 1][q].Edge? && levels[level + 1][q].node == node'[level + 1]
    ensures Descending(nodes, levels, node', entry', pos + [q], level + 1, q)
  {
    hide Offset, Entries;
    var up: seq<Level> := levels[..level + 1];
    assert OnPath(nodes, up, node', entry', pos);
    OnPathDown(nodes, up, levels[level + 1], node', entry', pos);
    assert up + [levels[level + 1]] == levels[..level + 2];
  }

  /** What a search says once it has come to a leaf. */
  lemma {:induction false} DescentFinds(nodes: Nodes, root: Node, levels: seq<Level>, cap: nat, node: seq<Node>,
      entry: seq<nat>, pos: seq<nat>, level: nat, p: nat, key: Key, s: SearchResult)
    requires TreeOk(nodes, root, levels, cap) && Descending(nodes, levels, node, entry, pos, level, p)
    requires Brackets(levels, level, p, key) && level + 2 == |levels| && level < |node| == |entry|
    requires
      && node[level] < |nodes| && nodes[node[level]].Leaf? && WellShaped(nodes[node[level]], cap)
      && |nodes[node[level]].keys| > 0 && SearchOk(nodes[node[level]].keys, key, s)
    ensures p < |levels[level]|
    ensures
      var c, entry', contents := Offset(nodes, levels[level], p) + s.index, entry[level := s.index], levels[level + 1];
      if s.Ok?
      then
        && PointsAt(nodes, levels, node, entry', pos, level + 1, c)
        && c < |contents| && contents[c] == Pair(key, nodes[node[level]].vals[s.index])
      else InsertsAt(nodes, levels, node, entry', pos, level + 1, c) && Between(contents, c, key)
  {
    hide TreeOk, Descending, Brackets, OnPath, Offset, Between, Entries, WellShaped, SearchOk;
    DescendingItem(nodes, levels, node, entry, pos, level, p);
    LeafAnswer(nodes, root, levels, cap, p, key, s);
    LeafHas(nodes[node[level]], cap);
    SearchIndex(nodes[node[level]].keys, key, s);
    DescentEnds(nodes, levels, node, entry, pos, level, p, entry[level := s.index]);
  }

  /** Searches for `key`: the path ends at the key, or where it would have to be inserted. */
  method Find(path: Path, pool: Pool, key: Key, root: Node, ghost levels: seq<Level>, ghost cap: nat)
    returns (r: Option<Val>, ghost pos: seq<nat>, ghost c: nat)
    requires path.Valid() && TreeOk(pool.nodes, root, levels, cap) && |levels| - 1 <= MAX_PATH
    modifies path
    ensures path.Valid()
    ensures r.Some? ==>
      && PointsAt(pool.nodes, levels, path.node, path.entry, pos, path.size, c)
      && c < |levels[|levels| - 1]| && levels[|levels| - 1][c] == Pair(key, r.value)
    ensures r.None? ==>
      InsertsAt(pool.nodes, levels, path.node, path.entry, pos, path.size, c) && Between(levels[|levels| - 1], c, key)
  {
    hide TreeOk, Descending, Brackets, OnPath, Offset, Between, Entries, Lower, WellShaped, Ascending, SearchOk,
      PointsAt, InsertsAt;
    var node, level: nat := root, 0;
    ghost var p: nat := 0;
    path.size, path.node := 1, path.node[0 := root];
    DescendFrom(pool.nodes, root, levels, cap, path.node, path.entry);
    pos := [0];
    BracketsRoot(levels, root, key);
    while true
      invariant path.Valid() && level + 1 < |levels| && level < MAX_PATH && path.size == level + 1 &&
        path.node[level] == node
      invariant Descending(pool.nodes, levels, path.node, path.entry, pos, level, p) && Brackets(levels, level, p, key)
      decreases |levels| - level
    {
      DescendingItem(pool.nodes, levels, path.node, path.entry, pos, level, p);
      NodeAscending(pool.nodes, root, levels, cap, level, p);
      match pool.nodes[node] {
        case Inner(keys, tree) =>
          var s := Search(key, keys);
          var i := match s case Ok(i) => i + 1 case Err(i) => i;
          BranchFor(keys, key, s);
          Descend(pool.nodes, root, levels, cap, level, p, i, key);
          ghost var node0, entry0, q := path.node, path.entry, Offset(pool.nodes, levels[level], p) + i;
          InnerHas(pool.nodes[node], cap);
          BracketsItem(levels, level + 1, q, key);
          path.entry := path.entry[level := i];
          node := tree[i];
          path.node := path.node[level + 1 := node];
          DescendOn(pool.nodes, levels, node0, entry0, pos, level, p, q, path.node, path.entry);
          level, p, pos := level + 1, q, pos + [q];
          path.size := level + 1;
        case Leaf(keys, vals) =>
          var s := Search(key, keys);
          SearchIndex(keys, key, s);
          LeafHas(pool.nodes[node], cap);
          ghost var entry0 := path.entry;
          path.entry := path.entry[level := s.index];
          c := Offset(pool.nodes, levels[level], p) + s.index;
          DescentFinds(pool.nodes, root, levels, cap, path.node, entry0, pos, level, p, key, s);
          return if s.Ok? then Some(vals[s.index]) else None, pos, c;
      }
    }
  }

  lemma BracketsRoot(levels: seq<Level>, root: Node, k: Key)
    requires |levels| > 0 && levels[0] == [Edge(root, None)]
    ensures Brackets(levels, 0, 0, k)
  {
  }

  lemma BracketsItem(levels: seq<Level>, l: nat, p: nat, k: Key)
    requires Brackets(levels, l, p, k)
    ensures l < |levels| && p < |levels[l]| && levels[l][p].Edge?
  {
  }

  lemma DescendingItem(nodes: Nodes, levels: seq<Level>, node: seq<Node>, entry: seq<nat>, pos: seq<nat>, level: nat,
      p: nat)
    requires Descending(nodes, levels, node, entry, pos, level, p)
    ensures level + 1 < |levels| && |pos| == level + 1 && p == pos[level] < |levels[level]| && levels[level][p].Edge? &&
      levels[level][p].node == node[level]
  {
    hide Offset, Entries;
  }

  lemma BranchFor(keys: seq<Key>, k: Key, s: SearchResult)
    requires Ascending(keys) && SearchOk(keys, k, s)
    ensures
      var i := match s case Ok(i) => i + 1 case Err(i) => i;
      i <= |keys| && (i > 0 ==> keys[i - 1] <= k) && (i < |keys| ==> k < keys[i])
  {
  }

  lemma SearchIndex(keys: seq<Key>, k: Key, s: SearchResult)
    requires SearchOk(keys, k, s)
    ensures s.index <= |keys| && (s.Ok? ==> s.index < |keys|)
  {
  }

  lemma InnerHas(nd: NodeData, cap: nat)
    requires nd.Inner? && WellShaped(nd, cap)
    ensures |nd.tree| == |nd.keys| + 1 == Entries(nd)
  {
  }

  lemma LeafHas(nd: NodeData, cap: nat)
    requires nd.Leaf? && WellShaped(nd, cap)
    ensures |nd.keys| == |nd.vals| == Entries(nd)
  {
  }

  lemma {:induction false} DescentEnds(nodes: Nodes, levels: seq<Level>, node: seq<Node>, entry0: seq<nat>,
      pos: seq<nat>, level: nat, p: nat, entry: seq<nat>)
    requires Descending(nodes, levels, node, entry0, pos, level, p) && level + 2 == |levels|
    requires |entry| == |entry0| && (forall l :: 0 <= l < level ==> entry[l] == entry0[l])
    ensures OnPath(nodes, levels[..level + 1], node, entry, pos)
  {
    hide Offset, Entries;
  }

  // ---- moving ----

  /** The path stands before entry `c`, possibly just behind the last entry of a leaf. */
  ghost predicate Stands(nodes: Nodes, levels: seq<Level>, node: seq<Node>, entry: seq<nat>, pos: seq<nat>, size: nat,
      c: nat) {
    && |levels| >= 2 && size == |levels| - 1 <= |node| && OnPath(nodes, levels[..size], node, entry, pos)
    && node[size - 1] < |nodes| && entry[size - 1] <= Entries(nodes[node[size - 1]])
    && Offset(nodes, levels[size - 1], pos[size - 1]) + entry[size - 1] == c
  }

  lemma PointsStands(nodes: Nodes, levels: seq<Level>, node: seq<Node>, entry: seq<nat>, pos: seq<nat>, size: nat,
      c: nat)
    ensures PointsAt(nodes, levels, node, entry, pos, size, c) ==> Stands(nodes, levels, node, entry, pos, size, c)
    ensures InsertsAt(nodes, levels, node, entry, pos, size, c) ==> Stands(nodes, levels, node, entry, pos, size, c)
  {
    hide OnPath, Offset, Entries;
  }

  /** The leaf a path stands in. */
  lemma {:induction false} StandsAt(nodes: Nodes, root: Node, levels: seq<Level>, cap: nat, node: seq<Node>,
      entry: seq<nat>, pos: seq<nat>, size: nat, c: nat)
    requires TreeOk(nodes, root, levels, cap) && Stands(nodes, levels, node, entry, pos, size, c)
    ensures |pos| == size == |levels| - 1 <= |node| == |entry| && pos[size - 1] < |levels[size - 1]| &&
      node[size - 1] < |nodes|
    ensures levels[size - 1][pos[size - 1]].Edge? && levels[size - 1][pos[size - 1]].node == node[size - 1]
    ensures nodes[node[size - 1]].Leaf? &&
      |nodes[node[size - 1]].keys| == |nodes[node[size - 1]].vals| == Entries(nodes[node[size - 1]]) > 0
    ensures entry[size - 1] <= |nodes[node[size - 1]].keys| &&
      Offset(nodes, levels[size - 1], pos[size - 1]) + entry[size - 1] == c
    ensures UpperOk(nodes, root, levels[..size], cap) && OnPath(nodes, levels[..size], node, entry, pos) &&
      KindOk(nodes, levels[size - 1], false, cap)
    ensures levels[size] == ExpandAll(nodes, levels[size - 1])
  {
    hide OnPath, Offset, ExpandAll, HalfOk, Distinct, SepsOk, Sorted;
    LeafOnPath(nodes, levels[..size], node, entry, pos);
    TreeLinks(nodes, root, levels, cap);
    assert LinkOk(nodes, levels, size - 1, cap);
    TreeIsAlmost(nodes, root, levels, cap);
    assert PrefixOk(nodes, root, levels[..size], cap);
    WellShapedAt(nodes, levels[size - 1], pos[size - 1], false, cap);
  }

  /** Another entry of the same leaf. */
  lemma {:induction false} SameLeaf(nodes: Nodes, root: Node, levels: seq<Level>, cap: nat, node: seq<Node>,
      entry: seq<nat>, pos: seq<nat>, size: nat, c: nat, e: nat)
    requires TreeOk(nodes, root, levels, cap) && Stands(nodes, levels, node, entry, pos, size, c) && size <= |entry| &&
      e < Entries(nodes[node[size - 1]])
    ensures c - entry[size - 1] + e >= 0 &&
      PointsAt(nodes, levels, node, entry[size - 1 := e], pos, size, c - entry[size - 1] + e)
    ensures
      var nd := nodes[node[size - 1]];
      && nd.Leaf? && e < |nd.keys| == |nd.vals| && c - entry[size - 1] + e < |levels[size]|
      && levels[size][c - entry[size - 1] + e] == Pair(nd.keys[e], nd.vals[e])
  {
    hide Offset, Entries, UpperOk, KindOk, TreeOk, ExpandAll;
    StandsAt(nodes, root, levels, cap, node, entry, pos, size, c);
    LeafEntry(nodes, root, levels, cap, pos[size - 1], e);
  }

  /** Moves to the first entry. */
  method First(path: Path, pool: Pool, root: Node, ghost levels: seq<Level>, ghost cap: nat)
    returns (r: (Key, Val), ghost pos: seq<nat>)
    requires path.Valid() && TreeOk(pool.nodes, root, levels, cap) && |levels| - 1 <= MAX_PATH
    modifies path
    ensures path.Valid() && PointsAt(pool.nodes, levels, path.node, path.entry, pos, path.size, 0)
    ensures 0 < |levels[|levels| - 1]| && levels[|levels| - 1][0] == Pair(r.0, r.1)
  {
    hide TreeOk, Descending, OnPath, Offset, Entries, WellShaped, Ascending, Leads;
    var node, level: nat := root, 0;
    path.size, path.node, path.entry := 1, path.node[0 := root], path.entry[0 := 0];
    DescendFrom(pool.nodes, root, levels, cap, path.node, path.entry);
    pos := [0];
    while true
      invariant path.Valid() && level + 1 < |levels| && level < MAX_PATH && path.size == level + 1 &&
        path.node[level] == node && path.entry[level] == 0
      invariant Descending(pool.nodes, levels, path.node, path.entry, pos, level, 0)
      decreases |levels| - level
    {
      DescendingItem(pool.nodes, levels, path.node, path.entry, pos, level, 0);
      NodeAscending(pool.nodes, root, levels, cap, level, 0);
      OffsetEnds(pool.nodes, levels[level]);
      match pool.nodes[node] {
        case Inner(keys, tree) =>
          InnerHas(pool.nodes[node], cap);
          ChildAt(pool.nodes, root, levels, cap, level, 0, 0);
          ghost var node0, entry0 := path.node, path.entry;
          node := tree[0];
          path.node, path.entry := path.node[level + 1 := node], path.entry[level + 1 := 0];
          DescendOn(pool.nodes, levels, node0, entry0, pos, level, 0, 0, path.node, path.entry);
          level, pos := level + 1, pos + [0];
          path.size := level + 1;
        case Leaf(keys, vals) =>
          LeafHas(pool.nodes[node], cap);
          LeafEntry(pool.nodes, root, levels, cap, 0, 0);
          DescentPoints(pool.nodes, levels, path.node, path.entry, pos, level, 0, path.entry);
          return (keys[0], vals[0]), pos;
      }
    }
  }

  lemma {:induction false} ChildAt(nodes: Nodes, root: Node, levels: seq<Level>, cap: nat, l: nat, p: nat, i: nat)
    requires TreeOk(nodes, root, levels, cap) && l + 2 < |levels| && p < |levels[l]| && levels[l][p].Edge? &&
      levels[l][p].node < |nodes|
    requires nodes[levels[l][p].node].Inner? && i < |nodes[levels[l][p].node].tree|
    ensures
      var q := Offset(nodes, levels[l], p) + i;
      q < |levels[l + 1]| && levels[l + 1][q].Edge? && levels[l + 1][q].node == nodes[levels[l][p].node].tree[i]
  {
    hide ExpandAll, Offset, Distinct, KindOk, SepsOk, HalfOk, Sorted, ExpandItem;
    TreeLinks(nodes, root, levels, cap);
    assert LinkOk(nodes, levels, l, cap);
    ItemOfInner(nodes, levels[l], p, cap);
    ExpandIndex(nodes, levels[l], p, i);
  }

  lemma {:induction false} DescentPoints(nodes: Nodes, levels: seq<Level>, node: seq<Node>, entry0: seq<nat>,
      pos: seq<nat>, level: nat, p: nat, entry: seq<nat>)
    requires Descending(nodes, levels, node, entry0, pos, level, p) && level + 2 == |levels| && node[level] < |nodes| &&
      level < |entry|
    requires |entry| == |entry0| && (forall l :: 0 <= l < level ==> entry[l] == entry0[l]) &&
      entry[level] < Entries(nodes[node[level]])
    ensures PointsAt(nodes, levels, node, entry, pos, level + 1, Offset(nodes, levels[level], p) + entry[level])
  {
    hide OnPath, Offset, Entries;
    DescentEnds(nodes, levels, node, entry0, pos, level, p, entry);
  }

  /** Moves to the next entry, or off the end. */
  method Next(path: Path, pool: Pool, ghost root: Node, ghost levels: seq<Level>, ghost pos: seq<nat>, ghost c: nat,
      ghost cap: nat)
    returns (r: Option<(Key, Val)>, ghost pos': seq<nat>)
    requires path.Valid()
    requires path.size > 0 ==>
      TreeOk(pool.nodes, root, levels, cap) && PointsAt(pool.nodes, levels, path.node, path.entry, pos, path.size, c)
    modifies path
    ensures path.Valid()
    ensures old(path.size) == 0 ==> r == None && path.size == 0
    ensures old(path.size) > 0 ==> PointsAtOrOff(pool.nodes, levels, path.node, path.entry, pos', path.size, c + 1)
    ensures old(path.size) > 0 ==> r == EntryAt(levels, c + 1)
  {
    hide TreeOk, OnPath, Offset, Entries, Leads, UpperOk, KindOk, ExpandAll;
    pos' := pos;
    if path.size == 0 { return None, pos; }
    PointsStands(pool.nodes, levels, path.node, path.entry, pos, path.size, c);
    StandsAt(pool.nodes, root, levels, cap, path.node, path.entry, pos, path.size, c);
    var leafLevel := path.size - 1;
    var node, entry := path.node[leafLevel], path.entry[leafLevel];
    var keys, vals := pool.nodes[node].keys, pool.nodes[node].vals;
    if entry + 1 < |keys| {
      SameLeaf(pool.nodes, root, levels, cap, path.node, path.entry, pos, path.size, c, entry + 1);
      path.entry := path.entry[leafLevel := entry + 1];
      return Some((keys[entry + 1], vals[entry + 1])), pos;
    }
    PointsEntry(pool.nodes, levels, path.node, path.entry, pos, path.size, c);
    TargetAt(pool.nodes, levels[leafLevel], pos[leafLevel], entry + 1, false, cap);
    var next;
    next, pos' := path.NextNode(leafLevel, pool, root, levels[..leafLevel + 1], pos, cap);
    if next.Some? {
      LeafOnPath(pool.nodes, levels[..leafLevel + 1], path.node, path.entry, pos');
      FirstOfLeaf(pool.nodes, root, levels, cap, path.node, path.entry, pos', path.size);
      var nd := pool.nodes[next.value];
      return Some((nd.keys[0], nd.vals[0])), pos';
    }
    return None, pos';
  }

  function EntryAt(levels: seq<Level>, c: nat): Option<(Key, Val)> {
    if |levels| > 0 && c < |levels[|levels| - 1]| &&
      levels[|levels| - 1][c].Pair? then Some((levels[|levels| - 1][c].key, levels[|levels| - 1][c].val)) else None
  }

  lemma PointsEntry(nodes: Nodes, levels: seq<Level>, node: seq<Node>, entry: seq<nat>, pos: seq<nat>, size: nat,
      c: nat)
    requires PointsAt(nodes, levels, node, entry, pos, size, c)
    ensures 0 < size <= |node| == |entry| && node[size - 1] < |nodes| &&
      entry[size - 1] < Entries(nodes[node[size - 1]])
  {
    hide Offset, Entries;
  }

  /** The first entry of a leaf. */
  lemma {:induction false} FirstOfLeaf(nodes: Nodes, root: Node, levels: seq<Level>, cap: nat, node: seq<Node>,
      entry: seq<nat>, pos: seq<nat>, size: nat)
    requires TreeOk(nodes, root, levels, cap) && |levels| >= 2 && size == |levels| - 1 &&
      OnPath(nodes, levels[..size], node, entry, pos) && entry[size - 1] == 0
    ensures
      var c := Offset(nodes, levels[size - 1], pos[size - 1]);
      && node[size - 1] < |nodes| && nodes[node[size - 1]].Leaf? && |nodes[node[size - 1]].keys| > 0 &&
        |nodes[node[size - 1]].vals| > 0
      && PointsAt(nodes, levels, node, entry, pos, size, c)
      && EntryAt(levels, c) == Some((nodes[node[size - 1]].keys[0], nodes[node[size - 1]].vals[0]))
  {
    hide Offset, TreeOk, KindOk, UpperOk, ExpandAll, OnPath;
    LeafOnPath(nodes, levels[..size], node, entry, pos);
    NodeAscending(nodes, root, levels, cap, size - 1, pos[size - 1]);
    LeafEntry(nodes, root, levels, cap, pos[size - 1], 0);
  }

  // ---- moving backwards ----

  /** Moves to the last entry below item `p0` of level `level0`. */
  method GotoSubtreeLast(path: Path, pool: Pool, level0: nat, node0: Node, ghost root: Node, ghost levels: seq<Level>,
      ghost pos0: seq<nat>, ghost p0: nat, ghost cap: nat)
    returns (node: Node, ghost pos: seq<nat>)
    requires path.Valid() && TreeOk(pool.nodes, root, levels, cap) && |levels| - 1 <= MAX_PATH && level0 < MAX_PATH
    requires Descending(pool.nodes, levels, path.node[level0 := node0], path.entry, pos0, level0, p0)
    modifies path
    ensures path.Valid() && path.size > 0 && node == path.node[path.size - 1]
    ensures Start(pool.nodes, levels, level0, p0 + 1) > 0
    ensures PointsAt(pool.nodes, levels, path.node, path.entry, pos, path.size,
      Start(pool.nodes, levels, level0, p0 + 1) - 1)
  {
    hide TreeOk, Descending, OnPath, Offset, Entries, WellShaped, Ascending, Leads, Start;
    node, pos := node0, pos0;
    var l: nat := level0;
    ghost var p := p0;
    DescendingItem(pool.nodes, levels, path.node[level0 := node0], path.entry, pos0, level0, p0);
    while true
      invariant path.Valid() && l + 1 < |levels| && l < MAX_PATH
      invariant Descending(pool.nodes, levels, path.node[l := node], path.entry, pos, l, p)
      invariant Start(pool.nodes, levels, l, p + 1) == Start(pool.nodes, levels, level0, p0 + 1)
      decreases |levels| - l
    {
      path.node := path.node[l := node];
      DescendingItem(pool.nodes, levels, path.node, path.entry, pos, l, p);
      NodeAscending(pool.nodes, root, levels, cap, l, p);
      match pool.nodes[node] {
        case Inner(keys, tree) =>
          InnerHas(pool.nodes[node], cap);
          ChildAt(pool.nodes, root, levels, cap, l, p, |keys|);
          LastEntries(pool.nodes, root, levels, cap, l, p);
          ghost var node1, entry1, q := path.node, path.entry, Offset(pool.nodes, levels[l], p) + |keys|;
          path.entry := path.entry[l := |keys|];
          node := tree[|keys|];
          DescendOn(pool.nodes, levels, node1, entry1, pos, l, p, q, path.node[l + 1 := node], path.entry);
          l, p, pos := l + 1, q, pos + [q];
        case Leaf(keys, vals) =>
          LeafHas(pool.nodes[node], cap);
          LastEntries(pool.nodes, root, levels, cap, l, p);
          ghost var entry1 := path.entry;
          path.entry := path.entry[l := |keys| - 1];
          path.size := l + 1;
          DescentPoints(pool.nodes, levels, path.node, entry1, pos, l, p, path.entry);
          return;
      }
    }
  }

  /** The last entry below an item lies below the last entry of its node. */
  lemma {:induction false} LastEntries(nodes: Nodes, root: Node, levels: seq<Level>, cap: nat, l: nat, p: nat)
    requires TreeOk(nodes, root, levels, cap) && l + 1 < |levels| && p < |levels[l]| && levels[l][p].Edge? &&
      levels[l][p].node < |nodes|
    ensures Entries(nodes[levels[l][p].node]) > 0
    ensures Start(nodes, levels, l, p + 1) ==
      Start(nodes, levels, l + 1, Offset(nodes, levels[l], p) + Entries(nodes[levels[l][p].node]))
    ensures l + 2 == |levels| ==>
      Start(nodes, levels, l, p + 1) == Offset(nodes, levels[l], p) + Entries(nodes[levels[l][p].node])
  {
    hide ExpandAll, Offset, Distinct, KindOk, SepsOk, HalfOk, Sorted, Start, Entries;
    TreeLinks(nodes, root, levels, cap);
    assert LinkOk(nodes, levels, l, cap);
    StartStep(nodes, levels, l, p + 1);
    ExpandAround(nodes, levels[l], p);
    ItemSize(nodes, levels[l], p, l + 2 < |levels|, cap);
  }

  /** Below the branch level a path to the first entry of a leaf goes through first sub-trees. */
  lemma {:induction false} ZeroEntries(nodes: Nodes, levels: seq<Level>, node: seq<Node>, entry: seq<nat>,
      pos: seq<nat>, size: nat, c: nat, b: nat)
    requires Stands(nodes, levels, node, entry, pos, size, c) && b < size && forall l :: b <= l < size ==> entry[l] == 0
    ensures Start(nodes, levels, b, pos[b]) == c
    decreases size - b
  {
    hide Offset, Entries, Start;
    assert levels[..size][b] == levels[b];
    StartStep(nodes, levels, b, pos[b]);
    if b + 1 < size {
      ZeroEntries(nodes, levels, node, entry, pos, size, c, b + 1);
    }
  }

  /** The path to the branch that lies left of the one taken at level `b`. */
  lemma {:induction false} LeftTurn(nodes: Nodes, root: Node, levels: seq<Level>, cap: nat, node: seq<Node>,
      entry: seq<nat>, pos: seq<nat>, size: nat, c: nat, b: nat)
    requires TreeOk(nodes, root, levels, cap) && Stands(nodes, levels, node, entry, pos, size, c) && b + 1 < size &&
      entry[b] > 0
    ensures node[b] < |nodes| && nodes[node[b]].Inner? && entry[b] - 1 < |nodes[node[b]].tree| && |pos| == size &&
      pos[b + 1] > 0
    ensures
      Descending(nodes, levels, node[b + 1 := nodes[node[b]].tree[entry[b] - 1]], entry[b := entry[b] - 1],
        pos[..b + 1] + [pos[b + 1] - 1], b + 1, pos[b + 1] - 1)
  {
    hide Offset, Entries, ExpandAll, KindOk, HalfOk, SepsOk, Distinct, Sorted, Start;
    var lv: seq<Level> := levels[..size];
    assert lv[b] == levels[b] && lv[b + 1] == levels[b + 1];
    NodeAscending(nodes, root, levels, cap, b, pos[b]);
    TreeSize(nodes[node[b]], cap);
    ChildAt(nodes, root, levels, cap, b, pos[b], entry[b] - 1);
    assert Descending(nodes, levels, node, entry, pos[..b + 1], b, pos[b]) by {
      var up: seq<Level> := levels[..b + 1];
      assert forall l :: 0 <= l <= b ==> up[l] == lv[l];
    }
    DescendOn(nodes, levels, node, entry, pos[..b + 1], b, pos[b], pos[b + 1] - 1,
              node[b + 1 := nodes[node[b]].tree[entry[b] - 1]], entry[b := entry[b] - 1]);
  }

  lemma TreeSize(nd: NodeData, cap: nat)
    requires WellShaped(nd, cap) && nd.Inner?
    ensures Entries(nd) == |nd.tree|
  {
  }

  /** Moves to the previous entry: from off the end to the last one, and from the first one nowhere. */
  method Prev(path: Path, pool: Pool, root: Node, ghost levels: seq<Level>, ghost pos: seq<nat>, ghost c: nat,
      ghost cap: nat)
    returns (r: Option<(Key, Val)>, ghost pos': seq<nat>)
    requires path.Valid() && TreeOk(pool.nodes, root, levels, cap) && |levels| - 1 <= MAX_PATH
    requires path.size > 0 ==> Stands(pool.nodes, levels, path.node, path.entry, pos, path.size, c)
    modifies path
    ensures path.Valid()
    ensures
      var last := if old(path.size) == 0 then |levels[|levels| - 1]| else c;
      if last == 0
      then
        && r == None && path.size == old(path.size)
        && path.node == old(path.node) && path.entry == old(path.entry)
      else
        && r.Some? && r == EntryAt(levels, last - 1)
        && PointsAt(pool.nodes, levels, path.node, path.entry, pos', path.size, last - 1)
  {
    hide TreeOk, Descending, OnPath, Offset, Entries, Leads, Start, Stands, UpperOk, KindOk, ExpandAll, PointsAt;
    pos' := pos;
    if path.size == 0 {
      DescendFrom(pool.nodes, root, levels, cap, path.node[0 := root], path.entry);
      TreeLinks(pool.nodes, root, levels, cap);
      StartEnds(pool.nodes, levels, cap, 0);
      var last;
      last, pos' := GotoSubtreeLast(path, pool, 0, root, root, levels, [0], 0, cap);
      r := Current(path, pool, root, levels, pos', |levels[|levels| - 1]| - 1, cap);
      return;
    }
    StandsAt(pool.nodes, root, levels, cap, path.node, path.entry, pos, path.size, c);
    var leaf, entry := path.node[path.size - 1], path.entry[path.size - 1];
    if entry > 0 {
      SameLeaf(pool.nodes, root, levels, cap, path.node, path.entry, pos, path.size, c, entry - 1);
      path.entry := path.entry[path.size - 1 := entry - 1];
      return Some((pool.nodes[leaf].keys[entry - 1], pool.nodes[leaf].vals[entry - 1])), pos;
    }
    var bl := path.LeftSiblingBranchLevel(path.size - 1);
    if bl.None? {
      LeftBranchNone(pool.nodes, root, levels[..path.size], path.node, path.entry, pos, cap, path.size - 1);
      OffsetEnds(pool.nodes, levels[path.size - 1]);
      return None, pos;
    }
    var b := bl.value;
    LeftTurn(pool.nodes, root, levels, cap, path.node, path.entry, pos, path.size, c, b);
    ZeroEntries(pool.nodes, levels, path.node, path.entry, pos, path.size, c, b + 1);
    var child := pool.nodes[path.node[b]].tree[path.entry[b] - 1];
    path.entry := path.entry[b := path.entry[b] - 1];
    var prev;
    prev, pos' := GotoSubtreeLast(path, pool, b + 1, child, root, levels, pos[..b + 1] + [pos[b + 1] - 1],
      pos[b + 1] - 1, cap);
    r := Current(path, pool, root, levels, pos', c - 1, cap);
  }

  /** The entry a path points at. */
  method Current(path: Path, pool: Pool, ghost root: Node, ghost levels: seq<Level>, ghost pos: seq<nat>, ghost c: nat,
      ghost cap: nat) returns (r: Option<(Key, Val)>)
    requires path.Valid() && TreeOk(pool.nodes, root, levels, cap) &&
      PointsAt(pool.nodes, levels, path.node, path.entry, pos, path.size, c)
    ensures r.Some? && r == EntryAt(levels, c)
  {
    hide TreeOk, OnPath, Offset, Entries, Leads, Stands, UpperOk, KindOk, ExpandAll, PointsAt;
    PointsStands(pool.nodes, levels, path.node, path.entry, pos, path.size, c);
    StandsAt(pool.nodes, root, levels, cap, path.node, path.entry, pos, path.size, c);
    PointsEntry(pool.nodes, levels, path.node, path.entry, pos, path.size, c);
    SameLeaf(pool.nodes, root, levels, cap, path.node, path.entry, pos, path.size, c, path.entry[path.size - 1]);
    var nd, e := pool.nodes[path.node[path.size - 1]], path.entry[path.size - 1];
    return Some((nd.keys[e], nd.vals[e]));
  }

  /** Moves a path that stands behind the last entry of a leaf to the next leaf, or off the end. */
  method Normalize(path: Path, pool: Pool, ghost root: Node, ghost levels: seq<Level>, ghost pos: seq<nat>,
      ghost c: nat, ghost cap: nat)
    returns (ghost pos': seq<nat>)
    requires path.Valid()
    requires path.size > 0 ==>
      TreeOk(pool.nodes, root, levels, cap) && Stands(pool.nodes, levels, path.node, path.entry, pos, path.size, c)
    modifies path
    ensures path.Valid()
    ensures if old(path.size) == 0 then path.size == 0
      else PointsAtOrOff(pool.nodes, levels, path.node, path.entry, pos', path.size, c)
  {
    hide TreeOk, OnPath, Offset, Leads, UpperOk, KindOk, ExpandAll, Stands, PointsAt;
    pos' := pos;
    if path.size == 0 { return; }
    StandsAt(pool.nodes, root, levels, cap, path.node, path.entry, pos, path.size, c);
    var leafLevel := path.size - 1;
    TargetAt(pool.nodes, levels[leafLevel], pos[leafLevel], path.entry[leafLevel], false, cap);
    if path.entry[leafLevel] >= Entries(pool.nodes[path.node[leafLevel]]) {
      var next;
      next, pos' := path.NextNode(leafLevel, pool, root, levels[..leafLevel + 1], pos, cap);
      if next.Some? {
        FirstOfLeaf(pool.nodes, root, levels, cap, path.node, path.entry, pos', path.size);
      }
    } else {
      SameLeaf(pool.nodes, root, levels, cap, path.node, path.entry, pos, path.size, c, path.entry[leafLevel]);
      assert path.entry[leafLevel := path.entry[leafLevel]] == path.entry;
    }
  }

  // ---- positions are unique ----

  lemma {:induction false} SamePosition(nodes: Nodes, es: Level, inner: bool, cap: nat, p: nat, e: nat, p': nat,
      e': nat)
    requires KindOk(nodes, es, inner, cap) && p < |es| && p' < |es| && e < Entries(nodes[es[p].node]) &&
      e' < Entries(nodes[es[p'].node])
    requires Offset(nodes, es, p) + e == Offset(nodes, es, p') + e'
    ensures p == p' && e == e'
  {
    hide ExpandAll, KindOk, Offset, Entries;
    ItemSize(nodes, es, p, inner, cap);
    ItemSize(nodes, es, p', inner, cap);
    ExpandAround(nodes, es, p);
    ExpandAround(nodes, es, p');
    if p < p' { OffsetMonotone(nodes, es, p + 1, p'); } else if p' < p { OffsetMonotone(nodes, es, p' + 1, p); }
  }

  /** There is one path to each entry. */
  lemma {:induction false} PathUnique(nodes: Nodes, root: Node, levels: seq<Level>, cap: nat, size: nat, c: nat, l: nat,
      node: seq<Node>, entry: seq<nat>, pos: seq<nat>, node': seq<Node>, entry': seq<nat>, pos': seq<nat>)
    requires TreeOk(nodes, root, levels, cap) && l < size
    requires PointsAt(nodes, levels, node, entry, pos, size, c) && PointsAt(nodes, levels, node', entry', pos', size, c)
    ensures l < |node| == |entry| && l < |node'| == |entry'| && l < |pos| == |pos'| && node[l] == node'[l] &&
      entry[l] == entry'[l] && pos[l] == pos'[l]
    decreases size - l
  {
    hide Offset, Entries, ExpandAll, KindOk, HalfOk, Distinct, SepsOk, Sorted;
    TreeLinks(nodes, root, levels, cap);
    assert LinkOk(nodes, levels, l, cap);
    var lv: seq<Level> := levels[..size];
    assert lv[l] == levels[l];
    if l + 1 < size {
      PathUnique(nodes, root, levels, cap, size, c, l + 1, node, entry, pos, node', entry', pos');
      assert pos[l + 1] == Offset(nodes, lv[l], pos[l]) + entry[l] &&
        pos'[l + 1] == Offset(nodes, lv[l], pos'[l]) + entry'[l];
    }
    SamePosition(nodes, levels[l], l + 2 < |levels|, cap, pos[l], entry[l], pos'[l], entry'[l]);
  }

  /** Stepping forward, even off the end, and back again leads to where the path was. */
  method NextThenPrev(path: Path, pool: Pool, root: Node, ghost levels: seq<Level>, ghost pos: seq<nat>, ghost c: nat,
      ghost cap: nat) returns (r: Option<(Key, Val)>)
    requires path.Valid() && TreeOk(pool.nodes, root, levels, cap) && |levels| - 1 <= MAX_PATH
    requires PointsAt(pool.nodes, levels, path.node, path.entry, pos, path.size, c)
    modifies path
    ensures path.Valid() && path.size == old(path.size) && r == EntryAt(levels, c)
    ensures forall l :: 0 <= l < path.size ==> path.node[l] == old(path.node[l]) && path.entry[l] == old(path.entry[l])
  {
    hide TreeOk, Leads, OnPath, Offset, Entries, Stands;
    ghost var node0, entry0 := path.node, path.entry;
    PointsStands(pool.nodes, levels, path.node, path.entry, pos, path.size, c);
    PointsInside(pool.nodes, root, levels, cap, path.node, path.entry, pos, path.size, c);
    var next, prev;
    ghost var pos1, pos2;
    next, pos1 := Next(path, pool, root, levels, pos, c, cap);
    PointsStands(pool.nodes, levels, path.node, path.entry, pos1, path.size, c + 1);
    prev, pos2 := Prev(path, pool, root, levels, pos1, c + 1, cap);
    forall l | 0 <= l < path.size ensures path.node[l] == node0[l] && path.entry[l] == entry0[l] {
      PathUnique(pool.nodes, root, levels, cap, path.size, c, l, path.node, path.entry, pos2, node0, entry0, pos);
    }
    return prev;
  }

  lemma {:induction false} PointsInside(nodes: Nodes, root: Node, levels: seq<Level>, cap: nat, node: seq<Node>,
      entry: seq<nat>, pos: seq<nat>, size: nat, c: nat)
    requires TreeOk(nodes, root, levels, cap) && PointsAt(nodes, levels, node, entry, pos, size, c)
    ensures 0 < size == |levels| - 1 <= |entry| == |node| && c < |levels[size]|
  {
    hide TreeOk, Leads, OnPath, Offset, Entries;
    PointsStands(nodes, levels, node, entry, pos, size, c);
    PointsEntry(nodes, levels, node, entry, pos, size, c);
    SameLeaf(nodes, root, levels, cap, node, entry, pos, size, c, entry[size - 1]);
  }
}
