/** The path of a cursor: the operations that only look at the tree, and those that move along it. */
module BForestCursor {
  import opened Wrappers
  import opened BForestNode
  import opened BForestLevels
  import opened BForestPath
  import opened BForestEdit
  import opened BForestPool

  /** Outside of levels `lv`, nothing has changed. */
  ghost predicate OnlyWithin(nodes: Nodes, nodes': Nodes, lv: seq<Level>) {
    |nodes'| == |nodes| && forall n :: 0 <= n < |nodes| && !HasNode(lv, n) ==> nodes'[n] == nodes[n]
  }

  /** The same nodes in the same places, possibly with other bounds. */
  ghost predicate SameNodes(lv: seq<Level>, lv': seq<Level>) {
    |lv'| == |lv| && forall l :: 0 <= l < |lv| ==> SameItems(lv[l], lv'[l])
  }

  ghost predicate SameItems(es: Level, es': Level) {
    |es'| == |es| && forall j :: 0 <= j < |es| ==> es[j].Edge? && es'[j].Edge? && es'[j].node == es[j].node
  }

  lemma {:induction false} OnPathHasNode(nodes: Nodes, lv: seq<Level>, node: seq<Node>, entry: seq<nat>, pos: seq<nat>,
      b: nat)
    requires OnPath(nodes, lv, node, entry, pos) && b < |lv| - 1
    ensures HasNode(lv[..|lv| - 1], node[b])
  {
    hide Offset, Entries;
    var up: seq<Level> := lv[..|lv| - 1];
    assert up[b][pos[b]].Edge? && up[b][pos[b]].node == node[b];
  }

  /** Changing key `i` of the node on the path at level `b` moves the bounds of the items `q`. */
  lemma {:induction false} RaiseKey(nodes: Nodes, root: Node, lv: seq<Level>, cap: nat, node: seq<Node>,
      entry: seq<nat>, pos: seq<nat>, b: nat, i: nat, q: seq<nat>, k: Key)
    requires PrefixOk(nodes, root, lv, cap) && OnPath(nodes, lv, node, entry, pos)
    requires b < |lv| - 1 && node[b] < |nodes| && nodes[node[b]].Inner? && i < |nodes[node[b]].keys|
    requires LastChain(nodes, lv, b, pos[b], i, q)
    ensures
      var nodes', lv' := WithKey(nodes, node[b], i, k), Raised(lv, b, q, k);
      && PrefixOk(nodes', root, lv', cap) && OnPath(nodes', lv', node, entry, pos)
      && OnlyWithin(nodes, nodes', lv[..|lv| - 1]) && SameNodes(lv, lv')
      && lv'[|lv| - 1] == SetUpper(lv[|lv| - 1], q[|lv| - 1], Some(k))
  {
    hide ExpandAll, Offset, KindOk, Entries, Chain, Distinct, HalfOk, HasNode, PrefixOk;
    ChangeKey(nodes, root, lv, cap, b, pos[b], i, q, k);
    ChangeKeyOnPath(nodes, root, lv, cap, b, pos[b], i, q, k, node, entry, pos);
    OnPathHasNode(nodes, lv, node, entry, pos, b);
    RaisedSame(nodes, root, lv, cap, b, q, k);
  }

  lemma {:induction false} RaisedSame(nodes: Nodes, root: Node, lv: seq<Level>, cap: nat, b: nat, q: seq<nat>, k: Key)
    requires PrefixOk(nodes, root, lv, cap)
    requires |q| == |lv| && forall l :: b < l < |lv| ==> q[l] < |lv[l]| && lv[l][q[l]].Edge?
    ensures SameNodes(lv, Raised(lv, b, q, k))
  {
    hide ExpandAll, KindOk, Chain, Distinct, HalfOk;
    forall l | 0 <= l < |lv| ensures SameItems(lv[l], Raised(lv, b, q, k)[l]) {
      AllEdgesAt(nodes, root, lv, cap, l);
    }
  }

  lemma {:induction false} RaiseAlong(nodes: Nodes, root: Node, lv: seq<Level>, cap: nat, node: seq<Node>,
      entry: seq<nat>, pos: seq<nat>, b: nat, i: nat, q: seq<nat>, k: Key)
    returns (lv': seq<Level>)
    requires PrefixOk(nodes, root, lv, cap) && OnPath(nodes, lv, node, entry, pos)
    requires b < |lv| - 1 && node[b] < |nodes| && nodes[node[b]].Inner? && i < |nodes[node[b]].keys|
    requires LastChain(nodes, lv, b, pos[b], i, q)
    ensures |q| == |lv| && q[|lv| - 1] < |lv[|lv| - 1]| && lv[|lv| - 1][q[|lv| - 1]].Edge?
    ensures
      var nodes' := WithKey(nodes, node[b], i, k);
      && PrefixOk(nodes', root, lv', cap) && OnPath(nodes', lv', node, entry, pos)
      && OnlyWithin(nodes, nodes', lv[..|lv| - 1]) && SameNodes(lv, lv')
      && lv'[|lv| - 1] == SetUpper(lv[|lv| - 1], q[|lv| - 1], Some(k))
  {
    hide PrefixOk, OnPath, Offset, OnlyWithin, SameNodes, WithKey, SetUpper;
    RaiseKey(nodes, root, lv, cap, node, entry, pos, b, i, q, k);
    lv' := Raised(lv, b, q, k);
  }

  /** Changing the key left of the path at the branch level moves the bound of the items just left of the path. */
  lemma {:induction false} RaiseLeft(nodes: Nodes, root: Node, lv: seq<Level>, cap: nat, node: seq<Node>,
      entry: seq<nat>, pos: seq<nat>, b: nat, k: Key)
    returns (lv': seq<Level>)
    requires PrefixOk(nodes, root, lv, cap) && OnPath(nodes, lv, node, entry, pos) &&
      LeftBranch(entry, |lv| - 1, Some(b))
    ensures node[b] < |nodes| && nodes[node[b]].Inner? && entry[b] - 1 < |nodes[node[b]].keys|
    ensures
      var nodes' := WithKey(nodes, node[b], entry[b] - 1, k);
      && PrefixOk(nodes', root, lv', cap) && OnPath(nodes', lv', node, entry, pos)
      && OnlyWithin(nodes, nodes', lv[..|lv| - 1]) && SameNodes(lv, lv')
      && pos[|lv| - 1] > 0 && lv[|lv| - 1][pos[|lv| - 1] - 1].Edge?
      && lv'[|lv| - 1] == SetUpper(lv[|lv| - 1], pos[|lv| - 1] - 1, Some(k))
  {
    hide Distinct, HalfOk, LastChain, UpperOk, OnPath, OnlyWithin, SameNodes, WithKey;
    LeftLink(nodes, root, lv, cap, node, entry, pos, b, |lv| - 1);
    LeftBranchSome(nodes, root, lv, node, entry, pos, cap, b, |lv| - 1);
    LeftLastChain(nodes, root, lv, cap, node, entry, pos, b);
    lv' := RaiseAlong(nodes, root, lv, cap, node, entry, pos, b, entry[b] - 1, LeftOf(pos, b), k);
  }

  lemma LeafOnPath(nodes: Nodes, lv: seq<Level>, node: seq<Node>, entry: seq<nat>, pos: seq<nat>)
    requires OnPath(nodes, lv, node, entry, pos)
    ensures 0 < |lv| == |pos| <= |node| == |entry| && pos[|lv| - 1] < |lv[|lv| - 1]| &&
      lv[|lv| - 1][pos[|lv| - 1]].Edge?
    ensures lv[|lv| - 1][pos[|lv| - 1]].node == node[|lv| - 1] && pos[0] == 0
  {
    hide Offset, Entries;
  }

  lemma {:induction false} NothingChanged(nodes: Nodes, root: Node, lv: seq<Level>, cap: nat)
    requires PrefixOk(nodes, root, lv, cap)
    ensures OnlyWithin(nodes, nodes, lv[..|lv| - 1]) && SameNodes(lv, lv)
  {
    hide PrefixOk, SameNodes, HasNode;
    SameNodesSelf(nodes, root, lv, cap);
  }

  /** The positions one item further to the right below level `b`. */
  ghost function RightOf(pos: seq<nat>, b: nat): (q: seq<nat>)
    ensures |q| == |pos| && forall l :: 0 <= l < |pos| ==> q[l] == if l <= b then pos[l] else pos[l] + 1
  {
    seq(|pos|, l requires 0 <= l < |pos| => if l <= b then pos[l] else pos[l] + 1)
  }

  /** Stepping to the next sub-tree at the branch level and then down through first sub-trees. */
  lemma {:induction false} NextOnPath(nodes: Nodes, root: Node, lv: seq<Level>, cap: nat, node: seq<Node>,
      entry: seq<nat>, pos: seq<nat>, b: nat, node': seq<Node>, entry': seq<nat>)
    requires UpperOk(nodes, root, lv, cap) && OnPath(nodes, lv, node, entry, pos)
    requires RightBranch(nodes, node, entry, |lv| - 1, Some(b)) && |node'| == |entry'| == |node|
    requires forall l :: 0 <= l <= b ==> node'[l] == node[l]
    requires forall l :: 0 <= l < b ==> entry'[l] == entry[l]
    requires entry'[b] == entry[b] + 1
    requires forall l :: b < l < |lv| ==> RightNode(lv, pos, l, node'[l]) && entry'[l] == 0
    ensures OnPath(nodes, lv, node', entry', RightOf(pos, b))
  {
    hide ExpandAll, Offset, KindOk, Chain, Entries;
    forall l | 0 <= l < |lv| - 1 ensures
      && node'[l] < |nodes| && entry'[l] < Entries(nodes[node'[l]])
      && RightOf(pos, b)[l + 1] == Offset(nodes, lv[l], RightOf(pos, b)[l]) + entry'[l]
    {
      EntryInRange(nodes, root, lv, node, entry, pos, cap, l);
      RightNeighbour(nodes, root, lv, node, entry, pos, cap, l);
      InnerEntries(nodes, root, lv, cap, l);
    }
    forall l | 0 <= l < |lv| ensures
      RightOf(pos, b)[l] < |lv[l]| && lv[l][RightOf(pos, b)[l]].Edge? && lv[l][RightOf(pos, b)[l]].node == node'[l]
    {
      assert b < l ==> RightNode(lv, pos, l, node'[l]);
    }
  }

  /** `n` is the node right of the path at level `l`. */
  ghost predicate RightNode(lv: seq<Level>, pos: seq<nat>, l: nat, n: Node) {
    l < |lv| == |pos| && pos[l] + 1 < |lv[l]| && lv[l][pos[l] + 1].Edge? && lv[l][pos[l] + 1].node == n
  }

  /** The node right of the path is the next sub-tree of the branch node, or the first sub-tree of the
      node right of the path one level up. */
  lemma {:induction false} RightNodeDown(nodes: Nodes, root: Node, lv: seq<Level>, cap: nat, node: seq<Node>,
      entry: seq<nat>, pos: seq<nat>, b: nat, l: nat, n: Node)
    requires UpperOk(nodes, root, lv, cap) && OnPath(nodes, lv, node, entry, pos) && b < l < |lv| - 1
    requires RightBranch(nodes, node, entry, |lv| - 1, Some(b)) && RightNode(lv, pos, l, n)
    ensures n < |nodes| && nodes[n].Inner? && |nodes[n].tree| > 0 && RightNode(lv, pos, l + 1, nodes[n].tree[0])
  {
    hide ExpandAll, Offset, KindOk, Chain, Entries;
    RightBranchSome(nodes, root, lv, node, entry, pos, cap, b, l + 1);
    EntryInRange(nodes, root, lv, node, entry, pos, cap, l);
    RightNeighbour(nodes, root, lv, node, entry, pos, cap, l);
  }

  lemma {:induction false} RightNodeFirst(nodes: Nodes, root: Node, lv: seq<Level>, cap: nat, node: seq<Node>,
      entry: seq<nat>, pos: seq<nat>, b: nat)
    requires UpperOk(nodes, root, lv, cap) && OnPath(nodes, lv, node, entry, pos)
    requires RightBranch(nodes, node, entry, |lv| - 1, Some(b))
    ensures entry[b] + 1 < |nodes[node[b]].tree| && RightNode(lv, pos, b + 1, nodes[node[b]].tree[entry[b] + 1])
  {
    hide ExpandAll, Offset, KindOk, Chain, Entries;
    RightBranchSome(nodes, root, lv, node, entry, pos, cap, b, b + 1);
  }

  lemma RightNodeRange(lv: seq<Level>, pos: seq<nat>, l: nat, n: Node)
    requires RightNode(lv, pos, l, n)
    ensures pos[l] + 1 < |lv[l]|
  {
  }

  lemma {:induction false} BranchFacts(nodes: Nodes, root: Node, lv: seq<Level>, cap: nat, node: seq<Node>,
      entry: seq<nat>, pos: seq<nat>, b: nat)
    requires UpperOk(nodes, root, lv, cap) && OnPath(nodes, lv, node, entry, pos)
    requires RightBranch(nodes, node, entry, |lv| - 1, Some(b))
    ensures b < |lv| - 1 && |pos| == |lv| <= |node| == |entry|
    ensures node[b] < |nodes| && nodes[node[b]].Inner? && entry[b] + 1 < |nodes[node[b]].tree|
    ensures RightNode(lv, pos, b + 1, nodes[node[b]].tree[entry[b] + 1])
  {
    hide ExpandAll, Offset, KindOk, Chain, Entries;
    RightNodeFirst(nodes, root, lv, cap, node, entry, pos, b);
  }

  lemma InnerEntries(nodes: Nodes, root: Node, lv: seq<Level>, cap: nat, l: nat)
    requires UpperOk(nodes, root, lv, cap) && l < |lv| - 1
    ensures forall j :: 0 <= j < |lv[l]| ==>
      lv[l][j].Edge? && lv[l][j].node < |nodes| && nodes[lv[l][j].node].Inner? &&
      Entries(nodes[lv[l][j].node]) == |nodes[lv[l][j].node].tree| > 0
  {
    hide Chain, ExpandAll;
    assert KindOk(nodes, lv[l], true, cap);
  }

  class Path {
    var size: nat
    var node: seq<Node>
    var entry: seq<nat>

    ghost predicate Valid()
      reads this
    {
      |node| == |entry| == MAX_PATH && size <= MAX_PATH
    }

    constructor ()
      ensures Valid() && size == 0
    {
      size, node, entry := 0, seq(MAX_PATH, _ => 0), seq(MAX_PATH, _ => 0);
    }

    /** The deepest level above `level` where a right sibling branches off. */
    method RightSiblingBranchLevel(level: nat, pool: Pool) returns (bl: Option<nat>)
      requires Valid() && level <= MAX_PATH
      requires forall l :: 0 <= l < level ==> node[l] < |pool.nodes| && pool.nodes[node[l]].Inner?
      ensures RightBranch(pool.nodes, node, entry, level, bl)
    {
      var l: nat := level;
      while l > 0
        invariant l <= level
        invariant forall i :: l <= i < level ==> entry[i] >= |pool.nodes[node[i]].keys|
      {
        l := l - 1;
        if entry[l] < |pool.nodes[node[l]].keys| { return Some(l); }
      }
      return None;
    }

    method LeftSiblingBranchLevel(level: nat) returns (bl: Option<nat>)
      requires Valid() && level <= MAX_PATH
      ensures LeftBranch(entry, level, bl)
    {
      var l: nat := level;
      while l > 0
        invariant l <= level
        invariant forall i :: l <= i < level ==> entry[i] == 0
      {
        l := l - 1;
        if entry[l] != 0 { return Some(l); }
      }
      return None;
    }

    /** The next node on the level, with the critical key in between; none for the rightmost node. */
    method RightSibling(level: nat, pool: Pool, ghost root: Node, ghost lv: seq<Level>, ghost pos: seq<nat>,
        ghost cap: nat)
      returns (r: Option<(Key, Node)>)
      requires Valid() && level < MAX_PATH && |lv| == level + 1
      requires UpperOk(pool.nodes, root, lv, cap) && OnPath(pool.nodes, lv, node, entry, pos)
      ensures r.None? <==> pos[level] + 1 == |lv[level]|
      ensures r.Some? ==>
        && pos[level] + 1 < |lv[level]| && lv[level][pos[level]].upper == Some(r.value.0)
        && lv[level][pos[level] + 1].Edge? && lv[level][pos[level] + 1].node == r.value.1
    {
      hide ExpandAll, Offset, KindOk, Entries, Chain;
      InnerOnPath(pool.nodes, root, lv, node, entry, pos, cap);
      var bl := RightSiblingBranchLevel(level, pool);
      if bl.None? {
        RightBranchNone(pool.nodes, root, lv, node, entry, pos, cap, level);
        return None;
      }
      var b := bl.value;
      RightBranchSome(pool.nodes, root, lv, node, entry, pos, cap, b, b + 1);
      var critKey := pool.nodes[node[b]].keys[entry[b]];
      var n := pool.nodes[node[b]].tree[entry[b] + 1];
      var l := b + 1;
      while l < level
        invariant b < l <= level
        invariant pos[l] + 1 < |lv[l]| && lv[l][pos[l] + 1].Edge? && lv[l][pos[l] + 1].node == n
      {
        RightBranchSome(pool.nodes, root, lv, node, entry, pos, cap, b, l + 1);
        EntryInRange(pool.nodes, root, lv, node, entry, pos, cap, l);
        RightNeighbour(pool.nodes, root, lv, node, entry, pos, cap, l);
        n := pool.nodes[n].tree[0];
        l := l + 1;
      }
      RightBranchSome(pool.nodes, root, lv, node, entry, pos, cap, b, level);
      return Some((critKey, n));
    }

    /** The critical key of the node on the path; the leftmost node has none. */
    method CurrentCritKey(level: nat, pool: Pool, ghost root: Node, ghost lv: seq<Level>, ghost pos: seq<nat>,
        ghost cap: nat)
      returns (k: Option<Key>)
      requires Valid() && level < MAX_PATH && |lv| == level + 1
      requires UpperOk(pool.nodes, root, lv, cap) && OnPath(pool.nodes, lv, node, entry, pos)
      ensures k.None? <==> pos[level] == 0
      ensures k.Some? ==> pos[level] > 0 && lv[level][pos[level] - 1].Edge? && lv[level][pos[level] - 1].upper == k
    {
      hide ExpandAll, Offset, KindOk, Entries, Chain;
      var bl := LeftSiblingBranchLevel(level);
      if bl.None? {
        LeftBranchNone(pool.nodes, root, lv, node, entry, pos, cap, level);
        return None;
      }
      LeftBranchSome(pool.nodes, root, lv, node, entry, pos, cap, bl.value, level);
      return Some(pool.nodes[node[bl.value]].keys[entry[bl.value] - 1]);
    }

    /** Moves the path to the first entry of the next node at `level`, or off the end if there is none. */
    method NextNode(level: nat, pool: Pool, ghost root: Node, ghost lv: seq<Level>, ghost pos: seq<nat>, ghost cap: nat)
      returns (r: Option<Node>, ghost pos': seq<nat>)
      requires Valid() && level < MAX_PATH && |lv| == level + 1
      requires UpperOk(pool.nodes, root, lv, cap) && OnPath(pool.nodes, lv, node, entry, pos)
      modifies this
      ensures Valid() && node[0] == old(node[0])
      ensures forall l :: level < l < MAX_PATH ==> node[l] == old(node[l]) && entry[l] == old(entry[l])
      ensures r.None? <==> pos[level] + 1 == |lv[level]|
      ensures r.None? ==> size == 0 && node == old(node)
      ensures r.Some? ==>
        && size == old(size) && OnPath(pool.nodes, lv, node, entry, pos')
        && pos'[level] == pos[level] + 1 && node[level] == r.value && entry[level] == 0
    {
      hide UpperOk, OnPath, RightNode, RightBranch;
      InnerOnPath(pool.nodes, root, lv, node, entry, pos, cap);
      var bl := RightSiblingBranchLevel(level, pool);
      pos' := pos;
      if bl.None? {
        RightBranchNone(pool.nodes, root, lv, node, entry, pos, cap, level);
        size := 0;
        return None, pos;
      }
      var b := bl.value;
      BranchFacts(pool.nodes, root, lv, cap, node, entry, pos, b);
      var node0, entry0 := node, entry;
      var nodes', entries' := node, entry[b := entry[b] + 1];
      var n := pool.nodes[node[b]].tree[entries'[b]];
      var l := b + 1;
      while l < level
        invariant b < l <= level && RightNode(lv, pos, l, n) && size == old(size)
        invariant |nodes'| == |entries'| == MAX_PATH
        invariant forall i :: (0 <= i <= b || l <= i < MAX_PATH) ==> nodes'[i] == node0[i]
        invariant forall i :: (0 <= i < b || l <= i < MAX_PATH) ==> entries'[i] == entry0[i]
        invariant entries'[b] == entry0[b] + 1
        invariant forall i :: b < i < l ==> RightNode(lv, pos, i, nodes'[i]) && entries'[i] == 0
      {
        RightNodeDown(pool.nodes, root, lv, cap, node0, entry0, pos, b, l, n);
        nodes', entries' := nodes'[l := n], entries'[l := 0];
        n := pool.nodes[n].tree[0];
        l := l + 1;
      }
      nodes', entries' := nodes'[level := n], entries'[level := 0];
      NextOnPath(pool.nodes, root, lv, cap, node0, entry0, pos, b, nodes', entries');
      node, entry := nodes', entries';
      assert pos[level] + 1 < |lv[level]| by { RightNodeRange(lv, pos, level, n); }
      return Some(n), RightOf(pos, b);
    }

    /** Sets the critical key between the node on the path and its right sibling. */
    method UpdateRightCritKey(level: nat, critKey: Key, pool: Pool, ghost root: Node, ghost lv: seq<Level>,
        ghost pos: seq<nat>, ghost cap: nat)
      returns (ghost lv': seq<Level>)
      requires Valid() && pool.Valid() && level < MAX_PATH && |lv| == level + 1
      requires PrefixOk(pool.nodes, root, lv, cap) && OnPath(pool.nodes, lv, node, entry, pos) &&
        pos[level] + 1 < |lv[level]|
      modifies pool`nodes
      ensures pool.Valid() && PrefixOk(pool.nodes, root, lv', cap) && OnPath(pool.nodes, lv', node, entry, pos)
      ensures OnlyWithin(old(pool.nodes), pool.nodes, lv[..level]) && SameNodes(lv, lv')
      ensures lv'[level] == SetUpper(lv[level], pos[level], Some(critKey))
    {
      hide PoolOk, NextFree, ExpandAll, Offset, KindOk, Entries, Chain, Distinct, HalfOk;
      InnerOnPath(pool.nodes, root, lv, node, entry, pos, cap);
      var bl := RightSiblingBranchLevel(level, pool);
      if bl.None? { RightBranchNone(pool.nodes, root, lv, node, entry, pos, cap, level); }
      var b := bl.value;
      RightLastChain(pool.nodes, root, lv, cap, node, entry, pos, b);
      RaiseKey(pool.nodes, root, lv, cap, node, entry, pos, b, entry[b], pos, critKey);
      lv' := Raised(lv, b, pos, critKey);
      pool.SetNode(node[b], Inner(pool.nodes[node[b]].keys[entry[b] := critKey], pool.nodes[node[b]].tree));
    }

    /** Sets the critical key of the leaf on the path to its first key. */
    method UpdateCritKey(pool: Pool, ghost root: Node, ghost lv: seq<Level>, ghost pos: seq<nat>, ghost cap: nat)
      returns (ghost lv': seq<Level>)
      requires Valid() && pool.Valid() && size > 0 && |lv| == size
      requires PrefixOk(pool.nodes, root, lv, cap) && OnPath(pool.nodes, lv, node, entry, pos)
      requires pool.nodes[node[size - 1]].Leaf? && |pool.nodes[node[size - 1]].keys| > 0
      modifies pool`nodes
      ensures pool.Valid() && PrefixOk(pool.nodes, root, lv', cap) && OnPath(pool.nodes, lv', node, entry, pos)
      ensures OnlyWithin(old(pool.nodes), pool.nodes, lv[..size - 1]) && SameNodes(lv, lv')
      ensures pos[size - 1] == 0 ==> lv' == lv
      ensures pos[size - 1] > 0 ==>
        && lv[size - 1][pos[size - 1] - 1].Edge?
        && lv'[size - 1] == SetUpper(lv[size - 1], pos[size - 1] - 1, Some(old(pool.nodes)[node[size - 1]].keys[0]))
    {
      hide PoolOk, NextFree, ExpandAll, KindOk, UpperOk, HalfOk, Distinct, OnPath, OnlyWithin, SameNodes;
      LeafOnPath(pool.nodes, lv, node, entry, pos);
      var level := size - 1;
      var bl := LeftSiblingBranchLevel(level);
      if bl.None? {
        LeftBranchNone(pool.nodes, root, lv, node, entry, pos, cap, level);
        NothingChanged(pool.nodes, root, lv, cap);
        return lv;
      }
      var b := bl.value;
      var critKey := pool.nodes[node[level]].keys[0];
      lv' := RaiseLeft(pool.nodes, root, lv, cap, node, entry, pos, b, critKey);
      pool.SetNode(node[b], Inner(pool.nodes[node[b]].keys[entry[b] - 1 := critKey], pool.nodes[node[b]].tree));
    }
  }

  lemma {:induction false} InnerOnPath(nodes: Nodes, root: Node, lv: seq<Level>, node: seq<Node>, entry: seq<nat>,
      pos: seq<nat>, cap: nat)
    requires UpperOk(nodes, root, lv, cap) && OnPath(nodes, lv, node, entry, pos)
    ensures forall l :: 0 <= l < |lv| - 1 ==>
      node[l] < |nodes| && nodes[node[l]].Inner? && entry[l] <= |nodes[node[l]].keys|
  {
    hide ExpandAll, Offset, KindOk, Entries, Chain;
    forall l | 0 <= l < |lv| - 1 ensures node[l] < |nodes| && nodes[node[l]].Inner? &&
      entry[l] <= |nodes[node[l]].keys| {
      EntryInRange(nodes, root, lv, node, entry, pos, cap, l);
    }
  }

  lemma {:induction false} SameNodesSelf(nodes: Nodes, root: Node, lv: seq<Level>, cap: nat)
    requires PrefixOk(nodes, root, lv, cap)
    ensures SameNodes(lv, lv)
  {
    hide ExpandAll, KindOk, Chain, Distinct, HalfOk;
    forall l | 0 <= l < |lv| ensures SameItems(lv[l], lv[l]) {
      AllEdgesAt(nodes, root, lv, cap, l);
    }
  }
}
