/** Iteration over a map, and forests of maps in one pool. */
module BForestIter {
  import opened Wrappers
  import opened BForestNode
  import opened BForestLevels
  import opened BForestPool
  import opened BForestCursor
  import opened BForestRemoval
  import opened BForestSearch
  import opened BForestFree
  import opened BForestMapCursor

  // ---- iteration ----

  /** `done` entries have been returned. A pending root means that the first entry is still to come. */
  ghost predicate IterAt(nodes: Nodes, pending: Option<Node>, top: Option<Node>, levels: seq<Level>, node: seq<Node>,
      entry: seq<nat>, pos: seq<nat>, size: nat, done: nat) {
    && done <= |ContentsOf(levels)|
    && if pending.Some? then done == 0 && pending == top
       else if top.None? then size == 0
       else done > 0 && if size > 0 then PointsAt(nodes, levels, node, entry, pos, size, done - 1)
         else done == |ContentsOf(levels)|
  }

  class MapIter {
    var root: Option<Node>
    const pool: Pool
    const path: Path
    ghost const top: Option<Node>
    ghost const levels: seq<Level>
    ghost const cap: nat
    ghost var pos: seq<nat>
    ghost var done: nat

    ghost predicate Valid()
      reads this, pool, path
    {
      && path.Valid() && MapOk(pool.nodes, top, levels, cap)
      && IterAt(pool.nodes, root, top, levels, path.node, path.entry, pos, path.size, done)
    }

    constructor (tree: Map, pool: Pool, ghost cap: nat)
      requires tree.Valid(pool.nodes, cap)
      ensures Valid() && this.pool == pool && levels == tree.levels && done == 0 && fresh(path)
    {
      root, top, levels, this.pool, this.cap := tree.root, tree.root, tree.levels, pool, cap;
      path := new Path();
      pos, done := [], 0;
    }

    /** Returns the entries one after the other, and then nothing, however often it is asked. */
    method Next() returns (r: Option<(Key, Val)>)
      requires Valid()
      modifies this, path
      ensures Valid() && r == EntryAt(levels, old(done)) && done == (if r.Some? then old(done) + 1 else old(done))
      ensures r.Some? <==> old(done) < |ContentsOf(levels)|
    {
      hide TreeOk, PointsAt;
      MapFacts(pool.nodes, top, levels, cap);
      match root {
        case Some(n) =>
          root := None;
          var e;
          e, pos := First(path, pool, n, levels, cap);
          PointsInside(pool.nodes, n, levels, cap, path.node, path.entry, pos, path.size, 0);
          r, done := Some(e), 1;
        case None =>
          ghost var on := path.size > 0;
          if on { PointsInside(pool.nodes, top.value, levels, cap, path.node, path.entry, pos, path.size, done - 1); }
          r, pos := BForestSearch.Next(path, pool, if top.Some? then top.value else 0, levels, pos,
            if done > 0 then done - 1 else 0, cap);
          if on {
            OnOrOff(pool.nodes, levels, path.node, path.entry, pos, path.size, done);
            if r.Some? { done := done + 1; }
          }
      }
    }
  }

  /** Iterating over a map yields every entry once, in strictly increasing order. */
  method Collect(tree: Map, pool: Pool, ghost cap: nat) returns (out: seq<(Key, Val)>)
    requires tree.Valid(pool.nodes, cap)
    ensures |out| == |tree.Contents()| && forall i :: 0 <= i < |out| ==> tree.Contents()[i] == Pair(out[i].0, out[i].1)
    ensures forall i, j :: 0 <= i < j < |out| ==> out[i].0 < out[j].0
  {
    hide MapOk, IterAt;
    MapFacts(pool.nodes, tree.root, tree.levels, cap);
    var iter := new MapIter(tree, pool, cap);
    out := [];
    var e := iter.Next();
    while e.Some?
      invariant iter.Valid() && fresh(iter) && fresh(iter.path) && iter.pool == pool && iter.levels == tree.levels
      invariant iter.done == if e.Some? then |out| + 1 else |out|
      invariant |out| <= |tree.Contents()| && e == EntryAt(tree.levels, |out|) &&
        (e.Some? <==> |out| < |tree.Contents()|)
      invariant forall i :: 0 <= i < |out| ==> tree.Contents()[i] == Pair(out[i].0, out[i].1)
      decreases |tree.Contents()| - |out|
    {
      out := out + [e.value];
      e := iter.Next();
    }
  }

  // ---- forests ----

  type Trees = seq<(Option<Node>, seq<Level>)>

  ghost predicate InForest(trees: Trees, n: Node) {
    exists i :: 0 <= i < |trees| && HasNode(trees[i].1, n)
  }

  /** The trees of a forest: proper maps that have no node in common, and together all nodes in use. */
  ghost predicate ForestOk(nodes: Nodes, trees: Trees, cap: nat) {
    && (forall i :: 0 <= i < |trees| ==> MapOk(nodes, trees[i].0, trees[i].1, cap))
    && (forall i, j :: 0 <= i < j < |trees| ==> Disjoint(trees[i].1, trees[j].1))
    && (forall n :: 0 <= n < |nodes| && !nodes[n].Free? ==> InForest(trees, n))
  }

  /** Whatever is done to one map, all maps of the forest are still proper and disjoint; the others have
      the contents they had; and no node is lost. */
  lemma {:induction false} ForestStep(nodes: Nodes, nodes': Nodes, trees: Trees, i: nat, root': Option<Node>,
      levels': seq<Level>, cap: nat)
    requires ForestOk(nodes, trees, cap) && i < |trees| && Footprint(nodes, nodes', trees[i].1, levels') &&
      MapOk(nodes', root', levels', cap)
    ensures ForestOk(nodes', trees[i := (root', levels')], cap)
  {
    hide Footprint, TreeOk, HasNode;
    var trees' := trees[i := (root', levels')];
    forall j | 0 <= j < |trees| && j != i ensures MapOk(nodes', trees[j].0, trees[j].1, cap) &&
      Disjoint(levels', trees[j].1) && Disjoint(trees[j].1, levels') {
      assert Disjoint(trees[i].1, trees[j].1) by {
        if i < j { assert Disjoint(trees[i].1, trees[j].1); } else { assert Disjoint(trees[j].1, trees[i].1); }
      }
      assert MapOk(nodes, trees[j].0, trees[j].1, cap);
      if trees[j].0.Some? {
        OthersSurvive(nodes, nodes', trees[i].1, levels', trees[j].0.value, trees[j].1, cap);
      } else {
        forall n: Node ensures !HasNode([], n) { EmptyHas(n); }
      }
    }
    forall n | 0 <= n < |nodes'| && !nodes'[n].Free? ensures InForest(trees', n) {
      StillOwned(nodes, nodes', trees, i, root', levels', n);
    }
  }

  lemma {:induction false} StillOwned(nodes: Nodes, nodes': Nodes, trees: Trees, i: nat, root': Option<Node>,
      levels': seq<Level>, n: Node)
    requires i < |trees| && Footprint(nodes, nodes', trees[i].1, levels') && n < |nodes'| && !nodes'[n].Free?
    requires n < |nodes| && !nodes[n].Free? ==> InForest(trees, n)
    ensures InForest(trees[i := (root', levels')], n)
  {
    hide HasNode;
    var trees' := trees[i := (root', levels')];
    if HasNode(levels', n) {
      assert trees'[i].1 == levels';
    } else {
      var j :| 0 <= j < |trees| && HasNode(trees[j].1, n);
      assert trees'[j] == trees[j];
    }
  }

  /** A new pool, with any number of empty maps. */
  lemma NewForest(trees: Trees, cap: nat)
    requires cap >= 7 && forall i :: 0 <= i < |trees| ==> trees[i] == (None, [])
    ensures ForestOk([], trees, cap)
  {
  }

  /** No tree of a forest reaches a free node, and no node belongs to two trees. */
  lemma {:induction false} ForestLive(nodes: Nodes, trees: Trees, cap: nat, i: nat, j: nat, n: Node)
    requires ForestOk(nodes, trees, cap) && i < |trees| && HasNode(trees[i].1, n)
    ensures n < |nodes| && !nodes[n].Free? && (j < |trees| && HasNode(trees[j].1, n) ==> i == j)
  {
    hide TreeOk, HasNode;
    assert MapOk(nodes, trees[i].0, trees[i].1, cap);
    if trees[i].0.None? { EmptyHas(n); } else { TreeLive(nodes, trees[i].0.value, trees[i].1, cap, n); }
    if j < i {
      assert Disjoint(trees[j].1, trees[i].1);
    } else if i < j < |trees| {
      assert Disjoint(trees[i].1, trees[j].1);
    }
  }
}
