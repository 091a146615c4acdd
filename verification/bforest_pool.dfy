/** The pool all trees of a forest allocate their nodes from, with its intrusive free list. */
module BForestPool {
  import opened Wrappers
  import opened BForestNode
  import opened BForestLevels

  function NextFree(free: seq<Node>, i: nat): Option<Node> {
    if i + 1 < |free| then Some(free[i + 1]) else None
  }

  /** `free` lists the free nodes in the order of the list that runs through them. */
  ghost predicate PoolOk(nodes: Nodes, freelist: Option<Node>, free: seq<Node>) {
    && freelist == (if free == [] then None else Some(free[0]))
    && (forall i :: 0 <= i < |free| ==>
      free[i] < |nodes| && nodes[free[i]] == Free(NextFree(free, i)))
    && (forall i, j :: 0 <= i < j < |free| ==> free[i] != free[j])
    && (forall n :: 0 <= n < |nodes| && nodes[n].Free? ==> n in free)
  }

  lemma {:induction false} PushFree(nodes: Nodes, freelist: Option<Node>, free: seq<Node>, n: Node)
    requires PoolOk(nodes, freelist, free) && n < |nodes| && !nodes[n].Free?
    ensures PoolOk(nodes[n := Free(freelist)], Some(n), [n] + free)
  {
    var nodes', free' := nodes[n := Free(freelist)], [n] + free;
    assert n !in free;
    forall i | 0 <= i < |free'| ensures free'[i] < |nodes'| && nodes'[free'[i]] == Free(NextFree(free', i)) {
      if i > 0 {
        assert free'[i] == free[i - 1] && NextFree(free', i) == NextFree(free, i - 1);
      }
    }
    forall m | 0 <= m < |nodes'| && nodes'[m].Free? ensures m in free' {
      if m != n { assert nodes[m].Free? && m in free; }
    }
  }

  lemma {:induction false} PopFree(nodes: Nodes, freelist: Option<Node>, free: seq<Node>, data: NodeData)
    requires PoolOk(nodes, freelist, free) && freelist.Some? && !data.Free?
    ensures freelist.value < |nodes| && nodes[freelist.value].Free?
    ensures PoolOk(nodes[freelist.value := data], nodes[freelist.value].next, free[1..])
  {
    var n := free[0];
    assert nodes[n] == Free(NextFree(free, 0));
    var nodes', free' := nodes[n := data], free[1..];
    forall i | 0 <= i < |free'| ensures free'[i] < |nodes'| && nodes'[free'[i]] == Free(NextFree(free', i)) {
      assert free'[i] == free[i + 1] && NextFree(free', i) == NextFree(free, i + 1);
    }
    forall m | 0 <= m < |nodes'| && nodes'[m].Free? ensures m in free' {
      assert m in free;
    }
  }

  class Pool {
    var nodes: Nodes
    var freelist: Option<Node>
    ghost var free: seq<Node>

    ghost predicate Valid()
      reads this
    {
      PoolOk(nodes, freelist, free)
    }

    constructor ()
      ensures Valid() && nodes == []
    {
      nodes, freelist, free := [], None, [];
    }

    /** Invalidates all trees of the forest at once. */
    method Clear()
      modifies this
      ensures Valid() && nodes == []
    {
      nodes, freelist, free := [], None, [];
    }

    /** The new node was free, or did not exist; no other node changes. */
    method AllocNode(data: NodeData) returns (n: Node)
      requires Valid() && !data.Free?
      modifies this
      ensures Valid()
      ensures n == |old(nodes)| || (n < |old(nodes)| && old(nodes)[n].Free?)
      ensures n == match old(freelist) case Some(m) => m case None => |old(nodes)|
      ensures nodes == if n < |old(nodes)| then old(nodes)[n := data] else old(nodes) + [data]
      ensures |nodes| == |old(nodes)| || |old(free)| == 0
    {
      match freelist {
        case Some(node) =>
          PopFree(nodes, freelist, free, data);
          freelist := nodes[node].next;
          nodes := nodes[node := data];
          free := free[1..];
          n := node;
        case None =>
          n := |nodes|;
          nodes := nodes + [data];
      }
    }

    method FreeNode(n: Node)
      requires Valid() && n < |nodes| && !nodes[n].Free?
      modifies this
      ensures Valid()
      ensures nodes == old(nodes)[n := Free(old(freelist))] && freelist == Some(n)
    {
      PushFree(nodes, freelist, free, n);
      nodes := nodes[n := Free(freelist)];
      freelist := Some(n);
      free := [n] + free;
    }

    /** Rewriting a node in use leaves the free list alone. */
    method SetNode(n: Node, data: NodeData)
      requires Valid() && n < |nodes| && !nodes[n].Free? && !data.Free?
      modifies this`nodes
      ensures Valid() && nodes == old(nodes)[n := data]
    {
      assert n !in free;
      nodes := nodes[n := data];
    }
  }
}
