/** A tree seen level by level. The root level is the root alone; each further level lists the
    entries of the level above from left to right; the last level is the tree's contents. */
module BForestLevels {
  import opened Wrappers
  import opened BForestNode

  type Nodes = seq<NodeData>
  type Level = seq<Item>

  function ExpandItem(nodes: Nodes, e: Item): Level {
    if e.Edge? && e.node < |nodes| then Expand(nodes[e.node], e.upper) else []
  }

  function ExpandAll(nodes: Nodes, es: Level): (r: Level) {
    if es == [] then [] else ExpandItem(nodes, es[0]) + ExpandAll(nodes, es[1..])
  }

  /** Where the entries of item `j` begin in the level below. */
  function Offset(nodes: Nodes, es: Level, j: nat): nat
    requires j <= |es|
  {
    |ExpandAll(nodes, es[..j])|
  }

  lemma {:induction false} ExpandAppend(nodes: Nodes, a: Level, b: Level)
    ensures ExpandAll(nodes, a + b) == ExpandAll(nodes, a) + ExpandAll(nodes, b)
  {
    if a == [] {
      assert a + b == b;
    } else {
      assert (a + b)[1..] == a[1..] + b;
      ExpandAppend(nodes, a[1..], b);
    }
  }

  lemma {:induction false} ExpandOne(nodes: Nodes, e: Item)
    ensures ExpandAll(nodes, [e]) == ExpandItem(nodes, e)
  {
    assert [e][1..] == [];
  }

  /** A level expands to what is left of item `j`, its own entries, and what is right of it. */
  lemma {:induction false} ExpandAround(nodes: Nodes, es: Level, j: nat)
    requires j < |es|
    ensures ExpandAll(nodes, es) == ExpandAll(nodes, es[..j]) + ExpandItem(nodes, es[j]) + ExpandAll(nodes, es[j + 1..])
    ensures Offset(nodes, es, j + 1) == Offset(nodes, es, j) + |ExpandItem(nodes, es[j])| <= |ExpandAll(nodes, es)|
    ensures ExpandAll(nodes, es[..j + 1]) == ExpandAll(nodes, es[..j]) + ExpandItem(nodes, es[j])
  {
    assert es == es[..j] + [es[j]] + es[j + 1..];
    assert es[..j + 1] == es[..j] + [es[j]];
    ExpandAppend(nodes, es[..j] + [es[j]], es[j + 1..]);
    ExpandAppend(nodes, es[..j], [es[j]]);
    ExpandOne(nodes, es[j]);
  }

  /** Entry `i` of item `j`. */
  lemma {:induction false} ExpandIndex(nodes: Nodes, es: Level, j: nat, i: nat)
    requires j < |es| && i < |ExpandItem(nodes, es[j])|
    ensures
      var g := Offset(nodes, es, j) + i;
      g < |ExpandAll(nodes, es)| && ExpandAll(nodes, es)[g] == ExpandItem(nodes, es[j])[i]
  {
    hide ExpandAll;
    ExpandAround(nodes, es, j);
  }

  lemma {:induction false} OffsetEnds(nodes: Nodes, es: Level)
    ensures Offset(nodes, es, 0) == 0 && Offset(nodes, es, |es|) == |ExpandAll(nodes, es)|
  {
    assert es[..|es|] == es;
  }

  lemma {:induction false} OffsetMonotone(nodes: Nodes, es: Level, i: nat, j: nat)
    requires i <= j <= |es|
    ensures Offset(nodes, es, i) <= Offset(nodes, es, j)
  {
    assert es[..j] == es[..i] + es[i..j];
    ExpandAppend(nodes, es[..i], es[i..j]);
  }

  /** Every entry of a level belongs to exactly one item of the level above. */
  lemma {:induction false} ExpandOrigin(nodes: Nodes, es: Level, g: nat) returns (j: nat, i: nat)
    requires g < |ExpandAll(nodes, es)|
    ensures j < |es| && i < |ExpandItem(nodes, es[j])| && g == Offset(nodes, es, j) + i
    ensures ExpandAll(nodes, es)[g] == ExpandItem(nodes, es[j])[i]
  {
    var first := ExpandItem(nodes, es[0]);
    if g < |first| {
      j, i := 0, g;
    } else {
      j, i := ExpandOrigin(nodes, es[1..], g - |first|);
      assert es[..j + 1][1..] == es[1..][..j];
      j := j + 1;
    }
  }

  /** A level is unaffected by changes to nodes that are not in it. */
  lemma {:induction false} ExpandFrame(nodes: Nodes, nodes': Nodes, es: Level)
    requires |nodes| <= |nodes'|
    requires forall j :: 0 <= j < |es| && es[j].Edge? ==>
      es[j].node < |nodes| && nodes'[es[j].node] == nodes[es[j].node]
    ensures ExpandAll(nodes', es) == ExpandAll(nodes, es)
  {
    if es != [] {
      assert es[0].Edge? ==> nodes'[es[0].node] == nodes[es[0].node];
      forall j | 0 <= j < |es[1..]| && es[1..][j].Edge?
        ensures es[1..][j].node < |nodes| && nodes'[es[1..][j].node] == nodes[es[1..][j].node]
      {
        assert es[1..][j] == es[j + 1];
      }
      ExpandFrame(nodes, nodes', es[1..]);
    }
  }

  // ---- trees ----

  /** Levels 0 to `|levels| - 1` of the tree at `root`; the last of them need not be the contents. */
  ghost predicate Chain(nodes: Nodes, root: Node, levels: seq<Level>) {
    && |levels| > 0
    && levels[0] == [Edge(root, None)]
    && forall l :: 0 < l < |levels| ==> levels[l] == ExpandAll(nodes, levels[l - 1])
  }

  ghost predicate HasNode(levels: seq<Level>, n: Node) {
    exists l, j :: 0 <= l < |levels| && 0 <= j < |levels[l]| && levels[l][j].Edge? && levels[l][j].node == n
  }

  /** Every node in use afterwards is a node of the new tree, or was in use outside of the old one. */
  ghost predicate NoneLost(nodes: Nodes, nodes': Nodes, levels: seq<Level>, levels': seq<Level>) {
    forall n :: 0 <= n < |nodes'| && !nodes'[n].Free? ==>
      HasNode(levels', n) || (n < |nodes| && !nodes[n].Free? && !HasNode(levels, n))
  }

  /** No node appears twice. */
  ghost predicate Distinct(levels: seq<Level>) {
    forall l, j, l', j' ::
      (0 <= l < |levels| && 0 <= l' < |levels| && 0 <= j < |levels[l]| && 0 <= j' < |levels[l']| &&
       levels[l][j].Edge? && levels[l'][j'].Edge? && levels[l][j].node == levels[l'][j'].node)
      ==> l == l' && j == j'
  }

  /** All items of a level are nodes of one kind, of proper shape and not empty. */
  ghost predicate KindOk(nodes: Nodes, es: Level, inner: bool, cap: nat) {
    forall j :: 0 <= j < |es| ==>
      && es[j].Edge? && es[j].node < |nodes|
      && WellShaped(nodes[es[j].node], cap) && Entries(nodes[es[j].node]) > 0
      && nodes[es[j].node].Inner? == inner
  }

  /** All nodes of a level but the rightmost are at least half full. */
  ghost predicate HalfOk(nodes: Nodes, es: Level, cap: nat) {
    forall j :: 0 <= j < |es| - 1 && es[j].Edge? && es[j].node < |nodes| ==> HalfFull(nodes[es[j].node], cap)
  }

  /** The bound of leaf `j` is the first key of the next leaf. */
  ghost predicate SepAt(nodes: Nodes, leaves: Level, j: nat) {
    && j + 1 < |leaves| && leaves[j].Edge? && leaves[j + 1].Edge? && leaves[j + 1].node < |nodes|
    && var nd := nodes[leaves[j + 1].node];
    && nd.Leaf? && |nd.keys| > 0 && leaves[j].upper == Some(nd.keys[0])
  }

  ghost predicate SepsOk(nodes: Nodes, leaves: Level) {
    forall j :: 0 <= j < |leaves| - 1 ==> SepAt(nodes, leaves, j)
  }

  ghost predicate Sorted(contents: Level) {
    && (forall i :: 0 <= i < |contents| ==> contents[i].Pair?)
    && (forall i, j :: 0 <= i < j < |contents| ==> contents[i].key < contents[j].key)
  }

  /** A proper tree, levels 0 to h - 1 being nodes and level h the contents. */
  ghost predicate TreeOk(nodes: Nodes, root: Node, levels: seq<Level>, cap: nat) {
    && |levels| >= 2
    && Chain(nodes, root, levels)
    && var h := |levels| - 1;
    && Distinct(levels)
    && (forall l :: 0 <= l < h ==> KindOk(nodes, levels[l], l < h - 1, cap) && HalfOk(nodes, levels[l], cap))
    && (h >= 2 ==> |levels[1]| >= 2)
    && SepsOk(nodes, levels[h - 1])
    && Sorted(levels[h])
  }
}
