/** Maps that share a node pool, and cursors over them. */
module BForestMapCursor {
  import opened Wrappers
  import opened BForestNode
  import opened BForestLevels
  import opened BForestPath
  import opened BForestPool
  import opened BForestCursor
  import opened BForestRemove
  import opened BForestRemoval
  import opened BForestInsert
  import opened BForestSearch
  import opened BForestFree
  import opened BForestMap

  function ContentsOf(levels: seq<Level>): Level {
    if levels == [] then [] else levels[|levels| - 1]
  }

  /** An empty map has no root; any other map is a proper tree of at most 2^32 entries. */
  ghost predicate MapOk(nodes: Nodes, root: Option<Node>, levels: seq<Level>, cap: nat) {
    && cap >= 7
    && if root.None? then levels == []
      else TreeOk(nodes, root.value, levels, cap) && |ContentsOf(levels)| <= MAX_ENTRIES
  }

  lemma {:induction false} MapFacts(nodes: Nodes, root: Option<Node>, levels: seq<Level>, cap: nat)
    requires MapOk(nodes, root, levels, cap)
    ensures Sorted(ContentsOf(levels)) && (root.None? <==> ContentsOf(levels) == [])
    ensures root.Some? ==> 2 <= |levels| <= MAX_PATH + 1 && ContentsOf(levels) == levels[|levels| - 1]
  {
    hide TreeOk;
    if root.Some? {
      ContentsNonempty(nodes, root.value, levels, cap);
      HeightBound(nodes, root.value, levels, cap);
      TreeParts(nodes, root.value, levels, cap);
    }
  }

  class Map {
    var root: Option<Node>
    ghost var levels: seq<Level>

    ghost predicate Valid(nodes: Nodes, cap: nat)
      reads this
    {
      MapOk(nodes, root, levels, cap)
    }

    ghost function Contents(): Level
      reads this
    {
      ContentsOf(levels)
    }

    constructor ()
      ensures root == None && levels == []
    {
      root, levels := None, [];
    }

    /** Whether the map is empty. */
    method IsEmpty(ghost pool: Pool, ghost cap: nat) returns (b: bool)
      requires Valid(pool.nodes, cap)
      ensures b <==> ToMap(Contents()) == map[]
    {
      MapFacts(pool.nodes, root, levels, cap);
      EmptyMap(Contents());
      return root.None?;
    }

    method Get(key: Key, pool: Pool, ghost cap: nat) returns (r: Option<Val>)
      requires Valid(pool.nodes, cap)
      ensures r == if key in ToMap(Contents()) then Some(ToMap(Contents())[key]) else None
    {
      hide TreeOk, ToMap, Sorted, Between, PointsAt, InsertsAt;
      MapFacts(pool.nodes, root, levels, cap);
      if root.None? {
        EmptyMap(Contents());
        return None;
      }
      var path := new Path();
      ghost var pos, c;
      r, pos, c := Find(path, pool, key, root.value, levels, cap);
      LookedUp(Contents(), c, key, r);
    }

    /** The entry with the greatest key not above `key`. */
    method GetOrLess(key: Key, pool: Pool, ghost cap: nat) returns (r: Option<(Key, Val)>)
      requires Valid(pool.nodes, cap)
      ensures r.Some? ==>
        r.value.0 <= key && r.value.0 in ToMap(Contents()) && ToMap(Contents())[r.value.0] == r.value.1
      ensures r.Some? ==> forall k :: k in ToMap(Contents()) && k <= key ==> k <= r.value.0
      ensures r.None? ==> forall k :: k in ToMap(Contents()) ==> key < k
    {
      hide TreeOk, ToMap, PointsAt, InsertsAt, Stands;
      MapFacts(pool.nodes, root, levels, cap);
      if root.None? {
        EmptyMap(Contents());
        return None;
      }
      var path := new Path();
      ghost var pos, c, pos';
      var v;
      v, pos, c := Find(path, pool, key, root.value, levels, cap);
      if v.Some? {
        Maps(Contents(), key, v.value);
        return Some((key, v.value));
      }
      PointsStands(pool.nodes, levels, path.node, path.entry, pos, path.size, c);
      InsertsSize(pool.nodes, levels, path.node, path.entry, pos, path.size, c);
      r, pos' := Prev(path, pool, root.value, levels, pos, c, cap);
      LessOrNone(Contents(), c, key, r);
    }

    /** Maps `key` to `value`, and returns the old value. */
    method Insert(key: Key, value: Val, pool: Pool, cap: nat) returns (r: Option<Val>)
      requires Valid(pool.nodes, cap) && pool.Valid() && |Contents()| < MAX_ENTRIES
      modifies this, pool
      ensures pool.Valid() && Valid(pool.nodes, cap) && ToMap(Contents()) == old(ToMap(Contents()))[key := value]
      ensures r == if key in old(ToMap(Contents())) then Some(old(ToMap(Contents()))[key]) else None
      ensures Footprint(old(pool.nodes), pool.nodes, old(levels), levels)
    {
      hide PoolOk, NextFree, MapOk, CursorAt, ToMap, Footprint;
      var cursor := new MapCursor(this, pool, cap);
      r := cursor.Insert(key, value);
    }

    /** Removes `key`, and returns its value. */
    method Remove(key: Key, pool: Pool, cap: nat) returns (r: Option<Val>)
      requires Valid(pool.nodes, cap) && pool.Valid()
      modifies this, pool
      ensures pool.Valid() && Valid(pool.nodes, cap) && ToMap(Contents()) == old(ToMap(Contents())) - {key}
      ensures r == if key in old(ToMap(Contents())) then Some(old(ToMap(Contents()))[key]) else None
      ensures Footprint(old(pool.nodes), pool.nodes, old(levels), levels)
    {
      hide PoolOk, NextFree, MapOk, CursorAt, ToMap, Footprint;
      var cursor := new MapCursor(this, pool, cap);
      r := cursor.Goto(key);
      if r.Some? {
        r := cursor.Remove();
      } else {
        SameFootprint(pool.nodes, levels);
      }
    }

    /** Keeps the entries `f` says to keep, with the values it gives them. `f` is called once per entry,
        in order; what it remembers is passed on from call to call. */
    method Retain<S>(pool: Pool, f: (S, Key, Val) -> (S, bool, Val), s0: S, cap: nat) returns (s: S,
        ghost states: seq<S>)
      requires Valid(pool.nodes, cap) && pool.Valid()
      modifies this, pool
      ensures pool.Valid() && Valid(pool.nodes, cap)
      ensures Retained(f, s0, s, states, old(Contents()), ToMap(Contents()))
      ensures Contents() == Filtered(f, s0, old(Contents()), |old(Contents())|)
      ensures s == Called(f, s0, old(Contents()), |old(Contents())|)
      ensures Footprint(old(pool.nodes), pool.nodes, old(levels), levels)
    {
      hide PoolOk, NextFree, MapOk, CursorAt, Footprint, Filtered, Called, Retained, ToMap;
      var cursor := new MapCursor(this, pool, cap);
      s, states := cursor.Retain(f, s0);
    }

    /** Removes all entries; exactly the nodes of this map become free. */
    method Clear(pool: Pool, ghost cap: nat)
      requires Valid(pool.nodes, cap) && pool.Valid()
      modifies this, pool
      ensures pool.Valid() && Valid(pool.nodes, cap) && Contents() == []
      ensures Footprint(old(pool.nodes), pool.nodes, old(levels), levels)
      ensures |pool.nodes| == |old(pool.nodes)| && forall n :: 0 <= n < |pool.nodes| && HasNode(old(levels), n) ==>
        pool.nodes[n].Free?
    {
      hide PoolOk, NextFree, TreeOk, HasNode, Under, FreedUnder, Footprint;
      ghost var nodes0 := pool.nodes;
      match root {
        case Some(n) =>
          root := None;
          TreeStart(nodes0, n, levels, cap);
          FreeTree(pool, n, nodes0, n, levels, 0, 0, cap);
          FreedTree(nodes0, pool.nodes, n, levels, cap);
          levels := [];
        case None =>
          NothingTouched(nodes0);
      }
    }
  }

  lemma EmptyMap(contents: Level)
    requires Sorted(contents)
    ensures ToMap(contents) == map[] <==> contents == []
  {
    if contents != [] {
      Maps(contents, contents[0].key, contents[0].val);
    }
  }

  lemma InsertsSize(nodes: Nodes, levels: seq<Level>, node: seq<Node>, entry: seq<nat>, pos: seq<nat>, size: nat,
      c: nat)
    requires InsertsAt(nodes, levels, node, entry, pos, size, c)
    ensures size == |levels| - 1 > 0
  {
  }

  lemma {:induction false} LessOrNone(contents: Level, c: nat, key: Key, r: Option<(Key, Val)>)
    requires Sorted(contents) && Between(contents, c, key)
    requires if c == 0 then r == None else r.Some? && contents[c - 1] == Pair(r.value.0, r.value.1)
    ensures r.Some? ==> r.value.0 <= key && r.value.0 in ToMap(contents) && ToMap(contents)[r.value.0] == r.value.1
    ensures r.Some? ==> forall k :: k in ToMap(contents) && k <= key ==> k <= r.value.0
    ensures r.None? ==> forall k :: k in ToMap(contents) ==> key < k
  {
    hide ToMap;
    if r.Some? { Maps(contents, r.value.0, r.value.1); }
    forall k | k in ToMap(contents) ensures if r.Some? then k <= r.value.0 || key < k else key < k {
      Maps(contents, k, ToMap(contents)[k]);
      var i :| 0 <= i < |contents| && contents[i] == Pair(k, ToMap(contents)[k]);
    }
  }

  lemma {:induction false} TreeStart(nodes: Nodes, root: Node, levels: seq<Level>, cap: nat)
    requires TreeOk(nodes, root, levels, cap)
    ensures |levels| >= 2 && levels[0] == [Edge(root, None)] && AgreeUnder(nodes, nodes, levels, 0, 0, 1)
  {
    hide TreeOk, Under;
    TreeParts(nodes, root, levels, cap);
  }

  lemma NothingTouched(nodes: Nodes)
    ensures Footprint(nodes, nodes, [], []) && forall n: Node :: !HasNode([], n)
  {
  }

  /** Where a cursor is: at entry `at`, or off the end. */
  ghost predicate CursorAt(nodes: Nodes, root: Option<Node>, levels: seq<Level>, node: seq<Node>, entry: seq<nat>,
      pos: seq<nat>, size: nat, at: nat) {
    && at <= |ContentsOf(levels)|
    && if root.None? then size == 0 else PointsAtOrOff(nodes, levels, node, entry, pos, size, at)
  }

  /** The keys before `at` are smaller than `k`, those from `at` on are not. */
  ghost predicate LowerBound(contents: Level, at: nat, k: Key) {
    && at <= |contents| && (forall i :: 0 <= i < |contents| ==> contents[i].Pair?)
    && (forall i :: 0 <= i < at ==> contents[i].key < k) && (forall i :: at <= i < |contents| ==> k <= contents[i].key)
  }

  lemma FoundBound(contents: Level, c: nat, k: Key, r: Option<Val>)
    requires Sorted(contents) && (r.Some? ==> c < |contents| && contents[c] == Pair(k, r.value)) &&
      (r.None? ==> Between(contents, c, k))
    ensures LowerBound(contents, c, k)
  {
  }

  /** A cursor refines a sorted sequence with an index into it. */
  class MapCursor {
    const tree: Map
    const pool: Pool
    const path: Path
    const cap: nat
    ghost var pos: seq<nat>
    ghost var at: nat

    ghost predicate Valid()
      reads this, tree, pool, path
    {
      && pool.Valid() && path.Valid() && tree.Valid(pool.nodes, cap)
      && CursorAt(pool.nodes, tree.root, tree.levels, path.node, path.entry, pos, path.size, at)
    }

    ghost function Contents(): Level
      reads this, tree
    {
      tree.Contents()
    }

    /** A new cursor is off the end. */
    constructor (tree: Map, pool: Pool, cap: nat)
      requires pool.Valid() && tree.Valid(pool.nodes, cap)
      ensures Valid() && this.tree == tree && this.pool == pool && fresh(path) && this.cap == cap &&
        at == |tree.Contents()|
    {
      this.tree, this.pool, this.cap := tree, pool, cap;
      path := new Path();
      pos, at := [], |tree.Contents()|;
      new;
      MapFacts(pool.nodes, tree.root, tree.levels, cap);
    }

    method Next() returns (r: Option<(Key, Val)>)
      requires Valid()
      modifies this, path
      ensures Valid() && at == (if old(at) < |Contents()| then old(at) + 1 else old(at)) &&
        r == EntryAt(tree.levels, at)
    {
      hide PoolOk, NextFree, TreeOk, PointsAt, Sorted;
      MapFacts(pool.nodes, tree.root, tree.levels, cap);
      ghost var on := path.size > 0;
      if tree.root.Some? { OnOrOff(pool.nodes, tree.levels, path.node, path.entry, pos, path.size, at); }
      r, pos := BForestSearch.Next(path, pool, if tree.root.Some? then tree.root.value else 0, tree.levels, pos, at,
        cap);
      if on { at := at + 1; }
    }

    method Prev() returns (r: Option<(Key, Val)>)
      requires Valid()
      modifies this, path
      ensures Valid()
      ensures if old(at) == 0 then r == None && at == 0
        else at == old(at) - 1 && r == EntryAt(tree.levels, at) && r.Some?
    {
      hide PoolOk, NextFree, TreeOk, PointsAt, Sorted, Stands;
      MapFacts(pool.nodes, tree.root, tree.levels, cap);
      if tree.root.None? { return None; }
      OnOrOff(pool.nodes, tree.levels, path.node, path.entry, pos, path.size, at);
      PointsStands(pool.nodes, tree.levels, path.node, path.entry, pos, path.size, at);
      ghost var pos0 := pos;
      r, pos := BForestSearch.Prev(path, pool, tree.root.value, tree.levels, pos, at, cap);
      if r.None? { pos := pos0; } else { at := at - 1; }
    }

    /** The current entry's key. */
    method Key() returns (r: Option<Key>)
      requires Valid()
      ensures r == match EntryAt(tree.levels, at) case Some(e) => Some(e.0) case None => None
    {
      hide PoolOk, NextFree, TreeOk, PointsAt, Sorted;
      MapFacts(pool.nodes, tree.root, tree.levels, cap);
      if tree.root.Some? { OnOrOff(pool.nodes, tree.levels, path.node, path.entry, pos, path.size, at); }
      if path.size == 0 { return None; }
      var e := Current(path, pool, tree.root.value, tree.levels, pos, at, cap);
      return Some(e.value.0);
    }

    method Value() returns (r: Option<Val>)
      requires Valid()
      ensures r == match EntryAt(tree.levels, at) case Some(e) => Some(e.1) case None => None
      ensures r.Some? <==> at < |Contents()|
    {
      hide PoolOk, NextFree, TreeOk, PointsAt;
      MapFacts(pool.nodes, tree.root, tree.levels, cap);
      if tree.root.Some? { OnOrOff(pool.nodes, tree.levels, path.node, path.entry, pos, path.size, at); }
      if path.size == 0 { return None; }
      var e := Current(path, pool, tree.root.value, tree.levels, pos, at, cap);
      return Some(e.value.1);
    }

    /** Moves to `key`, or to the next larger one. */
    method Goto(key: Key) returns (r: Option<Val>)
      requires Valid()
      modifies this, path
      ensures Valid() && LowerBound(Contents(), at, key)
      ensures r == if key in ToMap(Contents()) then Some(ToMap(Contents())[key]) else None
      ensures r.Some? ==> at < |Contents()| && Contents()[at] == Pair(key, r.value)
    {
      hide PoolOk, NextFree, TreeOk, ToMap, PointsAt, InsertsAt, Stands, Between;
      MapFacts(pool.nodes, tree.root, tree.levels, cap);
      if tree.root.None? {
        EmptyMap(Contents());
        return None;
      }
      ghost var c;
      r, pos, c := Find(path, pool, key, tree.root.value, tree.levels, cap);
      LookedUp(Contents(), c, key, r);
      FoundBound(Contents(), c, key, r);
      at := c;
      if r.None? {
        PointsStands(pool.nodes, tree.levels, path.node, path.entry, pos, path.size, c);
        InsertsSize(pool.nodes, tree.levels, path.node, path.entry, pos, path.size, c);
        pos := Normalize(path, pool, tree.root.value, tree.levels, pos, c, cap);
      }
    }

    method GotoFirst() returns (r: Option<Val>)
      requires Valid()
      modifies this, path
      ensures Valid() && at == 0
      ensures r == match EntryAt(tree.levels, 0) case Some(e) => Some(e.1) case None => None
    {
      hide PoolOk, NextFree, TreeOk, PointsAt;
      MapFacts(pool.nodes, tree.root, tree.levels, cap);
      if tree.root.None? { return None; }
      var e;
      e, pos := First(path, pool, tree.root.value, tree.levels, cap);
      at := 0;
      return Some(e.1);
    }

    /** Maps `key` to `value`, returning the old value, and leaves the cursor at the pair. */
    method Insert(key: Key, value: Val) returns (r: Option<Val>)
      requires Valid() && |Contents()| < MAX_ENTRIES
      modifies this, tree, pool, path
      ensures Valid() && at < |Contents()| && Contents()[at] == Pair(key, value)
      ensures ToMap(Contents()) == old(ToMap(Contents()))[key := value]
      ensures r == if key in old(ToMap(Contents())) then Some(old(ToMap(Contents()))[key]) else None
      ensures Footprint(old(pool.nodes), pool.nodes, old(tree.levels), tree.levels)
    {
      hide PoolOk, NextFree, TreeOk, ToMap, PointsAt, InsertsAt, Between, Footprint, Sorted, CursorAt;
      MapFacts(pool.nodes, tree.root, tree.levels, cap);
      ghost var contents0 := Contents();
      match tree.root {
        case None =>
          InsertSole(key, value);
          r := None;
        case Some(root) =>
          ghost var c;
          r, pos, c := Find(path, pool, key, root, tree.levels, cap);
          LookedUp(contents0, c, key, r);
          if r.Some? {
            Overwrite(key, value, c);
          } else {
            InsertNew(key, value, c);
          }
      }
    }

    /** The first entry of an empty map. */
    method InsertSole(key: Key, value: Val)
      requires pool.Valid() && path.Valid() && cap >= 7 && tree.root.None? && tree.levels == []
      modifies this, tree, pool, path
      ensures Valid() && at < |Contents()| && Contents()[at] == Pair(key, value) &&
        ToMap(Contents()) == old(ToMap(Contents()))[key := value]
      ensures key !in old(ToMap(Contents())) && Footprint(old(pool.nodes), pool.nodes, old(tree.levels), tree.levels)
    {
      hide PoolOk, NextFree, TreeOk, ToMap, PointsAt, Footprint, CursorAt;
      ghost var nodes0 := pool.nodes;
      EmptyMap(Contents());
      var root := pool.AllocNode(Leaf([key], [value]));
      tree.root := Some(root);
      path.size, path.node, path.entry := 1, path.node[0 := root], path.entry[0 := 0];
      SoleEntry(pool.nodes, root, key, value, cap, path.node, path.entry);
      SoleFootprint(nodes0, pool.nodes, root, key, value);
      tree.levels, pos, at := [[Edge(root, None)], [Pair(key, value)]], [0], 0;
      SoleMap(key, value);
      CursorNow(pool.nodes, root, tree.levels, cap, path.node, path.entry, pos, path.size, at);
    }

    /** Replaces the value of the entry the path points at. */
    method Overwrite(key: Key, value: Val, ghost c: nat)
      requires pool.Valid() && path.Valid() && tree.Valid(pool.nodes, cap) && tree.root.Some? && c < |Contents()| &&
        Contents()[c].Pair? && Contents()[c].key == key
      requires PointsAt(pool.nodes, tree.levels, path.node, path.entry, pos, path.size, c)
      modifies `at, tree`levels, pool
      ensures Valid() && at == c && Contents() == old(Contents())[c := Pair(key, value)] &&
        ToMap(Contents()) == old(ToMap(Contents()))[key := value]
      ensures Footprint(old(pool.nodes), pool.nodes, old(tree.levels), tree.levels)
    {
      hide PoolOk, NextFree, TreeOk, ToMap, PointsAt, Footprint, CursorAt;
      MapFacts(pool.nodes, tree.root, tree.levels, cap);
      ghost var contents0 := Contents();
      SetValue(pool.nodes, tree.root.value, tree.levels, cap, path.node, path.entry, pos, path.size, c, value);
      UpdateMaps(contents0, c, value);
      var leaf, e := path.node[path.size - 1], path.entry[path.size - 1];
      tree.levels, at := tree.levels[path.size := contents0[c := Pair(key, value)]], c;
      pool.SetNode(leaf, Leaf(pool.nodes[leaf].keys, pool.nodes[leaf].vals[e := value]));
      CursorNow(pool.nodes, tree.root.value, tree.levels, cap, path.node, path.entry, pos, path.size, at);
    }

    /** Inserts a new pair where the path stands. */
    method InsertNew(key: Key, value: Val, ghost c: nat)
      requires pool.Valid() && path.Valid() && tree.Valid(pool.nodes, cap) && tree.root.Some? &&
        Between(Contents(), c, key) && |Contents()| < MAX_ENTRIES
      requires InsertsAt(pool.nodes, tree.levels, path.node, path.entry, pos, path.size, c)
      modifies this, tree, pool, path
      ensures Valid() && at == c < |Contents()| && Contents()[at] == Pair(key, value) &&
        ToMap(Contents()) == old(ToMap(Contents()))[key := value]
      ensures Footprint(old(pool.nodes), pool.nodes, old(tree.levels), tree.levels)
    {
      hide PoolOk, NextFree, TreeOk, ToMap, PointsAt, InsertsAt, Between, Footprint, Sorted, InsertAt, CursorAt,
        EntryInserted;
      MapFacts(pool.nodes, tree.root, tree.levels, cap);
      ghost var nodes0, levels0, contents0 := pool.nodes, tree.levels, Contents();
      InsertKeepsSorted(contents0, c, key, value);
      InsertMaps(contents0, c, key, value);
      BetweenSize(contents0, c, key);
      ghost var levels';
      var root;
      root, levels', pos := BForestInsert.Insert(path, pool, key, value, tree.root.value, tree.levels, pos, c, cap);
      InsertedNow(nodes0, pool.nodes, root, levels0, levels', cap, c, Pair(key, value), path.node, path.entry, pos,
        path.size);
      tree.root, tree.levels, at := Some(root), levels', c;
    }

    /** Goes through all entries from the first to the last. */
    method Retain<S>(f: (S, Key, Val) -> (S, bool, Val), s0: S) returns (s: S, ghost states: seq<S>)
      requires Valid()
      modifies this, tree, pool, path
      ensures Valid()
      ensures Retained(f, s0, s, states, old(Contents()), ToMap(Contents()))
      ensures Contents() == Filtered(f, s0, old(Contents()), |old(Contents())|)
      ensures s == Called(f, s0, old(Contents()), |old(Contents())|)
      ensures Footprint(old(pool.nodes), pool.nodes, old(tree.levels), tree.levels)
    {
      hide PoolOk, NextFree, MapOk, CursorAt, ToMap, Footprint, Filtered, Called, RemoveAt, Sorted, Retaining,
        Kept, EntryAt, Retained;
      ghost var nodes0, levels0, contents0 := pool.nodes, tree.levels, Contents();
      SameFootprint(nodes0, levels0);
      MapFacts(nodes0, tree.root, tree.levels, cap);
      var v := GotoFirst();
      s := s0;
      ghost var i: nat := 0;
      RetainStart(f, s0, contents0);
      v := Value();
      while v.Some?
        invariant Valid()
        invariant Retaining(f, s0, contents0, i, s, Contents(), at) && (v.Some? <==> at < |Contents()|)
        invariant Footprint(nodes0, pool.nodes, levels0, tree.levels)
        decreases |contents0| - i
      {
        ghost var nodes1, levels1, at1 := pool.nodes, tree.levels, at;
        RetainHas(f, s0, contents0, i, s, Contents(), at1);
        ghost var s1 := s;
        s := KeepOrRemove(f, s);
        RetainStep(f, s0, contents0, i, s1, ContentsOf(levels1), at1, s, Contents(), at);
        FootprintTrans(nodes0, nodes1, pool.nodes, levels0, levels1, tree.levels);
        i := i + 1;
        v := Value();
      }
      RetainEnd(f, s0, contents0, i, s, Contents(), at);
      states := FilteredRetains(f, s0, contents0);
    }

    /** Gives the current entry the value `f` says, and keeps it or removes it. */
    method KeepOrRemove<S>(f: (S, Key, Val) -> (S, bool, Val), s: S) returns (s': S)
      requires Valid() && at < |Contents()| && Contents()[at].Pair?
      modifies this, tree, pool, path
      ensures Valid()
      ensures Kept(f, s, old(Contents()), old(at), s', Contents(), at)
      ensures Footprint(old(pool.nodes), pool.nodes, old(tree.levels), tree.levels)
    {
      hide PoolOk, NextFree, MapOk, CursorAt, ToMap, Footprint, RemoveAt, Sorted;
      ghost var nodes0, levels0 := pool.nodes, tree.levels;
      var key := Key();
      var v := Value();
      CursorPoints(pool.nodes, tree.root, tree.levels, cap, path.node, path.entry, pos, path.size, at);
      var (after, keep, value) := f(s, key.value, v.value);
      s' := after;
      Overwrite(key.value, value, at);
      ghost var nodes1, levels1 := pool.nodes, tree.levels;
      if keep {
        var next := Next();
      } else {
        var removed := Remove();
        FootprintTrans(nodes0, nodes1, pool.nodes, levels0, levels1, tree.levels);
      }
    }

    /** Removes the current entry, returning its value; the cursor moves to the next one. */
    method Remove() returns (r: Option<Val>)
      requires Valid()
      modifies this, tree, pool, path
      ensures Valid() && at == old(at)
      ensures r == match EntryAt(old(tree.levels), at) case Some(e) => Some(e.1) case None => None
      ensures old(at < |Contents()|) ==>
        Contents() == RemoveAt(old(Contents()), at) &&
          ToMap(Contents()) == old(ToMap(Contents())) - {old(Contents()[at].key)}
      ensures !old(at < |Contents()|) ==> Contents() == old(Contents())
      ensures Footprint(old(pool.nodes), pool.nodes, old(tree.levels), tree.levels)
    {
      hide PoolOk, NextFree, TreeOk, ToMap, PointsAt, Footprint, RemoveAt, Freed;
      MapFacts(pool.nodes, tree.root, tree.levels, cap);
      ghost var nodes0, levels0, contents0 := pool.nodes, tree.levels, Contents();
      r := Value();
      if r.Some? {
        OnOrOff(pool.nodes, tree.levels, path.node, path.entry, pos, path.size, at);
        RemoveMaps(contents0, at);
        ghost var levels';
        var root;
        root, levels', pos := BForestRemoval.Remove(path, pool, tree.root.value, tree.levels, pos, at, cap);
        tree.root := root;
        if root.None? { levels' := []; }
        RemovedFootprint(nodes0, pool.nodes, levels0, levels', root, at, cap, path.node, path.entry, pos, path.size);
        tree.levels := levels';
      } else {
        SameFootprint(nodes0, levels0);
      }
    }
  }

  lemma CursorNow(nodes: Nodes, root: Node, levels: seq<Level>, cap: nat, node: seq<Node>, entry: seq<nat>,
      pos: seq<nat>, size: nat, at: nat)
    requires cap >= 7 && TreeOk(nodes, root, levels, cap) && |levels| > 0 &&
      at < |levels[|levels| - 1]| <= MAX_ENTRIES && PointsAt(nodes, levels, node, entry, pos, size, at)
    ensures MapOk(nodes, Some(root), levels, cap) && CursorAt(nodes, Some(root), levels, node, entry, pos, size, at)
  {
    hide TreeOk, Leads;
  }

  lemma OnOrOff(nodes: Nodes, levels: seq<Level>, node: seq<Node>, entry: seq<nat>, pos: seq<nat>, size: nat, at: nat)
    requires PointsAtOrOff(nodes, levels, node, entry, pos, size, at)
    ensures |levels| >= 2 && (size > 0 <==> at < |levels[|levels| - 1]|) &&
      (size > 0 ==> PointsAt(nodes, levels, node, entry, pos, size, at))
  {
    hide Leads;
  }

  lemma SoleMap(key: Key, value: Val)
    ensures ToMap([Pair(key, value)]) == map[key := value]
  {
    assert [Pair(key, value)][..0] == [];
  }

  lemma BetweenSize(contents: Level, c: nat, key: Key)
    requires Between(contents, c, key)
    ensures c <= |contents|
  {
  }

  lemma {:induction false} InsertedNow(nodes0: Nodes, nodes: Nodes, root: Node, levels: seq<Level>, levels': seq<Level>,
      cap: nat, c: nat, x: Item, node: seq<Node>, entry: seq<nat>, pos: seq<nat>, size: nat)
    requires cap >= 7 && EntryInserted(nodes0, nodes, root, levels, levels', cap, c, x, node, entry, pos, size) &&
      |ContentsOf(levels)| < MAX_ENTRIES
    ensures MapOk(nodes, Some(root), levels', cap) && CursorAt(nodes, Some(root), levels', node, entry, pos, size, c)
    ensures c < |ContentsOf(levels')| && ContentsOf(levels')[c] == x &&
      ContentsOf(levels') == InsertAt(ContentsOf(levels), c, x)
    ensures Footprint(nodes0, nodes, levels, levels')
  {
    hide TreeOk, PointsAt, GrowsWithin, Footprint;
    TreeTop(nodes, root, levels', cap);
    CursorNow(nodes, root, levels', cap, node, entry, pos, size, c);
    GrowthFootprint(nodes0, nodes, levels, levels');
  }

  lemma SameFootprint(nodes: Nodes, levels: seq<Level>)
    ensures Footprint(nodes, nodes, levels, levels)
  {
  }

  lemma {:induction false} RemovedFootprint(nodes: Nodes, nodes': Nodes, levels: seq<Level>, levels': seq<Level>,
      root: Option<Node>, c: nat, cap: nat, node: seq<Node>, entry: seq<nat>, pos: seq<nat>, size: nat)
    requires root.None? ==> OnlyWithin(nodes, nodes', levels) && levels' == []
    requires root.Some? ==> EntryRemoved(nodes, nodes', root.value, levels, levels', cap, c, node, entry, pos, size)
    requires Freed(nodes', levels, levels')
    ensures Footprint(nodes, nodes', levels, levels')
  {
    hide TreeOk, HasNode, PointsAtOrOff;
    if root.None? {
      forall n: Node ensures !HasNode([], n) { EmptyHas(n); }
    }
    ShrinkFootprint(nodes, nodes', levels, levels');
  }

  /** What the predicate has come to know after it has been called for the first `n` entries. */
  ghost function Called<S>(f: (S, Key, Val) -> (S, bool, Val), s0: S, contents: Level, n: nat): S
    requires n <= |contents|
  {
    if n == 0 then s0
    else
      var s, x := Called(f, s0, contents, n - 1), contents[n - 1];
      if x.Pair? then f(s, x.key, x.val).0 else s
  }

  /** The first `n` entries, filtered and updated by the predicate. */
  ghost function Filtered<S>(f: (S, Key, Val) -> (S, bool, Val), s0: S, contents: Level, n: nat): Level
    requires n <= |contents|
  {
    if n == 0 then []
    else
      var rest, s, x := Filtered(f, s0, contents, n - 1), Called(f, s0, contents, n - 1), contents[n - 1];
      if x.Pair? && f(s, x.key, x.val).1 then rest + [Pair(x.key, f(s, x.key, x.val).2)] else rest
  }

  /** The entry at `at` has been given its new value, and kept or removed. */
  ghost predicate Kept<S>(f: (S, Key, Val) -> (S, bool, Val), s: S, contents: Level, at: nat, s': S, contents': Level,
      at': nat)
  {
    && at < |contents| && contents[at].Pair?
    && var x := contents[at];
    && var (after, keep, v) := f(s, x.key, x.val);
    && var updated := contents[at := Pair(x.key, v)];
    && s' == after
    && if keep then contents' == updated && at' == at + 1 else contents' == RemoveAt(updated, at) && at' == at
  }

  /** After `i` calls, the entries before `at` are filtered, and those from `at` on are as they were. */
  ghost predicate Retaining<S>(f: (S, Key, Val) -> (S, bool, Val), s0: S, contents0: Level, i: nat, s: S,
      contents: Level, at: nat)
  {
    && i <= |contents0| && at == |Filtered(f, s0, contents0, i)| && s == Called(f, s0, contents0, i)
    && contents == Filtered(f, s0, contents0, i) + contents0[i..]
  }

  lemma RetainStart<S>(f: (S, Key, Val) -> (S, bool, Val), s0: S, contents: Level)
    ensures Retaining(f, s0, contents, 0, s0, contents, 0)
  {
  }

  lemma RetainHas<S>(f: (S, Key, Val) -> (S, bool, Val), s0: S, contents0: Level, i: nat, s: S, contents: Level,
      at: nat)
    requires Sorted(contents0) && Retaining(f, s0, contents0, i, s, contents, at) && at < |contents|
    ensures i < |contents0| && contents[at] == contents0[i] && contents[at].Pair?
  {
  }

  lemma {:induction false} RetainStep<S>(f: (S, Key, Val) -> (S, bool, Val), s0: S, contents0: Level, i: nat, s: S,
      contents: Level, at: nat, s': S, contents': Level, at': nat)
    requires Sorted(contents0) && Retaining(f, s0, contents0, i, s, contents, at)
    requires Kept(f, s, contents, at, s', contents', at')
    ensures i < |contents0| && Retaining(f, s0, contents0, i + 1, s', contents', at')
  {
    hide Sorted;
    RetainHas(f, s0, contents0, i, s, contents, at);
    var a, x := Filtered(f, s0, contents0, i), contents0[i];
    var (_, keep, v) := f(s, x.key, x.val);
    assert contents0[i..] == [x] + contents0[i + 1..];
    assert contents[at := Pair(x.key, v)] == a + [Pair(x.key, v)] + contents0[i + 1..];
    assert RemoveAt(contents[at := Pair(x.key, v)], at) == a + contents0[i + 1..];
  }

  lemma RetainEnd<S>(f: (S, Key, Val) -> (S, bool, Val), s0: S, contents0: Level, i: nat, s: S, contents: Level,
      at: nat)
    requires Retaining(f, s0, contents0, i, s, contents, at) && at >= |contents|
    ensures i == |contents0| && contents == Filtered(f, s0, contents0, |contents0|)
    ensures s == Called(f, s0, contents0, |contents0|)
  {
  }

  /** What retaining means, call by call: `states[i]` is the state in which the predicate gets the entry `i`. The key
      of that entry stays exactly if the predicate says so, with the value it has been given, and no key is new. */
  ghost predicate Retained<S>(f: (S, Key, Val) -> (S, bool, Val), s0: S, s: S, states: seq<S>, before: Level,
      after: map<Key, Val>)
  {
    && |states| == |before| + 1 && states[0] == s0 && states[|before|] == s
    && (forall i :: 0 <= i < |before| ==> before[i].Pair? && CallRetains(f, states[i], states[i + 1], before[i], after))
    && (forall k :: k in after ==> exists i :: 0 <= i < |before| && before[i].Pair? && before[i].key == k)
  }

  ghost predicate CallRetains<S>(f: (S, Key, Val) -> (S, bool, Val), s: S, s': S, x: Item, after: map<Key, Val>)
    requires x.Pair?
  {
    && s' == f(s, x.key, x.val).0
    && (x.key in after <==> f(s, x.key, x.val).1)
    && (x.key in after ==> after[x.key] == f(s, x.key, x.val).2)
  }

  lemma {:induction false} FilteredRetains<S>(f: (S, Key, Val) -> (S, bool, Val), s0: S, contents: Level)
      returns (states: seq<S>)
    requires Sorted(contents)
    ensures Retained(f, s0, Called(f, s0, contents, |contents|), states, contents,
      ToMap(Filtered(f, s0, contents, |contents|)))
  {
    hide Sorted, ToMap, Called, Filtered, CallRetains;
    states := [s0];
    CalledFirst(f, s0, contents);
    var n := 0;
    while n < |contents|
      invariant n <= |contents|
      invariant Retained(f, s0, Called(f, s0, contents, n), states, contents[..n], ToMap(Filtered(f, s0, contents, n)))
    {
      RetainsOn(f, s0, contents, n, states);
      states := states + [Called(f, s0, contents, n + 1)];
      n := n + 1;
    }
    assert contents[..n] == contents;
  }

  lemma CalledFirst<S>(f: (S, Key, Val) -> (S, bool, Val), s0: S, contents: Level)
    ensures Retained(f, s0, Called(f, s0, contents, 0), [s0], contents[..0], ToMap(Filtered(f, s0, contents, 0)))
  {
  }

  /** One more call leaves the keys before it alone, because they are smaller. */
  lemma {:induction false} RetainsOn<S>(f: (S, Key, Val) -> (S, bool, Val), s0: S, contents: Level, n: nat,
      states: seq<S>)
    requires Sorted(contents) && n < |contents|
    requires Retained(f, s0, Called(f, s0, contents, n), states, contents[..n], ToMap(Filtered(f, s0, contents, n)))
    ensures Retained(f, s0, Called(f, s0, contents, n + 1), states + [Called(f, s0, contents, n + 1)],
      contents[..n + 1], ToMap(Filtered(f, s0, contents, n + 1)))
  {
    hide ToMap, Called, Filtered;
    var before, after := ToMap(Filtered(f, s0, contents, n)), ToMap(Filtered(f, s0, contents, n + 1));
    OneCall(f, s0, contents, n);
    var states' := states + [Called(f, s0, contents, n + 1)];
    forall i | 0 <= i < n ensures CallRetains(f, states'[i], states'[i + 1], contents[i], after) {
      assert contents[..n][i] == contents[i] && contents[i].key < contents[n].key;
      assert CallRetains(f, states[i], states[i + 1], contents[..n][i], before);
    }
    var old', new' := contents[..n], contents[..n + 1];
    forall k | k in after ensures exists i :: 0 <= i < |new'| && new'[i].Pair? && new'[i].key == k {
      if k in before {
        var i :| 0 <= i < |old'| && old'[i].Pair? && old'[i].key == k;
        assert new'[i].key == k;
      } else {
        assert new'[n].key == k;
      }
    }
  }

  lemma OneCall<S>(f: (S, Key, Val) -> (S, bool, Val), s0: S, contents: Level, n: nat)
    requires n < |contents| && contents[n].Pair?
    ensures
      var s, k := Called(f, s0, contents, n), contents[n].key;
      var before, after := ToMap(Filtered(f, s0, contents, n)), ToMap(Filtered(f, s0, contents, n + 1));
      var (next, keep, v) := f(s, k, contents[n].val);
      Called(f, s0, contents, n + 1) == next && after == if keep then before[k := v] else before
  {
    var (_, keep, v) := f(Called(f, s0, contents, n), contents[n].key, contents[n].val);
    var rest, x := Filtered(f, s0, contents, n), Pair(contents[n].key, v);
    if keep { assert (rest + [x])[..|rest|] == rest; }
  }

  /** A predicate that keeps every entry as it is leaves the map alone. */
  lemma {:induction false} KeepAll<S>(f: (S, Key, Val) -> (S, bool, Val), s0: S, s: S, states: seq<S>, before: Level,
      after: map<Key, Val>)
    requires Sorted(before) && Retained(f, s0, s, states, before, after)
    requires forall i :: 0 <= i < |before| ==>
      f(states[i], before[i].key, before[i].val).1 && f(states[i], before[i].key, before[i].val).2 == before[i].val
    ensures after == ToMap(before)
  {
    hide ToMap, Sorted;
    forall k | k in after ensures k in ToMap(before) && ToMap(before)[k] == after[k] {
      var i :| 0 <= i < |before| && before[i].Pair? && before[i].key == k;
      assert CallRetains(f, states[i], states[i + 1], before[i], after);
      Maps(before, k, after[k]);
    }
    forall k | k in ToMap(before) ensures k in after {
      Maps(before, k, ToMap(before)[k]);
      var i :| 0 <= i < |before| && before[i] == Pair(k, ToMap(before)[k]);
      assert CallRetains(f, states[i], states[i + 1], before[i], after);
    }
  }

  lemma CursorPoints(nodes: Nodes, root: Option<Node>, levels: seq<Level>, cap: nat, node: seq<Node>, entry: seq<nat>,
      pos: seq<nat>, size: nat, at: nat)
    requires MapOk(nodes, root, levels, cap) && CursorAt(nodes, root, levels, node, entry, pos, size, at) &&
      at < |ContentsOf(levels)|
    ensures root.Some? && PointsAt(nodes, levels, node, entry, pos, size, at) && Sorted(ContentsOf(levels))
  {
    hide TreeOk, PointsAt;
    MapFacts(nodes, root, levels, cap);
  }
}
