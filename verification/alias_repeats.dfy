/** Which redundancies the pass is sure to find. */
module RepeatedAccesses {
  import opened Clif
  import opened ClifPaths
  import opened LastStore
  import opened MemoryValues
  import opened AliasAnalysis

  // ---- the layout ----

  /** Every point has its place in the layout, and the instructions of a block stand there in order. */
  lemma {:induction false} LayoutHas(f: Func, b: Block, p: Point)
    requires ValidPoint(f, p) && p.b < b <= |f.blocks|
    ensures |Layout(f, p.b)| + p.i < |Layout(f, b)| && Layout(f, b)[|Layout(f, p.b)| + p.i] == InstAt(f, p)
  {
    if p.b < b - 1 { LayoutHas(f, b - 1, p); }
  }

  /** Nothing else is in the layout. */
  lemma {:induction false} LayoutOnly(f: Func, b: Block, k: nat) returns (p: Point)
    requires b <= |f.blocks| && k < |Layout(f, b)|
    ensures ValidPoint(f, p) && p.b < b && k == |Layout(f, p.b)| + p.i && Layout(f, b)[k] == InstAt(f, p)
  {
    if k < |Layout(f, b - 1)| { p := LayoutOnly(f, b - 1, k); } else { p := Point(b - 1, k - |Layout(f, b - 1)|); }
  }

  lemma {:induction false} LayoutDistinct(f: Func, j: nat, k: nat)
    requires WellFormed(f) && j < k < |Layout(f, |f.blocks|)|
    ensures Layout(f, |f.blocks|)[k] < |f.insts| && Layout(f, |f.blocks|)[j] != Layout(f, |f.blocks|)[k]
  {
    hide InstFits, IsTerminator, Layout;
    var p := LayoutOnly(f, |f.blocks|, j);
    var q := LayoutOnly(f, |f.blocks|, k);
    assert f.place[InstAt(f, p)] == p && f.place[InstAt(f, q)] == q;
  }

  // ---- the invariant of the pass, along its log ----

  ghost predicate Starts(ps: PassState) {
    ps.aliases == map[] && ps.removed == {} && ps.table == map[]
  }

  lemma {:induction false} StepKeepsPass(f: Func, input: BlockStates, dominates: (Inst, Inst) -> bool, inst: Inst,
      ps: PassState, ps': PassState, source: map<Value, Inst>, processed: set<Inst>) returns (source': map<Value, Inst>)
    requires SsaForm(f) && AllReachable(f) && SoundDominance(f, dominates)
    requires PassOk(f, input, ps.aliases, source, processed, ps.removed, ps.table) && inst !in processed
    requires PassStep(f, input, dominates, inst, ps, ps')
    ensures PassOk(f, input, ps'.aliases, source', processed + {inst}, ps'.removed, ps'.table)
  {
    hide CodeOk, AllReachable, Dominates, Root, AliasOk, TableOk, Forwards, SsaForm, KeyOf;
    source' := source;
    assert SsaForm(f);
    SsaIsWellFormed(f);
    var d := f.insts[inst];
    if Redundant(f, input, dominates, ps, inst) {
      var key := KeyOf(f, input, ps.aliases, inst);
      var def := ps.table[key].0;
      HitForwards(f, input, ps.aliases, source, processed, ps.removed, ps.table, dominates, inst, key);
      SkipInst(f, input, ps.aliases, source, processed, ps.removed, ps.table, inst);
      RemoveLoad(f, input, ps.aliases, source, processed + {inst}, ps.removed, ps.table, def, inst);
      source' := source[d.lresult := def];
    } else if IsAccess(d) {
      ContentInRange(f, inst);
      AliasesAreTyped(f, input, ps.aliases, source);
      RootKeepsType(f, ps.aliases, ContentOf(d));
      var v := if d.StoreInst? then Root(ps.aliases, d.sdata) else d.lresult;
      RecordEntry(f, input, ps.aliases, source, processed, ps.removed, ps.table, inst,
        KeyOf(f, input, ps.aliases, inst), v);
    } else {
      SkipInst(f, input, ps.aliases, source, processed, ps.removed, ps.table, inst);
    }
  }

  lemma SsaIsWellFormed(f: Func)
    requires SsaForm(f)
    ensures WellFormed(f)
  {
  }

  ghost predicate AllUnprocessed(order: seq<Inst>, k: nat, processed: set<Inst>) {
    forall m :: k <= m < |order| ==> order[m] !in processed
  }

  lemma {:induction false} PassInvariant(f: Func, input: BlockStates, dominates: (Inst, Inst) -> bool,
      log: seq<PassState>, k: nat) returns (source: map<Value, Inst>, processed: set<Inst>)
    requires SsaForm(f) && AllReachable(f) && SoundDominance(f, dominates)
    requires PassLog(f, input, dominates, Layout(f, |f.blocks|), log) && Starts(log[0]) && k < |log|
    ensures PassOk(f, input, log[k].aliases, source, processed, log[k].removed, log[k].table)
    ensures AllUnprocessed(Layout(f, |f.blocks|), k, processed)
  {
    hide AllReachable, SsaForm, SoundDominance, PassOk, PassStep, Layout, WellFormed;
    SsaIsWellFormed(f);
    if k == 0 {
      source, processed := map[], {};
      EmptyPass(f, input);
    } else {
      var order, source0, processed0 := Layout(f, |f.blocks|), map[], {};
      source0, processed0 := PassInvariant(f, input, dominates, log, k - 1);
      var inst := order[k - 1];
      source := StepKeepsPass(f, input, dominates, inst, log[k - 1], log[k], source0, processed0);
      processed := processed0 + {inst};
      forall m | k <= m < |order| ensures order[m] !in processed { LayoutDistinct(f, k - 1, m); }
    }
  }

  lemma EmptyPass(f: Func, input: BlockStates)
    requires WellFormed(f)
    ensures PassOk(f, input, map[], map[], {}, {}, map[])
  {
  }

  // ---- originals ----

  /** One step of the pass takes away at most one original: the result of the instruction it processes. */
  lemma {:induction false} StepKeepsRoot(f: Func, input: BlockStates, dominates: (Inst, Inst) -> bool, inst: Inst,
      ps: PassState, ps': PassState, source: map<Value, Inst>, processed: set<Inst>, v: Value)
    requires SsaForm(f) && AllReachable(f) && SoundDominance(f, dominates)
    requires PassOk(f, input, ps.aliases, source, processed, ps.removed, ps.table) && inst !in processed
    requires PassStep(f, input, dominates, inst, ps, ps') && LoopFree(ps'.aliases)
    requires f.insts[inst].LoadInst? ==> f.insts[inst].lresult != Root(ps.aliases, v)
    ensures Root(ps'.aliases, v) == Root(ps.aliases, v)
  {
    hide CodeOk, AllReachable, Dominates, Root, AliasOk, TableOk, Forwards, SsaForm, KeyOf, LoopFree, SoundDominance;
    if Redundant(f, input, dominates, ps, inst) {
      var x, w := f.insts[inst].lresult, ps.table[KeyOf(f, input, ps.aliases, inst)].1;
      assert x !in ps.aliases;
      AliasLoops(ps.aliases, x, w);
      RootIsOriginal(ps.aliases, w);
      AddAlias(ps.aliases, x, Root(ps.aliases, w));
    }
  }

  lemma {:induction false} OriginalStays(f: Func, input: BlockStates, dominates: (Inst, Inst) -> bool,
      log: seq<PassState>, j: nat, k: nat, v: Value)
    requires SsaForm(f) && AllReachable(f) && SoundDominance(f, dominates)
    requires PassLog(f, input, dominates, Layout(f, |f.blocks|), log) && Starts(log[0]) && j <= k < |log|
    requires LoopFree(log[j].aliases)
    requires forall m :: j <= m < k ==>
      var n := Layout(f, |f.blocks|)[m];
      n < |f.insts| && (f.insts[n].LoadInst? ==> f.insts[n].lresult != Root(log[j].aliases, v))
    ensures LoopFree(log[k].aliases) && Root(log[k].aliases, v) == Root(log[j].aliases, v)
  {
    hide AllReachable, SsaForm, SoundDominance, PassStep, Layout, WellFormed, Root, LoopFree, AliasOk, TableOk,
      RemovedOk;
    var source, processed := PassInvariant(f, input, dominates, log, k);
    if j < k {
      OriginalStays(f, input, dominates, log, j, k - 1, v);
      source, processed := PassInvariant(f, input, dominates, log, k - 1);
      StepKeepsRoot(f, input, dominates, Layout(f, |f.blocks|)[k - 1], log[k - 1], log[k], source, processed, v);
    }
  }

  /** The original of an address is available where the address is used, so a later instruction defines it only if
      it dominates the use. */
  lemma {:induction false} DefinerDominates(f: Func, input: BlockStates, aliases: Aliases, source: map<Value, Inst>,
      user: Inst, n: Inst)
    requires SsaForm(f) && AllReachable(f) && AliasesOk(f, input, aliases, source)
    requires user < |f.insts| && IsAccess(f.insts[user]) && n < |f.insts| && f.insts[n].LoadInst?
    requires f.insts[n].lresult == Root(aliases, AddressOf(f.insts[user]))
    ensures n != user && Dominates(f, f.place[n], f.place[user])
  {
    hide AliasOk, Dominates, InstFits, IsTerminator, LoopFree;
    var a, p := AddressOf(f.insts[user]), f.place[user];
    assert InstAt(f, p) == user && UsesValue(f.insts[user], a);
    assert InstFits(f, f.insts[user]);
    AddressInRange(f, f.insts[user]);
    ResolvesFully(aliases, a);
    RootAvailable(f, input, aliases, source, a, |aliases|, p);
    assert f.insts[n].lresult in Results(f.insts[n]);
  }

  lemma AddressInRange(f: Func, d: InstData)
    requires IsAccess(d) && InstFits(f, d)
    ensures AddressOf(d) < |f.values|
  {
    assert UsesValue(d, AddressOf(d));
  }

  lemma ResolvesFully(aliases: Aliases, v: Value)
    requires LoopFree(aliases)
    ensures Resolve(aliases, v, |aliases|).Some?
  {
  }

  // ---- what is found ----

  /** The dominator tree answers exactly. */
  ghost predicate ExactDominance(f: Func, dominates: (Inst, Inst) -> bool)
    requires WellFormed(f)
  {
    forall a, b :: 0 <= a < |f.insts| && 0 <= b < |f.insts| ==>
      (dominates(a, b) <==> Dominates(f, f.place[a], f.place[b]))
  }

  /** A load that repeats an earlier access is removed, if what stands between them in the layout dominates the load and
      does not dominate the access. */
  lemma {:induction false} RepeatRemoved(f: Func, input: BlockStates, dominates: (Inst, Inst) -> bool,
      log: seq<PassState>, j: nat, k: nat)
    requires SsaForm(f) && AllReachable(f) && SoundDominance(f, dominates)
    requires PassLog(f, input, dominates, Layout(f, |f.blocks|), log) && Starts(log[0])
    requires j < k < |Layout(f, |f.blocks|)|
    requires Repeats(f, input, log[k].aliases, Layout(f, |f.blocks|)[j], Layout(f, |f.blocks|)[k])
    requires forall m :: j <= m < k ==> dominates(Layout(f, |f.blocks|)[m], Layout(f, |f.blocks|)[k])
    requires forall a :: 0 <= a < |f.insts| && dominates(a, Layout(f, |f.blocks|)[j]) ==>
      dominates(a, Layout(f, |f.blocks|)[k])
    requires forall m :: j < m < k ==> Unordered(f, Layout(f, |f.blocks|)[m], Layout(f, |f.blocks|)[j])
    ensures Layout(f, |f.blocks|)[k] in log[|log| - 1].removed
  {
    hide AllReachable, SsaForm, SoundDominance, PassStep, Layout, WellFormed, Root, LoopFree, AliasOk, TableOk,
      RemovedOk, Redundant, SameLocation, Version, Dominates;
    var order := Layout(f, |f.blocks|);
    SsaIsWellFormed(f);
    forall m | 0 <= m < |order| ensures LoopFree(log[m].aliases) && order[m] < |f.insts| {
      var source, processed := PassInvariant(f, input, dominates, log, m);
      assert PassStep(f, input, dominates, order[m], log[m], log[m + 1]);
      StepInRange(f, input, dominates, order[m], log[m], log[m + 1]);
    }
    var v := AddressOf(f.insts[order[j]]);
    var source, processed := PassInvariant(f, input, dominates, log, j);
    forall m | j <= m < k && f.insts[order[m]].LoadInst?
      ensures f.insts[order[m]].lresult != Root(log[j].aliases, v)
    {
      NotTheDefiner(f, input, log[j].aliases, source, order[j], order[m]);
    }
    OriginalStays(f, input, dominates, log, j, k, v);
    EntriesInRange(f, input, log[j], source, processed);
    RepeatedAccess(f, input, dominates, order, log, j, k);
    RemovedAreRedundant(f, input, dominates, order, log, |order|, order[k]);
  }

  /** `load` accesses the location of `access`, up to aliases, in the same version of memory. */
  ghost predicate Repeats(f: Func, input: BlockStates, aliases: Aliases, access: Inst, load: Inst) {
    && WellFormed(f) && LoopFree(aliases) && access < |f.insts| && load < |f.insts|
    && IsAccess(f.insts[access]) && f.insts[load].LoadInst?
    && SameLocation(f, aliases, f.insts[access], f.insts[load])
    && Version(f, input, access) == Version(f, input, load)
  }

  /** `n`, which comes later in the layout, does not dominate `user`. */
  ghost predicate Unordered(f: Func, n: Inst, user: Inst) {
    WellFormed(f) && n < |f.insts| && user < |f.insts| && !Dominates(f, f.place[n], f.place[user])
  }

  lemma EntriesInRange(f: Func, input: BlockStates, ps: PassState, source: map<Value, Inst>, processed: set<Inst>)
    requires PassOk(f, input, ps.aliases, source, processed, ps.removed, ps.table)
    ensures forall key :: key in ps.table ==> ps.table[key].0 < |f.insts|
  {
    hide WellFormed, LoopFree, Root, AliasOk;
  }

  lemma StepInRange(f: Func, input: BlockStates, dominates: (Inst, Inst) -> bool, inst: Inst, ps: PassState,
      ps': PassState)
    requires PassStep(f, input, dominates, inst, ps, ps')
    ensures inst < |f.insts|
  {
  }

  lemma {:induction false} NotTheDefiner(f: Func, input: BlockStates, aliases: Aliases, source: map<Value, Inst>,
      user: Inst, n: Inst)
    requires SsaForm(f) && AllReachable(f) && AliasesOk(f, input, aliases, source)
    requires user < |f.insts| && IsAccess(f.insts[user]) && n < |f.insts| && f.insts[n].LoadInst?
    requires n == user || Unordered(f, n, user)
    ensures f.insts[n].lresult != Root(aliases, AddressOf(f.insts[user]))
  {
    hide SsaForm, AllReachable, AliasOk, Dominates, WellFormed, LoopFree, Root;
    if f.insts[n].lresult == Root(aliases, AddressOf(f.insts[user])) {
      DefinerDominates(f, input, aliases, source, user, n);
    }
  }

  // ---- within a block ----

  /** An instruction dominates everything behind it in its block. */
  lemma {:induction false} BlockDominates(f: Func, b: Block, i: nat, j: nat)
    requires CodeOk(f) && b < |f.blocks| && i <= j < |f.blocks[b].insts|
    ensures Dominates(f, Point(b, i), Point(b, j))
  {
    hide InstFits, IsTerminator;
    forall path | PathTo(f, path, Point(b, j)) ensures Point(b, i) in path {
      if i < j {
        var n := |path| - 1;
        assert n > 0 && Next(f, path[n - 1], path[n]);
        PrefixIsPath(f, path, n - 1);
        BlockDominates(f, b, i, j - 1);
        assert Point(b, i) in path[..n];
      }
    }
  }

  /** Nothing between the two writes memory of this region: no fence, and no store of the region. */
  ghost predicate NoWritesBetween(f: Func, b: Block, i: nat, j: nat, r: Region)
    requires CodeOk(f) && b < |f.blocks| && j <= |f.blocks[b].insts|
  {
    forall m :: i < m < j ==>
      var d := f.insts[InstAt(f, Point(b, m))];
      !d.Fence? && !(d.StoreInst? && d.sflags.region == r)
  }

  lemma {:induction false} SameVersionInBlock(f: Func, input: BlockStates, b: Block, i: nat, j: nat, r: Region)
    requires CodeOk(f) && b < |f.blocks| && i < j <= |f.blocks[b].insts| && NoWritesBetween(f, b, i, j, r)
    ensures
      var s := StartingState(input, b);
      Through(f, s, b, j).At(r) == Through(f, s, b, i + 1).At(r)
  {
    hide InstFits, IsTerminator;
    if i + 1 < j {
      SameVersionInBlock(f, input, b, i, j - 1, r);
      var inst := InstAt(f, Point(b, j - 1));
      UpdateAt(Through(f, StartingState(input, b), b, j - 1), f.insts[inst], inst, r);
    }
  }

  function RegionOf(d: InstData): Region
    requires IsAccess(d)
  {
    if d.LoadInst? then d.lflags.region else d.sflags.region
  }

  lemma {:induction false} VersionInBlock(f: Func, input: BlockStates, b: Block, i: nat, j: nat)
    requires WellFormed(f) && b < |f.blocks| && i < j < |f.blocks[b].insts|
    requires IsAccess(f.insts[InstAt(f, Point(b, i))]) && f.insts[InstAt(f, Point(b, j))].LoadInst?
    requires RegionOf(f.insts[InstAt(f, Point(b, i))]) == f.insts[InstAt(f, Point(b, j))].lflags.region
    requires NoWritesBetween(f, b, i, j, f.insts[InstAt(f, Point(b, j))].lflags.region)
    ensures Version(f, input, InstAt(f, Point(b, i))) == Version(f, input, InstAt(f, Point(b, j)))
  {
    hide InstFits, IsTerminator, NoWritesBetween;
    var r, inst := f.insts[InstAt(f, Point(b, j))].lflags.region, InstAt(f, Point(b, i));
    assert f.place[inst] == Point(b, i) && f.place[InstAt(f, Point(b, j))] == Point(b, j);
    SameVersionInBlock(f, input, b, i, j, r);
    UpdateAt(Through(f, StartingState(input, b), b, i), f.insts[inst], inst, r);
  }

  /** Within a block, a load is removed if it accesses, up to the aliases known by then, the location of an earlier
      access of the same region, and nothing in between may write the region. */
  lemma {:induction false} RepeatInBlock(f: Func, input: BlockStates, dominates: (Inst, Inst) -> bool,
      log: seq<PassState>, b: Block, i: nat, j: nat, k: nat)
    requires SsaForm(f) && AllReachable(f) && ExactDominance(f, dominates)
    requires PassLog(f, input, dominates, Layout(f, |f.blocks|), log) && Starts(log[0])
    requires b < |f.blocks| && i < j < |f.blocks[b].insts| && k == |Layout(f, b)| + j < |log|
    requires IsAccess(f.insts[InstAt(f, Point(b, i))]) && f.insts[InstAt(f, Point(b, j))].LoadInst?
    requires RegionOf(f.insts[InstAt(f, Point(b, i))]) == f.insts[InstAt(f, Point(b, j))].lflags.region
    requires NoWritesBetween(f, b, i, j, f.insts[InstAt(f, Point(b, j))].lflags.region)
    requires LoopFree(log[k].aliases)
    requires SameLocation(f, log[k].aliases, f.insts[InstAt(f, Point(b, i))], f.insts[InstAt(f, Point(b, j))])
    ensures InstAt(f, Point(b, j)) in log[|log| - 1].removed
  {
    hide AllReachable, PassLog, Layout, InstFits, IsTerminator, SameLocation, Version, NoWritesBetween, Dominates,
      LoopFree, Starts, Available;
    var order, at := Layout(f, |f.blocks|), |Layout(f, b)|;
    VersionInBlock(f, input, b, i, j);
    forall m | i <= m <= j
      ensures at + m < |order| && order[at + m] == InstAt(f, Point(b, m)) && f.place[order[at + m]] == Point(b, m)
    {
      LayoutHas(f, |f.blocks|, Point(b, m));
    }
    forall m | i <= m <= j ensures Dominates(f, Point(b, i), Point(b, m)) && Dominates(f, Point(b, m), Point(b, j)) {
      BlockDominates(f, b, i, m);
      BlockDominates(f, b, m, j);
    }
    forall m | at + i <= m < k ensures dominates(order[m], order[k]) {
      assert order[at + (m - at)] == order[m];
      TreeSays(f, dominates, Point(b, m - at), Point(b, j));
    }
    forall m | at + i < m < k ensures Unordered(f, order[m], order[at + i]) {
      assert order[at + (m - at)] == order[m];
      NotBack(f, b, i, m - at);
    }
    forall a | 0 <= a < |f.insts| && dominates(a, order[at + i]) ensures dominates(a, order[k]) {
      assert Dominates(f, f.place[a], Point(b, i));
      DominatesTransitive(f, f.place[a], Point(b, i), Point(b, j));
      assert ValidPoint(f, f.place[a]) && InstAt(f, f.place[a]) == a;
      TreeSays(f, dominates, f.place[a], Point(b, j));
    }
    RepeatRemoved(f, input, dominates, log, at + i, k);
  }

  lemma TreeSays(f: Func, dominates: (Inst, Inst) -> bool, p: Point, q: Point)
    requires WellFormed(f) && ExactDominance(f, dominates)
    requires ValidPoint(f, p) && ValidPoint(f, q) && Dominates(f, p, q)
    ensures dominates(InstAt(f, p), InstAt(f, q))
  {
    hide Dominates, InstFits, IsTerminator;
    assert f.place[InstAt(f, p)] == p && f.place[InstAt(f, q)] == q;
  }

  lemma {:induction false} NotBack(f: Func, b: Block, i: nat, m: nat)
    requires WellFormed(f) && AllReachable(f) && b < |f.blocks| && i < m < |f.blocks[b].insts|
    ensures !Dominates(f, Point(b, m), Point(b, i))
  {
    hide InstFits, IsTerminator, Dominates, Reachable;
    BlockDominates(f, b, i, m);
    if Dominates(f, Point(b, m), Point(b, i)) {
      assert ValidPoint(f, Point(b, i));
      DominatesAntisymmetric(f, Point(b, m), Point(b, i));
    }
  }
}
