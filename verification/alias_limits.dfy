/** Where the pass stops being right: functions it miscompiles, the loop it makes of unreachable code, and
    the meet it must not use. */
module AliasLimits {
  import opened Wrappers
  import opened Clif
  import opened ClifSemantics
  import opened LastStore
  import opened MemoryValues
  import opened AliasAnalysis
  import opened LoadRewrite

  lemma {:induction false} EntryDominates(f: Func, p: Point)
    ensures Dominates(f, Point(0, 0), p)
  {
    hide CodeOk;
    forall path | PathTo(f, path, p) ensures Point(0, 0) in path {
      assert path[0] == Point(0, 0);
    }
  }

  lemma NothingAliasedYet()
    ensures LoopFree(map[])
    ensures forall v: Value :: Root(map[], v) == v
  {
  }

  // ---- mixed byte orders ----

  const I64 := Type(8, 0)
  const I16 := Type(2, 0)

  /** `block0(v0: i64, v1: i16): store little v1, v0; v2 = load.i16 big v0; return v2` */
  function MixedOrders(): Func {
    Func([BlockData([0, 1], [0, 1, 2])],
         [StoreInst(Store, MemFlags(Heap, Little), 1, 0, 0), LoadInst(Load, MemFlags(Heap, Big), 0, 0, 2), Return([2])],
         [ValueData(I64, ParamDef(0)), ValueData(I16, ParamDef(0)), ValueData(I16, ResultDef(1))],
         [Point(0, 0), Point(0, 1), Point(0, 2)])
  }

  lemma MixedOrdersFits(n: nat)
    requires n < 3
    ensures InstFits(MixedOrders(), MixedOrders().insts[n])
  {
  }

  lemma MixedOrdersPoint(p: Point)
    requires ValidPoint(MixedOrders(), p)
    ensures p == Point(0, 0) || p == Point(0, 1) || p == Point(0, 2)
  {
  }

  lemma MixedOrdersCode()
    ensures CodeOk(MixedOrders())
  {
    hide InstFits;
    var f := MixedOrders();
    forall n | 0 <= n < |f.insts| ensures InstFits(f, f.insts[n]) {
      MixedOrdersFits(n);
    }
    forall p | ValidPoint(f, p)
      ensures InstAt(f, p) < |f.insts| && (IsTerminator(f.insts[InstAt(f, p)]) <==> IsLast(f, p))
    {
      MixedOrdersPoint(p);
    }
  }

  lemma MixedOrdersValues(n: Inst, v: Value)
    requires n < |MixedOrders().insts| && v in Results(MixedOrders().insts[n])
    ensures v < |MixedOrders().values| && MixedOrders().values[v].def == ResultDef(n)
  {
  }

  lemma MixedOrdersWellFormed()
    ensures WellFormed(MixedOrders())
  {
    hide InstFits, CodeOk, Results;
    var f := MixedOrders();
    MixedOrdersCode();
    forall p | ValidPoint(f, p) ensures f.place[InstAt(f, p)] == p {
      MixedOrdersPoint(p);
    }
    forall n, v | 0 <= n < |f.insts| && v in Results(f.insts[n])
      ensures v < |f.values| && f.values[v].def == ResultDef(n) {
      MixedOrdersValues(n, v);
    }
  }
  /** The only way to the second and third instruction leads through the one before. */
  lemma {:induction false} MixedOrdersDominates(i: nat)
    requires 0 < i < 3
    ensures Dominates(MixedOrders(), Point(0, i - 1), Point(0, i))
  {
    hide InstFits, IsTerminator;
    var f := MixedOrders();
    MixedOrdersCode();
    forall path | PathTo(f, path, Point(0, i)) ensures Point(0, i - 1) in path {
      var k := |path| - 1;
      assert Next(f, path[k - 1], path[k]);
      MixedOrdersPoint(path[k - 1]);
    }
  }

  lemma {:induction false} MixedOrdersReachable(i: nat)
    requires i < 3
    ensures Reachable(MixedOrders(), Point(0, i))
  {
    hide InstFits, IsTerminator;
    var f := MixedOrders();
    MixedOrdersCode();
    var path := seq(i + 1, k requires 0 <= k => Point(0, k));
    forall k | 0 < k < |path| ensures Next(f, path[k - 1], path[k]) {
    }
    assert PathTo(f, path, Point(0, i));
  }

  /** The function is one the pass accepts. */
  lemma {:induction false} MixedOrdersAccepted()
    ensures SsaForm(MixedOrders()) && AllReachable(MixedOrders())
  {
    hide InstFits, CodeOk, Dominates, Reachable;
    var f := MixedOrders();
    MixedOrdersWellFormed();
    forall p, v: Value | ValidPoint(f, p) && UsesValue(f.insts[InstAt(f, p)], v) ensures Available(f, v, p) {
      MixedOrdersPoint(p);
      EntryDominates(f, p);
      MixedOrdersDominates(2);
    }
    forall p | ValidPoint(f, p) ensures Reachable(f, p) {
      MixedOrdersPoint(p);
      MixedOrdersReachable(p.i);
    }
  }

  /** The load qualifies for the value of the store. */
  lemma {:induction false} MixedOrdersForwarded(input: BlockStates)
    ensures WellFormed(MixedOrders()) && LoopFree(map[]) && Forwards(MixedOrders(), input, map[], 0, 1)
  {
    hide CodeOk, Dominates;
    MixedOrdersWellFormed();
    NothingAliasedYet();
    MixedOrdersFits(0);
    MixedOrdersFits(1);
    MixedOrdersDominates(1);
  }

  lemma MixedOrdersLayout()
    ensures Layout(MixedOrders(), |MixedOrders().blocks|) == [0, 1, 2]
  {
    assert Layout(MixedOrders(), 1) == Layout(MixedOrders(), 0) + [0, 1, 2];
  }

  /** The key of both accesses. */
  lemma {:induction false} MixedOrdersKey(input: BlockStates, n: Inst)
    requires n < 2
    ensures WellFormed(MixedOrders()) && LoopFree(map[])
    ensures KeyOf(MixedOrders(), input, map[], n) == MemoryLoc(Some(0), 0, 0, I16, None)
  {
    hide CodeOk, InstFits;
    MixedOrdersWellFormed();
    MixedOrdersFits(n);
    NothingAliasedYet();
  }

  /** Whatever the analysis has found out, the pass removes the load in favour of the stored value. */
  lemma {:induction false} MixedOrdersPass(input: BlockStates, dominates: (Inst, Inst) -> bool, log: seq<PassState>)
    requires dominates(0, 1)
    requires PassLog(MixedOrders(), input, dominates, [0, 1, 2], log) && log[0] == PassState(map[], {}, map[])
    ensures log[3].aliases == map[2 := 1] && log[3].removed == {1}
  {
    hide WellFormed, LoopFree, Root, KeyOf;
    var f := MixedOrders();
    NothingAliasedYet();
    MixedOrdersKey(input, 0);
    MixedOrdersKey(input, 1);
    var key := MemoryLoc(Some(0), 0, 0, I16, None);
    assert PassStep(f, input, dominates, [0, 1, 2][0], log[0], log[1]);
    assert log[1] == PassState(map[], {}, map[key := (0, 1)]);
    assert PassStep(f, input, dominates, [0, 1, 2][1], log[1], log[2]);
    assert log[2] == PassState(map[2 := 1], {1}, log[1].table);
    assert PassStep(f, input, dominates, [0, 1, 2][2], log[2], log[3]);
  }

  /** A state in which the two bytes to be stored differ, and the location is accessible. */
  ghost predicate MixedStart(s: State) {
    && s.Running? && s.pt == Point(0, 0) && StateOk(MixedOrders(), s)
    && s.env[1] == [1, 0] && Accessible(s.mem, EffectiveAddress(s.env[0], 0), 2)
  }

  lemma {:induction false} MixedStartExists() returns (s: State)
    ensures MixedStart(s)
  {
    hide EffectiveAddress;
    var v0: Val := [0, 0, 0, 0, 0, 0, 0, 0];
    var a := EffectiveAddress(v0, 0);
    s := Running(Point(0, 0), [v0, [1, 0], [0, 0]], map[a := 0, a + 1 := 0], []);
  }

  /** The state after the store, in the original and in the rewritten function. */
  ghost function MixedStored(s: State): State
    requires MixedStart(s)
  {
    var a := EffectiveAddress(s.env[0], 0);
    Running(Point(0, 1), s.env, WriteBytes(s.mem, a, [1, 0]), s.trace + [StoreEvent(a, [1, 0])])
  }

  lemma {:induction false} MixedStore(f: Func, w: World, s: State)
    requires MixedStart(s) && CodeOk(f) && StateOk(f, s) && InstAt(f, s.pt) == 0 && f.values == MixedOrders().values
    requires f.insts[0] == MixedOrders().insts[0]
    ensures Step(f, w, s) == MixedStored(s)
  {
    hide CodeOk, EffectiveAddress, WriteBytes;
  }

  lemma {:induction false} MixedLoad(w: World, s: State)
    requires MixedStart(s) && CodeOk(MixedOrders())
    ensures
      var s1 := MixedStored(s);
      StateOk(MixedOrders(), s1) &&
      Step(MixedOrders(), w, s1) == s1.(pt := Point(0, 2), env := s1.env[2 := [0, 1]])
  {
    hide CodeOk, EffectiveAddress;
    var f, s1 := MixedOrders(), MixedStored(s);
    var a := EffectiveAddress(s.env[0], 0);
    assert ReadBytes(s1.mem, a, 2) == [1, 0];
    assert Reverse([1, 0]) == [0, 1];
    assert Fit([0, 1], 2) == [0, 1];
    assert Bind(f, s1.env, [2], [[0, 1]]) == s1.env[2 := [0, 1]] by { BindTwo(f, s1.env); }
  }

  lemma BindTwo(f: Func, env: Env)
    requires f == MixedOrders() && TypedEnv(f, env)
    ensures Bind(f, env, [2], [[0, 1]]) == env[2 := [0, 1]]
  {
    assert [2][..0] == [];
    assert Fit([0, 1], 2) == [0, 1];
  }

  lemma {:induction false} MixedReturn(w: World, t: State)
    requires CodeOk(MixedOrders()) && t.Running? && StateOk(MixedOrders(), t) && t.pt == Point(0, 2)
    ensures Step(MixedOrders(), w, t) == Halted(Returned([t.env[2]]), t.mem, t.trace)
  {
    hide CodeOk;
    assert GetAll(t.env, [2]) == [t.env[2]];
  }

  /** The original returns the bytes in reverse. */
  lemma {:induction false} MixedOrdersOriginal(w: World, s: State)
    requires MixedStart(s) && CodeOk(MixedOrders())
    ensures Exec(MixedOrders(), w, s, 3) == Halted(Returned([[0, 1]]), MixedStored(s).mem, MixedStored(s).trace)
  {
    hide CodeOk, EffectiveAddress, WriteBytes, Exec, Step;
    var f, s1 := MixedOrders(), MixedStored(s);
    MixedStore(f, w, s);
    MixedLoad(w, s);
    MixedReturn(w, s1.(pt := Point(0, 2), env := s1.env[2 := [0, 1]]));
    ExecOn(f, w, s, 0);
    ExecOn(f, w, s, 1);
    ExecOn(f, w, s, 2);
  }

  lemma ExecOn(f: Func, w: World, s: State, n: nat)
    requires CodeOk(f) && StateOk(f, s)
    ensures Exec(f, w, s, 0) == s && Exec(f, w, s, n + 1) == Step(f, w, Exec(f, w, s, n))
  {
  }

  lemma {:induction false} MixedOrdersAliases()
    ensures LoopFree(map[2 := 1]) && Root(map[2 := 1], 0) == 0 && Root(map[2 := 1], 1) == 1 && Root(map[2 := 1], 2) == 1
  {
    hide LoopFree, Root;
    NothingAliasedYet();
    AddAlias(map[], 2, 1);
    assert map[][2 := 1] == map[2 := 1];
    RootIsOriginal(map[2 := 1], 2);
  }

  lemma {:induction false} MixedOrdersRewrite()
    ensures LoopFree(map[2 := 1])
    ensures
      var f, g := MixedOrders(), Rewrite(MixedOrders(), map[2 := 1], {1});
      && CodeOk(g) && g.values == f.values && g.blocks == [BlockData([0, 1], [0, 2])]
      && g.insts[0] == f.insts[0] && g.insts[2] == Return([1])
  {
    hide LoopFree, Root, CodeOk, InstFits, Keep;
    var f := MixedOrders();
    MixedOrdersAliases();
    MixedOrdersCode();
    KeepMixed();
    RewriteCodeOk(f, map[2 := 1], {1});
    assert RootAll(map[2 := 1], [2]) == [1];
  }

  lemma KeepMixed()
    ensures Keep([0, 1, 2], {1}) == [0, 2]
  {
    assert [0, 1, 2][..2] == [0, 1] && [0, 1][..1] == [0] && [0][..0] == [];
    assert Keep([0], {1}) == [0];
    assert Keep([0, 1], {1}) == [0];
  }

  /** The rewritten function returns the bytes as they were stored. */
  lemma {:induction false} MixedOrdersRewritten(w: World, s: State)
    requires MixedStart(s)
    ensures LoopFree(map[2 := 1])
    ensures
      var g := Rewrite(MixedOrders(), map[2 := 1], {1});
      && CodeOk(g) && StateOk(g, s)
      && Exec(g, w, s, 2) == Halted(Returned([[1, 0]]), MixedStored(s).mem, MixedStored(s).trace)
  {
    hide CodeOk, EffectiveAddress, WriteBytes, Exec, Rewrite, LoopFree;
    MixedOrdersRewrite();
    var g := Rewrite(MixedOrders(), map[2 := 1], {1});
    MixedStore(g, w, s);
    ExecOn(g, w, s, 0);
    ExecOn(g, w, s, 1);
    assert GetAll(s.env, [1]) == [[1, 0]];
  }

  /** With mixed byte orders the pass changes what a function returns. */
  lemma {:induction false} MixedOrdersMiscompiled(input: BlockStates, dominates: (Inst, Inst) -> bool,
      log: seq<PassState>, w: World, s: State)
    requires dominates(0, 1) && MixedStart(s)
    requires PassLog(MixedOrders(), input, dominates, Layout(MixedOrders(), |MixedOrders().blocks|), log)
    requires log[0] == PassState(map[], {}, map[])
    ensures SsaForm(MixedOrders()) && AllReachable(MixedOrders()) && LoopFree(log[3].aliases)
    ensures
      var g, s1 := Rewrite(MixedOrders(), log[3].aliases, log[3].removed), MixedStored(s);
      && CodeOk(g) && StateOk(g, s)
      && Exec(MixedOrders(), w, s, 3) == Halted(Returned([[0, 1]]), s1.mem, s1.trace)
      && Exec(g, w, s, 2) == Halted(Returned([[1, 0]]), s1.mem, s1.trace)
  {
    hide CodeOk, Exec, Rewrite, LoopFree, PassLog, MixedStart, MixedStored, SsaForm, AllReachable;
    MixedOrdersLayout();
    MixedOrdersAccepted();
    MixedOrdersCode();
    LogLength(input, dominates, log);
    MixedOrdersPass(input, dominates, log);
    MixedOrdersOriginal(w, s);
    MixedOrdersRewritten(w, s);
  }

  lemma LogLength(input: BlockStates, dominates: (Inst, Inst) -> bool, log: seq<PassState>)
    requires PassLog(MixedOrders(), input, dominates, [0, 1, 2], log)
    ensures |log| == 4
  {
    hide PassStep;
  }

  // ---- unreachable code ----

  /** `block0(v0: i64): return; block1: store v1, v0; v1 = load.i16 v0; return`, where nothing leads to block1 */
  function DeadBlock(): Func {
    Func([BlockData([0], [0]), BlockData([], [1, 2, 3])],
         [Return([]), StoreInst(Store, MemFlags(Heap, Little), 1, 0, 0),
          LoadInst(Load, MemFlags(Heap, Little), 0, 0, 1), Return([])],
         [ValueData(I64, ParamDef(0)), ValueData(I16, ResultDef(2))],
         [Point(0, 0), Point(1, 0), Point(1, 1), Point(1, 2)])
  }

  lemma DeadBlockFits(n: nat)
    requires n < 4
    ensures InstFits(DeadBlock(), DeadBlock().insts[n])
  {
  }

  lemma DeadBlockPoint(p: Point)
    requires ValidPoint(DeadBlock(), p)
    ensures p == Point(0, 0) || p == Point(1, 0) || p == Point(1, 1) || p == Point(1, 2)
  {
  }

  lemma DeadBlockCode()
    ensures CodeOk(DeadBlock())
  {
    hide InstFits;
    var f := DeadBlock();
    forall n | 0 <= n < |f.insts| ensures InstFits(f, f.insts[n]) {
      DeadBlockFits(n);
    }
    forall p | ValidPoint(f, p)
      ensures InstAt(f, p) < |f.insts| && (IsTerminator(f.insts[InstAt(f, p)]) <==> IsLast(f, p))
    {
      DeadBlockPoint(p);
    }
  }

  lemma DeadBlockValues(n: Inst, v: Value)
    requires n < |DeadBlock().insts| && v in Results(DeadBlock().insts[n])
    ensures v < |DeadBlock().values| && DeadBlock().values[v].def == ResultDef(n)
  {
  }

  lemma DeadBlockWellFormed()
    ensures WellFormed(DeadBlock())
  {
    hide InstFits, CodeOk, Results;
    var f := DeadBlock();
    DeadBlockCode();
    forall p | ValidPoint(f, p) ensures f.place[InstAt(f, p)] == p {
      DeadBlockPoint(p);
    }
    forall n, v | 0 <= n < |f.insts| && v in Results(f.insts[n])
      ensures v < |f.values| && f.values[v].def == ResultDef(n) {
      DeadBlockValues(n, v);
    }
  }
  lemma FirstEdge(f: Func, path: seq<Point>)
    requires IsPath(f, path) && |path| > 1
    ensures Next(f, path[0], path[1])
  {
    hide CodeOk;
  }

  lemma {:induction false} DeadBlockUnreachable(p: Point)
    requires p.b == 1
    ensures !Reachable(DeadBlock(), p)
  {
    hide InstFits, IsTerminator;
    var f := DeadBlock();
    DeadBlockCode();
    forall path | IsPath(f, path) ensures |path| == 1 {
      if |path| > 1 { FirstEdge(f, path); }
    }
  }

  lemma {:induction false} DeadBlockSsa()
    ensures SsaForm(DeadBlock()) && !AllReachable(DeadBlock())
  {
    hide InstFits, CodeOk, IsPath;
    var f := DeadBlock();
    DeadBlockWellFormed();
    forall p, v: Value | ValidPoint(f, p) && UsesValue(f.insts[InstAt(f, p)], v) ensures Available(f, v, p) {
      DeadBlockPoint(p);
      DeadBlockUnreachable(p);
    }
    DeadBlockUnreachable(Point(1, 0));
    assert ValidPoint(f, Point(1, 0));
  }

  lemma {:induction false} DeadBlockKey(input: BlockStates, n: Inst)
    requires 1 <= n <= 2
    ensures WellFormed(DeadBlock()) && LoopFree(map[])
    ensures KeyOf(DeadBlock(), input, map[], n) == MemoryLoc(Some(1), 0, 0, I16, None)
  {
    hide CodeOk, InstFits;
    DeadBlockWellFormed();
    DeadBlockFits(n);
    NothingAliasedYet();
  }

  /** In unreachable code in SSA form, the pass can make a load an alias of itself. */
  lemma {:induction false} DeadBlockLoops(input: BlockStates, dominates: (Inst, Inst) -> bool, log: seq<PassState>)
    requires dominates(1, 2)
    requires PassLog(DeadBlock(), input, dominates, [0, 1, 2], log) && log[0] == PassState(map[], {}, map[])
    ensures SsaForm(DeadBlock()) && !AllReachable(DeadBlock())
    ensures Dominates(DeadBlock(), DeadBlock().place[1], DeadBlock().place[2])
    ensures log[3].aliases == map[1 := 1] && !LoopFree(log[3].aliases)
  {
    hide WellFormed, LoopFree, Root, KeyOf, IsPath, AllReachable, SsaForm;
    var f := DeadBlock();
    DeadBlockSsa();
    DeadBlockUnreachable(Point(1, 1));
    NothingAliasedYet();
    DeadBlockKey(input, 1);
    DeadBlockKey(input, 2);
    var key := MemoryLoc(Some(1), 0, 0, I16, None);
    assert PassStep(f, input, dominates, [0, 1, 2][0], log[0], log[1]);
    assert PassStep(f, input, dominates, [0, 1, 2][1], log[1], log[2]);
    assert log[2] == PassState(map[], {}, map[key := (1, 1)]);
    assert PassStep(f, input, dominates, [0, 1, 2][2], log[2], log[3]);
    AliasLoops(map[], 1, 1);
    assert map[][1 := 1] == map[1 := 1];
  }

  // ---- a meet that lets an absent store give way ----

  /** What the arms of the meet would compute if an absent operand reached them as absent. */
  function EagerMeet(a: Option<Inst>, b: Option<Inst>, loc: Inst): Option<Inst> {
    if a.None? then b else if b.None? || a == b then a else Some(loc)
  }

  ghost predicate EagerSolution(f: Func, input: BlockStates)
    requires CodeOk(f)
  {
    && 0 in input && input[0] == NO_STORES
    && forall b, j, r: Region :: 0 <= b < |f.blocks| && b in input && 0 <= j < |Succs(f, b)| ==>
      var s := Succs(f, b)[j];
      s in input && s < |f.blocks| &&
      input[s].At(r) == EagerMeet(input[s].At(r), Output(f, input[b], b).At(r), FirstInst(f, s))
  }

  /** `block0(v0: i64): jump block1; block1: v1 = iconst; store v1, v0; jump block1` */
  function StoringLoop(): Func {
    Func([BlockData([0], [0]), BlockData([], [1, 2, 3])],
         [Jump(BlockCall(1, [])), Pure(0, [], 1), StoreInst(Store, MemFlags(Heap, Little), 1, 0, 0),
          Jump(BlockCall(1, []))],
         [ValueData(I64, ParamDef(0)), ValueData(I16, ResultDef(1))],
         [Point(0, 0), Point(1, 0), Point(1, 1), Point(1, 2)])
  }

  function StoringLoopInput(): BlockStates {
    map[0 := NO_STORES, 1 := LastStores(Some(2), None, None, None)]
  }

  lemma StoringLoopFits(n: nat)
    requires n < 4
    ensures InstFits(StoringLoop(), StoringLoop().insts[n])
  {
  }

  lemma StoringLoopCode()
    ensures CodeOk(StoringLoop())
  {
    hide InstFits;
    var f := StoringLoop();
    forall n | 0 <= n < |f.insts| ensures InstFits(f, f.insts[n]) {
      StoringLoopFits(n);
    }
    forall p | ValidPoint(f, p)
      ensures InstAt(f, p) < |f.insts| && (IsTerminator(f.insts[InstAt(f, p)]) <==> IsLast(f, p))
    {
      assert p == Point(0, 0) || p == Point(1, 0) || p == Point(1, 1) || p == Point(1, 2);
    }
  }

  lemma {:induction false} StoringLoopOutput()
    ensures CodeOk(StoringLoop())
    ensures Output(StoringLoop(), NO_STORES, 0) == NO_STORES
    ensures Output(StoringLoop(), StoringLoopInput()[1], 1) == StoringLoopInput()[1]
  {
    hide CodeOk;
    StoringLoopCode();
    var f, ls := StoringLoop(), StoringLoopInput()[1];
    assert Through(f, NO_STORES, 0, 0) == NO_STORES;
    assert Through(f, ls, 1, 0) == ls;
    assert Through(f, ls, 1, 1) == ls;
    assert Through(f, ls, 1, 2) == ls;
  }

  /** With that meet the equations have a solution that is wrong about the first round of the loop: it
      claims a store that has not happened yet. */
  lemma {:induction false} EagerMeetMisleads()
    ensures CodeOk(StoringLoop()) && EagerSolution(StoringLoop(), StoringLoopInput())
    ensures
      var f, path := StoringLoop(), [Point(0, 0), Point(1, 0)];
      && IsPath(f, path) && StateAt(f, StoringLoopInput(), path[1]).At(Heap) == Some(2)
      && !Describes(f, path, Heap, Some(2), 1)
  {
    hide CodeOk;
    StoringLoopOutput();
    var f := StoringLoop();
    assert Succs(f, 0) == [1] && Succs(f, 1) == [1];
  }
}
