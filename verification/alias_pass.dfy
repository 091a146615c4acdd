/** The pass as a whole, and the one assumption it needs beyond SSA form and the region discipline:
    the table key does not mention byte order. */
module RedundantLoads {
  import opened Wrappers
  import opened Clif
  import opened ClifSemantics
  import opened LastStore
  import opened LastStorePrecision
  import opened MemoryValues
  import opened AliasAnalysis
  import opened ClifRuns
  import opened LoadElimination
  import opened LoadRewrite

  /** All accesses of the function use one byte order. */
  ghost predicate UniformOrder(f: Func) {
    forall m, n :: 0 <= m < |f.insts| && 0 <= n < |f.insts| && IsAccess(f.insts[m]) && IsAccess(f.insts[n]) ==>
      FlagsOf(f.insts[m]).order == FlagsOf(f.insts[n]).order
  }

  lemma {:induction false} UniformOrdersAgree(f: Func, input: BlockStates, aliases: Aliases, source: map<Value, Inst>)
    requires AliasesOk(f, input, aliases, source) && UniformOrder(f)
    ensures OrdersAgree(f, input, aliases, source)
  {
    hide CodeOk, LoopFree, Root, Version, Dominates, SameLocation;
    forall x | x in aliases
      ensures AliasOk(f, input, aliases, source, x) && OrderAgrees(f, source[x], f.values[x].def.inst)
    {
      assert Forwards(f, input, aliases, source[x], f.values[x].def.inst);
    }
  }

  /** Runs the analysis and the rewrite over a whole function. */
  method ReplaceRedundantLoads(f: Func, dominates: (Inst, Inst) -> bool)
    returns (aliases: Aliases, removed: set<Inst>, ghost input: BlockStates, ghost source: map<Value, Inst>,
        ghost log: seq<PassState>)
    requires SsaForm(f) && AllReachable(f) && SoundDominance(f, dominates)
    ensures AliasesOk(f, input, aliases, source) && Solution(f, input) && ExactInputs(f, input)
    ensures OnlyLoads(f, removed)
    ensures PassLog(f, input, dominates, Layout(f, |f.blocks|), log)
    ensures log[0] == PassState(map[], {}, map[])
    ensures log[|log| - 1].aliases == aliases && log[|log| - 1].removed == removed
    ensures UniformOrder(f) ==> PassResult(f, input, aliases, source, removed)
  {
    hide CodeOk, AllReachable, Solution, AliasOk, Available, UniformOrder, OrdersAgree, LoopFree, PassLog;
    var analysis := new Analysis(f, dominates);
    var func := new Dfg(f);
    NothingAliased(f, analysis.blockInput);
    log := analysis.ComputeAndUpdateAliases(func);
    aliases, removed, input, source := func.aliases, func.removed, analysis.blockInput, func.source;
    if UniformOrder(f) {
      UniformOrdersAgree(f, input, aliases, source);
    }
  }

  lemma NothingAliased(f: Func, input: BlockStates)
    requires WellFormed(f)
    ensures PassOk(f, input, map[], map[], {}, {}, map[])
  {
    hide WellFormed;
  }

  // ---- byte order ----

  /** The value an access knows to be at its location, whose bytes are `raw`. */
  function KnownFrom(f: Func, d: InstData, raw: seq<byte>): Val
    requires IsAccess(d) && InstFits(f, d)
  {
    if d.LoadInst? then LoadedValue(d.lop, d.lflags.order, raw, AccessType(f, d)) else Oriented(d.sflags.order, raw)
  }

  /** Agreeing byte orders make the same of all bytes. */
  lemma {:induction false} OrdersAgreeing(op: Opcode, o: Order, o': Order, ty: Type, raw: seq<byte>)
    requires o == o' || |raw| <= 1
    ensures LoadedValue(op, o, raw, ty) == LoadedValue(op, o', raw, ty)
  {
    hide Reverse, Extend, Oriented;
    OrientTwice(o, o', raw);
  }

  /** Extending a value keeps its first byte. */
  lemma {:induction false} FirstByte(op: Opcode, o: Order, ty: Type, raw: seq<byte>)
    requires |raw| > 0 && (op == Load || (op.ExtLoad? && |raw| <= ty.bytes))
    ensures |LoadedValue(op, o, raw, ty)| > 0 && LoadedValue(op, o, raw, ty)[0] == Oriented(o, raw)[0]
  {
    hide Oriented;
  }

  lemma {:induction false} FirstBytesDiffer(o: Order, o': Order, n: nat) returns (raw: seq<byte>)
    requires o != o' && n > 1
    ensures |raw| == n && Oriented(o, raw)[0] != Oriented(o', raw)[0]
  {
    raw := [1] + seq(n - 1, _ => 0);
    assert raw[0] == 1 && raw[n - 1] == 0;
  }

  lemma {:induction false} OrdersMatter(op: Opcode, o: Order, o': Order, ty: Type, n: nat)
    requires op == Load || (op.ExtLoad? && n <= ty.bytes)
    ensures (o == o' || n <= 1) <==>
      forall raw: seq<byte> :: |raw| == n ==> LoadedValue(op, o, raw, ty) == LoadedValue(op, o', raw, ty)
  {
    hide LoadedValue, Oriented;
    if o == o' || n <= 1 {
      forall raw: seq<byte> | |raw| == n ensures LoadedValue(op, o, raw, ty) == LoadedValue(op, o', raw, ty) {
        OrdersAgreeing(op, o, o', ty, raw);
      }
    } else {
      var raw := FirstBytesDiffer(o, o', n);
      FirstByte(op, o, ty, raw);
      FirstByte(op, o', ty, raw);
    }
  }

  lemma KnownIsLoaded(f: Func, aliases: Aliases, d: InstData, l: InstData)
    requires LoopFree(aliases) && IsAccess(d) && l.LoadInst? && InstFits(f, d) && InstFits(f, l) &&
      SameLocation(f, aliases, d, l)
    ensures forall raw :: KnownFrom(f, d, raw) == LoadedValue(l.lop, FlagsOf(d).order, raw, AccessType(f, l))
    ensures l.lop == Load || (l.lop.ExtLoad? && WidthOf(f, l) <= AccessType(f, l).bytes)
  {
    hide Root, LoopFree, Oriented, Extend;
    SameWidth(f, aliases, d, l);
  }

  /** What a store knows is what it stored. */
  lemma StoreKnows(f: Func, d: InstData, v: Val)
    requires d.StoreInst? && d.sop == Store && InstFits(f, d)
    ensures KnownFrom(f, d, StoredBytes(d.sop, d.sflags.order, v, AccessType(f, d))) == v
  {
    hide Reverse, AccessType;
    ReverseTwice(v);
  }

  /** A load makes of every content of its location what the access at the same location knows about it
      exactly if their byte orders agree or the location is a single byte. What a store knows is what it
      stored. */
  lemma {:induction false} ByteOrderMatters(f: Func, aliases: Aliases, def: Inst, load: Inst)
    requires WellFormed(f) && LoopFree(aliases) && def < |f.insts| && load < |f.insts|
    requires IsAccess(f.insts[def]) && f.insts[load].LoadInst? && SameLocation(f, aliases, f.insts[def], f.insts[load])
    ensures
      var d, l := f.insts[def], f.insts[load];
      OrderAgrees(f, def, load) <==>
      forall raw: seq<byte> :: |raw| == WidthOf(f, l) ==>
        LoadedValue(l.lop, l.lflags.order, raw, AccessType(f, l)) == KnownFrom(f, d, raw)
    ensures
      var d := f.insts[def];
      d.StoreInst? ==> forall v :: KnownFrom(f, d, StoredBytes(d.sop, d.sflags.order, v, AccessType(f, d))) == v
  {
    hide SameLocation, LoopFree, KnownFrom, LoadedValue, StoredBytes, WidthOf, AccessType;
    var d, l := f.insts[def], f.insts[load];
    SameWidth(f, aliases, d, l);
    forall v | d.StoreInst? ensures KnownFrom(f, d, StoredBytes(d.sop, d.sflags.order, v, AccessType(f, d))) == v {
      StoreKnows(f, d, v);
    }
    KnownIsLoaded(f, aliases, d, l);
    OrdersMatter(l.lop, l.lflags.order, FlagsOf(d).order, AccessType(f, l), WidthOf(f, l));
  }
}
