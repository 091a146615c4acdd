/** Soundness of redundant-load elimination: on every disciplined run, a removed load would have
    read, without trapping, the current value of the value that replaces it. */
module LoadElimination {
  import opened Wrappers
  import opened Clif
  import opened ClifPaths
  import opened ClifSemantics
  import opened LastStore
  import opened MemoryValues
  import opened ClifRuns

  // ---- versions of memory ----

  /** The instruction recorded for a region dominates the point. */
  lemma {:induction false} TokenDominates(f: Func, input: BlockStates, p: Point, r: Region, token: Inst)
    requires WellFormed(f) && Solution(f, input) && ValidPoint(f, p) && StateAt(f, input, p).At(r) == Some(token) &&
      Reachable(f, p)
    ensures token < |f.insts| && Dominates(f, f.place[token], p)
  {
    hide InstFits, IsTerminator, Next, Solution, StateAt, MayWrite, NoWrites;
    var some :| PathTo(f, some, p);
    StateDescribesPath(f, input, some, r, |some| - 1);
    forall path | PathTo(f, path, p) ensures f.place[token] in path {
      StateDescribesPath(f, input, path, r, |path| - 1);
      var j :| 0 <= j <= |path| - 1 && EventAt(f, path, r, token, j, |path| - 1);
      assert f.place[InstAt(f, path[j])] == path[j];
    }
  }

  /** Two accesses that see the same version of a region, the first dominating the second: nothing
      writes the region between the last execution of the first and the second. */
  lemma {:induction false} SameVersionNoWrites(f: Func, input: BlockStates, path: seq<Point>, d: Point, lo: nat,
      hi: nat, r: Region)
    requires WellFormed(f) && Solution(f, input) && AllReachable(f) && IsPath(f, path) && lo < hi < |path|
    requires path[lo] == d && (forall j :: lo < j <= hi ==> path[j] != d) && Dominates(f, d, path[hi])
    requires StateAt(f, input, d).At(r) == StateAt(f, input, path[hi]).At(r)
    requires !MayWrite(f.insts[InstAt(f, d)], r)
    ensures NoWrites(f, path, r, lo, hi)
  {
    hide InstFits, IsTerminator, Next, Solution, StateAt, MayWrite, Dominates, Reachable;
    StateDescribesPath(f, input, path, r, hi);
    if StateAt(f, input, d).At(r).Some? {
      var token := StateAt(f, input, d).At(r).value;
      TokenDominates(f, input, d, r, token);
      var j :| 0 <= j <= hi && EventAt(f, path, r, token, j, hi);
      assert path[j] == f.place[token];
      if j > lo {
        NoReentry(f, path, d, path[j], lo, hi, j);
        assert false;
      }
    }
  }

  /** A load that sees the version made by a store of its own region: nothing writes the region after
      the last execution of the store. */
  lemma {:induction false} StoreVersionNoWrites(f: Func, input: BlockStates, path: seq<Point>, store: Inst, lo: nat,
      hi: nat, r: Region)
    requires WellFormed(f) && Solution(f, input) && IsPath(f, path) && lo < hi < |path| && store < |f.insts|
    requires path[lo] == f.place[store] && (forall j :: lo < j <= hi ==> path[j] != f.place[store])
    requires StateAt(f, input, path[hi]).At(r) == Some(store) && MayWrite(f.insts[store], r)
    ensures NoWrites(f, path, r, lo + 1, hi)
  {
    hide InstFits, IsTerminator, Next, Solution, StateAt, MayWrite;
    StateDescribesPath(f, input, path, r, hi);
    var j :| 0 <= j <= hi && EventAt(f, path, r, store, j, hi);
    assert path[j] == f.place[store];
    assert InstAt(f, path[lo]) == store;
    assert j <= lo;
  }

  // ---- what a forwarded load reads ----

  lemma {:induction false} SameRegionBytes(m: Mem, m': Mem, r: Region, regionOf: int -> Region, a: int, n: nat)
    requires SameRegion(m, m', r, regionOf) && Accessible(m, a, n)
    requires forall x :: a <= x < a + n ==> regionOf(x) == r
    ensures Accessible(m', a, n) && ReadBytes(m', a, n) == ReadBytes(m, a, n)
  {
    forall x | a <= x < a + n ensures x in m' && m'[x] == m[x] {
      assert regionOf(x) == r;
    }
  }

  lemma {:induction false} ReadBack(m: Mem, a: int, bytes: seq<byte>)
    requires Accessible(m, a, |bytes|)
    ensures Accessible(WriteBytes(m, a, bytes), a, |bytes|) && ReadBytes(WriteBytes(m, a, bytes), a, |bytes|) == bytes
  {
    var m' := WriteBytes(m, a, bytes);
    forall i | 0 <= i < |bytes| ensures a + i in m' && m'[a + i] == bytes[i] {
      assert a + i in m;
    }
  }

  /** The bytes the access leaves behind at its location: what it read, or what it wrote. */
  ghost function BytesOf(f: Func, s: State): seq<byte>
    requires CodeOk(f) && StateOk(f, s) && s.Running? && IsAccess(f.insts[InstAt(f, s.pt)])
  {
    var d := f.insts[InstAt(f, s.pt)];
    if d.StoreInst? then StoredBytes(d.sop, d.sflags.order, s.env[d.sdata], f.values[d.sdata].ty)
    else
      var a, n := AccessAddress(d, s.env), WidthOf(f, d);
      if Accessible(s.mem, a, n) then ReadBytes(s.mem, a, n) else []
  }

  /** After an access has completed, its location holds those bytes. */
  lemma {:induction false} AccessLeavesBytes(f: Func, w: World, s: State)
    requires CodeOk(f) && StateOk(f, s) && s.Running? && IsAccess(f.insts[InstAt(f, s.pt)]) && Step(f, w, s).Running?
    ensures
      var d, m := f.insts[InstAt(f, s.pt)], Step(f, w, s).mem;
      && Accessible(m, AccessAddress(d, s.env), WidthOf(f, d))
      && ReadBytes(m, AccessAddress(d, s.env), WidthOf(f, d)) == BytesOf(f, s)
  {
    hide Bind, ToInt, Chosen, EffectiveAddress;
    var d := f.insts[InstAt(f, s.pt)];
    if d.StoreInst? {
      var bytes := StoredBytes(d.sop, d.sflags.order, s.env[d.sdata], f.values[d.sdata].ty);
      assert |bytes| == WidthOf(f, d);
      ReadBack(s.mem, AccessAddress(d, s.env), bytes);
    }
  }

  /** Equal extending opcodes and types mean equal widths. */
  lemma SameWidth(f: Func, aliases: Aliases, d: InstData, e: InstData)
    requires LoopFree(aliases) && IsAccess(d) && IsAccess(e) && InstFits(f, d) && InstFits(f, e) &&
      SameLocation(f, aliases, d, e)
    ensures WidthOf(f, d) == WidthOf(f, e) > 0
    ensures d.LoadInst? && e.LoadInst? ==> d.lop == e.lop
    ensures d.StoreInst? && e.LoadInst? ==> d.sop == Store && e.lop == Load
  {
    hide LoopFree, Root;
  }

  lemma {:induction false} ForwardedUnwritten(f: Func, input: BlockStates, aliases: Aliases, def: Inst, load: Inst,
      path: seq<Point>, lo: nat, hi: nat)
    requires WellFormed(f) && AllReachable(f) && Solution(f, input) && LoopFree(aliases) &&
      Forwards(f, input, aliases, def, load)
    requires FlagsOf(f.insts[def]).region == FlagsOf(f.insts[load]).region
    requires IsPath(f, path) && lo < hi < |path|
    requires path[lo] == f.place[def] && path[hi] == f.place[load] && forall j :: lo < j < hi ==>
      path[j] != f.place[def]
    ensures NoWrites(f, path, f.insts[load].lflags.region, lo + 1, hi)
  {
    hide InstFits, IsTerminator, Next, Solution, Reachable, AllReachable, Dominates, StateAt, LoopFree, Root;
    PlaceDistinct(f, def, load);
    if f.insts[def].StoreInst? {
      StoreVersionNoWrites(f, input, path, def, lo, hi, f.insts[load].lflags.region);
    } else {
      SameVersionNoWrites(f, input, path, f.place[def], lo, hi, f.insts[load].lflags.region);
    }
  }

  /** The forwarded load finds, at its location, the bytes that the source access left there. */
  lemma {:induction false} ForwardedBytes(f: Func, input: BlockStates, aliases: Aliases, def: Inst, load: Inst,
      w: World, run: seq<State>, regionOf: int -> Region, lo: nat, hi: nat)
    requires WellFormed(f) && AllReachable(f) && Solution(f, input) && LoopFree(aliases) &&
      Forwards(f, input, aliases, def, load)
    requires IsRun(f, w, run) && Disciplined(f, run, regionOf) && IsPath(f, PathOf(run)) && lo < hi < |run|
    requires run[lo].pt == f.place[def] && run[hi].pt == f.place[load] && forall j :: lo < j < hi ==>
      run[j].pt != f.place[def]
    requires AccessAddress(f.insts[def], run[lo].env) == AccessAddress(f.insts[load], run[hi].env)
    ensures
      var a, n := AccessAddress(f.insts[load], run[hi].env), WidthOf(f, f.insts[load]);
      && Accessible(run[hi].mem, a, n)
      && ReadBytes(run[hi].mem, a, n) == BytesOf(f, run[lo])
      && n == WidthOf(f, f.insts[def])
  {
    hide InstFits, IsTerminator, Next, Solution, AllReachable, Dominates, Step, Accessible, Version, LoopFree, Root,
      EffectiveAddress, NoWrites;
    var d, l := f.insts[def], f.insts[load];
    FitsAt(f, def);
    FitsAt(f, load);
    SameWidth(f, aliases, d, l);
    var a, n := AccessAddress(l, run[hi].env), WidthOf(f, l);
    assert AccessInRegion(f, run[lo], regionOf) && AccessInRegion(f, run[hi], regionOf);
    assert regionOf(a) == FlagsOf(d).region == FlagsOf(l).region;
    var r := FlagsOf(l).region;
    ForwardedUnwritten(f, input, aliases, def, load, PathOf(run), lo, hi);
    assert run[lo + 1] == Step(f, w, run[lo]);
    AccessLeavesBytes(f, w, run[lo]);
    RegionPersists(f, w, run, r, regionOf, lo + 1, hi);
    SameRegionBytes(run[lo + 1].mem, run[hi].mem, r, regionOf, a, n);
  }

  lemma PlaceDistinct(f: Func, m: Inst, n: Inst)
    requires WellFormed(f) && m < |f.insts| && n < |f.insts| && m != n
    ensures f.place[m] != f.place[n]
  {
  }

  lemma FitsAt(f: Func, n: Inst)
    requires WellFormed(f) && n < |f.insts|
    ensures InstFits(f, f.insts[n]) && ValidPoint(f, f.place[n]) && InstAt(f, f.place[n]) == n
  {
  }

  // ---- byte order ----

  /** The source access and the load agree on byte order, as far as it matters. */
  ghost predicate OrderAgrees(f: Func, def: Inst, load: Inst)
    requires WellFormed(f) && def < |f.insts| && load < |f.insts| && IsAccess(f.insts[def]) && IsAccess(f.insts[load])
  {
    FlagsOf(f.insts[def]).order == FlagsOf(f.insts[load]).order || WidthOf(f, f.insts[load]) <= 1
  }

  lemma {:induction false} ReverseTwice(b: seq<byte>)
    ensures Reverse(Reverse(b)) == b
  {
    forall i | 0 <= i < |b| ensures Reverse(Reverse(b))[i] == b[i] {
      assert Reverse(Reverse(b))[i] == Reverse(b)[|b| - 1 - i];
    }
  }

  lemma {:induction false} ReverseShort(b: seq<byte>)
    requires |b| <= 1
    ensures Reverse(b) == b
  {
    if |b| == 1 { assert Reverse(b)[0] == b[0]; }
  }

  lemma {:induction false} OrientTwice(o: Order, o': Order, b: seq<byte>)
    requires o == o' || |b| <= 1
    ensures Oriented(o, Oriented(o', b)) == b && Oriented(o, b) == Oriented(o', b)
  {
    hide Reverse;
    ReverseTwice(b);
    if |b| <= 1 { ReverseShort(b); }
  }

  /** A completed load binds its result to the value of the bytes it read. */
  lemma {:induction false} LoadBinds(f: Func, w: World, s: State)
    requires CodeOk(f) && StateOk(f, s) && s.Running? && f.insts[InstAt(f, s.pt)].LoadInst? && Step(f, w, s).Running?
    ensures
      var d := f.insts[InstAt(f, s.pt)];
      Get(Step(f, w, s).env, d.lresult) == LoadedValue(d.lop, d.lflags.order, BytesOf(f, s), AccessType(f, d))
  {
    hide Bind, ToInt, Chosen, EffectiveAddress, Reverse;
    var d := f.insts[InstAt(f, s.pt)];
    assert InstFits(f, d);
    var v := LoadedValue(d.lop, d.lflags.order, BytesOf(f, s), AccessType(f, d));
    BindOne(f, s.env, d.lresult, v);
  }

  /** What a forwarded load makes of the bytes is what the source access knows about them. */
  lemma {:induction false} ContentOfBytes(f: Func, aliases: Aliases, w: World, s: State, load: Inst)
    requires WellFormed(f) && LoopFree(aliases) && StateOk(f, s) && s.Running? && Step(f, w, s).Running?
    requires load < |f.insts| && f.insts[load].LoadInst? && IsAccess(f.insts[InstAt(f, s.pt)])
    requires SameLocation(f, aliases, f.insts[InstAt(f, s.pt)], f.insts[load]) && OrderAgrees(f, InstAt(f, s.pt), load)
    ensures
      var d, l := f.insts[InstAt(f, s.pt)], f.insts[load];
      LoadedValue(l.lop, l.lflags.order, BytesOf(f, s), AccessType(f, l)) == Get(Step(f, w, s).env, ContentOf(d))
  {
    hide ToInt, Chosen, EffectiveAddress, Reverse, LoopFree, Root, Accessible, Bind, IsTerminator;
    var d, l := f.insts[InstAt(f, s.pt)], f.insts[load];
    SameWidth(f, aliases, d, l);
    if d.StoreInst? {
      var v := s.env[d.sdata];
      OrientTwice(l.lflags.order, d.sflags.order, v);
    } else {
      LoadBinds(f, w, s);
      AccessLeavesBytes(f, w, s);
      OrientTwice(l.lflags.order, d.lflags.order, BytesOf(f, s));
    }
  }

  // ---- soundness ----

  ghost predicate OrdersAgree(f: Func, input: BlockStates, aliases: Aliases, source: map<Value, Inst>)
    requires AliasesOk(f, input, aliases, source)
  {
    forall x :: x in aliases ==>
      AliasOk(f, input, aliases, source, x) && OrderAgrees(f, source[x], f.values[x].def.inst)
  }

  /** A function in SSA form, the outcome of the pass on it, and one of its disciplined runs. */
  ghost predicate Setting(f: Func, input: BlockStates, aliases: Aliases, source: map<Value, Inst>, w: World,
      run: seq<State>, regionOf: int -> Region)
  {
    && SsaForm(f) && AllReachable(f) && Solution(f, input)
    && AliasesOk(f, input, aliases, source) && OrdersAgree(f, input, aliases, source)
    && IsRun(f, w, run) && Disciplined(f, run, regionOf)
  }

  lemma {:induction false} ContentPersists(f: Func, input: BlockStates, aliases: Aliases, def: Inst, load: Inst,
      w: World, run: seq<State>, lo: nat, hi: nat)
    requires SsaForm(f) && LoopFree(aliases) && Forwards(f, input, aliases, def, load)
    requires IsRun(f, w, run) && IsPath(f, PathOf(run)) && lo < hi < |run|
    requires run[lo].pt == f.place[def] && run[hi].pt == f.place[load] && forall j :: lo < j < hi ==>
      run[j].pt != f.place[def]
    ensures Get(run[hi].env, ContentOf(f.insts[def])) == Get(run[lo + 1].env, ContentOf(f.insts[def]))
  {
    hide InstFits, IsTerminator, Dominates, LoopFree, SameLocation, Version, Step, Next;
    ContentInRange(f, def);
    PlaceDistinct(f, def, load);
    FitsAt(f, def);
    var path, v := PathOf(run), ContentOf(f.insts[def]);
    if f.insts[def].StoreInst? {
      assert UsesValue(f.insts[InstAt(f, f.place[def])], v);
      AvailablePersists(f, path, v, f.place[def], lo, hi);
    }
    assert NotRedefined(f, path, v, lo + 1, hi);
    ValuePersists(f, w, run, v, lo + 1, hi);
  }

  /** Facts about the alias `x`, gathered from the pass invariant. */
  lemma {:induction false} AliasFacts(f: Func, input: BlockStates, aliases: Aliases, source: map<Value, Inst>, x: Value)
    requires AliasesOk(f, input, aliases, source) && OrdersAgree(f, input, aliases, source) && x in aliases
    ensures x < |f.values| && f.values[x].def.ResultDef? && x in source && |f.place| == |f.insts|
    ensures
      var load := f.values[x].def.inst;
      && source[x] < |f.insts| && load < |f.insts| && source[x] != load
      && IsAccess(f.insts[source[x]]) && f.insts[load].LoadInst?
      && Dominates(f, f.place[source[x]], f.place[load])
      && Forwards(f, input, aliases, source[x], load)
      && f.insts[load].lresult == x && DefPoint(f, x) == f.place[load]
      && Root(aliases, x) == Root(aliases, ContentOf(f.insts[source[x]]))
      && OrderAgrees(f, source[x], load)
  {
    hide CodeOk, LoopFree, Root, OrderAgrees, Available, SameLocation, Version, Dominates;
    assert AliasOk(f, input, aliases, source, x);
  }

  /** A forwarded load that computes the source's address reads the value the source knows about. */
  lemma {:induction false} ForwardedValue(f: Func, input: BlockStates, aliases: Aliases, def: Inst, load: Inst,
      w: World, run: seq<State>, regionOf: int -> Region, lo: nat, hi: nat)
    requires SsaForm(f) && AllReachable(f) && Solution(f, input) && LoopFree(aliases) &&
      Forwards(f, input, aliases, def, load)
    requires OrderAgrees(f, def, load)
    requires IsRun(f, w, run) && Disciplined(f, run, regionOf) && IsPath(f, PathOf(run)) && lo < hi < |run|
    requires run[lo].pt == f.place[def] && run[hi].pt == f.place[load] && forall j :: lo < j < hi ==>
      run[j].pt != f.place[def]
    requires AccessAddress(f.insts[def], run[lo].env) == AccessAddress(f.insts[load], run[hi].env)
    ensures
      var l := f.insts[load];
      var a, n := AccessAddress(l, run[hi].env), WidthOf(f, l);
      && Accessible(run[hi].mem, a, n)
      && LoadedValue(l.lop, l.lflags.order, ReadBytes(run[hi].mem, a, n), AccessType(f, l)) ==
        Get(run[hi].env, ContentOf(f.insts[def]))
  {
    hide InstFits, IsTerminator, AllReachable, Dominates, Step, Solution, LoopFree, Root, SameLocation, Version,
      Disciplined, Next, OrderAgrees, Accessible, LoadedValue, EffectiveAddress;
    FitsAt(f, def);
    FitsAt(f, load);
    ForwardedBytes(f, input, aliases, def, load, w, run, regionOf, lo, hi);
    assert run[lo + 1] == Step(f, w, run[lo]);
    ForwardedLocation(f, input, aliases, def, load);
    ContentOfBytes(f, aliases, w, run[lo], load);
    ContentPersists(f, input, aliases, def, load, w, run, lo, hi);
  }

  /** At every execution of a removed load, its location is accessible and holds the current value
      of the value it is replaced by. */
  lemma {:induction false} RemovedLoadReadsRoot(f: Func, input: BlockStates, aliases: Aliases, source: map<Value, Inst>,
      w: World, run: seq<State>, regionOf: int -> Region, x: Value, k: nat)
    requires Setting(f, input, aliases, source, w, run, regionOf) && k < |run|
    requires x in aliases && x < |f.values| && run[k].pt == DefPoint(f, x)
    ensures f.insts[InstAt(f, run[k].pt)].LoadInst? && f.insts[InstAt(f, run[k].pt)].lresult == x
    ensures
      var l := f.insts[InstAt(f, run[k].pt)];
      var a, n := AccessAddress(l, run[k].env), WidthOf(f, l);
      && Accessible(run[k].mem, a, n)
      && LoadedValue(l.lop, l.lflags.order, ReadBytes(run[k].mem, a, n), AccessType(f, l)) ==
        Get(run[k].env, Root(aliases, x))
    decreases k, 1
  {
    hide WellFormed, AllReachable, Dominates, Step, Solution, LoopFree, Root, AliasOk, Forwards, Disciplined, Next,
      OrdersAgree, OrderAgrees, Accessible, LoadedValue, EffectiveAddress, Available;
    AliasFacts(f, input, aliases, source, x);
    var load, def := f.values[x].def.inst, source[x];
    RunIsPath(f, w, run);
    var path := PathOf(run);
    FitsAt(f, load);
    PlaceDistinct(f, def, load);
    DominatorBefore(f, path, f.place[def], k);
    var lo := LastBefore(path, f.place[def], k);
    assert forall j :: lo < j < k ==> run[j].pt == path[j];
    SameAddress(f, input, aliases, source, w, run, regionOf, def, load, lo, k);
    ForwardedValue(f, input, aliases, def, load, w, run, regionOf, lo, k);
    ContentAvailable(f, input, aliases, def, load);
    AvailableHoldsRoot(f, input, aliases, source, w, run, regionOf, ContentOf(f.insts[def]), k);
  }

  lemma {:induction false} ForwardedLocation(f: Func, input: BlockStates, aliases: Aliases, def: Inst, load: Inst)
    requires WellFormed(f) && LoopFree(aliases) && Forwards(f, input, aliases, def, load)
    ensures SameLocation(f, aliases, f.insts[def], f.insts[load]) && Dominates(f, f.place[def], f.place[load])
  {
    hide CodeOk, LoopFree, Root, Version;
  }

  /** The two accesses compute the same address, though the address value may be redefined in between
      loop iterations. */
  lemma {:induction false} SameAddress(f: Func, input: BlockStates, aliases: Aliases, source: map<Value, Inst>,
      w: World, run: seq<State>, regionOf: int -> Region, def: Inst, load: Inst, lo: nat, hi: nat)
    requires Setting(f, input, aliases, source, w, run, regionOf) && IsPath(f, PathOf(run)) && lo < hi < |run|
    requires Forwards(f, input, aliases, def, load)
    requires run[lo].pt == f.place[def] && run[hi].pt == f.place[load] && forall j :: lo < j < hi ==>
      run[j].pt != f.place[def]
    ensures AccessAddress(f.insts[def], run[lo].env) == AccessAddress(f.insts[load], run[hi].env)
    decreases hi, 0, 1
  {
    hide InstFits, IsTerminator, AllReachable, Dominates, Step, Solution, LoopFree, Root, Version, Disciplined, Next,
      OrdersAgree, EffectiveAddress;
    var d, l := f.insts[def], f.insts[load];
    var path := PathOf(run);
    PlaceDistinct(f, def, load);
    FitsAt(f, def);
    FitsAt(f, load);
    AddressUsed(f, def);
    AddressUsed(f, load);
    AvailableHoldsRoot(f, input, aliases, source, w, run, regionOf, AddressOf(d), lo);
    AvailableHoldsRoot(f, input, aliases, source, w, run, regionOf, AddressOf(l), hi);
    var r := Root(aliases, AddressOf(d));
    ReachableAt(f, f.place[def]);
    LoopFreeResolves(aliases, AddressOf(d));
    RootAvailable(f, input, aliases, source, AddressOf(d), |aliases|, f.place[def]);
    AvailablePersists(f, path, r, f.place[def], lo, hi);
    ValuePersists(f, w, run, r, lo, hi);
  }

  lemma {:induction false} AddressUsed(f: Func, inst: Inst)
    requires SsaForm(f) && inst < |f.insts| && IsAccess(f.insts[inst])
    ensures AddressOf(f.insts[inst]) < |f.values| && Available(f, AddressOf(f.insts[inst]), f.place[inst])
  {
    hide IsTerminator, Dominates;
    FitsAt(f, inst);
    assert UsesValue(f.insts[InstAt(f, f.place[inst])], AddressOf(f.insts[inst]));
  }

  lemma ReachableAt(f: Func, p: Point)
    requires AllReachable(f) && ValidPoint(f, p)
    ensures Reachable(f, p)
  {
  }

  lemma {:induction false} LoadBindsBytes(f: Func, w: World, s: State)
    requires CodeOk(f) && StateOk(f, s) && s.Running? && f.insts[InstAt(f, s.pt)].LoadInst? && Step(f, w, s).Running?
    requires
      var l := f.insts[InstAt(f, s.pt)];
      Accessible(s.mem, AccessAddress(l, s.env), WidthOf(f, l))
    ensures
      var l := f.insts[InstAt(f, s.pt)];
      Get(Step(f, w, s).env, l.lresult) ==
      LoadedValue(l.lop, l.lflags.order, ReadBytes(s.mem, AccessAddress(l, s.env), WidthOf(f, l)), AccessType(f, l))
  {
    hide Step, InstFits, IsTerminator, LoadedValue, EffectiveAddress;
    LoadBinds(f, w, s);
  }

  lemma {:induction false} ResultPersists(f: Func, w: World, run: seq<State>, v: Value, l: nat, u: nat)
    requires WellFormed(f) && IsRun(f, w, run) && l < u < |run|
    requires v < |f.values| && f.values[v].def.ResultDef? && forall j :: l < j < u ==> run[j].pt != DefPoint(f, v)
    ensures Get(run[u].env, v) == Get(run[l + 1].env, v)
  {
    hide CodeOk, Step;
    assert NotRedefined(f, PathOf(run), v, l + 1, u);
    ValuePersists(f, w, run, v, l + 1, u);
  }

  lemma {:induction false} RootAvailableAtLoad(f: Func, input: BlockStates, aliases: Aliases, source: map<Value, Inst>,
      v: Value)
    requires SsaForm(f) && AllReachable(f) && AliasesOk(f, input, aliases, source) && v in aliases && v < |f.values|
    requires f.values[v].def.ResultDef?
    ensures Root(aliases, v) < |f.values| && Available(f, Root(aliases, v), DefPoint(f, v))
  {
    hide InstFits, IsTerminator, AllReachable, Dominates, LoopFree, Root, Forwards;
    assert AliasOk(f, input, aliases, source, v);
    FitsAt(f, f.values[v].def.inst);
    ReachableAt(f, DefPoint(f, v));
    RootIsOriginal(aliases, v);
    LoopFreeResolves(aliases, aliases[v]);
    RootAvailable(f, input, aliases, source, aliases[v], |aliases|, DefPoint(f, v));
  }

  /** From one execution of a removed load up to a use of its result, neither the result nor its
      stand-in is redefined. */
  lemma {:induction false} AliasPersists(f: Func, input: BlockStates, aliases: Aliases, source: map<Value, Inst>,
      w: World, run: seq<State>, v: Value, l: nat, u: nat)
    requires SsaForm(f) && AllReachable(f) && AliasesOk(f, input, aliases, source)
    requires IsRun(f, w, run) && IsPath(f, PathOf(run)) && l < u < |run|
    requires v in aliases && v < |f.values| && Available(f, v, run[u].pt)
    requires f.values[v].def.ResultDef? && run[l].pt == DefPoint(f, v) && forall j :: l < j < u ==>
      run[j].pt != DefPoint(f, v)
    ensures Get(run[u].env, v) == Get(run[l + 1].env, v)
    ensures Get(run[u].env, Root(aliases, v)) == Get(run[l].env, Root(aliases, v))
  {
    hide WellFormed, AllReachable, Dominates, Step, LoopFree, Root, AliasOk, Next, NotRedefined;
    var path, p, r := PathOf(run), DefPoint(f, v), Root(aliases, v);
    ResultPersists(f, w, run, v, l, u);
    RootAvailableAtLoad(f, input, aliases, source, v);
    AvailablePersists(f, path, r, p, l, u);
    ValuePersists(f, w, run, r, l, u);
  }

  /** Wherever a value may be used, it has the same value as the original it stands for. */
  lemma {:induction false} AvailableHoldsRoot(f: Func, input: BlockStates, aliases: Aliases, source: map<Value, Inst>,
      w: World, run: seq<State>, regionOf: int -> Region, v: Value, u: nat)
    requires Setting(f, input, aliases, source, w, run, regionOf) && u < |run|
    requires v < |f.values| && Available(f, v, run[u].pt)
    ensures Get(run[u].env, v) == Get(run[u].env, Root(aliases, v))
    decreases u, 0, 0
  {
    hide WellFormed, AllReachable, Dominates, Step, Solution, LoopFree, Root, AliasOk, Disciplined, Next, OrdersAgree,
      OrderAgrees, Accessible, LoadedValue, Forwards;
    RootIsOriginal(aliases, v);
    if v in aliases {
      AliasFacts(f, input, aliases, source, v);
      RunIsPath(f, w, run);
      var path := PathOf(run);
      var p := DefPoint(f, v);
      DominatorBefore(f, path, p, u);
      var l := LastBefore(path, p, u);
      RemovedLoadReadsRoot(f, input, aliases, source, w, run, regionOf, v, l);
      assert run[l + 1] == Step(f, w, run[l]);
      LoadBindsBytes(f, w, run[l]);
      AliasPersists(f, input, aliases, source, w, run, v, l, u);
    }
  }
}
