/** Runs of a function: how values and memory persist along them. */
module ClifRuns {
  import opened Clif
  import opened ClifPaths
  import opened ClifSemantics
  import opened LastStore
  import opened MemoryValues

  /** A run prefix: successive running states from the function entry. */
  ghost predicate IsRun(f: Func, w: World, run: seq<State>) {
    && CodeOk(f)
    && |run| > 0
    && (forall k :: 0 <= k < |run| ==> run[k].Running? && StateOk(f, run[k]))
    && run[0].pt == Point(0, 0)
    && (forall k :: 0 < k < |run| ==> run[k] == Step(f, w, run[k - 1]))
  }

  ghost function PathOf(run: seq<State>): (path: seq<Point>)
    requires forall k :: 0 <= k < |run| ==> run[k].Running?
    ensures |path| == |run| && forall k :: 0 <= k < |run| ==> path[k] == run[k].pt
  {
    seq(|run|, k requires 0 <= k < |run| => run[k].pt)
  }

  lemma {:induction false} StepFollowsEdge(f: Func, w: World, s: State)
    requires CodeOk(f) && StateOk(f, s) && s.Running? && Step(f, w, s).Running?
    ensures Next(f, s.pt, Step(f, w, s).pt)
  {
    hide Bind, ToInt, LoadedValue, StoredBytes, InstFits;
    var d := f.insts[InstAt(f, s.pt)];
    if IsTerminator(d) {
      assert s.pt == Point(s.pt.b, |f.blocks[s.pt.b].insts| - 1);
      var c := Chosen(d, s.env);
      var j :| 0 <= j < |BlockCalls(d)| && BlockCalls(d)[j] == c;
      assert Succs(f, s.pt.b)[j] == c.block;
    }
  }

  lemma {:induction false} RunIsPath(f: Func, w: World, run: seq<State>)
    requires IsRun(f, w, run)
    ensures IsPath(f, PathOf(run))
  {
    hide CodeOk, Step, Next;
    var path := PathOf(run);
    forall k | 0 < k < |path| ensures Next(f, path[k - 1], path[k]) {
      assert run[k] == Step(f, w, run[k - 1]);
      StepFollowsEdge(f, w, run[k - 1]);
    }
  }

  // ---- values ----

  lemma {:induction false} BindOther(f: Func, env: Env, vs: seq<Value>, vals: seq<Val>, v: Value)
    requires TypedEnv(f, env) && v !in vs
    ensures Get(Bind(f, env, vs, vals), v) == Get(env, v)
    decreases |vs|
  {
    if vs != [] { BindOther(f, env, vs[..|vs| - 1], vals, v); }
  }

  lemma {:induction false} BindOne(f: Func, env: Env, v: Value, x: Val)
    requires TypedEnv(f, env) && v < |f.values|
    ensures Bind(f, env, [v], [x]) == env[v := Fit(x, f.values[v].ty.bytes)]
  {
    assert [v][..0] == [];
    assert Bind(f, env, [v][..0], [x]) == env;
  }

  /** The step from `p` to `q` (re)defines `v`. */
  ghost predicate DefinesBetween(f: Func, v: Value, p: Point, q: Point)
    requires WellFormed(f) && v < |f.values|
  {
    match f.values[v].def
    case ParamDef(b) => q == Point(b, 0)
    case ResultDef(n) => p == f.place[n]
  }

  /** A step changes only the values it defines. */
  lemma {:induction false} StepKeepsValue(f: Func, w: World, s: State, v: Value)
    requires WellFormed(f) && StateOk(f, s) && s.Running? && Step(f, w, s).Running? && v < |f.values|
    requires !DefinesBetween(f, v, s.pt, Step(f, w, s).pt)
    ensures Get(Step(f, w, s).env, v) == Get(s.env, v)
  {
    hide Bind, ToInt, LoadedValue, StoredBytes, InstFits, Chosen;
    var d := f.insts[InstAt(f, s.pt)];
    assert v !in Results(d);
    match d {
      case LoadInst(op, flags, _, _, r) =>
        ContentInRange(f, InstAt(f, s.pt));
        var a, n := LoadAddress(d, s.env), AccessWidth(op, f.values[r].ty);
        BindOther(f, s.env, [r], [LoadedValue(op, flags.order, ReadBytes(s.mem, a, n), f.values[r].ty)], v);
      case StoreInst(_, _, _, _, _) =>
      case Fence(code, args, results) =>
        var out := w.external(s.trace, code, GetAll(s.env, args), s.mem);
        BindOther(f, s.env, results, out.value.1, v);
      case Pure(code, args, r) =>
        BindOther(f, s.env, [r], [w.pure(code, GetAll(s.env, args))], v);
      case Return(_) =>
      case _ =>
        ChosenInRange(f, s);
        var c := Chosen(d, s.env);
        BindOther(f, s.env, f.blocks[c.block].params, GetAll(s.env, c.args), v);
    }
  }

  lemma ChosenInRange(f: Func, s: State)
    requires CodeOk(f) && s.Running? && StateOk(f, s)
    requires var d := f.insts[InstAt(f, s.pt)]; d.Jump? || d.Brif? || d.BranchTable?
    ensures CallFits(f, Chosen(f.insts[InstAt(f, s.pt)], s.env))
  {
    var d := f.insts[InstAt(f, s.pt)];
    var c := Chosen(d, s.env);
    assert InstFits(f, d);
    var j :| 0 <= j < |BlockCalls(d)| && BlockCalls(d)[j] == c;
  }

  ghost predicate NotRedefined(f: Func, path: seq<Point>, v: Value, lo: nat, hi: nat)
    requires WellFormed(f) && v < |f.values| && hi < |path|
  {
    forall j :: lo < j <= hi ==> !DefinesBetween(f, v, path[j - 1], path[j])
  }

  lemma {:induction false} ValuePersists(f: Func, w: World, run: seq<State>, v: Value, lo: nat, hi: nat)
    requires WellFormed(f) && IsRun(f, w, run) && v < |f.values| && lo <= hi < |run|
    requires NotRedefined(f, PathOf(run), v, lo, hi)
    ensures Get(run[hi].env, v) == Get(run[lo].env, v)
    decreases hi
  {
    hide CodeOk, Step, DefinesBetween;
    if lo < hi {
      ValuePersists(f, w, run, v, lo, hi - 1);
      assert run[hi] == Step(f, w, run[hi - 1]);
      assert !DefinesBetween(f, v, PathOf(run)[hi - 1], PathOf(run)[hi]);
      StepKeepsValue(f, w, run[hi - 1], v);
    }
  }

  /** A value available at `d` keeps its value from the last visit of `d` up to any point `d` dominates. */
  lemma {:induction false} AvailablePersists(f: Func, path: seq<Point>, v: Value, d: Point, lo: nat, hi: nat)
    requires WellFormed(f) && IsPath(f, path) && v < |f.values| && lo < hi < |path|
    requires path[lo] == d && forall j :: lo < j <= hi ==> path[j] != d
    requires Available(f, v, d) && Dominates(f, d, path[hi])
    ensures NotRedefined(f, path, v, lo, hi)
  {
    hide WellFormed, Dominates, Next;
    var p := DefPoint(f, v);
    forall j | lo < j <= hi ensures !DefinesBetween(f, v, path[j - 1], path[j]) {
      if p != d {
        NoReentry(f, path, d, p, lo, hi, j);
        if lo < j - 1 { NoReentry(f, path, d, p, lo, hi, j - 1); }
      }
    }
  }

  // ---- memory ----

  function AccessAddress(d: InstData, env: Env): int
    requires IsAccess(d)
  {
    EffectiveAddress(Get(env, AddressOf(d)), OffsetOf(d))
  }

  function WidthOf(f: Func, d: InstData): nat
    requires IsAccess(d) && InstFits(f, d)
  {
    AccessWidth(OpcodeOf(d), AccessType(f, d))
  }

  /** The access about to be made, if any, touches only memory of the region it is labelled with. */
  ghost predicate AccessInRegion(f: Func, s: State, regionOf: int -> Region)
    requires CodeOk(f) && StateOk(f, s)
  {
    s.Running? ==>
      var d := f.insts[InstAt(f, s.pt)];
      IsAccess(d) ==>
        var a := AccessAddress(d, s.env);
        forall x :: a <= x < a + WidthOf(f, d) ==> regionOf(x) == FlagsOf(d).region
  }

  /** The region discipline that the producer of the code guarantees. */
  ghost predicate Disciplined(f: Func, run: seq<State>, regionOf: int -> Region)
    requires CodeOk(f)
  {
    forall k :: 0 <= k < |run| ==> StateOk(f, run[k]) && AccessInRegion(f, run[k], regionOf)
  }

  ghost predicate SameRegion(m: Mem, m': Mem, r: Region, regionOf: int -> Region) {
    forall x :: regionOf(x) == r ==> ((x in m <==> x in m') && (x in m ==> m[x] == m'[x]))
  }

  lemma {:induction false} StepKeepsRegion(f: Func, w: World, s: State, r: Region, regionOf: int -> Region)
    requires CodeOk(f) && StateOk(f, s) && s.Running? && Step(f, w, s).Running?
    requires AccessInRegion(f, s, regionOf) && !MayWrite(f.insts[InstAt(f, s.pt)], r)
    ensures SameRegion(s.mem, Step(f, w, s).mem, r, regionOf)
  {
    hide Bind, ToInt, Chosen, EffectiveAddress;
    var d := f.insts[InstAt(f, s.pt)];
    if d.StoreInst? {
      var bytes := StoredBytes(d.sop, d.sflags.order, s.env[d.sdata], f.values[d.sdata].ty);
      assert |bytes| == WidthOf(f, d);
    }
  }

  lemma {:induction false} RegionPersists(f: Func, w: World, run: seq<State>, r: Region, regionOf: int -> Region,
      lo: nat, hi: nat)
    requires IsRun(f, w, run) && Disciplined(f, run, regionOf) && lo <= hi < |run|
    requires IsPath(f, PathOf(run)) && NoWrites(f, PathOf(run), r, lo, hi)
    ensures SameRegion(run[lo].mem, run[hi].mem, r, regionOf)
    decreases hi
  {
    hide CodeOk, Step, MayWrite, AccessInRegion, Next, ValidPoint;
    if lo < hi {
      RegionPersists(f, w, run, r, regionOf, lo, hi - 1);
      assert run[hi] == Step(f, w, run[hi - 1]);
      assert run[hi - 1].pt == PathOf(run)[hi - 1];
      StepKeepsRegion(f, w, run[hi - 1], r, regionOf);
    }
  }
}
