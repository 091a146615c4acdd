/** The rewritten function: redundant loads gone, their uses redirected. Every run of the original
    is matched step for step, except that removed loads take no step. */
module LoadRewrite {
  import opened Clif
  import opened ClifSemantics
  import opened LastStore
  import opened MemoryValues
  import opened ClifRuns
  import opened LoadElimination

  // ---- the rewritten function ----

  /** The instructions left in a block. */
  function Keep(insts: seq<Inst>, removed: set<Inst>): (r: seq<Inst>) {
    if insts == [] then []
    else
      var n := |insts| - 1;
      Keep(insts[..n], removed) + (if insts[n] in removed then [] else [insts[n]])
  }

  ghost function RootAll(aliases: Aliases, vs: seq<Value>): (r: seq<Value>)
    requires LoopFree(aliases)
    ensures |r| == |vs| && forall j :: 0 <= j < |vs| ==> r[j] == Root(aliases, vs[j])
  {
    seq(|vs|, j requires 0 <= j < |vs| => Root(aliases, vs[j]))
  }

  ghost function RedirectCall(aliases: Aliases, c: BlockCall): BlockCall
    requires LoopFree(aliases)
  {
    BlockCall(c.block, RootAll(aliases, c.args))
  }

  /** Uses of a value alias behave as uses of the original value. */
  ghost function Redirect(aliases: Aliases, d: InstData): (r: InstData)
    requires LoopFree(aliases)
  {
    match d
    case LoadInst(op, flags, a, o, res) => LoadInst(op, flags, Root(aliases, a), o, res)
    case StoreInst(op, flags, x, a, o) => StoreInst(op, flags, Root(aliases, x), Root(aliases, a), o)
    case Fence(code, args, results) => Fence(code, RootAll(aliases, args), results)
    case Pure(code, args, res) => Pure(code, RootAll(aliases, args), res)
    case Jump(dest) => Jump(RedirectCall(aliases, dest))
    case Brif(c, t, e) => Brif(Root(aliases, c), RedirectCall(aliases, t), RedirectCall(aliases, e))
    case BranchTable(x, dflt, table) =>
      BranchTable(Root(aliases, x), RedirectCall(aliases, dflt),
                  seq(|table|, j requires 0 <= j < |table| => RedirectCall(aliases, table[j])))
    case Return(args) => Return(RootAll(aliases, args))
  }

  ghost function Rewrite(f: Func, aliases: Aliases, removed: set<Inst>): (g: Func)
    requires LoopFree(aliases)
  {
    var blocks := seq(|f.blocks|, b requires 0 <= b < |f.blocks| =>
      BlockData(f.blocks[b].params, Keep(f.blocks[b].insts, removed)));
    var insts := seq(|f.insts|, n requires 0 <= n < |f.insts| => Redirect(aliases, f.insts[n]));
    Func(blocks, insts, f.values, f.place)
  }

  lemma {:induction false} KeepAppend(s: seq<Inst>, t: seq<Inst>, removed: set<Inst>)
    ensures Keep(s + t, removed) == Keep(s, removed) + Keep(t, removed)
    decreases |t|
  {
    if t == [] {
      assert s + t == s;
    } else {
      var n := |t| - 1;
      assert (s + t)[..|s + t| - 1] == s + t[..n];
      KeepAppend(s, t[..n], removed);
    }
  }

  /** A kept instruction sits where the kept ones before it end. */
  lemma {:induction false} KeepAt(insts: seq<Inst>, removed: set<Inst>, i: nat)
    requires i < |insts|
    ensures Keep(insts[..i + 1], removed) == Keep(insts[..i], removed) + if insts[i] in removed then [] else [insts[i]]
    ensures insts[i] !in removed ==>
      |Keep(insts[..i], removed)| < |Keep(insts, removed)| &&
        Keep(insts, removed)[|Keep(insts[..i], removed)|] == insts[i]
  {
    assert insts[..i + 1][..i] == insts[..i];
    KeepAppend(insts[..i + 1], insts[i + 1..], removed);
    assert insts[..i + 1] + insts[i + 1..] == insts;
  }

  /** Conversely every kept position comes from a position of the original block. */
  lemma {:induction false} KeepFrom(insts: seq<Inst>, removed: set<Inst>, q: nat) returns (i: nat)
    requires q < |Keep(insts, removed)|
    ensures i < |insts| && insts[i] !in removed && |Keep(insts[..i], removed)| == q &&
      Keep(insts, removed)[q] == insts[i]
    ensures q + 1 == |Keep(insts, removed)| ==> forall j :: i < j < |insts| ==> insts[j] in removed
  {
    var n := |insts| - 1;
    if q < |Keep(insts[..n], removed)| {
      i := KeepFrom(insts[..n], removed, q);
      assert insts[..n][..i] == insts[..i];
    } else {
      i := n;
    }
  }

  lemma {:induction false} RedirectUses(aliases: Aliases, d: InstData, v: Value) returns (u: Value)
    requires LoopFree(aliases) && UsesValue(Redirect(aliases, d), v)
    ensures UsesValue(d, u) && v == Root(aliases, u)
  {
    hide LoopFree, Root;
    match d {
      case LoadInst(_, _, a, _, _) => u := a;
      case StoreInst(_, _, x, a, _) => u := if v == Root(aliases, x) then x else a;
      case Fence(_, args, _) => u := RootOf(aliases, args, v);
      case Pure(_, args, _) => u := RootOf(aliases, args, v);
      case Jump(dest) => u := RootOf(aliases, dest.args, v);
      case Brif(c, t, e) =>
        if v == Root(aliases, c) { u := c; }
        else if v in RootAll(aliases, t.args) { u := RootOf(aliases, t.args, v); }
        else { u := RootOf(aliases, e.args, v); }
      case BranchTable(x, dflt, table) =>
        if v == Root(aliases, x) { u := x; }
        else if v in RootAll(aliases, dflt.args) { u := RootOf(aliases, dflt.args, v); }
        else {
          var j :| 0 <= j < |table| && v in RootAll(aliases, table[j].args);
          u := RootOf(aliases, table[j].args, v);
        }
      case Return(args) => u := RootOf(aliases, args, v);
    }
  }

  lemma {:induction false} RootOf(aliases: Aliases, vs: seq<Value>, v: Value) returns (u: Value)
    requires LoopFree(aliases) && v in RootAll(aliases, vs)
    ensures u in vs && v == Root(aliases, u)
  {
    var j :| 0 <= j < |vs| && RootAll(aliases, vs)[j] == v;
    u := vs[j];
  }

  lemma {:induction false} RedirectedUse(f: Func, aliases: Aliases, d: InstData, v: Value)
    requires LoopFree(aliases) && AliasesTyped(f, aliases) && InstFits(f, d) && UsesValue(Redirect(aliases, d), v)
    ensures v < |f.values|
  {
    hide LoopFree, Root, AliasesTyped, UsesValue, Redirect, CallFits, BlockCalls, Results;
    var u := RedirectUses(aliases, d, v);
    RootKeepsType(f, aliases, u);
  }

  lemma {:induction false} RedirectedCalls(aliases: Aliases, d: InstData)
    requires LoopFree(aliases)
    ensures |BlockCalls(Redirect(aliases, d))| == |BlockCalls(d)| && Results(Redirect(aliases, d)) == Results(d)
    ensures forall j :: 0 <= j < |BlockCalls(d)| ==>
      BlockCalls(Redirect(aliases, d))[j] == RedirectCall(aliases, BlockCalls(d)[j])
  {
    hide LoopFree, Root, RedirectCall;
  }

  lemma {:induction false} RedirectedAccess(f: Func, aliases: Aliases, d: InstData)
    requires LoopFree(aliases) && AliasesTyped(f, aliases) && InstFits(f, d)
    ensures
      var e := Redirect(aliases, d);
      && e.LoadInst? == d.LoadInst? && e.StoreInst? == d.StoreInst?
      && (d.LoadInst? ==> e.lop == d.lop && e.lresult == d.lresult)
      && (d.StoreInst? ==> e.sop == d.sop && e.sdata < |f.values| && f.values[e.sdata].ty == f.values[d.sdata].ty)
  {
    hide LoopFree, Root, AliasesTyped, CallFits, BlockCalls, Results, RootAll, RedirectCall;
    if d.StoreInst? { RootKeepsType(f, aliases, d.sdata); }
  }

  lemma {:induction false} RedirectFits(f: Func, aliases: Aliases, removed: set<Inst>, d: InstData)
    requires LoopFree(aliases) && AliasesTyped(f, aliases) && InstFits(f, d)
    ensures InstFits(Rewrite(f, aliases, removed), Redirect(aliases, d))
  {
    hide LoopFree, Root, AliasesTyped, UsesValue, Redirect, CallFits, BlockCalls, Results, Keep, RedirectCall;
    var g, e := Rewrite(f, aliases, removed), Redirect(aliases, d);
    forall v: Value | UsesValue(e, v) ensures v < |g.values| {
      RedirectedUse(f, aliases, d, v);
    }
    RedirectedCalls(aliases, d);
    forall j | 0 <= j < |BlockCalls(e)| ensures CallFits(g, BlockCalls(e)[j]) {
      RedirectCallFits(f, aliases, removed, BlockCalls(d)[j]);
    }
    RedirectedAccess(f, aliases, d);
  }

  lemma {:induction false} RedirectCallFits(f: Func, aliases: Aliases, removed: set<Inst>, c: BlockCall)
    requires LoopFree(aliases) && AliasesTyped(f, aliases) && CallFits(f, c)
    ensures CallFits(Rewrite(f, aliases, removed), RedirectCall(aliases, c))
  {
    hide LoopFree, Root, AliasesTyped;
    var g, e := Rewrite(f, aliases, removed), RedirectCall(aliases, c);
    assert g.blocks[c.block].params == f.blocks[c.block].params;
    forall j | 0 <= j < |e.args|
      ensures e.args[j] < |g.values| && g.values[e.args[j]].ty == g.values[c.args[j]].ty
    {
      RootKeepsType(f, aliases, c.args[j]);
    }
  }

  /** Where the rewritten function stands when the original is at `p`. */
  ghost function MovedTo(f: Func, removed: set<Inst>, p: Point): Point
    requires p.b < |f.blocks| && p.i <= |f.blocks[p.b].insts|
  {
    Point(p.b, |Keep(f.blocks[p.b].insts[..p.i], removed)|)
  }

  /** Only loads are removed. */
  ghost predicate OnlyLoads(f: Func, removed: set<Inst>) {
    forall n :: n in removed ==> n < |f.insts| && f.insts[n].LoadInst?
  }

  lemma {:induction false} MovedInst(f: Func, aliases: Aliases, removed: set<Inst>, p: Point)
    requires CodeOk(f) && LoopFree(aliases) && ValidPoint(f, p) && InstAt(f, p) !in removed
    ensures
      var g, q := Rewrite(f, aliases, removed), MovedTo(f, removed, p);
      && ValidPoint(g, q)
      && InstAt(g, q) == InstAt(f, p)
      && (InstAt(f, p) < |g.insts| && g.insts[InstAt(g, q)] == Redirect(aliases, f.insts[InstAt(f, p)]))
  {
    hide InstFits, IsTerminator, LoopFree, Root;
    KeepAt(f.blocks[p.b].insts, removed, p.i);
  }

  /** Every point of the rewritten function comes from a kept point of the original, block ends from block ends. */
  lemma {:induction false} MovedFrom(f: Func, aliases: Aliases, removed: set<Inst>, q: Point) returns (p: Point)
    requires CodeOk(f) && LoopFree(aliases) && OnlyLoads(f, removed) && ValidPoint(Rewrite(f, aliases, removed), q)
    ensures ValidPoint(f, p) && InstAt(f, p) !in removed && MovedTo(f, removed, p) == q
    ensures IsLast(Rewrite(f, aliases, removed), q) <==> IsLast(f, p)
  {
    hide InstFits, LoopFree, Root, Redirect;
    var insts := f.blocks[q.b].insts;
    var i := KeepFrom(insts, removed, q.i);
    p := Point(q.b, i);
    var last := Point(q.b, |insts| - 1);
    assert IsTerminator(f.insts[InstAt(f, last)]);
    assert InstAt(f, last) !in removed;
    if IsLast(f, p) {
      KeepAt(insts, removed, i);
      assert insts[..i + 1] == insts;
    }
  }

  lemma {:induction false} RewriteCodeOk(f: Func, aliases: Aliases, removed: set<Inst>)
    requires CodeOk(f) && LoopFree(aliases) && AliasesTyped(f, aliases) && OnlyLoads(f, removed)
    ensures CodeOk(Rewrite(f, aliases, removed))
  {
    hide InstFits, LoopFree, Root, AliasesTyped;
    var g := Rewrite(f, aliases, removed);
    forall b | 0 <= b < |g.blocks| ensures |g.blocks[b].insts| > 0 {
      var last := Point(b, |f.blocks[b].insts| - 1);
      assert IsTerminator(f.insts[InstAt(f, last)]) && InstAt(f, last) !in removed;
      MovedInst(f, aliases, removed, last);
    }
    forall q | ValidPoint(g, q)
      ensures InstAt(g, q) < |g.insts| && (IsTerminator(g.insts[InstAt(g, q)]) <==> IsLast(g, q))
    {
      var p := MovedFrom(f, aliases, removed, q);
      MovedInst(f, aliases, removed, p);
    }
    forall n | 0 <= n < |g.insts| ensures InstFits(g, g.insts[n]) {
      RedirectFits(f, aliases, removed, f.insts[n]);
    }
  }

  // ---- simulation ----

  /** The rewritten run matches the original: same memory, same events, same outcome, and the same
      value for everything but the removed results. */
  ghost predicate Related(f: Func, aliases: Aliases, removed: set<Inst>, s: State, t: State)
    requires StateOk(f, s)
  {
    if s.Halted? then t == s
    else
      && t.Running?
      && t.pt == MovedTo(f, removed, s.pt)
      && t.mem == s.mem && t.trace == s.trace
      && AgreeOutside(aliases, s.env, t.env)
  }

  ghost predicate AgreeOutside(aliases: Aliases, env: Env, env': Env) {
    |env'| == |env| && forall v: Value :: v < |env| && v !in aliases ==> env'[v] == env[v]
  }

  /** Every value used by `d` currently equals the original it stands for. */
  ghost predicate UsesHold(aliases: Aliases, d: InstData, env: Env)
    requires LoopFree(aliases)
  {
    forall v: Value :: UsesValue(d, v) ==> Get(env, v) == Get(env, Root(aliases, v))
  }

  lemma {:induction false} RootReads(aliases: Aliases, env: Env, env': Env, v: Value)
    requires LoopFree(aliases) && AgreeOutside(aliases, env, env') && Get(env, v) == Get(env, Root(aliases, v))
    ensures Get(env', Root(aliases, v)) == Get(env, v)
  {
    RootIsOriginal(aliases, v);
  }

  lemma {:induction false} RootsRead(aliases: Aliases, env: Env, env': Env, vs: seq<Value>)
    requires LoopFree(aliases) && AgreeOutside(aliases, env, env')
    requires forall v :: v in vs ==> Get(env, v) == Get(env, Root(aliases, v))
    ensures GetAll(env', RootAll(aliases, vs)) == GetAll(env, vs)
  {
    hide LoopFree, Root, Get;
    forall j | 0 <= j < |vs| ensures Get(env', RootAll(aliases, vs)[j]) == Get(env, vs[j]) {
      assert vs[j] in vs;
      RootReads(aliases, env, env', vs[j]);
    }
  }

  lemma {:induction false} BindAgrees(f: Func, g: Func, aliases: Aliases, env: Env, env': Env, vs: seq<Value>,
      vals: seq<Val>)
    requires f.values == g.values && TypedEnv(f, env) && TypedEnv(g, env') && AgreeOutside(aliases, env, env')
    ensures AgreeOutside(aliases, Bind(f, env, vs, vals), Bind(g, env', vs, vals))
    decreases |vs|
  {
    if vs != [] { BindAgrees(f, g, aliases, env, env', vs[..|vs| - 1], vals); }
  }

  lemma {:induction false} ChosenAgrees(aliases: Aliases, d: InstData, env: Env, env': Env)
    requires LoopFree(aliases) && AgreeOutside(aliases, env, env') && UsesHold(aliases, d, env)
    requires d.Jump? || d.Brif? || d.BranchTable?
    ensures Chosen(Redirect(aliases, d), env') == RedirectCall(aliases, Chosen(d, env))
    ensures forall v :: v in Chosen(d, env).args ==> UsesValue(d, v)
  {
    hide LoopFree, Root, Get, ToInt;
    if d.Brif? { RootReads(aliases, env, env', d.cond); }
    if d.BranchTable? { RootReads(aliases, env, env', d.index); }
  }

  /** Both functions are about to execute the same kept instruction in related states. */
  ghost predicate Matched(f: Func, aliases: Aliases, removed: set<Inst>, s: State, t: State)
  {
    && CodeOk(f) && LoopFree(aliases) && AliasesTyped(f, aliases) && CodeOk(Rewrite(f, aliases, removed))
    && s.Running? && StateOk(f, s) && StateOk(Rewrite(f, aliases, removed), t) && Related(f, aliases, removed, s, t)
    && InstAt(f, s.pt) !in removed && UsesHold(aliases, f.insts[InstAt(f, s.pt)], s.env)
  }

  lemma {:induction false} MatchedInst(f: Func, aliases: Aliases, removed: set<Inst>, s: State, t: State)
    requires Matched(f, aliases, removed, s, t)
    ensures t.Running? &&
      Rewrite(f, aliases, removed).insts[InstAt(Rewrite(f, aliases, removed), t.pt)] ==
        Redirect(aliases, f.insts[InstAt(f, s.pt)])
    ensures s.pt.i + 1 <= |f.blocks[s.pt.b].insts|
    ensures MovedTo(f, removed, Point(s.pt.b, s.pt.i + 1)) == Point(t.pt.b, t.pt.i + 1)
  {
    hide InstFits, IsTerminator, LoopFree, Root, AliasesTyped, Redirect;
    MovedInst(f, aliases, removed, s.pt);
    KeepAt(f.blocks[s.pt.b].insts, removed, s.pt.i);
  }

  lemma {:induction false} KeptLoad(f: Func, aliases: Aliases, removed: set<Inst>, w: World, s: State, t: State)
    requires Matched(f, aliases, removed, s, t) && f.insts[InstAt(f, s.pt)].LoadInst?
    ensures Related(f, aliases, removed, Step(f, w, s), Step(Rewrite(f, aliases, removed), w, t))
  {
    hide IsTerminator, LoopFree, Root, Bind, LoadedValue, EffectiveAddress, Accessible, Keep;
    var g, d := Rewrite(f, aliases, removed), f.insts[InstAt(f, s.pt)];
    MatchedInst(f, aliases, removed, s, t);
    RootReads(aliases, s.env, t.env, d.laddr);
    var a, n := LoadAddress(d, s.env), AccessWidth(d.lop, f.values[d.lresult].ty);
    if Accessible(s.mem, a, n) {
      var v := LoadedValue(d.lop, d.lflags.order, ReadBytes(s.mem, a, n), f.values[d.lresult].ty);
      BindAgrees(f, g, aliases, s.env, t.env, [d.lresult], [v]);
    }
  }

  lemma {:induction false} KeptStore(f: Func, aliases: Aliases, removed: set<Inst>, w: World, s: State, t: State)
    requires Matched(f, aliases, removed, s, t) && f.insts[InstAt(f, s.pt)].StoreInst?
    ensures Related(f, aliases, removed, Step(f, w, s), Step(Rewrite(f, aliases, removed), w, t))
  {
    hide IsTerminator, LoopFree, Root, StoredBytes, EffectiveAddress, Accessible, Keep;
    var d := f.insts[InstAt(f, s.pt)];
    MatchedInst(f, aliases, removed, s, t);
    assert UsesValue(d, d.saddr) && UsesValue(d, d.sdata);
    RootReads(aliases, s.env, t.env, d.saddr);
    RootReads(aliases, s.env, t.env, d.sdata);
    RootKeepsType(f, aliases, d.sdata);
    assert t.env[Root(aliases, d.sdata)] == s.env[d.sdata];
  }

  lemma {:induction false} KeptFence(f: Func, aliases: Aliases, removed: set<Inst>, w: World, s: State, t: State)
    requires Matched(f, aliases, removed, s, t) && (f.insts[InstAt(f, s.pt)].Fence? || f.insts[InstAt(f, s.pt)].Pure?)
    ensures Related(f, aliases, removed, Step(f, w, s), Step(Rewrite(f, aliases, removed), w, t))
  {
    hide InstFits, IsTerminator, LoopFree, Root, Bind, Keep;
    var g, d := Rewrite(f, aliases, removed), f.insts[InstAt(f, s.pt)];
    MatchedInst(f, aliases, removed, s, t);
    if d.Fence? {
      RootsRead(aliases, s.env, t.env, d.fargs);
      var out := w.external(s.trace, d.fcode, GetAll(s.env, d.fargs), s.mem);
      if out.Some? { BindAgrees(f, g, aliases, s.env, t.env, d.fresults, out.value.1); }
    } else {
      RootsRead(aliases, s.env, t.env, d.pargs);
      BindAgrees(f, g, aliases, s.env, t.env, [d.presult], [w.pure(d.pcode, GetAll(s.env, d.pargs))]);
    }
  }

  lemma {:induction false} KeptTerminator(f: Func, aliases: Aliases, removed: set<Inst>, w: World, s: State, t: State)
    requires Matched(f, aliases, removed, s, t) && IsTerminator(f.insts[InstAt(f, s.pt)])
    ensures Related(f, aliases, removed, Step(f, w, s), Step(Rewrite(f, aliases, removed), w, t))
  {
    hide InstFits, LoopFree, Root, Bind, Chosen;
    var g, d := Rewrite(f, aliases, removed), f.insts[InstAt(f, s.pt)];
    MatchedInst(f, aliases, removed, s, t);
    if d.Return? {
      RootsRead(aliases, s.env, t.env, d.rargs);
    } else {
      ChosenInRange(f, s);
      ChosenAgrees(aliases, d, s.env, t.env);
      var c := Chosen(d, s.env);
      RootsRead(aliases, s.env, t.env, c.args);
      BindAgrees(f, g, aliases, s.env, t.env, f.blocks[c.block].params, GetAll(s.env, c.args));
      assert f.blocks[c.block].insts[..0] == [];
    }
  }

  /** A kept instruction does the same in both functions. */
  lemma {:induction false} KeptStep(f: Func, aliases: Aliases, removed: set<Inst>, w: World, s: State, t: State)
    requires Matched(f, aliases, removed, s, t)
    ensures Related(f, aliases, removed, Step(f, w, s), Step(Rewrite(f, aliases, removed), w, t))
  {
    hide InstFits, LoopFree, Root, Step, Related, Redirect;
    var d := f.insts[InstAt(f, s.pt)];
    if d.LoadInst? { KeptLoad(f, aliases, removed, w, s, t); }
    else if d.StoreInst? { KeptStore(f, aliases, removed, w, s, t); }
    else if d.Fence? || d.Pure? { KeptFence(f, aliases, removed, w, s, t); }
    else { KeptTerminator(f, aliases, removed, w, s, t); }
  }

  /** A removed load takes no step in the rewritten function: it would not trap, and only its own
      result changes. */
  lemma {:induction false} RemovedStep(f: Func, aliases: Aliases, removed: set<Inst>, w: World, s: State, t: State)
    requires CodeOk(f) && s.Running? && StateOk(f, s) && Related(f, aliases, removed, s, t)
    requires InstAt(f, s.pt) in removed && f.insts[InstAt(f, s.pt)].LoadInst? &&
      f.insts[InstAt(f, s.pt)].lresult in aliases
    requires
      var l := f.insts[InstAt(f, s.pt)];
      Accessible(s.mem, AccessAddress(l, s.env), WidthOf(f, l))
    ensures Related(f, aliases, removed, Step(f, w, s), t)
  {
    hide IsTerminator, LoadedValue, EffectiveAddress, Bind;
    var d := f.insts[InstAt(f, s.pt)];
    var a, n := LoadAddress(d, s.env), AccessWidth(d.lop, f.values[d.lresult].ty);
    BindOne(f, s.env, d.lresult, LoadedValue(d.lop, d.lflags.order, ReadBytes(s.mem, a, n), f.values[d.lresult].ty));
    KeepAt(f.blocks[s.pt.b].insts, removed, s.pt.i);
  }

  // ---- whole runs ----

  /** The state after `n` steps; halted states stay. */
  function Exec(f: Func, w: World, s: State, n: nat): (r: State)
    requires CodeOk(f) && StateOk(f, s)
    ensures StateOk(f, r)
  {
    if n == 0 then s else Step(f, w, Exec(f, w, s, n - 1))
  }

  /** How many of the first `n` steps of the original the rewritten function takes too. */
  ghost function KeptSteps(f: Func, removed: set<Inst>, w: World, s: State, n: nat): nat
    requires CodeOk(f) && StateOk(f, s)
  {
    if n == 0 then 0
    else
      var t := Exec(f, w, s, n - 1);
      KeptSteps(f, removed, w, s, n - 1) + if t.Running? && InstAt(f, t.pt) in removed then 0 else 1
  }

  lemma HaltedStays(f: Func, w: World, s: State)
    requires CodeOk(f) && StateOk(f, s) && s.Halted?
    ensures Step(f, w, s) == s
  {
    hide InstFits, Bind;
  }

  lemma {:induction false} StillRunning(f: Func, w: World, s: State, k: nat, n: nat)
    requires CodeOk(f) && StateOk(f, s) && k <= n && Exec(f, w, s, n).Running?
    ensures Exec(f, w, s, k).Running?
    decreases n
  {
    hide CodeOk, Step;
    if k < n {
      if Exec(f, w, s, n - 1).Halted? { HaltedStays(f, w, Exec(f, w, s, n - 1)); }
      StillRunning(f, w, s, k, n - 1);
    }
  }

  /** The region discipline, for the whole run. */
  ghost predicate AlwaysDisciplined(f: Func, w: World, s: State, regionOf: int -> Region)
    requires CodeOk(f) && StateOk(f, s)
  {
    forall n: nat :: AccessInRegion(f, Exec(f, w, s, n), regionOf)
  }

  /** The outcome of the pass, as its method leaves it. */
  ghost predicate PassResult(f: Func, input: BlockStates, aliases: Aliases, source: map<Value, Inst>,
      removed: set<Inst>)
  {
    && SsaForm(f) && AllReachable(f) && Solution(f, input)
    && AliasesOk(f, input, aliases, source)
    && (exists processed :: RemovedOk(f, aliases, processed, removed))
    && OrdersAgree(f, input, aliases, source)
  }

  ghost function RunOf(f: Func, w: World, s: State, n: nat): (run: seq<State>)
    requires CodeOk(f) && StateOk(f, s)
    ensures |run| == n + 1 && forall k :: 0 <= k <= n ==> run[k] == Exec(f, w, s, k)
  {
    seq(n + 1, k requires 0 <= k <= n => Exec(f, w, s, k))
  }

  lemma {:induction false} RunOfSetting(f: Func, input: BlockStates, aliases: Aliases, source: map<Value, Inst>,
      removed: set<Inst>, w: World, s: State, regionOf: int -> Region, n: nat)
    requires PassResult(f, input, aliases, source, removed)
    requires s.Running? && s.pt == Point(0, 0) && StateOk(f, s) && AlwaysDisciplined(f, w, s, regionOf)
    requires Exec(f, w, s, n).Running?
    ensures Setting(f, input, aliases, source, w, RunOf(f, w, s, n), regionOf)
  {
    hide CodeOk, Step, AccessInRegion, AliasesOk, AllReachable, Solution, OrdersAgree, Available;
    var run := RunOf(f, w, s, n);
    forall k | 0 <= k < |run| ensures run[k].Running? && StateOk(f, run[k]) && AccessInRegion(f, run[k], regionOf) {
      StillRunning(f, w, s, k, n);
    }
    forall k | 0 < k < |run| ensures run[k] == Step(f, w, run[k - 1]) {
      assert run[k] == Exec(f, w, s, k) && run[k - 1] == Exec(f, w, s, k - 1);
    }
  }

  /** One more step of the original run. */
  lemma {:induction false} SimulateStep(f: Func, input: BlockStates, aliases: Aliases, source: map<Value, Inst>,
      removed: set<Inst>, w: World, run: seq<State>, regionOf: int -> Region, n: nat, t: State)
    requires PassResult(f, input, aliases, source, removed) && Setting(f, input, aliases, source, w, run, regionOf) &&
      n < |run|
    requires CodeOk(Rewrite(f, aliases, removed)) && StateOk(Rewrite(f, aliases, removed), t) &&
      Related(f, aliases, removed, run[n], t)
    ensures
      Related(f, aliases, removed, Step(f, w, run[n]),
              if InstAt(f, run[n].pt) in removed then t else Step(Rewrite(f, aliases, removed), w, t))
  {
    hide InstFits, IsTerminator, AllReachable, Dominates, Step, Solution, LoopFree, Root, AliasOk, Disciplined,
      OrdersAgree, Accessible, LoadedValue, Related, EffectiveAddress, Rewrite;
    var s := run[n];
    var inst := InstAt(f, s.pt);
    var processed :| RemovedOk(f, aliases, processed, removed);
    AliasesAreTyped(f, input, aliases, source);
    if inst in removed {
      var x := f.insts[inst].lresult;
      ContentInRange(f, inst);
      RemovedLoadReadsRoot(f, input, aliases, source, w, run, regionOf, x, n);
      RemovedStep(f, aliases, removed, w, s, t);
    } else {
      forall v: Value | UsesValue(f.insts[inst], v) ensures Get(s.env, v) == Get(s.env, Root(aliases, v)) {
        UseInRange(f, s.pt, v);
        AvailableHoldsRoot(f, input, aliases, source, w, run, regionOf, v, n);
      }
      KeptStep(f, aliases, removed, w, s, t);
    }
  }

  lemma {:induction false} UseInRange(f: Func, p: Point, v: Value)
    requires SsaForm(f) && ValidPoint(f, p) && UsesValue(f.insts[InstAt(f, p)], v)
    ensures v < |f.values| && Available(f, v, p)
  {
    hide IsTerminator, Dominates;
    assert InstFits(f, f.insts[InstAt(f, p)]);
  }

  /** The rewrite preserves meaning: after any number of steps of the original, the rewritten
      function, having taken the kept steps only, has the same memory, the same events and the same
      values, and halts with the same outcome when the original does. */
  lemma {:induction false} RewritePreservesRuns(f: Func, input: BlockStates, aliases: Aliases, source: map<Value, Inst>,
      removed: set<Inst>, w: World, s: State, regionOf: int -> Region, n: nat)
    requires PassResult(f, input, aliases, source, removed)
    requires s.Running? && s.pt == Point(0, 0) && StateOk(f, s) && AlwaysDisciplined(f, w, s, regionOf)
    ensures LoopFree(aliases)
    ensures
      var g := Rewrite(f, aliases, removed);
      && CodeOk(g) && StateOk(g, s)
      && Related(f, aliases, removed, Exec(f, w, s, n), Exec(g, w, s, KeptSteps(f, removed, w, s, n)))
  {
    hide CodeOk, PassResult, Setting, Step, LoopFree, AlwaysDisciplined, Rewrite;
    RewriteStarts(f, input, aliases, source, removed, s);
    var g := Rewrite(f, aliases, removed);
    if n > 0 {
      RewritePreservesRuns(f, input, aliases, source, removed, w, s, regionOf, n - 1);
      var s', t := Exec(f, w, s, n - 1), Exec(g, w, s, KeptSteps(f, removed, w, s, n - 1));
      if s'.Running? {
        RunOfSetting(f, input, aliases, source, removed, w, s, regionOf, n - 1);
        SimulateStep(f, input, aliases, source, removed, w, RunOf(f, w, s, n - 1), regionOf, n - 1, t);
      } else {
        HaltedStays(f, w, s');
        HaltedStays(g, w, t);
      }
    }
  }

  lemma {:induction false} RewriteStarts(f: Func, input: BlockStates, aliases: Aliases, source: map<Value, Inst>,
      removed: set<Inst>, s: State)
    requires PassResult(f, input, aliases, source, removed) && s.Running? && s.pt == Point(0, 0) && StateOk(f, s)
    ensures CodeOk(f) && LoopFree(aliases)
    ensures
      var g := Rewrite(f, aliases, removed);
      CodeOk(g) && StateOk(g, s) && Related(f, aliases, removed, s, s)
  {
    hide InstFits, IsTerminator, AllReachable, Solution, LoopFree, Root, AliasOk, OrdersAgree, Available;
    var processed :| RemovedOk(f, aliases, processed, removed);
    AliasesAreTyped(f, input, aliases, source);
    RewriteCodeOk(f, aliases, removed);
    assert f.blocks[0].insts[..0] == [];
    var g := Rewrite(f, aliases, removed);
    assert |g.blocks[0].insts| > 0;
  }

  /** No run of the original spends for ever in removed loads, so every step count of the rewritten
      function is reached. */
  lemma {:induction false} KeptStepsReach(f: Func, removed: set<Inst>, w: World, s: State, m: nat) returns (n: nat)
    requires CodeOk(f) && StateOk(f, s) && OnlyLoads(f, removed)
    ensures KeptSteps(f, removed, w, s, n) == m
  {
    hide CodeOk, Step;
    if m == 0 {
      n := 0;
    } else {
      var n' := KeptStepsReach(f, removed, w, s, m - 1);
      n := NextKept(f, removed, w, s, n');
    }
  }

  /** From any step on, a kept one follows: at the latest the terminator of the block. */
  lemma {:induction false} NextKept(f: Func, removed: set<Inst>, w: World, s: State, k: nat) returns (n: nat)
    requires CodeOk(f) && StateOk(f, s) && OnlyLoads(f, removed)
    ensures KeptSteps(f, removed, w, s, n) == KeptSteps(f, removed, w, s, k) + 1
    decreases
      var t := Exec(f, w, s, k);
      if t.Running? then |f.blocks[t.pt.b].insts| - t.pt.i else 0
  {
    hide InstFits, Step;
    var t := Exec(f, w, s, k);
    if t.Running? && InstAt(f, t.pt) in removed {
      LoadAdvances(f, w, t);
      assert Exec(f, w, s, k + 1) == Step(f, w, t);
      n := NextKept(f, removed, w, s, k + 1);
    } else {
      n := k + 1;
    }
  }

  lemma {:induction false} LoadAdvances(f: Func, w: World, s: State)
    requires CodeOk(f) && StateOk(f, s) && s.Running? && f.insts[InstAt(f, s.pt)].LoadInst?
    ensures Step(f, w, s).Running? ==> Step(f, w, s).pt == Point(s.pt.b, s.pt.i + 1)
    ensures !IsLast(f, s.pt)
  {
    hide InstFits, Bind, LoadedValue;
  }
}
