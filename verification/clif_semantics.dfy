/** Execution of the model IR. A run is deterministic once the outside world is fixed: the world
    interprets the pure operations, and decides what each fence does to memory (anything), what it
    returns, and whether it traps. */
module ClifSemantics {
  import opened Wrappers
  import opened Clif

  /** A run-time value: its bytes, least significant first. */
  type Val = seq<byte>
  type Env = seq<Val>
  /** Accessible memory; touching an address outside the map traps. */
  type Mem = map<int, byte>

  datatype Event = StoreEvent(addr: int, bytes: seq<byte>) | FenceEvent(code: nat, args: seq<Val>, mem: Mem)

  datatype World = World(
    pure: (nat, seq<Val>) -> Val,
    external: (seq<Event>, nat, seq<Val>, Mem) -> Option<(Mem, seq<Val>)>)

  datatype Outcome = Trapped | Returned(vals: seq<Val>)

  datatype State =
    | Running(pt: Point, env: Env, mem: Mem, trace: seq<Event>)
    | Halted(outcome: Outcome, finalMem: Mem, finalTrace: seq<Event>)

  // ---- values and memory ----

  function Reverse(b: seq<byte>): (r: seq<byte>)
    ensures |r| == |b|
    ensures forall i :: 0 <= i < |b| ==> r[i] == b[|b| - 1 - i]
  {
    seq(|b|, i requires 0 <= i < |b| => b[|b| - 1 - i])
  }

  function Oriented(o: Order, b: seq<byte>): (r: seq<byte>)
    ensures |r| == |b|
  {
    if o.Big? then Reverse(b) else b
  }

  function Fit(v: Val, n: nat): (r: Val)
    ensures |r| == n
  {
    if n <= |v| then v[..n] else v + seq(n - |v|, _ => 0)
  }

  function Extend(v: Val, n: nat, signed: bool): (r: Val)
    ensures |r| == n
  {
    if n <= |v| then v[..n]
    else v + seq(n - |v|, _ => if signed && |v| > 0 && v[|v| - 1] >= 128 then 255 else 0)
  }

  function ToInt(v: Val): nat {
    if v == [] then 0 else v[0] + 256 * ToInt(v[1..])
  }

  function EffectiveAddress(v: Val, offset: int): int {
    (ToInt(v) + offset) % 0x1_0000_0000_0000_0000
  }

  predicate Accessible(m: Mem, a: int, n: nat) {
    forall x :: a <= x < a + n ==> x in m
  }

  function ReadBytes(m: Mem, a: int, n: nat): (r: seq<byte>)
    requires Accessible(m, a, n)
  {
    seq(n, i requires 0 <= i < n => m[a + i])
  }

  function WriteBytes(m: Mem, a: int, b: seq<byte>): (r: Mem)
  {
    map x | x in m :: if a <= x < a + |b| then b[x - a] else m[x]
  }

  /** The value a load makes of the raw bytes it read. */
  function LoadedValue(op: Opcode, o: Order, raw: seq<byte>, ty: Type): (v: Val) {
    if op.ExtLoad? then Extend(Oriented(o, raw), ty.bytes, op.signed) else Oriented(o, raw)
  }

  /** The raw bytes a store writes for a value. */
  function StoredBytes(op: Opcode, o: Order, v: Val, ty: Type): (raw: seq<byte>) {
    Oriented(o, if op.TruncStore? then Fit(v, op.width) else v)
  }

  // ---- one step ----

  ghost predicate TypedEnv(f: Func, env: Env) {
    |env| == |f.values| && forall v :: 0 <= v < |f.values| ==> |env[v]| == f.values[v].ty.bytes
  }

  ghost predicate StateOk(f: Func, s: State) {
    s.Running? ==> ValidPoint(f, s.pt) && TypedEnv(f, s.env)
  }

  /** Bind `vs[j]` to the fitted `vals[j]`; missing values read as empty. */
  function Bind(f: Func, env: Env, vs: seq<Value>, vals: seq<Val>): (r: Env)
    requires TypedEnv(f, env)
    ensures TypedEnv(f, r)
    decreases |vs|
  {
    if vs == [] then env
    else
      var last := |vs| - 1;
      var rest := Bind(f, env, vs[..last], vals);
      var x := if last < |vals| then vals[last] else [];
      if vs[last] < |rest| then rest[vs[last] := Fit(x, f.values[vs[last]].ty.bytes)] else rest
  }

  function Get(env: Env, v: Value): Val {
    if v < |env| then env[v] else []
  }

  function GetAll(env: Env, vs: seq<Value>): (r: seq<Val>)
    ensures |r| == |vs|
  {
    seq(|vs|, j requires 0 <= j < |vs| => Get(env, vs[j]))
  }

  function LoadAddress(d: InstData, env: Env): int
    requires d.LoadInst?
  {
    EffectiveAddress(Get(env, d.laddr), d.loffset)
  }

  function StoreAddress(d: InstData, env: Env): int
    requires d.StoreInst?
  {
    EffectiveAddress(Get(env, d.saddr), d.soffset)
  }

  function Enter(f: Func, s: State, c: BlockCall): (r: State)
    requires s.Running? && TypedEnv(f, s.env) && c.block < |f.blocks|
    ensures r.Running? && r.pt == Point(c.block, 0) && TypedEnv(f, r.env)
  {
    Running(Point(c.block, 0), Bind(f, s.env, f.blocks[c.block].params, GetAll(s.env, c.args)), s.mem, s.trace)
  }

  /** Which edge a branch takes. */
  function Chosen(d: InstData, env: Env): (c: BlockCall)
    requires d.Jump? || d.Brif? || d.BranchTable?
    ensures c in BlockCalls(d)
  {
    match d
    case Jump(dest) => dest
    case Brif(c, t, e) => if ToInt(Get(env, c)) != 0 then t else e
    case BranchTable(x, dflt, table) =>
      var i := ToInt(Get(env, x));
      if i < |table| then table[i] else dflt
  }

  function Step(f: Func, w: World, s: State): (r: State)
    requires CodeOk(f) && StateOk(f, s)
    ensures StateOk(f, r)
  {
    if s.Halted? then s
    else
      var Running(pt, env, mem, trace) := s;
      var next := Point(pt.b, pt.i + 1);
      var d := f.insts[InstAt(f, pt)];
      match d
      case LoadInst(op, flags, _, _, r) =>
        var a, n := LoadAddress(d, env), AccessWidth(op, f.values[r].ty);
        if !Accessible(mem, a, n) then Halted(Trapped, mem, trace)
        else Running(next, Bind(f, env, [r], [LoadedValue(op, flags.order, ReadBytes(mem, a, n), f.values[r].ty)]), mem,
          trace)
      case StoreInst(op, flags, x, _, _) =>
        var a, bytes := StoreAddress(d, env), StoredBytes(op, flags.order, env[x], f.values[x].ty);
        if !Accessible(mem, a, |bytes|) then Halted(Trapped, mem, trace)
        else Running(next, env, WriteBytes(mem, a, bytes), trace + [StoreEvent(a, bytes)])
      case Fence(code, args, results) =>
        var vals := GetAll(env, args);
        var trace' := trace + [FenceEvent(code, vals, mem)];
        (match w.external(trace, code, vals, mem)
         case None => Halted(Trapped, mem, trace')
         case Some((mem', outs)) => Running(next, Bind(f, env, results, outs), mem', trace'))
      case Pure(code, args, r) =>
        Running(next, Bind(f, env, [r], [w.pure(code, GetAll(env, args))]), mem, trace)
      case Return(args) => Halted(Returned(GetAll(env, args)), mem, trace)
      case _ => Enter(f, s, Chosen(d, env))
  }
}
