/** A small model of Cranelift's intermediate representation: typed SSA values, basic blocks with
    parameters, region-labelled loads and stores, fences, and branches, with a deterministic
    small-step semantics over byte memory. */
module Clif {
  type Value = nat
  type Inst = nat
  type Block = nat

  /** The disjoint pieces of abstract memory state. `Other` is "no alias region set". */
  datatype Region = Heap | Table | Vmctx | Other

  datatype Order = Little | Big

  /** Two types of equal size (i32, f32) differ in `tag`. */
  datatype Type = Type(bytes: nat, tag: nat)

  /** The load and store opcodes: plain, extending (uload8, sload16, ...) and truncating (istore8, ...). */
  datatype Opcode = Load | ExtLoad(width: nat, signed: bool) | Store | TruncStore(width: nat)

  datatype MemFlags = MemFlags(region: Region, order: Order)

  datatype BlockCall = BlockCall(block: Block, args: seq<Value>)

  /** `Fence` stands for every instruction with memory-fence semantics and no modelled memory access
      of its own: calls, the fence instruction, and every instruction that can trap. */
  datatype InstData =
    | LoadInst(lop: Opcode, lflags: MemFlags, laddr: Value, loffset: int, lresult: Value)
    | StoreInst(sop: Opcode, sflags: MemFlags, sdata: Value, saddr: Value, soffset: int)
    | Fence(fcode: nat, fargs: seq<Value>, fresults: seq<Value>)
    | Pure(pcode: nat, pargs: seq<Value>, presult: Value)
    | Jump(dest: BlockCall)
    | Brif(cond: Value, blockThen: BlockCall, blockElse: BlockCall)
    | BranchTable(index: Value, default: BlockCall, table: seq<BlockCall>)
    | Return(rargs: seq<Value>)

  datatype ValueDef = ParamDef(block: Block) | ResultDef(inst: Inst)
  datatype ValueData = ValueData(ty: Type, def: ValueDef)
  datatype BlockData = BlockData(params: seq<Value>, insts: seq<Inst>)

  /** A program point: instruction `i` of block `b`, before it executes. */
  datatype Point = Point(b: Block, i: nat)

  /** Blocks stand in layout order, so block 0 is the entry; `place[n]` is where instruction `n` sits. */
  datatype Func = Func(blocks: seq<BlockData>, insts: seq<InstData>, values: seq<ValueData>, place: seq<Point>)

  predicate IsTerminator(d: InstData) {
    d.Jump? || d.Brif? || d.BranchTable? || d.Return?
  }

  function BlockCalls(d: InstData): seq<BlockCall> {
    match d
    case Jump(dest) => [dest]
    case Brif(_, t, e) => [t, e]
    case BranchTable(_, dflt, table) => [dflt] + table
    case _ => []
  }

  function Results(d: InstData): seq<Value> {
    match d
    case LoadInst(_, _, _, _, r) => [r]
    case Fence(_, _, rs) => rs
    case Pure(_, _, r) => [r]
    case _ => []
  }

  ghost predicate UsesValue(d: InstData, v: Value) {
    match d
    case LoadInst(_, _, a, _, _) => v == a
    case StoreInst(_, _, x, a, _) => v == x || v == a
    case Fence(_, args, _) => v in args
    case Pure(_, args, _) => v in args
    case Jump(dest) => v in dest.args
    case Brif(c, t, e) => v == c || v in t.args || v in e.args
    case BranchTable(x, dflt, table) =>
      v == x || v in dflt.args || exists j :: 0 <= j < |table| && v in table[j].args
    case Return(args) => v in args
  }

  function AccessWidth(op: Opcode, ty: Type): nat {
    match op
    case Load => ty.bytes
    case ExtLoad(w, _) => w
    case Store => ty.bytes
    case TruncStore(w) => w
  }

  // ---- well-formed functions ----

  predicate ValidPoint(f: Func, p: Point) {
    p.b < |f.blocks| && p.i < |f.blocks[p.b].insts|
  }

  function InstAt(f: Func, p: Point): Inst
    requires ValidPoint(f, p)
  {
    f.blocks[p.b].insts[p.i]
  }

  predicate IsLast(f: Func, p: Point)
    requires ValidPoint(f, p)
  {
    p.i + 1 == |f.blocks[p.b].insts|
  }

  predicate CallFits(f: Func, c: BlockCall) {
    && c.block < |f.blocks|
    && |c.args| == |f.blocks[c.block].params|
    && forall j :: 0 <= j < |c.args| ==>
      && c.args[j] < |f.values|
      && f.blocks[c.block].params[j] < |f.values|
      && f.values[c.args[j]].ty == f.values[f.blocks[c.block].params[j]].ty
  }

  ghost predicate InstFits(f: Func, d: InstData) {
    && (forall v: Value :: UsesValue(d, v) ==> v < |f.values|)
    && (forall v: Value :: v in Results(d) ==> v < |f.values|)
    && (forall j :: 0 <= j < |BlockCalls(d)| ==> CallFits(f, BlockCalls(d)[j]))
    && (d.LoadInst? ==>
      && d.lresult < |f.values|
      && (d.lop.Load? || d.lop.ExtLoad?)
      && 0 < AccessWidth(d.lop, f.values[d.lresult].ty) <= f.values[d.lresult].ty.bytes)
    && (d.StoreInst? ==>
      && d.sdata < |f.values|
      && (d.sop.Store? || d.sop.TruncStore?)
      && 0 < AccessWidth(d.sop, f.values[d.sdata].ty) <= f.values[d.sdata].ty.bytes)
  }

  /** The code can execute: indices are in range, accesses and block calls are well typed, and
      terminators stand exactly at block ends. */
  ghost predicate CodeOk(f: Func) {
    && |f.blocks| > 0
    && (forall b :: 0 <= b < |f.blocks| ==> |f.blocks[b].insts| > 0)
    && (forall p :: ValidPoint(f, p) ==>
      && InstAt(f, p) < |f.insts|
      && (IsTerminator(f.insts[InstAt(f, p)]) <==> IsLast(f, p)))
    && (forall n :: 0 <= n < |f.insts| ==> InstFits(f, f.insts[n]))
  }

  /** The layout and definition tables agree with the code: what the Cranelift verifier checks, apart
      from dominance. */
  ghost predicate WellFormed(f: Func) {
    && CodeOk(f)
    && |f.place| == |f.insts|
    && (forall p :: ValidPoint(f, p) ==> f.place[InstAt(f, p)] == p)
    && (forall n :: 0 <= n < |f.insts| ==> ValidPoint(f, f.place[n]) && InstAt(f, f.place[n]) == n)
    && (forall n, v :: 0 <= n < |f.insts| && v in Results(f.insts[n]) ==> f.values[v].def == ResultDef(n))
    && (forall b, v :: 0 <= b < |f.blocks| && v in f.blocks[b].params ==>
      v < |f.values| && f.values[v].def == ParamDef(b))
    && (forall v :: 0 <= v < |f.values| ==>
      match f.values[v].def
      case ParamDef(b) => b < |f.blocks|
      case ResultDef(n) => n < |f.insts|)
  }

  // ---- control-flow paths and dominance ----

  /** Blocks reached from the end of block `b`, in the order in which they are visited. */
  function Succs(f: Func, b: Block): (ss: seq<Block>)
    requires CodeOk(f) && b < |f.blocks|
  {
    var calls := BlockCalls(f.insts[InstAt(f, Point(b, |f.blocks[b].insts| - 1))]);
    seq(|calls|, j requires 0 <= j < |calls| => calls[j].block)
  }

  predicate Next(f: Func, p: Point, q: Point)
    requires CodeOk(f) && ValidPoint(f, p)
  {
    if IsLast(f, p) then q.i == 0 && q.b in Succs(f, p.b) else q == Point(p.b, p.i + 1)
  }

  /** A control-flow path from the entry. */
  ghost predicate IsPath(f: Func, path: seq<Point>) {
    && CodeOk(f)
    && |path| > 0
    && path[0] == Point(0, 0)
    && (forall k :: 0 <= k < |path| ==> ValidPoint(f, path[k]))
    && (forall k :: 0 < k < |path| ==> Next(f, path[k - 1], path[k]))
  }

  ghost predicate PathTo(f: Func, path: seq<Point>, u: Point) {
    IsPath(f, path) && path[|path| - 1] == u
  }

  ghost predicate Reachable(f: Func, u: Point) {
    exists path :: PathTo(f, path, u)
  }

  /** `d` dominates `u`: every path from the entry to `u` passes through `d`. */
  ghost predicate Dominates(f: Func, d: Point, u: Point) {
    forall path :: PathTo(f, path, u) ==> d in path
  }

  function DefPoint(f: Func, v: Value): Point
    requires WellFormed(f) && v < |f.values|
  {
    match f.values[v].def
    case ParamDef(b) => Point(b, 0)
    case ResultDef(n) => f.place[n]
  }

  /** The definition of `v` dominates `p`; an instruction result is not available at its own definition. */
  ghost predicate Available(f: Func, v: Value, p: Point)
    requires WellFormed(f) && v < |f.values|
  {
    Dominates(f, DefPoint(f, v), p) && (f.values[v].def.ResultDef? ==> DefPoint(f, v) != p)
  }

  /** Strict SSA form: every use is dominated by its definition. */
  ghost predicate SsaForm(f: Func) {
    && WellFormed(f)
    && forall p, v: Value :: ValidPoint(f, p) && UsesValue(f.insts[InstAt(f, p)], v) ==> Available(f, v, p)
  }

  /** Unreachable code has been eliminated. */
  ghost predicate AllReachable(f: Func) {
    forall p :: ValidPoint(f, p) ==> Reachable(f, p)
  }
}
