/** The "last store" dataflow analysis. */
module LastStore {
  import opened Wrappers
  import opened Clif

  /** For each region, the last instruction that may have written it, if any. */
  datatype LastStores = LastStores(heap: Option<Inst>, table: Option<Inst>, vmctx: Option<Inst>, other: Option<Inst>)
  {
    function At(r: Region): Option<Inst> {
      match r
      case Heap => heap
      case Table => table
      case Vmctx => vmctx
      case Other => other
    }

    function Set(r: Region, i: Inst): LastStores {
      match r
      case Heap => this.(heap := Some(i))
      case Table => this.(table := Some(i))
      case Vmctx => this.(vmctx := Some(i))
      case Other => this.(other := Some(i))
    }

    function Update(d: InstData, inst: Inst): LastStores {
      if d.Fence? then LastStores(Some(inst), Some(inst), Some(inst), Some(inst))
      else if d.StoreInst? then Set(d.sflags.region, inst)
      else this
    }

    /** The memory version a load or store sees. */
    function GetLastStore(d: InstData): Option<Inst> {
      match d
      case LoadInst(_, flags, _, _, _) => At(flags.region)
      case StoreInst(_, flags, _, _, _) => At(flags.region)
      case _ => None
    }

    function MeetFrom(that: LastStores, loc: Inst): LastStores {
      LastStores(Meet(heap, that.heap, loc), Meet(table, that.table, loc),
                 Meet(vmctx, that.vmctx, loc), Meet(other, that.other, loc))
    }
  }

  const NO_STORES := LastStores(None, None, None, None)

  /** In the source both operands of the meet are packed options that are wrapped once more before
      being matched, so its two arms for an absent operand are never taken: a packed none is just
      another value, different from every store. */
  function Meet(a: Option<Inst>, b: Option<Inst>, loc: Inst): Option<Inst> {
    if a == b then a else Some(loc)
  }

  predicate MayWrite(d: InstData, r: Region) {
    d.Fence? || (d.StoreInst? && d.sflags.region == r)
  }

  lemma UpdateAt(ls: LastStores, d: InstData, inst: Inst, r: Region)
    ensures ls.Update(d, inst).At(r) == if MayWrite(d, r) then Some(inst) else ls.At(r)
  {
  }

  lemma MeetAt(a: LastStores, b: LastStores, loc: Inst, r: Region)
    ensures a.MeetFrom(b, loc).At(r) == Meet(a.At(r), b.At(r), loc)
  {
  }

  function FirstInst(f: Func, b: Block): Inst
    requires CodeOk(f) && b < |f.blocks|
  {
    InstAt(f, Point(b, 0))
  }

  type BlockStates = map<Block, LastStores>

  function StartingState(input: BlockStates, b: Block): LastStores {
    if b in input then input[b] else NO_STORES
  }

  /** The state after the first `i` instructions of block `b`, started in `ls`. */
  function Through(f: Func, ls: LastStores, b: Block, i: nat): LastStores
    requires CodeOk(f) && b < |f.blocks| && i <= |f.blocks[b].insts|
  {
    if i == 0 then ls
    else
      var inst := InstAt(f, Point(b, i - 1));
      Through(f, ls, b, i - 1).Update(f.insts[inst], inst)
  }

  function Output(f: Func, ls: LastStores, b: Block): LastStores
    requires CodeOk(f) && b < |f.blocks|
  {
    Through(f, ls, b, |f.blocks[b].insts|)
  }

  /** The state just before the instruction at `p`. */
  function StateAt(f: Func, input: BlockStates, p: Point): LastStores
    requires CodeOk(f) && ValidPoint(f, p)
  {
    Through(f, StartingState(input, p.b), p.b, p.i)
  }

  /** The state flowing out of a block is accounted for in `input[succ]`. */
  predicate Absorbs(into: LastStores, out: LastStores, loc: Inst) {
    forall r :: into.At(r) == out.At(r) || into.At(r) == Some(loc)
  }

  predicate EdgesAbsorbed(f: Func, input: BlockStates, b: Block)
    requires CodeOk(f) && b < |f.blocks|
  {
    b in input && forall j :: 0 <= j < |Succs(f, b)| ==>
      var s := Succs(f, b)[j];
      s in input && s < |f.blocks| && Absorbs(input[s], Output(f, input[b], b), FirstInst(f, s))
  }

  /** A solution of the dataflow equations: defined on the entry and closed under edges. */
  ghost predicate Solution(f: Func, input: BlockStates)
    requires CodeOk(f)
  {
    && 0 in input
    && (forall b :: b in input ==> b < |f.blocks| && EdgesAbsorbed(f, input, b))
    && Absorbs(input[0], NO_STORES, FirstInst(f, 0))
  }

  // ---- the meaning of a solution ----

  /** At position `j` of the path, the event named by `token` happens to region `r`: either the
      instruction writes `r`, or the block it starts is entered. */
  ghost predicate EventAt(f: Func, path: seq<Point>, r: Region, token: Inst, j: nat, k: nat)
    requires IsPath(f, path) && j < |path| && k < |path|
  {
    InstAt(f, path[j]) == token &&
    (|| (j < k && MayWrite(f.insts[token], r) && NoWrites(f, path, r, j + 1, k))
     || (j <= k && path[j].i == 0 && NoWrites(f, path, r, j, k)))
  }

  ghost predicate NoWrites(f: Func, path: seq<Point>, r: Region, lo: nat, hi: nat)
    requires IsPath(f, path) && hi < |path|
  {
    forall i :: lo <= i < hi ==> !MayWrite(f.insts[InstAt(f, path[i])], r)
  }

  /** What the state `t` of region `r` claims about the path up to position `k`. */
  ghost predicate Describes(f: Func, path: seq<Point>, r: Region, t: Option<Inst>, k: nat)
    requires IsPath(f, path) && k < |path|
  {
    match t
    case None => NoWrites(f, path, r, 0, k)
    case Some(i) => exists j :: 0 <= j <= k && EventAt(f, path, r, i, j, k)
  }

  lemma SuccInRange(f: Func, p: Point, q: Point)
    requires CodeOk(f) && ValidPoint(f, p) && IsLast(f, p) && Next(f, p, q)
    ensures exists j :: 0 <= j < |Succs(f, p.b)| && Succs(f, p.b)[j] == q.b
    ensures q.b < |f.blocks| && ValidPoint(f, q)
  {
    var d := f.insts[InstAt(f, p)];
    assert p == Point(p.b, |f.blocks[p.b].insts| - 1);
    assert InstFits(f, d);
    var j :| 0 <= j < |Succs(f, p.b)| && Succs(f, p.b)[j] == q.b;
    assert CallFits(f, BlockCalls(d)[j]);
  }

  /** Carrying a description one step along the path. */
  lemma {:induction false} DescribesStep(f: Func, path: seq<Point>, r: Region, t: Option<Inst>, k: nat)
    requires IsPath(f, path) && k + 1 < |path| && Describes(f, path, r, t, k)
    ensures
      var inst := InstAt(f, path[k]);
      Describes(f, path, r, if MayWrite(f.insts[inst], r) then Some(inst) else t, k + 1)
  {
    hide InstFits, IsTerminator, Next, MayWrite;
    var inst := InstAt(f, path[k]);
    if MayWrite(f.insts[inst], r) {
      assert EventAt(f, path, r, inst, k, k + 1);
    } else if t.Some? {
      var j :| 0 <= j <= k && EventAt(f, path, r, t.value, j, k);
      assert EventAt(f, path, r, t.value, j, k + 1);
    }
  }

  lemma {:induction false} ReachedBlocksHaveStates(f: Func, input: BlockStates, path: seq<Point>, k: nat)
    requires CodeOk(f) && Solution(f, input) && IsPath(f, path) && k < |path|
    ensures path[k].b in input
  {
    hide InstFits, IsTerminator, Output, Absorbs;
    if k > 0 {
      ReachedBlocksHaveStates(f, input, path, k - 1);
      assert Next(f, path[k - 1], path[k]);
      if IsLast(f, path[k - 1]) {
        SuccInRange(f, path[k - 1], path[k]);
        assert EdgesAbsorbed(f, input, path[k - 1].b);
      }
    }
  }

  lemma {:induction false} EntryEvent(f: Func, path: seq<Point>, r: Region, k: nat)
    requires IsPath(f, path) && k < |path| && path[k].i == 0
    ensures Describes(f, path, r, Some(InstAt(f, path[k])), k)
  {
    hide InstFits, IsTerminator, Next, MayWrite;
    assert EventAt(f, path, r, InstAt(f, path[k]), k, k);
  }

  /** The state before a point is the state before its predecessor, updated, or a block's input state
      that absorbs it. */
  lemma {:induction false} StateStep(f: Func, input: BlockStates, p: Point, q: Point, r: Region)
    requires CodeOk(f) && Solution(f, input) && ValidPoint(f, p) && Next(f, p, q) && p.b in input
    ensures ValidPoint(f, q)
    ensures
      var inst := InstAt(f, p);
      var after := if MayWrite(f.insts[inst], r) then Some(inst) else StateAt(f, input, p).At(r);
      StateAt(f, input, q).At(r) == after || (q.i == 0 && StateAt(f, input, q).At(r) == Some(InstAt(f, q)))
  {
    hide InstFits, IsTerminator, MayWrite;
    var inst := InstAt(f, p);
    UpdateAt(StateAt(f, input, p), f.insts[inst], inst, r);
    if IsLast(f, p) {
      SuccInRange(f, p, q);
      assert EdgesAbsorbed(f, input, p.b);
      assert Absorbs(input[q.b], Output(f, input[p.b], p.b), FirstInst(f, q.b));
      assert q == Point(q.b, 0);
    }
  }

  /** On every path, the computed state tells the truth: some event of the recorded instruction
      occurs, and nothing after it may write the region; no record means nothing wrote at all. */
  lemma {:induction false} StateDescribesPath(f: Func, input: BlockStates, path: seq<Point>, r: Region, k: nat)
    requires CodeOk(f) && Solution(f, input) && IsPath(f, path) && k < |path|
    ensures Describes(f, path, r, StateAt(f, input, path[k]).At(r), k)
  {
    hide InstFits, IsTerminator, MayWrite, Next, EventAt;
    if path[k].i == 0 {
      EntryEvent(f, path, r, k);
    }
    if k == 0 {
      assert input[0].At(r) == None || input[0].At(r) == Some(FirstInst(f, 0));
    } else {
      StateDescribesPath(f, input, path, r, k - 1);
      DescribesStep(f, path, r, StateAt(f, input, path[k - 1]).At(r), k - 1);
      ReachedBlocksHaveStates(f, input, path, k - 1);
      StateStep(f, input, path[k - 1], path[k], r);
    }
  }

  // ---- the worklist ----

  /** The input states after `state` has flowed into block `s`. */
  function FlowInto(f: Func, input: BlockStates, s: Block, state: LastStores): BlockStates
    requires CodeOk(f) && s < |f.blocks|
  {
    input[s := if s in input then input[s].MeetFrom(state, FirstInst(f, s)) else state]
  }

  /** Regions of `ls` that can still change: the token `loc` is absorbing. */
  function Unsettled(ls: LastStores, loc: Inst): (n: nat)
    ensures n <= 4
  {
    (if ls.heap == Some(loc) then 0 else 1) + (if ls.table == Some(loc) then 0 else 1) +
    (if ls.vmctx == Some(loc) then 0 else 1) + (if ls.other == Some(loc) then 0 else 1)
  }

  /** A meet keeps what was absorbed, absorbs the new state, and settles a region whenever it changes anything. */
  lemma MeetProgress(into: LastStores, out: LastStores, loc: Inst)
    ensures Absorbs(into.MeetFrom(out, loc), out, loc)
    ensures forall x :: Absorbs(into, x, loc) ==> Absorbs(into.MeetFrom(out, loc), x, loc)
    ensures into.MeetFrom(out, loc) != into ==> Unsettled(into.MeetFrom(out, loc), loc) < Unsettled(into, loc)
  {
    forall r { MeetAt(into, out, loc, r); }
  }

  lemma FlowKeepsOtherEdges(f: Func, input: BlockStates, s: Block, state: LastStores, b: Block)
    requires CodeOk(f) && s < |f.blocks| && b < |f.blocks| && EdgesAbsorbed(f, input, b)
    ensures
      var input' := FlowInto(f, input, s, state);
      b in input' && (input'[b] == input[b] ==> EdgesAbsorbed(f, input', b))
  {
    hide InstFits;
    if s in input {
      MeetProgress(input[s], state, FirstInst(f, s));
    }
  }

  /** How often a block may still be taken off the queue. */
  ghost predicate WithinBudget(f: Func, input: BlockStates, queued: set<Block>, visits: seq<nat>, b: Block)
    requires CodeOk(f) && b < |f.blocks| == |visits|
  {
    if b in input then visits[b] + (if b in queued then 1 else 0) + Unsettled(input[b], FirstInst(f, b)) <= 5
    else visits[b] == 0 && (b in queued ==> b == 0)
  }

  ghost function Budget(visits: seq<nat>): int {
    if visits == [] then 0 else 5 - visits[|visits| - 1] + Budget(visits[..|visits| - 1])
  }

  lemma {:induction false} BudgetDrops(visits: seq<nat>, b: nat)
    requires b < |visits|
    ensures Budget(visits[b := visits[b] + 1]) == Budget(visits) - 1
  {
    var visits' := visits[b := visits[b] + 1];
    var n := |visits| - 1;
    if b == n {
      assert visits'[..n] == visits[..n];
    } else {
      BudgetDrops(visits[..n], b);
      assert visits'[..n] == visits[..n][b := visits[b] + 1];
    }
  }

  lemma {:induction false} BudgetBounded(visits: seq<nat>)
    requires forall b :: 0 <= b < |visits| ==> visits[b] <= 5
    ensures Budget(visits) >= 0
  {
    if visits != [] { BudgetBounded(visits[..|visits| - 1]); }
  }
}
