/** The "last store" analysis is exact wherever it can be: if all paths to a point agree on the last
    instruction that may have written a region, the computed state names that instruction. */
module LastStorePrecision {
  import opened Wrappers
  import opened Clif
  import opened LastStore

  /** The last instruction before `path[k]` that may write the region. */
  ghost function LastWriter(f: Func, path: seq<Point>, r: Region, k: nat): Option<Inst>
    requires IsPath(f, path) && k < |path|
  {
    if k == 0 then None
    else if MayWrite(f.insts[InstAt(f, path[k - 1])], r) then Some(InstAt(f, path[k - 1]))
    else LastWriter(f, path, r, k - 1)
  }

  /** On every path to `p`, the last writer of the region is `t`. */
  ghost predicate OnlyWriter(f: Func, p: Point, r: Region, t: Option<Inst>) {
    forall path :: PathTo(f, path, p) ==> LastWriter(f, path, r, |path| - 1) == t
  }

  ghost predicate ExactAt(f: Func, p: Point, ls: LastStores) {
    Reachable(f, p) && forall r, t :: OnlyWriter(f, p, r, t) ==> ls.At(r) == t
  }

  ghost predicate ExactInputs(f: Func, input: BlockStates) {
    forall b :: b in input ==> ExactAt(f, Point(b, 0), input[b])
  }

  lemma {:induction false} SamePrefix(f: Func, path: seq<Point>, q: Point, r: Region, k: nat)
    requires IsPath(f, path) && IsPath(f, path + [q]) && k < |path|
    ensures LastWriter(f, path + [q], r, k) == LastWriter(f, path, r, k)
  {
    if k > 0 { SamePrefix(f, path, q, r, k - 1); }
  }

  /** One more point on a path. */
  lemma {:induction false} OneMorePoint(f: Func, path: seq<Point>, p: Point, q: Point, r: Region)
    requires PathTo(f, path, p) && Next(f, p, q) && ValidPoint(f, q)
    ensures PathTo(f, path + [q], q)
    ensures
      var inst := InstAt(f, p);
      LastWriter(f, path + [q], r, |path|) ==
        if MayWrite(f.insts[inst], r) then Some(inst) else LastWriter(f, path, r, |path| - 1)
  {
    hide CodeOk, MayWrite, Next;
    var longer := path + [q];
    forall k | 0 < k < |longer| ensures Next(f, longer[k - 1], longer[k]) {
      if k < |path| { assert Next(f, path[k - 1], path[k]); }
    }
    SamePrefix(f, path, q, r, |path| - 1);
  }

  /** A point that does not write the region passes the only writer on. */
  lemma {:induction false} WriterBefore(f: Func, p: Point, q: Point, r: Region, t: Option<Inst>)
    requires CodeOk(f) && ValidPoint(f, p) && ValidPoint(f, q) && Next(f, p, q)
    requires OnlyWriter(f, q, r, t) && !MayWrite(f.insts[InstAt(f, p)], r)
    ensures OnlyWriter(f, p, r, t)
  {
    hide CodeOk, MayWrite, Next, LastWriter;
    forall path | PathTo(f, path, p) ensures LastWriter(f, path, r, |path| - 1) == t {
      OneMorePoint(f, path, p, q, r);
      assert PathTo(f, path + [q], q);
    }
  }

  lemma {:induction false} ExactStep(f: Func, p: Point, q: Point, ls: LastStores)
    requires CodeOk(f) && ValidPoint(f, p) && ValidPoint(f, q) && Next(f, p, q) && ExactAt(f, p, ls)
    ensures ExactAt(f, q, ls.Update(f.insts[InstAt(f, p)], InstAt(f, p)))
  {
    hide InstFits, IsTerminator, MayWrite, Next, IsPath, LastWriter;
    var inst := InstAt(f, p);
    var path :| PathTo(f, path, p);
    OneMorePoint(f, path, p, q, Other);
    assert PathTo(f, path + [q], q);
    forall r, t | OnlyWriter(f, q, r, t) ensures ls.Update(f.insts[inst], inst).At(r) == t {
      UpdateAt(ls, f.insts[inst], inst, r);
      OneMorePoint(f, path, p, q, r);
      if !MayWrite(f.insts[inst], r) { WriterBefore(f, p, q, r, t); }
    }
  }

  lemma {:induction false} ExactThrough(f: Func, b: Block, ls: LastStores, i: nat)
    requires CodeOk(f) && b < |f.blocks| && i < |f.blocks[b].insts| && ExactAt(f, Point(b, 0), ls)
    ensures ExactAt(f, Point(b, i), Through(f, ls, b, i))
  {
    if i > 0 {
      ExactThrough(f, b, ls, i - 1);
      assert !IsLast(f, Point(b, i - 1));
      ExactStep(f, Point(b, i - 1), Point(b, i), Through(f, ls, b, i - 1));
    }
  }

  /** What flows out of a block is exact for its successors. */
  lemma {:induction false} ExactOutput(f: Func, b: Block, ls: LastStores, j: nat)
    requires CodeOk(f) && b < |f.blocks| && ExactAt(f, Point(b, 0), ls) && j < |Succs(f, b)| &&
      Succs(f, b)[j] < |f.blocks|
    ensures ExactAt(f, Point(Succs(f, b)[j], 0), Output(f, ls, b))
  {
    hide ExactAt, MayWrite;
    var last := Point(b, |f.blocks[b].insts| - 1);
    ExactThrough(f, b, ls, last.i);
    assert IsLast(f, last) && Next(f, last, Point(Succs(f, b)[j], 0));
    ExactStep(f, last, Point(Succs(f, b)[j], 0), Through(f, ls, b, last.i));
  }

  lemma {:induction false} ExactMeet(f: Func, p: Point, a: LastStores, b: LastStores, loc: Inst)
    requires ExactAt(f, p, a) && ExactAt(f, p, b)
    ensures ExactAt(f, p, a.MeetFrom(b, loc))
  {
    hide OnlyWriter, Reachable;
    forall r, t | OnlyWriter(f, p, r, t) ensures a.MeetFrom(b, loc).At(r) == t {
      MeetAt(a, b, loc, r);
    }
  }

  /** Flowing an exact state into a block keeps the inputs exact. */
  lemma {:induction false} ExactFlow(f: Func, input: BlockStates, s: Block, state: LastStores)
    requires CodeOk(f) && s < |f.blocks| && ExactInputs(f, input) && ExactAt(f, Point(s, 0), state)
    ensures ExactInputs(f, FlowInto(f, input, s, state))
  {
    hide CodeOk, ExactAt;
    if s in input { ExactMeet(f, Point(s, 0), input[s], state, FirstInst(f, s)); }
  }

  lemma {:induction false} ExactEntry(f: Func)
    requires CodeOk(f)
    ensures ExactAt(f, Point(0, 0), NO_STORES)
  {
    var path := [Point(0, 0)];
    assert PathTo(f, path, Point(0, 0));
    forall r, t | OnlyWriter(f, Point(0, 0), r, t) ensures NO_STORES.At(r) == t {
      assert LastWriter(f, path, r, |path| - 1) == t;
    }
  }

  /** At every point whose paths agree on the last writer of a region, the state is that writer. */
  lemma {:induction false} StateIsExact(f: Func, input: BlockStates, p: Point, r: Region, t: Option<Inst>)
    requires CodeOk(f) && Solution(f, input) && ExactInputs(f, input) && ValidPoint(f, p)
    requires Reachable(f, p) && OnlyWriter(f, p, r, t)
    ensures StateAt(f, input, p).At(r) == t
  {
    hide OnlyWriter;
    var path :| PathTo(f, path, p);
    ReachedBlocksHaveStates(f, input, path, |path| - 1);
    ExactThrough(f, p.b, input[p.b], p.i);
  }
}
