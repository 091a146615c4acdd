/** The alias-analysis pass: the worklist that solves the last-store equations, and the fused
    memory-values table that removes redundant loads. */
module AliasAnalysis {
  import opened Wrappers
  import opened Clif
  import opened LastStore
  import opened LastStorePrecision
  import opened MemoryValues

  ghost predicate QueueOk(f: Func, queue: seq<Block>, queued: set<Block>)
  {
    && queued == (set b | b in queue)
    && (forall i, j :: 0 <= i < j < |queue| ==> queue[i] != queue[j])
    && (forall i :: 0 <= i < |queue| ==> queue[i] < |f.blocks|)
  }

  /** Every block with a state is either queued again or has all its outgoing edges accounted for. */
  ghost predicate Pending(f: Func, input: BlockStates, queued: set<Block>, except: set<Block>)
    requires CodeOk(f)
  {
    && (forall b :: b in input ==> b < |f.blocks|)
    && (forall b :: b in input && b !in queued && b !in except ==> EdgesAbsorbed(f, input, b))
    && (0 in input ==> Absorbs(input[0], NO_STORES, FirstInst(f, 0)))
  }

  ghost predicate AllWithinBudget(f: Func, input: BlockStates, queued: set<Block>, visits: seq<nat>)
    requires CodeOk(f)
  {
    |visits| == |f.blocks| && forall b :: 0 <= b < |f.blocks| ==> WithinBudget(f, input, queued, visits, b)
  }

  /** Edges of `block` number 0 up to `n` are accounted for, as long as its own state has not moved. */
  ghost predicate EdgesDone(f: Func, input: BlockStates, block: Block, state: LastStores, n: nat)
    requires CodeOk(f) && block < |f.blocks| && n <= |Succs(f, block)|
  {
    forall j :: 0 <= j < n ==>
      var s := Succs(f, block)[j];
      s in input && s < |f.blocks| && Absorbs(input[s], state, FirstInst(f, s))
  }

  /** The queue after `state` has flowed into `s`. */
  function Requeue(input: BlockStates, input': BlockStates, queued: set<Block>, s: Block): set<Block>
    requires s in input'
  {
    if s in input && input'[s] == input[s] then queued else queued + {s}
  }

  lemma {:induction false} FlowKeepsPending(f: Func, input: BlockStates, queued: set<Block>, except: set<Block>,
      s: Block, state: LastStores)
    requires CodeOk(f) && s < |f.blocks| && Pending(f, input, queued, except) && 0 in input
    ensures
      var input' := FlowInto(f, input, s, state);
      Pending(f, input', Requeue(input, input', queued, s), except)
  {
    hide InstFits, Absorbs, EdgesAbsorbed;
    var input' := FlowInto(f, input, s, state);
    var queued' := Requeue(input, input', queued, s);
    forall b | b in input' && b !in queued' && b !in except ensures EdgesAbsorbed(f, input', b) {
      FlowKeepsOtherEdges(f, input, s, state, b);
    }
    if s in input { MeetProgress(input[s], state, FirstInst(f, s)); }
  }

  lemma {:induction false} FlowKeepsBudget(f: Func, input: BlockStates, queued: set<Block>, visits: seq<nat>, s: Block,
      state: LastStores)
    requires CodeOk(f) && s < |f.blocks| && AllWithinBudget(f, input, queued, visits) && 0 in input
    ensures
      var input' := FlowInto(f, input, s, state);
      AllWithinBudget(f, input', Requeue(input, input', queued, s), visits)
  {
    hide InstFits, Unsettled, Absorbs;
    var input' := FlowInto(f, input, s, state);
    if s in input { MeetProgress(input[s], state, FirstInst(f, s)); }
    forall b | 0 <= b < |f.blocks| ensures WithinBudget(f, input', Requeue(input, input', queued, s), visits, b) {
      assert WithinBudget(f, input, queued, visits, b);
    }
  }

  lemma {:induction false} FlowKeepsEdgesDone(f: Func, input: BlockStates, block: Block, state: LastStores, n: nat)
    requires CodeOk(f) && block < |f.blocks| && n < |Succs(f, block)| && Succs(f, block)[n] < |f.blocks|
    requires EdgesDone(f, input, block, state, n)
    ensures EdgesDone(f, FlowInto(f, input, Succs(f, block)[n], state), block, state, n + 1)
  {
    hide InstFits, Absorbs, Succs;
    var s := Succs(f, block)[n];
    if s in input { MeetProgress(input[s], state, FirstInst(f, s)); }
    assert Absorbs(state, state, FirstInst(f, s)) by { AbsorbsSelf(state, FirstInst(f, s)); }
  }

  lemma AbsorbsSelf(ls: LastStores, loc: Inst)
    ensures Absorbs(ls, ls, loc)
  {
  }

  lemma SuccsInRange(f: Func, b: Block, j: nat)
    requires CodeOk(f) && b < |f.blocks| && j < |Succs(f, b)|
    ensures Succs(f, b)[j] < |f.blocks|
  {
    var d := f.insts[InstAt(f, Point(b, |f.blocks[b].insts| - 1))];
    assert InstFits(f, d);
    assert CallFits(f, BlockCalls(d)[j]);
  }

  lemma {:induction false} DequeueKeepsPending(f: Func, input: BlockStates, queued: set<Block>, block: Block)
    requires CodeOk(f) && Pending(f, input, queued, {}) && block in queued && block < |f.blocks|
    requires 0 in input || (input == map[] && queued == {0})
    requires block !in input ==> block == 0
    ensures
      var input' := if block in input then input else input[block := NO_STORES];
      0 in input' && Pending(f, input', queued - {block}, {block})
  {
    hide InstFits, Absorbs, EdgesAbsorbed;
    AbsorbsSelf(NO_STORES, FirstInst(f, 0));
    if block in input {
      forall b | b in input && b !in queued - {block} && b !in {block} ensures EdgesAbsorbed(f, input, b) {
        assert b !in queued;
      }
    }
  }

  lemma {:induction false} VisitsBounded(f: Func, input: BlockStates, queued: set<Block>, visits: seq<nat>, b: Block)
    requires CodeOk(f) && AllWithinBudget(f, input, queued, visits) && b < |visits|
    ensures visits[b] <= 5
  {
    hide InstFits;
    assert WithinBudget(f, input, queued, visits, b);
  }

  /** Taking `block` off the queue is within budget, and uses some of it up. */
  lemma {:induction false} DequeueWithinBudget(f: Func, input: BlockStates, queued: set<Block>, visits: seq<nat>,
      block: Block)
    requires CodeOk(f) && AllWithinBudget(f, input, queued, visits) && block in queued && block < |f.blocks|
    ensures
      var visits' := visits[block := visits[block] + 1];
      var input' := if block in input then input else input[block := NO_STORES];
      AllWithinBudget(f, input', queued - {block}, visits') && 0 <= Budget(visits') < Budget(visits)
  {
    hide InstFits;
    var visits' := visits[block := visits[block] + 1];
    var input' := if block in input then input else input[block := NO_STORES];
    forall b | 0 <= b < |f.blocks| ensures WithinBudget(f, input', queued - {block}, visits', b) && visits'[b] <= 5 {
      assert WithinBudget(f, input, queued, visits, b);
    }
    BudgetDrops(visits, block);
    BudgetBounded(visits');
  }

  /** The parts of a function that the pass changes: value aliases, and which instructions are left. */
  class Dfg {
    const f: Func
    var aliases: Aliases
    var removed: set<Inst>
    /** For each alias, the access whose value it stands for; and the instructions seen so far. */
    ghost var source: map<Value, Inst>
    ghost var processed: set<Inst>

    constructor (f: Func)
      ensures this.f == f && aliases == map[] && removed == {} && source == map[] && processed == {}
    {
      this.f := f;
      aliases, removed, source, processed := map[], {}, map[], {};
    }

    /** Follows aliases, giving up after as many steps as there are values. */
    method ResolveAliases(value: Value) returns (r: Value)
      requires LoopFree(aliases) && forall x :: x in aliases ==> x < |f.values|
      ensures r == Root(aliases, value)
    {
      SmallSet(aliases.Keys, |f.values|);
      var v, n := value, 0;
      while n <= |f.values| && v in aliases
        invariant n <= |f.values| + 1 && Root(aliases, v) == Root(aliases, value)
        invariant |aliases| >= n && Resolve(aliases, v, |aliases| - n).Some?
      {
        RootIsOriginal(aliases, v);
        v := aliases[v];
        n := n + 1;
      }
      r := v;
    }

    /** Turns the detached value `dest` into an alias of `src`. */
    method ChangeToAlias(dest: Value, src: Value)
      requires LoopFree(aliases) && forall x :: x in aliases ==> x < |f.values|
      requires dest !in aliases && Root(aliases, src) != dest
      modifies this`aliases
      ensures aliases == old(aliases)[dest := old(Root(aliases, src))]
    {
      var original := ResolveAliases(src);
      aliases := aliases[dest := original];
    }
  }

  class Analysis {
    const f: Func
    /** The dominator tree's answer for a pair of instructions. */
    const dominates: (Inst, Inst) -> bool
    var blockInput: BlockStates
    var memValues: MemTable

    constructor (f: Func, dominates: (Inst, Inst) -> bool)
      requires CodeOk(f)
      ensures this.f == f && this.dominates == dominates && memValues == map[] && Solution(f, blockInput) &&
        ExactInputs(f, blockInput)
    {
      this.f := f;
      this.dominates := dominates;
      blockInput, memValues := map[], map[];
      new;
      ghost var _ := ComputeBlockInputStates();
    }

    /** One call of the successor visitor: meet the outgoing state into the successor, and queue the
        successor if that changed it. */
    method VisitSucc(s: Block, state: LastStores, queue: seq<Block>, queued: set<Block>)
      returns (queue': seq<Block>, queued': set<Block>)
      requires CodeOk(f) && s < |f.blocks| && QueueOk(f, queue, queued)
      modifies this`blockInput
      ensures QueueOk(f, queue', queued')
      ensures blockInput == FlowInto(f, old(blockInput), s, state)
      ensures queued' == Requeue(old(blockInput), blockInput, queued, s)
    {
      hide InstFits;
      queue', queued' := queue, queued;
      var updated;
      if s in blockInput {
        var before := blockInput[s];
        blockInput := blockInput[s := before.MeetFrom(state, FirstInst(f, s))];
        updated := blockInput[s] != before;
      } else {
        blockInput := blockInput[s := state];
        updated := true;
      }
      if updated && s !in queued {
        queued' := queued + {s};
        queue' := queue + [s];
      }
    }

    /** The body of the worklist loop: flow through one block and into its successors. */
    method FlowBlock(block: Block, queue: seq<Block>, queued: set<Block>, ghost visits: seq<nat>)
      returns (queue': seq<Block>, queued': set<Block>)
      requires CodeOk(f) && block < |f.blocks| && block in blockInput && 0 in blockInput
      requires QueueOk(f, queue, queued)
      requires Pending(f, blockInput, queued, {block})
      requires AllWithinBudget(f, blockInput, queued, visits)
      requires ExactInputs(f, blockInput)
      modifies this`blockInput
      ensures QueueOk(f, queue', queued') && 0 in blockInput && ExactInputs(f, blockInput)
      ensures Pending(f, blockInput, queued', {})
      ensures AllWithinBudget(f, blockInput, queued', visits)
    {
      hide InstFits, Succs, Absorbs, WithinBudget, QueueOk, ExactAt;
      queue', queued' := queue, queued;
      var start := blockInput[block];
      var state := Output(f, start, block);
      var succs := Succs(f, block);
      var i := 0;
      while i < |succs|
        invariant i <= |succs| && 0 in blockInput && block in blockInput && ExactInputs(f, blockInput)
        invariant QueueOk(f, queue', queued')
        invariant Pending(f, blockInput, queued', {block})
        invariant AllWithinBudget(f, blockInput, queued', visits)
        invariant block in queued' || (blockInput[block] == start && EdgesDone(f, blockInput, block, state, i))
      {
        SuccsInRange(f, block, i);
        ExactOutput(f, block, start, i);
        ExactFlow(f, blockInput, succs[i], state);
        FlowKeepsPending(f, blockInput, queued', {block}, succs[i], state);
        FlowKeepsBudget(f, blockInput, queued', visits, succs[i], state);
        if block !in queued' { FlowKeepsEdgesDone(f, blockInput, block, state, i); }
        queue', queued' := VisitSucc(succs[i], state, queue', queued');
        i := i + 1;
      }
      assert block in queued' || EdgesAbsorbed(f, blockInput, block);
    }

    /** Solves the dataflow equations; no block is taken off the queue more than five times. */
    method ComputeBlockInputStates() returns (ghost visits: seq<nat>)
      requires CodeOk(f) && blockInput == map[]
      modifies this`blockInput
      ensures Solution(f, blockInput) && ExactInputs(f, blockInput)
      ensures |visits| == |f.blocks| && forall b :: 0 <= b < |visits| ==> visits[b] <= 5
    {
      hide InstFits, Absorbs, EdgesAbsorbed, ExactAt;
      var queue: seq<Block>, queued: set<Block> := [0], {0};
      visits := seq(|f.blocks|, _ => 0);
      while |queue| > 0
        invariant QueueOk(f, queue, queued)
        invariant 0 in blockInput || (blockInput == map[] && queued == {0})
        invariant ExactInputs(f, blockInput)
        invariant Pending(f, blockInput, queued, {})
        invariant AllWithinBudget(f, blockInput, queued, visits)
        decreases Budget(visits)
      {
        var block := queue[|queue| - 1];
        assert block in queued && WithinBudget(f, blockInput, queued, visits, block);
        DequeueWithinBudget(f, blockInput, queued, visits, block);
        DequeueKeepsPending(f, blockInput, queued, block);
        visits := visits[block := visits[block] + 1];
        queue, queued := queue[..|queue| - 1], queued - {block};
        ExactEntry(f);
        if block !in blockInput {
          blockInput := blockInput[block := NO_STORES];
        }
        queue, queued := FlowBlock(block, queue, queued, visits);
      }
      forall b: Block | b < |visits| ensures visits[b] <= 5 {
        VisitsBounded(f, blockInput, queued, visits, b);
      }
    }

    /** The pass invariant, over this table and the function being rewritten. */
    ghost predicate Valid(func: Dfg)
      reads this, func
    {
      func.f == f && SsaForm(f) && AllReachable(f) && SoundDominance(f, dominates) && Solution(f, blockInput) &&
      PassOk(f, blockInput, func.aliases, func.source, func.processed, func.removed, memValues)
    }

    ghost function Now(func: Dfg): PassState
      reads this, func
    {
      PassState(func.aliases, func.removed, memValues)
    }

    /** Processes one instruction in the state `state` that holds before it. A returned value is
        justified by an earlier access `def` that dominates the load, made to the same location in
        the same version of memory. */
    method ProcessInst(func: Dfg, state: LastStores, inst: Inst)
      returns (replacing: Option<Value>, state': LastStores, ghost def: Inst)
      requires Valid(func) && inst < |f.insts| && inst !in func.processed
      requires state == StateAt(f, blockInput, f.place[inst])
      modifies this`memValues, func`processed
      ensures Valid(func) && func.processed == old(func.processed) + {inst}
      ensures state' == state.Update(f.insts[inst], inst)
      ensures replacing.Some? ==> forall key :: key in memValues ==> memValues[key].0 != inst
      ensures inst !in func.removed
      ensures replacing.Some? <==> Redundant(f, blockInput, dominates, old(Now(func)), inst)
      ensures replacing.Some? ==> Now(func) == old(Now(func))
      ensures replacing.Some? ==> replacing.value == memValues[KeyOf(f, blockInput, func.aliases, inst)].1
      ensures replacing.None? ==> PassStep(f, blockInput, dominates, inst, old(Now(func)), Now(func))
      ensures replacing.Some? ==> Forwards(f, blockInput, func.aliases, def, inst)
      ensures replacing.Some? ==>
        replacing.value < |f.values| &&
          Root(func.aliases, replacing.value) == Root(func.aliases, ContentOf(f.insts[def]))
    {
      hide CodeOk, AllReachable, Solution, Dominates, Root, AliasOk, TableOk, Forwards;
      replacing, state', def := None, state.Update(f.insts[inst], inst), inst;
      ghost var processed := func.processed;
      func.processed := func.processed + {inst};
      var d := f.insts[inst];
      AliasesAreTyped(f, blockInput, func.aliases, func.source);
      if IsAccess(d) { ContentInRange(f, inst); }
      if d.StoreInst? {
        var address := func.ResolveAliases(d.saddr);
        var data := func.ResolveAliases(d.sdata);
        var key := MemoryLoc(Some(inst), address, d.soffset, f.values[d.sdata].ty, GetExtOpcode(d.sop));
        RootKeepsType(f, func.aliases, d.sdata);
        RecordEntry(f, blockInput, func.aliases, func.source, processed, func.removed, memValues, inst, key, data);
        memValues := memValues[key := (inst, data)];
      } else if d.LoadInst? {
        var address := func.ResolveAliases(d.laddr);
        var key := MemoryLoc(state.GetLastStore(d), address, d.loffset, f.values[d.lresult].ty, GetExtOpcode(d.lop));
        if key in memValues && dominates(memValues[key].0, inst) {
          HitForwards(f, blockInput, func.aliases, func.source, processed, func.removed, memValues, dominates, inst,
            key);
          SkipInst(f, blockInput, func.aliases, func.source, processed, func.removed, memValues, inst);
          replacing, def := Some(memValues[key].1), memValues[key].0;
        } else {
          RecordEntry(f, blockInput, func.aliases, func.source, processed, func.removed, memValues, inst, key,
            d.lresult);
          memValues := memValues[key := (inst, d.lresult)];
        }
      } else {
        SkipInst(f, blockInput, func.aliases, func.source, processed, func.removed, memValues, inst);
      }
    }

    /** Replaces one redundant load by an alias and drops it from the layout. */
    method Replace(func: Dfg, inst: Inst, value: Value, ghost def: Inst)
      requires Valid(func) && Forwards(f, blockInput, func.aliases, def, inst)
      requires inst in func.processed && inst !in func.removed && forall key :: key in memValues ==>
        memValues[key].0 != inst
      requires value < |f.values| && Root(func.aliases, value) == Root(func.aliases, ContentOf(f.insts[def]))
      modifies func`aliases, func`removed, func`source
      ensures Valid(func)
      ensures func.aliases == old(func.aliases)[f.insts[inst].lresult := old(Root(func.aliases, value))]
      ensures func.removed == old(func.removed) + {inst}
    {
      hide CodeOk, Solution, Dominates, Root, AliasOk, TableOk, Forwards, Available, Reachable;
      NewAliasShape(f, blockInput, func.aliases, def, inst);
      AliasesAreTyped(f, blockInput, func.aliases, func.source);
      SourceAvailable(f, blockInput, func.aliases, func.source, def, inst);
      RemoveLoad(f, blockInput, func.aliases, func.source, func.processed, func.removed, memValues, def, inst);
      var result := f.insts[inst].lresult;
      assert result !in func.aliases;
      func.ChangeToAlias(result, value);
      func.source := func.source[result := def];
      func.removed := func.removed + {inst};
    }

    /** One round of the inner loop: process the instruction at `p`, and remove it if it is redundant. */
    method ProcessAt(func: Dfg, state: LastStores, p: Point) returns (state': LastStores)
      requires Valid(func) && ValidPoint(f, p) && ProcessedUpTo(f, func.processed, p)
      requires state == StateAt(f, blockInput, p)
      modifies this`memValues, func`aliases, func`removed, func`source, func`processed
      ensures Valid(func) && ProcessedUpTo(f, func.processed, Point(p.b, p.i + 1))
      ensures PassStep(f, blockInput, dominates, InstAt(f, p), old(Now(func)), Now(func))
      ensures state' == state.Update(f.insts[InstAt(f, p)], InstAt(f, p))
    {
      hide InstFits, IsTerminator, AllReachable, Solution, PassOk, Dominates, Forwards, ProcessedUpTo;
      var inst := InstAt(f, p);
      ProcessedStep(f, func.processed, p);
      var replacing;
      ghost var def;
      PassFacts(f, blockInput, func.aliases, func.source, func.processed, func.removed, memValues);
      replacing, state', def := ProcessInst(func, state, inst);
      if replacing.Some? {
        Replace(func, inst, replacing.value, def);
      }
    }

    /** The instructions of one block, each of them one step of the pass. */
    method ProcessBlock(func: Dfg, b: Block, ghost log0: seq<PassState>) returns (ghost log: seq<PassState>)
      requires Valid(func) && b < |f.blocks| && ProcessedUpTo(f, func.processed, Point(b, 0))
      requires |log0| > 0 && log0[|log0| - 1] == Now(func) && PassLog(f, blockInput, dominates, Layout(f, b), log0)
      modifies this`memValues, func`aliases, func`removed, func`source, func`processed
      ensures Valid(func) && ProcessedUpTo(f, func.processed, Point(b + 1, 0))
      ensures |log| > 0 && log[0] == log0[0] && log[|log| - 1] == Now(func)
      ensures PassLog(f, blockInput, dominates, Layout(f, b + 1), log)
    {
      hide InstFits, IsTerminator, AllReachable, Solution, PassOk, Dominates, ProcessedUpTo, PassLog, PassStep, CodeOk,
        Layout;
      log := log0;
      var state := StartingState(blockInput, b);
      LayoutFrom(f, b);
      for i := 0 to |f.blocks[b].insts|
        invariant Valid(func) && ProcessedUpTo(f, func.processed, Point(b, i))
        invariant state == Through(f, StartingState(blockInput, b), b, i)
        invariant |log| > 0 && log[0] == log0[0] && log[|log| - 1] == Now(func)
        invariant PassLog(f, blockInput, dominates, LayoutTo(f, b, i), log)
      {
        state := ProcessAt(func, state, Point(b, i));
        LogOn(f, blockInput, dominates, b, i, log, Now(func));
        log := log + [Now(func)];
      }
      ProcessedBlock(f, func.processed, b);
    }

    /** The whole pass, in layout order; `log` records what it knows before and after each instruction. */
    method ComputeAndUpdateAliases(func: Dfg) returns (ghost log: seq<PassState>)
      requires Valid(func) && func.processed == {}
      modifies this`memValues, func`aliases, func`removed, func`source, func`processed
      ensures Valid(func)
      ensures PassLog(f, blockInput, dominates, Layout(f, |f.blocks|), log)
      ensures log[0] == old(Now(func)) && log[|log| - 1] == Now(func)
    {
      hide InstFits, IsTerminator, AllReachable, Solution, PassOk, Dominates, ProcessedUpTo, PassLog, PassStep, CodeOk;
      ProcessedNone(f);
      log := [Now(func)];
      LogStart(f, blockInput, dominates, log);
      for b := 0 to |f.blocks|
        invariant Valid(func) && ProcessedUpTo(f, func.processed, Point(b, 0))
        invariant |log| > 0 && log[0] == old(Now(func)) && log[|log| - 1] == Now(func)
        invariant PassLog(f, blockInput, dominates, Layout(f, b), log)
      {
        log := ProcessBlock(func, b, log);
      }
    }
  }

  lemma PassFacts(f: Func, input: BlockStates, aliases: Aliases, source: map<Value, Inst>, processed: set<Inst>,
      removed: set<Inst>, table: MemTable)
    requires PassOk(f, input, aliases, source, processed, removed, table)
    ensures WellFormed(f) && LoopFree(aliases)
  {
  }

  // ---- what the pass does ----

  /** The aliases made, the loads removed, and the table of known memory values. */
  datatype PassState = PassState(aliases: Aliases, removed: set<Inst>, table: MemTable)

  /** The table has a value for the location of the load, known since an instruction that dominates it. */
  ghost predicate Redundant(f: Func, input: BlockStates, dominates: (Inst, Inst) -> bool, ps: PassState, inst: Inst)
    requires WellFormed(f) && LoopFree(ps.aliases) && inst < |f.insts|
  {
    f.insts[inst].LoadInst? &&
    var key := KeyOf(f, input, ps.aliases, inst);
    key in ps.table && dominates(ps.table[key].0, inst)
  }

  /** A redundant load is removed in favour of the original of the known value; any other access is recorded. */
  ghost predicate PassStep(f: Func, input: BlockStates, dominates: (Inst, Inst) -> bool, inst: Inst, ps: PassState,
      ps': PassState) {
    && WellFormed(f) && LoopFree(ps.aliases) && inst < |f.insts|
    && var d := f.insts[inst];
    if Redundant(f, input, dominates, ps, inst) then
      var v := ps.table[KeyOf(f, input, ps.aliases, inst)].1;
      ps' == PassState(ps.aliases[d.lresult := Root(ps.aliases, v)], ps.removed + {inst}, ps.table)
    else if IsAccess(d) then
      var v := if d.StoreInst? then Root(ps.aliases, d.sdata) else d.lresult;
      ps' == ps.(table := ps.table[KeyOf(f, input, ps.aliases, inst) := (inst, v)])
    else ps' == ps
  }

  /** The instructions of the first `b` blocks. */
  function Layout(f: Func, b: Block): seq<Inst>
    requires b <= |f.blocks|
  {
    if b == 0 then [] else Layout(f, b - 1) + f.blocks[b - 1].insts
  }

  /** The instructions of the first `b` blocks and the first `i` of the next one. */
  function LayoutTo(f: Func, b: Block, i: nat): seq<Inst>
    requires b < |f.blocks| && i <= |f.blocks[b].insts|
  {
    Layout(f, b) + f.blocks[b].insts[..i]
  }

  lemma LayoutFrom(f: Func, b: Block)
    requires b < |f.blocks|
    ensures LayoutTo(f, b, 0) == Layout(f, b) && LayoutTo(f, b, |f.blocks[b].insts|) == Layout(f, b + 1)
  {
    assert f.blocks[b].insts[..0] == [] && f.blocks[b].insts[..|f.blocks[b].insts|] == f.blocks[b].insts;
  }

  /** Every instruction of `order` took the pass from one state of the log to the next. */
  ghost predicate PassLog(f: Func, input: BlockStates, dominates: (Inst, Inst) -> bool, order: seq<Inst>,
      log: seq<PassState>) {
    |log| == |order| + 1 && forall k :: 0 <= k < |order| ==> PassStep(f, input, dominates, order[k], log[k], log[k + 1])
  }

  lemma LogStart(f: Func, input: BlockStates, dominates: (Inst, Inst) -> bool, log: seq<PassState>)
    requires |log| == 1
    ensures PassLog(f, input, dominates, [], log)
  {
  }

  lemma LogStep(f: Func, input: BlockStates, dominates: (Inst, Inst) -> bool, order: seq<Inst>, log: seq<PassState>,
      inst: Inst, ps: PassState)
    requires PassLog(f, input, dominates, order, log) && PassStep(f, input, dominates, inst, log[|log| - 1], ps)
    ensures PassLog(f, input, dominates, order + [inst], log + [ps])
  {
    hide PassStep;
  }

  lemma LogOn(f: Func, input: BlockStates, dominates: (Inst, Inst) -> bool, b: Block, i: nat, log: seq<PassState>,
      ps: PassState)
    requires b < |f.blocks| && i < |f.blocks[b].insts| && PassLog(f, input, dominates, LayoutTo(f, b, i), log)
    requires |log| > 0 && PassStep(f, input, dominates, InstAt(f, Point(b, i)), log[|log| - 1], ps)
    ensures PassLog(f, input, dominates, LayoutTo(f, b, i + 1), log + [ps])
  {
    hide PassLog, PassStep, Layout;
    LogStep(f, input, dominates, LayoutTo(f, b, i), log, InstAt(f, Point(b, i)), ps);
    assert LayoutTo(f, b, i + 1) == LayoutTo(f, b, i) + [InstAt(f, Point(b, i))];
  }

  /** Exactly the loads that were redundant when the pass came to them are removed. */
  lemma {:induction false} RemovedAreRedundant(f: Func, input: BlockStates, dominates: (Inst, Inst) -> bool,
      order: seq<Inst>, log: seq<PassState>, k: nat, n: Inst)
    requires PassLog(f, input, dominates, order, log) && k <= |order| && log[0].removed == {}
    requires forall j :: 0 <= j < |order| ==> WellFormed(f) && LoopFree(log[j].aliases) && order[j] < |f.insts|
    ensures n in log[k].removed <==>
      exists j :: 0 <= j < k && order[j] == n && Redundant(f, input, dominates, log[j], order[j])
  {
    hide Redundant, WellFormed, LoopFree, KeyOf, Root;
    if k > 0 {
      RemovedAreRedundant(f, input, dominates, order, log, k - 1, n);
      assert PassStep(f, input, dominates, order[k - 1], log[k - 1], log[k]);
    }
  }

  /** What the pass is for: a load is redundant if it accesses, up to the aliases known by then, the location and the
      memory version of an earlier access, provided that everything processed since dominates it and that the address
      of the earlier access still stands for the same original. */
  lemma {:induction false} RepeatedAccess(f: Func, input: BlockStates, dominates: (Inst, Inst) -> bool,
      order: seq<Inst>, log: seq<PassState>, j: nat, k: nat)
    requires PassLog(f, input, dominates, order, log) && j < k < |order| && WellFormed(f)
    requires forall m :: 0 <= m < |order| ==> LoopFree(log[m].aliases) && order[m] < |f.insts|
    requires IsAccess(f.insts[order[j]]) && f.insts[order[k]].LoadInst?
    requires SameLocation(f, log[k].aliases, f.insts[order[j]], f.insts[order[k]])
    requires Version(f, input, order[j]) == Version(f, input, order[k])
    requires Root(log[j].aliases, AddressOf(f.insts[order[j]])) == Root(log[k].aliases, AddressOf(f.insts[order[j]]))
    requires forall m :: j <= m < k ==> dominates(order[m], order[k])
    requires forall a :: 0 <= a < |f.insts| && dominates(a, order[j]) ==> dominates(a, order[k])
    requires forall key :: key in log[j].table ==> log[j].table[key].0 < |f.insts|
    ensures Redundant(f, input, dominates, log[k], order[k])
  {
    hide WellFormed, LoopFree, KeyOf, Root, SameLocation, Version;
    var key := KeyOf(f, input, log[j].aliases, order[j]);
    KeyOfRoot(f, input, log[j].aliases, log[k].aliases, order[j]);
    KeysAgree(f, input, log[k].aliases, order[j], order[k]);
    assert PassStep(f, input, dominates, order[j], log[j], log[j + 1]);
    var m := j + 1;
    while m < k
      invariant j < m <= k && key in log[m].table && dominates(log[m].table[key].0, order[k])
    {
      assert PassStep(f, input, dominates, order[m], log[m], log[m + 1]);
      m := m + 1;
    }
  }

  lemma KeyOfRoot(f: Func, input: BlockStates, aliases: Aliases, aliases': Aliases, inst: Inst)
    requires WellFormed(f) && LoopFree(aliases) && LoopFree(aliases') && inst < |f.insts| && IsAccess(f.insts[inst])
    requires Root(aliases, AddressOf(f.insts[inst])) == Root(aliases', AddressOf(f.insts[inst]))
    ensures KeyOf(f, input, aliases, inst) == KeyOf(f, input, aliases', inst)
  {
  }

  ghost predicate PointBefore(p: Point, q: Point) {
    p.b < q.b || (p.b == q.b && p.i < q.i)
  }

  ghost predicate ProcessedUpTo(f: Func, processed: set<Inst>, p: Point)
    requires WellFormed(f)
  {
    forall n :: n in processed <==> 0 <= n < |f.insts| && PointBefore(f.place[n], p)
  }

  lemma {:induction false} ProcessedStep(f: Func, processed: set<Inst>, p: Point)
    requires WellFormed(f) && ValidPoint(f, p) && ProcessedUpTo(f, processed, p)
    ensures InstAt(f, p) < |f.insts| && f.place[InstAt(f, p)] == p
    ensures InstAt(f, p) !in processed
    ensures ProcessedUpTo(f, processed + {InstAt(f, p)}, Point(p.b, p.i + 1))
  {
    hide InstFits, IsTerminator;
    forall n: Inst | n < |f.insts| && f.place[n] == p ensures n == InstAt(f, p) {
      assert InstAt(f, f.place[n]) == n;
    }
  }

  lemma {:induction false} ProcessedBlock(f: Func, processed: set<Inst>, b: Block)
    requires WellFormed(f) && b < |f.blocks| && ProcessedUpTo(f, processed, Point(b, |f.blocks[b].insts|))
    ensures ProcessedUpTo(f, processed, Point(b + 1, 0))
  {
    hide InstFits, IsTerminator;
    forall n: Inst | n < |f.insts|
      ensures PointBefore(f.place[n], Point(b, |f.blocks[b].insts|)) <==> PointBefore(f.place[n], Point(b + 1, 0))
    {
      assert ValidPoint(f, f.place[n]);
    }
  }

  lemma ProcessedNone(f: Func)
    requires WellFormed(f)
    ensures ProcessedUpTo(f, {}, Point(0, 0))
  {
    hide CodeOk;
  }
}
