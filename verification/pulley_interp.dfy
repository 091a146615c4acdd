/** Control flow of the interpreter: from byte addresses to operations. */
module PulleyInterp {
  import opened Wrappers
  import opened PulleyFields
  import opened PulleyCodec
  import opened PulleyOps

  const U32: nat := 0x1_0000_0000
  const U64: nat := 0x1_0000_0000_0000_0000

  const SP: nat := 27
  const LR: nat := 28

  const ENCODED_SIZE_OF_TRAP: nat := 3

  /** The integer registers, and everything else the machine knows: float and vector registers, stack and memory. */
  datatype State = State(x: seq<nat>, rest: int)

  function Val(f: Field): int {
    match f
    case Num(_, val) => val
    case Binary(_, _, _) => 0
  }

  function Get(s: State, r: int): nat {
    if 0 <= r < |s.x| then s.x[r] else 0
  }

  function Set(s: State, r: int, v: nat): State {
    if 0 <= r < |s.x| then s.(x := s.x[r := v]) else s
  }

  function Low32(v: nat): nat {
    v % U32
  }

  function Signed32(v: nat): int {
    if Low32(v) >= U32 / 2 then Low32(v) - U32 else Low32(v)
  }

  function Signed64(v: nat): int {
    if v >= U64 / 2 then v - U64 else v
  }

  function Truth(b: bool): nat {
    if b then 1 else 0
  }

  /** The 32-bit comparisons of the branches, in opcode order. */
  predicate Compares32(which: nat, a: nat, b: nat) {
    match which
    case 0 => Low32(a) == Low32(b)
    case 1 => Low32(a) != Low32(b)
    case 2 => Signed32(a) < Signed32(b)
    case 3 => Signed32(a) <= Signed32(b)
    case 4 => Low32(a) < Low32(b)
    case _ => Low32(a) <= Low32(b)
  }

  predicate Compares64(which: nat, a: nat, b: nat) {
    match which
    case 0 => a == b
    case 1 => a != b
    case 2 => Signed64(a) < Signed64(b)
    case 3 => Signed64(a) <= Signed64(b)
    case 4 => a < b
    case _ => a <= b
  }

  /** What operations on packed registers compute from their sources and the old destination. */
  function BinaryResult(code: nat, a: nat, b: nat, old': nat): nat
    requires 18 <= code
  {
    if code == 18 then old' / U32 * U32 + (Low32(a) + Low32(b)) % U32
    else if code == 19 then (a + b) % U64
    else if code < 26 then Truth(Compares64(code - 20, a, b))
    else Truth(Compares32(code - 26, a, b))
  }

  predicate IsBranch(op: Op) {
    op.Basic? && op.code <= 10
  }

  predicate IsTrap(op: Op) {
    op.Extended? && op.code == 0
  }

  function FieldAt(op: Op, i: nat): Field {
    if i < |op.fields| then op.fields[i] else Num(Imm8, 0)
  }

  /** The effect of an operation that does not transfer control. `other` stands for the operations on
      memory, the stack, and float and vector registers. */
  function Effect(op: Op, s: State, other: (Op, State) -> State): State {
    if op.Extended? then (if op.code == 2 then Set(s, Val(FieldAt(op, 0)), Get(s, SP)) else s)
    else if op.code == 11 then Set(s, Val(FieldAt(op, 0)), Get(s, Val(FieldAt(op, 1))))
    else if 14 <= op.code <= 17 then
      var imm := Val(FieldAt(op, 1));
      Set(s, Val(FieldAt(op, 0)), imm % U64)
    else if 18 <= op.code <= 31 then
      match FieldAt(op, 0)
      case Binary(dst, src1, src2) => Set(s, dst, BinaryResult(op.code, Get(s, src1), Get(s, src2), Get(s, dst)))
      case Num(_, _) => s
    else other(op, s)
  }

  /** Whether a conditional branch is taken. */
  predicate Taken(op: Op, s: State) {
    match op.code
    case 3 => Get(s, Val(FieldAt(op, 0))) != 0
    case 4 => Get(s, Val(FieldAt(op, 0))) == 0
    case _ => if 5 <= op.code <= 10 then Compares32(op.code - 5, Get(s, Val(FieldAt(op, 0))),
      Get(s, Val(FieldAt(op, 1)))) else true
  }

  /** The offset operand of a jump, call or branch: its last one. */
  function OffsetOf(op: Op): int {
    if |op.fields| > 0 then Val(op.fields[|op.fields| - 1]) else 0
  }

  // ---- the interpreter, on bytes ----

  datatype Continuation = Continue | ReturnToHost | Trap

  datatype Visited = Visited(next: Continuation, state: State, pc: int)

  /** The instruction sizes written into the interpreter. */
  function WrittenSize(op: Op): nat {
    if op.code <= 2 then 5 else if op.code <= 4 then 6 else 7
  }

  /** Executes a decoded operation; `pc` is the address behind it. */
  function Visit(op: Op, s: State, pc: nat, other: (Op, State) -> State): Visited {
    if IsTrap(op) then Visited(Trap, s, pc)
    else if !IsBranch(op) then Visited(Continue, Effect(op, s, other), pc)
    else if op.code == 0 then
      if Get(s, LR) == U64 - 1 then Visited(ReturnToHost, s, pc) else Visited(Continue, s, Get(s, LR))
    else
      var s' := if op.code == 1 then Set(s, LR, pc) else s;
      Visited(Continue, s', if Taken(op, s) then pc + (OffsetOf(op) - WrittenSize(op)) else pc)
  }

  datatype Config = Config(pc: int, state: State)

  datatype Outcome = Running(config: Config) | Returned(state: State) | Trapped(address: int)

  function OutcomeOf(v: Visited): Outcome {
    match v.next
    case Continue => Running(Config(v.pc, v.state))
    case ReturnToHost => Returned(v.state)
    case Trap => Trapped(v.pc - ENCODED_SIZE_OF_TRAP)
  }

  /** One turn of the interpreter loop on `code` loaded at address `base`. */
  function ByteStep(t: Table, code: seq<byte>, base: nat, c: Config, other: (Op, State) -> State): Result<Outcome> {
    if !(base <= c.pc < base + |code|) then Err(UnexpectedEof(0))
    else
      match DecodeOne(t, code[c.pc - base..], 0)
      case Err(e) => Err(e)
      case Ok(op) =>
        Ok(OutcomeOf(Visit(op, c.state, c.pc + Size(t, op), other)))
  }

  // ---- the operations, as a list ----

  predicate OpsOk(t: Table, ops: seq<Op>) {
    forall i :: 0 <= i < |ops| ==> OpOk(t, ops[i])
  }

  /** The byte offset at which operation `i` starts. */
  function Start(t: Table, ops: seq<Op>, i: nat): nat
    requires OpsOk(t, ops) && i <= |ops|
  {
    |EncodeAll(t, ops[..i])|
  }

  datatype OpConfig = OpConfig(index: nat, state: State)

  datatype OpOutcome = OpRunning(config: OpConfig) | OpReturned(state: State) | OpTrapped(index: nat)

  /** Operation `j` starts at `address`. */
  predicate StartsAt(t: Table, ops: seq<Op>, base: nat, j: nat, address: int)
    requires OpsOk(t, ops)
  {
    j < |ops| && address == base + Start(t, ops, j)
  }

  /** What an operation that begins at `here` and ends at `next` is meant to do. Branch targets are relative
      to its own start, a call leaves the address of the next operation in the link register, and a trap
      is at its own operation. */
  function Intended(op: Op, s: State, here: nat, next: nat, other: (Op, State) -> State): Outcome {
    if IsTrap(op) then Trapped(here)
    else if !IsBranch(op) then Running(Config(next, Effect(op, s, other)))
    else if op.code == 0 then
      if Get(s, LR) == U64 - 1 then Returned(s) else Running(Config(Get(s, LR), s))
    else
      Running(Config(if Taken(op, s) then here + OffsetOf(op) else next, if op.code == 1 then Set(s, LR, next) else s))
  }

  /** One step of the operation list: control goes to the operation that starts where it is meant to go. */
  ghost predicate OpStep(t: Table, ops: seq<Op>, base: nat, c: OpConfig, other: (Op, State) -> State, out: OpOutcome)
    requires OpsOk(t, ops)
  {
    && c.index < |ops|
    && var here, next := base + Start(t, ops, c.index), base + Start(t, ops, c.index + 1);
    match Intended(ops[c.index], c.state, here, next, other)
    case Trapped(_) => out == OpTrapped(c.index)
    case Returned(s) => out == OpReturned(s)
    case Running(c') =>
      out.OpRunning? && out.config.state == c'.state && StartsAt(t, ops, base, out.config.index, c'.pc)
  }

  function Image(t: Table, ops: seq<Op>, base: nat, out: OpOutcome): Outcome
    requires OpsOk(t, ops) && (out.OpRunning? ==> out.config.index < |ops|) && (out.OpTrapped? ==> out.index < |ops|)
  {
    match out
    case OpRunning(c) => Running(Config(base + Start(t, ops, c.index), c.state))
    case OpReturned(s) => Returned(s)
    case OpTrapped(i) => Trapped(base + Start(t, ops, i))
  }

  // ---- sizes ----

  /** The written sizes are the encoded ones. */
  lemma {:induction false} WrittenSizes(t: Table, op: Op)
    requires Branches(t) && CodeOk(t, op) && (IsBranch(op) || IsTrap(op))
    ensures IsTrap(op) ==> Size(t, op) == ENCODED_SIZE_OF_TRAP
    ensures IsBranch(op) && op.code > 0 ==> Size(t, op) == WrittenSize(op)
  {
    if IsBranch(op) {
      BranchKinds(t, op.code);
    }
  }

  lemma {:induction false} BranchKinds(t: Table, code: nat)
    requires Branches(t) && code <= 10
    ensures 1 <= code <= 2 ==> TotalWidth(Kinds(t, false, code)) == 4
    ensures 3 <= code <= 4 ==> TotalWidth(Kinds(t, false, code)) == 5
    ensures 5 <= code ==> TotalWidth(Kinds(t, false, code)) == 6
  {
    hide TotalWidth, BranchOps;
    Lengths();
    assert t.ops[code] == BranchOps()[code];
    BranchSizes(code);
  }

  // ---- boundaries ----

  lemma {:induction false} EncodeSplits(t: Table, a: seq<Op>, b: seq<Op>)
    requires OpsOk(t, a) && OpsOk(t, b)
    ensures OpsOk(t, a + b) && EncodeAll(t, a + b) == EncodeAll(t, a) + EncodeAll(t, b)
  {
    hide Encode, OpOk;
    if a == [] {
      assert a + b == b;
    } else {
      assert (a + b)[1..] == a[1..] + b;
      EncodeSplits(t, a[1..], b);
    }
  }

  /** The code from operation `i` on begins with that operation. */
  lemma {:induction false} CodeAt(t: Table, ops: seq<Op>, i: nat)
    requires OpsOk(t, ops) && i < |ops|
    ensures OpsOk(t, ops[i + 1..]) && Start(t, ops, i) < |EncodeAll(t, ops)|
    ensures EncodeAll(t, ops)[Start(t, ops, i)..] == Encode(t, ops[i]) + EncodeAll(t, ops[i + 1..])
    ensures Start(t, ops, i + 1) == Start(t, ops, i) + Size(t, ops[i]) <= |EncodeAll(t, ops)|
  {
    assert ops == ops[..i] + ops[i..];
    EncodeSplits(t, ops[..i], ops[i..]);
    assert ops[i..][0] == ops[i] && ops[i..][1..] == ops[i + 1..];
    assert ops[..i + 1] == ops[..i] + [ops[i]];
    EncodeSplits(t, ops[..i], [ops[i]]);
    assert [ops[i]][1..] == [];
    assert EncodeAll(t, [ops[i]]) == Encode(t, ops[i]) + EncodeAll(t, [ops[i]][1..]);
    OneRoundTrip(t, ops[i], [], 0);
  }

  lemma {:induction false} StartsIncrease(t: Table, ops: seq<Op>, i: nat, j: nat)
    requires OpsOk(t, ops) && i < j <= |ops|
    ensures Start(t, ops, i) < Start(t, ops, j)
  {
    CodeAt(t, ops, j - 1);
    if i < j - 1 { StartsIncrease(t, ops, i, j - 1); }
  }

  /** At most one operation starts at an address. */
  lemma {:induction false} StartUnique(t: Table, ops: seq<Op>, base: nat, i: nat, j: nat, address: int)
    requires OpsOk(t, ops) && StartsAt(t, ops, base, i, address) && StartsAt(t, ops, base, j, address)
    ensures i == j
  {
    if i < j { StartsIncrease(t, ops, i, j); } else if j < i { StartsIncrease(t, ops, j, i); }
  }

  // ---- simulation ----

  /** At an operation boundary, the interpreter executes exactly that operation. */
  lemma {:induction false} ByteStepAt(t: Table, ops: seq<Op>, base: nat, i: nat, s: State, other: (Op, State) -> State)
    requires OpsOk(t, ops) && i < |ops|
    ensures ByteStep(t, EncodeAll(t, ops), base, Config(base + Start(t, ops, i), s), other) ==
        Ok(OutcomeOf(Visit(ops[i], s, base + Start(t, ops, i + 1), other)))
  {
    hide DecodeOne, Encode, EncodeAll, Size, Start, Visit, OutcomeOf, OpOk;
    CodeAt(t, ops, i);
    OneRoundTrip(t, ops[i], EncodeAll(t, ops[i + 1..]), 0);
  }

  /** The written sizes being right, an operation does what it is meant to do. */
  lemma {:induction false} VisitIntended(op: Op, s: State, here: nat, next: nat, other: (Op, State) -> State)
    requires IsTrap(op) ==> next == here + ENCODED_SIZE_OF_TRAP
    requires IsBranch(op) && op.code > 0 ==> next == here + WrittenSize(op)
    ensures OutcomeOf(Visit(op, s, next, other)) == Intended(op, s, here, next, other)
  {
    hide Effect, Taken, Get, Set, OffsetOf;
  }

  /** At an operation boundary the interpreter does what the operation is meant to do: a taken branch goes to
      its own start plus its offset, wherever that is. */
  lemma {:induction false} StepIntended(t: Table, ops: seq<Op>, base: nat, i: nat, s: State,
      other: (Op, State) -> State)
    requires Branches(t) && OpsOk(t, ops) && i < |ops|
    ensures
      var here, next := base + Start(t, ops, i), base + Start(t, ops, i + 1);
      ByteStep(t, EncodeAll(t, ops), base, Config(here, s), other) == Ok(Intended(ops[i], s, here, next, other))
  {
    hide ByteStep, Start, Size, EncodeAll, FieldsOk, KindsOf, Branches, Visit, OutcomeOf, Intended, WrittenSize;
    ByteStepAt(t, ops, base, i, s, other);
    CodeAt(t, ops, i);
    if IsBranch(ops[i]) || IsTrap(ops[i]) { WrittenSizes(t, ops[i]); }
    VisitIntended(ops[i], s, base + Start(t, ops, i), base + Start(t, ops, i + 1), other);
  }

  /** Every step of the operation list is a step of the interpreter. */
  lemma {:induction false} StepSimulated(t: Table, ops: seq<Op>, base: nat, c: OpConfig, other: (Op, State) -> State,
      out: OpOutcome)
    requires Branches(t) && OpsOk(t, ops) && OpStep(t, ops, base, c, other, out)
    ensures out.OpRunning? ==> out.config.index < |ops|
    ensures out.OpTrapped? ==> out.index < |ops|
    ensures ByteStep(t, EncodeAll(t, ops), base, Config(base + Start(t, ops, c.index), c.state), other) ==
      Ok(Image(t, ops, base, out))
  {
    hide ByteStep, Start, EncodeAll, OpOk, Branches, Intended;
    StepIntended(t, ops, base, c.index, c.state, other);
    TrapsAtStart(ops[c.index], c.state, base + Start(t, ops, c.index), base + Start(t, ops, c.index + 1), other);
  }

  lemma TrapsAtStart(op: Op, s: State, here: nat, next: nat, other: (Op, State) -> State)
    ensures Intended(op, s, here, next, other).Trapped? ==> Intended(op, s, here, next, other).address == here
  {
    hide Effect, Taken, Get, Set, OffsetOf;
  }

  /** Every step of the interpreter that starts at an operation and does not leave the boundaries is a
      step of the operation list. */
  lemma {:induction false} StepReflected(t: Table, ops: seq<Op>, base: nat, c: OpConfig, other: (Op, State) -> State,
      j: nat) returns (out: OpOutcome)
    requires Branches(t) && OpsOk(t, ops) && c.index < |ops|
    requires
      var r := ByteStep(t, EncodeAll(t, ops), base, Config(base + Start(t, ops, c.index), c.state), other);
      r.Ok? && (r.value.Running? ==> StartsAt(t, ops, base, j, r.value.config.pc))
    ensures OpStep(t, ops, base, c, other, out)
    ensures (out.OpRunning? ==> out.config.index == j < |ops|) && (out.OpTrapped? ==> out.index < |ops|)
    ensures ByteStep(t, EncodeAll(t, ops), base, Config(base + Start(t, ops, c.index), c.state), other) ==
      Ok(Image(t, ops, base, out))
  {
    hide ByteStep, Start, EncodeAll, OpOk, Branches, Intended;
    StepIntended(t, ops, base, c.index, c.state, other);
    TrapsAtStart(ops[c.index], c.state, base + Start(t, ops, c.index), base + Start(t, ops, c.index + 1), other);
    var here, next := base + Start(t, ops, c.index), base + Start(t, ops, c.index + 1);
    out := match Intended(ops[c.index], c.state, here, next, other)
      case Trapped(_) => OpTrapped(c.index)
      case Returned(s) => OpReturned(s)
      case Running(c') => OpRunning(OpConfig(j, c'.state));
  }

  // ---- runs ----

  ghost predicate ByteRun(t: Table, code: seq<byte>, base: nat, cs: seq<Config>, other: (Op, State) -> State) {
    |cs| > 0 && forall k :: 0 < k < |cs| ==> ByteStep(t, code, base, cs[k - 1], other) == Ok(Running(cs[k]))
  }

  ghost predicate OpRun(t: Table, ops: seq<Op>, base: nat, ocs: seq<OpConfig>, other: (Op, State) -> State)
    requires OpsOk(t, ops)
  {
    |ocs| > 0 && forall k :: 0 < k < |ocs| ==> OpStep(t, ops, base, ocs[k - 1], other, OpRunning(ocs[k]))
  }

  /** The configuration of the interpreter at an operation. */
  function ConfigOf(t: Table, ops: seq<Op>, base: nat, oc: OpConfig): Config
    requires OpsOk(t, ops) && oc.index < |ops|
  {
    Config(base + Start(t, ops, oc.index), oc.state)
  }

  ghost predicate ConfigsOf(t: Table, ops: seq<Op>, base: nat, ocs: seq<OpConfig>, cs: seq<Config>)
    requires OpsOk(t, ops)
  {
    |cs| == |ocs| && forall k :: 0 <= k < |ocs| ==> ocs[k].index < |ops| && cs[k] == ConfigOf(t, ops, base, ocs[k])
  }

  /** One step, either way. */
  lemma {:induction false} StepsAgree(t: Table, ops: seq<Op>, base: nat, c: OpConfig, c': OpConfig,
      other: (Op, State) -> State)
    requires Branches(t) && OpsOk(t, ops) && c.index < |ops| && c'.index < |ops|
    ensures OpStep(t, ops, base, c, other, OpRunning(c')) <==>
      ByteStep(t, EncodeAll(t, ops), base, ConfigOf(t, ops, base, c), other) == Ok(Running(ConfigOf(t, ops, base, c')))
  {
    hide OpStep, ByteStep, Start, EncodeAll, OpOk;
    if OpStep(t, ops, base, c, other, OpRunning(c')) {
      StepSimulated(t, ops, base, c, other, OpRunning(c'));
    }
    if ByteStep(t, EncodeAll(t, ops), base, ConfigOf(t, ops, base, c), other) ==
      Ok(Running(ConfigOf(t, ops, base, c'))) {
      var out := StepReflected(t, ops, base, c, other, c'.index);
    }
  }

  /** The runs of the operation list are the runs of the interpreter that stay on operation boundaries. */
  lemma {:induction false} RunsAgree(t: Table, ops: seq<Op>, base: nat, ocs: seq<OpConfig>, cs: seq<Config>,
      other: (Op, State) -> State)
    requires Branches(t) && OpsOk(t, ops) && ConfigsOf(t, ops, base, ocs, cs)
    ensures OpRun(t, ops, base, ocs, other) <==> ByteRun(t, EncodeAll(t, ops), base, cs, other)
  {
    hide OpStep, ByteStep, ConfigOf, EncodeAll, OpOk, Branches;
    forall k | 0 < k < |ocs|
      ensures OpStep(t, ops, base, ocs[k - 1], other, OpRunning(ocs[k])) <==>
        ByteStep(t, EncodeAll(t, ops), base, cs[k - 1], other) == Ok(Running(cs[k]))
    {
      StepsAgree(t, ops, base, ocs[k - 1], ocs[k], other);
    }
  }

  // ---- staying on boundaries ----

  ghost predicate OnBoundary(t: Table, ops: seq<Op>, base: nat, address: int)
    requires OpsOk(t, ops)
  {
    exists j :: StartsAt(t, ops, base, j, address)
  }

  /** Control can go on to the operation behind this one. */
  predicate FallsThrough(op: Op) {
    !IsTrap(op) && !(op.Basic? && op.code <= 2)
  }

  /** A check on the code alone: branches go to operations, and control does not run off the end. */
  ghost predicate TargetsOk(t: Table, ops: seq<Op>)
    requires OpsOk(t, ops)
  {
    forall i :: 0 <= i < |ops| ==>
      && (FallsThrough(ops[i]) ==> i + 1 < |ops|)
      && (IsBranch(ops[i]) && ops[i].code > 0 ==> OnBoundary(t, ops, 0, Start(t, ops, i) + OffsetOf(ops[i])))
  }

  /** A return goes to the host or to an operation. */
  ghost predicate ReturnOk(t: Table, ops: seq<Op>, base: nat, c: Config)
    requires OpsOk(t, ops)
  {
    forall i: nat :: StartsAt(t, ops, base, i, c.pc) && ops[i].Basic? && ops[i].code == 0 ==>
      Get(c.state, LR) == U64 - 1 || OnBoundary(t, ops, base, Get(c.state, LR))
  }

  lemma {:induction false} StepStays(t: Table, ops: seq<Op>, base: nat, i: nat, s: State, c': Config,
      other: (Op, State) -> State)
    requires Branches(t) && OpsOk(t, ops) && TargetsOk(t, ops) && i < |ops|
    requires ReturnOk(t, ops, base, Config(base + Start(t, ops, i), s))
    requires ByteStep(t, EncodeAll(t, ops), base, Config(base + Start(t, ops, i), s), other) == Ok(Running(c'))
    ensures OnBoundary(t, ops, base, c'.pc)
  {
    hide Effect, Compares32, Get, Set, OffsetOf, ByteStep, Start, EncodeAll, OpOk, Branches;
    var op := ops[i];
    StepIntended(t, ops, base, i, s, other);
    assert StartsAt(t, ops, base, i, base + Start(t, ops, i));
    if IsBranch(op) && op.code > 0 {
      var j :| StartsAt(t, ops, 0, j, Start(t, ops, i) + OffsetOf(op));
      assert StartsAt(t, ops, base, j, base + Start(t, ops, i) + OffsetOf(op));
    }
    if FallsThrough(op) { assert StartsAt(t, ops, base, i + 1, base + Start(t, ops, i + 1)); }
  }

  /** Every run from an operation of checked code, whose returns go to operations, is the image of a run
      of the operation list. */
  lemma {:induction false} RunReflected(t: Table, ops: seq<Op>, base: nat, cs: seq<Config>, other: (Op, State) -> State)
    returns (ocs: seq<OpConfig>)
    requires Branches(t) && OpsOk(t, ops) && TargetsOk(t, ops)
    requires ByteRun(t, EncodeAll(t, ops), base, cs, other) && OnBoundary(t, ops, base, cs[0].pc)
    requires forall k :: 0 <= k < |cs| ==> ReturnOk(t, ops, base, cs[k])
    ensures ConfigsOf(t, ops, base, ocs, cs) && OpRun(t, ops, base, ocs, other)
  {
    hide OpStep, ByteStep, EncodeAll, OpsOk, Branches, ReturnOk, TargetsOk, Start, OpRun;
    var j :| StartsAt(t, ops, base, j, cs[0].pc);
    ocs := [OpConfig(j, cs[0].state)];
    for n := 1 to |cs|
      invariant |ocs| == n
      invariant forall k :: 0 <= k < n ==> ocs[k].index < |ops| && cs[k] == ConfigOf(t, ops, base, ocs[k])
    {
      assert cs[n - 1] == ConfigOf(t, ops, base, ocs[n - 1]);
      StepStays(t, ops, base, ocs[n - 1].index, cs[n - 1].state, cs[n], other);
      j :| StartsAt(t, ops, base, j, cs[n].pc);
      ocs := ocs + [OpConfig(j, cs[n].state)];
    }
    RunsAgree(t, ops, base, ocs, cs, other);
  }

  // ---- the interpreter's state ----

  /** The interpreter updates its registers and program counter in place. */
  class Interpreter {
    var state: State
    var pc: int

    constructor (state: State, pc: int)
      ensures this.state == state && this.pc == pc
    {
      this.state, this.pc := state, pc;
    }

    /** Behind an instruction of `size` bytes that begins at `start`, jumps to `start + offset`. */
    method PcRelJump(offset: int, size: nat, ghost start: int)
      modifies `pc
      ensures old(pc) == start + size ==> pc == start + offset
    {
      pc := pc + (offset - size);
    }

    /** Executes the operation at the program counter. */
    method Step(t: Table, code: seq<byte>, base: nat, other: (Op, State) -> State) returns (r: Continuation)
      requires base <= pc < base + |code| && DecodeOne(t, code[pc - base..], 0).Ok?
      modifies this
      ensures ByteStep(t, code, base, Config(old(pc), old(state)), other) ==
        Ok(OutcomeOf(Visited(r, state, pc)))
    {
      hide DecodeOne, Size, Effect, Taken, Set, Get;
      var op := DecodeOne(t, code[pc - base..], 0).value;
      pc := pc + Size(t, op);
      if IsTrap(op) { return Trap; }
      if !IsBranch(op) {
        state := Effect(op, state, other);
        return Continue;
      }
      if op.code == 0 {
        if Get(state, LR) == U64 - 1 { return ReturnToHost; }
        pc := Get(state, LR);
        return Continue;
      }
      var taken := Taken(op, state);
      if op.code == 1 { state := Set(state, LR, pc); }
      if taken { PcRelJump(OffsetOf(op), WrittenSize(op), pc - WrittenSize(op)); }
      return Continue;
    }
  }
}
