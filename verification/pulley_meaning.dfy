/** What each operation does to registers and control, read off its operands. */
module PulleyMeaning {
  import opened Bits
  import opened PulleyFields
  import opened PulleyCodec
  import opened PulleyOps
  import opened PulleyInterp

  /** Operation `i` of the code is `op`, and there are 32 registers of 64 bits. */
  ghost predicate At(t: Table, ops: seq<Op>, i: nat, op: Op, s: State) {
    && Branches(t) && OpsOk(t, ops) && i < |ops| && ops[i] == op
    && |s.x| == 32 && forall r :: 0 <= r < 32 ==> s.x[r] < 0x1_0000_0000_0000_0000
  }

  /** What the interpreter does at the start of operation `i` of the encoded code. */
  function StepAt(t: Table, ops: seq<Op>, base: nat, i: nat, s: State, other: (Op, State) -> State): Result<Outcome>
    requires OpsOk(t, ops) && i < |ops|
  {
    ByteStep(t, EncodeAll(t, ops), base, Config(base + Start(t, ops, i), s), other)
  }

  /** The 32-bit two's complement integer in the low half of a register. */
  predicate Low(v: nat, x: int) {
    -0x8000_0000 <= x < 0x8000_0000 && (x - v) % 0x1_0000_0000 == 0
  }

  /** The 64-bit two's complement integer in a register. */
  predicate Whole(v: nat, x: int) {
    -0x8000_0000_0000_0000 <= x < 0x8000_0000_0000_0000 && (x - v) % 0x1_0000_0000_0000_0000 == 0
  }

  /** The order of the six comparisons: equal, not equal, signed less (or equal), unsigned less (or equal).
      `x` and `y` are the operands as signed integers, `a` and `b` as unsigned ones. */
  predicate Ordered(which: int, x: int, y: int, a: nat, b: nat) {
    && (which == 0 ==> a == b)
    && (which == 1 ==> a != b)
    && (which == 2 ==> x < y)
    && (which == 3 ==> x <= y)
    && (which == 4 ==> a < b)
    && (which == 5 ==> a <= b)
  }

  // ---- two's complement ----

  lemma SameRemainder(x: int, v: nat, m: nat)
    requires m > 0 && (x - v) % m == 0 && 0 - m <= x < m
    ensures v % m == if x < 0 then x + m else x
  {
    var q := (x - v) / m;
    assert x - v == m * q;
    if x < 0 { ModUnique(v, m, -q - 1, x + m); } else { ModUnique(v, m, -q, x); }
  }

  lemma Signed32Is(v: nat, x: int)
    requires Low(v, x)
    ensures Signed32(v) == x
  {
    SameRemainder(x, v, U32);
  }

  lemma Signed64Is(v: nat, x: int)
    requires Whole(v, x) && v < U64
    ensures Signed64(v) == x
  {
    SameRemainder(x, v, U64);
  }

  // ---- control transfers ----

  lemma Next(t: Table, ops: seq<Op>, i: nat)
    requires Branches(t) && OpsOk(t, ops) && i < |ops| && ops[i].Basic? && 0 < ops[i].code <= 10
    ensures Start(t, ops, i + 1) == Start(t, ops, i) + WrittenSize(ops[i])
  {
    hide Encode, EncodeAll, Start, Size, OpOk;
    CodeAt(t, ops, i);
    assert OpOk(t, ops[i]);
    CodeIsOk(t, ops[i]);
    WrittenSizes(t, ops[i]);
  }

  lemma CodeIsOk(t: Table, op: Op)
    requires OpOk(t, op)
    ensures CodeOk(t, op)
  {
  }

  /** ret: to the address in the link register, register 28; all ones return to the host. */
  lemma Ret(t: Table, ops: seq<Op>, base: nat, i: nat, s: State, other: (Op, State) -> State)
    requires At(t, ops, i, Basic(0, []), s)
    ensures StepAt(t, ops, base, i, s, other) ==
      Ok(if s.x[28] == 0xffff_ffff_ffff_ffff then Returned(s) else Running(Config(s.x[28], s)))
  {
    hide EncodeAll, ByteStep, Start, OpOk, Branches, Effect, Taken;
    StepIntended(t, ops, base, i, s, other);
  }

  /** call: to its own start plus the offset, with the address behind it in register 28. */
  lemma Call(t: Table, ops: seq<Op>, base: nat, i: nat, s: State, other: (Op, State) -> State, o: int)
    requires At(t, ops, i, Basic(1, [Num(PcRelOffset, o)]), s)
    ensures
      var here := base + Start(t, ops, i);
      StepAt(t, ops, base, i, s, other) == Ok(Running(Config(here + o, s.(x := s.x[28 := here + 5]))))
  {
    hide EncodeAll, ByteStep, Start, OpOk, Branches, Effect;
    StepIntended(t, ops, base, i, s, other);
    Next(t, ops, i);
  }

  /** jump: to its own start plus the offset. */
  lemma Jump(t: Table, ops: seq<Op>, base: nat, i: nat, s: State, other: (Op, State) -> State, o: int)
    requires At(t, ops, i, Basic(2, [Num(PcRelOffset, o)]), s)
    ensures StepAt(t, ops, base, i, s, other) == Ok(Running(Config(base + Start(t, ops, i) + o, s)))
  {
    hide EncodeAll, ByteStep, Start, OpOk, Branches, Effect;
    StepIntended(t, ops, base, i, s, other);
  }

  lemma RegisterOperand(t: Table, op: Op, j: nat)
    requires OpOk(t, op) && j < |op.fields| && op.fields[j].Num? && op.fields[j].kind.XReg?
    ensures 0 <= op.fields[j].val < 32
  {
  }

  lemma BinaryOperand(t: Table, op: Op)
    requires OpOk(t, op) && |op.fields| == 1 && op.fields[0].Binary?
    ensures op.fields[0].dst < 32 && op.fields[0].src1 < 32 && op.fields[0].src2 < 32
  {
  }

  /** br_if and br_if_not: taken when the whole register is not zero, or zero. */
  lemma BrIf(t: Table, ops: seq<Op>, base: nat, i: nat, s: State, other: (Op, State) -> State, c: int, o: int)
    requires At(t, ops, i, Basic(3, [Num(XReg, c), Num(PcRelOffset, o)]), s)
    ensures 0 <= c < 32
    ensures
      var here := base + Start(t, ops, i);
      StepAt(t, ops, base, i, s, other) == Ok(Running(Config(if s.x[c] != 0 then here + o else here + 6, s)))
  {
    hide EncodeAll, ByteStep, Start, OpOk, Branches, Effect;
    RegisterOperand(t, ops[i], 0);
    StepIntended(t, ops, base, i, s, other);
    Next(t, ops, i);
  }

  lemma BrIfNot(t: Table, ops: seq<Op>, base: nat, i: nat, s: State, other: (Op, State) -> State, c: int, o: int)
    requires At(t, ops, i, Basic(4, [Num(XReg, c), Num(PcRelOffset, o)]), s)
    ensures 0 <= c < 32
    ensures
      var here := base + Start(t, ops, i);
      StepAt(t, ops, base, i, s, other) == Ok(Running(Config(if s.x[c] == 0 then here + o else here + 6, s)))
  {
    hide EncodeAll, ByteStep, Start, OpOk, Branches, Effect;
    RegisterOperand(t, ops[i], 0);
    StepIntended(t, ops, base, i, s, other);
    Next(t, ops, i);
  }

  lemma Compare32(which: nat, a: nat, b: nat, x: int, y: int)
    requires which < 6 && Low(a, x) && Low(b, y)
    ensures Compares32(which, a, b) <==> Ordered(which, x, y, a % 0x1_0000_0000, b % 0x1_0000_0000)
  {
    hide Low, Signed32;
    Signed32Is(a, x);
    Signed32Is(b, y);
  }

  lemma Compare64(which: nat, a: nat, b: nat, x: int, y: int)
    requires which < 6 && Whole(a, x) && Whole(b, y) && a < U64 && b < U64
    ensures Compares64(which, a, b) <==> Ordered(which, x, y, a, b)
  {
    hide Whole, Signed64;
    Signed64Is(a, x);
    Signed64Is(b, y);
  }

  /** The branches that compare the low halves of two registers, in opcode order. */
  lemma BrIfCompare(t: Table, ops: seq<Op>, base: nat, i: nat, s: State, other: (Op, State) -> State, code: nat,
      a: int, b: int, o: int, x: int, y: int)
    requires 5 <= code <= 10 && At(t, ops, i, Basic(code, [Num(XReg, a), Num(XReg, b), Num(PcRelOffset, o)]), s)
    requires 0 <= a < 32 && 0 <= b < 32 && Low(s.x[a], x) && Low(s.x[b], y)
    ensures
      var here := base + Start(t, ops, i);
      var taken := Ordered(code - 5, x, y, s.x[a] % 0x1_0000_0000, s.x[b] % 0x1_0000_0000);
      StepAt(t, ops, base, i, s, other) == Ok(Running(Config(if taken then here + o else here + 7, s)))
  {
    hide EncodeAll, ByteStep, Start, OpOk, Branches, Effect, Compares32, Ordered, Low;
    StepIntended(t, ops, base, i, s, other);
    Next(t, ops, i);
    Compare32(code - 5, s.x[a], s.x[b], x, y);
  }

  // ---- data ----

  /** xmov copies a register. */
  lemma XMov(t: Table, ops: seq<Op>, base: nat, i: nat, s: State, other: (Op, State) -> State, d: int, r: int)
    requires At(t, ops, i, Basic(11, [Num(XReg, d), Num(XReg, r)]), s)
    ensures 0 <= d < 32 && 0 <= r < 32
    ensures StepAt(t, ops, base, i, s, other) ==
      Ok(Running(Config(base + Start(t, ops, i + 1), s.(x := s.x[d := s.x[r]]))))
  {
    hide EncodeAll, ByteStep, Start, OpOk, Branches;
    RegisterOperand(t, ops[i], 0);
    RegisterOperand(t, ops[i], 1);
    StepIntended(t, ops, base, i, s, other);
  }

  lemma ConstantOperand(t: Table, op: Op, k: Kind, v: int)
    requires OpOk(t, op) && |op.fields| == 2 && op.fields[1] == Num(k, v) && k in {Imm8, Imm16, Imm32, Imm64}
    ensures -0x8000_0000_0000_0000 <= v < 0x8000_0000_0000_0000
  {
    hide FieldOk, EncodeField;
    assert FieldOk(Num(k, v));
    FieldFormat(Imm8, v, 1, -0x80, 0x80, 0);
    FieldFormat(Imm16, v, 2, -0x8000, 0x8000, 0);
    FieldFormat(Imm32, v, 4, -0x8000_0000, 0x8000_0000, 0);
    FieldFormat(Imm64, v, 8, -0x8000_0000_0000_0000, 0x8000_0000_0000_0000, 0);
  }

  /** The constants are sign-extended to 64 bits, whatever their width. */
  lemma XConst(t: Table, ops: seq<Op>, base: nat, i: nat, s: State, other: (Op, State) -> State, code: nat, k: Kind,
      d: int, v: int)
    requires 14 <= code <= 17 && At(t, ops, i, Basic(code, [Num(XReg, d), Num(k, v)]), s)
    requires k == [Imm8, Imm16, Imm32, Imm64][code - 14]
    ensures 0 <= d < 32 && -0x8000_0000_0000_0000 <= v < 0x8000_0000_0000_0000
    ensures StepAt(t, ops, base, i, s, other) == Ok(Running(Config(base + Start(t, ops, i + 1),
      s.(x := s.x[d := if v < 0 then v + 0x1_0000_0000_0000_0000 else v]))))
  {
    hide EncodeAll, ByteStep, Start, OpOk, Branches;
    RegisterOperand(t, ops[i], 0);
    ConstantOperand(t, ops[i], k, v);
    StepIntended(t, ops, base, i, s, other);
  }

  /** xadd32 adds modulo 2^32 in the low half and leaves the high half of the destination alone. */
  lemma XAdd32(t: Table, ops: seq<Op>, base: nat, i: nat, s: State, other: (Op, State) -> State, d: nat, a: nat,
      b: nat) returns (r: nat)
    requires At(t, ops, i, Basic(18, [Binary(d, a, b)]), s)
    ensures d < 32 && a < 32 && b < 32
    ensures r % 0x1_0000_0000 == (s.x[a] + s.x[b]) % 0x1_0000_0000 && r / 0x1_0000_0000 == s.x[d] / 0x1_0000_0000
    ensures StepAt(t, ops, base, i, s, other) == Ok(Running(Config(base + Start(t, ops, i + 1), s.(x := s.x[d := r]))))
  {
    hide EncodeAll, ByteStep, Start, OpOk, Branches, BinaryResult;
    BinaryOperand(t, ops[i]);
    StepIntended(t, ops, base, i, s, other);
    r := BinaryResult(18, s.x[a], s.x[b], s.x[d]);
    Add32Is(s.x[a], s.x[b], s.x[d]);
  }

  lemma Add32Is(a: nat, b: nat, old': nat)
    ensures
      var r := BinaryResult(18, a, b, old');
      r % U32 == (a + b) % U32 && r / U32 == old' / U32
  {
  }

  /** xadd64 adds modulo 2^64. */
  lemma XAdd64(t: Table, ops: seq<Op>, base: nat, i: nat, s: State, other: (Op, State) -> State, d: nat, a: nat, b: nat)
    requires At(t, ops, i, Basic(19, [Binary(d, a, b)]), s)
    ensures d < 32 && a < 32 && b < 32
    ensures StepAt(t, ops, base, i, s, other) == Ok(Running(Config(base + Start(t, ops, i + 1),
      s.(x := s.x[d := (s.x[a] + s.x[b]) % 0x1_0000_0000_0000_0000]))))
  {
    hide EncodeAll, ByteStep, Start, OpOk, Branches;
    BinaryOperand(t, ops[i]);
    StepIntended(t, ops, base, i, s, other);
  }

  /** The comparisons of whole registers, in opcode order: the destination becomes one or zero. */
  lemma XCompare64(t: Table, ops: seq<Op>, base: nat, i: nat, s: State, other: (Op, State) -> State, code: nat,
      d: nat, a: nat, b: nat, x: int, y: int)
    requires 20 <= code <= 25 && At(t, ops, i, Basic(code, [Binary(d, a, b)]), s)
    requires d < 32 && a < 32 && b < 32 && Whole(s.x[a], x) && Whole(s.x[b], y)
    ensures
      var r := if Ordered(code - 20, x, y, s.x[a], s.x[b]) then 1 else 0;
      StepAt(t, ops, base, i, s, other) == Ok(Running(Config(base + Start(t, ops, i + 1), s.(x := s.x[d := r]))))
  {
    hide EncodeAll, ByteStep, Start, OpOk, Branches, Compares64, Ordered, Whole;
    StepIntended(t, ops, base, i, s, other);
    Compare64(code - 20, s.x[a], s.x[b], x, y);
  }

  /** The comparisons of low halves, in opcode order: the whole destination becomes one or zero. */
  lemma XCompare32(t: Table, ops: seq<Op>, base: nat, i: nat, s: State, other: (Op, State) -> State, code: nat,
      d: nat, a: nat, b: nat, x: int, y: int)
    requires 26 <= code <= 31 && At(t, ops, i, Basic(code, [Binary(d, a, b)]), s)
    requires d < 32 && a < 32 && b < 32 && Low(s.x[a], x) && Low(s.x[b], y)
    ensures
      var r := if Ordered(code - 26, x, y, s.x[a] % 0x1_0000_0000, s.x[b] % 0x1_0000_0000) then 1 else 0;
      StepAt(t, ops, base, i, s, other) == Ok(Running(Config(base + Start(t, ops, i + 1), s.(x := s.x[d := r]))))
  {
    hide EncodeAll, ByteStep, Start, OpOk, Branches, Compares32, Ordered, Low;
    StepIntended(t, ops, base, i, s, other);
    Compare32(code - 26, s.x[a], s.x[b], x, y);
  }

  /** trap stops at its own address, nop does nothing, and get_sp reads register 27. */
  lemma TrapStep(t: Table, ops: seq<Op>, base: nat, i: nat, s: State, other: (Op, State) -> State)
    requires At(t, ops, i, Extended(0, []), s)
    ensures StepAt(t, ops, base, i, s, other) == Ok(Trapped(base + Start(t, ops, i)))
  {
    hide EncodeAll, ByteStep, Start, OpOk, Branches;
    StepIntended(t, ops, base, i, s, other);
  }

  lemma Nop(t: Table, ops: seq<Op>, base: nat, i: nat, s: State, other: (Op, State) -> State)
    requires At(t, ops, i, Extended(1, []), s)
    ensures StepAt(t, ops, base, i, s, other) == Ok(Running(Config(base + Start(t, ops, i + 1), s)))
  {
    hide EncodeAll, ByteStep, Start, OpOk, Branches;
    StepIntended(t, ops, base, i, s, other);
  }

  lemma GetSp(t: Table, ops: seq<Op>, base: nat, i: nat, s: State, other: (Op, State) -> State, d: int)
    requires At(t, ops, i, Extended(2, [Num(XReg, d)]), s)
    ensures 0 <= d < 32
    ensures StepAt(t, ops, base, i, s, other) ==
      Ok(Running(Config(base + Start(t, ops, i + 1), s.(x := s.x[d := s.x[27]]))))
  {
    hide EncodeAll, ByteStep, Start, OpOk, Branches;
    RegisterOperand(t, ops[i], 0);
    StepIntended(t, ops, base, i, s, other);
  }

  /** The remaining operations leave control alone and do to the state what `other` says. */
  lemma OtherStep(t: Table, ops: seq<Op>, base: nat, i: nat, s: State, other: (Op, State) -> State, op: Op)
    requires At(t, ops, i, op, s) && op.Basic? && (12 <= op.code <= 13 || 32 <= op.code)
    ensures StepAt(t, ops, base, i, s, other) == Ok(Running(Config(base + Start(t, ops, i + 1), other(op, s))))
  {
    hide EncodeAll, ByteStep, Start, OpOk, Branches;
    StepIntended(t, ops, base, i, s, other);
  }
}
