/** The operations of the bytecode. */
module PulleyOps {
  import opened PulleyFields
  import opened PulleyCodec

  /** The operand types of the operations that transfer control, which come first in opcode order. */
  function BranchOps(): seq<seq<Kind>> {
    [
      [],  // ret
      [PcRelOffset], [PcRelOffset],  // call jump
      [XReg, PcRelOffset], [XReg, PcRelOffset],  // br_if br_if_not
      // br_if_xeq32 br_if_xneq32 br_if_xslt32 br_if_xslteq32 br_if_xult32 br_if_xulteq32
      [XReg, XReg, PcRelOffset], [XReg, XReg, PcRelOffset], [XReg, XReg, PcRelOffset],
      [XReg, XReg, PcRelOffset], [XReg, XReg, PcRelOffset], [XReg, XReg, PcRelOffset]
    ]
  }

  /** Moves and constants. */
  function MoveOps(): seq<seq<Kind>> {
    [
      [XReg, XReg],  // xmov
      [FReg, FReg],  // fmov
      [VReg, VReg],  // vmov
      [XReg, Imm8],  // xconst8
      [XReg, Imm16],  // xconst16
      [XReg, Imm32],  // xconst32
      [XReg, Imm64]  // xconst64
    ]
  }

  /** Arithmetic and comparisons. */
  function BinaryOps(): seq<seq<Kind>> {
    [
      // xadd32 xadd64 xeq64 xneq64 xslt64 xslteq64
      [BinaryOperands], [BinaryOperands], [BinaryOperands],
      [BinaryOperands], [BinaryOperands], [BinaryOperands],
      // xult64 xulteq64 xeq32 xneq32 xslt32 xslteq32
      [BinaryOperands], [BinaryOperands], [BinaryOperands],
      [BinaryOperands], [BinaryOperands], [BinaryOperands],
      [BinaryOperands], [BinaryOperands]  // xult32 xulteq32
    ]
  }

  /** Loads and stores. */
  function MemoryOps(): seq<seq<Kind>> {
    [
      [XReg, XReg], [XReg, XReg], [XReg, XReg],  // load32_u load32_s load64
      // load32_u_offset8 load32_s_offset8 load64_offset8
      [XReg, XReg, Imm8], [XReg, XReg, Imm8], [XReg, XReg, Imm8],
      // load32_u_offset64 load32_s_offset64 load64_offset64
      [XReg, XReg, Imm64], [XReg, XReg, Imm64], [XReg, XReg, Imm64],
      [XReg, XReg], [XReg, XReg],  // store32 store64
      [XReg, Imm8, XReg], [XReg, Imm8, XReg],  // store32_offset8 store64_offset8
      [XReg, Imm64, XReg], [XReg, Imm64, XReg]  // store32_offset64 store64_offset64
    ]
  }

  /** Frames, the stack, and bit casts. */
  function StackOps(): seq<seq<Kind>> {
    [
      [], [],  // push_frame pop_frame
      [XReg],  // xpush32
      [RegSet],  // xpush32_many
      [XReg],  // xpush64
      [RegSet],  // xpush64_many
      [XReg],  // xpop32
      [RegSet],  // xpop32_many
      [XReg],  // xpop64
      [RegSet],  // xpop64_many
      [XReg, FReg], [XReg, FReg],  // bitcast_int_from_float_32 bitcast_int_from_float_64
      [FReg, XReg], [FReg, XReg]  // bitcast_float_from_int_32 bitcast_float_from_int_64
    ]
  }

  /** The operand types of the operations that do not transfer control, in opcode order. */
  function DataOps(): (r: seq<seq<Kind>>)
    ensures |r| == 50
  {
    MoveOps() + BinaryOps() + MemoryOps() + StackOps()
  }

  function ExtendedOps(): seq<seq<Kind>> {
    [[], [], [XReg]]  // trap nop get_sp
  }

  /** 61 ordinary operations, so that 61 announces an extended one; and three extended operations. */
  function PulleyTable(): (t: Table)
    ensures ExtendedOp(t) == 61 && |t.ext| == 3
  {
    RawTable(BranchOps() + DataOps(), ExtendedOps())
  }

  /** The control transfers and trap are where the interpreter expects them. */
  predicate Branches(t: Table) {
    |t.ops| > 10 && t.ops[..11] == BranchOps() && t.ext[0] == []
  }

  lemma PulleyBranches()
    ensures Branches(PulleyTable())
  {
    hide DataOps;
    assert (BranchOps() + DataOps())[..11] == BranchOps();
  }

  // ---- encoded sizes ----

  /** The operand bytes of the operations, by opcode. */
  function OperandSize(code: nat): nat {
    if code == 0 then 0  // ret
    else if code <= 2 then 4  // call jump
    else if code <= 4 then 5  // conditional branches
    else if code <= 10 then 6  // branches that compare
    else if code <= 13 then 2  // register moves
    else if code == 14 then 2  // xconst8
    else if code == 15 then 3  // xconst16
    else if code == 16 then 5  // xconst32
    else if code == 17 then 9  // xconst64
    else if code <= 34 then 2  // arithmetic, comparisons, plain loads
    else if code <= 37 then 3  // loads with an 8-bit offset
    else if code <= 40 then 10  // loads with a 64-bit offset
    else if code <= 42 then 2  // plain stores
    else if code <= 44 then 3  // stores with an 8-bit offset
    else if code <= 46 then 10  // stores with a 64-bit offset
    else if code <= 48 then 0  // push_frame pop_frame
    else if code <= 56 then (if code % 2 == 1 then 1 else 4)  // push and pop of one register, or of a set
    else 2  // bit casts
  }

  lemma {:induction false} MoveWidths()
    ensures TotalWidth([]) == 0 && TotalWidth([XReg]) == 1 && TotalWidth([RegSet]) == 4
    ensures TotalWidth([BinaryOperands]) == 2 && TotalWidth([PcRelOffset]) == 4
    ensures TotalWidth([XReg, XReg]) == 2 && TotalWidth([FReg, FReg]) == 2 && TotalWidth([VReg, VReg]) == 2
    ensures TotalWidth([XReg, FReg]) == 2 && TotalWidth([FReg, XReg]) == 2
  {
    Two(XReg, XReg);
    Two(FReg, FReg);
    Two(VReg, VReg);
    Two(XReg, FReg);
    Two(FReg, XReg);
    One(BinaryOperands);
    One(RegSet);
    One(PcRelOffset);
  }

  lemma {:induction false} WideWidths()
    ensures TotalWidth([XReg, PcRelOffset]) == 5 && TotalWidth([XReg, XReg, PcRelOffset]) == 6
    ensures TotalWidth([XReg, Imm8]) == 2 && TotalWidth([XReg, Imm16]) == 3
    ensures TotalWidth([XReg, Imm32]) == 5 && TotalWidth([XReg, Imm64]) == 9
    ensures TotalWidth([XReg, XReg, Imm8]) == 3 && TotalWidth([XReg, XReg, Imm64]) == 10
    ensures TotalWidth([XReg, Imm8, XReg]) == 3 && TotalWidth([XReg, Imm64, XReg]) == 10
  {
    Two(XReg, PcRelOffset);
    Two(XReg, Imm8);
    Two(XReg, Imm16);
    Two(XReg, Imm32);
    Two(XReg, Imm64);
    Three(XReg, XReg, PcRelOffset);
    Three(XReg, XReg, Imm8);
    Three(XReg, XReg, Imm64);
    Three(XReg, Imm8, XReg);
    Three(XReg, Imm64, XReg);
  }

  lemma One(a: Kind)
    ensures TotalWidth([a]) == Width(a)
  {
    hide Width;
    assert [a][1..] == [];
  }

  lemma Two(a: Kind, b: Kind)
    ensures TotalWidth([a, b]) == Width(a) + Width(b) && TotalWidth([b]) == Width(b)
  {
    hide Width;
    assert [a, b][1..] == [b];
    One(b);
  }

  lemma Three(a: Kind, b: Kind, c: Kind)
    ensures TotalWidth([a, b, c]) == Width(a) + Width(b) + Width(c)
  {
    hide Width;
    assert [a, b, c][1..] == [b, c];
    Two(b, c);
  }

  lemma BranchSizes(code: nat)
    requires code < |BranchOps()|
    ensures TotalWidth(BranchOps()[code]) == OperandSize(code)
  {
    hide TotalWidth;
    MoveWidths();
    WideWidths();
  }

  lemma MoveSizes(code: nat)
    requires code < |MoveOps()|
    ensures TotalWidth(MoveOps()[code]) == OperandSize(code + 11)
  {
    hide TotalWidth;
    MoveWidths();
    WideWidths();
  }

  lemma BinarySizes(code: nat)
    requires code < |BinaryOps()|
    ensures TotalWidth(BinaryOps()[code]) == OperandSize(code + 18)
  {
    hide TotalWidth;
    MoveWidths();
  }

  lemma MemorySizes(code: nat)
    requires code < |MemoryOps()|
    ensures TotalWidth(MemoryOps()[code]) == OperandSize(code + 32)
  {
    hide TotalWidth;
    MoveWidths();
    WideWidths();
  }

  lemma StackSizes(code: nat)
    requires code < |StackOps()|
    ensures TotalWidth(StackOps()[code]) == OperandSize(code + 47)
  {
    hide TotalWidth;
    MoveWidths();
  }

  /** The encoded size of every operation. */
  lemma {:induction false} Sizes(op: Op)
    requires CodeOk(PulleyTable(), op)
    ensures op.Basic? ==> Size(PulleyTable(), op) == 1 + OperandSize(op.code)
    ensures op.Extended? ==> Size(PulleyTable(), op) == if op.code == 2 then 4 else 3
  {
    hide TotalWidth, OperandSize, BranchOps, MoveOps, BinaryOps, MemoryOps, StackOps;
    MoveWidths();
    Lengths();
    if op.Basic? {
      if op.code < 11 { BranchSizes(op.code); }
      else if op.code < 18 { MoveSizes(op.code - 11); }
      else if op.code < 32 { BinarySizes(op.code - 18); }
      else if op.code < 47 { MemorySizes(op.code - 32); }
      else { StackSizes(op.code - 47); }
    }
  }

  lemma Lengths()
    ensures |BranchOps()| == 11 && |MoveOps()| == 7 && |BinaryOps()| == 14 && |MemoryOps()| == 15 && |StackOps()| == 14
  {
  }
}
