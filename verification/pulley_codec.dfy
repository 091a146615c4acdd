/** Encoding and decoding bytecode, driven by one table of operations. */
module PulleyCodec {
  import opened Wrappers
  import opened PulleyFields

  /** A table of operations: the operand types of the ordinary and of the extended ones, in opcode order. */
  datatype RawTable = RawTable(ops: seq<seq<Kind>>, ext: seq<seq<Kind>>)

  /** Opcodes are bytes, and extended opcodes are 16-bit words. */
  type Table = t: RawTable | |t.ops| < 256 && 0 < |t.ext| <= 65536 witness RawTable([], [[]])

  /** The opcode that announces an extended operation comes right after the ordinary ones. */
  function ExtendedOp(t: Table): (r: nat)
    ensures r < 256
  {
    |t.ops|
  }

  /** An operation with its operands. */
  datatype Op = Basic(code: nat, fields: seq<Field>) | Extended(code: nat, fields: seq<Field>)

  predicate CodeOk(t: Table, op: Op) {
    if op.Basic? then op.code < |t.ops| else op.code < |t.ext|
  }

  /** The operand types of an operation. */
  function Kinds(t: Table, extended: bool, code: nat): seq<Kind>
    requires if extended then code < |t.ext| else code < |t.ops|
  {
    if extended then t.ext[code] else t.ops[code]
  }

  function KindsOf(t: Table, op: Op): seq<Kind> {
    if CodeOk(t, op) then Kinds(t, op.Extended?, op.code) else []
  }

  predicate FieldsOk(fs: seq<Field>, ks: seq<Kind>) {
    |fs| == |ks| && forall i :: 0 <= i < |fs| ==> FieldOk(fs[i]) && KindOf(fs[i]) == ks[i]
  }

  /** An operation of the table with operands of the right types. */
  predicate OpOk(t: Table, op: Op) {
    CodeOk(t, op) && FieldsOk(op.fields, KindsOf(t, op))
  }

  // ---- operand lists ----

  function EncodeFields(fs: seq<Field>): seq<byte>
    requires forall i :: 0 <= i < |fs| ==> FieldOk(fs[i])
  {
    if fs == [] then [] else EncodeField(fs[0]) + EncodeFields(fs[1..])
  }

  function TotalWidth(ks: seq<Kind>): nat {
    if ks == [] then 0 else Width(ks[0]) + TotalWidth(ks[1..])
  }

  function DecodeFields(ks: seq<Kind>, bs: seq<byte>, pos: nat): Result<seq<Field>> {
    if ks == [] then Ok([])
    else
      match DecodeField(ks[0], bs, pos)
      case Err(e) => Err(e)
      case Ok(f) =>
        if |bs| < Width(ks[0]) then Err(UnexpectedEof(pos))
        else
          match DecodeFields(ks[1..], bs[Width(ks[0])..], pos + Width(ks[0]))
          case Err(e) => Err(e)
          case Ok(fs) => Ok([f] + fs)
  }

  /** The operand bytes with the ignored bits cleared. */
  function ClearFields(ks: seq<Kind>, bs: seq<byte>): (r: seq<byte>)
    requires |bs| >= TotalWidth(ks)
    ensures |r| == |bs|
  {
    if ks == [] then bs else ClearIgnored(ks[0], bs[..Width(ks[0])]) + ClearFields(ks[1..], bs[Width(ks[0])..])
  }

  lemma {:induction false} FieldsRoundTrip(fs: seq<Field>, ks: seq<Kind>, rest: seq<byte>, pos: nat)
    requires FieldsOk(fs, ks)
    ensures DecodeFields(ks, EncodeFields(fs) + rest, pos) == Ok(fs) && |EncodeFields(fs)| == TotalWidth(ks)
  {
    hide DecodeField, EncodeField, Width, FieldOk, KindOf;
    if fs != [] {
      var bs, tail := EncodeFields(fs) + rest, EncodeFields(fs[1..]) + rest;
      assert bs == EncodeField(fs[0]) + tail;
      DecodeEncoded(fs[0], tail, pos);
      assert bs[Width(ks[0])..] == tail;
      FieldsRoundTrip(fs[1..], ks[1..], rest, pos + Width(ks[0]));
      assert fs == [fs[0]] + fs[1..];
    }
  }

  lemma NoFields(bs: seq<byte>, pos: nat)
    ensures FieldsOk([], []) && EncodeFields([]) == [] && DecodeFields([], bs, pos) == Ok([])
    ensures TotalWidth([]) == 0 && [] + bs[0..] == ClearFields([], bs)
  {
  }

  lemma DecodeSplits(ks: seq<Kind>, bs: seq<byte>, pos: nat)
    requires ks != [] && DecodeFields(ks, bs, pos).Ok?
    ensures
      var w := Width(ks[0]);
      && w <= |bs| && DecodeField(ks[0], bs, pos).Ok? && DecodeFields(ks[1..], bs[w..], pos + w).Ok?
      && DecodeFields(ks, bs, pos).value ==
         [DecodeField(ks[0], bs, pos).value] + DecodeFields(ks[1..], bs[w..], pos + w).value
  {
    hide DecodeField, Width;
  }

  lemma EncodeCons(f: Field, fs: seq<Field>, ks: seq<Kind>)
    requires ks != [] && FieldOk(f) && KindOf(f) == ks[0] && FieldsOk(fs, ks[1..])
    ensures FieldsOk([f] + fs, ks) && EncodeFields([f] + fs) == EncodeField(f) + EncodeFields(fs)
  {
    hide EncodeField, FieldOk, KindOf;
    assert ([f] + fs)[1..] == fs;
  }

  lemma ClearCons(ks: seq<Kind>, bs: seq<byte>)
    requires ks != [] && TotalWidth(ks) <= |bs|
    ensures
      var w := Width(ks[0]);
      ClearFields(ks, bs) == ClearIgnored(ks[0], bs[..w]) + ClearFields(ks[1..], bs[w..])
  {
  }

  lemma {:induction false} FieldsReencode(ks: seq<Kind>, bs: seq<byte>, pos: nat)
    requires DecodeFields(ks, bs, pos).Ok?
    ensures |bs| >= TotalWidth(ks) && FieldsOk(DecodeFields(ks, bs, pos).value, ks)
    ensures EncodeFields(DecodeFields(ks, bs, pos).value) + bs[TotalWidth(ks)..] == ClearFields(ks, bs)
  {
    hide DecodeField, EncodeField, Width, FieldOk, KindOf, ClearIgnored, EncodeFields, DecodeFields, ClearFields;
    if ks == [] {
      NoFields(bs, pos);
    } else {
      var w := Width(ks[0]);
      DecodeSplits(ks, bs, pos);
      EncodeDecoded(ks[0], bs, pos);
      FieldsReencode(ks[1..], bs[w..], pos + w);
      var f, fs := DecodeField(ks[0], bs, pos).value, DecodeFields(ks[1..], bs[w..], pos + w).value;
      EncodeCons(f, fs, ks);
      ClearCons(ks, bs);
      var rest := bs[TotalWidth(ks)..];
      assert bs[w..][TotalWidth(ks[1..])..] == rest;
      assert EncodeField(f) + EncodeFields(fs) + rest == EncodeField(f) + (EncodeFields(fs) + rest);
    }
  }

  // ---- operations ----

  function Header(t: Table, op: Op): (r: seq<byte>)
    requires CodeOk(t, op)
    ensures |r| == if op.Extended? then 3 else 1
  {
    if op.Extended? then [ExtendedOp(t)] + ToLe(op.code, 2) else [op.code]
  }

  function Encode(t: Table, op: Op): (r: seq<byte>)
    requires OpOk(t, op)
    ensures |r| > 0
  {
    Header(t, op) + EncodeFields(op.fields)
  }

  /** The encoded size of an operation. */
  function Size(t: Table, op: Op): (r: nat)
    ensures r > 0
  {
    (if op.Extended? then 3 else 1) + TotalWidth(KindsOf(t, op))
  }

  function DecodeBody(t: Table, extended: bool, code: nat, bs: seq<byte>, pos: nat): Result<Op>
    requires if extended then code < |t.ext| else code < |t.ops|
  {
    match DecodeFields(Kinds(t, extended, code), bs, pos)
    case Err(e) => Err(e)
    case Ok(fs) => Ok(if extended then Extended(code, fs) else Basic(code, fs))
  }

  /** Decodes the operation at the start of `bs`, which is at position `pos` of the whole stream. */
  function DecodeOne(t: Table, bs: seq<byte>, pos: nat): Result<Op> {
    if |bs| < 1 then Err(UnexpectedEof(pos))
    else if bs[0] > ExtendedOp(t) then Err(InvalidOpcode(pos, bs[0]))
    else if bs[0] < ExtendedOp(t) then DecodeBody(t, false, bs[0], bs[1..], pos + 1)
    else if |bs| < 3 then Err(UnexpectedEof(pos + 1))
    else
      var code := FromLe(bs[1..3]);
      if code >= |t.ext| then Err(InvalidExtendedOpcode(pos + 3, code)) else DecodeBody(t, true, code, bs[3..], pos + 3)
  }

  lemma CodeBytes(code: nat)
    ensures |ToLe(code, 2)| == 2 && (code < 65536 ==> FromLe(ToLe(code, 2)) == code)
  {
    PowTable();
    if code < 65536 { FromToLe(code, 2); }
  }

  /** Decoding an encoded operation returns it, whatever follows. */
  lemma {:induction false} OneRoundTrip(t: Table, op: Op, rest: seq<byte>, pos: nat)
    requires OpOk(t, op)
    ensures DecodeOne(t, Encode(t, op) + rest, pos) == Ok(op) && |Encode(t, op)| == Size(t, op)
  {
    hide Kinds, DecodeFields, EncodeFields, FieldOk, FromLe, TotalWidth, ToLe, KindOf;
    var bs, body := Encode(t, op) + rest, EncodeFields(op.fields) + rest;
    CodeBytes(op.code);
    var ks := KindsOf(t, op);
    if op.Extended? {
      assert bs[1..3] == ToLe(op.code, 2) && bs[3..] == body;
      FieldsRoundTrip(op.fields, ks, rest, pos + 3);
    } else {
      assert bs[1..] == body;
      FieldsRoundTrip(op.fields, ks, rest, pos + 1);
    }
  }

  /** The opcode comes first; an extended operation is announced by the opcode behind the ordinary ones and has its
      own opcode in two bytes, low byte first. */
  lemma {:induction false} OpcodeBytes(t: Table, op: Op)
    requires OpOk(t, op)
    ensures op.Basic? ==> Encode(t, op)[0] == op.code
    ensures op.Extended? ==> |Encode(t, op)| >= 3 && Encode(t, op)[..3] == [|t.ops|, op.code % 256, op.code / 256]
  {
    hide ToLe, EncodeFields, FieldOk, Kinds, KindOf;
    CodeBytes(op.code);
    ToLeTwo(op.code);
  }

  /** The operands follow the opcode one after another, in order. */
  lemma {:induction false} OperandBytes(t: Table, op: Op, j: nat)
    requires OpOk(t, op) && j < |op.fields|
    ensures
      var start := (if op.Basic? then 1 else 3) + TotalWidth(KindsOf(t, op)[..j]);
      && start + |EncodeField(op.fields[j])| <= |Encode(t, op)|
      && Encode(t, op)[start..start + |EncodeField(op.fields[j])|] == EncodeField(op.fields[j])
  {
    hide EncodeField, EncodeFields, FieldOk, Kinds, KindOf, TotalWidth, ToLe;
    var w := TotalWidth(KindsOf(t, op)[..j]);
    FieldsInOrder(op.fields, KindsOf(t, op), j);
    var bs, h := EncodeFields(op.fields), |Header(t, op)|;
    var n := |EncodeField(op.fields[j])|;
    assert Encode(t, op)[h + w..h + w + n] == bs[w..w + n];
  }

  lemma {:induction false} FieldsInOrder(fs: seq<Field>, ks: seq<Kind>, j: nat)
    requires FieldsOk(fs, ks) && j < |fs|
    ensures
      var start := TotalWidth(ks[..j]);
      && start + |EncodeField(fs[j])| <= |EncodeFields(fs)|
      && EncodeFields(fs)[start..start + |EncodeField(fs[j])|] == EncodeField(fs[j])
  {
    hide EncodeField, FieldOk, Width, KindOf;
    if j > 0 {
      FieldsInOrder(fs[1..], ks[1..], j - 1);
      assert ks[..j][1..] == ks[1..][..j - 1];
      EncodedWidth(fs[0]);
      var w, start := Width(ks[0]), TotalWidth(ks[1..][..j - 1]);
      var n := |EncodeField(fs[j])|;
      assert EncodeFields(fs)[w + start..w + start + n] == EncodeFields(fs[1..])[start..start + n];
    }
  }

  lemma EncodedWidth(f: Field)
    requires FieldOk(f)
    ensures |EncodeField(f)| == Width(KindOf(f))
  {
  }

  /** Why decoding fails, and where: at the opcode, behind it, or in the operands. */
  lemma {:induction false} DecodeErrors(t: Table, bs: seq<byte>, pos: nat)
    ensures |bs| == 0 ==> DecodeOne(t, bs, pos) == Err(UnexpectedEof(pos))
    ensures |bs| > 0 && bs[0] > |t.ops| ==> DecodeOne(t, bs, pos) == Err(InvalidOpcode(pos, bs[0]))
    ensures 0 < |bs| < 3 && bs[0] == |t.ops| ==> DecodeOne(t, bs, pos) == Err(UnexpectedEof(pos + 1))
    ensures |bs| >= 3 && bs[0] == |t.ops| ==>
      var code := (bs[1] as int) + 256 * (bs[2] as int);
      && (code >= |t.ext| ==> DecodeOne(t, bs, pos) == Err(InvalidExtendedOpcode(pos + 3, code)))
      && (code < |t.ext| && DecodeFields(t.ext[code], bs[3..], pos + 3).Err? ==>
          DecodeOne(t, bs, pos) == Err(DecodeFields(t.ext[code], bs[3..], pos + 3).error))
    ensures |bs| > 0 && bs[0] < |t.ops| && DecodeFields(t.ops[bs[0]], bs[1..], pos + 1).Err? ==>
      DecodeOne(t, bs, pos) == Err(DecodeFields(t.ops[bs[0]], bs[1..], pos + 1).error)
  {
    hide FromLe, DecodeFields;
    if |bs| >= 3 { FromLeTwo(bs[1..3]); }
  }

  /** When an operand is to blame, it is the first bad one, and its error is reported. */
  lemma {:induction false} OperandErrors(ks: seq<Kind>, bs: seq<byte>, pos: nat) returns (j: nat)
    requires DecodeFields(ks, bs, pos).Err?
    ensures j < |ks|
    ensures
      var start := TotalWidth(ks[..j]);
      && start <= |bs| && DecodeFields(ks[..j], bs, pos).Ok?
      && DecodeField(ks[j], bs[start..], pos + start) == Err(DecodeFields(ks, bs, pos).error)
  {
    hide DecodeField, Width;
    if DecodeField(ks[0], bs, pos).Err? {
      j := 0;
      assert bs[0..] == bs;
    } else {
      var w := Width(ks[0]);
      FieldFits(ks[0], bs, pos);
      var i := OperandErrors(ks[1..], bs[w..], pos + w);
      j := i + 1;
      assert ks[..j][1..] == ks[1..][..i];
      assert bs[w..][TotalWidth(ks[1..][..i])..] == bs[TotalWidth(ks[..j])..];
    }
  }

  lemma FieldFits(k: Kind, bs: seq<byte>, pos: nat)
    requires DecodeField(k, bs, pos).Ok?
    ensures Width(k) <= |bs|
  {
  }

  /** The bytes of an operation with the ignored bits cleared. */
  function ClearOp(t: Table, op: Op, bs: seq<byte>): (r: seq<byte>)
    requires |bs| >= Size(t, op)
    ensures |r| == |bs|
  {
    var h := if op.Extended? then 3 else 1;
    bs[..h] + ClearFields(KindsOf(t, op), bs[h..])
  }

  /** Encoding a decoded operation returns its bytes, but for the ignored bits. */
  lemma {:induction false} OneReencode(t: Table, bs: seq<byte>, pos: nat)
    requires DecodeOne(t, bs, pos).Ok?
    ensures
      var op := DecodeOne(t, bs, pos).value;
      && OpOk(t, op) && 0 < Size(t, op) <= |bs| && |Encode(t, op)| == Size(t, op)
      && Encode(t, op) + bs[Size(t, op)..] == ClearOp(t, op, bs)
  {
    hide Kinds, DecodeFields, EncodeFields, FieldOk, FromLe, TotalWidth, ToLe, ClearFields, KindOf;
    var op := DecodeOne(t, bs, pos).value;
    var h := if op.Extended? then 3 else 1;
    var ks := KindsOf(t, op);
    FieldsReencode(ks, bs[h..], pos + h);
    FieldsRoundTrip(op.fields, ks, [], 0);
    if op.Extended? {
      ToFromLe(bs[1..3]);
      assert bs[..3] == [bs[0]] + bs[1..3];
    } else {
      assert bs[..1] == [bs[0]];
    }
    assert bs[h..][TotalWidth(ks)..] == bs[Size(t, op)..];
  }

  lemma {:induction false} OneFits(t: Table, bs: seq<byte>, pos: nat)
    requires DecodeOne(t, bs, pos).Ok?
    ensures 0 < Size(t, DecodeOne(t, bs, pos).value) <= |bs|
  {
    hide DecodeOne, Size, OpOk, Encode, ClearOp;
    OneReencode(t, bs, pos);
  }

  // ---- whole streams ----

  function EncodeAll(t: Table, ops: seq<Op>): seq<byte>
    requires forall i :: 0 <= i < |ops| ==> OpOk(t, ops[i])
  {
    if ops == [] then [] else Encode(t, ops[0]) + EncodeAll(t, ops[1..])
  }

  function DecodeAll(t: Table, bs: seq<byte>, pos: nat): Result<seq<Op>>
    decreases |bs|
  {
    if bs == [] then Ok([])
    else
      match DecodeOne(t, bs, pos)
      case Err(e) => Err(e)
      case Ok(op) =>
        OneFits(t, bs, pos);
        match DecodeAll(t, bs[Size(t, op)..], pos + Size(t, op))
        case Err(e) => Err(e)
        case Ok(ops) => Ok([op] + ops)
  }

  /** Decoding the encoding of any list of operations returns that list. */
  lemma {:induction false} RoundTrip(t: Table, ops: seq<Op>, pos: nat)
    requires forall i :: 0 <= i < |ops| ==> OpOk(t, ops[i])
    ensures DecodeAll(t, EncodeAll(t, ops), pos) == Ok(ops)
  {
    hide OpOk, Encode, DecodeOne, Size;
    if ops != [] {
      var bs := EncodeAll(t, ops);
      OneRoundTrip(t, ops[0], EncodeAll(t, ops[1..]), pos);
      assert bs[Size(t, ops[0])..] == EncodeAll(t, ops[1..]);
      RoundTrip(t, ops[1..], pos + Size(t, ops[0]));
      assert ops == [ops[0]] + ops[1..];
    }
  }

  /** The bytes of the first operation with the ignored bits cleared. */
  function ClearFirst(t: Table, bs: seq<byte>, pos: nat): (r: seq<byte>)
    requires DecodeOne(t, bs, pos).Ok?
    ensures 0 < |r| == Size(t, DecodeOne(t, bs, pos).value) <= |bs|
  {
    OneFits(t, bs, pos);
    ClearOp(t, DecodeOne(t, bs, pos).value, bs)[..Size(t, DecodeOne(t, bs, pos).value)]
  }

  lemma DecodesOn(t: Table, bs: seq<byte>, pos: nat)
    requires DecodeAll(t, bs, pos).Ok? && bs != []
    ensures DecodeOne(t, bs, pos).Ok?
    ensures
      var op := DecodeOne(t, bs, pos).value;
      && 0 < Size(t, op) <= |bs| && DecodeAll(t, bs[Size(t, op)..], pos + Size(t, op)).Ok?
      && DecodeAll(t, bs, pos).value == [op] + DecodeAll(t, bs[Size(t, op)..], pos + Size(t, op)).value
  {
    hide DecodeOne, Size;
    if DecodeOne(t, bs, pos).Ok? { OneFits(t, bs, pos); }
  }

  /** A decodable stream with the ignored bits of packed registers cleared. */
  function ClearAll(t: Table, bs: seq<byte>, pos: nat): seq<byte>
    requires DecodeAll(t, bs, pos).Ok?
    decreases |bs|
  {
    if bs == [] then []
    else
      hide *;
      DecodesOn(t, bs, pos);
      var n := Size(t, DecodeOne(t, bs, pos).value);
      ClearFirst(t, bs, pos) + ClearAll(t, bs[n..], pos + n)
  }

  lemma {:induction false} ClearedLength(t: Table, bs: seq<byte>, pos: nat)
    requires DecodeAll(t, bs, pos).Ok?
    ensures |ClearAll(t, bs, pos)| == |bs|
    decreases |bs|
  {
    hide DecodeOne, DecodeAll, Size, ClearOp, OpOk;
    if bs != [] {
      DecodesOn(t, bs, pos);
      var n := Size(t, DecodeOne(t, bs, pos).value);
      ClearedLength(t, bs[n..], pos + n);
    }
  }

  /** Whatever can be decoded is re-encoded to the same bytes, but for the ignored bits. */
  lemma {:induction false} Reencode(t: Table, bs: seq<byte>, pos: nat)
    requires DecodeAll(t, bs, pos).Ok?
    ensures
      var ops := DecodeAll(t, bs, pos).value;
      (forall i :: 0 <= i < |ops| ==> OpOk(t, ops[i])) && EncodeAll(t, ops) == ClearAll(t, bs, pos)
    decreases |bs|
  {
    hide OpOk, Encode, DecodeOne, Size, ClearOp, CodeOk;
    if bs != [] {
      OneReencode(t, bs, pos);
      var op := DecodeOne(t, bs, pos).value;
      var n := Size(t, op);
      DecodesOn(t, bs, pos);
      Reencode(t, bs[n..], pos + n);
      var ops := DecodeAll(t, bs, pos).value;
      assert ops[1..] == DecodeAll(t, bs[n..], pos + n).value;
      assert ClearOp(t, op, bs)[..n] == Encode(t, op);
    }
  }

  /** A byte, or a byte with its topmost bit cleared. */
  predicate SameButTop(a: byte, b: byte) {
    a == b || (a >= 128 && b == a - 128)
  }

  lemma {:induction false} ClearedFields(ks: seq<Kind>, bs: seq<byte>, i: nat)
    requires |bs| >= TotalWidth(ks) && i < |bs|
    ensures SameButTop(bs[i], ClearFields(ks, bs)[i])
  {
    if ks != [] {
      var w := Width(ks[0]);
      if i >= w {
        ClearedFields(ks[1..], bs[w..], i - w);
      } else {
        assert bs[..w][i] == bs[i];
      }
    }
  }

  /** Clearing changes nothing but topmost bits of bytes. */
  lemma {:induction false} ClearedOnlyTops(t: Table, bs: seq<byte>, pos: nat, i: nat)
    requires DecodeAll(t, bs, pos).Ok? && i < |bs|
    ensures |ClearAll(t, bs, pos)| == |bs| && SameButTop(bs[i], ClearAll(t, bs, pos)[i])
    decreases |bs|
  {
    hide DecodeOne, DecodeAll, Size, ClearOp;
    ClearedLength(t, bs, pos);
    DecodesOn(t, bs, pos);
    var op := DecodeOne(t, bs, pos).value;
    var n := Size(t, op);
    if i >= n {
      ClearedOnlyTops(t, bs[n..], pos + n, i - n);
    } else {
      ClearedOp(t, op, bs, i);
    }
  }

  lemma {:induction false} ClearedOp(t: Table, op: Op, bs: seq<byte>, i: nat)
    requires |bs| >= Size(t, op) && i < |bs|
    ensures SameButTop(bs[i], ClearOp(t, op, bs)[i])
  {
    hide KindsOf, TotalWidth, ClearFields;
    var h := if op.Extended? then 3 else 1;
    if i >= h { ClearedFields(KindsOf(t, op), bs[h..], i - h); }
  }

  // ---- the stream and the decoder ----

  class SafeBytecodeStream {
    var bytecode: seq<byte>
    var position: nat

    constructor (bytecode: seq<byte>)
      ensures this.bytecode == bytecode && position == 0
    {
      this.bytecode, position := bytecode, 0;
    }

    /** Takes the next `n` bytes off the stream; at the end of the stream, nothing is taken. */
    method Read(n: nat) returns (r: Result<seq<byte>>)
      modifies this
      ensures r.Ok? <==> n <= |old(bytecode)|
      ensures r.Ok? ==> r.value == old(bytecode[..n]) && bytecode == old(bytecode[n..]) && position == old(position) + n
      ensures r.Err? ==> r.error == UnexpectedEof(position) && bytecode == old(bytecode) && position == old(position)
    {
      if |bytecode| < n { return Err(UnexpectedEof(position)); }
      r := Ok(bytecode[..n]);
      bytecode, position := bytecode[n..], position + n;
    }

    method ReadField(k: Kind) returns (r: Result<Field>)
      modifies this
      ensures r == DecodeField(k, old(bytecode), old(position))
      ensures r.Ok? ==>
        Width(k) <= |old(bytecode)| && bytecode == old(bytecode[Width(k)..]) && position == old(position) + Width(k)
    {
      var b := Read(Width(k));
      if b.Err? { return Err(b.error); }
      return FieldFrom(k, FromLe(b.value), position);
    }

    method ReadFields(ks: seq<Kind>) returns (r: Result<seq<Field>>)
      modifies this
      ensures r == DecodeFields(ks, old(bytecode), old(position))
      ensures r.Ok? ==>
        TotalWidth(ks) <= |old(bytecode)| && bytecode == old(bytecode[TotalWidth(ks)..]) &&
        position == old(position) + TotalWidth(ks)
      decreases |ks|
    {
      if ks == [] { return Ok([]); }
      ghost var bs, pos := bytecode, position;
      var f := ReadField(ks[0]);
      if f.Err? { return Err(f.error); }
      var fs := ReadFields(ks[1..]);
      if fs.Err? { return fs; }
      assert bs[Width(ks[0])..][TotalWidth(ks[1..])..] == bs[TotalWidth(ks)..];
      return Ok([f.value] + fs.value);
    }

    /** Decodes one operation and leaves the stream behind it. */
    method DecodeOp(t: Table) returns (r: Result<Op>)
      modifies this
      ensures r == DecodeOne(t, old(bytecode), old(position))
      ensures r.Ok? ==>
        Size(t, r.value) <= |old(bytecode)| && bytecode == old(bytecode[Size(t, r.value)..]) &&
        position == old(position) + Size(t, r.value)
    {
      hide Kinds, DecodeFields, TotalWidth, FromLe;
      ghost var bs := bytecode;
      var b := Read(1);
      if b.Err? { return Err(b.error); }
      var code := b.value[0];
      if code > ExtendedOp(t) { return Err(InvalidOpcode(position - 1, code)); }
      if code < ExtendedOp(t) {
        var fs := ReadFields(Kinds(t, false, code));
        if fs.Err? { return Err(fs.error); }
        assert bs[1..][TotalWidth(Kinds(t, false, code))..] == bs[1 + TotalWidth(Kinds(t, false, code))..];
        return Ok(Basic(code, fs.value));
      }
      b := Read(2);
      if b.Err? { return Err(b.error); }
      assert bs[1..][..2] == bs[1..3] && bs[1..][2..] == bs[3..];
      var ext := FromLe(b.value);
      if ext >= |t.ext| { return Err(InvalidExtendedOpcode(position, ext)); }
      var fs := ReadFields(Kinds(t, true, ext));
      if fs.Err? { return Err(fs.error); }
      assert bs[3..][TotalWidth(Kinds(t, true, ext))..] == bs[3 + TotalWidth(Kinds(t, true, ext))..];
      return Ok(Extended(ext, fs.value));
    }

    /** Decodes the rest of the stream. */
    method DecodeRest(t: Table) returns (r: Result<seq<Op>>)
      modifies this
      ensures r == DecodeAll(t, old(bytecode), old(position))
    {
      hide DecodeOne, Size, CodeOk;
      ghost var bs, pos := bytecode, position;
      var ops: seq<Op> := [];
      NothingPrepended(DecodeAll(t, bs, pos));
      while bytecode != []
        invariant DecodeAll(t, bs, pos) == Prepend(ops, DecodeAll(t, bytecode, position))
        decreases |bytecode|
      {
        OneMore(t, ops, bytecode, position);
        var op := DecodeOp(t);
        if op.Err? { return Err(op.error); }
        ops := ops + [op.value];
      }
      assert ops + [] == ops;
      return Ok(ops);
    }
  }

  function Prepend(ops: seq<Op>, r: Result<seq<Op>>): Result<seq<Op>> {
    match r
    case Err(e) => Err(e)
    case Ok(rest) => Ok(ops + rest)
  }

  lemma NothingPrepended(r: Result<seq<Op>>)
    ensures Prepend([], r) == r
  {
    if r.Ok? { assert [] + r.value == r.value; }
  }

  lemma {:induction false} OneMore(t: Table, ops: seq<Op>, bs: seq<byte>, pos: nat)
    requires bs != []
    ensures
      match DecodeOne(t, bs, pos)
      case Err(e) => Prepend(ops, DecodeAll(t, bs, pos)) == Err(e)
      case Ok(op) =>
        && 0 < Size(t, op) <= |bs|
        && Prepend(ops, DecodeAll(t, bs, pos)) ==
          Prepend(ops + [op], DecodeAll(t, bs[Size(t, op)..], pos + Size(t, op)))
  {
    hide DecodeOne, Size, CodeOk, OpOk;
    if DecodeOne(t, bs, pos).Ok? {
      OneReencode(t, bs, pos);
      var op := DecodeOne(t, bs, pos).value;
      var rest := DecodeAll(t, bs[Size(t, op)..], pos + Size(t, op));
      if rest.Ok? { assert ops + ([op] + rest.value) == (ops + [op]) + rest.value; }
    }
  }

  // ---- the encoder ----

  class Sink {
    var bytes: seq<byte>

    constructor ()
      ensures bytes == []
    {
      bytes := [];
    }

    /** Appends the encoding of one operation, byte by byte and operand by operand. */
    method Put(t: Table, op: Op)
      requires OpOk(t, op)
      modifies this
      ensures bytes == old(bytes) + Encode(t, op)
    {
      hide Header, EncodeField, EncodeFields, FieldOk, Kinds, KindOf;
      ghost var before := bytes;
      bytes := bytes + Header(t, op);
      assert op.fields[0..] == op.fields;
      for i := 0 to |op.fields|
        invariant bytes + EncodeFields(op.fields[i..]) == before + Encode(t, op)
      {
        EncodeNext(op.fields, i);
        bytes := bytes + EncodeField(op.fields[i]);
      }
      EncodeEnd(op.fields);
    }
  }

  lemma EncodeNext(fs: seq<Field>, i: nat)
    requires i < |fs| && forall j :: 0 <= j < |fs| ==> FieldOk(fs[j])
    ensures EncodeFields(fs[i..]) == EncodeField(fs[i]) + EncodeFields(fs[i + 1..])
  {
    assert fs[i..][0] == fs[i] && fs[i..][1..] == fs[i + 1..];
  }

  lemma EncodeEnd(fs: seq<Field>)
    ensures EncodeFields(fs[|fs|..]) == []
  {
  }
}
