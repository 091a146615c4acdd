/** The operands of bytecode operations, and their little-endian encodings. */
module PulleyFields {
  import opened Wrappers
  import opened Bits

  /** The types of operands. */
  datatype Kind = XReg | FReg | VReg | Imm8 | Imm16 | Imm32 | Imm64 | PcRelOffset | BinaryOperands | RegSet

  /** An operand; three registers packed into one word, or a number. */
  datatype Field = Num(kind: Kind, val: int) | Binary(dst: nat, src1: nat, src2: nat)

  const REGISTERS: nat := 32

  function KindOf(f: Field): Kind {
    match f
    case Num(kind, _) => kind
    case Binary(_, _, _) => BinaryOperands
  }

  /** The encoded size in bytes. */
  function Width(k: Kind): (r: nat)
    ensures r > 0
  {
    match k
    case XReg => 1
    case FReg => 1
    case VReg => 1
    case Imm8 => 1
    case Imm16 => 2
    case BinaryOperands => 2
    case Imm32 => 4
    case PcRelOffset => 4
    case RegSet => 4
    case Imm64 => 8
  }

  predicate IsReg(k: Kind) {
    k.XReg? || k.FReg? || k.VReg?
  }

  predicate IsSigned(k: Kind) {
    k.Imm8? || k.Imm16? || k.Imm32? || k.Imm64? || k.PcRelOffset?
  }

  /** The operand is a value of its type. */
  predicate FieldOk(f: Field) {
    match f
    case Binary(dst, src1, src2) => dst < REGISTERS && src1 < REGISTERS && src2 < REGISTERS
    case Num(kind, val) =>
      && !kind.BinaryOperands?
      && (IsReg(kind) ==> 0 <= val < REGISTERS)
      && (IsSigned(kind) ==> 0 - Pow2(8 * Width(kind) - 1) <= val < Pow2(8 * Width(kind) - 1))
      && (kind.RegSet? ==> 0 <= val < Pow2(32))
  }

  // ---- little-endian words ----

  function ToLe(v: nat, n: nat): (r: seq<byte>)
    ensures |r| == n
  {
    if n == 0 then [] else [v % 256] + ToLe(v / 256, n - 1)
  }

  function FromLe(bs: seq<byte>): nat {
    if bs == [] then 0 else bs[0] + 256 * FromLe(bs[1..])
  }

  lemma {:induction false} EightBits(n: nat)
    ensures Pow2(n + 8) == 256 * Pow2(n)
  {
    assert Pow2(n + 8) == 2 * Pow2(n + 7) == 4 * Pow2(n + 6) == 8 * Pow2(n + 5) == 16 * Pow2(n + 4);
    assert Pow2(n + 4) == 2 * Pow2(n + 3) == 4 * Pow2(n + 2) == 8 * Pow2(n + 1) == 16 * Pow2(n);
  }

  lemma {:induction false} FromToLe(v: nat, n: nat)
    requires v < Pow2(8 * n)
    ensures FromLe(ToLe(v, n)) == v
  {
    if n > 0 {
      EightBits(8 * (n - 1));
      FromToLe(v / 256, n - 1);
      assert ToLe(v, n)[1..] == ToLe(v / 256, n - 1);
    }
  }

  lemma {:induction false} ToFromLe(bs: seq<byte>)
    ensures FromLe(bs) < Pow2(8 * |bs|) && ToLe(FromLe(bs), |bs|) == bs
  {
    if bs != [] {
      ToFromLe(bs[1..]);
      EightBits(8 * (|bs| - 1));
      assert FromLe(bs) % 256 == bs[0] && FromLe(bs) / 256 == FromLe(bs[1..]);
    }
  }

  /** Two's complement in `n` bytes. */
  function Wrap(v: int, n: nat): int {
    if v < 0 then v + Pow2(8 * n) else v
  }

  function Unwrap(u: int, n: nat): int
    requires n > 0
  {
    if u >= Pow2(8 * n - 1) then u - Pow2(8 * n) else u
  }

  lemma WrapUnwrap(v: int, n: nat)
    requires n > 0 && 0 - Pow2(8 * n - 1) <= v < Pow2(8 * n - 1)
    ensures 0 <= Wrap(v, n) < Pow2(8 * n) && Unwrap(Wrap(v, n), n) == v
  {
  }

  lemma UnwrapWrap(u: nat, n: nat)
    requires n > 0 && u < Pow2(8 * n)
    ensures 0 - Pow2(8 * n - 1) <= Unwrap(u, n) < Pow2(8 * n - 1) && Wrap(Unwrap(u, n), n) == u
  {
  }

  // ---- packed registers ----

  /** Five bits per register. */
  function ToBits(dst: nat, src1: nat, src2: nat): nat {
    BitOr(BitOr(dst, src1 * 32), src2 * 1024)
  }

  /** The topmost bit is ignored. */
  function FromBits(bits: nat): (r: Field) {
    Binary(BitAnd(bits, 31), BitAnd(bits / 32, 31), BitAnd(bits / 1024, 31))
  }

  /** Words without a common digit: or is plus. */
  lemma {:induction false} OrIsSum(a: nat, b: nat, k: nat)
    requires a < Pow2(k)
    ensures BitOr(a, b * Pow2(k)) == a + b * Pow2(k)
  {
    hide BitOr, Pow2;
    if k == 0 {
      PowZero();
      OrZero(b);
    } else {
      PowHalf(k);
      var half := b * Pow2(k - 1);
      TwiceFactor(b, Pow2(k - 1));
      OrIsSum(a / 2, b, k - 1);
      OrEven(a, half);
    }
  }

  lemma PowZero()
    ensures Pow2(0) == 1
  {
  }

  lemma PowHalf(k: nat)
    requires k > 0
    ensures Pow2(k) == 2 * Pow2(k - 1)
  {
  }

  lemma TwiceFactor(b: nat, p: nat)
    ensures b * (2 * p) == 2 * (b * p)
  {
  }

  lemma OrZero(b: nat)
    ensures BitOr(0, b) == b
  {
  }

  /** The last digit of `a` is all it adds to an even word. */
  lemma OrEven(a: nat, half: nat)
    requires BitOr(a / 2, half) == a / 2 + half
    ensures BitOr(a, 2 * half) == a + 2 * half
  {
  }

  lemma {:induction false} BitsAreSum(dst: nat, src1: nat, src2: nat)
    requires dst < REGISTERS && src1 < REGISTERS && src2 < REGISTERS
    ensures ToBits(dst, src1, src2) == dst + 32 * src1 + 1024 * src2 < Pow2(15)
  {
    assert Pow2(5) == 32 && Pow2(10) == 32 * Pow2(5) && Pow2(15) == 32 * Pow2(10) by { PowTable(); }
    OrIsSum(dst, src1, 5);
    OrIsSum(dst + src1 * 32, src2, 10);
  }

  lemma PowTable()
    ensures Pow2(5) == 32 && Pow2(8) == 256 && Pow2(10) == 1024 && Pow2(15) == 32768 && Pow2(16) == 65536
  {
    assert Pow2(4) == 16 && Pow2(8) == 256;
    assert Pow2(12) == 4096;
  }

  lemma {:induction false} FromBitsSpec(bits: nat)
    ensures FromBits(bits) == Binary(bits % 32, bits / 32 % 32, bits / 1024 % 32) && FieldOk(FromBits(bits))
  {
    PowTable();
    MaskIsRem(bits, 5);
    MaskIsRem(bits / 32, 5);
    MaskIsRem(bits / 1024, 5);
  }

  /** Packing and unpacking: nothing is lost in one direction, and only the topmost bit in the other. */
  lemma {:induction false} UnpackPacked(dst: nat, src1: nat, src2: nat)
    requires dst < REGISTERS && src1 < REGISTERS && src2 < REGISTERS
    ensures FromBits(ToBits(dst, src1, src2)) == Binary(dst, src1, src2)
  {
    hide ToBits, FromBits, Pow2;
    BitsAreSum(dst, src1, src2);
    FromBitsSpec(ToBits(dst, src1, src2));
    Digits(dst, src1, src2);
  }

  lemma Digits(dst: nat, src1: nat, src2: nat)
    requires dst < REGISTERS && src1 < REGISTERS && src2 < REGISTERS
    ensures
      var v := dst + 32 * src1 + 1024 * src2;
      v % 32 == dst && v / 32 % 32 == src1 && v / 1024 % 32 == src2
  {
    var v := dst + 32 * src1 + 1024 * src2;
    assert v / 32 == src1 + 32 * src2;
    assert v / 1024 == src2;
  }

  lemma Regroup(bits: nat)
    ensures bits % 32 + 32 * (bits / 32 % 32) + 1024 * (bits / 1024 % 32) == bits % 32768
  {
    assert bits / 32 / 32 == bits / 1024;
    assert bits / 1024 / 32 == bits / 32768;
  }

  lemma {:induction false} PackUnpacked(bits: nat)
    requires bits < Pow2(16)
    ensures
      var f := FromBits(bits);
      ToBits(f.dst, f.src1, f.src2) == bits % Pow2(15)
  {
    hide ToBits, FromBits, Pow2;
    PowTable();
    FromBitsSpec(bits);
    BitsAreSum(bits % 32, bits / 32 % 32, bits / 1024 % 32);
    Regroup(bits);
  }

  // ---- encoding and decoding one operand ----

  /** The word an operand is encoded as. */
  function Word(f: Field): int {
    match f
    case Binary(dst, src1, src2) => ToBits(dst, src1, src2)
    case Num(kind, val) => if IsSigned(kind) then Wrap(val, Width(kind)) else val
  }

  lemma {:induction false} WordFits(f: Field)
    requires FieldOk(f)
    ensures 0 <= Word(f) < Pow2(8 * Width(KindOf(f)))
  {
    PowTable();
    match f {
      case Binary(dst, src1, src2) => BitsAreSum(dst, src1, src2);
      case Num(kind, val) =>
        if IsSigned(kind) { WrapUnwrap(val, Width(kind)); }
    }
  }

  function EncodeField(f: Field): (r: seq<byte>)
    requires FieldOk(f)
    ensures |r| == Width(KindOf(f))
  {
    WordFits(f);
    ToLe(Word(f), Width(KindOf(f)))
  }

  datatype Error =
    | UnexpectedEof(position: nat)
    | InvalidOpcode(position: nat, code: nat)
    | InvalidExtendedOpcode(position: nat, code: nat)
    | InvalidReg(position: nat, reg: nat)

  datatype Result<+T> = Ok(value: T) | Err(error: Error)

  /** What a word read from the stream means; `after` is the position behind it. */
  function FieldFrom(k: Kind, word: nat, after: nat): Result<Field> {
    if IsReg(k) then (if word < REGISTERS then Ok(Num(k, word)) else Err(InvalidReg(after, word)))
    else if k.BinaryOperands? then Ok(FromBits(word))
    else if IsSigned(k) then Ok(Num(k, Unwrap(word, Width(k))))
    else Ok(Num(k, word))
  }

  function DecodeField(k: Kind, bs: seq<byte>, pos: nat): Result<Field> {
    if |bs| < Width(k) then Err(UnexpectedEof(pos)) else FieldFrom(k, FromLe(bs[..Width(k)]), pos + Width(k))
  }

  /** Decoding an encoded operand returns it, whatever follows. */
  lemma {:induction false} DecodeEncoded(f: Field, rest: seq<byte>, pos: nat)
    requires FieldOk(f)
    ensures DecodeField(KindOf(f), EncodeField(f) + rest, pos) == Ok(f) && |EncodeField(f)| == Width(KindOf(f))
  {
    var k, w := KindOf(f), Width(KindOf(f));
    assert (EncodeField(f) + rest)[..w] == EncodeField(f);
    WordFits(f);
    FromToLe(Word(f), w);
    match f {
      case Binary(dst, src1, src2) => UnpackPacked(dst, src1, src2);
      case Num(kind, val) => if IsSigned(kind) { WrapUnwrap(val, w); }
    }
  }

  /** The encoding with the ignored bit of packed registers cleared. */
  function ClearIgnored(k: Kind, bs: seq<byte>): (r: seq<byte>)
    ensures |r| == |bs|
  {
    if k.BinaryOperands? && |bs| == 2 then [bs[0], bs[1] % 128] else bs
  }

  /** Encoding what has been decoded returns the bytes, but for the ignored bit. */
  lemma {:induction false} EncodeDecoded(k: Kind, bs: seq<byte>, pos: nat)
    requires |bs| >= Width(k) && DecodeField(k, bs, pos).Ok?
    ensures
      var f := DecodeField(k, bs, pos).value;
      FieldOk(f) && KindOf(f) == k && EncodeField(f) == ClearIgnored(k, bs[..Width(k)])
  {
    hide ToLe, FromLe, ToBits, FromBits, Pow2;
    var w, b := Width(k), bs[..Width(k)];
    ToFromLe(b);
    PowTable();
    if k.BinaryOperands? {
      ClearedWord(b);
      FromBitsSpec(FromLe(b));
      PackUnpacked(FromLe(b));
    } else if IsSigned(k) {
      UnwrapWrap(FromLe(b), w);
    }
  }

  // ---- the formats, written out ----

  /** Operands other than packed registers: the encoded size in bytes, and the values from `lo` up to `hi`. */
  predicate Format(k: Kind, n: nat, lo: int, hi: int) {
    match k
    case XReg => n == 1 && lo == 0 && hi == 32
    case FReg => n == 1 && lo == 0 && hi == 32
    case VReg => n == 1 && lo == 0 && hi == 32
    case Imm8 => n == 1 && lo == -0x80 && hi == 0x80
    case Imm16 => n == 2 && lo == -0x8000 && hi == 0x8000
    case Imm32 => n == 4 && lo == -0x8000_0000 && hi == 0x8000_0000
    case PcRelOffset => n == 4 && lo == -0x8000_0000 && hi == 0x8000_0000
    case Imm64 => n == 8 && lo == -0x8000_0000_0000_0000 && hi == 0x8000_0000_0000_0000
    case RegSet => n == 4 && lo == 0 && hi == 0x1_0000_0000
    case BinaryOperands => false
  }

  /** Exactly the values of the format can be encoded, as little-endian two's complement. */
  lemma {:induction false} FieldFormat(k: Kind, v: int, n: nat, lo: int, hi: int, i: nat)
    requires Format(k, n, lo, hi) && i < n
    ensures FieldOk(Num(k, v)) <==> lo <= v < hi
    ensures FieldOk(Num(k, v)) ==>
      |EncodeField(Num(k, v))| == n && EncodeField(Num(k, v))[i] == v % Pow2(8 * n) / Pow2(8 * i) % 256
  {
    hide Pow2, ToLe;
    BoundsAre(k, v, n, lo, hi);
    if lo <= v < hi {
      WordIs(k, v, n, lo, hi);
      LeByte(Word(Num(k, v)), n, i);
    }
  }

  lemma {:induction false} BoundsAre(k: Kind, v: int, n: nat, lo: int, hi: int)
    requires Format(k, n, lo, hi)
    ensures Width(k) == n && (FieldOk(Num(k, v)) <==> lo <= v < hi)
  {
    hide Pow2;
    WordPowers();
  }

  lemma {:induction false} WordIs(k: Kind, v: int, n: nat, lo: int, hi: int)
    requires Format(k, n, lo, hi) && lo <= v < hi
    ensures Word(Num(k, v)) == v % Pow2(8 * n)
  {
    hide Pow2;
    WordPowers();
    PowTable();
    if v < 0 { ModUnique(v, Pow2(8 * n), -1, v + Pow2(8 * n)); } else { ModUnique(v, Pow2(8 * n), 0, v); }
  }

  lemma {:induction false} WordPowers()
    ensures Pow2(7) == 0x80 && Pow2(15) == 0x8000 && Pow2(31) == 0x8000_0000 && Pow2(63) == 0x8000_0000_0000_0000
    ensures Pow2(8) == 0x100 && Pow2(16) == 0x1_0000 && Pow2(32) == 0x1_0000_0000
    ensures Pow2(64) == 0x1_0000_0000_0000_0000
  {
    hide Pow2;
    PowTable();
    PowHalf(8);
    EightBits(7);
    EightBits(15);
    EightBits(23);
    EightBits(31);
    EightBits(39);
    EightBits(47);
    EightBits(55);
    PowHalf(32);
    PowHalf(64);
  }

  lemma {:induction false} LeByte(v: nat, n: nat, i: nat)
    requires i < n
    ensures ToLe(v, n)[i] == v / Pow2(8 * i) % 256
  {
    if i > 0 {
      LeByte(v / 256, n - 1, i - 1);
      EightBits(8 * (i - 1));
      DivDiv(v, 256, Pow2(8 * (i - 1)));
    }
  }

  /** Packed registers: destination lowest, five bits each, in two bytes. */
  lemma {:induction false} PackedFormat(dst: nat, src1: nat, src2: nat)
    requires dst < 32 && src1 < 32 && src2 < 32
    ensures EncodeField(Binary(dst, src1, src2)) == [dst + 32 * (src1 % 8), src1 / 8 + 4 * src2]
  {
    hide ToBits, ToLe, Pow2;
    BitsAreSum(dst, src1, src2);
    var v := dst + 32 * src1 + 1024 * src2;
    ToLeTwo(v);
    PackedDigits(dst, src1, src2, v);
  }

  lemma PackedDigits(dst: nat, src1: nat, src2: nat, v: nat)
    requires dst < 32 && src1 < 32 && src2 < 32 && v == dst + 32 * src1 + 1024 * src2
    ensures v % 256 == dst + 32 * (src1 % 8) && v / 256 % 256 == src1 / 8 + 4 * src2
  {
    var q, r := src1 / 8, src1 % 8;
    assert src1 == 8 * q + r;
    ModUnique(v, 256, q + 4 * src2, dst + 32 * r);
  }

  /** A truncated operand is reported where it starts. A byte that is no register is reported with the position
      behind it. Nothing else fails. */
  lemma FieldErrors(k: Kind, bs: seq<byte>, pos: nat)
    ensures |bs| < Width(k) ==> DecodeField(k, bs, pos) == Err(UnexpectedEof(pos))
    ensures |bs| >= Width(k) && IsReg(k) && bs[0] >= 32 ==> DecodeField(k, bs, pos) == Err(InvalidReg(pos + 1, bs[0]))
    ensures |bs| >= Width(k) && !(IsReg(k) && bs[0] >= 32) ==> DecodeField(k, bs, pos).Ok?
  {
    if |bs| >= Width(k) && IsReg(k) {
      assert bs[..1] == [bs[0]] && [bs[0]][1..] == [];
      assert FromLe([bs[0]]) == bs[0];
    }
  }

  // ---- two-byte words ----

  lemma FromLeTwo(b: seq<byte>)
    requires |b| == 2
    ensures FromLe(b) == (b[0] as int) + 256 * (b[1] as int)
  {
    assert b[1..] == [b[1]] && [b[1]][1..] == [];
    assert FromLe([b[1]]) == b[1];
  }

  lemma ToLeTwo(v: nat)
    ensures ToLe(v, 2) == [v % 256, v / 256 % 256]
  {
    assert ToLe(v, 2) == [v % 256] + ToLe(v / 256, 1);
    assert ToLe(v / 256, 1) == [v / 256 % 256] + ToLe(v / 256 / 256, 0);
  }

  lemma TwoDigits(lo: nat, hi: nat)
    requires lo < 256 && hi < 256
    ensures
      var v := (lo + 256 * hi) % 32768;
      v % 256 == lo && v / 256 % 256 == hi % 128
  {
    var q, h := hi / 128, hi % 128;
    assert hi == 128 * q + h && h < 128;
    var v := lo + 256 * h;
    ModUnique(lo + 256 * hi, 32768, q, v);
    assert v / 256 == h && v % 256 == lo;
  }

  lemma {:induction false} ClearedWord(b: seq<byte>)
    requires |b| == 2
    ensures ToLe(FromLe(b) % Pow2(15), 2) == ClearIgnored(BinaryOperands, b) && FromLe(b) < Pow2(16)
  {
    hide ToLe, FromLe, Pow2;
    PowTable();
    FromLeTwo(b);
    ToLeTwo(FromLe(b) % 32768);
    TwoDigits(b[0], b[1]);
  }
}
