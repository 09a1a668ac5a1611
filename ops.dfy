/** Bit-field codec of the register-machine instruction encoding.

    A 32-bit instruction word carries a 6-bit opcode in its top bits and
    5-bit register fields and sign-extended 12-bit immediates at bit
    offsets counted from the most significant end.  Everything here is a
    pure shift/mask/OR expression on bit-vectors.

    The opcode and register enumerations that ops.go refers to are not
    defined in the files of this model: their bounds `OpNull` and `RegNull`
    and the individual opcodes are left as constants with unknown values,
    constrained only by the field widths (at most 64 opcodes, at most 32
    registers).  Every property below therefore holds whatever those
    values are. */
module Ops {

  /** An instruction word (Go `word`, a `uint32`). */
  type Word = bv32
  /** A bit offset (Go `uint`, 64 bits wide, wrapping on subtraction). */
  type Offset = bv64
  /** An opcode or register index; the underlying Go types are not shown,
      they are taken as 8-bit unsigned integers. */
  type Opcode = bv8
  type Regist = bv8
  /** A 12-bit immediate, held in a Go `int16`: this is its
      two's-complement bit pattern, `Signed16` gives its value. */
  type Imm12 = bv16

  const PackWordLen: Offset := 32
  const PackOpLen: Offset := 6
  const PackOpMask: Word := 0x3F
  const PackOpShift: Offset := PackWordLen - PackOpLen
  const PackRegLen: Offset := 5
  const PackRegMask: Word := 0x1F
  const PackImm12Len: Offset := 12
  const PackImm12Mask: Word := 0xFFF

  type OpBound = n: Opcode | n <= 64
  type RegBound = n: Regist | n <= 32

  /** Sentinel opcode and register bound; their values are not part of the model. */
  const OpNull: OpBound
  const RegNull: RegBound

  const OpHlt: Opcode
  const OpPut: Opcode
  const OpAdd: Opcode
  const OpMlt: Opcode
  const OpAddi: Opcode
  const OpSlti: Opcode
  const OpJmp: Opcode
  const OpBne: Opcode
  const OpFoo: Opcode

  /** The value of an `int16` bit pattern. */
  function Signed16(b: bv16): (v: int)
    ensures -0x8000 <= v < 0x8000
    ensures v >= 0 <==> b < 0x8000
  {
    if b < 0x8000 then b as int else b as int - 0x10000
  }

  /** Go shifts: a shift count of 32 or more yields zero. */
  function Shl(x: Word, k: Offset): Word
  {
    if k < 32 then x << (k as bv32) else 0
  }

  function Shr(x: Word, k: Offset): Word
  {
    if k < 32 then x >> (k as bv32) else 0
  }

  /** Shift that places a `width`-bit field whose most significant bit is
      `at` bits below the top of the word: `(PackWordLen - at) - width`,
      computed in wrapping 64-bit arithmetic as Go's `uint` does. */
  function FieldShift(at: Offset, width: Offset): Offset
  {
    (PackWordLen - at) - width
  }

  /** The bits of a register field and of an immediate field at `at`. */
  function RegField(at: Offset): Word
  {
    Shl(PackRegMask, FieldShift(at, PackRegLen))
  }

  function Imm12Field(at: Offset): Word
  {
    Shl(PackImm12Mask, FieldShift(at, PackImm12Len))
  }

  // ---------------------------------------------------------------------
  // Opcode field

  function PackOp(op: Opcode): (w: Word)
    requires op < OpNull
    ensures UnpackOp(w) == op
    ensures w & 0x3FF_FFFF == 0
  {
    (op as Word) << (PackOpShift as bv32)
  }

  function UnpackOp(from: Word): (op: Opcode)
    ensures op <= 0x3F
  {
    (((from >> (PackOpShift as bv32)) & PackOpMask) as bv8)
  }

  // ---------------------------------------------------------------------
  // Register field

  function PackReg(into: Word, at: Offset, reg: Regist): Word
    requires reg < RegNull
  {
    into | Shl(reg as Word, FieldShift(at, PackRegLen))
  }

  function UnpackReg(from: Word, at: Offset): Regist
  {
    (Shr(from, FieldShift(at, PackRegLen)) & PackRegMask) as bv8
  }

  // ---------------------------------------------------------------------
  // 12-bit immediate field

  /** `word(uint16(n)) & PackImm12Mask`: the low 12 bits of `n`. */
  function Imm12Bits(n: Imm12): Word
  {
    (n as Word) & PackImm12Mask
  }

  function PackImm12(into: Word, at: Offset, n: Imm12): Word
  {
    into | Shl(Imm12Bits(n), FieldShift(at, PackImm12Len))
  }

  /** The raw 12 bits of the immediate field at `at`. */
  function Imm12FieldValue(from: Word, at: Offset): Word
  {
    Shr(from, FieldShift(at, PackImm12Len)) & PackImm12Mask
  }

  /** Copies bit 11 of a 12-bit field value into bits 12..15 and keeps
      the low 16 bits, as `imm12(ui)` does. */
  function SignExtend12(ui: Word): Imm12
    requires ui <= PackImm12Mask
  {
    var ext := if ui >> 11 == 1 then ui | (0xF << 12) else ui;
    ext as bv16
  }

  function UnpackImm12(from: Word, at: Offset): Imm12
  {
    SignExtend12(Imm12FieldValue(from, at))
  }

  /** The `int16` values a 12-bit field can hold: [-2048, 2047]. */
  predicate FitsImm12(n: Imm12)
  {
    n <= 0x7FF || n >= 0xF800
  }

  // ---------------------------------------------------------------------
  // Per-instruction builders and readers

  function MakeHlt(): Word
    requires OpHlt < OpNull
  {
    PackOp(OpHlt)
  }

  function MakePut(val: Regist, bas: Regist, at: Regist): Word
    requires OpPut < OpNull && val < RegNull && bas < RegNull && at < RegNull
  {
    var i := PackOp(OpPut);
    var i := PackReg(i, 8, val);
    var i := PackReg(i, 16, bas);
    PackReg(i, 24, at)
  }

  function ReadPut(op: Word): (Regist, Regist, Regist)
  {
    (UnpackReg(op, 8), UnpackReg(op, 16), UnpackReg(op, 24))
  }

  /** As written, `makeGet` packs `OpPut`, not a get opcode. */
  function MakeGet(val: Regist, bas: Regist, at: Regist): Word
    requires OpPut < OpNull && val < RegNull && bas < RegNull && at < RegNull
  {
    var i := PackOp(OpPut);
    var i := PackReg(i, 8, val);
    var i := PackReg(i, 16, bas);
    PackReg(i, 24, at)
  }

  function ReadGet(op: Word): (Regist, Regist, Regist)
  {
    (UnpackReg(op, 8), UnpackReg(op, 16), UnpackReg(op, 24))
  }

  function MakeAdd(rd: Regist, rs1: Regist, rs2: Regist): Word
    requires OpAdd < OpNull && rd < RegNull && rs1 < RegNull && rs2 < RegNull
  {
    var i := PackOp(OpAdd);
    var i := PackReg(i, 6, rd);
    var i := PackReg(i, 11, rs1);
    PackReg(i, 16, rs2)
  }

  function ReadAdd(op: Word): (Regist, Regist, Regist)
  {
    (UnpackReg(op, 6), UnpackReg(op, 11), UnpackReg(op, 16))
  }

  function MakeMlt(rd: Regist, rs1: Regist, rs2: Regist): Word
    requires OpMlt < OpNull && rd < RegNull && rs1 < RegNull && rs2 < RegNull
  {
    var i := PackOp(OpMlt);
    var i := PackReg(i, 6, rd);
    var i := PackReg(i, 11, rs1);
    PackReg(i, 16, rs2)
  }

  function ReadMlt(op: Word): (Regist, Regist, Regist)
  {
    (UnpackReg(op, 6), UnpackReg(op, 11), UnpackReg(op, 16))
  }

  function MakeAddi(rd: Regist, rs1: Regist, n: Imm12): Word
    requires OpAddi < OpNull && rd < RegNull && rs1 < RegNull
  {
    var i := PackOp(OpAddi);
    var i := PackReg(i, 6, rd);
    var i := PackReg(i, 11, rs1);
    PackImm12(i, 16, n)
  }

  function ReadAddi(op: Word): (Regist, Regist, Imm12)
  {
    (UnpackReg(op, 6), UnpackReg(op, 11), UnpackImm12(op, 16))
  }

  function MakeSlti(rd: Regist, rs1: Regist, n: Imm12): Word
    requires OpSlti < OpNull && rd < RegNull && rs1 < RegNull
  {
    var i := PackOp(OpSlti);
    var i := PackReg(i, 6, rd);
    var i := PackReg(i, 11, rs1);
    PackImm12(i, 16, n)
  }

  function ReadSlti(op: Word): (Regist, Regist, Imm12)
  {
    (UnpackReg(op, 6), UnpackReg(op, 11), UnpackImm12(op, 16))
  }

  function MakeJmp(n: Imm12): Word
    requires OpJmp < OpNull
  {
    var i := PackOp(OpJmp);
    PackImm12(i, 8, n)
  }

  function ReadJmp(op: Word): Imm12
  {
    UnpackImm12(op, 8)
  }

  function MakeBne(rs1: Regist, rs2: Regist, n: Imm12): Word
    requires OpBne < OpNull && rs1 < RegNull && rs2 < RegNull
  {
    var i := PackOp(OpBne);
    var i := PackReg(i, 6, rs1);
    var i := PackReg(i, 11, rs2);
    PackImm12(i, 16, n)
  }

  function ReadBne(op: Word): (Regist, Regist, Imm12)
  {
    (UnpackReg(op, 6), UnpackReg(op, 11), UnpackImm12(op, 16))
  }

  function MakeFoo(): Word
    requires OpFoo < OpNull
  {
    PackOp(OpFoo)
  }

  // ---------------------------------------------------------------------
  // Laws of the codec

  /** Packing a register only ORs bits in: no bit of `into` is cleared,
      and every bit outside the register field is left as it was. */
  lemma PackRegFrame(into: Word, at: Offset, reg: Regist)
    requires reg < RegNull
    ensures PackReg(into, at, reg) & into == into
    ensures PackReg(into, at, reg) & !RegField(at) == into & !RegField(at)
  {
  }

  /** A masked value shifted left stays inside the equally shifted mask. */
  lemma ShiftedImm12Inside(y: Word, j: bv32)
    requires j < 32
    ensures ((y & 0xFFF) << j) & !(0xFFF << j) == 0
  {
  }

  /** The packed immediate lies inside its field, whatever the shift. */
  lemma Imm12Inside(n: Imm12, k: Offset)
    ensures Shl(Imm12Bits(n), k) & !Shl(PackImm12Mask, k) == 0
  {
    if k < 32 {
      ShiftedImm12Inside(n as Word, k as bv32);
    }
  }

  /** OR-ing in bits that lie inside a field keeps `into` and leaves
      every bit outside the field as it was. */
  lemma OrInside(into: Word, m: Word, field: Word)
    requires m & !field == 0
    ensures (into | m) & into == into
    ensures (into | m) & !field == into & !field
  {
  }

  /** `packImm12` clears no bit of `into`. */
  lemma PackImm12Keeps(into: Word, at: Offset, n: Imm12)
    ensures PackImm12(into, at, n) & into == into
  {
  }

  /** `packImm12` changes no bit outside the immediate field. */
  lemma PackImm12Outside(into: Word, at: Offset, n: Imm12)
    ensures PackImm12(into, at, n) & !Imm12Field(at) == into & !Imm12Field(at)
  {
    var k := FieldShift(at, PackImm12Len);
    Imm12Inside(n, k);
    OrInside(into, Shl(Imm12Bits(n), k), Shl(PackImm12Mask, k));
  }

  /** The same two facts for the immediate field, at every offset. */
  lemma PackImm12Frame(into: Word, at: Offset, n: Imm12)
    ensures PackImm12(into, at, n) & into == into
    ensures PackImm12(into, at, n) & !Imm12Field(at) == into & !Imm12Field(at)
  {
    PackImm12Keeps(into, at, n);
    PackImm12Outside(into, at, n);
  }

  lemma ShiftedReg(w: Word, m: Word, s: bv32)
    requires s <= 27 && m <= PackRegMask && (w >> s) & PackRegMask == 0
    ensures ((w | (m << s)) >> s) & PackRegMask == m
  {
  }

  lemma ShiftedImm12(w: Word, m: Word, s: bv32)
    requires s <= 20 && m <= 0xFFF && (w >> s) & 0xFFF == 0
    ensures ((w | (m << s)) >> s) & 0xFFF == m
  {
  }

  /** A register packed into an empty field at an offset that leaves the
      whole field inside the word reads back unchanged. */
  lemma RegRoundTrip(w: Word, at: Offset, reg: Regist)
    requires at <= 27 && reg < RegNull && UnpackReg(w, at) == 0
    ensures UnpackReg(PackReg(w, at, reg), at) == reg
  {
    assert FieldShift(at, PackRegLen) == 27 - at;
    ShiftedReg(w, reg as Word, FieldShift(at, PackRegLen) as bv32);
  }

  /** Packing keeps only the low 12 bits of the immediate. */
  lemma PackImm12Truncates(into: Word, at: Offset, n: Imm12)
    ensures PackImm12(into, at, n) == PackImm12(into, at, n & 0xFFF)
  {
    assert Imm12Bits(n & 0xFFF) == Imm12Bits(n);
  }

  /** For an offset that keeps the field inside the word, the immediate
      field's shift is an ordinary shift by `20 - at`. */
  lemma Imm12FieldAt(x: Word, at: Offset)
    requires at <= 20
    ensures Imm12FieldValue(x, at) == (x >> (FieldShift(at, PackImm12Len) as bv32)) & 0xFFF
  {
    assert FieldShift(at, PackImm12Len) == 20 - at;
  }

  lemma PackImm12At(x: Word, at: Offset, n: Imm12)
    requires at <= 20
    ensures PackImm12(x, at, n) == x | (Imm12Bits(n) << (FieldShift(at, PackImm12Len) as bv32))
  {
    assert FieldShift(at, PackImm12Len) == 20 - at;
  }

  lemma Imm12FieldOfPack(w: Word, at: Offset, n: Imm12)
    requires at <= 20 && UnpackImm12(w, at) == 0
    ensures Imm12FieldValue(PackImm12(w, at, n), at) == Imm12Bits(n)
  {
    var s := FieldShift(at, PackImm12Len) as bv32;
    Imm12FieldAt(w, at);
    PackImm12At(w, at, n);
    Imm12FieldAt(PackImm12(w, at, n), at);
    ShiftedImm12(w, Imm12Bits(n), s);
  }

  /** Sign extension of the low 12 bits of `n`: the identity on values
      that fit, and otherwise bit 11 copied upwards. */
  lemma SignExtendBits(n: Imm12)
    ensures FitsImm12(n) ==> SignExtend12(Imm12Bits(n)) == n
    ensures SignExtend12(Imm12Bits(n)) & 0xFFF == n & 0xFFF
    ensures SignExtend12(Imm12Bits(n)) >> 11 == (if n & 0x800 == 0 then 0 else 0x1F)
  {
  }

  /** What `UnpackImm12` makes of a field holding the low 12 bits of `n`. */
  lemma UnpackFieldOf(p: Word, at: Offset, n: Imm12)
    requires Imm12FieldValue(p, at) == Imm12Bits(n)
    ensures UnpackImm12(p, at) == SignExtend12(Imm12Bits(n))
    ensures FitsImm12(n) ==> UnpackImm12(p, at) == n
  {
    SignExtendBits(n);
  }

  /** An immediate in [-2048, 2047] packed into an empty field reads back
      unchanged; any other `int16` comes back as its low 12 bits
      sign-extended from bit 11 (see `SignExtendBits`). */
  lemma Imm12RoundTrip(w: Word, at: Offset, n: Imm12)
    requires at <= 20 && UnpackImm12(w, at) == 0
    ensures UnpackImm12(PackImm12(w, at, n), at) == SignExtend12(Imm12Bits(n))
    ensures FitsImm12(n) ==> UnpackImm12(PackImm12(w, at, n), at) == n
  {
    Imm12FieldOfPack(w, at, n);
    UnpackFieldOf(PackImm12(w, at, n), at, n);
  }

  /** `FitsImm12` is exactly the signed range [-2048, 2047]. */
  lemma FitsImm12Range(n: Imm12)
    ensures FitsImm12(n) <==> -2048 <= Signed16(n) <= 2047
  {
    if n < 0x8000 {
      assert n as int <= 2047 <==> n <= 0x7FF;
    } else {
      assert n as int >= 0xF800 <==> n >= 0xF800;
    }
  }

  /** The value form of the round trip, as the unit test states it for -1. */
  lemma Imm12RoundTripValue(at: Offset, n: Imm12)
    requires at <= 20 && -2048 <= Signed16(n) <= 2047
    ensures UnpackImm12(PackImm12(0, at, n), at) == n
  {
    FitsImm12Range(n);
    Imm12RoundTrip(0, at, n);
  }

  /** Whatever the word, an unpacked immediate lies in [-2048, 2047]. */
  lemma UnpackImm12Range(from: Word, at: Offset)
    ensures -2048 <= Signed16(UnpackImm12(from, at)) <= 2047
  {
    FitsImm12Range(UnpackImm12(from, at));
  }

  lemma MakeHltOpcode()
    requires OpHlt < OpNull
    ensures UnpackOp(MakeHlt()) == OpHlt
    ensures MakeHlt() & 0x3FF_FFFF == 0
  {
  }

  lemma MakeFooOpcode()
    requires OpFoo < OpNull
    ensures UnpackOp(MakeFoo()) == OpFoo
    ensures MakeFoo() & 0x3FF_FFFF == 0
  {
  }

  lemma PutRoundTrip(val: Regist, bas: Regist, at: Regist)
    requires OpPut < OpNull && val < RegNull && bas < RegNull && at < RegNull
    ensures UnpackOp(MakePut(val, bas, at)) == OpPut
    ensures ReadPut(MakePut(val, bas, at)) == (val, bas, at)
  {
  }

  /** `makeGet` builds the very same word as `makePut`. */
  lemma GetIsPut(val: Regist, bas: Regist, at: Regist)
    requires OpPut < OpNull && val < RegNull && bas < RegNull && at < RegNull
    ensures MakeGet(val, bas, at) == MakePut(val, bas, at)
    ensures UnpackOp(MakeGet(val, bas, at)) == OpPut
    ensures ReadGet(MakeGet(val, bas, at)) == (val, bas, at)
  {
    PutRoundTrip(val, bas, at);
  }

  lemma AddRoundTrip(rd: Regist, rs1: Regist, rs2: Regist)
    requires OpAdd < OpNull && rd < RegNull && rs1 < RegNull && rs2 < RegNull
    ensures UnpackOp(MakeAdd(rd, rs1, rs2)) == OpAdd
    ensures ReadAdd(MakeAdd(rd, rs1, rs2)) == (rd, rs1, rs2)
  {
  }

  lemma MltRoundTrip(rd: Regist, rs1: Regist, rs2: Regist)
    requires OpMlt < OpNull && rd < RegNull && rs1 < RegNull && rs2 < RegNull
    ensures UnpackOp(MakeMlt(rd, rs1, rs2)) == OpMlt
    ensures ReadMlt(MakeMlt(rd, rs1, rs2)) == (rd, rs1, rs2)
  {
  }

  lemma AddiRoundTrip(rd: Regist, rs1: Regist, n: Imm12)
    requires OpAddi < OpNull && rd < RegNull && rs1 < RegNull && FitsImm12(n)
    ensures UnpackOp(MakeAddi(rd, rs1, n)) == OpAddi
    ensures ReadAddi(MakeAddi(rd, rs1, n)) == (rd, rs1, n)
  {
  }

  lemma SltiRoundTrip(rd: Regist, rs1: Regist, n: Imm12)
    requires OpSlti < OpNull && rd < RegNull && rs1 < RegNull && FitsImm12(n)
    ensures UnpackOp(MakeSlti(rd, rs1, n)) == OpSlti
    ensures ReadSlti(MakeSlti(rd, rs1, n)) == (rd, rs1, n)
  {
  }

  lemma JmpRoundTrip(n: Imm12)
    requires OpJmp < OpNull && FitsImm12(n)
    ensures UnpackOp(MakeJmp(n)) == OpJmp
    ensures ReadJmp(MakeJmp(n)) == n
  {
  }

  lemma BneRoundTrip(rs1: Regist, rs2: Regist, n: Imm12)
    requires OpBne < OpNull && rs1 < RegNull && rs2 < RegNull && FitsImm12(n)
    ensures UnpackOp(MakeBne(rs1, rs2, n)) == OpBne
    ensures ReadBne(MakeBne(rs1, rs2, n)) == (rs1, rs2, n)
  {
  }
}
