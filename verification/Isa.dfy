/** RV32I instruction words: the simulator's field and immediate decoders
    (cpu/rv32-lt/base_isa.h) against the encodings of section 2.3 of the RISC-V
    Unprivileged ISA specification. */
module Isa {

  type bits = bv32

  // ---- Fields ----

  function Opcode(i: bits): bits { i & 0x7F }

  function Rd(i: bits): bits { (i >> 7) & 0x1F }

  function Funct3(i: bits): bits { (i >> 12) & 0x7 }

  function Rs1(i: bits): bits { (i >> 15) & 0x1F }

  function Rs2(i: bits): bits { (i >> 20) & 0x1F }

  function Funct7(i: bits): bits { (i >> 25) & 0x7F }

  // ---- Immediates, as the simulator decodes them ----

  /** `(int32_t)(x << 20) >> 20`: sign extension from bit 11, as the masks it amounts to. */
  function Extend12(x: bits): bits { if x & 0x800 != 0 then x | 0xFFFF_F000 else x & 0xFFF }

  /** `(int32_t)(x << 19) >> 19`, from bit 12. */
  function Extend13(x: bits): bits { if x & 0x1000 != 0 then x | 0xFFFF_E000 else x & 0x1FFF }

  /** `(int32_t)(x << 11) >> 11`, from bit 20. */
  function Extend21(x: bits): bits { if x & 0x10_0000 != 0 then x | 0xFFE0_0000 else x & 0x1F_FFFF }

  /** The arithmetic right shift of a two's complement word. */
  function Sar(x: bits, n: bits): bits
    requires n < 32
  {
    if x & 0x8000_0000 != 0 then !(!x >> n) else x >> n
  }

  /** Shifting left and arithmetically right again is sign extension. */
  lemma ShiftsExtend(x: bits)
    ensures Sar(x << 20, 20) == Extend12(x)
    ensures Sar(x << 19, 19) == Extend13(x)
    ensures Sar(x << 11, 11) == Extend21(x)
  {
  }

  function ImmI(i: bits): bits { Extend12(i >> 20) }

  /** It is the arithmetic shift of the instruction word. */
  lemma ImmIIsShift(i: bits)
    ensures ImmI(i) == Sar(i, 20)
  {
  }

  /** Bits 31:25 are not shifted above bits 11:7. */
  function ImmS(i: bits): bits { Extend12(((i >> 25) & 0x7F) | ((i >> 7) & 0x1F)) }

  /** The bits a branch word gathers, before sign extension. */
  function BranchBits(i: bits): bits {
    (((i >> 8) & 0xF) << 1) | (((i >> 25) & 0x3F) << 5) | (((i >> 7) & 0x1) << 11) | (((i >> 31) & 0x1) << 12)
  }

  function ImmB(i: bits): bits { Extend13(BranchBits(i)) }

  function ImmU(i: bits): bits { i & 0xFFFF_F000 }

  function JumpBits(i: bits): bits {
    (((i >> 21) & 0x3FF) << 1) | (((i >> 20) & 0x1) << 11) | (((i >> 12) & 0xFF) << 12) | (((i >> 31) & 0x1) << 20)
  }

  function ImmJ(i: bits): bits { Extend21(JumpBits(i)) }

  // ---- Encodings of the specification ----

  predicate Register(r: bits) { r < 32 }

  /** The other fields of an instruction fit their places. */
  predicate FieldsFit(op: bits, f3: bits, r: bits, r': bits) {
    op < 0x80 && f3 < 8 && Register(r) && Register(r')
  }

  function EncodeI(op: bits, rd: bits, f3: bits, rs1: bits, imm: bits): bits {
    ((imm & 0xFFF) << 20) | (rs1 << 15) | (f3 << 12) | (rd << 7) | op
  }

  function EncodeR(op: bits, rd: bits, f3: bits, rs1: bits, rs2: bits, f7: bits): bits {
    (f7 << 25) | (rs2 << 20) | (rs1 << 15) | (f3 << 12) | (rd << 7) | op
  }

  function EncodeS(op: bits, f3: bits, rs1: bits, rs2: bits, imm: bits): bits {
    (((imm >> 5) & 0x7F) << 25) | (rs2 << 20) | (rs1 << 15) | (f3 << 12) | ((imm & 0x1F) << 7) | op
  }

  function EncodeB(op: bits, f3: bits, rs1: bits, rs2: bits, imm: bits): bits {
    (((imm >> 12) & 1) << 31) | (((imm >> 5) & 0x3F) << 25) | (rs2 << 20) | (rs1 << 15) | (f3 << 12)
    | (((imm >> 1) & 0xF) << 8) | (((imm >> 11) & 1) << 7) | op
  }

  function EncodeU(op: bits, rd: bits, imm: bits): bits {
    (imm & 0xFFFF_F000) | (rd << 7) | op
  }

  function EncodeJ(op: bits, rd: bits, imm: bits): bits {
    (((imm >> 20) & 1) << 31) | (((imm >> 1) & 0x3FF) << 21) | (((imm >> 11) & 1) << 20) | (((imm >> 12) & 0xFF) << 12)
    | (rd << 7) | op
  }

  // ---- Round trips ----

  /** Sign extension is its own fixpoint and keeps the bits it extends. */
  lemma Extended12(x: bits)
    ensures Extend12(x) & 0xFFF == x & 0xFFF && Extend12(Extend12(x)) == Extend12(x)
  {
    if x & 0x800 != 0 {
      Negative12(x);
    } else {
      Positive12(x);
    }
  }

  lemma Negative12(x: bits)
    requires x & 0x800 != 0
    ensures var e := x | 0xFFFF_F000; e & 0xFFF == x & 0xFFF && e & 0x800 != 0 && e | 0xFFFF_F000 == e
  {
  }

  lemma Positive12(x: bits)
    requires x & 0x800 == 0
    ensures var e := x & 0xFFF; e & 0xFFF == e && e & 0x800 == 0
  {
  }

  lemma Extended13(x: bits)
    ensures Extend13(Extend13(x)) == Extend13(x) && Extend13(x) & 1 == x & 1
  {
    if x & 0x1000 != 0 {
      assert (x | 0xFFFF_E000) & 0x1000 != 0 && (x | 0xFFFF_E000) | 0xFFFF_E000 == x | 0xFFFF_E000;
      assert (x | 0xFFFF_E000) & 1 == x & 1;
    } else {
      assert (x & 0x1FFF) & 0x1000 == 0 && (x & 0x1FFF) & 0x1FFF == x & 0x1FFF && (x & 0x1FFF) & 1 == x & 1;
    }
  }

  lemma Extended21(x: bits)
    ensures Extend21(Extend21(x)) == Extend21(x) && Extend21(x) & 1 == x & 1
  {
    if x & 0x10_0000 != 0 {
      assert (x | 0xFFE0_0000) & 0x10_0000 != 0 && (x | 0xFFE0_0000) | 0xFFE0_0000 == x | 0xFFE0_0000;
      assert (x | 0xFFE0_0000) & 1 == x & 1;
    } else {
      assert (x & 0x1F_FFFF) & 0x10_0000 == 0 && (x & 0x1F_FFFF) & 0x1F_FFFF == x & 0x1F_FFFF;
      assert (x & 0x1F_FFFF) & 1 == x & 1;
    }
  }

  /** Decoding an I-type bits returns every field and every representable immediate, and
      every word is the encoding of what it decodes to. */
  lemma RoundTripI(op: bits, rd: bits, f3: bits, rs1: bits, imm: bits)
    requires FieldsFit(op, f3, rd, rs1) && Extend12(imm) == imm
    ensures var i := EncodeI(op, rd, f3, rs1, imm);
            Opcode(i) == op && Rd(i) == rd && Funct3(i) == f3 && Rs1(i) == rs1 && ImmI(i) == imm
  {
  }

  /** The register format, which the shifts by a constant share. */
  lemma RoundTripR(op: bits, rd: bits, f3: bits, rs1: bits, rs2: bits, f7: bits)
    requires FieldsFit(op, f3, rd, rs1) && Register(rs2) && f7 < 0x80
    ensures var i := EncodeR(op, rd, f3, rs1, rs2, f7);
            && Opcode(i) == op && Rd(i) == rd && Funct3(i) == f3 && Rs1(i) == rs1 && Rs2(i) == rs2 && Funct7(i) == f7
  {
  }

  lemma RecodeR(i: bits)
    ensures EncodeR(Opcode(i), Rd(i), Funct3(i), Rs1(i), Rs2(i), Funct7(i)) == i
  {
  }

  lemma ImmediateWord(i: bits)
    ensures (((i >> 20) & 0xFFF) << 20) | (Rs1(i) << 15) | (Funct3(i) << 12) | (Rd(i) << 7) | Opcode(i) == i
  {
  }

  lemma RecodeI(i: bits)
    ensures EncodeI(Opcode(i), Rd(i), Funct3(i), Rs1(i), ImmI(i)) == i && Extend12(ImmI(i)) == ImmI(i)
  {
    Extended12(i >> 20);
    ImmediateWord(i);
  }

  /** The same for branches: even offsets of 13 bits. */
  lemma RoundTripB(op: bits, f3: bits, rs1: bits, rs2: bits, imm: bits)
    requires FieldsFit(op, f3, rs1, rs2) && Extend13(imm) == imm && imm & 1 == 0
    ensures var i := EncodeB(op, f3, rs1, rs2, imm);
            Opcode(i) == op && Funct3(i) == f3 && Rs1(i) == rs1 && Rs2(i) == rs2 && ImmB(i) == imm
  {
  }

  lemma BranchSign(i: bits)
    ensures BranchBits(i) & 0x1000 != 0 <==> i & 0x8000_0000 != 0
    ensures BranchBits(i) & 1 == 0
  {
  }

  lemma BackwardBranch(i: bits)
    requires i & 0x8000_0000 != 0
    ensures EncodeB(Opcode(i), Funct3(i), Rs1(i), Rs2(i), BranchBits(i) | 0xFFFF_E000) == i
  {
  }

  lemma ForwardBranch(i: bits)
    requires i & 0x8000_0000 == 0
    ensures EncodeB(Opcode(i), Funct3(i), Rs1(i), Rs2(i), BranchBits(i) & 0x1FFF) == i
  {
  }

  lemma RecodeB(i: bits)
    ensures EncodeB(Opcode(i), Funct3(i), Rs1(i), Rs2(i), ImmB(i)) == i
    ensures Extend13(ImmB(i)) == ImmB(i) && ImmB(i) & 1 == 0
  {
    BranchSign(i);
    Extended13(BranchBits(i));
    if i & 0x8000_0000 != 0 {
      BackwardBranch(i);
    } else {
      ForwardBranch(i);
    }
  }

  /** Upper immediates: multiples of 2^12. */
  lemma RoundTripU(op: bits, rd: bits, imm: bits)
    requires FieldsFit(op, 0, rd, 0) && imm & 0xFFF == 0
    ensures var i := EncodeU(op, rd, imm);
            Opcode(i) == op && Rd(i) == rd && ImmU(i) == imm
  {
  }

  lemma RecodeU(i: bits)
    ensures EncodeU(Opcode(i), Rd(i), ImmU(i)) == i && ImmU(i) & 0xFFF == 0
  {
  }

  lemma JumpFields(op: bits, rd: bits, imm: bits)
    requires FieldsFit(op, 0, rd, 0)
    ensures var i := EncodeJ(op, rd, imm);
            Opcode(i) == op && Rd(i) == rd && JumpBits(i) == imm & 0x1F_FFFE
  {
  }

  /** Jumps: even offsets of 21 bits. */
  lemma RoundTripJ(op: bits, rd: bits, imm: bits)
    requires FieldsFit(op, 0, rd, 0) && Extend21(imm) == imm && imm & 1 == 0
    ensures var i := EncodeJ(op, rd, imm);
            Opcode(i) == op && Rd(i) == rd && ImmJ(i) == imm
  {
    JumpFields(op, rd, imm);
    EvenJump(imm);
  }

  lemma EvenJump(imm: bits)
    requires imm & 1 == 0 && Extend21(imm) == imm
    ensures Extend21(imm & 0x1F_FFFE) == imm
  {
    if imm & 0x10_0000 != 0 {
      assert (imm & 0x1F_FFFE) & 0x10_0000 != 0 && (imm & 0x1F_FFFE) | 0xFFE0_0000 == imm | 0xFFE0_0000;
    } else {
      assert (imm & 0x1F_FFFE) & 0x10_0000 == 0 && (imm & 0x1F_FFFE) & 0x1F_FFFF == imm & 0x1F_FFFF;
    }
  }

  lemma JumpSign(i: bits)
    ensures JumpBits(i) & 0x10_0000 != 0 <==> i & 0x8000_0000 != 0
    ensures JumpBits(i) & 1 == 0
  {
  }

  lemma BackwardJump(i: bits)
    requires i & 0x8000_0000 != 0
    ensures EncodeJ(Opcode(i), Rd(i), JumpBits(i) | 0xFFE0_0000) == i
  {
  }

  lemma ForwardJump(i: bits)
    requires i & 0x8000_0000 == 0
    ensures EncodeJ(Opcode(i), Rd(i), JumpBits(i) & 0x1F_FFFF) == i
  {
  }

  lemma RecodeJ(i: bits)
    ensures EncodeJ(Opcode(i), Rd(i), ImmJ(i)) == i && Extend21(ImmJ(i)) == ImmJ(i) && ImmJ(i) & 1 == 0
  {
    JumpSign(i);
    Extended21(JumpBits(i));
    if i & 0x8000_0000 != 0 {
      BackwardJump(i);
    } else {
      ForwardJump(i);
    }
  }

  // ---- The S format ----

  /** The immediate the specification gives an S-type bits. */
  function StandardImmS(i: bits): bits { Extend12((((i >> 25) & 0x7F) << 5) | ((i >> 7) & 0x1F)) }

  lemma RoundTripS(op: bits, f3: bits, rs1: bits, rs2: bits, imm: bits)
    requires FieldsFit(op, f3, rs1, rs2) && Extend12(imm) == imm
    ensures var i := EncodeS(op, f3, rs1, rs2, imm);
            Opcode(i) == op && Funct3(i) == f3 && Rs1(i) == rs1 && Rs2(i) == rs2 && StandardImmS(i) == imm
  {
  }

  /** The simulator's S immediate is the specification's exactly for words whose bits 31:25
      are zero. */
  lemma ImmSAgreesIff(i: bits)
    ensures ImmS(i) == StandardImmS(i) <==> Funct7(i) == 0
  {
  }

  /** So a store reaches the address its assembly text names exactly for offsets 0 to 31. */
  lemma StoreOffsetIff(op: bits, f3: bits, rs1: bits, rs2: bits, imm: bits)
    requires FieldsFit(op, f3, rs1, rs2) && Extend12(imm) == imm
    ensures ImmS(EncodeS(op, f3, rs1, rs2, imm)) == imm <==> imm < 32
  {
  }
}
