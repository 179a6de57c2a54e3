/** Assembling the instructions of RV32I: the executor performs what an instruction's text says,
    for every instruction but the stores whose offset the simulator's decoder loses. */
module Assembly {
  import opened Isa
  import opened Words
  import opened Numbers
  import opened MemoryModel
  import opened InterconnectModel
  import opened Execute
  import opened Rv32i
  import Cpu

  // ---- Codes ----

  function Code3(op: Op): bits {
    match op
    case ADD => 0
    case SUB => 0
    case SLL => 1
    case SLT => 2
    case SLTU => 3
    case XOR => 4
    case SRL => 5
    case SRA => 5
    case OR => 6
    case AND => 7
  }

  function HighCode(op: Op): bits { if op == SUB || op == SRA then 0x20 else 0 }

  function ConditionCode(c: Cond): bits {
    match c
    case EQ => 0
    case NE => 1
    case LT => 4
    case GE => 5
    case LTU => 6
    case GEU => 7
  }

  /** LB, LH, LW, LBU, LHU; SB, SH, SW share the first three. */
  function SizeCode(size: nat, signed: bool): bits {
    (if size == 1 then 0 else if size == 2 then 1 else 2) + (if signed then 0 else 4)
  }

  predicate Shift(op: Op) { op == SLL || op == SRL || op == SRA }

  // ---- Encodings ----

  /** The word of a two's complement number. */
  function Wrapped(imm: int): bits { Word32(imm % TWO32) }

  predicate Field(r: nat) { r < 32 }

  predicate Fits12(imm: int) { -0x800 <= imm < 0x800 }

  /** What the formats of the specification can express. */
  predicate Encodable(ins: Instr) {
    match ins
    case LoadUpper(rd, imm) => Field(rd) && -0x8000_0000 <= imm < 0x8000_0000 && imm % 0x1000 == 0
    case AddUpper(rd, imm) => Field(rd) && -0x8000_0000 <= imm < 0x8000_0000 && imm % 0x1000 == 0
    case Jump(rd, imm) => Field(rd) && -0x10_0000 <= imm < 0x10_0000 && imm % 2 == 0
    case JumpRegister(rd, rs1, imm) => Field(rd) && Field(rs1) && Fits12(imm)
    case Branch(_, rs1, rs2, imm) => Field(rs1) && Field(rs2) && -0x1000 <= imm < 0x1000 && imm % 2 == 0
    case Load(size, signed, rd, rs1, imm) =>
      (size == 1 || size == 2 || (size == 4 && signed)) && Field(rd) && Field(rs1) && Fits12(imm)
    case Store(size, rs1, rs2, imm) =>
      (size == 1 || size == 2 || size == 4) && Field(rs1) && Field(rs2) && Fits12(imm)
    case Immediate(op, rd, rs1, imm) =>
      op != SUB && Field(rd) && Field(rs1) && (if Shift(op) then 0 <= imm < 32 else Fits12(imm))
    case Register(_, rd, rs1, rs2) => Field(rd) && Field(rs1) && Field(rs2)
    case Nothing => true
  }

  /** The word of an instruction; a FENCE for the one that does nothing. */
  function Assemble(ins: Instr): bits {
    match ins
    case LoadUpper(rd, imm) => EncodeU(0x37, Word32(rd), Wrapped(imm))
    case AddUpper(rd, imm) => EncodeU(0x17, Word32(rd), Wrapped(imm))
    case Jump(rd, imm) => EncodeJ(0x6F, Word32(rd), Wrapped(imm))
    case JumpRegister(rd, rs1, imm) => EncodeI(0x67, Word32(rd), 0, Word32(rs1), Wrapped(imm))
    case Branch(c, rs1, rs2, imm) => EncodeB(0x63, ConditionCode(c), Word32(rs1), Word32(rs2), Wrapped(imm))
    case Load(size, signed, rd, rs1, imm) =>
      EncodeI(0x03, Word32(rd), SizeCode(size, signed), Word32(rs1), Wrapped(imm))
    case Store(size, rs1, rs2, imm) => EncodeS(0x23, SizeCode(size, true), Word32(rs1), Word32(rs2), Wrapped(imm))
    case Immediate(op, rd, rs1, imm) =>
      if Shift(op) then EncodeR(0x13, Word32(rd), Code3(op), Word32(rs1), Wrapped(imm), HighCode(op))
      else EncodeI(0x13, Word32(rd), Code3(op), Word32(rs1), Wrapped(imm))
    case Register(op, rd, rs1, rs2) =>
      EncodeR(0x33, Word32(rd), Code3(op), Word32(rs1), Word32(rs2), HighCode(op))
    case Nothing => 0x0F
  }

  // ---- Ranges ----

  lemma ThirtyTwo()
    ensures Number(32) == 32
  {
    NumberOfOne();
    Unfolded(2);
    Unfolded(4);
    Unfolded(8);
    Unfolded(16);
    Unfolded(32);
  }

  lemma FieldFits(r: nat)
    requires Field(r)
    ensures Isa.Register(Word32(r)) && Number(Word32(r)) == r
  {
    NumberOfWord(r);
    ThirtyTwo();
    LessIff(Word32(r), 32);
  }

  lemma WrappedIs(imm: int)
    requires -0x8000_0000 <= imm < 0x8000_0000
    ensures Number(Wrapped(imm)) == imm % TWO32 && Signed(Wrapped(imm)) == imm
  {
    NumberOfWord(imm % TWO32);
  }

  lemma ShiftsOut(w: bits, s: bits, p: int)
    requires s < 32 && p == Pow2(Number(s)) && Number(w) < p
    ensures ShiftRight(w, s) == 0
  {
    RightNumber(w, s);
    QuotientIs(Number(w), p, 0, Number(w));
    SameNumber(ShiftRight(w, s), 0);
  }

  /** A small number leaves nothing above its low bits, or its complement does. */
  lemma Narrow(w: bits, c: bits, s: bits, p: int)
    requires s < 32 && p == Pow2(Number(s)) && -p <= Signed(w) < p && Number(c) == TWO32 - 1 - Number(w)
    ensures ShiftRight(w, s) == 0 || ShiftRight(c, s) == 0
  {
    if Signed(w) >= 0 {
      NumberFits(w);
      ShiftsOut(w, s, p);
    } else {
      ShiftsOut(c, s, p);
    }
  }

  lemma ShiftNumbers()
    ensures Number(11) == 11 && Number(12) == 12 && Number(20) == 20
  {
    NumberOfOne();
    Unfolded(2);
    Unfolded(3);
    Unfolded(5);
    Unfolded(6);
    Unfolded(10);
    Unfolded(11);
    Unfolded(12);
    Unfolded(20);
  }

  lemma Above12(w: bits)
    requires w >> 11 == 0
    ensures w & 0x800 == 0 && w & 0xFFF == w
  {
  }

  lemma Below12(w: bits)
    requires !w >> 11 == 0
    ensures w & 0x800 != 0 && w | 0xFFFF_F000 == w
  {
  }

  lemma Fixed12(w: bits, c: bits)
    requires c == !w && (ShiftRight(w, 11) == 0 || ShiftRight(c, 11) == 0)
    ensures Extend12(w) == w
  {
    if w >> 11 == 0 {
      Above12(w);
    } else {
      Below12(w);
    }
  }

  lemma SignedFits12(w: bits, c: bits)
    requires c == !w && -0x800 <= Signed(w) < 0x800
    ensures Extend12(w) == w
  {
    ShiftNumbers();
    assert Pow2(11) == 0x800;
    ComplementNumber(w);
    Narrow(w, c, 11, 0x800);
    Fixed12(w, c);
  }

  lemma Above13(w: bits)
    requires w >> 12 == 0
    ensures w & 0x1000 == 0 && w & 0x1FFF == w
  {
  }

  lemma Below13(w: bits)
    requires !w >> 12 == 0
    ensures w & 0x1000 != 0 && w | 0xFFFF_E000 == w
  {
  }

  lemma Fixed13(w: bits, c: bits)
    requires c == !w && (ShiftRight(w, 12) == 0 || ShiftRight(c, 12) == 0)
    ensures Extend13(w) == w
  {
    if w >> 12 == 0 {
      Above13(w);
    } else {
      Below13(w);
    }
  }

  lemma SignedFits13(w: bits, c: bits)
    requires c == !w && -0x1000 <= Signed(w) < 0x1000
    ensures Extend13(w) == w
  {
    ShiftNumbers();
    assert Pow2(12) == 0x1000;
    ComplementNumber(w);
    Narrow(w, c, 12, 0x1000);
    Fixed13(w, c);
  }

  lemma Above21(w: bits)
    requires w >> 20 == 0
    ensures w & 0x10_0000 == 0 && w & 0x1F_FFFF == w
  {
  }

  lemma Below21(w: bits)
    requires !w >> 20 == 0
    ensures w & 0x10_0000 != 0 && w | 0xFFE0_0000 == w
  {
  }

  lemma Fixed21(w: bits, c: bits)
    requires c == !w && (ShiftRight(w, 20) == 0 || ShiftRight(c, 20) == 0)
    ensures Extend21(w) == w
  {
    if w >> 20 == 0 {
      Above21(w);
    } else {
      Below21(w);
    }
  }

  lemma SignedFits21(w: bits, c: bits)
    requires c == !w && -0x10_0000 <= Signed(w) < 0x10_0000
    ensures Extend21(w) == w
  {
    ShiftNumbers();
    assert Pow2(12) == 0x1000;
    Four(12);
    Four(16);
    ComplementNumber(w);
    Narrow(w, c, 20, 0x10_0000);
    Fixed21(w, c);
  }

  lemma Twelve(imm: int)
    requires Fits12(imm)
    ensures Extend12(Wrapped(imm)) == Wrapped(imm) && Signed(Wrapped(imm)) == imm
  {
    WrappedIs(imm);
    SignedFits12(Wrapped(imm), !Wrapped(imm));
  }

  lemma Even(w: bits)
    requires Number(w) % 2 == 0
    ensures w & 1 == 0
  {
    Unfolded(w);
  }

  lemma Thirteen(imm: int)
    requires -0x1000 <= imm < 0x1000 && imm % 2 == 0
    ensures Extend13(Wrapped(imm)) == Wrapped(imm) && Wrapped(imm) & 1 == 0 && Signed(Wrapped(imm)) == imm
  {
    WrappedIs(imm);
    SignedFits13(Wrapped(imm), !Wrapped(imm));
    Even(Wrapped(imm));
  }

  lemma TwentyOne(imm: int)
    requires -0x10_0000 <= imm < 0x10_0000 && imm % 2 == 0
    ensures Extend21(Wrapped(imm)) == Wrapped(imm) && Wrapped(imm) & 1 == 0 && Signed(Wrapped(imm)) == imm
  {
    WrappedIs(imm);
    SignedFits21(Wrapped(imm), !Wrapped(imm));
    Even(Wrapped(imm));
  }

  lemma Upper(imm: int)
    requires -0x8000_0000 <= imm < 0x8000_0000 && imm % 0x1000 == 0
    ensures Wrapped(imm) & 0xFFF == 0 && Signed(Wrapped(imm)) == imm
  {
    WrappedIs(imm);
    NoLowBits(Wrapped(imm));
  }

  lemma NoLowBits(w: bits)
    requires Number(w) % 0x1000 == 0
    ensures w & 0xFFF == 0
  {
    LowOnes();
    assert Pow2(12) == 0x1000;
    LowBits(w, 0xFFF, 12);
    SameNumber(w & 0xFFF, 0);
  }

  // ---- Round trips ----

  /** The instruction the decoder reads from the word is the one assembled. */
  predicate Reads(ins: Instr) { Decode(Assemble(ins)) == ins }

  lemma UpperReads(rd: nat, imm: int)
    requires Encodable(LoadUpper(rd, imm))
    ensures Reads(LoadUpper(rd, imm)) && Reads(AddUpper(rd, imm))
  {
    FieldFits(rd);
    Upper(imm);
    RoundTripU(0x37, Word32(rd), Wrapped(imm));
    RoundTripU(0x17, Word32(rd), Wrapped(imm));
    LoadUpperDecodes(EncodeU(0x37, Word32(rd), Wrapped(imm)));
    AddUpperDecodes(EncodeU(0x17, Word32(rd), Wrapped(imm)));
  }

  lemma LoadUpperDecodes(i: bits)
    requires Opcode(i) == OP_LUI
    ensures Decode(i) == LoadUpper(Number(Rd(i)), Signed(ImmU(i)))
  {
  }

  lemma JumpReads(rd: nat, imm: int)
    requires Encodable(Jump(rd, imm))
    ensures Reads(Jump(rd, imm))
  {
    FieldFits(rd);
    TwentyOne(imm);
    RoundTripJ(0x6F, Word32(rd), Wrapped(imm));
    JumpDecodes(EncodeJ(0x6F, Word32(rd), Wrapped(imm)));
  }

  lemma JumpRegisterReads(rd: nat, rs1: nat, imm: int)
    requires Encodable(JumpRegister(rd, rs1, imm))
    ensures Reads(JumpRegister(rd, rs1, imm))
  {
    FieldFits(rd);
    FieldFits(rs1);
    Twelve(imm);
    RoundTripI(0x67, Word32(rd), 0, Word32(rs1), Wrapped(imm));
    JumpRegisterDecodes(EncodeI(0x67, Word32(rd), 0, Word32(rs1), Wrapped(imm)));
  }

  lemma BranchReads(c: Cond, rs1: nat, rs2: nat, imm: int)
    requires Encodable(Rv32i.Branch(c, rs1, rs2, imm))
    ensures Reads(Rv32i.Branch(c, rs1, rs2, imm))
  {
    var x, y, w := Word32(rs1), Word32(rs2), Wrapped(imm);
    FieldFits(rs1);
    FieldFits(rs2);
    Thirteen(imm);
    RoundTripB(0x63, ConditionCode(c), x, y, w);
    BranchFrom(EncodeB(0x63, ConditionCode(c), x, y, w), c, ConditionCode(c), x, y, w);
  }

  lemma BranchFrom(i: bits, c: Cond, f3: bits, x: bits, y: bits, w: bits)
    requires Opcode(i) == 0x63 && Funct3(i) == f3 && Rs1(i) == x && Rs2(i) == y && ImmB(i) == w
    requires f3 == ConditionCode(c)
    ensures Decode(i) == Rv32i.Branch(c, Number(x), Number(y), Signed(w))
  {
    BranchDecodes(i);
  }

  lemma LoadReads(size: nat, signed: bool, rd: nat, rs1: nat, imm: int)
    requires Encodable(Rv32i.Load(size, signed, rd, rs1, imm))
    ensures Reads(Rv32i.Load(size, signed, rd, rs1, imm))
  {
    FieldFits(rd);
    FieldFits(rs1);
    Twelve(imm);
    RoundTripI(0x03, Word32(rd), SizeCode(size, signed), Word32(rs1), Wrapped(imm));
    LoadDecodes(EncodeI(0x03, Word32(rd), SizeCode(size, signed), Word32(rs1), Wrapped(imm)));
  }

  lemma StoreReads(size: nat, rs1: nat, rs2: nat, imm: int)
    requires Encodable(Rv32i.Store(size, rs1, rs2, imm))
    ensures Reads(Rv32i.Store(size, rs1, rs2, imm)) <==> 0 <= imm < 32
  {
    var f3, x, y, w := SizeCode(size, true), Word32(rs1), Word32(rs2), Wrapped(imm);
    FieldFits(rs1);
    FieldFits(rs2);
    Twelve(imm);
    SmallOffset(imm);
    RoundTripS(0x23, f3, x, y, w);
    StoreOffsetIff(0x23, f3, x, y, w);
    StoreFrom(EncodeS(0x23, f3, x, y, w), f3, x, y);
    SameOffset(ImmS(EncodeS(0x23, f3, x, y, w)), w);
  }

  lemma StoreFrom(i: bits, f3: bits, x: bits, y: bits)
    requires Opcode(i) == 0x23 && Funct3(i) == f3 && Rs1(i) == x && Rs2(i) == y
    ensures Decode(i) == DecodeStore(f3, Number(x), Number(y), Signed(ImmS(i)))
  {
    StoreDecodes(i);
  }

  lemma SmallOffset(imm: int)
    requires Fits12(imm)
    ensures Wrapped(imm) < 32 <==> 0 <= imm < 32
  {
    WrappedIs(imm);
    ThirtyTwo();
    LessIff(Wrapped(imm), 32);
  }

  lemma SameOffset(x: bits, y: bits)
    ensures x == y <==> Signed(x) == Signed(y)
  {
    NumberFits(x);
    NumberFits(y);
    if Signed(x) == Signed(y) {
      SameNumber(x, y);
    }
  }

  lemma ImmediateReads(op: Op, rd: nat, rs1: nat, imm: int)
    requires Encodable(Immediate(op, rd, rs1, imm)) && !Shift(op)
    ensures Reads(Immediate(op, rd, rs1, imm))
  {
    var r, x, w := Word32(rd), Word32(rs1), Wrapped(imm);
    FieldFits(rd);
    FieldFits(rs1);
    Twelve(imm);
    RoundTripI(0x13, r, Code3(op), x, w);
    ImmediateFrom(EncodeI(0x13, r, Code3(op), x, w), op, Code3(op), r, x, w);
  }

  lemma ImmediateFrom(i: bits, op: Op, f3: bits, r: bits, x: bits, w: bits)
    requires Opcode(i) == 0x13 && Rd(i) == r && Funct3(i) == f3 && Rs1(i) == x && ImmI(i) == w
    requires f3 == Code3(op) && !Shift(op) && op != SUB
    ensures Decode(i) == Immediate(op, Number(r), Number(x), Signed(w))
  {
    ImmediateForm(i);
  }

  lemma ShiftReads(op: Op, rd: nat, rs1: nat, imm: int)
    requires Encodable(Immediate(op, rd, rs1, imm)) && Shift(op)
    ensures Reads(Immediate(op, rd, rs1, imm))
  {
    var r, x, w := Word32(rd), Word32(rs1), Wrapped(imm);
    FieldFits(rd);
    FieldFits(rs1);
    SmallShift(imm);
    RoundTripR(0x13, r, Code3(op), x, w, HighCode(op));
    ShiftFrom(EncodeR(0x13, r, Code3(op), x, w, HighCode(op)), op, Code3(op), HighCode(op), r, x, w);
  }

  lemma SmallShift(imm: int)
    requires 0 <= imm < 32
    ensures Isa.Register(Wrapped(imm)) && Number(Wrapped(imm)) == imm
  {
    FieldFits(imm);
    Fits(imm);
  }

  lemma ShiftFrom(i: bits, op: Op, f3: bits, f7: bits, r: bits, x: bits, w: bits)
    requires Opcode(i) == 0x13 && Rd(i) == r && Funct3(i) == f3 && Rs1(i) == x && Rs2(i) == w && Funct7(i) == f7
    requires f3 == Code3(op) && f7 == HighCode(op) && Shift(op)
    ensures Decode(i) == Immediate(op, Number(r), Number(x), Number(w))
  {
    ImmediateForm(i);
  }

  lemma ImmediateForm(i: bits)
    requires Opcode(i) == OP_IMM
    ensures var o := Operation(Funct3(i), Code7(Funct3(i), Funct7(i), false));
            Decode(i) == if o.None? then Nothing
                         else Immediate(o.value, Number(Rd(i)), Number(Rs1(i)),
                                        if Funct3(i) == 1 || Funct3(i) == 5 then Number(Rs2(i)) else Signed(ImmI(i)))
  {
  }

  lemma RegisterReads(op: Op, rd: nat, rs1: nat, rs2: nat)
    requires Encodable(Rv32i.Register(op, rd, rs1, rs2))
    ensures Reads(Rv32i.Register(op, rd, rs1, rs2))
  {
    var r, x, y := Word32(rd), Word32(rs1), Word32(rs2);
    FieldFits(rd);
    FieldFits(rs1);
    FieldFits(rs2);
    RoundTripR(0x33, r, Code3(op), x, y, HighCode(op));
    RegisterFrom(EncodeR(0x33, r, Code3(op), x, y, HighCode(op)), op, Code3(op), HighCode(op), r, x, y);
  }

  lemma RegisterFrom(i: bits, op: Op, f3: bits, f7: bits, r: bits, x: bits, y: bits)
    requires Opcode(i) == 0x33 && Rd(i) == r && Funct3(i) == f3 && Rs1(i) == x && Rs2(i) == y && Funct7(i) == f7
    requires f3 == Code3(op) && f7 == HighCode(op)
    ensures Decode(i) == Rv32i.Register(op, Number(r), Number(x), Number(y))
  {
    RegisterDecodes(i);
  }

  /** Decoding inverts assembling for every encodable instruction but the stores whose offset is
      not in 0 to 31. */
  lemma AssembledIff(ins: Instr)
    requires Encodable(ins)
    ensures Decode(Assemble(ins)) == ins <==> (ins.Store? ==> 0 <= ins.imm < 32)
  {
    match ins {
      case LoadUpper(rd, imm) => UpperReads(rd, imm);
      case AddUpper(rd, imm) => UpperReads(rd, imm);
      case Jump(rd, imm) => JumpReads(rd, imm);
      case JumpRegister(rd, rs1, imm) => JumpRegisterReads(rd, rs1, imm);
      case Branch(c, rs1, rs2, imm) => BranchReads(c, rs1, rs2, imm);
      case Load(size, signed, rd, rs1, imm) => LoadReads(size, signed, rd, rs1, imm);
      case Store(size, rs1, rs2, imm) => StoreReads(size, rs1, rs2, imm);
      case Immediate(op, rd, rs1, imm) =>
        if Shift(op) {
          ShiftReads(op, rd, rs1, imm);
        } else {
          ImmediateReads(op, rd, rs1, imm);
        }
      case Register(op, rd, rs1, rs2) => RegisterReads(op, rd, rs1, rs2);
      case Nothing => FenceReads();
    }
  }

  lemma FenceReads()
    ensures Decode(0x0F) == Nothing
  {
  }

  lemma NotSystem(i: bits, ins: Instr)
    requires Decode(i) == ins && (ins.Nothing? ==> i == 0x0F)
    ensures Opcode(i) != OP_SYSTEM
  {
  }

  /** Running the word of an instruction performs the instruction. */
  lemma AssembledRuns(a: Arch, ins: Instr, d: bits)
    requires Sane(a) && Encodable(ins) && (ins.Store? ==> 0 <= ins.imm < 32)
    ensures Meaning(Run(a, Assemble(ins), d)) == Perform(Meaning(a), ins, Value(d))
  {
    AssembledIff(ins);
    NotSystem(Assemble(ins), ins);
    ExecutorIsRv32i(a, Assemble(ins), d);
  }

  // ---- On the CPU thread ----

  /** The four bytes at the PC are the word's, least significant first. */
  predicate AtPc(a: Arch, word: bits) {
    var h := Meaning(a);
    InMemory(h.pc) && Phys(h.pc) + 4 <= SIZE && Little(h.mem[Phys(h.pc)..], 4) == Number(word)
  }

  lemma FetchIs(a: Arch, word: bits)
    requires AtPc(a, word)
    ensures Cpu.FetchWord(a) == word
  {
    AddressIs(a.pc);
    ReadsLittle(a.mem, Phys(Address(a.pc)), 4);
    Pow2Of32();
    Fits(Value(Cpu.FetchWord(a)));
    SameNumber(Cpu.FetchWord(a), word);
  }

  /** One iteration of the thread performs the instruction whose word is at the PC, if no
      interrupt is due. */
  lemma ThreadPerforms(m: Cpu.Machine, env: Cpu.Env, ins: Instr)
    requires !m.stopped && Sane(m.arch) && Cpu.Expected(m.csr.mstatus, m.csr.mie, env.pending) == None
    requires Encodable(ins) && (ins.Store? ==> 0 <= ins.imm < 32) && AtPc(m.arch, Assemble(ins))
    ensures var m' := Cpu.Step(Cpu.RV32I, m, env);
            && Meaning(m'.arch) == Perform(Meaning(m.arch), ins, Value(env.device))
            && Sane(m'.arch) && !m'.stopped && m'.csr == m.csr.(mip := m'.csr.mip)
  {
    FetchIs(m.arch, Assemble(ins));
    AssembledIff(ins);
    NotSystem(Assemble(ins), ins);
    AssembledRuns(m.arch, ins, env.device);
    ZeroKept(m.arch, Assemble(ins), env.device);
    Uninterrupted(m, env, Assemble(ins));
  }

  lemma Uninterrupted(m: Cpu.Machine, env: Cpu.Env, i: bits)
    requires !m.stopped && Cpu.Expected(m.csr.mstatus, m.csr.mie, env.pending) == None
    requires Cpu.FetchWord(m.arch) == i && Opcode(i) != OP_SYSTEM
    ensures var m' := Cpu.Step(Cpu.RV32I, m, env);
            m'.arch == Run(m.arch, i, env.device) && !m'.stopped && m'.csr == m.csr.(mip := m'.csr.mip)
  {
    Cpu.TakenIs(m.csr, env.pending);
  }
}
