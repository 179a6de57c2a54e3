/** The executor: what each RV32I instruction does to registers, PC and memory
    (cpu/rv32-lt/base_isa.h, cpu/rv32-lt/registers.h). */
module Execute {
  import opened Isa
  import opened Words
  import opened Numbers
  import opened MemoryModel
  import opened InterconnectModel

  type RegFile = r: seq<bits> | |r| == 32 witness seq(32, _ => 0)

  /** What a program sees of the hart: registers, PC and memory. */
  datatype Arch = Arch(regs: RegFile, pc: bits, mem: Ram)

  function Address(w: bits): uint32 { Wrap32(Number(w)) }

  /** The index behind a five-bit register field. */
  function Index(r: bits): (n: nat)
    ensures n < 32
  {
    Number(r) % 32
  }

  function Reg(a: Arch, r: bits): bits { a.regs[Index(r)] }

  /** x0 stays zero. */
  function SetReg(a: Arch, r: bits, value: bits): Arch {
    if Index(r) == 0 then a else a.(regs := a.regs[Index(r) := value])
  }

  // ---- Memory accesses ----

  /** The access lies in memory; any other reaches a peripheral. */
  predicate InRam(addr: bits, size: nat) {
    InMemory(Address(addr)) && Phys(Address(addr)) + size <= SIZE
  }

  /** Little-endian value of some bytes. */
  function LeValue(b: seq<byte>): nat {
    if b == [] then 0 else b[0] + 0x100 * LeValue(b[1..])
  }

  /** The n low bytes of a value, least significant first. */
  function Bytes(v: nat, n: nat): (b: seq<byte>)
    ensures |b| == n
  {
    if n == 0 then [] else [v % 0x100] + Bytes(v / 0x100, n - 1)
  }

  function LoadWord(a: Arch, addr: bits, n: nat, device: bits): bits {
    if InRam(addr, n) then Word32(LeValue(Slice(a.mem, Phys(Address(addr)), n))) else device
  }

  function StoreWord(a: Arch, addr: bits, v: bits, n: nat): Arch {
    if InRam(addr, n) then a.(mem := Splice(a.mem, Phys(Address(addr)), Bytes(Number(v), n))) else a
  }

  function Pow256(n: nat): nat { if n == 0 then 1 else 0x100 * Pow256(n - 1) }

  lemma {:induction false} BytesValue(v: nat, n: nat)
    requires v < Pow256(n)
    ensures LeValue(Bytes(v, n)) == v
    decreases n
  {
    if n > 0 {
      BytesValue(v / 0x100, n - 1);
      assert Bytes(v, n)[1..] == Bytes(v / 0x100, n - 1);
    }
  }

  /** A stored value is what a load of that size and place returns. */
  lemma StoreThenLoad(mem: Ram, o: nat, v: nat, n: nat)
    requires o + n <= SIZE && v < Pow256(n)
    ensures LeValue(Slice(Splice(mem, o, Bytes(v, n)), o, n)) == v
  {
    assert Slice(Splice(mem, o, Bytes(v, n)), o, n) == Bytes(v, n);
    BytesValue(v, n);
  }

  /** SW then LW at the same memory address returns the stored register. */
  lemma StoreThenLoadWord(a: Arch, addr: bits, v: bits, device: bits)
    requires InRam(addr, 4)
    ensures LoadWord(StoreWord(a, addr, v, 4), addr, 4, device) == v
  {
    NumberFits(v);
    StoreThenLoad(a.mem, Phys(Address(addr)), Number(v), 4);
    WordOfNumber(v);
  }

  // ---- Arithmetic ----

  function Less(a: bits, b: bits): bits { if a < b then 1 else 0 }

  /** Two's complement comparison. */
  predicate SignedLess(a: bits, b: bits) { a ^ 0x8000_0000 < b ^ 0x8000_0000 }

  function Extend8(x: bits): bits { if x & 0x80 != 0 then x | 0xFFFF_FF00 else x & 0xFF }

  function Extend16(x: bits): bits { if x & 0x8000 != 0 then x | 0xFFFF_0000 else x & 0xFFFF }

  /** The operations of OP-IMM and OP; None for an illegal function code. */
  function Alu(f3: bits, f7: bits, x: bits, y: bits, register: bool): Option<bits> {
    if f3 == 0 then (if !register || f7 == 0 then Some(x + y) else if f7 == 0x20 then Some(x - y) else None)
    else if f3 == 1 then Some(x << (y & 0x1F))
    else if f3 == 2 then Some(if SignedLess(x, y) then 1 else 0)
    else if f3 == 3 then Some(Less(x, y))
    else if f3 == 4 then Some(x ^ y)
    else if f3 == 5 then
      if f7 == 0 then Some(x >> (y & 0x1F)) else if f7 == 0x20 then Some(Sar(x, y & 0x1F)) else None
    else if f3 == 6 then Some(x | y)
    else Some(x & y)
  }

  predicate BranchTaken(f3: bits, x: bits, y: bits) {
    if f3 == 0 then x == y
    else if f3 == 1 then x != y
    else if f3 == 4 then SignedLess(x, y)
    else if f3 == 5 then !SignedLess(x, y)
    else if f3 == 6 then x < y
    else if f3 == 7 then x >= y
    else false
  }

  // ---- Instructions ----

  const OP_LUI: bits := 0x37
  const OP_AUIPC: bits := 0x17
  const OP_JAL: bits := 0x6F
  const OP_JALR: bits := 0x67
  const OP_BRANCH: bits := 0x63
  const OP_LOAD: bits := 0x03
  const OP_STORE: bits := 0x23
  const OP_IMM: bits := 0x13
  const OP_REG: bits := 0x33
  const OP_SYSTEM: bits := 0x73

  function Incremented(a: Arch): Arch { a.(pc := Plus(a.pc, 4)) }

  /** The bytes a load reads; zero for an illegal function code. */
  function LoadSize(f3: bits): nat {
    if f3 == 0 || f3 == 4 then 1 else if f3 == 1 || f3 == 5 then 2 else if f3 == 2 then 4 else 0
  }

  /** The value read as the five load instructions extend it. */
  function Extended(f3: bits, raw: bits): Option<bits> {
    if f3 == 0 then Some(Extend8(raw))
    else if f3 == 1 then Some(Extend16(raw))
    else if f3 == 2 then Some(raw)
    else if f3 == 4 then Some(raw & 0xFF)
    else if f3 == 5 then Some(raw & 0xFFFF)
    else None
  }

  function Loaded(a: Arch, f3: bits, addr: bits, device: bits): Option<bits> {
    Extended(f3, LoadWord(a, addr, LoadSize(f3), device))
  }

  /** The bytes a store writes; zero for an illegal function code. */
  function StoreSize(f3: bits): nat {
    if f3 == 0 then 1 else if f3 == 1 then 2 else if f3 == 2 then 4 else 0
  }

  function WriteBack(a: Arch, r: bits, value: Option<bits>): Arch {
    if value.Some? then SetReg(a, r, value.value) else a
  }

  function Lui(a: Arch, i: bits): Arch { Incremented(SetReg(a, Rd(i), ImmU(i))) }

  function Auipc(a: Arch, i: bits): Arch { Incremented(SetReg(a, Rd(i), Plus(a.pc, ImmU(i)))) }

  function Jal(a: Arch, i: bits): Arch { SetReg(a, Rd(i), Plus(a.pc, 4)).(pc := Plus(a.pc, ImmJ(i))) }

  /** The target is computed before the link register is written. */
  function Jalr(a: Arch, i: bits): Arch {
    SetReg(a, Rd(i), Plus(a.pc, 4)).(pc := Plus(Reg(a, Rs1(i)), ImmI(i)) & !1)
  }

  function Branch(a: Arch, i: bits): Arch {
    if BranchTaken(Funct3(i), Reg(a, Rs1(i)), Reg(a, Rs2(i))) then a.(pc := Plus(a.pc, ImmB(i))) else Incremented(a)
  }

  function LoadAddress(a: Arch, i: bits): bits { Plus(Reg(a, Rs1(i)), ImmI(i)) }

  function Load(a: Arch, i: bits, device: bits): Arch {
    Incremented(WriteBack(a, Rd(i), Loaded(a, Funct3(i), LoadAddress(a, i), device)))
  }

  function StoreAddress(a: Arch, i: bits): bits { Plus(Reg(a, Rs1(i)), ImmS(i)) }

  function Store(a: Arch, i: bits): Arch {
    Incremented(StoreWord(a, StoreAddress(a, i), Reg(a, Rs2(i)), StoreSize(Funct3(i))))
  }

  /** The second operand of OP-IMM: a shift amount, or the immediate. */
  function Operand(i: bits): bits { if Funct3(i) == 1 || Funct3(i) == 5 then Rs2(i) else ImmI(i) }

  function OpImm(a: Arch, i: bits): Arch {
    Incremented(WriteBack(a, Rd(i), Alu(Funct3(i), Funct7(i), Reg(a, Rs1(i)), Operand(i), false)))
  }

  function OpReg(a: Arch, i: bits): Arch {
    Incremented(WriteBack(a, Rd(i), Alu(Funct3(i), Funct7(i), Reg(a, Rs1(i)), Reg(a, Rs2(i)), true)))
  }

  /** Everything but loads and the SYSTEM opcode. FENCE does nothing; an illegal instruction
      is reported and skipped. */
  function Compute(a: Arch, i: bits): Arch {
    var op := Opcode(i);
    if op == OP_LUI then Lui(a, i)
    else if op == OP_AUIPC then Auipc(a, i)
    else if op == OP_JAL then Jal(a, i)
    else if op == OP_JALR then Jalr(a, i)
    else if op == OP_BRANCH then Branch(a, i)
    else if op == OP_STORE then Store(a, i)
    else if op == OP_IMM then OpImm(a, i)
    else if op == OP_REG then OpReg(a, i)
    else Incremented(a)
  }

  /** Every instruction outside the SYSTEM opcode. `device` is what a peripheral returns to a
      load outside memory. */
  function Run(a: Arch, i: bits, device: bits): Arch {
    if Opcode(i) == OP_LOAD then Load(a, i, device) else Compute(a, i)
  }

  // ---- x0 ----

  /** No instruction changes x0. */
  lemma ZeroKept(a: Arch, i: bits, device: bits)
    ensures Run(a, i, device).regs[0] == a.regs[0]
  {
    if Opcode(i) == OP_LOAD {
      LoadKeepsZero(a, i, device);
    } else {
      ComputeKeepsZero(a, i);
    }
  }

  lemma LoadKeepsZero(a: Arch, i: bits, device: bits)
    ensures Load(a, i, device).regs[0] == a.regs[0]
  {
  }

  lemma ComputeKeepsZero(a: Arch, i: bits)
    ensures Compute(a, i).regs[0] == a.regs[0]
  {
  }

  // ---- Composed constants ----

  /** The signed low twelve bits of a constant, and the rounded upper part. */
  function Low(v: bits): bits { Extend12(v) }

  function High(v: bits): bits { (v + 0x800) & 0xFFFF_F000 }

  lemma NegativeLow(v: bits)
    requires v & 0x800 != 0
    ensures ((v + 0x800) & 0xFFFF_F000) + (v | 0xFFFF_F000) == v
  {
  }

  lemma PositiveLow(v: bits)
    requires v & 0x800 == 0
    ensures ((v + 0x800) & 0xFFFF_F000) + (v & 0xFFF) == v
  {
  }

  lemma HighPlusLow(v: bits)
    ensures High(v) + Low(v) == v && High(v) & 0xFFF == 0
  {
    if v & 0x800 != 0 {
      NegativeLow(v);
    } else {
      PositiveLow(v);
    }
  }

  lemma AluAdds(f7: bits, x: bits, y: bits, sum: bits)
    requires x + y == sum
    ensures Alu(0, f7, x, y, false) == Some(sum)
  {
  }

  lemma AddsImmediate(a: Arch, i: bits, rd: bits, x: bits, imm: bits, sum: bits)
    requires Funct3(i) == 0 && Rd(i) == rd && Rs1(i) == rd && ImmI(i) == imm
    requires Reg(a, rd) == x && x + imm == sum
    ensures OpImm(a, i) == Incremented(SetReg(a, rd, sum))
  {
    AluAdds(Funct7(i), x, imm, sum);
  }

  lemma ReadBack(a: Arch, r: bits, v: bits)
    requires Index(r) != 0
    ensures Reg(Incremented(SetReg(a, r, v)), r) == v
  {
  }

  lemma SetTwice(a: Arch, r: bits, x: bits, y: bits)
    requires Index(r) != 0
    ensures Incremented(SetReg(Incremented(SetReg(a, r, x)), r, y))
         == SetReg(a, r, y).(pc := Plus(Plus(a.pc, 4), 4))
  {
    assert a.regs[Index(r) := x][Index(r) := y] == a.regs[Index(r) := y];
  }

  /** Any word that decodes to LUI, then any that decodes to ADDI. */
  lemma LuiSets(a: Arch, i: bits, rd: bits, hi: bits, d: bits)
    requires Opcode(i) == OP_LUI && Rd(i) == rd && ImmU(i) == hi
    ensures Run(a, i, d) == Incremented(SetReg(a, rd, hi))
  {
  }

  lemma AddiSets(a: Arch, i: bits, rd: bits, x: bits, imm: bits, sum: bits, d: bits)
    requires Opcode(i) == OP_IMM && Funct3(i) == 0 && Rd(i) == rd && Rs1(i) == rd && ImmI(i) == imm
    requires Reg(a, rd) == x && x + imm == sum
    ensures Run(a, i, d) == Incremented(SetReg(a, rd, sum))
  {
    AddsImmediate(a, i, rd, x, imm, sum);
  }

  /** Words that decode to LUI and ADDI with the parts of v leave v in their register. */
  lemma ComposedConstant(a: Arch, b: Arch, c: Arch, i: bits, j: bits,
                          rd: bits, hi: bits, lo: bits, v: bits, d: bits, d': bits)
    requires Opcode(i) == OP_LUI && Rd(i) == rd && ImmU(i) == hi
    requires Opcode(j) == OP_IMM && Funct3(j) == 0 && Rd(j) == rd && Rs1(j) == rd && ImmI(j) == lo
    requires Index(rd) != 0 && hi + lo == v
    requires b == Run(a, i, d) && c == Run(b, j, d')
    ensures c == SetReg(a, rd, v).(pc := Plus(Plus(a.pc, 4), 4))
  {
    LuiSets(a, i, rd, hi, d);
    ReadBack(a, rd, hi);
    AddiSets(b, j, rd, hi, lo, v, d');
    SetTwice(a, rd, hi, v);
  }

  /** LUI with the rounded upper part, then ADDI with the signed lower part, leaves any 32-bit
      constant in any register but x0, and changes no other register and no memory. */
  lemma LuiAddi(a: Arch, rd: bits, v: bits, d: bits, d': bits)
    requires Register(rd) && Index(rd) != 0
    ensures Run(Run(a, EncodeU(OP_LUI, rd, High(v)), d), EncodeI(OP_IMM, rd, 0, rd, Low(v)), d')
         == SetReg(a, rd, v).(pc := Plus(Plus(a.pc, 4), 4))
  {
    var i, j := EncodeU(OP_LUI, rd, High(v)), EncodeI(OP_IMM, rd, 0, rd, Low(v));
    HighPlusLow(v);
    Extended12(v);
    RoundTripU(OP_LUI, rd, High(v));
    RoundTripI(OP_IMM, rd, 0, rd, Low(v));
    ComposedConstant(a, Run(a, i, d), Run(Run(a, i, d), j, d'), i, j, rd, High(v), Low(v), v, d, d');
  }

  /** The register fields name the 32 registers one to one; field 0 is x0. */
  lemma IndexIsNumber(r: bits)
    requires Register(r)
    ensures Index(r) == Number(r) < 32 && (Index(r) == 0 <==> r == 0)
  {
    var r1, r2, r3, r4 := r >> 1, r >> 2, r >> 3, r >> 4;
    assert r1 < 16 && r2 < 8 && r3 < 4 && r4 < 2;
    assert r1 >> 1 == r2 && r2 >> 1 == r3 && r3 >> 1 == r4 && r4 >> 1 == 0;
    assert Number(r4) < 2;
    assert Number(r3) < 4;
    assert Number(r2) < 8;
    assert Number(r1) < 16;
  }
}
