/** The RV32I instructions as chapter 2 of the RISC-V Unprivileged ISA specification describes
    them, on numbers: registers hold values below 2^32, and no bit operation of the simulator is
    used. The executor (cpu/rv32-lt/base_isa.h) is proved against it. */
module Rv32i {
  import opened Isa
  import opened Words
  import opened Numbers
  import opened MemoryModel
  import opened InterconnectModel
  import opened Execute

  datatype Op = ADD | SUB | SLL | SLT | SLTU | XOR | SRL | SRA | OR | AND

  datatype Cond = EQ | NE | LT | GE | LTU | GEU

  /** An instruction outside the SYSTEM opcode; Nothing is FENCE or an illegal word. */
  datatype Instr =
    | LoadUpper(rd: nat, imm: int)
    | AddUpper(rd: nat, imm: int)
    | Jump(rd: nat, imm: int)
    | JumpRegister(rd: nat, rs1: nat, imm: int)
    | Branch(cond: Cond, rs1: nat, rs2: nat, imm: int)
    | Load(size: nat, signed: bool, rd: nat, rs1: nat, imm: int)
    | Store(size: nat, rs1: nat, rs2: nat, imm: int)
    | Immediate(op: Op, rd: nat, rs1: nat, imm: int)
    | Register(op: Op, rd: nat, rs1: nat, rs2: nat)
    | Nothing

  type Values = v: seq<uint32> | |v| == 32 witness seq(32, _ => 0)

  datatype Hart = Hart(x: Values, pc: uint32, mem: Ram)

  // ---- Values ----

  /** The two's complement reading of a number below 2^n. */
  function TwosComplement(v: nat, n: nat): int {
    if 2 * v < Pow2(n) then v else v - Pow2(n)
  }

  function Calculate(op: Op, a: uint32, b: uint32): uint32 {
    var k := Pow2(b % 32);
    match op
    case ADD => (a + b) % TWO32
    case SUB => (a - b) % TWO32
    case SLL => a * k % TWO32
    case SLT => if TwosComplement(a, 32) < TwosComplement(b, 32) then 1 else 0
    case SLTU => if a < b then 1 else 0
    case XOR => Xor(a, b) % TWO32
    case SRL => a / k % TWO32
    case SRA => TwosComplement(a, 32) / k % TWO32
    case OR => Or(a, b) % TWO32
    case AND => And(a, b) % TWO32
  }

  predicate Holds(cond: Cond, a: uint32, b: uint32) {
    match cond
    case EQ => a == b
    case NE => a != b
    case LT => TwosComplement(a, 32) < TwosComplement(b, 32)
    case GE => TwosComplement(a, 32) >= TwosComplement(b, 32)
    case LTU => a < b
    case GEU => a >= b
  }

  // ---- Registers and memory ----

  function Get(h: Hart, r: nat): uint32 { if 0 < r < 32 then h.x[r] else 0 }

  function Put(h: Hart, r: nat, v: int): Hart {
    if 0 < r < 32 then h.(x := h.x[r := v % TWO32]) else h
  }

  function Next(h: Hart): Hart { h.(pc := (h.pc + 4) % TWO32) }

  /** The first n bytes as a number, least significant first. */
  function Little(b: seq<byte>, n: nat): nat
    requires n <= |b|
  {
    if n == 0 then 0 else Little(b, n - 1) + b[n - 1] * Pow2(8 * (n - 1))
  }

  function ReadMemory(h: Hart, addr: uint32, size: nat, device: uint32): nat {
    if InMemory(addr) && Phys(addr) + size <= SIZE then Little(h.mem[Phys(addr)..], size) else device % Pow2(8 * size)
  }

  function WriteMemory(h: Hart, addr: uint32, size: nat, v: nat): Hart {
    if InMemory(addr) && Phys(addr) + size <= SIZE then
      h.(mem := seq(SIZE, k requires 0 <= k < SIZE => ByteAt(h, Phys(addr), size, v, k)))
    else h
  }

  function ByteAt(h: Hart, o: nat, size: nat, v: nat, k: nat): byte
    requires k < SIZE
  {
    if o <= k < o + size then v / Pow2(8 * (k - o)) % 0x100 else h.mem[k]
  }

  // ---- Instructions ----

  function Perform(h: Hart, i: Instr, device: uint32): Hart {
    match i
    case LoadUpper(rd, imm) => Next(Put(h, rd, imm))
    case AddUpper(rd, imm) => Next(Put(h, rd, h.pc + imm))
    case Jump(rd, imm) => Put(h, rd, h.pc + 4).(pc := (h.pc + imm) % TWO32)
    case JumpRegister(rd, rs1, imm) =>
      var target := (Get(h, rs1) + imm) % TWO32;
      Put(h, rd, h.pc + 4).(pc := target - target % 2)
    case Branch(cond, rs1, rs2, imm) =>
      if Holds(cond, Get(h, rs1), Get(h, rs2)) then h.(pc := (h.pc + imm) % TWO32) else Next(h)
    case Load(size, signed, rd, rs1, imm) =>
      var v := ReadMemory(h, (Get(h, rs1) + imm) % TWO32, size, device);
      Next(Put(h, rd, if signed then TwosComplement(v, 8 * size) else v))
    case Store(size, rs1, rs2, imm) =>
      Next(WriteMemory(h, (Get(h, rs1) + imm) % TWO32, size, Get(h, rs2)))
    case Immediate(op, rd, rs1, imm) => Next(Put(h, rd, Calculate(op, Get(h, rs1), imm % TWO32)))
    case Register(op, rd, rs1, rs2) => Next(Put(h, rd, Calculate(op, Get(h, rs1), Get(h, rs2))))
    case Nothing => Next(h)
  }

  // ---- Words ----

  function Decode(i: bits): Instr {
    var op, f3, f7 := Opcode(i), Funct3(i), Funct7(i);
    var rd, rs1, rs2 := Number(Rd(i)), Number(Rs1(i)), Number(Rs2(i));
    if op == 0x37 then LoadUpper(rd, Signed(ImmU(i)))
    else if op == 0x17 then AddUpper(rd, Signed(ImmU(i)))
    else if op == 0x6F then Jump(rd, Signed(ImmJ(i)))
    else if op == 0x67 then JumpRegister(rd, rs1, Signed(ImmI(i)))
    else if op == 0x63 then DecodeBranch(BranchCondition(f3), rs1, rs2, Signed(ImmB(i)))
    else if op == 0x03 then DecodeLoad(f3, rd, rs1, Signed(ImmI(i)))
    else if op == 0x23 then DecodeStore(f3, rs1, rs2, Signed(ImmS(i)))
    else if op == 0x13 then
      var o := Operation(f3, if f3 == 5 then f7 else 0);
      if o.Some? then Immediate(o.value, rd, rs1, if f3 == 1 || f3 == 5 then rs2 else Signed(ImmI(i))) else Nothing
    else if op == 0x33 then
      var o := Operation(f3, if f3 == 0 || f3 == 5 then f7 else 0);
      if o.Some? then Register(o.value, rd, rs1, rs2) else Nothing
    else Nothing
  }

  function DecodeBranch(c: Option<Cond>, rs1: nat, rs2: nat, imm: int): Instr {
    if c.Some? then Branch(c.value, rs1, rs2, imm) else Nothing
  }

  function DecodeLoad(f3: bits, rd: nat, rs1: nat, imm: int): Instr {
    if f3 == 0 then Load(1, true, rd, rs1, imm)
    else if f3 == 1 then Load(2, true, rd, rs1, imm)
    else if f3 == 2 then Load(4, true, rd, rs1, imm)
    else if f3 == 4 then Load(1, false, rd, rs1, imm)
    else if f3 == 5 then Load(2, false, rd, rs1, imm)
    else Nothing
  }

  function DecodeStore(f3: bits, rs1: nat, rs2: nat, imm: int): Instr {
    if f3 == 0 then Store(1, rs1, rs2, imm)
    else if f3 == 1 then Store(2, rs1, rs2, imm)
    else if f3 == 2 then Store(4, rs1, rs2, imm)
    else Nothing
  }

  function BranchCondition(f3: bits): Option<Cond> {
    if f3 == 0 then Some(EQ)
    else if f3 == 1 then Some(NE)
    else if f3 == 4 then Some(LT)
    else if f3 == 5 then Some(GE)
    else if f3 == 6 then Some(LTU)
    else if f3 == 7 then Some(GEU)
    else None
  }

  function Operation(f3: bits, f7: bits): Option<Op> {
    if f3 == 0 then (if f7 == 0 then Some(ADD) else if f7 == 0x20 then Some(SUB) else None)
    else if f3 == 1 then Some(SLL)
    else if f3 == 2 then Some(SLT)
    else if f3 == 3 then Some(SLTU)
    else if f3 == 4 then Some(XOR)
    else if f3 == 5 then (if f7 == 0 then Some(SRL) else if f7 == 0x20 then Some(SRA) else None)
    else if f3 == 6 then Some(OR)
    else Some(AND)
  }

  // ---- What the executor's state stands for ----

  function Numbered(r: RegFile): Values { seq(32, k requires 0 <= k < 32 => Value(r[k])) }

  function Meaning(a: Arch): Hart { Hart(Numbered(a.regs), Value(a.pc), a.mem) }

  // ---- The operations ----

  lemma SignedIs(x: bits)
    ensures Signed(x) == TwosComplement(Number(x), 32)
  {
    Pow2Of32();
  }

  lemma EqualIff(x: bits, y: bits)
    ensures x == y <==> Value(x) == Value(y)
  {
    if Value(x) == Value(y) {
      SameNumber(x, y);
    }
  }

  lemma AtLeast(x: bits, y: bits)
    ensures x >= y <==> !(x < y)
  {
  }

  lemma UnsignedIff(x: bits, y: bits)
    ensures (x < y <==> Value(x) < Value(y)) && (x >= y <==> Value(x) >= Value(y))
  {
    LessIff(x, y);
    AtLeast(x, y);
  }

  lemma SignedIff(x: bits, y: bits)
    ensures SignedLess(x, y) <==> TwosComplement(Value(x), 32) < TwosComplement(Value(y), 32)
  {
    SignedLessIff(x, y);
    SignedIs(x);
    SignedIs(y);
  }

  /** Each of the six branches is taken exactly when its comparison of the values holds. */
  lemma Comparisons(f3: bits, x: bits, y: bits)
    ensures match BranchCondition(f3)
            case None => !BranchTaken(f3, x, y)
            case Some(c) => BranchTaken(f3, x, y) <==> Holds(c, Value(x), Value(y))
  {
    if f3 == 0 || f3 == 1 {
      EqualIff(x, y);
    } else if f3 == 4 || f3 == 5 {
      SignedIff(x, y);
    } else if f3 == 6 || f3 == 7 {
      UnsignedIff(x, y);
    }
  }

  // ---- Arithmetic ----

  lemma Amount(y: bits)
    ensures y & 0x1F < 32 && Number(y & 0x1F) == Number(y) % 32
  {
    LowOnes();
    assert Pow2(5) == 32;
    LowBits(y, 0x1F, 5);
    FiveBits(y);
  }

  lemma FiveBits(y: bits)
    ensures y & 0x1F < 32
  {
  }

  lemma Sums(x: bits, y: bits)
    ensures Value(x + y) == Calculate(ADD, Value(x), Value(y))
  {
    SumNumber(x, y);
  }

  lemma Differences(x: bits, y: bits)
    ensures Value(x - y) == Calculate(SUB, Value(x), Value(y))
  {
    DifferenceNumber(x, y);
  }

  lemma LeftShifts(x: bits, s: bits, y: uint32)
    requires s < 32 && Number(s) == y % 32
    ensures Value(x << s) == Calculate(SLL, Value(x), y)
  {
    LeftNumber(x, s);
  }

  lemma RightShifts(x: bits, s: bits, y: uint32)
    requires s < 32 && Number(s) == y % 32
    ensures Value(x >> s) == Calculate(SRL, Value(x), y)
  {
    RightNumber(x, s);
    Fits(Value(x >> s));
  }

  lemma Fits(v: uint32)
    ensures v % TWO32 == v
  {
  }

  lemma ArithmeticShifts(x: bits, s: bits, y: uint32)
    requires s < 32 && Number(s) == y % 32
    ensures Value(Sar(x, s)) == Calculate(SRA, Value(x), y)
  {
    SarNumber(x, s);
    SignedIs(x);
    SignedRange(Sar(x, s));
  }

  lemma SignedCompares(x: bits, y: bits)
    ensures Value(if SignedLess(x, y) then 1 else 0) == Calculate(SLT, Value(x), Value(y))
  {
    SignedIff(x, y);
    NumberOfOne();
  }

  lemma UnsignedCompares(x: bits, y: bits)
    ensures Value(Less(x, y)) == Calculate(SLTU, Value(x), Value(y))
  {
    UnsignedIff(x, y);
    NumberOfOne();
  }

  lemma Exclusive(x: bits, y: bits)
    ensures Value(x ^ y) == Calculate(XOR, Value(x), Value(y))
  {
    XorNumber(x, y);
    Fits(Value(x ^ y));
  }

  lemma Inclusive(x: bits, y: bits)
    ensures Value(x | y) == Calculate(OR, Value(x), Value(y))
  {
    OrNumber(x, y);
    Fits(Value(x | y));
  }

  lemma Common(x: bits, y: bits)
    ensures Value(x & y) == Calculate(AND, Value(x), Value(y))
  {
    AndNumber(x, y);
    Fits(Value(x & y));
  }

  /** The function code that decides: funct7 counts for shifts right, and for OP's first row. */
  function Code7(f3: bits, f7: bits, register: bool): bits {
    if f3 == 5 || (register && f3 == 0) then f7 else 0
  }

  /** The result is there, and is the named operation's on the values. */
  predicate Gives(r: Option<bits>, op: Option<Op>, x: bits, y: bits) {
    match op
    case None => r == None
    case Some(o) => r.Some? && Value(r.value) == Calculate(o, Value(x), Value(y))
  }

  lemma RowOne(f7: bits, x: bits, y: bits, register: bool)
    ensures Gives(Alu(0, f7, x, y, register), Operation(0, Code7(0, f7, register)), x, y)
  {
    Sums(x, y);
    Differences(x, y);
  }

  lemma ExclusiveRow(f7: bits, x: bits, y: bits, register: bool)
    ensures Gives(Alu(4, f7, x, y, register), Some(XOR), x, y)
  {
    Exclusive(x, y);
  }

  lemma InclusiveRow(f7: bits, x: bits, y: bits, register: bool)
    ensures Gives(Alu(6, f7, x, y, register), Some(OR), x, y)
  {
    Inclusive(x, y);
  }

  lemma CommonRow(f7: bits, x: bits, y: bits, register: bool)
    ensures Gives(Alu(7, f7, x, y, register), Some(AND), x, y)
  {
    Common(x, y);
  }

  lemma CompareRows(f7: bits, x: bits, y: bits, register: bool)
    ensures Gives(Alu(2, f7, x, y, register), Some(SLT), x, y)
    ensures Gives(Alu(3, f7, x, y, register), Some(SLTU), x, y)
  {
    SignedCompares(x, y);
    UnsignedCompares(x, y);
  }

  lemma LeftRow(f7: bits, x: bits, y: bits, register: bool)
    ensures Gives(Alu(1, f7, x, y, register), Some(SLL), x, y)
  {
    Amount(y);
    LeftShifts(x, y & 0x1F, Value(y));
  }

  lemma RightRow(f7: bits, x: bits, y: bits, register: bool)
    ensures Gives(Alu(5, f7, x, y, register), Operation(5, f7), x, y)
  {
    var s := y & 0x1F;
    Amount(y);
    RightAlu(f7, x, y, s, register);
    RightRowBy(f7, x, y, s, register, Alu(5, f7, x, y, register));
  }

  lemma RightAlu(f7: bits, x: bits, y: bits, s: bits, register: bool)
    requires s == y & 0x1F && s < 32
    ensures Alu(5, f7, x, y, register) == if f7 == 0 then Some(x >> s) else if f7 == 0x20 then Some(Sar(x, s)) else None
  {
  }

  lemma RightRowBy(f7: bits, x: bits, y: bits, s: bits, register: bool, r: Option<bits>)
    requires s < 32 && Number(s) == Value(y) % 32
    requires r == if f7 == 0 then Some(x >> s) else if f7 == 0x20 then Some(Sar(x, s)) else None
    ensures Gives(r, Operation(5, f7), x, y)
  {
    if f7 == 0 {
      RightShifts(x, s, Value(y));
    } else if f7 == 0x20 {
      ArithmeticShifts(x, s, Value(y));
    }
  }

  lemma EightCodes(f3: bits)
    requires f3 < 8
    ensures f3 in {0, 1, 2, 3, 4, 5, 6, 7}
  {
  }

  /** Every operation of OP-IMM and OP gives the value its name promises. */
  lemma AluCalculates(f3: bits, f7: bits, x: bits, y: bits, register: bool)
    requires f3 < 8
    ensures Gives(Alu(f3, f7, x, y, register), Operation(f3, Code7(f3, f7, register)), x, y)
  {
    EightCodes(f3);
    if f3 == 0 {
      RowOne(f7, x, y, register);
    } else if f3 == 1 {
      LeftRow(f7, x, y, register);
    } else if f3 == 2 || f3 == 3 {
      CompareRows(f7, x, y, register);
    } else if f3 == 5 {
      RightRow(f7, x, y, register);
    } else {
      ExclusiveRow(f7, x, y, register);
      InclusiveRow(f7, x, y, register);
      CommonRow(f7, x, y, register);
    }
  }

  // ---- Registers and program counter ----

  /** x0 holds zero, as it does from the start (Execute.ZeroKept). */
  predicate Sane(a: Arch) { a.regs[0] == 0 }

  lemma Gets(a: Arch, r: bits)
    requires Sane(a) && Isa.Register(r)
    ensures Value(Reg(a, r)) == Get(Meaning(a), Number(r))
  {
    IndexIsNumber(r);
  }

  lemma Puts(a: Arch, r: bits, v: bits, n: int)
    requires Isa.Register(r) && n % TWO32 == Value(v)
    ensures Meaning(SetReg(a, r, v)) == Put(Meaning(a), Number(r), n)
  {
    IndexIsNumber(r);
    assert Index(r) != 0 ==> Numbered(a.regs[Index(r) := v]) == Numbered(a.regs)[Index(r) := Value(v)];
  }

  lemma Moves(x: bits, imm: bits)
    ensures Value(Plus(x, imm)) == (Value(x) + Signed(imm)) % TWO32
  {
    PlusNumber(x, imm);
    SignedRange(imm);
    Congruent(Value(x), Signed(imm), Number(imm));
  }

  lemma Congruent(a: int, b: int, c: int)
    requires b % TWO32 == c
    ensures (a + b) % TWO32 == (a + c) % TWO32
  {
  }

  lemma Links(pc: bits)
    ensures Value(Plus(pc, 4)) == (Value(pc) + 4) % TWO32
  {
    PlusNumber(pc, 4);
    NumberOfOne();
    Unfolded(2);
    Unfolded(4);
  }

  lemma Continues(a: Arch)
    ensures Meaning(Incremented(a)) == Next(Meaning(a))
  {
    Links(a.pc);
  }

  lemma EvenWord(t: bits, h: bits, u: bits)
    requires u == t & !1 && h == t >> 1
    ensures u >> 1 == h && Bit(u) == 0
  {
  }

  lemma EvenNumber(u: bits, h: bits)
    requires u >> 1 == h && Bit(u) == 0
    ensures Number(u) == 2 * Number(h)
  {
    Unfolded(u);
  }

  lemma LowBit(t: bits, h: bits)
    requires h == t >> 1
    ensures Number(t) - Number(t) % 2 == 2 * Number(h)
  {
    Unfolded(t);
    Parts(Number(h), Bit(t));
  }

  lemma FiveBitFields(i: bits)
    ensures Isa.Register(Rd(i)) && Isa.Register(Rs1(i)) && Isa.Register(Rs2(i))
  {
  }

  // ---- Memory ----

  lemma {:induction false} LittleIs(b: seq<byte>, c: seq<byte>, n: nat)
    requires n <= |b| && n <= |c| && b[..n] == c[..n]
    ensures Little(b, n) == Little(c, n)
  {
    if n > 0 {
      assert b[..n][..n - 1] == b[..n - 1] && c[..n][..n - 1] == c[..n - 1];
      assert b[..n][n - 1] == c[..n][n - 1];
      LittleIs(b, c, n - 1);
    }
  }

  /** Little from the first byte on. */
  lemma {:induction false} LittleFront(b: seq<byte>, n: nat)
    requires n < |b|
    ensures Little(b, n + 1) == b[0] + 0x100 * Little(b[1..], n)
  {
    if n > 0 {
      LittleFront(b, n - 1);
      Eight(n - 1);
      assert b[1..][n - 1] == b[n];
      Spread(b[n], Pow2(8 * (n - 1)));
    } else {
      assert Little(b, 0) == 0;
    }
  }

  lemma Eight(n: nat)
    ensures Pow2(8 * (n + 1)) == 0x100 * Pow2(8 * n)
  {
    Four(8 * n);
    Four(8 * n + 4);
  }

  lemma Four(k: nat)
    ensures Pow2(k + 4) == 16 * Pow2(k)
  {
    assert Pow2(k + 4) == 2 * Pow2(k + 3) && Pow2(k + 3) == 2 * Pow2(k + 2);
    assert Pow2(k + 2) == 2 * Pow2(k + 1) && Pow2(k + 1) == 2 * Pow2(k);
  }

  lemma Spread(b: nat, p: nat)
    ensures b * (0x100 * p) == 0x100 * (b * p)
  {
  }

  lemma {:induction false} LittleEndian(b: seq<byte>)
    ensures LeValue(b) == Little(b, |b|)
  {
    if b != [] {
      LittleEndian(b[1..]);
      LittleFront(b, |b| - 1);
    }
  }

  lemma {:induction false} LittleBelow(b: seq<byte>, n: nat)
    requires n <= |b|
    ensures Little(b, n) < Pow2(8 * n)
  {
    if n > 0 {
      LittleBelow(b, n - 1);
      Eight(n - 1);
      ByteBelow(b[n - 1], Pow2(8 * (n - 1)));
    }
  }

  lemma ByteBelow(b: byte, p: nat)
    ensures b * p + p <= 0x100 * p
  {
    assert (b + 1) * p <= 0x100 * p;
  }

  lemma {:induction false} BytesAt(v: nat, n: nat, k: nat)
    requires k < n
    ensures Bytes(v, n)[k] == v / Pow2(8 * k) % 0x100
  {
    if k > 0 {
      BytesAt(v / 0x100, n - 1, k - 1);
      Eight(k - 1);
      DivideByProduct(v, 0x100, Pow2(8 * (k - 1)));
    }
  }

  lemma AddressIs(w: bits)
    ensures Address(w) == Value(w)
  {
    NumberFits(w);
    WrapSmall(Number(w));
  }

  /** The value a load of n bytes delivers before it is extended. */
  lemma Loads(a: Arch, addr: bits, n: nat, d: bits)
    requires n <= 4
    ensures Value(LoadWord(a, addr, n, d)) % Pow2(8 * n) == ReadMemory(Meaning(a), Value(addr), n, Value(d))
  {
    AddressIs(addr);
    if InRam(addr, n) {
      ReadsLittle(a.mem, Phys(Address(addr)), n);
    }
  }

  lemma ReadsLittle(mem: Ram, o: nat, n: nat)
    requires o + n <= SIZE && n <= 4
    ensures Value(Word32(LeValue(Slice(mem, o, n)))) % Pow2(8 * n) == Little(mem[o..], n)
  {
    var b := Slice(mem, o, n);
    LittleEndian(b);
    assert b[..n] == mem[o..][..n];
    LittleIs(b, mem[o..], n);
    LittleBelow(b, n);
    Pow2Monotone(8 * n, 32);
    Pow2Of32();
    NumberOfWord(LeValue(b));
    ModSmall(LeValue(b), Pow2(8 * n));
  }

  lemma Stores(a: Arch, addr: bits, v: bits, n: nat)
    ensures Meaning(StoreWord(a, addr, v, n)) == WriteMemory(Meaning(a), Value(addr), n, Value(v))
  {
    AddressIs(addr);
    if InRam(addr, n) {
      StoredBytes(Meaning(a), a, Phys(Address(addr)), v, n);
    }
  }

  lemma StoredBytes(h: Hart, a: Arch, o: nat, v: bits, n: nat)
    requires o + n <= SIZE && h.mem == a.mem
    ensures Splice(a.mem, o, Bytes(Number(v), n))
         == seq(SIZE, k requires 0 <= k < SIZE => ByteAt(h, o, n, Value(v), k))
  {
    var got := Splice(a.mem, o, Bytes(Number(v), n));
    var want := seq(SIZE, k requires 0 <= k < SIZE => ByteAt(h, o, n, Value(v), k));
    forall k | 0 <= k < SIZE
      ensures got[k] == want[k]
    {
      if o <= k < o + n {
        BytesAt(Number(v), n, k - o);
      }
    }
  }

  // ---- Sign extension ----

  /** Shifting left and arithmetically right again keeps the low n bits, as two's complement. */
  lemma Extends(x: bits, s: bits, n: nat)
    requires s < 32 && Number(s) + n == 32 && n > 0
    ensures Signed(Sar(x << s, s)) == TwosComplement(Number(x) % Pow2(n), n)
  {
    var p, q := Pow2(Number(s)), Pow2(n);
    PowerSum(Number(s), n);
    Pow2Of32();
    LeftNumber(x, s);
    SarNumber(x << s, s);
    Scaled(Number(x), q, p);
    UnscaledSign(Number(x) % q, q, p);
  }

  lemma {:induction false} PowerSum(k: nat, n: nat)
    ensures Pow2(k + n) == Pow2(k) * Pow2(n)
  {
    if n > 0 {
      PowerSum(k, n - 1);
      Spread2(Pow2(k), Pow2(n - 1));
    }
  }

  lemma Spread2(a: nat, b: nat)
    ensures 2 * (a * b) == a * (2 * b)
  {
  }

  lemma Scaled(v: nat, q: nat, p: nat)
    requires q > 0 && p > 0
    ensures v * p % (p * q) == (v % q) * p
  {
    var d, r := v / q, v % q;
    assert v * p == (q * d + r) * p == (p * q) * d + r * p;
    ProductMonotone(p, r + 1, q);
    assert p * (r + 1) == r * p + p;
    QuotientIs(v * p, p * q, d, r * p);
  }

  /** Dividing the signed reading of r * p out of p * q gives that of r out of q. */
  lemma UnscaledSign(r: nat, q: nat, p: nat)
    requires r < q && p > 0 && p * q == TWO32
    ensures (if r * p < 0x8000_0000 then r * p else r * p - TWO32) / p == if 2 * r < q then r else r - q
  {
    assert p * (2 * r) == 2 * (r * p);
    if 2 * r < q {
      ProductMonotone(p, 2 * r, q - 1);
      assert p * (q - 1) == p * q - p;
      QuotientIs(r * p, p, r, 0);
    } else {
      ProductMonotone(p, q, 2 * r);
      assert p * (r - q) == r * p - TWO32;
      QuotientIs(r * p - TWO32, p, r - q, 0);
    }
  }

  lemma ByteShifts(x: bits)
    ensures Extend8(x) == Sar(x << 24, 24)
  {
  }

  lemma NegativeHalf(x: bits)
    requires x & 0x8000 != 0
    ensures (x << 16) & 0x8000_0000 != 0 && x | 0xFFFF_0000 == !(!(x << 16) >> 16)
  {
  }

  lemma PositiveHalf(x: bits)
    requires x & 0x8000 == 0
    ensures (x << 16) & 0x8000_0000 == 0 && x & 0xFFFF == (x << 16) >> 16
  {
  }

  lemma HalfShifts(x: bits)
    ensures Extend16(x) == Sar(x << 16, 16)
  {
    if x & 0x8000 != 0 {
      NegativeHalf(x);
    } else {
      PositiveHalf(x);
    }
  }

  lemma Amounts()
    ensures Number(16) == 16 && Number(24) == 24
  {
    Unfolded(1);
    Unfolded(2);
    Unfolded(4);
    Unfolded(8);
    Unfolded(16);
    Unfolded(3);
    Unfolded(6);
    Unfolded(12);
    Unfolded(24);
  }

  lemma ExtendsByte(x: bits)
    ensures Signed(Extend8(x)) == TwosComplement(Number(x) % Pow2(8), 8)
  {
    Amounts();
    ByteShifts(x);
    Extends(x, 24, 8);
  }

  lemma ExtendsHalf(x: bits)
    ensures Signed(Extend16(x)) == TwosComplement(Number(x) % Pow2(16), 16)
  {
    Amounts();
    HalfShifts(x);
    Extends(x, 16, 16);
  }

  lemma MaskedByte(x: bits)
    ensures Value(x & 0xFF) == Value(x) % Pow2(8)
  {
    LowOnes();
    assert Pow2(8) == 0x100;
    LowBits(x, 0xFF, 8);
  }

  lemma MaskedHalf(x: bits)
    ensures Value(x & 0xFFFF) == Value(x) % Pow2(16)
  {
    LowOnes();
    assert Pow2(8) == 0x100;
    Four(8);
    Four(12);
    LowBits(x, 0xFFFF, 16);
  }

  /** A load of n bytes whose value is extended as its name says, or none. */
  predicate Extension(l: Instr, e: Option<bits>, raw: bits, n: nat, rd: nat, rs1: nat, imm: int) {
    match l
    case Load(size, signed, r, base, offset) =>
      var v := Value(raw) % Pow2(8 * size);
      && size == n <= 4 && r == rd && base == rs1 && offset == imm && e.Some?
      && Value(e.value) == (if signed then TwosComplement(v, 8 * size) else v) % TWO32
    case _ => l == Nothing && e == None
  }

  /** The five loads extend what they read as their names say. */
  lemma ExtendedIs(f3: bits, raw: bits, rd: nat, rs1: nat, imm: int)
    ensures Extension(DecodeLoad(f3, rd, rs1, imm), Extended(f3, raw), raw, LoadSize(f3), rd, rs1, imm)
  {
    if f3 == 0 {
      ExtendsByte(raw);
      SignedRange(Extend8(raw));
    } else if f3 == 1 {
      ExtendsHalf(raw);
      SignedRange(Extend16(raw));
    } else if f3 == 2 {
      WholeWord(raw);
    } else if f3 == 4 {
      MaskedByte(raw);
      Fits(Value(raw & 0xFF));
    } else if f3 == 5 {
      MaskedHalf(raw);
      Fits(Value(raw & 0xFFFF));
    }
  }

  lemma WholeWord(raw: bits)
    ensures Value(raw) % Pow2(32) == Value(raw) && TwosComplement(Value(raw), 32) % TWO32 == Value(raw)
  {
    Pow2Of32();
    Fits(Value(raw));
    SignedIs(raw);
    SignedRange(raw);
  }

  // ---- The executor ----

  /** What one instruction does to the values. */
  ghost predicate Performs(a: Arch, b: Arch, i: bits, d: bits) {
    Meaning(b) == Perform(Meaning(a), Decode(i), Value(d))
  }

  lemma SetAndNext(a: Arch, rd: bits, v: bits, n: int)
    requires Isa.Register(rd) && n % TWO32 == Value(v)
    ensures Meaning(Incremented(SetReg(a, rd, v))) == Next(Put(Meaning(a), Number(rd), n))
  {
    Puts(a, rd, v, n);
    Continues(SetReg(a, rd, v));
  }

  lemma SetAndJump(a: Arch, rd: bits, link: bits, target: bits, pc: uint32)
    requires Isa.Register(rd) && Value(link) == (Value(a.pc) + 4) % TWO32 && Value(target) == pc
    ensures Meaning(SetReg(a, rd, link).(pc := target))
         == Put(Meaning(a), Number(rd), Meaning(a).pc + 4).(pc := pc)
  {
    Puts(a, rd, link, Value(a.pc) + 4);
  }

  lemma UpperPerforms(a: Arch, i: bits, d: bits)
    requires Opcode(i) == OP_LUI
    ensures Performs(a, Lui(a, i), i, d)
  {
    FiveBitFields(i);
    SignedRange(ImmU(i));
    assert Decode(i) == LoadUpper(Number(Rd(i)), Signed(ImmU(i)));
    SetAndNext(a, Rd(i), ImmU(i), Signed(ImmU(i)));
  }

  lemma AddUpperPerforms(a: Arch, i: bits, d: bits)
    requires Opcode(i) == OP_AUIPC
    ensures Performs(a, Auipc(a, i), i, d)
  {
    FiveBitFields(i);
    AddUpperDecodes(i);
    AddsUpper(a, Auipc(a, i), Rd(i), ImmU(i), d);
  }

  lemma AddUpperDecodes(i: bits)
    requires Opcode(i) == OP_AUIPC
    ensures Decode(i) == AddUpper(Number(Rd(i)), Signed(ImmU(i)))
  {
  }

  lemma AddsUpper(a: Arch, b: Arch, rd: bits, imm: bits, d: bits)
    requires Isa.Register(rd) && b == Incremented(SetReg(a, rd, Plus(a.pc, imm)))
    ensures Meaning(b) == Perform(Meaning(a), AddUpper(Number(rd), Signed(imm)), Value(d))
  {
    Moves(a.pc, imm);
    AddsUpperBy(a, b, rd, Plus(a.pc, imm), Signed(imm), d);
  }

  lemma AddsUpperBy(a: Arch, b: Arch, rd: bits, v: bits, imm: int, d: bits)
    requires Isa.Register(rd) && b == Incremented(SetReg(a, rd, v)) && Value(v) == (Value(a.pc) + imm) % TWO32
    ensures Meaning(b) == Perform(Meaning(a), AddUpper(Number(rd), imm), Value(d))
  {
    SetAndNext(a, rd, v, Value(a.pc) + imm);
  }

  lemma JumpPerforms(a: Arch, i: bits, d: bits)
    requires Opcode(i) == OP_JAL
    ensures Performs(a, Jal(a, i), i, d)
  {
    FiveBitFields(i);
    JumpDecodes(i);
    Jumps(a, Jal(a, i), Rd(i), ImmJ(i), d);
  }

  lemma JumpDecodes(i: bits)
    requires Opcode(i) == OP_JAL
    ensures Decode(i) == Jump(Number(Rd(i)), Signed(ImmJ(i)))
  {
  }

  lemma Jumps(a: Arch, b: Arch, rd: bits, imm: bits, d: bits)
    requires Isa.Register(rd) && b == SetReg(a, rd, Plus(a.pc, 4)).(pc := Plus(a.pc, imm))
    ensures Meaning(b) == Perform(Meaning(a), Jump(Number(rd), Signed(imm)), Value(d))
  {
    Moves(a.pc, imm);
    JumpsBy(a, b, rd, Plus(a.pc, imm), Signed(imm), d);
  }

  lemma JumpsBy(a: Arch, b: Arch, rd: bits, t: bits, imm: int, d: bits)
    requires Isa.Register(rd) && b == SetReg(a, rd, Plus(a.pc, 4)).(pc := t)
    requires Value(t) == (Value(a.pc) + imm) % TWO32
    ensures Meaning(b) == Perform(Meaning(a), Jump(Number(rd), imm), Value(d))
  {
    Links(a.pc);
    SetAndJump(a, rd, Plus(a.pc, 4), t, Value(t));
  }

  lemma JumpRegisterPerforms(a: Arch, i: bits, d: bits)
    requires Sane(a) && Opcode(i) == OP_JALR
    ensures Performs(a, Jalr(a, i), i, d)
  {
    FiveBitFields(i);
    Gets(a, Rs1(i));
    JumpRegisterDecodes(i);
    JumpsTo(a, Jalr(a, i), Rd(i), Reg(a, Rs1(i)), Number(Rs1(i)), ImmI(i), d);
  }

  lemma JumpRegisterDecodes(i: bits)
    requires Opcode(i) == OP_JALR
    ensures Decode(i) == JumpRegister(Number(Rd(i)), Number(Rs1(i)), Signed(ImmI(i)))
  {
  }

  lemma JumpsTo(a: Arch, b: Arch, rd: bits, x: bits, rs1: nat, imm: bits, d: bits)
    requires Isa.Register(rd) && Value(x) == Get(Meaning(a), rs1)
    requires b == SetReg(a, rd, Plus(a.pc, 4)).(pc := b.pc) && b.pc == Plus(x, imm) & !1
    ensures Meaning(b) == Perform(Meaning(a), JumpRegister(Number(rd), rs1, Signed(imm)), Value(d))
  {
    Moves(x, imm);
    Cut(Plus(x, imm), b.pc);
    JumpsToEven(a, b, rd, rs1, Signed(imm), Value(Plus(x, imm)), d);
  }

  lemma Cut(t: bits, u: bits)
    requires u == t & !1
    ensures Value(u) == Value(t) - Value(t) % 2
  {
    var h := t >> 1;
    EvenWord(t, h, u);
    EvenNumber(u, h);
    LowBit(t, h);
  }

  lemma JumpsToEven(a: Arch, b: Arch, rd: bits, rs1: nat, imm: int, t: uint32, d: bits)
    requires Isa.Register(rd) && t == (Get(Meaning(a), rs1) + imm) % TWO32
    requires b == SetReg(a, rd, Plus(a.pc, 4)).(pc := b.pc) && Value(b.pc) == t - t % 2
    ensures Meaning(b) == Perform(Meaning(a), JumpRegister(Number(rd), rs1, imm), Value(d))
  {
    Links(a.pc);
    SetAndJump(a, rd, Plus(a.pc, 4), b.pc, Value(b.pc));
  }

  lemma BranchPerforms(a: Arch, i: bits, d: bits)
    requires Sane(a) && Opcode(i) == OP_BRANCH
    ensures Performs(a, Execute.Branch(a, i), i, d)
  {
    FiveBitFields(i);
    Gets(a, Rs1(i));
    Gets(a, Rs2(i));
    BranchDecodes(i);
    Branches(a, Execute.Branch(a, i), Funct3(i), Reg(a, Rs1(i)), Reg(a, Rs2(i)),
             Number(Rs1(i)), Number(Rs2(i)), ImmB(i), d);
  }

  lemma BranchDecodes(i: bits)
    requires Opcode(i) == OP_BRANCH
    ensures Decode(i) == DecodeBranch(BranchCondition(Funct3(i)), Number(Rs1(i)), Number(Rs2(i)), Signed(ImmB(i)))
  {
  }

  lemma Branches(a: Arch, b: Arch, f3: bits, x: bits, y: bits, rs1: nat, rs2: nat, imm: bits, d: bits)
    requires Value(x) == Get(Meaning(a), rs1) && Value(y) == Get(Meaning(a), rs2)
    requires b == if BranchTaken(f3, x, y) then a.(pc := Plus(a.pc, imm)) else Incremented(a)
    ensures Meaning(b) == Perform(Meaning(a), DecodeBranch(BranchCondition(f3), rs1, rs2, Signed(imm)), Value(d))
  {
    Comparisons(f3, x, y);
    Continues(a);
    BranchesBy(a, imm);
  }

  lemma BranchesBy(a: Arch, imm: bits)
    ensures Meaning(a.(pc := Plus(a.pc, imm))) == Meaning(a).(pc := (Meaning(a).pc + Signed(imm)) % TWO32)
  {
    Moves(a.pc, imm);
  }

  lemma LoadPerforms(a: Arch, i: bits, d: bits)
    requires Sane(a) && Opcode(i) == OP_LOAD
    ensures Performs(a, Execute.Load(a, i, d), i, d)
  {
    FiveBitFields(i);
    LoadAddressIs(a, i);
    LoadDecodes(i);
    LoadsInto(a, Funct3(i), Rd(i), Number(Rs1(i)), Signed(ImmI(i)), LoadAddress(a, i), d);
  }

  lemma LoadAddressIs(a: Arch, i: bits)
    requires Sane(a)
    ensures Value(LoadAddress(a, i)) == (Get(Meaning(a), Number(Rs1(i))) + Signed(ImmI(i))) % TWO32
  {
    FiveBitFields(i);
    Gets(a, Rs1(i));
    Moves(Reg(a, Rs1(i)), ImmI(i));
  }

  lemma StoreAddressIs(a: Arch, i: bits)
    requires Sane(a)
    ensures Value(StoreAddress(a, i)) == (Get(Meaning(a), Number(Rs1(i))) + Signed(ImmS(i))) % TWO32
  {
    FiveBitFields(i);
    Gets(a, Rs1(i));
    Moves(Reg(a, Rs1(i)), ImmS(i));
  }

  lemma LoadDecodes(i: bits)
    requires Opcode(i) == OP_LOAD
    ensures Decode(i) == DecodeLoad(Funct3(i), Number(Rd(i)), Number(Rs1(i)), Signed(ImmI(i)))
  {
  }

  lemma LoadsInto(a: Arch, f3: bits, rd: bits, rs1: nat, imm: int, addr: bits, d: bits)
    requires Isa.Register(rd) && Value(addr) == (Get(Meaning(a), rs1) + imm) % TWO32
    ensures Meaning(Incremented(WriteBack(a, rd, Loaded(a, f3, addr, d))))
         == Perform(Meaning(a), DecodeLoad(f3, Number(rd), rs1, imm), Value(d))
  {
    var n := LoadSize(f3);
    var raw := LoadWord(a, addr, n, d);
    ExtendedIs(f3, raw, Number(rd), rs1, imm);
    LoadedWritten(a, rd, rs1, imm, DecodeLoad(f3, Number(rd), rs1, imm), Loaded(a, f3, addr, d), raw, addr, n, d);
  }

  lemma LoadedWritten(a: Arch, rd: bits, rs1: nat, imm: int, l: Instr, e: Option<bits>, raw: bits, addr: bits, n: nat,
                      d: bits)
    requires Isa.Register(rd) && raw == LoadWord(a, addr, n, d) && Value(addr) == (Get(Meaning(a), rs1) + imm) % TWO32
    requires Extension(l, e, raw, n, Number(rd), rs1, imm)
    ensures Meaning(Incremented(WriteBack(a, rd, e))) == Perform(Meaning(a), l, Value(d))
  {
    match l {
      case Load(_, signed, _, _, _) =>
        Loads(a, addr, n, d);
        LoadedValue(a, rd, rs1, imm, n, signed, e.value, Value(addr), Value(raw) % Pow2(8 * n), d);
      case _ =>
        Continues(a);
    }
  }

  lemma LoadedValue(a: Arch, rd: bits, rs1: nat, imm: int, n: nat, signed: bool, r: bits, addr: uint32, v: nat, d: bits)
    requires Isa.Register(rd) && addr == (Get(Meaning(a), rs1) + imm) % TWO32
    requires v == ReadMemory(Meaning(a), addr, n, Value(d))
    requires Value(r) == (if signed then TwosComplement(v, 8 * n) else v) % TWO32
    ensures Meaning(Incremented(SetReg(a, rd, r)))
         == Perform(Meaning(a), Load(n, signed, Number(rd), rs1, imm), Value(d))
  {
    var value := if signed then TwosComplement(v, 8 * n) else v;
    SetAndNext(a, rd, r, value);
    PerformsLoad(Meaning(a), n, signed, Number(rd), rs1, imm, Value(d), addr, value);
  }

  lemma PerformsLoad(h: Hart, n: nat, signed: bool, rd: nat, rs1: nat, imm: int, device: uint32, addr: uint32,
                     value: int)
    requires addr == (Get(h, rs1) + imm) % TWO32
    requires var v := ReadMemory(h, addr, n, device); value == if signed then TwosComplement(v, 8 * n) else v
    ensures Perform(h, Load(n, signed, rd, rs1, imm), device) == Next(Put(h, rd, value))
  {
  }

  lemma StorePerforms(a: Arch, i: bits, d: bits)
    requires Sane(a) && Opcode(i) == OP_STORE
    ensures Performs(a, Execute.Store(a, i), i, d)
  {
    FiveBitFields(i);
    Gets(a, Rs2(i));
    StoreAddressIs(a, i);
    StoreDecodes(i);
    StoresFrom(a, Funct3(i), Number(Rs1(i)), Number(Rs2(i)), Signed(ImmS(i)), StoreAddress(a, i), Reg(a, Rs2(i)), d);
  }

  lemma StoreDecodes(i: bits)
    requires Opcode(i) == OP_STORE
    ensures Decode(i) == DecodeStore(Funct3(i), Number(Rs1(i)), Number(Rs2(i)), Signed(ImmS(i)))
  {
  }

  lemma StoresFrom(a: Arch, f3: bits, rs1: nat, rs2: nat, imm: int, addr: bits, v: bits, d: bits)
    requires Value(addr) == (Get(Meaning(a), rs1) + imm) % TWO32 && Value(v) == Get(Meaning(a), rs2)
    ensures Meaning(Incremented(StoreWord(a, addr, v, StoreSize(f3))))
         == Perform(Meaning(a), DecodeStore(f3, rs1, rs2, imm), Value(d))
  {
    StoreSizes(f3, rs1, rs2, imm);
    StoresSize(a, StoreSize(f3), DecodeStore(f3, rs1, rs2, imm), rs1, rs2, imm, addr, v, d);
  }

  lemma StoreSizes(f3: bits, rs1: nat, rs2: nat, imm: int)
    ensures var n := StoreSize(f3);
            DecodeStore(f3, rs1, rs2, imm) == (if n == 0 then Nothing else Store(n, rs1, rs2, imm)) && n <= 4
  {
  }

  lemma StoresSize(a: Arch, n: nat, s: Instr, rs1: nat, rs2: nat, imm: int, addr: bits, v: bits, d: bits)
    requires Value(addr) == (Get(Meaning(a), rs1) + imm) % TWO32 && Value(v) == Get(Meaning(a), rs2)
    requires n <= 4 && s == if n == 0 then Nothing else Store(n, rs1, rs2, imm)
    ensures Meaning(Incremented(StoreWord(a, addr, v, n))) == Perform(Meaning(a), s, Value(d))
  {
    Continues(StoreWord(a, addr, v, n));
    if n == 0 {
      StoresNone(a, addr, v);
    } else {
      Stores(a, addr, v, n);
      PerformsStore(Meaning(a), n, rs1, rs2, imm, Value(d), Value(addr), Value(v));
    }
  }

  lemma PerformsStore(h: Hart, n: nat, rs1: nat, rs2: nat, imm: int, device: uint32, addr: uint32, v: uint32)
    requires addr == (Get(h, rs1) + imm) % TWO32 && v == Get(h, rs2)
    ensures Perform(h, Store(n, rs1, rs2, imm), device) == Next(WriteMemory(h, addr, n, v))
  {
  }

  lemma StoresNone(a: Arch, addr: bits, v: bits)
    ensures StoreWord(a, addr, v, 0) == a
  {
    if InRam(addr, 0) {
      assert Splice(a.mem, Phys(Address(addr)), []) == a.mem;
    }
  }

  lemma ImmediatePerforms(a: Arch, i: bits, d: bits)
    requires Sane(a) && Opcode(i) == OP_IMM
    ensures Performs(a, OpImm(a, i), i, d)
  {
    FiveBitFields(i);
    ThreeBits(i);
    Gets(a, Rs1(i));
    ImmediateDecodes(i);
    AluCalculates(Funct3(i), Funct7(i), Reg(a, Rs1(i)), Operand(i), false);
    ResultWritten(a, Rd(i), Alu(Funct3(i), Funct7(i), Reg(a, Rs1(i)), Operand(i), false));
  }

  lemma ImmediateDecodes(i: bits)
    requires Opcode(i) == OP_IMM
    ensures var o := Operation(Funct3(i), Code7(Funct3(i), Funct7(i), false));
            if o.None? then Decode(i) == Nothing
            else
              && Decode(i).Immediate? && Decode(i).op == o.value && Decode(i).rd == Number(Rd(i))
              && Decode(i).rs1 == Number(Rs1(i)) && Decode(i).imm % TWO32 == Value(Operand(i))
  {
    SignedRange(ImmI(i));
    Fits(Value(Rs2(i)));
  }

  lemma RegisterPerforms(a: Arch, i: bits, d: bits)
    requires Sane(a) && Opcode(i) == OP_REG
    ensures Performs(a, OpReg(a, i), i, d)
  {
    FiveBitFields(i);
    ThreeBits(i);
    Gets(a, Rs1(i));
    Gets(a, Rs2(i));
    RegisterDecodes(i);
    AluCalculates(Funct3(i), Funct7(i), Reg(a, Rs1(i)), Reg(a, Rs2(i)), true);
    ResultWritten(a, Rd(i), Alu(Funct3(i), Funct7(i), Reg(a, Rs1(i)), Reg(a, Rs2(i)), true));
  }

  lemma RegisterDecodes(i: bits)
    requires Opcode(i) == OP_REG
    ensures var o := Operation(Funct3(i), Code7(Funct3(i), Funct7(i), true));
            Decode(i) == if o.Some? then Register(o.value, Number(Rd(i)), Number(Rs1(i)), Number(Rs2(i))) else Nothing
  {
  }

  lemma ThreeBits(i: bits)
    ensures Funct3(i) < 8
  {
  }

  lemma ResultWritten(a: Arch, rd: bits, r: Option<bits>)
    requires Isa.Register(rd)
    ensures Meaning(Incremented(WriteBack(a, rd, r)))
         == Next(if r.Some? then Put(Meaning(a), Number(rd), Value(r.value)) else Meaning(a))
  {
    if r.Some? {
      Fits(Value(r.value));
      SetAndNext(a, rd, r.value, Value(r.value));
    } else {
      Continues(a);
    }
  }

  /** The executor is RV32I on every word outside the SYSTEM opcode: registers, PC and memory
      are what the specification's description of the decoded instruction gives, and x0 stays
      zero. */
  lemma ExecutorIsRv32i(a: Arch, i: bits, d: bits)
    requires Sane(a) && Opcode(i) != OP_SYSTEM
    ensures Meaning(Run(a, i, d)) == Perform(Meaning(a), Decode(i), Value(d))
    ensures Sane(Run(a, i, d))
  {
    ZeroKept(a, i, d);
    var op := Opcode(i);
    if op == OP_LUI {
      UpperPerforms(a, i, d);
    } else if op == OP_AUIPC {
      AddUpperPerforms(a, i, d);
    } else if op == OP_JAL {
      JumpPerforms(a, i, d);
    } else if op == OP_JALR {
      JumpRegisterPerforms(a, i, d);
    } else if op == OP_BRANCH {
      BranchPerforms(a, i, d);
    } else if op == OP_LOAD {
      LoadPerforms(a, i, d);
    } else if op == OP_STORE {
      StorePerforms(a, i, d);
    } else if op == OP_IMM {
      ImmediatePerforms(a, i, d);
    } else if op == OP_REG {
      RegisterPerforms(a, i, d);
    } else {
      Continues(a);
    }
  }
}
