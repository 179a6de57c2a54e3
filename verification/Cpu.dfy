/** The CPU thread: interrupt check, fetch, execute (cpu/rv32-lt/core.cpp), with the SYSTEM
    instructions of cpu/rv32-lt/base_isa.h. */
module Cpu {
  import opened Isa
  import opened Words
  import opened Numbers
  import opened CsrModel
  import opened Execute

  /** A hart: what programs see, its control registers, and whether ECALL stopped it. */
  datatype Machine = Machine(arch: Arch, csr: CsrState, stopped: bool)

  /** What the platform supplies to one iteration of the thread: the pending interrupts, and
      what a peripheral returns if the instruction loads from one. */
  datatype Env = Env(pending: bits, device: bits)

  /** How a core fetches and runs everything outside the SYSTEM opcode. */
  datatype Core = Core(fetch: Arch -> bits, run: (Arch, bits, bits) -> Arch)

  // ---- Interrupts ----

  /** Priority: external, then software, then timer. */
  function Cause(active: bits): Option<bits> {
    if active & EXTERNAL != 0 then Some(11)
    else if active & SOFTWARE != 0 then Some(3)
    else if active & TIMER != 0 then Some(7)
    else None
  }

  /** The cause names an active interrupt, and none of higher priority is active. */
  lemma CausePriority(active: bits)
    ensures match Cause(active)
            case None => active & INTERRUPTS == 0
            case Some(c) =>
              && (c == 11 || c == 3 || c == 7)
              && (c == 11 ==> active & EXTERNAL != 0)
              && (c == 3 ==> active & SOFTWARE != 0 && active & EXTERNAL == 0)
              && (c == 7 ==> active & TIMER != 0 && active & (EXTERNAL | SOFTWARE) == 0)
  {
  }

  /** The enabled pending interrupt to take, if interrupts are on. */
  function Active(c: CsrState): Option<bits> {
    if c.mstatus & STATUS_MIE == 0 then None else Cause(c.mip & c.mie)
  }

  /** The interrupt checkInterrupts takes, if any. */
  function Taken(c: CsrState, pending: bits): Option<bits> { Active(Synced(c, pending)) }

  /** Where the trap goes: direct, or vectored by cause. */
  function Vector(mtvec: bits, cause: bits): bits {
    if mtvec & 0x3 == 1 then Plus(mtvec & !0x3, 4 * (cause & 0x1F)) else mtvec & !0x3
  }

  /** The control registers and the PC after checkInterrupts. */
  function Checked(c: CsrState, pc: bits, pending: bits): (CsrState, bits) {
    match Taken(c, pending)
    case None => (Synced(c, pending), pc)
    case Some(cause) => (Trapped(Synced(c, pending), pc, cause, true), Vector(c.mtvec, cause))
  }

  function CheckInterrupts(m: Machine, pending: bits): Machine {
    var (c, pc) := Checked(m.csr, m.arch.pc, pending);
    m.(csr := c, arch := m.arch.(pc := pc))
  }

  // ---- What the architecture asks of the check ----

  /** Interrupt k is pending at the platform and enabled in mie. */
  predicate Due(mie: bits, pending: bits, k: bits)
    requires k < 32
  {
    Set(pending, k) && Set(mie, k)
  }

  /** With mstatus bit 3 set, the first of external (11), software (3) and timer (7) that is due. */
  function Expected(mstatus: bits, mie: bits, pending: bits): Option<bits> {
    if !Set(mstatus, 3) then None
    else if Due(mie, pending, 11) then Some(11)
    else if Due(mie, pending, 3) then Some(3)
    else if Due(mie, pending, 7) then Some(7)
    else None
  }

  /** A trap is taken exactly when interrupts are on and one of the three is both pending and
      enabled; it is then the one of highest priority. */
  lemma TakenIs(c: CsrState, pending: bits)
    ensures Taken(c, pending) == Expected(c.mstatus, c.mie, pending)
    ensures Taken(c, pending).Some? <==> Set(c.mstatus, 3) && exists k: bits | k in {3, 7, 11} :: Due(c.mie, pending, k)
  {
    ActiveBits(c, pending);
    if Taken(c, pending).Some? {
      assert Due(c.mie, pending, Taken(c, pending).value);
    }
  }

  lemma ActiveBits(c: CsrState, pending: bits)
    ensures Taken(c, pending) == Expected(c.mstatus, c.mie, pending)
    ensures var t := Taken(c, pending); t.Some? ==> t.value == 3 || t.value == 7 || t.value == 11
  {
  }

  /** The PC a trap goes to: the base in mtvec, plus four times the cause if its mode is 1. */
  function Handler(mtvec: nat, cause: nat): nat {
    (mtvec - mtvec % 4 + if mtvec % 4 == 1 then 4 * cause else 0) % TWO32
  }

  lemma WithoutLow(x: bits)
    ensures x & !0x3 == x - (x & 0x3)
  {
  }

  /** The two low bits are the remainder by four. */
  lemma LowNumber(x: bits)
    ensures Number(x & 0x3) == Number(x) % 4
  {
    CauseNumbers();
    assert Pow2(2) == 4;
    LowBits(x, 0x3, 2);
  }

  lemma BaseNumber(x: bits)
    ensures Number(x & !0x3) == Number(x) - Number(x) % 4
  {
    WithoutLow(x);
    Lowered(x, x & 0x3);
  }

  lemma Lowered(x: bits, low: bits)
    requires low == x & 0x3
    ensures Number(x - low) == Number(x) - Number(x) % 4
  {
    LowNumber(x);
    DifferenceNumber(x, low);
    NumberFits(x);
    WrapSmall(Number(x) - Number(x) % 4);
  }

  lemma ModeIsOne(x: bits)
    ensures x & 0x3 == 1 <==> Number(x) % 4 == 1
  {
    LowNumber(x);
    NumberOfOne();
    if Number(x) % 4 == 1 {
      SameNumber(x & 0x3, 1);
    }
  }

  lemma CauseNumbers()
    ensures Number(3) == 3 && Number(7) == 7 && Number(11) == 11
    ensures Number(12) == 12 && Number(28) == 28 && Number(44) == 44
  {
    NumberOfOne();
    Unfolded(2);
    Unfolded(3);
    Unfolded(5);
    Unfolded(6);
    Unfolded(7);
    Unfolded(11);
    Unfolded(12);
    Unfolded(14);
    Unfolded(22);
    Unfolded(28);
    Unfolded(44);
  }

  lemma ScaledCause(cause: bits, o: bits)
    requires (cause == 3 || cause == 7 || cause == 11) && o == 4 * (cause & 0x1F)
    ensures Number(o) == 4 * Number(cause)
  {
    CauseNumbers();
    ThreeOffsets(cause, o);
  }

  lemma ThreeOffsets(cause: bits, o: bits)
    requires o == 4 * (cause & 0x1F)
    ensures (cause == 3 ==> o == 12) && (cause == 7 ==> o == 28) && (cause == 11 ==> o == 44)
  {
  }

  lemma VectorNumber(mtvec: bits, cause: bits)
    requires cause == 3 || cause == 7 || cause == 11
    ensures Number(Vector(mtvec, cause)) == Handler(Number(mtvec), Number(cause))
  {
    BaseNumber(mtvec);
    ModeIsOne(mtvec);
    ScaledCause(cause, 4 * (cause & 0x1F));
    PlusNumber(mtvec & !0x3, 4 * (cause & 0x1F));
    NumberFits(mtvec & !0x3);
    HandlerIs(Number(mtvec), Number(mtvec & !0x3), Number(cause), Number(Vector(mtvec, cause)));
  }

  lemma HandlerIs(m: nat, b: nat, k: nat, v: nat)
    requires b == m - m % 4 && b < TWO32 && v == if m % 4 == 1 then (b + 4 * k) % TWO32 else b
    ensures v == Handler(m, k)
  {
    WrapSmall(b);
  }

  /** mstatus after a trap: bit 3 clear, bit 7 what bit 3 was, bits 11 and 12 set, the rest kept. */
  predicate StatusEntered(after: bits, before: bits) {
    && !Set(after, 3) && Set(after, 7) == Set(before, 3) && Set(after, 11) && Set(after, 12)
    && after & !0x1888 == before & !0x1888
  }

  /** Entering the handler of interrupt k, or going on. */
  predicate Enters(c: CsrState, pc: bits, cause: Option<bits>, c': CsrState, pc': bits) {
    match cause
    case None => pc' == pc && c' == c.(mip := c'.mip)
    case Some(k) =>
      && Number(pc') == Handler(Number(c.mtvec), Number(k))
      && StatusEntered(c'.mstatus, c.mstatus)
      && c' == c.(mip := c'.mip, mstatus := c'.mstatus, mepc := pc, mcause := 0x8000_0000 | k)
  }

  /** What one check does to the control registers and the PC: the pending bits follow the
      platform, and the trap that is due is entered. */
  predicate Interrupted(c: CsrState, pc: bits, pending: bits, c': CsrState, pc': bits) {
    && c'.mip & 0x888 == pending & 0x888 && c'.mip & !0x888 == c.mip & !0x888
    && Enters(c, pc, Expected(c.mstatus, c.mie, pending), c', pc')
  }

  lemma EnteredBits(after: bits, before: bits)
    requires Entered(after, before)
    ensures StatusEntered(after, before)
  {
  }

  lemma NamedCause(k: bits)
    requires k == 3 || k == 7 || k == 11
    ensures CauseRegister(k, true) == 0x8000_0000 | k
  {
  }

  lemma PendingBits(c: CsrState, pending: bits)
    ensures var m := Synced(c, pending).mip; m & 0x888 == pending & 0x888 && m & !0x888 == c.mip & !0x888
  {
  }

  lemma TrapEnters(c: CsrState, mip: bits, pc: bits, k: bits)
    requires k == 3 || k == 7 || k == 11
    ensures Enters(c, pc, Some(k), Trapped(c.(mip := mip), pc, k, true), Vector(c.mtvec, k))
  {
    VectorNumber(c.mtvec, k);
    TrapBits(c.mstatus);
    EnteredBits(TrapStatus(c.mstatus), c.mstatus);
    NamedCause(k);
  }

  /** The check does what the architecture asks. */
  lemma CheckedIs(c: CsrState, pc: bits, pending: bits)
    ensures Interrupted(c, pc, pending, Checked(c, pc, pending).0, Checked(c, pc, pending).1)
  {
    var (c', pc') := Checked(c, pc, pending);
    ActiveBits(c, pending);
    CheckedEnters(c, pc, pending, Taken(c, pending), c', pc');
    PendingFollows(c, c', pending);
    Together(c, pc, pending, Taken(c, pending), c', pc');
  }

  lemma CheckedEnters(c: CsrState, pc: bits, pending: bits, taken: Option<bits>, c': CsrState, pc': bits)
    requires taken == Taken(c, pending) && (taken.Some? ==> taken.value == 3 || taken.value == 7 || taken.value == 11)
    requires (c', pc') == Checked(c, pc, pending)
    ensures Enters(c, pc, taken, c', pc') && c'.mip == Synced(c, pending).mip
  {
    if taken.Some? {
      TrapEnters(c, Synced(c, pending).mip, pc, taken.value);
    }
  }

  lemma PendingFollows(c: CsrState, c': CsrState, pending: bits)
    requires c'.mip == Synced(c, pending).mip
    ensures c'.mip & 0x888 == pending & 0x888 && c'.mip & !0x888 == c.mip & !0x888
  {
    PendingBits(c, pending);
  }

  lemma Together(c: CsrState, pc: bits, pending: bits, taken: Option<bits>, c': CsrState, pc': bits)
    requires taken == Expected(c.mstatus, c.mie, pending) && Enters(c, pc, taken, c', pc')
    requires c'.mip & 0x888 == pending & 0x888 && c'.mip & !0x888 == c.mip & !0x888
    ensures Interrupted(c, pc, pending, c', pc')
  {
  }

  // ---- SYSTEM instructions ----

  function CsrAddress(i: bits): bits { (i >> 20) & 0xFFF }

  predicate IsSystem(i: bits) { Opcode(i) == OP_SYSTEM }

  predicate IsEcall(i: bits) { IsSystem(i) && Funct3(i) == 0 && CsrAddress(i) == 0 }

  predicate IsMret(i: bits) { IsSystem(i) && Funct3(i) == 0 && CsrAddress(i) == 0x302 }

  /** The operand of a CSR instruction: a register, or the field itself. */
  function CsrOperand(a: Arch, i: bits): bits { if Funct3(i) >= 4 then Rs1(i) else Reg(a, Rs1(i)) }

  /** What a CSR instruction writes; setting or clearing with field zero writes nothing. */
  function CsrWritten(i: bits, before: bits, x: bits): Option<bits> {
    var f3 := Funct3(i);
    if f3 == 1 || f3 == 5 then Some(x)
    else if Rs1(i) == 0 then None
    else if f3 == 2 || f3 == 6 then Some(before | x)
    else if f3 == 3 || f3 == 7 then Some(before & !x)
    else None
  }

  /** The register part and the CSR part of a CSR instruction. */
  function CsrInstruction(m: Machine, i: bits): Machine {
    var before := ReadCsr(m.csr, CsrAddress(i));
    var written := CsrWritten(i, before, CsrOperand(m.arch, i));
    m.(arch := Incremented(SetReg(m.arch, Rd(i), before)),
       csr := if written.Some? then WriteCsr(m.csr, CsrAddress(i), written.value) else m.csr)
  }

  function Mret(m: Machine): Machine {
    m.(arch := m.arch.(pc := m.csr.mepc), csr := WriteCsr(m.csr, MSTATUS, MretStatus(m.csr.mstatus)))
  }

  function System(m: Machine, i: bits): Machine {
    if IsEcall(i) then m.(stopped := true)
    else if IsMret(i) then Mret(m)
    else if Funct3(i) == 0 || Funct3(i) == 4 then m.(arch := Incremented(m.arch))
    else CsrInstruction(m, i)
  }

  // ---- One iteration of the thread ----

  function ExecuteOne(core: Core, m: Machine, i: bits, device: bits): Machine {
    if IsSystem(i) then System(m, i) else m.(arch := core.run(m.arch, i, device))
  }

  function Step(core: Core, m: Machine, env: Env): Machine {
    if m.stopped then m else
      var m1 := CheckInterrupts(m, env.pending);
      ExecuteOne(core, m1, core.fetch(m1.arch), env.device)
  }

  /** The word at the PC. */
  function FetchWord(a: Arch): bits {
    LoadWord(a, a.pc, 4, 0)
  }

  /** The core of the simulator. */
  const RV32I: Core := Core(FetchWord, Run)

  // ---- The objects ----

  /** The register file: x0 is never written, sp starts at the top of memory. */
  class Registers {
    const regs: array<bits>
    var pc: bits

    /** x0 holds zero. */
    predicate Valid()
      reads regs
    {
      regs.Length == 32 && regs[0] == 0
    }

    constructor ()
      ensures Valid() && fresh(regs) && pc == 0x8000_0000
      ensures regs[2] == 0x80_0000 && forall k | 0 <= k < 32 && k != 2 :: regs[k] == 0
    {
      regs := new bits[32](k => if k == 2 then 0x80_0000 else 0);
      pc := 0x8000_0000;
    }

    /** x0 reads zero; a number that names no register reads all ones. */
    method GetValue(r: nat) returns (value: bits)
      requires Valid()
      ensures r == 0 ==> value == 0
      ensures r < 32 ==> value == regs[..][r]
      ensures r >= 32 ==> value == !0
    {
      return if r < 32 then regs[r] else 0xFFFF_FFFF;
    }

    /** A write to x0, or to no register, changes nothing. */
    method SetValue(r: nat, value: bits)
      requires Valid()
      modifies regs
      ensures Valid()
      ensures regs[..] == if 0 < r < 32 then old(regs[..])[r := value] else old(regs[..])
    {
      if r != 0 && r < 32 {
        regs[r] := value;
      }
    }

    method SetPc(value: bits)
      modifies this`pc
      ensures pc == value
    {
      pc := value;
    }

    method IncPc()
      modifies this`pc
      ensures pc == old(pc) + 4
    {
      pc := pc + 4;
    }
  }

  /** The interrupt check in place. */
  class Hart {
    const regs: Registers
    const csr: Csr

    constructor (regs: Registers, csr: Csr)
      ensures this.regs == regs && this.csr == csr
    {
      this.regs, this.csr := regs, csr;
    }

    method EnterTrap(cause: bits)
      modifies regs`pc, csr
      ensures csr.State() == Trapped(old(csr.State()), old(regs.pc), cause, true)
      ensures regs.pc == Vector(old(csr.mtvec), cause)
    {
      csr.TakeTrap(regs.pc, cause, true);
      var mtvec := csr.Read(MTVEC);
      regs.SetPc(Vector(mtvec, cause));
    }

    method ActiveCause() returns (cause: Option<bits>)
      ensures cause == Active(csr.State())
    {
      var mip := csr.Read(MIP);
      var mie := csr.Read(MIE);
      var mstatus := csr.Read(MSTATUS);
      if mstatus & STATUS_MIE == 0 {
        return None;
      }
      return Cause(mip & mie);
    }

    /** checkInterrupts. */
    method CheckPending(pending: bits)
      modifies regs`pc, csr
      ensures Interrupted(old(csr.State()), old(regs.pc), pending, csr.State(), regs.pc)
      ensures (csr.State(), regs.pc) == Checked(old(csr.State()), old(regs.pc), pending)
    {
      CheckedIs(csr.State(), regs.pc, pending);
      csr.UpdateExternalIp(pending);
      var cause := ActiveCause();
      if cause.Some? {
        EnterTrap(cause.value);
      }
    }
  }
}
