/** The instructions of the SYSTEM opcode: what each word does to the registers and to the control
    registers, as chapter 7 of the RISC-V Unprivileged and section 3.3 of the Privileged
    specification describe it (cpu/rv32-lt/base_isa.h). */
module Zicsr {
  import opened Isa
  import opened Words
  import opened CsrModel
  import opened Execute
  import opened Cpu

  datatype Kind = Swap | SetBits | ClearBits

  /** The word of a CSR instruction; `src` is a register or, for the immediate forms, a number. */
  function EncodeCsr(kind: Kind, immediate: bool, rd: bits, src: bits, csr: bits): bits {
    EncodeI(0x73, rd, KindCode(kind, immediate), src, csr)
  }

  function KindCode(kind: Kind, immediate: bool): bits {
    match kind
    case Swap => if immediate then 5 else 1
    case SetBits => if immediate then 6 else 2
    case ClearBits => if immediate then 7 else 3
  }

  /** The value the instruction asks for, of which the register keeps its writable bits. */
  function Asked(kind: Kind, before: bits, x: bits): bits {
    match kind
    case Swap => x
    case SetBits => before | x
    case ClearBits => before & !x
  }

  lemma CsrFields(rd: bits, f3: bits, src: bits, csr: bits)
    requires Register(rd) && Register(src) && f3 < 8 && csr < 0x1000
    ensures var i := EncodeI(0x73, rd, f3, src, csr);
            Opcode(i) == 0x73 && Rd(i) == rd && Funct3(i) == f3 && Rs1(i) == src && CsrAddress(i) == csr
  {
  }

  lemma NothingAsked(kind: Kind, before: bits)
    ensures kind != Swap ==> Asked(kind, before, 0) == before
  {
    assert before | 0 == before && before & !0 == before;
  }

  lemma MaskedSame(before: bits, mask: bits)
    ensures Masked(before, before, mask) == before
  {
  }

  /** The operand: a register, or the field as a number. */
  lemma Operands(a: Arch, i: bits, kind: Kind, immediate: bool, src: bits)
    requires Funct3(i) == KindCode(kind, immediate) && Rs1(i) == src
    ensures CsrOperand(a, i) == if immediate then src else Reg(a, src)
  {
  }

  lemma SwapWrites(i: bits, before: bits, x: bits)
    requires Funct3(i) == 1 || Funct3(i) == 5
    ensures CsrWritten(i, before, x) == Some(x)
  {
  }

  lemma SetWrites(i: bits, src: bits, before: bits, x: bits)
    requires (Funct3(i) == 2 || Funct3(i) == 6) && Rs1(i) == src
    ensures CsrWritten(i, before, x) == if src == 0 then None else Some(before | x)
  {
  }

  lemma ClearWrites(i: bits, src: bits, before: bits, x: bits)
    requires (Funct3(i) == 3 || Funct3(i) == 7) && Rs1(i) == src
    ensures CsrWritten(i, before, x) == if src == 0 then None else Some(before & !x)
  {
  }

  lemma WrittenIs(i: bits, kind: Kind, immediate: bool, src: bits, before: bits, x: bits)
    requires Funct3(i) == KindCode(kind, immediate) && Rs1(i) == src
    ensures CsrWritten(i, before, x) == if kind != Swap && src == 0 then None else Some(Asked(kind, before, x))
  {
    match kind {
      case Swap => SwapWrites(i, before, x);
      case SetBits => SetWrites(i, src, before, x);
      case ClearBits => ClearWrites(i, src, before, x);
    }
  }

  lemma Updates(c: CsrState, csr: bits, w: Option<bits>, asked: bits, other: bits)
    requires asked == if w.Some? then w.value else ReadCsr(c, csr)
    ensures var c' := if w.Some? then WriteCsr(c, csr, w.value) else c;
            && ReadCsr(c', csr) == Masked(ReadCsr(c, csr), asked, Writable(csr))
            && (other != csr ==> ReadCsr(c', other) == ReadCsr(c, other))
  {
    if w.Some? {
      OwnWrite(c, csr, w.value);
      if other != csr {
        OthersKept(c, csr, w.value, other);
      }
    } else {
      MaskedSame(ReadCsr(c, csr), Writable(csr));
    }
  }

  lemma SystemWord(m: Machine, i: bits)
    requires Opcode(i) == 0x73 && Funct3(i) != 0 && Funct3(i) != 4
    ensures System(m, i) == CsrInstruction(m, i)
  {
  }

  /** A CSR instruction puts the old value of its register into rd, moves the PC on, and changes
      the writable bits of that one register to what it asks for. */
  lemma CsrInstructionIs(m: Machine, kind: Kind, immediate: bool, rd: bits, src: bits, csr: bits, other: bits)
    requires m.arch.regs[0] == 0 && Register(rd) && Register(src) && csr < 0x1000
    ensures var m' := System(m, EncodeCsr(kind, immediate, rd, src, csr));
            var before := ReadCsr(m.csr, csr);
            var x := if immediate then src else Reg(m.arch, src);
            && m'.arch == Incremented(SetReg(m.arch, rd, before)) && m'.stopped == m.stopped
            && ReadCsr(m'.csr, csr) == Masked(before, Asked(kind, before, x), Writable(csr))
            && (other != csr ==> ReadCsr(m'.csr, other) == ReadCsr(m.csr, other))
  {
    var i, before := EncodeCsr(kind, immediate, rd, src, csr), ReadCsr(m.csr, csr);
    var x := if immediate then src else Reg(m.arch, src);
    CsrFields(rd, KindCode(kind, immediate), src, csr);
    SystemWord(m, i);
    Operands(m.arch, i, kind, immediate, src);
    WrittenIs(i, kind, immediate, src, before, x);
    NothingAsked(kind, before);
    Updates(m.csr, csr, CsrWritten(i, before, x), Asked(kind, before, x), other);
  }

  /** MRET goes to mepc; mstatus bit 3 becomes what bit 7 was, bit 7 is set, the rest stays. */
  lemma MretIs(m: Machine)
    ensures var m', ms := System(m, 0x3020_0073), m.csr.mstatus;
            var ms' := m'.csr.mstatus;
            && m'.arch == m.arch.(pc := m.csr.mepc) && m'.stopped == m.stopped && m'.csr == m.csr.(mstatus := ms')
            && Set(ms', 3) == Set(ms, 7) && Set(ms', 7) && ms' & !0x88 == ms & !0x88
  {
    MretWord();
    MretStatusBits(m.csr.mstatus, Masked(m.csr.mstatus, MretStatus(m.csr.mstatus), STATUS_BITS));
  }

  lemma MretWord()
    ensures IsMret(0x3020_0073) && !IsEcall(0x3020_0073)
  {
  }

  lemma MretStatusBits(ms: bits, after: bits)
    requires after == Masked(ms, MretStatus(ms), STATUS_BITS)
    ensures Set(after, 3) == Set(ms, 7) && Set(after, 7) && after & !0x88 == ms & !0x88
  {
  }

  /** ECALL stops the simulation and changes nothing else. */
  lemma EcallIs(m: Machine)
    ensures System(m, 0x73) == m.(stopped := true)
  {
  }

  /** Any other word of the opcode with function code 0 or 4 is skipped. */
  lemma OtherIs(m: Machine, i: bits)
    requires Opcode(i) == 0x73 && (Funct3(i) == 0 || Funct3(i) == 4)
    requires !(Funct3(i) == 0 && (CsrAddress(i) == 0 || CsrAddress(i) == 0x302))
    ensures System(m, i) == m.(arch := Incremented(m.arch))
  {
  }
}
