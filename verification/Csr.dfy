/** Machine-mode control and status registers, trap entry and return
    (cpu/rv32-lt/csr.h, cpu/rv32-lt/base_isa.h; section 3.1 of the RISC-V Privileged
    specification). */
module CsrModel {
  import opened Isa

  datatype CsrState = CsrState(
    mstatus: bits,
    mtvec: bits,
    mepc: bits,
    mcause: bits,
    mie: bits,
    mip: bits,
    mscratch: bits)

  const MSTATUS: bits := 0x300
  const MIE: bits := 0x304
  const MTVEC: bits := 0x305
  const MSCRATCH: bits := 0x340
  const MEPC: bits := 0x341
  const MCAUSE: bits := 0x342
  const MIP: bits := 0x344

  /** mstatus.MIE, mstatus.MPIE and mstatus.MPP. */
  const STATUS_MIE: bits := 0x8
  const STATUS_MPIE: bits := 0x80
  const STATUS_MPP: bits := 0x1800

  /** The writable bits of mstatus: these three. */
  const STATUS_BITS: bits := 0x1888

  /** Software, timer and external interrupts, in mie and in mip. */
  const SOFTWARE: bits := 0x8
  const TIMER: bits := 0x80
  const EXTERNAL: bits := 0x800

  const INTERRUPTS: bits := 0x888

  /** Bit k of a register. */
  predicate Set(w: bits, k: bits)
    requires k < 32
  {
    (w >> k) & 1 == 1
  }

  function ReadCsr(c: CsrState, addr: bits): bits {
    if addr == MSTATUS then c.mstatus
    else if addr == MTVEC then c.mtvec
    else if addr == MEPC then c.mepc
    else if addr == MCAUSE then c.mcause
    else if addr == MIE then c.mie
    else if addr == MIP then c.mip
    else if addr == MSCRATCH then c.mscratch
    else 0
  }

  /** The bits of value where the mask is set, the old bits elsewhere. */
  function Masked(old_: bits, value: bits, mask: bits): bits {
    (old_ & !mask) | (value & mask)
  }

  function WriteCsr(c: CsrState, addr: bits, value: bits): CsrState {
    if addr == MSTATUS then c.(mstatus := Masked(c.mstatus, value, STATUS_BITS))
    else if addr == MTVEC then c.(mtvec := value)
    else if addr == MEPC then c.(mepc := value)
    else if addr == MIE then c.(mie := Masked(c.mie, value, INTERRUPTS))
    else if addr == MIP then c.(mip := Masked(c.mip, value, SOFTWARE))
    else if addr == MSCRATCH then c.(mscratch := value)
    else c
  }

  /** CSR::update_external_ip. */
  function Synced(c: CsrState, pending: bits): CsrState {
    c.(mip := Masked(c.mip, pending, INTERRUPTS))
  }

  /** mstatus on trap entry: MIE moves to MPIE, interrupts are off, the mode was machine. */
  function TrapStatus(ms: bits): bits {
    (ms & !STATUS_BITS) | (if ms & STATUS_MIE != 0 then STATUS_MPIE else 0) | STATUS_MPP
  }

  function CauseRegister(cause: bits, isInterrupt: bool): bits {
    (if isInterrupt then 0x8000_0000 else 0) | (cause & 0x1F)
  }

  /** CSR::take_trap. */
  function Trapped(c: CsrState, pc: bits, cause: bits, isInterrupt: bool): CsrState {
    c.(mepc := pc, mcause := CauseRegister(cause, isInterrupt), mstatus := TrapStatus(c.mstatus))
  }

  /** mstatus as the MRET instruction computes it: MPIE moves back to MIE. */
  function MretStatus(ms: bits): bits {
    var cleared := ms & !(STATUS_MIE | STATUS_MPIE);
    (if (ms >> 7) & 1 != 0 then cleared | STATUS_MIE else cleared) | STATUS_MPIE
  }

  /** mstatus as CSR::mret computes it; it clears MPP as well. */
  function CsrMretStatus(ms: bits): bits {
    (ms & !STATUS_BITS) | (if ms & STATUS_MPIE != 0 then STATUS_MIE else 0) | STATUS_MPIE
  }

  // ---- Reads and writes ----

  /** The bits of a register that software may write; mcause and unknown registers have none. */
  function Writable(addr: bits): bits {
    if addr == 0x300 then 0x1888
    else if addr == 0x304 then 0x888
    else if addr == 0x344 then 0x8
    else if addr == 0x305 || addr == 0x341 || addr == 0x340 then 0xFFFF_FFFF
    else 0
  }

  /** The addresses of section 2.2 of the Privileged specification; every other reads zero. */
  lemma Addresses(c: CsrState, addr: bits)
    ensures ReadCsr(c, 0x300) == c.mstatus && ReadCsr(c, 0x304) == c.mie && ReadCsr(c, 0x305) == c.mtvec
    ensures ReadCsr(c, 0x340) == c.mscratch && ReadCsr(c, 0x341) == c.mepc && ReadCsr(c, 0x342) == c.mcause
    ensures ReadCsr(c, 0x344) == c.mip
    ensures addr !in {0x300, 0x304, 0x305, 0x340, 0x341, 0x342, 0x344} ==> ReadCsr(c, addr) == 0
  {
  }

  /** The bits in the mask follow the value, the others stay. */
  predicate Follows(after: bits, before: bits, value: bits, mask: bits) {
    after & mask == value & mask && after & !mask == before & !mask
  }

  lemma MaskedBits(old_: bits, value: bits, mask: bits)
    ensures Follows(Masked(old_, value, mask), old_, value, mask)
  {
  }

  lemma FullMask(old_: bits, value: bits)
    ensures Masked(old_, value, 0xFFFF_FFFF) == value && Masked(old_, value, 0) == old_
  {
  }

  /** A write leaves every other register. */
  lemma OthersKept(c: CsrState, addr: bits, value: bits, other: bits)
    requires other != addr
    ensures ReadCsr(WriteCsr(c, addr, value), other) == ReadCsr(c, other)
  {
  }

  /** It changes exactly the writable bits of its own. */
  lemma OwnWrite(c: CsrState, addr: bits, value: bits)
    ensures ReadCsr(WriteCsr(c, addr, value), addr) == Masked(ReadCsr(c, addr), value, Writable(addr))
  {
    FullMask(ReadCsr(c, addr), value);
  }

  // ---- Trap entry and return ----

  /** Trap entry turns interrupts off and remembers whether they were on; MRET brings that
      back, and leaves MPIE set and the previous mode machine. */
  lemma TrapThenMret(ms: bits)
    ensures TrapStatus(ms) & STATUS_MIE == 0
    ensures TrapStatus(ms) & STATUS_MPIE != 0 <==> ms & STATUS_MIE != 0
    ensures MretStatus(TrapStatus(ms)) == (ms & !STATUS_MPP) | STATUS_MPIE | STATUS_MPP
  {
    if ms & STATUS_MIE != 0 {
      EnabledRoundTrip(ms);
    } else {
      DisabledRoundTrip(ms);
    }
  }

  lemma EnabledRoundTrip(ms: bits)
    requires ms & STATUS_MIE != 0
    ensures var t := (ms & !STATUS_BITS) | STATUS_MPIE | STATUS_MPP;
            && t & STATUS_MIE == 0 && t & STATUS_MPIE != 0 && (t >> 7) & 1 != 0
            && (t & !(STATUS_MIE | STATUS_MPIE)) | STATUS_MIE | STATUS_MPIE
               == (ms & !STATUS_MPP) | STATUS_MPIE | STATUS_MPP
  {
  }

  lemma DisabledRoundTrip(ms: bits)
    requires ms & STATUS_MIE == 0
    ensures var t := (ms & !STATUS_BITS) | 0 | STATUS_MPP;
            && t & STATUS_MIE == 0 && t & STATUS_MPIE == 0 && (t >> 7) & 1 == 0
            && (t & !(STATUS_MIE | STATUS_MPIE)) | STATUS_MPIE == (ms & !STATUS_MPP) | STATUS_MPIE | STATUS_MPP
  {
  }

  /** Trap entry: MIE moves to MPIE and is cleared, MPP is machine, the other bits stay. */
  predicate Entered(after: bits, before: bits) {
    && after & STATUS_MIE == 0 && after & STATUS_MPP == STATUS_MPP
    && (after & STATUS_MPIE != 0 <==> before & STATUS_MIE != 0)
    && after & !STATUS_BITS == before & !STATUS_BITS
  }

  /** CSR::mret: MPIE moves to MIE and is set, MPP is cleared, the other bits stay. */
  predicate Left(after: bits, before: bits) {
    && (after & STATUS_MIE != 0 <==> before & STATUS_MPIE != 0)
    && after & STATUS_MPIE != 0 && after & STATUS_MPP == 0
    && after & !STATUS_BITS == before & !STATUS_BITS
  }

  lemma EnteredOn(ms: bits)
    requires ms & STATUS_MIE != 0
    ensures Entered((ms & !STATUS_BITS) | STATUS_MPIE | STATUS_MPP, ms)
  {
  }

  lemma EnteredOff(ms: bits)
    requires ms & STATUS_MIE == 0
    ensures Entered((ms & !STATUS_BITS) | 0 | STATUS_MPP, ms)
  {
  }

  lemma TrapBits(ms: bits)
    ensures Entered(TrapStatus(ms), ms)
  {
    if ms & STATUS_MIE != 0 {
      EnteredOn(ms);
    } else {
      EnteredOff(ms);
    }
  }

  /** The register names the cause in its low bits and an interrupt in its top bit. */
  predicate Names(mcause: bits, cause: bits, isInterrupt: bool) {
    mcause & 0x1F == cause & 0x1F && (mcause & 0x8000_0000 != 0 <==> isInterrupt)
  }

  lemma CauseBits(cause: bits)
    ensures Names(CauseRegister(cause, true), cause, true) && Names(CauseRegister(cause, false), cause, false)
  {
  }

  lemma LeftOn(ms: bits)
    requires ms & STATUS_MPIE != 0
    ensures Left((ms & !STATUS_BITS) | STATUS_MIE | STATUS_MPIE, ms)
  {
  }

  lemma LeftOff(ms: bits)
    requires ms & STATUS_MPIE == 0
    ensures Left((ms & !STATUS_BITS) | 0 | STATUS_MPIE, ms)
  {
  }

  lemma ReturnBits(ms: bits)
    ensures Left(CsrMretStatus(ms), ms)
  {
    if ms & STATUS_MPIE != 0 {
      LeftOn(ms);
    } else {
      LeftOff(ms);
    }
  }

  /** The two returns differ in the previous mode only. */
  lemma MretsDiffer(ms: bits)
    ensures CsrMretStatus(ms) == MretStatus(ms) & !STATUS_MPP
  {
    assert (ms >> 7) & 1 != 0 <==> ms & STATUS_MPIE != 0;
  }

  // ---- The registers themselves ----

  class Csr {
    var mstatus: bits
    var mtvec: bits
    var mepc: bits
    var mcause: bits
    var mie: bits
    var mip: bits
    var mscratch: bits

    function State(): CsrState
      reads this
    {
      CsrState(mstatus, mtvec, mepc, mcause, mie, mip, mscratch)
    }

    constructor ()
      ensures State() == CsrState(0, 0, 0, 0, 0, 0, 0)
    {
      mstatus, mtvec, mepc, mcause, mie, mip, mscratch := 0, 0, 0, 0, 0, 0, 0;
    }

    method Read(addr: bits) returns (value: bits)
      ensures value == ReadCsr(State(), addr)
    {
      match addr {
        case 0x300 => return mstatus;
        case 0x305 => return mtvec;
        case 0x341 => return mepc;
        case 0x342 => return mcause;
        case 0x304 => return mie;
        case 0x344 => return mip;
        case 0x340 => return mscratch;
        case _ => return 0;
      }
    }

    method Write(addr: bits, value: bits)
      modifies this
      ensures State() == WriteCsr(old(State()), addr, value)
    {
      match addr {
        case 0x300 => mstatus := Masked(mstatus, value, STATUS_BITS);
        case 0x305 => mtvec := value;
        case 0x341 => mepc := value;
        case 0x304 => mie := Masked(mie, value, INTERRUPTS);
        case 0x344 => mip := Masked(mip, value, SOFTWARE);
        case 0x340 => mscratch := value;
        case _ =>
      }
    }

    /** The three pending bits follow the platform; nothing else changes. */
    method UpdateExternalIp(pending: bits)
      modifies this`mip
      ensures Follows(mip, old(mip), pending, INTERRUPTS)
      ensures State() == Synced(old(State()), pending)
    {
      MaskedBits(mip, pending, INTERRUPTS);
      mip := Masked(mip, pending, INTERRUPTS);
    }

    /** MIE moves to MPIE and is cleared, MPP becomes machine mode, the other status bits stay. */
    method TakeTrap(pc: bits, cause: bits, isInterrupt: bool)
      modifies this`mepc, this`mcause, this`mstatus
      ensures mepc == pc
      ensures Names(mcause, cause, isInterrupt)
      ensures Entered(mstatus, old(mstatus))
      ensures State() == Trapped(old(State()), pc, cause, isInterrupt)
    {
      TrapBits(mstatus);
      CauseBits(cause);
      mepc := pc;
      mcause := CauseRegister(cause, isInterrupt);
      mstatus := TrapStatus(mstatus);
    }

    /** MPIE moves back to MIE and is set, MPP is cleared, the other status bits stay. */
    method Mret() returns (pc: bits)
      modifies this`mstatus
      ensures pc == mepc
      ensures Left(mstatus, old(mstatus))
    {
      ReturnBits(mstatus);
      pc := mepc;
      mstatus := CsrMretStatus(mstatus);
    }
  }
}
