/** The core-local interruptor: timer and software interrupt (periph/clint/clint.cpp). */
module ClintModel {
  import opened Words
  import opened Tlm
  import opened Isa
  import opened CsrModel

  datatype ClintState = ClintState(msip: uint32, mtimecmp: uint64, mtime: uint64)

  const MSIP_ADDR: nat := 0x0000
  const CMP_LO: nat := 0x4000
  const CMP_HI: nat := 0x4004
  const TIME_LO: nat := 0xBFF8
  const TIME_HI: nat := 0xBFFC

  predicate TimerPending(s: ClintState) { s.mtime >= s.mtimecmp }

  /** interrupt_pending: the software bit and the timer bit of mip. */
  function Pending(s: ClintState): bits {
    (if s.msip != 0 then SOFTWARE else 0) | (if TimerPending(s) then TIMER else 0)
  }

  /** A register write; None where the module answers with an address error. */
  function Written(s: ClintState, reg: nat, v: uint32): Option<ClintState> {
    if reg == MSIP_ADDR then Some(s.(msip := v % 2))
    else if reg == CMP_LO then Some(s.(mtimecmp := WithLo(s.mtimecmp, v)))
    else if reg == CMP_HI then Some(s.(mtimecmp := WithHi(s.mtimecmp, v)))
    else if reg == TIME_LO then Some(s.(mtime := WithLo(s.mtime, v)))
    else if reg == TIME_HI then Some(s.(mtime := WithHi(s.mtime, v)))
    else None
  }

  function ReadOut(s: ClintState, reg: nat): Option<uint32> {
    if reg == MSIP_ADDR then Some(s.msip)
    else if reg == CMP_LO then Some(Lo(s.mtimecmp))
    else if reg == CMP_HI then Some(Hi(s.mtimecmp))
    else if reg == TIME_LO then Some(Lo(s.mtime))
    else if reg == TIME_HI then Some(Hi(s.mtime))
    else None
  }

  function Ticked(s: ClintState): ClintState { s.(mtime := Wrap64(s.mtime + 1)) }

  // ---- Halves ----

  /** Writing both halves of a value, in either order, stores the value. */
  lemma BothHalves(x: uint64, v: uint64)
    ensures WithHi(WithLo(x, Lo(v)), Hi(v)) == v && WithLo(WithHi(x, Hi(v)), Lo(v)) == v
  {
    HalfWrites(x, Lo(v));
    HalfWrites(x, Hi(v));
  }

  /** A register reads back what was last written to it, and no write disturbs another. */
  lemma WriteThenRead(s: ClintState, reg: nat, v: uint32, other: nat)
    requires Written(s, reg, v).Some?
    ensures ReadOut(Written(s, reg, v).value, other)
         == if other != reg then ReadOut(s, other) else if reg == 0x0000 then Some(v % 2) else Some(v)
  {
    HalfWrites(s.mtimecmp, v);
    HalfWrites(s.mtime, v);
  }

  /** The module's addresses: the two halves of mtimecmp and of mtime, and msip, which keeps the
      low bit; every other address is refused. */
  lemma RegisterMap(s: ClintState, v: uint64, w: uint32, reg: nat)
    ensures var s1 := Written(s, 0x4000, Lo(v)); s1.Some? && Written(s1.value, 0x4004, Hi(v)) == Some(s.(mtimecmp := v))
    ensures var s1 := Written(s, 0xBFF8, Lo(v)); s1.Some? && Written(s1.value, 0xBFFC, Hi(v)) == Some(s.(mtime := v))
    ensures Written(s, 0x0000, w) == Some(s.(msip := w % 2))
    ensures (Written(s, reg, w).None? <==> reg !in {0x0000, 0x4000, 0x4004, 0xBFF8, 0xBFFC})
    ensures (ReadOut(s, reg).None? <==> reg !in {0x0000, 0x4000, 0x4004, 0xBFF8, 0xBFFC})
  {
    BothHalves(s.mtimecmp, v);
    BothHalves(s.mtime, v);
  }

  // ---- Timer interrupts ----

  /** The interrupt bits the CPU sees: the timer bit exactly when mtime has reached mtimecmp. */
  lemma PendingBits(s: ClintState)
    ensures Set(Pending(s), 7) <==> s.mtime >= s.mtimecmp
    ensures Set(Pending(s), 3) <==> s.msip != 0
    ensures Pending(s) & !0x88 == 0
  {
  }

  function Ticks(s: ClintState, n: nat): ClintState {
    if n == 0 then s else Ticked(Ticks(s, n - 1))
  }

  lemma {:induction false} TicksAdd(s: ClintState, n: nat)
    requires s.mtime + n < TWO64
    ensures Ticks(s, n) == s.(mtime := s.mtime + n)
  {
    if n > 0 {
      TicksAdd(s, n - 1);
    }
  }

  /** With the registers left alone and no wrap-around, the timer interrupt becomes pending at
      tick mtimecmp - mtime and not before, and then stays. */
  lemma FiresOnTime(s: ClintState, n: nat)
    requires s.mtime < s.mtimecmp && s.mtime + n < TWO64
    ensures TimerPending(Ticks(s, n)) <==> n >= s.mtimecmp - s.mtime
  {
    TicksAdd(s, n);
  }

  /** The three-write sequence of section 3.2.1 of the RISC-V Privileged specification sets a
      new compare value, with no spurious interrupt at any intermediate point. */
  lemma SafeReprogram(s: ClintState, v: uint64)
    requires s.mtime < s.mtimecmp && s.mtime < v
    ensures var s1 := Written(s, 0x4000, TWO32 - 1).value;
            var s2 := Written(s1, 0x4004, Hi(v)).value;
            var s3 := Written(s2, 0x4000, Lo(v)).value;
            && !TimerPending(s1) && !TimerPending(s2) && !TimerPending(s3)
            && s3 == s.(mtimecmp := v)
  {
    HalfWrites(s.mtimecmp, TWO32 - 1);
    var c1 := WithLo(s.mtimecmp, TWO32 - 1);
    HalfWrites(c1, Hi(v));
    HalfWrites(WithHi(c1, Hi(v)), Lo(v));
  }

  // ---- The module itself ----

  class Clint {
    var msip: uint32
    var mtimecmp: uint64
    var mtime: uint64

    function State(): ClintState
      reads this
    {
      ClintState(msip, mtimecmp, mtime)
    }

    constructor ()
      ensures State() == ClintState(0, 0, 0)
    {
      msip, mtimecmp, mtime := 0, 0, 0;
    }

    method InterruptPending() returns (pending: bits)
      ensures pending == Pending(State())
    {
      pending := 0;
      if msip != 0 {
        pending := pending | SOFTWARE;
      }
      if mtime >= mtimecmp {
        pending := pending | TIMER;
      }
    }

    method WriteRegister(reg: nat, v: uint32) returns (response: Response)
      modifies this
      ensures match Written(old(State()), reg, v)
              case None => response == AddressError && State() == old(State())
              case Some(s) => response == Ok && State() == s
    {
      match reg {
        case 0x0000 => msip := v % 2;
        case 0x4000 => mtimecmp := WithLo(mtimecmp, v);
        case 0x4004 => mtimecmp := WithHi(mtimecmp, v);
        case 0xBFF8 => mtime := WithLo(mtime, v);
        case 0xBFFC => mtime := WithHi(mtime, v);
        case _ => return AddressError;
      }
      return Ok;
    }

    method ReadRegister(reg: nat) returns (value: Option<uint32>)
      ensures value == ReadOut(State(), reg)
    {
      match reg {
        case 0x0000 => return Some(msip);
        case 0x4000 => return Some(mtimecmp % TWO32);
        case 0x4004 => return Some(mtimecmp / TWO32);
        case 0xBFF8 => return Some(mtime % TWO32);
        case 0xBFFC => return Some(mtime / TWO32);
        case _ => return None;
      }
    }

    method Tick()
      modifies this`mtime
      ensures State() == Ticked(old(State()))
    {
      mtime := Wrap64(mtime + 1);
    }
  }
}
