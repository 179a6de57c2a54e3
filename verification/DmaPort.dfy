/** The DMA's objects: its registers, and the code its transfer thread and its backward
    transport run between two waits (periph/dma/dma.cpp; the display's pixel reads in
    periph/display/display.cpp have the same shape). */
module DmaPort {
  import opened Words
  import opened Tlm
  import opened InterconnectModel
  import opened PayloadPool
  import opened AtProtocol
  import opened DmaEngine

  // ---- The register file ----

  const SRC_LO: nat := 0x00
  const SRC_HI: nat := 0x04
  const DST_LO: nat := 0x08
  const DST_HI: nat := 0x0C
  const SIZE_REG: nat := 0x10
  const CTRL: nat := 0x14

  /** A 32-bit write; writes elsewhere are ignored. */
  function WriteReg(r: Regs, reg: nat, v: uint32): Regs {
    if reg == SRC_LO then r.(src := WithLo(r.src, v))
    else if reg == SRC_HI then r.(src := WithHi(r.src, v))
    else if reg == DST_LO then r.(dst := WithLo(r.dst, v))
    else if reg == DST_HI then r.(dst := WithHi(r.dst, v))
    else if reg == SIZE_REG then r.(size := v)
    else if reg == CTRL then r.(ctrl := v)
    else r
  }

  function ReadReg(r: Regs, reg: nat): uint32 {
    if reg == SRC_LO then Lo(r.src)
    else if reg == SRC_HI then Hi(r.src)
    else if reg == DST_LO then Lo(r.dst)
    else if reg == DST_HI then Hi(r.dst)
    else if reg == SIZE_REG then r.size
    else if reg == CTRL then r.ctrl
    else 0
  }

  predicate IsReg(reg: nat) { reg in {0x00, 0x04, 0x08, 0x0C, 0x10, 0x14} }

  /** A register reads back what was written to it; no write disturbs another register. */
  lemma WriteThenRead(r: Regs, reg: nat, v: uint32, other: nat)
    requires IsReg(reg)
    ensures ReadReg(WriteReg(r, reg, v), other) == if other == reg then v else ReadReg(r, other)
  {
    HalfWrites(r.src, v);
    HalfWrites(r.dst, v);
  }

  /** The six writes of a driver program any transfer, whatever the registers held. */
  lemma Programmed(r: Regs, want: Regs)
    ensures var r1 := WriteReg(WriteReg(r, 0x00, Lo(want.src)), 0x04, Hi(want.src));
            var r2 := WriteReg(WriteReg(r1, 0x08, Lo(want.dst)), 0x0C, Hi(want.dst));
            WriteReg(WriteReg(r2, 0x10, want.size), 0x14, want.ctrl) == want
  {
    HalfWrites(r.src, Lo(want.src));
    HalfWrites(r.dst, Lo(want.dst));
  }

  // ---- The initiator ----

  class AtInitiator {
    const id: nat
    const mm: SoCMM
    const ic: Interconnect
    const readData: array<byte>
    var trans: GenericPayload?
    var writeDone: bool
    var endReq: bool
    var resp: bool

    ghost predicate Valid()
      reads this, mm, mm.pool
    {
      && mm.Valid() && readData.Length == 4
      && (trans != null ==> trans !in mm.pool)
    }

    constructor (id: nat, mm: SoCMM, ic: Interconnect)
      requires mm.Valid()
      ensures Valid() && this.id == id && this.mm == mm && this.ic == ic && trans == null
      ensures !writeDone && !endReq && !resp
    {
      this.id, this.mm, this.ic := id, mm, ic;
      readData := new byte[4](_ => 0);
      trans, writeDone, endReq, resp := null, false, false, false;
    }

    /** readWordAT and writeWordAT up to their first wait. The payload leaves with the
        translated address, this initiator's hop context and one reference, whatever context
        a recycled object still carried. */
    method BeginWord(command: Command, addr: uint64, data: array<byte>) returns (stale: Option<HopCtx>)
      requires Valid() && trans == null && ic.regions == SOC_REGIONS && InMemory(addr) && command != Ignore
      modifies this`trans, this`writeDone, mm`pool, mm.pool
      ensures Valid() && trans != null && mm.pool == AfterTake(old(mm.pool))
      ensures old(mm.pool) != [] ==> trans == Taken(old(mm.pool), trans)
      ensures trans.command == command && trans.length == 4 && trans.width == 4 && trans.refs == 1
      ensures trans.data == (if command == Read then readData else data) && trans.enables == None
      ensures writeDone == (old(writeDone) && command == Read)
      ensures Carried(trans.address, trans.hop) == Hop(id, addr, stale)
    {
      writeDone := writeDone && command == Read;
      var gp := mm.Allocate();
      stale := gp.hop;
      Fill(gp, command, addr, if command == Read then readData else data);
      Send(gp, addr);
      trans := gp;
    }

    /** BEGIN_REQ through the interconnect. */
    method Send(gp: GenericPayload, addr: uint64)
      requires ic.regions == SOC_REGIONS && InMemory(addr) && gp.address == addr
      modifies gp`address, gp`hop, gp`response
      ensures Carried(gp.address, gp.hop) == Hop(id, addr, old(gp.hop))
    {
      SocMap(addr);
      var _ := ic.NbTransportFw(id, gp, BeginReq);
    }

    static method Fill(gp: GenericPayload, command: Command, addr: uint64, data: array<byte>)
      modifies gp
      ensures gp.command == command && gp.address == addr && gp.data == data && gp.length == 4 && gp.width == 4
      ensures gp.enables == None && gp.response == Incomplete && gp.hop == old(gp.hop) && gp.refs == old(gp.refs) + 1
    {
      gp.command, gp.address, gp.data := command, addr, data;
      gp.length, gp.width, gp.enables := 4, 4, None;
      gp.response := Incomplete;
      gp.Acquire();
    }

    /** nb_transport_bw: END_REQ wakes the thread; BEGIN_RESP captures the word, wakes the
        thread and answers END_RESP at once. */
    method NbTransportBw(gp: GenericPayload, phase: Phase) returns (answer: Phase)
      requires Valid() && gp.data.Length >= 4 && (phase == EndReq || phase == BeginResp)
      modifies this`writeDone, this`endReq, this`resp, readData
      ensures answer == if phase == BeginResp then EndResp else phase
      ensures endReq == (old(endReq) || phase == EndReq) && resp == (old(resp) || phase == BeginResp)
      ensures readData[..] == if phase == BeginResp && gp.command == Read then old(gp.data[..])[..4]
                              else old(readData[..])
      ensures writeDone == (old(writeDone) || (phase == BeginResp && gp.command != Read))
    {
      answer := phase;
      if phase == EndReq {
        endReq := true;
        return;
      }
      if gp.command == Read {
        forall i | 0 <= i < 4 {
          readData[i] := gp.data[i];
        }
      } else {
        writeDone := true;
      }
      resp := true;
      answer := EndResp;
    }

    /** The end of a word operation: the thread drops its reference; if memory's is gone the
        object returns to the pool. */
    method EndWord()
      requires Valid() && trans != null && trans.refs > 0
      modifies this`trans, mm`pool, trans`refs, trans`response
      ensures Valid() && trans == null && old(trans).refs == old(trans.refs) - 1
      ensures mm.pool == if old(trans.refs) == 1 then Returned(old(mm.pool), old(trans)) else old(mm.pool)
    {
      mm.Release(trans);
      trans := null;
    }
  }
}
