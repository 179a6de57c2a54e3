/** The interconnect: address map, translation to target-relative addresses, hop
    context and response routing (interconnect/interconnect.cpp, main.cpp). */
module InterconnectModel {
  import opened Words
  import opened Tlm
  import opened MemoryModel

  datatype Region = Region(base: uint64, size: uint64, port: nat)

  predicate Contains(r: Region, addr: uint64) {
    r.base <= addr < Wrap64(r.base + r.size)
  }

  /** The first region that contains the address. */
  function Lookup(regions: seq<Region>, addr: uint64): (r: Option<Region>)
    ensures r.Some? ==> r.value in regions && Contains(r.value, addr)
    ensures r.None? ==> forall g | g in regions :: !Contains(g, addr)
  {
    if regions == [] then None
    else if Contains(regions[0], addr) then Some(regions[0])
    else Lookup(regions[1..], addr)
  }

  /** One step of the search, which has passed over the regions before i. */
  lemma LookupAt(regions: seq<Region>, addr: uint64, i: nat)
    requires i < |regions| && Lookup(regions, addr) == Lookup(regions[i..], addr)
    ensures Lookup(regions, addr)
         == if Contains(regions[i], addr) then Some(regions[i]) else Lookup(regions[i + 1..], addr)
  {
    assert regions[i..][1..] == regions[i + 1..];
  }

  /** The first region that contains the address decides. */
  lemma {:induction false} LookupFirst(regions: seq<Region>, addr: uint64, i: nat)
    requires i < |regions| && Contains(regions[i], addr) && forall j :: 0 <= j < i ==> !Contains(regions[j], addr)
    ensures Lookup(regions, addr) == Some(regions[i])
  {
    if i > 0 {
      assert !Contains(regions[0], addr);
      LookupFirst(regions[1..], addr, i - 1);
    }
  }

  /** A region holds the addresses from its base on, unless it reaches the end of the 64-bit
      space: then its end wraps and it holds none. */
  lemma ContainsIff(r: Region, addr: uint64)
    ensures Contains(r, addr) <==> 0 <= addr - r.base < r.size && r.base + r.size < 0x1_0000_0000_0000_0000
  {
  }

  // ---- The address map of the system ----

  const HIGH: uint64 := 0x8000_0000
  const MEM_PORT: nat := 0

  const SOC_REGIONS: seq<Region> := [
    Region(0x0000_0000, SIZE, MEM_PORT),
    Region(HIGH, SIZE, MEM_PORT),
    Region(0x1000_0000, 0x1000, 1),
    Region(0x1000_1000, 0x1000, 2),
    Region(0x1000_2000, 0x1000, 3),
    Region(0x0200_0000, 0x1_0000, 4)]

  /** Memory answers at its low and its high alias. */
  predicate InMemory(addr: uint64) {
    addr < SIZE || HIGH <= addr < HIGH + SIZE
  }

  /** The memory offset behind an absolute address. */
  function Phys(addr: uint64): (o: nat)
    ensures InMemory(addr) ==> o < SIZE
  {
    if addr < HIGH then addr else addr - HIGH
  }

  /** Where a transaction goes: a port, and the address the target sees. */
  datatype Route = Route(port: nat, offset: uint64)

  function RouteOf(regions: seq<Region>, addr: uint64): Option<Route> {
    match Lookup(regions, addr)
    case None => None
    case Some(r) => Some(Route(r.port, addr - r.base))
  }

  /** The design's address map: memory at two aliases, the registers of the four peripherals,
      nothing anywhere else. */
  function SocRoute(addr: uint64, mem: nat, dma: nat, display: nat, fpu: nat, clint: nat): Option<Route> {
    if addr <= 0x007F_FFFF then Some(Route(mem, addr))
    else if 0x8000_0000 <= addr <= 0x807F_FFFF then Some(Route(mem, addr - 0x8000_0000))
    else if 0x1000_0000 <= addr <= 0x1000_0FFF then Some(Route(dma, addr - 0x1000_0000))
    else if 0x1000_1000 <= addr <= 0x1000_1FFF then Some(Route(display, addr - 0x1000_1000))
    else if 0x1000_2000 <= addr <= 0x1000_2FFF then Some(Route(fpu, addr - 0x1000_2000))
    else if 0x0200_0000 <= addr <= 0x0200_FFFF then Some(Route(clint, addr - 0x0200_0000))
    else None
  }

  lemma LookupSix(regions: seq<Region>, addr: uint64)
    requires |regions| == 6
    ensures Lookup(regions, addr)
         == if Contains(regions[0], addr) then Some(regions[0])
            else if Contains(regions[1], addr) then Some(regions[1])
            else if Contains(regions[2], addr) then Some(regions[2])
            else if Contains(regions[3], addr) then Some(regions[3])
            else if Contains(regions[4], addr) then Some(regions[4])
            else if Contains(regions[5], addr) then Some(regions[5])
            else None
  {
    var r := Lookup(regions, addr);
    if i :| 0 <= i < 6 && Contains(regions[i], addr) && forall j :: 0 <= j < i ==> !Contains(regions[j], addr) {
      LookupFirst(regions, addr, i);
    }
  }

  lemma SocContains(addr: uint64)
    ensures Contains(SOC_REGIONS[0], addr) <==> addr <= 0x007F_FFFF
    ensures Contains(SOC_REGIONS[1], addr) <==> 0x8000_0000 <= addr <= 0x807F_FFFF
    ensures Contains(SOC_REGIONS[2], addr) <==> 0x1000_0000 <= addr <= 0x1000_0FFF
    ensures Contains(SOC_REGIONS[3], addr) <==> 0x1000_1000 <= addr <= 0x1000_1FFF
    ensures Contains(SOC_REGIONS[4], addr) <==> 0x1000_2000 <= addr <= 0x1000_2FFF
    ensures Contains(SOC_REGIONS[5], addr) <==> 0x0200_0000 <= addr <= 0x0200_FFFF
  {
  }

  /** The map of main.cpp routes every address of the bus as the design says. */
  lemma SocRouting(addr: uint64)
    ensures RouteOf(SOC_REGIONS, addr) == SocRoute(addr, 0, 1, 2, 3, 4)
  {
    LookupSix(SOC_REGIONS, addr);
    SocContains(addr);
  }

  /** Exactly the two aliases go to memory, each at its offset. */
  lemma SocMap(addr: uint64)
    ensures InMemory(addr) <==> var r := Lookup(SOC_REGIONS, addr); r.Some? && r.value.port == MEM_PORT
    ensures InMemory(addr) ==> addr - Lookup(SOC_REGIONS, addr).value.base == Phys(addr)
  {
    SocRouting(addr);
  }

  // ---- The non-blocking path on values ----

  /** The mutable routing state of a payload: its address and its hop context. */
  datatype Carried = Carried(address: uint64, hop: Option<HopCtx>)

  /** nb_transport_fw: the downstream port, and the payload as forwarded. */
  function Forward(regions: seq<Region>, id: nat, c: Carried, phase: Phase): Option<(nat, Carried)> {
    var r := Lookup(regions, c.address);
    if r.None? then None
    else if phase == BeginReq then
      Some((r.value.port, Carried(c.address - r.value.base, Some(HopCtx(c.address, id)))))
    else Some((r.value.port, c))
  }

  /** nb_transport_bw: the payload as returned, and the upstream port it goes to. */
  function Backward(c: Carried, phase: Phase): (Carried, nat) {
    if c.hop.None? then (c, 0)
    else if phase == BeginResp then (c.(address := c.hop.value.origAddr), c.hop.value.masterId)
    else if phase == EndReq then (c, c.hop.value.masterId)
    else (c, 0)
  }

  // ---- The three paths on values ----

  /** What a completed path shows: port, target-relative address, effect, final address. */
  datatype PathResult =
    | Unmapped
    | Path(port: nat, offset: uint64, outcome: Outcome, finalAddress: uint64)

  function BlockingPath(regions: seq<Region>, base: uint64, q: Request, mem: seq<byte>, buf: seq<byte>): PathResult
    requires Legal(q) && |mem| == SIZE && q.length <= |buf|
  {
    match Lookup(regions, q.address)
    case None => Unmapped
    case Some(r) =>
      var offset := q.address - r.base;
      Path(r.port, offset, Blocking(base, q.(address := offset), mem, buf), q.address)
  }

  /** The non-blocking path: forward, access at BEGIN_REQ, END_REQ and BEGIN_RESP back.
      The payload may still carry the hop context of an earlier owner. */
  function NonBlockingPath(regions: seq<Region>, base: uint64, q: Request, mem: seq<byte>, buf: seq<byte>,
                           id: nat, stale: Option<HopCtx>): PathResult
    requires Legal(q) && |mem| == SIZE && q.length <= |buf|
  {
    match Forward(regions, id, Carried(q.address, stale), BeginReq)
    case None => Unmapped
    case Some((port, c)) =>
      var outcome := NonBlocking(base, q.(address := c.address), mem, buf);
      var c' := Backward(c, EndReq).0;
      Path(port, c.address, outcome, Backward(c', BeginResp).0.address)
  }

  function DebugPath(regions: seq<Region>, base: uint64, q: Request, mem: seq<byte>, buf: seq<byte>): PathResult
    requires |mem| == SIZE && q.length <= |buf|
    requires var r := Lookup(regions, q.address); r.Some? ==>
               var o := ToOffset(base, q.address - r.value.base);
               Wrap32(o + q.length) <= SIZE ==> o + q.length <= SIZE
  {
    match Lookup(regions, q.address)
    case None => Unmapped
    case Some(r) =>
      var offset := q.address - r.base;
      Path(r.port, offset, Debug(base, q.(address := offset), mem, buf), q.address)
  }

  /** Behind a memory address the system's blocking path is the blocking access at its offset. */
  lemma SocPath(base: uint64, q: Request, mem: seq<byte>, buf: seq<byte>)
    requires Legal(q) && |mem| == SIZE && q.length <= |buf| && InMemory(q.address)
    ensures BlockingPath(SOC_REGIONS, base, q, mem, buf)
         == Path(MEM_PORT, Phys(q.address), Blocking(base, q.(address := Phys(q.address)), mem, buf), q.address)
  {
    SocMap(q.address);
  }

  // ---- Agreement of the three paths ----

  /** The mapped address and length fit the memory behind the region. */
  predicate MappedInRange(regions: seq<Region>, q: Request) {
    var r := Lookup(regions, q.address);
    r.Some? && q.address - r.value.base < SIZE && q.address - r.value.base + q.length <= SIZE
  }

  /** The non-blocking path delivers the translated request and restores the address. */
  lemma NonBlockingPathIs(regions: seq<Region>, base: uint64, q: Request,
                           mem: seq<byte>, buf: seq<byte>, id: nat, stale: Option<HopCtx>)
    requires Legal(q) && |mem| == SIZE && q.length <= |buf|
    requires Lookup(regions, q.address).Some?
    ensures var r := Lookup(regions, q.address).value;
            NonBlockingPath(regions, base, q, mem, buf, id, stale)
            == Path(r.port, q.address - r.base,
                    NonBlocking(base, q.(address := q.address - r.base), mem, buf), q.address)
  {
    ResponsesReachIssuer(regions, id, q.address, stale);
  }

  /** With a direct base, the blocking and the non-blocking path select the same port and
      offset, leave the same memory, data and response, and restore the address. */
  lemma PathsAgree(regions: seq<Region>, base: uint64, q: Request, mem: seq<byte>, buf: seq<byte>,
                   id: nat, stale: Option<HopCtx>)
    requires Legal(q) && |mem| == SIZE && q.length <= |buf|
    requires DirectBase(base) && MappedInRange(regions, q)
    ensures BlockingPath(regions, base, q, mem, buf) == NonBlockingPath(regions, base, q, mem, buf, id, stale)
    ensures var p := BlockingPath(regions, base, q, mem, buf);
            p.Path? && p.finalAddress == q.address && p.outcome.response == Ok
  {
    NonBlockingPathIs(regions, base, q, mem, buf, id, stale);
    BlockingIsNonBlocking(base, q.(address := q.address - Lookup(regions, q.address).value.base), mem, buf);
  }

  /** So does the debug path, for a plain payload. */
  lemma DebugPathAgrees(regions: seq<Region>, base: uint64, q: Request,
                         mem: seq<byte>, buf: seq<byte>)
    requires Plain(q) && q.command != Ignore && |mem| == SIZE && q.length <= |buf|
    requires DirectBase(base) && MappedInRange(regions, q)
    ensures ToOffset(base, q.address - Lookup(regions, q.address).value.base) + q.length <= SIZE
    ensures DebugPath(regions, base, q, mem, buf) == BlockingPath(regions, base, q, mem, buf)
  {
    var r := Lookup(regions, q.address).value;
    DebugIsBlocking(base, q.(address := q.address - r.base), mem, buf);
    SameOutcome(regions, base, q, mem, buf, r);
  }

  lemma SameOutcome(regions: seq<Region>, base: uint64, q: Request, mem: seq<byte>, buf: seq<byte>, r: Region)
    requires Legal(q) && |mem| == SIZE && q.length <= |buf| && Lookup(regions, q.address) == Some(r)
    requires ToOffset(base, q.address - r.base) + q.length <= SIZE
    requires Debug(base, q.(address := q.address - r.base), mem, buf)
          == Blocking(base, q.(address := q.address - r.base), mem, buf)
    ensures DebugPath(regions, base, q, mem, buf) == BlockingPath(regions, base, q, mem, buf)
  {
  }

  lemma DebugIsBlocking(base: uint64, q: Request, mem: seq<byte>, buf: seq<byte>)
    requires Plain(q) && q.command != Ignore && |mem| == SIZE && q.length <= |buf|
    requires DirectBase(base) && InRange(q) && q.address < SIZE
    ensures ToOffset(base, q.address) + q.length <= SIZE
    ensures Debug(base, q, mem, buf) == Blocking(base, q, mem, buf)
  {
    BlockingIsNonBlocking(base, q, mem, buf);
    DebugIsNonBlocking(base, q, mem, buf);
  }

  /** An unmapped address is refused on all three paths. */
  lemma UnmappedAgree(regions: seq<Region>, base: uint64, q: Request, mem: seq<byte>, buf: seq<byte>,
    id: nat, stale: Option<HopCtx>)
    requires Legal(q) && |mem| == SIZE && q.length <= |buf|
    requires forall g | g in regions :: !Contains(g, q.address)
    ensures BlockingPath(regions, base, q, mem, buf) == Unmapped
    ensures NonBlockingPath(regions, base, q, mem, buf, id, stale) == Unmapped
    ensures DebugPath(regions, base, q, mem, buf) == Unmapped
  {
    var r := Lookup(regions, q.address);
  }

  /** Both responses of a transaction go to its issuer, whatever context the payload carried. */
  lemma ResponsesReachIssuer(regions: seq<Region>, id: nat, addr: uint64, stale: Option<HopCtx>)
    requires Lookup(regions, addr).Some?
    ensures var c := Forward(regions, id, Carried(addr, stale), BeginReq).value.1;
            && Backward(c, EndReq) == (c, id)
            && Backward(c, BeginResp).1 == id
            && Backward(c, BeginResp).0.address == addr
  {
  }

  // ---- The module itself ----

  class Interconnect {
    var regions: seq<Region>
    var nextPort: nat
    const memory: Memory

    constructor (memory: Memory)
      ensures regions == [] && nextPort == 0 && this.memory == memory
    {
      regions, nextPort, this.memory := [], 0, memory;
    }

    method AddTarget() returns (port: nat)
      modifies this`nextPort
      ensures port == old(nextPort) && nextPort == port + 1
    {
      port := nextPort;
      nextPort := nextPort + 1;
    }

    method Map(base: uint64, size: uint64, port: nat)
      modifies this`regions
      ensures regions == old(regions) + [Region(base, size, port)]
    {
      regions := regions + [Region(base, size, port)];
    }

    /** The port of the first matching region, or -1. */
    method FindPort(addr: uint64) returns (port: int)
      ensures var r := Lookup(regions, addr); port == if r.Some? then r.value.port else -1
    {
      for i := 0 to |regions|
        invariant Lookup(regions, addr) == Lookup(regions[i..], addr)
      {
        assert Lookup(regions, addr)
            == if Contains(regions[i], addr) then Some(regions[i]) else Lookup(regions[i + 1..], addr) by {
          LookupAt(regions, addr, i);
        }
        if regions[i].base <= addr < Wrap64(regions[i].base + regions[i].size) {
          return regions[i].port;
        }
      }
      return -1;
    }

    /** A target other than memory: it may change the response and the buffer and take time,
        nothing else. */
    method Peripheral(port: nat, trans: GenericPayload) returns (time: nat, ghost call: Route)
      requires trans.WellFormed()
      modifies trans.data, trans`response
      ensures call == Route(port, trans.address)
    {
      call := Route(port, trans.address);
      for i := 0 to trans.length
        invariant trans.length <= trans.data.Length
      {
        trans.data[i] := *;
      }
      trans.response := *;
      time := *;
    }

    /** What a matching region does with the payload: the target sees the offset, the caller
        gets its address back. */
    method Deliver(region: Region, trans: GenericPayload, now: nat, delay: nat) returns (d: nat, ghost call: Route)
      requires memory.Valid() && trans.WellFormed() && trans.data != memory.mem && memory.refreshStart <= now
      requires region.base <= trans.address
      modifies memory.mem, trans.data, trans`response, trans`address
      ensures trans.address == old(trans.address)
      ensures region.port == MEM_PORT ==>
                && Outcome(memory.mem[..], trans.data[..], trans.response)
                   == Blocking(memory.baseAddr, trans.Attributes().(address := trans.address - region.base),
                               old(memory.mem[..]), old(trans.data[..]))
                && d == delay + if trans.response == Ok then memory.Cost(trans.command, now) else 0
      ensures region.port != MEM_PORT ==> memory.mem[..] == old(memory.mem[..]) && d >= delay
      ensures call == Route(region.port, trans.address - region.base)
    {
      var addr := trans.address;
      trans.address := addr - region.base;
      if region.port == MEM_PORT {
        call := Route(MEM_PORT, trans.address);
        d := memory.BTransport(trans, now, delay);
      } else {
        var time: nat;
        time, call := Peripheral(region.port, trans);
        d := delay + time;
      }
      trans.address := addr;
    }

    /** The blocking path. `call` is the socket called and the address its target sees. */
    method BTransport(trans: GenericPayload, now: nat, delay: nat) returns (d: nat, ghost call: Option<Route>)
      requires memory.Valid() && trans.WellFormed() && trans.data != memory.mem && memory.refreshStart <= now
      modifies memory.mem, trans.data, trans`response, trans`address
      ensures trans.address == old(trans.address)
      ensures match Lookup(regions, trans.address)
              case None => trans.response == AddressError && memory.mem[..] == old(memory.mem[..])
                           && trans.data[..] == old(trans.data[..]) && d == delay
              case Some(r) =>
                if r.port == MEM_PORT then
                  && Path(r.port, trans.address - r.base,
                          Outcome(memory.mem[..], trans.data[..], trans.response), trans.address)
                     == BlockingPath(regions, memory.baseAddr, trans.Attributes(),
                                     old(memory.mem[..]), old(trans.data[..]))
                  && d == delay + if trans.response == Ok then memory.Cost(trans.command, now) else 0
                else memory.mem[..] == old(memory.mem[..]) && d >= delay
      ensures call == RouteOf(regions, trans.address)
    {
      d, call := delay, None;
      var addr := trans.address;
      for i := 0 to |regions|
        invariant Lookup(regions, addr) == Lookup(regions[i..], addr)
      {
        var region := regions[i];
        assert Lookup(regions, addr)
            == if Contains(region, addr) then Some(region) else Lookup(regions[i + 1..], addr) by {
          LookupAt(regions, addr, i);
        }
        if region.base <= addr < Wrap64(region.base + region.size) {
          ghost var route;
          d, route := Deliver(region, trans, now, delay);
          call := Some(route);
          return;
        }
      }
      trans.response := AddressError;
    }

    /** Translates the payload on BEGIN_REQ; returns the downstream port, or -1 if refused. Any
        other phase passes through to the port of its address. */
    method NbTransportFw(id: nat, trans: GenericPayload, phase: Phase) returns (port: int)
      modifies trans`address, trans`hop, trans`response
      ensures match RouteOf(regions, old(trans.address))
              case None => port == -1
              case Some(r) =>
                && port == r.port
                && Carried(trans.address, trans.hop)
                   == if phase == BeginReq then Carried(r.offset, Some(HopCtx(old(trans.address), id)))
                      else old(Carried(trans.address, trans.hop))
      ensures match Forward(regions, id, Carried(old(trans.address), old(trans.hop)), phase)
              case None => port == -1 && trans.response == AddressError
                           && trans.address == old(trans.address) && trans.hop == old(trans.hop)
              case Some((p, c)) => port == p && Carried(trans.address, trans.hop) == c
                                   && trans.response == old(trans.response)
    {
      var addr := trans.address;
      port := FindPort(addr);
      if port < 0 {
        trans.response := AddressError;
        return;
      }
      if phase == BeginReq {
        var regionBase: uint64 := 0;
        var i := 0;
        while i < |regions|
          invariant 0 <= i <= |regions|
          invariant Lookup(regions, addr) == Lookup(regions[i..], addr)
          invariant i == |regions| ==> Lookup(regions, addr).None?
        {
          if regions[i].base <= addr < Wrap64(regions[i].base + regions[i].size) {
            regionBase := regions[i].base;
            break;
          }
          assert regions[i..][1..] == regions[i + 1..];
          i := i + 1;
        }
        trans.hop := Some(HopCtx(addr, id));
        trans.address := addr - regionBase;
      }
    }

    /** Restores the absolute address on BEGIN_RESP; returns the upstream port. */
    method NbTransportBw(trans: GenericPayload, phase: Phase) returns (masterId: nat)
      modifies trans`address
      ensures (Carried(trans.address, trans.hop), masterId) == Backward(Carried(old(trans.address), trans.hop), phase)
    {
      masterId := 0;
      if phase == BeginResp {
        if trans.hop.Some? {
          trans.address := trans.hop.value.origAddr;
          masterId := trans.hop.value.masterId;
        }
      } else if phase == EndReq {
        if trans.hop.Some? {
          masterId := trans.hop.value.masterId;
        }
      }
    }

    method DeliverDbg(region: Region, trans: GenericPayload) returns (n: nat, ghost call: Route)
      requires memory.Valid() && trans.WellFormed() && trans.data != memory.mem && region.base <= trans.address
      requires var o := ToOffset(memory.baseAddr, trans.address - region.base);
               Wrap32(o + trans.length) <= SIZE ==> o + trans.length <= SIZE
      modifies memory.mem, trans.data, trans`response, trans`address
      ensures trans.address == old(trans.address)
      ensures region.port == MEM_PORT ==>
                && Outcome(memory.mem[..], trans.data[..], trans.response)
                   == Debug(memory.baseAddr, trans.Attributes().(address := trans.address - region.base),
                            old(memory.mem[..]), old(trans.data[..]))
                && n == if trans.response == Ok then trans.length else 0
      ensures region.port != MEM_PORT ==> memory.mem[..] == old(memory.mem[..]) && n == trans.length
      ensures call == Route(region.port, trans.address - region.base)
    {
      var addr := trans.address;
      trans.address := addr - region.base;
      if region.port == MEM_PORT {
        call := Route(MEM_PORT, trans.address);
        n := memory.TransportDbg(trans);
      } else {
        var time: nat;
        time, call := Peripheral(region.port, trans);
        n := trans.length;
      }
      trans.address := addr;
    }

    method TransportDbg(trans: GenericPayload) returns (n: nat, ghost call: Option<Route>)
      requires memory.Valid() && trans.WellFormed() && trans.data != memory.mem
      requires var r := Lookup(regions, trans.address); r.Some? ==>
                 var o := ToOffset(memory.baseAddr, trans.address - r.value.base);
                 Wrap32(o + trans.length) <= SIZE ==> o + trans.length <= SIZE
      modifies memory.mem, trans.data, trans`response, trans`address
      ensures trans.address == old(trans.address)
      ensures match Lookup(regions, trans.address)
              case None => trans.response == AddressError && n == 0 && memory.mem[..] == old(memory.mem[..])
              case Some(r) =>
                if r.port == MEM_PORT then
                  && Path(r.port, trans.address - r.base,
                          Outcome(memory.mem[..], trans.data[..], trans.response), trans.address)
                     == DebugPath(regions, memory.baseAddr, trans.Attributes(),
                                  old(memory.mem[..]), old(trans.data[..]))
                  && n == if trans.response == Ok then trans.length else 0
                else memory.mem[..] == old(memory.mem[..]) && n == trans.length
      ensures call == RouteOf(regions, trans.address)
    {
      n, call := 0, None;
      var addr := trans.address;
      for i := 0 to |regions|
        invariant Lookup(regions, addr) == Lookup(regions[i..], addr)
      {
        var region := regions[i];
        assert Lookup(regions, addr)
            == if Contains(region, addr) then Some(region) else Lookup(regions[i + 1..], addr) by {
          LookupAt(regions, addr, i);
        }
        if region.base <= addr < Wrap64(region.base + region.size) {
          ghost var route;
          n, route := DeliverDbg(region, trans);
          call := Some(route);
          return;
        }
      }
      trans.response := AddressError;
    }
  }

  /** The elaboration of main.cpp: five ports, six regions. Every address is routed as the design
      says, and the five devices have ports of their own. */
  method BuildMap(memory: Memory)
    returns (ic: Interconnect, mem: nat, dma: nat, display: nat, fpu: nat, clint: nat)
    ensures fresh(ic) && ic.memory == memory && ic.regions == SOC_REGIONS && mem == MEM_PORT
    ensures |{mem, dma, display, fpu, clint}| == 5
    ensures forall addr: uint64 :: RouteOf(ic.regions, addr) == SocRoute(addr, mem, dma, display, fpu, clint)
  {
    ic := new Interconnect(memory);
    mem := ic.AddTarget();
    dma := ic.AddTarget();
    display := ic.AddTarget();
    fpu := ic.AddTarget();
    clint := ic.AddTarget();
    ic.Map(0x0000_0000, SIZE, mem);
    ic.Map(0x8000_0000, SIZE, mem);
    ic.Map(0x1000_0000, 0x1000, dma);
    ic.Map(0x1000_1000, 0x1000, display);
    ic.Map(0x1000_2000, 0x1000, fpu);
    ic.Map(0x0200_0000, 0x1_0000, clint);
    forall addr: uint64 ensures RouteOf(SOC_REGIONS, addr) == SocRoute(addr, 0, 1, 2, 3, 4) {
      SocRouting(addr);
    }
  }
}
