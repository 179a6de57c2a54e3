/** The cache module as the simulator runs it, in place over its sets and through the
    interconnect, proved against the accesses of CacheOps (cache/cache.cpp). */
module CacheModel {
  import opened Words
  import opened Tlm
  import opened MemoryModel
  import opened InterconnectModel
  import opened CacheIndex
  import opened CacheOps
  import opened CacheView

  class Cache {
    const config: Geometry
    var sets: seq<seq<Line>>
    var hits: nat
    var misses: nat
    var mmioBypass: nat
    var mmioRanges: seq<Range>
    const downstream: Interconnect

    function State(): CacheState
      reads this
    {
      CacheState(sets, hits, misses)
    }

    /** The system's memory map lies below. */
    ghost predicate Below()
      reads downstream, downstream.memory
    {
      downstream.regions == SOC_REGIONS && downstream.memory.Valid() && DirectBase(downstream.memory.baseAddr)
    }

    ghost predicate Valid()
      reads this, downstream, downstream.memory
    {
      Shaped(config, State()) && Below()
    }

    constructor (config: Geometry, downstream: Interconnect)
      requires downstream.regions == SOC_REGIONS && downstream.memory.Valid() && DirectBase(downstream.memory.baseAddr)
      ensures Valid() && Sound(config, State()) && this.config == config && this.downstream == downstream
      ensures hits == 0 && misses == 0 && mmioBypass == 0 && mmioRanges == []
      ensures forall s, w | 0 <= s < |sets| && 0 <= w < config.ways :: !sets[s][w].valid
    {
      this.config, this.downstream := config, downstream;
      hits, misses, mmioBypass, mmioRanges := 0, 0, 0, [];
      var line := Line(false, 0, seq(config.lineSize, _ => 0), 0);
      var ways := seq(config.ways, _ => line);
      sets := seq(NumSets(config), _ => ways);
    }

    method ResetStats()
      modifies this`hits, this`misses, this`mmioBypass
      ensures hits == 0 && misses == 0 && mmioBypass == 0
      ensures State() == CacheOps.ResetStats(old(State()))
    {
      hits, misses, mmioBypass := 0, 0, 0;
    }

    method AddMmioBypass(start: uint64, end: uint64)
      modifies this`mmioRanges
      ensures mmioRanges == old(mmioRanges) + [(start, end)]
      ensures forall a: uint64 :: Bypassed(a) <==> old(Bypassed(a)) || start <= a <= end
    {
      mmioRanges := mmioRanges + [(start, end)];
      forall a: uint64
        ensures Bypassed(a) <==> old(Bypassed(a)) || start <= a <= end
      {
        WithinOneMore(old(mmioRanges), (start, end), a);
      }
    }

    predicate Bypassed(addr: uint64)
      reads this
    {
      Within(mmioRanges, addr)
    }

    method IsMmio(addr: uint64) returns (b: bool)
      ensures b == Bypassed(addr)
    {
      for i := 0 to |mmioRanges|
        invariant forall j | 0 <= j < i :: !(mmioRanges[j].0 <= addr <= mmioRanges[j].1)
      {
        if mmioRanges[i].0 <= addr <= mmioRanges[i].1 {
          return true;
        }
      }
      return false;
    }

    method FindLine(s: nat, tag: uint32) returns (w: int)
      requires s < |sets|
      ensures w == CacheOps.FindLine(sets[s], tag)
    {
      for i := 0 to |sets[s]|
        invariant CacheOps.FindLine(sets[s], tag) == FindFrom(sets[s], tag, i)
      {
        if sets[s][i].valid && sets[s][i].tag == tag {
          return i;
        }
      }
      return -1;
    }

    method VictimWay(s: nat) returns (v: nat)
      requires s < |sets| && |sets[s]| > 0
      ensures v == CacheOps.VictimWay(sets[s])
    {
      for i := 0 to |sets[s]|
        invariant FirstInvalid(sets[s], 0) == FirstInvalid(sets[s], i)
      {
        if !sets[s][i].valid {
          return i;
        }
      }
      v := 0;
      var minLru := sets[s][0].lru;
      for i := 1 to |sets[s]|
        invariant v == MinLru(sets[s], i) && minLru == sets[s][v].lru
      {
        if sets[s][i].lru < minLru {
          minLru := sets[s][i].lru;
          v := i;
        }
      }
    }

    /** initiator_socket->b_transport for a plain access to memory. */
    method Forward(trans: GenericPayload, now: nat, delay: nat) returns (d: nat)
      requires Below() && trans.data != downstream.memory.mem && downstream.memory.refreshStart <= now
      requires InBlock(trans.Attributes(), trans.data[..])
      modifies downstream.memory.mem, trans.data, trans`response, trans`address
      ensures trans.address == old(trans.address) && trans.response == Ok
      ensures (downstream.memory.mem[..], trans.data[..])
           == Through(trans.Attributes(), old(downstream.memory.mem[..]), old(trans.data[..]))
      ensures d == delay + downstream.memory.Cost(trans.command, now)
    {
      SocMap(trans.address);
      PlainBlockingPath(downstream.memory.baseAddr, trans.Attributes(), downstream.memory.mem[..], trans.data[..]);
      ghost var call;
      d, call := downstream.BTransport(trans, now, delay);
    }

    /** Reads the line around addr from memory into way v. */
    method FillLine(s: nat, v: nat, addr: uint64, now: nat)
      requires Valid() && InMemory(addr) && s < |sets| && v < config.ways && downstream.memory.refreshStart <= now
      modifies this`sets, downstream.memory.mem
      ensures State() == PutLine(old(State()), s, v,
                                 Filled(config, old(sets[s][v]), old(downstream.memory.mem[..]), addr))
      ensures downstream.memory.mem[..] == old(downstream.memory.mem[..])
    {
      var line := sets[s][v];
      BlockInMemory(config, addr);
      var lineAddr := LineAddress(config, addr);
      var buf := new byte[config.lineSize](i requires 0 <= i < |line.data| => line.data[i]);
      var trans := new GenericPayload(Read, lineAddr, buf, config.lineSize, config.lineSize);
      var _ := Forward(trans, now, 0);
      if trans.response == AddressError {
        return;
      }
      assert buf[..] == Slice(old(downstream.memory.mem[..]), Phys(lineAddr), config.lineSize);
      sets := sets[s := sets[s][v := Line(true, Tag(config, lineAddr), buf[..], line.lru)]];
    }

    /** Copies from way w of set s and stamps it; the hit counter advances before the sum. */
    method ReadHit(s: nat, w: nat, trans: GenericPayload, offset: nat)
      requires Shaped(config, State()) && s < |sets| && w < config.ways
      requires trans.length <= trans.data.Length && offset + trans.length <= config.lineSize
      modifies this`sets, this`hits, trans.data, trans`response
      ensures State() == Stamp(old(State()), s, w)
      ensures trans.data[..] == Slice(old(sets[s][w].data), offset, trans.length) + old(trans.data[..])[trans.length..]
      ensures trans.response == Ok
    {
      var line := sets[s][w];
      hits := hits + 1;
      sets := sets[s := sets[s][w := line.(lru := Wrap32(hits + misses))]];
      forall i | 0 <= i < trans.length {
        trans.data[i] := line.data[offset + i];
      }
      assert trans.data[..] == Slice(line.data, offset, trans.length) + old(trans.data[..])[trans.length..];
      trans.response := Ok;
    }

    /** The part of write_hit that changes the line. */
    method UpdateLine(s: nat, w: nat, bytes: seq<byte>, offset: nat)
      requires Shaped(config, State()) && s < |sets| && w < config.ways && offset + |bytes| <= config.lineSize
      modifies this`sets, this`hits
      ensures State() == Overwritten(config, Stamp(old(State()), s, w), s, w, offset, bytes)
    {
      hits := hits + 1;
      sets := sets[s := sets[s][w := sets[s][w].(lru := Wrap32(hits + misses))]];
      sets := sets[s := sets[s][w := sets[s][w].(data := Splice(sets[s][w].data, offset, bytes))]];
    }

    /** Copies into way w of set s, stamps it, and writes through. */
    method WriteHit(s: nat, w: nat, trans: GenericPayload, offset: nat, now: nat)
      requires Valid() && s < |sets| && w < config.ways
      requires trans.data != downstream.memory.mem && downstream.memory.refreshStart <= now
      requires InBlock(trans.Attributes(), trans.data[..]) && offset + trans.length <= config.lineSize
      modifies this`sets, this`hits, downstream.memory.mem, trans.data, trans`response, trans`address
      ensures State() == Overwritten(config, Stamp(old(State()), s, w), s, w, offset,
                                     old(trans.data[..])[..trans.length])
      ensures trans.address == old(trans.address) && trans.response == Ok
      ensures (downstream.memory.mem[..], trans.data[..])
           == Through(trans.Attributes(), old(downstream.memory.mem[..]), old(trans.data[..]))
    {
      UpdateLine(s, w, trans.data[..][..trans.length], offset);
      var _ := Forward(trans, now, 0);
    }

    /** The blocking path: bypass, read hit, write hit, read miss, write miss. A read of any kind
        and a write to a resident byte cost the caller nothing, a write to an absent line the
        access below. `call` is where an access that bypasses the cache goes. */
    method BTransport(trans: GenericPayload, now: nat, delay: nat) returns (d: nat, ghost call: Option<Route>)
      requires Valid() && trans.WellFormed()
      requires trans.data != downstream.memory.mem && downstream.memory.refreshStart <= now
      requires !Bypassed(trans.address) ==> Plain(trans.Attributes()) && InLine(config, trans.address, trans.length)
      modifies this`sets, this`hits, this`misses, this`mmioBypass
      modifies downstream.memory.mem, trans.data, trans`response, trans`address
      ensures trans.address == old(trans.address)
      ensures old(Bypassed(trans.address)) ==> State() == old(State()) && mmioBypass == old(mmioBypass) + 1
      ensures old(Bypassed(trans.address)) && !InMemory(trans.address) ==>
                downstream.memory.mem[..] == old(downstream.memory.mem[..])
      ensures old(Bypassed(trans.address)) && InMemory(trans.address) ==>
                Path(MEM_PORT, Phys(trans.address),
                     Outcome(downstream.memory.mem[..], trans.data[..], trans.response), trans.address)
                == BlockingPath(SOC_REGIONS, downstream.memory.baseAddr, trans.Attributes(),
                                old(downstream.memory.mem[..]), old(trans.data[..]))
      ensures old(Bypassed(trans.address)) ==> call == RouteOf(SOC_REGIONS, trans.address)
      ensures old(Bypassed(trans.address)) ==>
                if InMemory(trans.address) && trans.response == Ok
                then d == delay + downstream.memory.Cost(trans.command, now) else d >= delay
      ensures old(Bypassed(trans.address)) && RouteOf(SOC_REGIONS, trans.address) == None ==>
                trans.response == AddressError && trans.data[..] == old(trans.data[..]) && d == delay
      ensures !old(Bypassed(trans.address)) ==>
                && trans.response == Ok && mmioBypass == old(mmioBypass)
                && (State(), downstream.memory.mem[..], trans.data[..])
                   == Served(config, old(State()), old(downstream.memory.mem[..]), trans.Attributes(),
                             old(trans.data[..]))
      ensures !old(Bypassed(trans.address)) ==>
                var resident := old(Byte(config, State(), trans.address)).Some?;
                d == if trans.command == Read || (trans.command == Write && resident) then delay
                     else delay + downstream.memory.Cost(trans.command, now)
    {
      d, call := delay, None;
      var addr := trans.address;
      var bypass := IsMmio(addr);
      if bypass {
        mmioBypass := mmioBypass + 1;
        SocMap(addr);
        d, call := downstream.BTransport(trans, now, delay);
      } else {
        d := Serve(trans, now, delay);
      }
    }

    /** Fills a victim way and reads from it, after searching the set again. */
    method ReadMiss(s: nat, tag: uint32, trans: GenericPayload, offset: nat, now: nat)
      requires Valid() && trans.length <= trans.data.Length && offset + trans.length <= config.lineSize
      requires trans.data != downstream.memory.mem && downstream.memory.refreshStart <= now
      requires InMemory(trans.address) && s == SetIndex(config, trans.address) && tag == Tag(config, trans.address)
      requires Find(config, State(), trans.address) < 0
      modifies this`sets, this`hits, this`misses, downstream.memory.mem, trans.data, trans`response
      ensures var (k, w) := ReadStep(config, old(State()), old(downstream.memory.mem[..]), trans.address);
              && State() == k
              && trans.data[..] == Slice(k.sets[s][w].data, offset, trans.length) + old(trans.data[..])[trans.length..]
      ensures downstream.memory.mem[..] == old(downstream.memory.mem[..]) && trans.response == Ok
    {
      ghost var k, m := State(), downstream.memory.mem[..];
      MissStep(config, k, m, trans.address);
      misses := misses + 1;
      var victim := VictimWay(s);
      FillLine(s, victim, trans.address, now);
      assert State() == PutLine(k.(misses := k.misses + 1), s, victim,
                                Filled(config, k.sets[s][victim], m, trans.address));
      var way := FindLine(s, tag);
      ReadHit(s, way, trans, offset);
    }

    /** The two cases of a read. */
    method ServeRead(way: int, trans: GenericPayload, now: nat)
      requires Valid() && trans.length <= trans.data.Length && trans.command == Read
      requires trans.data != downstream.memory.mem && downstream.memory.refreshStart <= now
      requires InLine(config, trans.address, trans.length) && way == Find(config, State(), trans.address)
      modifies this`sets, this`hits, this`misses, downstream.memory.mem, trans.data, trans`response
      ensures trans.response == Ok
      ensures (State(), downstream.memory.mem[..], trans.data[..])
              == Served(config, old(State()), old(downstream.memory.mem[..]), trans.Attributes(), old(trans.data[..]))
    {
      var addr := trans.address;
      LineOffsetIs(config, addr);
      var s, tag, offset := SetIndex(config, addr), Tag(config, addr), LineOffset(config, addr);
      if way >= 0 {
        hits := hits + 1;
        ReadHit(s, way, trans, offset);
      } else {
        ReadMiss(s, tag, trans, offset, now);
      }
    }

    /** The write hit, and the access that passes by. */
    method ServeWrite(way: int, trans: GenericPayload, now: nat, delay: nat) returns (d: nat)
      requires Valid() && trans.command != Read && InBlock(trans.Attributes(), trans.data[..])
      requires trans.data != downstream.memory.mem && downstream.memory.refreshStart <= now
      requires InLine(config, trans.address, trans.length) && way == Find(config, State(), trans.address)
      modifies this`sets, this`hits, this`misses
      modifies downstream.memory.mem, trans.data, trans`response, trans`address
      ensures trans.address == old(trans.address) && trans.response == Ok
      ensures (State(), downstream.memory.mem[..], trans.data[..])
              == Served(config, old(State()), old(downstream.memory.mem[..]), trans.Attributes(), old(trans.data[..]))
      ensures d == if trans.command == Write && way >= 0 then delay
                   else delay + downstream.memory.Cost(trans.command, now)
    {
      d := delay;
      ghost var k, m, q, b := State(), downstream.memory.mem[..], trans.Attributes(), trans.data[..];
      ghost var served := Served(config, k, m, q, b);
      ServedWrite(config, k, m, q, b, served);
      if way >= 0 && trans.command == Write {
        hits := hits + 1;
        WriteHit(SetIndex(config, trans.address), way, trans, LineOffset(config, trans.address), now);
      } else {
        misses := misses + 1;
        d := Forward(trans, now, delay);
      }
    }

    method Serve(trans: GenericPayload, now: nat, delay: nat) returns (d: nat)
      requires Valid() && trans.length <= trans.data.Length
      requires trans.data != downstream.memory.mem && downstream.memory.refreshStart <= now
      requires Plain(trans.Attributes()) && InLine(config, trans.address, trans.length)
      modifies this`sets, this`hits, this`misses
      modifies downstream.memory.mem, trans.data, trans`response, trans`address
      ensures trans.address == old(trans.address) && trans.response == Ok
      ensures (State(), downstream.memory.mem[..], trans.data[..])
              == Served(config, old(State()), old(downstream.memory.mem[..]), trans.Attributes(), old(trans.data[..]))
      ensures d == if trans.command == Read
                      || (trans.command == Write && old(Byte(config, State(), trans.address)).Some?) then delay
                   else delay + downstream.memory.Cost(trans.command, now)
    {
      FitsMemory(config, trans.address, trans.length);
      var way := FindLine(SetIndex(config, trans.address), Tag(config, trans.address));
      if trans.command == Read {
        ServeRead(way, trans, now);
        d := delay;
      } else {
        d := ServeWrite(way, trans, now, delay);
      }
    }
  }

  /** A plain access that stays inside one alias of memory. */
  predicate InBlock(q: Request, buf: seq<byte>) {
    Plain(q) && q.length <= |buf| && InMemory(q.address) && Phys(q.address) + q.length <= SIZE
  }

  /** Memory and buffer after a plain access reaches memory: one block copy. */
  function Through(q: Request, mem: seq<byte>, buf: seq<byte>): (seq<byte>, seq<byte>)
    requires InBlock(q, buf) && |mem| == SIZE
  {
    if q.command == Read then (mem, Slice(mem, Phys(q.address), q.length) + buf[q.length..])
    else (Splice(mem, Phys(q.address), buf[..q.length]), buf)
  }

  function Overwritten(c: Geometry, k: CacheState, s: nat, w: nat, offset: nat, bytes: seq<byte>): CacheState
    requires Shaped(c, k) && s < |k.sets| && w < c.ways && offset + |bytes| <= c.lineSize
  {
    PutLine(k, s, w, k.sets[s][w].(data := Splice(k.sets[s][w].data, offset, bytes)))
  }

  /** State, memory and buffer after a cached access. A command that is neither read nor
      write passes the lines by and reaches memory as a write. */
  function Served(c: Geometry, k: CacheState, mem: seq<byte>, q: Request, buf: seq<byte>)
      : (r: (CacheState, seq<byte>, seq<byte>))
    requires Shaped(c, k) && |mem| == SIZE && InLine(c, q.address, q.length) && q.length <= |buf|
    ensures Shaped(c, r.0) && |r.1| == SIZE && |r.2| == |buf|
  {
    if q.command == Read then
      (ReadStep(c, k, mem, q.address).0, mem, ReadData(c, k, mem, q.address, q.length) + buf[q.length..])
    else
      var bytes := buf[..q.length];
      (if q.command == Write then WriteStep(c, k, q.address, bytes) else k.(misses := k.misses + 1),
       WriteThrough(c, mem, q.address, bytes), buf)
  }

  /** A read miss by its parts: the state after the fill, the second search, the stamp. */
  lemma MissStep(c: Geometry, k: CacheState, mem: seq<byte>, addr: uint64)
    requires Shaped(c, k) && |mem| == SIZE && InMemory(addr) && Find(c, k, addr) < 0
    ensures var s := SetIndex(c, addr);
            var v := CacheOps.VictimWay(k.sets[s]);
            var k' := PutLine(k.(misses := k.misses + 1), s, v, Filled(c, k.sets[s][v], mem, addr));
            var w := Find(c, k', addr);
            w >= 0 && ReadStep(c, k, mem, addr) == (Stamp(k', s, w), w)
  {
    var s := SetIndex(c, addr);
    RelookupSucceeds(c, k.(misses := k.misses + 1), mem, addr, CacheOps.VictimWay(k.sets[s]));
  }

  /** What an access other than a read does, by the search for its line. */
  lemma ServedWrite(c: Geometry, k: CacheState, mem: seq<byte>, q: Request, buf: seq<byte>,
                    served: (CacheState, seq<byte>, seq<byte>))
    requires Shaped(c, k) && |mem| == SIZE && InLine(c, q.address, q.length) && q.length <= |buf|
    requires q.command != Read && InBlock(q, buf) && served == Served(c, k, mem, q, buf)
    ensures LineOffset(c, q.address) + q.length <= c.lineSize
    ensures (served.1, served.2) == Through(q, mem, buf)
    ensures var s, w, o := SetIndex(c, q.address), Find(c, k, q.address), LineOffset(c, q.address);
            served.0 == if q.command == Write && w >= 0
                        then Overwritten(c, Stamp(k.(hits := k.hits + 1), s, w), s, w, o, buf[..q.length])
                        else k.(misses := k.misses + 1)
  {
    LineOffsetIs(c, q.address);
  }

  /** A plain read or write of mapped memory through the system's interconnect is a block
      copy at its offset. */
  lemma PlainBlockingPath(base: uint64, q: Request, mem: seq<byte>, buf: seq<byte>)
    requires Plain(q) && DirectBase(base) && |mem| == SIZE && q.length <= |buf|
    requires InMemory(q.address) && Phys(q.address) + q.length <= SIZE
    ensures BlockingPath(SOC_REGIONS, base, q, mem, buf) ==
            Path(MEM_PORT, Phys(q.address),
                 if q.command == Read then Outcome(mem, Slice(mem, Phys(q.address), q.length) + buf[q.length..], Ok)
                 else Outcome(Splice(mem, Phys(q.address), buf[..q.length]), buf, Ok),
                 q.address)
  {
    SocPath(base, q, mem, buf);
    BlockingPlain(base, q.(address := Phys(q.address)), mem, buf);
  }

  lemma BlockingPlain(base: uint64, q: Request, mem: seq<byte>, buf: seq<byte>)
    requires Plain(q) && DirectBase(base) && InRange(q) && q.address < SIZE && |mem| == SIZE && q.length <= |buf|
    ensures Blocking(base, q, mem, buf) ==
            if q.command == Read then Outcome(mem, Slice(mem, q.address, q.length) + buf[q.length..], Ok)
            else Outcome(Splice(mem, q.address, buf[..q.length]), buf, Ok)
  {
    BlockingIsNonBlocking(base, q, mem, buf);
    PlainAccess(base, q, mem, buf);
  }
}
