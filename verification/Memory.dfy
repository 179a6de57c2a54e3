/** The memory module: address translation, the streaming and byte-enable loop,
    and its blocking, non-blocking and debug entry points (mem/memory.h, mem/memory.cpp). */
module MemoryModel {
  import opened Words
  import opened Tlm

  const SIZE: nat := 0x80_0000

  type Word = w: seq<byte> | |w| == 4 witness [0, 0, 0, 0]

  type Ram = m: seq<byte> | |m| == SIZE witness seq(SIZE, _ => 0)

  /** Memory::toOffset: an address relative to the loaded base, else the address itself. */
  function ToOffset(base: uint64, addr: uint64): (o: nat)
    ensures o <= SIZE
  {
    var offset := Signed64(Wrap64(addr - base));
    if 0 <= offset < SIZE then offset
    else if addr < SIZE then addr
    else SIZE
  }

  /** The bases for which an interconnect-relative address is its own offset. */
  predicate DirectBase(base: uint64) {
    base == 0 || SIZE <= base <= TWO64 - SIZE
  }

  /** Translation is the identity on [0, SIZE) exactly for the direct bases. */
  lemma DirectBaseIff(base: uint64)
    ensures DirectBase(base) <==> forall a: uint64 :: a < SIZE ==> ToOffset(base, a) == a
  {
    if !DirectBase(base) {
      if base < SIZE {
        assert ToOffset(base, base) == 0;
      } else {
        assert ToOffset(base, 0) == TWO64 - base;
      }
    }
  }

  lemma DirectOffset(base: uint64, a: uint64)
    requires DirectBase(base) && a < SIZE
    ensures ToOffset(base, a) == a
  {
  }

  /** An address k above the base, in the 64-bit space, has offset k; outside that window an
      address below SIZE is its own offset, and every other is past the end. */
  lemma OffsetIs(base: uint64, addr: uint64, k: nat)
    ensures k < 0x80_0000 && addr == (base + k) % TWO64 ==> ToOffset(base, addr) == k
    ensures (addr - base) % TWO64 >= 0x80_0000 ==>
              ToOffset(base, addr) == if addr < 0x80_0000 then addr else 0x80_0000
  {
  }

  // ---- The access loop on values ----

  function ByteOffset(base: uint64, q: Request, i: nat): (o: nat)
    requires Legal(q)
    ensures o <= SIZE
  {
    ToOffset(base, Wrap64(q.address + i % q.width))
  }

  predicate Lane(q: Request, i: nat)
    requires Legal(q)
  {
    q.enables.None? || q.enables.value[i % |q.enables.value|] == BYTE_ENABLED
  }

  /** Section 14.10: lane i is enabled if there are no byte enables, or if the byte enable at i,
      repeated over the access, is 0xFF. */
  predicate EnabledLane(q: Request, i: nat)
    requires Legal(q)
  {
    q.enables == None || (var e := q.enables.value; e[i % |e|] == 0xFF)
  }

  /** Iteration i of the loop transfers a byte. */
  predicate Touches(base: uint64, q: Request, i: nat)
    requires Legal(q)
  {
    ByteOffset(base, q, i) < SIZE && Lane(q, i)
  }

  /** Memory and buffer after the first n iterations. */
  function Access(base: uint64, q: Request, mem: seq<byte>, buf: seq<byte>, n: nat): (r: (seq<byte>, seq<byte>))
    requires Legal(q) && |mem| == SIZE && n <= |buf|
    ensures |r.0| == SIZE && |r.1| == |buf|
  {
    if n == 0 then (mem, buf) else
      var (m, b) := Access(base, q, mem, buf, n - 1);
      var o := ByteOffset(base, q, n - 1);
      if !Touches(base, q, n - 1) then (m, b)
      else if q.command == Read then (m, b[n - 1 := m[o]])
      else (m[o := b[n - 1]], b)
  }

  /** A read fills exactly the touched lanes, each from its own location. */
  lemma {:induction false} AccessReads(base: uint64, q: Request, mem: seq<byte>, buf: seq<byte>, n: nat)
    requires Legal(q) && |mem| == SIZE && n <= |buf| && q.command == Read
    ensures var (m, b) := Access(base, q, mem, buf, n);
            && m == mem
            && forall i | 0 <= i < |buf| ::
                 b[i] == if i < n && Touches(base, q, i) then mem[ByteOffset(base, q, i)] else buf[i]
  {
    if n > 0 {
      AccessReads(base, q, mem, buf, n - 1);
    }
  }

  /** Iteration i is the last one below n that writes location k. */
  ghost predicate LastWriter(base: uint64, q: Request, n: nat, k: nat, i: nat)
    requires Legal(q)
  {
    && i < n && Touches(base, q, i) && ByteOffset(base, q, i) == k
    && forall j | i < j < n :: Touches(base, q, j) ==> ByteOffset(base, q, j) != k
  }

  /** A write leaves each location with the byte of its last writer, or unchanged. */
  lemma {:induction false} AccessWrites(base: uint64, q: Request, mem: seq<byte>, buf: seq<byte>, n: nat)
    requires Legal(q) && |mem| == SIZE && n <= |buf| && q.command != Read
    ensures var (m, b) := Access(base, q, mem, buf, n);
            && b == buf
            && (forall k, i | 0 <= k < SIZE && 0 <= i && LastWriter(base, q, n, k, i) :: m[k] == buf[i])
            && (forall k | 0 <= k < SIZE ::
                  (forall i | 0 <= i < n :: Touches(base, q, i) ==> ByteOffset(base, q, i) != k) ==> m[k] == mem[k])
  {
    if n > 0 {
      AccessWrites(base, q, mem, buf, n - 1);
      var (m, b) := Access(base, q, mem, buf, n);
      forall k, i | 0 <= k < SIZE && 0 <= i && LastWriter(base, q, n, k, i)
        ensures m[k] == buf[i]
      {
        if i < n - 1 {
          assert LastWriter(base, q, n - 1, k, i);
        }
      }
      forall k | 0 <= k < SIZE && (forall i | 0 <= i < n :: Touches(base, q, i) ==> ByteOffset(base, q, i) != k)
        ensures m[k] == mem[k]
      {
        assert forall i | 0 <= i < n - 1 :: Touches(base, q, i) ==> ByteOffset(base, q, i) != k;
      }
    }
  }

  /** The access stays inside memory, counted without wrap-around. */
  predicate InRange(q: Request) {
    q.address + q.length <= SIZE
  }

  /** The location section 14.15 assigns to lane i: address + i mod width. */
  function StreamSpot(q: Request, i: nat): nat
    requires Legal(q)
  {
    q.address + i % q.width
  }

  /** Lane i is the last enabled lane of its residue class. */
  ghost predicate LastOfClass(q: Request, i: nat)
    requires Legal(q)
  {
    && i < q.length && EnabledLane(q, i)
    && forall j | i < j < q.length && EnabledLane(q, j) :: StreamSpot(q, j) != StreamSpot(q, i)
  }

  lemma InRangeOffset(base: uint64, q: Request, i: nat)
    requires Legal(q) && DirectBase(base) && InRange(q) && i < q.length
    ensures ByteOffset(base, q, i) == StreamSpot(q, i) < SIZE
  {
    if i < q.width {
      ModSmall(i, q.width);
    }
    var a := q.address + i % q.width;
    assert a < SIZE && Wrap64(a) == a;
    DirectOffset(base, a);
  }

  lemma InRangeOffsets(base: uint64, q: Request)
    requires Legal(q) && DirectBase(base) && InRange(q)
    ensures forall i | 0 <= i < q.length :: ByteOffset(base, q, i) == StreamSpot(q, i) < SIZE
  {
    forall i | 0 <= i < q.length
      ensures ByteOffset(base, q, i) == StreamSpot(q, i) < SIZE
    {
      InRangeOffset(base, q, i);
    }
  }

  /** Sections 14.9, 14.10 and 14.15, for every length, positive width and enable pattern:
      an enabled lane of a read gets the byte at its spot; disabled lanes, the rest of the
      buffer and memory keep their values. */
  lemma StreamingRead(base: uint64, q: Request, mem: seq<byte>, buf: seq<byte>)
    requires Legal(q) && DirectBase(base) && InRange(q) && |mem| == SIZE && q.length <= |buf|
    requires q.command == Read
    ensures var (m, b) := Access(base, q, mem, buf, q.length);
            && m == mem
            && (forall i | 0 <= i < q.length :: StreamSpot(q, i) < SIZE)
            && forall i | 0 <= i < |buf| ::
                 b[i] == if i < q.length && EnabledLane(q, i) then mem[StreamSpot(q, i)] else buf[i]
  {
    InRangeOffsets(base, q);
    AccessReads(base, q, mem, buf, q.length);
  }

  /** A written location holds the byte of the last enabled lane of its residue class;
      every other location, and the buffer, keep their values. */
  lemma {:induction false} StreamingWrite(base: uint64, q: Request, mem: seq<byte>, buf: seq<byte>)
    requires Legal(q) && DirectBase(base) && InRange(q) && |mem| == SIZE && q.length <= |buf|
    requires q.command != Read
    ensures var (m, b) := Access(base, q, mem, buf, q.length);
            && b == buf
            && (forall i | 0 <= i < q.length :: StreamSpot(q, i) < SIZE)
            && (forall i | 0 <= i < q.length && LastOfClass(q, i) :: m[StreamSpot(q, i)] == buf[i])
            && (forall k | 0 <= k < SIZE &&
                  (forall i | 0 <= i < q.length && EnabledLane(q, i) :: StreamSpot(q, i) != k) :: m[k] == mem[k])
  {
    InRangeOffsets(base, q);
    AccessWrites(base, q, mem, buf, q.length);
    var (m, b) := Access(base, q, mem, buf, q.length);
    forall i | 0 <= i < q.length && LastOfClass(q, i)
      ensures m[StreamSpot(q, i)] == buf[i]
    {
      assert LastWriter(base, q, q.length, StreamSpot(q, i), i);
    }
  }

  function Slice(mem: seq<byte>, o: nat, n: nat): (r: seq<byte>)
    requires o + n <= |mem|
    ensures |r| == n
  {
    mem[o..o + n]
  }

  function Splice(mem: seq<byte>, o: nat, bytes: seq<byte>): (r: seq<byte>)
    requires o + |bytes| <= |mem|
    ensures |r| == |mem|
    ensures forall k | 0 <= k < |mem| :: r[k] == if o <= k < o + |bytes| then bytes[k - o] else mem[k]
  {
    mem[..o] + bytes + mem[o + |bytes|..]
  }

  lemma PlainOffsets(base: uint64, q: Request)
    requires Plain(q) && DirectBase(base) && InRange(q)
    ensures forall i | 0 <= i < q.length :: Touches(base, q, i) && ByteOffset(base, q, i) == q.address + i
  {
    forall i | 0 <= i < q.length
      ensures Touches(base, q, i) && ByteOffset(base, q, i) == q.address + i
    {
      ModSmall(i, q.width);
      InRangeOffset(base, q, i);
    }
  }

  /** When lane i touches location o + i, the first n iterations are one block copy at o. */
  lemma {:induction false} BlockCopy(base: uint64, q: Request, mem: seq<byte>, buf: seq<byte>, n: nat, o: nat)
    requires Legal(q) && |mem| == SIZE && n <= |buf| && o + n <= SIZE
    requires forall i | 0 <= i < n :: Touches(base, q, i) && ByteOffset(base, q, i) == o + i
    ensures Access(base, q, mem, buf, n) ==
            if q.command == Read then (mem, Slice(mem, o, n) + buf[n..])
            else (Splice(mem, o, buf[..n]), buf)
  {
    var (m, b) := Access(base, q, mem, buf, n);
    if n > 0 {
      BlockCopy(base, q, mem, buf, n - 1, o);
      OneByteMore(mem, buf, n, o);
    } else if q.command == Read {
      assert b == Slice(mem, o, 0) + buf[0..];
    } else {
      assert m == Splice(mem, o, buf[..0]);
    }
  }

  lemma OneByteMore(mem: seq<byte>, buf: seq<byte>, n: nat, o: nat)
    requires 0 < n <= |buf| && o + n <= |mem|
    ensures (Slice(mem, o, n - 1) + buf[n - 1..])[n - 1 := mem[o + (n - 1)]] == Slice(mem, o, n) + buf[n..]
    ensures Splice(mem, o, buf[..n - 1])[o + (n - 1) := buf[n - 1]] == Splice(mem, o, buf[..n])
  {
  }

  /** On a plain payload in range the loop is one block copy. */
  lemma PlainAccess(base: uint64, q: Request, mem: seq<byte>, buf: seq<byte>)
    requires Plain(q) && DirectBase(base) && InRange(q) && |mem| == SIZE && q.length <= |buf|
    ensures Access(base, q, mem, buf, q.length) ==
            if q.command == Read then (mem, Slice(mem, q.address, q.length) + buf[q.length..])
            else (Splice(mem, q.address, buf[..q.length]), buf)
  {
    PlainOffsets(base, q);
    BlockCopy(base, q, mem, buf, q.length, q.address);
  }

  // ---- The three entry points on values ----

  datatype Outcome = Outcome(mem: seq<byte>, buf: seq<byte>, response: Response)

  /** Memory::b_transport; the bound is checked in 32-bit arithmetic. */
  function Blocking(base: uint64, q: Request, mem: seq<byte>, buf: seq<byte>): Outcome
    requires Legal(q) && |mem| == SIZE && q.length <= |buf|
  {
    if Wrap32(ToOffset(base, q.address) + q.length) > SIZE then Outcome(mem, buf, AddressError)
    else var (m, b) := Access(base, q, mem, buf, q.length); Outcome(m, b, Ok)
  }

  /** Memory::peq_cb on BEGIN_REQ; there is no bound check on this path. */
  function NonBlocking(base: uint64, q: Request, mem: seq<byte>, buf: seq<byte>): Outcome
    requires Legal(q) && |mem| == SIZE && q.length <= |buf|
  {
    var (m, b) := Access(base, q, mem, buf, q.length); Outcome(m, b, Ok)
  }

  /** Memory::transport_dbg, a block copy that ignores width and byte enables. The bound
      check wraps as in Blocking; the copy needs the true range. */
  function Debug(base: uint64, q: Request, mem: seq<byte>, buf: seq<byte>): Outcome
    requires |mem| == SIZE && q.length <= |buf|
    requires Wrap32(ToOffset(base, q.address) + q.length) <= SIZE ==> ToOffset(base, q.address) + q.length <= SIZE
  {
    var o := ToOffset(base, q.address);
    if Wrap32(o + q.length) > SIZE then Outcome(mem, buf, AddressError)
    else if q.command == Read then Outcome(mem, Slice(mem, o, q.length) + buf[q.length..], Ok)
    else if q.command == Write then Outcome(Splice(mem, o, buf[..q.length]), buf, Ok)
    else Outcome(mem, buf, Ok)
  }

  /** A blocking read whose lanes are consecutive from o returns that block. */
  lemma BlockingRead(base: uint64, q: Request, mem: seq<byte>, buf: seq<byte>, o: nat)
    requires Legal(q) && q.command == Read && |mem| == SIZE && q.length <= |buf|
    requires o + q.length <= SIZE && ToOffset(base, q.address) == o
    requires forall i | 0 <= i < q.length :: Touches(base, q, i) && ByteOffset(base, q, i) == o + i
    ensures Blocking(base, q, mem, buf) == Outcome(mem, Slice(mem, o, q.length) + buf[q.length..], Ok)
  {
    BlockCopy(base, q, mem, buf, q.length, o);
    WrapSmall(o + q.length);
  }

  /** In range, the blocking and the non-blocking access have the same effect. */
  lemma BlockingIsNonBlocking(base: uint64, q: Request, mem: seq<byte>, buf: seq<byte>)
    requires Legal(q) && |mem| == SIZE && q.length <= |buf|
    requires DirectBase(base) && InRange(q) && q.address < SIZE
    ensures Blocking(base, q, mem, buf) == NonBlocking(base, q, mem, buf)
  {
    DirectOffset(base, q.address);
    EndSeen(q.address, q.length);
  }

  /** The blocking path refuses an access exactly if it ends past memory and, in 32-bit
      arithmetic, is seen to. */
  lemma RefusedIff(base: uint64, q: Request, mem: seq<byte>, buf: seq<byte>)
    requires Legal(q) && |mem| == SIZE && q.length <= |buf|
    ensures Blocking(base, q, mem, buf).response == AddressError
       <==> 0x80_0000 < ToOffset(base, q.address) + q.length < 0x1_0000_0000
    ensures Blocking(base, q, mem, buf).response == AddressError ==>
              Blocking(base, q, mem, buf).mem == mem && Blocking(base, q, mem, buf).buf == buf
  {
    EndSeen(ToOffset(base, q.address), q.length);
  }

  lemma EndSeen(o: nat, length: uint32)
    requires o <= SIZE
    ensures Wrap32(o + length) > SIZE <==> 0x80_0000 < o + length < 0x1_0000_0000
  {
  }

  /** The non-blocking path checks no bound: the two agree exactly for the accesses the
      blocking path's own check lets through. */
  lemma BlockingAgreesIff(base: uint64, q: Request, mem: seq<byte>, buf: seq<byte>)
    requires Legal(q) && |mem| == SIZE && q.length <= |buf|
    ensures Blocking(base, q, mem, buf) == NonBlocking(base, q, mem, buf)
       <==> Wrap32(ToOffset(base, q.address) + q.length) <= SIZE
  {
    EndSeen(ToOffset(base, q.address), q.length);
  }

  /** In range, the debug access to a plain payload has that effect as well. */
  lemma DebugIsNonBlocking(base: uint64, q: Request, mem: seq<byte>, buf: seq<byte>)
    requires Plain(q) && q.command != Ignore && |mem| == SIZE && q.length <= |buf|
    requires DirectBase(base) && InRange(q) && q.address < SIZE
    ensures ToOffset(base, q.address) == q.address
    ensures Debug(base, q, mem, buf) == NonBlocking(base, q, mem, buf)
  {
    DirectOffset(base, q.address);
    WrapSmall(q.address + q.length);
    PlainAccess(base, q, mem, buf);
  }

  /** A debug access that is neither read nor write transfers nothing; the other two paths take
      it for a write. */
  lemma IgnoreDiffers(base: uint64, q: Request, mem: seq<byte>, buf: seq<byte>)
    requires Plain(q) && q.command == Ignore && |mem| == SIZE && q.length <= |buf|
    requires DirectBase(base) && InRange(q) && q.address < SIZE
    ensures ToOffset(base, q.address) == q.address && Debug(base, q, mem, buf) == Outcome(mem, buf, Ok)
    ensures NonBlocking(base, q, mem, buf) == Outcome(Splice(mem, q.address, buf[..q.length]), buf, Ok)
  {
    DirectOffset(base, q.address);
    WrapSmall(q.address + q.length);
    PlainAccess(base, q, mem, buf);
  }

  // ---- Refresh and latency ----

  const READ_LATENCY: nat := 10
  const WRITE_LATENCY: nat := 10
  const T_REFI: nat := 7800
  const T_RFC: nat := 70

  function Latency(command: Command): nat {
    if command == Read then READ_LATENCY else WRITE_LATENCY
  }

  /** Memory::refresh_penalty: what is left of the refresh cycle, never more than T_RFC. */
  function RefreshPenalty(inRefresh: bool, refreshStart: nat, now: nat): (p: nat)
    requires refreshStart <= now
    ensures p == if inRefresh && now < refreshStart + 70 then refreshStart + 70 - now else 0
  {
    if !inRefresh then 0 else
      var elapsed := now - refreshStart;
      if elapsed >= T_RFC then 0 else T_RFC - elapsed
  }

  // ---- The module itself ----

  class Memory {
    const mem: array<byte>
    var baseAddr: uint64
    var inRefresh: bool
    var refreshStart: nat

    ghost predicate Valid()
      reads this
    {
      mem.Length == SIZE
    }

    constructor ()
      ensures Valid() && fresh(mem) && baseAddr == 0x80000000 && !inRefresh
      ensures forall k | 0 <= k < SIZE :: mem[k] == 0
    {
      mem := new byte[SIZE](_ => 0);
      baseAddr, inRefresh, refreshStart := 0x80000000, false, 0;
    }

    /** The time a blocking access takes: its latency and what refresh adds. */
    function Cost(command: Command, now: nat): (t: nat)
      requires refreshStart <= now
      reads this
      ensures t == 10 + if inRefresh && now < refreshStart + 70 then refreshStart + 70 - now else 0
    {
      Latency(command) + RefreshPenalty(inRefresh, refreshStart, now)
    }

    method AccessMem(q: Request, ptr: array<byte>)
      requires Valid() && Legal(q) && q.length <= ptr.Length && ptr != mem
      modifies mem, ptr
      ensures (mem[..], ptr[..]) == Access(baseAddr, q, old(mem[..]), old(ptr[..]), q.length)
    {
      for i := 0 to q.length
        invariant (mem[..], ptr[..]) == Access(baseAddr, q, old(mem[..]), old(ptr[..]), i)
      {
        var a := Wrap64(q.address + i % q.width);
        var offset := ToOffset(baseAddr, a);
        if offset < SIZE && Lane(q, i) {
          if q.command == Read {
            ptr[i] := mem[offset];
          } else {
            mem[offset] := ptr[i];
          }
        }
      }
    }

    /** The blocking path; returns the annotated delay in nanoseconds. */
    method BTransport(trans: GenericPayload, now: nat, delay: nat) returns (d: nat)
      requires Valid() && trans.WellFormed() && trans.data != mem && refreshStart <= now
      modifies mem, trans.data, trans`response
      ensures Outcome(mem[..], trans.data[..], trans.response)
           == Blocking(baseAddr, trans.Attributes(), old(mem[..]), old(trans.data[..]))
      ensures d == delay + if trans.response == Ok then Cost(trans.command, now) else 0
    {
      d := delay;
      if Wrap32(ToOffset(baseAddr, trans.address) + trans.length) > SIZE {
        trans.response := AddressError;
        return;
      }
      AccessMem(trans.Attributes(), trans.data);
      d := d + Latency(trans.command) + RefreshPenalty(inRefresh, refreshStart, now);
      trans.response := Ok;
    }

    /** What the event-queue callback does to memory and payload on BEGIN_REQ. */
    method PeqBeginReq(trans: GenericPayload)
      requires Valid() && trans.WellFormed() && trans.data != mem
      modifies mem, trans.data, trans`response
      ensures Outcome(mem[..], trans.data[..], trans.response)
           == NonBlocking(baseAddr, trans.Attributes(), old(mem[..]), old(trans.data[..]))
    {
      AccessMem(trans.Attributes(), trans.data);
      trans.response := Ok;
    }

    /** Debug access; returns the number of bytes transferred. */
    method TransportDbg(trans: GenericPayload) returns (n: nat)
      requires Valid() && trans.WellFormed() && trans.data != mem
      requires Wrap32(ToOffset(baseAddr, trans.address) + trans.length) <= SIZE
           ==> ToOffset(baseAddr, trans.address) + trans.length <= SIZE
      modifies mem, trans.data, trans`response
      ensures Outcome(mem[..], trans.data[..], trans.response)
           == Debug(baseAddr, trans.Attributes(), old(mem[..]), old(trans.data[..]))
      ensures n == if trans.response == Ok then trans.length else 0
    {
      var offset := ToOffset(baseAddr, trans.address);
      var len := trans.length;
      if Wrap32(offset + len) > SIZE {
        trans.response := AddressError;
        return 0;
      }
      if trans.command == Read {
        CopyOut(trans.data, offset, len);
      } else if trans.command == Write {
        CopyIn(trans.data, offset, len);
      }
      trans.response := Ok;
      return len;
    }

    /** The two block copies of a debug access. */
    method CopyOut(data: array<byte>, offset: nat, len: nat)
      requires Valid() && data != mem && offset + len <= SIZE && len <= data.Length
      modifies data
      ensures data[..] == Slice(mem[..], offset, len) + old(data[..])[len..]
    {
      forall i | 0 <= i < len {
        data[i] := mem[offset + i];
      }
    }

    method CopyIn(data: array<byte>, offset: nat, len: nat)
      requires Valid() && data != mem && offset + len <= SIZE && len <= data.Length
      modifies mem
      ensures mem[..] == Splice(old(mem[..]), offset, data[..len])
    {
      forall i | 0 <= i < len {
        mem[offset + i] := data[i];
      }
    }
  }
}
