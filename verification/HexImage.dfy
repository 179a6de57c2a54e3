/** What loading the text of a list of Intel HEX records leaves in memory, and that
    fetches through the interconnect see it. */
module HexImage {
  import opened Words
  import opened Tlm
  import opened MemoryModel
  import opened InterconnectModel
  import opened HexLoader

  datatype Record =
    | Data(addr: nat, bytes: seq<byte>)
    | ExtendedLinear(upper: nat)
    | EndOfFile
    | Other(kind: byte, addr: nat, bytes: seq<byte>)

  predicate WellFormed(r: Record) {
    match r
    case Data(addr, bytes) => addr < 0x1_0000 && |bytes| < 0x100
    case ExtendedLinear(upper) => upper < 0x1_0000
    case EndOfFile => true
    case Other(kind, addr, bytes) => kind !in {0x00, 0x01, 0x04} && addr < 0x1_0000 && |bytes| < 0x100
  }

  // ---- Records as text ----

  function HexDigit(v: nat, lower: bool): char
    requires v < 16
  {
    if v < 10 then ('0' as int + v) as char
    else if lower then ('a' as int + v - 10) as char
    else ('A' as int + v - 10) as char
  }

  lemma HexCharOfDigit(v: nat, lower: bool)
    requires v < 16
    ensures HexChar(HexDigit(v, lower)) == v
  {
  }

  function HexBytes(bytes: seq<byte>, lower: bool): (r: string)
    ensures |r| == 2 * |bytes|
  {
    seq(2 * |bytes|, i requires 0 <= i < 2 * |bytes| =>
      HexDigit(if i % 2 == 0 then bytes[i / 2] / 16 else bytes[i / 2] % 16, lower))
  }

  function Sum(bytes: seq<byte>): nat {
    if bytes == [] then 0 else bytes[0] + Sum(bytes[1..])
  }

  /** Byte count, address, type and payload of a record. */
  function Fields(r: Record): seq<byte>
    requires WellFormed(r)
  {
    match r
    case Data(addr, bytes) => [|bytes|, addr / 256, addr % 256, 0x00] + bytes
    case ExtendedLinear(upper) => [2, 0, 0, 0x04, upper / 256, upper % 256]
    case EndOfFile => [0, 0, 0, 0x01]
    case Other(kind, addr, bytes) => [|bytes|, addr / 256, addr % 256, kind] + bytes
  }

  function Encode(r: Record, lower: bool): string
    requires WellFormed(r)
  {
    ":" + HexBytes(Fields(r) + [(256 - Sum(Fields(r)) % 256) % 256], lower)
  }

  function EncodeAll(records: seq<Record>, lower: bool): (lines: seq<string>)
    requires forall r | r in records :: WellFormed(r)
  {
    seq(|records|, i requires 0 <= i < |records| => Encode(records[i], lower))
  }

  /** The j-th pair of digits after the colon reads back as the j-th byte. */
  lemma PairReadsBack(bytes: seq<byte>, lower: bool, j: nat)
    requires j < |bytes|
    ensures ByteAt(":" + HexBytes(bytes, lower), 1 + 2 * j) == bytes[j]
  {
    var line := ":" + HexBytes(bytes, lower);
    assert CharAt(line, 1 + 2 * j) == HexBytes(bytes, lower)[2 * j] == HexDigit(bytes[j] / 16, lower);
    assert CharAt(line, 2 + 2 * j) == HexBytes(bytes, lower)[2 * j + 1] == HexDigit(bytes[j] % 16, lower);
    HexCharOfDigit(bytes[j] / 16, lower);
    HexCharOfDigit(bytes[j] % 16, lower);
  }

  /** The pairs of digits of a line spell the given bytes. */
  predicate Spells(line: string, fields: seq<byte>) {
    && CharAt(line, 0) == ':'
    && forall j | 0 <= j < |fields| :: ByteAt(line, 1 + 2 * j) == fields[j]
  }

  lemma EncodeSpells(r: Record, lower: bool)
    requires WellFormed(r)
    ensures Spells(Encode(r, lower), Fields(r))
  {
    forall j | 0 <= j < |Fields(r)|
      ensures ByteAt(Encode(r, lower), 1 + 2 * j) == Fields(r)[j]
    {
      PairReadsBack(Fields(r) + [(256 - Sum(Fields(r)) % 256) % 256], lower, j);
    }
  }

  lemma SpelledHeader(line: string, fields: seq<byte>)
    requires Spells(line, fields) && |fields| >= 4
    ensures LineLength(line) == fields[0] && LineType(line) == fields[3]
    ensures LineAddress(line) == (fields[1] as int) * 256 + fields[2] as int
  {
    assert ByteAt(line, 1 + 2 * 0) == fields[0];
    assert ByteAt(line, 1 + 2 * 1) == fields[1];
    assert ByteAt(line, 1 + 2 * 2) == fields[2];
    assert ByteAt(line, 1 + 2 * 3) == fields[3];
  }

  lemma SpelledPayload(line: string, fields: seq<byte>)
    requires Spells(line, fields) && |fields| >= 4
    ensures LineBytes(line, |fields| - 4) == fields[4..]
  {
    var n := |fields| - 4;
    forall i | 0 <= i < n
      ensures LineBytes(line, n)[i] == fields[4..][i]
    {
      assert ByteAt(line, 1 + 2 * (i + 4)) == fields[i + 4];
    }
  }

  // ---- Records as effects ----

  function RecordStep(st: Loader, r: Record): (p: (Loader, bool))
    requires WellFormed(r) && |st.mem| == SIZE
    ensures |p.0.mem| == SIZE
  {
    match r
    case Data(addr, bytes) => (StoreData(st, Wrap32(addr + st.ext), bytes), false)
    case ExtendedLinear(upper) => (st.(ext := upper * 0x1_0000), false)
    case EndOfFile => (st, true)
    case Other(_, _, _) => (st, false)
  }

  function LoadRecords(st: Loader, records: seq<Record>): (r: Loader)
    requires |st.mem| == SIZE && forall r | r in records :: WellFormed(r)
    ensures |r.mem| == SIZE
    decreases records
  {
    if records == [] then st else
      var (st', stop) := RecordStep(st, records[0]);
      if stop then st' else LoadRecords(st', records[1..])
  }

  lemma ShiftsInUpper(upper: nat)
    requires upper < 0x1_0000
    ensures ShiftIn(0, [upper / 256, upper % 256]) == upper
  {
    var b: seq<byte> := [upper / 256, upper % 256];
    assert b[..1] == [upper / 256] && b[..1][..0] == [];
    assert ShiftIn(0, b[..1]) == upper / 256;
  }

  lemma SpelledExtended(st: Loader, line: string, upper: nat)
    requires upper < 0x1_0000 && |st.mem| == SIZE
    requires Spells(line, Fields(ExtendedLinear(upper)))
    ensures LineStep(st, line) == (st.(ext := upper * 0x1_0000), false)
  {
    var fields := Fields(ExtendedLinear(upper));
    SpelledHeader(line, fields);
    SpelledPayload(line, fields);
    assert fields[4..] == [upper / 256, upper % 256];
    ShiftsInUpper(upper);
  }

  lemma SpelledData(st: Loader, line: string, addr: nat, bytes: seq<byte>)
    requires addr < 0x1_0000 && |bytes| < 0x100 && |st.mem| == SIZE
    requires Spells(line, Fields(Data(addr, bytes)))
    ensures LineStep(st, line) == (StoreData(st, Wrap32(addr + st.ext), bytes), false)
  {
    var fields := Fields(Data(addr, bytes));
    SpelledHeader(line, fields);
    SpelledPayload(line, fields);
    assert fields[4..] == bytes;
  }

  lemma SpelledRecord(st: Loader, line: string, r: Record)
    requires WellFormed(r) && |st.mem| == SIZE && Spells(line, Fields(r))
    ensures LineStep(st, line) == RecordStep(st, r)
  {
    match r {
      case Data(addr, bytes) =>
        SpelledData(st, line, addr, bytes);
      case ExtendedLinear(upper) =>
        SpelledExtended(st, line, upper);
      case EndOfFile =>
        SpelledHeader(line, Fields(r));
      case Other(kind, addr, bytes) =>
        SpelledHeader(line, Fields(r));
    }
  }

  /** A line of text does what its record says, in either case of the digits. */
  lemma ParsesRecord(st: Loader, r: Record, lower: bool)
    requires WellFormed(r) && |st.mem| == SIZE
    ensures LineStep(st, Encode(r, lower)) == RecordStep(st, r)
  {
    EncodeSpells(r, lower);
    SpelledRecord(st, Encode(r, lower), r);
  }

  lemma {:induction false} ParsesText(st: Loader, records: seq<Record>, lower: bool)
    requires |st.mem| == SIZE && forall r | r in records :: WellFormed(r)
    ensures LoadLines(st, EncodeAll(records, lower)) == LoadRecords(st, records)
    decreases records
  {
    if records != [] {
      ParsesRecord(st, records[0], lower);
      assert EncodeAll(records, lower)[1..] == EncodeAll(records[1..], lower);
      ParsesText(RecordStep(st, records[0]).0, records[1..], lower);
    }
  }

  // ---- The loaded image ----

  datatype Placed = Placed(full: uint32, bytes: seq<byte>)

  /** The data records before the end record, at their absolute addresses. */
  function Place(records: seq<Record>, ext: uint32): seq<Placed>
    requires forall r | r in records :: WellFormed(r)
    decreases records
  {
    if records == [] then [] else
      assert WellFormed(records[0]);
      match records[0]
      case Data(addr, bytes) => [Placed(Wrap32(addr + ext), bytes)] + Place(records[1..], ext)
      case ExtendedLinear(upper) => Place(records[1..], upper * 0x1_0000)
      case EndOfFile => []
      case Other(_, _, _) => Place(records[1..], ext)
  }

  /** The byte the last record covering an address gives it, records below the base left out. */
  function LastWritten(placed: seq<Placed>, base: uint32, addr: nat): Option<byte> {
    if placed == [] then None else
      var later := LastWritten(placed[1..], base, addr);
      var p := placed[0];
      if later.Some? then later
      else if base <= p.full <= addr < p.full + |p.bytes| then Some(p.bytes[addr - p.full])
      else None
  }

  /** Where a record lands: the distance from the base, counted modulo 2^32. */
  function Landing(base: uint32, full: uint32): (o: nat)
    ensures o == Wrap32(full - base)
  {
    if base <= full then full - base else full - base + TWO32
  }

  /** The byte the last record landing on location k gives it. */
  function LastLanded(placed: seq<Placed>, base: uint32, k: nat): Option<byte> {
    if placed == [] then None else
      var later := LastLanded(placed[1..], base, k);
      var p := placed[0];
      var o := Landing(base, p.full);
      if later.Some? then later else if o <= k < o + |p.bytes| then Some(p.bytes[k - o]) else None
  }

  function Or(b: Option<byte>, otherwise: byte): byte { if b.Some? then b.value else otherwise }

  lemma {:induction false} ImageByte(st: Loader, records: seq<Record>, k: nat)
    requires |st.mem| == SIZE && (forall r | r in records :: WellFormed(r)) && k < SIZE
    requires st.first.Some? && st.base == st.first.value
    ensures var st' := LoadRecords(st, records);
            && st'.base == st.base && st'.first == st.first
            && st'.mem[k] == Or(LastLanded(Place(records, st.ext), st.base, k), st.mem[k])
    decreases records
  {
    if records == [] || records[0].EndOfFile? {
    } else {
      ImageByte(RecordStep(st, records[0]).0, records[1..], k);
      if records[0].Data? {
        var p := Placed(Wrap32(records[0].addr + st.ext), records[0].bytes);
        assert Place(records, st.ext)[0] == p && Place(records, st.ext)[1..] == Place(records[1..], st.ext);
        assert Wrap32(p.full - st.base) == Landing(st.base, p.full);
      }
    }
  }

  /** Loading a record list: the base and the entry point become the first data address, and
      every location holds the byte of the last record that lands on it, or its old value. */
  lemma {:induction false} LoadedImage(st: Loader, records: seq<Record>)
    requires |st.mem| == SIZE && st.first.None? && forall r | r in records :: WellFormed(r)
    ensures var placed := Place(records, st.ext);
            var st' := LoadRecords(st, records);
            if placed == [] then
              st'.mem == st.mem && st'.base == st.base && st'.first == None
            else
              && st'.first == Some(placed[0].full) && st'.base == placed[0].full
              && forall k | 0 <= k < SIZE :: st'.mem[k] == Or(LastLanded(placed, placed[0].full, k), st.mem[k])
    decreases records
  {
    if records == [] || records[0].EndOfFile? {
    } else if records[0].Data? {
      var placed := Place(records, st.ext);
      var base := placed[0].full;
      // The first data record loads as if the base had been its address all along.
      var st0 := st.(base := base, first := Some(base));
      assert RecordStep(st, records[0]) == RecordStep(st0, records[0]);
      assert LoadRecords(st, records) == LoadRecords(st0, records);
      forall k | 0 <= k < SIZE
        ensures LoadRecords(st, records).mem[k] == Or(LastLanded(placed, base, k), st.mem[k])
      {
        ImageByte(st0, records, k);
      }
      ImageByte(st0, records, 0);
    } else {
      LoadedImage(RecordStep(st, records[0]).0, records[1..]);
    }
  }

  // ---- Records below the base ----

  /** Location k has a 32-bit absolute address, or the base leaves no room for a record below
      it to land in memory. */
  predicate Clear(base: uint32, k: nat) {
    base + k < TWO32 || base <= TWO32 - SIZE
  }

  /** There, what landed is what was written at or above the base. */
  lemma {:induction false} LandedIsWritten(placed: seq<Placed>, base: uint32, k: nat)
    requires k < SIZE && Clear(base, k)
    ensures LastLanded(placed, base, k) == LastWritten(placed, base, base + k)
  {
    if placed != [] {
      LandedIsWritten(placed[1..], base, k);
    }
  }

  /** A record below the base stores nothing, whatever memory held, exactly when its distance
      from the base is at most 2^32 - SIZE. */
  lemma BelowBaseIff(base: uint32, full: uint32, bytes: seq<byte>)
    requires full < base && bytes != []
    ensures (forall mem: Ram :: LeavesAlone(mem, base, full, bytes)) <==> base - full <= TWO32 - SIZE
  {
    var o := Landing(base, full);
    if o < SIZE {
      var mem: Ram := seq(SIZE, k => if bytes[0] == 0 then 1 else 0);
      assert StoreData(Loader(mem, base, 0, Some(base)), full, bytes).mem[o] == bytes[0];
      assert !LeavesAlone(mem, base, full, bytes);
    } else {
      forall mem: Ram
        ensures LeavesAlone(mem, base, full, bytes)
      {
        assert StoreData(Loader(mem, base, 0, Some(base)), full, bytes).mem == mem;
      }
    }
  }

  /** Storing the record once the base is known changes no byte. */
  predicate LeavesAlone(mem: Ram, base: uint32, full: uint32, bytes: seq<byte>) {
    StoreData(Loader(mem, base, 0, Some(base)), full, bytes).mem == mem
  }

  ghost predicate StartsAt(records: seq<Record>, base: uint32) {
    && (forall r | r in records :: WellFormed(r))
    && Place(records, 0) != [] && Place(records, 0)[0].full == base
  }

  /** Each byte of [base, base + SIZE) is what the last covering record gave it, and records
      below the base count for nothing. */
  ghost predicate AsWritten(mem: Ram, records: seq<Record>, base: uint32)
    requires StartsAt(records, base)
  {
    var st := LoadRecords(Loader(mem, 0, 0, None), records);
    forall k | 0 <= k < SIZE :: st.mem[k] == Or(LastWritten(Place(records, 0), base, base + k), mem[k])
  }

  lemma LowBaseAsWritten(mem: Ram, records: seq<Record>, base: uint32)
    requires StartsAt(records, base) && base <= TWO32 - SIZE
    ensures AsWritten(mem, records, base)
  {
    var st := Loader(mem, 0, 0, None);
    LoadedImage(st, records);
    forall k | 0 <= k < SIZE
      ensures LoadRecords(st, records).mem[k] == Or(LastWritten(Place(records, 0), base, base + k), mem[k])
    {
      LandedIsWritten(Place(records, 0), base, k);
    }
  }

  /** One byte at the base, then one at address zero. */
  function WrapAround(base: uint32): seq<Record> {
    [ExtendedLinear(base / 0x1_0000), Data(base % 0x1_0000, [7]), ExtendedLinear(0), Data(0, [9])]
  }

  lemma WrapAroundPlaces(base: uint32)
    ensures forall r | r in WrapAround(base) :: WellFormed(r)
    ensures Place(WrapAround(base), 0) == [Placed(base, [7]), Placed(0, [9])]
  {
    var records := WrapAround(base);
    var upper := base / 0x1_0000 * 0x1_0000;
    WrapSmall(base);
    assert Place(records[3..], 0) == [Placed(0, [9])];
    assert records[2..][1..] == records[3..];
    assert Place(records[2..], upper) == [Placed(0, [9])];
    assert records[1..][1..] == records[2..];
    assert Place(records[1..], upper) == [Placed(base, [7])] + Place(records[2..], upper);
  }

  /** With a base above 2^32 - SIZE the second byte lands in memory, at offset 2^32 - base. */
  lemma BelowBaseLands(mem: Ram, base: uint32)
    requires base > TWO32 - SIZE
    ensures forall r | r in WrapAround(base) :: WellFormed(r)
    ensures LoadRecords(Loader(mem, 0, 0, None), WrapAround(base)).mem[TWO32 - base] == 9
    ensures LastWritten(Place(WrapAround(base), 0), base, TWO32) == None
  {
    WrapAroundPlaces(base);
    var placed := [Placed(base, [7]), Placed(0, [9])];
    LoadedImage(Loader(mem, 0, 0, None), WrapAround(base));
    assert placed[1..] == [Placed(0, [9])] && placed[1..][1..] == [];
    assert LastLanded(placed[1..], base, TWO32 - base) == Some(9);
    assert LastWritten(placed[1..], base, TWO32) == None;
    assert LastWritten(placed, base, TWO32) == None;
  }

  /** Records below the first data address are dropped for every record list with that address
      exactly when the address is at most 2^32 - SIZE. */
  lemma DropsBelowIff(base: uint32)
    ensures (forall mem: Ram, records | StartsAt(records, base) :: AsWritten(mem, records, base))
       <==> base <= TWO32 - SIZE
  {
    if base <= TWO32 - SIZE {
      forall mem: Ram, records | StartsAt(records, base)
        ensures AsWritten(mem, records, base)
      {
        LowBaseAsWritten(mem, records, base);
      }
    } else {
      var mem: Ram := seq(SIZE, _ => 0);
      WrapAroundPlaces(base);
      BelowBaseLands(mem, base);
      assert StartsAt(WrapAround(base), base);
      assert !AsWritten(mem, WrapAround(base), base);
    }
  }

  // ---- Fetching what was loaded ----

  /** Behind a mapped address at or above the base, memory offset and load offset agree
      exactly in two cases: the low alias with a base below SIZE, and the high alias with
      the base at its start. */
  lemma FetchOffset(base: uint32, addr: uint64)
    requires InMemory(addr) && base <= addr
    ensures ToOffset(base, Phys(addr)) == addr - base
       <==> (addr < SIZE && base < SIZE) || (addr >= HIGH && base == HIGH)
  {
  }

  /** The read stays in an alias whose offsets agree with the load offsets. */
  predicate Fetchable(base: uint32, addr: uint64, n: nat) {
    base <= addr && if base < SIZE then addr + n <= SIZE else base == HIGH && addr + n <= HIGH + SIZE
  }

  lemma FetchLane(base: uint32, addr: uint64, n: nat, i: nat)
    requires i < n < TWO32 && Fetchable(base, addr, n)
    ensures var q := Request(Read, Phys(addr), n, n, None);
            Touches(base, q, i) && ByteOffset(base, q, i) == addr - base + i
  {
    ModSmall(i, n);
    var a := Phys(addr) + i;
    assert a == Phys(addr + i) && Wrap64(a) == a;
    FetchOffset(base, addr + i);
  }

  lemma FetchLanes(base: uint32, addr: uint64, n: nat)
    requires 0 < n < TWO32 && Fetchable(base, addr, n)
    ensures var q := Request(Read, Phys(addr), n, n, None);
            forall i | 0 <= i < n :: Touches(base, q, i) && ByteOffset(base, q, i) == addr - base + i
  {
    var q := Request(Read, Phys(addr), n, n, None);
    forall i | 0 <= i < n
      ensures Touches(base, q, i) && ByteOffset(base, q, i) == addr - base + i
    {
      FetchLane(base, addr, n, i);
    }
  }

  /** A blocking read of n bytes at a mapped address returns the n loaded bytes. */
  lemma FetchesLoaded(base: uint32, addr: uint64, n: nat, mem: seq<byte>, buf: seq<byte>)
    requires |mem| == SIZE && 0 < n <= |buf| && n < TWO32 && Fetchable(base, addr, n)
    ensures addr - base + n <= SIZE
    ensures BlockingPath(SOC_REGIONS, base, Request(Read, addr, n, n, None), mem, buf)
         == Path(MEM_PORT, Phys(addr), Outcome(mem, Slice(mem, addr - base, n) + buf[n..], Ok), addr)
  {
    SocPath(base, Request(Read, addr, n, n, None), mem, buf);
    FetchOffset(base, addr);
    FetchLanes(base, addr, n);
    BlockingRead(base, Request(Read, Phys(addr), n, n, None), mem, buf, addr - base);
  }

  lemma LoadedAt(st: Loader, records: seq<Record>, addr: uint32)
    requires |st.mem| == SIZE && st.first.None? && forall r | r in records :: WellFormed(r)
    requires var placed := Place(records, st.ext);
             placed != [] && placed[0].full <= addr < placed[0].full + SIZE
    ensures var placed := Place(records, st.ext);
            var st' := LoadRecords(st, records);
            && st'.base == placed[0].full
            && (LastWritten(placed, placed[0].full, addr).Some? ==>
                 st'.mem[addr - placed[0].full] == LastWritten(placed, placed[0].full, addr).value)
  {
    var base := Place(records, st.ext)[0].full;
    LoadedImage(st, records);
    LandedIsWritten(Place(records, st.ext), base, addr - base);
  }

  lemma LoadedRange(st: Loader, records: seq<Record>, addr: uint64, n: nat)
    requires |st.mem| == SIZE && st.first.None? && forall r | r in records :: WellFormed(r)
    requires Place(records, st.ext) != [] && Fetchable(Place(records, st.ext)[0].full, addr, n)
    ensures var placed := Place(records, st.ext);
            var base := placed[0].full;
            forall a | addr <= a < addr + n && LastWritten(placed, base, a).Some? ::
              LoadRecords(st, records).mem[a - base] == LastWritten(placed, base, a).value
  {
    var placed := Place(records, st.ext);
    var base := placed[0].full;
    forall a | addr <= a < addr + n && LastWritten(placed, base, a).Some?
      ensures LoadRecords(st, records).mem[a - base] == LastWritten(placed, base, a).value
    {
      LoadedAt(st, records, a);
    }
  }

  /** After loading, reading n bytes at a mapped address goes to memory, succeeds, and
      returns, byte for byte, what the records say. */
  ghost predicate FetchSees(st: Loader, records: seq<Record>, addr: uint64, n: nat, buf: seq<byte>)
    requires |st.mem| == SIZE && forall r | r in records :: WellFormed(r)
    requires 0 < n <= |buf| && n < TWO32
    requires Place(records, 0) != [] && Fetchable(Place(records, 0)[0].full, addr, n)
  {
    var placed := Place(records, 0);
    var base := placed[0].full;
    && st.base == base && addr - base + n <= SIZE
    && BlockingPath(SOC_REGIONS, base, Request(Read, addr, n, n, None), st.mem, buf)
       == Path(MEM_PORT, Phys(addr), Outcome(st.mem, Slice(st.mem, addr - base, n) + buf[n..], Ok), addr)
    && forall a | addr <= a < addr + n && LastWritten(placed, base, a).Some? ::
         st.mem[a - base] == LastWritten(placed, base, a).value
  }

  lemma RecordsThenFetch(st: Loader, records: seq<Record>, addr: uint64, n: nat, buf: seq<byte>)
    requires |st.mem| == SIZE && st.ext == 0 && st.first.None? && forall r | r in records :: WellFormed(r)
    requires 0 < n <= |buf| && n < TWO32
    requires Place(records, 0) != [] && Fetchable(Place(records, 0)[0].full, addr, n)
    ensures FetchSees(LoadRecords(st, records), records, addr, n, buf)
  {
    var base := Place(records, 0)[0].full;
    LoadedBase(st, records, base);
    FetchesLoaded(base, addr, n, LoadRecords(st, records).mem, buf);
    LoadedRange(st, records, addr, n);
  }

  lemma LoadedBase(st: Loader, records: seq<Record>, base: uint32)
    requires |st.mem| == SIZE && st.first.None? && forall r | r in records :: WellFormed(r)
    requires Place(records, st.ext) != [] && Place(records, st.ext)[0].full == base
    ensures LoadRecords(st, records).base == base
  {
    LoadedImage(st, records);
  }

  /** So it is when the record list is loaded from its text. */
  lemma LoadThenFetch(mem: seq<byte>, oldBase: uint64, records: seq<Record>, lower: bool,
                       addr: uint64, n: nat, buf: seq<byte>)
    requires |mem| == SIZE && forall r | r in records :: WellFormed(r)
    requires 0 < n <= |buf| && n < TWO32
    requires Place(records, 0) != [] && Fetchable(Place(records, 0)[0].full, addr, n)
    ensures FetchSees(LoadLines(Loader(mem, oldBase, 0, None), EncodeAll(records, lower)), records, addr, n, buf)
  {
    ParsesText(Loader(mem, oldBase, 0, None), records, lower);
    RecordsThenFetch(Loader(mem, oldBase, 0, None), records, addr, n, buf);
  }
}
