/** The set-associative write-through cache on values: way search, victim choice, fill
    and the cases of an access (cache/cache.cpp). */
module CacheOps {
  import opened Words
  import opened MemoryModel
  import opened InterconnectModel
  import opened CacheIndex

  datatype Line = Line(valid: bool, tag: uint32, data: seq<byte>, lru: uint32)

  datatype CacheState = CacheState(sets: seq<seq<Line>>, hits: nat, misses: nat)

  predicate Shaped(c: Geometry, k: CacheState)
  {
    && |k.sets| == NumSets(c)
    && forall s | 0 <= s < |k.sets| :: SetShaped(c, k.sets[s])
  }

  predicate SetShaped(c: Geometry, ways: seq<Line>) {
    |ways| == c.ways && forall w | 0 <= w < |ways| :: |ways[w].data| == c.lineSize
  }

  // ---- Way search and victim choice ----

  predicate Holds(line: Line, tag: uint32) {
    line.valid && line.tag == tag
  }

  /** The first way from i on that holds the tag, or -1. */
  function FindFrom(ways: seq<Line>, tag: uint32, i: nat): (r: int)
    requires i <= |ways|
    ensures -1 <= r < |ways|
    ensures r >= 0 ==> i <= r && Holds(ways[r], tag) && forall j | i <= j < r :: !Holds(ways[j], tag)
    ensures r < 0 ==> forall j | i <= j < |ways| :: !Holds(ways[j], tag)
    decreases |ways| - i
  {
    if i == |ways| then -1 else if Holds(ways[i], tag) then i else FindFrom(ways, tag, i + 1)
  }

  function FindLine(ways: seq<Line>, tag: uint32): (r: int)
    ensures -1 <= r < |ways|
    ensures r >= 0 ==> Holds(ways[r], tag)
    ensures r < 0 ==> forall j | 0 <= j < |ways| :: !Holds(ways[j], tag)
  {
    FindFrom(ways, tag, 0)
  }

  function FirstInvalid(ways: seq<Line>, i: nat): (r: int)
    requires i <= |ways|
    ensures -1 <= r < |ways|
    ensures r >= 0 ==> i <= r && !ways[r].valid && forall j | i <= j < r :: ways[j].valid
    ensures r < 0 ==> forall j | i <= j < |ways| :: ways[j].valid
    decreases |ways| - i
  {
    if i == |ways| then -1 else if !ways[i].valid then i else FirstInvalid(ways, i + 1)
  }

  /** The first of the smallest stamps among the first n ways. */
  function MinLru(ways: seq<Line>, n: nat): (r: nat)
    requires 0 < n <= |ways|
    ensures r < n
    ensures forall j | 0 <= j < n :: ways[r].lru <= ways[j].lru
    ensures forall j | 0 <= j < r :: ways[r].lru < ways[j].lru
  {
    if n == 1 then 0 else
      var v := MinLru(ways, n - 1);
      if ways[n - 1].lru < ways[v].lru then n - 1 else v
  }

  /** The first invalid way if there is one, else the first of the least recently stamped. */
  function VictimWay(ways: seq<Line>): (r: nat)
    requires |ways| > 0
    ensures r < |ways|
    ensures !ways[r].valid ==> forall j | 0 <= j < r :: ways[j].valid
    ensures ways[r].valid ==> forall j | 0 <= j < |ways| :: ways[j].valid && ways[r].lru <= ways[j].lru
    ensures ways[r].valid ==> forall j | 0 <= j < r :: ways[r].lru < ways[j].lru
  {
    var i := FirstInvalid(ways, 0);
    if i >= 0 then i else MinLru(ways, |ways|)
  }

  // ---- Accesses ----

  function PutLine(k: CacheState, s: nat, w: nat, line: Line): CacheState
    requires s < |k.sets| && w < |k.sets[s]|
  {
    k.(sets := k.sets[s := k.sets[s][w := line]])
  }

  /** The pre-increment of the hit counter and the stamp read_hit and write_hit share. */
  function Stamp(k: CacheState, s: nat, w: nat): CacheState
    requires s < |k.sets| && w < |k.sets[s]|
  {
    PutLine(k.(hits := k.hits + 1), s, w, k.sets[s][w].(lru := Wrap32(k.hits + 1 + k.misses)))
  }

  /** Cache::reset_stats. */
  function ResetStats(k: CacheState): CacheState { k.(hits := 0, misses := 0) }

  function Find(c: Geometry, k: CacheState, addr: uint64): (w: int)
    requires Shaped(c, k)
    ensures -1 <= w < c.ways
  {
    FindLine(k.sets[SetIndex(c, addr)], Tag(c, addr))
  }

  /** The line fill_line leaves: the block around addr, with its own tag and the old stamp. */
  function Filled(c: Geometry, old_: Line, mem: seq<byte>, addr: uint64): (line: Line)
    requires |mem| == SIZE && InMemory(addr)
    ensures line.valid && |line.data| == c.lineSize && line.lru == old_.lru
  {
    BlockInMemory(c, addr);
    var base := LineAddress(c, addr);
    Line(true, Tag(c, base), Slice(mem, Phys(base), c.lineSize), old_.lru)
  }

  /** The fill restores the tag that was searched, so the second search succeeds. */
  lemma FillTag(c: Geometry, addr: uint64)
    requires InMemory(addr)
    ensures LineAddress(c, addr) < TWO64 && Tag(c, LineAddress(c, addr)) == Tag(c, addr)
    ensures SetIndex(c, LineAddress(c, addr)) == SetIndex(c, addr)
  {
    BlockInMemory(c, addr);
    LineAddressIs(c, addr);
    SplitIs(c, addr);
    SplitIs(c, LineAddress(c, addr));
  }

  lemma {:induction false} RelookupSucceeds(c: Geometry, k: CacheState, mem: seq<byte>, addr: uint64, w: nat)
    requires Shaped(c, k) && |mem| == SIZE && InMemory(addr) && w < c.ways
    ensures var s := SetIndex(c, addr);
            Find(c, PutLine(k, s, w, Filled(c, k.sets[s][w], mem, addr)), addr) >= 0
  {
    FillTag(c, addr);
    var s := SetIndex(c, addr);
    var k' := PutLine(k, s, w, Filled(c, k.sets[s][w], mem, addr));
    assert Holds(k'.sets[s][w], Tag(c, addr));
  }

  /** The state a read leaves, and the way it reads from. */
  function ReadStep(c: Geometry, k: CacheState, mem: seq<byte>, addr: uint64): (r: (CacheState, nat))
    requires Shaped(c, k) && |mem| == SIZE && InMemory(addr)
    ensures Shaped(c, r.0) && r.1 < c.ways
  {
    var s, w := SetIndex(c, addr), Find(c, k, addr);
    if w >= 0 then (Stamp(k.(hits := k.hits + 1), s, w), w)
    else
      var v := VictimWay(k.sets[s]);
      var k' := PutLine(k.(misses := k.misses + 1), s, v, Filled(c, k.sets[s][v], mem, addr));
      RelookupSucceeds(c, k.(misses := k.misses + 1), mem, addr, v);
      var w' := Find(c, k', addr);
      (Stamp(k', s, w'), w')
  }

  /** The bytes a read returns. */
  function ReadData(c: Geometry, k: CacheState, mem: seq<byte>, addr: uint64, len: nat): (bytes: seq<byte>)
    requires Shaped(c, k) && |mem| == SIZE && InLine(c, addr, len)
    ensures |bytes| == len
  {
    var (k', w) := ReadStep(c, k, mem, addr);
    LineOffsetIs(c, addr);
    Slice(k'.sets[SetIndex(c, addr)][w].data, LineOffset(c, addr), len)
  }

  lemma {:induction false} LineOffsetIs(c: Geometry, addr: uint64)
    requires InMemory(addr)
    ensures LineOffset(c, addr) == addr % c.lineSize
  {
    CpuTagFits(c, addr);
    SplitIs(c, addr);
  }

  /** The cache after a write: the line is updated if resident, never allocated. */
  function WriteStep(c: Geometry, k: CacheState, addr: uint64, bytes: seq<byte>): (k': CacheState)
    requires Shaped(c, k) && InLine(c, addr, |bytes|)
    ensures Shaped(c, k')
  {
    var s, w := SetIndex(c, addr), Find(c, k, addr);
    if w >= 0 then
      var k1 := Stamp(k.(hits := k.hits + 1), s, w);
      var line := k1.sets[s][w];
      LineOffsetIs(c, addr);
      PutLine(k1, s, w, line.(data := Splice(line.data, LineOffset(c, addr), bytes)))
    else k.(misses := k.misses + 1)
  }

  /** Memory after a write: every write goes through. */
  function WriteThrough(c: Geometry, mem: seq<byte>, addr: uint64, bytes: seq<byte>): (mem': seq<byte>)
    requires |mem| == SIZE && InLine(c, addr, |bytes|)
    ensures |mem'| == SIZE
  {
    FitsMemory(c, addr, |bytes|);
    Splice(mem, Phys(addr), bytes)
  }

  lemma FitsMemory(c: Geometry, addr: uint64, len: nat)
    requires InLine(c, addr, len)
    ensures Phys(addr) + len <= SIZE
  {
    BlockInMemory(c, addr);
  }

  // ---- Addresses that bypass the cache ----

  type Range = (uint64, uint64)

  /** Some range contains the address, ends included. */
  predicate Within(ranges: seq<Range>, addr: uint64) {
    exists i | 0 <= i < |ranges| :: ranges[i].0 <= addr <= ranges[i].1
  }

  lemma WithinOneMore(ranges: seq<Range>, r: Range, addr: uint64)
    ensures Within(ranges + [r], addr) <==> Within(ranges, addr) || r.0 <= addr <= r.1
  {
    var more := ranges + [r];
    if Within(ranges, addr) {
      var i :| 0 <= i < |ranges| && ranges[i].0 <= addr <= ranges[i].1;
      assert more[i] == ranges[i];
    }
    assert more[|ranges|] == r;
  }

  /** The ranges the system registers: DMA, display and FPU, then the CLINT. */
  const SOC_BYPASS: seq<Range> := [(0x1000_0000, 0x1000_2FFF), (0x0200_0000, 0x0200_FFFF)]

  /** What bypasses the cache is exactly what the bus routes to a peripheral. */
  lemma BypassIsPeripheral(addr: uint64)
    ensures Within(SOC_BYPASS, addr)
       <==> var r := RouteOf(SOC_REGIONS, addr); r.Some? && r.value.port != MEM_PORT
  {
    SocRouting(addr);
    assert SOC_BYPASS[0].0 <= addr <= SOC_BYPASS[0].1 <==> 0x1000_0000 <= addr <= 0x1000_2FFF;
    assert SOC_BYPASS[1].0 <= addr <= SOC_BYPASS[1].1 <==> 0x0200_0000 <= addr <= 0x0200_FFFF;
  }

  /** So no byte of memory bypasses it. */
  lemma MemoryIsCached(addr: uint64)
    requires InMemory(addr)
    ensures !Within(SOC_BYPASS, addr)
  {
  }
}
