/** Whole runs of the cache: every set mirrors the recency list of its own references,
    so more ways never lose a line or add a miss, and residency has an exact meaning. */
module LruCache {
  import opened Words
  import opened MemoryModel
  import opened InterconnectModel
  import opened CacheIndex
  import opened CacheOps
  import opened CacheView
  import opened Coherence
  import LruStack
  import opened LruRefinement

  /** The references the operations make to one set, in order. */
  function Refs(c: Geometry, ops: seq<Op>, s: nat): seq<LruStack.Ref> {
    if ops == [] then [] else
      var before, op := Refs(c, ops[..|ops| - 1], s), ops[|ops| - 1];
      if !op.Foreign? && SetIndex(c, op.addr) == s then before + [LruStack.Ref(op.Store?, Tag(c, op.addr))]
      else before
  }

  /** The recency list of one set after the operations. */
  function Recency(c: Geometry, ops: seq<Op>, s: nat): seq<uint32> {
    LruStack.Stack(c.ways, Refs(c, ops, s))
  }

  /** Whether an access after the operations misses, by the lists alone. */
  predicate Misses(c: Geometry, ops: seq<Op>, addr: uint64) {
    Tag(c, addr) !in Recency(c, ops, SetIndex(c, addr))
  }

  function MissCount(c: Geometry, ops: seq<Op>): nat {
    if ops == [] then 0 else
      var before, op := ops[..|ops| - 1], ops[|ops| - 1];
      MissCount(c, before) + if !op.Foreign? && Misses(c, before, op.addr) then 1 else 0
  }

  function ReadMissCount(c: Geometry, ops: seq<Op>): nat {
    if ops == [] then 0 else
      var before, op := ops[..|ops| - 1], ops[|ops| - 1];
      ReadMissCount(c, before) + if op.Load? && Misses(c, before, op.addr) then 1 else 0
  }

  function HitCount(c: Geometry, ops: seq<Op>): nat {
    if ops == [] then 0 else
      var before, op := ops[..|ops| - 1], ops[|ops| - 1];
      HitCount(c, before) + if !op.Foreign? && !Misses(c, before, op.addr) then 1 else 0
  }

  ghost predicate Empty(c: Geometry, s: Soc) {
    ShapedSoc(c, s) && NothingCached(c, s.cache) && s.cache.hits == 0 && s.cache.misses == 0
  }

  /** The LRU tick: the sum read_hit and write_hit stamp lines with, before it is cut to 32 bits. */
  function Tick(k: CacheState): nat { k.hits + k.misses }

  /** No stamp is newer than the tick. */
  ghost predicate StampsBelow(ways: seq<Line>, tick: nat) {
    forall w | 0 <= w < |ways| && ways[w].valid :: ways[w].lru <= tick
  }

  // ---- What an access does to its set ----

  /** A resident line after a touch: the searched tag and the new tick. */
  ghost predicate Touched(c: Geometry, line: Line, addr: uint64, tick: nat) {
    line.valid && line.tag == Tag(c, addr) && line.lru == Wrap32(tick)
  }

  lemma ReadHitSet(c: Geometry, k: CacheState, mem: seq<byte>, addr: uint64)
    requires Sound(c, k) && |mem| == SIZE && InMemory(addr) && Find(c, k, addr) >= 0
    ensures var (k', w) := ReadStep(c, k, mem, addr);
            var s := SetIndex(c, addr);
            && w == Find(c, k, addr) && k'.hits == k.hits + 2 && k'.misses == k.misses
            && Touched(c, k'.sets[s][w], addr, k.hits + k.misses + 2)
            && k'.sets == k.sets[s := k.sets[s][w := k'.sets[s][w]]]
  {
  }

  lemma ReadMissSet(c: Geometry, k: CacheState, mem: seq<byte>, addr: uint64)
    requires Sound(c, k) && |mem| == SIZE && InMemory(addr) && Find(c, k, addr) < 0
    ensures var (k', w) := ReadStep(c, k, mem, addr);
            var s := SetIndex(c, addr);
            && w == VictimWay(k.sets[s]) && k'.hits == k.hits + 1 && k'.misses == k.misses + 1
            && Touched(c, k'.sets[s][w], addr, k.hits + k.misses + 2)
            && k'.sets == k.sets[s := k.sets[s][w := k'.sets[s][w]]]
  {
    var s := SetIndex(c, addr);
    var v := VictimWay(k.sets[s]);
    var k0 := k.(misses := k.misses + 1);
    FillFinds(c, k0, mem, addr, v, addr);
    FillTag(c, addr);
    var k' := ReadStep(c, k, mem, addr).0;
    assert k'.sets[s] == k.sets[s][v := k'.sets[s][v]];
  }

  lemma WriteHitSet(c: Geometry, k: CacheState, addr: uint64, bytes: seq<byte>)
    requires Sound(c, k) && InLine(c, addr, |bytes|) && Find(c, k, addr) >= 0
    ensures var k' := WriteStep(c, k, addr, bytes);
            var s, w := SetIndex(c, addr), Find(c, k, addr);
            && k'.hits == k.hits + 2 && k'.misses == k.misses
            && Touched(c, k'.sets[s][w], addr, k.hits + k.misses + 2)
            && k'.sets == k.sets[s := k.sets[s][w := k'.sets[s][w]]]
  {
    var s, w := SetIndex(c, addr), Find(c, k, addr);
    var k' := WriteStep(c, k, addr, bytes);
    assert k'.sets[s] == k.sets[s][w := k'.sets[s][w]];
  }

  // ---- The run invariant ----

  /** A set mirrors a recency list, with all stamps at or below the tick. */
  ghost predicate Tracks(ways: seq<Line>, l: seq<uint32>, tick: nat) {
    Mirrors(ways, l) && StampsBelow(ways, tick)
  }

  ghost predicate SetTracks(c: Geometry, k: CacheState, ops: seq<Op>, s: nat)
    requires Shaped(c, k) && s < NumSets(c)
  {
    Tracks(k.sets[s], Recency(c, ops, s), k.hits + k.misses)
  }

  /** Touching the way that holds the tag is a touch of the recency list. */
  lemma HitTracks(ways: seq<Line>, l: seq<uint32>, n: nat, r: LruStack.Ref, tick: nat, line: Line)
    requires UniqueTags(ways) && Tracks(ways, l, tick) && n > 0
    requires FindLine(ways, r.tag) >= 0 && line.valid && line.tag == r.tag && line.lru == tick + 2
    ensures Tracks(ways[FindLine(ways, r.tag) := line], LruStack.StackStep(l, n, r), tick + 2)
  {
    ListedIffHeld(ways, l, r.tag);
    HitMirrors(ways, l, FindLine(ways, r.tag), line);
  }

  /** Filling the victim for a missed read is an insertion into the recency list. */
  lemma MissTracks(ways: seq<Line>, l: seq<uint32>, r: LruStack.Ref, tick: nat, line: Line)
    requires Tracks(ways, l, tick) && |ways| > 0
    requires FindLine(ways, r.tag) < 0 && !r.write && line.valid && line.tag == r.tag && line.lru == tick + 2
    ensures Tracks(ways[VictimWay(ways) := line], LruStack.StackStep(l, |ways|, r), tick + 2)
  {
    ListedIffHeld(ways, l, r.tag);
    FillMirrors(ways, l, line);
  }

  /** A missed write leaves the set and the recency list alone. */
  lemma PassTracks(ways: seq<Line>, l: seq<uint32>, n: nat, r: LruStack.Ref, tick: nat)
    requires Tracks(ways, l, tick) && FindLine(ways, r.tag) < 0 && r.write && n > 0
    ensures Tracks(ways, LruStack.StackStep(l, n, r), tick + 1)
  {
    ListedIffHeld(ways, l, r.tag);
  }

  lemma RefsAppend(c: Geometry, before: seq<Op>, op: Op, s: nat)
    ensures Recency(c, before + [op], s) ==
            if !op.Foreign? && SetIndex(c, op.addr) == s
            then LruStack.StackStep(Recency(c, before, s), c.ways, LruStack.Ref(op.Store?, Tag(c, op.addr)))
            else Recency(c, before, s)
  {
    assert (before + [op])[..|before|] == before;
    var refs, r := Refs(c, before, s), LruStack.Ref(op.Store?, if op.Foreign? then 0 else Tag(c, op.addr));
    assert (refs + [r])[..|refs|] == refs;
  }

  /** Counters after one operation, by the lists. */
  ghost predicate CountersTrack(c: Geometry, k: CacheState, ops: seq<Op>) {
    && k.misses == MissCount(c, ops)
    && k.hits == 2 * HitCount(c, ops) + ReadMissCount(c, ops)
  }

  lemma CountersStep(c: Geometry, k: CacheState, k': CacheState, before: seq<Op>, op: Op)
    requires CountersTrack(c, k, before)
    requires !op.Foreign? ==>
               if Misses(c, before, op.addr) then
                 k'.misses == k.misses + 1 && k'.hits == k.hits + if op.Load? then 1 else 0
               else k'.misses == k.misses && k'.hits == k.hits + 2
    requires op.Foreign? ==> k' == k
    ensures CountersTrack(c, k', before + [op])
  {
    assert (before + [op])[..|before|] == before;
  }

  lemma LoadTracks(c: Geometry, t: Soc, before: seq<Op>, op: Op)
    requires ShapedSoc(c, t) && Sound(c, t.cache) && LegalOp(c, op) && op.Load?
    requires Tick(Perform(c, t, op).cache) < TWO32
    requires SetTracks(c, t.cache, before, SetIndex(c, op.addr))
    ensures SetTracks(c, Perform(c, t, op).cache, before + [op], SetIndex(c, op.addr))
  {
    RefsAppend(c, before, op, SetIndex(c, op.addr));
    ReadTracks(c, t.cache, t.mem, op.addr, Recency(c, before, SetIndex(c, op.addr)));
  }

  lemma ReadTracks(c: Geometry, k: CacheState, mem: seq<byte>, addr: uint64, l: seq<uint32>)
    requires Sound(c, k) && |mem| == SIZE && InMemory(addr) && Tick(ReadStep(c, k, mem, addr).0) < TWO32
    requires Tracks(k.sets[SetIndex(c, addr)], l, k.hits + k.misses)
    ensures var k', s := ReadStep(c, k, mem, addr).0, SetIndex(c, addr);
            Tracks(k'.sets[s], LruStack.StackStep(l, c.ways, LruStack.Ref(false, Tag(c, addr))), k'.hits + k'.misses)
  {
    var s := SetIndex(c, addr);
    var (k', w) := ReadStep(c, k, mem, addr);
    if Find(c, k, addr) >= 0 {
      ReadHitSet(c, k, mem, addr);
      WrapSmall(k.hits + k.misses + 2);
      HitTracks(k.sets[s], l, c.ways, LruStack.Ref(false, Tag(c, addr)), k.hits + k.misses, k'.sets[s][w]);
    } else {
      ReadMissSet(c, k, mem, addr);
      WrapSmall(k.hits + k.misses + 2);
      MissTracks(k.sets[s], l, LruStack.Ref(false, Tag(c, addr)), k.hits + k.misses, k'.sets[s][w]);
    }
  }

  lemma StoreTracks(c: Geometry, t: Soc, before: seq<Op>, op: Op)
    requires ShapedSoc(c, t) && Sound(c, t.cache) && LegalOp(c, op) && op.Store?
    requires Tick(Perform(c, t, op).cache) < TWO32
    requires SetTracks(c, t.cache, before, SetIndex(c, op.addr))
    ensures SetTracks(c, Perform(c, t, op).cache, before + [op], SetIndex(c, op.addr))
  {
    RefsAppend(c, before, op, SetIndex(c, op.addr));
    WriteTracks(c, t.cache, op.addr, op.bytes, Recency(c, before, SetIndex(c, op.addr)));
  }

  lemma WriteTracks(c: Geometry, k: CacheState, addr: uint64, bytes: seq<byte>, l: seq<uint32>)
    requires Sound(c, k) && InLine(c, addr, |bytes|) && Tick(WriteStep(c, k, addr, bytes)) < TWO32
    requires Tracks(k.sets[SetIndex(c, addr)], l, k.hits + k.misses)
    ensures var k', s := WriteStep(c, k, addr, bytes), SetIndex(c, addr);
            Tracks(k'.sets[s], LruStack.StackStep(l, c.ways, LruStack.Ref(true, Tag(c, addr))), k'.hits + k'.misses)
  {
    var s, k', w := SetIndex(c, addr), WriteStep(c, k, addr, bytes), Find(c, k, addr);
    if w >= 0 {
      WriteHitSet(c, k, addr, bytes);
      WrapSmall(k.hits + k.misses + 2);
      HitTracks(k.sets[s], l, c.ways, LruStack.Ref(true, Tag(c, addr)), k.hits + k.misses, k'.sets[s][w]);
    } else {
      PassTracks(k.sets[s], l, c.ways, LruStack.Ref(true, Tag(c, addr)), k.hits + k.misses);
    }
  }

  /** One operation keeps every set with its recency list. */
  lemma StepTracks(c: Geometry, t: Soc, before: seq<Op>, op: Op, s: nat)
    requires ShapedSoc(c, t) && Sound(c, t.cache) && LegalOp(c, op) && s < NumSets(c)
    requires Tick(Perform(c, t, op).cache) < TWO32
    requires SetTracks(c, t.cache, before, s)
    ensures SetTracks(c, Perform(c, t, op).cache, before + [op], s)
  {
    if op.Foreign? || SetIndex(c, op.addr) != s {
      RefsAppend(c, before, op, s);
      OtherSet(c, t, op, s);
    } else if op.Load? {
      LoadTracks(c, t, before, op);
    } else {
      StoreTracks(c, t, before, op);
    }
  }

  lemma OtherSet(c: Geometry, t: Soc, op: Op, s: nat)
    requires ShapedSoc(c, t) && Sound(c, t.cache) && LegalOp(c, op) && s < NumSets(c)
    requires op.Foreign? || SetIndex(c, op.addr) != s
    ensures var k' := Perform(c, t, op).cache;
            k'.sets[s] == t.cache.sets[s] && Tick(k') >= Tick(t.cache)
  {
  }

  /** The tick never goes back. */
  lemma TickGrows(c: Geometry, t: Soc, op: Op)
    requires ShapedSoc(c, t) && LegalOp(c, op)
    ensures Tick(t.cache) <= Tick(Perform(c, t, op).cache)
  {
  }

  lemma StepCounts(c: Geometry, t: Soc, before: seq<Op>, op: Op)
    requires ShapedSoc(c, t) && Sound(c, t.cache) && LegalOp(c, op) && CountersTrack(c, t.cache, before)
    requires !op.Foreign? ==> SetTracks(c, t.cache, before, SetIndex(c, op.addr))
    ensures CountersTrack(c, Perform(c, t, op).cache, before + [op])
  {
    var k := t.cache;
    if !op.Foreign? {
      var s := SetIndex(c, op.addr);
      ListedIffHeld(k.sets[s], Recency(c, before, s), Tag(c, op.addr));
      if op.Load? {
        if Find(c, k, op.addr) >= 0 {
          ReadHitSet(c, k, t.mem, op.addr);
        } else {
          ReadMissSet(c, k, t.mem, op.addr);
        }
      } else if Find(c, k, op.addr) >= 0 {
        WriteHitSet(c, k, op.addr, op.bytes);
      }
    }
    CountersStep(c, k, Perform(c, t, op).cache, before, op);
  }

  lemma EmptyTracks(c: Geometry, t: Soc, s: nat)
    requires Empty(c, t) && s < NumSets(c)
    ensures SetTracks(c, t.cache, [], s)
  {
    assert MirrorsBy(t.cache.sets[s], [], []);
  }

  /** After any run from an empty cache in which the tick stays below 2^32, every set holds
      exactly the tags of its recency list, its stamps rank them as listed, and the counters
      are misses = misses, hits = 2 * hits + read misses. */
  lemma {:induction false} RunTracks(c: Geometry, t: Soc, ops: seq<Op>)
    requires Empty(c, t) && LegalOps(c, ops) && Tick(Run(c, t, ops).cache) < TWO32
    ensures Sound(c, Run(c, t, ops).cache)
    ensures forall s | 0 <= s < NumSets(c) :: SetTracks(c, Run(c, t, ops).cache, ops, s)
    ensures CountersTrack(c, Run(c, t, ops).cache, ops)
  {
    EmptyIsCoherent(c, t);
    RunSound(c, t, ops);
    if ops == [] {
      forall s | 0 <= s < NumSets(c) ensures SetTracks(c, t.cache, ops, s) {
        EmptyTracks(c, t, s);
      }
    } else {
      var before, op := ops[..|ops| - 1], ops[|ops| - 1];
      assert ops == before + [op];
      var u := Run(c, t, before);
      TickGrows(c, u, op);
      RunTracks(c, t, before);
      forall s | 0 <= s < NumSets(c) ensures SetTracks(c, Run(c, t, ops).cache, ops, s) {
        StepTracks(c, u, before, op, s);
      }
      StepCounts(c, u, before, op);
    }
  }

  /** The byte at a is resident exactly while its tag is on its set's recency list. */
  lemma ResidentIffListed(c: Geometry, t: Soc, ops: seq<Op>, a: uint64)
    requires Empty(c, t) && LegalOps(c, ops) && Tick(Run(c, t, ops).cache) < TWO32 && InMemory(a)
    ensures Byte(c, Run(c, t, ops).cache, a).Some? <==> Tag(c, a) in Recency(c, ops, SetIndex(c, a))
  {
    RunTracks(c, t, ops);
    var s := SetIndex(c, a);
    assert SetTracks(c, Run(c, t, ops).cache, ops, s);
    ListedIffHeld(Run(c, t, ops).cache.sets[s], Recency(c, ops, s), Tag(c, a));
  }

  /** A line that was ever read or hit is resident exactly while fewer distinct other lines
      of its set than there are ways were read or hit since its last touch. */
  lemma Residency(c: Geometry, t: Soc, ops: seq<Op>, a: uint64)
    requires Empty(c, t) && LegalOps(c, ops) && Tick(Run(c, t, ops).cache) < TWO32 && InMemory(a)
    requires LruStack.EverTouched(c.ways, Refs(c, ops, SetIndex(c, a)), Tag(c, a))
    ensures Byte(c, Run(c, t, ops).cache, a).Some?
       <==> |LruStack.TouchedSince(c.ways, Refs(c, ops, SetIndex(c, a)), Tag(c, a))| < c.ways
  {
    ResidentIffListed(c, t, ops, a);
    LruStack.ResidentIff(c.ways, Refs(c, ops, SetIndex(c, a)), Tag(c, a));
  }

  // ---- Two associativities on one trace ----

  /** Same line size and set count, at least as many ways. */
  predicate Wider(c: Geometry, d: Geometry) {
    c.lineSize == d.lineSize && NumSets(c) == NumSets(d) && c.ways <= d.ways
  }

  lemma {:induction false} SameRefs(c: Geometry, d: Geometry, ops: seq<Op>, s: nat)
    requires Wider(c, d)
    ensures Refs(c, ops, s) == Refs(d, ops, s)
  {
    if ops != [] {
      SameRefs(c, d, ops[..|ops| - 1], s);
    }
  }

  lemma {:induction false} StacksIncluded(ways: nat, ways': nat, refs: seq<LruStack.Ref>)
    requires 0 < ways <= ways'
    ensures LruStack.Included(LruStack.Stack(ways, refs), ways, LruStack.Stack(ways', refs))
  {
    if refs != [] {
      var before := refs[..|refs| - 1];
      StacksIncluded(ways, ways', before);
      LruStack.StackShape(ways', before);
      LruStack.InclusionStep(LruStack.Stack(ways, before), ways, LruStack.Stack(ways', before), ways',
                             refs[|refs| - 1]);
    }
  }

  lemma ListsIncluded(c: Geometry, d: Geometry, ops: seq<Op>, s: nat, tag: uint32)
    requires Wider(c, d)
    ensures tag in Recency(c, ops, s) ==> tag in Recency(d, ops, s)
  {
    SameRefs(c, d, ops, s);
    StacksIncluded(c.ways, d.ways, Refs(c, ops, s));
    LruStack.SubsequenceIncluded(Recency(c, ops, s), Recency(d, ops, s));
  }

  lemma {:induction false} FewerMisses(c: Geometry, d: Geometry, ops: seq<Op>)
    requires Wider(c, d)
    ensures MissCount(d, ops) <= MissCount(c, ops)
  {
    if ops != [] {
      var before, op := ops[..|ops| - 1], ops[|ops| - 1];
      FewerMisses(c, d, before);
      if !op.Foreign? {
        ListsIncluded(c, d, before, SetIndex(c, op.addr), Tag(c, op.addr));
      }
    }
  }

  /** Stack inclusion: on the same trace, with equal set count and line size, what is
      resident with fewer ways is resident with more, and misses() never grows with the
      associativity, although write misses do not allocate and write hits touch recency. */
  lemma MoreWaysNeverHurt(c: Geometry, d: Geometry, t: Soc, u: Soc, ops: seq<Op>, a: uint64)
    requires Wider(c, d) && Empty(c, t) && Empty(d, u) && LegalOps(c, ops) && LegalOps(d, ops)
    requires Tick(Run(c, t, ops).cache) < TWO32 && Tick(Run(d, u, ops).cache) < TWO32 && InMemory(a)
    ensures Byte(c, Run(c, t, ops).cache, a).Some? ==> Byte(d, Run(d, u, ops).cache, a).Some?
    ensures Run(d, u, ops).cache.misses <= Run(c, t, ops).cache.misses
  {
    ResidentIffListed(c, t, ops, a);
    ResidentIffListed(d, u, ops, a);
    ListsIncluded(c, d, ops, SetIndex(c, a), Tag(c, a));
    RunTracks(c, t, ops);
    RunTracks(d, u, ops);
    FewerMisses(c, d, ops);
  }

  // ---- Resetting the statistics ----

  /** Every stamp a run leaves is at least 2: each stamping access advances the tick by 2. */
  ghost predicate StampsFromTwo(ways: seq<Line>) {
    forall v | 0 <= v < |ways| && ways[v].valid :: ways[v].lru >= 2
  }

  ghost predicate AllFromTwo(k: CacheState) {
    forall s | 0 <= s < |k.sets| :: StampsFromTwo(k.sets[s])
  }

  lemma StepFromTwo(c: Geometry, t: Soc, op: Op)
    requires ShapedSoc(c, t) && Sound(c, t.cache) && LegalOp(c, op) && AllFromTwo(t.cache)
    requires Tick(Perform(c, t, op).cache) < TWO32
    ensures AllFromTwo(Perform(c, t, op).cache)
  {
    var k := t.cache;
    if op.Load? {
      if Find(c, k, op.addr) >= 0 {
        ReadHitSet(c, k, t.mem, op.addr);
      } else {
        ReadMissSet(c, k, t.mem, op.addr);
      }
      WrapSmall(k.hits + k.misses + 2);
    } else if op.Store? && Find(c, k, op.addr) >= 0 {
      WriteHitSet(c, k, op.addr, op.bytes);
      WrapSmall(k.hits + k.misses + 2);
    }
  }

  lemma {:induction false} RunFromTwo(c: Geometry, t: Soc, ops: seq<Op>)
    requires Empty(c, t) && LegalOps(c, ops) && Tick(Run(c, t, ops).cache) < TWO32
    ensures AllFromTwo(Run(c, t, ops).cache)
  {
    if ops != [] {
      var before, op := ops[..|ops| - 1], ops[|ops| - 1];
      EmptyIsCoherent(c, t);
      RunSound(c, t, before);
      TickGrows(c, Run(c, t, before), op);
      RunFromTwo(c, t, before);
      StepFromTwo(c, Run(c, t, before), op);
    }
  }

  /** Everything else in the set is valid, and nothing in front of way w has the stamp 2. */
  predicate NextOut(ways: seq<Line>, w: nat) {
    && (forall v | 0 <= v < |ways| && v != w :: ways[v].valid)
    && (forall v | 0 <= v < w && v < |ways| :: ways[v].lru != 2)
  }

  /** A line stamped 2 among stamps of at least 2 is the next victim exactly under NextOut. */
  lemma StampedTwo(ways: seq<Line>, w: nat, line: Line)
    requires StampsFromTwo(ways) && w < |ways| && line.valid && line.lru == 2
    ensures VictimWay(ways[w := line]) == w <==> NextOut(ways, w)
  {
    var ways' := ways[w := line];
    assert ways'[w] == line;
    assert forall j | 0 <= j < |ways| && j != w :: ways'[j] == ways[j];
  }

  /** Right after a reset, a read hit makes the line just read the next victim exactly when its
      set is full and no way in front of it has the stamp 2. */
  lemma ReadHitAfterReset(c: Geometry, t: Soc, ops: seq<Op>, addr: uint64)
    requires Empty(c, t) && LegalOps(c, ops) && Tick(Run(c, t, ops).cache) < TWO32 && InMemory(addr)
    requires Find(c, Run(c, t, ops).cache, addr) >= 0
    ensures var k, mem, s := ResetStats(Run(c, t, ops).cache), Run(c, t, ops).mem, SetIndex(c, addr);
            VictimWay(ReadStep(c, k, mem, addr).0.sets[s]) == Find(c, k, addr) <==> NextOut(k.sets[s], Find(c, k, addr))
  {
    var k, mem, s := ResetStats(Run(c, t, ops).cache), Run(c, t, ops).mem, SetIndex(c, addr);
    EmptyIsCoherent(c, t);
    RunSound(c, t, ops);
    RunFromTwo(c, t, ops);
    ReadHitSet(c, k, mem, addr);
    StampedTwo(k.sets[s], Find(c, k, addr), ReadStep(c, k, mem, addr).0.sets[s][Find(c, k, addr)]);
  }

  /** So does a write hit. */
  lemma WriteHitAfterReset(c: Geometry, t: Soc, ops: seq<Op>, addr: uint64, bytes: seq<byte>)
    requires Empty(c, t) && LegalOps(c, ops) && Tick(Run(c, t, ops).cache) < TWO32 && InLine(c, addr, |bytes|)
    requires Find(c, Run(c, t, ops).cache, addr) >= 0
    ensures var k, s := ResetStats(Run(c, t, ops).cache), SetIndex(c, addr);
            VictimWay(WriteStep(c, k, addr, bytes).sets[s]) == Find(c, k, addr)
            <==> NextOut(k.sets[s], Find(c, k, addr))
  {
    var k, s := ResetStats(Run(c, t, ops).cache), SetIndex(c, addr);
    EmptyIsCoherent(c, t);
    RunSound(c, t, ops);
    RunFromTwo(c, t, ops);
    WriteHitSet(c, k, addr, bytes);
    StampedTwo(k.sets[s], Find(c, k, addr), WriteStep(c, k, addr, bytes).sets[s][Find(c, k, addr)]);
  }

  /** A read miss right after a reset fills a line that is itself the next victim exactly when
      the rest of its set is valid; so in a full set it always is. */
  lemma FillAfterReset(c: Geometry, t: Soc, ops: seq<Op>, addr: uint64)
    requires Empty(c, t) && LegalOps(c, ops) && Tick(Run(c, t, ops).cache) < TWO32 && InMemory(addr)
    requires Find(c, Run(c, t, ops).cache, addr) < 0
    ensures var k, mem, s := ResetStats(Run(c, t, ops).cache), Run(c, t, ops).mem, SetIndex(c, addr);
            var w := VictimWay(k.sets[s]);
            && (VictimWay(ReadStep(c, k, mem, addr).0.sets[s]) == w <==> NextOut(k.sets[s], w))
            && (k.sets[s][w].valid ==> NextOut(k.sets[s], w))
  {
    var k, mem, s := ResetStats(Run(c, t, ops).cache), Run(c, t, ops).mem, SetIndex(c, addr);
    EmptyIsCoherent(c, t);
    RunSound(c, t, ops);
    RunFromTwo(c, t, ops);
    ReadMissSet(c, k, mem, addr);
    StampedTwo(k.sets[s], VictimWay(k.sets[s]), ReadStep(c, k, mem, addr).0.sets[s][VictimWay(k.sets[s])]);
  }

  // ---- Any time after a reset ----

  /** The operation stamps way v of set s. */
  predicate Stamps(c: Geometry, t: Soc, op: Op, s: nat, v: nat)
    requires ShapedSoc(c, t) && LegalOp(c, op)
  {
    match op
    case Load(addr, _) => SetIndex(c, addr) == s && ReadStep(c, t.cache, t.mem, addr).1 == v
    case Store(addr, _) => SetIndex(c, addr) == s && Find(c, t.cache, addr) == v
    case Foreign(_, _) => false
  }

  predicate StampedSince(c: Geometry, t: Soc, ops: seq<Op>, s: nat, v: nat)
    requires ShapedSoc(c, t) && LegalOps(c, ops)
  {
    ops != [] &&
    (Stamps(c, Run(c, t, ops[..|ops| - 1]), ops[|ops| - 1], s, v) || StampedSince(c, t, ops[..|ops| - 1], s, v))
  }

  /** A way has its old line, or one with a stamp at or below the tick. */
  predicate OldOrBelow(old_: Line, line: Line, stamped: bool, tick: nat) {
    if stamped then line.valid && line.lru <= tick else line == old_
  }

  lemma ReadStampsOne(c: Geometry, k: CacheState, mem: seq<byte>, addr: uint64, s: nat, v: nat)
    requires Sound(c, k) && |mem| == SIZE && InMemory(addr) && s < NumSets(c) && v < c.ways
    requires Tick(ReadStep(c, k, mem, addr).0) < TWO32
    ensures var (k', w) := ReadStep(c, k, mem, addr);
            && Tick(k') == Tick(k) + 2
            && if SetIndex(c, addr) == s && w == v then Touched(c, k'.sets[s][v], addr, Tick(k'))
               else k'.sets[s][v] == k.sets[s][v]
  {
    if Find(c, k, addr) >= 0 {
      ReadHitSet(c, k, mem, addr);
    } else {
      ReadMissSet(c, k, mem, addr);
    }
  }

  lemma WriteStampsOne(c: Geometry, k: CacheState, addr: uint64, bytes: seq<byte>, s: nat, v: nat)
    requires Sound(c, k) && InLine(c, addr, |bytes|) && s < NumSets(c) && v < c.ways
    ensures var k' := WriteStep(c, k, addr, bytes);
            && Tick(k') == Tick(k) + (if Find(c, k, addr) >= 0 then 2 else 1)
            && if SetIndex(c, addr) == s && Find(c, k, addr) == v then Touched(c, k'.sets[s][v], addr, Tick(k'))
               else k'.sets[s][v] == k.sets[s][v]
  {
    if Find(c, k, addr) >= 0 {
      WriteHitSet(c, k, addr, bytes);
    }
  }

  lemma StampsOne(c: Geometry, t: Soc, op: Op, s: nat, v: nat)
    requires ShapedSoc(c, t) && Sound(c, t.cache) && LegalOp(c, op) && s < NumSets(c) && v < c.ways
    requires Tick(Perform(c, t, op).cache) < TWO32
    ensures var k' := Perform(c, t, op).cache;
            OldOrBelow(t.cache.sets[s][v], k'.sets[s][v], Stamps(c, t, op, s, v), Tick(k'))
  {
    WrapSmall(Tick(Perform(c, t, op).cache));
    match op {
      case Load(addr, _) => ReadStampsOne(c, t.cache, t.mem, addr, s, v);
      case Store(addr, bytes) => WriteStampsOne(c, t.cache, addr, bytes, s, v);
      case Foreign(_, _) =>
    }
  }

  /** From any state, and while the tick stays below 2^32: the ways stamped since then have stamps
      at or below the tick, every other way has the line it had. */
  lemma {:induction false} StampedWays(c: Geometry, t: Soc, ops: seq<Op>, s: nat, v: nat)
    requires ShapedSoc(c, t) && Sound(c, t.cache) && LegalOps(c, ops) && s < NumSets(c) && v < c.ways
    requires Tick(Run(c, t, ops).cache) < TWO32
    ensures var k := Run(c, t, ops).cache;
            OldOrBelow(t.cache.sets[s][v], k.sets[s][v], StampedSince(c, t, ops, s, v), Tick(k))
  {
    if ops != [] {
      var before, op := ops[..|ops| - 1], ops[|ops| - 1];
      TickGrows(c, Run(c, t, before), op);
      RunSound(c, t, before);
      StampedWays(c, t, before, s, v);
      StampsOne(c, Run(c, t, before), op, s, v);
    }
  }

  /** The line would be evicted after one with the given stamp, which it stands in front of or
      behind. */
  predicate Outlasts(line: Line, stamp: nat, front: bool) {
    line.valid && if front then line.lru > stamp else line.lru >= stamp
  }

  lemma NextVictimIff(ways: seq<Line>, w: nat, line: Line)
    requires w < |ways| && line.valid
    ensures VictimWay(ways[w := line]) == w
       <==> forall v | 0 <= v < |ways| && v != w :: Outlasts(ways[v], line.lru, v < w)
  {
    var ways' := ways[w := line];
    assert ways'[w] == line;
    assert forall j | 0 <= j < |ways| && j != w :: ways'[j] == ways[j];
  }

  /** The way was not stamped since state t, and its line then outlasts a stamp put on way w. */
  predicate StillOutlasts(c: Geometry, t: Soc, ops: seq<Op>, s: nat, v: nat, w: nat, stamp: nat)
    requires ShapedSoc(c, t) && LegalOps(c, ops) && s < NumSets(c) && v < c.ways
  {
    !StampedSince(c, t, ops, s, v) && Outlasts(t.cache.sets[s][v], stamp, v < w)
  }

  /** So it is with every other way of the set. */
  predicate OthersOutlast(c: Geometry, t: Soc, ops: seq<Op>, s: nat, w: nat, stamp: nat)
    requires ShapedSoc(c, t) && LegalOps(c, ops) && s < NumSets(c)
  {
    forall v | 0 <= v < c.ways && v != w :: StillOutlasts(c, t, ops, s, v, w, stamp)
  }

  lemma OutlastsIff(c: Geometry, t: Soc, ops: seq<Op>, s: nat, v: nat, w: nat, stamp: nat)
    requires ShapedSoc(c, t) && Sound(c, t.cache) && LegalOps(c, ops) && s < NumSets(c) && v < c.ways
    requires Tick(Run(c, t, ops).cache) < stamp < TWO32
    ensures Outlasts(Run(c, t, ops).cache.sets[s][v], stamp, v < w) <==> StillOutlasts(c, t, ops, s, v, w, stamp)
  {
    StampedWays(c, t, ops, s, v);
  }

  lemma OutlastAll(c: Geometry, t: Soc, ops: seq<Op>, s: nat, w: nat, stamp: nat, ways: seq<Line>)
    requires ShapedSoc(c, t) && Sound(c, t.cache) && LegalOps(c, ops) && s < NumSets(c)
    requires Tick(Run(c, t, ops).cache) < stamp < TWO32 && ways == Run(c, t, ops).cache.sets[s] && |ways| == c.ways
    ensures OthersOutlast(c, t, ops, s, w, stamp)
       <==> forall v | 0 <= v < |ways| && v != w :: Outlasts(ways[v], stamp, v < w)
  {
    forall v | 0 <= v < c.ways
      ensures Outlasts(ways[v], stamp, v < w) <==> StillOutlasts(c, t, ops, s, v, w, stamp)
    {
      OutlastsIff(c, t, ops, s, v, w, stamp);
    }
  }

  /** From any state, and while the tick stays below 2^32: the line a read stamps is the next
      victim exactly when every other way of its set is valid, was not stamped since, and had
      a stamp at or above the new tick (above it in front). */
  lemma {:induction false} ReadNext(c: Geometry, t: Soc, ops: seq<Op>, addr: uint64)
    requires ShapedSoc(c, t) && Sound(c, t.cache) && LegalOps(c, ops) && InMemory(addr)
    requires Tick(ReadStep(c, Run(c, t, ops).cache, Run(c, t, ops).mem, addr).0) < TWO32
    ensures var s := SetIndex(c, addr);
            var (k', w) := ReadStep(c, Run(c, t, ops).cache, Run(c, t, ops).mem, addr);
            VictimWay(k'.sets[s]) == w <==> OthersOutlast(c, t, ops, s, w, Tick(k'))
  {
    var u, s := Run(c, t, ops), SetIndex(c, addr);
    var (k', w) := ReadStep(c, u.cache, u.mem, addr);
    RunSound(c, t, ops);
    if Find(c, u.cache, addr) >= 0 {
      ReadHitSet(c, u.cache, u.mem, addr);
    } else {
      ReadMissSet(c, u.cache, u.mem, addr);
    }
    WrapSmall(Tick(k'));
    NextOutlasts(c, t, ops, s, w, Tick(k'), u.cache.sets[s], k'.sets[s][w], k'.sets[s]);
  }

  /** The same of a write hit. */
  lemma WriteNext(c: Geometry, t: Soc, ops: seq<Op>, addr: uint64, bytes: seq<byte>)
    requires ShapedSoc(c, t) && Sound(c, t.cache) && LegalOps(c, ops) && InLine(c, addr, |bytes|)
    requires Find(c, Run(c, t, ops).cache, addr) >= 0
    requires Tick(WriteStep(c, Run(c, t, ops).cache, addr, bytes)) < TWO32
    ensures var s, k := SetIndex(c, addr), Run(c, t, ops).cache;
            var k', w := WriteStep(c, k, addr, bytes), Find(c, k, addr);
            VictimWay(k'.sets[s]) == w <==> OthersOutlast(c, t, ops, s, w, Tick(k'))
  {
    var u, s := Run(c, t, ops), SetIndex(c, addr);
    var k', w := WriteStep(c, u.cache, addr, bytes), Find(c, u.cache, addr);
    RunSound(c, t, ops);
    WriteHitSet(c, u.cache, addr, bytes);
    WrapSmall(Tick(k'));
    NextOutlasts(c, t, ops, s, w, Tick(k'), u.cache.sets[s], k'.sets[s][w], k'.sets[s]);
  }

  /** After way w was stamped with the highest tick. */
  lemma NextOutlasts(c: Geometry, t: Soc, ops: seq<Op>, s: nat, w: nat, stamp: nat, ways: seq<Line>, line: Line,
                     ways': seq<Line>)
    requires ShapedSoc(c, t) && Sound(c, t.cache) && LegalOps(c, ops) && s < NumSets(c)
    requires Tick(Run(c, t, ops).cache) < stamp < TWO32 && ways == Run(c, t, ops).cache.sets[s] && |ways| == c.ways
    requires w < c.ways && line.valid && line.lru == stamp && ways' == ways[w := line]
    ensures VictimWay(ways') == w <==> OthersOutlast(c, t, ops, s, w, stamp)
  {
    OutlastAll(c, t, ops, s, w, stamp, ways);
    NextVictimIff(ways, w, line);
  }

  /** Statistics reset in any state. */
  function AfterReset(c: Geometry, u: Soc): (t: Soc)
    requires ShapedSoc(c, u) && Sound(c, u.cache)
    ensures ShapedSoc(c, t) && Sound(c, t.cache) && Tick(t.cache) == 0
  {
    Soc(ResetStats(u.cache), u.mem)
  }

  /** So after a reset in any state, and any operations since then. */
  lemma NextSinceReset(c: Geometry, u: Soc, ops: seq<Op>, addr: uint64)
    requires ShapedSoc(c, u) && Sound(c, u.cache) && LegalOps(c, ops) && InMemory(addr)
    requires var v := Run(c, AfterReset(c, u), ops); Tick(ReadStep(c, v.cache, v.mem, addr).0) < TWO32
    ensures var t, s := AfterReset(c, u), SetIndex(c, addr);
            var (k', w) := ReadStep(c, Run(c, t, ops).cache, Run(c, t, ops).mem, addr);
            && (VictimWay(k'.sets[s]) == w <==> OthersOutlast(c, t, ops, s, w, Tick(k')))
            && forall v | 0 <= v < c.ways :: t.cache.sets[s][v] == u.cache.sets[s][v]
  {
    ReadNext(c, AfterReset(c, u), ops, addr);
  }

  /** Without a reset, the line just touched is never the next victim of a set with other ways. */
  lemma NewestIsSafe(ways: seq<Line>, w: nat, line: Line, tick: nat)
    requires |ways| >= 2 && w < |ways| && StampsBelow(ways, tick) && line.valid && line.lru > tick
    ensures VictimWay(ways[w := line]) != w
  {
    var ways' := ways[w := line];
    var other := if w == 0 then 1 else 0;
    assert ways'[other] == ways[other] && ways'[w] == line;
  }

  /** A run from an empty cache leaves no stamp above the tick. */
  lemma RunStampsBelow(c: Geometry, t: Soc, ops: seq<Op>, s: nat)
    requires Empty(c, t) && LegalOps(c, ops) && Tick(Run(c, t, ops).cache) < TWO32 && s < NumSets(c)
    ensures Sound(c, Run(c, t, ops).cache)
    ensures StampsBelow(Run(c, t, ops).cache.sets[s], Tick(Run(c, t, ops).cache))
  {
    RunTracks(c, t, ops);
    assert SetTracks(c, Run(c, t, ops).cache, ops, s);
  }

  lemma ReadIsSafe(c: Geometry, k: CacheState, mem: seq<byte>, addr: uint64)
    requires Sound(c, k) && |mem| == SIZE && InMemory(addr) && c.ways >= 2
    requires StampsBelow(k.sets[SetIndex(c, addr)], Tick(k)) && Tick(ReadStep(c, k, mem, addr).0) < TWO32
    ensures var (k', w) := ReadStep(c, k, mem, addr); VictimWay(k'.sets[SetIndex(c, addr)]) != w
  {
    var s := SetIndex(c, addr);
    var (k', w) := ReadStep(c, k, mem, addr);
    if Find(c, k, addr) >= 0 {
      ReadHitSet(c, k, mem, addr);
    } else {
      ReadMissSet(c, k, mem, addr);
    }
    WrapSmall(Tick(k) + 2);
    NewestIsSafe(k.sets[s], w, k'.sets[s][w], Tick(k));
  }

  lemma WriteIsSafe(c: Geometry, k: CacheState, addr: uint64, bytes: seq<byte>)
    requires Sound(c, k) && InLine(c, addr, |bytes|) && c.ways >= 2 && Find(c, k, addr) >= 0
    requires StampsBelow(k.sets[SetIndex(c, addr)], Tick(k)) && Tick(WriteStep(c, k, addr, bytes)) < TWO32
    ensures VictimWay(WriteStep(c, k, addr, bytes).sets[SetIndex(c, addr)]) != Find(c, k, addr)
  {
    var s, w := SetIndex(c, addr), Find(c, k, addr);
    WriteHitSet(c, k, addr, bytes);
    WrapSmall(Tick(k) + 2);
    NewestIsSafe(k.sets[s], w, WriteStep(c, k, addr, bytes).sets[s][w], Tick(k));
  }

  lemma TouchedIsSafe(c: Geometry, t: Soc, ops: seq<Op>, addr: uint64)
    requires Empty(c, t) && LegalOps(c, ops) && InMemory(addr) && c.ways >= 2
    requires Tick(ReadStep(c, Run(c, t, ops).cache, Run(c, t, ops).mem, addr).0) < TWO32
    ensures var u, s := Run(c, t, ops), SetIndex(c, addr);
            var (k', w) := ReadStep(c, u.cache, u.mem, addr);
            VictimWay(k'.sets[s]) != w
  {
    var u := Run(c, t, ops);
    TickGrows(c, u, Load(addr, 0));
    RunStampsBelow(c, t, ops, SetIndex(c, addr));
    ReadIsSafe(c, u.cache, u.mem, addr);
  }

  lemma WrittenIsSafe(c: Geometry, t: Soc, ops: seq<Op>, addr: uint64, bytes: seq<byte>)
    requires Empty(c, t) && LegalOps(c, ops) && InLine(c, addr, |bytes|) && c.ways >= 2
    requires Find(c, Run(c, t, ops).cache, addr) >= 0
    requires Tick(WriteStep(c, Run(c, t, ops).cache, addr, bytes)) < TWO32
    ensures var k := Run(c, t, ops).cache;
            VictimWay(WriteStep(c, k, addr, bytes).sets[SetIndex(c, addr)]) != Find(c, k, addr)
  {
    var u := Run(c, t, ops);
    TickGrows(c, u, Store(addr, bytes));
    RunStampsBelow(c, t, ops, SetIndex(c, addr));
    WriteIsSafe(c, u.cache, addr, bytes);
  }

  // ---- A run on which a reset evicts the line just read ----

  /** One set of two ways. */
  predicate OneSetTwoWays(c: Geometry) { c == Config(32, 16, 2) }

  /** There is such a cache, and it can be empty. */
  lemma SmallExists(mem: Ram) returns (c: Geometry, t: Soc)
    ensures OneSetTwoWays(c) && Empty(c, t) && t.mem == mem
  {
    assert 16 == Pow2(4);
    c := Config(32, 16, 2);
    var line := Line(false, 0, seq(16, _ => 0), 0);
    t := Soc(CacheState([[line, line]], 0, 0), mem);
  }

  lemma SmallSplit(c: Geometry, addr: uint64)
    requires OneSetTwoWays(c) && addr < 32
    ensures SetIndex(c, addr) == 0 && Tag(c, addr) == addr / 16 && InLine(c, addr, 1)
  {
    CpuTagFits(c, addr);
    SplitIs(c, addr);
  }

  /** A read of a new line of the one set, while it still has an invalid way. */
  lemma SmallMiss(c: Geometry, t: Soc, addr: uint64, w: nat)
    requires ShapedSoc(c, t) && Sound(c, t.cache) && OneSetTwoWays(c) && addr < 32 && Tick(t.cache) + 2 < TWO32
    requires w < 2 && !t.cache.sets[0][w].valid && forall v | 0 <= v < w :: t.cache.sets[0][v].valid
    requires forall v | 0 <= v < w :: t.cache.sets[0][v].tag != addr / 16
    requires forall v | w <= v < 2 :: !t.cache.sets[0][v].valid
    ensures var k' := Perform(c, t, Load(addr, 1)).cache;
            && Tick(k') == Tick(t.cache) + 2 && k'.sets[0] == t.cache.sets[0][w := k'.sets[0][w]]
            && k'.sets[0][w].valid && k'.sets[0][w].tag == addr / 16
  {
    SmallSplit(c, addr);
    var ways := t.cache.sets[0];
    assert FirstInvalid(ways, 0) == w;
    ReadMissSet(c, t.cache, t.mem, addr);
  }

  /** The two lines are resident in the order they were read. */
  lemma SmallRun(c: Geometry, t: Soc)
    requires Empty(c, t) && OneSetTwoWays(c)
    ensures LegalOps(c, [Load(0, 1), Load(16, 1)])
    ensures var k := Run(c, t, [Load(0, 1), Load(16, 1)]).cache;
            Sound(c, k) && Tick(k) == 4 && Holds(k.sets[0][0], 0) && Holds(k.sets[0][1], 1)
  {
    EmptyIsCoherent(c, t);
    SmallSplit(c, 0);
    SmallSplit(c, 16);
    var u := Perform(c, t, Load(0, 1));
    SmallMiss(c, t, 0, 0);
    PerformSound(c, t, Load(0, 1));
    SmallMiss(c, u, 16, 1);
    PerformSound(c, u, Load(16, 1));
    SmallUnfolds(c, t);
  }

  lemma SmallUnfolds(c: Geometry, t: Soc)
    requires ShapedSoc(c, t) && LegalOp(c, Load(0, 1)) && LegalOp(c, Load(16, 1))
    ensures Run(c, t, [Load(0, 1), Load(16, 1)]) == Perform(c, Perform(c, t, Load(0, 1)), Load(16, 1))
  {
    var two := [Load(0, 1), Load(16, 1)];
    assert two[..1] == [Load(0, 1)];
    assert [Load(0, 1)][..0] == [];
    assert Run(c, t, []) == t;
    assert Run(c, t, [Load(0, 1)]) == Perform(c, t, Load(0, 1));
  }

  /** From an empty cache of one set with two ways: read line 0, read line 1, reset, read line 0.
      The next victim is line 0, the one just read; without the reset it is line 1. */
  lemma ResetForgetsRecency(c: Geometry, t: Soc)
    requires Empty(c, t) && OneSetTwoWays(c)
    ensures LegalOps(c, [Load(0, 1), Load(16, 1)])
    ensures var u := Run(c, t, [Load(0, 1), Load(16, 1)]);
            && VictimWay(ReadStep(c, ResetStats(u.cache), u.mem, 0).0.sets[0]) == Find(c, u.cache, 0) == 0
            && VictimWay(ReadStep(c, u.cache, u.mem, 0).0.sets[0]) == 1
  {
    var ops := [Load(0, 1), Load(16, 1)];
    SmallRun(c, t);
    SmallSplit(c, 0);
    var u := Run(c, t, ops);
    assert FindLine(u.cache.sets[0], 0) == 0;
    ReadHitSet(c, u.cache, u.mem, 0);
    ReadHitAfterReset(c, t, ops, 0);
    TouchedIsSafe(c, t, ops, 0);
  }
}
