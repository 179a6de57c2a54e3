/** The CPU behind its cache and the DMA beside it: when the CPU sees what a transfer wrote
    (main.cpp, periph/dma/dma.cpp, cache/cache.cpp, tests/c_programs/test_dma.c). */
module SocVisibility {
  import opened Words
  import opened MemoryModel
  import opened InterconnectModel
  import opened CacheIndex
  import opened CacheOps
  import opened CacheView
  import opened Coherence
  import opened WordCopy
  import opened AtInvariant
  import opened DmaEngine
  import opened DmaTiming
  import opened DmaCopy

  /** The DMA system and the CPU's cache over the same memory. */
  datatype Platform = Platform(sys: System, cache: CacheState)

  /** A move of the DMA system, or a CPU access through the cache. */
  datatype Event = Hardware(m: Move) | Cpu(op: Op)

  function Side(p: Platform): Soc { Soc(p.cache, p.sys.at.mem) }

  predicate Possible(c: Geometry, p: Platform, e: Event) {
    match e
    case Hardware(m) => Allowed(p.sys, m)
    case Cpu(op) => Shaped(c, p.cache) && !op.Foreign? && LegalOp(c, op)
  }

  /** DMA accesses reach memory beside the cache; CPU stores reach it over the blocking path. */
  function Happen(c: Geometry, p: Platform, e: Event): Platform
    requires Possible(c, p, e)
  {
    match e
    case Hardware(m) => p.(sys := Do(p.sys, m))
    case Cpu(op) => var s := Perform(c, Side(p), op); Platform(Do(p.sys, Outside(s.mem)), s.cache)
  }

  predicate PossibleRun(c: Geometry, p: Platform, run: seq<Event>)
    decreases |run|
  {
    run == [] || (Possible(c, p, run[0]) && PossibleRun(c, Happen(c, p, run[0]), run[1..]))
  }

  function Later(c: Geometry, p: Platform, run: seq<Event>): Platform
    requires PossibleRun(c, p, run)
    decreases |run|
  {
    if run == [] then p else Later(c, Happen(c, p, run[0]), run[1..])
  }

  // ---- From power-up ----

  /** Power-up: the system's initial state, and a cache without a valid line. */
  ghost predicate PoweredUp(c: Geometry, p: Platform) {
    SysInitial(p.sys) && DirectBase(p.sys.at.base) && Shaped(c, p.cache) && NothingCached(c, p.cache)
  }

  /** What every state of a platform has. */
  ghost predicate Running(c: Geometry, p: Platform) {
    TimedInv(p.sys) && DirectBase(p.sys.at.base) && Sound(c, p.cache)
  }

  predicate TameEvents(c: Geometry, p: Platform, run: seq<Event>)
    requires PossibleRun(c, p, run)
    decreases |run|
  {
    run == [] || ((run[0].Hardware? ==> Tame(p.sys, run[0].m)) && TameEvents(c, Happen(c, p, run[0]), run[1..]))
  }

  lemma EventRunning(c: Geometry, p: Platform, e: Event)
    requires Running(c, p) && Possible(c, p, e) && (e.Hardware? ==> Tame(p.sys, e.m))
    ensures Running(c, Happen(c, p, e))
  {
    match e {
      case Hardware(m) =>
        MoveTimed(p.sys, m);
        KeepsBase(p.sys, m);
      case Cpu(op) =>
        PerformSound(c, Side(p), op);
        MoveTimed(p.sys, Outside(Perform(c, Side(p), op).mem));
    }
  }

  lemma {:induction false} RunRunning(c: Geometry, p: Platform, run: seq<Event>)
    requires Running(c, p) && PossibleRun(c, p, run) && TameEvents(c, p, run)
    ensures Running(c, Later(c, p, run))
    decreases |run|
  {
    if run != [] {
      EventRunning(c, p, run[0]);
      RunRunning(c, Happen(c, p, run[0]), run[1..]);
    }
  }

  /** Whatever CPU accesses and tame hardware moves follow power-up, the invariant that the
      visibility of transfers rests on holds. */
  lemma PowerUpRuns(c: Geometry, p: Platform, run: seq<Event>)
    requires PoweredUp(c, p) && PossibleRun(c, p, run) && TameEvents(c, p, run)
    ensures Running(c, Later(c, p, run))
  {
    InitialInv(p.sys.at);
    EmptyIsCoherent(c, Side(p));
    RunRunning(c, p, run);
  }

  // ---- The destination and the cache ----

  /** Address a, through either alias, names a byte of the physical range. */
  predicate Names(a: uint64, o: nat, len: nat) {
    InMemory(a) && o <= Phys(a) < o + len
  }

  /** No line with a byte of the range is resident. */
  ghost predicate Absent(c: Geometry, k: CacheState, o: nat, len: nat)
    requires Shaped(c, k)
  {
    forall a: uint64 | Names(a, o, len) :: Byte(c, k, a) == None
  }

  /** The access touches no line with a byte of the range. */
  ghost predicate AvoidsLines(c: Geometry, addr: uint64, o: nat, len: nat) {
    forall a: uint64 | Names(a, o, len) :: Block(c, a) != Block(c, addr)
  }

  lemma ByteStaysAbsent(c: Geometry, s: Soc, op: Op, a: uint64)
    requires ShapedSoc(c, s) && Sound(c, s.cache) && LegalOp(c, op) && InMemory(a) && Byte(c, s.cache, a) == None
    requires op.Load? ==> Block(c, a) != Block(c, op.addr)
    ensures Byte(c, Perform(c, s, op).cache, a) == None
  {
    match op {
      case Load(addr, _) => ReadView(c, s.cache, s.mem, addr, a);
      case Store(addr, bytes) => WriteView(c, s.cache, addr, bytes, a);
      case Foreign(_, _) =>
    }
  }

  /** Only a load of one of its lines brings the range into the cache: a store does not
      allocate. */
  lemma StaysAbsent(c: Geometry, s: Soc, op: Op, o: nat, len: nat)
    requires ShapedSoc(c, s) && Sound(c, s.cache) && LegalOp(c, op) && Absent(c, s.cache, o, len)
    requires op.Load? ==> AvoidsLines(c, op.addr, o, len)
    ensures Absent(c, Perform(c, s, op).cache, o, len)
  {
    forall a: uint64 | Names(a, o, len)
      ensures Byte(c, Perform(c, s, op).cache, a) == None
    {
      ByteStaysAbsent(c, s, op, a);
    }
  }

  // ---- While the transfer runs ----

  /** The transfer's own bytes. */
  ghost function Footprint(r: Regs): iset<nat> {
    iset k: nat | Transfers(r, k)
  }

  predicate Transfers(r: Regs, k: nat) {
    var len := 4 * WordCount(r.size);
    Phys(r.src) <= k < Phys(r.src) + len || Phys(r.dst) <= k < Phys(r.dst) + len
  }

  function Length(s: System): nat { 4 * WordCount(s.regs.size) }

  /** What the program must not do before it has seen the start bit clear: write the source or
      the destination, or load a line of the destination. */
  ghost predicate Patient(c: Geometry, p: Platform, e: Event)
    requires Possible(c, p, e)
  {
    match e
    case Hardware(m) => Tame(p.sys, m) && Respects(p.sys, m, Footprint(p.sys.regs))
    case Cpu(op) =>
      && Agree(p.sys.at.mem, Happen(c, p, e).sys.at.mem, Footprint(p.sys.regs))
      && (op.Load? ==> AvoidsLines(c, op.addr, Dst(p.sys), Length(p.sys)))
  }

  /** Every event of the run is patient and leaves the transfer under way. */
  ghost predicate PatientRun(c: Geometry, p: Platform, run: seq<Event>)
    requires PossibleRun(c, p, run)
    decreases |run|
  {
    && !p.sys.stage.Waiting?
    && (run != [] ==> Patient(c, p, run[0]) && PatientRun(c, Happen(c, p, run[0]), run[1..]))
  }

  ghost predicate CopyInv(c: Geometry, p: Platform) {
    && TimedInv(p.sys) && DirectBase(p.sys.at.base) && !p.sys.stage.Waiting?
    && DataInv(p.sys, Footprint(p.sys.regs))
    && Sound(c, p.cache) && Absent(c, p.cache, Dst(p.sys), Length(p.sys))
  }

  /** The DMA system sees a CPU access as an outside write. */
  function Seen(c: Geometry, p: Platform, e: Event): Move
    requires Possible(c, p, e)
  {
    match e
    case Hardware(m) => m
    case Cpu(op) => Outside(Perform(c, Side(p), op).mem)
  }

  lemma EventCopies(c: Geometry, p: Platform, e: Event)
    requires CopyInv(c, p) && Possible(c, p, e) && Patient(c, p, e) && !Happen(c, p, e).sys.stage.Waiting?
    ensures TimedInv(Happen(c, p, e).sys) && DirectBase(Happen(c, p, e).sys.at.base)
    ensures DataInv(Happen(c, p, e).sys, Footprint(p.sys.regs))
    ensures Happen(c, p, e).sys.regs == p.sys.regs && Happen(c, p, e).sys.history.mem0 == p.sys.history.mem0
  {
    var m := Seen(c, p, e);
    MoveTimed(p.sys, m);
    MoveCopies(p.sys, m, Footprint(p.sys.regs));
    KeepsBase(p.sys, m);
    SameRegisters(p.sys, m);
  }

  lemma EventAbsent(c: Geometry, p: Platform, e: Event)
    requires CopyInv(c, p) && Possible(c, p, e) && Patient(c, p, e)
    ensures Sound(c, Happen(c, p, e).cache) && Absent(c, Happen(c, p, e).cache, Dst(p.sys), Length(p.sys))
  {
    if e.Cpu? {
      PerformSound(c, Side(p), e.op);
      StaysAbsent(c, Side(p), e.op, Dst(p.sys), Length(p.sys));
    }
  }

  lemma EventCopyInv(c: Geometry, p: Platform, e: Event)
    requires CopyInv(c, p) && Possible(c, p, e) && Patient(c, p, e) && !Happen(c, p, e).sys.stage.Waiting?
    ensures CopyInv(c, Happen(c, p, e))
    ensures Happen(c, p, e).sys.regs == p.sys.regs && Happen(c, p, e).sys.history.mem0 == p.sys.history.mem0
  {
    EventCopies(c, p, e);
    EventAbsent(c, p, e);
  }

  lemma {:induction false} RunCopyInv(c: Geometry, p: Platform, run: seq<Event>)
    requires CopyInv(c, p) && PossibleRun(c, p, run) && PatientRun(c, p, run)
    ensures CopyInv(c, Later(c, p, run))
    ensures Later(c, p, run).sys.regs == p.sys.regs && Later(c, p, run).sys.history.mem0 == p.sys.history.mem0
    decreases |run|
  {
    if run != [] {
      EventCopyInv(c, p, run[0]);
      RunCopyInv(c, Happen(c, p, run[0]), run[1..]);
    }
  }

  // ---- When it has ended ----

  /** Memory holds the data at o, and the cache holds nothing else for it. */
  ghost predicate Delivered(c: Geometry, p: Platform, o: nat, data: seq<byte>)
    requires Shaped(c, p.cache) && o + |data| <= SIZE
  {
    && Sound(c, p.cache)
    && Slice(p.sys.at.mem, o, |data|) == data
    && forall a: uint64 | Names(a, o, |data|) :: Fresh(c, Side(p), a)
  }

  /** The event that clears the start bit delivers the old source. */
  lemma EndDelivers(c: Geometry, p: Platform)
    requires CopyInv(c, p) && Finishes(p.sys, Resume)
    requires Fits(p.sys) && Ascends(Src(p.sys), Dst(p.sys), WordCount(p.sys.regs.size))
    ensures var t := Happen(c, p, Hardware(Resume));
            Delivered(c, t, Dst(p.sys), Slice(p.sys.history.mem0, Src(p.sys), Length(p.sys)))
  {
    var s := p.sys;
    var t, m, n := Happen(c, p, Hardware(Resume)), s.history.mem0, WordCount(s.regs.size);
    TransferFinished(s, Footprint(s.regs));
    AscendingCopies(m, Src(s), Dst(s), n);
    AgreeSlice(t.sys.at.mem, CopyWords(m, Src(s), Dst(s), n), Footprint(s.regs), Dst(s), Length(s));
  }

  /** Afterwards nothing may write the destination; everything else is free. */
  ghost predicate Spares(c: Geometry, p: Platform, e: Event, o: nat, len: nat)
    requires Possible(c, p, e) && o + len <= SIZE
  {
    match e
    case Hardware(m) => Slice(Do(p.sys, m).at.mem, o, len) == Slice(p.sys.at.mem, o, len)
    case Cpu(Load(_, _)) => true
    case Cpu(Store(addr, bytes)) => Phys(addr) + |bytes| <= o || o + len <= Phys(addr)
    case Cpu(Foreign(_, _)) => true
  }

  ghost predicate SparesRun(c: Geometry, p: Platform, run: seq<Event>, o: nat, len: nat)
    requires PossibleRun(c, p, run) && o + len <= SIZE
    decreases |run|
  {
    run == [] || (Spares(c, p, run[0], o, len) && SparesRun(c, Happen(c, p, run[0]), run[1..], o, len))
  }

  lemma CpuKeepsDelivered(c: Geometry, p: Platform, op: Op, o: nat, data: seq<byte>)
    requires Possible(c, p, Cpu(op)) && o + |data| <= SIZE && Delivered(c, p, o, data)
    requires Spares(c, p, Cpu(op), o, |data|)
    ensures Delivered(c, Happen(c, p, Cpu(op)), o, data)
  {
    PerformSound(c, Side(p), op);
    forall a: uint64 | Names(a, o, |data|)
      ensures Fresh(c, Side(Happen(c, p, Cpu(op))), a)
    {
      CpuKeepsFresh(c, p, op, o, |data|, a);
    }
    CpuKeepsBytes(c, p, op, o, data);
  }

  lemma {:induction false} CpuKeepsFresh(c: Geometry, p: Platform, op: Op, o: nat, len: nat, a: uint64)
    requires Possible(c, p, Cpu(op)) && Sound(c, p.cache) && o + len <= SIZE && Spares(c, p, Cpu(op), o, len)
    requires Names(a, o, len) && Fresh(c, Side(p), a)
    ensures Fresh(c, Side(Happen(c, p, Cpu(op))), a)
  {
    PerformFresh(c, Side(p), op, a);
  }

  lemma CpuKeepsBytes(c: Geometry, p: Platform, op: Op, o: nat, data: seq<byte>)
    requires Possible(c, p, Cpu(op)) && o + |data| <= SIZE && Delivered(c, p, o, data)
    requires Spares(c, p, Cpu(op), o, |data|)
    ensures Slice(Happen(c, p, Cpu(op)).sys.at.mem, o, |data|) == data
  {
    if op.Store? {
      FitsMemory(c, op.addr, |op.bytes|);
      SpliceElsewhere(p.sys.at.mem, Phys(op.addr), op.bytes, o, |data|);
    }
  }

  lemma SpliceElsewhere(mem: seq<byte>, at: nat, bytes: seq<byte>, o: nat, len: nat)
    requires at + |bytes| <= |mem| && o + len <= |mem| && (at + |bytes| <= o || o + len <= at)
    ensures Slice(Splice(mem, at, bytes), o, len) == Slice(mem, o, len)
  {
  }

  lemma HardwareKeepsDelivered(c: Geometry, p: Platform, m: Move, o: nat, data: seq<byte>)
    requires Shaped(c, p.cache) && Allowed(p.sys, m) && o + |data| <= SIZE && Delivered(c, p, o, data)
    requires Spares(c, p, Hardware(m), o, |data|)
    ensures Delivered(c, Happen(c, p, Hardware(m)), o, data)
  {
    var mem, mem' := p.sys.at.mem, Do(p.sys, m).at.mem;
    forall a: uint64 | Names(a, o, |data|)
      ensures Fresh(c, Side(Happen(c, p, Hardware(m))), a)
    {
      assert Fresh(c, Side(p), a);
      assert mem[Phys(a)] == Slice(mem, o, |data|)[Phys(a) - o];
      assert mem'[Phys(a)] == Slice(mem', o, |data|)[Phys(a) - o];
    }
  }

  lemma {:induction false} RunKeepsDelivered(c: Geometry, p: Platform, run: seq<Event>, o: nat, data: seq<byte>)
    requires Shaped(c, p.cache) && o + |data| <= SIZE && Delivered(c, p, o, data)
    requires PossibleRun(c, p, run) && SparesRun(c, p, run, o, |data|)
    ensures Shaped(c, Later(c, p, run).cache) && Delivered(c, Later(c, p, run), o, data)
    decreases |run|
  {
    if run != [] {
      match run[0] {
        case Hardware(m) => HardwareKeepsDelivered(c, p, m, o, data);
        case Cpu(op) => CpuKeepsDelivered(c, p, op, o, data);
      }
      RunKeepsDelivered(c, Happen(c, p, run[0]), run[1..], o, data);
    }
  }

  /** A load through either alias returns the delivered byte. */
  lemma LoadsDelivered(c: Geometry, p: Platform, o: nat, data: seq<byte>,
                        addr: uint64, len: nat, i: nat)
    requires Shaped(c, p.cache) && o + |data| <= SIZE && Delivered(c, p, o, data)
    requires InLine(c, addr, len) && i < len && o <= Phys(addr) + i < o + |data|
    ensures Answer(c, Side(p), Load(addr, len))[i] == data[Phys(addr) + i - o]
  {
    SameLine(c, addr, i);
    assert Names(addr + i, o, |data|);
    LoadFresh(c, Side(p), addr, len, i);
    assert p.sys.at.mem[Phys(addr) + i] == Slice(p.sys.at.mem, o, |data|)[Phys(addr) + i - o];
  }

  lemma DeliveredVisible(c: Geometry, p: Platform, run: seq<Event>, q: Platform, o: nat,
                          data: seq<byte>, addr: uint64, len: nat, i: nat)
    requires Shaped(c, p.cache) && o + |data| <= SIZE && Delivered(c, p, o, data)
    requires PossibleRun(c, p, run) && SparesRun(c, p, run, o, |data|) && q == Later(c, p, run)
    requires InLine(c, addr, len) && i < len && o <= Phys(addr) + i < o + |data|
    ensures Shaped(c, q.cache) && Answer(c, Side(q), Load(addr, len))[i] == data[Phys(addr) + i - o]
  {
    RunKeepsDelivered(c, p, run, o, data);
    LoadsDelivered(c, q, o, data, addr, len, i);
  }

  // ---- End to end ----

  /** What the program does around a transfer: the poll that starts it, a patient run while it
      is under way, the move that clears the start bit. */
  ghost predicate Copies(c: Geometry, p: Platform, during: seq<Event>) {
    && Allowed(p.sys, Poll) && p.sys.regs.ctrl % 2 == 1 && Mapped(p.sys.regs)
    && var p1 := Happen(c, p, Hardware(Poll));
       && PossibleRun(c, p1, during) && PatientRun(c, p1, during)
       && Finishes(Later(c, p1, during).sys, Resume)
  }

  function Ended(c: Geometry, p: Platform, during: seq<Event>): Platform
    requires Allowed(p.sys, Poll) && PossibleRun(c, Happen(c, p, Hardware(Poll)), during)
    requires Allowed(Later(c, Happen(c, p, Hardware(Poll)), during).sys, Resume)
  {
    Happen(c, Later(c, Happen(c, p, Hardware(Poll)), during), Hardware(Resume))
  }

  lemma PollCopyInv(c: Geometry, p: Platform, during: seq<Event>)
    requires TimedInv(p.sys) && DirectBase(p.sys.at.base) && Sound(c, p.cache) && Copies(c, p, during)
    requires Absent(c, p.cache, Dst(p.sys), Length(p.sys))
    ensures var p1 := Happen(c, p, Hardware(Poll));
            CopyInv(c, p1) && p1.sys.regs == p.sys.regs && p1.sys.history.mem0 == p.sys.at.mem
  {
    PollTimed(p.sys);
    PollCopies(p.sys, Footprint(p.sys.regs));
    PollBegins(p.sys, []);
  }

  ghost predicate Ready(c: Geometry, p: Platform) {
    && Running(c, p)
    && Fits(p.sys) && Ascends(Src(p.sys), Dst(p.sys), WordCount(p.sys.regs.size))
    && Absent(c, p.cache, Dst(p.sys), Length(p.sys))
  }

  /** The bytes a transfer is to deliver. */
  function Source(s: System): (data: seq<byte>)
    requires Fits(s)
    ensures |data| == Length(s)
  {
    Slice(s.at.mem, Src(s), Length(s))
  }

  /** In e, the destination of a transfer that began in s holds the old source, and the cache has
      nothing else for it. */
  ghost predicate Arrived(c: Geometry, s: System, e: Platform) {
    Fits(s) && Shaped(c, e.cache) && Delivered(c, e, Dst(s), Source(s))
  }

  lemma TransferDelivered(c: Geometry, p: Platform, during: seq<Event>, e: Platform)
    requires Ready(c, p) && Copies(c, p, during) && e == Ended(c, p, during)
    ensures e.sys.regs.ctrl == 0 && Arrived(c, p.sys, e)
  {
    var p1 := Happen(c, p, Hardware(Poll));
    PollCopyInv(c, p, during);
    RunCopyInv(c, p1, during);
    var p2 := Later(c, p1, during);
    EndDelivers(c, p2);
    LastWord(p2.sys);
  }

  /** End-to-end visibility: if no line of the destination is resident when the transfer
      starts, and until its start bit clears the CPU loads none of them and nothing else
      writes source or destination, then every later CPU load of destination bytes, through
      either alias and after any events that spare the destination, returns the old source
      bytes. */
  lemma {:induction false} TransferVisible(c: Geometry, p: Platform, during: seq<Event>, e: Platform,
                                           then_: seq<Event>, q: Platform, addr: uint64, len: nat, i: nat)
    requires Ready(c, p) && Copies(c, p, during) && e == Ended(c, p, during)
    requires PossibleRun(c, e, then_) && SparesRun(c, e, then_, Dst(p.sys), Length(p.sys)) && q == Later(c, e, then_)
    requires InLine(c, addr, len) && i < len && Dst(p.sys) <= Phys(addr) + i < Dst(p.sys) + Length(p.sys)
    ensures Shaped(c, q.cache)
    ensures Answer(c, Side(q), Load(addr, len))[i] == p.sys.at.mem[Src(p.sys) + (Phys(addr) + i - Dst(p.sys))]
  {
    TransferDelivered(c, p, during, e);
    SourceVisible(c, p.sys, e, then_, q, addr, len, i);
  }

  /** What was the source when the transfer began, in state s, is what loads return after e. */
  lemma {:induction false} SourceVisible(c: Geometry, s: System, e: Platform, run: seq<Event>, q: Platform,
                                         addr: uint64, len: nat, i: nat)
    requires Arrived(c, s, e)
    requires PossibleRun(c, e, run) && SparesRun(c, e, run, Dst(s), Length(s)) && q == Later(c, e, run)
    requires InLine(c, addr, len) && i < len && Dst(s) <= Phys(addr) + i < Dst(s) + Length(s)
    ensures Shaped(c, q.cache)
    ensures Answer(c, Side(q), Load(addr, len))[i] == s.at.mem[Src(s) + (Phys(addr) + i - Dst(s))]
  {
    DeliveredVisible(c, e, run, q, Dst(s), Source(s), addr, len, i);
  }

  /** The same from power-up: after any run, a transfer whose destination is at or below its
      source, or clear of it, and absent from the cache becomes visible. */
  lemma VisibleFromPowerUp(c: Geometry, p0: Platform, before: seq<Event>, p: Platform,
                            during: seq<Event>, e: Platform, then_: seq<Event>, q: Platform,
                            addr: uint64, len: nat, i: nat)
    requires PoweredUp(c, p0) && PossibleRun(c, p0, before) && TameEvents(c, p0, before) && p == Later(c, p0, before)
    requires Shaped(c, p.cache) && Copies(c, p, during) && e == Ended(c, p, during)
    requires Fits(p.sys) && Ascends(Src(p.sys), Dst(p.sys), WordCount(p.sys.regs.size))
    requires Absent(c, p.cache, Dst(p.sys), Length(p.sys))
    requires PossibleRun(c, e, then_) && SparesRun(c, e, then_, Dst(p.sys), Length(p.sys)) && q == Later(c, e, then_)
    requires InLine(c, addr, len) && i < len && Dst(p.sys) <= Phys(addr) + i < Dst(p.sys) + Length(p.sys)
    ensures Shaped(c, q.cache)
    ensures Answer(c, Side(q), Load(addr, len))[i] == p.sys.at.mem[Src(p.sys) + (Phys(addr) + i - Dst(p.sys))]
  {
    PowerUpRuns(c, p0, before);
    TransferVisible(c, p, during, e, then_, q, addr, len, i);
  }
}
