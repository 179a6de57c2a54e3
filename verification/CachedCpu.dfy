/** A program run through the cache: the CPU's fetches, loads and stores as cache accesses
    (cpu/rv32-lt/core.cpp, cache/cache.cpp), against the same program on flat memory. */
module CachedCpu {
  import opened Isa
  import opened Words
  import opened MemoryModel
  import opened InterconnectModel
  import opened CacheIndex
  import opened CacheOps
  import opened CacheView
  import opened Coherence
  import opened Numbers
  import opened Execute
  import opened Cpu
  import Interrupts

  /** The registers and PC of a hart behind its cache. */
  datatype CachedHart = CachedHart(regs: RegFile, pc: bits, soc: Soc)

  /** The hart as a program on flat memory sees it. */
  function Flat(h: CachedHart): Arch
    requires |h.soc.mem| == SIZE
  {
    Arch(h.regs, h.pc, h.soc.mem)
  }

  /** The value an access through the cache returns. */
  function Returned(c: Geometry, s: Soc, addr: bits, n: nat): bits
    requires ShapedSoc(c, s) && InLine(c, Address(addr), n)
  {
    Word32(LeValue(Answer(c, s, Op.Load(Address(addr), n))))
  }

  /** The cache and memory after a read of n bytes. */
  function AfterRead(c: Geometry, s: Soc, addr: bits, n: nat): (s': Soc)
    requires ShapedSoc(c, s) && InLine(c, Address(addr), n)
    ensures ShapedSoc(c, s')
  {
    Perform(c, s, Op.Load(Address(addr), n))
  }

  function AfterWrite(c: Geometry, s: Soc, addr: bits, bytes: seq<byte>): (s': Soc)
    requires ShapedSoc(c, s) && InLine(c, Address(addr), |bytes|)
    ensures ShapedSoc(c, s')
  {
    Perform(c, s, Op.Store(Address(addr), bytes))
  }

  /** The two ranges of peripherals, which bypass the cache. */
  predicate Peripheral(addr: bits) { Within(SOC_BYPASS, Address(addr)) }

  /** The access is the cache's to make: an illegal function code makes none, and a peripheral's
      passes by. */
  predicate Cached(addr: bits, n: nat) { n > 0 && !Peripheral(addr) }

  predicate LoadInLine(c: Geometry, a: Arch, i: bits) {
    var addr, n := LoadAddress(a, i), LoadSize(Funct3(i));
    Cached(addr, n) ==> InLine(c, Address(addr), n)
  }

  predicate StoreInLine(c: Geometry, a: Arch, i: bits) {
    var addr, n := StoreAddress(a, i), StoreSize(Funct3(i));
    Cached(addr, n) ==> InLine(c, Address(addr), n)
  }

  /** The three kinds of instruction, after the fetch left the cache in state s; d is what a
      peripheral returns. */
  function CachedLoad(c: Geometry, a: Arch, s: Soc, i: bits, d: bits): (h: CachedHart)
    requires ShapedSoc(c, s) && LoadInLine(c, a, i)
    ensures ShapedSoc(c, h.soc)
  {
    var addr, n := LoadAddress(a, i), LoadSize(Funct3(i));
    var (v, s') := if Cached(addr, n) then (Returned(c, s, addr, n), AfterRead(c, s, addr, n)) else (d, s);
    var b := Incremented(WriteBack(a, Rd(i), Extended(Funct3(i), v)));
    CachedHart(b.regs, b.pc, s')
  }

  function CachedStore(c: Geometry, a: Arch, s: Soc, i: bits): (h: CachedHart)
    requires ShapedSoc(c, s) && StoreInLine(c, a, i)
    ensures ShapedSoc(c, h.soc)
  {
    var addr, n := StoreAddress(a, i), StoreSize(Funct3(i));
    var bytes := Bytes(Number(Reg(a, Rs2(i))), n);
    CachedHart(a.regs, Plus(a.pc, 4), if Cached(addr, n) then AfterWrite(c, s, addr, bytes) else s)
  }

  function CachedCompute(a: Arch, s: Soc, i: bits): CachedHart {
    CachedHart(Compute(a, i).regs, Compute(a, i).pc, s)
  }

  /** The instruction's own access lies in one line. */
  predicate AccessInLine(c: Geometry, a: Arch, i: bits) {
    && (Opcode(i) == OP_LOAD ==> LoadInLine(c, a, i))
    && (Opcode(i) == OP_STORE ==> StoreInLine(c, a, i))
  }

  function CachedExecute(c: Geometry, a: Arch, s: Soc, i: bits, d: bits): (h: CachedHart)
    requires ShapedSoc(c, s) && AccessInLine(c, a, i)
    ensures ShapedSoc(c, h.soc)
  {
    if Opcode(i) == OP_LOAD then CachedLoad(c, a, s, i, d)
    else if Opcode(i) == OP_STORE then CachedStore(c, a, s, i)
    else CachedCompute(a, s, i)
  }

  /** One iteration of the CPU thread through the cache; it stays put at an access that is not
      in one line of memory. */
  function CachedStep(c: Geometry, h: CachedHart, d: bits): (h': CachedHart)
    requires ShapedSoc(c, h.soc)
    ensures ShapedSoc(c, h'.soc)
  {
    if !InLine(c, Address(h.pc), 4) then h else
      var i := Returned(c, h.soc, h.pc, 4);
      if AccessInLine(c, Flat(h), i) then CachedExecute(c, Flat(h), AfterRead(c, h.soc, h.pc, 4), i, d) else h
  }

  // ---- What the program is asked for ----

  /** The access lies in one line, and uses each byte through the alias that side gives it. */
  ghost predicate Aligned(c: Geometry, side: nat -> bool, addr: bits, n: nat) {
    InLine(c, Address(addr), n) && OnSide(side, Address(addr), n)
  }

  ghost predicate LoadFits(c: Geometry, side: nat -> bool, a: Arch, i: bits) {
    var addr, n := LoadAddress(a, i), LoadSize(Funct3(i));
    Cached(addr, n) ==> Aligned(c, side, addr, n)
  }

  ghost predicate StoreFits(c: Geometry, side: nat -> bool, a: Arch, i: bits) {
    var addr, n := StoreAddress(a, i), StoreSize(Funct3(i));
    Cached(addr, n) ==> Aligned(c, side, addr, n)
  }

  ghost predicate AccessFits(c: Geometry, side: nat -> bool, a: Arch, i: bits) {
    && (Opcode(i) == OP_LOAD ==> LoadFits(c, side, a, i))
    && (Opcode(i) == OP_STORE ==> StoreFits(c, side, a, i))
  }

  /** No SYSTEM instruction, every access to memory in one line, and each byte through one
      alias. */
  ghost predicate Fits(c: Geometry, side: nat -> bool, a: Arch) {
    var i := FetchWord(a);
    Aligned(c, side, a.pc, 4) && !IsSystem(i) && AccessFits(c, side, a, i)
  }

  // ---- One access ----

  /** The cache agrees with memory on every byte, at the alias the byte is used through. */
  ghost predicate Agrees(c: Geometry, side: nat -> bool, s: Soc) {
    && ShapedSoc(c, s) && Sound(c, s.cache)
    && forall a: uint64 | InMemory(a) && side(Phys(a)) == (a >= HIGH) :: Fresh(c, s, a)
  }

  /** An empty cache does. */
  lemma EmptyAgrees(c: Geometry, side: nat -> bool, s: Soc)
    requires ShapedSoc(c, s) && NothingCached(c, s.cache)
    ensures Agrees(c, side, s)
  {
    EmptyIsCoherent(c, s);
    forall a: uint64 | InMemory(a) && side(Phys(a)) == (a >= HIGH)
      ensures Fresh(c, s, a)
    {
      assert Find(c, s.cache, a) < 0;
    }
  }

  lemma ReadAgrees(c: Geometry, side: nat -> bool, s: Soc, addr: bits, n: nat)
    requires Agrees(c, side, s) && InLine(c, Address(addr), n)
    ensures Agrees(c, side, AfterRead(c, s, addr, n)) && AfterRead(c, s, addr, n).mem == s.mem
  {
    var op := Op.Load(Address(addr), n);
    PerformSound(c, s, op);
    forall a: uint64 | InMemory(a) && side(Phys(a)) == (a >= HIGH)
      ensures Fresh(c, Perform(c, s, op), a)
    {
      PerformFresh(c, s, op, a);
    }
  }

  lemma WriteFresh(c: Geometry, side: nat -> bool, s: Soc, addr: uint64, bytes: seq<byte>, a: uint64)
    requires Agrees(c, side, s) && InLine(c, addr, |bytes|) && OnSide(side, addr, |bytes|)
    requires InMemory(a) && side(Phys(a)) == (a >= HIGH)
    ensures Fresh(c, Perform(c, s, Op.Store(addr, bytes)), a)
  {
    if Phys(addr) <= Phys(a) < Phys(addr) + |bytes| {
      SameSide(side, addr, |bytes|, a);
    }
    PerformFresh(c, s, Op.Store(addr, bytes), a);
  }

  lemma WriteAgrees(c: Geometry, side: nat -> bool, s: Soc, addr: bits, bytes: seq<byte>)
    requires Agrees(c, side, s) && Aligned(c, side, addr, |bytes|)
    ensures Agrees(c, side, AfterWrite(c, s, addr, bytes))
    ensures Phys(Address(addr)) + |bytes| <= SIZE
    ensures AfterWrite(c, s, addr, bytes).mem == Splice(s.mem, Phys(Address(addr)), bytes)
  {
    FitsMemory(c, Address(addr), |bytes|);
    var t := AfterWrite(c, s, addr, bytes);
    PerformSound(c, s, Op.Store(Address(addr), bytes));
    forall a: uint64 | InMemory(a) && side(Phys(a)) == (a >= HIGH)
      ensures Fresh(c, t, a)
    {
      WriteFresh(c, side, s, Address(addr), bytes, a);
    }
  }

  /** A read returns memory's bytes. */
  lemma ReturnsMemory(c: Geometry, side: nat -> bool, s: Soc, addr: bits, n: nat)
    requires Agrees(c, side, s) && Aligned(c, side, addr, n)
    ensures InRam(addr, n) && Answer(c, s, Op.Load(Address(addr), n)) == Slice(s.mem, Phys(Address(addr)), n)
  {
    forall a: uint64 | Address(addr) <= a < Address(addr) + n
      ensures InMemory(a) && Fresh(c, s, a)
    {
      SpanByte(c, side, Address(addr), n, a);
    }
    FreshLoad(c, s, Address(addr), n);
  }

  lemma ReturnsLoaded(c: Geometry, side: nat -> bool, s: Soc, a: Arch, addr: bits, n: nat, d: bits)
    requires Agrees(c, side, s) && Aligned(c, side, addr, n) && a.mem == s.mem
    ensures Returned(c, s, addr, n) == LoadWord(a, addr, n, d)
  {
    ReturnsMemory(c, side, s, addr, n);
  }

  // ---- One instruction ----

  lemma FetchMatches(c: Geometry, side: nat -> bool, h: CachedHart)
    requires Agrees(c, side, h.soc) && Aligned(c, side, h.pc, 4)
    ensures Returned(c, h.soc, h.pc, 4) == FetchWord(Flat(h))
  {
    ReturnsLoaded(c, side, h.soc, Flat(h), h.pc, 4, 0);
  }

  lemma PeripheralIsNotRam(addr: bits, n: nat)
    requires Peripheral(addr)
    ensures !InRam(addr, n)
  {
    if InMemory(Address(addr)) {
      MemoryIsCached(Address(addr));
    }
  }

  lemma UncachedLoad(c: Geometry, s: Soc, a: Arch, i: bits, d: bits)
    requires ShapedSoc(c, s) && a.mem == s.mem && !Cached(LoadAddress(a, i), LoadSize(Funct3(i)))
    ensures CachedLoad(c, a, s, i, d).soc == s && Flat(CachedLoad(c, a, s, i, d)) == Execute.Load(a, i, d)
  {
    var addr, f3 := LoadAddress(a, i), Funct3(i);
    if Peripheral(addr) {
      PeripheralIsNotRam(addr, LoadSize(f3));
    } else {
      assert Extended(f3, LoadWord(a, addr, 0, d)) == None;
    }
  }

  lemma StoresNothing(a: Arch, addr: bits, v: bits, n: nat)
    requires !Cached(addr, n)
    ensures StoreWord(a, addr, v, n) == a
  {
    if Peripheral(addr) {
      PeripheralIsNotRam(addr, n);
    } else if InRam(addr, n) {
      assert Splice(a.mem, Phys(Address(addr)), []) == a.mem;
    }
  }

  lemma UncachedStore(c: Geometry, s: Soc, a: Arch, i: bits)
    requires ShapedSoc(c, s) && a.mem == s.mem && !Cached(StoreAddress(a, i), StoreSize(Funct3(i)))
    ensures CachedStore(c, a, s, i).soc == s && Flat(CachedStore(c, a, s, i)) == Execute.Store(a, i)
  {
    StoresNothing(a, StoreAddress(a, i), Reg(a, Rs2(i)), StoreSize(Funct3(i)));
  }

  lemma OwnLoad(c: Geometry, side: nat -> bool, s: Soc, a: Arch, i: bits, d: bits)
    requires Agrees(c, side, s) && a.mem == s.mem && Cached(LoadAddress(a, i), LoadSize(Funct3(i)))
    requires Aligned(c, side, LoadAddress(a, i), LoadSize(Funct3(i)))
    ensures LoadInLine(c, a, i)
    ensures CachedLoad(c, a, s, i, d).soc == AfterRead(c, s, LoadAddress(a, i), LoadSize(Funct3(i)))
    ensures CachedLoad(c, a, s, i, d).soc.mem == s.mem && Flat(CachedLoad(c, a, s, i, d)) == Execute.Load(a, i, d)
  {
    ReturnsLoaded(c, side, s, a, LoadAddress(a, i), LoadSize(Funct3(i)), d);
  }

  lemma LoadMatches(c: Geometry, side: nat -> bool, s: Soc, a: Arch, i: bits, d: bits)
    requires Agrees(c, side, s) && a.mem == s.mem && LoadFits(c, side, a, i)
    ensures LoadInLine(c, a, i) && Agrees(c, side, CachedLoad(c, a, s, i, d).soc)
    ensures Flat(CachedLoad(c, a, s, i, d)) == Execute.Load(a, i, d)
  {
    var addr, n := LoadAddress(a, i), LoadSize(Funct3(i));
    if Cached(addr, n) {
      OwnLoad(c, side, s, a, i, d);
      ReadAgrees(c, side, s, addr, n);
    } else {
      UncachedLoad(c, s, a, i, d);
    }
  }

  lemma StoreMatches(c: Geometry, side: nat -> bool, s: Soc, a: Arch, i: bits)
    requires Agrees(c, side, s) && a.mem == s.mem && StoreFits(c, side, a, i)
    ensures StoreInLine(c, a, i) && Agrees(c, side, CachedStore(c, a, s, i).soc)
    ensures Flat(CachedStore(c, a, s, i)) == Execute.Store(a, i)
  {
    var addr, n := StoreAddress(a, i), StoreSize(Funct3(i));
    if Cached(addr, n) {
      WriteAgrees(c, side, s, addr, Bytes(Number(Reg(a, Rs2(i))), n));
    } else {
      UncachedStore(c, s, a, i);
    }
  }

  lemma ComputeMatches(a: Arch, s: Soc, i: bits)
    requires |s.mem| == SIZE && a.mem == s.mem && Opcode(i) != OP_STORE
    ensures Flat(CachedCompute(a, s, i)) == Compute(a, i)
  {
  }

  lemma StoreIsCompute(a: Arch, i: bits, d: bits)
    requires Opcode(i) == OP_STORE
    ensures Execute.Run(a, i, d) == Execute.Store(a, i)
  {
  }

  lemma ExecuteMatches(c: Geometry, side: nat -> bool, s: Soc, a: Arch, i: bits, d: bits)
    requires Agrees(c, side, s) && a.mem == s.mem && AccessFits(c, side, a, i)
    ensures AccessInLine(c, a, i) && Agrees(c, side, CachedExecute(c, a, s, i, d).soc)
    ensures Flat(CachedExecute(c, a, s, i, d)) == Execute.Run(a, i, d)
  {
    if Opcode(i) == OP_LOAD {
      LoadMatches(c, side, s, a, i, d);
    } else if Opcode(i) == OP_STORE {
      StoreMatches(c, side, s, a, i);
      StoreIsCompute(a, i, d);
    } else {
      ComputeMatches(a, s, i);
    }
  }

  lemma StepMatches(c: Geometry, side: nat -> bool, h: CachedHart, d: bits)
    requires Agrees(c, side, h.soc) && Fits(c, side, Flat(h))
    ensures Agrees(c, side, CachedStep(c, h, d).soc)
    ensures Flat(CachedStep(c, h, d)) == Execute.Run(Flat(h), FetchWord(Flat(h)), d)
  {
    FetchMatches(c, side, h);
    ReadAgrees(c, side, h.soc, h.pc, 4);
    ExecuteMatches(c, side, AfterRead(c, h.soc, h.pc, 4), Flat(h), FetchWord(Flat(h)), d);
  }

  // ---- Whole programs ----

  /** n steps; input gives what the outside hands to each of them. */
  function Iterate<T>(step: (T, bits) -> T, x: T, input: nat -> bits, n: nat): T
    decreases n
  {
    if n == 0 then x else step(Iterate(step, x, input, n - 1), input(n - 1))
  }

  /** From related states, and where the second machine's fits, a step of both keeps them related. */
  ghost predicate Keeps<S(!new), T(!new)>(f: (S, bits) -> S, g: (T, bits) -> T, r: (S, T) -> bool, fits: T -> bool) {
    forall x, y, d {:trigger r(f(x, d), g(y, d))} | r(x, y) && fits(y) :: r(f(x, d), g(y, d))
  }

  /** Two machines whose single steps keep a relation keep it over whole runs. */
  lemma {:induction false} Lockstep<S(!new), T(!new)>(f: (S, bits) -> S, g: (T, bits) -> T, r: (S, T) -> bool,
                                                      fits: T -> bool, x: S, y: T, input: nat -> bits, n: nat)
    requires Keeps(f, g, r, fits) && r(x, y) && forall k: nat | k < n :: fits(Iterate(g, y, input, k))
    ensures r(Iterate(f, x, input, n), Iterate(g, y, input, n))
    decreases n
  {
    if n > 0 {
      Lockstep(f, g, r, fits, x, y, input, n - 1);
      var d := input(n - 1);
      assert r(f(Iterate(f, x, input, n - 1), d), g(Iterate(g, y, input, n - 1), d));
    }
  }

  /** One instruction on flat memory. */
  function FlatStep(a: Arch, d: bits): Arch { Execute.Run(a, FetchWord(a), d) }

  /** n instructions on flat memory; device gives what a peripheral returns to each of them. */
  function FlatRun(a: Arch, device: nat -> bits, n: nat): Arch { Iterate(FlatStep, a, device, n) }

  /** n instructions through the cache. */
  function CachedRun(c: Geometry, h: CachedHart, device: nat -> bits, n: nat): CachedHart {
    Iterate(Stepper(c), h, device, n)
  }

  function Stepper(c: Geometry): (CachedHart, bits) -> CachedHart {
    (h: CachedHart, d: bits) => if ShapedSoc(c, h.soc) then CachedStep(c, h, d) else h
  }

  /** The first n instructions fit, as the program runs on flat memory. */
  ghost predicate FitsRun(c: Geometry, side: nat -> bool, a: Arch, device: nat -> bits, n: nat) {
    forall k: nat | k < n :: Fits(c, side, FlatRun(a, device, k))
  }

  /** The cached hart stands where the flat program does, and its cache agrees with memory. */
  ghost predicate Matches(c: Geometry, side: nat -> bool, h: CachedHart, a: Arch) {
    Agrees(c, side, h.soc) && Flat(h) == a
  }

  lemma NextMatches(c: Geometry, side: nat -> bool, h: CachedHart, a: Arch, d: bits)
    requires Matches(c, side, h, a) && Fits(c, side, a)
    ensures Matches(c, side, Stepper(c)(h, d), FlatStep(a, d))
  {
    StepMatches(c, side, h, d);
  }

  ghost function Relation(c: Geometry, side: nat -> bool): (CachedHart, Arch) -> bool {
    (h: CachedHart, a: Arch) => Matches(c, side, h, a)
  }

  ghost function Fitting(c: Geometry, side: nat -> bool): Arch -> bool { (a: Arch) => Fits(c, side, a) }

  lemma StepsMatch(c: Geometry, side: nat -> bool)
    ensures Keeps(Stepper(c), FlatStep, Relation(c, side), Fitting(c, side))
  {
    var f, r, fits := Stepper(c), Relation(c, side), Fitting(c, side);
    forall x, y, d {:trigger r(f(x, d), FlatStep(y, d))} | r(x, y) && fits(y)
      ensures r(f(x, d), FlatStep(y, d))
    {
      NextMatches(c, side, x, y, d);
    }
  }

  /** A program whose accesses to memory each lie in one line, and which uses each byte through
      one alias, runs through the cache as it does on flat memory: registers, PC and memory
      after every number of instructions, whatever the peripherals return. Code and data may
      use different aliases. */
  lemma ProgramMatches(c: Geometry, side: nat -> bool, h: CachedHart, a: Arch,
                        device: nat -> bits, n: nat)
    requires Matches(c, side, h, a) && FitsRun(c, side, a, device, n)
    ensures Matches(c, side, CachedRun(c, h, device, n), FlatRun(a, device, n))
  {
    StepsMatch(c, side);
    forall k: nat | k < n
      ensures Fitting(c, side)(Iterate(FlatStep, a, device, k))
    {
      assert Fits(c, side, FlatRun(a, device, k));
    }
    Lockstep(Stepper(c), FlatStep, Relation(c, side), Fitting(c, side), h, a, device, n);
  }

  /** From power-up, with an empty cache, no more is asked. */
  lemma ProgramMatchesFromEmpty(c: Geometry, side: nat -> bool, h: CachedHart,
                                 device: nat -> bits, n: nat)
    requires ShapedSoc(c, h.soc) && NothingCached(c, h.soc.cache) && FitsRun(c, side, Flat(h), device, n)
    ensures Matches(c, side, CachedRun(c, h, device, n), FlatRun(Flat(h), device, n))
  {
    EmptyAgrees(c, side, h.soc);
    ProgramMatches(c, side, h, Flat(h), device, n);
  }

  /** That is the uninterrupted run of the main program, when no peripheral answers. */
  lemma FlatRunIsPlain(a: Arch, device: nat -> bits, n: nat)
    requires forall k :: device(k) == 0
    ensures FlatRun(a, device, n) == Interrupts.Plain(RV32I, a, n)
  {
    forall b: Arch ensures FlatStep(b, 0) == RV32I.run(b, RV32I.fetch(b), 0) {
      SameStep(b);
    }
    PlainRun(RV32I, FlatStep, a, device, n);
  }

  lemma SameStep(a: Arch)
    ensures FlatStep(a, 0) == RV32I.run(a, RV32I.fetch(a), 0)
  {
  }

  lemma {:induction false} PlainRun(core: Core, step: (Arch, bits) -> Arch, a: Arch, device: nat -> bits, n: nat)
    requires forall b: Arch :: step(b, 0) == core.run(b, core.fetch(b), 0)
    requires forall k :: device(k) == 0
    ensures Iterate(step, a, device, n) == Interrupts.Plain(core, a, n)
  {
    if n > 0 {
      PlainRun(core, step, a, device, n - 1);
    }
  }

  // ---- Programs as traces of the cache ----

  /** The operation of the instruction's own access, if the cache makes one. */
  function AccessOps(a: Arch, i: bits): seq<Op> {
    if Opcode(i) == 0x03 && Cached(LoadAddress(a, i), LoadSize(Funct3(i))) then
      [Op.Load(Address(LoadAddress(a, i)), LoadSize(Funct3(i)))]
    else if Opcode(i) == 0x23 && Cached(StoreAddress(a, i), StoreSize(Funct3(i))) then
      [Op.Store(Address(StoreAddress(a, i)), Bytes(Number(Reg(a, Rs2(i))), StoreSize(Funct3(i))))]
    else []
  }

  /** An instruction at the PC that the cache can serve: a fetch, then its own access. */
  function StepOps(c: Geometry, h: CachedHart): seq<Op>
    requires ShapedSoc(c, h.soc)
  {
    if !InLine(c, Address(h.pc), 4) then [] else
      var i := Returned(c, h.soc, h.pc, 4);
      if AccessInLine(c, Flat(h), i) then [Op.Load(Address(h.pc), 4)] + AccessOps(Flat(h), i) else []
  }

  lemma OneOp(c: Geometry, s: Soc, op: Op)
    requires ShapedSoc(c, s) && LegalOp(c, op)
    ensures Coherence.Run(c, s, [op]) == Perform(c, s, op)
  {
    assert [op][..0] == [];
  }

  lemma TwoOps(c: Geometry, s: Soc, op: Op, op': Op)
    requires ShapedSoc(c, s) && LegalOp(c, op) && LegalOp(c, op')
    ensures Coherence.Run(c, s, [op] + [op']) == Perform(c, Perform(c, s, op), op')
  {
    var ops := [op] + [op'];
    assert ops[..1] == [op] && ops[1] == op';
    OneOp(c, s, op);
  }

  lemma AccessIsOps(c: Geometry, a: Arch, s: Soc, i: bits, d: bits)
    requires ShapedSoc(c, s) && AccessInLine(c, a, i)
    ensures LegalOps(c, AccessOps(a, i)) && |AccessOps(a, i)| <= 1
    ensures CachedExecute(c, a, s, i, d).soc
         == if AccessOps(a, i) == [] then s else Perform(c, s, AccessOps(a, i)[0])
  {
  }

  /** A step of the hart leaves cache and memory as its fetch and its access do. */
  lemma StepIsOps(c: Geometry, h: CachedHart, d: bits)
    requires ShapedSoc(c, h.soc)
    ensures LegalOps(c, StepOps(c, h)) && CachedStep(c, h, d).soc == Coherence.Run(c, h.soc, StepOps(c, h))
  {
    if InLine(c, Address(h.pc), 4) {
      var i, fetch := Returned(c, h.soc, h.pc, 4), Op.Load(Address(h.pc), 4);
      if AccessInLine(c, Flat(h), i) {
        AccessIsOps(c, Flat(h), AfterRead(c, h.soc, h.pc, 4), i, d);
        OneOp(c, h.soc, fetch);
        var own := AccessOps(Flat(h), i);
        if own == [] {
          assert [fetch] + own == [fetch];
        } else {
          assert own == [own[0]];
          TwoOps(c, h.soc, fetch, own[0]);
        }
      }
    }
  }

  lemma {:induction false} RunAppended(c: Geometry, s: Soc, ops: seq<Op>, more: seq<Op>)
    requires ShapedSoc(c, s) && LegalOps(c, ops) && LegalOps(c, more)
    ensures Coherence.Run(c, s, ops + more) == Coherence.Run(c, Coherence.Run(c, s, ops), more)
    decreases |more|
  {
    if more == [] {
      assert ops + more == ops;
    } else {
      var n := |more| - 1;
      assert (ops + more)[..|ops + more| - 1] == ops + more[..n] && (ops + more)[|ops + more| - 1] == more[n];
      RunAppended(c, s, ops, more[..n]);
    }
  }

  /** The operations of n instructions. */
  function Trace(c: Geometry, h: CachedHart, device: nat -> bits, n: nat): seq<Op>
    requires ShapedSoc(c, h.soc)
  {
    if n == 0 then []
    else
      var g := CachedRun(c, h, device, n - 1);
      Trace(c, h, device, n - 1) + if ShapedSoc(c, g.soc) then StepOps(c, g) else []
  }

  lemma NextStep(c: Geometry, h: CachedHart, device: nat -> bits, n: nat, g: CachedHart)
    requires ShapedSoc(c, h.soc) && n > 0 && g == CachedRun(c, h, device, n - 1) && ShapedSoc(c, g.soc)
    ensures CachedRun(c, h, device, n) == CachedStep(c, g, device(n - 1))
    ensures Trace(c, h, device, n) == Trace(c, h, device, n - 1) + StepOps(c, g)
  {
  }

  lemma TraceGrows(c: Geometry, s: Soc, g: CachedHart, d: bits, ops: seq<Op>, more: seq<Op>)
    requires ShapedSoc(c, s) && LegalOps(c, ops) && g.soc == Coherence.Run(c, s, ops) && more == StepOps(c, g)
    ensures LegalOps(c, ops + more) && CachedStep(c, g, d).soc == Coherence.Run(c, s, ops + more)
  {
    StepIsOps(c, g, d);
    RunAppended(c, s, ops, more);
  }

  lemma OneMore(c: Geometry, h: CachedHart, device: nat -> bits, n: nat, g: CachedHart, ops: seq<Op>,
                g': CachedHart, ops': seq<Op>)
    requires ShapedSoc(c, h.soc) && n > 0 && g == CachedRun(c, h, device, n - 1) && ops == Trace(c, h, device, n - 1)
    requires g' == CachedRun(c, h, device, n) && ops' == Trace(c, h, device, n)
    requires LegalOps(c, ops) && g.soc == Coherence.Run(c, h.soc, ops)
    ensures LegalOps(c, ops') && g'.soc == Coherence.Run(c, h.soc, ops')
  {
    NextStep(c, h, device, n, g);
    TraceGrows(c, h.soc, g, device(n - 1), ops, StepOps(c, g));
  }

  /** Whatever program runs, cache and memory, as hart g shows them, are those of the sequence of
      its accesses, of which the theorems about staleness and replacement speak. */
  lemma {:induction false} ProgramIsTrace(c: Geometry, h: CachedHart, device: nat -> bits, n: nat,
                                          g: CachedHart, ops: seq<Op>)
    requires ShapedSoc(c, h.soc) && g == CachedRun(c, h, device, n) && ops == Trace(c, h, device, n)
    ensures LegalOps(c, ops) && g.soc == Coherence.Run(c, h.soc, ops)
    decreases n
  {
    if n == 0 {
      assert ops == [];
    } else {
      var g0, ops0 := CachedRun(c, h, device, n - 1), Trace(c, h, device, n - 1);
      ProgramIsTrace(c, h, device, n - 1, g0, ops0);
      OneMore(c, h, device, n, g0, ops0, g, ops);
    }
  }
}
