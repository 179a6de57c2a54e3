/** Runs of the cache over memory with a foreign writer: when a cached byte may be
    stale, and that without foreign writes the cache refines flat memory. */
module Coherence {
  import opened Words
  import opened Tlm
  import opened MemoryModel
  import opened InterconnectModel
  import opened CacheIndex
  import opened CacheOps
  import opened CacheView
  import CacheModel

  /** A CPU load or store through the cache, or a write that reaches memory beside it. */
  datatype Op =
    | Load(addr: uint64, len: nat)
    | Store(addr: uint64, bytes: seq<byte>)
    | Foreign(offset: nat, data: seq<byte>)

  predicate LegalOp(c: Geometry, op: Op) {
    match op
    case Load(addr, len) => InLine(c, addr, len)
    case Store(addr, bytes) => InLine(c, addr, |bytes|)
    case Foreign(offset, data) => offset + |data| <= SIZE
  }

  predicate LegalOps(c: Geometry, ops: seq<Op>) {
    forall op | op in ops :: LegalOp(c, op)
  }

  datatype Soc = Soc(cache: CacheState, mem: seq<byte>)

  predicate ShapedSoc(c: Geometry, s: Soc) {
    Shaped(c, s.cache) && |s.mem| == SIZE
  }

  function Perform(c: Geometry, s: Soc, op: Op): (s': Soc)
    requires ShapedSoc(c, s) && LegalOp(c, op)
    ensures ShapedSoc(c, s')
  {
    match op
    case Load(addr, len) => s.(cache := ReadStep(c, s.cache, s.mem, addr).0)
    case Store(addr, bytes) => Soc(WriteStep(c, s.cache, addr, bytes), WriteThrough(c, s.mem, addr, bytes))
    case Foreign(offset, data) => s.(mem := Splice(s.mem, offset, data))
  }

  /** What the CPU sees of an operation. */
  function Answer(c: Geometry, s: Soc, op: Op): seq<byte>
    requires ShapedSoc(c, s) && LegalOp(c, op)
  {
    if op.Load? then ReadData(c, s.cache, s.mem, op.addr, op.len) else []
  }

  function Run(c: Geometry, s: Soc, ops: seq<Op>): (s': Soc)
    requires ShapedSoc(c, s) && LegalOps(c, ops)
    ensures ShapedSoc(c, s')
  {
    if ops == [] then s else Perform(c, Run(c, s, ops[..|ops| - 1]), ops[|ops| - 1])
  }

  /** What the module's own access path computes is this: state, memory and the bytes
      returned. */
  lemma ModulePerforms(c: Geometry, s: Soc, q: Request, buf: seq<byte>)
    requires ShapedSoc(c, s) && InLine(c, q.address, q.length) && q.length <= |buf| && q.command != Ignore
    ensures var op := if q.command == Read then Load(q.address, q.length) else Store(q.address, buf[..q.length]);
            && LegalOp(c, op)
            && CacheModel.Served(c, s.cache, s.mem, q, buf)
               == (Perform(c, s, op).cache, Perform(c, s, op).mem,
                   if q.command == Read then Answer(c, s, op) + buf[q.length..] else buf)
  {
  }

  /** Every resident byte is memory's. An empty cache is coherent. */
  ghost predicate Coherent(c: Geometry, s: Soc)
    requires ShapedSoc(c, s)
  {
    forall a: uint64 | InMemory(a) :: Byte(c, s.cache, a).Some? ==> Byte(c, s.cache, a).value == s.mem[Phys(a)]
  }

  /** No line is valid, as after power-up. */
  ghost predicate NothingCached(c: Geometry, k: CacheState)
    requires Shaped(c, k)
  {
    forall i, w | 0 <= i < |k.sets| && 0 <= w < c.ways :: !k.sets[i][w].valid
  }

  lemma EmptyIsCoherent(c: Geometry, s: Soc)
    requires ShapedSoc(c, s) && NothingCached(c, s.cache)
    ensures Sound(c, s.cache) && Coherent(c, s)
  {
  }

  /** Byte a was written beside its line, by DMA or through the other alias, since the
      later of its line's last fill and the last CPU write to a itself. */
  ghost predicate Stale(c: Geometry, s: Soc, ops: seq<Op>, a: uint64)
    requires ShapedSoc(c, s) && LegalOps(c, ops) && InMemory(a)
  {
    if ops == [] then false else
      var before := ops[..|ops| - 1];
      match ops[|ops| - 1]
      case Load(addr, len) =>
        if Find(c, Run(c, s, before).cache, addr) < 0 && Block(c, a) == Block(c, addr) then false
        else Stale(c, s, before, a)
      case Store(addr, bytes) =>
        if addr <= a < addr + |bytes| then false
        else Phys(addr) <= Phys(a) < Phys(addr) + |bytes| || Stale(c, s, before, a)
      case Foreign(offset, data) =>
        offset <= Phys(a) < offset + |data| || Stale(c, s, before, a)
  }

  lemma {:induction false} RunSound(c: Geometry, s: Soc, ops: seq<Op>)
    requires ShapedSoc(c, s) && Sound(c, s.cache) && LegalOps(c, ops)
    ensures Sound(c, Run(c, s, ops).cache)
  {
    if ops != [] {
      RunSound(c, s, ops[..|ops| - 1]);
      PerformSound(c, Run(c, s, ops[..|ops| - 1]), ops[|ops| - 1]);
    }
  }

  lemma PerformSound(c: Geometry, s: Soc, op: Op)
    requires ShapedSoc(c, s) && Sound(c, s.cache) && LegalOp(c, op)
    ensures Sound(c, Perform(c, s, op).cache)
  {
    match op {
      case Load(addr, len) => ReadView(c, s.cache, s.mem, addr, 0);
      case Store(addr, bytes) => WriteView(c, s.cache, addr, bytes, 0);
      case Foreign(_, _) =>
    }
  }

  /** Byte a is absent from the cache or agrees with memory. */
  predicate Fresh(c: Geometry, s: Soc, a: uint64)
    requires ShapedSoc(c, s) && InMemory(a)
  {
    var b := Byte(c, s.cache, a);
    b == None || b == Some(s.mem[Phys(a)])
  }

  /** Only a write beside the line can make a fresh byte differ. */
  lemma PerformFresh(c: Geometry, s: Soc, op: Op, a: uint64)
    requires ShapedSoc(c, s) && Sound(c, s.cache) && LegalOp(c, op) && InMemory(a)
    requires match op
             case Load(addr, _) => Fresh(c, s, a) || (Find(c, s.cache, addr) < 0 && Block(c, a) == Block(c, addr))
             case Store(addr, bytes) =>
               addr <= a < addr + |bytes| || (Fresh(c, s, a) && !(Phys(addr) <= Phys(a) < Phys(addr) + |bytes|))
             case Foreign(offset, data) => Fresh(c, s, a) && !(offset <= Phys(a) < offset + |data|)
    ensures Fresh(c, Perform(c, s, op), a)
  {
    match op {
      case Load(addr, len) =>
        ReadView(c, s.cache, s.mem, addr, a);
      case Store(addr, bytes) =>
        WriteView(c, s.cache, addr, bytes, a);
        FitsMemory(c, addr, |bytes|);
        if addr <= a < addr + |bytes| {
          WrittenOffset(c, addr, |bytes|, a);
        }
      case Foreign(offset, data) =>
    }
  }

  /** The converse: a write beside the line that puts another byte into memory leaves the
      resident copy of a different from memory. */
  lemma BesideWriteShows(c: Geometry, s: Soc, op: Op, a: uint64)
    requires ShapedSoc(c, s) && Sound(c, s.cache) && LegalOp(c, op) && InMemory(a) && Byte(c, s.cache, a).Some?
    requires match op
             case Load(_, _) => false
             case Store(addr, bytes) =>
               && !(addr <= a < addr + |bytes|) && Phys(addr) <= Phys(a) < Phys(addr) + |bytes|
               && bytes[Phys(a) - Phys(addr)] != Byte(c, s.cache, a).value
             case Foreign(offset, data) =>
               offset <= Phys(a) < offset + |data| && data[Phys(a) - offset] != Byte(c, s.cache, a).value
    ensures !Fresh(c, Perform(c, s, op), a)
  {
    if op.Store? {
      WriteView(c, s.cache, op.addr, op.bytes, a);
      FitsMemory(c, op.addr, |op.bytes|);
    }
  }

  lemma WrittenOffset(c: Geometry, addr: uint64, len: nat, a: uint64)
    requires InLine(c, addr, len) && addr <= a < addr + len
    ensures InMemory(a) && Phys(a) - Phys(addr) == a - addr
  {
    SameLine(c, addr, a - addr);
  }

  /** For every interleaving of CPU accesses through both aliases with foreign writes: a
      resident byte differs from memory only if it is stale. */
  lemma {:induction false} StalenessBound(c: Geometry, s: Soc, ops: seq<Op>, a: uint64)
    requires ShapedSoc(c, s) && Sound(c, s.cache) && Coherent(c, s) && LegalOps(c, ops) && InMemory(a)
    ensures Stale(c, s, ops, a) || Fresh(c, Run(c, s, ops), a)
  {
    if ops != [] && !Stale(c, s, ops, a) {
      var before, op := ops[..|ops| - 1], ops[|ops| - 1];
      StalenessBound(c, s, before, a);
      RunSound(c, s, before);
      PerformFresh(c, Run(c, s, before), op, a);
    }
  }

  /** Every byte a load returns is memory's, unless it is stale when the load starts. */
  lemma LoadsFresh(c: Geometry, s: Soc, ops: seq<Op>, addr: uint64, len: nat, i: nat)
    requires ShapedSoc(c, s) && Sound(c, s.cache) && Coherent(c, s) && LegalOps(c, ops)
    requires InLine(c, addr, len) && i < len && InMemory(addr + i) && !Stale(c, s, ops, addr + i)
    ensures Phys(addr + i) == Phys(addr) + i
    ensures Answer(c, Run(c, s, ops), Load(addr, len))[i] == Run(c, s, ops).mem[Phys(addr) + i]
  {
    var t := Run(c, s, ops);
    StalenessBound(c, s, ops, addr + i);
    RunSound(c, s, ops);
    LoadFresh(c, t, addr, len, i);
  }

  lemma LoadFresh(c: Geometry, s: Soc, addr: uint64, len: nat, i: nat)
    requires ShapedSoc(c, s) && Sound(c, s.cache)
    requires InLine(c, addr, len) && i < len && InMemory(addr + i) && Fresh(c, s, addr + i)
    ensures Phys(addr + i) == Phys(addr) + i
    ensures Answer(c, s, Load(addr, len))[i] == s.mem[Phys(addr) + i]
  {
    SameLine(c, addr, i);
    ReadFresh(c, s, addr, addr + i);
    ReadReturns(c, s.cache, s.mem, addr, len, i);
  }

  lemma ReadFresh(c: Geometry, s: Soc, addr: uint64, a: uint64)
    requires ShapedSoc(c, s) && Sound(c, s.cache) && InMemory(addr) && InMemory(a)
    requires Block(c, a) == Block(c, addr) && Fresh(c, s, a)
    ensures Byte(c, ReadStep(c, s.cache, s.mem, addr).0, a) in {None, Some(s.mem[Phys(a)])}
  {
    ReadView(c, s.cache, s.mem, addr, a);
  }

  // ---- One alias per byte, no foreign writer ----

  /** The bytes of memory a CPU access covers. */
  function Span(op: Op): nat {
    match op
    case Load(_, len) => len
    case Store(_, bytes) => |bytes|
    case Foreign(_, data) => |data|
  }

  /** Every byte at o is used through the alias that side assigns to it. */
  ghost predicate OnSide(side: nat -> bool, addr: uint64, len: nat) {
    forall k | Phys(addr) <= k < Phys(addr) + len :: side(k) == (addr >= HIGH)
  }

  /** All operations are CPU accesses, and none uses a byte through its other alias. */
  ghost predicate OneAliasPerByte(side: nat -> bool, ops: seq<Op>) {
    forall op | op in ops :: !op.Foreign? && OnSide(side, op.addr, Span(op))
  }

  lemma SameSide(side: nat -> bool, addr: uint64, len: nat, a: uint64)
    requires InMemory(a) && InMemory(addr) && OnSide(side, addr, len) && side(Phys(a)) == (a >= HIGH)
    requires Phys(addr) <= Phys(a) < Phys(addr) + len
    ensures addr <= a < addr + len
  {
  }

  lemma {:induction false} NeverStale(c: Geometry, s: Soc, ops: seq<Op>, side: nat -> bool, a: uint64)
    requires ShapedSoc(c, s) && LegalOps(c, ops) && OneAliasPerByte(side, ops)
    requires InMemory(a) && side(Phys(a)) == (a >= HIGH)
    ensures !Stale(c, s, ops, a)
  {
    if ops != [] {
      var op := ops[|ops| - 1];
      NeverStale(c, s, ops[..|ops| - 1], side, a);
      assert op in ops;
      if op.Store? && Phys(op.addr) <= Phys(a) < Phys(op.addr) + |op.bytes| {
        SameSide(side, op.addr, |op.bytes|, a);
      }
    }
  }

  /** Flat memory: what the cache is meant to be a faster form of. */
  function FlatPerform(c: Geometry, mem: seq<byte>, op: Op): (mem': seq<byte>)
    requires |mem| == SIZE && LegalOp(c, op)
    ensures |mem'| == SIZE
  {
    match op
    case Load(_, _) => mem
    case Store(addr, bytes) => FitsMemory(c, addr, |bytes|); Splice(mem, Phys(addr), bytes)
    case Foreign(offset, data) => Splice(mem, offset, data)
  }

  function FlatAnswer(c: Geometry, mem: seq<byte>, op: Op): seq<byte>
    requires |mem| == SIZE && LegalOp(c, op)
  {
    if op.Load? then FitsMemory(c, op.addr, op.len); Slice(mem, Phys(op.addr), op.len) else []
  }

  function FlatRun(c: Geometry, mem: seq<byte>, ops: seq<Op>): (mem': seq<byte>)
    requires |mem| == SIZE && LegalOps(c, ops)
    ensures |mem'| == SIZE
  {
    if ops == [] then mem else FlatPerform(c, FlatRun(c, mem, ops[..|ops| - 1]), ops[|ops| - 1])
  }

  function FlatAnswers(c: Geometry, mem: seq<byte>, ops: seq<Op>): seq<seq<byte>>
    requires |mem| == SIZE && LegalOps(c, ops)
  {
    if ops == [] then [] else
      var before := ops[..|ops| - 1];
      FlatAnswers(c, mem, before) + [FlatAnswer(c, FlatRun(c, mem, before), ops[|ops| - 1])]
  }

  function Answers(c: Geometry, s: Soc, ops: seq<Op>): seq<seq<byte>>
    requires ShapedSoc(c, s) && LegalOps(c, ops)
  {
    if ops == [] then [] else
      var before := ops[..|ops| - 1];
      Answers(c, s, before) + [Answer(c, Run(c, s, before), ops[|ops| - 1])]
  }

  /** The bytes of a load are fresh. */
  ghost predicate FreshSpan(c: Geometry, s: Soc, addr: uint64, len: nat)
    requires ShapedSoc(c, s)
  {
    forall a: uint64 | addr <= a < addr + len :: InMemory(a) && Fresh(c, s, a)
  }

  lemma FreshByte(c: Geometry, s: Soc, addr: uint64, len: nat, i: nat)
    requires ShapedSoc(c, s) && Sound(c, s.cache) && InLine(c, addr, len) && FreshSpan(c, s, addr, len) && i < len
    ensures Phys(addr) + i < SIZE && Answer(c, s, Load(addr, len))[i] == s.mem[Phys(addr) + i]
  {
    SameLine(c, addr, i);
    LoadFresh(c, s, addr, len, i);
  }

  lemma FreshLoad(c: Geometry, s: Soc, addr: uint64, len: nat)
    requires ShapedSoc(c, s) && Sound(c, s.cache) && InLine(c, addr, len) && FreshSpan(c, s, addr, len)
    ensures Phys(addr) + len <= SIZE
    ensures Answer(c, s, Load(addr, len)) == Slice(s.mem, Phys(addr), len)
  {
    FitsMemory(c, addr, len);
    var got, o := Answer(c, s, Load(addr, len)), Phys(addr);
    forall i: nat | i < len
      ensures got[i] == s.mem[o + i]
    {
      FreshByte(c, s, addr, len, i);
    }
    SliceOf(s.mem, o, len, got);
  }

  lemma SliceOf(mem: seq<byte>, o: nat, len: nat, got: seq<byte>)
    requires o + len <= |mem| && |got| == len && forall i: nat | i < len :: got[i] == mem[o + i]
    ensures got == Slice(mem, o, len)
  {
  }

  lemma SpanByte(c: Geometry, side: nat -> bool, addr: uint64, len: nat, a: uint64)
    requires InLine(c, addr, len) && OnSide(side, addr, len) && addr <= a < addr + len
    ensures InMemory(a) && side(Phys(a)) == (a >= HIGH)
  {
    SameLine(c, addr, a - addr);
    LineInAlias(c, addr);
  }

  lemma SpanFresh(c: Geometry, s: Soc, ops: seq<Op>, side: nat -> bool, addr: uint64, len: nat)
    requires ShapedSoc(c, s) && Sound(c, s.cache) && Coherent(c, s) && LegalOps(c, ops) && OneAliasPerByte(side, ops)
    requires InLine(c, addr, len) && OnSide(side, addr, len)
    ensures FreshSpan(c, Run(c, s, ops), addr, len)
  {
    var t := Run(c, s, ops);
    forall a: uint64 | addr <= a < addr + len
      ensures InMemory(a) && Fresh(c, t, a)
    {
      SpanByte(c, side, addr, len, a);
      NeverStale(c, s, ops, side, a);
      StalenessBound(c, s, ops, a);
    }
  }

  lemma AnswerMatches(c: Geometry, s: Soc, ops: seq<Op>, side: nat -> bool, op: Op)
    requires ShapedSoc(c, s) && Sound(c, s.cache) && Coherent(c, s) && LegalOps(c, ops) && OneAliasPerByte(side, ops)
    requires LegalOp(c, op) && !op.Foreign? && OnSide(side, op.addr, Span(op))
    ensures Answer(c, Run(c, s, ops), op) == FlatAnswer(c, Run(c, s, ops).mem, op)
  {
    if op.Load? {
      SpanFresh(c, s, ops, side, op.addr, op.len);
      RunSound(c, s, ops);
      FreshLoad(c, Run(c, s, ops), op.addr, op.len);
    }
  }

  /** The cache refines flat memory: for every sequence of in-line accesses that uses each byte
      through one alias, all answers and the final memory are those of flat memory. */
  lemma {:induction false} RefinesFlatMemory(c: Geometry, s: Soc, ops: seq<Op>, side: nat -> bool)
    requires ShapedSoc(c, s) && Sound(c, s.cache) && Coherent(c, s) && LegalOps(c, ops) && OneAliasPerByte(side, ops)
    ensures Run(c, s, ops).mem == FlatRun(c, s.mem, ops)
    ensures Answers(c, s, ops) == FlatAnswers(c, s.mem, ops)
  {
    if ops != [] {
      var before, op := ops[..|ops| - 1], ops[|ops| - 1];
      RefinesFlatMemory(c, s, before, side);
      assert op in ops;
      AnswerMatches(c, s, before, side, op);
    }
  }

  /** All operations are CPU accesses through the given alias. */
  predicate ThroughAlias(high: bool, ops: seq<Op>) {
    forall op | op in ops :: !op.Foreign? && (op.addr >= HIGH <==> high)
  }

  /** In particular so do the accesses through one alias. */
  lemma OneAliasRefines(c: Geometry, s: Soc, ops: seq<Op>, high: bool)
    requires ShapedSoc(c, s) && Sound(c, s.cache) && Coherent(c, s) && LegalOps(c, ops) && ThroughAlias(high, ops)
    ensures Run(c, s, ops).mem == FlatRun(c, s.mem, ops) && Answers(c, s, ops) == FlatAnswers(c, s.mem, ops)
  {
    RefinesFlatMemory(c, s, ops, (k: nat) => high);
  }
}
