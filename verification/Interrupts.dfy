/** Interrupt transparency over whole runs: a handler that leaves registers and memory as it
    found them and writes neither mstatus nor mepc is invisible to the interrupted program
    (cpu/rv32-lt/core.cpp, cpu/rv32-lt/csr.h; section 3.1.6.1 of the RISC-V Privileged
    specification). */
module Interrupts {
  import opened Isa
  import opened Words
  import opened CsrModel
  import opened Execute
  import opened Cpu
  import ClintModel

  /** A machine with what the proof remembers of it: the program state the handler under way
      interrupted, and how many instructions of the main program have run. */
  datatype Tracked = Tracked(m: Machine, saved: Option<Arch>, mains: nat)

  /** Where the iteration runs: the interrupted state if it enters or is in a handler. */
  function SavedDuring(t: Tracked, env: Env): Option<Arch> {
    if Taken(t.m.csr, env.pending).Some? then Some(t.m.arch) else t.saved
  }

  /** The machine after the interrupt check, and the instruction it fetches. */
  function AfterCheck(t: Tracked, env: Env): Machine { CheckInterrupts(t.m, env.pending) }

  function Fetched(core: Core, t: Tracked, env: Env): bits { core.fetch(AfterCheck(t, env).arch) }

  /** One iteration of the CPU thread; MRET ends a handler. */
  function Track(core: Core, t: Tracked, env: Env): Tracked {
    var saved := SavedDuring(t, env);
    Tracked(Step(core, t.m, env),
            if saved.Some? && IsMret(Fetched(core, t, env)) then None else saved,
            t.mains + (if saved.None? then 1 else 0))
  }

  function TrackRun(core: Core, t: Tracked, run: seq<Env>): Tracked
    decreases |run|
  {
    if run == [] then t else TrackRun(core, Track(core, t, run[0]), run[1..])
  }

  /** The main program by itself. */
  function Plain(core: Core, a: Arch, n: nat): Arch {
    if n == 0 then a else
      var b := Plain(core, a, n - 1);
      core.run(b, core.fetch(b), 0)
  }

  // ---- What is asked of the main program and of the handler ----

  /** The instruction does not depend on what a peripheral returns. */
  ghost predicate NoDevice(core: Core, a: Arch, i: bits) {
    forall d: bits :: core.run(a, i, d) == core.run(a, i, 0)
  }

  /** A CSR instruction that may write mstatus or mepc. */
  predicate WritesTrapState(i: bits) {
    IsSystem(i) && Funct3(i) != 0 && (CsrAddress(i) == MSTATUS || CsrAddress(i) == MEPC)
    && (Funct3(i) == 1 || Funct3(i) == 5 || Rs1(i) != 0)
  }

  /** The next iteration, if it runs the main program, uses no SYSTEM instruction and no
      peripheral; if it runs a handler, it neither stops nor writes the trap state, and MRET
      finds registers and memory as the handler found them. */
  ghost predicate Courteous(core: Core, t: Tracked, env: Env) {
    var m, i, saved := AfterCheck(t, env), Fetched(core, t, env), SavedDuring(t, env);
    match saved
    case None => !IsSystem(i) && NoDevice(core, m.arch, i)
    case Some(a) =>
      if IsMret(i) then m.arch.regs == a.regs && m.arch.mem == a.mem
      else !IsEcall(i) && !WritesTrapState(i)
  }

  ghost predicate CourteousRun(core: Core, t: Tracked, run: seq<Env>)
    decreases |run|
  {
    run == [] || (Courteous(core, t, run[0]) && CourteousRun(core, Track(core, t, run[0]), run[1..]))
  }

  // ---- The invariant ----

  /** Inside a handler: interrupts are off, MPIE remembers they were on, and mepc is the
      interrupted PC. */
  predicate InHandler(c: CsrState, a: Arch) {
    c.mstatus & STATUS_MIE == 0 && c.mstatus & STATUS_MPIE != 0 && c.mepc == a.pc
  }

  /** The main program is where it would be without interrupts. */
  ghost predicate Transparent(core: Core, a: Arch, enabled: bool, t: Tracked) {
    && !t.m.stopped
    && match t.saved
       case None => t.m.arch == Plain(core, a, t.mains) && (t.m.csr.mstatus & STATUS_MIE != 0 <==> enabled)
       case Some(b) => b == Plain(core, a, t.mains) && InHandler(t.m.csr, b) && enabled
  }

  /** With interrupts off none is taken. */
  lemma NoneTaken(c: CsrState, pending: bits)
    requires c.mstatus & STATUS_MIE == 0
    ensures Taken(c, pending) == None
  {
  }

  lemma TakenMeansOn(c: CsrState, pending: bits)
    requires Taken(c, pending).Some?
    ensures c.mstatus & STATUS_MIE != 0
  {
  }

  /** Trap entry establishes the handler's part of the invariant. */
  lemma EntersHandler(m: Machine, pending: bits)
    requires Taken(m.csr, pending).Some?
    ensures InHandler(CheckInterrupts(m, pending).csr, m.arch)
  {
    TakenMeansOn(m.csr, pending);
    TrapThenMret(m.csr.mstatus);
  }

  /** Masking keeps the bits MRET computed. */
  lemma MretEnables(ms: bits)
    requires ms & STATUS_MPIE != 0
    ensures Masked(ms, MretStatus(ms), STATUS_BITS) & STATUS_MIE != 0
  {
  }

  /** MRET in a handler that restored registers and memory restores the interrupted program,
      PC included, and turns interrupts on again. */
  lemma MretRestores(m: Machine, a: Arch)
    requires InHandler(m.csr, a) && m.arch.regs == a.regs && m.arch.mem == a.mem
    ensures Mret(m).arch == a && Mret(m).csr.mstatus & STATUS_MIE != 0 && Mret(m).stopped == m.stopped
  {
    MretEnables(m.csr.mstatus);
  }

  /** Any other courteous SYSTEM instruction keeps the trap state. */
  lemma SystemKeepsTrapState(m: Machine, i: bits)
    requires IsSystem(i) && !IsEcall(i) && !IsMret(i) && !WritesTrapState(i)
    ensures var m' := System(m, i);
            m'.csr.mstatus == m.csr.mstatus && m'.csr.mepc == m.csr.mepc && m'.stopped == m.stopped
  {
  }

  lemma HandlerStep(core: Core, a: Arch, t: Tracked, env: Env, b: Arch)
    requires Courteous(core, t, env) && SavedDuring(t, env) == Some(b) && !t.m.stopped
    requires InHandler(AfterCheck(t, env).csr, b) && b == Plain(core, a, t.mains)
    ensures Transparent(core, a, true, Track(core, t, env))
  {
    var m, i := AfterCheck(t, env), Fetched(core, t, env);
    if IsMret(i) {
      MretRestores(m, b);
    } else if IsSystem(i) {
      SystemKeepsTrapState(m, i);
    }
  }

  lemma MainStep(core: Core, a: Arch, enabled: bool, t: Tracked, env: Env)
    requires Transparent(core, a, enabled, t) && Courteous(core, t, env) && SavedDuring(t, env) == None
    ensures Transparent(core, a, enabled, Track(core, t, env))
  {
    var m, i := AfterCheck(t, env), Fetched(core, t, env);
    assert m.arch == t.m.arch && m.csr.mstatus == t.m.csr.mstatus;
    assert core.run(m.arch, i, env.device) == core.run(m.arch, i, 0);
  }

  lemma TrackTransparent(core: Core, a: Arch, enabled: bool, t: Tracked, env: Env)
    requires Transparent(core, a, enabled, t) && Courteous(core, t, env)
    ensures Transparent(core, a, enabled, Track(core, t, env))
  {
    match SavedDuring(t, env) {
      case None => MainStep(core, a, enabled, t, env);
      case Some(b) =>
        if Taken(t.m.csr, env.pending).Some? {
          NotInHandler(core, a, enabled, t, env);
          EntersHandler(t.m, env.pending);
          TakenMeansOn(t.m.csr, env.pending);
        } else {
          StaysInHandler(t, env);
        }
        HandlerStep(core, a, t, env, b);
    }
  }

  /** No second trap is taken inside a handler. */
  lemma NotInHandler(core: Core, a: Arch, enabled: bool, t: Tracked, env: Env)
    requires Transparent(core, a, enabled, t) && Taken(t.m.csr, env.pending).Some?
    ensures t.saved == None && SavedDuring(t, env) == Some(t.m.arch)
  {
    if t.saved.Some? {
      NoneTaken(t.m.csr, env.pending);
    }
  }

  /** Without a trap the check only records what is pending. */
  lemma StaysInHandler(t: Tracked, env: Env)
    requires Taken(t.m.csr, env.pending) == None
    ensures var m := AfterCheck(t, env);
            m.arch == t.m.arch && m.csr == Synced(t.m.csr, env.pending) && m.stopped == t.m.stopped
  {
  }

  /** Transparency: whatever interrupts arrive, when and how often, after any run of a main
      program and courteous handlers the main program's registers, PC and memory (as
      interrupted, while a handler runs) are those of the same number of its instructions run
      without interrupts; interrupts are on again outside handlers, and inside a handler
      none is taken. */
  lemma {:induction false} RunTransparent(core: Core, a: Arch, enabled: bool, t: Tracked, run: seq<Env>)
    requires Transparent(core, a, enabled, t) && CourteousRun(core, t, run)
    ensures Transparent(core, a, enabled, TrackRun(core, t, run))
    decreases |run|
  {
    if run != [] {
      TrackTransparent(core, a, enabled, t, run[0]);
      RunTransparent(core, a, enabled, Track(core, t, run[0]), run[1..]);
    }
  }

  /** From any running machine: the projection onto the main program is its plain run. */
  lemma MainUnaffected(core: Core, m: Machine, run: seq<Env>)
    requires !m.stopped && CourteousRun(core, Tracked(m, None, 0), run)
    ensures var t := TrackRun(core, Tracked(m, None, 0), run);
            && !t.m.stopped
            && (t.saved == None ==>
                  && t.m.arch == Plain(core, m.arch, t.mains)
                  && (t.m.csr.mstatus & STATUS_MIE != 0 <==> m.csr.mstatus & STATUS_MIE != 0))
            && (t.saved.Some? ==>
                  && t.saved.value == Plain(core, m.arch, t.mains)
                  && t.m.csr.mepc == t.saved.value.pc
                  && forall pending :: Taken(t.m.csr, pending) == None)
  {
    var t0, t := Tracked(m, None, 0), TrackRun(core, Tracked(m, None, 0), run);
    RunTransparent(core, m.arch, m.csr.mstatus & STATUS_MIE != 0, t0, run);
    if t.saved.Some? {
      forall pending
        ensures Taken(t.m.csr, pending) == None
      {
        NoneTaken(t.m.csr, pending);
      }
    }
  }

  // ---- For the simulator's own core ----

  /** The instruction is no load from outside memory. */
  predicate LoadsFromMemory(a: Arch, i: bits) {
    Opcode(i) == OP_LOAD ==> InRam(LoadAddress(a, i), LoadSize(Funct3(i)))
  }

  /** The instruction is no store outside memory, where it could command a peripheral. */
  predicate StoresToMemory(a: Arch, i: bits) {
    Opcode(i) == OP_STORE ==> InRam(StoreAddress(a, i), StoreSize(Funct3(i)))
  }

  lemma LoadInMemory(a: Arch, f3: bits, addr: bits, d: bits)
    requires InRam(addr, LoadSize(f3))
    ensures Loaded(a, f3, addr, d) == Loaded(a, f3, addr, 0)
  {
  }

  lemma LoadNeedsNoDevice(a: Arch, i: bits, d: bits)
    requires InRam(LoadAddress(a, i), LoadSize(Funct3(i)))
    ensures Load(a, i, d) == Load(a, i, 0)
  {
    LoadInMemory(a, Funct3(i), LoadAddress(a, i), d);
  }

  /** A main program whose loads stay in memory meets its part of the contract. */
  lemma MemoryNeedsNoDevice(a: Arch, i: bits)
    requires LoadsFromMemory(a, i)
    ensures NoDevice(RV32I, a, i)
  {
    forall d: bits
      ensures RV32I.run(a, i, d) == RV32I.run(a, i, 0)
    {
      RunNeedsNoDevice(a, i, d);
    }
  }

  lemma RunNeedsNoDevice(a: Arch, i: bits, d: bits)
    requires LoadsFromMemory(a, i)
    ensures Run(a, i, d) == Run(a, i, 0)
  {
    if Opcode(i) == OP_LOAD {
      LoadNeedsNoDevice(a, i, d);
    }
  }

  /** Courteous, with the main program's part as a check on each instruction: it loads from
      memory and stores to memory. */
  predicate Polite(t: Tracked, env: Env) {
    var m, i, saved := AfterCheck(t, env), Fetched(RV32I, t, env), SavedDuring(t, env);
    match saved
    case None => !IsSystem(i) && LoadsFromMemory(m.arch, i) && StoresToMemory(m.arch, i)
    case Some(a) =>
      if IsMret(i) then m.arch.regs == a.regs && m.arch.mem == a.mem
      else !IsEcall(i) && !WritesTrapState(i)
  }

  predicate PoliteRun(t: Tracked, run: seq<Env>)
    decreases |run|
  {
    run == [] || (Polite(t, run[0]) && PoliteRun(Track(RV32I, t, run[0]), run[1..]))
  }

  lemma {:induction false} PoliteIsCourteous(t: Tracked, run: seq<Env>)
    requires PoliteRun(t, run)
    ensures CourteousRun(RV32I, t, run)
    decreases |run|
  {
    if run != [] {
      if SavedDuring(t, run[0]) == None {
        MemoryNeedsNoDevice(AfterCheck(t, run[0]).arch, Fetched(RV32I, t, run[0]));
      }
      PoliteIsCourteous(Track(RV32I, t, run[0]), run[1..]);
    }
  }

  /** Transparency on the simulator's core. */
  lemma ProgramUnaffected(m: Machine, run: seq<Env>)
    requires !m.stopped && PoliteRun(Tracked(m, None, 0), run)
    ensures var t := TrackRun(RV32I, Tracked(m, None, 0), run);
            && !t.m.stopped
            && (if t.saved.Some? then t.saved.value else t.m.arch) == Plain(RV32I, m.arch, t.mains)
            && (t.saved == None ==> (t.m.csr.mstatus & STATUS_MIE != 0 <==> m.csr.mstatus & STATUS_MIE != 0))
  {
    PoliteIsCourteous(Tracked(m, None, 0), run);
    MainUnaffected(RV32I, m, run);
  }

  // ---- The timer ----

  lemma OnlyTimer(p: bits)
    requires p & !0x88 == 0
    ensures !Set(p, 11)
  {
  }

  /** With interrupts on and the timer enabled, the trap the CPU takes n ticks later is the timer's
      if the compare value has been reached by then, and none before. */
  lemma TimerTaken(c: CsrState, s: ClintModel.ClintState, n: nat)
    requires s.msip == 0 && s.mtime < s.mtimecmp && s.mtime + n < TWO64
    requires Set(c.mstatus, 3) && Set(c.mie, 7)
    ensures Taken(c, ClintModel.Pending(ClintModel.Ticks(s, n))) == if n >= s.mtimecmp - s.mtime then Some(7) else None
  {
    var t := ClintModel.Ticks(s, n);
    ClintModel.TicksAdd(s, n);
    ClintModel.PendingBits(t);
    OnlyTimer(ClintModel.Pending(t));
    TakenIs(c, ClintModel.Pending(t));
  }
}
