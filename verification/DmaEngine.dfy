/** The DMA engine as initiator 0 of the protocol: its register-programmed transfer thread
    (periph/dma/dma.cpp) over memory shared with any other initiators and with outside
    writers. */
module DmaEngine {
  import opened Words
  import opened Tlm
  import opened MemoryModel
  import opened InterconnectModel
  import opened WordCopy
  import opened AtProtocol
  import opened AtInvariant
  import opened AtSafety

  datatype Regs = Regs(src: uint64, dst: uint64, size: uint32, ctrl: uint32)

  /** Where the transfer thread is: in its polling wait, or inside a word operation. */
  datatype Stage = Waiting(wake: nat) | Reading | Writing

  /** A record of the transfer under way: when it began, the words copied, the stalls of its
      requests, the refresh windows it met, whether the current one stalled a request, and
      memory at the start. */
  datatype History = History(begin: nat, done: nat, stalls: nat, windows: nat, used: bool, mem0: Ram)

  datatype System = System(at: State, regs: Regs, stage: Stage, offset: uint32, history: History)

  /** Inner: a protocol step that is not the transfer thread's own. Program: a register
      write. Outside: a write that reaches memory over the blocking path. */
  datatype Move =
    | Inner(st: Step)
    | Poll
    | Resume
    | Program(regs: Regs)
    | Outside(mem: Ram)

  const POLL: nat := 10

  predicate Started(r: Regs) { r.ctrl % 2 == 1 }

  /** The address of the next word to read, and of the next to write. */
  function ReadAddr(s: System): uint64 { Wrap64(s.regs.src + s.offset) }

  function WriteAddr(s: System): uint64 { Wrap64(s.regs.dst + s.offset) }

  function Next(s: System): System {
    s.(offset := Wrap32(s.offset + 4), history := s.history.(done := s.history.done + 1))
  }

  /** The loop test at offset 0, after the start bit was seen. */
  function Begin(s: System): System {
    s.(offset := 0, history := History(s.at.now, 0, 0, if s.at.inRefresh then 1 else 0, false, s.at.mem))
  }

  predicate CanIssue(s: State, addr: uint64) {
    |s.inits| > 0 && s.inits[0].pc == Idle && InMemory(addr)
  }

  /** The loop test: read the next word, or clear the start bit and poll again. */
  predicate CanLoop(s: System) {
    s.offset < s.regs.size ==> CanIssue(s.at, ReadAddr(s))
  }

  /** After its final nanosecond the thread drops its transaction. */
  function Dropped(s: System): System
    requires Enabled(s.at, Step.Release(0))
  {
    s.(at := Apply(s.at, Step.Release(0)))
  }

  predicate Allowed(s: System, m: Move) {
    match m
    case Inner(st) =>
      && Enabled(s.at, st)
      && (st.Issue? || st.Release? ==> st.i != 0)
      && (st.Advance? && s.stage.Waiting? ==> st.to <= s.stage.wake)
    case Poll => s.stage == Waiting(s.at.now) && (Started(s.regs) ==> CanLoop(Begin(s)))
    case Resume =>
      && !s.stage.Waiting? && Enabled(s.at, Step.Release(0))
      && if s.stage.Reading? then CanIssue(Dropped(s).at, WriteAddr(s)) else CanLoop(Next(Dropped(s)))
    case Program(_) => true
    case Outside(_) => true
  }

  function Do(s: System, m: Move): System
    requires Allowed(s, m)
  {
    match m
    case Inner(st) => Observed(s.(at := Apply(s.at, st)), st)
    case Poll => if Started(s.regs) then Loop(Begin(s)) else s.(stage := Waiting(s.at.now + POLL))
    case Resume =>
      if s.stage.Reading? then IssueWord(Dropped(s), Write, WriteAddr(s), s.at.inits[0].word).(stage := Writing)
      else Loop(Next(Dropped(s)))
    case Program(regs) => s.(regs := regs)
    case Outside(mem) => s.(at := s.at.(mem := mem))
  }

  /** A refresh window that begins during a transfer is recorded. */
  function Observed(s: System, st: Step): System {
    if st.RefreshBegin? && !s.stage.Waiting? then
      s.(history := s.history.(windows := s.history.windows + 1, used := false))
    else s
  }

  function Loop(s: System): System
    requires CanLoop(s)
  {
    if s.offset < s.regs.size then IssueWord(s, Read, ReadAddr(s), [0, 0, 0, 0]).(stage := Reading)
    else s.(regs := s.regs.(ctrl := 0), stage := Waiting(s.at.now + POLL))
  }

  function IssueWord(s: System, command: Command, addr: uint64, word: Word): System
    requires CanIssue(s.at, addr) && command != Ignore
  {
    var stall := Penalty(s.at);
    s.(at := DoIssue(s.at, 0, command, addr, word),
       history := s.history.(stalls := s.history.stalls + stall, used := s.history.used || stall > 0))
  }

  // ---- Runs ----

  predicate AllowedRun(s: System, run: seq<Move>)
    decreases |run|
  {
    run == [] || (Allowed(s, run[0]) && AllowedRun(Do(s, run[0]), run[1..]))
  }

  function Ran(s: System, run: seq<Move>): System
    requires AllowedRun(s, run)
    decreases |run|
  {
    if run == [] then s else Ran(Do(s, run[0]), run[1..])
  }

  // ---- The thread between its protocol steps ----

  /** n words from a lie inside one alias of memory. */
  predicate Placed(a: uint64, n: nat) {
    InMemory(a) && Phys(a) + 4 * n <= SIZE
  }

  predicate Mapped(r: Regs) {
    Placed(r.src, WordCount(r.size)) && Placed(r.dst, WordCount(r.size))
  }

  /** A transfer of any size whose words, if it has any, lie in memory. */
  predicate Transferable(r: Regs) {
    r.size > 0 ==> Mapped(r)
  }

  lemma PlacedWord(a: uint64, n: nat, k: nat)
    requires Placed(a, n) && k < n
    ensures Wrap64(a + 4 * k) == a + 4 * k && InMemory(a + 4 * k) && Phys(a + 4 * k) == Phys(a) + 4 * k
  {
  }

  /** The thread's program counter, its offset and its word operation. */
  predicate ThreadInv(s: System) {
    && |s.at.inits| > 0
    && match s.stage
       case Waiting(wake) => s.at.inits[0].trans == None && s.at.now <= wake
       case Reading => InWord(s) && s.at.inits[0].command == Read && s.at.inits[0].addr == ReadAddr(s)
       case Writing => InWord(s) && s.at.inits[0].command == Write && s.at.inits[0].addr == WriteAddr(s)
  }

  predicate InWord(s: System)
    requires |s.at.inits| > 0
  {
    && s.at.inits[0].trans.Some?
    && s.offset == 4 * s.history.done < s.regs.size
    && Mapped(s.regs)
  }

  ghost predicate SysInv(s: System) {
    Inv(s.at) && ThreadInv(s)
  }

  /** The register file asks for a transfer inside memory, if any, and is left alone while
      one is under way. */
  predicate Tame(s: System, m: Move) {
    && (m.Program? ==> s.stage.Waiting?)
    && (m.Poll? && s.regs.ctrl % 2 == 1 ==> Transferable(s.regs))
  }

  /** Memory's contents are not part of the protocol's invariant. */
  lemma MemoryInv(s: State, mem: Ram)
    requires Inv(s)
    ensures Inv(s.(mem := mem))
  {
    var s' := s.(mem := mem);
    forall i: nat | i < |s'.inits|
      ensures OwnerOk(s', i)
    {
      assert OwnerOk(s, i);
    }
    forall e | e in s'.peq
      ensures EntryOk(s', e)
    {
      assert EntryOk(s, e);
    }
    forall p: nat | p < |s'.payloads|
      ensures p in s'.pool || Held(s', p)
    {
      assert p in s.pool || Held(s, p);
    }
  }

  // ---- Preservation ----

  lemma InnerInv(s: System, st: Step)
    requires SysInv(s) && Allowed(s, Inner(st))
    ensures SysInv(Do(s, Inner(st)))
  {
    StepInv(s.at, st);
    InnerThread(s, st);
  }

  lemma InnerThread(s: System, st: Step)
    requires SysInv(s) && Allowed(s, Inner(st))
    ensures ThreadInv(Do(s, Inner(st)))
  {
    InnerKeepsOperation(s.at, st, 0);
  }

  /** The thread is between two word operations. */
  ghost predicate Free(s: System) {
    Inv(s.at) && |s.at.inits| > 0 && s.at.inits[0].trans == None
  }

  lemma DroppedFree(s: System)
    requires SysInv(s) && !s.stage.Waiting? && Enabled(s.at, Step.Release(0))
    ensures Free(Dropped(s)) && Dropped(s).at.now == s.at.now && Dropped(s).at.mem == s.at.mem
    ensures Dropped(s) == s.(at := Dropped(s).at)
    ensures Dropped(s).at.inRefresh == s.at.inRefresh && Dropped(s).at.refreshStart == s.at.refreshStart
    ensures Dropped(s).at.refreshWake == s.at.refreshWake && Dropped(s).at.base == s.at.base
    ensures Dropped(s).at.inits[0].word == s.at.inits[0].word
  {
    ReleaseIsLast(s.at, 0);
    ReleaseInv(s.at, 0);
  }

  /** A word operation under way, right after its issue. */
  lemma IssuedWord(s: System, command: Command, addr: uint64, word: Word)
    requires Free(s) && CanIssue(s.at, addr) && command != Ignore
    ensures var s' := IssueWord(s, command, addr, word);
            && Inv(s'.at) && |s'.at.inits| > 0
            && s'.at.inits[0].trans.Some? && s'.at.inits[0].command == command && s'.at.inits[0].addr == addr
            && s'.at.inits[0].issued == s.at.now && s'.at.inits[0].stall == Penalty(s.at)
            && s'.at.now == s.at.now && s'.at.mem == s.at.mem && s'.at.base == s.at.base
            && s'.at.inRefresh == s.at.inRefresh && s'.at.refreshStart == s.at.refreshStart
            && s'.at.refreshWake == s.at.refreshWake
  {
    StepInv(s.at, Step.Issue(0, command, addr, word));
  }

  lemma LoopInv(s: System)
    requires Free(s) && CanLoop(s) && Transferable(s.regs) && s.offset == 4 * s.history.done
    ensures SysInv(Loop(s))
  {
    if s.offset < s.regs.size {
      IssuedWord(s, Read, ReadAddr(s), [0, 0, 0, 0]);
    }
  }

  lemma PollInv(s: System)
    requires SysInv(s) && Allowed(s, Poll) && Tame(s, Poll)
    ensures SysInv(Do(s, Poll))
  {
    if Started(s.regs) {
      LoopInv(Begin(s));
    }
  }

  lemma NextOffset(s: System)
    requires ThreadInv(s) && !s.stage.Waiting?
    ensures Next(s).offset == 4 * Next(s).history.done
  {
    WrapSmall(s.offset + 4);
  }

  lemma ResumeInv(s: System)
    requires SysInv(s) && Allowed(s, Resume)
    ensures SysInv(Do(s, Resume))
  {
    if s.stage.Reading? {
      ReadResumeInv(s);
    } else {
      WriteResumeInv(s);
    }
  }

  lemma ReadResumeInv(s: System)
    requires SysInv(s) && Allowed(s, Resume) && s.stage.Reading?
    ensures SysInv(Do(s, Resume))
  {
    DroppedFree(s);
    WriteIssued(Dropped(s), WriteAddr(s), s.at.inits[0].word);
  }

  /** Between its read and its write. */
  lemma WriteIssued(s: System, addr: uint64, word: Word)
    requires Free(s) && CanIssue(s.at, addr) && addr == WriteAddr(s)
    requires Mapped(s.regs) && s.offset == 4 * s.history.done < s.regs.size
    ensures SysInv(IssueWord(s, Write, addr, word).(stage := Writing))
  {
    IssuedWord(s, Write, addr, word);
  }

  lemma WriteResumeInv(s: System)
    requires SysInv(s) && Allowed(s, Resume) && s.stage.Writing?
    ensures SysInv(Do(s, Resume))
  {
    DroppedFree(s);
    NextOffset(s);
    LoopInv(Next(Dropped(s)));
  }

  lemma MoveInv(s: System, m: Move)
    requires SysInv(s) && Allowed(s, m) && Tame(s, m)
    ensures SysInv(Do(s, m))
  {
    match m {
      case Inner(st) => InnerInv(s, st);
      case Poll => PollInv(s);
      case Resume => ResumeInv(s);
      case Program(_) =>
      case Outside(mem) => MemoryInv(s.at, mem);
    }
  }
}
