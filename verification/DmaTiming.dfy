/** How long a transfer takes: exactly 42 ns per word plus its stalls; each refresh window
    stalls one of its requests at most. */
module DmaTiming {
  import opened Words
  import opened Tlm
  import opened MemoryModel
  import opened InterconnectModel
  import opened WordCopy
  import opened AtProtocol
  import opened AtInvariant
  import opened AtSafety
  import opened AtTermination
  import opened DmaEngine

  /** A read and a write, each two latencies and the final nanosecond. */
  const WORD_TIME: nat := 42

  function StallEnd(ini: Initiator): nat { ini.issued + ini.stall }

  /** The operation under way left at the time the copied words and the stalls account for. */
  predicate Clocked(s: System)
    requires |s.at.inits| > 0
  {
    var h, t := s.history, StallEnd(s.at.inits[0]);
    match s.stage
    case Waiting(_) => true
    case Reading => t == h.begin + WORD_TIME * h.done + h.stalls
    case Writing => t == h.begin + WORD_TIME * h.done + 21 + h.stalls
  }

  /** The stalls so far fit the windows met so far, of which the current one counts only
      once it was used; windows are a refresh period apart. `t` is a time by which a stall
      in the current window had ended. */
  predicate WindowsOk(h: History, a: State, t: nat) {
    && h.begin <= a.now
    && (a.inRefresh ==> h.windows >= 1)
    && h.stalls <= T_RFC * h.windows
    && (a.inRefresh && !h.used ==> h.stalls <= T_RFC * (h.windows - 1))
    && (h.used ==> h.windows >= 1 && t >= a.refreshStart + T_RFC)
    && (h.windows >= 1 ==> a.refreshStart + T_RFC >= h.begin + (T_REFI + T_RFC) * (h.windows - 1))
    && (h.windows >= 1 && !a.inRefresh ==> a.refreshWake == a.refreshStart + T_RFC + T_REFI)
  }

  ghost predicate TimedInv(s: System) {
    && SysInv(s) && Clocked(s)
    && (!s.stage.Waiting? ==> WindowsOk(s.history, s.at, StallEnd(s.at.inits[0])))
  }

  /** The thread between two words, at the time accounted for. */
  ghost predicate OnTime(s: System) {
    && Free(s) && s.at.now == s.history.begin + WORD_TIME * s.history.done + s.history.stalls
    && WindowsOk(s.history, s.at, s.at.now)
  }

  /** A request stalled by the current window cannot be stalled by it again. */
  lemma IssueStalls(h: History, a: State, h': History, a': State, stall: nat)
    requires WindowsOk(h, a, a.now) && a.refreshStart <= a.now
    requires stall == RefreshPenalty(a.inRefresh, a.refreshStart, a.now)
    requires h' == h.(stalls := h.stalls + stall, used := h.used || stall > 0)
    requires a'.now == a.now && a'.inRefresh == a.inRefresh
    requires a'.refreshStart == a.refreshStart && a'.refreshWake == a.refreshWake
    ensures h.used ==> stall == 0
    ensures WindowsOk(h', a', a.now + stall)
  {
  }

  lemma IssueTimed(s: System, command: Command, addr: uint64, word: Word)
    requires Free(s) && CanIssue(s.at, addr) && command != Ignore && WindowsOk(s.history, s.at, s.at.now)
    ensures var s' := IssueWord(s, command, addr, word);
            && StallEnd(s'.at.inits[0]) == s.at.now + (s'.history.stalls - s.history.stalls)
            && WindowsOk(s'.history, s'.at, StallEnd(s'.at.inits[0]))
  {
    var s' := IssueWord(s, command, addr, word);
    IssuedWord(s, command, addr, word);
    IssueStalls(s.history, s.at, s'.history, s'.at, Penalty(s.at));
  }

  lemma LoopTimed(s: System)
    requires OnTime(s) && CanLoop(s) && Transferable(s.regs) && s.offset == 4 * s.history.done
    ensures TimedInv(Loop(s))
  {
    LoopInv(s);
    if s.offset < s.regs.size {
      IssueTimed(s, Read, ReadAddr(s), [0, 0, 0, 0]);
    }
  }

  lemma PollTimed(s: System)
    requires TimedInv(s) && Allowed(s, Poll) && Tame(s, Poll)
    ensures TimedInv(Do(s, Poll))
  {
    PollInv(s);
    if s.regs.ctrl % 2 == 1 {
      LoopTimed(Begin(s));
    }
  }

  /** A finished read is followed by its write at the same instant. */
  lemma ReadDone(s: System)
    requires TimedInv(s) && s.stage.Reading? && Allowed(s, Resume)
    ensures s.at.now == s.history.begin + WORD_TIME * s.history.done + s.history.stalls + 21
    ensures WindowsOk(s.history, Dropped(s).at, s.at.now)
  {
    WordTime(s.at, 0);
    DroppedFree(s);
  }

  lemma WriteDone(s: System)
    requires TimedInv(s) && s.stage.Writing? && Allowed(s, Resume)
    ensures OnTime(Next(Dropped(s)))
  {
    WordTime(s.at, 0);
    DroppedFree(s);
  }

  lemma ResumeTimed(s: System)
    requires TimedInv(s) && Allowed(s, Resume)
    ensures TimedInv(Do(s, Resume))
  {
    if s.stage.Reading? {
      ReadResumeTimed(s);
    } else {
      WriteResumeTimed(s);
    }
  }

  lemma ReadResumeTimed(s: System)
    requires TimedInv(s) && Allowed(s, Resume) && s.stage.Reading?
    ensures TimedInv(Do(s, Resume))
  {
    ResumeInv(s);
    DroppedFree(s);
    ReadDone(s);
    IssueTimed(Dropped(s), Write, WriteAddr(s), s.at.inits[0].word);
  }

  lemma WriteResumeTimed(s: System)
    requires TimedInv(s) && Allowed(s, Resume) && s.stage.Writing?
    ensures TimedInv(Do(s, Resume))
  {
    NextInLoop(s);
    LoopTimed(Next(Dropped(s)));
  }

  lemma NextInLoop(s: System)
    requires TimedInv(s) && Allowed(s, Resume) && s.stage.Writing?
    ensures var t := Next(Dropped(s));
            OnTime(t) && CanLoop(t) && Mapped(t.regs) && t.offset == 4 * t.history.done
  {
    DroppedFree(s);
    WriteDone(s);
    NextOffset(s);
  }

  lemma InnerWindows(s: System, st: Step)
    requires TimedInv(s) && !s.stage.Waiting? && Allowed(s, Inner(st))
    ensures var s' := Do(s, Inner(st));
            |s'.at.inits| > 0 && WindowsOk(s'.history, s'.at, StallEnd(s'.at.inits[0]))
  {
    InnerKeepsOperation(s.at, st, 0);
    var h, a, s' := s.history, s.at, Do(s, Inner(st));
    var t := StallEnd(s'.at.inits[0]);
    if st.RefreshBegin? {
      WindowBegins(h, a, s'.history, s'.at, t);
    } else if st.RefreshEnd? {
      WindowEnds(h, a, s'.at, t);
    } else {
      OtherFields(a, st);
      WindowStays(h, a, s'.at, t);
    }
  }

  predicate SameRefresh(a: State, a': State) {
    a'.inRefresh == a.inRefresh && a'.refreshStart == a.refreshStart && a'.refreshWake == a.refreshWake
  }

  lemma OtherFields(a: State, st: Step)
    requires Inv(a) && Enabled(a, st) && !st.RefreshBegin? && !st.RefreshEnd?
    ensures SameRefresh(a, Apply(a, st)) && a.now <= Apply(a, st).now
  {
    if st.Fire? {
      FireFrame(a, st.entry);
    }
  }

  lemma WindowStays(h: History, a: State, a': State, t: nat)
    requires WindowsOk(h, a, t) && SameRefresh(a, a') && a.now <= a'.now
    ensures WindowsOk(h, a', t)
  {
  }

  lemma WindowEnds(h: History, a: State, a': State, t: nat)
    requires WindowsOk(h, a, t) && a.inRefresh && a.now == a.refreshWake == a.refreshStart + T_RFC
    requires a' == a.(inRefresh := false, refreshWake := a.now + T_REFI)
    ensures WindowsOk(h, a', t)
  {
  }

  lemma WindowBegins(h: History, a: State, h': History, a': State, t: nat)
    requires WindowsOk(h, a, t) && !a.inRefresh && a.now == a.refreshWake
    requires a' == a.(inRefresh := true, refreshStart := a.now, refreshWake := a.now + T_RFC)
    requires h' == h.(windows := h.windows + 1, used := false)
    ensures WindowsOk(h', a', t)
  {
  }

  lemma InnerTimed(s: System, st: Step)
    requires TimedInv(s) && Allowed(s, Inner(st))
    ensures TimedInv(Do(s, Inner(st)))
  {
    InnerInv(s, st);
    InnerKeepsOperation(s.at, st, 0);
    if !s.stage.Waiting? {
      InnerWindows(s, st);
    }
  }

  lemma MoveTimed(s: System, m: Move)
    requires TimedInv(s) && Allowed(s, m) && Tame(s, m)
    ensures TimedInv(Do(s, m))
  {
    match m {
      case Inner(st) => InnerTimed(s, st);
      case Poll => PollTimed(s);
      case Resume => ResumeTimed(s);
      case Program(_) => MoveInv(s, m);
      case Outside(_) => MoveInv(s, m);
    }
  }

  // ---- The bound ----

  /** The time n words may take, stalls included. */
  function Deadline(n: nat): nat {
    42 * n + 70 * ((42 * n + 7940) / 7800)
  }

  /** How many refresh windows a transfer of n words can meet. */
  lemma WindowBound(h: History, a: State, t: nat, n: nat)
    requires WindowsOk(h, a, t) && a.refreshStart <= a.now <= h.begin + WORD_TIME * n + h.stalls
    ensures h.windows <= (WORD_TIME * n + 7940) / T_REFI
    ensures a.now <= h.begin + Deadline(n)
  {
    assert T_REFI * h.windows <= WORD_TIME * n + 7940;
  }

  /** Every instant of a transfer lies before its deadline. */
  lemma BeforeDeadline(s: System)
    requires TimedInv(s) && !s.stage.Waiting?
    ensures s.history.done < WordCount(s.regs.size)
    ensures s.at.now <= s.history.begin + Deadline(WordCount(s.regs.size))
  {
    var ini, n := s.at.inits[0], WordCount(s.regs.size);
    assert OwnerOk(s.at, 0);
    assert s.history.done + 1 <= n;
    WindowBound(s.history, s.at, StallEnd(ini), n);
  }

  /** The move that clears the start bit at the end of a transfer: the resumption after its last
      write, or the poll that started it if its size is zero. */
  predicate Finishes(s: System, m: Move) {
    && ((m == Resume && s.stage.Writing?) || (m == Poll && s.regs.ctrl % 2 == 1))
    && Allowed(s, m) && Do(s, m).stage.Waiting?
  }

  /** When the start bit clears, the n words took exactly 42n ns and the stalls, each window
      stalled at most one request by at most 70 ns, and the deadline was met. */
  lemma TransferTime(s: System, m: Move)
    requires TimedInv(s) && Finishes(s, m)
    ensures var s', n := Do(s, m), WordCount(s.regs.size);
            && s'.regs == s.regs.(ctrl := 0) && s'.history.done == n
            && s'.at.now == s'.history.begin + 42 * n + s'.history.stalls
            && s'.history.stalls <= 70 * s'.history.windows
            && s'.history.windows <= (42 * n + 7940) / 7800
            && s'.at.now <= s'.history.begin + Deadline(n)
  {
    if m == Resume {
      LastWordTime(s);
    } else {
      NoWordsTime(s);
    }
  }

  lemma LastWordTime(s: System)
    requires TimedInv(s) && s.stage.Writing? && Allowed(s, Resume) && Do(s, Resume).stage.Waiting?
    ensures var s', n := Do(s, Resume), WordCount(s.regs.size);
            && s'.regs == s.regs.(ctrl := 0) && s'.history.done == n
            && s'.at.now == s'.history.begin + WORD_TIME * n + s'.history.stalls
            && s'.history.stalls <= T_RFC * s'.history.windows
            && s'.history.windows <= (WORD_TIME * n + 7940) / T_REFI
            && s'.at.now <= s'.history.begin + Deadline(n)
  {
    WriteDone(s);
    NextOffset(s);
    DroppedFree(s);
    var t := Next(Dropped(s));
    assert s.history.done + 1 == WordCount(s.regs.size);
    WindowBound(t.history, t.at, t.at.now, WordCount(s.regs.size));
  }

  /** Zero words take zero time: the poll that sees the start bit clears it. */
  lemma NoWordsTime(s: System)
    requires Allowed(s, Poll) && s.regs.ctrl % 2 == 1 && Do(s, Poll).stage.Waiting?
    ensures s.regs.size == 0 && WordCount(s.regs.size) == 0
    ensures var s' := Do(s, Poll);
            && s'.regs == s.regs.(ctrl := 0) && s'.at == s.at
            && s'.history.begin == s.at.now && s'.history.done == s'.history.stalls == 0 && s'.history.windows <= 1
  {
  }

  /** A window that already stalled a request of this transfer stalls no other. */
  lemma OneStallPerWindow(s: System)
    requires TimedInv(s) && Allowed(s, Resume) && s.history.used
    ensures Do(s, Resume).history.stalls == s.history.stalls
  {
    DroppedFree(s);
    if s.stage.Reading? {
      ReadDone(s);
      NoStall(s.history, Dropped(s).at);
    } else {
      WriteDone(s);
      NoStall(Next(Dropped(s)).history, Next(Dropped(s)).at);
    }
  }

  lemma NoStall(h: History, a: State)
    requires WindowsOk(h, a, a.now) && h.used
    ensures Penalty(a) == 0
  {
  }

  // ---- Runs ----

  predicate TameRun(s: System, run: seq<Move>)
    requires AllowedRun(s, run)
    decreases |run|
  {
    run == [] || (Tame(s, run[0]) && TameRun(Do(s, run[0]), run[1..]))
  }

  /** The transfer is under way before every move of the run and after the last. */
  predicate Under(s: System, run: seq<Move>)
    requires AllowedRun(s, run)
    decreases |run|
  {
    !s.stage.Waiting? && (run == [] || Under(Do(s, run[0]), run[1..]))
  }

  predicate SysInitial(s: System) {
    Initial(s.at) && |s.at.inits| > 0 && s.stage == Waiting(10) && s.regs == Regs(0, 0, 0, 0)
  }

  lemma {:induction false} RunTimed(s: System, run: seq<Move>)
    requires TimedInv(s) && AllowedRun(s, run) && TameRun(s, run)
    ensures TimedInv(Ran(s, run))
    decreases |run|
  {
    if run != [] {
      MoveTimed(s, run[0]);
      RunTimed(Do(s, run[0]), run[1..]);
    }
  }

  /** From power-up, whatever the other initiators, the refresh and outside writers do: a
      transfer of any size that clears its start bit took 42n ns and its stalls, inside its
      deadline. */
  lemma EveryTransferTime(s: System, run: seq<Move>, m: Move)
    requires SysInitial(s) && AllowedRun(s, run) && TameRun(s, run) && Finishes(Ran(s, run), m)
    ensures var t, n := Do(Ran(s, run), m), WordCount(Ran(s, run).regs.size);
            && t.regs.ctrl == 0 && t.history.done == n
            && t.at.now == t.history.begin + 42 * n + t.history.stalls
            && t.history.stalls <= 70 * t.history.windows
            && t.at.now <= t.history.begin + Deadline(n)
  {
    InitialInv(s.at);
    RunTimed(s, run);
    TransferTime(Ran(s, run), m);
  }

  // ---- Termination ----

  /** Moves of the system itself, as opposed to register and outside writes. */
  function InternalMoves(run: seq<Move>): nat {
    if run == [] then 0
    else (if run[0].Program? || run[0].Outside? then 0 else 1) + InternalMoves(run[1..])
  }

  /** The deadline of the transfer under way. */
  function End(s: System): nat {
    s.history.begin + Deadline(WordCount(s.regs.size))
  }

  /** A move during a transfer that does not end it uses up potential, or is an outside write. */
  lemma MovePotential(s: System, m: Move)
    requires TimedInv(s) && Allowed(s, m) && Tame(s, m) && !s.stage.Waiting? && !Do(s, m).stage.Waiting?
    ensures TimedInv(Do(s, m)) && End(Do(s, m)) == End(s)
    ensures s.at.now <= End(s) && Do(s, m).at.now <= End(s)
    ensures Potential(Do(s, m).at, End(s)) + (if m.Outside? then 0 else 1) <= Potential(s.at, End(s))
  {
    MoveTimed(s, m);
    BeforeDeadline(s);
    SameTransfer(s, m);
    BeforeDeadline(Do(s, m));
    MoveUses(s, m, End(s));
  }

  lemma MoveUses(s: System, m: Move, end: nat)
    requires TimedInv(s) && Allowed(s, m) && Tame(s, m) && !s.stage.Waiting? && !Do(s, m).stage.Waiting?
    requires s.at.now <= end == End(s) && Do(s, m).at.now <= end
    ensures Potential(Do(s, m).at, end) + (if m.Outside? then 0 else 1) <= Potential(s.at, end)
  {
    match m {
      case Inner(st) => InnerUses(s, st, end);
      case Resume => ResumePotential(s);
      case Outside(mem) => SumSame(s.at, s.at.(mem := mem), |s.at.inits|);
    }
  }

  lemma InnerUses(s: System, st: Step, end: nat)
    requires Inv(s.at) && Allowed(s, Inner(st)) && s.at.now <= end && Do(s, Inner(st)).at.now <= end
    ensures Potential(Do(s, Inner(st)).at, end) + 1 <= Potential(s.at, end)
  {
    StepPotential(s.at, st, end);
  }

  /** Until it ends, a transfer keeps its beginning and its registers. */
  lemma SameTransfer(s: System, m: Move)
    requires TimedInv(s) && Allowed(s, m) && Tame(s, m) && !s.stage.Waiting? && !Do(s, m).stage.Waiting?
    ensures Do(s, m).history.begin == s.history.begin && Do(s, m).regs == s.regs
  {
    if m == Resume {
      DroppedFree(s);
    }
  }

  lemma IssuePotential(s: System, command: Command, addr: uint64, word: Word, end: nat)
    requires Free(s) && CanIssue(s.at, addr) && command != Ignore && s.at.now <= end
    ensures var s' := IssueWord(s, command, addr, word);
            s'.at.now == s.at.now && Potential(s'.at, end) < Potential(s.at, end)
  {
    StepPotential(s.at, Step.Issue(0, command, addr, word), end);
  }

  lemma ResumePotential(s: System)
    requires TimedInv(s) && Allowed(s, Resume) && !Do(s, Resume).stage.Waiting? && s.at.now <= End(s)
    ensures Do(s, Resume).at.now == s.at.now
    ensures Potential(Do(s, Resume).at, End(s)) < Potential(s.at, End(s))
  {
    DroppedFree(s);
    var t, end := Dropped(s), End(s);
    StepPotential(s.at, Step.Release(0), end);
    if s.stage.Reading? {
      IssuePotential(t, Write, WriteAddr(s), s.at.inits[0].word, end);
    } else {
      NextPotential(t, end);
    }
  }

  lemma NextPotential(t: System, end: nat)
    requires Free(t) && CanLoop(Next(t)) && !Loop(Next(t)).stage.Waiting? && t.at.now <= end
    ensures Loop(Next(t)).at.now == t.at.now && Potential(Loop(Next(t)).at, end) < Potential(t.at, end)
  {
    IssuePotential(Next(t), Read, ReadAddr(Next(t)), [0, 0, 0, 0], end);
  }

  /** A transfer inside memory ends: while it is under way the system makes a bounded number
      of moves, and (SystemProgress) it can always make one. */
  lemma {:induction false} TransferEnds(s: System, run: seq<Move>)
    requires TimedInv(s) && AllowedRun(s, run) && TameRun(s, run) && Under(s, run)
    ensures s.at.now <= End(s) && InternalMoves(run) <= Potential(s.at, End(s))
    decreases |run|
  {
    BeforeDeadline(s);
    if run != [] {
      MovePotential(s, run[0]);
      TransferEnds(Do(s, run[0]), run[1..]);
    }
  }

  /** The addresses of the next accesses are mapped. */
  lemma NextMapped(s: System)
    requires ThreadInv(s) && !s.stage.Waiting?
    ensures Next(s).offset < s.regs.size ==> InMemory(ReadAddr(Next(s)))
  {
    NextOffset(s);
    if Next(s).offset < s.regs.size {
      PlacedWord(s.regs.src, WordCount(s.regs.size), s.history.done + 1);
    }
  }

  lemma WriteMapped(s: System)
    requires ThreadInv(s) && !s.stage.Waiting?
    ensures InMemory(WriteAddr(s))
  {
    PlacedWord(s.regs.dst, WordCount(s.regs.size), s.history.done);
  }

  lemma ResumeAllowed(s: System)
    requires SysInv(s) && !s.stage.Waiting? && Enabled(s.at, Step.Release(0))
    ensures Allowed(s, Resume)
  {
    DroppedFree(s);
    FreeIsIdle(Dropped(s));
    if s.stage.Reading? {
      WriteMapped(s);
    } else {
      NextMapped(s);
    }
  }

  lemma FreeIsIdle(s: System)
    requires Free(s)
    ensures s.at.inits[0].pc == Idle
  {
    assert OwnerOk(s.at, 0);
  }

  lemma PollAllowed(s: System)
    requires SysInv(s) && s.stage == Waiting(s.at.now) && (s.regs.ctrl % 2 == 1 ==> Transferable(s.regs))
    ensures Allowed(s, Poll) && Tame(s, Poll)
  {
    assert OwnerOk(s.at, 0);
    if s.regs.ctrl % 2 == 1 && s.regs.size > 0 {
      PlacedWord(s.regs.src, WordCount(s.regs.size), 0);
    }
  }

  /** The system never deadlocks, with or without a transfer. */
  lemma SystemProgress(s: System) returns (m: Move)
    requires TimedInv(s) && (s.regs.ctrl % 2 == 1 ==> Transferable(s.regs))
    ensures Allowed(s, m) && Tame(s, m) && !m.Program? && !m.Outside?
  {
    var st := Progress(s.at);
    if st == Step.Release(0) {
      assert OwnerOk(s.at, 0);
      ResumeAllowed(s);
      m := Resume;
    } else if s.stage == Waiting(s.at.now) {
      PollAllowed(s);
      m := Poll;
    } else {
      m := Inner(st);
    }
  }

  /** From any point of a transfer the system can run it to its end without outside help. */
  lemma {:induction false} TransferCompletes(s: System) returns (run: seq<Move>)
    requires TimedInv(s) && !s.stage.Waiting?
    ensures AllowedRun(s, run) && TameRun(s, run) && Under(s, run) && Finishes(Ran(s, run), Resume)
    ensures forall m | m in run :: m.Inner? || m == Resume
    decreases Remaining(s)
  {
    var m := SystemProgress(s);
    if Do(s, m).stage.Waiting? {
      run := [];
      OnlyResumeEnds(s, m);
    } else {
      MoveRemains(s, m);
      var rest := TransferCompletes(Do(s, m));
      run := [m] + rest;
      assert run[1..] == rest;
    }
  }

  function Remaining(s: System): nat {
    if s.at.now <= End(s) then Potential(s.at, End(s)) else 0
  }

  lemma MoveRemains(s: System, m: Move)
    requires TimedInv(s) && Allowed(s, m) && Tame(s, m) && !s.stage.Waiting? && !Do(s, m).stage.Waiting?
    requires !m.Program? && !m.Outside?
    ensures (m.Inner? || m == Resume) && TimedInv(Do(s, m)) && Remaining(Do(s, m)) < Remaining(s)
  {
    MovePotential(s, m);
  }

  lemma OnlyResumeEnds(s: System, m: Move)
    requires TimedInv(s) && Allowed(s, m) && !s.stage.Waiting? && Do(s, m).stage.Waiting?
    ensures Finishes(s, Resume)
  {
  }

  /** The offset loop itself ends exactly for the sizes its 32-bit counter can pass. */
  lemma OffsetLoopEnds(size: uint32)
    ensures (exists k: nat :: LoopExit(size, k)) <==> size <= TWO32 - 4
  {
    if size <= TWO32 - 4 {
      var k := WordCount(size);
      WrapSmall(4 * k);
      assert LoopExit(size, k);
    } else {
      forall k: nat
        ensures !LoopExit(size, k)
      {
        OffsetMultiple(k);
      }
    }
  }

  /** After k rounds the offset is no longer below the size. */
  ghost predicate LoopExit(size: uint32, k: nat) {
    Wrap32(4 * k) >= size
  }

  lemma OffsetMultiple(k: nat)
    ensures Wrap32(4 * k) <= TWO32 - 4
  {
    var q := 4 * k / TWO32;
    assert 4 * k == TWO32 * q + Wrap32(4 * k);
  }
}
