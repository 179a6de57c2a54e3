/** What a transfer does to memory, whatever runs beside it. */
module DmaCopy {
  import opened Words
  import opened Tlm
  import opened MemoryModel
  import opened InterconnectModel
  import opened PayloadPool
  import opened WordCopy
  import opened AtProtocol
  import opened AtInvariant
  import opened AtSafety
  import opened DmaEngine
  import opened DmaTiming

  // ---- Regions of memory ----

  ghost predicate Agree(m: Ram, m': Ram, region: iset<nat>) {
    forall k | 0 <= k < SIZE && k in region :: m[k] == m'[k]
  }

  ghost predicate Covers(region: iset<nat>, o: nat, len: nat) {
    forall k | o <= k < o + len :: k in region
  }

  lemma AgreeSlice(m: Ram, m': Ram, region: iset<nat>, o: nat, len: nat)
    requires Agree(m, m', region) && Covers(region, o, len) && o + len <= SIZE
    ensures Slice(m, o, len) == Slice(m', o, len)
  {
  }

  lemma AgreeSplice(m: Ram, m': Ram, region: iset<nat>, o: nat, bytes: seq<byte>)
    requires Agree(m, m', region) && o + |bytes| <= SIZE
    ensures Agree(Splice(m, o, bytes), Splice(m', o, bytes), region)
  {
  }

  // ---- One access ----

  /** A word access in range copies four bytes at its offset. */
  lemma WordEffect(s: State, pay: Payload)
    requires pay.buffer < |s.inits| && DirectBase(s.base) && pay.address + 4 <= SIZE
    ensures Effect(s, pay) == if pay.command == Read then (s.mem, Slice(s.mem, pay.address, 4))
                              else (Splice(s.mem, pay.address, s.inits[pay.buffer].word), s.inits[pay.buffer].word)
  {
    var word := s.inits[pay.buffer].word;
    PlainAccess(s.base, Carries(pay), s.mem, word);
    assert word[..4] == word;
    assert Slice(s.mem, pay.address, 4) + word[4..] == Slice(s.mem, pay.address, 4);
  }

  /** The thread's access takes effect in the callback of its BEGIN_REQ. */
  predicate OwnAccess(s: State, st: Step) {
    st.Fire? && st.entry.phase == BeginReq && st.entry.p < |s.payloads| && s.payloads[st.entry.p].buffer == 0
  }

  /** The thread's request has been served. */
  predicate Served(s: State)
    requires Busy(s, 0)
  {
    |s.payloads[s.inits[0].trans.value].log| >= 2
  }

  /** The thread's word and its request are as they were. */
  predicate KeepsThread(s: State, s': State)
    requires Busy(s, 0)
  {
    Busy(s', 0) && s'.inits[0].word == s.inits[0].word && (Served(s') <==> Served(s))
  }

  lemma OtherFire(s: State, e: Entry)
    requires Inv(s) && Enabled(s, Fire(e)) && Busy(s, 0) && !OwnAccess(s, Fire(e))
    ensures KeepsThread(s, DoFire(s, e))
  {
    FireIsDue(s, e);
    FireFrame(s, e);
    var i, p := s.payloads[e.p].buffer, s.inits[0].trans.value;
    if i == 0 {
      assert OwnerOk(s, 0);
    } else {
      HolderIsOwner(s, 0, p);
    }
  }

  /** Any other step of the protocol leaves the thread's word and its request as they are. */
  lemma OtherStep(s: State, st: Step)
    requires Inv(s) && Enabled(s, st) && Busy(s, 0) && !OwnAccess(s, st)
    requires st.Issue? || st.Release? ==> st.i != 0
    ensures KeepsThread(s, Apply(s, st))
  {
    match st {
      case Issue(i, _, _, _) =>
        IssueFrame(s, st);
        FramedThread(s, Apply(s, st), i, Taken(s.pool, |s.payloads|));
      case Fire(e) =>
        OtherFire(s, e);
      case Release(i) =>
        ReleaseFrame(s, i);
        FramedThread(s, Apply(s, st), i, s.inits[i].trans.value);
      case _ =>
    }
  }

  lemma FramedThread(s: State, s': State, i: nat, p: nat)
    requires Inv(s) && Busy(s, 0) && Frame(s, s', i, p) && i != 0
    ensures KeepsThread(s, s')
  {
    assert OwnerOk(s, 0);
  }

  /** The thread's own access. */
  lemma OwnStep(s: State, e: Entry)
    requires Inv(s) && Enabled(s, Fire(e)) && OwnAccess(s, Fire(e)) && DirectBase(s.base)
    requires |s.inits| > 0 && Phys(s.inits[0].addr) + 4 <= SIZE
    ensures Busy(s, 0) && !Served(s)
    ensures var s', o := Apply(s, Fire(e)), Phys(s.inits[0].addr);
            && Busy(s', 0) && Served(s')
            && if s.inits[0].command == Read then s'.mem == s.mem && s'.inits[0].word == Slice(s.mem, o, 4)
               else s'.mem == Splice(s.mem, o, s.inits[0].word) && s'.inits[0].word == s.inits[0].word
  {
    FireIsDue(s, e);
    FireBeginReqIs(s, e, 0);
    WordEffect(s, s.payloads[e.p]);
  }

  // ---- The invariant of the copy ----

  function Src(s: System): nat { Phys(s.regs.src) }

  function Dst(s: System): nat { Phys(s.regs.dst) }

  predicate Fits(s: System) {
    var n := WordCount(s.regs.size);
    Src(s) + 4 * n <= SIZE && Dst(s) + 4 * n <= SIZE
  }

  /** Within the region memory is the copy so far, and the thread's buffer holds the word it
      moves: after k words, in the read or the write of the next, served or not. */
  ghost predicate Copying(m0: Ram, src: nat, dst: nat, k: nat, reading: bool, served: bool,
                          word: Word, mem: Ram, region: iset<nat>)
    requires src + 4 * k + 4 <= SIZE && dst + 4 * k + 4 <= SIZE
  {
    && Agree(mem, CopyWords(m0, src, dst, if !reading && served then k + 1 else k), region)
    && (!reading || served ==> word == Slice(CopyWords(m0, src, dst, k), src + 4 * k, 4))
  }

  lemma ReadServed(m0: Ram, src: nat, dst: nat, k: nat, w: Word, word: Word, mem: Ram,
                    region: iset<nat>)
    requires src + 4 * k + 4 <= SIZE && dst + 4 * k + 4 <= SIZE && Covers(region, src + 4 * k, 4)
    requires Copying(m0, src, dst, k, true, false, w, mem, region) && word == Slice(mem, src + 4 * k, 4)
    ensures Copying(m0, src, dst, k, true, true, word, mem, region)
  {
    AgreeSlice(mem, CopyWords(m0, src, dst, k), region, src + 4 * k, 4);
  }

  lemma WriteServed(m0: Ram, src: nat, dst: nat, k: nat, word: Word, mem: Ram, mem': Ram,
                     region: iset<nat>)
    requires src + 4 * k + 4 <= SIZE && dst + 4 * k + 4 <= SIZE
    requires Copying(m0, src, dst, k, false, false, word, mem, region) && mem' == Splice(mem, dst + 4 * k, word)
    ensures Copying(m0, src, dst, k, false, true, word, mem', region)
  {
    AgreeSplice(mem, CopyWords(m0, src, dst, k), region, dst + 4 * k, word);
  }

  lemma OthersServed(m0: Ram, src: nat, dst: nat, k: nat, reading: bool, served: bool,
                      word: Word, mem: Ram, mem': Ram, region: iset<nat>)
    requires src + 4 * k + 4 <= SIZE && dst + 4 * k + 4 <= SIZE
    requires Copying(m0, src, dst, k, reading, served, word, mem, region) && Agree(mem, mem', region)
    ensures Copying(m0, src, dst, k, reading, served, word, mem', region)
  {
  }

  /** The thread's place in its loop stands inside the mapped transfer. */
  ghost predicate InLoop(s: System, region: iset<nat>) {
    && Fits(s) && s.history.done < WordCount(s.regs.size) && Busy(s.at, 0)
    && Covers(region, Src(s), 4 * WordCount(s.regs.size))
  }

  ghost predicate DataInv(s: System, region: iset<nat>) {
    !s.stage.Waiting? ==>
      InLoop(s, region)
      && Copying(s.history.mem0, Src(s), Dst(s), s.history.done, s.stage.Reading?, Served(s.at),
                 s.at.inits[0].word, s.at.mem, region)
  }

  /** Apart from the thread's own accesses, the move leaves the region as it is. */
  ghost predicate Respects(s: System, m: Move, region: iset<nat>)
    requires Allowed(s, m)
  {
    (m.Inner? && OwnAccess(s.at, m.st)) || Agree(s.at.mem, Do(s, m).at.mem, region)
  }

  lemma ThreadAddress(s: System)
    requires SysInv(s) && !s.stage.Waiting?
    ensures Fits(s) && s.history.done < WordCount(s.regs.size) && Busy(s.at, 0)
    ensures Phys(s.at.inits[0].addr) == (if s.stage.Reading? then Src(s) else Dst(s)) + 4 * s.history.done
    ensures s.at.inits[0].command == if s.stage.Reading? then Read else Write
  {
    ThreadInLoop(s);
    if s.stage.Reading? {
      PlacedWord(s.regs.src, WordCount(s.regs.size), s.history.done);
    } else {
      PlacedWord(s.regs.dst, WordCount(s.regs.size), s.history.done);
    }
  }

  lemma ThreadInLoop(s: System)
    requires SysInv(s) && !s.stage.Waiting?
    ensures Fits(s) && s.history.done < WordCount(s.regs.size) && Busy(s.at, 0)
  {
    assert OwnerOk(s.at, 0);
  }

  lemma OwnAccessCopies(s: System, st: Step, region: iset<nat>)
    requires SysInv(s) && DataInv(s, region) && DirectBase(s.at.base)
    requires Allowed(s, Inner(st)) && OwnAccess(s.at, st) && !s.stage.Waiting?
    ensures DataInv(Do(s, Inner(st)), region)
  {
    if s.stage.Reading? {
      OwnReadCopies(s, st, region);
    } else {
      OwnWriteCopies(s, st, region);
    }
  }

  lemma OwnReadCopies(s: System, st: Step, region: iset<nat>)
    requires SysInv(s) && DataInv(s, region) && DirectBase(s.at.base)
    requires Allowed(s, Inner(st)) && OwnAccess(s.at, st) && s.stage.Reading?
    ensures DataInv(Do(s, Inner(st)), region)
  {
    var h, s' := s.history, Do(s, Inner(st));
    ThreadAddress(s);
    OwnStep(s.at, st.entry);
    ReadServed(h.mem0, Src(s), Dst(s), h.done, s.at.inits[0].word, s'.at.inits[0].word, s.at.mem, region);
  }

  lemma OwnWriteCopies(s: System, st: Step, region: iset<nat>)
    requires SysInv(s) && DataInv(s, region) && DirectBase(s.at.base)
    requires Allowed(s, Inner(st)) && OwnAccess(s.at, st) && s.stage.Writing?
    ensures DataInv(Do(s, Inner(st)), region)
  {
    var h, s' := s.history, Do(s, Inner(st));
    ThreadAddress(s);
    OwnStep(s.at, st.entry);
    WriteServed(h.mem0, Src(s), Dst(s), h.done, s.at.inits[0].word, s.at.mem, s'.at.mem, region);
  }

  lemma OtherStepCopies(s: System, st: Step, region: iset<nat>)
    requires SysInv(s) && DataInv(s, region)
    requires Allowed(s, Inner(st)) && !OwnAccess(s.at, st) && !s.stage.Waiting? && Respects(s, Inner(st), region)
    ensures DataInv(Do(s, Inner(st)), region)
  {
    var s' := Do(s, Inner(st));
    OtherStep(s.at, st);
    OthersServed(s.history.mem0, Src(s), Dst(s), s.history.done, s.stage.Reading?, Served(s.at),
                 s.at.inits[0].word, s.at.mem, s'.at.mem, region);
  }

  /** A fresh request is not yet served, and the buffer holds the word to write. */
  lemma FreshRequest(s: State, command: Command, addr: uint64, word: Word)
    requires CanIssue(s, addr) && command != Ignore && Taken(s.pool, |s.payloads|) <= |s.payloads|
    ensures var s' := DoIssue(s, 0, command, addr, word);
            Busy(s', 0) && !Served(s') && (command == Write ==> s'.inits[0].word == word)
  {
  }

  lemma TakenBound(s: State)
    requires Inv(s)
    ensures Taken(s.pool, |s.payloads|) <= |s.payloads|
  {
    NextIsNew(s);
    TakeMembers(s.pool, |s.payloads|);
  }

  lemma IssuedFresh(s: System, command: Command, addr: uint64, word: Word)
    requires Free(s) && CanIssue(s.at, addr) && command != Ignore
    ensures var s' := IssueWord(s, command, addr, word);
            Busy(s'.at, 0) && !Served(s'.at) && (command == Write ==> s'.at.inits[0].word == word)
  {
    TakenBound(s.at);
    FreshRequest(s.at, command, addr, word);
  }

  /** When the thread resumes, its request has been served. */
  lemma ResumedServed(s: System)
    requires SysInv(s) && Allowed(s, Resume) && Busy(s.at, 0)
    ensures Served(s.at)
  {
    ReleaseIsLast(s.at, 0);
  }

  lemma ReadResumeCopies(s: System, region: iset<nat>)
    requires SysInv(s) && DataInv(s, region) && Allowed(s, Resume) && s.stage.Reading?
    ensures DataInv(Do(s, Resume), region)
  {
    DroppedFree(s);
    ResumedServed(s);
    IssuedFresh(Dropped(s), Write, WriteAddr(s), s.at.inits[0].word);
  }

  /** A finished write makes memory the copy of one more word. */
  lemma WriteFinished(s: System, region: iset<nat>)
    requires SysInv(s) && DataInv(s, region) && Allowed(s, Resume) && s.stage.Writing?
    ensures Fits(s) && s.history.done + 1 <= WordCount(s.regs.size)
    ensures Agree(s.at.mem, CopyWords(s.history.mem0, Src(s), Dst(s), s.history.done + 1), region)
  {
    ResumedServed(s);
  }

  /** The loop test keeps the copy. */
  lemma LoopCopies(s: System, region: iset<nat>)
    requires Free(s) && CanLoop(s) && Fits(s) && s.offset == 4 * s.history.done
    requires Covers(region, Src(s), 4 * WordCount(s.regs.size))
    requires s.history.done <= WordCount(s.regs.size)
    requires Agree(s.at.mem, CopyWords(s.history.mem0, Src(s), Dst(s), s.history.done), region)
    ensures DataInv(Loop(s), region) && Loop(s).at.mem == s.at.mem
  {
    if s.offset < s.regs.size {
      IssuedFresh(s, Read, ReadAddr(s), [0, 0, 0, 0]);
    }
  }

  lemma WriteResumeCopies(s: System, region: iset<nat>)
    requires SysInv(s) && DataInv(s, region) && Allowed(s, Resume) && s.stage.Writing?
    ensures DataInv(Do(s, Resume), region) && Do(s, Resume).at.mem == s.at.mem
  {
    WriteFinished(s, region);
    WriteDropped(s);
    LoopCopies(Next(Dropped(s)), region);
  }

  /** The thread after a finished write, before its loop test. */
  lemma WriteDropped(s: System)
    requires SysInv(s) && Allowed(s, Resume) && s.stage.Writing?
    ensures var t := Next(Dropped(s));
            && Free(t) && t.regs == s.regs && t.offset == 4 * t.history.done
            && t.history == s.history.(done := s.history.done + 1) && t.at.mem == s.at.mem
  {
    DroppedFree(s);
    NextOffset(s);
  }

  lemma PollCopies(s: System, region: iset<nat>)
    requires SysInv(s) && Allowed(s, Poll) && s.regs.ctrl % 2 == 1 && Mapped(s.regs)
    requires Covers(region, Src(s), 4 * WordCount(s.regs.size))
    ensures DataInv(Do(s, Poll), region)
  {
    LoopCopies(Begin(s), region);
  }

  lemma MoveCopies(s: System, m: Move, region: iset<nat>)
    requires SysInv(s) && DataInv(s, region) && DirectBase(s.at.base) && !s.stage.Waiting?
    requires Allowed(s, m) && Tame(s, m) && Respects(s, m, region)
    ensures DataInv(Do(s, m), region)
  {
    match m {
      case Inner(st) =>
        if OwnAccess(s.at, st) {
          OwnAccessCopies(s, st, region);
        } else {
          OtherStepCopies(s, st, region);
        }
      case Resume =>
        if s.stage.Reading? {
          ReadResumeCopies(s, region);
        } else {
          WriteResumeCopies(s, region);
        }
      case Outside(mem) =>
        OthersServed(s.history.mem0, Src(s), Dst(s), s.history.done, s.stage.Reading?, Served(s.at),
                     s.at.inits[0].word, s.at.mem, mem, region);
    }
  }

  // ---- Whole transfers ----

  ghost predicate RespectsRun(s: System, run: seq<Move>, region: iset<nat>)
    requires AllowedRun(s, run)
    decreases |run|
  {
    run == [] || (Respects(s, run[0], region) && RespectsRun(Do(s, run[0]), run[1..], region))
  }

  lemma KeepsBase(s: System, m: Move)
    requires SysInv(s) && Allowed(s, m)
    ensures Do(s, m).at.base == s.at.base
  {
    if m.Inner? {
      InnerKeepsBase(s.at, m.st);
    }
  }

  lemma InnerKeepsBase(s: State, st: Step)
    requires Inv(s) && Enabled(s, st)
    ensures Apply(s, st).base == s.base
  {
    if st.Fire? {
      FireFrame(s, st.entry);
    }
  }

  lemma {:induction false} RunCopies(s: System, run: seq<Move>, region: iset<nat>)
    requires TimedInv(s) && DataInv(s, region) && DirectBase(s.at.base)
    requires AllowedRun(s, run) && TameRun(s, run) && Under(s, run) && RespectsRun(s, run, region)
    ensures DataInv(Ran(s, run), region)
    ensures Ran(s, run).regs == s.regs && Ran(s, run).history.mem0 == s.history.mem0
    decreases |run|
  {
    if run != [] {
      var m := run[0];
      MoveTimed(s, m);
      MoveCopies(s, m, region);
      KeepsBase(s, m);
      SameRegisters(s, m);
      RunCopies(Do(s, m), run[1..], region);
    }
  }

  lemma SameRegisters(s: System, m: Move)
    requires SysInv(s) && Allowed(s, m) && Tame(s, m) && !s.stage.Waiting? && !Do(s, m).stage.Waiting?
    ensures Do(s, m).regs == s.regs && Do(s, m).history.mem0 == s.history.mem0
  {
    if m == Resume {
      DroppedFree(s);
    }
  }

  /** A transfer over a region that nothing else writes: from the poll that sees the start bit
      to the move that clears it, that region of memory becomes the word-by-word copy of what
      it was, whichever reads, writes elsewhere, refreshes and delays happen in between. */
  lemma TransferCopies(s: System, run: seq<Move>, region: iset<nat>)
    requires TimedInv(s) && DirectBase(s.at.base) && WholeTransfer(s, run, region)
    requires Covers(region, Src(s), 4 * WordCount(s.regs.size))
    ensures Fits(s) && Finished(s, run).regs == s.regs.(ctrl := 0)
    ensures Agree(Finished(s, run).at.mem, CopyWords(s.at.mem, Src(s), Dst(s), WordCount(s.regs.size)), region)
  {
    var s1 := Do(s, Poll);
    PollTimed(s);
    PollCopies(s, region);
    PollBegins(s, run);
    RunTimed(s1, run);
    RunCopies(s1, run, region);
    TransferFinished(Ran(s1, run), region);
  }

  /** The run of a whole transfer, from the poll that sees the start bit. */
  ghost predicate WholeTransfer(s: System, run: seq<Move>, region: iset<nat>) {
    && Allowed(s, Poll) && s.regs.ctrl % 2 == 1 && Mapped(s.regs)
    && AllowedRun(Do(s, Poll), run) && TameRun(Do(s, Poll), run) && Under(Do(s, Poll), run)
    && RespectsRun(Do(s, Poll), run, region)
    && Finishes(Ran(Do(s, Poll), run), Resume)
  }

  function Finished(s: System, run: seq<Move>): System
    requires Allowed(s, Poll) && AllowedRun(Do(s, Poll), run) && Finishes(Ran(Do(s, Poll), run), Resume)
  {
    Do(Ran(Do(s, Poll), run), Resume)
  }

  /** A transfer with the destination at or below the source, or clear of it, delivers the old
      source bytes and changes nothing else of the region. */
  lemma TransferDelivers(s: System, run: seq<Move>, region: iset<nat>)
    requires TimedInv(s) && DirectBase(s.at.base) && WholeTransfer(s, run, region)
    requires var n := WordCount(s.regs.size);
             Ascends(Src(s), Dst(s), n) && Covers(region, Src(s), 4 * n) && Covers(region, Dst(s), 4 * n)
    ensures var t, n := Finished(s, run), WordCount(s.regs.size);
            && t.regs.ctrl == 0
            && Slice(t.at.mem, Dst(s), 4 * n) == Slice(s.at.mem, Src(s), 4 * n)
            && forall i | 0 <= i < SIZE && i in region && !(Dst(s) <= i < Dst(s) + 4 * n) :: t.at.mem[i] == s.at.mem[i]
  {
    var t, n := Finished(s, run), WordCount(s.regs.size);
    var m := CopyWords(s.at.mem, Src(s), Dst(s), n);
    TransferCopies(s, run, region);
    AscendingCopies(s.at.mem, Src(s), Dst(s), n);
    AgreeSlice(t.at.mem, m, region, Dst(s), 4 * n);
    forall i | 0 <= i < SIZE && i in region && !(Dst(s) <= i < Dst(s) + 4 * n)
      ensures t.at.mem[i] == s.at.mem[i]
    {
      CopyFrame(s.at.mem, Src(s), Dst(s), n, i);
    }
  }

  lemma LastWord(s: System)
    requires TimedInv(s) && Finishes(s, Resume)
    ensures s.history.done + 1 == WordCount(s.regs.size) && Do(s, Resume).regs == s.regs.(ctrl := 0)
  {
    TransferTime(s, Resume);
    WriteDropped(s);
  }

  lemma TransferFinished(s: System, region: iset<nat>)
    requires TimedInv(s) && DataInv(s, region) && Finishes(s, Resume)
    ensures Fits(s) && Do(s, Resume).regs == s.regs.(ctrl := 0)
    ensures Agree(Do(s, Resume).at.mem, CopyWords(s.history.mem0, Src(s), Dst(s), WordCount(s.regs.size)), region)
  {
    LastWord(s);
    WriteFinished(s, region);
    WriteResumeCopies(s, region);
  }

  lemma PollBegins(s: System, run: seq<Move>)
    requires SysInv(s) && Allowed(s, Poll) && s.regs.ctrl % 2 == 1
    requires AllowedRun(Do(s, Poll), run) && Under(Do(s, Poll), run)
    ensures Do(s, Poll).regs == s.regs && Do(s, Poll).history.mem0 == s.at.mem && Do(s, Poll).at.base == s.at.base
  {
  }

  // ---- Beside readers only ----

  /** The operations under way beside the thread are reads. */
  predicate OthersRead(s: System) {
    forall i | 0 < i < |s.at.inits| :: s.at.inits[i].trans.Some? ==> s.at.inits[i].command == Read
  }

  /** The move issues no write and writes no memory from outside. */
  predicate Reads(m: Move) {
    !m.Outside? && (m.Inner? && m.st.Issue? ==> m.st.command == Read)
  }

  lemma IssueKeepsOthers(s: State, st: Step, i: nat)
    requires st.Issue? && Enabled(s, st) && i < |s.inits|
    ensures i < |Apply(s, st).inits|
    ensures Apply(s, st).inits[i].command == if i == st.i then st.command else s.inits[i].command
    ensures i != st.i ==> Apply(s, st).inits[i].trans == s.inits[i].trans
  {
  }

  lemma ReleaseKeepsOthers(s: State, j: nat, i: nat)
    requires Inv(s) && Enabled(s, Step.Release(j)) && i < |s.inits|
    ensures var s' := Apply(s, Step.Release(j));
            i < |s'.inits| && (s'.inits[i].trans.Some? ==> s'.inits[i] == s.inits[i])
  {
    ReleaseIsLast(s, j);
  }

  lemma InnerOthersRead(s: System, st: Step)
    requires SysInv(s) && Allowed(s, Inner(st)) && OthersRead(s) && Reads(Inner(st))
    ensures OthersRead(Do(s, Inner(st)))
  {
    var t := Do(s, Inner(st));
    forall i | 0 < i < |t.at.inits| && t.at.inits[i].trans.Some?
      ensures t.at.inits[i].command == Read
    {
      match st {
        case Issue(_, _, _, _) => IssueKeepsOthers(s.at, st, i);
        case Release(j) => ReleaseKeepsOthers(s.at, j, i);
        case Fire(e) => InnerKeepsOperation(s.at, st, i);
        case _ =>
      }
    }
  }

  lemma IssueWordOthers(s: System, command: Command, addr: uint64, word: Word)
    requires CanIssue(s.at, addr) && command != Ignore
    ensures var t := IssueWord(s, command, addr, word);
            |t.at.inits| == |s.at.inits| && forall i | 0 < i < |s.at.inits| :: t.at.inits[i] == s.at.inits[i]
  {
  }

  lemma DroppedOthers(s: System)
    requires SysInv(s) && Enabled(s.at, Step.Release(0))
    ensures var t := Dropped(s);
            |t.at.inits| == |s.at.inits| && forall i | 0 < i < |s.at.inits| :: t.at.inits[i] == s.at.inits[i]
  {
    ReleaseIsLast(s.at, 0);
  }

  lemma ResumeOthersRead(s: System)
    requires SysInv(s) && Allowed(s, Resume) && OthersRead(s)
    ensures OthersRead(Do(s, Resume)) && Do(s, Resume).at.mem == s.at.mem
  {
    DroppedFree(s);
    DroppedOthers(s);
    if s.stage.Reading? {
      IssueWordOthers(Dropped(s), Write, WriteAddr(s), s.at.inits[0].word);
    } else {
      var t := Next(Dropped(s));
      if t.offset < t.regs.size {
        IssueWordOthers(t, Read, ReadAddr(t), [0, 0, 0, 0]);
      }
    }
  }

  lemma PollOthersRead(s: System)
    requires Allowed(s, Poll) && OthersRead(s)
    ensures OthersRead(Do(s, Poll))
  {
    if s.regs.ctrl % 2 == 1 && Begin(s).offset < s.regs.size {
      IssueWordOthers(Begin(s), Read, ReadAddr(Begin(s)), [0, 0, 0, 0]);
    }
  }

  lemma {:induction false} ReadersRunRespects(s: System, run: seq<Move>, region: iset<nat>)
    requires TimedInv(s) && DirectBase(s.at.base) && OthersRead(s)
    requires AllowedRun(s, run) && TameRun(s, run) && Under(s, run) && forall m | m in run :: Reads(m)
    ensures RespectsRun(s, run, region)
    decreases |run|
  {
    if run != [] {
      var m := run[0];
      assert Reads(m);
      MoveTimed(s, m);
      KeepsBase(s, m);
      match m {
        case Inner(st) =>
          ReadersRespect(s, st, region);
          InnerOthersRead(s, st);
        case Resume => ResumeOthersRead(s);
      }
      ReadersRunRespects(Do(s, m), run[1..], region);
    }
  }

  /** Every location of memory. */
  predicate Anywhere(k: nat) { true }

  ghost function Everywhere(): iset<nat> { iset k: nat | Anywhere(k) }

  /** Beside readers such as the display, and with no outside write, memory at the end of a
      transfer is exactly the word-by-word copy. */
  lemma ExactCopy(s: System, run: seq<Move>)
    requires TimedInv(s) && DirectBase(s.at.base) && Allowed(s, Poll) && s.regs.ctrl % 2 == 1 && Mapped(s.regs)
    requires var s1 := Do(s, Poll);
             AllowedRun(s1, run) && TameRun(s1, run) && Under(s1, run) && Finishes(Ran(s1, run), Resume)
    requires OthersRead(s) && forall m | m in run :: Reads(m)
    ensures Fits(s)
    ensures Finished(s, run).at.mem == CopyWords(s.at.mem, Src(s), Dst(s), WordCount(s.regs.size))
  {
    PollTimed(s);
    PollBegins(s, run);
    PollOthersRead(s);
    ReadersRunRespects(Do(s, Poll), run, Everywhere());
    TransferCopies(s, run, Everywhere());
    AgreeEverywhere(Finished(s, run).at.mem, CopyWords(s.at.mem, Src(s), Dst(s), WordCount(s.regs.size)));
  }

  lemma AgreeEverywhere(m: Ram, m': Ram)
    requires Agree(m, m', Everywhere())
    ensures m == m'
  {
    forall k | 0 <= k < SIZE
      ensures m[k] == m'[k]
    {
      assert Anywhere(k) && k in Everywhere();
    }
  }

  /** With readers only beside the thread, no protocol step touches a region but the thread's. */
  lemma ReadersRespect(s: System, st: Step, region: iset<nat>)
    requires SysInv(s) && Allowed(s, Inner(st)) && DirectBase(s.at.base) && OthersRead(s)
    ensures Respects(s, Inner(st), region)
  {
    if st.Fire? {
      var e := st.entry;
      FireIsDue(s.at, e);
      FireFrame(s.at, e);
      if e.phase == BeginReq && !OwnAccess(s.at, st) {
        FireBeginReqIs(s.at, e, s.at.payloads[e.p].buffer);
        ReadKeepsMemory(s.at, s.at.payloads[e.p]);
      }
    }
  }

  lemma ReadKeepsMemory(s: State, pay: Payload)
    requires pay.buffer < |s.inits| && pay.command == Read
    ensures Effect(s, pay).0 == s.mem
  {
    AccessReads(s.base, Carries(pay), s.mem, s.inits[pay.buffer].word, 4);
  }
}
