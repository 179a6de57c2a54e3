/** When the transfer thread starts: from the register writes of a driver to the first request on
    the bus, and silence until then (periph/dma/dma.cpp, tests/c_programs/test_dma.c). */
module DmaStart {
  import opened Words
  import opened Tlm
  import opened InterconnectModel
  import opened WordCopy
  import opened AtProtocol
  import opened PayloadPool
  import opened DmaEngine
  import opened DmaTiming
  import opened DmaCopy
  import opened DmaPort

  /** The thread has just sent its first request: a read of the word at the source address. */
  predicate FirstRead(before: System, after: System) {
    && after.stage == Reading && after.offset == 0 && after.history.done == 0 && after.history.begin == before.at.now
    && after.regs == before.regs && after.at.mem == before.at.mem && after.at.now == before.at.now
    && |after.at.inits| > 0 && InMemory(before.regs.src)
    && var ini := after.at.inits[0];
       && ini.pc == AwaitEndReq && ini.trans.Some? && ini.trans.value < |after.at.payloads|
       && ini.command == Read && ini.addr == before.regs.src && ini.issued == before.at.now
       && var pay := after.at.payloads[ini.trans.value];
          pay.command == Read && pay.address == Phys(before.regs.src) && pay.buffer == 0 && pay.log == [BeginReq]
  }

  /** A poll that finds bit 0 of CTRL set and bytes to copy sends the first read. */
  lemma PollStarts(s: System)
    requires SysInv(s) && s.stage == Waiting(s.at.now)
    requires s.regs.ctrl % 2 == 1 && s.regs.size > 0 && Mapped(s.regs)
    ensures Allowed(s, Poll) && FirstRead(s, Do(s, Poll))
  {
    PollAllowed(s);
    SourceFirst(s);
    TakenBound(s.at);
    FirstIssue(s, Begin(s), Do(s, Poll));
  }

  lemma FirstIssue(s: System, b: System, t: System)
    requires b == Begin(s) && CanIssue(b.at, s.regs.src) && ReadAddr(b) == s.regs.src
    requires Taken(s.at.pool, |s.at.payloads|) <= |s.at.payloads|
    requires t == IssueWord(b, Read, s.regs.src, [0, 0, 0, 0]).(stage := Reading)
    ensures FirstRead(s, t)
  {
  }

  lemma SourceFirst(s: System)
    requires s.regs.size > 0 && Mapped(s.regs)
    ensures ReadAddr(Begin(s)) == s.regs.src && InMemory(s.regs.src)
  {
    PlacedWord(s.regs.src, WordCount(s.regs.size), 0);
  }

  /** With nothing to copy it clears CTRL instead, without a request. */
  lemma PollFinishes(s: System)
    requires s.stage == Waiting(s.at.now) && s.regs.ctrl % 2 == 1 && s.regs.size == 0
    ensures Allowed(s, Poll)
    ensures var t := Do(s, Poll); t.at == s.at && t.regs == s.regs.(ctrl := 0) && t.stage == Waiting(s.at.now + 10)
  {
  }

  /** A poll that finds bit 0 clear only waits for ten more nanoseconds. */
  lemma PollIdles(s: System)
    requires s.stage == Waiting(s.at.now) && s.regs.ctrl % 2 == 0
    ensures Allowed(s, Poll) && Do(s, Poll) == s.(stage := Waiting(s.at.now + 10))
  {
  }

  // ---- A driver ----

  /** The register files after each of the six writes that program a transfer. */
  function Writes(r: Regs, want: Regs): seq<Regs> {
    var r1 := WriteReg(r, 0x00, Lo(want.src));
    var r2 := WriteReg(r1, 0x04, Hi(want.src));
    var r3 := WriteReg(r2, 0x08, Lo(want.dst));
    var r4 := WriteReg(r3, 0x0C, Hi(want.dst));
    var r5 := WriteReg(r4, 0x10, want.size);
    [r1, r2, r3, r4, r5, WriteReg(r5, 0x14, want.ctrl)]
  }

  function Programs(rs: seq<Regs>): (run: seq<Move>)
    ensures |run| == |rs|
  {
    if rs == [] then [] else [Program(rs[0])] + Programs(rs[1..])
  }

  lemma RanNext(s: System, t: System, run: seq<Move>)
    requires run != [] && Allowed(s, run[0]) && Do(s, run[0]) == t && AllowedRun(t, run[1..])
    ensures AllowedRun(s, run) && Ran(s, run) == Ran(t, run[1..])
  {
  }

  /** Register writes reach the register file only; the last one stays. */
  lemma {:induction false} Programming(s: System, rs: seq<Regs>)
    ensures AllowedRun(s, Programs(rs))
    ensures Ran(s, Programs(rs)) == if rs == [] then s else s.(regs := rs[|rs| - 1])
    decreases |rs|
  {
    if rs != [] {
      var run, t := Programs(rs), s.(regs := rs[0]);
      assert run[0] == Program(rs[0]) && run[1..] == Programs(rs[1..]);
      Programming(t, rs[1..]);
      RanNext(s, t, run);
    }
  }

  /** After a driver's six writes the next poll sends the first read of the transfer if the CTRL
      written is odd, and nothing if it is even. */
  lemma DriverStarts(s: System, want: Regs)
    requires SysInv(s) && s.stage == Waiting(s.at.now) && want.size > 0 && Mapped(want)
    ensures AllowedRun(s, Programs(Writes(s.regs, want)))
    ensures var t := Ran(s, Programs(Writes(s.regs, want)));
            && t == s.(regs := want) && Allowed(t, Poll)
            && if want.ctrl % 2 == 1 then FirstRead(t, Do(t, Poll))
               else Do(t, Poll) == t.(stage := Waiting(t.at.now + 10))
  {
    Programming(s, Writes(s.regs, want));
    Programmed(s.regs, want);
    var t := s.(regs := want);
    if want.ctrl % 2 == 1 {
      PollStarts(t);
    } else {
      PollIdles(t);
    }
  }

  // ---- Silence ----

  /** The thread waits, with bit 0 of CTRL clear and no transaction of its own. */
  predicate Silent(s: System) {
    && s.stage.Waiting? && s.regs.ctrl % 2 == 0
    && |s.at.inits| > 0 && s.at.inits[0].trans == None && s.at.inits[0].pc == Idle
  }

  /** No register write of the run sets bit 0 of CTRL. */
  predicate NeverStarts(run: seq<Move>) {
    forall m | m in run && m.Program? :: m.regs.ctrl % 2 == 0
  }

  lemma StepSilent(s: State, st: Step)
    requires |s.inits| > 0 && s.inits[0].trans == None && s.inits[0].pc == Idle
    requires Enabled(s, st) && (st.Issue? || st.Release? ==> st.i != 0)
    ensures |Apply(s, st).inits| > 0 && Apply(s, st).inits[0].trans == None && Apply(s, st).inits[0].pc == Idle
  {
  }

  lemma MoveSilent(s: System, m: Move)
    requires Silent(s) && Allowed(s, m) && (m.Program? ==> m.regs.ctrl % 2 == 0)
    ensures Silent(Do(s, m))
  {
    match m {
      case Inner(st) => StepSilent(s.at, st);
      case Poll => PollIdles(s);
      case Resume =>
      case Program(_) =>
      case Outside(_) =>
    }
  }

  /** Until a register write sets bit 0 of CTRL the DMA issues nothing, whatever else happens. */
  lemma {:induction false} SilentRun(s: System, run: seq<Move>)
    requires Silent(s) && AllowedRun(s, run) && NeverStarts(run)
    ensures Silent(Ran(s, run))
    decreases |run|
  {
    if run != [] {
      MoveSilent(s, run[0]);
      SilentRun(Do(s, run[0]), run[1..]);
    }
  }

  /** So it is from power-up, and after every transfer. */
  lemma SilentFromPowerUp(s: System, run: seq<Move>)
    requires SysInitial(s) && AllowedRun(s, run) && NeverStarts(run)
    ensures Silent(Ran(s, run))
  {
    SilentRun(s, run);
  }

  lemma SilentAfterTransfer(s: System, run: seq<Move>)
    requires TimedInv(s) && Finishes(s, Resume)
    requires AllowedRun(Do(s, Resume), run) && NeverStarts(run)
    ensures Silent(Ran(Do(s, Resume), run))
  {
    TransferTime(s, Resume);
    DroppedFree(s);
    FreeIsIdle(Dropped(s));
    SilentRun(Do(s, Resume), run);
  }
}
