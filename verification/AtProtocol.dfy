/** The approximately-timed four-phase protocol (section 15.2 of IEEE Std 1666-2011) as a
    timed step system over any number of initiators: payload pool, interconnect hop,
    memory's event queue, wake-up events and refresh
    (tlm/soc_common.h, periph/dma/dma.cpp, periph/display/display.cpp,
    interconnect/interconnect.cpp, mem/memory.cpp). Times are in nanoseconds. */
module AtProtocol {
  import opened Words
  import opened Tlm
  import opened MemoryModel
  import opened InterconnectModel
  import opened PayloadPool

  /** A pooled transaction object. Its data pointer is the index of the initiator whose
      buffer it points to; `log` records the phases it went through since it was issued. */
  datatype Payload = Payload(
    command: Command,
    address: uint64,
    buffer: nat,
    refs: nat,
    hop: Option<HopCtx>,
    log: seq<Phase>)

  /** A notification pending in memory's event queue. */
  datatype Entry = Entry(p: nat, phase: Phase, due: nat)

  /** Where an initiator's thread is suspended. */
  datatype Pc = Idle | AwaitEndReq | AwaitResp | AwaitRelease(wake: nat)

  /** An initiator: its thread, its transaction, its word buffer and its two events.
      `issued` and `stall` record when its request left and what refresh added to it. */
  datatype Initiator = Initiator(
    pc: Pc,
    trans: Option<nat>,
    command: Command,
    addr: uint64,
    word: Word,
    endReq: bool,
    resp: bool,
    issued: nat,
    stall: nat)

  datatype State = State(
    now: nat,
    payloads: seq<Payload>,
    pool: seq<nat>,
    peq: set<Entry>,
    inits: seq<Initiator>,
    mem: Ram,
    base: uint64,
    inRefresh: bool,
    refreshStart: nat,
    refreshWake: nat)

  datatype Step =
    | Issue(i: nat, command: Command, addr: uint64, word: Word)
    | Fire(entry: Entry)
    | WakeEndReq(i: nat)
    | WakeResp(i: nat)
    | Release(i: nat)
    | RefreshBegin
    | RefreshEnd
    | Advance(to: nat)

  // ---- Payload references ----

  /** release(): the last reference returns the object to the pool. */
  function Unref(s: State, p: nat): State
    requires p < |s.payloads| && s.payloads[p].refs > 0
  {
    var pay := s.payloads[p].(refs := s.payloads[p].refs - 1);
    s.(payloads := s.payloads[p := pay], pool := if pay.refs == 0 then Returned(s.pool, p) else s.pool)
  }

  // ---- Steps ----

  predicate Busy(s: State, i: nat) {
    i < |s.inits| && s.inits[i].trans.Some? && s.inits[i].trans.value < |s.payloads|
  }

  predicate Enabled(s: State, st: Step) {
    match st
    case Issue(i, command, addr, _) =>
      i < |s.inits| && s.inits[i].pc == Idle && command != Ignore && InMemory(addr)
    case Fire(e) =>
      && e in s.peq && e.due == s.now
      && e.p < |s.payloads| && s.payloads[e.p].buffer < |s.inits|
      && (e.phase == EndResp ==> s.payloads[e.p].refs > 0)
    case WakeEndReq(i) => i < |s.inits| && s.inits[i].pc == AwaitEndReq && s.inits[i].endReq
    case WakeResp(i) => i < |s.inits| && s.inits[i].pc == AwaitResp && s.inits[i].resp
    case Release(i) =>
      && Busy(s, i) && s.inits[i].pc == AwaitRelease(s.now) && s.payloads[s.inits[i].trans.value].refs > 0
    case RefreshBegin => s.now == s.refreshWake && !s.inRefresh
    case RefreshEnd => s.now == s.refreshWake && s.inRefresh
    case Advance(to) => s.now < to && Quiet(s) && to <= s.refreshWake && NothingBefore(s, to)
  }

  /** No event notification waits for its delta cycle. */
  predicate Quiet(s: State) {
    forall i | 0 <= i < |s.inits| :: !s.inits[i].endReq && !s.inits[i].resp
  }

  predicate NothingBefore(s: State, to: nat) {
    && (forall e | e in s.peq :: to <= e.due)
    && (forall i | 0 <= i < |s.inits| :: s.inits[i].pc.AwaitRelease? ==> to <= s.inits[i].pc.wake)
  }

  function Apply(s: State, st: Step): State
    requires Enabled(s, st)
  {
    match st
    case Issue(i, command, addr, word) => DoIssue(s, i, command, addr, word)
    case Fire(e) => DoFire(s, e)
    case WakeEndReq(i) => s.(inits := s.inits[i := s.inits[i].(pc := AwaitResp, endReq := false)])
    case WakeResp(i) => s.(inits := s.inits[i := s.inits[i].(pc := AwaitRelease(s.now + 1), resp := false)])
    case Release(i) => Unref(s, s.inits[i].trans.value).(inits := s.inits[i := s.inits[i].(pc := Idle, trans := None)])
    case RefreshBegin => s.(inRefresh := true, refreshStart := s.now, refreshWake := s.now + T_RFC)
    case RefreshEnd => s.(inRefresh := false, refreshWake := s.now + T_REFI)
    case Advance(to) => s.(now := to)
  }

  /** The interconnect's forward hop for a mapped address. */
  function Hop(i: nat, addr: uint64, stale: Option<HopCtx>): (c: Carried)
    requires InMemory(addr)
    ensures c == Carried(Phys(addr), Some(HopCtx(addr, i)))
  {
    SocMap(addr);
    Forward(SOC_REGIONS, i, Carried(addr, stale), BeginReq).value.1
  }

  function Penalty(s: State): nat {
    if s.refreshStart <= s.now then RefreshPenalty(s.inRefresh, s.refreshStart, s.now) else 0
  }

  /** readWordAT, writeWordAT and readPixelAT up to their first wait: allocate, fill in,
      acquire, send BEGIN_REQ through the interconnect; memory acquires and schedules. */
  function DoIssue(s: State, i: nat, command: Command, addr: uint64, word: Word): State
    requires Enabled(s, Issue(i, command, addr, word))
  {
    var p := Taken(s.pool, |s.payloads|);
    var (hop, refs) := if p < |s.payloads| then (s.payloads[p].hop, s.payloads[p].refs) else (None, 0);
    var carried := Hop(i, addr, hop);
    var pay := Payload(command, carried.address, i, refs + 2, carried.hop, [BeginReq]);
    var stall := Penalty(s);
    var ini := s.inits[i].(pc := AwaitEndReq, trans := Some(p), command := command, addr := addr,
                           word := if command == Read then s.inits[i].word else word,
                           issued := s.now, stall := stall);
    s.(payloads := if p < |s.payloads| then s.payloads[p := pay] else s.payloads + [pay],
       pool := AfterTake(s.pool),
       inits := s.inits[i := ini],
       peq := s.peq + {Entry(p, BeginReq, s.now + Latency(command) + stall)})
  }

  /** peq_cb. */
  function DoFire(s: State, e: Entry): State
    requires Enabled(s, Fire(e))
  {
    match e.phase
    case BeginReq => FireBeginReq(s, e)
    case BeginResp => FireBeginResp(s, e)
    case EndResp => Unref(Logged(s, e), e.p).(peq := s.peq - {e})
    case EndReq => s.(peq := s.peq - {e})
  }

  function Logged(s: State, e: Entry): State
    requires e.p < |s.payloads|
  {
    s.(payloads := s.payloads[e.p := s.payloads[e.p].(log := s.payloads[e.p].log + [e.phase])])
  }

  /** The request the payload carries to memory. */
  function Carries(pay: Payload): (q: Request)
    ensures Plain(q) && q.length == 4
  {
    Request(pay.command, pay.address, 4, 4, None)
  }

  /** Memory and the buffer after the access. */
  function Effect(s: State, pay: Payload): (r: (Ram, Word))
    requires pay.buffer < |s.inits|
  {
    var o := NonBlocking(s.base, Carries(pay), s.mem, s.inits[pay.buffer].word);
    (o.mem, o.buf)
  }

  /** The access, END_REQ back to the recorded initiator, BEGIN_RESP scheduled. */
  function FireBeginReq(s: State, e: Entry): State
    requires e.p < |s.payloads| && s.payloads[e.p].buffer < |s.inits|
  {
    var pay := s.payloads[e.p];
    var (mem, word) := Effect(s, pay);
    var inits := s.inits[pay.buffer := s.inits[pay.buffer].(word := word)];
    var (c, m) := Backward(Carried(pay.address, pay.hop), EndReq);
    s.(mem := mem,
       inits := NotifyEndReq(inits, m),
       payloads := s.payloads[e.p := pay.(address := c.address, log := pay.log + [EndReq])],
       peq := s.peq - {e} + {Entry(e.p, BeginResp, s.now + Latency(pay.command))})
  }

  /** BEGIN_RESP back to the recorded initiator, who answers END_RESP at once. */
  function FireBeginResp(s: State, e: Entry): State
    requires e.p < |s.payloads|
  {
    var pay := s.payloads[e.p];
    var (c, m) := Backward(Carried(pay.address, pay.hop), BeginResp);
    s.(inits := NotifyResp(s.inits, m),
       payloads := s.payloads[e.p := pay.(address := c.address, log := pay.log + [BeginResp])],
       peq := s.peq - {e} + {Entry(e.p, EndResp, s.now)})
  }

  /** A notification reaches a thread only if it waits for that event. */
  function NotifyEndReq(inits: seq<Initiator>, m: nat): (r: seq<Initiator>)
    ensures |r| == |inits|
  {
    if m < |inits| && inits[m].pc == AwaitEndReq then inits[m := inits[m].(endReq := true)] else inits
  }

  function NotifyResp(inits: seq<Initiator>, m: nat): (r: seq<Initiator>)
    ensures |r| == |inits|
  {
    if m < |inits| && inits[m].pc == AwaitResp then inits[m := inits[m].(resp := true)] else inits
  }

  // ---- Runs ----

  predicate Initial(s: State) {
    && s.now == 0 && s.payloads == [] && s.pool == [] && s.peq == {}
    && !s.inRefresh && s.refreshStart == 0 && s.refreshWake == T_REFI
    && forall i | 0 <= i < |s.inits| :: s.inits[i].pc == Idle && s.inits[i].trans == None
                                       && !s.inits[i].endReq && !s.inits[i].resp
  }

  predicate LegalRun(s: State, run: seq<Step>)
    decreases |run|
  {
    run == [] || (Enabled(s, run[0]) && LegalRun(Apply(s, run[0]), run[1..]))
  }

  function After(s: State, run: seq<Step>): State
    requires LegalRun(s, run)
    decreases |run|
  {
    if run == [] then s else After(Apply(s, run[0]), run[1..])
  }
}
