/** What the protocol guarantees in every reachable state and at every step. */
module AtSafety {
  import opened Words
  import opened Tlm
  import opened PayloadPool
  import opened AtProtocol
  import opened AtInvariant

  ghost predicate InitiatorHolds(s: State, p: nat) {
    exists i | 0 <= i < |s.inits| :: s.inits[i].trans == Some(p)
  }

  /** Memory holds a payload from BEGIN_REQ until its END_RESP callback. */
  ghost predicate MemoryHolds(s: State, p: nat) {
    exists e | e in s.peq :: e.p == p
  }

  /** One reference per holder, and the phases of the base protocol in order. */
  ghost predicate PayloadSafe(s: State, p: nat)
    requires p < |s.payloads|
  {
    var pay := s.payloads[p];
    && pay.refs == (if InitiatorHolds(s, p) then 1 else 0) + (if MemoryHolds(s, p) then 1 else 0)
    && (p in s.pool <==> !InitiatorHolds(s, p))
    && (p in s.pool ==> !MemoryHolds(s, p) && pay.log == FOUR)
    && (p !in s.pool ==> 1 <= |pay.log| <= 4 && pay.log == FOUR[..|pay.log|])
    && (MemoryHolds(s, p) <==> p !in s.pool && |pay.log| < 4)
  }

  ghost predicate Safe(s: State) {
    && (forall p: nat | p < |s.payloads| :: PayloadSafe(s, p))
    && NoDup(s.pool) && (forall p | p in s.pool :: p < |s.payloads|)
    && (forall i, j | 0 <= i < j < |s.inits| :: s.inits[i].trans.Some? ==> s.inits[i].trans != s.inits[j].trans)
    && |s.payloads| <= |s.inits|
  }

  lemma HeldPayloadSafe(s: State, p: nat)
    requires Inv(s) && p < |s.payloads| && Held(s, p)
    ensures PayloadSafe(s, p)
  {
    var pay := s.payloads[p];
    var i := pay.buffer;
    assert OwnerOk(s, i);
    assert InitiatorHolds(s, p);
    if |pay.log| <= 3 {
      assert MemoryHolds(s, p);
    } else {
      forall e | e in s.peq
        ensures e.p != p
      {
        assert EntryOk(s, e);
      }
    }
  }

  lemma PooledPayloadSafe(s: State, p: nat)
    requires Inv(s) && p < |s.payloads| && p in s.pool
    ensures PayloadSafe(s, p)
  {
    forall i: nat | i < |s.inits|
      ensures s.inits[i].trans != Some(p)
    {
      assert OwnerOk(s, i);
    }
    forall e | e in s.peq
      ensures e.p != p
    {
      assert EntryOk(s, e);
    }
  }

  lemma InvPayloadSafe(s: State, p: nat)
    requires Inv(s) && p < |s.payloads|
    ensures PayloadSafe(s, p)
  {
    if p in s.pool {
      PooledPayloadSafe(s, p);
    } else {
      HeldPayloadSafe(s, p);
    }
  }

  lemma OneHolder(s: State, i: nat, j: nat)
    requires Inv(s) && i < |s.inits| && j < |s.inits| && s.inits[i].trans.Some? && s.inits[i].trans == s.inits[j].trans
    ensures i == j
  {
    HolderIsOwner(s, i, s.inits[i].trans.value);
    HolderIsOwner(s, j, s.inits[i].trans.value);
  }

  // ---- The pool bound ----

  /** N initiators never create more than N payloads: a new one is made only when all are
      held, by initiators other than the one that allocates. */
  ghost predicate Bounded(s: State) {
    |s.payloads| <= |s.inits|
  }

  lemma OwnersDistinct(s: State, p: nat, q: nat)
    requires Inv(s) && p < q < |s.payloads| && s.pool == []
    ensures s.payloads[p].buffer != s.payloads[q].buffer
  {
    assert Held(s, p) && Held(s, q);
  }

  lemma EmptyPoolBound(s: State, i: nat)
    requires Inv(s) && s.pool == [] && i < |s.inits| && s.inits[i].trans == None
    ensures |s.payloads| + 1 <= |s.inits|
  {
    var owners := seq(|s.payloads|, p requires 0 <= p < |s.payloads| => s.payloads[p].buffer) + [i];
    forall p, q | 0 <= p < q < |owners|
      ensures owners[p] != owners[q]
    {
      assert Held(s, p);
      if q < |s.payloads| {
        OwnersDistinct(s, p, q);
      }
    }
    forall x | x in owners
      ensures x < |s.inits|
    {
      var p :| 0 <= p < |owners| && owners[p] == x;
      if p < |s.payloads| {
        assert Held(s, p);
      }
    }
    Pigeonhole(owners, |s.inits|);
  }

  lemma StepBounded(s: State, st: Step)
    requires Inv(s) && Bounded(s) && Enabled(s, st)
    ensures Bounded(Apply(s, st)) && |Apply(s, st).inits| == |s.inits|
  {
    if st.Issue? {
      assert OwnerOk(s, st.i);
      if s.pool == [] {
        EmptyPoolBound(s, st.i);
      } else {
        assert s.pool[|s.pool| - 1] in s.pool;
      }
    }
  }

  lemma {:induction false} RunBounded(s: State, run: seq<Step>)
    requires Inv(s) && Bounded(s) && LegalRun(s, run)
    ensures Bounded(After(s, run))
    decreases |run|
  {
    if run != [] {
      StepInv(s, run[0]);
      StepBounded(s, run[0]);
      RunBounded(Apply(s, run[0]), run[1..]);
    }
  }

  /** Safety of the protocol over every run of N initiators: references count holders, no
      pooled payload is pending or held, nobody shares a payload, every payload goes through
      the four phases, and at most N payloads are ever created. */
  lemma RunsAreSafe(s: State, run: seq<Step>)
    requires Initial(s) && LegalRun(s, run)
    ensures Safe(After(s, run))
  {
    var t := After(s, run);
    InitialInv(s);
    RunInv(s, run);
    RunBounded(s, run);
    forall p: nat | p < |t.payloads|
      ensures PayloadSafe(t, p)
    {
      InvPayloadSafe(t, p);
    }
    forall i, j | 0 <= i < j < |t.inits| && t.inits[i].trans.Some?
      ensures t.inits[i].trans != t.inits[j].trans
    {
      if t.inits[i].trans == t.inits[j].trans {
        OneHolder(t, i, j);
      }
    }
  }

  // ---- Steps of reachable states ----

  /** A payload enters the pool exactly when its holder's thread releases it, after all four
      phases; it was not there before, so it is freed once per transaction. */
  lemma FreedOnce(s: State, st: Step, p: nat)
    requires Inv(s) && Enabled(s, st) && p < |s.payloads|
    ensures (p !in s.pool && p in Apply(s, st).pool) <==> (st.Release? && s.inits[st.i].trans == Some(p))
    ensures st.Release? && s.inits[st.i].trans == Some(p) ==> s.payloads[p].log == FOUR
  {
    match st {
      case Issue(_, _, _, _) => TakeOnlyShrinks(s, p);
      case Fire(e) =>
        FireFrame(s, e);
      case Release(i) => ReleaseIsLast(s, i);
      case _ =>
    }
  }

  lemma TakeOnlyShrinks(s: State, p: nat)
    requires Inv(s) && p < |s.payloads|
    ensures p in AfterTake(s.pool) ==> p in s.pool
  {
    NextIsNew(s);
    TakeMembers(s.pool, |s.payloads|);
  }

  /** The parts of an initiator that its word operation fixes at the issue. */
  predicate SameOperation(a: Initiator, b: Initiator) {
    a.trans == b.trans && a.command == b.command && a.addr == b.addr && a.issued == b.issued && a.stall == b.stall
  }

  /** A callback concerns its payload and the issuer, and moves neither the clock nor the pool. */
  lemma FireFrame(s: State, e: Entry)
    requires Inv(s) && Enabled(s, Fire(e))
    ensures var i, s' := s.payloads[e.p].buffer, DoFire(s, e);
            && s'.pool == s.pool && s'.now == s.now && s'.base == s.base && |s'.inits| == |s.inits|
            && |s'.payloads| == |s.payloads|
            && s'.inRefresh == s.inRefresh && s'.refreshStart == s.refreshStart && s'.refreshWake == s.refreshWake
            && SameOperation(s.inits[i], s'.inits[i])
            && (forall j | 0 <= j < |s.inits| && j != i :: s'.inits[j] == s.inits[j])
            && (e.phase != BeginReq ==> s'.mem == s.mem && s'.inits[i].word == s.inits[i].word)
            && s'.payloads == s.payloads[e.p := s'.payloads[e.p]]
            && |s'.payloads[e.p].log| == |s.payloads[e.p].log| + 1
  {
    FireIsDue(s, e);
    var i := s.payloads[e.p].buffer;
    match e.phase {
      case BeginReq => FireBeginReqIs(s, e, i);
      case BeginResp => FireBeginRespIs(s, e, i);
      case EndResp => FireEndRespIs(s, e, i);
      case EndReq =>
    }
  }

  /** Initiator j is inside its word operation, its request not yet acknowledged. */
  predicate InsideCall(s: State, j: nat)
    requires j < |s.inits|
  {
    s.inits[j].trans.Some? && s.inits[j].pc == AwaitEndReq && !s.inits[j].endReq
  }

  /** Memory touches memory and buffers only in a BEGIN_REQ callback, and then only the
      buffer of the issuer, which is still inside its call. */
  lemma AccessOnlyInsideCall(s: State, st: Step, j: nat)
    requires Inv(s) && Enabled(s, st) && j < |s.inits|
    requires Apply(s, st).mem != s.mem || (Apply(s, st).inits[j].word != s.inits[j].word && !st.Issue?)
    ensures st.Fire? && st.entry.phase == BeginReq
    ensures var i := s.payloads[st.entry.p].buffer;
            && i < |s.inits| && InsideCall(s, i) && s.inits[i].trans == Some(st.entry.p)
            && (Apply(s, st).inits[j].word != s.inits[j].word ==> i == j)
  {
    if st.Fire? {
      FireIsDue(s, st.entry);
      FireFrame(s, st.entry);
    }
  }

  /** END_REQ is routed to the issuer, 10 ns and its stall after the request; its thread waits
      for it, whatever context the recycled payload carried before; nobody else is notified. */
  lemma EndReqReachesIssuer(s: State, e: Entry)
    requires Inv(s) && Enabled(s, Fire(e)) && e.phase == BeginReq
    ensures var i, s' := s.payloads[e.p].buffer, Apply(s, Fire(e));
            && s.inits[i].trans == Some(e.p) && s.inits[i].pc == AwaitEndReq
            && s.now == s.inits[i].issued + s.inits[i].stall + 10
            && s'.inits[i].endReq && (forall j | 0 <= j < |s.inits| && j != i :: s'.inits[j] == s.inits[j])
  {
    FireIsDue(s, e);
    FireBeginReqIs(s, e, s.payloads[e.p].buffer);
  }

  /** BEGIN_RESP is routed to the issuer, whose thread waits for it, and carries the absolute
      address the issuer sent. */
  lemma BeginRespReachesIssuer(s: State, e: Entry)
    requires Inv(s) && Enabled(s, Fire(e)) && e.phase == BeginResp
    ensures var i, s' := s.payloads[e.p].buffer, Apply(s, Fire(e));
            && s.inits[i].trans == Some(e.p) && s.inits[i].pc == AwaitResp
            && s.now == s.inits[i].issued + s.inits[i].stall + 20
            && s'.inits[i].resp && s'.payloads[e.p].address == s.inits[i].addr
            && (forall j | 0 <= j < |s.inits| && j != i :: s'.inits[j] == s.inits[j])
  {
    FireIsDue(s, e);
    FireBeginRespIs(s, e, s.payloads[e.p].buffer);
  }

  /** A protocol step of others, or of memory, leaves an initiator its operation; only
      Advance moves the clock. */
  lemma InnerKeepsOperation(s: State, st: Step, i: nat)
    requires Inv(s) && Enabled(s, st) && i < |s.inits|
    requires st.Issue? || st.Release? ==> st.i != i
    ensures |Apply(s, st).inits| == |s.inits| && SameOperation(s.inits[i], Apply(s, st).inits[i])
    ensures Apply(s, st).now == (if st.Advance? then st.to else s.now) && Apply(s, st).base == s.base
    ensures !st.RefreshBegin? ==> Apply(s, st).refreshStart == s.refreshStart
  {
    if st.Fire? {
      FireFrame(s, st.entry);
    }
  }

  // ---- Progress ----

  /** Due times never pass: a pending entry is due now or later. */
  lemma EntriesAhead(s: State, e: Entry)
    requires Inv(s) && e in s.peq
    ensures s.now <= e.due && (e.due == s.now ==> Enabled(s, Fire(e)))
  {
    assert EntryOk(s, e);
    assert OwnerOk(s, s.payloads[e.p].buffer);
  }

  /** What an initiator or an entry can do now. */
  ghost predicate Pending(s: State) {
    || (exists e | e in s.peq :: e.due == s.now)
    || (exists i | 0 <= i < |s.inits| :: s.inits[i].endReq || s.inits[i].resp || s.inits[i].pc == AwaitRelease(s.now))
    || s.now == s.refreshWake
  }

  /** The system never deadlocks: in every reachable state something can happen without a
      new request, and if nothing is due now then time can pass. */
  lemma Progress(s: State) returns (st: Step)
    requires Inv(s)
    ensures Enabled(s, st) && !st.Issue? && (st.Advance? <==> !Pending(s))
    ensures st.Advance? ==> st.to == s.now + 1
  {
    if e :| e in s.peq && e.due == s.now {
      EntriesAhead(s, e);
      st := Fire(e);
    } else if i: nat :| i < |s.inits|
                        && (s.inits[i].endReq || s.inits[i].resp || s.inits[i].pc == AwaitRelease(s.now)) {
      assert OwnerOk(s, i);
      st := if s.inits[i].endReq then WakeEndReq(i) else if s.inits[i].resp then WakeResp(i) else Step.Release(i);
    } else if s.now == s.refreshWake {
      st := if s.inRefresh then RefreshEnd else RefreshBegin;
    } else {
      forall e | e in s.peq
        ensures s.now + 1 <= e.due
      {
        EntriesAhead(s, e);
      }
      forall i | 0 <= i < |s.inits| && s.inits[i].pc.AwaitRelease?
        ensures s.now + 1 <= s.inits[i].pc.wake
      {
        assert OwnerOk(s, i);
      }
      st := Advance(s.now + 1);
    }
  }

  /** A word operation takes its two latencies of 10 ns, the stall of its request and the final
      nanosecond, no more. */
  lemma WordTime(s: State, i: nat)
    requires Inv(s) && Enabled(s, Step.Release(i))
    ensures s.now == s.inits[i].issued + s.inits[i].stall + 21
  {
    assert OwnerOk(s, i);
  }

  // ---- Refresh ----

  /** Refresh recurs every 7870 ns, after 7800 ns without and for 70 ns. */
  predicate OnSchedule(s: State) {
    if s.inRefresh then
      s.refreshStart % 7870 == 7800 && s.refreshWake == s.refreshStart + 70 && s.refreshStart <= s.now <= s.refreshWake
    else
      s.refreshWake % 7870 == 7800 && s.refreshWake - 7800 <= s.now <= s.refreshWake
  }

  lemma StepOnSchedule(s: State, st: Step)
    requires OnSchedule(s) && Enabled(s, st)
    ensures OnSchedule(Apply(s, st))
  {
    if st == RefreshEnd {
      NextPeriod(s.refreshStart);
    }
  }

  lemma NextPeriod(start: nat)
    requires start % 7870 == 7800
    ensures (start + 70 + 7800) % 7870 == 7800
  {
  }

  lemma {:induction false} RunOnSchedule(s: State, run: seq<Step>)
    requires OnSchedule(s) && LegalRun(s, run)
    ensures OnSchedule(After(s, run))
    decreases |run|
  {
    if run != [] {
      StepOnSchedule(s, run[0]);
      RunOnSchedule(Apply(s, run[0]), run[1..]);
    }
  }

  lemma Window(s: State)
    requires OnSchedule(s)
    ensures var r := s.now % 7870; (s.inRefresh ==> r >= 7800 || r == 0) && (!s.inRefresh ==> r <= 7800)
    ensures s.inRefresh && s.now % 7870 >= 7800 ==> s.refreshStart + 70 - s.now == 7870 - s.now % 7870
    ensures s.inRefresh && s.now % 7870 == 0 ==> s.now == s.refreshStart + 70
  {
  }

  /** In every run memory is in refresh during the last 70 ns of each 7870, and a request that
      finds it so is stalled to their end. */
  lemma RefreshSchedule(s: State, run: seq<Step>)
    requires Initial(s) && LegalRun(s, run)
    ensures var t := After(s, run);
            var r := t.now % 7870;
            && (0 < r < 7800 ==> !t.inRefresh && Penalty(t) == 0)
            && (7800 < r ==> t.inRefresh && Penalty(t) == 7870 - r)
            && (r == 7800 ==> Penalty(t) == if t.inRefresh then 70 else 0)
            && (r == 0 ==> Penalty(t) == 0)
  {
    RunOnSchedule(s, run);
    Window(After(s, run));
  }
}
