/** The invariant of the four-phase protocol and its preservation by every step. */
module AtInvariant {
  import opened Words
  import opened Tlm
  import opened MemoryModel
  import opened InterconnectModel
  import opened PayloadPool
  import opened AtProtocol

  /** The four phases of the base protocol, in order. */
  const FOUR: seq<Phase> := [BeginReq, EndReq, BeginResp, EndResp]

  /** When the initiator's request reaches memory, and when the response leaves it. */
  function AccessTime(ini: Initiator): nat { ini.issued + ini.stall + Latency(ini.command) }

  function ResponseTime(ini: Initiator): nat { AccessTime(ini) + Latency(ini.command) }

  /** The queue entry memory still owes the transaction after k of its phases. */
  function Owed(ini: Initiator, p: nat, k: nat): Entry
    requires 1 <= k <= 3
  {
    if k == 1 then Entry(p, BeginReq, AccessTime(ini))
    else if k == 2 then Entry(p, BeginResp, ResponseTime(ini))
    else Entry(p, EndResp, ResponseTime(ini))
  }

  /** Where the thread may stand at time now when its transaction went through k phases:
      it always waits for the event the next response notifies. */
  predicate ThreadOk(ini: Initiator, k: nat, now: nat) {
    if k == 1 then ini.pc == AwaitEndReq && !ini.endReq && !ini.resp && now <= AccessTime(ini)
    else if k == 2 then
      && !ini.resp
      && ((ini.pc == AwaitEndReq && ini.endReq && now == AccessTime(ini))
          || (ini.pc == AwaitResp && !ini.endReq && AccessTime(ini) <= now <= ResponseTime(ini)))
    else
      && !ini.endReq
      && ((ini.pc == AwaitResp && ini.resp && now == ResponseTime(ini))
          || (ini.pc == AwaitRelease(ResponseTime(ini) + 1) && !ini.resp
              && ResponseTime(ini) <= now <= (if k == 3 then ResponseTime(ini) else ResponseTime(ini) + 1)))
  }

  /** What the held payload carries: its issuer's buffer, address and routing, and one
      reference per holder. */
  predicate CarriesOk(ini: Initiator, i: nat, pay: Payload) {
    var k := |pay.log|;
    && 1 <= k <= 4 && pay.log == FOUR[..k]
    && pay.buffer == i && pay.command == ini.command && ini.command != Ignore
    && InMemory(ini.addr) && pay.hop == Some(HopCtx(ini.addr, i))
    && pay.address == (if k <= 2 then Phys(ini.addr) else ini.addr)
    && pay.refs == (if k <= 3 then 2 else 1)
  }

  /** The state of initiator i and its transaction, if any. */
  predicate OwnerOk(s: State, i: nat)
    requires i < |s.inits|
  {
    var ini := s.inits[i];
    match ini.trans
    case None => ini.pc == Idle && !ini.endReq && !ini.resp
    case Some(p) =>
      && p < |s.payloads| && p !in s.pool
      && CarriesOk(ini, i, s.payloads[p]) && ThreadOk(ini, |s.payloads[p].log|, s.now)
      && (|s.payloads[p].log| <= 3 ==> Owed(ini, p, |s.payloads[p].log|) in s.peq)
  }

  /** Payload p is held by the initiator whose buffer it points to. */
  predicate Held(s: State, p: nat)
    requires p < |s.payloads|
  {
    s.payloads[p].buffer < |s.inits| && s.inits[s.payloads[p].buffer].trans == Some(p)
  }

  /** A pending entry belongs to a held payload and is the one memory owes it. */
  predicate EntryOk(s: State, e: Entry) {
    && e.p < |s.payloads| && Held(s, e.p)
    && 1 <= |s.payloads[e.p].log| <= 3
    && e == Owed(s.inits[s.payloads[e.p].buffer], e.p, |s.payloads[e.p].log|)
  }

  ghost predicate Owners(s: State) {
    forall i: nat | i < |s.inits| :: OwnerOk(s, i)
  }

  predicate Queue(s: State) {
    forall e | e in s.peq :: EntryOk(s, e)
  }

  ghost predicate PoolOk(s: State) {
    && NoDup(s.pool)
    && forall p | p in s.pool :: p < |s.payloads| && s.payloads[p].refs == 0 && s.payloads[p].log == FOUR
  }

  /** Every payload ever created is pooled or held. */
  ghost predicate Conserved(s: State) {
    forall p: nat | p < |s.payloads| :: p in s.pool || Held(s, p)
  }

  predicate RefreshOk(s: State) {
    && s.refreshStart <= s.now <= s.refreshWake
    && (s.inRefresh ==> s.refreshWake == s.refreshStart + T_RFC)
  }

  ghost predicate Inv(s: State) {
    Owners(s) && Queue(s) && PoolOk(s) && Conserved(s) && RefreshOk(s)
  }

  lemma InitialInv(s: State)
    requires Initial(s)
    ensures Inv(s)
  {
  }

  // ---- Frame: a step of initiator i and payload p leaves the others as they are ----

  /** s' differs from s at most in initiator i, payload p, p's queue entries and p's place
      in the pool, and no other initiator holds p. */
  ghost predicate Frame(s: State, s': State, i: nat, p: nat) {
    && i < |s.inits| == |s'.inits|
    && (forall j: nat | j < |s.inits| && j != i :: s'.inits[j] == s.inits[j] && s.inits[j].trans != Some(p))
    && |s.payloads| <= |s'.payloads| && p < |s'.payloads|
    && (forall q: nat | q < |s'.payloads| && q != p :: q < |s.payloads| && s'.payloads[q] == s.payloads[q])
    && (forall e: Entry | e.p != p :: e in s'.peq <==> e in s.peq)
    && (forall q: nat | q != p :: q in s'.pool <==> q in s.pool)
    && s'.now == s.now
    && s.inits[i].trans in {None, Some(p)} && s'.inits[i].trans in {None, Some(p)}
  }

  lemma FrameOwner(s: State, s': State, i: nat, p: nat, j: nat)
    requires Inv(s) && Frame(s, s', i, p) && j < |s.inits| && j != i
    ensures OwnerOk(s', j)
  {
    assert OwnerOk(s, j);
  }

  lemma FrameEntry(s: State, s': State, i: nat, p: nat, e: Entry)
    requires Inv(s) && Frame(s, s', i, p) && e in s'.peq && e.p != p
    ensures EntryOk(s', e)
  {
    assert EntryOk(s, e);
  }

  lemma FrameHeld(s: State, s': State, i: nat, p: nat, q: nat)
    requires Inv(s) && Frame(s, s', i, p) && q < |s'.payloads| && q != p
    ensures q in s'.pool || Held(s', q)
  {
    var pay := s'.payloads[q];
    assert pay == s.payloads[q];
    assert q in s.pool || Held(s, q);
  }

  /** What remains to check after such a step. */
  ghost predicate LocalOk(s': State, i: nat, p: nat) {
    && i < |s'.inits| && OwnerOk(s', i)
    && (forall e | e in s'.peq && e.p == p :: EntryOk(s', e))
    && NoDup(s'.pool) && p < |s'.payloads|
    && (p in s'.pool ==> s'.payloads[p].refs == 0 && s'.payloads[p].log == FOUR)
    && (p in s'.pool || Held(s', p))
    && RefreshOk(s')
  }

  lemma FrameInv(s: State, s': State, i: nat, p: nat)
    requires Inv(s) && Frame(s, s', i, p) && LocalOk(s', i, p)
    ensures Inv(s')
  {
    forall j: nat | j < |s'.inits|
      ensures OwnerOk(s', j)
    {
      if j != i {
        FrameOwner(s, s', i, p, j);
      }
    }
    forall e | e in s'.peq
      ensures EntryOk(s', e)
    {
      if e.p != p {
        FrameEntry(s, s', i, p, e);
      }
    }
    forall q: nat | q < |s'.payloads|
      ensures q in s'.pool || Held(s', q)
    {
      if q != p {
        FrameHeld(s, s', i, p, q);
      }
    }
    forall q | q in s'.pool
      ensures q < |s'.payloads| && s'.payloads[q].refs == 0 && s'.payloads[q].log == FOUR
    {
      if q != p {
        assert q in s.pool;
      }
    }
  }

  /** Only its owner holds a payload. */
  lemma HolderIsOwner(s: State, j: nat, p: nat)
    requires Inv(s) && j < |s.inits| && s.inits[j].trans == Some(p)
    ensures p < |s.payloads| && s.payloads[p].buffer == j
  {
    assert OwnerOk(s, j);
  }

  // ---- The steps of one initiator ----

  /** Allocation takes one object and leaves the rest of the pool. */
  lemma TakeMembers(pool: seq<nat>, next: nat)
    requires NoDup(pool) && next !in pool
    ensures var p := Taken(pool, next);
            && NoDup(AfterTake(pool)) && p !in AfterTake(pool) && (p == next || p in pool)
            && forall q: nat | q != p :: q in AfterTake(pool) <==> q in pool
  {
    var p := Taken(pool, next);
    forall q: nat | q != p && q in pool
      ensures q in AfterTake(pool)
    {
      var k :| 0 <= k < |pool| && pool[k] == q;
      assert AfterTake(pool)[k] == q;
    }
  }

  lemma NextIsNew(s: State)
    requires Inv(s)
    ensures |s.payloads| !in s.pool
  {
  }

  /** The object allocate returns is held by nobody and has no pending entry. */
  lemma TakenIsFree(s: State, j: nat)
    requires Inv(s) && j < |s.inits|
    ensures s.inits[j].trans != Some(Taken(s.pool, |s.payloads|))
  {
    assert OwnerOk(s, j);
  }

  lemma TakenHasNoEntry(s: State, e: Entry)
    requires Inv(s) && e in s.peq
    ensures e.p != Taken(s.pool, |s.payloads|)
  {
    assert EntryOk(s, e);
    TakenIsFree(s, s.payloads[e.p].buffer);
  }

  lemma IssueFrame(s: State, st: Step)
    requires Inv(s) && st.Issue? && Enabled(s, st)
    ensures Frame(s, Apply(s, st), st.i, Taken(s.pool, |s.payloads|))
  {
    var s', p := Apply(s, st), Taken(s.pool, |s.payloads|);
    NextIsNew(s);
    TakeMembers(s.pool, |s.payloads|);
    forall j: nat | j < |s.inits|
      ensures s.inits[j].trans != Some(p)
    {
      TakenIsFree(s, j);
    }
    assert OwnerOk(s, st.i);
  }

  lemma IssueLocal(s: State, st: Step)
    requires Inv(s) && st.Issue? && Enabled(s, st)
    ensures LocalOk(Apply(s, st), st.i, Taken(s.pool, |s.payloads|))
  {
    var s', p := Apply(s, st), Taken(s.pool, |s.payloads|);
    NextIsNew(s);
    TakeMembers(s.pool, |s.payloads|);
    assert OwnerOk(s, st.i);
    forall e | e in s'.peq && e.p == p
      ensures EntryOk(s', e)
    {
      if e in s.peq {
        TakenHasNoEntry(s, e);
      }
    }
  }

  lemma IssueInv(s: State, st: Step)
    requires Inv(s) && st.Issue? && Enabled(s, st)
    ensures Inv(Apply(s, st))
  {
    IssueFrame(s, st);
    IssueLocal(s, st);
    FrameInv(s, Apply(s, st), st.i, Taken(s.pool, |s.payloads|));
  }

  // ---- Callbacks of the event queue ----

  /** What is known of a pending entry: its owner holds the payload, waits for the event its
      phase will notify, and owes exactly this entry. */
  ghost predicate Due(s: State, e: Entry, i: nat) {
    && e in s.peq && e.due == s.now
    && e.p < |s.payloads| && s.payloads[e.p].buffer == i < |s.inits|
    && s.inits[i].trans == Some(e.p)
    && OwnerOk(s, i) && |s.payloads[e.p].log| <= 3 && e == Owed(s.inits[i], e.p, |s.payloads[e.p].log|)
  }

  lemma FireIsDue(s: State, e: Entry)
    requires Inv(s) && Enabled(s, Fire(e))
    ensures Due(s, e, s.payloads[e.p].buffer) && e.phase != EndReq
  {
    assert EntryOk(s, e);
    assert OwnerOk(s, s.payloads[e.p].buffer);
  }

  /** END_REQ reaches the issuer, who is waiting for it. */
  lemma FireBeginReqIs(s: State, e: Entry, i: nat)
    requires Due(s, e, i) && e.phase == BeginReq
    ensures s.inits[i].pc == AwaitEndReq && !s.inits[i].endReq && s.now == AccessTime(s.inits[i])
    ensures s.payloads[e.p].log == FOUR[..1]
    ensures var pay := s.payloads[e.p];
            var (mem, word) := Effect(s, pay);
            FireBeginReq(s, e) ==
              s.(mem := mem,
                 inits := s.inits[i := s.inits[i].(word := word, endReq := true)],
                 payloads := s.payloads[e.p := pay.(log := FOUR[..2])],
                 peq := s.peq - {e} + {Entry(e.p, BeginResp, ResponseTime(s.inits[i]))})
  {
    var pay := s.payloads[e.p];
    assert |pay.log| == 1;
    assert FOUR[..1] + [EndReq] == FOUR[..2];
    var (mem, word) := Effect(s, pay);
    var ini := s.inits[i].(word := word);
    assert Backward(Carried(pay.address, pay.hop), EndReq) == (Carried(pay.address, pay.hop), i);
    assert s.inits[i := ini][i := ini.(endReq := true)] == s.inits[i := ini.(endReq := true)];
  }

  /** BEGIN_RESP reaches the issuer, who is waiting for it, with the address it issued. */
  lemma FireBeginRespIs(s: State, e: Entry, i: nat)
    requires Due(s, e, i) && e.phase == BeginResp
    ensures s.inits[i].pc == AwaitResp && !s.inits[i].resp && s.now == ResponseTime(s.inits[i])
    ensures s.payloads[e.p].log == FOUR[..2]
    ensures var pay := s.payloads[e.p];
            FireBeginResp(s, e) ==
              s.(inits := s.inits[i := s.inits[i].(resp := true)],
                 payloads := s.payloads[e.p := pay.(address := s.inits[i].addr, log := FOUR[..3])],
                 peq := s.peq - {e} + {Entry(e.p, EndResp, ResponseTime(s.inits[i]))})
  {
    var pay := s.payloads[e.p];
    assert |pay.log| == 2;
    assert FOUR[..2] + [BeginResp] == FOUR[..3];
    assert Backward(Carried(pay.address, pay.hop), BeginResp) == (Carried(s.inits[i].addr, pay.hop), i);
  }

  /** Memory's reference goes; the initiator's remains, so nothing is freed here. */
  lemma FireEndRespIs(s: State, e: Entry, i: nat)
    requires Due(s, e, i) && e.phase == EndResp
    ensures s.payloads[e.p].log == FOUR[..3] && s.payloads[e.p].refs == 2
    ensures DoFire(s, e) ==
              s.(payloads := s.payloads[e.p := s.payloads[e.p].(log := FOUR[..4], refs := 1)], peq := s.peq - {e})
  {
    var pay := s.payloads[e.p];
    assert |pay.log| == 3;
    assert FOUR[..3] + [EndResp] == FOUR[..4];
    var t := Logged(s, e);
    assert t.payloads[e.p := t.payloads[e.p].(refs := 1)] == s.payloads[e.p := pay.(log := FOUR[..4], refs := 1)];
  }

  /** A payload has one pending entry at most. */
  lemma OneEntry(s: State, e: Entry, f: Entry)
    requires Inv(s) && e in s.peq && f in s.peq && e.p == f.p
    ensures e == f
  {
    assert EntryOk(s, e) && EntryOk(s, f);
  }

  /** A step that changes initiator i, its payload and its entry only. */
  ghost predicate Moves(s: State, s': State, i: nat, p: nat) {
    && i < |s.inits| && p < |s.payloads| && s.inits[i].trans == Some(p)
    && |s'.inits| == |s.inits| && s'.inits == s.inits[i := s'.inits[i]]
    && |s'.payloads| == |s.payloads| && s'.payloads == s.payloads[p := s'.payloads[p]]
    && (forall e: Entry | e.p != p :: e in s'.peq <==> e in s.peq)
    && s'.pool == s.pool && s'.now == s.now
    && s'.inits[i].trans == Some(p)
    && s'.refreshStart == s.refreshStart && s'.refreshWake == s.refreshWake && s'.inRefresh == s.inRefresh
  }

  lemma MovesFrame(s: State, s': State, i: nat, p: nat)
    requires Inv(s) && Moves(s, s', i, p)
    ensures Frame(s, s', i, p)
  {
    HolderIsOwner(s, i, p);
    forall j: nat | j < |s.inits| && j != i
      ensures s.inits[j].trans != Some(p)
    {
      if s.inits[j].trans == Some(p) {
        HolderIsOwner(s, j, p);
      }
    }
  }

  lemma MovesInv(s: State, s': State, i: nat, p: nat)
    requires Inv(s) && Moves(s, s', i, p) && OwnerOk(s', i)
    requires forall e | e in s'.peq && e.p == p ::
               1 <= |s'.payloads[p].log| <= 3 && e == Owed(s'.inits[i], p, |s'.payloads[p].log|)
    ensures Inv(s')
  {
    MovesFrame(s, s', i, p);
    assert OwnerOk(s, i);
    FrameInv(s, s', i, p);
  }

  lemma FireBeginReqInv(s: State, e: Entry)
    requires Inv(s) && Enabled(s, Fire(e)) && e.phase == BeginReq
    ensures Inv(FireBeginReq(s, e))
  {
    var i, s' := s.payloads[e.p].buffer, FireBeginReq(s, e);
    FireIsDue(s, e);
    FireBeginReqIs(s, e, i);
    forall f | f in s'.peq && f.p == e.p
      ensures f == Owed(s'.inits[i], e.p, 2)
    {
      if f in s.peq {
        OneEntry(s, e, f);
      }
    }
    MovesInv(s, s', i, e.p);
  }

  lemma FireBeginRespInv(s: State, e: Entry)
    requires Inv(s) && Enabled(s, Fire(e)) && e.phase == BeginResp
    ensures Inv(FireBeginResp(s, e))
  {
    var i, s' := s.payloads[e.p].buffer, FireBeginResp(s, e);
    FireIsDue(s, e);
    FireBeginRespIs(s, e, i);
    forall f | f in s'.peq && f.p == e.p
      ensures f == Owed(s'.inits[i], e.p, 3)
    {
      if f in s.peq {
        OneEntry(s, e, f);
      }
    }
    MovesInv(s, s', i, e.p);
  }

  lemma FireEndRespInv(s: State, e: Entry)
    requires Inv(s) && Enabled(s, Fire(e)) && e.phase == EndResp
    ensures Inv(DoFire(s, e))
  {
    var i, s' := s.payloads[e.p].buffer, DoFire(s, e);
    FireIsDue(s, e);
    FireEndRespIs(s, e, i);
    forall f | f in s'.peq && f.p == e.p
      ensures false
    {
      OneEntry(s, e, f);
    }
    MovesInv(s, s', i, e.p);
  }

  // ---- Thread resumptions ----

  lemma WakeInv(s: State, st: Step)
    requires Inv(s) && (st.WakeEndReq? || st.WakeResp?) && Enabled(s, st)
    ensures Inv(Apply(s, st))
  {
    var s' := Apply(s, st);
    assert OwnerOk(s, st.i);
    var p := s.inits[st.i].trans.value;
    forall f | f in s'.peq && f.p == p
      ensures 1 <= |s.payloads[p].log| <= 3 && f == Owed(s'.inits[st.i], p, |s.payloads[p].log|)
    {
      assert EntryOk(s, f);
    }
    MovesInv(s, s', st.i, p);
  }

  /** The initiator's release is the last one: memory's reference went a nanosecond before. */
  lemma ReleaseIsLast(s: State, i: nat)
    requires Inv(s) && Enabled(s, Step.Release(i))
    ensures var p := s.inits[i].trans.value;
            && s.payloads[p].log == FOUR && s.payloads[p].refs == 1 && p !in s.pool
            && (forall e | e in s.peq :: e.p != p)
            && Apply(s, Step.Release(i)) ==
                 s.(payloads := s.payloads[p := s.payloads[p].(refs := 0)], pool := s.pool + [p],
                    inits := s.inits[i := s.inits[i].(pc := Idle, trans := None)])
  {
    assert OwnerOk(s, i);
    var p := s.inits[i].trans.value;
    assert FOUR[..4] == FOUR;
    forall e | e in s.peq
      ensures e.p != p
    {
      assert EntryOk(s, e);
    }
  }

  lemma ReleaseFrame(s: State, i: nat)
    requires Inv(s) && Enabled(s, Step.Release(i))
    ensures Frame(s, Apply(s, Step.Release(i)), i, s.inits[i].trans.value)
  {
    var p := s.inits[i].trans.value;
    ReleaseIsLast(s, i);
    HolderIsOwner(s, i, p);
    forall j: nat | j < |s.inits| && j != i
      ensures s.inits[j].trans != Some(p)
    {
      if s.inits[j].trans == Some(p) {
        HolderIsOwner(s, j, p);
      }
    }
  }

  lemma ReleaseInv(s: State, i: nat)
    requires Inv(s) && Enabled(s, Step.Release(i))
    ensures Inv(Apply(s, Step.Release(i)))
  {
    ReleaseIsLast(s, i);
    ReleaseFrame(s, i);
    assert OwnerOk(s, i);
    FrameInv(s, Apply(s, Step.Release(i)), i, s.inits[i].trans.value);
  }

  // ---- Refresh and time ----

  /** Steps that leave everything but the clock and the refresh state alone. */
  predicate OnlyClock(s: State, s': State) {
    && s'.payloads == s.payloads && s'.pool == s.pool && s'.peq == s.peq && s'.inits == s.inits
    && s'.mem == s.mem && s'.base == s.base
  }

  lemma ClockInv(s: State, s': State)
    requires Inv(s) && OnlyClock(s, s') && RefreshOk(s')
    requires forall i: nat | i < |s.inits| && s.inits[i].trans.Some? :: OwnerOk(s', i)
    ensures Inv(s')
  {
    forall i: nat | i < |s'.inits|
      ensures OwnerOk(s', i)
    {
      assert OwnerOk(s, i);
    }
    forall e | e in s'.peq
      ensures EntryOk(s', e)
    {
      assert EntryOk(s, e);
    }
    forall p: nat | p < |s'.payloads|
      ensures p in s'.pool || Held(s', p)
    {
      assert p in s.pool || Held(s, p);
    }
  }

  lemma RefreshInv(s: State, st: Step)
    requires Inv(s) && (st.RefreshBegin? || st.RefreshEnd?) && Enabled(s, st)
    ensures Inv(Apply(s, st))
  {
    forall i: nat | i < |s.inits| && s.inits[i].trans.Some?
      ensures OwnerOk(Apply(s, st), i)
    {
      assert OwnerOk(s, i);
    }
    ClockInv(s, Apply(s, st));
  }

  /** Time passes no deadline of a transaction. */
  lemma AdvanceOwner(s: State, to: nat, i: nat)
    requires Inv(s) && Enabled(s, Advance(to)) && i < |s.inits|
    ensures OwnerOk(s.(now := to), i)
  {
    assert OwnerOk(s, i);
    var ini := s.inits[i];
    assert !ini.endReq && !ini.resp;
    if ini.trans.Some? {
      var k := |s.payloads[ini.trans.value].log|;
      if k <= 3 {
        assert to <= Owed(ini, ini.trans.value, k).due;
      }
    }
  }

  lemma AdvanceInv(s: State, to: nat)
    requires Inv(s) && Enabled(s, Advance(to))
    ensures Inv(s.(now := to))
  {
    forall i: nat | i < |s.inits|
      ensures OwnerOk(s.(now := to), i)
    {
      AdvanceOwner(s, to, i);
    }
    ClockInv(s, s.(now := to));
  }

  // ---- All runs ----

  lemma StepInv(s: State, st: Step)
    requires Inv(s) && Enabled(s, st)
    ensures Inv(Apply(s, st))
  {
    match st {
      case Issue(_, _, _, _) => IssueInv(s, st);
      case Fire(e) =>
        FireIsDue(s, e);
        if e.phase == BeginReq {
          FireBeginReqInv(s, e);
        } else if e.phase == BeginResp {
          FireBeginRespInv(s, e);
        } else {
          FireEndRespInv(s, e);
        }
      case WakeEndReq(_) => WakeInv(s, st);
      case WakeResp(_) => WakeInv(s, st);
      case Release(i) => ReleaseInv(s, i);
      case RefreshBegin => RefreshInv(s, st);
      case RefreshEnd => RefreshInv(s, st);
      case Advance(to) => AdvanceInv(s, to);
    }
  }

  lemma {:induction false} RunInv(s: State, run: seq<Step>)
    requires Inv(s) && LegalRun(s, run)
    ensures Inv(After(s, run))
    decreases |run|
  {
    if run != [] {
      StepInv(s, run[0]);
      RunInv(Apply(s, run[0]), run[1..]);
    }
  }
}
