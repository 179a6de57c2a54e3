/** No run of the protocol stays at one instant: the steps possible at one time are bounded
    by the number of initiators. */
module AtTermination {
  import opened Tlm
  import opened PayloadPool
  import opened AtProtocol
  import opened AtInvariant
  import opened AtSafety

  /** How many steps initiator i and its transaction can still take before time passes. */
  function Rank(s: State, i: nat): (r: nat)
    requires i < |s.inits|
    ensures r <= 3
  {
    var ini := s.inits[i];
    if ini.trans.None? || ini.trans.value >= |s.payloads| then 1
    else
      var k := |s.payloads[ini.trans.value].log|;
      if k <= 1 then (if s.now == AccessTime(ini) then 2 else 0)
      else if k == 2 then (if ini.endReq then 1 else if s.now == ResponseTime(ini) then 3 else 0)
      else if k == 3 then (if ini.resp then 2 else 1)
      else if ini.resp then 1 else if ini.pc == AwaitRelease(s.now) then 2 else 0
  }

  function RankSum(s: State, n: nat): (r: nat)
    requires n <= |s.inits|
    ensures r <= 3 * n
  {
    if n == 0 then 0 else RankSum(s, n - 1) + Rank(s, n - 1)
  }

  /** The steps the whole system can still take at this instant. */
  function Work(s: State): (w: nat)
    ensures w <= 3 * |s.inits| + 1
  {
    RankSum(s, |s.inits|) + (if s.now == s.refreshWake then 1 else 0)
  }

  lemma {:induction false} SumSame(s: State, s': State, n: nat)
    requires n <= |s.inits| == |s'.inits|
    requires forall j: nat | j < n :: Rank(s', j) == Rank(s, j)
    ensures RankSum(s', n) == RankSum(s, n)
  {
    if n > 0 {
      SumSame(s, s', n - 1);
    }
  }

  lemma {:induction false} SumDrops(s: State, s': State, i: nat, n: nat)
    requires i < n <= |s.inits| == |s'.inits|
    requires forall j: nat | j < n && j != i :: Rank(s', j) == Rank(s, j)
    requires Rank(s', i) < Rank(s, i)
    ensures RankSum(s', n) < RankSum(s, n)
  {
    if n - 1 > i {
      SumDrops(s, s', i, n - 1);
    } else {
      SumSame(s, s', n - 1);
    }
  }

  /** A step of initiator i leaves the rank of the others. */
  lemma OtherRank(s: State, s': State, i: nat, p: nat, j: nat)
    requires Inv(s) && Frame(s, s', i, p) && j < |s.inits| && j != i
    ensures Rank(s', j) == Rank(s, j)
  {
    assert OwnerOk(s, j);
  }

  lemma LocalWork(s: State, s': State, i: nat, p: nat)
    requires Inv(s) && Frame(s, s', i, p) && s'.refreshWake == s.refreshWake && Rank(s', i) < Rank(s, i)
    ensures Work(s') < Work(s)
  {
    forall j: nat | j < |s.inits| && j != i
      ensures Rank(s', j) == Rank(s, j)
    {
      OtherRank(s, s', i, p, j);
    }
    SumDrops(s, s', i, |s.inits|);
  }

  lemma IssueWork(s: State, st: Step)
    requires Inv(s) && st.Issue? && Enabled(s, st)
    ensures Work(Apply(s, st)) < Work(s)
  {
    IssueFrame(s, st);
    assert OwnerOk(s, st.i);
    LocalWork(s, Apply(s, st), st.i, Taken(s.pool, |s.payloads|));
  }

  lemma FireBeginReqWork(s: State, e: Entry)
    requires Inv(s) && Enabled(s, Fire(e)) && e.phase == BeginReq
    ensures Work(FireBeginReq(s, e)) < Work(s)
  {
    var i := s.payloads[e.p].buffer;
    FireIsDue(s, e);
    FireBeginReqIs(s, e, i);
    MovesFrame(s, FireBeginReq(s, e), i, e.p);
    LocalWork(s, FireBeginReq(s, e), i, e.p);
  }

  lemma FireBeginRespWork(s: State, e: Entry)
    requires Inv(s) && Enabled(s, Fire(e)) && e.phase == BeginResp
    ensures Work(FireBeginResp(s, e)) < Work(s)
  {
    var i := s.payloads[e.p].buffer;
    FireIsDue(s, e);
    FireBeginRespIs(s, e, i);
    MovesFrame(s, FireBeginResp(s, e), i, e.p);
    LocalWork(s, FireBeginResp(s, e), i, e.p);
  }

  lemma FireEndRespWork(s: State, e: Entry)
    requires Inv(s) && Enabled(s, Fire(e)) && e.phase == EndResp
    ensures Work(DoFire(s, e)) < Work(s)
  {
    var i := s.payloads[e.p].buffer;
    FireIsDue(s, e);
    FireEndRespIs(s, e, i);
    MovesFrame(s, DoFire(s, e), i, e.p);
    LocalWork(s, DoFire(s, e), i, e.p);
  }

  lemma WakeWork(s: State, st: Step)
    requires Inv(s) && (st.WakeEndReq? || st.WakeResp?) && Enabled(s, st)
    ensures Work(Apply(s, st)) < Work(s)
  {
    assert OwnerOk(s, st.i);
    var p := s.inits[st.i].trans.value;
    MovesFrame(s, Apply(s, st), st.i, p);
    LocalWork(s, Apply(s, st), st.i, p);
  }

  lemma ReleaseWork(s: State, i: nat)
    requires Inv(s) && Enabled(s, Step.Release(i))
    ensures Work(Apply(s, Step.Release(i))) < Work(s)
  {
    ReleaseIsLast(s, i);
    assert OwnerOk(s, i);
    ReleaseFrame(s, i);
    LocalWork(s, Apply(s, Step.Release(i)), i, s.inits[i].trans.value);
  }

  lemma RefreshWork(s: State, st: Step)
    requires Inv(s) && (st.RefreshBegin? || st.RefreshEnd?) && Enabled(s, st)
    ensures Work(Apply(s, st)) < Work(s)
  {
    SumSame(s, Apply(s, st), |s.inits|);
  }

  /** Every step but the passing of time leaves less to do at this instant. */
  lemma StepWork(s: State, st: Step)
    requires Inv(s) && Enabled(s, st) && !st.Advance?
    ensures Work(Apply(s, st)) < Work(s)
  {
    match st {
      case Issue(_, _, _, _) => IssueWork(s, st);
      case Fire(e) =>
        FireIsDue(s, e);
        if e.phase == BeginReq {
          FireBeginReqWork(s, e);
        } else if e.phase == BeginResp {
          FireBeginRespWork(s, e);
        } else {
          FireEndRespWork(s, e);
        }
      case WakeEndReq(_) => WakeWork(s, st);
      case WakeResp(_) => WakeWork(s, st);
      case Release(i) => ReleaseWork(s, i);
      case RefreshBegin => RefreshWork(s, st);
      case RefreshEnd => RefreshWork(s, st);
      case Advance(_) =>
    }
  }

  /** The steps left until time `end`, at most. */
  function Potential(s: State, end: nat): nat
    requires s.now <= end
  {
    Steps(end - s.now, 3 * |s.inits| + 2) + Work(s)
  }

  /** At most c steps at each of t instants: t * c of them. */
  function Steps(t: nat, c: nat): nat {
    if t == 0 then 0 else c + Steps(t - 1, c)
  }

  lemma {:induction false} FewerSteps(c: nat, a: nat, b: nat)
    requires a < b
    ensures Steps(a, c) + c <= Steps(b, c)
  {
    if a + 1 < b {
      FewerSteps(c, a, b - 1);
    }
  }

  lemma StepPotential(s: State, st: Step, end: nat)
    requires Inv(s) && Enabled(s, st) && Apply(s, st).now <= end
    ensures s.now <= end && Potential(Apply(s, st), end) < Potential(s, end)
  {
    var s', c := Apply(s, st), 3 * |s.inits| + 2;
    ClockStays(s, st);
    if st.Advance? {
      FewerSteps(c, end - s'.now, end - s.now);
    } else {
      StepWork(s, st);
    }
  }

  /** The number of steps a run takes up to time `end` is bounded: so, with Progress, every
      run that goes on reaches every later time. */
  lemma {:induction false} RunLength(s: State, run: seq<Step>, end: nat)
    requires Inv(s) && LegalRun(s, run) && After(s, run).now <= end
    ensures s.now <= end && |run| <= Potential(s, end)
    decreases |run|
  {
    TimeForward(s, run);
    if run != [] {
      StepInv(s, run[0]);
      RunLength(Apply(s, run[0]), run[1..], end);
      StepPotential(s, run[0], end);
    }
  }

  /** A step other than its own release leaves a busy initiator its operation. */
  lemma StaysBusy(s: State, st: Step, i: nat)
    requires Inv(s) && Enabled(s, st) && i < |s.inits| && s.inits[i].trans.Some? && st != Step.Release(i)
    ensures i < |Apply(s, st).inits| && SameOperation(s.inits[i], Apply(s, st).inits[i])
  {
    assert OwnerOk(s, i);
    InnerKeepsOperation(s, st, i);
  }

  /** No wake-up is lost: in every run that goes on past its response time and the final
      nanosecond, the operation of a busy initiator ends, and its thread releases the payload. */
  lemma {:induction false} WordEnds(s: State, run: seq<Step>, i: nat)
    requires Inv(s) && LegalRun(s, run) && i < |s.inits| && s.inits[i].trans.Some?
    requires After(s, run).now > ResponseTime(s.inits[i]) + 1
    ensures Step.Release(i) in run
    decreases |run|
  {
    assert OwnerOk(s, i);
    if run != [] && run[0] != Step.Release(i) {
      StepInv(s, run[0]);
      StaysBusy(s, run[0], i);
      WordEnds(Apply(s, run[0]), run[1..], i);
    }
  }

  /** So every run of enough steps ends it, whichever steps they are. */
  lemma WordEndsWithin(s: State, run: seq<Step>, i: nat, end: nat)
    requires Inv(s) && LegalRun(s, run) && i < |s.inits| && s.inits[i].trans.Some?
    requires end == ResponseTime(s.inits[i]) + 1
    ensures s.now <= end && (|run| > Potential(s, end) ==> Step.Release(i) in run)
  {
    StillPending(s, i);
    if Step.Release(i) !in run {
      UnendedRun(s, run, i);
      RunLength(s, run, end);
    }
  }

  lemma UnendedRun(s: State, run: seq<Step>, i: nat)
    requires Inv(s) && LegalRun(s, run) && i < |s.inits| && s.inits[i].trans.Some? && Step.Release(i) !in run
    ensures After(s, run).now <= ResponseTime(s.inits[i]) + 1
  {
    if After(s, run).now > ResponseTime(s.inits[i]) + 1 {
      WordEnds(s, run, i);
    }
  }

  lemma StillPending(s: State, i: nat)
    requires Inv(s) && i < |s.inits| && s.inits[i].trans.Some?
    ensures s.now <= ResponseTime(s.inits[i]) + 1
  {
    assert OwnerOk(s, i);
  }

  lemma ClockStays(s: State, st: Step)
    requires Inv(s) && Enabled(s, st)
    ensures Apply(s, st).now == (if st.Advance? then st.to else s.now) && |Apply(s, st).inits| == |s.inits|
  {
    if st.Fire? {
      FireFrame(s, st.entry);
    }
  }

  lemma {:induction false} TimeForward(s: State, run: seq<Step>)
    requires Inv(s) && LegalRun(s, run)
    ensures s.now <= After(s, run).now
    decreases |run|
  {
    if run != [] {
      StepInv(s, run[0]);
      ClockStays(s, run[0]);
      TimeForward(Apply(s, run[0]), run[1..]);
    }
  }
}
