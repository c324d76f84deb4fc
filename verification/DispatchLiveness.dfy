/** Which reachable pending rows the dispatcher gets moving again, and which it never does. */
module DispatchLiveness {
  import opened Prelude
  import opened DispatchRows
  import opened DispatchProtocol

  // ---------------------------------------------------------------- what recovery can reach

  /** Two passes at `n1` and `n2` that both find the message lost release the row by the second one,
      whatever the dispatcher remembered before. */
  predicate ReleasedWithinTwo(r: Row, k: Token, l: Location, obs: Observations, n1: Time, n2: Time, e: Epoch, cfg: Timeouts) {
    && RecoverySelects(r, n1, e, cfg)
    && (var (v1, obs1) := Judge(r, k, l, obs, n1, e, cfg);
        v1.Release? || (RecoverySelects(r, n2, e, cfg) && Judge(r, k, l, obs1, n2, e, cfg).0.Release?))
  }

  /** From some time on, any two passes that find the message "unacked" (or "missing") do it. */
  ghost predicate RecoversAfter(r: Row, k: Token, e: Epoch, cfg: Timeouts, start: Time) {
    forall n1, n2, l, obs | start <= n1 <= n2 && Lost(l) :: ReleasedWithinTwo(r, k, l, obs, n1, n2, e, cfg)
  }

  ghost predicate Recoverable(r: Row, k: Token, e: Epoch, cfg: Timeouts) {
    exists start :: RecoversAfter(r, k, e, cfg, start)
  }

  function RecoveryStart(r: Row, cfg: Timeouts): Time {
    Max(r.reservedAt.GetOr(0) + cfg.publishing,
        Max(r.publishedAt.GetOr(0) + cfg.published, r.deliveryStartedAt.GetOr(0) + cfg.delivering)) + 1
  }

  lemma UnclaimedRowRecovers(r: Row, k: Token, e: Epoch, cfg: Timeouts)
    requires RowInv(r) && Unclaimed(r) && r.token == Some(k)
    requires r.dispatch.Some? || r.brokerEpoch != Some(e)
    ensures Recoverable(r, k, e, cfg)
  {
    var start := RecoveryStart(r, cfg);
    forall n1, n2, l, obs | start <= n1 <= n2 && Lost(l)
      ensures ReleasedWithinTwo(r, k, l, obs, n1, n2, e, cfg)
    {
      if !EpochChanged(r, e) {
        match r.dispatch.value
        case Publishing => assert PublishingAged(r, n1, cfg);
        case Delivering => assert DeliveringAged(r, n1, cfg);
        case Published => assert PublishedAged(r, n1, cfg) && PublishedAged(r, n2, cfg);
        case _ =>
      }
    }
    assert RecoversAfter(r, k, e, cfg, start);
  }

  lemma OtherRowsDoNot(r: Row, k: Token, e: Epoch, cfg: Timeouts)
    requires RowInv(r) && r.status.Pending? && !r.isDeleted && r.token == Some(k)
    requires r.owner.Some? || (r.dispatch.None? && r.brokerEpoch == Some(e))
    ensures !Recoverable(r, k, e, cfg)
  {
    forall start ensures !RecoversAfter(r, k, e, cfg, start) {
      assert !ReleasedWithinTwo(r, k, Missing, map[], start, start, e, cfg);
    }
  }

  /** No pending task is stranded, except: in every reachable state a pending, undeleted task can be
      pumped again, or recovery will release its reservation once the timeouts have passed and the
      broker no longer knows its message. That second half fails exactly when the row has an owner,
      or has lost its dispatch state while the broker epoch is unchanged. */
  lemma PendingTasksRecover(s: State, t: TaskId, cfg: Timeouts)
    requires Reachable(s, cfg)
    requires t in s.rows && s.rows[t].status.Pending? && !s.rows[t].isDeleted
    ensures var r := s.rows[t];
            if r.token.None? then PumpEligible(r)
            else
              Recoverable(r, r.token.value, s.epoch, cfg) <==>
              r.owner.None? && (r.dispatch.Some? || r.brokerEpoch != Some(s.epoch))
  {
    ReachableInv(s, cfg);
    var r := s.rows[t];
    if r.token.Some? {
      if r.owner.None? && (r.dispatch.Some? || r.brokerEpoch != Some(s.epoch)) {
        UnclaimedRowRecovers(r, r.token.value, s.epoch, cfg);
      } else {
        OtherRowsDoNot(r, r.token.value, s.epoch, cfg);
      }
    }
  }

  // ---------------------------------------------------------------- the rows it never reaches

  /** A worker that can still get the task going: it may claim it, has read it in order to claim it, or
      has claimed it and owns it. */
  predicate ClaimUnderWay(s: State, w: Worker, t: TaskId) {
    && w in s.workers && s.workers[w].id in s.log && s.log[s.workers[w].id].task == t && t in s.rows
    && match s.workers[w]
       case Received(_) => false
       case MayClaim(id, allowPending) => allowPending && s.rows[t].token == Some(s.log[id].token)
       case ClaimSelected(id, expected, _, _, _, _) => expected.Pending? && s.rows[t].token == Some(s.log[id].token)
       case Claimed(_, _, _) => s.rows[t].owner == Some(w)
  }

  predicate ResetInProgress(s: State, d: DispatcherId, t: TaskId) {
    d in s.dispatchers && exists i :: 0 <= i < |s.dispatchers[d].stale| && s.dispatchers[d].stale[i].0 == t
  }

  /** A pending task that a worker claimed and abandoned before it began to execute. */
  ghost predicate Stuck(s: State, t: TaskId) {
    && t in s.rows && s.rows[t].status.Pending? && !s.rows[t].isDeleted
    && s.rows[t].token.Some? && s.rows[t].owner.Some? && s.rows[t].dispatch == Some(Leased)
    && (forall w :: !ClaimUnderWay(s, w, t))
    && (forall d :: !ResetInProgress(s, d, t))
  }

  /** An operator's restart, cancel or delete of this task. */
  predicate OperatorStep(step: Step, t: TaskId) {
    step.Env? && (step.envStep == Restart(t) || step.envStep == Cancel(t) || step.envStep == Delete(t))
  }

  lemma PumpLeavesOwnedRow(s: State, p: PumpId, step: PumpStep, t: TaskId)
    requires PumpEnabled(s, p, step) && t in s.rows && RowInv(s.rows[t]) && s.rows[t].owner.Some? && s.rows[t].token.Some?
    ensures t in PumpApply(s, p, step).rows && PumpApply(s, p, step).rows[t] == s.rows[t]
  {
  }

  lemma PumpLeavesOthers(s: State, p: PumpId, step: PumpStep)
    requires PumpEnabled(s, p, step)
    ensures var s' := PumpApply(s, p, step);
      && s'.workers == s.workers && s'.dispatchers == s.dispatchers
      && forall id <- s.log :: id in s'.log && s'.log[id] == s.log[id]
  {
  }

  lemma PumpLeavesStuck(s: State, p: PumpId, step: PumpStep, t: TaskId)
    requires Inv(s) && Stuck(s, t) && PumpEnabled(s, p, step)
    ensures var s' := PumpApply(s, p, step); Stuck(s', t) && s'.rows[t] == s.rows[t]
  {
    PumpLeavesOwnedRow(s, p, step, t);
    PumpLeavesOthers(s, p, step);
    OthersStayStuck(s, PumpApply(s, p, step), t);
  }

  /** A step that changes neither the row nor the workers starts no claim. */
  lemma OthersStayStuck(s: State, s': State, t: TaskId)
    requires DeliveryInv(s) && Stuck(s, t) && t in s'.rows && s'.rows[t] == s.rows[t]
    requires s'.workers == s.workers && forall id <- s.log :: id in s'.log && s'.log[id] == s.log[id]
    requires forall d :: ResetInProgress(s', d, t) ==> ResetInProgress(s, d, t)
    ensures Stuck(s', t)
  {
    forall w ensures !ClaimUnderWay(s', w, t) {
      assert !ClaimUnderWay(s, w, t);
    }
  }

  lemma WorkSkipsStuckRow(r: Row, k: Token, w: Worker, pc: WorkerPc, step: WorkStep, now: Time)
    requires r.status.Pending? && r.owner.Some?
    requires pc.MayClaim? && pc.allowPending ==> r.token != Some(k)
    requires pc.ClaimSelected? && pc.expected.Pending? ==> r.token != Some(k)
    requires pc.Claimed? ==> r.owner != Some(w)
    ensures !WorkMatches(r, k, w, pc, step, now)
  {
  }

  lemma WorkLeavesStuckRow(s: State, w: Worker, step: WorkStep, t: TaskId)
    requires Stuck(s, t) && WorkEnabled(s, w, step)
    requires w in s.workers ==> s.workers[w].id in s.log
    ensures var s' := WorkApply(s, w, step); t in s'.rows && s'.rows[t] == s.rows[t]
  {
    assert !ClaimUnderWay(s, w, t);
    if w in s.workers && s.log[s.workers[w].id].task == t {
      WorkSkipsStuckRow(s.rows[t], s.log[s.workers[w].id].token, w, s.workers[w], step, s.now);
    }
  }

  lemma MissStartsNoClaim(r: Row, k: Token, w: Worker, pc: WorkerPc, step: WorkStep, now: Time)
    requires pc.MayClaim? && pc.allowPending ==> r.token != Some(k)
    requires pc.ClaimSelected? && pc.expected.Pending? ==> r.token != Some(k)
    requires pc.Claimed? ==> r.owner != Some(w)
    requires step.ClaimWrite? ==> pc.ClaimSelected?
    ensures var next := WorkNext(pc, step, false, r, k, now);
      next.Some? ==>
        && (next.value.MayClaim? && next.value.allowPending ==> r.token != Some(k))
        && (next.value.ClaimSelected? && next.value.expected.Pending? ==> r.token != Some(k))
        && (next.value.Claimed? ==> r.owner != Some(w))
  {
  }

  lemma WorkStartsNoClaim(s: State, w: Worker, step: WorkStep, t: TaskId)
    requires Stuck(s, t) && WorkEnabled(s, w, step)
    requires w in s.workers ==> s.workers[w].id in s.log
    ensures !ClaimUnderWay(WorkApply(s, w, step), w, t)
  {
    assert !ClaimUnderWay(s, w, t);
    if w in s.workers && s.log[s.workers[w].id].task == t {
      var (pc, k) := (s.workers[w], s.log[s.workers[w].id].token);
      WorkSkipsStuckRow(s.rows[t], k, w, pc, step, s.now);
      if !step.WorkerCrash? { MissStartsNoClaim(s.rows[t], k, w, pc, step, s.now); }
    }
  }

  lemma WorkTouchesNobodyElse(s: State, w: Worker, step: WorkStep, v: Worker)
    requires WorkEnabled(s, w, step) && v != w
    requires w in s.workers ==> s.workers[w].id in s.log
    ensures var s' := WorkApply(s, w, step);
            && s'.log == s.log && s'.dispatchers == s.dispatchers
            && (v in s'.workers <==> v in s.workers) && (v in s.workers ==> s'.workers[v] == s.workers[v])
  {
  }

  lemma WorkLeavesStuck(s: State, w: Worker, step: WorkStep, t: TaskId)
    requires Inv(s) && Stuck(s, t) && WorkEnabled(s, w, step)
    requires w in s.workers ==> s.workers[w].id in s.log
    ensures var s' := WorkApply(s, w, step); Stuck(s', t) && s'.rows[t] == s.rows[t]
  {
    var s' := WorkApply(s, w, step);
    WorkLeavesStuckRow(s, w, step, t);
    WorkStartsNoClaim(s, w, step, t);
    forall v ensures !ClaimUnderWay(s', v, t) {
      if v != w {
        WorkTouchesNobodyElse(s, w, step, v);
        assert !ClaimUnderWay(s, v, t);
      }
    }
    WorkTouchesNobodyElse(s, w, step, w + 1);
    assert forall d :: ResetInProgress(s', d, t) ==> ResetInProgress(s, d, t);
  }

  lemma DispatcherLeavesOwnedRow(s: State, d: DispatcherId, step: DispatcherStep, t: TaskId, cfg: Timeouts)
    requires DispatcherEnabled(s, d, step, cfg) && t in s.rows && s.rows[t].owner.Some?
    requires s.rows[t].status.Pending? && !ResetInProgress(s, d, t)
    ensures t in DispatcherApply(s, d, step, cfg).rows && DispatcherApply(s, d, step, cfg).rows[t] == s.rows[t]
    ensures !ResetInProgress(DispatcherApply(s, d, step, cfg), d, t)
  {
  }

  lemma DispatcherLeavesOthers(s: State, d: DispatcherId, step: DispatcherStep, cfg: Timeouts)
    requires DispatcherEnabled(s, d, step, cfg)
    ensures var s' := DispatcherApply(s, d, step, cfg);
      && s'.workers == s.workers && s'.log == s.log
      && forall c :: c != d ==> (c in s'.dispatchers <==> c in s.dispatchers)
                                && (c in s.dispatchers ==> s'.dispatchers[c] == s.dispatchers[c])
  {
  }

  lemma DispatcherLeavesStuck(s: State, d: DispatcherId, step: DispatcherStep, t: TaskId, cfg: Timeouts)
    requires Inv(s) && Stuck(s, t) && DispatcherEnabled(s, d, step, cfg)
    ensures var s' := DispatcherApply(s, d, step, cfg); Stuck(s', t) && s'.rows[t] == s.rows[t]
  {
    var s' := DispatcherApply(s, d, step, cfg);
    assert !ResetInProgress(s, d, t);
    DispatcherLeavesOwnedRow(s, d, step, t, cfg);
    DispatcherLeavesOthers(s, d, step, cfg);
    forall c ensures ResetInProgress(s', c, t) ==> ResetInProgress(s, c, t) {
      if c != d { assert c in s'.dispatchers ==> s'.dispatchers[c] == s.dispatchers[c]; }
    }
    OthersStayStuck(s, s', t);
  }

  lemma EnvLeavesStuck(s: State, step: EnvStep, t: TaskId)
    requires Stuck(s, t) && EnvEnabled(s, step) && !OperatorStep(Env(step), t)
    ensures var s' := EnvApply(s, step); Stuck(s', t) && s'.rows[t] == s.rows[t]
  {
    var s' := EnvApply(s, step);
    assert forall w :: ClaimUnderWay(s', w, t) ==> ClaimUnderWay(s, w, t);
    assert forall d :: ResetInProgress(s', d, t) ==> ResetInProgress(s, d, t);
  }

  lemma StepLeavesStuck(s: State, step: Step, t: TaskId, cfg: Timeouts)
    requires Inv(s) && Stuck(s, t) && Enabled(s, step, cfg) && !OperatorStep(step, t)
    ensures var s' := Apply(s, step, cfg); Stuck(s', t) && s'.rows[t] == s.rows[t]
  {
    match step
    case Pump(p, a) => PumpLeavesStuck(s, p, a, t);
    case Work(w, a) => WorkLeavesStuck(s, w, a, t);
    case Dispatch(d, a) => DispatcherLeavesStuck(s, d, a, t, cfg);
    case Env(a) => EnvLeavesStuck(s, a, t);
  }

  /** An abandoned claim is never repaired: no pump, worker, redelivery, recovery pass, stale reset or
      broker restart ever touches that row again; only an operator can. */
  lemma {:induction false} AbandonedClaimIsForever(s: State, steps: seq<Step>, t: TaskId, cfg: Timeouts)
    requires Inv(s) && Stuck(s, t) && ValidRun(s, steps, cfg)
    requires forall i :: 0 <= i < |steps| ==> !OperatorStep(steps[i], t)
    ensures var s' := After(s, steps, cfg); Stuck(s', t) && s'.rows[t] == s.rows[t]
    decreases |steps|
  {
    if steps != [] {
      StepLeavesStuck(s, steps[0], t, cfg);
      StepKeepsInv(s, steps[0], cfg);
      AbandonedClaimIsForever(Apply(s, steps[0], cfg), steps[1..], t, cfg);
    }
  }

  // ---------------------------------------------------------------- witnesses

  lemma {:induction false} AppendStep(s: State, steps: seq<Step>, step: Step, cfg: Timeouts)
    requires ValidRun(s, steps, cfg) && Enabled(After(s, steps, cfg), step, cfg)
    ensures ValidRun(s, steps + [step], cfg)
    ensures After(s, steps + [step], cfg) == Apply(After(s, steps, cfg), step, cfg)
    decreases |steps|
  {
    if steps == [] {
      assert steps + [step] == [step];
    } else {
      assert (steps + [step])[1..] == steps[1..] + [step];
      AppendStep(Apply(s, steps[0], cfg), steps[1..], step, cfg);
    }
  }

  lemma ReachNext(s: State, step: Step, cfg: Timeouts) returns (s': State)
    requires Reachable(s, cfg) && Enabled(s, step, cfg)
    ensures s' == Apply(s, step, cfg) && Reachable(s', cfg)
  {
    var steps :| ValidRun(Initial(), steps, cfg) && After(Initial(), steps, cfg) == s;
    AppendStep(Initial(), steps, step, cfg);
    s' := Apply(s, step, cfg);
  }

  const PUBLISHED_ROW := NEW_ROW.(token := Some(1), dispatch := Some(Published), reservedAt := Some(0),
                                  publishedAt := Some(0), brokerEpoch := Some(0), attempts := 1)

  const DELIVERING_ROW := PUBLISHED_ROW.(dispatch := Some(Delivering), deliveryStartedAt := Some(0),
                                         deliveryWorker := Some(0))

  const CLAIMED_ROW := DELIVERING_ROW.(dispatch := Some(Leased), owner := Some(0), lease := Some(90),
                                       heartbeat := Some(0), execEpoch := 1)

  const RESERVED_ROW := NEW_ROW.(token := Some(1), dispatch := Some(Publishing), reservedAt := Some(0),
                                 brokerEpoch := Some(0), attempts := 1)

  /** Task 0 reserved under token 1. */
  lemma ReservedIsReachable(cfg: Timeouts) returns (s: State)
    ensures Reachable(s, cfg)
    ensures s == Initial().(rows := map[0 := RESERVED_ROW], drawn := map[1 := 0], pumps := map[0 := Reserving(0, [], 0, 1)])
  {
    s := Initial();
    assert ValidRun(s, [], cfg) && After(s, [], cfg) == s;
    s := ReachNext(s, Env(Create(0, false)), cfg);
    s := ReachNext(s, Pump(0, Select([0])), cfg);
    assert [0][1..] == [];
    s := ReachNext(s, Pump(0, Reserve(1, true, false)), cfg);
  }

  /** Task 0 published under token 1; the message is in the queue; the pump's pass is over. */
  lemma PublishedIsReachable(cfg: Timeouts) returns (s: State)
    ensures Reachable(s, cfg)
    ensures s.rows == map[0 := PUBLISHED_ROW] && s.drawn == map[1 := 0] && s.log == map[0 := Message(0, 1)]
    ensures s.place == map[0 := InQueue] && s.pumps == map[] && s.workers == map[] && s.dispatchers == map[]
    ensures s.now == 0 && s.epoch == 0
  {
    s := ReservedIsReachable(cfg);
    s := ReachNext(s, Pump(0, Publish(0, true, false)), cfg);
    s := ReachNext(s, Pump(0, Acknowledge(true)), cfg);
    s := ReachNext(s, Pump(0, PumpCrash), cfg);
    assert s.rows[0] == PUBLISHED_ROW;
  }

  /** Worker 0 has its message and has announced the delivery. */
  lemma DeliveringIsReachable(cfg: Timeouts) returns (s: State)
    ensures Reachable(s, cfg)
    ensures s.rows == map[0 := DELIVERING_ROW] && s.drawn == map[1 := 0] && s.log == map[0 := Message(0, 1)]
    ensures s.place == map[0 := InHand(0)] && s.pumps == map[] && s.workers == map[0 := MayClaim(0, true)]
    ensures s.dispatchers == map[] && s.now == 0 && s.epoch == 0
  {
    s := PublishedIsReachable(cfg);
    s := ReachNext(s, Work(0, Receive(0)), cfg);
    s := ReachNext(s, Work(0, Handoff), cfg);
    assert s.rows[0] == DELIVERING_ROW;
  }

  /** Worker 0 has claimed it and not begun yet. */
  lemma ClaimedIsReachable(cfg: Timeouts) returns (s: State)
    ensures Reachable(s, cfg)
    ensures s.rows == map[0 := CLAIMED_ROW] && s.drawn == map[1 := 0] && s.log == map[0 := Message(0, 1)]
    ensures s.place == map[0 := InHand(0)] && s.pumps == map[] && s.workers == map[0 := Claimed(0, 1, 0)]
    ensures s.dispatchers == map[] && s.now == 0 && s.epoch == 0
  {
    s := DeliveringIsReachable(cfg);
    s := ReachNext(s, Work(0, ClaimRead), cfg);
    s := ReachNext(s, Work(0, ClaimWrite(90)), cfg);
    assert s.rows[0] == CLAIMED_ROW;
  }

  /** The worker dies between its claim and `begin_execution_if_owner`. The broker redelivers the message;
      the next worker finds nothing it may claim, and acknowledges it. No message is left, and the task is
      stuck. */
  lemma WorkerDeathAfterClaimStrands(cfg: Timeouts) returns (s: State)
    ensures Reachable(s, cfg) && Stuck(s, 0) && s.place == map[] && s.workers == map[]
    ensures s.rows[0].token == Some(1) && !Recoverable(s.rows[0], 1, s.epoch, cfg)
  {
    s := ClaimedIsReachable(cfg);
    s := ReachNext(s, Work(0, WorkerCrash(true)), cfg);
    s := ReachNext(s, Work(1, Receive(0)), cfg);
    s := ReachNext(s, Work(1, Handoff), cfg);
    assert s.workers == map[1 := MayClaim(0, false)];
    s := ReachNext(s, Work(1, ClaimRead), cfg);
    OtherRowsDoNot(s.rows[0], 1, s.epoch, cfg);
  }

  /** A lease dropped before execution began leaves the other kind of stranded row: its token is kept,
      its dispatch state is gone, and only a new broker epoch gets it back. */
  lemma LeaseDroppedBeforeExecutionStrands(cfg: Timeouts) returns (s: State)
    ensures Reachable(s, cfg) && s.place == map[] && 0 in s.rows && s.rows[0].status.Pending?
    ensures s.rows[0].owner.None? && s.rows[0].token == Some(1)
    ensures !Recoverable(s.rows[0], 1, s.epoch, cfg) && Recoverable(s.rows[0], 1, s.epoch + 1, cfg)
  {
    s := ClaimedIsReachable(cfg);
    s := ReachNext(s, Work(0, DropLease), cfg);
    s := ReachNext(s, Work(0, AckMessage), cfg);
    OtherRowsDoNot(s.rows[0], 1, s.epoch, cfg);
    UnclaimedRowRecovers(s.rows[0], 1, s.epoch + 1, cfg);
  }

  /** Worker 0 is running the task and its heartbeat has gone stale. */
  lemma SilentWorkerIsReachable(cfg: Timeouts) returns (s: State)
    requires cfg.heartbeat >= 0
    ensures Reachable(s, cfg)
    ensures s.rows == map[0 := BeginRow(CLAIMED_ROW, 0)] && s.drawn == map[1 := 0] && s.log == map[0 := Message(0, 1)]
    ensures s.place == map[0 := InHand(0)] && s.pumps == map[] && StaleSelected(s.rows[0], s.now, cfg)
    ensures s.dispatchers == map[0 := DispatcherPc(map[], 0, 0, [], [])] && s.workers == map[0 := Claimed(0, 1, 0)]
  {
    s := ClaimedIsReachable(cfg);
    s := ReachNext(s, Work(0, Begin), cfg);
    s := ReachNext(s, Env(Tick(cfg.heartbeat + 1)), cfg);
    s := ReachNext(s, Dispatch(0, DispatcherRestart), cfg);
  }

  /** Dispatcher 0 has read the running row of a silent worker and is about to reset it, when an
      operator restarts the task. */
  lemma OvertakenResetIsReachable(cfg: Timeouts) returns (s: State, read: Row)
    requires cfg.heartbeat >= 0
    ensures Reachable(s, cfg)
    ensures s.rows.Keys == {0} && PumpEligible(s.rows[0]) && s.drawn == map[1 := 0] && s.log == map[0 := Message(0, 1)]
    ensures s.place == map[0 := InHand(0)] && s.pumps == map[]
    ensures s.dispatchers == map[0 := DispatcherPc(map[], 0, 0, [], [(0, read)])]
  {
    s := SilentWorkerIsReachable(cfg);
    read := s.rows[0];
    s := ReachNext(s, Dispatch(0, StaleSelect([0])), cfg);
    assert s.dispatchers[0].stale == [(0, read)];
    s := ReachNext(s, Env(Restart(0)), cfg);
  }

  /** Then the pump publishes the task again, and the late reset wipes out the new token with the
      new message still in the queue. */
  lemma StaleResetCanEraseNewerToken(cfg: Timeouts) returns (s: State, s': State)
    requires cfg.heartbeat >= 0
    ensures Reachable(s, cfg) && DispatcherEnabled(s, 0, StaleWrite, cfg) && s' == DispatcherApply(s, 0, StaleWrite, cfg)
    ensures 0 in s.rows && s.rows[0].token == Some(2) && s.rows[0].dispatch == Some(Published)
    ensures 1 in s.place && 1 in s.log && s.log[1] == Message(0, 2) && s.place[1].InQueue?
    ensures 0 in s'.rows && s'.rows[0].token.None? && s'.place == s.place && s'.log == s.log
  {
    var read;
    s, read := OvertakenResetIsReachable(cfg);
    s := ReachNext(s, Pump(0, Select([0])), cfg);
    s := ReachNext(s, Pump(0, Reserve(2, true, false)), cfg);
    s := ReachNext(s, Pump(0, Publish(1, true, false)), cfg);
    s := ReachNext(s, Pump(0, Acknowledge(true)), cfg);
    s' := ReachNext(s, Dispatch(0, StaleWrite), cfg);
  }

  /** A worker that was only slow renews its lease between the SELECT and the write: its heartbeat is fresh, and
      the reset takes the running task away from it. */
  lemma FreshWorkerLosesTask(cfg: Timeouts) returns (s: State, s': State)
    requires cfg.heartbeat >= 0
    ensures Reachable(s, cfg) && DispatcherEnabled(s, 0, StaleWrite, cfg) && s' == DispatcherApply(s, 0, StaleWrite, cfg)
    ensures 0 in s.rows && s.rows[0].status.Running? && s.rows[0].owner == Some(0) && HoldsClaim(s, 0)
    ensures !HeartbeatStale(s.rows[0], s.now, cfg) && !LeaseExpired(s.rows[0], s.now)
    ensures 0 in s'.rows && PumpEligible(s'.rows[0]) && HoldsClaim(s', 0)
  {
    s := SilentWorkerIsReachable(cfg);
    s := ReachNext(s, Dispatch(0, StaleSelect([0])), cfg);
    s := ReachNext(s, Work(0, Renew(s.now + 90)), cfg);
    s' := ReachNext(s, Dispatch(0, StaleWrite), cfg);
  }
}
