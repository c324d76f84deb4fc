/**
 The gap between reading a row with a stale heartbeat and resetting it (app/dispatcher.py:286-323). The
 write names the row id alone, so it also erases a reservation made in between, and takes the task from a
 worker that has renewed its lease in between.
 */
module DispatchReset {
  import opened Prelude
  import opened DispatchRows
  import opened DispatchProtocol

  /** The step reserves task `t` under the uuid `k`. */
  predicate Reserves(s: State, step: Step, t: TaskId, k: Token, cfg: Timeouts)
    requires Enabled(s, step, cfg)
  {
    && step.Pump? && step.pumpStep.Reserve? && step.pumpStep.token == k
    && t in s.rows && s.rows[t].token.None?
    && t in Apply(s, step, cfg).rows && Apply(s, step, cfg).rows[t].token == Some(k)
  }

  predicate Holding(s: State, t: TaskId, k: Token) {
    t in s.rows && s.rows[t].token == Some(k)
  }

  predicate KeptThrough(s: State, steps: seq<Step>, t: TaskId, k: Token, cfg: Timeouts)
    requires ValidRun(s, steps, cfg)
    decreases |steps|
  {
    Holding(s, t, k) && (steps == [] || KeptThrough(Apply(s, steps[0], cfg), steps[1..], t, k, cfg))
  }

  /** Some step of the run reserved `t` under `k`, and the row has held `k` ever since. */
  predicate ReservedAndKept(s: State, steps: seq<Step>, t: TaskId, k: Token, cfg: Timeouts)
    requires ValidRun(s, steps, cfg)
    decreases |steps|
  {
    steps != [] && (var next := Apply(s, steps[0], cfg);
      (Reserves(s, steps[0], t, k, cfg) && KeptThrough(next, steps[1..], t, k, cfg))
      || ReservedAndKept(next, steps[1..], t, k, cfg))
  }

  lemma PumpGivesTokens(s: State, p: PumpId, step: PumpStep, t: TaskId)
    requires PumpEnabled(s, p, step) && t in s.rows
    ensures var rows' := PumpApply(s, p, step).rows;
      t in rows' && (rows'[t].token == s.rows[t].token || (rows'[t].token.None? && step.GiveUp?)
                     || (s.rows[t].token.None? && step.Reserve? && rows'[t].token == Some(step.token)))
  {
  }

  lemma EnvGivesNoTokens(s: State, step: EnvStep, t: TaskId)
    requires EnvEnabled(s, step) && t in s.rows
    ensures var rows' := EnvApply(s, step).rows;
      t in rows' && (rows'[t].token == s.rows[t].token
                     || (rows'[t].token.None? && (step == Restart(t) || step == Cancel(t))))
  {
  }

  lemma DispatcherGivesNoTokens(s: State, d: DispatcherId, step: DispatcherStep, t: TaskId, cfg: Timeouts)
    requires DispatcherEnabled(s, d, step, cfg) && t in s.rows
    ensures var rows' := DispatcherApply(s, d, step, cfg).rows;
      t in rows' && (rows'[t].token == s.rows[t].token || (rows'[t].token.None? && (step.StaleWrite? || step.RecoveryWrite?)))
  {
  }

  lemma WorkGivesNoTokens(s: State, w: Worker, step: WorkStep, t: TaskId)
    requires WorkEnabled(s, w, step) && t in s.rows
    requires w in s.workers ==> s.workers[w].id in s.log
    ensures var rows' := WorkApply(s, w, step).rows;
      t in rows' && (rows'[t].token == s.rows[t].token || (rows'[t].token.None? && step.GiveBack?))
  {
  }

  /** The statements that take a row's token away. */
  predicate MayFree(step: Step, t: TaskId) {
    match step
    case Pump(_, a) => a.GiveUp?
    case Work(_, a) => a.GiveBack?
    case Dispatch(_, a) => a.StaleWrite? || a.RecoveryWrite?
    case Env(a) => a == Restart(t) || a == Cancel(t)
  }

  /** A step leaves a row's token, takes it away, or, if it is a reservation, puts its own there. */
  lemma StepOnToken(s: State, step: Step, t: TaskId, cfg: Timeouts)
    requires Enabled(s, step, cfg) && t in s.rows
    ensures var rows' := Apply(s, step, cfg).rows;
      t in rows' && (rows'[t].token == s.rows[t].token || (rows'[t].token.None? && MayFree(step, t))
                     || (s.rows[t].token.None? && step.Pump? && step.pumpStep.Reserve?
                         && rows'[t].token == Some(step.pumpStep.token)))
  {
    match step
    case Pump(p, a) => PumpGivesTokens(s, p, a, t);
    case Work(w, a) => WorkGivesNoTokens(s, w, a, t);
    case Dispatch(d, a) => DispatcherGivesNoTokens(s, d, a, t, cfg);
    case Env(a) => EnvGivesNoTokens(s, a, t);
  }

  /** Only a reservation gives a row a token. */
  lemma NewTokenIsReserved(s: State, step: Step, t: TaskId, k: Token, cfg: Timeouts)
    requires Enabled(s, step, cfg) && Holding(Apply(s, step, cfg), t, k) && !Holding(s, t, k) && t in s.rows
    ensures Reserves(s, step, t, k, cfg)
  {
    StepOnToken(s, step, t, cfg);
  }

  /** A token a row has lost is not held by it again, so one held at both ends was held throughout. */
  lemma {:induction false} HeldAtBothEnds(s: State, steps: seq<Step>, t: TaskId, k: Token, cfg: Timeouts)
    requires Inv(s) && ValidRun(s, steps, cfg) && Holding(s, t, k) && Holding(After(s, steps, cfg), t, k)
    ensures KeptThrough(s, steps, t, k, cfg)
    decreases |steps|
  {
    if steps != [] {
      var next := Apply(s, steps[0], cfg);
      StepKeepsInv(s, steps[0], cfg);
      StepOnToken(s, steps[0], t, cfg);
      if !Holding(next, t, k) { LostIsLost(s, steps, t, k, cfg); }
      HeldAtBothEnds(next, steps[1..], t, k, cfg);
    }
  }

  lemma LostIsLost(s: State, steps: seq<Step>, t: TaskId, k: Token, cfg: Timeouts)
    requires Inv(s) && ValidRun(s, steps, cfg) && steps != [] && Holding(s, t, k)
    requires !Holding(Apply(s, steps[0], cfg), t, k)
    ensures !Holding(After(s, steps, cfg), t, k)
  {
    var next := Apply(s, steps[0], cfg);
    StillDrawn(s, steps[0], k, cfg);
    RetiredForever(next, steps[1..], k, cfg);
    StepKeepsInv(s, steps[0], cfg);
    RunKeepsInv(next, steps[1..], cfg);
  }

  lemma StillDrawn(s: State, step: Step, k: Token, cfg: Timeouts)
    requires Enabled(s, step, cfg) && k in s.drawn
    ensures var next := Apply(s, step, cfg); k in next.drawn && next.drawn[k] == s.drawn[k]
  {
    match step
    case Pump(p, a) => PumpTokens(s, p, a, 0, k);
    case Work(w, a) => WorkTokens(s, w, a, 0);
    case Dispatch(d, a) => DispatcherTokens(s, d, a, cfg, 0);
    case Env(a) => assert EnvApply(s, a).drawn == s.drawn;
  }

  lemma {:induction false} HeldMeansReserved(s: State, steps: seq<Step>, t: TaskId, k: Token, cfg: Timeouts)
    requires Inv(s) && ValidRun(s, steps, cfg) && t in s.rows && !Holding(s, t, k)
    ensures Holding(After(s, steps, cfg), t, k) <==> ReservedAndKept(s, steps, t, k, cfg)
    decreases |steps|
  {
    if steps != [] {
      var next := Apply(s, steps[0], cfg);
      StepKeepsInv(s, steps[0], cfg);
      StepOnToken(s, steps[0], t, cfg);
      if Holding(next, t, k) {
        NewTokenIsReserved(s, steps[0], t, k, cfg);
        AfterReservation(s, steps, t, k, cfg);
      } else {
        HeldMeansReserved(next, steps[1..], t, k, cfg);
      }
    }
  }

  lemma AfterReservation(s: State, steps: seq<Step>, t: TaskId, k: Token, cfg: Timeouts)
    requires Inv(s) && ValidRun(s, steps, cfg) && steps != [] && Reserves(s, steps[0], t, k, cfg)
    ensures Holding(After(s, steps, cfg), t, k) <==> ReservedAndKept(s, steps, t, k, cfg)
  {
    var next := Apply(s, steps[0], cfg);
    StepKeepsInv(s, steps[0], cfg);
    if Holding(After(next, steps[1..], cfg), t, k) { HeldAtBothEnds(next, steps[1..], t, k, cfg); }
    if KeptThrough(next, steps[1..], t, k, cfg) { KeptHolds(next, steps[1..], t, k, cfg); }
    if ReservedAndKept(next, steps[1..], t, k, cfg) { ReservedHolds(next, steps[1..], t, k, cfg); }
  }

  lemma {:induction false} KeptHolds(s: State, steps: seq<Step>, t: TaskId, k: Token, cfg: Timeouts)
    requires ValidRun(s, steps, cfg) && KeptThrough(s, steps, t, k, cfg)
    ensures Holding(After(s, steps, cfg), t, k)
    decreases |steps|
  {
    if steps != [] { KeptHolds(Apply(s, steps[0], cfg), steps[1..], t, k, cfg); }
  }

  lemma {:induction false} ReservedHolds(s: State, steps: seq<Step>, t: TaskId, k: Token, cfg: Timeouts)
    requires ValidRun(s, steps, cfg) && ReservedAndKept(s, steps, t, k, cfg)
    ensures Holding(After(s, steps, cfg), t, k)
    decreases |steps|
  {
    var next := Apply(s, steps[0], cfg);
    if Reserves(s, steps[0], t, k, cfg) && KeptThrough(next, steps[1..], t, k, cfg) {
      KeptHolds(next, steps[1..], t, k, cfg);
    } else {
      ReservedHolds(next, steps[1..], t, k, cfg);
    }
  }

  // ---------------------------------------------------------------- what must have happened first

  predicate Frees(s: State, step: Step, t: TaskId, cfg: Timeouts)
    requires Enabled(s, step, cfg)
  {
    t in s.rows && s.rows[t].token.Some? && t in Apply(s, step, cfg).rows && Apply(s, step, cfg).rows[t].token.None?
  }

  predicate FreedDuring(s: State, steps: seq<Step>, t: TaskId, cfg: Timeouts)
    requires ValidRun(s, steps, cfg)
    decreases |steps|
  {
    steps != [] && ((Frees(s, steps[0], t, cfg) && MayFree(steps[0], t))
                    || FreedDuring(Apply(s, steps[0], cfg), steps[1..], t, cfg))
  }

  lemma {:induction false} ReservationNeedsFreeRow(s: State, steps: seq<Step>, t: TaskId, k: Token, cfg: Timeouts)
    requires ValidRun(s, steps, cfg) && t in s.rows && s.rows[t].token.Some? && ReservedAndKept(s, steps, t, k, cfg)
    ensures FreedDuring(s, steps, t, cfg)
    decreases |steps|
  {
    var next := Apply(s, steps[0], cfg);
    StepOnToken(s, steps[0], t, cfg);
    assert !Reserves(s, steps[0], t, k, cfg);
    if next.rows[t].token.Some? {
      ReservationNeedsFreeRow(next, steps[1..], t, k, cfg);
    }
  }

  // ---------------------------------------------------------------- the reset

  /** From the SELECT of a stale row to its reset, over any run in between: a token other than the one read
      is erased exactly when a pump reserved the task under that token in the meantime and the row has kept
      it. The row read is running and has a token, so some statement had to take that one away first: an operator's restart
      or cancel, a worker giving the task back, another reset, or a release. */
  lemma StaleResetErasesReservationsSince(s: State, d: DispatcherId, tasks: seq<TaskId>, steps: seq<Step>, t: TaskId, k: Token, cfg: Timeouts)
    requires Reachable(s, cfg) && DispatcherEnabled(s, d, StaleSelect(tasks), cfg) && t in tasks
    requires ValidRun(Apply(s, Dispatch(d, StaleSelect(tasks)), cfg), steps, cfg)
    requires var last := After(Apply(s, Dispatch(d, StaleSelect(tasks)), cfg), steps, cfg);
      DispatcherEnabled(last, d, StaleWrite, cfg) && last.dispatchers[d].stale[0] == (t, s.rows[t])
    requires s.rows[t].token != Some(k)
    ensures var next := Apply(s, Dispatch(d, StaleSelect(tasks)), cfg);
      var last := After(next, steps, cfg);
      && (Holding(last, t, k) && !Holding(DispatcherApply(last, d, StaleWrite, cfg), t, k)
          <==> ReservedAndKept(next, steps, t, k, cfg))
      && (ReservedAndKept(next, steps, t, k, cfg) ==> FreedDuring(next, steps, t, cfg))
  {
    ReachableInv(s, cfg);
    var next := Apply(s, Dispatch(d, StaleSelect(tasks)), cfg);
    StepKeepsInv(s, Dispatch(d, StaleSelect(tasks)), cfg);
    HeldMeansReserved(next, steps, t, k, cfg);
    if ReservedAndKept(next, steps, t, k, cfg) {
      ReservationNeedsFreeRow(next, steps, t, k, cfg);
    }
  }

  // ---------------------------------------------------------------- a row whose heartbeat is fresh again

  predicate BeatAt(s: State, t: TaskId, at: Time) {
    t in s.rows && s.rows[t].heartbeat == Some(at)
  }

  /** The step is a renewal at the time `at`, or a claim that read the row at that time, and writes it as the
      heartbeat into the row. */
  predicate Beats(s: State, step: Step, t: TaskId, at: Time, cfg: Timeouts)
    requires Enabled(s, step, cfg)
  {
    && step.Work? && step.w in s.workers
    && (|| (step.workStep.Renew? && at == s.now)
        || (step.workStep.ClaimWrite? && s.workers[step.w].ClaimSelected? && at == s.workers[step.w].readAt))
    && t in s.rows && !BeatAt(s, t, at) && BeatAt(Apply(s, step, cfg), t, at)
  }

  predicate BeatThrough(s: State, steps: seq<Step>, t: TaskId, at: Time, cfg: Timeouts)
    requires ValidRun(s, steps, cfg)
    decreases |steps|
  {
    BeatAt(s, t, at) && (steps == [] || BeatThrough(Apply(s, steps[0], cfg), steps[1..], t, at, cfg))
  }

  /** Some claim or renewal of the run wrote the heartbeat `at`, and the row has had it ever since. */
  predicate BeatAndKept(s: State, steps: seq<Step>, t: TaskId, at: Time, cfg: Timeouts)
    requires ValidRun(s, steps, cfg)
    decreases |steps|
  {
    steps != [] && (var next := Apply(s, steps[0], cfg);
      (Beats(s, steps[0], t, at, cfg) && BeatThrough(next, steps[1..], t, at, cfg))
      || BeatAndKept(next, steps[1..], t, at, cfg))
  }

  lemma PumpLeavesHeartbeat(s: State, p: PumpId, step: PumpStep, t: TaskId)
    requires PumpEnabled(s, p, step) && t in s.rows
    ensures var rows' := PumpApply(s, p, step).rows; t in rows' && rows'[t].heartbeat == s.rows[t].heartbeat
  {
  }

  lemma DispatcherLeavesHeartbeat(s: State, d: DispatcherId, step: DispatcherStep, t: TaskId, cfg: Timeouts)
    requires DispatcherEnabled(s, d, step, cfg) && t in s.rows
    ensures var rows' := DispatcherApply(s, d, step, cfg).rows; t in rows' && rows'[t].heartbeat == s.rows[t].heartbeat
  {
  }

  lemma EnvStopsHeartbeat(s: State, step: EnvStep, t: TaskId)
    requires EnvEnabled(s, step) && t in s.rows
    ensures var rows' := EnvApply(s, step).rows;
      t in rows' && (rows'[t].heartbeat == s.rows[t].heartbeat || rows'[t].heartbeat.None?)
  {
  }

  lemma WorkOnHeartbeat(s: State, w: Worker, step: WorkStep, t: TaskId)
    requires WorkEnabled(s, w, step) && t in s.rows
    requires w in s.workers ==> s.workers[w].id in s.log
    ensures var rows' := WorkApply(s, w, step).rows;
      t in rows' && (rows'[t].heartbeat == s.rows[t].heartbeat || rows'[t].heartbeat.None?
                     || (step.Renew? && rows'[t].heartbeat == Some(s.now))
                     || (step.ClaimWrite? && w in s.workers && s.workers[w].ClaimSelected?
                         && rows'[t].heartbeat == Some(s.workers[w].readAt)))
  {
  }

  /** Only a claim or a renewal gives a row a heartbeat it did not have. */
  lemma NewBeatIsWritten(s: State, step: Step, t: TaskId, at: Time, cfg: Timeouts)
    requires Enabled(s, step, cfg) && t in s.rows && !BeatAt(s, t, at) && BeatAt(Apply(s, step, cfg), t, at)
    ensures Beats(s, step, t, at, cfg)
  {
    match step
    case Pump(p, a) => PumpLeavesHeartbeat(s, p, a, t);
    case Work(w, a) => WorkOnHeartbeat(s, w, a, t);
    case Dispatch(d, a) => DispatcherLeavesHeartbeat(s, d, a, t, cfg);
    case Env(a) => EnvStopsHeartbeat(s, a, t);
  }

  lemma {:induction false} BeatAtEnd(s: State, steps: seq<Step>, t: TaskId, at: Time, cfg: Timeouts)
    requires ValidRun(s, steps, cfg) && t in s.rows
    ensures BeatAt(After(s, steps, cfg), t, at) <==> BeatThrough(s, steps, t, at, cfg) || BeatAndKept(s, steps, t, at, cfg)
    decreases |steps|
  {
    if steps != [] {
      var next := Apply(s, steps[0], cfg);
      StepOnToken(s, steps[0], t, cfg);
      BeatAtEnd(next, steps[1..], t, at, cfg);
      if BeatAt(next, t, at) && !BeatAt(s, t, at) { NewBeatIsWritten(s, steps[0], t, at, cfg); }
    }
  }

  lemma WorkLeavesClock(s: State, w: Worker, step: WorkStep)
    requires WorkEnabled(s, w, step)
    requires w in s.workers ==> s.workers[w].id in s.log
    ensures WorkApply(s, w, step).now == s.now
  {
  }

  lemma PumpLeavesClock(s: State, p: PumpId, step: PumpStep)
    requires PumpEnabled(s, p, step)
    ensures PumpApply(s, p, step).now == s.now
  {
  }

  lemma DispatcherLeavesClock(s: State, d: DispatcherId, step: DispatcherStep, cfg: Timeouts)
    requires DispatcherEnabled(s, d, step, cfg)
    ensures DispatcherApply(s, d, step, cfg).now == s.now
  {
  }

  lemma EnvMovesClock(s: State, step: EnvStep)
    requires EnvEnabled(s, step)
    ensures s.now <= EnvApply(s, step).now
  {
  }

  lemma StepLeavesClock(s: State, step: Step, cfg: Timeouts)
    requires Enabled(s, step, cfg)
    ensures s.now <= Apply(s, step, cfg).now
  {
    match step
    case Pump(p, a) => PumpLeavesClock(s, p, a);
    case Work(w, a) => WorkLeavesClock(s, w, a);
    case Dispatch(d, a) => DispatcherLeavesClock(s, d, a, cfg);
    case Env(a) => EnvMovesClock(s, a);
  }

  lemma {:induction false} ClockGoesOn(s: State, steps: seq<Step>, cfg: Timeouts)
    requires ValidRun(s, steps, cfg)
    ensures s.now <= After(s, steps, cfg).now
    decreases |steps|
  {
    if steps != [] {
      StepLeavesClock(s, steps[0], cfg);
      ClockGoesOn(Apply(s, steps[0], cfg), steps[1..], cfg);
    }
  }

  /** "A row whose heartbeat is fresh belongs to a live worker and is left alone" holds at the SELECT only. At
      the write of a reset, over any run since, the row's heartbeat is fresh exactly when a claim or a renewal
      wrote it in the meantime, recently enough, and it was kept; and the write takes the task from that worker
      all the same. */
  lemma FreshRowIsResetExactly(s: State, d: DispatcherId, tasks: seq<TaskId>, steps: seq<Step>, t: TaskId, cfg: Timeouts)
    requires DispatcherEnabled(s, d, StaleSelect(tasks), cfg) && t in tasks
    requires ValidRun(Apply(s, Dispatch(d, StaleSelect(tasks)), cfg), steps, cfg)
    requires var last := After(Apply(s, Dispatch(d, StaleSelect(tasks)), cfg), steps, cfg);
      DispatcherEnabled(last, d, StaleWrite, cfg) && last.dispatchers[d].stale[0] == (t, s.rows[t])
    ensures var next := Apply(s, Dispatch(d, StaleSelect(tasks)), cfg);
      var last := After(next, steps, cfg);
      var rows' := DispatcherApply(last, d, StaleWrite, cfg).rows;
      && t in last.rows && t in rows'
      && (!HeartbeatStale(last.rows[t], last.now, cfg)
          <==> exists at: Time :: last.now - at <= cfg.heartbeat && BeatAndKept(next, steps, t, at, cfg))
      && rows'[t].status.Pending? && rows'[t].owner.None? && rows'[t].token.None?
  {
    var next := Apply(s, Dispatch(d, StaleSelect(tasks)), cfg);
    var last := After(next, steps, cfg);
    RowsStay(next, steps, t, cfg);
    ClockGoesOn(next, steps, cfg);
    if !HeartbeatStale(last.rows[t], last.now, cfg) {
      var at := last.rows[t].heartbeat.value;
      BeatAtEnd(next, steps, t, at, cfg);
      assert !BeatAt(next, t, at);
      assert BeatAndKept(next, steps, t, at, cfg);
    }
    forall at: Time | last.now - at <= cfg.heartbeat && BeatAndKept(next, steps, t, at, cfg)
      ensures !HeartbeatStale(last.rows[t], last.now, cfg)
    {
      BeatAtEnd(next, steps, t, at, cfg);
    }
  }

  lemma {:induction false} RowsStay(s: State, steps: seq<Step>, t: TaskId, cfg: Timeouts)
    requires ValidRun(s, steps, cfg) && t in s.rows
    ensures t in After(s, steps, cfg).rows
    decreases |steps|
  {
    if steps != [] {
      StepOnToken(s, steps[0], t, cfg);
      RowsStay(Apply(s, steps[0], cfg), steps[1..], t, cfg);
    }
  }
}
