/**
 What nobody else may touch: a running task is its owner's while the lease lasts, a finished one stays as it is, and a
 deleted one is never started (app/dispatcher.py:154-261, app/service/execution_coordinator.py:125-540).
 */
module DispatchLeases {
  import opened Prelude
  import opened DispatchRows
  import opened DispatchProtocol

  /** A worker about to claim read the row at a time already past, and not as a finished one; and a finished row has
      no owner. */
  ghost predicate ReadsInv(s: State) {
    && (forall w <- s.workers :: s.workers[w].ClaimSelected? ==> s.workers[w].readAt <= s.now && !s.workers[w].expected.Terminal?)
    && (forall t <- s.rows :: Unowned(s.rows[t]))
  }

  predicate Unowned(r: Row) {
    r.status.Terminal? ==> r.owner.None?
  }

  lemma PumpKeepsReads(s: State, p: PumpId, step: PumpStep)
    requires ReadsInv(s) && PumpEnabled(s, p, step)
    ensures ReadsInv(PumpApply(s, p, step))
  {
  }

  lemma WorkKeepsReads(s: State, w: Worker, step: WorkStep)
    requires ReadsInv(s) && WorkEnabled(s, w, step)
    requires w in s.workers ==> s.workers[w].id in s.log
    ensures ReadsInv(WorkApply(s, w, step))
  {
    var s' := WorkApply(s, w, step);
    forall t | t in s'.rows ensures Unowned(s'.rows[t]) {
      if w in s.workers && s.log[s.workers[w].id].task == t && s'.rows[t] != s.rows[t] {
        RowStaysUnowned(s.rows[t], s.log[s.workers[w].id].token, w, s.workers[w], step, s.now);
      }
    }
  }

  lemma RowStaysUnowned(r: Row, k: Token, w: Worker, pc: WorkerPc, step: WorkStep, now: Time)
    requires Unowned(r) && WorkMatches(r, k, w, pc, step, now) && (pc.ClaimSelected? ==> !pc.expected.Terminal?)
    ensures Unowned(WorkRow(r, k, w, pc, step, now))
  {
  }

  lemma DispatcherKeepsReads(s: State, d: DispatcherId, step: DispatcherStep, cfg: Timeouts)
    requires ReadsInv(s) && DispatcherEnabled(s, d, step, cfg)
    ensures ReadsInv(DispatcherApply(s, d, step, cfg))
  {
  }

  lemma EnvKeepsReads(s: State, step: EnvStep)
    requires ReadsInv(s) && EnvEnabled(s, step)
    ensures ReadsInv(EnvApply(s, step))
  {
  }

  lemma StepKeepsReads(s: State, step: Step, cfg: Timeouts)
    requires ReadsInv(s) && Enabled(s, step, cfg)
    ensures ReadsInv(Apply(s, step, cfg))
  {
    match step
    case Pump(p, a) => PumpKeepsReads(s, p, a);
    case Work(w, a) => WorkKeepsReads(s, w, a);
    case Dispatch(d, a) => DispatcherKeepsReads(s, d, a, cfg);
    case Env(a) => EnvKeepsReads(s, a);
  }

  lemma {:induction false} RunKeepsReads(s: State, steps: seq<Step>, cfg: Timeouts)
    requires ReadsInv(s) && ValidRun(s, steps, cfg)
    ensures ReadsInv(After(s, steps, cfg))
    decreases |steps|
  {
    if steps != [] {
      StepKeepsReads(s, steps[0], cfg);
      RunKeepsReads(Apply(s, steps[0], cfg), steps[1..], cfg);
    }
  }

  lemma ReachableReads(s: State, cfg: Timeouts)
    requires Reachable(s, cfg)
    ensures ReadsInv(s)
  {
    var steps :| ValidRun(Initial(), steps, cfg) && After(Initial(), steps, cfg) == s;
    RunKeepsReads(Initial(), steps, cfg);
  }

  // ---------------------------------------------------------------- a lease that has not run out

  predicate Leased(r: Row, w: Worker, now: Time) {
    r.status.Running? && r.owner == Some(w) && r.lease.Some? && r.lease.value >= now
  }

  /** The steps that may interfere all the same: the worker's own, a stale reset, an operator's. */
  predicate MayTake(step: Step, w: Worker, t: TaskId) {
    match step
    case Work(v, _) => v == w
    case Dispatch(_, a) => a.StaleWrite?
    case Env(a) => a == Restart(t) || a == Cancel(t)
    case Pump(_, _) => false
  }

  lemma PumpLeavesLeased(s: State, p: PumpId, step: PumpStep, t: TaskId)
    requires PumpEnabled(s, p, step) && t in s.rows && RowInv(s.rows[t]) && s.rows[t].status.Running?
    ensures var rows' := PumpApply(s, p, step).rows; t in rows' && rows'[t] == s.rows[t]
  {
  }

  lemma RowLeavesLeased(r: Row, k: Token, v: Worker, pc: WorkerPc, step: WorkStep, now: Time, w: Worker)
    requires Leased(r, w, now) && v != w && (pc.ClaimSelected? ==> pc.readAt <= now)
    ensures WorkMatches(r, k, v, pc, step, now) ==> WorkRow(r, k, v, pc, step, now) == r
  {
  }

  lemma WorkLeavesLeased(s: State, v: Worker, step: WorkStep, t: TaskId, w: Worker)
    requires WorkEnabled(s, v, step) && t in s.rows && Leased(s.rows[t], w, s.now) && v != w && ReadsInv(s)
    requires v in s.workers ==> s.workers[v].id in s.log
    ensures var rows' := WorkApply(s, v, step).rows; t in rows' && rows'[t] == s.rows[t]
  {
    if v in s.workers && s.log[s.workers[v].id].task == t {
      RowLeavesLeased(s.rows[t], s.log[s.workers[v].id].token, v, s.workers[v], step, s.now, w);
    }
  }

  lemma DispatcherLeavesLeased(s: State, d: DispatcherId, step: DispatcherStep, t: TaskId, cfg: Timeouts)
    requires DispatcherEnabled(s, d, step, cfg) && t in s.rows && s.rows[t].status.Running? && !step.StaleWrite?
    ensures var rows' := DispatcherApply(s, d, step, cfg).rows; t in rows' && rows'[t] == s.rows[t]
  {
  }

  lemma EnvLeavesLeased(s: State, step: EnvStep, t: TaskId)
    requires EnvEnabled(s, step) && t in s.rows && s.rows[t].status.Running? && step != Restart(t) && step != Cancel(t)
    ensures var rows' := EnvApply(s, step).rows; t in rows' && rows'[t] == s.rows[t]
  {
  }

  /** In every reachable state the row of a running task whose lease has not run out is changed by nobody but its
      owner, a stale reset and an operator: no other worker, with whatever message, claims it. */
  lemma LeaseProtects(s: State, step: Step, t: TaskId, w: Worker, cfg: Timeouts)
    requires Reachable(s, cfg) && Enabled(s, step, cfg) && t in s.rows && Leased(s.rows[t], w, s.now)
    requires !MayTake(step, w, t)
    ensures t in Apply(s, step, cfg).rows && Apply(s, step, cfg).rows[t] == s.rows[t]
  {
    ReachableInv(s, cfg);
    ReachableReads(s, cfg);
    match step
    case Pump(p, a) => PumpLeavesLeased(s, p, a, t);
    case Work(v, a) => WorkLeavesLeased(s, v, a, t, w);
    case Dispatch(d, a) => DispatcherLeavesLeased(s, d, a, t, cfg);
    case Env(a) => EnvLeavesLeased(s, a, t);
  }

  // ---------------------------------------------------------------- finished and deleted tasks

  predicate OperatorOn(step: Step, t: TaskId) {
    step.Env? && (step.envStep == Restart(t) || step.envStep == Cancel(t) || step.envStep == Delete(t))
  }

  lemma PumpLeavesTerminal(s: State, p: PumpId, step: PumpStep, t: TaskId)
    requires PumpEnabled(s, p, step) && t in s.rows && RowInv(s.rows[t]) && s.rows[t].status.Terminal?
    ensures var rows' := PumpApply(s, p, step).rows; t in rows' && rows'[t] == s.rows[t]
  {
  }

  lemma RowLeavesTerminal(r: Row, k: Token, v: Worker, pc: WorkerPc, step: WorkStep, now: Time)
    requires r.status.Terminal? && r.owner.None? && (pc.ClaimSelected? ==> !pc.expected.Terminal?)
    ensures WorkMatches(r, k, v, pc, step, now) ==> WorkRow(r, k, v, pc, step, now) == r
  {
  }

  lemma WorkLeavesTerminal(s: State, v: Worker, step: WorkStep, t: TaskId)
    requires WorkEnabled(s, v, step) && t in s.rows && s.rows[t].status.Terminal? && ReadsInv(s)
    requires v in s.workers ==> s.workers[v].id in s.log
    ensures var rows' := WorkApply(s, v, step).rows; t in rows' && rows'[t] == s.rows[t]
  {
    if v in s.workers && s.log[s.workers[v].id].task == t {
      RowLeavesTerminal(s.rows[t], s.log[s.workers[v].id].token, v, s.workers[v], step, s.now);
    }
  }

  lemma DispatcherLeavesTerminal(s: State, d: DispatcherId, step: DispatcherStep, t: TaskId, cfg: Timeouts)
    requires DispatcherEnabled(s, d, step, cfg) && t in s.rows && s.rows[t].status.Terminal? && !step.StaleWrite?
    ensures var rows' := DispatcherApply(s, d, step, cfg).rows; t in rows' && rows'[t] == s.rows[t]
  {
  }

  lemma EnvLeavesTerminal(s: State, step: EnvStep, t: TaskId)
    requires EnvEnabled(s, step) && t in s.rows && !OperatorOn(Env(step), t)
    ensures var rows' := EnvApply(s, step).rows; t in rows' && rows'[t] == s.rows[t]
  {
  }

  /** A finished or cancelled task stays exactly as it is until an operator acts on it, but for a stale reset that was
      already under way. */
  lemma TerminalStays(s: State, step: Step, t: TaskId, cfg: Timeouts)
    requires Reachable(s, cfg) && Enabled(s, step, cfg) && t in s.rows && s.rows[t].status.Terminal?
    requires !OperatorOn(step, t) && !(step.Dispatch? && step.dispatcherStep.StaleWrite?)
    ensures t in Apply(s, step, cfg).rows && Apply(s, step, cfg).rows[t] == s.rows[t]
  {
    ReachableInv(s, cfg);
    ReachableReads(s, cfg);
    match step
    case Pump(p, a) => PumpLeavesTerminal(s, p, a, t);
    case Work(v, a) => WorkLeavesTerminal(s, v, a, t);
    case Dispatch(d, a) => DispatcherLeavesTerminal(s, d, a, t, cfg);
    case Env(a) => EnvLeavesTerminal(s, a, t);
  }

  /** Nothing new is started for the row: no token, no owner, no run it did not have. */
  predicate NothingStarted(r: Row, r': Row) {
    && r'.isDeleted && (r'.token == r.token || r'.token.None?) && (r'.owner == r.owner || r'.owner.None?)
    && (r'.status.Running? ==> r.status.Running?)
  }

  lemma PumpStartsNoDeleted(s: State, p: PumpId, step: PumpStep, t: TaskId)
    requires PumpEnabled(s, p, step) && t in s.rows && s.rows[t].isDeleted
    ensures var rows' := PumpApply(s, p, step).rows; t in rows' && NothingStarted(s.rows[t], rows'[t])
  {
  }

  lemma RowStartsNoDeleted(r: Row, k: Token, v: Worker, pc: WorkerPc, step: WorkStep, now: Time)
    requires r.isDeleted
    ensures WorkMatches(r, k, v, pc, step, now) ==> NothingStarted(r, WorkRow(r, k, v, pc, step, now))
  {
  }

  lemma WorkStartsNoDeleted(s: State, v: Worker, step: WorkStep, t: TaskId)
    requires WorkEnabled(s, v, step) && t in s.rows && s.rows[t].isDeleted
    requires v in s.workers ==> s.workers[v].id in s.log
    ensures var rows' := WorkApply(s, v, step).rows; t in rows' && NothingStarted(s.rows[t], rows'[t])
  {
    if v in s.workers && s.log[s.workers[v].id].task == t {
      RowStartsNoDeleted(s.rows[t], s.log[s.workers[v].id].token, v, s.workers[v], step, s.now);
    }
  }

  lemma DispatcherStartsNoDeleted(s: State, d: DispatcherId, step: DispatcherStep, t: TaskId, cfg: Timeouts)
    requires DispatcherEnabled(s, d, step, cfg) && t in s.rows && s.rows[t].isDeleted
    ensures var rows' := DispatcherApply(s, d, step, cfg).rows; t in rows' && NothingStarted(s.rows[t], rows'[t])
  {
  }

  lemma EnvStartsNoDeleted(s: State, step: EnvStep, t: TaskId)
    requires EnvEnabled(s, step) && t in s.rows && s.rows[t].isDeleted
    ensures var rows' := EnvApply(s, step).rows; t in rows' && NothingStarted(s.rows[t], rows'[t])
  {
  }

  /** No actor ever reserves, claims or begins a deleted task, or brings it back. */
  lemma DeletedIsNeverStarted(s: State, step: Step, t: TaskId, cfg: Timeouts)
    requires Enabled(s, step, cfg) && t in s.rows && s.rows[t].isDeleted
    ensures t in Apply(s, step, cfg).rows && NothingStarted(s.rows[t], Apply(s, step, cfg).rows[t])
  {
    match step
    case Pump(p, a) => PumpStartsNoDeleted(s, p, a, t);
    case Work(v, a) => WorkStartsNoDeleted(s, v, a, t);
    case Dispatch(d, a) => DispatcherStartsNoDeleted(s, d, a, t, cfg);
    case Env(a) => EnvStartsNoDeleted(s, a, t);
  }
}
