/** What a worker's claim is worth: in every reachable state the row, the message and the worker agree. */
module DispatchClaims {
  import opened Prelude
  import opened DispatchRows
  import opened DispatchProtocol

  /** A pending row with an owner is leased: it was claimed and execution has not begun. */
  predicate ClaimedRow(r: Row) {
    r.status.Pending? && r.owner.Some? ==> r.dispatch == Some(Leased)
  }

  /** A worker about to claim has read the version the row still has, if the row still holds the message's
      token; and a row a claiming worker still owns is the one it claimed, under the same token, epoch and
      version. */
  predicate RowAgrees(r: Row, k: Token, w: Worker, pc: WorkerPc) {
    && (pc.ClaimSelected? && r.token == Some(k) ==> pc.version == r.controlVersion)
    && (pc.Claimed? && r.owner == Some(w) ==>
          r.token == Some(k) && r.execEpoch == pc.epoch && r.controlVersion == pc.version)
  }

  predicate WorkerAgrees(s: State, w: Worker)
    requires w in s.workers
  {
    var pc := s.workers[w];
    pc.id in s.log && s.log[pc.id].task in s.rows ==> RowAgrees(s.rows[s.log[pc.id].task], s.log[pc.id].token, w, pc)
  }

  ghost predicate ClaimsInv(s: State) {
    && (forall t <- s.rows :: ClaimedRow(s.rows[t]))
    && (forall w <- s.workers :: WorkerAgrees(s, w))
  }

  /** What a step of anybody else may do to a row as worker `w` with a message `k` sees it. */
  predicate LeavesClaim(r: Row, r': Row, k: Token, w: Worker) {
    && (r'.token == Some(k) ==> r.token == Some(k) && r'.controlVersion == r.controlVersion)
    && (r'.owner == Some(w) ==> r.owner == Some(w) && r'.token == r.token
                                && r'.execEpoch == r.execEpoch && r'.controlVersion == r.controlVersion)
    && (ClaimedRow(r) ==> ClaimedRow(r'))
  }

  lemma PumpLeavesClaim(s: State, p: PumpId, step: PumpStep, t: TaskId, k: Token, w: Worker)
    requires Inv(s) && PumpEnabled(s, p, step) && t in s.rows && k in s.drawn
    ensures t in PumpApply(s, p, step).rows && LeavesClaim(s.rows[t], PumpApply(s, p, step).rows[t], k, w)
  {
  }

  lemma DispatcherLeavesClaim(s: State, d: DispatcherId, step: DispatcherStep, cfg: Timeouts, t: TaskId, k: Token, w: Worker)
    requires TableInv(s.rows, s.drawn) && DispatcherEnabled(s, d, step, cfg) && t in s.rows
    ensures t in DispatcherApply(s, d, step, cfg).rows && LeavesClaim(s.rows[t], DispatcherApply(s, d, step, cfg).rows[t], k, w)
  {
  }

  lemma EnvLeavesClaim(s: State, step: EnvStep, t: TaskId, k: Token, w: Worker)
    requires EnvEnabled(s, step) && t in s.rows
    ensures t in EnvApply(s, step).rows && LeavesClaim(s.rows[t], EnvApply(s, step).rows[t], k, w)
  {
  }

  lemma RowLeavesClaim(r: Row, k': Token, v: Worker, pc: WorkerPc, step: WorkStep, now: Time, k: Token, w: Worker)
    requires WorkMatches(r, k', v, pc, step, now) && v != w
    ensures LeavesClaim(r, WorkRow(r, k', v, pc, step, now), k, w)
  {
  }

  lemma WorkLeavesClaim(s: State, v: Worker, step: WorkStep, t: TaskId, k: Token, w: Worker)
    requires WorkEnabled(s, v, step) && t in s.rows && v != w
    requires v in s.workers ==> s.workers[v].id in s.log
    ensures t in WorkApply(s, v, step).rows && LeavesClaim(s.rows[t], WorkApply(s, v, step).rows[t], k, w)
  {
    if v in s.workers {
      var Message(t', k') := s.log[s.workers[v].id];
      if t' in s.rows && WorkMatches(s.rows[t'], k', v, s.workers[v], step, s.now) {
        RowLeavesClaim(s.rows[t'], k', v, s.workers[v], step, s.now, k, w);
      }
    }
  }

  /** A worker's own step, on the row of its message. */
  lemma OwnStepAgrees(r: Row, k: Token, w: Worker, pc: WorkerPc, step: WorkStep, now: Time)
    requires WorkMatches(r, k, w, pc, step, now) && RowAgrees(r, k, w, pc)
    ensures var (r', next) := (WorkRow(r, k, w, pc, step, now), WorkNext(pc, step, true, r, k, now));
            (next.Some? ==> RowAgrees(r', k, w, next.value)) && (ClaimedRow(r) ==> ClaimedRow(r'))
  {
  }

  lemma OwnMissAgrees(r: Row, k: Token, w: Worker, pc: WorkerPc, step: WorkStep, now: Time)
    requires RowAgrees(r, k, w, pc) && (step.ClaimWrite? ==> pc.ClaimSelected?) && (step.Handoff? ==> pc.Received?)
    ensures var next := WorkNext(pc, step, false, r, k, now); next.Some? ==> RowAgrees(r, k, w, next.value)
  {
  }

  lemma WorkKeepsOwnClaim(s: State, w: Worker, step: WorkStep)
    requires DeliveryInv(s) && WorkEnabled(s, w, step) && (w in s.workers ==> WorkerAgrees(s, w))
    requires w in s.workers ==> s.workers[w].id in s.log
    ensures var s' := WorkApply(s, w, step); w in s'.workers ==> WorkerAgrees(s', w)
  {
    if w in s.workers && !step.WorkerCrash? {
      var (pc, m) := (s.workers[w], s.log[s.workers[w].id]);
      if m.task in s.rows {
        if WorkMatches(s.rows[m.task], m.token, w, pc, step, s.now) {
          OwnStepAgrees(s.rows[m.task], m.token, w, pc, step, s.now);
        } else {
          OwnMissAgrees(s.rows[m.task], m.token, w, pc, step, s.now);
        }
      }
    }
  }

  // ---------------------------------------------------------------- every step keeps it

  /** A worker that took no step still agrees with the row. */
  lemma BystanderAgrees(s: State, s': State, w: Worker)
    requires w in s.workers && w in s'.workers && s'.workers[w] == s.workers[w] && WorkerAgrees(s, w)
    requires var id := s.workers[w].id; id in s.log && id in s'.log && s'.log[id] == s.log[id]
    requires var Message(t, k) := s.log[s.workers[w].id];
             t in s'.rows ==> if t in s.rows then LeavesClaim(s.rows[t], s'.rows[t], k, w)
                              else s'.rows[t].token.None? && s'.rows[t].owner.None?
    ensures WorkerAgrees(s', w)
  {
  }

  lemma PumpKeepsClaims(s: State, p: PumpId, step: PumpStep)
    requires Inv(s) && ClaimsInv(s) && PumpEnabled(s, p, step)
    ensures ClaimsInv(PumpApply(s, p, step))
  {
    var s' := PumpApply(s, p, step);
    forall t | t in s'.rows ensures ClaimedRow(s'.rows[t]) {
      if s.rows[t] != s'.rows[t] { PumpLeavesClaimed(s, p, step, t); }
    }
    forall w | w in s'.workers ensures WorkerAgrees(s', w) {
      var m := s.log[s.workers[w].id];
      if m.task in s.rows { PumpLeavesClaim(s, p, step, m.task, m.token, w); }
      BystanderAgrees(s, s', w);
    }
  }

  lemma PumpLeavesClaimed(s: State, p: PumpId, step: PumpStep, t: TaskId)
    requires Inv(s) && PumpEnabled(s, p, step) && t in s.rows && ClaimedRow(s.rows[t])
    ensures t in PumpApply(s, p, step).rows && ClaimedRow(PumpApply(s, p, step).rows[t])
  {
  }

  lemma DispatcherKeepsClaims(s: State, d: DispatcherId, step: DispatcherStep, cfg: Timeouts)
    requires Inv(s) && ClaimsInv(s) && DispatcherEnabled(s, d, step, cfg)
    ensures ClaimsInv(DispatcherApply(s, d, step, cfg))
  {
    var s' := DispatcherApply(s, d, step, cfg);
    forall t | t in s'.rows ensures ClaimedRow(s'.rows[t]) {
      DispatcherLeavesClaim(s, d, step, cfg, t, 0, 0);
    }
    forall w | w in s'.workers ensures WorkerAgrees(s', w) {
      var m := s.log[s.workers[w].id];
      if m.task in s.rows { DispatcherLeavesClaim(s, d, step, cfg, m.task, m.token, w); }
      BystanderAgrees(s, s', w);
    }
  }

  lemma EnvKeepsClaims(s: State, step: EnvStep)
    requires Inv(s) && ClaimsInv(s) && EnvEnabled(s, step)
    ensures ClaimsInv(EnvApply(s, step))
  {
    var s' := EnvApply(s, step);
    forall t | t in s'.rows ensures ClaimedRow(s'.rows[t]) {
      if t in s.rows { EnvLeavesClaim(s, step, t, 0, 0); }
    }
    forall w | w in s'.workers ensures WorkerAgrees(s', w) {
      var m := s.log[s.workers[w].id];
      if m.task in s.rows { EnvLeavesClaim(s, step, m.task, m.token, w); }
      BystanderAgrees(s, s', w);
    }
  }

  lemma WorkKeepsClaims(s: State, v: Worker, step: WorkStep)
    requires Inv(s) && ClaimsInv(s) && WorkEnabled(s, v, step)
    requires v in s.workers ==> s.workers[v].id in s.log
    ensures ClaimsInv(WorkApply(s, v, step))
  {
    var s' := WorkApply(s, v, step);
    forall t | t in s'.rows ensures ClaimedRow(s'.rows[t]) {
      WorkLeavesClaim(s, v, step, t, 0, v + 1);
    }
    forall w | w in s'.workers ensures WorkerAgrees(s', w) {
      if w == v {
        WorkKeepsOwnClaim(s, w, step);
      } else {
        var m := s.log[s.workers[w].id];
        if m.task in s.rows { WorkLeavesClaim(s, v, step, m.task, m.token, w); }
        BystanderAgrees(s, s', w);
      }
    }
  }

  lemma StepKeepsClaims(s: State, step: Step, cfg: Timeouts)
    requires Inv(s) && ClaimsInv(s) && Enabled(s, step, cfg)
    ensures ClaimsInv(Apply(s, step, cfg))
  {
    match step
    case Pump(p, a) => PumpKeepsClaims(s, p, a);
    case Work(w, a) => WorkKeepsClaims(s, w, a);
    case Dispatch(d, a) => DispatcherKeepsClaims(s, d, a, cfg);
    case Env(a) => EnvKeepsClaims(s, a);
  }

  lemma {:induction false} RunKeepsClaims(s: State, steps: seq<Step>, cfg: Timeouts)
    requires Inv(s) && ClaimsInv(s) && ValidRun(s, steps, cfg)
    ensures ClaimsInv(After(s, steps, cfg))
    decreases |steps|
  {
    if steps != [] {
      StepKeepsInv(s, steps[0], cfg);
      StepKeepsClaims(s, steps[0], cfg);
      RunKeepsClaims(Apply(s, steps[0], cfg), steps[1..], cfg);
    }
  }

  lemma ReachableClaims(s: State, cfg: Timeouts)
    requires Reachable(s, cfg)
    ensures Inv(s) && ClaimsInv(s)
  {
    ReachableInv(s, cfg);
    var steps :| ValidRun(Initial(), steps, cfg) && After(Initial(), steps, cfg) == s;
    RunKeepsClaims(Initial(), steps, cfg);
  }

  // ---------------------------------------------------------------- fencing

  /** The statements a worker runs after its claim name its owner id and epoch, not the token. All the same,
      in every reachable state they change no row but the one of its own message, and only while that row
      still holds the token of that message. */
  lemma FencedByToken(s: State, w: Worker, step: WorkStep, t: TaskId, cfg: Timeouts)
    requires Reachable(s, cfg) && HoldsClaim(s, w) && s.workers[w].id in s.log && WorkEnabled(s, w, step)
    requires t in s.rows && t in WorkApply(s, w, step).rows && WorkApply(s, w, step).rows[t] != s.rows[t]
    ensures s.log[s.workers[w].id] == Message(t, s.log[s.workers[w].id].token)
    ensures s.rows[t].token == Some(s.log[s.workers[w].id].token)
  {
    ReachableClaims(s, cfg);
    assert WorkerAgrees(s, w);
  }
}
