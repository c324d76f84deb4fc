/** Exactly which claimed rows are stranded, and what becomes of every pending task. */
module DispatchStranding {
  import opened Prelude
  import opened DispatchRows
  import opened DispatchProtocol
  import opened DispatchClaims
  import opened DispatchLiveness

  /** Some run without an operator's step on the task changes its row. */
  ghost predicate MovesBy(s: State, t: TaskId, steps: seq<Step>, cfg: Timeouts)
    requires t in s.rows
  {
    && ValidRun(s, steps, cfg) && (forall i :: 0 <= i < |steps| ==> !OperatorStep(steps[i], t))
    && t in After(s, steps, cfg).rows && After(s, steps, cfg).rows[t] != s.rows[t]
  }

  lemma MovesLater(s: State, t: TaskId, step: Step, cfg: Timeouts)
    requires t in s.rows && Enabled(s, step, cfg) && !OperatorStep(step, t)
    requires t in Apply(s, step, cfg).rows && Apply(s, step, cfg).rows[t] == s.rows[t]
    requires exists steps :: MovesBy(Apply(s, step, cfg), t, steps, cfg)
    ensures exists steps :: MovesBy(s, t, steps, cfg)
  {
    var steps :| MovesBy(Apply(s, step, cfg), t, steps, cfg);
    assert ([step] + steps)[1..] == steps;
    assert ValidRun(s, [step] + steps, cfg) && After(s, [step] + steps, cfg) == After(Apply(s, step, cfg), steps, cfg);
    assert MovesBy(s, t, [step] + steps, cfg);
  }

  lemma MovesNow(s: State, t: TaskId, step: Step, cfg: Timeouts)
    requires t in s.rows && Enabled(s, step, cfg) && !OperatorStep(step, t)
    requires t in Apply(s, step, cfg).rows && Apply(s, step, cfg).rows[t] != s.rows[t]
    ensures exists steps :: MovesBy(s, t, steps, cfg)
  {
    assert [step][1..] == [];
    assert ValidRun(Apply(s, step, cfg), [], cfg);
    assert ValidRun(s, [step], cfg) && After(s, [step], cfg) == Apply(s, step, cfg);
    assert MovesBy(s, t, [step], cfg);
  }

  // ---------------------------------------------------------------- a claim under way can begin

  /** Steps of worker `w` alone take the task from pending to running. */
  ghost predicate BeginsBy(s: State, w: Worker, t: TaskId, steps: seq<Step>, cfg: Timeouts) {
    && ValidRun(s, steps, cfg) && (forall i :: 0 <= i < |steps| ==> steps[i].Work? && steps[i].w == w)
    && t in After(s, steps, cfg).rows && After(s, steps, cfg).rows[t].status.Running?
  }

  lemma BeginsLater(s: State, w: Worker, t: TaskId, step: WorkStep, cfg: Timeouts)
    requires Enabled(s, Work(w, step), cfg)
    requires exists steps :: BeginsBy(Apply(s, Work(w, step), cfg), w, t, steps, cfg)
    ensures exists steps :: BeginsBy(s, w, t, steps, cfg)
  {
    var next := Apply(s, Work(w, step), cfg);
    var steps :| BeginsBy(next, w, t, steps, cfg);
    var all := [Work(w, step)] + steps;
    assert all[1..] == steps;
    assert ValidRun(s, all, cfg) && After(s, all, cfg) == After(next, steps, cfg);
    assert BeginsBy(s, w, t, all, cfg);
  }

  predicate MyTask(s: State, w: Worker, t: TaskId) {
    w in s.workers && s.workers[w].id in s.log && s.log[s.workers[w].id].task == t && t in s.rows
    && s.rows[t].status.Pending? && !s.rows[t].isDeleted
  }

  lemma ClaimedBegins(s: State, w: Worker, t: TaskId, cfg: Timeouts)
    requires MyTask(s, w, t) && WorkerAgrees(s, w) && s.workers[w].Claimed? && s.rows[t].owner == Some(w)
    ensures exists steps :: BeginsBy(s, w, t, steps, cfg)
  {
    var step := Work(w, Begin);
    assert [step][1..] == [];
    var next := Apply(s, step, cfg);
    assert ValidRun(next, [], cfg) && After(next, [], cfg) == next;
    assert ValidRun(s, [step], cfg) && After(s, [step], cfg) == next;
    assert BeginsBy(s, w, t, [step], cfg);
  }

  lemma SelectedBegins(s: State, w: Worker, t: TaskId, cfg: Timeouts)
    requires MyTask(s, w, t) && WorkerAgrees(s, w) && s.workers[w].ClaimSelected? && s.workers[w].expected.Pending?
    requires s.rows[t].token == Some(s.log[s.workers[w].id].token)
    ensures exists steps :: BeginsBy(s, w, t, steps, cfg)
  {
    var next := Apply(s, Work(w, ClaimWrite(0)), cfg);
    ClaimedBegins(next, w, t, cfg);
    BeginsLater(s, w, t, ClaimWrite(0), cfg);
  }

  lemma AllowedBegins(s: State, w: Worker, t: TaskId, cfg: Timeouts)
    requires MyTask(s, w, t) && s.workers[w].MayClaim? && s.workers[w].allowPending
    requires s.rows[t].token == Some(s.log[s.workers[w].id].token)
    ensures exists steps :: BeginsBy(s, w, t, steps, cfg)
  {
    var next := Apply(s, Work(w, ClaimRead), cfg);
    SelectedBegins(next, w, t, cfg);
    BeginsLater(s, w, t, ClaimRead, cfg);
  }

  /** A worker with a claim under way can, on its own, take the task to running. */
  lemma UnderWayBegins(s: State, w: Worker, t: TaskId, cfg: Timeouts)
    requires Reachable(s, cfg) && ClaimUnderWay(s, w, t) && s.rows[t].status.Pending? && !s.rows[t].isDeleted
    ensures exists steps :: BeginsBy(s, w, t, steps, cfg)
  {
    ReachableClaims(s, cfg);
    match s.workers[w] {
      case MayClaim(_, _) => AllowedBegins(s, w, t, cfg);
      case ClaimSelected(_, _, _, _, _, _) => SelectedBegins(s, w, t, cfg);
      case Claimed(_, _, _) => ClaimedBegins(s, w, t, cfg);
    }
  }

  lemma BeginningMoves(s: State, w: Worker, t: TaskId, cfg: Timeouts)
    requires t in s.rows && s.rows[t].status.Pending? && exists steps :: BeginsBy(s, w, t, steps, cfg)
    ensures exists steps :: MovesBy(s, t, steps, cfg)
  {
    var steps :| BeginsBy(s, w, t, steps, cfg);
    assert forall i :: 0 <= i < |steps| ==> !OperatorStep(steps[i], t);
    assert MovesBy(s, t, steps, cfg);
  }

  // ---------------------------------------------------------------- so can a reset under way

  lemma {:induction false} ResetMoves(s: State, d: DispatcherId, t: TaskId, i: nat, cfg: Timeouts)
    requires d in s.dispatchers && i < |s.dispatchers[d].stale| && s.dispatchers[d].stale[i].0 == t
    requires t in s.rows && s.rows[t].token.Some?
    ensures exists steps :: MovesBy(s, t, steps, cfg)
    decreases i
  {
    if i == 0 {
      MovesNow(s, t, Dispatch(d, StaleWrite), cfg);
    } else {
      ResetMoves(Apply(s, Dispatch(d, StaleSkip), cfg), d, t, i - 1, cfg);
      MovesLater(s, t, Dispatch(d, StaleSkip), cfg);
    }
  }

  // ---------------------------------------------------------------- exactly the stranded rows

  /** A pending row with an owner is moved by some run without an operator exactly when it is not stuck: in
      every reachable state either a claim or a reset is under way, or nothing will ever touch it. */
  lemma ClaimedRowMovesExactly(s: State, t: TaskId, cfg: Timeouts)
    requires Reachable(s, cfg)
    requires t in s.rows && s.rows[t].status.Pending? && !s.rows[t].isDeleted && s.rows[t].owner.Some?
    ensures (exists steps :: MovesBy(s, t, steps, cfg)) <==> !Stuck(s, t)
  {
    ReachableClaims(s, cfg);
    if Stuck(s, t) {
      forall steps ensures !MovesBy(s, t, steps, cfg) {
        if ValidRun(s, steps, cfg) && forall i :: 0 <= i < |steps| ==> !OperatorStep(steps[i], t) {
          AbandonedClaimIsForever(s, steps, t, cfg);
        }
      }
    } else {
      assert ClaimedRow(s.rows[t]);
      UnstuckMoves(s, t, cfg);
    }
  }

  lemma UnstuckMoves(s: State, t: TaskId, cfg: Timeouts)
    requires Reachable(s, cfg) && !Stuck(s, t)
    requires t in s.rows && s.rows[t].status.Pending? && !s.rows[t].isDeleted && s.rows[t].token.Some?
    requires s.rows[t].owner.Some? && s.rows[t].dispatch == Some(Leased)
    ensures exists steps :: MovesBy(s, t, steps, cfg)
  {
    if w :| ClaimUnderWay(s, w, t) {
      UnderWayBegins(s, w, t, cfg);
      BeginningMoves(s, w, t, cfg);
    } else {
      var d :| ResetInProgress(s, d, t);
      var i :| 0 <= i < |s.dispatchers[d].stale| && s.dispatchers[d].stale[i].0 == t;
      ResetMoves(s, d, t, i, cfg);
    }
  }

  /** What becomes of a pending task, in every reachable state. Without a token it can be pumped. Unclaimed,
      it is recovered once the timeouts have passed, unless it lost its dispatch state in the present broker
      epoch. Claimed, it is leased, and a worker with its message in hand can begin it, or a reset is under
      way, or it is stuck. */
  lemma PendingTaskFates(s: State, t: TaskId, cfg: Timeouts)
    requires Reachable(s, cfg)
    requires t in s.rows && s.rows[t].status.Pending? && !s.rows[t].isDeleted
    ensures var r := s.rows[t];
      && (r.token.None? ==> PumpEligible(r))
      && (r.token.Some? && r.owner.None? ==>
            (Recoverable(r, r.token.value, s.epoch, cfg) <==> r.dispatch.Some? || r.brokerEpoch != Some(s.epoch)))
      && (r.owner.Some? ==>
            && r.token.Some? && r.dispatch == Some(Leased) && !Recoverable(r, r.token.value, s.epoch, cfg)
            && (Stuck(s, t) || (exists d :: ResetInProgress(s, d, t))
                || exists w :: ClaimUnderWay(s, w, t) && s.workers[w].id in s.place && s.place[s.workers[w].id] == InHand(w)
                               && exists steps :: BeginsBy(s, w, t, steps, cfg)))
  {
    ReachableClaims(s, cfg);
    PendingTasksRecover(s, t, cfg);
    assert ClaimedRow(s.rows[t]);
    if w :| ClaimUnderWay(s, w, t) {
      UnderWayBegins(s, w, t, cfg);
    }
  }
}
