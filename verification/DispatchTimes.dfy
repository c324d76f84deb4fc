/**
 When things really happened. The columns a recovery pass decides by are compared here with a record kept beside
 the protocol: when each row was last reserved, acknowledged and handed off, under which broker epoch its pump
 selected it, and when each recovery pass read the table (app/dispatcher.py:133-207, 337-511,
 app/service/execution_coordinator.py:210-244).
 */
module DispatchTimes {
  import opened Prelude
  import opened DispatchRows
  import opened DispatchProtocol

  /** Of the present reservation of a row; `epoch` is the one current at the SELECT of the pump that made it. */
  datatype Stamps = Stamps(reserved: Time, epoch: Epoch, acknowledged: Time, delivered: Time)

  datatype History = History(
    stamps: map<TaskId, Stamps>,
    selects: map<PumpId, Epoch>,                  // the epoch at the last SELECT of each pump
    passes: map<DispatcherId, (Time, Epoch)>)     // clock and epoch at the last SELECT of each recovery pass

  const NOTHING := History(map[], map[], map[])

  predicate Changes(s: State, step: Step, t: TaskId, cfg: Timeouts)
    requires Enabled(s, step, cfg)
  {
    t in s.rows && t in Apply(s, step, cfg).rows && Apply(s, step, cfg).rows[t] != s.rows[t]
  }

  function PumpRecords(s: State, p: PumpId, step: PumpStep, h: History): History
    requires PumpEnabled(s, p, step)
  {
    var rows' := PumpApply(s, p, step).rows;
    match step
    case Select(_) => h.(selects := h.selects[p := s.epoch])
    case Reserve(_, _, _) =>
      var t := s.pumps[p].todo[0];
      if rows' != s.rows && p in h.selects then h.(stamps := h.stamps[t := Stamps(s.now, h.selects[p], 0, 0)]) else h
    case Acknowledge(_) =>
      var t := s.pumps[p].task;
      if rows' != s.rows && t in h.stamps then h.(stamps := h.stamps[t := h.stamps[t].(acknowledged := s.now)]) else h
    case _ => h
  }

  function WorkRecords(s: State, w: Worker, step: WorkStep, h: History): History
    requires WorkEnabled(s, w, step) && (w in s.workers ==> s.workers[w].id in s.log)
  {
    if step.Handoff? && WorkApply(s, w, step).rows != s.rows && s.log[s.workers[w].id].task in h.stamps then
      var t := s.log[s.workers[w].id].task;
      h.(stamps := h.stamps[t := h.stamps[t].(delivered := s.now)])
    else h
  }

  function Record(s: State, step: Step, h: History, cfg: Timeouts): History
    requires Enabled(s, step, cfg)
  {
    match step
    case Pump(p, a) => PumpRecords(s, p, a, h)
    case Work(w, a) => WorkRecords(s, w, a, h)
    case Dispatch(d, a) => if a.RecoverySelect? then h.(passes := h.passes[d := (s.now, s.epoch)]) else h
    case Env(_) => h
  }

  function Recorded(s: State, steps: seq<Step>, h: History, cfg: Timeouts): History
    requires ValidRun(s, steps, cfg)
    decreases |steps|
  {
    if steps == [] then h else Recorded(Apply(s, steps[0], cfg), steps[1..], Record(s, steps[0], h, cfg), cfg)
  }

  // ---------------------------------------------------------------- the columns tell the truth

  predicate RowTells(r: Row, t: TaskId, h: History) {
    r.token.Some? ==>
      && t in h.stamps && r.reservedAt == Some(h.stamps[t].reserved) && r.brokerEpoch == Some(h.stamps[t].epoch)
      && (r.dispatch == Some(Published) ==> r.publishedAt == Some(h.stamps[t].acknowledged))
      && (r.dispatch == Some(Delivering) ==> r.deliveryStartedAt == Some(h.stamps[t].delivered))
  }

  ghost predicate RowsTell(rows: map<TaskId, Row>, h: History) {
    forall t <- rows :: RowTells(rows[t], t, h)
  }

  ghost predicate PumpsTell(s: State, h: History) {
    forall p <- s.pumps :: p in h.selects && s.pumps[p].epoch == h.selects[p]
  }

  ghost predicate PassesTell(s: State, h: History) {
    forall d <- s.dispatchers :: s.dispatchers[d].todo != [] ==>
      d in h.passes && h.passes[d] == (s.dispatchers[d].passNow, s.dispatchers[d].passEpoch)
  }

  ghost predicate Tells(s: State, h: History) {
    RowsTell(s.rows, h) && PumpsTell(s, h) && PassesTell(s, h)
  }

  lemma PumpKeepsTelling(s: State, p: PumpId, step: PumpStep, h: History)
    requires Tells(s, h) && PumpEnabled(s, p, step)
    ensures Tells(PumpApply(s, p, step), PumpRecords(s, p, step, h))
  {
  }

  lemma WorkOnRowTells(r: Row, k: Token, w: Worker, pc: WorkerPc, step: WorkStep, now: Time, t: TaskId, h: History)
    requires WorkMatches(r, k, w, pc, step, now) && RowTells(r, t, h) && (step.Handoff? ==> t in h.stamps)
    ensures RowTells(WorkRow(r, k, w, pc, step, now), t,
                     if step.Handoff? then h.(stamps := h.stamps[t := h.stamps[t].(delivered := now)]) else h)
    ensures step.Handoff? ==> r.token.Some? && WorkRow(r, k, w, pc, step, now) != r
  {
  }

  lemma WorkKeepsTelling(s: State, w: Worker, step: WorkStep, h: History)
    requires Tells(s, h) && WorkEnabled(s, w, step)
    requires w in s.workers ==> s.workers[w].id in s.log
    ensures Tells(WorkApply(s, w, step), WorkRecords(s, w, step, h))
  {
    var (s', h') := (WorkApply(s, w, step), WorkRecords(s, w, step, h));
    forall t | t in s'.rows ensures RowTells(s'.rows[t], t, h') {
      if w in s.workers && s.log[s.workers[w].id].task == t && s'.rows[t] != s.rows[t] {
        WorkOnRowTells(s.rows[t], s.log[s.workers[w].id].token, w, s.workers[w], step, s.now, t, h);
      }
    }
  }

  lemma DispatcherKeepsTelling(s: State, d: DispatcherId, step: DispatcherStep, h: History, cfg: Timeouts)
    requires Tells(s, h) && DispatcherEnabled(s, d, step, cfg)
    ensures Tells(DispatcherApply(s, d, step, cfg), Record(s, Dispatch(d, step), h, cfg))
  {
  }

  lemma EnvKeepsTelling(s: State, step: EnvStep, h: History)
    requires Tells(s, h) && EnvEnabled(s, step)
    ensures Tells(EnvApply(s, step), h)
  {
  }

  lemma StepKeepsTelling(s: State, step: Step, h: History, cfg: Timeouts)
    requires Tells(s, h) && Enabled(s, step, cfg)
    ensures Tells(Apply(s, step, cfg), Record(s, step, h, cfg))
  {
    match step
    case Pump(p, a) => PumpKeepsTelling(s, p, a, h);
    case Work(w, a) => WorkKeepsTelling(s, w, a, h);
    case Dispatch(d, a) => DispatcherKeepsTelling(s, d, a, h, cfg);
    case Env(a) => EnvKeepsTelling(s, a, h);
  }

  /** After every run: a row's reservation, publication and delivery times are the times at which these
      statements ran, and its broker epoch is the one current when its pump selected it. */
  lemma {:induction false} RunKeepsTelling(s: State, steps: seq<Step>, h: History, cfg: Timeouts)
    requires Tells(s, h) && ValidRun(s, steps, cfg)
    ensures Tells(After(s, steps, cfg), Recorded(s, steps, h, cfg))
    decreases |steps|
  {
    if steps != [] {
      StepKeepsTelling(s, steps[0], h, cfg);
      RunKeepsTelling(Apply(s, steps[0], cfg), steps[1..], Record(s, steps[0], h, cfg), cfg);
    }
  }

  // ---------------------------------------------------------------- recovery is never too early

  /** What a release in the pass read at `at` under epoch `e` must be due to. */
  predicate Overdue(r: Row, st: Stamps, l: Location, at: Time, e: Epoch, cfg: Timeouts) {
    || st.epoch != e
    || (r.dispatch == Some(Publishing) && at - st.reserved > cfg.publishing)
    || (r.dispatch == Some(Delivering) && at - st.delivered > cfg.delivering)
    || (r.dispatch == Some(Published) && at - st.acknowledged > cfg.published && (l == Unacked || l == Missing))
  }

  lemma ReleaseIsOverdue(s: State, d: DispatcherId, l: Location, t: TaskId, h: History, cfg: Timeouts)
    requires Tells(s, h) && DispatcherEnabled(s, d, RecoveryWrite(l), cfg) && t in s.rows
    requires var rows' := DispatcherApply(s, d, RecoveryWrite(l), cfg).rows; t in rows' && rows'[t] != s.rows[t]
    ensures s.rows[t].status.Pending? && s.rows[t].token.Some? && s.rows[t].owner.None?
    ensures t in h.stamps && d in h.passes && Overdue(s.rows[t], h.stamps[t], l, h.passes[d].0, h.passes[d].1, cfg)
  {
    assert RowTells(s.rows[t], t, h);
  }

  /** A recovery write releases a row only if the pump selected it under another broker epoch than that of the
      pass, or the last of its reservation, publication and handoff ran more than its timeout before the pass read
      the table. So nothing reserved under the present epoch is released as lost with the epoch, and nothing is
      released before its time. */
  lemma ReleasedOnlyWhenOverdue(steps: seq<Step>, d: DispatcherId, l: Location, t: TaskId, cfg: Timeouts)
    requires ValidRun(Initial(), steps, cfg)
    requires var s := After(Initial(), steps, cfg);
      DispatcherEnabled(s, d, RecoveryWrite(l), cfg) && Changes(s, Dispatch(d, RecoveryWrite(l)), t, cfg)
    ensures var (s, h) := (After(Initial(), steps, cfg), Recorded(Initial(), steps, NOTHING, cfg));
      && s.rows[t].status.Pending? && s.rows[t].token.Some? && s.rows[t].owner.None?
      && t in h.stamps && d in h.passes && Overdue(s.rows[t], h.stamps[t], l, h.passes[d].0, h.passes[d].1, cfg)
  {
    RunKeepsTelling(Initial(), steps, NOTHING, cfg);
    ReleaseIsOverdue(After(Initial(), steps, cfg), d, l, t, Recorded(Initial(), steps, NOTHING, cfg), cfg);
  }
}
