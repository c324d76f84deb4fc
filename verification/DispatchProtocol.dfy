/**
 The dispatch protocol as a transition system: any number of pumps, worker processes and
 dispatchers, the task table, the broker and a clock. Every SQL UPDATE is one atomic step; what a
 process read earlier is kept in its local state, so the gap between SELECT and UPDATE is there.
 */
module DispatchProtocol {
  import opened Prelude
  import opened DispatchRows

  type PumpId = nat
  type DispatcherId = nat
  type MessageId = nat

  datatype Message = Message(task: TaskId, token: Token)
  datatype Place = InQueue | InHand(worker: Worker) | Stray   // Stray: delivered, unacknowledged, worker gone

  /** A pump between the statements of `_pump_once`. */
  datatype PumpPc =
    | Selected(epoch: Epoch, todo: seq<TaskId>)
    | Reserving(epoch: Epoch, todo: seq<TaskId>, task: TaskId, token: Token)
    | Sent(epoch: Epoch, todo: seq<TaskId>, task: TaskId, token: Token)
    | Failed(epoch: Epoch, todo: seq<TaskId>, task: TaskId, token: Token)

  /** A worker process between the statements of `run_dvs_task`. */
  datatype WorkerPc =
    | Received(id: MessageId)
    | MayClaim(id: MessageId, allowPending: bool)
    | ClaimSelected(id: MessageId, expected: TaskStatus, epoch: nat, version: nat, orchestrated: bool, readAt: Time)
    | Claimed(id: MessageId, epoch: nat, version: nat)

  /** A dispatcher: its observation map, the rows of its current recovery pass with the time and
      the broker epoch that pass read, and the rows it read with a stale heartbeat and is about to reset. */
  datatype DispatcherPc = DispatcherPc(
    observations: Observations, passNow: Time, passEpoch: Epoch, todo: seq<(TaskId, Row)>, stale: seq<(TaskId, Row)>)

  datatype State = State(
    rows: map<TaskId, Row>,
    drawn: map<Token, TaskId>,          // every uuid a pump drew, with the task it was drawn for
    log: map<MessageId, Message>,       // every message the broker ever accepted
    place: map<MessageId, Place>,       // the outstanding ones
    pumps: map<PumpId, PumpPc>,
    workers: map<Worker, WorkerPc>,
    dispatchers: map<DispatcherId, DispatcherPc>,
    now: Time,
    epoch: Epoch)

  const NEW_ROW := Row(Pending, false, None, Some(Released), None, None, None, None, None, 0, None, None, None, None, 0, 0, 0, false)

  function Initial(): State {
    State(map[], map[], map[], map[], map[], map[], map[], 0, 0)
  }

  // ---------------------------------------------------------------- pump steps

  datatype PumpStep =
    | Select(todo: seq<TaskId>)
    | Reserve(token: Token, applied: bool, raised: bool)
    | Publish(id: MessageId, accepted: bool, raised: bool)
    | Acknowledge(applied: bool)
    | GiveUp(applied: bool)
    | PumpCrash

  predicate PumpEnabled(s: State, p: PumpId, step: PumpStep) {
    match step
    case Select(todo) =>
      p !in s.pumps && (forall t <- todo :: t in s.rows && PumpEligible(s.rows[t]))
    case Reserve(k, applied, raised) =>
      && p in s.pumps && s.pumps[p].Selected? && s.pumps[p].todo != []
      && k !in s.drawn && (applied || raised)
    case Publish(id, accepted, raised) =>
      p in s.pumps && s.pumps[p].Reserving? && id !in s.log && (accepted || raised)
    case Acknowledge(applied) => p in s.pumps && s.pumps[p].Sent?
    case GiveUp(applied) => p in s.pumps && s.pumps[p].Failed?
    case PumpCrash => p in s.pumps
  }

  function PumpApply(s: State, p: PumpId, step: PumpStep): State
    requires PumpEnabled(s, p, step)
  {
    match step
    case Select(todo) => s.(pumps := s.pumps[p := Selected(s.epoch, todo)])
    case Reserve(k, applied, raised) =>
      var pc := s.pumps[p];
      var t := pc.todo[0];
      var matches := applied && t in s.rows && PumpEligible(s.rows[t]);
      s.(drawn := s.drawn[k := t],
         rows := if matches then s.rows[t := ReserveRow(s.rows[t], k, pc.epoch, s.now)] else s.rows,
         pumps := s.pumps[p := if raised then Failed(pc.epoch, pc.todo[1..], t, k)
                               else if matches then Reserving(pc.epoch, pc.todo[1..], t, k)
                               else Selected(pc.epoch, pc.todo[1..])])
    case Publish(id, accepted, raised) =>
      var pc := s.pumps[p];
      s.(log := if accepted then s.log[id := Message(pc.task, pc.token)] else s.log,
         place := if accepted then s.place[id := InQueue] else s.place,
         pumps := s.pumps[p := if raised then Failed(pc.epoch, pc.todo, pc.task, pc.token)
                               else Sent(pc.epoch, pc.todo, pc.task, pc.token)])
    case Acknowledge(applied) =>
      var pc := s.pumps[p];
      var matches := applied && pc.task in s.rows && AckMatches(s.rows[pc.task], pc.token);
      s.(rows := if matches then s.rows[pc.task := AckRow(s.rows[pc.task], s.now)] else s.rows,
         pumps := s.pumps[p := Selected(pc.epoch, pc.todo)])
    case GiveUp(applied) =>
      var pc := s.pumps[p];
      var matches := applied && pc.task in s.rows && ReleaseMatches(s.rows[pc.task], pc.token);
      s.(rows := if matches then s.rows[pc.task := FreeRow(s.rows[pc.task], PublishFailed, s.now)] else s.rows,
         pumps := s.pumps[p := Selected(pc.epoch, pc.todo)])
    case PumpCrash => s.(pumps := s.pumps - {p})
  }

  // ---------------------------------------------------------------- worker steps

  datatype WorkStep =
    | Receive(id: MessageId)
    | Handoff
    | ClaimRead
    | ClaimWrite(leaseUntil: Time)
    | Begin
    | Renew(leaseUntil: Time)
    | Finish
    | GiveBack
    | DropLease
    | AckMessage
    | WorkerCrash(requeued: bool)

  predicate HoldsClaim(s: State, w: Worker) {
    w in s.workers && s.workers[w].Claimed?
  }

  predicate WorkEnabled(s: State, w: Worker, step: WorkStep) {
    match step
    case Receive(id) => w !in s.workers && id in s.place && s.place[id].InQueue?
    case Handoff => w in s.workers && s.workers[w].Received?
    case ClaimRead => w in s.workers && s.workers[w].MayClaim?
    case ClaimWrite(_) => w in s.workers && s.workers[w].ClaimSelected?
    case Begin => HoldsClaim(s, w)
    case Renew(_) => HoldsClaim(s, w)
    case Finish => HoldsClaim(s, w)
    case GiveBack => HoldsClaim(s, w)
    case DropLease => HoldsClaim(s, w)
    case AckMessage => HoldsClaim(s, w)
    case WorkerCrash(_) => w in s.workers
  }

  /** Does the WHERE clause of the statement find its row? */
  predicate WorkMatches(r: Row, k: Token, w: Worker, pc: WorkerPc, step: WorkStep, now: Time) {
    match step
    case Handoff => HandoffMatches(r, k)
    case ClaimRead => pc.MayClaim? && ClaimExpects(r, k, pc.allowPending, now).Some?
    case ClaimWrite(_) => pc.ClaimSelected? && ClaimMatches(r, k, pc.expected, pc.readAt)
    case Begin => pc.Claimed? && BeginMatches(r, w, pc.epoch, pc.version)
    case Renew(_) => pc.Claimed? && r.status.Running? && OwnedBy(r, w, pc.epoch, r.controlVersion)
    case Finish => pc.Claimed? && r.status.Running? && OwnedBy(r, w, pc.epoch, pc.version)
    case GiveBack => pc.Claimed? && r.status.Running? && !r.orchestrated && OwnedBy(r, w, pc.epoch, pc.version)
    case DropLease => pc.Claimed? && ReleaseLeaseMatches(r, w, pc.epoch)
    case _ => false
  }

  /** The row the statement writes. */
  function WorkRow(r: Row, k: Token, w: Worker, pc: WorkerPc, step: WorkStep, now: Time): Row
    requires WorkMatches(r, k, w, pc, step, now)
  {
    match step
    case Handoff => HandoffRow(r, w, now)
    case ClaimRead => r
    case ClaimWrite(leaseUntil) => ClaimRow(r, pc.expected, pc.epoch, w, pc.orchestrated, pc.readAt, leaseUntil, now)
    case Begin => BeginRow(r, now)
    case Renew(leaseUntil) => RenewRow(r, leaseUntil, now)
    case Finish => FinishRow(r, now)
    case GiveBack => GiveBackRow(r, now)
    case DropLease => ReleaseLeaseRow(r, now)
  }

  /** Where the worker goes next; `None` when it acknowledges the message and is done with it. */
  function WorkNext(pc: WorkerPc, step: WorkStep, found: bool, r: Row, k: Token, now: Time): Option<WorkerPc>
    requires found && step.ClaimRead? ==> pc.MayClaim? && ClaimExpects(r, k, pc.allowPending, now).Some?
    requires step.ClaimWrite? ==> pc.ClaimSelected?
  {
    match step
    case Handoff => Some(MayClaim(pc.id, found))
    case ClaimRead =>
      if found
      then Some(ClaimSelected(pc.id, ClaimExpects(r, k, pc.allowPending, now).value, r.execEpoch + 1,
                              r.controlVersion, r.orchestrated, now))
      else None
    case ClaimWrite(_) => if found then Some(Claimed(pc.id, pc.epoch, pc.version)) else None
    case AckMessage => None
    case _ => Some(pc)
  }

  function WorkApply(s: State, w: Worker, step: WorkStep): State
    requires WorkEnabled(s, w, step)
    requires w in s.workers ==> s.workers[w].id in s.log
  {
    match step
    case Receive(id) => s.(place := s.place[id := InHand(w)], workers := s.workers[w := Received(id)])
    case WorkerCrash(requeued) =>
      s.(workers := s.workers - {w}, place := s.place[s.workers[w].id := if requeued then InQueue else Stray])
    case _ =>
      var pc := s.workers[w];
      var Message(t, k) := s.log[pc.id];
      var found := t in s.rows && WorkMatches(s.rows[t], k, w, pc, step, s.now);
      var next := WorkNext(pc, step, found, if t in s.rows then s.rows[t] else NEW_ROW, k, s.now);
      s.(rows := if found then s.rows[t := WorkRow(s.rows[t], k, w, pc, step, s.now)] else s.rows,
         workers := if next.Some? then s.workers[w := next.value] else s.workers - {w},
         place := if next.Some? then s.place else s.place - {pc.id})
  }

  // ---------------------------------------------------------------- dispatcher steps

  datatype DispatcherStep =
    | StaleSelect(tasks: seq<TaskId>)
    | StaleWrite
    | StaleSkip
    | RecoverySelect(tasks: seq<TaskId>)
    | RecoveryWrite(location: Location)
    | DispatcherRestart

  predicate DispatcherEnabled(s: State, d: DispatcherId, step: DispatcherStep, cfg: Timeouts) {
    match step
    case DispatcherRestart => true
    case StaleSelect(tasks) =>
      d in s.dispatchers && (forall t <- tasks :: t in s.rows && StaleSelected(s.rows[t], s.now, cfg))
    case StaleWrite => d in s.dispatchers && s.dispatchers[d].stale != []
    case StaleSkip => d in s.dispatchers && s.dispatchers[d].stale != []
    case RecoverySelect(tasks) =>
      d in s.dispatchers && (forall t <- tasks :: t in s.rows && RecoverySelects(s.rows[t], s.now, s.epoch, cfg))
    case RecoveryWrite(_) =>
      && d in s.dispatchers && s.dispatchers[d].todo != []
      && s.dispatchers[d].todo[0].1.token.Some?
  }

  /** What the pass decides about the first row it still has to look at. */
  function PassJudges(pc: DispatcherPc, l: Location, cfg: Timeouts): (Verdict, Observations)
    requires pc.todo != [] && pc.todo[0].1.token.Some?
  {
    Judge(pc.todo[0].1, pc.todo[0].1.token.value, l, pc.observations, pc.passNow, pc.passEpoch, cfg)
  }

  function RowsRead(rows: map<TaskId, Row>, tasks: seq<TaskId>): (read: seq<(TaskId, Row)>)
    requires forall t <- tasks :: t in rows
    ensures |read| == |tasks|
    ensures forall i :: 0 <= i < |tasks| ==> read[i] == (tasks[i], rows[tasks[i]])
  {
    seq(|tasks|, i requires 0 <= i < |tasks| && tasks[i] in rows => (tasks[i], rows[tasks[i]]))
  }

  function DispatcherApply(s: State, d: DispatcherId, step: DispatcherStep, cfg: Timeouts): State
    requires DispatcherEnabled(s, d, step, cfg)
  {
    match step
    case DispatcherRestart => s.(dispatchers := s.dispatchers[d := DispatcherPc(map[], 0, 0, [], [])])
    case StaleSelect(tasks) =>
      s.(dispatchers := s.dispatchers[d := s.dispatchers[d].(stale := RowsRead(s.rows, tasks))])
    case StaleWrite =>
      var pc := s.dispatchers[d];
      var t := pc.stale[0].0;
      s.(rows := if t in s.rows then s.rows[t := StaleRow(s.rows[t], s.now)] else s.rows,
         dispatchers := s.dispatchers[d := pc.(stale := pc.stale[1..])])
    case StaleSkip =>
      s.(dispatchers := s.dispatchers[d := s.dispatchers[d].(stale := s.dispatchers[d].stale[1..])])
    case RecoverySelect(tasks) =>
      s.(dispatchers := s.dispatchers[d := s.dispatchers[d].(passNow := s.now, passEpoch := s.epoch,
                                                             todo := RowsRead(s.rows, tasks))])
    case RecoveryWrite(l) =>
      var pc := s.dispatchers[d];
      var (t, k) := (pc.todo[0].0, pc.todo[0].1.token.value);
      var (verdict, obs) := PassJudges(pc, l, cfg);
      var matches := verdict.Release? && t in s.rows
        && RecoveryMatches(s.rows[t], k, verdict.condition, pc.passNow, pc.passEpoch, cfg);
      s.(rows := if matches then s.rows[t := FreeRow(s.rows[t], verdict.reason, s.now)] else s.rows,
         dispatchers := s.dispatchers[d := pc.(observations := obs, todo := pc.todo[1..])])
  }

  // ---------------------------------------------------------------- everything else

  datatype EnvStep =
    | Tick(elapsed: nat)
    | Create(task: TaskId, orchestrated: bool)
    | Delete(task: TaskId)
    | Restart(task: TaskId)
    | Cancel(task: TaskId)
    | Requeue(id: MessageId)
    | BrokerLoss

  predicate EnvEnabled(s: State, step: EnvStep) {
    match step
    case Tick(_) => true
    case Create(t, _) => t !in s.rows
    case Delete(t) => t in s.rows && !s.rows[t].status.Running? && (s.rows[t].owner.Some? ==> LeaseExpired(s.rows[t], s.now))
    case Restart(t) => t in s.rows && !s.rows[t].isDeleted
    case Cancel(t) => t in s.rows && !s.rows[t].isDeleted
    case Requeue(id) => id in s.place && s.place[id].Stray?
    case BrokerLoss => true
  }

  function EnvApply(s: State, step: EnvStep): State
    requires EnvEnabled(s, step)
  {
    match step
    case Tick(elapsed) => s.(now := s.now + elapsed)
    case Create(t, orchestrated) =>
      s.(rows := s.rows[t := NEW_ROW.(updatedAt := s.now, orchestrated := orchestrated)])
    case Delete(t) => s.(rows := s.rows[t := s.rows[t].(isDeleted := true, updatedAt := s.now)])
    case Restart(t) => s.(rows := s.rows[t := RestartRow(s.rows[t], s.now)])
    case Cancel(t) => s.(rows := s.rows[t := CancelRow(s.rows[t], s.now)])
    case Requeue(id) => s.(place := s.place[id := InQueue])
    // The broker restarts empty, under a new epoch; a message already in a worker's hand stays there.
    case BrokerLoss => s.(epoch := s.epoch + 1, place := map i | i in s.place && s.place[i].InHand? :: s.place[i])
  }

  // ---------------------------------------------------------------- runs

  datatype Step =
    | Pump(p: PumpId, pumpStep: PumpStep)
    | Work(w: Worker, workStep: WorkStep)
    | Dispatch(d: DispatcherId, dispatcherStep: DispatcherStep)
    | Env(envStep: EnvStep)

  predicate Enabled(s: State, step: Step, cfg: Timeouts) {
    match step
    case Pump(p, a) => PumpEnabled(s, p, a)
    case Work(w, a) => WorkEnabled(s, w, a) && (w in s.workers ==> s.workers[w].id in s.log)
    case Dispatch(d, a) => DispatcherEnabled(s, d, a, cfg)
    case Env(a) => EnvEnabled(s, a)
  }

  function Apply(s: State, step: Step, cfg: Timeouts): State
    requires Enabled(s, step, cfg)
  {
    match step
    case Pump(p, a) => PumpApply(s, p, a)
    case Work(w, a) => WorkApply(s, w, a)
    case Dispatch(d, a) => DispatcherApply(s, d, a, cfg)
    case Env(a) => EnvApply(s, a)
  }

  predicate ValidRun(s: State, steps: seq<Step>, cfg: Timeouts)
    decreases |steps|
  {
    steps == [] || (Enabled(s, steps[0], cfg) && ValidRun(Apply(s, steps[0], cfg), steps[1..], cfg))
  }

  function After(s: State, steps: seq<Step>, cfg: Timeouts): State
    requires ValidRun(s, steps, cfg)
    decreases |steps|
  {
    if steps == [] then s else After(Apply(s, steps[0], cfg), steps[1..], cfg)
  }

  ghost predicate Reachable(s: State, cfg: Timeouts) {
    exists steps :: ValidRun(Initial(), steps, cfg) && After(Initial(), steps, cfg) == s
  }

  // ---------------------------------------------------------------- the invariant

  /** Every accepted message carries a token that was drawn for its task. */
  ghost predicate LogInv(s: State) {
    forall i <- s.log :: s.log[i].token in s.drawn && s.drawn[s.log[i].token] == s.log[i].task
  }

  predicate SameReservation(a: PumpPc, b: PumpPc) {
    a.Reserving? && b.Reserving? && a.token == b.token
  }

  /** Publication: no token is in two accepted messages, and a pump that may still publish a
      token is the only one, and has not done so yet. */
  ghost predicate PublicationInv(s: State) {
    && (forall i, j :: i in s.log && j in s.log && s.log[i].token == s.log[j].token ==> i == j)
    && (forall p <- s.pumps :: s.pumps[p].Reserving? ==>
          s.pumps[p].token in s.drawn && s.drawn[s.pumps[p].token] == s.pumps[p].task)
    && (forall p, i :: p in s.pumps && s.pumps[p].Reserving? && i in s.log ==> s.log[i].token != s.pumps[p].token)
    && (forall p, q :: p in s.pumps && q in s.pumps && SameReservation(s.pumps[p], s.pumps[q]) ==> p == q)
  }

  /** Delivery: a worker's message is outstanding, in its hand and nobody else's. */
  ghost predicate DeliveryInv(s: State) {
    && (forall i <- s.place :: i in s.log)
    && (forall w <- s.workers :: s.workers[w].id in s.place && s.place[s.workers[w].id] == InHand(w))
  }

  /** A row without a token has no trace of a reservation, and one not yet delivered none of a delivery. */
  ghost predicate ColumnsCleared(r: Row) {
    && (r.token.None? ==> r.reservedAt.None? && r.publishedAt.None? && r.brokerEpoch.None?
                          && r.deliveryStartedAt.None? && r.deliveryWorker.None?)
    && (r.dispatch == Some(Publishing) ==> r.publishedAt.None?)
    && (r.dispatch == Some(Publishing) || r.dispatch == Some(Published) ==>
          r.deliveryStartedAt.None? && r.deliveryWorker.None?)
    && (r.dispatch == Some(Delivering) ==> r.deliveryWorker.Some?)
  }

  /** The columns of a row agree with each other. */
  ghost predicate RowInv(r: Row) {
    && ColumnsCleared(r)
    && (r.token.None? && r.status.Pending? ==> r.owner.None? && r.lease.None?)
    && (r.owner.Some? <==> r.lease.Some?)
    && (r.status.Running? ==> r.token.Some?)
    && (r.token.Some? ==> r.reservedAt.Some? && r.brokerEpoch.Some? && r.dispatch != Some(Released))
    && (r.token.Some? && r.dispatch == Some(Published) ==> r.publishedAt.Some?)
    && (r.token.Some? && r.dispatch == Some(Delivering) ==> r.deliveryStartedAt.Some?)
    && (r.dispatch == Some(Leased) || r.dispatch == Some(Executing) ==> r.owner.Some?)
    && (r.dispatch == Some(Publishing) || r.dispatch == Some(Published) || r.dispatch == Some(Delivering) ==>
          r.status.Pending? && r.token.Some? && r.owner.None?)
  }

  /** Every row of the table is in order, and holds no token but one drawn for its task. */
  ghost predicate TableInv(rows: map<TaskId, Row>, drawn: map<Token, TaskId>) {
    forall t <- rows :: RowInv(rows[t])
      && (rows[t].token.Some? ==> rows[t].token.value in drawn && drawn[rows[t].token.value] == t)
  }

  ghost predicate Inv(s: State) {
    TableInv(s.rows, s.drawn) && LogInv(s) && PublicationInv(s) && DeliveryInv(s)
  }

  lemma WriteKeepsTable(rows: map<TaskId, Row>, drawn: map<Token, TaskId>, t: TaskId, r: Row)
    requires TableInv(rows, drawn) && RowInv(r)
    requires r.token.Some? ==> r.token.value in drawn && drawn[r.token.value] == t
    ensures TableInv(rows[t := r], drawn)
  {
  }

  lemma PumpKeepsTable(s: State, p: PumpId, step: PumpStep)
    requires Inv(s) && PumpEnabled(s, p, step)
    ensures var s' := PumpApply(s, p, step); TableInv(s'.rows, s'.drawn)
  {
  }

  lemma PumpKeepsPublication(s: State, p: PumpId, step: PumpStep)
    requires Inv(s) && PumpEnabled(s, p, step)
    ensures PublicationInv(PumpApply(s, p, step))
  {
  }

  lemma PumpKeepsMessages(s: State, p: PumpId, step: PumpStep)
    requires Inv(s) && PumpEnabled(s, p, step)
    ensures DeliveryInv(PumpApply(s, p, step)) && LogInv(PumpApply(s, p, step))
  {
  }

  lemma WorkKeepsLog(s: State, w: Worker, step: WorkStep)
    requires LogInv(s) && PublicationInv(s) && WorkEnabled(s, w, step)
    requires w in s.workers ==> s.workers[w].id in s.log
    ensures var s' := WorkApply(s, w, step); LogInv(s') && PublicationInv(s')
  {
  }

  lemma WorkKeepsDelivery(s: State, w: Worker, step: WorkStep)
    requires DeliveryInv(s) && WorkEnabled(s, w, step)
    requires w in s.workers ==> s.workers[w].id in s.log
    ensures DeliveryInv(WorkApply(s, w, step))
  {
  }

  lemma WorkKeepsRow(r: Row, k: Token, w: Worker, pc: WorkerPc, step: WorkStep, now: Time)
    requires RowInv(r) && WorkMatches(r, k, w, pc, step, now)
    ensures var r' := WorkRow(r, k, w, pc, step, now);
            RowInv(r') && (r'.token == r.token || r'.token.None?)
  {
  }

  lemma WorkKeepsTable(s: State, w: Worker, step: WorkStep)
    requires Inv(s) && WorkEnabled(s, w, step)
    requires w in s.workers ==> s.workers[w].id in s.log
    ensures TableInv(WorkApply(s, w, step).rows, s.drawn)
  {
    if w in s.workers {
      var pc := s.workers[w];
      var m := s.log[pc.id];
      if m.task in s.rows && WorkMatches(s.rows[m.task], m.token, w, pc, step, s.now) {
        WorkKeepsRow(s.rows[m.task], m.token, w, pc, step, s.now);
        WriteKeepsTable(s.rows, s.drawn, m.task, WorkRow(s.rows[m.task], m.token, w, pc, step, s.now));
      }
    }
  }

  lemma DispatcherKeepsTable(s: State, d: DispatcherId, step: DispatcherStep, cfg: Timeouts)
    requires Inv(s) && DispatcherEnabled(s, d, step, cfg)
    ensures TableInv(DispatcherApply(s, d, step, cfg).rows, s.drawn)
  {
  }

  lemma DispatcherKeepsRest(s: State, d: DispatcherId, step: DispatcherStep, cfg: Timeouts)
    requires Inv(s) && DispatcherEnabled(s, d, step, cfg)
    ensures var s' := DispatcherApply(s, d, step, cfg);
            s' == s.(rows := s'.rows, dispatchers := s'.dispatchers)
  {
  }

  lemma EnvKeepsTable(s: State, step: EnvStep)
    requires Inv(s) && EnvEnabled(s, step)
    ensures TableInv(EnvApply(s, step).rows, s.drawn)
  {
  }

  lemma EnvKeepsMessages(s: State, step: EnvStep)
    requires Inv(s) && EnvEnabled(s, step)
    ensures var s' := EnvApply(s, step); LogInv(s') && PublicationInv(s') && DeliveryInv(s')
  {
  }

  lemma PumpKeepsInv(s: State, p: PumpId, step: PumpStep)
    requires Inv(s) && PumpEnabled(s, p, step)
    ensures Inv(PumpApply(s, p, step))
  {
    PumpKeepsTable(s, p, step);
    PumpKeepsPublication(s, p, step);
    PumpKeepsMessages(s, p, step);
  }

  lemma WorkKeepsInv(s: State, w: Worker, step: WorkStep)
    requires Inv(s) && WorkEnabled(s, w, step)
    requires w in s.workers ==> s.workers[w].id in s.log
    ensures Inv(WorkApply(s, w, step))
  {
    WorkKeepsLog(s, w, step);
    WorkKeepsDelivery(s, w, step);
    WorkKeepsTable(s, w, step);
    assert WorkApply(s, w, step).drawn == s.drawn;
  }

  lemma DispatcherKeepsInv(s: State, d: DispatcherId, step: DispatcherStep, cfg: Timeouts)
    requires Inv(s) && DispatcherEnabled(s, d, step, cfg)
    ensures Inv(DispatcherApply(s, d, step, cfg))
  {
    DispatcherKeepsTable(s, d, step, cfg);
    DispatcherKeepsRest(s, d, step, cfg);
  }

  lemma StepKeepsInv(s: State, step: Step, cfg: Timeouts)
    requires Inv(s) && Enabled(s, step, cfg)
    ensures Inv(Apply(s, step, cfg))
  {
    match step
    case Pump(p, a) => PumpKeepsInv(s, p, a);
    case Work(w, a) => WorkKeepsInv(s, w, a);
    case Dispatch(d, a) => DispatcherKeepsInv(s, d, a, cfg);
    case Env(a) => EnvKeepsTable(s, a); EnvKeepsMessages(s, a);
  }

  lemma {:induction false} RunKeepsInv(s: State, steps: seq<Step>, cfg: Timeouts)
    requires Inv(s) && ValidRun(s, steps, cfg)
    ensures Inv(After(s, steps, cfg))
    decreases |steps|
  {
    if steps != [] {
      StepKeepsInv(s, steps[0], cfg);
      RunKeepsInv(Apply(s, steps[0], cfg), steps[1..], cfg);
    }
  }

  lemma ReachableInv(s: State, cfg: Timeouts)
    requires Reachable(s, cfg)
    ensures Inv(s)
  {
    var steps :| ValidRun(Initial(), steps, cfg) && After(Initial(), steps, cfg) == s;
    RunKeepsInv(Initial(), steps, cfg);
  }

  // ---------------------------------------------------------------- safety

  /** A token some pump drew that its task no longer holds (or never got). */
  predicate Retired(s: State, k: Token) {
    k in s.drawn && (s.drawn[k] in s.rows ==> s.rows[s.drawn[k]].token != Some(k))
  }

  /** In every reachable state: a token was published at most once; at most one outstanding message
      of a task carries the token in the task's row; every other one carries a retired token. */
  lemma AtMostOneCurrentMessage(s: State, cfg: Timeouts)
    requires Reachable(s, cfg)
    ensures forall i, j :: i in s.log && j in s.log && s.log[i].token == s.log[j].token ==> i == j
    ensures forall i <- s.place :: i in s.log
    ensures forall i, j :: i in s.place && j in s.place && s.log[i].task == s.log[j].task && i != j ==>
              Retired(s, s.log[i].token) || Retired(s, s.log[j].token)
    ensures forall i <- s.place :: !Retired(s, s.log[i].token) ==>
              s.log[i].task in s.rows && s.rows[s.log[i].task].token == Some(s.log[i].token)
  {
    ReachableInv(s, cfg);
  }

  /** Every actor leaves a row's token alone or drops it, except that a reservation writes the
      uuid it has just drawn; drawn uuids are never forgotten. */
  lemma PumpTokens(s: State, p: PumpId, step: PumpStep, t: TaskId, k: Token)
    requires PumpEnabled(s, p, step) && k in s.drawn
    ensures var s' := PumpApply(s, p, step);
            && k in s'.drawn && s'.drawn[k] == s.drawn[k] && (t in s'.rows <==> t in s.rows)
            && (t in s.rows && s.rows[t].token != Some(k) ==> s'.rows[t].token != Some(k))
  {
  }

  lemma WorkTokens(s: State, w: Worker, step: WorkStep, t: TaskId)
    requires WorkEnabled(s, w, step)
    requires w in s.workers ==> s.workers[w].id in s.log
    ensures var s' := WorkApply(s, w, step);
            && s'.drawn == s.drawn && (t in s'.rows <==> t in s.rows)
            && (t in s.rows ==> s'.rows[t].token == s.rows[t].token || s'.rows[t].token.None?)
  {
  }

  lemma DispatcherTokens(s: State, d: DispatcherId, step: DispatcherStep, cfg: Timeouts, t: TaskId)
    requires DispatcherEnabled(s, d, step, cfg)
    ensures var s' := DispatcherApply(s, d, step, cfg);
            && s'.drawn == s.drawn && (t in s'.rows <==> t in s.rows)
            && (t in s.rows ==> s'.rows[t].token == s.rows[t].token || s'.rows[t].token.None?)
  {
  }

  lemma EnvRetires(s: State, step: EnvStep, k: Token)
    requires EnvEnabled(s, step) && Retired(s, k)
    ensures Retired(EnvApply(s, step), k)
  {
  }

  lemma StepRetires(s: State, step: Step, k: Token, cfg: Timeouts)
    requires Enabled(s, step, cfg) && Retired(s, k)
    ensures Retired(Apply(s, step, cfg), k)
  {
    match step
    case Pump(p, a) => PumpTokens(s, p, a, s.drawn[k], k);
    case Work(w, a) => WorkTokens(s, w, a, s.drawn[k]);
    case Dispatch(d, a) => DispatcherTokens(s, d, a, cfg, s.drawn[k]);
    case Env(a) => EnvRetires(s, a, k);
  }

  /** A retired token stays retired through any run, so a message that lost its reservation can
      never claim its task again. */
  lemma {:induction false} RetiredForever(s: State, steps: seq<Step>, k: Token, cfg: Timeouts)
    requires ValidRun(s, steps, cfg) && Retired(s, k)
    ensures Retired(After(s, steps, cfg), k)
    decreases |steps|
  {
    if steps != [] {
      StepRetires(s, steps[0], k, cfg);
      RetiredForever(Apply(s, steps[0], cfg), steps[1..], k, cfg);
    }
  }

  /** The token a step speaks for, when the step is one that was started with a token in hand:
      a pump's acknowledgement or release, a recovery release, a worker's handoff or claim. */
  function HeldToken(s: State, step: Step): Option<Token> {
    match step
    case Pump(p, Acknowledge(_)) => if p in s.pumps && s.pumps[p].Sent? then Some(s.pumps[p].token) else None
    case Pump(p, GiveUp(_)) => if p in s.pumps && s.pumps[p].Failed? then Some(s.pumps[p].token) else None
    case Work(w, a) =>
      if (a.Handoff? || a.ClaimRead? || a.ClaimWrite?) && w in s.workers && s.workers[w].id in s.log
      then Some(s.log[s.workers[w].id].token) else None
    case Dispatch(d, RecoveryWrite(_)) =>
      if d in s.dispatchers && s.dispatchers[d].todo != [] then s.dispatchers[d].todo[0].1.token else None
    case _ => None
  }

  /** Such a step changes no row but the one that still holds this very token. */
  lemma OldTokensChangeNothing(s: State, step: Step, t: TaskId, cfg: Timeouts)
    requires Enabled(s, step, cfg) && HeldToken(s, step).Some? && t in s.rows
    ensures t in Apply(s, step, cfg).rows
    ensures Apply(s, step, cfg).rows[t] != s.rows[t] ==> s.rows[t].token == HeldToken(s, step)
  {
    match step
    case Pump(p, a) =>
    case Work(w, a) => assert a.Handoff? || a.ClaimRead? || a.ClaimWrite?;
    case Dispatch(d, a) =>
    case Env(a) =>
  }
}
