/** The dispatcher's loops, run without interference, are runs of the protocol: what they do to the
    table, the broker and the observation map is what their steps do one by one. */
module DispatchRefinement {
  import opened DispatchRows
  import opened DispatchProtocol
  import opened DispatcherLoops
  import DispatchLiveness

  /** A run from one state to another. */
  ghost predicate Runs(s: State, s': State, cfg: Timeouts) {
    exists steps :: ValidRun(s, steps, cfg) && After(s, steps, cfg) == s'
  }

  lemma RunsNowhere(s: State, cfg: Timeouts)
    ensures Runs(s, s, cfg)
  {
    assert ValidRun(s, [], cfg) && After(s, [], cfg) == s;
  }

  lemma RunsOn(s: State, s': State, step: Step, cfg: Timeouts)
    requires Runs(s, s', cfg) && Enabled(s', step, cfg)
    ensures Runs(s, Apply(s', step, cfg), cfg)
  {
    var steps :| ValidRun(s, steps, cfg) && After(s, steps, cfg) == s';
    DispatchLiveness.AppendStep(s, steps, step, cfg);
  }

  /** A set of states that no step leaves. */
  ghost predicate Closed(reach: State -> bool, cfg: Timeouts) {
    forall s, step :: reach(s) && Enabled(s, step, cfg) ==> reach(Apply(s, step, cfg))
  }

  lemma RunsAreClosed(s: State, cfg: Timeouts)
    ensures Closed(x => Runs(s, x, cfg), cfg) && Runs(s, s, cfg)
  {
    RunsNowhere(s, cfg);
    forall x, step | Runs(s, x, cfg) && Enabled(x, step, cfg) ensures Runs(s, Apply(x, step, cfg), cfg) {
      RunsOn(s, x, step, cfg);
    }
  }

  // ---------------------------------------------------------------- one attempt of a pump

  /** Did the broker get the message? */
  predicate Accepted(a: Attempt) {
    a.outcome.AcknowledgeRaised? || a.outcome.Done? || (a.outcome.PublishRaised? && a.outcome.accepted)
  }

  /** What one attempt of pass `e` leaves of the state, `rest` being the tasks still to do. */
  function AfterAttempt(s: State, p: PumpId, a: Attempt, id: MessageId, e: Epoch, rest: seq<TaskId>): State {
    s.(rows := if a.task in s.rows then s.rows[a.task := PumpedRow(s.rows[a.task], a, e)] else s.rows,
       drawn := s.drawn[a.token := a.task],
       log := if Accepted(a) then s.log[id := Message(a.task, a.token)] else s.log,
       place := if Accepted(a) then s.place[id := InQueue] else s.place,
       pumps := s.pumps[p := Selected(e, rest)],
       now := a.finishedAt)
  }

  predicate MayAttempt(s: State, p: PumpId, a: Attempt, id: MessageId, e: Epoch, rest: seq<TaskId>) {
    && p in s.pumps && s.pumps[p] == Selected(e, [a.task] + rest)
    && a.task in s.rows && PumpEligible(s.rows[a.task])
    && a.token !in s.drawn && id !in s.log
    && s.now <= a.reservedAt <= a.finishedAt
  }

  /** The attempt's first two steps: the clock moves to its reservation, and the reservation is tried. */
  lemma ReserveStep(reach: State -> bool, s: State, p: PumpId, a: Attempt, id: MessageId, e: Epoch, rest: seq<TaskId>, applied: bool, raised: bool, cfg: Timeouts)
    returns (s': State)
    requires Closed(reach, cfg) && reach(s) && MayAttempt(s, p, a, id, e, rest) && (applied || raised)
    ensures reach(s')
    ensures s' == s.(rows := if applied then s.rows[a.task := ReserveRow(s.rows[a.task], a.token, e, a.reservedAt)] else s.rows,
               drawn := s.drawn[a.token := a.task], now := a.reservedAt,
               pumps := s.pumps[p := if raised then Failed(e, rest, a.task, a.token)
                                     else Reserving(e, rest, a.task, a.token)])
  {
    assert ([a.task] + rest)[1..] == rest;
    s' := LaterStep(reach, s, a.reservedAt - s.now, p, Reserve(a.token, applied, raised), cfg);
  }

  /** The clock moves, and the pump takes a step. */
  lemma LaterStep(reach: State -> bool, s: State, d: nat, p: PumpId, step: PumpStep, cfg: Timeouts) returns (s': State)
    requires Closed(reach, cfg) && reach(s) && PumpEnabled(s.(now := s.now + d), p, step)
    ensures reach(s') && s' == PumpApply(s.(now := s.now + d), p, step)
  {
    var s1 := Apply(s, Env(Tick(d)), cfg);
    s' := Apply(s1, Pump(p, step), cfg);
  }

  /** The reservation and the publication, when neither raised. */
  lemma PublishStep(reach: State -> bool, s: State, p: PumpId, a: Attempt, id: MessageId, e: Epoch, rest: seq<TaskId>, accepted: bool, raised: bool, cfg: Timeouts)
    returns (s': State)
    requires Closed(reach, cfg) && reach(s) && MayAttempt(s, p, a, id, e, rest) && (accepted || raised)
    ensures reach(s')
    ensures s' == s.(rows := s.rows[a.task := ReserveRow(s.rows[a.task], a.token, e, a.reservedAt)],
               drawn := s.drawn[a.token := a.task], now := a.reservedAt,
               log := if accepted then s.log[id := Message(a.task, a.token)] else s.log,
               place := if accepted then s.place[id := InQueue] else s.place,
               pumps := s.pumps[p := if raised then Failed(e, rest, a.task, a.token)
                                     else Sent(e, rest, a.task, a.token)])
  {
    var s1 := ReserveStep(reach, s, p, a, id, e, rest, true, false, cfg);
    s' := LaterStep(reach, s1, 0, p, Publish(id, accepted, raised), cfg);
    assert s'.pumps == s.pumps[p := s'.pumps[p]];
  }

  lemma UnreservedAttempt(reach: State -> bool, s: State, p: PumpId, a: Attempt, id: MessageId, e: Epoch, rest: seq<TaskId>, cfg: Timeouts)
    requires Closed(reach, cfg) && reach(s) && MayAttempt(s, p, a, id, e, rest) && a.outcome.ReserveRaised?
    ensures reach(AfterAttempt(s, p, a, id, e, rest))
  {
    var s1 := ReserveStep(reach, s, p, a, id, e, rest, a.outcome.applied, true, cfg);
    var s2 := LaterStep(reach, s1, a.finishedAt - a.reservedAt, p, GiveUp(a.outcome.released), cfg);
    var s3 := AfterAttempt(s, p, a, id, e, rest);
    assert s2.rows == s3.rows && s2.pumps == s3.pumps;
    assert s2 == s3;
  }

  lemma UnpublishedAttempt(reach: State -> bool, s: State, p: PumpId, a: Attempt, id: MessageId, e: Epoch, rest: seq<TaskId>, cfg: Timeouts)
    requires Closed(reach, cfg) && reach(s) && MayAttempt(s, p, a, id, e, rest) && a.outcome.PublishRaised?
    ensures reach(AfterAttempt(s, p, a, id, e, rest))
  {
    var s1 := PublishStep(reach, s, p, a, id, e, rest, a.outcome.accepted, true, cfg);
    var s2 := LaterStep(reach, s1, a.finishedAt - a.reservedAt, p, GiveUp(a.outcome.released), cfg);
    var s3 := AfterAttempt(s, p, a, id, e, rest);
    assert s2.rows == s3.rows && s2.pumps == s3.pumps;
    assert s2 == s3;
  }

  lemma SentAttempt(reach: State -> bool, s: State, p: PumpId, a: Attempt, id: MessageId, e: Epoch, rest: seq<TaskId>, cfg: Timeouts)
    requires Closed(reach, cfg) && reach(s) && MayAttempt(s, p, a, id, e, rest) && (a.outcome.AcknowledgeRaised? || a.outcome.Done?)
    ensures reach(AfterAttempt(s, p, a, id, e, rest))
  {
    var s1 := PublishStep(reach, s, p, a, id, e, rest, true, false, cfg);
    var applied := a.outcome.Done? || a.outcome.applied;
    var s2 := LaterStep(reach, s1, a.finishedAt - a.reservedAt, p, Acknowledge(applied), cfg);
    var s3 := AfterAttempt(s, p, a, id, e, rest);
    assert s2.rows == s3.rows && s2.pumps == s3.pumps;
    assert s2 == s3;
  }

  /** One attempt, in any of its outcomes, continues a run of the protocol. */
  lemma AttemptIsRun(reach: State -> bool, s: State, p: PumpId, a: Attempt, id: MessageId, e: Epoch, rest: seq<TaskId>, cfg: Timeouts)
    requires Closed(reach, cfg) && reach(s) && MayAttempt(s, p, a, id, e, rest)
    ensures reach(AfterAttempt(s, p, a, id, e, rest))
  {
    if a.outcome.ReserveRaised? {
      UnreservedAttempt(reach, s, p, a, id, e, rest, cfg);
    } else if a.outcome.PublishRaised? {
      UnpublishedAttempt(reach, s, p, a, id, e, rest, cfg);
    } else {
      SentAttempt(reach, s, p, a, id, e, rest, cfg);
    }
  }

  // ---------------------------------------------------------------- a whole pump pass

  /** Clock readings in order, every uuid new and used once. */
  predicate Scheduled(s: State, attempts: seq<Attempt>) {
    && (forall i :: 0 <= i < |attempts| ==> s.now <= attempts[i].reservedAt <= attempts[i].finishedAt)
    && (forall i, j :: 0 <= i < j < |attempts| ==> attempts[i].finishedAt <= attempts[j].reservedAt)
    && (forall i :: 0 <= i < |attempts| ==> attempts[i].token !in s.drawn)
    && (forall i, j :: 0 <= i < j < |attempts| ==> attempts[i].token != attempts[j].token)
  }

  predicate NoIdFrom(s: State, base: MessageId) {
    forall id <- s.log :: id < base
  }

  /** The state after the first `n` attempts. */
  function PassState(s: State, p: PumpId, attempts: seq<Attempt>, base: MessageId, n: nat, e: Epoch): State
    requires n <= |attempts|
  {
    if n == 0 then s
    else
      AfterAttempt(PassState(s, p, attempts, base, n - 1, e), p, attempts[n - 1], base + (n - 1), e, Tasks(attempts)[n..])
  }

  lemma {:induction false} TableAfter(s: State, p: PumpId, attempts: seq<Attempt>, base: MessageId, n: nat, e: Epoch)
    requires n <= |attempts| && PumpReady(s.rows, attempts)
    ensures PassState(s, p, attempts, base, n, e).rows == PumpedTable(s.rows, attempts, n, e)
  {
    if n > 0 {
      TableAfter(s, p, attempts, base, n - 1, e);
      NextTaskUntouched(s.rows, attempts, n - 1, e);
    }
  }

  lemma {:induction false} TokensAfter(s: State, p: PumpId, attempts: seq<Attempt>, base: MessageId, n: nat, e: Epoch, k: Token)
    requires n <= |attempts| && k !in s.drawn && forall i :: 0 <= i < n ==> attempts[i].token != k
    ensures k !in PassState(s, p, attempts, base, n, e).drawn
  {
    if n > 0 { TokensAfter(s, p, attempts, base, n - 1, e, k); }
  }

  /** Message `base + i` is what attempt `i` got accepted; older messages stay. */
  lemma {:induction false} MessagesAfter(s: State, p: PumpId, attempts: seq<Attempt>, base: MessageId, n: nat, e: Epoch, id: MessageId)
    requires n <= |attempts|
    ensures var log := PassState(s, p, attempts, base, n, e).log;
      if base <= id < base + n && Accepted(attempts[id - base])
      then id in log && log[id] == Message(attempts[id - base].task, attempts[id - base].token)
      else (id in log <==> id in s.log) && (id in s.log ==> log[id] == s.log[id])
  {
    if n > 0 { MessagesAfter(s, p, attempts, base, n - 1, e, id); }
  }

  lemma PumpAfter(s: State, p: PumpId, attempts: seq<Attempt>, base: MessageId, n: nat, e: Epoch)
    requires n <= |attempts| && p in s.pumps && s.pumps[p] == Selected(e, Tasks(attempts))
    ensures var s' := PassState(s, p, attempts, base, n, e);
      && p in s'.pumps && s'.pumps[p] == Selected(e, Tasks(attempts)[n..])
      && s'.now == (if n == 0 then s.now else attempts[n - 1].finishedAt)
  {
    assert Tasks(attempts)[0..] == Tasks(attempts);
  }

  predicate ReadyToPass(s: State, p: PumpId, attempts: seq<Attempt>, base: MessageId, e: Epoch) {
    && PumpReady(s.rows, attempts) && Scheduled(s, attempts) && NoIdFrom(s, base)
    && p in s.pumps && s.pumps[p] == Selected(e, Tasks(attempts))
  }

  /** Every attempt finds its task as the SELECT did, its uuid new and its message id free. */
  lemma PassMayGoOn(s: State, p: PumpId, attempts: seq<Attempt>, base: MessageId, n: nat, e: Epoch)
    requires n < |attempts| && ReadyToPass(s, p, attempts, base, e)
    ensures MayAttempt(PassState(s, p, attempts, base, n, e), p, attempts[n], base + n, e, Tasks(attempts)[n + 1..])
  {
    TableAfter(s, p, attempts, base, n, e);
    NextTaskUntouched(s.rows, attempts, n, e);
    assert attempts[n] in attempts;
    TokensAfter(s, p, attempts, base, n, e, attempts[n].token);
    MessagesAfter(s, p, attempts, base, n, e, base + n);
    PumpAfter(s, p, attempts, base, n, e);
    assert Tasks(attempts)[n..] == [attempts[n].task] + Tasks(attempts)[n + 1..];
  }

  lemma OneMoreAttempt(reach: State -> bool, s: State, p: PumpId, attempts: seq<Attempt>, base: MessageId, n: nat, e: Epoch, cfg: Timeouts)
    requires Closed(reach, cfg) && n < |attempts| && reach(PassState(s, p, attempts, base, n, e))
    requires MayAttempt(PassState(s, p, attempts, base, n, e), p, attempts[n], base + n, e, Tasks(attempts)[n + 1..])
    ensures reach(PassState(s, p, attempts, base, n + 1, e))
  {
    AttemptIsRun(reach, PassState(s, p, attempts, base, n, e), p, attempts[n], base + n, e, Tasks(attempts)[n + 1..], cfg);
  }

  lemma PassGoesOn(reach: State -> bool, s: State, p: PumpId, attempts: seq<Attempt>, base: MessageId, n: nat, e: Epoch, cfg: Timeouts)
    requires Closed(reach, cfg) && n < |attempts| && ReadyToPass(s, p, attempts, base, e)
    requires reach(PassState(s, p, attempts, base, n, e))
    ensures reach(PassState(s, p, attempts, base, n + 1, e))
  {
    PassMayGoOn(s, p, attempts, base, n, e);
    OneMoreAttempt(reach, s, p, attempts, base, n, e, cfg);
  }

  lemma {:induction false} Climb(holds: nat -> bool, n: nat)
    requires holds(0) && forall k: nat | k < n && holds(k) :: holds(k + 1)
    ensures holds(n)
  {
    if n > 0 { Climb(holds, n - 1); }
  }

  lemma PassIsRun(reach: State -> bool, s: State, p: PumpId, attempts: seq<Attempt>, base: MessageId, e: Epoch, cfg: Timeouts)
    requires Closed(reach, cfg) && reach(s) && ReadyToPass(s, p, attempts, base, e)
    ensures reach(PassState(s, p, attempts, base, |attempts|, e))
  {
    var holds := (k: nat) => k <= |attempts| && reach(PassState(s, p, attempts, base, k, e));
    assert holds(0) by { assert PassState(s, p, attempts, base, 0, e) == s; }
    forall k: nat | k < |attempts| && holds(k) ensures holds(k + 1) {
      assert reach(PassState(s, p, attempts, base, k, e));
      PassGoesOn(reach, s, p, attempts, base, k, e, cfg);
    }
    Climb(holds, |attempts|);
  }

  /** `PumpOnce`, with any outcome at every statement, is a run of the protocol from a SELECT on: the
      protocol reaches the table the loop leaves, and has accepted the messages the loop sent. */
  lemma PumpOnceIsRun(s: State, p: PumpId, attempts: seq<Attempt>, base: MessageId, cfg: Timeouts) returns (s': State)
    requires p !in s.pumps && PumpReady(s.rows, attempts) && Scheduled(s, attempts) && NoIdFrom(s, base)
    ensures Runs(s, s', cfg)
    ensures s'.rows == PumpedTable(s.rows, attempts, |attempts|, s.epoch)
    ensures forall id <- s.log :: id in s'.log && s'.log[id] == s.log[id]
    ensures forall i :: 0 <= i < |attempts| ==>
              MessagesOf(attempts[i]) == if base + i in s'.log then [s'.log[base + i]] else []
  {
    var reach: State -> bool := x => Runs(s, x, cfg);
    RunsAreClosed(s, cfg);
    var step := Pump(p, Select(Tasks(attempts)));
    forall t | t in Tasks(attempts) ensures t in s.rows && PumpEligible(s.rows[t]) {
      var i :| 0 <= i < |attempts| && Tasks(attempts)[i] == t;
      assert attempts[i] in attempts;
    }
    var s1 := Apply(s, step, cfg);
    PassIsRun(reach, s1, p, attempts, base, s.epoch, cfg);
    s' := PassState(s1, p, attempts, base, |attempts|, s.epoch);
    PassResult(s1, p, attempts, base, s.epoch);
  }

  lemma PassResult(s: State, p: PumpId, attempts: seq<Attempt>, base: MessageId, e: Epoch)
    requires PumpReady(s.rows, attempts) && NoIdFrom(s, base)
    ensures var s' := PassState(s, p, attempts, base, |attempts|, e);
      && s'.rows == PumpedTable(s.rows, attempts, |attempts|, e)
      && (forall id <- s.log :: id in s'.log && s'.log[id] == s.log[id])
      && (forall i :: 0 <= i < |attempts| ==> MessagesOf(attempts[i]) == if base + i in s'.log then [s'.log[base + i]] else [])
  {
    TableAfter(s, p, attempts, base, |attempts|, e);
    forall id | id in s.log
      ensures var log := PassState(s, p, attempts, base, |attempts|, e).log; id in log && log[id] == s.log[id]
    {
      MessagesAfter(s, p, attempts, base, |attempts|, e, id);
    }
    forall i | 0 <= i < |attempts|
      ensures var log := PassState(s, p, attempts, base, |attempts|, e).log;
              MessagesOf(attempts[i]) == if base + i in log then [log[base + i]] else []
    {
      MessagesAfter(s, p, attempts, base, |attempts|, e, base + i);
      assert base + i !in s.log;
    }
  }

  // ---------------------------------------------------------------- a whole recovery pass

  /** The dispatcher after the first `n` rows of a pass that read `rows` at the current time and epoch. */
  ghost predicate Recovered(s: State, s': State, d: DispatcherId, tasks: seq<TaskId>, n: nat, seen: map<Token, Location>, cfg: Timeouts)
    requires d in s.dispatchers && n <= |tasks| && RecoveryReady(s.rows, tasks, s.now, s.epoch, cfg)
  {
    var pc := s.dispatchers[d];
    && d in s'.dispatchers
    && s' == s.(rows := RecoveredTable(s.rows, tasks, n, pc.observations, seen, s.now, s.epoch, cfg),
                dispatchers := s'.dispatchers)
    && s'.dispatchers[d] == pc.(observations := PassObservations(s.rows, tasks, n, pc.observations, seen, s.now, s.epoch, cfg),
                                passNow := s.now, passEpoch := s.epoch, todo := RowsRead(s.rows, tasks)[n..])
  }

  /** The protocol's next recovery write does to table and observations what the loop's next turn does. */
  lemma NextRecovered(s: State, s1: State, d: DispatcherId, tasks: seq<TaskId>, n: nat, seen: map<Token, Location>, cfg: Timeouts)
    returns (l: Location)
    requires d in s.dispatchers && n < |tasks| && RecoveryReady(s.rows, tasks, s.now, s.epoch, cfg)
    requires Recovered(s, s1, d, tasks, n, seen, cfg)
    ensures DispatcherEnabled(s1, d, RecoveryWrite(l), cfg)
    ensures Recovered(s, DispatcherApply(s1, d, RecoveryWrite(l), cfg), d, tasks, n + 1, seen, cfg)
  {
    var t := tasks[n];
    var r := s.rows[t];
    l := Seen(seen, r.token.value);
    assert RowsRead(s.rows, tasks)[n..][0] == (t, r) && RowsRead(s.rows, tasks)[n..][1..] == RowsRead(s.rows, tasks)[n + 1..];
    assert t !in tasks[..n];
    RecoveredTableElsewhere(s.rows, tasks, n, s.dispatchers[d].observations, seen, s.now, s.epoch, cfg, t);
    VerdictHoldsOfTheRowRead(r, r.token.value, l,
                             PassObservations(s.rows, tasks, n, s.dispatchers[d].observations, seen, s.now, s.epoch, cfg),
                             s.now, s.epoch, cfg);
  }

  lemma {:induction false} RecoveryIsRun(reach: State -> bool, s: State, d: DispatcherId, tasks: seq<TaskId>, n: nat, seen: map<Token, Location>, cfg: Timeouts)
    returns (s': State)
    requires d in s.dispatchers && n <= |tasks| && RecoveryReady(s.rows, tasks, s.now, s.epoch, cfg)
    requires Closed(reach, cfg) && reach(s)
    ensures reach(s') && Recovered(s, s', d, tasks, n, seen, cfg)
    decreases n
  {
    if n == 0 {
      s' := Apply(s, Dispatch(d, RecoverySelect(tasks)), cfg);
      assert RowsRead(s.rows, tasks)[0..] == RowsRead(s.rows, tasks);
    } else {
      var s1 := RecoveryIsRun(reach, s, d, tasks, n - 1, seen, cfg);
      var l := NextRecovered(s, s1, d, tasks, n - 1, seen, cfg);
      s' := Apply(s1, Dispatch(d, RecoveryWrite(l)), cfg);
    }
  }

  /** `RecoverDispatchHandoffs` is a run of the protocol: it reaches the table and the observations the
      loop leaves, and changes nothing else but the dispatcher's own notes. */
  lemma RecoverDispatchHandoffsIsRun(s: State, d: DispatcherId, tasks: seq<TaskId>, seen: map<Token, Location>, cfg: Timeouts)
    returns (s': State)
    requires d in s.dispatchers && RecoveryReady(s.rows, tasks, s.now, s.epoch, cfg)
    ensures Runs(s, s', cfg) && d in s'.dispatchers
    ensures s'.rows == RecoveredTable(s.rows, tasks, |tasks|, s.dispatchers[d].observations, seen, s.now, s.epoch, cfg)
    ensures s'.dispatchers[d].observations
         == PassObservations(s.rows, tasks, |tasks|, s.dispatchers[d].observations, seen, s.now, s.epoch, cfg)
    ensures s' == s.(rows := s'.rows, dispatchers := s'.dispatchers)
  {
    RunsAreClosed(s, cfg);
    s' := RecoveryIsRun(x => Runs(s, x, cfg), s, d, tasks, |tasks|, seen, cfg);
  }

  // ---------------------------------------------------------------- a whole stale pass

  /** The tasks among the first `n` that are not locked. */
  function Unlocked(tasks: seq<TaskId>, n: nat, locked: set<TaskId>): set<TaskId>
    requires n <= |tasks|
  {
    set t | t in tasks[..n] && t !in locked
  }

  ghost predicate ResetSoFar(s: State, s': State, d: DispatcherId, tasks: seq<TaskId>, n: nat, locked: set<TaskId>)
    requires d in s.dispatchers && n <= |tasks| && forall t <- tasks :: t in s.rows
  {
    && d in s'.dispatchers
    && s' == s.(rows := ResetTable(s.rows, Unlocked(tasks, n, locked), s.now), dispatchers := s'.dispatchers)
    && s'.dispatchers[d] == s.dispatchers[d].(stale := RowsRead(s.rows, tasks)[n..])
  }

  lemma NextReset(s: State, s1: State, d: DispatcherId, tasks: seq<TaskId>, n: nat, locked: set<TaskId>, cfg: Timeouts)
    returns (step: DispatcherStep)
    requires d in s.dispatchers && n < |tasks| && Distinct(tasks) && forall t <- tasks :: t in s.rows
    requires ResetSoFar(s, s1, d, tasks, n, locked)
    ensures DispatcherEnabled(s1, d, step, cfg)
    ensures ResetSoFar(s, DispatcherApply(s1, d, step, cfg), d, tasks, n + 1, locked)
  {
    var t := tasks[n];
    var read := RowsRead(s.rows, tasks);
    assert read[n..][0] == (t, s.rows[t]) && read[n..][1..] == read[n + 1..];
    assert tasks[..n + 1] == tasks[..n] + [t];
    assert t !in tasks[..n];
    if t in locked {
      step := StaleSkip;
      assert Unlocked(tasks, n + 1, locked) == Unlocked(tasks, n, locked);
    } else {
      step := StaleWrite;
      assert Unlocked(tasks, n + 1, locked) == Unlocked(tasks, n, locked) + {t};
      ResetOneMore(s.rows, Unlocked(tasks, n, locked), t, s.now);
    }
  }

  lemma {:induction false} ResetIsRun(reach: State -> bool, s: State, d: DispatcherId, tasks: seq<TaskId>, n: nat, locked: set<TaskId>, cfg: Timeouts)
    returns (s': State)
    requires Closed(reach, cfg) && reach(s) && d in s.dispatchers && n <= |tasks| && Distinct(tasks)
    requires forall t <- tasks :: t in s.rows && StaleSelected(s.rows[t], s.now, cfg)
    ensures reach(s') && ResetSoFar(s, s', d, tasks, n, locked)
    decreases n
  {
    if n == 0 {
      s' := Apply(s, Dispatch(d, StaleSelect(tasks)), cfg);
      assert RowsRead(s.rows, tasks)[0..] == RowsRead(s.rows, tasks);
      assert ResetTable(s.rows, Unlocked(tasks, 0, locked), s.now) == s.rows;
    } else {
      var s1 := ResetIsRun(reach, s, d, tasks, n - 1, locked, cfg);
      var step := NextReset(s, s1, d, tasks, n - 1, locked, cfg);
      s' := Apply(s1, Dispatch(d, step), cfg);
    }
  }

  /** `ResetStale` is a run of the protocol too, given the stale rows in any order. */
  lemma ResetStaleIsRun(s: State, d: DispatcherId, tasks: seq<TaskId>, locked: set<TaskId>, cfg: Timeouts) returns (s': State)
    requires d in s.dispatchers && Distinct(tasks)
    requires forall t :: t in tasks <==> t in s.rows && StaleSelected(s.rows[t], s.now, cfg)
    ensures Runs(s, s', cfg)
    ensures s'.rows == ResetTable(s.rows, Due(s.rows, locked, s.now, cfg), s.now)
    ensures s' == s.(rows := s'.rows, dispatchers := s'.dispatchers)
  {
    RunsAreClosed(s, cfg);
    s' := ResetIsRun(x => Runs(s, x, cfg), s, d, tasks, |tasks|, locked, cfg);
    assert tasks[..|tasks|] == tasks;
    assert Unlocked(tasks, |tasks|, locked) == Due(s.rows, locked, s.now, cfg);
  }
}
