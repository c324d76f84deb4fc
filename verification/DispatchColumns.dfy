/**
 The dispatcher's passes spelled out column by column: which rows each of them changes, and what every column of a
 changed row holds afterwards (app/dispatcher.py:133-511).
 */
module DispatchColumns {
  import opened Prelude
  import opened DispatchRows
  import opened DispatchProtocol
  import opened DispatcherLoops

  /** The columns no statement of the dispatcher touches. */
  predicate SameTask(r: Row, r': Row) {
    && r'.isDeleted == r.isDeleted && r'.heartbeat == r.heartbeat && r'.execEpoch == r.execEpoch
    && r'.controlVersion == r.controlVersion && r'.orchestrated == r.orchestrated
  }

  predicate NoDelivery(r: Row) {
    r.deliveryStartedAt.None? && r.deliveryWorker.None?
  }

  predicate NoReservation(r: Row) {
    r.token.None? && r.reservedAt.None? && r.publishedAt.None? && r.brokerEpoch.None? && NoDelivery(r)
  }

  // ---------------------------------------------------------------- the recovery pass

  /** Which rows the SELECT of a recovery pass picks. */
  lemma SelectedExactly(r: Row, now: Time, e: Epoch, cfg: Timeouts)
    ensures RecoverySelects(r, now, e, cfg) <==>
      && r.status == Pending && !r.isDeleted && r.token.Some? && r.owner.None? && r.lease.None?
      && (|| (r.brokerEpoch.Some? && r.brokerEpoch.value != e)
          || (r.dispatch == Some(Publishing) && r.reservedAt.Some? && now - r.reservedAt.value > cfg.publishing)
          || (r.dispatch == Some(Delivering) && r.deliveryStartedAt.Some? && now - r.deliveryStartedAt.value > cfg.delivering)
          || (r.dispatch == Some(Published) && r.publishedAt.Some?
              && (now - r.publishedAt.value > cfg.published || (r.brokerEpoch.None? && now - r.publishedAt.value > cfg.legacy)))
          || (r.reservedAt.None? && r.brokerEpoch.None? && r.deliveryStartedAt.None? && now - r.updatedAt > cfg.legacy))
  {
  }

  /** Which of any rows one turn of the loop releases: one of another epoch; a reservation, delivery or publication
      older than its timeout, the publication only when its message was twice in a row reported lost in the same
      way (and, without an epoch, when it is past the legacy timeout as well); or a row from before the columns
      existed that nothing has updated since. */
  lemma ReleasedExactly(r: Row, k: Token, l: Location, obs: Observations, now: Time, e: Epoch, cfg: Timeouts)
    ensures Judge(r, k, l, obs, now, e, cfg).0.Release? <==>
      || (r.brokerEpoch.Some? && r.brokerEpoch.value != e)
      || (r.dispatch == Some(Publishing) && r.reservedAt.Some? && now - r.reservedAt.value > cfg.publishing)
      || (r.dispatch == Some(Delivering) && r.deliveryStartedAt.Some? && now - r.deliveryStartedAt.value > cfg.delivering)
      || (r.dispatch == Some(Published) && r.publishedAt.Some? && now - r.publishedAt.value > cfg.published
          && (r.brokerEpoch.None? ==> now - r.publishedAt.value > cfg.legacy)
          && (l == Unacked || l == Missing) && k in obs && obs[k].0 == l && obs[k].1 >= 1)
      || (r.reservedAt.None? && r.brokerEpoch.None? && r.deliveryStartedAt.None? && now - r.updatedAt > cfg.legacy
          && !(r.dispatch == Some(Published) && r.publishedAt.Some? && now - r.publishedAt.value > cfg.published))
  {
  }

  /** Why: the epoch first, then whatever dispatch state the row was stuck in. */
  lemma ReasonExactly(r: Row, k: Token, l: Location, obs: Observations, now: Time, e: Epoch, cfg: Timeouts)
    requires Judge(r, k, l, obs, now, e, cfg).0.Release?
    ensures Judge(r, k, l, obs, now, e, cfg).0.reason ==
      if r.brokerEpoch.Some? && r.brokerEpoch.value != e then EpochLost
      else if r.dispatch == Some(Publishing) && r.reservedAt.Some? then PublishingTimeout
      else if r.dispatch == Some(Delivering) && r.deliveryStartedAt.Some? then DeliveringTimeout
      else if r.dispatch == Some(Published) && r.publishedAt.Some? && now - r.publishedAt.value > cfg.published
      then PublishedStale(l)
      else LegacyAged
  {
  }

  /** What a recovery pass leaves of each row it read. */
  lemma RecoveredColumns(rows: map<TaskId, Row>, tasks: seq<TaskId>, obs: Observations, seen: map<Token, Location>,
                         now: Time, e: Epoch, cfg: Timeouts, i: nat)
    requires i < |tasks| && RecoveryReady(rows, tasks, now, e, cfg)
    ensures var r := rows[tasks[i]];
      var rows' := RecoveredTable(rows, tasks, |tasks|, obs, seen, now, e, cfg);
      var verdict := PassVerdict(rows, tasks, i, obs, seen, now, e, cfg);
      && tasks[i] in rows'
      && var r' := rows'[tasks[i]];
         if verdict.Release? then
           && NoReservation(r') && r'.dispatch == Some(Released) && r'.lastError == Some(verdict.reason) && r'.updatedAt == now
           && r'.status == r.status && r'.owner == r.owner && r'.lease == r.lease && r'.attempts == r.attempts && SameTask(r, r')
         else r' == r
  {
    RecoveredTableAt(rows, tasks, |tasks|, obs, seen, now, e, cfg, i);
  }

  // ---------------------------------------------------------------- the pump pass

  /** Which rows the SELECT of a pump pass picks. */
  lemma PumpSelectsExactly(r: Row)
    ensures PumpEligible(r) <==> r.status == Pending && !r.isDeleted && r.token.None?
  {
  }

  /** Did the reservation take effect, was it acknowledged, was it handed back? */
  predicate WasReserved(o: Outcome) {
    o.ReserveRaised? ==> o.applied
  }

  predicate WasAcknowledged(o: Outcome) {
    o.Done? || (o.AcknowledgeRaised? && o.applied)
  }

  predicate WasReleased(o: Outcome) {
    (o.ReserveRaised? || o.PublishRaised?) && o.released
  }

  /** What an attempt of a pass that read the broker epoch `e` makes of its row: a kept reservation carries the
      uuid, the epoch and the time of the attempt, and is published at the time of its acknowledgement. */
  predicate AttemptLeaves(r: Row, r': Row, a: Attempt, e: Epoch) {
    && SameTask(r, r') && r'.status == r.status && r'.owner == r.owner && r'.lease == r.lease
    && (!WasReserved(a.outcome) ==> r' == r)
    && (WasReserved(a.outcome) ==> r'.attempts == r.attempts + 1 && NoDelivery(r'))
    && (WasReserved(a.outcome) && WasReleased(a.outcome) ==>
          && NoReservation(r') && r'.dispatch == Some(Released) && r'.lastError == Some(PublishFailed)
          && r'.updatedAt == a.finishedAt)
    && (WasReserved(a.outcome) && !WasReleased(a.outcome) ==>
          && r'.token == Some(a.token) && r'.brokerEpoch == Some(e) && r'.reservedAt == Some(a.reservedAt)
          && r'.lastError.None?
          && (if WasAcknowledged(a.outcome)
              then r'.dispatch == Some(Published) && r'.publishedAt == Some(a.finishedAt) && r'.updatedAt == a.finishedAt
              else r'.dispatch == Some(Publishing) && r'.publishedAt.None? && r'.updatedAt == a.reservedAt))
  }

  lemma PumpedColumnsOfRow(r: Row, a: Attempt, e: Epoch)
    ensures AttemptLeaves(r, PumpedRow(r, a, e), a, e)
  {
  }

  /** What a pump pass leaves of each row it selected. */
  lemma PumpedColumns(rows: map<TaskId, Row>, attempts: seq<Attempt>, e: Epoch, i: nat)
    requires i < |attempts| && PumpReady(rows, attempts)
    ensures var (a, rows') := (attempts[i], PumpedTable(rows, attempts, |attempts|, e));
      a.task in rows && a.task in rows' && AttemptLeaves(rows[a.task], rows'[a.task], a, e)
  {
    var a := attempts[i];
    assert a in attempts;
    PumpedTableAt(rows, attempts, |attempts|, e, a.task);
    PumpedColumnsOfRow(rows[a.task], a, e);
  }

  /** The attempts before the `n`-th that are among `chosen`. */
  function Chosen(attempts: seq<Attempt>, n: nat, chosen: Attempt -> bool): (c: set<nat>)
    requires n <= |attempts|
  {
    set j: nat | j < n && chosen(attempts[j])
  }

  lemma OneMoreChosen(attempts: seq<Attempt>, n: nat, chosen: Attempt -> bool)
    requires n < |attempts|
    ensures |Chosen(attempts, n + 1, chosen)| == |Chosen(attempts, n, chosen)| + if chosen(attempts[n]) then 1 else 0
  {
    var before := Chosen(attempts, n, chosen);
    assert n !in before;
    assert Chosen(attempts, n + 1, chosen) == before + if chosen(attempts[n]) then {n} else {};
  }

  lemma SamePrefix(attempts: seq<Attempt>, n: nat, k: nat, chosen: Attempt -> bool)
    requires k <= n <= |attempts|
    ensures Chosen(attempts[..n], k, chosen) == Chosen(attempts, k, chosen)
  {
  }

  const DONE: Attempt -> bool := (a: Attempt) => a.outcome.Done?
  const ACCEPTED: Attempt -> bool := (a: Attempt) => a.outcome.Done? || a.outcome.AcknowledgeRaised? || (a.outcome.PublishRaised? && a.outcome.accepted)

  /** A pass counts the attempts at which nothing raised. */
  lemma {:induction false} CountsDone(attempts: seq<Attempt>)
    ensures DoneCount(attempts) == |Chosen(attempts, |attempts|, DONE)|
    decreases |attempts|
  {
    if attempts != [] {
      var n := |attempts| - 1;
      CountsDone(attempts[..n]);
      SamePrefix(attempts, n, n, DONE);
      OneMoreChosen(attempts, n, DONE);
    } else {
      assert Chosen(attempts, 0, DONE) == {};
    }
  }

  /** And sends the message of each attempt the broker accepted, in the order of the attempts. */
  lemma {:induction false} SendsAccepted(attempts: seq<Attempt>, i: nat)
    requires i < |attempts|
    ensures |MessagesSent(attempts)| == |Chosen(attempts, |attempts|, ACCEPTED)|
    ensures var before := |Chosen(attempts, i, ACCEPTED)|;
      ACCEPTED(attempts[i]) ==>
        before < |MessagesSent(attempts)| && MessagesSent(attempts)[before] == Message(attempts[i].task, attempts[i].token)
    decreases |attempts|
  {
    var n := |attempts| - 1;
    OneMoreChosen(attempts, n, ACCEPTED);
    SamePrefix(attempts, n, n, ACCEPTED);
    if n == 0 {
      assert attempts[..n] == [] && Chosen(attempts, 0, ACCEPTED) == {};
    } else {
      SamePrefix(attempts, n, if i < n then i else 0, ACCEPTED);
      SendsAccepted(attempts[..n], if i < n then i else 0);
    }
  }

  // ---------------------------------------------------------------- the stale pass

  /** Which rows a stale pass resets, and what it leaves of each row of the table: a reset row goes back to pending
      without owner, lease or reservation, but keeps its heartbeat, its attempts and its last error. */
  lemma ResetColumns(rows: map<TaskId, Row>, locked: set<TaskId>, now: Time, cfg: Timeouts, t: TaskId)
    requires t in rows
    ensures var (r, rows') := (rows[t], ResetTable(rows, Due(rows, locked, now, cfg), now));
      && t in rows'
      && var r' := rows'[t];
         if r.status == Running && !r.isDeleted && t !in locked && (r.heartbeat.Some? ==> now - r.heartbeat.value > cfg.heartbeat)
         then
           && r'.status == Pending && r'.owner.None? && r'.lease.None? && r'.dispatch.None? && NoReservation(r')
           && r'.updatedAt == now && r'.attempts == r.attempts && r'.lastError == r.lastError && SameTask(r, r')
         else r' == r
  {
  }
}
