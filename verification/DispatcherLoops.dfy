/** The dispatcher process itself: its loops over rows, run without interference. */
module DispatcherLoops {
  import opened Prelude
  import opened DispatchRows
  import opened DispatchProtocol

  /** What happened to one task of a pump pass, in the order of the statements that can raise. `released` is
      whether the release UPDATE in the handler took effect, or raised in its turn. */
  datatype Outcome =
    | ReserveRaised(applied: bool, released: bool)
    | PublishRaised(accepted: bool, released: bool)
    | AcknowledgeRaised(applied: bool)
    | Done

  /** One selected task of a pump pass: the uuid drawn for it and the clock readings. */
  datatype Attempt = Attempt(task: TaskId, token: Token, reservedAt: Time, finishedAt: Time, outcome: Outcome)

  /** The row a pass leaves behind, starting from an eligible one. A reservation survives exactly when
      the broker may have the message, or the release raised too; otherwise it is handed back. */
  function PumpedRow(r: Row, a: Attempt, e: Epoch): Row {
    var reserved := ReserveRow(r, a.token, e, a.reservedAt);
    match a.outcome
    case ReserveRaised(applied, released) =>
      if !applied then r else if released then FreeRow(reserved, PublishFailed, a.finishedAt) else reserved
    case PublishRaised(_, released) => if released then FreeRow(reserved, PublishFailed, a.finishedAt) else reserved
    case AcknowledgeRaised(applied) => if applied then AckRow(reserved, a.finishedAt) else reserved
    case Done => AckRow(reserved, a.finishedAt)
  }

  /** What the broker got out of one attempt. */
  function MessagesOf(a: Attempt): seq<Message> {
    if a.outcome.ReserveRaised? || (a.outcome.PublishRaised? && !a.outcome.accepted) then [] else [Message(a.task, a.token)]
  }

  function MessagesSent(attempts: seq<Attempt>): seq<Message> {
    if attempts == [] then []
    else MessagesSent(attempts[..|attempts| - 1]) + MessagesOf(attempts[|attempts| - 1])
  }

  predicate Distinct(tasks: seq<TaskId>) {
    forall i, j :: 0 <= i < j < |tasks| ==> tasks[i] != tasks[j]
  }

  function Tasks(attempts: seq<Attempt>): (tasks: seq<TaskId>)
    ensures |tasks| == |attempts| && forall i :: 0 <= i < |tasks| ==> tasks[i] == attempts[i].task
  {
    seq(|attempts|, i requires 0 <= i < |attempts| => attempts[i].task)
  }

  predicate PumpReady(rows: map<TaskId, Row>, attempts: seq<Attempt>) {
    Distinct(Tasks(attempts)) && forall a <- attempts :: a.task in rows && PumpEligible(rows[a.task])
  }

  /** The table after the first `n` attempts of a pass. */
  function PumpedTable(rows: map<TaskId, Row>, attempts: seq<Attempt>, n: nat, e: Epoch): map<TaskId, Row>
    requires n <= |attempts| && PumpReady(rows, attempts)
  {
    if n == 0 then rows
    else
      var a := attempts[n - 1];
      PumpedTable(rows, attempts, n - 1, e)[a.task := PumpedRow(rows[a.task], a, e)]
  }

  function DoneCount(attempts: seq<Attempt>): nat {
    if attempts == [] then 0
    else DoneCount(attempts[..|attempts| - 1]) + if attempts[|attempts| - 1].outcome.Done? then 1 else 0
  }

  lemma {:induction false} PumpedTableAt(rows: map<TaskId, Row>, attempts: seq<Attempt>, n: nat, e: Epoch, t: TaskId)
    requires n <= |attempts| && PumpReady(rows, attempts) && t in rows
    ensures PumpedTable(rows, attempts, n, e).Keys == rows.Keys
    ensures t !in Tasks(attempts)[..n] ==> PumpedTable(rows, attempts, n, e)[t] == rows[t]
    ensures forall i :: 0 <= i < n && attempts[i].task == t ==>
              PumpedTable(rows, attempts, n, e)[t] == PumpedRow(rows[t], attempts[i], e)
  {
    if n > 0 {
      PumpedTableAt(rows, attempts, n - 1, e, t);
      var tasks := Tasks(attempts);
      assert tasks[..n] == tasks[..n - 1] + [attempts[n - 1].task];
      assert forall i :: 0 <= i < n - 1 ==> tasks[i] != tasks[n - 1];
    }
  }

  lemma NextTaskUntouched(rows: map<TaskId, Row>, attempts: seq<Attempt>, n: nat, e: Epoch)
    requires n < |attempts| && PumpReady(rows, attempts)
    ensures var rows' := PumpedTable(rows, attempts, n, e);
            attempts[n].task in rows' && rows'[attempts[n].task] == rows[attempts[n].task] && PumpEligible(rows[attempts[n].task])
  {
    assert attempts[n] in attempts;
    assert attempts[n].task !in Tasks(attempts)[..n] by {
      assert forall i :: 0 <= i < n ==> Tasks(attempts)[i] != Tasks(attempts)[n];
    }
    PumpedTableAt(rows, attempts, n, e, attempts[n].task);
  }

  /** The observation map after the first `n` rows of a recovery pass; `seen` is what the broker answered. */
  function PassObservations(rows: map<TaskId, Row>, tasks: seq<TaskId>, n: nat, obs: Observations,
                            seen: map<Token, Location>, now: Time, e: Epoch, cfg: Timeouts): Observations
    requires n <= |tasks| && RecoveryReady(rows, tasks, now, e, cfg)
  {
    if n == 0 then obs
    else
      var r := rows[tasks[n - 1]];
      Judge(r, r.token.value, Seen(seen, r.token.value),
            PassObservations(rows, tasks, n - 1, obs, seen, now, e, cfg), now, e, cfg).1
  }

  function PassVerdict(rows: map<TaskId, Row>, tasks: seq<TaskId>, n: nat, obs: Observations,
                       seen: map<Token, Location>, now: Time, e: Epoch, cfg: Timeouts): Verdict
    requires n < |tasks| && RecoveryReady(rows, tasks, now, e, cfg)
  {
    var r := rows[tasks[n]];
    Judge(r, r.token.value, Seen(seen, r.token.value),
          PassObservations(rows, tasks, n, obs, seen, now, e, cfg), now, e, cfg).0
  }

  function Seen(seen: map<Token, Location>, k: Token): Location {
    if k in seen then seen[k] else Unknown
  }

  function RowAfterVerdict(r: Row, v: Verdict, now: Time): Row {
    if v.Release? then FreeRow(r, v.reason, now) else r
  }

  predicate RecoveryReady(rows: map<TaskId, Row>, tasks: seq<TaskId>, now: Time, e: Epoch, cfg: Timeouts) {
    Distinct(tasks) && forall t <- tasks :: t in rows && RecoverySelects(rows[t], now, e, cfg)
  }

  /** The table after the first `n` rows of a recovery pass. */
  function RecoveredTable(rows: map<TaskId, Row>, tasks: seq<TaskId>, n: nat, obs: Observations,
                          seen: map<Token, Location>, now: Time, e: Epoch, cfg: Timeouts): map<TaskId, Row>
    requires n <= |tasks| && RecoveryReady(rows, tasks, now, e, cfg)
  {
    if n == 0 then rows
    else
      var t := tasks[n - 1];
      var verdict := PassVerdict(rows, tasks, n - 1, obs, seen, now, e, cfg);
      RecoveredTable(rows, tasks, n - 1, obs, seen, now, e, cfg)[t := RowAfterVerdict(rows[t], verdict, now)]
  }

  function ReleaseCount(rows: map<TaskId, Row>, tasks: seq<TaskId>, n: nat, obs: Observations,
                        seen: map<Token, Location>, now: Time, e: Epoch, cfg: Timeouts): nat
    requires n <= |tasks| && RecoveryReady(rows, tasks, now, e, cfg)
  {
    if n == 0 then 0
    else ReleaseCount(rows, tasks, n - 1, obs, seen, now, e, cfg)
         + if PassVerdict(rows, tasks, n - 1, obs, seen, now, e, cfg).Release? then 1 else 0
  }

  lemma {:induction false} RecoveredTableElsewhere(rows: map<TaskId, Row>, tasks: seq<TaskId>, n: nat, obs: Observations,
                                                   seen: map<Token, Location>, now: Time, e: Epoch, cfg: Timeouts, t: TaskId)
    requires n <= |tasks| && RecoveryReady(rows, tasks, now, e, cfg) && t in rows
    ensures var rows' := RecoveredTable(rows, tasks, n, obs, seen, now, e, cfg);
            rows'.Keys == rows.Keys && (t !in tasks[..n] ==> rows'[t] == rows[t])
  {
    if n > 0 {
      RecoveredTableElsewhere(rows, tasks, n - 1, obs, seen, now, e, cfg, t);
      assert tasks[..n] == tasks[..n - 1] + [tasks[n - 1]];
    }
  }

  /** A pass changes exactly the rows it decides to release. */
  lemma {:induction false} RecoveredTableAt(rows: map<TaskId, Row>, tasks: seq<TaskId>, n: nat, obs: Observations,
                                            seen: map<Token, Location>, now: Time, e: Epoch, cfg: Timeouts, i: nat)
    requires i < n <= |tasks| && RecoveryReady(rows, tasks, now, e, cfg)
    ensures var rows' := RecoveredTable(rows, tasks, n, obs, seen, now, e, cfg);
            tasks[i] in rows' && rows'[tasks[i]]
                         == RowAfterVerdict(rows[tasks[i]], PassVerdict(rows, tasks, i, obs, seen, now, e, cfg), now)
  {
    if i < n - 1 { RecoveredTableAt(rows, tasks, n - 1, obs, seen, now, e, cfg, i); }
  }

  /** The rows a stale pass resets: `locked` are the tasks whose clean-up times out on the event lock. */
  function Due(rows: map<TaskId, Row>, locked: set<TaskId>, now: Time, cfg: Timeouts): set<TaskId> {
    set t | t in rows && StaleSelected(rows[t], now, cfg) && t !in locked
  }

  function ResetTable(rows: map<TaskId, Row>, due: set<TaskId>, now: Time): map<TaskId, Row> {
    map t | t in rows :: if t in due then StaleRow(rows[t], now) else rows[t]
  }

  lemma ResetOneMore(rows: map<TaskId, Row>, done: set<TaskId>, t: TaskId, now: Time)
    requires t in rows
    ensures ResetTable(rows, done + {t}, now) == ResetTable(rows, done, now)[t := StaleRow(rows[t], now)]
  {
  }

  function Among(tasks: seq<TaskId>, due: set<TaskId>): set<TaskId> {
    set t | t in tasks && t in due
  }

  lemma OneMoreRead(tasks: seq<TaskId>, n: nat, due: set<TaskId>)
    requires n < |tasks| && Distinct(tasks)
    ensures tasks[n] !in Among(tasks[..n], due)
    ensures Among(tasks[..n + 1], due) == Among(tasks[..n], due) + if tasks[n] in due then {tasks[n]} else {}
  {
    assert tasks[..n + 1] == tasks[..n] + [tasks[n]];
  }

  class TaskTable {
    var rows: map<TaskId, Row>

    constructor ()
      ensures rows == map[]
    {
      rows := map[];
    }

    method Reserve(t: TaskId, k: Token, e: Epoch, now: Time) returns (changed: bool)
      modifies this
      ensures changed <==> t in old(rows) && PumpEligible(old(rows)[t])
      ensures rows == if changed then old(rows)[t := ReserveRow(old(rows)[t], k, e, now)] else old(rows)
    {
      changed := t in rows && PumpEligible(rows[t]);
      if changed { rows := rows[t := ReserveRow(rows[t], k, e, now)]; }
    }

    method Acknowledge(t: TaskId, k: Token, now: Time) returns (changed: bool)
      modifies this
      ensures changed <==> t in old(rows) && AckMatches(old(rows)[t], k)
      ensures rows == if changed then old(rows)[t := AckRow(old(rows)[t], now)] else old(rows)
    {
      changed := t in rows && AckMatches(rows[t], k);
      if changed { rows := rows[t := AckRow(rows[t], now)]; }
    }

    method GiveUp(t: TaskId, k: Token, now: Time) returns (changed: bool)
      modifies this
      ensures changed <==> t in old(rows) && ReleaseMatches(old(rows)[t], k)
      ensures rows == if changed then old(rows)[t := FreeRow(old(rows)[t], PublishFailed, now)] else old(rows)
    {
      changed := t in rows && ReleaseMatches(rows[t], k);
      if changed { rows := rows[t := FreeRow(rows[t], PublishFailed, now)]; }
    }

    method Recover(t: TaskId, k: Token, reason: Reason, c: Condition, now: Time, e: Epoch, cfg: Timeouts)
      returns (changed: bool)
      modifies this
      ensures changed <==> t in old(rows) && RecoveryMatches(old(rows)[t], k, c, now, e, cfg)
      ensures rows == if changed then old(rows)[t := FreeRow(old(rows)[t], reason, now)] else old(rows)
    {
      changed := t in rows && RecoveryMatches(rows[t], k, c, now, e, cfg);
      if changed { rows := rows[t := FreeRow(rows[t], reason, now)]; }
    }
  }

  class Dispatcher {
    var observations: Observations

    constructor ()
      ensures observations == map[]
    {
      observations := map[];
    }

    method ConfirmPublishedRecovery(k: Token, l: Location) returns (confirmed: bool)
      modifies this
      ensures (confirmed, observations) == Confirm(old(observations), k, l)
    {
      if !(l.Unacked? || l.Missing?) {
        observations := observations - {k};
        return false;
      }
      var count := 1;
      if k in observations && observations[k].0 == l {
        count := observations[k].1 + 1;
      }
      observations := observations[k := (l, count)];
      if count < CONFIRMATIONS {
        return false;
      }
      observations := observations - {k};
      assert observations == old(observations) - {k};
      return true;
    }

    /** One iteration of `_pump_once`. */
    method PumpTask(table: TaskTable, a: Attempt, e: Epoch, queue: seq<Message>)
      returns (published: bool, queue': seq<Message>)
      requires a.task in table.rows && PumpEligible(table.rows[a.task])
      modifies table
      ensures table.rows == old(table.rows)[a.task := PumpedRow(old(table.rows)[a.task], a, e)]
      ensures published <==> a.outcome.Done?
      ensures queue' == queue + MessagesOf(a)
    {
      published, queue' := false, queue;
      if a.outcome.ReserveRaised? && !a.outcome.applied {
        if a.outcome.released { var _ := table.GiveUp(a.task, a.token, a.finishedAt); }
        return;
      }
      var _ := table.Reserve(a.task, a.token, e, a.reservedAt);
      match a.outcome {
        case ReserveRaised(_, released) =>
          if released { var _ := table.GiveUp(a.task, a.token, a.finishedAt); }
        case PublishRaised(accepted, released) =>
          if accepted { queue' := queue' + [Message(a.task, a.token)]; }
          if released { var _ := table.GiveUp(a.task, a.token, a.finishedAt); }
        case AcknowledgeRaised(applied) =>
          queue' := queue' + [Message(a.task, a.token)];
          if applied { var _ := table.Acknowledge(a.task, a.token, a.finishedAt); }
        case Done =>
          queue' := queue' + [Message(a.task, a.token)];
          var _ := table.Acknowledge(a.task, a.token, a.finishedAt);
          published := true;
      }
    }

    /** `_pump_once` over the tasks its SELECT returned; `queue` is the broker's queue. */
    method PumpOnce(table: TaskTable, attempts: seq<Attempt>, e: Epoch, queue: seq<Message>)
      returns (published: nat, queue': seq<Message>)
      requires PumpReady(table.rows, attempts)
      modifies table
      ensures table.rows == PumpedTable(old(table.rows), attempts, |attempts|, e)
      ensures queue' == queue + MessagesSent(attempts)
      ensures published == DoneCount(attempts)
    {
      published, queue' := 0, queue;
      var n := 0;
      while n < |attempts|
        invariant 0 <= n <= |attempts|
        invariant table.rows == PumpedTable(old(table.rows), attempts, n, e)
        invariant queue' == queue + MessagesSent(attempts[..n])
        invariant published == DoneCount(attempts[..n])
      {
        NextTaskUntouched(old(table.rows), attempts, n, e);
        assert attempts[..n + 1][..n] == attempts[..n];
        var ok;
        ok, queue' := PumpTask(table, attempts[n], e, queue');
        if ok { published := published + 1; }
        n := n + 1;
      }
      assert attempts[..n] == attempts;
    }

    /** One iteration of the recovery loop, on a row that has not changed since it was read. */
    method RecoverRow(table: TaskTable, t: TaskId, k: Token, l: Location, now: Time, e: Epoch, cfg: Timeouts)
      returns (changed: bool)
      requires t in table.rows && RecoverySelects(table.rows[t], now, e, cfg) && table.rows[t].token == Some(k)
      modifies this, table
      ensures var (verdict, obs) := Judge(old(table.rows)[t], k, l, old(observations), now, e, cfg);
        && observations == obs && changed == verdict.Release?
        && table.rows == old(table.rows)[t := RowAfterVerdict(old(table.rows)[t], verdict, now)]
    {
      var r := table.rows[t];
      VerdictHoldsOfTheRowRead(r, k, l, observations, now, e, cfg);
      var verdict := Keep;
      match BranchOf(r, now, e, cfg) {
        case ByAge(reason, condition) => verdict := Release(reason, condition);
        case TooYoung => observations := observations - {k};
        case Skip =>
        case Observe(legacy) =>
          if l.Queue? || l.Active? || l.Reserved? || l.Unknown? {
            observations := observations - {k};
          } else {
            var confirmed := ConfirmPublishedRecovery(k, l);
            if confirmed {
              verdict := Release(PublishedStale(l), if legacy then CondLegacyPublished else CondPublished);
            }
          }
      }
      changed := false;
      if verdict.Release? {
        changed := table.Recover(t, k, verdict.reason, verdict.condition, now, e, cfg);
      }
    }

    /** `_recover_dispatch_handoffs` over the rows its SELECT returned. Every verdict to release takes
        effect, whatever the other rows are. */
    method RecoverDispatchHandoffs(table: TaskTable, tasks: seq<TaskId>, seen: map<Token, Location>,
                                   now: Time, e: Epoch, cfg: Timeouts)
      returns (released: nat)
      requires RecoveryReady(table.rows, tasks, now, e, cfg)
      modifies this, table
      ensures observations == PassObservations(old(table.rows), tasks, |tasks|, old(observations), seen, now, e, cfg)
      ensures table.rows == RecoveredTable(old(table.rows), tasks, |tasks|, old(observations), seen, now, e, cfg)
      ensures released == ReleaseCount(old(table.rows), tasks, |tasks|, old(observations), seen, now, e, cfg)
    {
      released := 0;
      var n := 0;
      while n < |tasks|
        invariant 0 <= n <= |tasks|
        invariant observations == PassObservations(old(table.rows), tasks, n, old(observations), seen, now, e, cfg)
        invariant table.rows == RecoveredTable(old(table.rows), tasks, n, old(observations), seen, now, e, cfg)
        invariant released == ReleaseCount(old(table.rows), tasks, n, old(observations), seen, now, e, cfg)
      {
        var t := tasks[n];
        assert t !in tasks[..n];
        RecoveredTableElsewhere(old(table.rows), tasks, n, old(observations), seen, now, e, cfg, t);
        var k := table.rows[t].token.value;
        var changed := RecoverRow(table, t, k, Seen(seen, k), now, e, cfg);
        if changed { released := released + 1; }
        n := n + 1;
      }
    }

    /** The heartbeat half of `_stale_once`: exactly the due rows are reset, and every other row is left alone. */
    method ResetStale(table: TaskTable, tasks: seq<TaskId>, locked: set<TaskId>, now: Time, cfg: Timeouts)
      returns (reset: nat)
      requires Distinct(tasks)
      requires forall t :: t in tasks <==> t in table.rows && table.rows[t].status.Running? && !table.rows[t].isDeleted
      modifies table
      ensures table.rows == ResetTable(old(table.rows), Due(old(table.rows), locked, now, cfg), now)
      ensures reset == |Due(old(table.rows), locked, now, cfg)|
    {
      reset := 0;
      ghost var due, done := Due(table.rows, locked, now, cfg), {};
      var n := 0;
      while n < |tasks|
        invariant 0 <= n <= |tasks|
        invariant done == Among(tasks[..n], due)
        invariant table.rows == ResetTable(old(table.rows), done, now)
        invariant reset == |done|
      {
        var t := tasks[n];
        OneMoreRead(tasks, n, due);
        if HeartbeatStale(table.rows[t], now, cfg) && t !in locked {
          ResetOneMore(old(table.rows), done, t, now);
          table.rows := table.rows[t := StaleRow(table.rows[t], now)];
          reset := reset + 1;
          done := done + {t};
        }
        n := n + 1;
      }
      assert tasks[..n] == tasks;
      assert done == due;
    }
  }
}
