/**
 The task row and every conditional UPDATE the dispatch protocol runs on it
 (app/dispatcher.py, app/service/execution_coordinator.py).

 A NULL column is `None`. Task ids, Celery ids, broker epochs and worker names are
 numbers here: the protocol only compares them. An epoch is never the empty string
 (app/dispatcher.py:82-95), so its truth test is the same as IS NOT NULL.
 */
module DispatchRows {
  import opened Prelude

  type TaskId = nat
  type Token = nat
  type Epoch = nat
  type Worker = nat
  type Time = int

  datatype TaskStatus = Pending | Running | Terminal
  // `Released` is the column value "pending", which a new or handed back row has; `Executing` is "running".
  datatype DispatchStatus = Released | Publishing | Published | Delivering | Leased | Executing
  datatype Location = Queue | Active | Reserved | Unacked | Missing | Unknown

  datatype Reason =
    | PublishFailed
    | EpochLost
    | PublishingTimeout
    | DeliveringTimeout
    | PublishedStale(location: Location)
    | LegacyAged

  datatype Row = Row(
    status: TaskStatus,
    isDeleted: bool,
    token: Option<Token>,
    dispatch: Option<DispatchStatus>,
    reservedAt: Option<Time>,
    publishedAt: Option<Time>,
    brokerEpoch: Option<Epoch>,
    deliveryStartedAt: Option<Time>,
    deliveryWorker: Option<Worker>,
    attempts: nat,
    lastError: Option<Reason>,
    owner: Option<Worker>,
    lease: Option<Time>,
    heartbeat: Option<Time>,
    execEpoch: nat,
    controlVersion: nat,
    updatedAt: Time,
    orchestrated: bool)

  /** The five timeouts the dispatcher reads from its environment. */
  datatype Timeouts = Timeouts(
    publishing: Time, delivering: Time, published: Time, legacy: Time, heartbeat: Time)

  // ---------------------------------------------------------------- pump

  predicate PumpEligible(r: Row) {
    r.status.Pending? && !r.isDeleted && r.token.None?
  }

  function ReserveRow(r: Row, k: Token, e: Epoch, now: Time): Row {
    r.(token := Some(k), dispatch := Some(Publishing), reservedAt := Some(now), publishedAt := None,
       brokerEpoch := Some(e), deliveryStartedAt := None, deliveryWorker := None,
       attempts := r.attempts + 1, lastError := None, updatedAt := now)
  }

  /** The acknowledgement checks the token and the dispatch state, not the task status. */
  predicate AckMatches(r: Row, k: Token) {
    r.token == Some(k) && r.dispatch == Some(Publishing)
  }

  function AckRow(r: Row, now: Time): Row {
    r.(dispatch := Some(Published), publishedAt := Some(now), lastError := None, updatedAt := now)
  }

  predicate ReleaseMatches(r: Row, k: Token) {
    r.status.Pending? && r.token == Some(k) && r.dispatch == Some(Publishing)
  }

  /** What both release UPDATEs write: the reservation columns go back to NULL. */
  function FreeRow(r: Row, reason: Reason, now: Time): Row {
    r.(token := None, dispatch := Some(Released), reservedAt := None, publishedAt := None,
       brokerEpoch := None, deliveryStartedAt := None, deliveryWorker := None,
       lastError := Some(reason), updatedAt := now)
  }

  // ---------------------------------------------------------------- worker

  predicate HandoffMatches(r: Row, k: Token) {
    && r.status.Pending? && !r.isDeleted && r.token == Some(k)
    && (r.dispatch == Some(Publishing) || r.dispatch == Some(Published))
    && r.owner.None? && r.lease.None?
  }

  function HandoffRow(r: Row, w: Worker, now: Time): Row {
    r.(dispatch := Some(Delivering), deliveryStartedAt := Some(now), deliveryWorker := Some(w), updatedAt := now)
  }

  predicate LeaseExpired(r: Row, now: Time) {
    r.lease.None? || r.lease.value < now
  }

  /** The SELECT half of `claim_specific_task`: the status the UPDATE will insist on, if any. */
  function ClaimExpects(r: Row, k: Token, allowPending: bool, now: Time): Option<TaskStatus> {
    if r.isDeleted || r.token != Some(k) then None
    else if r.status.Pending? && allowPending then Some(Pending)
    else if r.status.Running? && LeaseExpired(r, now) then Some(Running)
    else None
  }

  predicate ClaimMatches(r: Row, k: Token, expected: TaskStatus, readAt: Time) {
    && !r.isDeleted && r.status == expected && r.token == Some(k)
    && (expected.Running? ==> LeaseExpired(r, readAt))
  }

  function ClaimRow(r: Row, expected: TaskStatus, epoch: nat, w: Worker, orchestrated: bool,
                    readAt: Time, leaseUntil: Time, now: Time): Row {
    r.(status := if expected.Running? && !orchestrated then Pending else expected,
       owner := Some(w), lease := Some(leaseUntil), heartbeat := Some(readAt), execEpoch := epoch,
       dispatch := Some(Leased), updatedAt := now)
  }

  predicate OwnedBy(r: Row, w: Worker, epoch: nat, version: nat) {
    !r.isDeleted && r.owner == Some(w) && r.execEpoch == epoch && r.controlVersion == version
  }

  predicate BeginMatches(r: Row, w: Worker, epoch: nat, version: nat) {
    OwnedBy(r, w, epoch, version) && (r.status.Pending? || r.status.Running?)
  }

  function BeginRow(r: Row, now: Time): Row {
    r.(status := Running, dispatch := Some(Executing), updatedAt := now)
  }

  function FinishRow(r: Row, now: Time): Row {
    r.(status := Terminal, owner := None, lease := None, heartbeat := None, dispatch := None, updatedAt := now)
  }

  function RenewRow(r: Row, leaseUntil: Time, now: Time): Row {
    r.(lease := Some(leaseUntil), heartbeat := Some(now), updatedAt := now)
  }

  /** `recover_running_task_if_owner`: a worker that cannot finish gives the task back. */
  function GiveBackRow(r: Row, now: Time): Row {
    r.(status := Pending, owner := None, lease := None, heartbeat := None, dispatch := Some(Released),
       token := None, reservedAt := None, publishedAt := None, brokerEpoch := None,
       deliveryStartedAt := None, deliveryWorker := None, lastError := None, updatedAt := now)
  }

  /** `release_lease` checks owner and epoch only, whatever the status is. */
  predicate ReleaseLeaseMatches(r: Row, w: Worker, epoch: nat) {
    r.owner == Some(w) && r.execEpoch == epoch
  }

  function ReleaseLeaseRow(r: Row, now: Time): Row {
    r.(owner := None, lease := None, dispatch := None, updatedAt := now)
  }

  // ---------------------------------------------------------------- stale heartbeat reset

  predicate HeartbeatStale(r: Row, now: Time, cfg: Timeouts) {
    r.heartbeat.None? || now - r.heartbeat.value > cfg.heartbeat
  }

  predicate StaleSelected(r: Row, now: Time, cfg: Timeouts) {
    r.status.Running? && !r.isDeleted && HeartbeatStale(r, now, cfg)
  }

  /** The write is keyed by the row id alone: nothing read earlier is checked again. */
  function StaleRow(r: Row, now: Time): Row {
    r.(status := Pending, token := None, owner := None, lease := None, dispatch := None, reservedAt := None,
       publishedAt := None, brokerEpoch := None, deliveryStartedAt := None, deliveryWorker := None,
       updatedAt := now)
  }

  // ---------------------------------------------------------------- control plane

  function RestartRow(r: Row, now: Time): Row {
    r.(status := Pending, owner := None, execEpoch := 0, lease := None, heartbeat := None,
       controlVersion := r.controlVersion + 1, dispatch := Some(Released), token := None, reservedAt := None,
       publishedAt := None, brokerEpoch := None, deliveryStartedAt := None, deliveryWorker := None,
       lastError := None, updatedAt := now)
  }

  function CancelRow(r: Row, now: Time): Row {
    r.(status := Terminal, owner := None, execEpoch := r.execEpoch + 1, lease := None, heartbeat := None,
       controlVersion := r.controlVersion + 1, dispatch := None, token := None, reservedAt := None,
       publishedAt := None, brokerEpoch := None, deliveryStartedAt := None, deliveryWorker := None,
       lastError := None, updatedAt := now)
  }

  // ---------------------------------------------------------------- aged handoff recovery

  predicate Before(t: Option<Time>, cutoff: Time) {
    t.Some? && t.value < cutoff
  }

  predicate EpochChanged(r: Row, e: Epoch) {
    r.brokerEpoch.Some? && r.brokerEpoch.value != e
  }

  predicate PublishingAged(r: Row, now: Time, cfg: Timeouts) {
    r.dispatch == Some(Publishing) && Before(r.reservedAt, now - cfg.publishing)
  }

  predicate DeliveringAged(r: Row, now: Time, cfg: Timeouts) {
    r.dispatch == Some(Delivering) && Before(r.deliveryStartedAt, now - cfg.delivering)
  }

  predicate PublishedAged(r: Row, now: Time, cfg: Timeouts) {
    r.dispatch == Some(Published) && Before(r.publishedAt, now - cfg.published)
  }

  predicate LegacyUnstamped(r: Row, now: Time, cfg: Timeouts) {
    && r.reservedAt.None? && r.brokerEpoch.None? && r.deliveryStartedAt.None?
    && r.updatedAt < now - cfg.legacy
  }

  predicate LegacyPublishedAged(r: Row, now: Time, cfg: Timeouts) {
    r.dispatch == Some(Published) && r.brokerEpoch.None? && Before(r.publishedAt, now - cfg.legacy)
  }

  predicate Unclaimed(r: Row) {
    r.status.Pending? && !r.isDeleted && r.token.Some? && r.owner.None? && r.lease.None?
  }

  /** The SELECT of the recovery pass. */
  predicate RecoverySelects(r: Row, now: Time, e: Epoch, cfg: Timeouts) {
    Unclaimed(r)
    && (EpochChanged(r, e) || PublishingAged(r, now, cfg) || DeliveringAged(r, now, cfg)
        || PublishedAged(r, now, cfg) || LegacyUnstamped(r, now, cfg) || LegacyPublishedAged(r, now, cfg))
  }

  /** Which `state_condition` a pass puts into its UPDATE. */
  datatype Condition = CondEpochLost | CondPublishing | CondDelivering | CondPublished | CondLegacyPublished | CondLegacy

  predicate Holds(c: Condition, r: Row, now: Time, e: Epoch, cfg: Timeouts) {
    match c
    case CondEpochLost => EpochChanged(r, e)
    case CondPublishing => PublishingAged(r, now, cfg)
    case CondDelivering => DeliveringAged(r, now, cfg)
    case CondPublished => PublishedAged(r, now, cfg)
    case CondLegacyPublished => LegacyPublishedAged(r, now, cfg)
    case CondLegacy => LegacyUnstamped(r, now, cfg)
  }

  /** The WHERE clause of the recovery UPDATE, rechecked against the current row. */
  predicate RecoveryMatches(r: Row, k: Token, c: Condition, now: Time, e: Epoch, cfg: Timeouts) {
    Unclaimed(r) && r.token == Some(k) && Holds(c, r, now, e, cfg)
  }

  type Observations = map<Token, (Location, nat)>

  const CONFIRMATIONS := 2

  function Forget(obs: Observations, k: Token): Observations {
    obs - {k}
  }

  /** `_confirm_published_recovery`: the answer and the map it leaves behind. */
  function Confirm(obs: Observations, k: Token, l: Location): (bool, Observations) {
    if !(l.Unacked? || l.Missing?) then (false, Forget(obs, k))
    else
      var count := if k in obs && obs[k].0 == l then obs[k].1 + 1 else 1;
      if count < CONFIRMATIONS then (false, obs[k := (l, count)]) else (true, Forget(obs, k))
  }

  /** The branch a recovery pass takes on a row it read. */
  datatype Branch = ByAge(reason: Reason, condition: Condition) | Observe(legacy: bool) | TooYoung | Skip

  function BranchOf(r: Row, now: Time, e: Epoch, cfg: Timeouts): Branch {
    if EpochChanged(r, e) then ByAge(EpochLost, CondEpochLost)
    else if PublishingAged(r, now, cfg) then ByAge(PublishingTimeout, CondPublishing)
    else if DeliveringAged(r, now, cfg) then ByAge(DeliveringTimeout, CondDelivering)
    else if PublishedAged(r, now, cfg) then
      if r.brokerEpoch.None? && r.publishedAt.value >= now - cfg.legacy then TooYoung
      else Observe(r.brokerEpoch.None?)
    else if LegacyUnstamped(r, now, cfg) then ByAge(LegacyAged, CondLegacy)
    else Skip
  }

  datatype Verdict = Keep | Release(reason: Reason, condition: Condition)

  /** One iteration of the recovery loop, up to its UPDATE: the verdict and the observation map. */
  function Judge(r: Row, k: Token, l: Location, obs: Observations, now: Time, e: Epoch, cfg: Timeouts)
    : (Verdict, Observations)
  {
    match BranchOf(r, now, e, cfg)
    case ByAge(reason, condition) => (Release(reason, condition), obs)
    case TooYoung => (Keep, Forget(obs, k))
    case Skip => (Keep, obs)
    case Observe(legacy) =>
      if l.Queue? || l.Active? || l.Reserved? || l.Unknown? then (Keep, Forget(obs, k))
      else
        var (confirmed, obs') := Confirm(obs, k, l);
        if confirmed
        then (Release(PublishedStale(l), if legacy then CondLegacyPublished else CondPublished), obs')
        else (Keep, obs')
  }

  /** A verdict to release is never wasted: the condition put into the UPDATE held of the row
      that was read, so the UPDATE misses only if the row changed in between. */
  lemma VerdictHoldsOfTheRowRead(r: Row, k: Token, l: Location, obs: Observations, now: Time, e: Epoch, cfg: Timeouts)
    requires RecoverySelects(r, now, e, cfg) && r.token == Some(k)
    ensures var v := Judge(r, k, l, obs, now, e, cfg).0;
            v.Release? ==> RecoveryMatches(r, k, v.condition, now, e, cfg)
  {
    var v := Judge(r, k, l, obs, now, e, cfg).0;
    if v.Release? && BranchOf(r, now, e, cfg).Observe? {
      assert PublishedAged(r, now, cfg);
    }
  }

  // ---------------------------------------------------------------- observations over many passes

  /** One row seen by one recovery pass of a dispatcher. */
  datatype Sighting = Sighting(row: Row, token: Token, location: Location, now: Time, epoch: Epoch)

  function ObservationsAfter(sightings: seq<Sighting>, cfg: Timeouts): Observations {
    if sightings == [] then map[]
    else
      var s := sightings[|sightings| - 1];
      Judge(s.row, s.token, s.location, ObservationsAfter(sightings[..|sightings| - 1], cfg), s.now, s.epoch, cfg).1
  }

  function VerdictAt(sightings: seq<Sighting>, n: nat, cfg: Timeouts): Verdict
    requires n < |sightings|
  {
    var s := sightings[n];
    Judge(s.row, s.token, s.location, ObservationsAfter(sightings[..n], cfg), s.now, s.epoch, cfg).0
  }

  /** What a pass learnt about a published message: where it was, or (for a legacy row that is
      still too young) nothing, which also breaks a streak. */
  function LearntFrom(s: Sighting, cfg: Timeouts): Option<Location> {
    match BranchOf(s.row, s.now, s.epoch, cfg)
    case Observe(_) => Some(s.location)
    case TooYoung => Some(Unknown)
    case _ => None
  }

  /** The locations reported for one token, oldest first. */
  function History(sightings: seq<Sighting>, k: Token, cfg: Timeouts): seq<Location> {
    if sightings == [] then []
    else
      var s := sightings[|sightings| - 1];
      var before := History(sightings[..|sightings| - 1], k, cfg);
      if s.token == k && LearntFrom(s, cfg).Some? then before + [LearntFrom(s, cfg).value] else before
  }

  /** How many times in a row the last report repeats at the end of the history. */
  function Streak(h: seq<Location>): nat {
    if h == [] then 0
    else if |h| > 1 && h[|h| - 2] == h[|h| - 1] then Streak(h[..|h| - 1]) + 1
    else 1
  }

  predicate Lost(l: Location) {
    l.Unacked? || l.Missing?
  }

  /** A token is remembered, with count one, exactly after an odd streak of one lost location. */
  predicate Tells(obs: Observations, k: Token, h: seq<Location>) {
    TellsStreak(obs, k, if h == [] then None else Some(h[|h| - 1]), Streak(h))
  }

  predicate TellsStreak(obs: Observations, k: Token, last: Option<Location>, n: nat) {
    && (k in obs <==> last.Some? && Lost(last.value) && n % 2 == 1)
    && (k in obs ==> obs[k] == (last.value, 1))
  }

  lemma ConfirmTellsStreak(obs: Observations, k: Token, l: Location, last: Option<Location>, n: nat)
    requires TellsStreak(obs, k, last, n)
    ensures var n' := if last == Some(l) then n + 1 else 1;
            (Confirm(obs, k, l).0 <==> Lost(l) && n' % 2 == 0) && TellsStreak(Confirm(obs, k, l).1, k, Some(l), n')
  {
  }

  lemma ConfirmFollowsHistory(obs: Observations, k: Token, l: Location, h: seq<Location>)
    requires Tells(obs, k, h)
    ensures Confirm(obs, k, l).0 <==> Lost(l) && Streak(h + [l]) % 2 == 0
    ensures Tells(Confirm(obs, k, l).1, k, h + [l])
  {
    StreakExtends(h, l);
    ConfirmTellsStreak(obs, k, l, if h == [] then None else Some(h[|h| - 1]), Streak(h));
  }

  lemma JudgeLearns(s: Sighting, obs: Observations, cfg: Timeouts)
    ensures Judge(s.row, s.token, s.location, obs, s.now, s.epoch, cfg).1
         == if LearntFrom(s, cfg).None? then obs else Confirm(obs, s.token, LearntFrom(s, cfg).value).1
  {
  }

  /** The whole observation map is a function of the history: a token is remembered, with count
      one, exactly after an odd streak of "unacked" or of "missing" reports. */
  lemma {:induction false} ObservationsFollowHistory(sightings: seq<Sighting>, k: Token, cfg: Timeouts)
    ensures var h := History(sightings, k, cfg);
            var obs := ObservationsAfter(sightings, cfg);
            && (k in obs <==> h != [] && Lost(h[|h| - 1]) && Streak(h) % 2 == 1)
            && (k in obs ==> obs[k] == (h[|h| - 1], 1))
  {
    if sightings != [] {
      var (before, s) := (sightings[..|sightings| - 1], sightings[|sightings| - 1]);
      ObservationsFollowHistory(before, k, cfg);
      JudgeLearns(s, ObservationsAfter(before, cfg), cfg);
      if s.token == k && LearntFrom(s, cfg).Some? {
        ConfirmFollowsHistory(ObservationsAfter(before, cfg), k, LearntFrom(s, cfg).value, History(before, k, cfg));
      }
    }
  }

  lemma StreakOfTwo(h: seq<Location>)
    requires h != [] && Streak(h) % 2 == 0
    ensures |h| >= 2 && h[|h| - 2] == h[|h| - 1]
  {
  }

  lemma StreakExtends(h: seq<Location>, l: Location)
    ensures Streak(h + [l]) == if h != [] && h[|h| - 1] == l then Streak(h) + 1 else 1
  {
    assert (h + [l])[..|h|] == h;
  }

  lemma HistoryGrows(sightings: seq<Sighting>, n: nat, cfg: Timeouts)
    requires n < |sightings| && LearntFrom(sightings[n], cfg).Some?
    ensures var k := sightings[n].token;
            History(sightings[..n + 1], k, cfg) == History(sightings[..n], k, cfg) + [LearntFrom(sightings[n], cfg).value]
  {
    assert sightings[..n + 1][..n] == sightings[..n];
  }

  lemma VerdictOfPublished(s: Sighting, obs: Observations, cfg: Timeouts)
    requires s.row.dispatch == Some(Published) && s.row.reservedAt.Some? && s.row.brokerEpoch.Some?
    ensures Judge(s.row, s.token, s.location, obs, s.now, s.epoch, cfg).0.Release? <==>
            EpochChanged(s.row, s.epoch) || (PublishedAged(s.row, s.now, cfg) && Confirm(obs, s.token, s.location).0)
    ensures !EpochChanged(s.row, s.epoch) && PublishedAged(s.row, s.now, cfg) ==> LearntFrom(s, cfg) == Some(s.location)
  {
  }

  lemma ReleasedByHistory(s: Sighting, obs: Observations, h0: seq<Location>, cfg: Timeouts)
    requires s.row.dispatch == Some(Published) && s.row.reservedAt.Some? && s.row.brokerEpoch.Some?
    requires Tells(obs, s.token, h0)
    ensures var h := h0 + [s.location];
            var released := Judge(s.row, s.token, s.location, obs, s.now, s.epoch, cfg).0.Release?;
            && (released <==> EpochChanged(s.row, s.epoch)
                              || (PublishedAged(s.row, s.now, cfg) && Lost(s.location) && Streak(h) % 2 == 0))
            && (released && !EpochChanged(s.row, s.epoch) ==> |h| >= 2 && h[|h| - 2] == h[|h| - 1])
  {
    VerdictOfPublished(s, obs, cfg);
    ConfirmFollowsHistory(obs, s.token, s.location, h0);
    if Streak(h0 + [s.location]) % 2 == 0 { StreakOfTwo(h0 + [s.location]); }
  }

  /** Over any sequence of recovery passes of one dispatcher: a published row of the current epoch
      is released exactly when it is past the age cutoff, its last report is "unacked" or "missing",
      and that report closes an even streak, so the report before it was the same. A changed epoch
      is the only other way out. */
  lemma PublishedReleaseNeedsTwoEqualReports(sightings: seq<Sighting>, n: nat, cfg: Timeouts)
    requires n < |sightings|
    requires sightings[n].row.dispatch == Some(Published)
    requires sightings[n].row.reservedAt.Some? && sightings[n].row.brokerEpoch.Some?
    ensures var s := sightings[n];
            var h := History(sightings[..n + 1], s.token, cfg);
            VerdictAt(sightings, n, cfg).Release? <==>
            (EpochChanged(s.row, s.epoch)
             || (PublishedAged(s.row, s.now, cfg) && h != [] && h[|h| - 1] == s.location
                 && Lost(s.location) && Streak(h) % 2 == 0))
    ensures var s := sightings[n];
            var h := History(sightings[..n + 1], s.token, cfg);
            VerdictAt(sightings, n, cfg).Release? && !EpochChanged(s.row, s.epoch) ==>
              && PublishedAged(s.row, s.now, cfg)
              && |h| >= 2 && h[|h| - 2] == h[|h| - 1] == s.location && Lost(s.location)
  {
    var s := sightings[n];
    var h := History(sightings[..n + 1], s.token, cfg);
    var h0 := History(sightings[..n], s.token, cfg);
    ObservationsFollowHistory(sightings[..n], s.token, cfg);
    ReleasedByHistory(s, ObservationsAfter(sightings[..n], cfg), h0, cfg);
    if !EpochChanged(s.row, s.epoch) && PublishedAged(s.row, s.now, cfg) {
      VerdictOfPublished(s, ObservationsAfter(sightings[..n], cfg), cfg);
      HistoryGrows(sightings, n, cfg);
      assert h == h0 + [s.location];
    }
  }
}
