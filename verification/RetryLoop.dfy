/**
 The retry loop around one agent conversation (app/llm_retry.py:136-264): continue a cut-off answer, ask
 again after an empty one, roll back otherwise, compact the session once. What the agent answers to its
 n-th call, and whether the run is cancelled before it, are inputs.
 */
module RetryLoop {
  import opened Prelude

  datatype StopReason = Length | Error | Stopped | Silent

  /** `warned`: the parse check found fault, or raised. */
  datatype Outcome = Outcome(fatal: bool, warned: bool, hasText: bool, stop: StopReason)

  datatype Prompt = Original | Continue | EmptyOutput

  datatype Event = Call(prompt: Prompt) | SaveError(number: nat) | Compact | DropSession | RollBack

  datatype End = Cancelled | Fatal | Success | GaveUp

  datatype Config = Config(retryMax: int, mayCompact: bool, savesErrors: bool)

  datatype Loop =
    | Going(attempt: nat, cycleFails: nat, compacted: bool, hadPartial: bool, prompt: Prompt, log: seq<Event>)
    | Ended(end: End, log: seq<Event>)

  predicate Failed(o: Outcome) {
    !o.fatal && o.warned
  }

  /** What a failed call with budget left leads to: the session's fate and the next prompt. */
  function Recovery(o: Outcome): (seq<Event>, Prompt) {
    if o.stop.Length? || (o.stop.Error? && o.hasText) then ([], Continue)
    else if !o.hasText && o.stop.Stopped? then ([DropSession], EmptyOutput)
    else ([RollBack], Original)
  }

  /** One turn of the loop. */
  function Turn(cfg: Config, l: Loop, cancelled: bool, o: Outcome): Loop
    requires l.Going?
  {
    if cancelled then Ended(Cancelled, l.log)
    else
      var called := l.log + [Call(l.prompt)];
      if o.fatal then Ended(Fatal, called)
      else if !o.warned then Ended(Success, called)
      else
        var saved := called + if cfg.savesErrors then [SaveError(l.attempt + 1)] else [];
        if l.cycleFails + 1 >= cfg.retryMax then
          if cfg.mayCompact && !l.compacted && l.hadPartial
          then Going(l.attempt + 1, 0, true, l.hadPartial, Original, saved + [Compact])
          else Ended(GaveUp, saved)
        else
          Going(l.attempt + 1, l.cycleFails + 1, l.compacted, l.hadPartial || o.hasText, Recovery(o).1,
                saved + Recovery(o).0)
  }

  /** The loop after `n` turns; turn `n` is the call number `n`, counting from zero. */
  function After(cfg: Config, outcome: nat -> Outcome, cancelled: nat -> bool, n: nat): Loop {
    if n == 0 then Going(0, 0, false, false, Original, [])
    else
      var l := After(cfg, outcome, cancelled, n - 1);
      if l.Ended? then l else Turn(cfg, l, cancelled(n - 1), outcome(n - 1))
  }

  /** The loop itself; it always ends. */
  method RunWithRetry(cfg: Config, outcome: nat -> Outcome, cancelled: nat -> bool)
    returns (end: End, log: seq<Event>)
    ensures exists turns :: After(cfg, outcome, cancelled, turns) == Ended(end, log)
  {
    var attempt, cycleFails, compacted, hadPartial, prompt := 0, 0, false, false, Original;
    var n := 0;
    log := [];
    while true
      invariant After(cfg, outcome, cancelled, n) == Going(attempt, cycleFails, compacted, hadPartial, prompt, log)
      decreases !compacted, Max(0, cfg.retryMax - cycleFails)
    {
      var o := outcome(n);
      var stop := cancelled(n);
      n := n + 1;
      ghost var next := After(cfg, outcome, cancelled, n);
      if stop { return Cancelled, log; }
      log := log + [Call(prompt)];
      if o.fatal { return Fatal, log; }
      if !o.warned { return Success, log; }
      attempt, cycleFails := attempt + 1, cycleFails + 1;
      if cfg.savesErrors { log := log + [SaveError(attempt)]; }
      if cycleFails >= cfg.retryMax {
        if cfg.mayCompact && !compacted && hadPartial {
          log := log + [Compact];
          compacted, cycleFails, prompt := true, 0, Original;
          continue;
        }
        return GaveUp, log;
      }
      if o.hasText { hadPartial := true; }
      if o.stop.Length? || (o.stop.Error? && o.hasText) {
        prompt := Continue;
        continue;
      }
      if !o.hasText && o.stop.Stopped? {
        log, prompt := log + [DropSession], EmptyOutput;
        continue;
      }
      log, prompt := log + [RollBack], Original;
    }
  }

  // ---------------------------------------------------------------- what every run keeps

  function Calls(log: seq<Event>): nat {
    if log == [] then 0 else Calls(log[..|log| - 1]) + if log[|log| - 1].Call? then 1 else 0
  }

  function Compactions(log: seq<Event>): nat {
    if log == [] then 0 else Compactions(log[..|log| - 1]) + if log[|log| - 1].Compact? then 1 else 0
  }

  /** The numbers of the saved error sessions, in order. */
  function Saved(log: seq<Event>): seq<nat> {
    if log == [] then []
    else Saved(log[..|log| - 1]) + match log[|log| - 1] { case SaveError(n) => [n] case _ => [] }
  }

  function OneTo(n: nat): seq<nat> {
    seq(n, i => i + 1)
  }

  lemma CountsAppend(log: seq<Event>, e: Event)
    ensures Calls(log + [e]) == Calls(log) + if e.Call? then 1 else 0
    ensures Compactions(log + [e]) == Compactions(log) + if e.Compact? then 1 else 0
    ensures Saved(log + [e]) == Saved(log) + match e { case SaveError(n) => [n] case _ => [] }
  {
    assert (log + [e])[..|log|] == log;
  }

  /** The three counts of a log. */
  predicate Tally(log: seq<Event>, calls: nat, saved: seq<nat>, compactions: nat) {
    Calls(log) == calls && Saved(log) == saved && Compactions(log) == compactions
  }

  lemma TallyAppend(log: seq<Event>, calls: nat, saved: seq<nat>, compactions: nat, e: Event)
    requires Tally(log, calls, saved, compactions)
    ensures Tally(log + [e], calls + (if e.Call? then 1 else 0),
                  saved + (match e { case SaveError(n) => [n] case _ => [] }),
                  compactions + if e.Compact? then 1 else 0)
  {
    CountsAppend(log, e);
  }

  /** The calls `0..n` were made and all failed. */
  predicate AllFailed(outcome: nat -> Outcome, cancelled: nat -> bool, n: nat) {
    forall j: nat :: j < n ==> Failed(outcome(j)) && !cancelled(j)
  }

  predicate SomeText(outcome: nat -> Outcome, n: nat) {
    exists j: nat :: j < n && outcome(j).hasText
  }

  /** When the session is compacted: a whole cycle failed, and a failure before its last gave text. */
  predicate CompactionDue(cfg: Config, outcome: nat -> Outcome, cancelled: nat -> bool) {
    && cfg.mayCompact && cfg.retryMax >= 2
    && AllFailed(outcome, cancelled, cfg.retryMax) && SomeText(outcome, cfg.retryMax - 1)
  }

  function SavedUpTo(cfg: Config, n: nat): seq<nat> {
    if cfg.savesErrors then OneTo(n) else []
  }

  /** The log of a loop still going after `n` calls: each of them, its error session, the compaction. */
  predicate LogOnTrack(cfg: Config, n: nat, l: Loop) {
    l.Going? && l.attempt == n && Tally(l.log, n, SavedUpTo(cfg, n), if l.compacted then 1 else 0)
  }

  /** Its counters: all calls failed, and the budget of the present cycle is not used up. */
  predicate StateOnTrack(cfg: Config, outcome: nat -> Outcome, cancelled: nat -> bool, n: nat, l: Loop) {
    && l.Going? && AllFailed(outcome, cancelled, n)
    && if l.compacted
       then CompactionDue(cfg, outcome, cancelled) && n == cfg.retryMax + l.cycleFails && l.cycleFails < cfg.retryMax
       else l.cycleFails == n && (n == 0 || n < cfg.retryMax) && (l.hadPartial <==> SomeText(outcome, n))
  }

  /** The session files change, the counts do not. */
  lemma RecoveryTally(log: seq<Event>, calls: nat, saved: seq<nat>, compactions: nat, o: Outcome)
    requires Tally(log, calls, saved, compactions)
    ensures Tally(log + Recovery(o).0, calls, saved, compactions)
  {
    if Recovery(o).0 == [] {
      assert log + [] == log;
    } else {
      TallyAppend(log, calls, saved, compactions, Recovery(o).0[0]);
      assert saved + [] == saved;
    }
  }

  function CalledLog(l: Loop): seq<Event>
    requires l.Going?
  {
    l.log + [Call(l.prompt)]
  }

  function SavedLog(cfg: Config, l: Loop): seq<Event>
    requires l.Going?
  {
    CalledLog(l) + if cfg.savesErrors then [SaveError(l.attempt + 1)] else []
  }

  lemma TurnTally(cfg: Config, l: Loop, n: nat, compactions: nat)
    requires l.Going? && l.attempt == n && Tally(l.log, n, SavedUpTo(cfg, n), compactions)
    ensures Tally(CalledLog(l), n + 1, SavedUpTo(cfg, n), compactions)
    ensures Tally(SavedLog(cfg, l), n + 1, SavedUpTo(cfg, n + 1), compactions)
  {
    TallyAppend(l.log, n, SavedUpTo(cfg, n), compactions, Call(l.prompt));
    assert SavedUpTo(cfg, n) + [] == SavedUpTo(cfg, n);
    if cfg.savesErrors {
      TallyAppend(CalledLog(l), n + 1, SavedUpTo(cfg, n), compactions, SaveError(n + 1));
      assert OneTo(n) + [n + 1] == OneTo(n + 1);
    } else {
      assert CalledLog(l) + [] == CalledLog(l);
    }
  }

  lemma CompactingLog(cfg: Config, l: Loop, n: nat)
    requires LogOnTrack(cfg, n, l) && !l.compacted
    ensures Tally(SavedLog(cfg, l) + [Compact], n + 1, SavedUpTo(cfg, n + 1), 1)
  {
    TurnTally(cfg, l, n, 0);
    TallyAppend(SavedLog(cfg, l), n + 1, SavedUpTo(cfg, n + 1), 0, Compact);
    assert SavedUpTo(cfg, n + 1) + [] == SavedUpTo(cfg, n + 1);
  }

  lemma RecoveringLog(cfg: Config, l: Loop, n: nat, o: Outcome, compactions: nat)
    requires LogOnTrack(cfg, n, l) && compactions == if l.compacted then 1 else 0
    ensures Tally(SavedLog(cfg, l) + Recovery(o).0, n + 1, SavedUpTo(cfg, n + 1), compactions)
  {
    TurnTally(cfg, l, n, compactions);
    RecoveryTally(SavedLog(cfg, l), n + 1, SavedUpTo(cfg, n + 1), compactions, o);
  }

  /** What a turn that goes on appends to the log. */
  lemma TurnLog(cfg: Config, l: Loop, c: bool, o: Outcome)
    requires l.Going? && Turn(cfg, l, c, o).Going?
    ensures var l' := Turn(cfg, l, c, o);
      && l'.attempt == l.attempt + 1
      && (if l.cycleFails + 1 >= cfg.retryMax
          then !l.compacted && l'.compacted && l'.log == SavedLog(cfg, l) + [Compact]
          else l'.compacted == l.compacted && l'.log == SavedLog(cfg, l) + Recovery(o).0)
  {
  }

  lemma TurnKeepsLog(cfg: Config, n: nat, l: Loop, c: bool, o: Outcome)
    requires LogOnTrack(cfg, n, l) && Turn(cfg, l, c, o).Going?
    ensures LogOnTrack(cfg, n + 1, Turn(cfg, l, c, o))
  {
    TurnLog(cfg, l, c, o);
    if l.cycleFails + 1 >= cfg.retryMax {
      CompactingLog(cfg, l, n);
    } else {
      RecoveringLog(cfg, l, n, o, if l.compacted then 1 else 0);
    }
  }

  lemma SomeTextNext(outcome: nat -> Outcome, n: nat)
    ensures SomeText(outcome, n + 1) <==> SomeText(outcome, n) || outcome(n).hasText
  {
  }

  lemma TurnKeepsState(cfg: Config, outcome: nat -> Outcome, cancelled: nat -> bool, n: nat, l: Loop)
    requires StateOnTrack(cfg, outcome, cancelled, n, l) && Turn(cfg, l, cancelled(n), outcome(n)).Going?
    ensures StateOnTrack(cfg, outcome, cancelled, n + 1, Turn(cfg, l, cancelled(n), outcome(n)))
  {
    SomeTextNext(outcome, n);
    if l.cycleFails + 1 >= cfg.retryMax { assert n + 1 == cfg.retryMax; }
  }

  lemma {:induction false} LogsStayOnTrack(cfg: Config, outcome: nat -> Outcome, cancelled: nat -> bool, n: nat)
    requires After(cfg, outcome, cancelled, n).Going?
    ensures LogOnTrack(cfg, n, After(cfg, outcome, cancelled, n))
  {
    if n > 0 {
      LogsStayOnTrack(cfg, outcome, cancelled, n - 1);
      TurnKeepsLog(cfg, n - 1, After(cfg, outcome, cancelled, n - 1), cancelled(n - 1), outcome(n - 1));
    }
  }

  lemma {:induction false} StatesStayOnTrack(cfg: Config, outcome: nat -> Outcome, cancelled: nat -> bool, n: nat)
    requires After(cfg, outcome, cancelled, n).Going?
    ensures StateOnTrack(cfg, outcome, cancelled, n, After(cfg, outcome, cancelled, n))
  {
    if n > 0 {
      StatesStayOnTrack(cfg, outcome, cancelled, n - 1);
      TurnKeepsState(cfg, outcome, cancelled, n - 1, After(cfg, outcome, cancelled, n - 1));
    }
  }

  /** The turn on which the loop ended. */
  lemma {:induction false} LastTurn(cfg: Config, outcome: nat -> Outcome, cancelled: nat -> bool, n: nat) returns (m: nat)
    requires After(cfg, outcome, cancelled, n).Ended?
    ensures m < n && After(cfg, outcome, cancelled, m).Going?
    ensures Turn(cfg, After(cfg, outcome, cancelled, m), cancelled(m), outcome(m)) == After(cfg, outcome, cancelled, n)
  {
    if After(cfg, outcome, cancelled, n - 1).Going? { m := n - 1; } else { m := LastTurn(cfg, outcome, cancelled, n - 1); }
  }

  lemma NotDueUnlessCompacted(cfg: Config, outcome: nat -> Outcome, cancelled: nat -> bool, m: nat, l: Loop)
    requires StateOnTrack(cfg, outcome, cancelled, m, l) && Turn(cfg, l, cancelled(m), outcome(m)).Ended?
    ensures l.compacted <==> CompactionDue(cfg, outcome, cancelled)
  {
  }

  /** How a finished run ended; `m` is the number of its last turn, `cycles` that of its compactions. */
  predicate FinalState(cfg: Config, outcome: nat -> Outcome, cancelled: nat -> bool, m: nat, end: End, cycles: nat) {
    var budget := if cycles == 1 then 2 * cfg.retryMax else Max(1, cfg.retryMax);
    && cycles == (if CompactionDue(cfg, outcome, cancelled) then 1 else 0)
    && m < budget && AllFailed(outcome, cancelled, m)
    && match end
       case Cancelled => cancelled(m)
       case Fatal => outcome(m).fatal
       case Success => !outcome(m).fatal && !outcome(m).warned
       case GaveUp => Failed(outcome(m)) && m + 1 == budget
  }

  /** The counts of its log: every call made, an error session for every failed one. */
  predicate FinalLog(cfg: Config, m: nat, end: End, log: seq<Event>, cycles: nat) {
    Tally(log, if end.Cancelled? then m else m + 1, SavedUpTo(cfg, if end.GaveUp? then m + 1 else m), cycles)
  }

  lemma LastTurnState(cfg: Config, outcome: nat -> Outcome, cancelled: nat -> bool, m: nat, l: Loop)
    requires StateOnTrack(cfg, outcome, cancelled, m, l) && Turn(cfg, l, cancelled(m), outcome(m)).Ended?
    ensures FinalState(cfg, outcome, cancelled, m, Turn(cfg, l, cancelled(m), outcome(m)).end, if l.compacted then 1 else 0)
  {
    NotDueUnlessCompacted(cfg, outcome, cancelled, m, l);
  }

  lemma LastTurnLog(cfg: Config, m: nat, l: Loop, c: bool, o: Outcome)
    requires LogOnTrack(cfg, m, l) && Turn(cfg, l, c, o).Ended?
    ensures FinalLog(cfg, m, Turn(cfg, l, c, o).end, Turn(cfg, l, c, o).log, if l.compacted then 1 else 0)
  {
    TurnTally(cfg, l, m, if l.compacted then 1 else 0);
    EndedLog(cfg, l, c, o);
  }

  lemma EndedLog(cfg: Config, l: Loop, c: bool, o: Outcome)
    requires l.Going? && Turn(cfg, l, c, o).Ended?
    ensures var Ended(end, log) := Turn(cfg, l, c, o);
            log == if end.Cancelled? then l.log else if end.GaveUp? then SavedLog(cfg, l) else CalledLog(l)
  {
  }

  /** For every sequence of outcomes: one cycle of calls, or two when the session was compacted between
      them, and it is compacted at most once and exactly when due; the saved error sessions are numbered
      1, 2, 3, ... by the failed calls; and the loop gives up only when the last call of its budget failed. */
  lemma RetryBounds(cfg: Config, outcome: nat -> Outcome, cancelled: nat -> bool, n: nat) returns (m: nat, cycles: nat)
    requires After(cfg, outcome, cancelled, n).Ended?
    ensures var Ended(end, log) := After(cfg, outcome, cancelled, n);
      && FinalState(cfg, outcome, cancelled, m, end, cycles) && FinalLog(cfg, m, end, log, cycles)
      && Calls(log) <= 2 * Max(1, cfg.retryMax) && Compactions(log) == cycles <= 1
  {
    m := LastTurn(cfg, outcome, cancelled, n);
    var l := After(cfg, outcome, cancelled, m);
    cycles := if l.compacted then 1 else 0;
    StatesStayOnTrack(cfg, outcome, cancelled, m);
    LastTurnState(cfg, outcome, cancelled, m, l);
    LogsStayOnTrack(cfg, outcome, cancelled, m);
    LastTurnLog(cfg, m, l, cancelled(m), outcome(m));
  }

  /** With one try per cycle nothing is ever compacted: text is noted only after the budget check. */
  lemma SingleTryNeverCompacts(cfg: Config, outcome: nat -> Outcome, cancelled: nat -> bool, n: nat)
    requires After(cfg, outcome, cancelled, n).Ended? && cfg.retryMax <= 1
    ensures Compactions(After(cfg, outcome, cancelled, n).log) == 0 && Calls(After(cfg, outcome, cancelled, n).log) <= 1
  {
    var m, cycles := RetryBounds(cfg, outcome, cancelled, n);
  }

  // ---------------------------------------------------------------- the log, event by event

  /** What the agent is asked in call `j`: the original prompt at first and after a compaction; otherwise what the call
      before it needs: to go on after a cut-off answer, to answer after an empty one, and the original again. */
  function PromptFor(cfg: Config, outcome: nat -> Outcome, j: nat): Prompt {
    if j == 0 || j == cfg.retryMax then Original
    else
      var (stop, text) := (outcome(j - 1).stop, outcome(j - 1).hasText);
      match stop
      case Length => Continue
      case Error => if text then Continue else Original
      case Stopped => if text then Original else EmptyOutput
      case Silent => Original
  }

  /** What happens to the session between the failed call `j` and the next one. */
  function FateAfter(cfg: Config, outcome: nat -> Outcome, j: nat): seq<Event> {
    if j + 1 == cfg.retryMax then [Compact]
    else
      match PromptFor(cfg, outcome, j + 1)
      case Continue => []
      case EmptyOutput => [DropSession]
      case Original => [RollBack]
  }

  function ErrorSaved(cfg: Config, number: nat): seq<Event> {
    if cfg.savesErrors then [SaveError(number)] else []
  }

  /** The events of the first `n` calls, all of which failed. */
  function Transcript(cfg: Config, outcome: nat -> Outcome, n: nat): seq<Event> {
    if n == 0 then []
    else Transcript(cfg, outcome, n - 1) + [Call(PromptFor(cfg, outcome, n - 1))] + ErrorSaved(cfg, n) + FateAfter(cfg, outcome, n - 1)
  }

  lemma RecoveryExactly(cfg: Config, outcome: nat -> Outcome, j: nat)
    requires j + 1 != cfg.retryMax
    ensures Recovery(outcome(j)) == (FateAfter(cfg, outcome, j), PromptFor(cfg, outcome, j + 1))
  {
  }

  lemma {:induction false} TranscriptSoFar(cfg: Config, outcome: nat -> Outcome, cancelled: nat -> bool, n: nat)
    requires After(cfg, outcome, cancelled, n).Going?
    ensures var l := After(cfg, outcome, cancelled, n);
            l.attempt == n && l.log == Transcript(cfg, outcome, n) && l.prompt == PromptFor(cfg, outcome, n)
  {
    if n > 0 {
      TranscriptSoFar(cfg, outcome, cancelled, n - 1);
      StatesStayOnTrack(cfg, outcome, cancelled, n - 1);
      TurnTranscript(cfg, outcome, n - 1, After(cfg, outcome, cancelled, n - 1), cancelled(n - 1));
    }
  }

  lemma TurnTranscript(cfg: Config, outcome: nat -> Outcome, n: nat, l: Loop, c: bool)
    requires l.Going? && l.attempt == n && l.log == Transcript(cfg, outcome, n) && l.prompt == PromptFor(cfg, outcome, n)
    requires if l.compacted then n == cfg.retryMax + l.cycleFails else l.cycleFails == n && (n == 0 || n < cfg.retryMax)
    requires l.compacted ==> cfg.retryMax >= 2
    requires Turn(cfg, l, c, outcome(n)).Going? && (l.hadPartial && !l.compacted ==> n > 0)
    ensures var l' := Turn(cfg, l, c, outcome(n));
            l'.attempt == n + 1 && l'.log == Transcript(cfg, outcome, n + 1) && l'.prompt == PromptFor(cfg, outcome, n + 1)
  {
    TurnLog(cfg, l, c, outcome(n));
    if n + 1 == cfg.retryMax {
      assert FateAfter(cfg, outcome, n) == [Compact];
    } else {
      RecoveryExactly(cfg, outcome, n);
    }
  }

  /** The whole log of a finished run, for every sequence of outcomes: the transcript of the failed calls before the
      last, then the last call unless it was cancelled, with its error session if it failed too. */
  lemma LogIsTranscript(cfg: Config, outcome: nat -> Outcome, cancelled: nat -> bool, n: nat) returns (m: nat)
    requires After(cfg, outcome, cancelled, n).Ended?
    ensures var Ended(end, log) := After(cfg, outcome, cancelled, n);
      && AllFailed(outcome, cancelled, m)
      && log == Transcript(cfg, outcome, m) + match end {
           case Cancelled => []
           case GaveUp => [Call(PromptFor(cfg, outcome, m))] + ErrorSaved(cfg, m + 1)
           case _ => [Call(PromptFor(cfg, outcome, m))]
         }
  {
    m := LastTurn(cfg, outcome, cancelled, n);
    var l := After(cfg, outcome, cancelled, m);
    StatesStayOnTrack(cfg, outcome, cancelled, m);
    TranscriptSoFar(cfg, outcome, cancelled, m);
    EndedLog(cfg, l, cancelled(m), outcome(m));
  }
}
