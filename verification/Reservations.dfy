/**
 The reservation table every task shares: one row per (function, taint signature, task), taken before
 an analysis and given back when it fails (app/dagflow/dag_mysql_store.py:120-162,
 app/dagflow/dedup.py:15-27, app/dagflow/dag_store.py:68-84, app/dagflow/orchestrator.py:82-126), and the
 readiness query over it (app/dagflow/trigger.py:12-42). Every SQL statement is one atomic step.
 */
module Reservations {
  import opened Prelude
  import opened TaintDag

  type Task = string
  type Worker = nat

  datatype Pair = Pair(funcId: string, signature: string)
  type Table = set<(Pair, Task)>

  predicate Processed(rows: Table, k: Pair) {
    exists r <- rows :: r.0 == k
  }

  function ReservedBy(rows: Table, k: Pair, t: Task): Table {
    if Processed(rows, k) then rows else rows + {(k, t)}
  }

  function Cleared(rows: Table, t: Task): Table {
    set r | r in rows && r.1 != t
  }

  /** What becomes of an analysis once its pair is reserved. */
  datatype Analysis = NoFunction | Raised | Finished(dag: Dag)

  /** One store handle: its task, and whether the cross-task switch is on. */
  class Store {
    const task: Task
    const dedup: bool
    var rows: Table

    constructor (task: Task, dedup: bool, rows: Table)
      ensures this.task == task && this.dedup == dedup && this.rows == rows
    {
      this.task, this.dedup, this.rows := task, dedup, rows;
    }

    method FindProcessed(k: Pair) returns (found: bool)
      ensures found <==> dedup && Processed(rows, k)
    {
      found := dedup && Processed(rows, k);
    }

    method TryReserve(k: Pair) returns (ok: bool)
      modifies this
      ensures ok <==> !dedup || !Processed(old(rows), k)
      ensures rows == if dedup then ReservedBy(old(rows), k, task) else old(rows)
    {
      if !dedup { return true; }
      ok := !Processed(rows, k);
      if ok { rows := rows + {(k, task)}; }
    }

    method DeleteProcessed(k: Pair)
      modifies this
      ensures rows == if dedup then old(rows) - {(k, task)} else old(rows)
    {
      if dedup { rows := rows - {(k, task)}; }
    }

    /** `reserve_or_skip`: true is a licence to analyse, and with the switch on it is given only to the
        caller whose row it put in; with the switch off everybody gets one and nothing is recorded. */
    method ReserveOrSkip(k: Pair) returns (mine: bool)
      modifies this
      ensures dedup && mine ==> !Processed(old(rows), k) && rows == old(rows) + {(k, task)}
      ensures dedup && !mine ==> Processed(old(rows), k) && rows == old(rows)
      ensures !dedup ==> mine && rows == old(rows)
    {
      var found := FindProcessed(k);
      if found { return false; }
      mine := TryReserve(k);
    }

    method ReleaseOnFailure(k: Pair)
      modifies this
      ensures rows == if dedup then old(rows) - {(k, task)} else old(rows)
    {
      DeleteProcessed(k);
    }

    /** `_analyze_or_replay`: a DAG is analysed afresh only for a pair found free, which then is reserved for
        good; an attempt that fails, at either place, leaves the table as it was. */
    method AnalyzeOrReplay(k: Pair, analysis: Analysis) returns (made: Option<Dag>, replay: bool)
      modifies this
      ensures replay <==> dedup && Processed(old(rows), k)
      ensures made == if !replay && analysis.Finished? then Some(analysis.dag) else None
      ensures rows == if made.Some? && dedup then old(rows) + {(k, task)} else old(rows)
    {
      made, replay := None, false;
      var found := FindProcessed(k);
      if found { return None, true; }
      var mine := ReserveOrSkip(k);
      if !mine { return; }
      match analysis {
        case NoFunction => ReleaseOnFailure(k);
        case Raised => ReleaseOnFailure(k);
        case Finished(dag) => made := Some(dag);
      }
    }
  }

  // ---------------------------------------------------------------- many workers of many tasks

  /** Where a worker stands: it saw no row for the pair; it analyses it; its analysis has failed and
      the row is still to be deleted. */
  datatype Phase =
    | Looked(task: Task, pair: Pair)
    | Analysing(task: Task, pair: Pair)
    | Failed(task: Task, pair: Pair)

  /** Beside the table and the workers: the analyses whose DAG was saved, and the rows whose worker died
      (or whose save raised) before saving or releasing. Only `rows` can be queried. */
  datatype State = State(rows: Table, workers: map<Worker, Phase>, analysed: map<(Pair, Task), Dag>, abandoned: Table)

  datatype Step =
    | Look(worker: Worker, task: Task, pair: Pair)
    | Reserve(worker: Worker)
    | Finish(worker: Worker, dag: Dag)
    | Fail(worker: Worker)
    | Release(worker: Worker)
    | Die(worker: Worker)
    | Clear(task: Task)

  predicate Holds(s: State, w: Worker) {
    w in s.workers && !s.workers[w].Looked?
  }

  /** No analysis of the task is under way. */
  predicate Quiet(s: State, t: Task) {
    forall w <- s.workers :: Holds(s, w) ==> s.workers[w].task != t
  }

  /** The key an analysis saves its DAG under: the empty signature becomes "auto"
      (app/dagflow/taint_analyzer.py:139-140). */
  function SavedAs(k: Pair): Pair {
    if k.signature == "" then Pair(k.funcId, "auto") else k
  }

  /** Without the guard on `Clear`, a restart may clear a task that is still analysing. */
  predicate Possible(s: State, step: Step) {
    match step
    case Look(w, _, _) => w !in s.workers
    case Reserve(w) => w in s.workers && s.workers[w].Looked?
    case Finish(w, dag) =>
      w in s.workers && s.workers[w].Analysing? && Pair(dag.funcId, dag.signature) == SavedAs(s.workers[w].pair)
    case Fail(w) => w in s.workers && s.workers[w].Analysing?
    case Release(w) => w in s.workers && s.workers[w].Failed?
    case Die(w) => w in s.workers
    case Clear(_) => true
  }

  predicate Enabled(s: State, step: Step) {
    Possible(s, step) && (step.Clear? ==> Quiet(s, step.task))
  }

  function Apply(s: State, step: Step): State
    requires Possible(s, step)
  {
    match step
    case Look(w, t, k) => if Processed(s.rows, k) then s else s.(workers := s.workers[w := Looked(t, k)])
    case Reserve(w) =>
      var (t, k) := (s.workers[w].task, s.workers[w].pair);
      if Processed(s.rows, k) then s.(workers := s.workers - {w})
      else s.(rows := s.rows + {(k, t)}, workers := s.workers[w := Analysing(t, k)])
    case Finish(w, dag) => s.(workers := s.workers - {w}, analysed := s.analysed[RowOf(s.workers[w]) := dag])
    case Fail(w) => s.(workers := s.workers[w := Failed(s.workers[w].task, s.workers[w].pair)])
    case Release(w) => s.(rows := s.rows - {RowOf(s.workers[w])}, workers := s.workers - {w})
    case Die(w) =>
      s.(workers := s.workers - {w}, abandoned := s.abandoned + if Holds(s, w) then {RowOf(s.workers[w])} else {})
    case Clear(t) =>
      s.(rows := Cleared(s.rows, t), abandoned := Cleared(s.abandoned, t),
         analysed := map r | r in s.analysed && r.1 != t :: s.analysed[r])
  }

  function RowOf(p: Phase): (Pair, Task) {
    (p.pair, p.task)
  }

  predicate ValidRun(s: State, steps: seq<Step>)
    decreases |steps|
  {
    steps == [] || (Enabled(s, steps[0]) && ValidRun(Apply(s, steps[0]), steps[1..]))
  }

  function After(s: State, steps: seq<Step>): State
    requires ValidRun(s, steps)
    decreases |steps|
  {
    if steps == [] then s else After(Apply(s, steps[0]), steps[1..])
  }

  const INITIAL := State({}, map[], map[], {})

  /** At most one row per pair over all tasks. */
  predicate OneRowEach(rows: Table) {
    forall r <- rows, r' <- rows :: r.0 == r'.0 ==> r == r'
  }

  predicate HoldersHaveRows(s: State) {
    forall w <- s.workers :: Holds(s, w) ==> (s.workers[w].pair, s.workers[w].task) in s.rows
  }

  /** No two workers, of one task or of two, analyse the same pair. */
  predicate Exclusive(s: State) {
    forall w <- s.workers, v <- s.workers :: Holds(s, w) && Holds(s, v) && s.workers[w].pair == s.workers[v].pair ==> w == v
  }

  /** Every row is there for one reason: its analysis is under way, was saved, or was abandoned. */
  predicate Accounted(s: State) {
    && s.analysed.Keys <= s.rows && s.abandoned <= s.rows && s.analysed.Keys !! s.abandoned
    && (forall w <- s.workers :: Holds(s, w) ==> RowOf(s.workers[w]) !in s.analysed && RowOf(s.workers[w]) !in s.abandoned)
    && (forall r <- s.rows :: r in s.analysed || r in s.abandoned || exists w <- s.workers :: Holds(s, w) && RowOf(s.workers[w]) == r)
  }

  predicate Inv(s: State) {
    OneRowEach(s.rows) && HoldersHaveRows(s) && Exclusive(s)
  }

  lemma StepKeepsAccounts(s: State, step: Step)
    requires Inv(s) && Accounted(s) && Enabled(s, step)
    ensures Accounted(Apply(s, step))
  {
    var s' := Apply(s, step);
    forall r | r in s'.rows
      ensures r in s'.analysed || r in s'.abandoned || exists w <- s'.workers :: Holds(s', w) && RowOf(s'.workers[w]) == r
    {
      if r in s.rows && r !in s.analysed && r !in s.abandoned {
        var w :| w in s.workers && Holds(s, w) && RowOf(s.workers[w]) == r;
        assert w in s'.workers ==> Holds(s', w) && RowOf(s'.workers[w]) == r;
      } else if r !in s.rows {
        assert Holds(s', step.worker);
      }
    }
    forall w | w in s'.workers && Holds(s', w)
      ensures RowOf(s'.workers[w]) !in s'.analysed && RowOf(s'.workers[w]) !in s'.abandoned
    {
      if Holds(s, w) { assert RowOf(s.workers[w]) == RowOf(s'.workers[w]); } else { assert RowOf(s'.workers[w]) !in s.rows; }
    }
  }

  lemma StepKeepsInv(s: State, step: Step)
    requires Inv(s) && Enabled(s, step)
    ensures Inv(Apply(s, step))
  {
    var s' := Apply(s, step);
    if step.Release? {
      forall w | w in s'.workers && Holds(s', w) ensures (s'.workers[w].pair, s'.workers[w].task) in s'.rows {
        assert Holds(s, w) && Holds(s, step.worker);
      }
    }
  }

  /** Whatever the tasks do, as long as each clears only after its own analyses have stopped: one row per
      pair over all tasks, and one analysis per pair at a time. */
  lemma {:induction false} RunKeepsInv(s: State, steps: seq<Step>)
    requires Inv(s) && Accounted(s) && ValidRun(s, steps)
    ensures Inv(After(s, steps)) && Accounted(After(s, steps))
    decreases |steps|
  {
    if steps != [] {
      StepKeepsInv(s, steps[0]);
      StepKeepsAccounts(s, steps[0]);
      RunKeepsInv(Apply(s, steps[0]), steps[1..]);
    }
  }

  lemma ReservationsStayUnique(steps: seq<Step>)
    requires ValidRun(INITIAL, steps)
    ensures OneRowEach(After(INITIAL, steps).rows) && Exclusive(After(INITIAL, steps))
  {
    RunKeepsInv(INITIAL, steps);
  }

  /** A row disappears only by its own task's hand: the failed holder's release, or that task's clear. */
  lemma OnlyTheOwnerFrees(s: State, step: Step, k: Pair, t: Task)
    requires Inv(s) && Enabled(s, step) && (k, t) in s.rows && (k, t) !in Apply(s, step).rows
    ensures step == Clear(t) || (step.Release? && s.workers[step.worker] == Failed(t, k))
    ensures !Processed(Apply(s, step).rows, k)
    ensures forall v <- Apply(s, step).workers :: Holds(Apply(s, step), v) ==> Apply(s, step).workers[v].pair != k
  {
    var s' := Apply(s, step);
    StepKeepsInv(s, step);
    forall r | r in s'.rows ensures r.0 != k { assert r in s.rows; }
    forall v | v in s'.workers && Holds(s', v) ensures s'.workers[v].pair != k {
      assert Holds(s, v);
    }
  }

  /** Clearing a task is harmless exactly when none of its analyses is under way. */
  lemma ClearIsSafeWhenQuiet(s: State, t: Task)
    requires Inv(s)
    ensures Inv(Apply(s, Clear(t))) <==> Quiet(s, t)
  {
    var s' := Apply(s, Clear(t));
    if Inv(s') {
      forall w | w in s.workers && Holds(s, w) ensures s.workers[w].task != t {
        assert Holds(s', w);
      }
    } else if Quiet(s, t) {
      StepKeepsInv(s, Clear(t));
    }
  }

  /** What goes wrong otherwise: two tasks analyse one pair. */
  lemma ClearDuringAnalysisAllowsTwo(k: Pair)
    ensures ValidRun(INITIAL, [Look(0, "a", k), Reserve(0)])
    ensures var s := Apply(After(INITIAL, [Look(0, "a", k), Reserve(0)]), Clear("a"));
            ValidRun(s, [Look(1, "b", k), Reserve(1)]) && !Exclusive(After(s, [Look(1, "b", k), Reserve(1)]))
  {
    var s1 := Apply(INITIAL, Look(0, "a", k));
    assert !Processed({}, k);
    var s2 := Apply(s1, Reserve(0));
    assert s2.rows == {(k, "a")} && s2.workers == map[0 := Analysing("a", k)];
    TwoSteps(INITIAL, Look(0, "a", k), Reserve(0));
    var s3 := Apply(s2, Clear("a"));
    assert s3.rows == {};
    var s4 := Apply(s3, Look(1, "b", k));
    var s5 := Apply(s4, Reserve(1));
    assert s5.workers == map[0 := Analysing("a", k), 1 := Analysing("b", k)];
    TwoSteps(s3, Look(1, "b", k), Reserve(1));
    assert Holds(s5, 0) && Holds(s5, 1);
  }

  predicate Unheld(s: State, k: Pair) {
    forall w <- s.workers :: Holds(s, w) ==> s.workers[w].pair != k
  }

  /** A row nobody is working for stays, and keeps every worker away, until its own task is cleared. */
  lemma {:induction false} UnheldRowStays(s: State, steps: seq<Step>, k: Pair, t: Task)
    requires Inv(s) && ValidRun(s, steps) && (k, t) in s.rows && Unheld(s, k) && Clear(t) !in steps
    ensures (k, t) in After(s, steps).rows && Unheld(After(s, steps), k)
    decreases |steps|
  {
    if steps != [] {
      var s' := Apply(s, steps[0]);
      StepKeepsInv(s, steps[0]);
      assert Processed(s.rows, k);
      if (k, t) !in s'.rows { OnlyTheOwnerFrees(s, steps[0], k, t); }
      forall w | w in s'.workers && Holds(s', w) ensures s'.workers[w].pair != k {
        if w in s.workers { assert Holds(s, w) ==> s.workers[w].pair != k; }
      }
      UnheldRowStays(s', steps[1..], k, t);
    }
  }

  // ---------------------------------------------------------------- readiness

  /** An outgoing edge that `is_ready` looks at: a direct callee that is indexed. */
  predicate Consults(e: Edge, lookup: map<string, string>) {
    e.kind.Callee? && !IsIndirect(e.sinkRef) && e.sinkRef in lookup
  }

  predicate ParamDone(rows: Table, dedup: bool, callee: string, p: ParamTaint) {
    IsRealParam(p.param) ==> dedup && Processed(rows, Pair(callee, p.param))
  }

  predicate Ready(edges: seq<Edge>, lookup: map<string, string>, rows: Table, dedup: bool) {
    forall e <- edges :: Consults(e, lookup) ==> forall p <- e.paramTaints :: ParamDone(rows, dedup, lookup[e.sinkRef], p)
  }

  /** `is_ready`: the two loops with their early exits. */
  method IsReady(edges: seq<Edge>, lookup: map<string, string>, store: Store) returns (ready: bool)
    ensures ready <==> Ready(edges, lookup, store.rows, store.dedup)
  {
    var direct := [];
    for i := 0 to |edges|
      invariant forall e :: e in direct <==> e in edges[..i] && e.kind.Callee? && !IsIndirect(e.sinkRef)
    {
      if edges[i].kind.Callee? && !IsIndirect(edges[i].sinkRef) { direct := direct + [edges[i]]; }
      assert edges[..i + 1] == edges[..i] + [edges[i]];
    }
    assert edges[..|edges|] == edges;
    for i := 0 to |direct|
      invariant forall j :: 0 <= j < i && direct[j].sinkRef in lookup ==>
                  forall p <- direct[j].paramTaints :: ParamDone(store.rows, store.dedup, lookup[direct[j].sinkRef], p)
    {
      var e := direct[i];
      if e.sinkRef !in lookup { continue; }
      for j := 0 to |e.paramTaints|
        invariant forall m :: 0 <= m < j ==> ParamDone(store.rows, store.dedup, lookup[e.sinkRef], e.paramTaints[m])
      {
        var p := e.paramTaints[j].param;
        if IsRealParam(p) {
          var found := store.FindProcessed(Pair(lookup[e.sinkRef], p));
          if !found {
            assert !ParamDone(store.rows, store.dedup, lookup[e.sinkRef], e.paramTaints[j]);
            assert e in direct;
            return false;
          }
        }
      }
    }
    ready := true;
  }

  lemma {:induction false} ReadyStays(s: State, steps: seq<Step>, edges: seq<Edge>, lookup: map<string, string>)
    requires ValidRun(s, steps) && Ready(edges, lookup, s.rows, true)
    requires forall step <- steps :: !step.Release? && !step.Clear?
    ensures Ready(edges, lookup, After(s, steps).rows, true)
    decreases |steps|
  {
    if steps != [] {
      var s' := Apply(s, steps[0]);
      assert s.rows <= s'.rows;
      forall e | e in edges && Consults(e, lookup)
        ensures forall p <- e.paramTaints :: ParamDone(s'.rows, true, lookup[e.sinkRef], p)
      {
        forall p | p in e.paramTaints ensures ParamDone(s'.rows, true, lookup[e.sinkRef], p) {
          assert ParamDone(s.rows, true, lookup[e.sinkRef], p);
        }
      }
      ReadyStays(s', steps[1..], edges, lookup);
    }
  }

  predicate Analysed(s: State, k: Pair) {
    exists r <- s.analysed :: r.0 == k
  }

  predicate Abandoned(s: State, k: Pair) {
    exists r <- s.abandoned :: r.0 == k
  }

  /** A processed pair has been analysed exactly when nobody is at work on it and it was not abandoned. */
  lemma ProcessedMeansAnalysed(s: State, k: Pair)
    requires Inv(s) && Accounted(s) && Processed(s.rows, k)
    ensures Analysed(s, k) <==> Unheld(s, k) && !Abandoned(s, k)
  {
    var r :| r in s.rows && r.0 == k;
    if Analysed(s, k) {
      var a :| a in s.analysed && a.0 == k;
      assert a == r;
      forall w | w in s.workers && Holds(s, w) ensures s.workers[w].pair != k {
        assert RowOf(s.workers[w]) in s.rows;
      }
    }
    if Unheld(s, k) && !Abandoned(s, k) {
      assert r !in s.abandoned;
      assert r in s.analysed;
    }
  }

  /** A pair whose row `is_ready` asks for. */
  predicate Asks(edges: seq<Edge>, lookup: map<string, string>, k: Pair) {
    exists e <- edges :: Consults(e, lookup) && lookup[e.sinkRef] == k.funcId
                         && exists p <- e.paramTaints :: IsRealParam(p.param) && p.param == k.signature
  }

  lemma ReadyMeansProcessed(edges: seq<Edge>, lookup: map<string, string>, rows: Table, k: Pair)
    requires Ready(edges, lookup, rows, true) && Asks(edges, lookup, k)
    ensures Processed(rows, k)
  {
    var e :| e in edges && Consults(e, lookup) && lookup[e.sinkRef] == k.funcId
             && exists p <- e.paramTaints :: IsRealParam(p.param) && p.param == k.signature;
    var p :| p in e.paramTaints && IsRealParam(p.param) && p.param == k.signature;
    assert ParamDone(rows, true, lookup[e.sinkRef], p);
  }

  /** "Ready" is documented as "every outgoing callee has been analysed". In every reachable state in which
      a function is ready, that holds exactly when no pair it asks for is still being worked on, or was left
      behind by a worker that died: the rows it reads are reservations. */
  lemma ReadyMeansAnalysedExactly(steps: seq<Step>, edges: seq<Edge>, lookup: map<string, string>)
    requires ValidRun(INITIAL, steps) && Ready(edges, lookup, After(INITIAL, steps).rows, true)
    ensures var s := After(INITIAL, steps);
            (forall k :: Asks(edges, lookup, k) ==> Analysed(s, k))
            <==> (forall k :: Asks(edges, lookup, k) ==> Unheld(s, k) && !Abandoned(s, k))
  {
    RunKeepsInv(INITIAL, steps);
    var s := After(INITIAL, steps);
    forall k | Asks(edges, lookup, k) ensures Analysed(s, k) <==> Unheld(s, k) && !Abandoned(s, k) {
      ReadyMeansProcessed(edges, lookup, s.rows, k);
      ProcessedMeansAnalysed(s, k);
    }
  }

  lemma TwoSteps(s: State, a: Step, b: Step)
    requires Enabled(s, a) && Enabled(Apply(s, a), b)
    ensures ValidRun(s, [a, b]) && After(s, [a, b]) == Apply(Apply(s, a), b)
  {
    var s1 := Apply(s, a);
    assert [b][1..] == [] && [a, b][1..] == [b];
    assert ValidRun(Apply(s1, b), []);
    assert ValidRun(s1, [b]) && After(s1, [b]) == Apply(s1, b);
  }

  /** It happens: a function is ready as soon as the analysis of its callee has begun. */
  lemma ReadyWhileCalleeIsAnalysed(e: Edge, lookup: map<string, string>, k: Pair)
    requires Consults(e, lookup) && k == Pair(lookup[e.sinkRef], k.signature) && IsRealParam(k.signature)
    requires e.paramTaints == [ParamTaint(k.signature, k.signature)]
    ensures ValidRun(INITIAL, [Look(0, "a", k), Reserve(0)])
    ensures var s := After(INITIAL, [Look(0, "a", k), Reserve(0)]);
            Ready([e], lookup, s.rows, true) && Asks([e], lookup, k) && !Analysed(s, k) && !Ready([e], lookup, {}, true)
  {
    assert !Processed({}, k);
    TwoSteps(INITIAL, Look(0, "a", k), Reserve(0));
    assert (k, "a") in After(INITIAL, [Look(0, "a", k), Reserve(0)]).rows;
    assert !ParamDone({}, true, lookup[e.sinkRef], e.paramTaints[0]);
    assert e in [e] && e.paramTaints[0] in e.paramTaints;
  }

  /** And no query could do better: from a state in which a worker analyses, finishing and dying leave the
      same rows and the same workers, one with the pair analysed and one without. */
  lemma RowsCannotTell(s: State, w: Worker, dag: Dag)
    requires Inv(s) && Accounted(s) && Enabled(s, Finish(w, dag))
    ensures var (s1, s2, k) := (Apply(s, Finish(w, dag)), Apply(s, Die(w)), s.workers[w].pair);
            s1.rows == s2.rows && s1.workers == s2.workers && Analysed(s1, k) && !Analysed(s2, k)
  {
    var k := s.workers[w].pair;
    assert Holds(s, w);
    assert RowOf(s.workers[w]) in Apply(s, Finish(w, dag)).analysed;
    forall r | r in s.analysed ensures r.0 != k {
      assert r in s.rows && RowOf(s.workers[w]) in s.rows;
    }
  }

  /** With the switch off nothing ever counts as processed, so a function with one direct indexed callee
      that takes a real parameter is never ready, analysed or not. */
  lemma ReadyWithoutDedup(edges: seq<Edge>, lookup: map<string, string>, rows: Table)
    ensures Ready(edges, lookup, rows, false)
       <==> forall e <- edges :: Consults(e, lookup) ==> forall p <- e.paramTaints :: !IsRealParam(p.param)
  {
    if Ready(edges, lookup, rows, false) {
      forall e, p | e in edges && Consults(e, lookup) && p in e.paramTaints ensures !IsRealParam(p.param) {
        assert ParamDone(rows, false, lookup[e.sinkRef], p);
      }
    }
  }
}
