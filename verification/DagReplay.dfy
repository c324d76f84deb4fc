/**
 What a task finds in the DAG tables over a whole run. `should_skip` asks for a reservation row of any task, but
 `load_dag` and `list_dag_outgoing` read the rows of the caller's own task (app/dagflow/orchestrator.py:82-126,
 app/dagflow/dag_store.py:61-65, 99-103).
 */
module DagReplay {
  import opened Prelude
  import opened TaintDag
  import opened DagStore
  import opened DagRoundTrip
  import R = Reservations

  datatype Tables = Tables(nodes: map<NodeKey, NodeRow>, edges: map<EdgeKey, EdgeRow>, meta: map<MetaKey, MetaRow>)

  const EMPTY := Tables(map[], map[], map[])

  function Saved(x: Tables, d: Dag, t: R.Task): Tables {
    Tables(SavedNodes(x.nodes, d, t), SavedEdges(x.edges, d, t), SavedMeta(x.meta, d, t))
  }

  function Cleared(x: Tables, t: R.Task): Tables {
    Tables(map k | k in x.nodes && k.task != t :: x.nodes[k],
           map k | k in x.edges && k.task != t :: x.edges[k],
           map k | k in x.meta && k.task != t :: x.meta[k])
  }

  /** What a step does to the tables: an analysis that finishes saves its DAG, a task that is cleared loses
      its rows. */
  function StepTables(s: R.State, step: R.Step, x: Tables): Tables
    requires R.Possible(s, step)
  {
    match step
    case Finish(w, dag) => Saved(x, dag, s.workers[w].task)
    case Clear(t) => Cleared(x, t)
    case _ => x
  }

  function TablesAfter(s: R.State, steps: seq<R.Step>, x: Tables): Tables
    requires R.ValidRun(s, steps)
    decreases |steps|
  {
    if steps == [] then x else TablesAfter(R.Apply(s, steps[0]), steps[1..], StepTables(s, steps[0], x))
  }

  // ---------------------------------------------------------------- the analysis saved last

  /** The step finishes an analysis of task `t` whose DAG is saved under `k`. */
  predicate SavesUnder(s: R.State, step: R.Step, k: R.Pair, t: R.Task)
    requires R.Possible(s, step)
  {
    step.Finish? && R.SavedAs(s.workers[step.worker].pair) == k && s.workers[step.worker].task == t
  }

  function NextSaved(s: R.State, step: R.Step, k: R.Pair, t: R.Task, last: Option<Dag>): Option<Dag>
    requires R.Possible(s, step)
  {
    if SavesUnder(s, step, k, t) then Some(step.dag) else if step == R.Clear(t) then None else last
  }

  /** The DAG of the last analysis of a run that was saved under `k` for `t`, if the task was not cleared since. */
  function LastSaved(s: R.State, steps: seq<R.Step>, k: R.Pair, t: R.Task, last: Option<Dag>): Option<Dag>
    requires R.ValidRun(s, steps)
    decreases |steps|
  {
    if steps == [] then last
    else LastSaved(R.Apply(s, steps[0]), steps[1..], k, t, NextSaved(s, steps[0], k, t, last))
  }

  // ---------------------------------------------------------------- its rows are the rows there are

  /** The tables agree on all rows of the pair `k` and the task `t`. */
  ghost predicate SameRows(x: Tables, y: Tables, k: R.Pair, t: R.Task) {
    && (forall n: NodeKey | n.funcId == k.funcId && n.signature == k.signature && n.task == t ::
          (n in x.nodes <==> n in y.nodes) && (n in x.nodes ==> x.nodes[n] == y.nodes[n]))
    && (forall e: EdgeKey | e.funcId == k.funcId && e.signature == k.signature && e.task == t ::
          (e in x.edges <==> e in y.edges) && (e in x.edges ==> x.edges[e] == y.edges[e]))
    && LoadedMeta(x.meta, k.funcId, k.signature, t) == LoadedMeta(y.meta, k.funcId, k.signature, t)
  }

  /** What saving `last` into empty tables leaves. */
  function Fresh(last: Option<Dag>, t: R.Task): Tables {
    if last.None? then EMPTY else Saved(EMPTY, last.value, t)
  }

  lemma {:induction false} InsertAllAgree<K, V>(m: map<K, V>, m': map<K, V>, entries: seq<(K, V)>, n: nat, k: K)
    requires n <= |entries| && (k in m <==> k in m') && (k in m ==> m[k] == m'[k])
    ensures var (r, r') := (InsertAll(m, entries, n), InsertAll(m', entries, n));
            (k in r <==> k in r') && (k in r ==> r[k] == r'[k])
  {
    if n > 0 { InsertAllAgree(m, m', entries, n - 1, k); }
  }

  lemma SavedRowsAreFresh(x: Tables, d: Dag, t: R.Task)
    ensures SameRows(Saved(x, d, t), Fresh(Some(d), t), R.Pair(d.funcId, d.signature), t)
  {
    var rows := NodeTable(d, t);
    forall n: NodeKey | n.funcId == d.funcId && n.signature == d.signature && n.task == t
      ensures var (r, r') := (SavedNodes(x.nodes, d, t), SavedNodes(map[], d, t));
              (n in r <==> n in r') && (n in r ==> r[n] == r'[n])
    {
      InsertAllAgree(OtherNodes(x.nodes, d.funcId, d.signature, t), OtherNodes(map[], d.funcId, d.signature, t), rows, |rows|, n);
    }
    var entries := Entries(d, |d.nodes|, t);
    forall e: EdgeKey | e.funcId == d.funcId && e.signature == d.signature && e.task == t
      ensures var (r, r') := (SavedEdges(x.edges, d, t), SavedEdges(map[], d, t));
              (e in r <==> e in r') && (e in r ==> r[e] == r'[e])
    {
      InsertAllAgree(OtherEdges(x.edges, d.funcId, d.signature, t), OtherEdges(map[], d.funcId, d.signature, t), entries, |entries|, e);
    }
  }

  lemma SavedElsewhere(x: Tables, d: Dag, u: R.Task, k: R.Pair, t: R.Task)
    requires (k, t) != (R.Pair(d.funcId, d.signature), u)
    ensures SameRows(Saved(x, d, u), x, k, t)
  {
    SaveLeavesOthersAlone(x.nodes, x.edges, x.meta, d, u);
  }

  lemma SameRowsFollow(x: Tables, y: Tables, z: Tables, k: R.Pair, t: R.Task)
    requires SameRows(x, y, k, t) && SameRows(y, z, k, t)
    ensures SameRows(x, z, k, t)
  {
  }

  lemma StepKeepsRows(s: R.State, step: R.Step, x: Tables, k: R.Pair, t: R.Task, last: Option<Dag>)
    requires R.Possible(s, step) && SameRows(x, Fresh(last, t), k, t)
    ensures SameRows(StepTables(s, step, x), Fresh(NextSaved(s, step, k, t, last), t), k, t)
  {
    if SavesUnder(s, step, k, t) {
      SavedRowsAreFresh(x, step.dag, t);
    } else if step.Finish? {
      var (w, dag) := (step.worker, step.dag);
      SavedElsewhere(x, dag, s.workers[w].task, k, t);
      SameRowsFollow(StepTables(s, step, x), x, Fresh(last, t), k, t);
    } else if step.Clear? {
      ClearedRows(x, step.task, k, t);
      if step.task != t { SameRowsFollow(StepTables(s, step, x), x, Fresh(last, t), k, t); }
    }
  }

  lemma ClearedRows(x: Tables, u: R.Task, k: R.Pair, t: R.Task)
    ensures SameRows(Cleared(x, u), if t == u then EMPTY else x, k, t)
  {
  }

  /** After any run the rows of a pair and a task, columns and all, are those that saving the last DAG into empty
      tables leaves. */
  lemma {:induction false} RowsAreTheLastSaved(s: R.State, steps: seq<R.Step>, x: Tables, k: R.Pair, t: R.Task, last: Option<Dag>)
    requires R.ValidRun(s, steps) && SameRows(x, Fresh(last, t), k, t)
    ensures SameRows(TablesAfter(s, steps, x), Fresh(LastSaved(s, steps, k, t, last), t), k, t)
    decreases |steps|
  {
    if steps != [] {
      StepKeepsRows(s, steps[0], x, k, t, last);
      RowsAreTheLastSaved(R.Apply(s, steps[0]), steps[1..], StepTables(s, steps[0], x), k, t, NextSaved(s, steps[0], k, t, last));
    }
  }

  // ---------------------------------------------------------------- whose analysis that is

  /** The last DAG under `k` is that of a finished analysis saved there; without one there is none. */
  predicate LastAgrees(s: R.State, k: R.Pair, t: R.Task, last: Option<Dag>) {
    && (last.Some? ==> (exists r <- s.analysed :: r.1 == t && R.SavedAs(r.0) == k && s.analysed[r] == last.value)
                       && R.Pair(last.value.funcId, last.value.signature) == k)
    && (last.None? ==> forall r <- s.analysed :: !(r.1 == t && R.SavedAs(r.0) == k))
  }

  lemma StepKeepsLast(s: R.State, step: R.Step, k: R.Pair, t: R.Task, last: Option<Dag>)
    requires R.Possible(s, step) && LastAgrees(s, k, t, last)
    ensures LastAgrees(R.Apply(s, step), k, t, NextSaved(s, step, k, t, last))
  {
    var (s', last') := (R.Apply(s, step), NextSaved(s, step, k, t, last));
    if SavesUnder(s, step, k, t) {
      var r := R.RowOf(s.workers[step.worker]);
      assert r in s'.analysed && s'.analysed[r] == step.dag;
    } else if last'.Some? {
      var r :| r in s.analysed && r.1 == t && R.SavedAs(r.0) == k && s.analysed[r] == last.value;
      assert r in s'.analysed && s'.analysed[r] == last.value;
    }
  }

  lemma {:induction false} RunKeepsLast(s: R.State, steps: seq<R.Step>, k: R.Pair, t: R.Task, last: Option<Dag>)
    requires R.ValidRun(s, steps) && LastAgrees(s, k, t, last)
    ensures LastAgrees(R.After(s, steps), k, t, LastSaved(s, steps, k, t, last))
    decreases |steps|
  {
    if steps != [] {
      StepKeepsLast(s, steps[0], k, t, last);
      RunKeepsLast(R.Apply(s, steps[0]), steps[1..], k, t, NextSaved(s, steps[0], k, t, last));
    }
  }

  function Last(steps: seq<R.Step>, k: R.Pair, t: R.Task): Option<Dag>
    requires R.ValidRun(R.INITIAL, steps)
  {
    LastSaved(R.INITIAL, steps, k, t, None)
  }

  /** Which analysis was saved last: nobody's under the empty signature; the pair's own, if it has finished;
      under "auto" that of "auto" or of the empty signature. */
  lemma LastIsAnalysed(steps: seq<R.Step>, k: R.Pair, t: R.Task)
    requires R.ValidRun(R.INITIAL, steps)
    ensures var (analysed, empty, last) := (R.After(R.INITIAL, steps).analysed, (R.Pair(k.funcId, ""), t), Last(steps, k, t));
      && (last.Some? ==> R.Pair(last.value.funcId, last.value.signature) == k)
      && (k.signature == "" ==> last.None?)
      && (k.signature != "" && (k.signature == "auto" ==> empty !in analysed) ==>
            last == if (k, t) in analysed then Some(analysed[(k, t)]) else None)
      && (k.signature == "auto" && empty in analysed ==>
            last == Some(analysed[empty]) || ((k, t) in analysed && last == Some(analysed[(k, t)])))
  {
    RunKeepsLast(R.INITIAL, steps, k, t, None);
    var (s, last) := (R.After(R.INITIAL, steps), Last(steps, k, t));
    if last.Some? {
      var r :| r in s.analysed && r.1 == t && R.SavedAs(r.0) == k && s.analysed[r] == last.value;
      assert r == (k, t) || r == (R.Pair(k.funcId, ""), t);
    }
    if (k, t) in s.analysed && k.signature != "" { assert R.SavedAs(k) == k; }
    if (R.Pair(k.funcId, ""), t) in s.analysed && k.signature == "auto" { assert R.SavedAs(R.Pair(k.funcId, "")) == k; }
  }

  // ---------------------------------------------------------------- what a skipped pair loads

  function Ids(d: Dag): set<int> {
    set n | n in d.nodes :: n.id
  }

  lemma {:induction false} InsertAllHas<K, V>(m: map<K, V>, entries: seq<(K, V)>, n: nat, k: K)
    requires n <= |entries|
    ensures k in InsertAll(m, entries, n) <==> k in m || exists i :: 0 <= i < n && entries[i].0 == k
  {
    if n > 0 { InsertAllHas(m, entries, n - 1, k); }
  }

  lemma SavedIds(nodes: map<NodeKey, NodeRow>, d: Dag, task: string)
    ensures IdsIn(SavedNodes(nodes, d, task), d.funcId, d.signature, task) == Ids(d)
  {
    var rows := NodeTable(d, task);
    forall id ensures id in IdsIn(SavedNodes(nodes, d, task), d.funcId, d.signature, task) <==> id in Ids(d) {
      var key := NodeKey(d.funcId, d.signature, id, task);
      InsertAllHas(OtherNodes(nodes, d.funcId, d.signature, task), rows, |rows|, key);
      assert id in IdsIn(SavedNodes(nodes, d, task), d.funcId, d.signature, task) <==> key in SavedNodes(nodes, d, task);
      if n :| n in d.nodes && n.id == id {
        var i :| 0 <= i < |d.nodes| && d.nodes[i] == n;
        assert rows[i].0 == key;
      }
    }
  }

  lemma SameRowsSameIds(x: Tables, y: Tables, k: R.Pair, t: R.Task)
    requires SameRows(x, y, k, t)
    ensures IdsIn(x.nodes, k.funcId, k.signature, t) == IdsIn(y.nodes, k.funcId, k.signature, t)
  {
    forall id ensures id in IdsIn(x.nodes, k.funcId, k.signature, t) <==> id in IdsIn(y.nodes, k.funcId, k.signature, t) {
      var key := NodeKey(k.funcId, k.signature, id, t);
      assert id in IdsIn(x.nodes, k.funcId, k.signature, t) <==> key in x.nodes;
      assert id in IdsIn(y.nodes, k.funcId, k.signature, t) <==> key in y.nodes;
    }
  }

  predicate SavedDag(s: R.State, k: R.Pair, t: R.Task) {
    (k, t) in s.rows && R.Unheld(s, k) && !R.Abandoned(s, k)
  }

  lemma SavedDagIsAnalysed(s: R.State, k: R.Pair, t: R.Task)
    requires R.Inv(s) && R.Accounted(s) && R.Processed(s.rows, k)
    ensures SavedDag(s, k, t) <==> (k, t) in s.analysed
  {
    R.ProcessedMeansAnalysed(s, k);
    if r :| r in s.analysed && r.0 == k {
      if (k, t) in s.rows { assert r == (k, t); }
    }
  }

  /** After any run, a task that skips a processed pair loads the DAG saved last under that pair for the task
      itself, if it has a node. That is the pair's own DAG, and it is there exactly when the reservation is the
      task's own and its worker is neither at work nor dead, with two exceptions: the DAG of the empty signature
      was saved under "auto", so nothing is loaded for it, and what is loaded for "auto" may be that one. A pair
      processed by another task is skipped and loads nothing. */
  lemma ReplayLoadsExactly(steps: seq<R.Step>, k: R.Pair, t: R.Task)
    requires R.ValidRun(R.INITIAL, steps) && R.Processed(R.After(R.INITIAL, steps).rows, k)
    ensures var (s, last) := (R.After(R.INITIAL, steps), Last(steps, k, t));
      var ids := IdsIn(TablesAfter(R.INITIAL, steps, EMPTY).nodes, k.funcId, k.signature, t);
      var empty := (R.Pair(k.funcId, ""), t);
      && (ids != {} <==> last.Some? && last.value.nodes != [])
      && (last.Some? ==> ids == Ids(last.value))
      && (SavedDag(s, k, t) <==> (k, t) in s.analysed)
      && (k.signature == "" ==> last.None?)
      && (k.signature != "" && (k.signature == "auto" ==> empty !in s.analysed) ==>
            last == if SavedDag(s, k, t) then Some(s.analysed[(k, t)]) else None)
      && (k.signature == "auto" && empty in s.analysed ==>
            last == Some(s.analysed[empty]) || (SavedDag(s, k, t) && last == Some(s.analysed[(k, t)])))
  {
    R.RunKeepsInv(R.INITIAL, steps);
    SavedDagIsAnalysed(R.After(R.INITIAL, steps), k, t);
    LastIsAnalysed(steps, k, t);
    IdsAreTheLastSaved(steps, k, t);
  }

  lemma IdsAreTheLastSaved(steps: seq<R.Step>, k: R.Pair, t: R.Task)
    requires R.ValidRun(R.INITIAL, steps)
    ensures var (last, ids) := (Last(steps, k, t), IdsIn(TablesAfter(R.INITIAL, steps, EMPTY).nodes, k.funcId, k.signature, t));
      ids == (if last.None? then {} else Ids(last.value)) && (ids != {} <==> last.Some? && last.value.nodes != [])
  {
    var last := Last(steps, k, t);
    LastIsAnalysed(steps, k, t);
    RowsAreTheLastSaved(R.INITIAL, steps, EMPTY, k, t, None);
    SameRowsSameIds(TablesAfter(R.INITIAL, steps, EMPTY), Fresh(last, t), k, t);
    if last.Some? {
      SavedIds(map[], last.value, t);
      if last.value.nodes != [] { assert last.value.nodes[0].id in Ids(last.value); }
    }
  }

  // ---------------------------------------------------------------- readiness over the tables

  predicate IsOutgoing(k: EdgeKind) {
    k.Callee? || k.Return? || k.Extern? || k.Container?
  }

  /** What `list_dag_outgoing` may return: the outgoing edges in the task's own rows, in any order. */
  ghost predicate Outgoing(x: Tables, k: R.Pair, t: R.Task, edges: seq<Edge>) {
    forall e :: e in edges <==>
      IsOutgoing(e.kind) && exists key <- x.edges :: key.funcId == k.funcId && key.signature == k.signature && key.task == t
                                                     && e == EdgeOfRow(x.edges[key])
  }

  predicate DagReady(d: Dag, lookup: map<string, string>, rows: R.Table, dedup: bool) {
    forall n <- d.nodes :: R.Ready(n.children, lookup, rows, dedup)
  }

  lemma SavedEdgeIsChild(d: Dag, t: R.Task, key: EdgeKey) returns (n: Node, e: Edge)
    requires DistinctIds(d.nodes) && key in SavedEdges(map[], d, t)
    requires key.funcId == d.funcId && key.signature == d.signature && key.task == t
    ensures n in d.nodes && e in n.children && EdgeOfRow(SavedEdges(map[], d, t)[key]) == DagRoundTrip.Stored(e)
  {
    SavedEdgesFacts(map[], d, t);
    assert key in EdgeKeysIn(SavedEdges(map[], d, t), d.funcId, d.signature, t);
    var a, b :| 0 <= a < |d.nodes| && 0 <= b < |d.nodes[a].children| && key == EntryOf(d, d.nodes[a], b, t).0;
    n, e := d.nodes[a], d.nodes[a].children[b];
  }

  lemma ChildIsSavedEdge(d: Dag, t: R.Task, n: Node, e: Edge) returns (key: EdgeKey)
    requires DistinctIds(d.nodes) && n in d.nodes && e in n.children
    ensures key in SavedEdges(map[], d, t) && key.funcId == d.funcId && key.signature == d.signature && key.task == t
    ensures EdgeOfRow(SavedEdges(map[], d, t)[key]) == DagRoundTrip.Stored(e)
  {
    SavedEdgesFacts(map[], d, t);
    var a :| 0 <= a < |d.nodes| && d.nodes[a] == n;
    var b :| 0 <= b < |n.children| && n.children[b] == e;
    key := EntryOf(d, d.nodes[a], b, t).0;
  }

  predicate EdgeReady(e: Edge, lookup: map<string, string>, rows: R.Table, dedup: bool) {
    R.Consults(e, lookup) ==> forall p <- e.paramTaints :: R.ParamDone(rows, dedup, lookup[e.sinkRef], p)
  }

  /** Readiness as the tables tell it, after any run: with nothing saved under the task's own rows a pair is ready
      at once; otherwise it is ready as the DAG saved last says. */
  lemma ReadyOverTables(steps: seq<R.Step>, k: R.Pair, t: R.Task, edges: seq<Edge>,
                        lookup: map<string, string>, rows: R.Table, dedup: bool)
    requires R.ValidRun(R.INITIAL, steps) && Outgoing(TablesAfter(R.INITIAL, steps, EMPTY), k, t, edges)
    ensures var last := Last(steps, k, t);
      && (last.None? ==> edges == [] && R.Ready(edges, lookup, rows, dedup))
      && (last.Some? && DistinctIds(last.value.nodes) ==>
            (R.Ready(edges, lookup, rows, dedup) <==> DagReady(last.value, lookup, rows, dedup)))
  {
    var last := Last(steps, k, t);
    LastIsAnalysed(steps, k, t);
    RowsAreTheLastSaved(R.INITIAL, steps, EMPTY, k, t, None);
    OutgoingFresh(TablesAfter(R.INITIAL, steps, EMPTY), Fresh(last, t), k, t, edges);
    if last.None? {
      FirstIsIn(edges);
    } else if DistinctIds(last.value.nodes) {
      ReadyAsSaved(last.value, t, edges, lookup, rows, dedup);
    }
  }

  lemma FirstIsIn<T>(xs: seq<T>)
    ensures xs == [] || xs[0] in xs
  {
  }

  lemma OutgoingFresh(x: Tables, y: Tables, k: R.Pair, t: R.Task, edges: seq<Edge>)
    requires SameRows(x, y, k, t) && Outgoing(x, k, t, edges)
    ensures Outgoing(y, k, t, edges)
  {
  }

  lemma ReadyAsSaved(d: Dag, t: R.Task, edges: seq<Edge>, lookup: map<string, string>, rows: R.Table, dedup: bool)
    requires DistinctIds(d.nodes) && Outgoing(Saved(EMPTY, d, t), R.Pair(d.funcId, d.signature), t, edges)
    ensures R.Ready(edges, lookup, rows, dedup) <==> DagReady(d, lookup, rows, dedup)
  {
    var saved := SavedEdges(map[], d, t);
    if DagReady(d, lookup, rows, dedup) {
      forall x | x in edges ensures EdgeReady(x, lookup, rows, dedup) {
        var key :| key in saved && key.funcId == d.funcId && key.signature == d.signature && key.task == t && x == EdgeOfRow(saved[key]);
        var n, e := SavedEdgeIsChild(d, t, key);
        assert EdgeReady(e, lookup, rows, dedup);
      }
    }
    if R.Ready(edges, lookup, rows, dedup) {
      forall n | n in d.nodes ensures R.Ready(n.children, lookup, rows, dedup) {
        forall e | e in n.children ensures EdgeReady(e, lookup, rows, dedup) {
          var key := ChildIsSavedEdge(d, t, n, e);
          if R.Consults(e, lookup) {
            assert EdgeOfRow(saved[key]) in edges;
            assert EdgeReady(EdgeOfRow(saved[key]), lookup, rows, dedup);
          }
        }
      }
    }
  }

  /** So a pair another task has processed is ready at once, whatever its callees are; and so is every pair with
      the empty signature. */
  lemma NotOwnIsReadyAtOnce(steps: seq<R.Step>, k: R.Pair, t: R.Task, u: R.Task, edges: seq<Edge>,
                            lookup: map<string, string>, rows: R.Table, dedup: bool)
    requires R.ValidRun(R.INITIAL, steps) && Outgoing(TablesAfter(R.INITIAL, steps, EMPTY), k, t, edges)
    requires var s := R.After(R.INITIAL, steps);
      k.signature == "" || ((k, u) in s.rows && u != t && (k.signature == "auto" ==> (R.Pair(k.funcId, ""), t) !in s.analysed))
    ensures edges == [] && R.Ready(edges, lookup, rows, dedup)
  {
    var s := R.After(R.INITIAL, steps);
    R.RunKeepsInv(R.INITIAL, steps);
    LastIsAnalysed(steps, k, t);
    if k.signature != "" && (k, t) in s.analysed { assert (k, t) in s.rows && (k, u) in s.rows; }
    ReadyOverTables(steps, k, t, edges, lookup, rows, dedup);
  }
}
