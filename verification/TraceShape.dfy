/**
 What stands where in a trace tree, follow-up by follow-up: which follow-ups a run has and in which order, which run
 each of them leads to, and what is shown for it (app/vuln_graph_service.py:136-291).
 */
module TraceShape {
  import opened Prelude
  import opened TraceTree

  // ---------------------------------------------------------------- the follow-ups of a run

  /** Order: each selection goes through its list from the front, keeps what fits and drops the rest; the follow-ups
      on several edges come edge by edge. */
  lemma SelectedInOrder(g: Graph, run: Run, linked: seq<Followup>, edges: seq<GraphEdge>, e: GraphEdge, fws: seq<Followup>, f: Followup)
    ensures EdgesOfRun(edges + [e], run.id) == EdgesOfRun(edges, run.id) + if e.runId == run.id then [e] else []
    ensures OnEdge(fws + [f], e.id) == OnEdge(fws, e.id) + if f.edgeId == e.id then [f] else []
    ensures OnEdges(fws, edges + [e]) == OnEdges(fws, edges) + OnEdge(fws, e.id)
    ensures Orphans(g, run, linked, fws + [f]) == Orphans(g, run, linked, fws) + if Orphan(g, run, linked, f) then [f] else []
  {
    assert (edges + [e])[..|edges|] == edges && (fws + [f])[..|fws|] == fws;
  }

  predicate OnRun(g: Graph, run: Run, f: Followup) {
    f in g.followups && exists e <- g.edges :: e.runId == run.id && e.id == f.edgeId
  }

  /** Which follow-ups a run has: those on one of its edges, and those that share no id with one of these and whose
      parent node is of the run's function. */
  lemma FollowupsExactly(g: Graph, run: Run, f: Followup)
    ensures f in FollowupsOf(g, run) <==>
      || OnRun(g, run, f)
      || (f in g.followups && f.parentNode != "" && (forall l :: OnRun(g, run, l) ==> l.id != f.id)
          && exists n <- g.nodes :: n.id == f.parentNode && n.function_ == run.function_)
  {
    var edges := EdgesOfRun(g.edges, run.id);
    var linked := OnEdges(g.followups, edges);
    LinkedExactly(g, run);
    OrphansMembers(g, run, linked, g.followups, f);
  }

  lemma LinkedExactly(g: Graph, run: Run)
    ensures forall l :: l in OnEdges(g.followups, EdgesOfRun(g.edges, run.id)) <==> OnRun(g, run, l)
  {
    var edges := EdgesOfRun(g.edges, run.id);
    forall l ensures l in OnEdges(g.followups, edges) <==> OnRun(g, run, l) {
      OnEdgesMembers(g.followups, edges, l);
      forall e ensures e in edges <==> e in g.edges && e.runId == run.id { EdgesMembers(g.edges, run.id, e); }
    }
  }

  /** Those on its edges come first. */
  lemma LinkedComeFirst(g: Graph, run: Run) returns (k: nat)
    ensures var fws := FollowupsOf(g, run);
      k <= |fws| && (forall i :: 0 <= i < k ==> OnRun(g, run, fws[i])) && forall i :: k <= i < |fws| ==> !OnRun(g, run, fws[i])
  {
    var (fws, linked) := (FollowupsOf(g, run), OnEdges(g.followups, EdgesOfRun(g.edges, run.id)));
    k := |linked|;
    LinkedExactly(g, run);
    forall i | 0 <= i < k ensures OnRun(g, run, fws[i]) { assert fws[i] == linked[i] && linked[i] in linked; }
    forall i | k <= i < |fws| ensures !OnRun(g, run, fws[i]) {
      var orphans := Orphans(g, run, linked, g.followups);
      assert fws[i] == orphans[i - k] && orphans[i - k] in orphans;
      OrphansMembers(g, run, linked, g.followups, fws[i]);
    }
  }

  lemma {:induction false} EdgesMembers(edges: seq<GraphEdge>, id: string, e: GraphEdge)
    ensures e in EdgesOfRun(edges, id) <==> e in edges && e.runId == id
    decreases |edges|
  {
    if edges != [] {
      assert edges == edges[..|edges| - 1] + [edges[|edges| - 1]];
      EdgesMembers(edges[..|edges| - 1], id, e);
    }
  }

  lemma {:induction false} OnEdgeMembers(fws: seq<Followup>, edgeId: string, f: Followup)
    ensures f in OnEdge(fws, edgeId) <==> f in fws && f.edgeId == edgeId
    decreases |fws|
  {
    if fws != [] {
      assert fws == fws[..|fws| - 1] + [fws[|fws| - 1]];
      OnEdgeMembers(fws[..|fws| - 1], edgeId, f);
    }
  }

  lemma {:induction false} OnEdgesMembers(fws: seq<Followup>, edges: seq<GraphEdge>, f: Followup)
    ensures f in OnEdges(fws, edges) <==> f in fws && exists e <- edges :: e.id == f.edgeId
    decreases |edges|
  {
    if edges != [] {
      var (front, last) := (edges[..|edges| - 1], edges[|edges| - 1]);
      assert edges == front + [last];
      OnEdgesMembers(fws, front, f);
      OnEdgeMembers(fws, last.id, f);
      assert last in edges;
    }
  }

  lemma {:induction false} OrphansMembers(g: Graph, run: Run, linked: seq<Followup>, fws: seq<Followup>, f: Followup)
    ensures f in Orphans(g, run, linked, fws) <==> f in fws && Orphan(g, run, linked, f)
    decreases |fws|
  {
    if fws != [] {
      assert fws == fws[..|fws| - 1] + [fws[|fws| - 1]];
      OrphansMembers(g, run, linked, fws[..|fws| - 1], f);
    }
  }

  // ---------------------------------------------------------------- the run a follow-up leads to

  /** Run `k` is the last with that id; the last of that file and function. */
  predicate LastWithId(runs: seq<Run>, k: nat, id: string) {
    k < |runs| && runs[k].id == id && forall j :: k < j < |runs| ==> runs[j].id != id
  }

  predicate LastOf(runs: seq<Run>, k: nat, file: string, function_: string) {
    && k < |runs| && runs[k].file == file && runs[k].function_ == function_
    && forall j :: k < j < |runs| ==> !(runs[j].file == file && runs[j].function_ == function_)
  }

  lemma {:induction false} LastByIdIsLast(runs: seq<Run>, id: string)
    ensures var r := LastById(runs, id);
      if r.Some? then exists k: nat :: LastWithId(runs, k, id) && runs[k] == r.value else forall x <- runs :: x.id != id
    decreases |runs|
  {
    if runs != [] {
      var front := runs[..|runs| - 1];
      assert runs == front + [runs[|front|]];
      if runs[|front|].id == id {
        assert LastWithId(runs, |front|, id);
      } else {
        LastByIdIsLast(front, id);
        if LastById(front, id).Some? {
          var k: nat :| LastWithId(front, k, id) && front[k] == LastById(front, id).value;
          assert LastWithId(runs, k, id);
        }
      }
    }
  }

  lemma {:induction false} LastByFunctionIsLast(runs: seq<Run>, file: string, function_: string)
    ensures var r := LastByFunction(runs, file, function_);
      if r.Some? then exists k: nat :: LastOf(runs, k, file, function_) && runs[k] == r.value
      else forall x <- runs :: x.file != file || x.function_ != function_
    decreases |runs|
  {
    if runs != [] {
      var front := runs[..|runs| - 1];
      assert runs == front + [runs[|front|]];
      if runs[|front|].file == file && runs[|front|].function_ == function_ {
        assert LastOf(runs, |front|, file, function_);
      } else {
        LastByFunctionIsLast(front, file, function_);
        if LastByFunction(front, file, function_).Some? {
          var k: nat :| LastOf(front, k, file, function_) && front[k] == LastByFunction(front, file, function_).value;
          assert LastOf(runs, k, file, function_);
        }
      }
    }
  }

  predicate IsPruned(status: string) {
    status == "skipped" || status == "cycle" || status == "depth_limit" || status == "merged_equivalent_taint_validation"
  }

  /** A pruned follow-up leads nowhere; any other to the last run with its id, or, without one, to the last run of its
      callee's file and function, if there is one. */
  lemma RunOfExactly(g: Graph, f: Followup)
    ensures IsPruned(f.status) ==> RunOf(g, f).None?
    ensures !IsPruned(f.status) && (exists x <- g.runs :: x.id == f.id) ==>
      exists k: nat :: LastWithId(g.runs, k, f.id) && RunOf(g, f) == Some(g.runs[k])
    ensures !IsPruned(f.status) && !(exists x <- g.runs :: x.id == f.id) ==>
      if exists x <- g.runs :: x.file == f.calleeFile && x.function_ == f.calleeFunction
      then exists k: nat :: LastOf(g.runs, k, f.calleeFile, f.calleeFunction) && RunOf(g, f) == Some(g.runs[k])
      else RunOf(g, f).None?
  {
    LastByIdIsLast(g.runs, f.id);
    LastByFunctionIsLast(g.runs, f.calleeFile, f.calleeFunction);
  }

  // ---------------------------------------------------------------- the tree

  /** The runs expanded in a tree, and in a list of trees. */
  function Seen(t: Tree): set<string>
    decreases t, 0
  {
    (if t.kind.Expanded? then {t.id} else {}) + SeenIn(t.children)
  }

  function SeenIn(ts: seq<Tree>): set<string>
    decreases ts, 1
  {
    if ts == [] then {} else SeenIn(ts[..|ts| - 1]) + Seen(ts[|ts| - 1])
  }

  /** The tree shows `run`, `seen` being the runs expanded before it: as a cycle, without children, exactly when it is
      one of them, and otherwise with one child for each of its follow-ups in order. */
  predicate Shows(g: Graph, run: Run, t: Tree, seen: set<string>)
    decreases t
  {
    && t.id == run.id && (t.kind == Cycle <==> run.id in seen) && (t.kind == Expanded <==> run.id !in seen)
    && (t.kind == Cycle ==> t.children == [])
    && (t.kind == Expanded ==> ShowsAll(g, FollowupsOf(g, run), t.children, seen + {run.id}))
  }

  /** One tree for each follow-up: a stub under the follow-up's own id when it leads nowhere, else its run. */
  predicate ShowsAll(g: Graph, fws: seq<Followup>, ts: seq<Tree>, seen: set<string>)
    decreases ts
  {
    && |ts| == |fws|
    && (ts != [] ==>
          var (before, last, f) := (ts[..|ts| - 1], ts[|ts| - 1], fws[|fws| - 1]);
          && ShowsAll(g, fws[..|fws| - 1], before, seen)
          && match RunOf(g, f)
             case None => last.id == f.id && last.kind == Stub && last.children == []
             case Some(run) => Shows(g, run, last, seen + SeenIn(before)))
  }

  lemma {:induction false} BuildShows(g: Graph, run: Run, depth: nat, visited: Visited)
    requires run in g.runs
    ensures var (t, visited') := Build(g, run, depth, visited); Shows(g, run, t, visited) && visited' == visited + Seen(t)
    decreases RunIds(g) - visited, 0, 0
  {
    if run.id !in visited {
      assert run.id in RunIds(g) - visited;
      var fws := FollowupsOf(g, run);
      BuildAllShows(g, fws, |fws|, depth + 1, visited + {run.id});
      assert fws[..|fws|] == fws;
    }
  }

  lemma OneMoreShown(g: Graph, fws: seq<Followup>, n: nat, ts: seq<Tree>, t: Tree, seen: set<string>)
    requires n < |fws| && ShowsAll(g, fws[..n], ts, seen)
    requires match RunOf(g, fws[n])
             case None => t.id == fws[n].id && t.kind == Stub && t.children == []
             case Some(run) => Shows(g, run, t, seen + SeenIn(ts))
    ensures ShowsAll(g, fws[..n + 1], ts + [t], seen) && SeenIn(ts + [t]) == SeenIn(ts) + Seen(t)
  {
    assert (ts + [t])[..|ts|] == ts && fws[..n + 1][..n] == fws[..n];
  }

  lemma StubShown(g: Graph, fws: seq<Followup>, n: nat, ts: seq<Tree>, depth: nat, seen: set<string>)
    requires n < |fws| && ShowsAll(g, fws[..n], ts, seen) && RunOf(g, fws[n]).None?
    ensures var stub := Tree(fws[n].id, Stub, depth, 0, []);
            ShowsAll(g, fws[..n + 1], ts + [stub], seen) && SeenIn(ts + [stub]) == SeenIn(ts)
  {
    var stub := Tree(fws[n].id, Stub, depth, 0, []);
    OneMoreShown(g, fws, n, ts, stub, seen);
    assert Seen(stub) == {};
  }

  /** The next tree, and the visited set it leaves. */
  lemma NextTree(g: Graph, fws: seq<Followup>, n: nat, depth: nat, visited: Visited) returns (t: Tree, seen: Visited)
    requires n < |fws|
    ensures var (before, visited') := BuildAll(g, fws, n, depth, visited);
      && BuildAll(g, fws, n + 1, depth, visited) == (before + [t], seen)
      && (t, seen) == match RunOf(g, fws[n])
           case None => (Tree(fws[n].id, Stub, depth, 0, []), visited')
           case Some(run) => Build(g, run, depth, visited')
  {
    var (before, visited') := BuildAll(g, fws, n, depth, visited);
    if RunOf(g, fws[n]).None? {
      t, seen := Tree(fws[n].id, Stub, depth, 0, []), visited';
    } else {
      var r := Build(g, RunOf(g, fws[n]).value, depth, visited');
      t, seen := r.0, r.1;
    }
  }

  lemma ShownNext(g: Graph, fws: seq<Followup>, n: nat, before: seq<Tree>, t: Tree, depth: nat, visited: Visited, seen: Visited, seen': Visited)
    requires n < |fws| && ShowsAll(g, fws[..n], before, visited) && seen == visited + SeenIn(before)
    requires match RunOf(g, fws[n])
             case None => t == Tree(fws[n].id, Stub, depth, 0, []) && seen' == seen
             case Some(run) => Shows(g, run, t, seen) && seen' == seen + Seen(t)
    ensures ShowsAll(g, fws[..n + 1], before + [t], visited) && seen' == visited + SeenIn(before + [t])
  {
    if RunOf(g, fws[n]).None? {
      StubShown(g, fws, n, before, depth, visited);
    } else {
      OneMoreShown(g, fws, n, before, t, visited);
    }
  }

  lemma {:induction false} BuildAllShows(g: Graph, fws: seq<Followup>, n: nat, depth: nat, visited: Visited)
    requires n <= |fws|
    ensures var (ts, visited') := BuildAll(g, fws, n, depth, visited);
            ShowsAll(g, fws[..n], ts, visited) && visited' == visited + SeenIn(ts)
    decreases RunIds(g) - visited, 1, n
  {
    if n > 0 {
      BuildAllShows(g, fws, n - 1, depth, visited);
      var (before, seen) := BuildAll(g, fws, n - 1, depth, visited);
      var t, seen' := NextTree(g, fws, n - 1, depth, visited);
      if RunOf(g, fws[n - 1]).Some? { BuildShows(g, RunOf(g, fws[n - 1]).value, depth, seen); }
      ShownNext(g, fws, n - 1, before, t, depth, visited, seen, seen');
    }
  }

  /** The tree of a root run, from an empty visited set. */
  lemma TreeShowsRoot(g: Graph, root: Run)
    requires root in g.runs
    ensures Shows(g, root, Build(g, root, 0, {}).0, {})
  {
    BuildShows(g, root, 0, {});
  }
}
