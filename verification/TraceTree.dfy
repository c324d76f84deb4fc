/**
 The trace tree of a vulnerability graph (app/vuln_graph_service.py:103-294): a depth-first walk over
 analysis runs and the follow-up calls they left, with one set of visited runs for the whole tree.
 */
module TraceTree {
  import opened Prelude

  datatype Run = Run(id: string, file: string, function_: string)
  datatype GraphEdge = GraphEdge(id: string, runId: string)
  datatype GraphNode = GraphNode(id: string, function_: string)
  datatype Followup = Followup(id: string, edgeId: string, parentNode: string, status: string, calleeFile: string, calleeFunction: string)

  datatype Graph = Graph(runs: seq<Run>, edges: seq<GraphEdge>, nodes: seq<GraphNode>, followups: seq<Followup>)

  /** A run shown with its children, a run met again, or a follow-up that has no run to show. */
  datatype Kind = Expanded | Cycle | Stub

  datatype Tree = Tree(id: string, kind: Kind, depth: nat, childCount: nat, children: seq<Tree>)

  // ---------------------------------------------------------------- the follow-ups of a run

  function EdgesOfRun(edges: seq<GraphEdge>, id: string): seq<GraphEdge> {
    if edges == [] then []
    else EdgesOfRun(edges[..|edges| - 1], id)
         + if edges[|edges| - 1].runId == id then [edges[|edges| - 1]] else []
  }

  function OnEdge(fws: seq<Followup>, edgeId: string): seq<Followup> {
    if fws == [] then []
    else OnEdge(fws[..|fws| - 1], edgeId) + if fws[|fws| - 1].edgeId == edgeId then [fws[|fws| - 1]] else []
  }

  function OnEdges(fws: seq<Followup>, edges: seq<GraphEdge>): seq<Followup> {
    if edges == [] then [] else OnEdges(fws, edges[..|edges| - 1]) + OnEdge(fws, edges[|edges| - 1].id)
  }

  predicate Orphan(g: Graph, run: Run, linked: seq<Followup>, fw: Followup) {
    && (forall f <- linked :: f.id != fw.id)
    && fw.parentNode != "" && exists n <- g.nodes :: n.id == fw.parentNode && n.function_ == run.function_
  }

  function Orphans(g: Graph, run: Run, linked: seq<Followup>, fws: seq<Followup>): seq<Followup> {
    if fws == [] then []
    else Orphans(g, run, linked, fws[..|fws| - 1])
         + if Orphan(g, run, linked, fws[|fws| - 1]) then [fws[|fws| - 1]] else []
  }

  /** Follow-ups on the run's edges, then those without an edge whose parent node is of the run's function. */
  function FollowupsOf(g: Graph, run: Run): seq<Followup> {
    var linked := OnEdges(g.followups, EdgesOfRun(g.edges, run.id));
    linked + Orphans(g, run, linked, g.followups)
  }

  /** The last run of the list with that id, or else with that file and function. */
  function LastById(runs: seq<Run>, id: string): (r: Option<Run>)
    ensures r.Some? ==> r.value in runs
  {
    if runs == [] then None
    else if runs[|runs| - 1].id == id then Some(runs[|runs| - 1]) else LastById(runs[..|runs| - 1], id)
  }

  function LastByFunction(runs: seq<Run>, file: string, function_: string): (r: Option<Run>)
    ensures r.Some? ==> r.value in runs
  {
    if runs == [] then None
    else
      var last := runs[|runs| - 1];
      if last.file == file && last.function_ == function_ then Some(last)
      else LastByFunction(runs[..|runs| - 1], file, function_)
  }

  const PRUNED := {"skipped", "cycle", "depth_limit", "merged_equivalent_taint_validation"}

  /** The run a follow-up leads to. */
  function RunOf(g: Graph, fw: Followup): (r: Option<Run>)
    ensures r.Some? ==> r.value in g.runs
  {
    if fw.status in PRUNED then None
    else if LastById(g.runs, fw.id).Some? then LastById(g.runs, fw.id)
    else LastByFunction(g.runs, fw.calleeFile, fw.calleeFunction)
  }

  // ---------------------------------------------------------------- the walk

  function RunIds(g: Graph): set<string> {
    set r | r in g.runs :: r.id
  }

  type Visited = set<string>

  function Build(g: Graph, run: Run, depth: nat, visited: Visited): (r: (Tree, Visited))
    requires run in g.runs
    ensures visited <= r.1
    decreases RunIds(g) - visited, 0, 0
  {
    if run.id in visited then (Tree(run.id, Cycle, depth, 0, []), visited)
    else
      assert run.id in RunIds(g) - visited;
      var fws := FollowupsOf(g, run);
      var (children, visited') := BuildAll(g, fws, |fws|, depth + 1, visited + {run.id});
      (Tree(run.id, Expanded, depth, |children|, children), visited')
  }

  /** The children of the first `n` follow-ups. */
  function BuildAll(g: Graph, fws: seq<Followup>, n: nat, depth: nat, visited: Visited): (r: (seq<Tree>, Visited))
    requires n <= |fws|
    ensures visited <= r.1 && |r.0| == n
    decreases RunIds(g) - visited, 1, n
  {
    if n == 0 then ([], visited)
    else
      var (before, seen) := BuildAll(g, fws, n - 1, depth, visited);
      var target := RunOf(g, fws[n - 1]);
      if target.None? then (before + [Tree(fws[n - 1].id, Stub, depth, 0, [])], seen)
      else
        var (child, seen') := Build(g, target.value, depth, seen);
        (before + [child], seen')
  }

  class TreeBuilder {
    const g: Graph
    var visited: Visited

    constructor (g: Graph)
      ensures this.g == g && visited == {}
    {
      this.g, visited := g, {};
    }

    /** `_build_node`. */
    method BuildNode(run: Run, depth: nat) returns (t: Tree)
      requires run in g.runs
      modifies this
      ensures (t, visited) == Build(g, run, depth, old(visited))
      decreases RunIds(g) - visited, 0
    {
      if run.id in visited {
        return Tree(run.id, Cycle, depth, 0, []);
      }
      assert run.id in RunIds(g) - visited;
      visited := visited + {run.id};
      ghost var visited0 := visited;
      var children := [];
      var fws := FollowupsOf(g, run);
      for n := 0 to |fws|
        invariant (children, visited) == BuildAll(g, fws, n, depth + 1, visited0)
      {
        var child := BuildFollowupNode(fws[n], depth + 1);
        children := children + [child];
      }
      t := Tree(run.id, Expanded, depth, |children|, children);
    }

    /** `_build_followup_node`. */
    method BuildFollowupNode(fw: Followup, depth: nat) returns (t: Tree)
      modifies this
      ensures match RunOf(g, fw)
              case None => t == Tree(fw.id, Stub, depth, 0, []) && visited == old(visited)
              case Some(run) => (t, visited) == Build(g, run, depth, old(visited))
      decreases RunIds(g) - visited, 1
    {
      var target := RunOf(g, fw);
      if target.None? { return Tree(fw.id, Stub, depth, 0, []); }
      t := BuildNode(target.value, depth);
    }
  }

  // ---------------------------------------------------------------- depths and counts

  /** Depths grow by one, counts are right, and only expanded runs have children. */
  predicate WellShaped(t: Tree, depth: nat)
    decreases t
  {
    && t.depth == depth && t.childCount == |t.children|
    && (t.kind != Expanded ==> t.children == [])
    && forall c <- t.children :: WellShaped(c, depth + 1)
  }

  lemma {:induction false} BuildIsWellShaped(g: Graph, run: Run, depth: nat, visited: Visited)
    requires run in g.runs
    ensures WellShaped(Build(g, run, depth, visited).0, depth)
    decreases RunIds(g) - visited, 0, 0
  {
    if run.id !in visited {
      assert run.id in RunIds(g) - visited;
      var fws := FollowupsOf(g, run);
      BuildAllIsWellShaped(g, fws, |fws|, depth + 1, visited + {run.id});
    }
  }

  lemma {:induction false} BuildAllIsWellShaped(g: Graph, fws: seq<Followup>, n: nat, depth: nat, visited: Visited)
    requires n <= |fws|
    ensures forall c <- BuildAll(g, fws, n, depth, visited).0 :: WellShaped(c, depth)
    decreases RunIds(g) - visited, 1, n
  {
    if n > 0 {
      BuildAllIsWellShaped(g, fws, n - 1, depth, visited);
      var target := RunOf(g, fws[n - 1]);
      if target.Some? { BuildIsWellShaped(g, target.value, depth, BuildAll(g, fws, n - 1, depth, visited).1); }
    }
  }

  // ---------------------------------------------------------------- once each

  /** The expanded runs of a tree, and of the first `n` trees of a list. */
  function ExpandedIds(t: Tree): seq<string>
    decreases t, 0
  {
    (if t.kind.Expanded? then [t.id] else []) + ExpandedIdsOf(t.children, |t.children|)
  }

  function ExpandedIdsOf(ts: seq<Tree>, n: nat): seq<string>
    requires n <= |ts|
    decreases ts, n
  {
    if n == 0 then [] else ExpandedIdsOf(ts, n - 1) + ExpandedIds(ts[n - 1])
  }

  predicate Distinct(ids: seq<string>) {
    forall i, j :: 0 <= i < j < |ids| ==> ids[i] != ids[j]
  }

  /** `ids` are the new members of the visited set, each once. */
  predicate News(ids: seq<string>, visited: Visited, visited': Visited) {
    Distinct(ids) && (forall x <- ids :: x !in visited) && visited' == visited + set x | x in ids
  }

  lemma NewsAppend(a: seq<string>, b: seq<string>, v: Visited, v': Visited, v'': Visited)
    requires News(a, v, v') && News(b, v', v'')
    ensures News(a + b, v, v'')
  {
    forall i, j | 0 <= i < j < |a + b| ensures (a + b)[i] != (a + b)[j] {
      if i < |a| <= j { assert a[i] in v' && b[j - |a|] in b; }
    }
    assert (set x | x in a + b) == (set x | x in a) + (set x | x in b);
  }

  lemma {:induction false} SameIdsOf(ts: seq<Tree>, t: Tree, n: nat)
    requires n <= |ts|
    ensures ExpandedIdsOf(ts + [t], n) == ExpandedIdsOf(ts, n)
  {
    if n > 0 { SameIdsOf(ts, t, n - 1); }
  }

  lemma {:induction false} ExpandsOnce(g: Graph, run: Run, depth: nat, visited: Visited)
    requires run in g.runs
    ensures var (t, visited') := Build(g, run, depth, visited); News(ExpandedIds(t), visited, visited')
    decreases RunIds(g) - visited, 0, 0
  {
    if run.id !in visited {
      assert run.id in RunIds(g) - visited;
      var fws := FollowupsOf(g, run);
      ExpandsAllOnce(g, fws, |fws|, depth + 1, visited + {run.id});
      var (children, visited') := BuildAll(g, fws, |fws|, depth + 1, visited + {run.id});
      NewsAppend([run.id], ExpandedIdsOf(children, |children|), visited, visited + {run.id}, visited');
    }
  }

  lemma {:induction false} ExpandsAllOnce(g: Graph, fws: seq<Followup>, n: nat, depth: nat, visited: Visited)
    requires n <= |fws|
    ensures var (ts, visited') := BuildAll(g, fws, n, depth, visited); News(ExpandedIdsOf(ts, n), visited, visited')
    decreases RunIds(g) - visited, 1, n
  {
    if n > 0 {
      ExpandsAllOnce(g, fws, n - 1, depth, visited);
      var (before, seen) := BuildAll(g, fws, n - 1, depth, visited);
      var (ts, visited') := BuildAll(g, fws, n, depth, visited);
      var target := RunOf(g, fws[n - 1]);
      if target.Some? {
        ExpandsOnce(g, target.value, depth, seen);
        assert ts[n - 1] == Build(g, target.value, depth, seen).0;
      } else {
        assert ts[n - 1] == Tree(fws[n - 1].id, Stub, depth, 0, []) && ExpandedIds(ts[n - 1]) == [];
      }
      assert News(ExpandedIds(ts[n - 1]), seen, visited');
      assert ts == before + [ts[n - 1]];
      SameIdsOf(before, ts[n - 1], n - 1);
      NewsAppend(ExpandedIdsOf(before, n - 1), ExpandedIds(ts[n - 1]), visited, seen, visited');
    }
  }

  // ---------------------------------------------------------------- exactly the reachable runs

  predicate Leads(g: Graph, a: Run, b: Run) {
    exists fw <- FollowupsOf(g, a) :: RunOf(g, fw) == Some(b)
  }

  /** A chain of follow-up calls, each leading from one run to the next. */
  predicate CallPath(g: Graph, p: seq<Run>)
    decreases |p|
  {
    p != [] && p[0] in g.runs && (|p| == 1 || (Leads(g, p[0], p[1]) && CallPath(g, p[1..])))
  }

  ghost predicate Reachable(g: Graph, run: Run, id: string) {
    exists p: seq<Run> :: CallPath(g, p) && p[0] == run && p[|p| - 1].id == id
  }

  /** Run ids are the primary key of their table. */
  predicate DistinctRuns(g: Graph) {
    forall r <- g.runs, r' <- g.runs :: r.id == r'.id ==> r == r'
  }

  lemma PathFrom(g: Graph, a: Run, p: seq<Run>)
    requires a in g.runs && CallPath(g, p) && Leads(g, a, p[0])
    ensures CallPath(g, [a] + p)
  {
    assert ([a] + p)[1..] == p;
  }

  lemma ReachableNext(g: Graph, a: Run, b: Run, id: string)
    requires a in g.runs && Leads(g, a, b) && Reachable(g, b, id)
    ensures Reachable(g, a, id)
  {
    var p: seq<Run> :| CallPath(g, p) && p[0] == b && p[|p| - 1].id == id;
    PathFrom(g, a, p);
    var q := [a] + p;
    assert q[0] == a && q[|q| - 1] == p[|p| - 1];
  }

  lemma {:induction false} BuildIsSound(g: Graph, run: Run, depth: nat, visited: Visited, x: string)
    requires run in g.runs && x in Build(g, run, depth, visited).1 - visited
    ensures Reachable(g, run, x)
    decreases RunIds(g) - visited, 0, 0
  {
    assert run.id in RunIds(g) - visited;
    if x == run.id {
      assert CallPath(g, [run]) && [run][0].id == x;
    } else {
      var fws := FollowupsOf(g, run);
      var k := BuildAllIsSound(g, fws, |fws|, depth + 1, visited + {run.id}, x);
      assert fws[k] in fws;
      ReachableNext(g, run, RunOf(g, fws[k]).value, x);
    }
  }

  lemma {:induction false} BuildAllIsSound(g: Graph, fws: seq<Followup>, n: nat, depth: nat, visited: Visited, x: string) returns (k: nat)
    requires n <= |fws| && x in BuildAll(g, fws, n, depth, visited).1 - visited
    ensures k < n && RunOf(g, fws[k]).Some? && Reachable(g, RunOf(g, fws[k]).value, x)
    decreases RunIds(g) - visited, 1, n
  {
    var seen := BuildAll(g, fws, n - 1, depth, visited).1;
    if x in seen {
      k := BuildAllIsSound(g, fws, n - 1, depth, visited, x);
    } else {
      k := n - 1;
      BuildIsSound(g, RunOf(g, fws[k]).value, depth, seen, x);
    }
  }

  /** The walk has followed everything the new runs lead to. */
  predicate Closed(g: Graph, visited: Visited, visited': Visited) {
    forall a <- g.runs, b <- g.runs :: a.id in visited' && a.id !in visited && Leads(g, a, b) ==> b.id in visited'
  }

  lemma {:induction false} BuildCloses(g: Graph, run: Run, depth: nat, visited: Visited)
    requires run in g.runs && DistinctRuns(g)
    ensures var visited' := Build(g, run, depth, visited).1; Closed(g, visited, visited') && run.id in visited'
    decreases RunIds(g) - visited, 0, 0
  {
    if run.id !in visited {
      assert run.id in RunIds(g) - visited;
      var fws := FollowupsOf(g, run);
      BuildAllCloses(g, fws, |fws|, depth + 1, visited + {run.id});
      var visited' := Build(g, run, depth, visited).1;
      forall b | Leads(g, run, b) ensures b.id in visited' {
        var fw :| fw in fws && RunOf(g, fw) == Some(b);
        var k :| 0 <= k < |fws| && fws[k] == fw;
      }
    }
  }

  lemma {:induction false} BuildAllCloses(g: Graph, fws: seq<Followup>, n: nat, depth: nat, visited: Visited)
    requires n <= |fws| && DistinctRuns(g)
    ensures var visited' := BuildAll(g, fws, n, depth, visited).1;
      && Closed(g, visited, visited')
      && forall k :: 0 <= k < n && RunOf(g, fws[k]).Some? ==> RunOf(g, fws[k]).value.id in visited'
    decreases RunIds(g) - visited, 1, n
  {
    if n > 0 {
      BuildAllCloses(g, fws, n - 1, depth, visited);
      var target := RunOf(g, fws[n - 1]);
      if target.Some? { BuildCloses(g, target.value, depth, BuildAll(g, fws, n - 1, depth, visited).1); }
    }
  }

  lemma {:induction false} ClosedContainsPaths(g: Graph, visited: Visited, p: seq<Run>)
    requires Closed(g, {}, visited) && CallPath(g, p) && p[0].id in visited
    ensures p[|p| - 1].id in visited
    decreases |p|
  {
    if |p| > 1 {
      assert CallPath(g, p[1..]) && p[1..][0] == p[1];
      ClosedContainsPaths(g, visited, p[1..]);
    }
  }

  /** On any graph, cyclic or not: the tree has the right shape, and expands exactly the runs that follow-up
      calls lead to from its root, each once. */
  lemma TreeExpandsReachableRunsOnce(g: Graph, root: Run)
    requires root in g.runs && DistinctRuns(g)
    ensures var t := Build(g, root, 0, {}).0;
      WellShaped(t, 0) && Distinct(ExpandedIds(t)) && forall x :: x in ExpandedIds(t) <==> Reachable(g, root, x)
  {
    var (t, visited) := Build(g, root, 0, {});
    BuildIsWellShaped(g, root, 0, {});
    ExpandsOnce(g, root, 0, {});
    BuildCloses(g, root, 0, {});
    forall x ensures x in ExpandedIds(t) <==> Reachable(g, root, x) {
      if x in ExpandedIds(t) { BuildIsSound(g, root, 0, {}, x); }
      if Reachable(g, root, x) {
        var p: seq<Run> :| CallPath(g, p) && p[0] == root && p[|p| - 1].id == x;
        ClosedContainsPaths(g, visited, p);
      }
    }
  }
}
