/** What `reconstruct` guarantees of the whole tree, however the call graph shares or cycles. */
module ChainBounds {
  import opened Prelude
  import opened TaintDag
  import opened Chains

  // ---------------------------------------------------------------- each key at most once

  function KeySet(ds: seq<Dag>): set<string> {
    set i | 0 <= i < |ds| :: Key(ds[i])
  }

  /** No key is in `visited`, and no two DAGs share one. */
  predicate FreshKeys(ds: seq<Dag>, visited: set<string>) {
    && (forall i :: 0 <= i < |ds| ==> Key(ds[i]) !in visited)
    && (forall i, j :: 0 <= i < j < |ds| ==> Key(ds[i]) != Key(ds[j]))
  }

  lemma FreshKeysAppend(a: seq<Dag>, b: seq<Dag>, visited: set<string>)
    requires FreshKeys(a, visited) && FreshKeys(b, visited + KeySet(a))
    ensures FreshKeys(a + b, visited) && KeySet(a + b) == KeySet(a) + KeySet(b)
  {
    var ab := a + b;
    forall i, j | 0 <= i < j < |ab| ensures Key(ab[i]) != Key(ab[j]) {
      if i < |a| <= j { assert Key(a[i]) in KeySet(a); }
    }
    forall k | k in KeySet(a) + KeySet(b) ensures k in KeySet(ab) {
      if k in KeySet(a) {
        var i :| 0 <= i < |a| && Key(a[i]) == k;
        assert ab[i] == a[i];
      } else {
        var i :| 0 <= i < |b| && Key(b[i]) == k;
        assert ab[|a| + i] == b[i];
      }
    }
  }

  lemma {:induction false} ExpandVisitsOnce(ix: Index, d: Dag, visited: set<string>, maxDepth: int, depth: nat)
    ensures var e := Expand(ix, d, visited, maxDepth, depth);
            FreshKeys(e.expanded, visited) && e.visited == visited + KeySet(e.expanded)
    decreases Room(maxDepth, depth), 1, 0
  {
    if Key(d) !in visited {
      var arcs := SortedArcs(d);
      ExpandEdgesVisitOnce(ix, d, arcs, |arcs|, visited + {Key(d)}, maxDepth, depth);
      var p := ExpandEdges(ix, d, arcs, |arcs|, visited + {Key(d)}, maxDepth, depth);
      assert [d][0] == d;
      assert KeySet([d]) == {Key(d)};
      FreshKeysAppend([d], p.expanded, visited);
    }
  }

  /** What was expanded so far is new, each key once, and is what the visited set gained. */
  predicate VisitedOnce(expanded: seq<Dag>, visited: set<string>, visited': set<string>) {
    FreshKeys(expanded, visited) && visited' == visited + KeySet(expanded)
  }

  lemma {:induction false} ExpandEdgesVisitOnce(ix: Index, d: Dag, arcs: seq<Arc>, n: nat, visited: set<string>, maxDepth: int, depth: nat)
    requires n <= |arcs|
    ensures var p := ExpandEdges(ix, d, arcs, n, visited, maxDepth, depth); VisitedOnce(p.expanded, visited, p.visited)
    decreases Room(maxDepth, depth), 0, n
  {
    if n > 0 {
      ExpandEdgesVisitOnce(ix, d, arcs, n - 1, visited, maxDepth, depth);
      var p := ExpandEdges(ix, d, arcs, n - 1, visited, maxDepth, depth);
      var target := Expansion(ix, arcs[n - 1].1, maxDepth, depth);
      var sub := if target.None? then None else Some(Expand(ix, target.value, p.visited, maxDepth, depth + 1));
      if target.Some? { ExpandVisitsOnce(ix, target.value, p.visited, maxDepth, depth + 1); }
      AdvanceVisitsOnce(ix, d, p, arcs[n - 1], n, sub, maxDepth, depth, visited);
    }
  }

  lemma AdvanceVisitsOnce(ix: Index, d: Dag, p: Progress, a: Arc, n: nat, sub: Option<Expanded>, maxDepth: int, depth: nat, visited: set<string>)
    requires VisitedOnce(p.expanded, visited, p.visited)
    requires sub.Some? ==> VisitedOnce(sub.value.expanded, p.visited, sub.value.visited)
    ensures var p' := Advance(ix, d, p, a, n, sub, maxDepth, depth); VisitedOnce(p'.expanded, visited, p'.visited)
  {
    if sub.Some? { FreshKeysAppend(p.expanded, sub.value.expanded, visited); }
  }

  // ---------------------------------------------------------------- how many steps

  function TotalOf(steps: seq<ChainStep>): nat
    decreases steps
  {
    if steps == [] then 0
    else
      var last := steps[|steps| - 1];
      TotalOf(steps[..|steps| - 1]) + 1 + if last.sub.Some? then TotalOf(last.sub.value.steps) else 0
  }

  lemma TotalOfAppend(steps: seq<ChainStep>, s: ChainStep)
    ensures TotalOf(steps + [s]) == TotalOf(steps) + 1 + if s.sub.Some? then TotalOf(s.sub.value.steps) else 0
  {
    assert (steps + [s])[..|steps|] == steps;
  }

  lemma StepsForTotal(steps: seq<ChainStep>, d: Dag, a: Arc, number: int, state: TaintState, effect: Effect, sub: Option<Chain>)
    requires sub.Some? ==> a.1.kind.Callee?
    ensures TotalOf(steps + StepsFor(d, a, number, state, effect, sub))
         == TotalOf(steps) + (if StepKindOf(a.1.kind).Some? then 1 else 0)
            + if sub.Some? then TotalOf(sub.value.steps) else 0
  {
    var added := StepsFor(d, a, number, state, effect, sub);
    if added == [] { assert steps + added == steps; } else { TotalOfAppend(steps, added[0]); }
  }

  function KnownArcs(arcs: seq<Arc>, n: nat): nat
    requires n <= |arcs|
  {
    if n == 0 then 0 else KnownArcs(arcs, n - 1) + if StepKindOf(arcs[n - 1].1.kind).Some? then 1 else 0
  }

  /** The steps one expansion of a DAG contributes: its entry, and its edges of a known kind. */
  function StepsOf(d: Dag): nat {
    |EntrySteps(d)| + KnownArcs(SortedArcs(d), |SortedArcs(d)|)
  }

  function EdgeCount(nodes: seq<Node>): nat {
    if nodes == [] then 0 else EdgeCount(nodes[..|nodes| - 1]) + |nodes[|nodes| - 1].children|
  }

  function SumSteps(ds: seq<Dag>): nat {
    if ds == [] then 0 else StepsOf(ds[0]) + SumSteps(ds[1..])
  }

  /** The sum of one plus the edge count. */
  function SumSizes(ds: seq<Dag>): nat {
    if ds == [] then 0 else 1 + EdgeCount(ds[0].nodes) + SumSizes(ds[1..])
  }

  lemma {:induction false} SumStepsAppend(a: seq<Dag>, b: seq<Dag>)
    ensures SumSteps(a + b) == SumSteps(a) + SumSteps(b)
  {
    if a == [] {
      assert a + b == b;
    } else {
      assert (a + b)[1..] == a[1..] + b;
      SumStepsAppend(a[1..], b);
    }
  }

  /** The steps so far: `own` of this DAG, and those of the DAGs expanded below it. */
  predicate Accounted(p: Progress, own: nat) {
    TotalOf(p.steps) == own + SumSteps(p.expanded)
  }

  predicate FullyAccounted(e: Expanded) {
    TotalOf(e.chain.steps) == SumSteps(e.expanded)
  }

  lemma {:induction false} ExpandTotal(ix: Index, d: Dag, visited: set<string>, maxDepth: int, depth: nat)
    ensures FullyAccounted(Expand(ix, d, visited, maxDepth, depth))
    decreases Room(maxDepth, depth), 1, 0
  {
    if Key(d) !in visited {
      var arcs := SortedArcs(d);
      ExpandEdgesTotal(ix, d, arcs, |arcs|, visited + {Key(d)}, maxDepth, depth);
      var p := ExpandEdges(ix, d, arcs, |arcs|, visited + {Key(d)}, maxDepth, depth);
      assert ([d] + p.expanded)[1..] == p.expanded;
    }
  }

  lemma {:induction false} ExpandEdgesTotal(ix: Index, d: Dag, arcs: seq<Arc>, n: nat, visited: set<string>, maxDepth: int, depth: nat)
    requires n <= |arcs|
    ensures Accounted(ExpandEdges(ix, d, arcs, n, visited, maxDepth, depth), |EntrySteps(d)| + KnownArcs(arcs, n))
    decreases Room(maxDepth, depth), 0, n
  {
    if n == 0 {
      EntryTotal(d);
    } else {
      ExpandEdgesTotal(ix, d, arcs, n - 1, visited, maxDepth, depth);
      var p := ExpandEdges(ix, d, arcs, n - 1, visited, maxDepth, depth);
      var target := Expansion(ix, arcs[n - 1].1, maxDepth, depth);
      var sub := if target.None? then None else Some(Expand(ix, target.value, p.visited, maxDepth, depth + 1));
      if target.Some? { ExpandTotal(ix, target.value, p.visited, maxDepth, depth + 1); }
      AdvanceTotal(ix, d, p, |EntrySteps(d)| + KnownArcs(arcs, n - 1), arcs[n - 1], n, sub, maxDepth, depth);
    }
  }

  lemma EntryTotal(d: Dag)
    ensures TotalOf(EntrySteps(d)) == |EntrySteps(d)|
  {
    if d.nodes != [] { TotalOfAppend([], EntrySteps(d)[0]); }
  }

  lemma AdvanceTotal(ix: Index, d: Dag, p: Progress, own: nat, a: Arc, n: nat, sub: Option<Expanded>, maxDepth: int, depth: nat)
    requires Accounted(p, own)
    requires sub.Some? ==> a.1.kind.Callee? && FullyAccounted(sub.value)
    ensures Accounted(Advance(ix, d, p, a, n, sub, maxDepth, depth), own + if StepKindOf(a.1.kind).Some? then 1 else 0)
  {
    var state := Advance(ix, d, p, a, n, sub, maxDepth, depth).state;
    match sub
    case None => StepsForTotal(p.steps, d, a, n, state, PlainEffect(ix, a.1, maxDepth, depth), None);
    case Some(e) =>
      SumStepsAppend(p.expanded, e.expanded);
      StepsForTotal(p.steps, d, a, n, state, InferEffect(e.chain), Some(e.chain));
  }

  lemma {:induction false} ArcsCount(nodes: seq<Node>)
    ensures |Arcs(nodes)| == EdgeCount(nodes)
  {
    if nodes != [] {
      ArcsCount(nodes[..|nodes| - 1]);
      ArcsOfCount(nodes[|nodes| - 1], |nodes[|nodes| - 1].children|);
    }
  }

  lemma ArcsOfCount(n: Node, k: nat)
    requires k <= |n.children|
    ensures |ArcsOf(n, k)| == k
  {
  }

  lemma KnownArcsBound(arcs: seq<Arc>, n: nat)
    requires n <= |arcs|
    ensures KnownArcs(arcs, n) <= n
  {
  }

  lemma {:induction false} SumStepsBound(ds: seq<Dag>)
    ensures SumSteps(ds) <= SumSizes(ds)
  {
    if ds != [] {
      SumStepsBound(ds[1..]);
      var d := ds[0];
      ArcsCount(d.nodes);
      SortKeepsLength(Arcs(d.nodes));
      KnownArcsBound(SortedArcs(d), |SortedArcs(d)|);
    }
  }

  // ---------------------------------------------------------------- how deep

  /** How many calls deep the tree nests. */
  function NestingOf(steps: seq<ChainStep>): nat
    decreases steps
  {
    if steps == [] then 0
    else
      var last := steps[|steps| - 1];
      Max(NestingOf(steps[..|steps| - 1]), if last.sub.Some? then 1 + NestingOf(last.sub.value.steps) else 0)
  }

  lemma NestingOfAppend(steps: seq<ChainStep>, s: ChainStep)
    ensures NestingOf(steps + [s]) == Max(NestingOf(steps), if s.sub.Some? then 1 + NestingOf(s.sub.value.steps) else 0)
  {
    assert (steps + [s])[..|steps|] == steps;
  }

  lemma StepsForNesting(steps: seq<ChainStep>, d: Dag, a: Arc, number: int, state: TaintState, effect: Effect,
                        sub: Option<Chain>, bound: nat)
    requires NestingOf(steps) <= bound
    requires sub.Some? ==> NestingOf(sub.value.steps) < bound
    ensures NestingOf(steps + StepsFor(d, a, number, state, effect, sub)) <= bound
  {
    var added := StepsFor(d, a, number, state, effect, sub);
    if added == [] { assert steps + added == steps; } else { NestingOfAppend(steps, added[0]); }
  }

  lemma {:induction false} ExpandNesting(ix: Index, d: Dag, visited: set<string>, maxDepth: int, depth: nat)
    ensures NestingOf(Expand(ix, d, visited, maxDepth, depth).chain.steps) <= Room(maxDepth, depth)
    decreases Room(maxDepth, depth), 1, 0
  {
    if Key(d) !in visited {
      ExpandEdgesNesting(ix, d, SortedArcs(d), |SortedArcs(d)|, visited + {Key(d)}, maxDepth, depth);
    }
  }

  lemma {:induction false} ExpandEdgesNesting(ix: Index, d: Dag, arcs: seq<Arc>, n: nat, visited: set<string>, maxDepth: int, depth: nat)
    requires n <= |arcs|
    ensures NestingOf(ExpandEdges(ix, d, arcs, n, visited, maxDepth, depth).steps) <= Room(maxDepth, depth)
    decreases Room(maxDepth, depth), 0, n
  {
    if n == 0 {
      if d.nodes != [] { NestingOfAppend([], EntrySteps(d)[0]); }
    } else {
      ExpandEdgesNesting(ix, d, arcs, n - 1, visited, maxDepth, depth);
      var p := ExpandEdges(ix, d, arcs, n - 1, visited, maxDepth, depth);
      var (a, state) := (arcs[n - 1], ExpandEdges(ix, d, arcs, n, visited, maxDepth, depth).state);
      var target := Expansion(ix, a.1, maxDepth, depth);
      if target.Some? {
        var sub := Expand(ix, target.value, p.visited, maxDepth, depth + 1);
        ExpandNesting(ix, target.value, p.visited, maxDepth, depth + 1);
        StepsForNesting(p.steps, d, a, n, state, InferEffect(sub.chain), Some(sub.chain), Room(maxDepth, depth));
      } else {
        StepsForNesting(p.steps, d, a, n, state, PlainEffect(ix, a.1, maxDepth, depth), None, Room(maxDepth, depth));
      }
    }
  }

  /** The bounds on the whole tree: every (function, taint) key is expanded at most once, calls nest
      at most `maxDepth` deep, and the steps are exactly those of the expanded DAGs, so at most
      one plus the edge count of each. */
  lemma ReconstructIsBounded(ix: Index, d: Dag, maxDepth: int)
    ensures var e := Reconstructed(ix, d, maxDepth);
      && FreshKeys(e.expanded, {}) && e.visited == KeySet(e.expanded)
      && NestingOf(e.chain.steps) <= Max(0, maxDepth)
      && TotalOf(e.chain.steps) == SumSteps(e.expanded) <= SumSizes(e.expanded)
  {
    ExpandVisitsOnce(ix, d, {}, maxDepth, 0);
    ExpandTotal(ix, d, {}, maxDepth, 0);
    ExpandNesting(ix, d, {}, maxDepth, 0);
    SumStepsBound(Reconstructed(ix, d, maxDepth).expanded);
  }

  // ---------------------------------------------------------------- never clean

  /** No step of the tree is clean or believes its callee cleaned the taint. */
  predicate NeverClean(steps: seq<ChainStep>)
    decreases steps
  {
    forall i :: 0 <= i < |steps| ==>
      && steps[i].state == Tainted && steps[i].effect != Some(Sanitized)
      && (steps[i].sub.Some? ==> steps[i].sub.value.state == Tainted && NeverClean(steps[i].sub.value.steps))
  }

  lemma StepsForNeverClean(steps: seq<ChainStep>, d: Dag, a: Arc, number: int, effect: Effect, sub: Option<Chain>)
    requires NeverClean(steps) && effect != Sanitized
    requires sub.Some? ==> sub.value.state == Tainted && NeverClean(sub.value.steps)
    ensures StateAfter(Tainted, a.1.kind, effect) == Tainted
    ensures NeverClean(steps + StepsFor(d, a, number, Tainted, effect, sub))
  {
  }

  lemma {:induction false} NeverInfersSanitized(steps: seq<ChainStep>, i: nat)
    requires i <= |steps| && NeverClean(steps)
    ensures InferFrom(steps, i) != Some(Sanitized)
    decreases |steps| - i
  {
    if i < |steps| {
      NeverInfersSanitized(steps, i + 1);
    }
  }

  lemma {:induction false} ExpandNeverClean(ix: Index, d: Dag, visited: set<string>, maxDepth: int, depth: nat)
    ensures var c := Expand(ix, d, visited, maxDepth, depth).chain; c.state == Tainted && NeverClean(c.steps)
    decreases Room(maxDepth, depth), 1, 0
  {
    if Key(d) !in visited {
      ExpandEdgesNeverClean(ix, d, SortedArcs(d), |SortedArcs(d)|, visited + {Key(d)}, maxDepth, depth);
    }
  }

  lemma {:induction false} ExpandEdgesNeverClean(ix: Index, d: Dag, arcs: seq<Arc>, n: nat, visited: set<string>, maxDepth: int, depth: nat)
    requires n <= |arcs|
    ensures var p := ExpandEdges(ix, d, arcs, n, visited, maxDepth, depth); p.state == Tainted && NeverClean(p.steps)
    decreases Room(maxDepth, depth), 0, n
  {
    if n > 0 {
      ExpandEdgesNeverClean(ix, d, arcs, n - 1, visited, maxDepth, depth);
      var p := ExpandEdges(ix, d, arcs, n - 1, visited, maxDepth, depth);
      var a := arcs[n - 1];
      var target := Expansion(ix, a.1, maxDepth, depth);
      if target.Some? {
        var sub := Expand(ix, target.value, p.visited, maxDepth, depth + 1);
        ExpandNeverClean(ix, target.value, p.visited, maxDepth, depth + 1);
        NeverInfersSanitized(sub.chain.steps, 0);
        StepsForNeverClean(p.steps, d, a, n, InferEffect(sub.chain), Some(sub.chain));
      } else {
        StepsForNeverClean(p.steps, d, a, n, PlainEffect(ix, a.1, maxDepth, depth), None);
      }
    }
  }

  // ---------------------------------------------------------------- the two walks agree

  predicate SameOutline(a: seq<ChainStep>, b: seq<ChainStep>) {
    |a| == |b| && forall i :: 0 <= i < |a| ==>
      a[i].number == b[i].number && a[i].kind == b[i].kind && a[i].line == b[i].line
      && a[i].node == b[i].node && a[i].taints == b[i].taints && a[i].checks == b[i].checks
  }

  lemma SameOutlineAppend(a: seq<ChainStep>, b: seq<ChainStep>, x: seq<ChainStep>, y: seq<ChainStep>)
    requires SameOutline(a, b) && SameOutline(x, y)
    ensures SameOutline(a + x, b + y)
  {
  }

  lemma {:induction false} ExpandEdgesOutline(ix: Index, d: Dag, arcs: seq<Arc>, n: nat, visited: set<string>, maxDepth: int, depth: nat)
    requires n <= |arcs|
    ensures SameOutline(ChainSteps(ix, d, arcs, n), ExpandEdges(ix, d, arcs, n, visited, maxDepth, depth).steps)
    decreases n
  {
    if n > 0 {
      ExpandEdgesOutline(ix, d, arcs, n - 1, visited, maxDepth, depth);
      var p := ExpandEdges(ix, d, arcs, n - 1, visited, maxDepth, depth);
      var q := ExpandEdges(ix, d, arcs, n, visited, maxDepth, depth);
      var before := ChainSteps(ix, d, arcs, n - 1);
      var all := ChainSteps(ix, d, arcs, n);
      SameOutlineAppend(before, p.steps, all[|before|..], q.steps[|p.steps|..]);
      assert all == before + all[|before|..] && q.steps == p.steps + q.steps[|p.steps|..];
    }
  }

  /** On one root DAG both walks produce the same steps, except that `reconstruct` never says "clean"
      anywhere in its tree: it over-approximates `build_chain` step by step. */
  lemma ReconstructOverApproximates(ix: Index, d: Dag, maxDepth: int)
    ensures var c := Reconstructed(ix, d, maxDepth).chain;
      && SameOutline(BuiltChain(ix, d), c.steps)
      && c.state == Tainted && NeverClean(c.steps)
  {
    ExpandEdgesOutline(ix, d, SortedArcs(d), |SortedArcs(d)|, {Key(d)}, maxDepth, 0);
    ExpandNeverClean(ix, d, {}, maxDepth, 0);
    assert {} + {Key(d)} == {Key(d)};
    if d.nodes == [] { ArcsCount(d.nodes); SortKeepsLength(Arcs(d.nodes)); }
  }
}
