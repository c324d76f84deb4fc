/**
 The two chain walks over taint DAGs: `build_chain` (app/dagflow/chain_builder.py), which asks the
 callee's DAG for its effect, and `reconstruct` (app/dagflow/chain_reconstructor.py), which expands
 the callee's DAG in place, with one visited set for the whole tree.
 */
module Chains {
  import opened Prelude
  import opened TaintDag

  datatype TaintState = Tainted | Clean
  datatype Effect = Sanitized | Returned | Propagated | Unchanged | Undetermined | Indirect | Sinks
  datatype StepKind = EntryStep | InsideStep | CalleeStep | EscapeStep | ReturnStep | SourceStep

  datatype ChainStep = ChainStep(
    number: int, kind: StepKind, line: int, state: TaintState, node: int, taints: seq<string>,
    checks: seq<string>, effect: Option<Effect>, isSink: bool, sub: Option<Chain>)

  /** `skipped`: the key had been expanded before, so the chain has no steps. */
  datatype Chain = Chain(func: string, taint: string, state: TaintState, steps: seq<ChainStep>, skipped: bool)

  /** What both walks ask from outside: the function index, the stored DAGs, and which callee names
      are dangerous sinks. A DAG is loaded under the key it is asked for (dag_mysql_store.py:245). */
  datatype Index = Index(functions: map<string, string>, dags: map<(string, string), Dag>, sinks: string -> bool)
  {
    function Load(funcId: string, signature: string): Option<Dag> {
      if (funcId, signature) in dags
      then Some(dags[(funcId, signature)].(funcId := funcId, signature := signature))
      else None
    }

    function Lookup(name: string): Option<string> {
      if name in functions then Some(functions[name]) else None
    }
  }

  function StepKindOf(k: EdgeKind): Option<StepKind> {
    match k
    case Inside => Some(InsideStep)
    case Callee => Some(CalleeStep)
    case Extern => Some(EscapeStep)
    case Container => Some(EscapeStep)
    case Return => Some(ReturnStep)
    case Source => Some(SourceStep)
    case Other(_) => None
  }

  /** The first node without parents, or marked as a source; failing that, the first node. */
  function EntryIndex(nodes: seq<Node>, from: nat := 0): nat
    requires from <= |nodes|
    decreases |nodes| - from
  {
    if from == |nodes| then 0
    else if nodes[from].parents == [] || nodes[from].isSource then from
    else EntryIndex(nodes, from + 1)
  }

  lemma EntryIndexInRange(nodes: seq<Node>, from: nat)
    requires from <= |nodes|
    ensures nodes != [] ==> EntryIndex(nodes, from) < |nodes|
    decreases |nodes| - from
  {
  }

  function EntrySteps(d: Dag): seq<ChainStep> {
    if d.nodes == [] then []
    else
      EntryIndexInRange(d.nodes, 0);
      var n := d.nodes[EntryIndex(d.nodes)];
      [ChainStep(0, EntryStep, n.line, Tainted, n.id, [n.taint], n.checks, None, false, None)]
  }

  function ChecksOf(nodes: seq<Node>, id: int): seq<string> {
    if nodes == [] then [] else if nodes[0].id == id then nodes[0].checks else ChecksOf(nodes[1..], id)
  }

  /** The step an edge contributes; an edge of an unknown kind takes a number but adds no step. A callee that
      is itself a sink is never expanded: its effect is its own, not one inferred from a sub chain. */
  function StepsFor(d: Dag, a: Arc, number: int, state: TaintState, effect: Effect, sub: Option<Chain>): seq<ChainStep> {
    var kind := StepKindOf(a.1.kind);
    if kind.None? then []
    else [ChainStep(number, kind.value, a.1.line, state, a.0.id, a.1.taints,
                    if a.1.kind.Inside? then ChecksOf(d.nodes, a.1.toNode) else [],
                    if a.1.kind.Callee? then Some(effect) else None,
                    a.1.kind.Callee? && effect.Sinks? && sub.None?, sub)]
  }

  function StateAfter(before: TaintState, k: EdgeKind, effect: Effect): TaintState {
    if k.Callee? && effect.Sanitized? then Clean else if k.Source? then Tainted else before
  }

  // ---------------------------------------------------------------- callee_effect

  predicate SanitizesNode(n: Node, taint: string) {
    n.prune.Some? && n.prune.value.reason == "sanitized" && n.taint == taint
  }

  predicate ReturnsTaint(e: Edge, taint: string) {
    e.kind.Return? && taint in e.taints
  }

  predicate PassesOn(e: Edge) {
    e.kind.Callee? && exists i :: 0 <= i < |e.paramTaints| && IsRealParam(e.paramTaints[i].param)
  }

  /** Some edge of the first `k` nodes returns the taint; passes it on. */
  ghost predicate AnyReturn(nodes: seq<Node>, k: nat, taint: string)
    requires k <= |nodes|
  {
    exists i, j :: 0 <= i < k && 0 <= j < |nodes[i].children| && ReturnsTaint(nodes[i].children[j], taint)
  }

  ghost predicate AnyPass(nodes: seq<Node>, k: nat)
    requires k <= |nodes|
  {
    exists i, j :: 0 <= i < k && 0 <= j < |nodes[i].children| && PassesOn(nodes[i].children[j])
  }

  /** The effect a callee's DAG has on a taint: cleaning wins over returning, returning over passing on. */
  ghost function EffectOn(ix: Index, funcId: string, signature: string, taint: string): Effect {
    var dag := ix.Load(funcId, signature);
    if dag.None? then Undetermined
    else
      var nodes := dag.value.nodes;
      if exists i :: 0 <= i < |nodes| && SanitizesNode(nodes[i], taint) then Sanitized
      else if AnyReturn(nodes, |nodes|, taint) then Returned
      else if AnyPass(nodes, |nodes|) then Propagated
      else Unchanged
  }

  /** The part of the scan that looks at one node's edges. */
  method ScanEdges(edges: seq<Edge>, taint: string) returns (returned: seq<string>, passed: seq<(string, string)>)
    ensures returned != [] <==> exists k :: 0 <= k < |edges| && ReturnsTaint(edges[k], taint)
    ensures passed != [] <==> exists k :: 0 <= k < |edges| && PassesOn(edges[k])
    ensures forall p <- passed :: IsRealParam(p.1)
  {
    returned, passed := [], [];
    for j := 0 to |edges|
      invariant returned != [] <==> exists k :: 0 <= k < j && ReturnsTaint(edges[k], taint)
      invariant passed != [] <==> exists k :: 0 <= k < j && PassesOn(edges[k])
      invariant forall p <- passed :: IsRealParam(p.1)
    {
      var e := edges[j];
      if ReturnsTaint(e, taint) {
        assert |e.taints| > 0;
        returned := returned + e.taints;
      }
      if e.kind.Callee? {
        var passed0 := passed;
        for m := 0 to |e.paramTaints|
          invariant passed != [] <==> passed0 != [] || exists k :: 0 <= k < m && IsRealParam(e.paramTaints[k].param)
          invariant forall p <- passed :: IsRealParam(p.1)
        {
          if IsRealParam(e.paramTaints[m].param) {
            passed := passed + [(e.sinkRef, e.paramTaints[m].param)];
          }
        }
      }
    }
  }

  method CalleeEffect(ix: Index, funcId: string, signature: string, taint: string)
    returns (effect: Effect, downstream: seq<(string, string)>)
    ensures effect == EffectOn(ix, funcId, signature, taint)
    ensures effect == Propagated <==> downstream != []
    ensures forall p <- downstream :: IsRealParam(p.1)
  {
    var dag := ix.Load(funcId, signature);
    if dag.None? {
      return Undetermined, [];
    }
    var nodes := dag.value.nodes;
    var sanitized, returned: seq<string>, passed: seq<(string, string)> := false, [], [];
    for i := 0 to |nodes|
      invariant sanitized <==> exists k :: 0 <= k < i && SanitizesNode(nodes[k], taint)
      invariant returned != [] <==> AnyReturn(nodes, i, taint)
      invariant passed != [] <==> AnyPass(nodes, i)
      invariant forall p <- passed :: IsRealParam(p.1)
    {
      var n := nodes[i];
      if SanitizesNode(n, taint) { sanitized := true; }
      var r, p := ScanEdges(n.children, taint);
      returned, passed := returned + r, passed + p;
      AnyReturnNext(nodes, i, taint);
      AnyPassNext(nodes, i);
    }
    if sanitized { return Sanitized, []; }
    if returned != [] { return Returned, []; }
    if passed != [] { return Propagated, passed; }
    return Unchanged, [];
  }

  lemma AnyReturnNext(nodes: seq<Node>, k: nat, taint: string)
    requires k < |nodes|
    ensures AnyReturn(nodes, k + 1, taint) <==>
            AnyReturn(nodes, k, taint) || exists j :: 0 <= j < |nodes[k].children| && ReturnsTaint(nodes[k].children[j], taint)
  {
  }

  lemma AnyPassNext(nodes: seq<Node>, k: nat)
    requires k < |nodes|
    ensures AnyPass(nodes, k + 1) <==>
            AnyPass(nodes, k) || exists j :: 0 <= j < |nodes[k].children| && PassesOn(nodes[k].children[j])
  {
  }

  // ---------------------------------------------------------------- build_chain

  ghost function EdgeEffect(ix: Index, e: Edge): Effect {
    var callee := if IsIndirect(e.sinkRef) then None else ix.Lookup(e.sinkRef);
    if callee.Some? && e.paramTaints != [] && IsRealParam(e.paramTaints[0].param)
    then EffectOn(ix, callee.value, e.paramTaints[0].param, e.paramTaints[0].param)
    else Undetermined
  }

  ghost function ChainState(ix: Index, arcs: seq<Arc>, n: nat): TaintState
    requires n <= |arcs|
  {
    if n == 0 then Tainted
    else StateAfter(ChainState(ix, arcs, n - 1), arcs[n - 1].1.kind, EdgeEffect(ix, arcs[n - 1].1))
  }

  /** The steps of the first `n` edges. */
  ghost function ChainSteps(ix: Index, d: Dag, arcs: seq<Arc>, n: nat): seq<ChainStep>
    requires n <= |arcs|
  {
    if n == 0 then EntrySteps(d)
    else
      ChainSteps(ix, d, arcs, n - 1)
      + StepsFor(d, arcs[n - 1], n, ChainState(ix, arcs, n), EdgeEffect(ix, arcs[n - 1].1), None)
  }

  ghost function BuiltChain(ix: Index, d: Dag): seq<ChainStep> {
    if d.nodes == [] then [] else ChainSteps(ix, d, SortedArcs(d), |SortedArcs(d)|)
  }

  method BuildChain(ix: Index, d: Dag) returns (chain: seq<ChainStep>)
    ensures chain == BuiltChain(ix, d)
  {
    if d.nodes == [] {
      return [];
    }
    chain := EntrySteps(d);
    var state := Tainted;
    var arcs := SortedArcs(d);
    for i := 0 to |arcs|
      invariant state == ChainState(ix, arcs, i)
      invariant chain == ChainSteps(ix, d, arcs, i)
    {
      var a := arcs[i];
      var effect := Undetermined;
      if a.1.kind.Callee? {
        var callee := if IsIndirect(a.1.sinkRef) then None else ix.Lookup(a.1.sinkRef);
        if callee.Some? && a.1.paramTaints != [] && IsRealParam(a.1.paramTaints[0].param) {
          var param := a.1.paramTaints[0].param;
          var downstream;
          effect, downstream := CalleeEffect(ix, callee.value, param, param);
        }
      }
      state := StateAfter(state, a.1.kind, effect);
      chain := chain + StepsFor(d, a, i + 1, state, effect, None);
    }
  }

  /** A callee step with effect "sanitized" occurred since the last source step. */
  ghost predicate SanitizedSince(steps: seq<ChainStep>, i: int) {
    exists j :: 0 <= j <= i < |steps| && steps[j].effect == Some(Sanitized)
                && forall m :: j < m <= i ==> !steps[m].kind.SourceStep?
  }

  lemma SanitizedSinceAppend(steps: seq<ChainStep>, s: ChainStep, i: int)
    requires i < |steps|
    ensures SanitizedSince(steps + [s], i) <==> SanitizedSince(steps, i)
  {
    var all := steps + [s];
    if SanitizedSince(steps, i) {
      var j :| 0 <= j <= i && steps[j].effect == Some(Sanitized) && forall m :: j < m <= i ==> !steps[m].kind.SourceStep?;
      assert all[j] == steps[j];
    }
    if SanitizedSince(all, i) {
      var j :| 0 <= j <= i && all[j].effect == Some(Sanitized) && forall m :: j < m <= i ==> !all[m].kind.SourceStep?;
      assert forall m :: j <= m <= i ==> all[m] == steps[m];
    }
  }

  lemma SanitizedSinceLast(steps: seq<ChainStep>, s: ChainStep)
    ensures SanitizedSince(steps + [s], |steps|) <==>
            s.effect == Some(Sanitized) || (!s.kind.SourceStep? && SanitizedSince(steps, |steps| - 1))
  {
    var all := steps + [s];
    if SanitizedSince(all, |steps|) && s.effect != Some(Sanitized) {
      var j :| 0 <= j <= |steps| && all[j].effect == Some(Sanitized) && forall m :: j < m <= |steps| ==> !all[m].kind.SourceStep?;
      assert j < |steps| && all[j] == steps[j];
      assert forall m :: j < m < |steps| ==> all[m] == steps[m];
    }
    if s.effect == Some(Sanitized) { assert all[|steps|] == s; }
    if !s.kind.SourceStep? && SanitizedSince(steps, |steps| - 1) {
      var j :| 0 <= j < |steps| && steps[j].effect == Some(Sanitized) && forall m :: j < m < |steps| ==> !steps[m].kind.SourceStep?;
      assert all[j] == steps[j];
      assert forall m :: j < m <= |steps| ==> all[m] == if m == |steps| then s else steps[m];
    }
  }

  ghost predicate StatesTellSanitizers(steps: seq<ChainStep>) {
    forall i :: 0 <= i < |steps| ==> (steps[i].state == Clean <==> SanitizedSince(steps, i))
  }

  lemma StatesTellSanitizersAppend(steps: seq<ChainStep>, s: ChainStep)
    requires StatesTellSanitizers(steps)
    requires s.state == Clean <==>
             s.effect == Some(Sanitized) || (!s.kind.SourceStep? && SanitizedSince(steps, |steps| - 1))
    ensures StatesTellSanitizers(steps + [s])
  {
    var all := steps + [s];
    SanitizedSinceLast(steps, s);
    forall i | 0 <= i < |all| ensures all[i].state == Clean <==> SanitizedSince(all, i) {
      if i < |steps| {
        SanitizedSinceAppend(steps, s, i);
        assert all[i] == steps[i];
      } else {
        assert all[i] == s;
      }
    }
  }

  lemma EdgeKeepsTellingSanitizers(d: Dag, a: Arc, number: int, before: seq<ChainStep>, state0: TaintState, effect: Effect)
    requires StatesTellSanitizers(before) && (state0 == Clean <==> SanitizedSince(before, |before| - 1))
    ensures var state := StateAfter(state0, a.1.kind, effect);
            var steps := before + StepsFor(d, a, number, state, effect, None);
            StatesTellSanitizers(steps) && (state == Clean <==> SanitizedSince(steps, |steps| - 1))
  {
    var state := StateAfter(state0, a.1.kind, effect);
    var added := StepsFor(d, a, number, state, effect, None);
    if added == [] {
      assert before + added == before;
    } else {
      StatesTellSanitizersAppend(before, added[0]);
      SanitizedSinceLast(before, added[0]);
    }
  }

  lemma {:induction false} StatesFollowSanitizers(ix: Index, d: Dag, arcs: seq<Arc>, n: nat)
    requires n <= |arcs|
    ensures var steps := ChainSteps(ix, d, arcs, n);
      StatesTellSanitizers(steps) && (ChainState(ix, arcs, n) == Clean <==> SanitizedSince(steps, |steps| - 1))
  {
    if n > 0 {
      StatesFollowSanitizers(ix, d, arcs, n - 1);
      EdgeKeepsTellingSanitizers(d, arcs[n - 1], n, ChainSteps(ix, d, arcs, n - 1), ChainState(ix, arcs, n - 1),
                                 EdgeEffect(ix, arcs[n - 1].1));
    }
  }

  /** `build_chain` says "clean" at a step exactly when a callee on the way cleaned the taint and no
      source has tainted it again. */
  lemma CleanMeansSanitized(ix: Index, d: Dag, i: nat)
    requires i < |BuiltChain(ix, d)|
    ensures BuiltChain(ix, d)[i].state == Clean <==> SanitizedSince(BuiltChain(ix, d), i)
  {
    StatesFollowSanitizers(ix, d, SortedArcs(d), |SortedArcs(d)|);
  }

  // ---------------------------------------------------------------- reconstruct

  function Key(d: Dag): string {
    d.funcId + ":" + d.signature
  }

  /** `_infer_effect`: what a caller concludes from an expanded callee. */
  function InferFrom(steps: seq<ChainStep>, i: nat): Option<Effect>
    requires i <= |steps|
    decreases |steps| - i
  {
    if i == |steps| then None
    else if steps[i].isSink then Some(Sinks)
    else if steps[i].effect == Some(Sanitized) then Some(Sanitized)
    else if steps[i].effect == Some(Sinks) then Some(Propagated)
    else InferFrom(steps, i + 1)
  }

  function InferEffect(c: Chain): Effect {
    if c.steps == [] then Unchanged
    else if InferFrom(c.steps, 0).Some? then InferFrom(c.steps, 0).value
    else if exists i :: 0 <= i < |c.steps| && c.steps[i].kind.ReturnStep? then Returned
    else Propagated
  }

  /** Nothing before step `i` settles the effect. */
  predicate Unsettled(steps: seq<ChainStep>, from: nat, i: nat)
    requires i <= |steps|
  {
    forall j :: from <= j < i ==> !steps[j].isSink && steps[j].effect != Some(Sanitized) && steps[j].effect != Some(Sinks)
  }

  lemma {:induction false} InferFromSink(steps: seq<ChainStep>, from: nat)
    requires from <= |steps|
    ensures InferFrom(steps, from) == Some(Sinks) <==>
            exists i :: from <= i < |steps| && steps[i].isSink && Unsettled(steps, from, i)
    decreases |steps| - from
  {
    if from < |steps| {
      InferFromSink(steps, from + 1);
      if steps[from].isSink {
        assert Unsettled(steps, from, from);
      } else if Unsettled(steps, from, from + 1) {
        forall i | from < i < |steps| ensures Unsettled(steps, from, i) <==> Unsettled(steps, from + 1, i) {}
      }
    }
  }

  /** A caller concludes "sink" exactly when a callee that is itself a sink comes before anything else that
      settles the effect; a sink deeper down only makes it "propagate". */
  lemma SinkIsOneCallDeep(c: Chain)
    ensures InferEffect(c) == Sinks <==>
            exists i :: 0 <= i < |c.steps| && c.steps[i].isSink && Unsettled(c.steps, 0, i)
  {
    InferFromSink(c.steps, 0);
  }

  predicate NamesSink(ix: Index, e: Edge) {
    e.sinkRef != "" && ix.sinks(e.sinkRef)
  }

  function CalleeOf(ix: Index, e: Edge): Option<string> {
    if e.sinkRef != "" && !IsIndirect(e.sinkRef) then ix.Lookup(e.sinkRef) else None
  }

  /** The callee DAG an edge is expanded into, if it is expanded at all. */
  function Expansion(ix: Index, e: Edge, maxDepth: int, depth: nat): Option<Dag> {
    var callee := CalleeOf(ix, e);
    if !e.kind.Callee? || NamesSink(ix, e) || depth >= maxDepth || callee.None? || e.paramTaints == []
       || !IsRealParam(e.paramTaints[0].param) then None
    else ix.Load(callee.value, e.paramTaints[0].param)
  }

  /** The effect of a callee edge that is not expanded. */
  function PlainEffect(ix: Index, e: Edge, maxDepth: int, depth: nat): Effect {
    if NamesSink(ix, e) then Sinks
    else if depth < maxDepth && (CalleeOf(ix, e).None? || e.paramTaints == []) && e.sinkRef != "" && IsIndirect(e.sinkRef)
    then Indirect
    else Undetermined
  }

  /** What an expansion leaves behind; `expanded` lists the DAGs that were expanded, in order. */
  datatype Expanded = Expanded(chain: Chain, visited: set<string>, expanded: seq<Dag>)

  /** The loop state of one expansion after some of its edges. */
  datatype Progress = Progress(steps: seq<ChainStep>, state: TaintState, visited: set<string>, expanded: seq<Dag>)

  function Room(maxDepth: int, depth: nat): nat {
    if depth < maxDepth then maxDepth - depth else 0
  }

  function Expand(ix: Index, d: Dag, visited: set<string>, maxDepth: int, depth: nat): Expanded
    decreases Room(maxDepth, depth), 1, 0
  {
    if Key(d) in visited then Expanded(Chain(d.funcId, d.signature, Tainted, [], true), visited, [])
    else
      var arcs := SortedArcs(d);
      var p := ExpandEdges(ix, d, arcs, |arcs|, visited + {Key(d)}, maxDepth, depth);
      Expanded(Chain(d.funcId, d.signature, p.state, p.steps, false), p.visited, [d] + p.expanded)
  }

  /** One edge: `sub` is what its callee expanded to, if it was expanded. */
  function Advance(ix: Index, d: Dag, p: Progress, a: Arc, n: nat, sub: Option<Expanded>, maxDepth: int, depth: nat): Progress {
    match sub
    case None =>
      var effect := PlainEffect(ix, a.1, maxDepth, depth);
      var state := StateAfter(p.state, a.1.kind, effect);
      p.(steps := p.steps + StepsFor(d, a, n, state, effect, None), state := state)
    case Some(e) =>
      var effect := InferEffect(e.chain);
      var state := StateAfter(p.state, a.1.kind, effect);
      Progress(p.steps + StepsFor(d, a, n, state, effect, Some(e.chain)), state, e.visited, p.expanded + e.expanded)
  }

  function ExpandEdges(ix: Index, d: Dag, arcs: seq<Arc>, n: nat, visited: set<string>, maxDepth: int, depth: nat): Progress
    requires n <= |arcs|
    decreases Room(maxDepth, depth), 0, n
  {
    if n == 0 then Progress(EntrySteps(d), Tainted, visited, [])
    else
      var p := ExpandEdges(ix, d, arcs, n - 1, visited, maxDepth, depth);
      var target := Expansion(ix, arcs[n - 1].1, maxDepth, depth);
      var sub := if target.None? then None else Some(Expand(ix, target.value, p.visited, maxDepth, depth + 1));
      Advance(ix, d, p, arcs[n - 1], n, sub, maxDepth, depth)
  }

  lemma NextEdge(ix: Index, d: Dag, arcs: seq<Arc>, n: nat, visited: set<string>, maxDepth: int, depth: nat)
    returns (below: Option<Expanded>)
    requires n < |arcs|
    ensures var p := ExpandEdges(ix, d, arcs, n, visited, maxDepth, depth);
      var target := Expansion(ix, arcs[n].1, maxDepth, depth);
      && below == (if target.None? then None else Some(Expand(ix, target.value, p.visited, maxDepth, depth + 1)))
      && ExpandEdges(ix, d, arcs, n + 1, visited, maxDepth, depth) == Advance(ix, d, p, arcs[n], n + 1, below, maxDepth, depth)
  {
    var p := ExpandEdges(ix, d, arcs, n, visited, maxDepth, depth);
    var target := Expansion(ix, arcs[n].1, maxDepth, depth);
    below := if target.None? then None else Some(Expand(ix, target.value, p.visited, maxDepth, depth + 1));
  }

  function Reconstructed(ix: Index, d: Dag, maxDepth: int): Expanded {
    Expand(ix, d, {}, maxDepth, 0)
  }

  /** `_build_sub_chain` with the visited set the whole tree shares. */
  class Reconstructor {
    const ix: Index
    var visited: set<string>

    constructor (ix: Index)
      ensures this.ix == ix && visited == {}
    {
      this.ix := ix;
      visited := {};
    }

    method BuildSubChain(d: Dag, maxDepth: int, depth: nat) returns (c: Chain)
      modifies this
      ensures c == Expand(ix, d, old(visited), maxDepth, depth).chain
      ensures visited == Expand(ix, d, old(visited), maxDepth, depth).visited
      decreases Room(maxDepth, depth)
    {
      if Key(d) in visited {
        return Chain(d.funcId, d.signature, Tainted, [], true);
      }
      visited := visited + {Key(d)};
      ghost var visited0 := visited;
      var state := Tainted;
      var steps := EntrySteps(d);
      var arcs := SortedArcs(d);
      ghost var p := ExpandEdges(ix, d, arcs, 0, visited0, maxDepth, depth);
      for i := 0 to |arcs|
        invariant p == ExpandEdges(ix, d, arcs, i, visited0, maxDepth, depth)
        invariant steps == p.steps && state == p.state && visited == p.visited
      {
        var a := arcs[i];
        var sub: Option<Chain> := None;
        var effect := PlainEffect(ix, a.1, maxDepth, depth);
        var target := Expansion(ix, a.1, maxDepth, depth);
        ghost var below := NextEdge(ix, d, arcs, i, visited0, maxDepth, depth);
        p := Advance(ix, d, p, a, i + 1, below, maxDepth, depth);
        if target.Some? {
          var chain := BuildSubChain(target.value, maxDepth, depth + 1);
          sub, effect := Some(chain), InferEffect(chain);
        }
        state := StateAfter(state, a.1.kind, effect);
        steps := steps + StepsFor(d, a, i + 1, state, effect, sub);
      }
      c := Chain(d.funcId, d.signature, state, steps, false);
    }
  }

  method Reconstruct(ix: Index, d: Dag, maxDepth: int) returns (c: Chain)
    ensures c == Reconstructed(ix, d, maxDepth).chain
  {
    var r := new Reconstructor(ix);
    c := r.BuildSubChain(d, maxDepth, 0);
  }
}
