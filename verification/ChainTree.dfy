/**
 What each step of the two walks says, edge by edge and at every level of the tree: what stands in the step, which
 stored DAG it asks about or expands, and what its caller concludes (app/dagflow/chain_builder.py:28-89,
 app/dagflow/chain_reconstructor.py:51-184).
 */
module ChainTree {
  import opened Prelude
  import opened TaintDag
  import opened Chains

  // ---------------------------------------------------------------- the edges and their references

  /** The edges both walks sort: those of each node in order, node after node. */
  lemma {:induction false} ArcsListEdges(nodes: seq<Node>, i: nat, j: nat)
    requires i < |nodes| && j < |nodes[i].children|
    ensures |Arcs(nodes)| == CountEdges(nodes, |nodes|)
    ensures CountEdges(nodes, i) + j < |Arcs(nodes)| && Arcs(nodes)[CountEdges(nodes, i) + j] == (nodes[i], nodes[i].children[j])
    decreases |nodes|
  {
    ArcsCounted(nodes, |nodes|);
    var front := nodes[..|nodes| - 1];
    ArcsCounted(front, |front|);
    SameCount(nodes, front, |front|);
    if i < |front| {
      SameCount(nodes, front, i);
      ArcsListEdges(front, i, j);
    } else {
      ArcOf(nodes[i], |nodes[i].children|, j);
    }
  }

  function CountEdges(nodes: seq<Node>, n: nat): nat
    requires n <= |nodes|
  {
    if n == 0 then 0 else CountEdges(nodes, n - 1) + |nodes[n - 1].children|
  }

  lemma {:induction false} SameCount(nodes: seq<Node>, front: seq<Node>, n: nat)
    requires n <= |front| <= |nodes| && front == nodes[..|front|]
    ensures CountEdges(nodes, n) == CountEdges(front, n)
  {
    if n > 0 { SameCount(nodes, front, n - 1); }
  }

  lemma {:induction false} ArcsCounted(nodes: seq<Node>, n: nat)
    requires n == |nodes|
    ensures |Arcs(nodes)| == CountEdges(nodes, n)
    decreases n
  {
    if n > 0 {
      ArcsCounted(nodes[..n - 1], n - 1);
      SameCount(nodes, nodes[..n - 1], n - 1);
      ArcOf(nodes[n - 1], |nodes[n - 1].children|, 0);
    }
  }

  lemma {:induction false} ArcOf(n: Node, k: nat, j: nat)
    requires k <= |n.children|
    ensures |ArcsOf(n, k)| == k && (j < k ==> ArcsOf(n, k)[j] == (n, n.children[j]))
  {
    if k > 0 { ArcOf(n, k - 1, j); }
  }

  lemma ArrowInside(s: string)
    ensures (exists i :: 0 <= i < |s| - 1 && s[i] == '-' && s[i + 1] == '>') <==> exists pre, post :: s == pre + "->" + post
  {
    if i :| 0 <= i < |s| - 1 && s[i] == '-' && s[i + 1] == '>' { assert s == s[..i] + "->" + s[i + 2..]; }
    if pre, post :| s == pre + "->" + post { assert s[|pre|] == '-' && s[|pre| + 1] == '>'; }
  }

  lemma StarInside(s: string)
    ensures '*' in s <==> exists pre, post :: s == pre + "*" + post
  {
    if '*' in s {
      var i :| 0 <= i < |s| && s[i] == '*';
      assert s == s[..i] + "*" + s[i + 1..];
    }
    if pre, post :| s == pre + "*" + post { assert s[|pre|] == '*'; }
  }

  lemma ParenFirst(s: string)
    ensures s != "" && s[0] == '(' <==> exists post :: s == "(" + post
  {
    if s != "" && s[0] == '(' { assert s == "(" + s[1..]; }
  }

  /** A reference is indirect exactly when it contains an arrow or a star or starts with a parenthesis. */
  lemma IndirectExactly(s: string)
    ensures IsIndirect(s) <==> (exists pre, post :: s == pre + "->" + post) || (exists pre, post :: s == pre + "*" + post)
                               || (exists post :: s == "(" + post)
  {
    ArrowInside(s);
    StarInside(s);
    ParenFirst(s);
  }

  // ---------------------------------------------------------------- one step of an edge

  /** `checks` are those of the first node with that id; none without one. */
  predicate ChecksFound(nodes: seq<Node>, id: int, checks: seq<string>) {
    || (checks == [] && forall i :: 0 <= i < |nodes| ==> nodes[i].id != id)
    || exists i :: 0 <= i < |nodes| && nodes[i].id == id && nodes[i].checks == checks
                   && forall j :: 0 <= j < i ==> nodes[j].id != id
  }

  lemma {:induction false} ChecksOfFinds(nodes: seq<Node>, id: int)
    ensures ChecksFound(nodes, id, ChecksOf(nodes, id))
  {
    if nodes != [] && nodes[0].id != id {
      var rest := nodes[1..];
      ChecksOfFinds(rest, id);
      if i :| 0 <= i < |rest| && rest[i].id == id && rest[i].checks == ChecksOf(rest, id) && forall j :: 0 <= j < i ==> rest[j].id != id {
        assert nodes[i + 1] == rest[i];
        assert forall j :: 0 <= j < i + 1 ==> nodes[j].id != id by {
          assert forall j :: 1 <= j < i + 1 ==> nodes[j] == rest[j - 1];
        }
      } else {
        assert forall j :: 1 <= j < |nodes| ==> nodes[j] == rest[j - 1];
      }
    }
  }

  /** The step of edge number `number` of `d`, the taint state before it being `before`: in both walks. */
  predicate Describes(d: Dag, a: Arc, number: int, before: TaintState, s: ChainStep) {
    && s.number == number && s.line == a.1.line && s.node == a.0.id && s.taints == a.1.taints
    && (a.1.kind.Inside? <==> s.kind.InsideStep?) && (a.1.kind.Callee? <==> s.kind.CalleeStep?)
    && (a.1.kind.Extern? || a.1.kind.Container? <==> s.kind.EscapeStep?)
    && (a.1.kind.Return? <==> s.kind.ReturnStep?) && (a.1.kind.Source? <==> s.kind.SourceStep?)
    && (if a.1.kind.Inside? then ChecksFound(d.nodes, a.1.toNode, s.checks) else s.checks == [])
    && (s.effect.Some? <==> a.1.kind.Callee?)
    && s.state == (if s.effect == Some(Sanitized) then Clean else if a.1.kind.Source? then Tainted else before)
  }

  lemma StepDescribes(d: Dag, a: Arc, number: int, before: TaintState, effect: Effect, sub: Option<Chain>)
    requires !a.1.kind.Other?
    ensures var added := StepsFor(d, a, number, StateAfter(before, a.1.kind, effect), effect, sub);
      |added| == 1 && Describes(d, a, number, before, added[0]) && added[0].sub == sub
      && (a.1.kind.Callee? ==> added[0].effect == Some(effect))
      && added[0].isSink == (a.1.kind.Callee? && effect == Sinks && sub.None?)
  {
    ChecksOfFinds(d.nodes, a.1.toNode);
  }

  function StateOf(steps: seq<ChainStep>): TaintState {
    if steps == [] then Tainted else steps[|steps| - 1].state
  }

  /** The first node without parents, or marked as a source, is the entry; failing that, the first node. */
  lemma {:induction false} EntryIsFirst(nodes: seq<Node>, from: nat)
    requires from < |nodes|
    ensures var k := EntryIndex(nodes, from);
      if exists i :: from <= i < |nodes| && (nodes[i].parents == [] || nodes[i].isSource)
      then from <= k < |nodes| && (nodes[k].parents == [] || nodes[k].isSource)
           && forall i :: from <= i < k ==> nodes[i].parents != [] && !nodes[i].isSource
      else k == 0
    decreases |nodes| - from
  {
    if nodes[from].parents != [] && !nodes[from].isSource && from + 1 < |nodes| { EntryIsFirst(nodes, from + 1); }
  }

  // ---------------------------------------------------------------- build_chain

  /** The first parameter of the edge, if there is one that can be looked up. */
  predicate HasParam(e: Edge) {
    e.paramTaints != [] && e.paramTaints[0].param != "" && e.paramTaints[0].param[0] != '('
  }

  /** The effect `build_chain` gives a callee edge: that of the DAG of the callee itself and the first parameter, on
      the taint of that parameter; unknown when the callee is indirect or not indexed, or there is no parameter. */
  ghost predicate AskedEffect(ix: Index, e: Edge, effect: Effect) {
    if !IsIndirect(e.sinkRef) && e.sinkRef in ix.functions && HasParam(e)
    then effect == EffectOn(ix, ix.functions[e.sinkRef], e.paramTaints[0].param, e.paramTaints[0].param)
    else effect == Undetermined
  }

  ghost predicate BuiltStep(ix: Index, d: Dag, a: Arc, number: int, before: TaintState, s: ChainStep) {
    && Describes(d, a, number, before, s) && s.sub.None? && !s.isSink
    && (a.1.kind.Callee? ==> AskedEffect(ix, a.1, s.effect.value))
  }

  /** The entry, and the steps of the first `n` edges. */
  ghost predicate BuiltSteps(ix: Index, d: Dag, arcs: seq<Arc>, n: nat, steps: seq<ChainStep>)
    requires n <= |arcs|
  {
    if n == 0 then steps == EntrySteps(d)
    else if arcs[n - 1].1.kind.Other? then BuiltSteps(ix, d, arcs, n - 1, steps)
    else
      && steps != []
      && var (before, last) := (steps[..|steps| - 1], steps[|steps| - 1]);
         BuiltSteps(ix, d, arcs, n - 1, before) && BuiltStep(ix, d, arcs[n - 1], n, StateOf(before), last)
  }

  lemma OneMoreBuilt(ix: Index, d: Dag, arcs: seq<Arc>, n: nat, steps: seq<ChainStep>, s: ChainStep)
    requires n < |arcs| && !arcs[n].1.kind.Other? && BuiltSteps(ix, d, arcs, n, steps)
    requires BuiltStep(ix, d, arcs[n], n + 1, StateOf(steps), s)
    ensures BuiltSteps(ix, d, arcs, n + 1, steps + [s])
  {
    assert (steps + [s])[..|steps|] == steps;
  }

  lemma {:induction false} StepsAreBuilt(ix: Index, d: Dag, arcs: seq<Arc>, n: nat)
    requires n <= |arcs|
    ensures BuiltSteps(ix, d, arcs, n, ChainSteps(ix, d, arcs, n))
    ensures StateOf(ChainSteps(ix, d, arcs, n)) == ChainState(ix, arcs, n)
  {
    if n > 0 {
      StepsAreBuilt(ix, d, arcs, n - 1);
      NextIsBuilt(ix, d, arcs, n - 1, ChainSteps(ix, d, arcs, n - 1));
    }
  }

  lemma NextIsBuilt(ix: Index, d: Dag, arcs: seq<Arc>, n: nat, steps: seq<ChainStep>)
    requires n < |arcs| && BuiltSteps(ix, d, arcs, n, steps)
    ensures var effect := EdgeEffect(ix, arcs[n].1);
      var state := StateAfter(StateOf(steps), arcs[n].1.kind, effect);
      var steps' := steps + StepsFor(d, arcs[n], n + 1, state, effect, None);
      BuiltSteps(ix, d, arcs, n + 1, steps') && StateOf(steps') == state
  {
    var (a, effect) := (arcs[n], EdgeEffect(ix, arcs[n].1));
    var added := StepsFor(d, a, n + 1, StateAfter(StateOf(steps), a.1.kind, effect), effect, None);
    if a.1.kind.Other? {
      assert added == [] && steps + added == steps;
    } else {
      StepDescribes(d, a, n + 1, StateOf(steps), effect, None);
      AskedExactly(ix, a.1);
      assert added == [added[0]];
      OneMoreBuilt(ix, d, arcs, n, steps, added[0]);
    }
  }

  lemma AskedExactly(ix: Index, e: Edge)
    ensures AskedEffect(ix, e, EdgeEffect(ix, e)) && EdgeEffect(ix, e) != Sinks
  {
  }

  /** `build_chain`, step by step: the entry, then one step for each edge of a known kind in line order, numbered as
      the edge, each as described, each callee step with the effect of the DAG it asks about. */
  lemma ChainIsBuilt(ix: Index, d: Dag)
    requires d.nodes != []
    ensures BuiltSteps(ix, d, SortedArcs(d), |SortedArcs(d)|, BuiltChain(ix, d))
  {
    StepsAreBuilt(ix, d, SortedArcs(d), |SortedArcs(d)|);
  }

  // ---------------------------------------------------------------- what a caller concludes

  predicate Settles(s: ChainStep) {
    s.isSink || s.effect == Some(Sanitized) || s.effect == Some(Sinks)
  }

  /** Step `i` is the first that settles the effect. */
  predicate FirstSettling(steps: seq<ChainStep>, i: nat) {
    i < |steps| && Settles(steps[i]) && forall j :: 0 <= j < i ==> !Settles(steps[j])
  }

  lemma {:induction false} InferFromFirst(steps: seq<ChainStep>, from: nat)
    requires from <= |steps| && forall j :: 0 <= j < from ==> !Settles(steps[j])
    ensures InferFrom(steps, from).Some? ==> InferFrom(steps, from).value in {Sinks, Sanitized, Propagated}
    ensures InferFrom(steps, from).None? <==> forall j :: 0 <= j < |steps| ==> !Settles(steps[j])
    ensures forall i: nat | FirstSettling(steps, i) :: InferFrom(steps, from) ==
              Some(if steps[i].isSink then Sinks else if steps[i].effect == Some(Sanitized) then Sanitized else Propagated)
    decreases |steps| - from
  {
    if from < |steps| && !Settles(steps[from]) { InferFromFirst(steps, from + 1); }
  }

  /** What is inferred from a sub chain, in full: the first step that settles it decides, a sink step for "sink", a
      cleaning one for "sanitized", and one whose own callee reached a sink for "propagate"; if none does, it returns
      when some step is a return, leaves the taint unchanged when there are no steps, and passes it on otherwise. */
  lemma InferExactly(c: Chain)
    ensures c.steps == [] <==> InferEffect(c) == Unchanged
    ensures forall i: nat | FirstSettling(c.steps, i) :: InferEffect(c) ==
              if c.steps[i].isSink then Sinks else if c.steps[i].effect == Some(Sanitized) then Sanitized else Propagated
    ensures c.steps != [] && (forall j :: 0 <= j < |c.steps| ==> !Settles(c.steps[j])) ==>
              InferEffect(c) == if exists j :: 0 <= j < |c.steps| && c.steps[j].kind.ReturnStep? then Returned else Propagated
  {
    InferFromFirst(c.steps, 0);
  }

  // ---------------------------------------------------------------- the tree of reconstruct

  /** The keys of the chains in a tree that were expanded, not skipped. */
  function KeysOf(c: Chain): set<string>
    decreases c, 0
  {
    if c.skipped then {} else {c.func + ":" + c.taint} + KeysIn(c.steps)
  }

  function KeysIn(steps: seq<ChainStep>): set<string>
    decreases steps, 1
  {
    if steps == [] then {}
    else
      var last := steps[|steps| - 1];
      KeysIn(steps[..|steps| - 1]) + if last.sub.Some? then KeysOf(last.sub.value) else {}
  }

  lemma KeysInAppend(steps: seq<ChainStep>, s: ChainStep)
    ensures KeysIn(steps + [s]) == KeysIn(steps) + if s.sub.Some? then KeysOf(s.sub.value) else {}
  {
    assert (steps + [s])[..|steps|] == steps;
  }

  /** The edge is expanded: a callee edge, no named sink, not too deep, direct, indexed, and with a stored DAG of the
      callee and the first parameter. */
  predicate IsExpanded(ix: Index, e: Edge, maxDepth: int, depth: nat) {
    && e.kind.Callee? && !(e.sinkRef != "" && ix.sinks(e.sinkRef)) && depth < maxDepth
    && e.sinkRef != "" && !IsIndirect(e.sinkRef) && e.sinkRef in ix.functions
    && HasParam(e) && (ix.functions[e.sinkRef], e.paramTaints[0].param) in ix.dags
  }

  /** That DAG, under the key it was asked for. */
  function Stored(ix: Index, e: Edge): Dag
    requires e.sinkRef in ix.functions && HasParam(e) && (ix.functions[e.sinkRef], e.paramTaints[0].param) in ix.dags
  {
    var (f, p) := (ix.functions[e.sinkRef], e.paramTaints[0].param);
    ix.dags[(f, p)].(funcId := f, signature := p)
  }

  /** One step of the tree, `seen` being the keys expanded before it: it has a sub chain exactly when its edge is
      expanded, that sub chain is the tree of that DAG, and the effect is what is inferred from it. */
  predicate TreeStep(ix: Index, d: Dag, a: Arc, number: int, before: TaintState, s: ChainStep, seen: set<string>, maxDepth: int, depth: nat)
    decreases s
  {
    && Describes(d, a, number, before, s)
    && (s.isSink <==> a.1.kind.Callee? && a.1.sinkRef != "" && ix.sinks(a.1.sinkRef))
    && (s.sub.Some? <==> IsExpanded(ix, a.1, maxDepth, depth))
    && (s.sub.Some? ==> IsTree(ix, Stored(ix, a.1), s.sub.value, seen, maxDepth, depth + 1) && s.effect == Some(InferEffect(s.sub.value)))
    && (s.sub.None? && a.1.kind.Callee? ==>
          s.effect == Some(if a.1.sinkRef != "" && ix.sinks(a.1.sinkRef) then Sinks
                           else if depth < maxDepth && a.1.sinkRef != "" && IsIndirect(a.1.sinkRef) then Indirect
                           else Undetermined))
  }

  /** The chain is the tree of `d`, `seen` being the keys expanded before it: named after `d`, skipped exactly when its
      key was seen, and otherwise made of the entry and one step for each edge of a known kind in line order. */
  predicate IsTree(ix: Index, d: Dag, c: Chain, seen: set<string>, maxDepth: int, depth: nat)
    decreases c
  {
    && c.func == d.funcId && c.taint == d.signature
    && (c.skipped <==> d.funcId + ":" + d.signature in seen)
    && (c.skipped ==> c.steps == [] && c.state == Tainted)
    && (!c.skipped ==>
          && c.state == StateOf(c.steps)
          && TreeSteps(ix, d, SortedArcs(d), |SortedArcs(d)|, c.steps, seen + {d.funcId + ":" + d.signature}, maxDepth, depth))
  }

  /** The entry, and the steps of the first `n` edges. */
  predicate TreeSteps(ix: Index, d: Dag, arcs: seq<Arc>, n: nat, steps: seq<ChainStep>, seen: set<string>, maxDepth: int, depth: nat)
    requires n <= |arcs|
    decreases steps, n
  {
    if n == 0 then steps == EntrySteps(d)
    else if arcs[n - 1].1.kind.Other? then TreeSteps(ix, d, arcs, n - 1, steps, seen, maxDepth, depth)
    else
      && steps != []
      && var (before, last) := (steps[..|steps| - 1], steps[|steps| - 1]);
         && TreeSteps(ix, d, arcs, n - 1, before, seen, maxDepth, depth)
         && TreeStep(ix, d, arcs[n - 1], n, StateOf(before), last, seen + KeysIn(before), maxDepth, depth)
  }

  lemma OneMoreTreeStep(ix: Index, d: Dag, arcs: seq<Arc>, n: nat, steps: seq<ChainStep>, s: ChainStep, seen: set<string>, maxDepth: int, depth: nat)
    requires n < |arcs| && !arcs[n].1.kind.Other? && TreeSteps(ix, d, arcs, n, steps, seen, maxDepth, depth)
    requires TreeStep(ix, d, arcs[n], n + 1, StateOf(steps), s, seen + KeysIn(steps), maxDepth, depth)
    ensures TreeSteps(ix, d, arcs, n + 1, steps + [s], seen, maxDepth, depth)
  {
    assert (steps + [s])[..|steps|] == steps;
  }

  lemma ExpandsExactly(ix: Index, e: Edge, maxDepth: int, depth: nat)
    ensures Expansion(ix, e, maxDepth, depth) == if IsExpanded(ix, e, maxDepth, depth) then Some(Stored(ix, e)) else None
  {
  }

  lemma {:induction false} ExpandIsTree(ix: Index, d: Dag, seen: set<string>, maxDepth: int, depth: nat)
    ensures var e := Expand(ix, d, seen, maxDepth, depth);
      IsTree(ix, d, e.chain, seen, maxDepth, depth) && e.visited == seen + KeysOf(e.chain)
    decreases Room(maxDepth, depth), 1, 0
  {
    if Key(d) !in seen {
      var arcs := SortedArcs(d);
      ExpandEdgesAreTree(ix, d, arcs, |arcs|, seen + {Key(d)}, maxDepth, depth);
    }
  }

  /** What the expansion of an edge leaves, when it is expanded. */
  predicate Below(ix: Index, e: Edge, below: Option<Expanded>, seen: set<string>, maxDepth: int, depth: nat) {
    && (below.Some? <==> IsExpanded(ix, e, maxDepth, depth))
    && (below.Some? ==> IsTree(ix, Stored(ix, e), below.value.chain, seen, maxDepth, depth + 1)
                        && below.value.visited == seen + KeysOf(below.value.chain))
  }

  /** The first `n` edges of an expansion, with the state and the visited set they leave. */
  predicate SoFar(ix: Index, d: Dag, arcs: seq<Arc>, n: nat, p: Progress, seen: set<string>, maxDepth: int, depth: nat)
    requires n <= |arcs|
  {
    TreeSteps(ix, d, arcs, n, p.steps, seen, maxDepth, depth) && p.state == StateOf(p.steps) && p.visited == seen + KeysIn(p.steps)
  }

  lemma {:induction false} ExpandEdgesAreTree(ix: Index, d: Dag, arcs: seq<Arc>, n: nat, seen: set<string>, maxDepth: int, depth: nat)
    requires n <= |arcs|
    ensures SoFar(ix, d, arcs, n, ExpandEdges(ix, d, arcs, n, seen, maxDepth, depth), seen, maxDepth, depth)
    decreases Room(maxDepth, depth), 0, n
  {
    if n == 0 {
      assert ExpandEdges(ix, d, arcs, 0, seen, maxDepth, depth) == Progress(EntrySteps(d), Tainted, seen, []);
      assert KeysIn(EntrySteps(d)) == {};
    } else {
      ExpandEdgesAreTree(ix, d, arcs, n - 1, seen, maxDepth, depth);
      var p := ExpandEdges(ix, d, arcs, n - 1, seen, maxDepth, depth);
      var below := BelowIsTree(ix, d, arcs, n - 1, p, seen, maxDepth, depth);
      AdvanceIsTreeStep(ix, d, arcs, n - 1, p, below, seen, maxDepth, depth);
    }
  }

  lemma {:induction false} BelowIsTree(ix: Index, d: Dag, arcs: seq<Arc>, n: nat, p: Progress, seen: set<string>, maxDepth: int, depth: nat)
    returns (below: Option<Expanded>)
    requires n < |arcs| && p == ExpandEdges(ix, d, arcs, n, seen, maxDepth, depth)
    ensures Below(ix, arcs[n].1, below, p.visited, maxDepth, depth)
    ensures ExpandEdges(ix, d, arcs, n + 1, seen, maxDepth, depth) == Advance(ix, d, p, arcs[n], n + 1, below, maxDepth, depth)
    decreases Room(maxDepth, depth), 0, n
  {
    below := NextEdge(ix, d, arcs, n, seen, maxDepth, depth);
    ExpandsExactly(ix, arcs[n].1, maxDepth, depth);
    if below.Some? { ExpandIsTree(ix, Stored(ix, arcs[n].1), p.visited, maxDepth, depth + 1); }
  }

  lemma NewTreeStep(ix: Index, d: Dag, a: Arc, number: int, before: TaintState, below: Option<Expanded>, seen: set<string>, maxDepth: int, depth: nat)
    returns (effect: Effect, sub: Option<Chain>, s: ChainStep)
    requires !a.1.kind.Other? && Below(ix, a.1, below, seen, maxDepth, depth)
    ensures effect == if below.None? then PlainEffect(ix, a.1, maxDepth, depth) else InferEffect(below.value.chain)
    ensures sub == if below.None? then None else Some(below.value.chain)
    ensures StepsFor(d, a, number, StateAfter(before, a.1.kind, effect), effect, sub) == [s]
    ensures TreeStep(ix, d, a, number, before, s, seen, maxDepth, depth) && s.sub == sub && s.state == StateAfter(before, a.1.kind, effect)
  {
    effect := if below.None? then PlainEffect(ix, a.1, maxDepth, depth) else InferEffect(below.value.chain);
    sub := if below.None? then None else Some(below.value.chain);
    StepDescribes(d, a, number, before, effect, sub);
    var added := StepsFor(d, a, number, StateAfter(before, a.1.kind, effect), effect, sub);
    s := added[0];
    assert added == [s];
  }

  lemma OtherAdvances(ix: Index, d: Dag, p: Progress, a: Arc, number: nat, maxDepth: int, depth: nat)
    requires a.1.kind.Other?
    ensures Advance(ix, d, p, a, number, None, maxDepth, depth) == p
  {
    assert p.steps + [] == p.steps;
  }

  lemma KnownAdvances(ix: Index, d: Dag, p: Progress, a: Arc, number: nat, below: Option<Expanded>, maxDepth: int, depth: nat,
                      effect: Effect, sub: Option<Chain>, s: ChainStep)
    requires effect == if below.None? then PlainEffect(ix, a.1, maxDepth, depth) else InferEffect(below.value.chain)
    requires sub == if below.None? then None else Some(below.value.chain)
    requires StepsFor(d, a, number, StateAfter(p.state, a.1.kind, effect), effect, sub) == [s]
    ensures var p' := Advance(ix, d, p, a, number, below, maxDepth, depth);
      && p'.steps == p.steps + [s] && p'.state == StateAfter(p.state, a.1.kind, effect)
      && p'.visited == if below.None? then p.visited else below.value.visited
  {
  }

  lemma SkipEdge(ix: Index, d: Dag, arcs: seq<Arc>, n: nat, steps: seq<ChainStep>, seen: set<string>, maxDepth: int, depth: nat)
    requires n < |arcs| && arcs[n].1.kind.Other? && TreeSteps(ix, d, arcs, n, steps, seen, maxDepth, depth)
    ensures TreeSteps(ix, d, arcs, n + 1, steps, seen, maxDepth, depth)
  {
  }

  lemma AdvanceIsTreeStep(ix: Index, d: Dag, arcs: seq<Arc>, n: nat, p: Progress, below: Option<Expanded>, seen: set<string>, maxDepth: int, depth: nat)
    requires n < |arcs| && SoFar(ix, d, arcs, n, p, seen, maxDepth, depth)
    requires Below(ix, arcs[n].1, below, p.visited, maxDepth, depth)
    ensures SoFar(ix, d, arcs, n + 1, Advance(ix, d, p, arcs[n], n + 1, below, maxDepth, depth), seen, maxDepth, depth)
  {
    var p' := Advance(ix, d, p, arcs[n], n + 1, below, maxDepth, depth);
    if arcs[n].1.kind.Other? {
      OtherAdvances(ix, d, p, arcs[n], n + 1, maxDepth, depth);
      SkipEdge(ix, d, arcs, n, p.steps, seen, maxDepth, depth);
    } else {
      var effect, sub, s := NewTreeStep(ix, d, arcs[n], n + 1, p.state, below, p.visited, maxDepth, depth);
      KnownAdvances(ix, d, p, arcs[n], n + 1, below, maxDepth, depth, effect, sub, s);
      OneMoreTreeStep(ix, d, arcs, n, p.steps, s, seen, maxDepth, depth);
      KeysInAppend(p.steps, s);
    }
  }

  /** `reconstruct` returns the tree of the root DAG. */
  lemma ReconstructedIsTree(ix: Index, d: Dag, maxDepth: int)
    ensures IsTree(ix, d, Reconstructed(ix, d, maxDepth).chain, {}, maxDepth, 0)
    ensures Reconstructed(ix, d, maxDepth).visited == KeysOf(Reconstructed(ix, d, maxDepth).chain)
  {
    ExpandIsTree(ix, d, {}, maxDepth, 0);
  }
}
