/** The taint DAG of one (function, taint signature) analysis (app/dagflow/models.py) and the
    line order in which both chain walks visit its edges. */
module TaintDag {
  import opened Prelude

  datatype EdgeKind = Inside | Callee | Extern | Container | Return | Source | Other(name: string)

  datatype ParamTaint = ParamTaint(param: string, taint: string)

  datatype Edge = Edge(
    toNode: int, line: int, kind: EdgeKind, sinkRef: string,
    taints: seq<string>, paramTaints: seq<ParamTaint>, conditions: seq<string>,
    escapeSubkind: string, carrier: string, escapeVia: string,
    // filled by the analyser, never stored
    lineEnd: int, callee: string, taintedArgs: seq<string>, condLines: seq<int>)

  datatype Prune = Prune(reason: string, detail: string)

  datatype Node = Node(
    id: int, line: int, taint: string, parents: seq<int>, checks: seq<string>,
    prune: Option<Prune>, isSource: bool, children: seq<Edge>,
    // filled by the analyser, never stored
    lineEnd: int, source: string, checkLines: seq<int>)

  datatype Dag = Dag(
    funcId: string, signature: string, nodes: seq<Node>,
    selfContained: bool, description: string, taintFailed: bool)

  /** An indirect callee: the reference contains "->" or "*", or starts with "(". */
  predicate IsIndirect(sinkRef: string) {
    || (exists i :: 0 <= i < |sinkRef| - 1 && sinkRef[i] == '-' && sinkRef[i + 1] == '>')
    || (sinkRef != "" && sinkRef[0] == '(')
    || '*' in sinkRef
  }

  /** A parameter name that can be looked up: not empty, not a parenthesised remark. */
  predicate IsRealParam(p: string) {
    p != "" && p[0] != '('
  }

  type Arc = (Node, Edge)

  function ArcsOf(n: Node, k: nat): seq<Arc>
    requires k <= |n.children|
  {
    if k == 0 then [] else ArcsOf(n, k - 1) + [(n, n.children[k - 1])]
  }

  function Arcs(nodes: seq<Node>): seq<Arc> {
    if nodes == [] then []
    else
      var last := nodes[|nodes| - 1];
      Arcs(nodes[..|nodes| - 1]) + ArcsOf(last, |last.children|)
  }

  // ---------------------------------------------------------------- stable sort by line

  /** Put `a` after everything that is not on a later line. */
  function Insert(sorted: seq<Arc>, a: Arc): seq<Arc> {
    if sorted == [] || sorted[|sorted| - 1].1.line <= a.1.line then sorted + [a]
    else Insert(sorted[..|sorted| - 1], a) + [sorted[|sorted| - 1]]
  }

  function SortByLine(arcs: seq<Arc>): seq<Arc> {
    if arcs == [] then [] else Insert(SortByLine(arcs[..|arcs| - 1]), arcs[|arcs| - 1])
  }

  function SortedArcs(d: Dag): seq<Arc> {
    SortByLine(Arcs(d.nodes))
  }

  predicate InLineOrder(arcs: seq<Arc>) {
    forall i, j :: 0 <= i < j < |arcs| ==> arcs[i].1.line <= arcs[j].1.line
  }

  function OnLine(arcs: seq<Arc>, line: int): seq<Arc> {
    if arcs == [] then []
    else
      var a := arcs[|arcs| - 1];
      OnLine(arcs[..|arcs| - 1], line) + if a.1.line == line then [a] else []
  }

  lemma {:induction false} OnLineAppend(arcs: seq<Arc>, a: Arc, line: int)
    ensures OnLine(arcs + [a], line) == OnLine(arcs, line) + if a.1.line == line then [a] else []
  {
    assert (arcs + [a])[..|arcs|] == arcs;
  }

  lemma {:induction false} InsertKeepsElements(sorted: seq<Arc>, a: Arc)
    ensures multiset(Insert(sorted, a)) == multiset(sorted) + multiset{a}
  {
    if sorted != [] && sorted[|sorted| - 1].1.line > a.1.line {
      InsertKeepsElements(sorted[..|sorted| - 1], a);
      assert sorted == sorted[..|sorted| - 1] + [sorted[|sorted| - 1]];
    }
  }

  lemma {:induction false} InsertKeepsOrder(sorted: seq<Arc>, a: Arc)
    requires InLineOrder(sorted)
    ensures InLineOrder(Insert(sorted, a))
  {
    if sorted != [] && sorted[|sorted| - 1].1.line > a.1.line {
      var (front, last) := (sorted[..|sorted| - 1], sorted[|sorted| - 1]);
      InsertKeepsOrder(front, a);
      InsertKeepsElements(front, a);
      var r := Insert(front, a);
      forall i | 0 <= i < |r| ensures r[i].1.line <= last.1.line {
        assert r[i] in multiset(r);
        assert r[i] == a || r[i] in front;
      }
    }
  }

  lemma {:induction false} InsertKeepsLines(sorted: seq<Arc>, a: Arc, line: int)
    ensures OnLine(Insert(sorted, a), line) == OnLine(sorted, line) + if a.1.line == line then [a] else []
  {
    if sorted == [] || sorted[|sorted| - 1].1.line <= a.1.line {
      OnLineAppend(sorted, a, line);
    } else {
      var (front, last) := (sorted[..|sorted| - 1], sorted[|sorted| - 1]);
      InsertKeepsLines(front, a, line);
      OnLineAppend(Insert(front, a), last, line);
    }
  }

  lemma {:induction false} SortOrders(arcs: seq<Arc>)
    ensures InLineOrder(SortByLine(arcs))
    ensures multiset(SortByLine(arcs)) == multiset(arcs)
  {
    if arcs != [] {
      var (front, last) := (arcs[..|arcs| - 1], arcs[|arcs| - 1]);
      SortOrders(front);
      InsertKeepsElements(SortByLine(front), last);
      InsertKeepsOrder(SortByLine(front), last);
      assert arcs == front + [last];
    }
  }

  lemma {:induction false} SortKeepsLines(arcs: seq<Arc>, line: int)
    ensures OnLine(SortByLine(arcs), line) == OnLine(arcs, line)
  {
    if arcs != [] {
      var (front, last) := (arcs[..|arcs| - 1], arcs[|arcs| - 1]);
      SortKeepsLines(front, line);
      InsertKeepsLines(SortByLine(front), last, line);
      assert arcs == front + [last];
      OnLineAppend(front, last, line);
    }
  }

  /** The order both walks use is Python's: by line, edges on one line in their original order. */
  lemma SortIsStable(arcs: seq<Arc>, line: int)
    ensures InLineOrder(SortByLine(arcs))
    ensures multiset(SortByLine(arcs)) == multiset(arcs)
    ensures OnLine(SortByLine(arcs), line) == OnLine(arcs, line)
  {
    SortOrders(arcs);
    SortKeepsLines(arcs, line);
  }

  lemma SortKeepsLength(arcs: seq<Arc>)
    ensures |SortByLine(arcs)| == |arcs|
  {
    SortIsStable(arcs, 0);
    assert |multiset(SortByLine(arcs))| == |multiset(arcs)|;
  }
}
