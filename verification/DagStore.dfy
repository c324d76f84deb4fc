/**
 Storing a taint DAG as rows and loading it back (app/dagflow/dag_store.py:38-65,
 app/dagflow/dag_mysql_store.py:166-249). JSON columns hold their values; `""` and `{}` for a missing
 prune signal are `None`.
 */
module DagStore {
  import opened Prelude
  import opened TaintDag

  // ---------------------------------------------------------------- edge ids

  function Digits(n: nat): string {
    if n < 10 then [('0' as int + n) as char] else Digits(n / 10) + [('0' as int + n % 10) as char]
  }

  function IntText(n: int): string {
    if n < 0 then ['-'] + Digits(-n) else Digits(n)
  }

  function KindText(k: EdgeKind): string {
    match k
    case Inside => "inside"
    case Callee => "callee"
    case Extern => "extern"
    case Container => "container"
    case Return => "return"
    case Source => "source"
    case Other(name) => name
  }

  /** `f"{n.id}->{e.to_node}_{e.kind}_{i}"` */
  function EdgeId(id: int, e: Edge, i: nat): string {
    IntText(id) + ['-'] + ['>'] + (IntText(e.toNode) + ['_'] + KindText(e.kind)) + ['_'] + Digits(i)
  }

  predicate IsDigit(c: char) {
    '0' <= c <= '9'
  }

  lemma {:induction false} DigitsAreDigits(n: nat)
    ensures Digits(n) != [] && forall c <- Digits(n) :: IsDigit(c)
  {
    if n >= 10 { DigitsAreDigits(n / 10); }
  }

  lemma {:induction false} DigitsInjective(a: nat, b: nat)
    requires Digits(a) == Digits(b)
    ensures a == b
  {
    DigitsAreDigits(a / 10);
    DigitsAreDigits(b / 10);
    var (s, t) := (Digits(a), Digits(b));
    assert s[|s| - 1] == ('0' as int + a % 10) as char;
    assert t[|t| - 1] == ('0' as int + b % 10) as char;
    if a >= 10 && b >= 10 {
      assert s[..|s| - 1] == Digits(a / 10);
      assert t[..|t| - 1] == Digits(b / 10);
      DigitsInjective(a / 10, b / 10);
    }
  }

  lemma IntTextInjective(a: int, b: int)
    requires IntText(a) == IntText(b)
    ensures a == b
  {
    DigitsAreDigits(if a < 0 then -a else a);
    DigitsAreDigits(if b < 0 then -b else b);
    assert !IsDigit('-');
    assert (a < 0 <==> IntText(a)[0] == '-') && (b < 0 <==> IntText(b)[0] == '-');
    if a < 0 {
      assert IntText(a)[1..] == Digits(-a) && IntText(b)[1..] == Digits(-b);
      DigitsInjective(-a, -b);
    } else {
      DigitsInjective(a, b);
    }
  }

  /** Where a character first and last occurs; past the end, or before the start, when it does not. */
  function First(s: string, c: char): nat {
    if s == [] || s[0] == c then 0 else 1 + First(s[1..], c)
  }

  function Last(s: string, c: char): int {
    if s == [] then -1 else if s[|s| - 1] == c then |s| - 1 else Last(s[..|s| - 1], c)
  }

  lemma {:induction false} FirstCut(p: string, c: char, r: string)
    requires c !in p
    ensures First(p + [c] + r, c) == |p|
  {
    if p != [] {
      assert (p + [c] + r)[1..] == p[1..] + [c] + r;
      FirstCut(p[1..], c, r);
    }
  }

  lemma {:induction false} LastCut(p: string, c: char, r: string)
    requires c !in r
    ensures Last(p + [c] + r, c) == |p|
  {
    var s := p + [c] + r;
    if r == [] {
      assert s[|s| - 1] == c;
    } else {
      assert s[..|s| - 1] == p + [c] + r[..|r| - 1];
      LastCut(p, c, r[..|r| - 1]);
    }
  }

  /** Cutting at the first (or last) occurrence of a character is unambiguous. */
  lemma CutAtFirst(p: string, r: string, p': string, r': string, c: char)
    requires p + [c] + r == p' + [c] + r' && c !in p && c !in p'
    ensures p == p'
  {
    FirstCut(p, c, r);
    FirstCut(p', c, r');
    assert (p + [c] + r)[..|p|] == p && (p' + [c] + r')[..|p'|] == p';
  }

  lemma CutAtLast(p: string, r: string, p': string, r': string, c: char)
    requires p + [c] + r == p' + [c] + r' && c !in r && c !in r'
    ensures r == r'
  {
    LastCut(p, c, r);
    LastCut(p', c, r');
    assert (p + [c] + r)[|p| + 1..] == r && (p' + [c] + r')[|p'| + 1..] == r';
  }

  /** The first `>` and the last `_` of an edge id cut it into its three parts. */
  lemma CutBothEnds(p: string, m: string, q: string, p': string, m': string, q': string)
    requires p + ['>'] + m + ['_'] + q == p' + ['>'] + m' + ['_'] + q'
    requires '>' !in p && '>' !in p' && '_' !in q && '_' !in q'
    ensures p == p' && q == q'
  {
    CutAtLast(p + ['>'] + m, q, p' + ['>'] + m', q', '_');
    assert p + ['>'] + m + ['_'] + q == p + ['>'] + (m + ['_'] + q);
    assert p' + ['>'] + m' + ['_'] + q' == p' + ['>'] + (m' + ['_'] + q');
    CutAtFirst(p, m + ['_'] + q, p', m' + ['_'] + q', '>');
  }

  lemma IntTextHasNoMarks(n: int)
    ensures '>' !in IntText(n) && (n >= 0 ==> '_' !in IntText(n))
  {
    DigitsAreDigits(if n < 0 then -n else n);
    assert !IsDigit('>') && !IsDigit('_');
  }

  /** Generated edge ids never collide: they determine the source node and the position. */
  lemma EdgeIdInjective(id: int, e: Edge, i: nat, id': int, e': Edge, i': nat)
    requires EdgeId(id, e, i) == EdgeId(id', e', i')
    ensures id == id' && i == i'
  {
    IntTextHasNoMarks(id);
    IntTextHasNoMarks(id');
    IntTextHasNoMarks(i);
    IntTextHasNoMarks(i');
    var (p, p') := (IntText(id) + ['-'], IntText(id') + ['-']);
    CutBothEnds(p, IntText(e.toNode) + ['_'] + KindText(e.kind), IntText(i),
                p', IntText(e'.toNode) + ['_'] + KindText(e'.kind), IntText(i'));
    assert p[..|p| - 1] == IntText(id) && p'[..|p'| - 1] == IntText(id');
    IntTextInjective(id, id');
    IntTextInjective(i, i');
  }

  // ---------------------------------------------------------------- rows

  datatype NodeKey = NodeKey(funcId: string, signature: string, nodeId: int, task: string)
  datatype NodeRow = NodeRow(line: int, taint: string, parents: seq<int>, checks: seq<string>,
                             prune: Option<Prune>, isSource: bool)
  datatype EdgeKey = EdgeKey(funcId: string, signature: string, edgeId: string, task: string)
  datatype EdgeRow = EdgeRow(fromNode: int, toNode: int, line: int, conditions: seq<string>, taints: seq<string>,
                             kind: EdgeKind, sinkRef: string, paramTaints: seq<ParamTaint>,
                             escapeSubkind: string, carrier: string, escapeVia: string)
  datatype MetaKey = MetaKey(funcId: string, signature: string, task: string)
  datatype MetaRow = MetaRow(selfContained: bool, description: string, taintFailed: bool)

  function RowOfNode(n: Node): NodeRow {
    NodeRow(n.line, n.taint, n.parents, n.checks, n.prune, n.isSource)
  }

  function RowOfEdge(from: int, e: Edge): EdgeRow {
    EdgeRow(from, e.toNode, e.line, e.conditions, e.taints, e.kind, e.sinkRef, e.paramTaints,
            e.escapeSubkind, e.carrier, e.escapeVia)
  }

  /** What a stored edge loads back as: the analyser's working fields are gone. */
  function EdgeOfRow(r: EdgeRow): Edge {
    Edge(r.toNode, r.line, r.kind, r.sinkRef, r.taints, r.paramTaints, r.conditions,
         r.escapeSubkind, r.carrier, r.escapeVia, 0, "", [], [])
  }

  function NodeOfRow(id: int, r: NodeRow, children: seq<Edge>): Node {
    Node(id, r.line, r.taint, r.parents, r.checks, r.prune, r.isSource, children, 0, "", [])
  }

  type Entry = (EdgeKey, EdgeRow)

  function EntryOf(d: Dag, n: Node, i: nat, task: string): Entry
    requires i < |n.children|
  {
    (EdgeKey(d.funcId, d.signature, EdgeId(n.id, n.children[i], i), task), RowOfEdge(n.id, n.children[i]))
  }

  function NodeEntries(d: Dag, n: Node, k: nat, task: string): seq<Entry>
    requires k <= |n.children|
  {
    seq(k, i requires 0 <= i < k => EntryOf(d, n, i, task))
  }

  /** The edge rows of the first `m` nodes, in the order they are inserted. */
  function Entries(d: Dag, m: nat, task: string): seq<Entry>
    requires m <= |d.nodes|
  {
    if m == 0 then []
    else Entries(d, m - 1, task) + NodeEntries(d, d.nodes[m - 1], |d.nodes[m - 1].children|, task)
  }

  function NodeEntry(d: Dag, n: Node, task: string): (NodeKey, NodeRow) {
    (NodeKey(d.funcId, d.signature, n.id, task), RowOfNode(n))
  }

  function NodeTable(d: Dag, task: string): seq<(NodeKey, NodeRow)> {
    seq(|d.nodes|, i requires 0 <= i < |d.nodes| => NodeEntry(d, d.nodes[i], task))
  }

  /** INSERT IGNORE: a row whose key is taken is dropped. */
  function InsertIgnore<K, V>(m: map<K, V>, k: K, v: V): map<K, V> {
    if k in m then m else m[k := v]
  }

  function InsertAll<K, V>(m: map<K, V>, entries: seq<(K, V)>, n: nat): map<K, V>
    requires n <= |entries|
  {
    if n == 0 then m
    else InsertIgnore(InsertAll(m, entries, n - 1), entries[n - 1].0, entries[n - 1].1)
  }

  function OtherNodes(nodes: map<NodeKey, NodeRow>, f: string, s: string, task: string): map<NodeKey, NodeRow> {
    map k | k in nodes && !(k.funcId == f && k.signature == s && k.task == task) :: nodes[k]
  }

  function OtherEdges(edges: map<EdgeKey, EdgeRow>, f: string, s: string, task: string): map<EdgeKey, EdgeRow> {
    map k | k in edges && !(k.funcId == f && k.signature == s && k.task == task) :: edges[k]
  }

  function SavedNodes(nodes: map<NodeKey, NodeRow>, d: Dag, task: string): map<NodeKey, NodeRow> {
    InsertAll(OtherNodes(nodes, d.funcId, d.signature, task), NodeTable(d, task), |NodeTable(d, task)|)
  }

  function SavedEdges(edges: map<EdgeKey, EdgeRow>, d: Dag, task: string): map<EdgeKey, EdgeRow> {
    var entries := Entries(d, |d.nodes|, task);
    InsertAll(OtherEdges(edges, d.funcId, d.signature, task), entries, |entries|)
  }

  function SavedMeta(meta: map<MetaKey, MetaRow>, d: Dag, task: string): map<MetaKey, MetaRow> {
    meta[MetaKey(d.funcId, d.signature, task) := MetaRow(d.selfContained, d.description, d.taintFailed)]
  }

  // ---------------------------------------------------------------- what a SELECT may return

  function IdsIn(nodes: map<NodeKey, NodeRow>, f: string, s: string, task: string): set<int> {
    set k | k in nodes && k.funcId == f && k.signature == s && k.task == task :: k.nodeId
  }

  function EdgeKeysIn(edges: map<EdgeKey, EdgeRow>, f: string, s: string, task: string): set<EdgeKey> {
    set k | k in edges && k.funcId == f && k.signature == s && k.task == task
  }

  predicate Ascending(ids: seq<int>) {
    forall i, j :: 0 <= i < j < |ids| ==> ids[i] < ids[j]
  }

  /** `order` lists the elements of `s`, each once. */
  predicate Lists<T(==)>(order: seq<T>, s: set<T>) {
    && (forall x <- order :: x in s)
    && (forall x <- s :: x in order)
    && (forall i, j :: 0 <= i < j < |order| ==> order[i] != order[j])
  }

  predicate EdgesKnown(edges: map<EdgeKey, EdgeRow>, order: seq<EdgeKey>) {
    forall k <- order :: k in edges
  }

  /** The keys of `order` whose edge leaves the node `id`, in that order. */
  function From(edges: map<EdgeKey, EdgeRow>, order: seq<EdgeKey>, n: nat, id: int): seq<EdgeKey>
    requires n <= |order| && EdgesKnown(edges, order)
  {
    if n == 0 then []
    else From(edges, order, n - 1, id) + if edges[order[n - 1]].fromNode == id then [order[n - 1]] else []
  }

  function ChildrenFrom(edges: map<EdgeKey, EdgeRow>, keys: seq<EdgeKey>): seq<Edge>
    requires EdgesKnown(edges, keys)
  {
    seq(|keys|, i requires 0 <= i < |keys| => EdgeOfRow(edges[keys[i]]))
  }

  lemma {:induction false} FromIsKnown(edges: map<EdgeKey, EdgeRow>, order: seq<EdgeKey>, n: nat, id: int)
    requires n <= |order| && EdgesKnown(edges, order)
    ensures EdgesKnown(edges, From(edges, order, n, id))
    ensures forall k :: k in From(edges, order, n, id) <==> k in order[..n] && edges[k].fromNode == id
  {
    if n > 0 {
      FromIsKnown(edges, order, n - 1, id);
      assert order[..n] == order[..n - 1] + [order[n - 1]];
    }
  }

  /** The nodes a load builds after `n` edge rows: node `ids[i]` has the edges that came so far. */
  function LoadedNodes(nodes: map<NodeKey, NodeRow>, edges: map<EdgeKey, EdgeRow>, f: string, s: string, task: string,
                       ids: seq<int>, order: seq<EdgeKey>, n: nat): seq<Node>
    requires forall id <- ids :: NodeKey(f, s, id, task) in nodes
    requires n <= |order| && EdgesKnown(edges, order)
  {
    seq(|ids|, i requires 0 <= i < |ids| =>
      FromIsKnown(edges, order, n, ids[i]);
      NodeOfRow(ids[i], nodes[NodeKey(f, s, ids[i], task)], ChildrenFrom(edges, From(edges, order, n, ids[i]))))
  }

  function LoadedMeta(meta: map<MetaKey, MetaRow>, f: string, s: string, task: string): MetaRow {
    if MetaKey(f, s, task) in meta then meta[MetaKey(f, s, task)] else MetaRow(false, "", false)
  }

  function LoadedDag(nodes: seq<Node>, m: MetaRow, f: string, s: string): Dag {
    Dag(f, s, nodes, m.selfContained, m.description, m.taintFailed)
  }

  method FlattenEdges(d: Dag, task: string) returns (rows: seq<Entry>)
    ensures rows == Entries(d, |d.nodes|, task)
  {
    rows := [];
    for m := 0 to |d.nodes|
      invariant rows == Entries(d, m, task)
    {
      for k := 0 to |d.nodes[m].children|
        invariant rows == Entries(d, m, task) + NodeEntries(d, d.nodes[m], k, task)
      {
        rows := rows + [EntryOf(d, d.nodes[m], k, task)];
        assert NodeEntries(d, d.nodes[m], k + 1, task) == NodeEntries(d, d.nodes[m], k, task) + [EntryOf(d, d.nodes[m], k, task)];
      }
    }
  }

  /** The analysis tables all tasks share. */
  class DagDatabase {
    var nodes: map<NodeKey, NodeRow>
    var edges: map<EdgeKey, EdgeRow>
    var meta: map<MetaKey, MetaRow>

    constructor ()
      ensures nodes == map[] && edges == map[] && meta == map[]
    {
      nodes, edges, meta := map[], map[], map[];
    }

    /** `DagflowStore.save_dag` flattens the DAG; `DAGMysqlStore.save_dag` replaces the rows of its key. */
    method SaveDag(d: Dag, task: string)
      modifies this
      ensures nodes == SavedNodes(old(nodes), d, task)
      ensures edges == SavedEdges(old(edges), d, task)
      ensures meta == SavedMeta(old(meta), d, task)
    {
      var edgeRows := FlattenEdges(d, task);
      ReplaceNodes(d, NodeTable(d, task), task);
      ReplaceEdges(d, edgeRows, task);
      meta := meta[MetaKey(d.funcId, d.signature, task) := MetaRow(d.selfContained, d.description, d.taintFailed)];
    }

    method ReplaceNodes(d: Dag, rows: seq<(NodeKey, NodeRow)>, task: string)
      modifies this`nodes
      ensures nodes == InsertAll(OtherNodes(old(nodes), d.funcId, d.signature, task), rows, |rows|)
    {
      nodes := OtherNodes(nodes, d.funcId, d.signature, task);
      for i := 0 to |rows|
        invariant nodes == InsertAll(OtherNodes(old(nodes), d.funcId, d.signature, task), rows, i)
      {
        if rows[i].0 !in nodes { nodes := nodes[rows[i].0 := rows[i].1]; }
      }
    }

    method ReplaceEdges(d: Dag, rows: seq<Entry>, task: string)
      modifies this`edges
      ensures edges == InsertAll(OtherEdges(old(edges), d.funcId, d.signature, task), rows, |rows|)
    {
      edges := OtherEdges(edges, d.funcId, d.signature, task);
      for i := 0 to |rows|
        invariant edges == InsertAll(OtherEdges(old(edges), d.funcId, d.signature, task), rows, i)
      {
        if rows[i].0 !in edges { edges := edges[rows[i].0 := rows[i].1]; }
      }
    }

    /** Rows come in node id order; edge rows of one node in whatever order the database likes. */
    method LoadDag(f: string, s: string, task: string) returns (r: Option<Dag>, ids: seq<int>, order: seq<EdgeKey>)
      ensures Ascending(ids) && Lists(ids, IdsIn(nodes, f, s, task))
      ensures r.None? <==> ids == []
      ensures r.Some? ==> Lists(order, EdgeKeysIn(edges, f, s, task))
      ensures r.Some? ==> r.value == LoadedDag(LoadedNodes(nodes, edges, f, s, task, ids, order, |order|),
                                               LoadedMeta(meta, f, s, task), f, s)
    {
      ids := SelectIds(IdsIn(nodes, f, s, task));
      order := [];
      if ids == [] { return None, ids, order; }
      order := SelectAll(EdgeKeysIn(edges, f, s, task));
      var loaded := LoadedNodes(nodes, edges, f, s, task, ids, order, 0);
      for n := 0 to |order|
        invariant loaded == LoadedNodes(nodes, edges, f, s, task, ids, order, n)
      {
        var row := edges[order[n]];
        var next := LoadedNodes(nodes, edges, f, s, task, ids, order, n + 1);
        var appended := seq(|loaded|, i requires 0 <= i < |loaded| =>
          if loaded[i].id == row.fromNode then loaded[i].(children := loaded[i].children + [EdgeOfRow(row)]) else loaded[i]);
        forall i | 0 <= i < |ids| ensures appended[i] == next[i] {
          FromIsKnown(edges, order, n, ids[i]);
          FromIsKnown(edges, order, n + 1, ids[i]);
        }
        loaded := appended;
      }
      r := Some(LoadedDag(loaded, LoadedMeta(meta, f, s, task), f, s));
    }
  }

  method SelectIds(s: set<int>) returns (ids: seq<int>)
    ensures Ascending(ids) && Lists(ids, s)
  {
    ids := [];
    var rest := s;
    while rest != {}
      invariant rest <= s
      invariant Ascending(ids)
      invariant Lists(ids, s - rest)
      invariant forall i, x :: 0 <= i < |ids| && x in rest ==> ids[i] < x
      decreases rest
    {
      var m := Smallest(rest);
      ids := ids + [m];
      rest := rest - {m};
    }
  }

  method Pick<T>(s: set<T>) returns (x: T)
    requires s != {}
    ensures x in s
  {
    x :| x in s;
  }

  method Smallest(s: set<int>) returns (m: int)
    requires s != {}
    ensures m in s && forall x <- s :: m <= x
  {
    m := Pick(s);
    var rest := s - {m};
    while rest != {}
      invariant m in s && rest <= s
      invariant forall x <- s :: x !in rest ==> m <= x
      decreases rest
    {
      var x := Pick(rest);
      if x < m { m := x; }
      rest := rest - {x};
    }
  }

  method SelectAll(s: set<EdgeKey>) returns (order: seq<EdgeKey>)
    ensures Lists(order, s)
  {
    order := [];
    var rest := s;
    while rest != {}
      invariant rest <= s
      invariant Lists(order, s - rest)
      decreases rest
    {
      var k := Pick(rest);
      order := order + [k];
      rest := rest - {k};
    }
  }
}
