/** Saving a DAG and loading it back: what returns, and what is left alone. */
module DagRoundTrip {
  import opened TaintDag
  import opened DagStore

  // ---------------------------------------------------------------- INSERT IGNORE loops

  predicate KeysTellRows<K(==), V(==)>(entries: seq<(K, V)>) {
    forall i, j :: 0 <= i < |entries| && 0 <= j < |entries| && entries[i].0 == entries[j].0 ==> entries[i].1 == entries[j].1
  }

  lemma {:induction false} InsertAllFacts<K, V>(m: map<K, V>, entries: seq<(K, V)>, n: nat)
    requires n <= |entries| && KeysTellRows(entries)
    requires forall i :: 0 <= i < |entries| ==> entries[i].0 !in m
    ensures var r := InsertAll(m, entries, n);
      && (forall k :: k in r <==> k in m || exists i :: 0 <= i < n && entries[i].0 == k)
      && (forall k <- m :: r[k] == m[k])
      && (forall i :: 0 <= i < n ==> r[entries[i].0] == entries[i].1)
  {
    if n > 0 { InsertAllFacts(m, entries, n - 1); }
  }

  /** Whatever the DAG, no row of another key or another task changes. */
  lemma {:induction false} InsertAllKeeps<K, V>(m: map<K, V>, entries: seq<(K, V)>, n: nat, k: K)
    requires n <= |entries| && forall i :: 0 <= i < |entries| ==> entries[i].0 != k
    ensures (k in InsertAll(m, entries, n) <==> k in m) && (k in m ==> InsertAll(m, entries, n)[k] == m[k])
  {
    if n > 0 { InsertAllKeeps(m, entries, n - 1, k); }
  }

  lemma {:induction false} EntriesShape(d: Dag, m: nat, task: string)
    requires m <= |d.nodes|
    ensures forall x :: x in Entries(d, m, task) <==>
              exists a, b :: 0 <= a < m && 0 <= b < |d.nodes[a].children| && x == EntryOf(d, d.nodes[a], b, task)
  {
    if m > 0 {
      EntriesShape(d, m - 1, task);
      var n := d.nodes[m - 1];
      var last := NodeEntries(d, n, |n.children|, task);
      forall b | 0 <= b < |last| ensures EntryOf(d, n, b, task) in last {
        assert last[b] == EntryOf(d, n, b, task);
      }
    }
  }

  lemma SaveLeavesOthersAlone(nodes: map<NodeKey, NodeRow>, edges: map<EdgeKey, EdgeRow>, meta: map<MetaKey, MetaRow>,
                              d: Dag, task: string)
    ensures forall k: NodeKey | !(k.funcId == d.funcId && k.signature == d.signature && k.task == task) ::
              (k in SavedNodes(nodes, d, task) <==> k in nodes) && (k in nodes ==> SavedNodes(nodes, d, task)[k] == nodes[k])
    ensures forall k: EdgeKey | !(k.funcId == d.funcId && k.signature == d.signature && k.task == task) ::
              (k in SavedEdges(edges, d, task) <==> k in edges) && (k in edges ==> SavedEdges(edges, d, task)[k] == edges[k])
    ensures forall k: MetaKey | k != MetaKey(d.funcId, d.signature, task) ::
              (k in SavedMeta(meta, d, task) <==> k in meta) && (k in meta ==> SavedMeta(meta, d, task)[k] == meta[k])
  {
    forall k: NodeKey | !(k.funcId == d.funcId && k.signature == d.signature && k.task == task)
      ensures (k in SavedNodes(nodes, d, task) <==> k in nodes) && (k in nodes ==> SavedNodes(nodes, d, task)[k] == nodes[k])
    {
      InsertAllKeeps(OtherNodes(nodes, d.funcId, d.signature, task), NodeTable(d, task), |NodeTable(d, task)|, k);
    }
    var entries := Entries(d, |d.nodes|, task);
    EntriesShape(d, |d.nodes|, task);
    forall k: EdgeKey | !(k.funcId == d.funcId && k.signature == d.signature && k.task == task)
      ensures (k in SavedEdges(edges, d, task) <==> k in edges) && (k in edges ==> SavedEdges(edges, d, task)[k] == edges[k])
    {
      forall i | 0 <= i < |entries| ensures entries[i].0 != k { assert entries[i] in entries; }
      InsertAllKeeps(OtherEdges(edges, d.funcId, d.signature, task), entries, |entries|, k);
    }
  }

  // ---------------------------------------------------------------- the rows of a saved DAG

  predicate DistinctIds(nodes: seq<Node>) {
    forall i, j :: 0 <= i < j < |nodes| ==> nodes[i].id != nodes[j].id
  }

  lemma SavedNodesFacts(nodes: map<NodeKey, NodeRow>, d: Dag, task: string)
    requires DistinctIds(d.nodes)
    ensures var saved := SavedNodes(nodes, d, task);
      && (forall n <- d.nodes :: NodeEntry(d, n, task).0 in saved && saved[NodeEntry(d, n, task).0] == RowOfNode(n))
      && (forall id :: id in IdsIn(saved, d.funcId, d.signature, task) <==> exists i :: 0 <= i < |d.nodes| && d.nodes[i].id == id)
  {
    var rows := NodeTable(d, task);
    var others := OtherNodes(nodes, d.funcId, d.signature, task);
    forall i, j | 0 <= i < |rows| && 0 <= j < |rows| && rows[i].0 == rows[j].0 ensures rows[i].1 == rows[j].1 {
      assert d.nodes[i].id == d.nodes[j].id;
    }
    InsertAllFacts(others, rows, |rows|);
    var saved := SavedNodes(nodes, d, task);
    forall n | n in d.nodes ensures NodeEntry(d, n, task).0 in saved && saved[NodeEntry(d, n, task).0] == RowOfNode(n) {
      var i :| 0 <= i < |d.nodes| && d.nodes[i] == n;
      assert rows[i] == NodeEntry(d, n, task);
    }
    forall id | id in IdsIn(saved, d.funcId, d.signature, task)
      ensures exists i :: 0 <= i < |d.nodes| && d.nodes[i].id == id
    {
      var i :| 0 <= i < |rows| && rows[i].0 == NodeKey(d.funcId, d.signature, id, task);
      assert d.nodes[i].id == id;
    }
    forall i | 0 <= i < |d.nodes| ensures d.nodes[i].id in IdsIn(saved, d.funcId, d.signature, task) {
      assert d.nodes[i] in d.nodes;
      assert NodeEntry(d, d.nodes[i], task).0 in saved;
    }
  }

  lemma KeyTellsEntry(d: Dag, task: string, a: nat, b: nat, a': nat, b': nat)
    requires DistinctIds(d.nodes) && a < |d.nodes| && a' < |d.nodes|
    requires b < |d.nodes[a].children| && b' < |d.nodes[a'].children|
    requires EntryOf(d, d.nodes[a], b, task).0 == EntryOf(d, d.nodes[a'], b', task).0
    ensures a == a' && b == b'
  {
    EdgeIdInjective(d.nodes[a].id, d.nodes[a].children[b], b, d.nodes[a'].id, d.nodes[a'].children[b'], b');
  }

  /** No edge is dropped: equal keys come from one node and one position. */
  lemma EntriesTellRows(d: Dag, task: string)
    requires DistinctIds(d.nodes)
    ensures KeysTellRows(Entries(d, |d.nodes|, task))
  {
    var entries := Entries(d, |d.nodes|, task);
    EntriesShape(d, |d.nodes|, task);
    forall i, j | 0 <= i < |entries| && 0 <= j < |entries| && entries[i].0 == entries[j].0 ensures entries[i].1 == entries[j].1 {
      assert entries[i] in entries && entries[j] in entries;
      var a, b :| 0 <= a < |d.nodes| && 0 <= b < |d.nodes[a].children| && entries[i] == EntryOf(d, d.nodes[a], b, task);
      var a', b' :| 0 <= a' < |d.nodes| && 0 <= b' < |d.nodes[a'].children| && entries[j] == EntryOf(d, d.nodes[a'], b', task);
      KeyTellsEntry(d, task, a, b, a', b');
    }
  }

  lemma SavedEdgesFacts(edges: map<EdgeKey, EdgeRow>, d: Dag, task: string)
    requires DistinctIds(d.nodes)
    ensures var saved := SavedEdges(edges, d, task);
      && (forall a, b :: 0 <= a < |d.nodes| && 0 <= b < |d.nodes[a].children| ==>
            EntryOf(d, d.nodes[a], b, task).0 in saved
            && saved[EntryOf(d, d.nodes[a], b, task).0] == RowOfEdge(d.nodes[a].id, d.nodes[a].children[b]))
      && (forall k <- EdgeKeysIn(saved, d.funcId, d.signature, task) ::
            exists a, b :: 0 <= a < |d.nodes| && 0 <= b < |d.nodes[a].children| && k == EntryOf(d, d.nodes[a], b, task).0)
  {
    var entries := Entries(d, |d.nodes|, task);
    var others := OtherEdges(edges, d.funcId, d.signature, task);
    EntriesShape(d, |d.nodes|, task);
    EntriesTellRows(d, task);
    forall i | 0 <= i < |entries| ensures entries[i].0 !in others { assert entries[i] in entries; }
    InsertAllFacts(others, entries, |entries|);
    var saved := SavedEdges(edges, d, task);
    forall a, b | 0 <= a < |d.nodes| && 0 <= b < |d.nodes[a].children|
      ensures EntryOf(d, d.nodes[a], b, task).0 in saved
      ensures saved[EntryOf(d, d.nodes[a], b, task).0] == RowOfEdge(d.nodes[a].id, d.nodes[a].children[b])
    {
      assert EntryOf(d, d.nodes[a], b, task) in entries;
    }
    forall k | k in EdgeKeysIn(saved, d.funcId, d.signature, task)
      ensures exists a, b :: 0 <= a < |d.nodes| && 0 <= b < |d.nodes[a].children| && k == EntryOf(d, d.nodes[a], b, task).0
    {
      var i :| 0 <= i < |entries| && entries[i].0 == k;
      assert entries[i] in entries;
    }
  }

  // ---------------------------------------------------------------- the order of a SELECT does not matter

  predicate Distinct<T(==)>(xs: seq<T>) {
    forall i, j :: 0 <= i < j < |xs| ==> xs[i] != xs[j]
  }

  lemma {:induction false} DistinctSameElements<T>(xs: seq<T>, ys: seq<T>)
    requires Distinct(xs) && Distinct(ys) && forall x :: x in xs <==> x in ys
    ensures multiset(xs) == multiset(ys)
  {
    forall x ensures multiset(xs)[x] == multiset(ys)[x] {
      DistinctCount(xs, x);
      DistinctCount(ys, x);
    }
  }

  lemma {:induction false} DistinctCount<T>(xs: seq<T>, x: T)
    requires Distinct(xs)
    ensures multiset(xs)[x] == if x in xs then 1 else 0
  {
    if xs != [] {
      var (front, last) := (xs[..|xs| - 1], xs[|xs| - 1]);
      DistinctCount(front, x);
      assert xs == front + [last];
      assert last !in front;
    }
  }

  /** Taking the value at `i` out of a sequence. */
  function Without<T>(xs: seq<T>, i: nat): (rest: seq<T>)
    requires i < |xs|
    ensures multiset(xs) == multiset(rest) + multiset{xs[i]}
    ensures forall x <- rest :: x in xs
  {
    assert xs == xs[..i] + [xs[i]] + xs[i + 1..];
    xs[..i] + xs[i + 1..]
  }

  lemma WithoutChild(edges: map<EdgeKey, EdgeRow>, keys: seq<EdgeKey>, i: nat)
    requires EdgesKnown(edges, keys) && i < |keys|
    ensures EdgesKnown(edges, Without(keys, i))
    ensures multiset(ChildrenFrom(edges, keys))
         == multiset(ChildrenFrom(edges, Without(keys, i))) + multiset{EdgeOfRow(edges[keys[i]])}
  {
    assert ChildrenFrom(edges, Without(keys, i)) == Without(ChildrenFrom(edges, keys), i);
  }

  lemma {:induction false} SameKeysSameChildren(edges: map<EdgeKey, EdgeRow>, xs: seq<EdgeKey>, ys: seq<EdgeKey>)
    requires EdgesKnown(edges, xs) && EdgesKnown(edges, ys) && multiset(xs) == multiset(ys)
    ensures multiset(ChildrenFrom(edges, xs)) == multiset(ChildrenFrom(edges, ys))
    decreases |xs|
  {
    if xs == [] {
      assert |multiset(ys)| == 0;
    } else {
      assert xs[0] in multiset(ys);
      var i :| 0 <= i < |ys| && ys[i] == xs[0];
      WithoutChild(edges, xs, 0);
      WithoutChild(edges, ys, i);
      assert multiset(Without(xs, 0)) == multiset(xs) - multiset{xs[0]} == multiset(Without(ys, i));
      SameKeysSameChildren(edges, Without(xs, 0), Without(ys, i));
    }
  }

  lemma {:induction false} FromDistinct(edges: map<EdgeKey, EdgeRow>, order: seq<EdgeKey>, n: nat, id: int)
    requires n <= |order| && EdgesKnown(edges, order) && Distinct(order)
    ensures Distinct(From(edges, order, n, id))
  {
    if n > 0 {
      FromDistinct(edges, order, n - 1, id);
      FromIsKnown(edges, order, n - 1, id);
      assert order[n - 1] !in order[..n - 1];
    }
  }

  // ---------------------------------------------------------------- the theorem

  /** A child as it comes back: everything but the analyser's working fields. */
  function Stored(e: Edge): Edge {
    e.(lineEnd := 0, callee := "", taintedArgs := [], condLines := [])
  }

  function StoredChildren(es: seq<Edge>): seq<Edge> {
    seq(|es|, i requires 0 <= i < |es| => Stored(es[i]))
  }

  /** The loaded node carries what was saved of `n`, its edges in any order. */
  predicate SameNode(loaded: Node, n: Node) {
    && loaded == n.(children := loaded.children, lineEnd := 0, source := "", checkLines := [])
    && multiset(loaded.children) == multiset(StoredChildren(n.children))
  }

  function OwnKeys(d: Dag, a: nat, task: string): seq<EdgeKey>
    requires a < |d.nodes|
  {
    seq(|d.nodes[a].children|, b requires 0 <= b < |d.nodes[a].children| => EntryOf(d, d.nodes[a], b, task).0)
  }

  lemma OwnKeysDistinct(d: Dag, a: nat, task: string)
    requires a < |d.nodes|
    ensures Distinct(OwnKeys(d, a, task))
  {
    var ks := OwnKeys(d, a, task);
    forall i, j | 0 <= i < j < |ks| ensures ks[i] != ks[j] {
      if ks[i] == ks[j] {
        EdgeIdInjective(d.nodes[a].id, d.nodes[a].children[i], i, d.nodes[a].id, d.nodes[a].children[j], j);
      }
    }
  }

  lemma OwnKeysAreSaved(edges: map<EdgeKey, EdgeRow>, d: Dag, task: string, a: nat)
    requires DistinctIds(d.nodes) && a < |d.nodes|
    ensures var saved := SavedEdges(edges, d, task);
      forall k <- OwnKeys(d, a, task) ::
        k in EdgeKeysIn(saved, d.funcId, d.signature, task) && saved[k].fromNode == d.nodes[a].id
  {
    SavedEdgesFacts(edges, d, task);
    var own := OwnKeys(d, a, task);
    forall k | k in own
      ensures var saved := SavedEdges(edges, d, task);
        k in EdgeKeysIn(saved, d.funcId, d.signature, task) && saved[k].fromNode == d.nodes[a].id
    {
      var b :| 0 <= b < |own| && own[b] == k;
      assert k == EntryOf(d, d.nodes[a], b, task).0;
    }
  }

  lemma SavedKeyIsOwn(edges: map<EdgeKey, EdgeRow>, d: Dag, task: string, a: nat, k: EdgeKey)
    requires DistinctIds(d.nodes) && a < |d.nodes|
    requires k in EdgeKeysIn(SavedEdges(edges, d, task), d.funcId, d.signature, task)
    requires SavedEdges(edges, d, task)[k].fromNode == d.nodes[a].id
    ensures k in OwnKeys(d, a, task)
  {
    SavedEdgesFacts(edges, d, task);
    var a', b :| 0 <= a' < |d.nodes| && 0 <= b < |d.nodes[a'].children| && k == EntryOf(d, d.nodes[a'], b, task).0;
    assert SavedEdges(edges, d, task)[k].fromNode == d.nodes[a'].id;
    assert a' == a;
    assert OwnKeys(d, a, task)[b] == k;
  }

  lemma OwnKeysAreFrom(edges: map<EdgeKey, EdgeRow>, d: Dag, task: string, order: seq<EdgeKey>, a: nat)
    requires DistinctIds(d.nodes) && a < |d.nodes|
    requires Lists(order, EdgeKeysIn(SavedEdges(edges, d, task), d.funcId, d.signature, task))
    ensures var saved := SavedEdges(edges, d, task);
      && EdgesKnown(saved, order) && EdgesKnown(saved, OwnKeys(d, a, task))
      && forall k :: k in From(saved, order, |order|, d.nodes[a].id) <==> k in OwnKeys(d, a, task)
  {
    var saved := SavedEdges(edges, d, task);
    OwnKeysAreSaved(edges, d, task, a);
    FromIsKnown(saved, order, |order|, d.nodes[a].id);
    assert order[..|order|] == order;
    forall k | k in From(saved, order, |order|, d.nodes[a].id) ensures k in OwnKeys(d, a, task) {
      SavedKeyIsOwn(edges, d, task, a, k);
    }
  }

  lemma ChildrenComeBack(edges: map<EdgeKey, EdgeRow>, d: Dag, task: string, order: seq<EdgeKey>, a: nat)
    requires DistinctIds(d.nodes) && a < |d.nodes|
    requires var saved := SavedEdges(edges, d, task); Lists(order, EdgeKeysIn(saved, d.funcId, d.signature, task))
    ensures var saved := SavedEdges(edges, d, task);
      && EdgesKnown(saved, order) && EdgesKnown(saved, From(saved, order, |order|, d.nodes[a].id))
      && multiset(ChildrenFrom(saved, From(saved, order, |order|, d.nodes[a].id)))
         == multiset(StoredChildren(d.nodes[a].children))
  {
    var saved := SavedEdges(edges, d, task);
    var (n, own) := (d.nodes[a], OwnKeys(d, a, task));
    OwnKeysAreFrom(edges, d, task, order, a);
    OwnKeysDistinct(d, a, task);
    FromDistinct(saved, order, |order|, n.id);
    var from := From(saved, order, |order|, n.id);
    DistinctSameElements(from, own);
    SameKeysSameChildren(saved, from, own);
    SavedEdgesFacts(edges, d, task);
    assert ChildrenFrom(saved, own) == StoredChildren(n.children) by {
      forall b | 0 <= b < |own| ensures ChildrenFrom(saved, own)[b] == StoredChildren(n.children)[b] {
        assert own[b] == EntryOf(d, n, b, task).0;
      }
    }
  }

  /** What the two SELECTs of a load may answer after `d` was saved for `task`. */
  ghost predicate Selected(nodes: map<NodeKey, NodeRow>, edges: map<EdgeKey, EdgeRow>, d: Dag, task: string,
                           ids: seq<int>, order: seq<EdgeKey>)
  {
    && Ascending(ids) && Lists(ids, IdsIn(SavedNodes(nodes, d, task), d.funcId, d.signature, task))
    && Lists(order, EdgeKeysIn(SavedEdges(edges, d, task), d.funcId, d.signature, task))
  }

  lemma NodesKnown(nodes: map<NodeKey, NodeRow>, d: Dag, task: string, ids: seq<int>)
    requires Lists(ids, IdsIn(SavedNodes(nodes, d, task), d.funcId, d.signature, task))
    ensures forall id <- ids :: NodeKey(d.funcId, d.signature, id, task) in SavedNodes(nodes, d, task)
  {
    forall id | id in ids ensures NodeKey(d.funcId, d.signature, id, task) in SavedNodes(nodes, d, task) {
      assert id in IdsIn(SavedNodes(nodes, d, task), d.funcId, d.signature, task);
    }
  }

  ghost function Reloaded(nodes: map<NodeKey, NodeRow>, edges: map<EdgeKey, EdgeRow>, d: Dag, task: string,
                          ids: seq<int>, order: seq<EdgeKey>): (loaded: seq<Node>)
    requires Selected(nodes, edges, d, task, ids, order)
    ensures |loaded| == |ids| && forall i :: 0 <= i < |ids| ==> loaded[i].id == ids[i]
  {
    NodesKnown(nodes, d, task, ids);
    LoadedNodes(SavedNodes(nodes, d, task), SavedEdges(edges, d, task), d.funcId, d.signature, task, ids, order, |order|)
  }

  lemma NodeComesBack(nodes: map<NodeKey, NodeRow>, edges: map<EdgeKey, EdgeRow>, d: Dag, task: string,
                      ids: seq<int>, order: seq<EdgeKey>, i: nat, a: nat)
    requires DistinctIds(d.nodes) && Selected(nodes, edges, d, task, ids, order)
    requires i < |ids| && a < |d.nodes| && ids[i] == d.nodes[a].id
    ensures SameNode(Reloaded(nodes, edges, d, task, ids, order)[i], d.nodes[a])
  {
    ChildrenComeBack(edges, d, task, order, a);
    SavedNodesFacts(nodes, d, task);
    assert d.nodes[a] in d.nodes;
    assert NodeEntry(d, d.nodes[a], task).0 == NodeKey(d.funcId, d.signature, ids[i], task);
  }

  /** Save then load, for the same task: exactly the saved nodes in id order, each with the same multiset
      of outgoing edges, and the same summary, whatever the tables held before and in whatever order the
      database returns the edges. */
  lemma SaveLoadRoundTrip(nodes: map<NodeKey, NodeRow>, edges: map<EdgeKey, EdgeRow>, meta: map<MetaKey, MetaRow>,
                          d: Dag, task: string, ids: seq<int>, order: seq<EdgeKey>)
    requires DistinctIds(d.nodes) && Selected(nodes, edges, d, task, ids, order)
    ensures var loaded := Reloaded(nodes, edges, d, task, ids, order);
      && |loaded| == |d.nodes| && Ascending(NodeIds(loaded))
      && (forall a :: 0 <= a < |d.nodes| ==> d.nodes[a].id in ids)
      && (forall i, a :: 0 <= i < |loaded| && 0 <= a < |d.nodes| && loaded[i].id == d.nodes[a].id ==>
            SameNode(loaded[i], d.nodes[a]))
    ensures LoadedMeta(SavedMeta(meta, d, task), d.funcId, d.signature, task)
         == MetaRow(d.selfContained, d.description, d.taintFailed)
  {
    var loaded := Reloaded(nodes, edges, d, task, ids, order);
    forall i, a | 0 <= i < |loaded| && 0 <= a < |d.nodes| && loaded[i].id == d.nodes[a].id
      ensures SameNode(loaded[i], d.nodes[a])
    {
      NodeComesBack(nodes, edges, d, task, ids, order, i, a);
    }
    SelectedIds(nodes, d, task, ids);
    SameCount(d, ids);
  }

  lemma SelectedIds(nodes: map<NodeKey, NodeRow>, d: Dag, task: string, ids: seq<int>)
    requires DistinctIds(d.nodes) && Lists(ids, IdsIn(SavedNodes(nodes, d, task), d.funcId, d.signature, task))
    ensures forall id :: id in ids <==> exists i :: 0 <= i < |d.nodes| && d.nodes[i].id == id
  {
    SavedNodesFacts(nodes, d, task);
  }

  function NodeIds(nodes: seq<Node>): (ids: seq<int>)
    ensures |ids| == |nodes| && forall i :: 0 <= i < |ids| ==> ids[i] == nodes[i].id
  {
    seq(|nodes|, i requires 0 <= i < |nodes| => nodes[i].id)
  }

  lemma SameCount(d: Dag, ids: seq<int>)
    requires DistinctIds(d.nodes) && Ascending(ids)
    requires forall id :: id in ids <==> exists i :: 0 <= i < |d.nodes| && d.nodes[i].id == id
    ensures |ids| == |d.nodes|
  {
    var own := NodeIds(d.nodes);
    forall id ensures id in ids <==> id in own {
      if i :| 0 <= i < |d.nodes| && d.nodes[i].id == id { assert own[i] == id; }
    }
    DistinctSameElements(ids, own);
    assert |multiset(ids)| == |multiset(own)|;
  }
}
