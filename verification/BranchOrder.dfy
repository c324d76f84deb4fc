/** How often and in which order the walk records calls: each wanted call of the tree once, in the order of the text. */
module BranchOrder {
  import opened BranchWalk

  /** A place in a tree: the child to go to at each level. */
  type Place = seq<nat>

  /** The call recorded by `h` stands at place `p` of `n`, inside exactly the arms of its path. */
  predicate Stands(n: Node, p: Place, h: Hit, stack: seq<Frame>)
    decreases |p|
  {
    if p == [] then n.Call? && h == Hit(n.site, n.name, n.line, stack)
    else Visits(n, p[0]) && Stands(n.children[p[0]], p[1..], h, stack + FrameUnder(n, p[0], stack))
  }

  /** `p` comes before `q` in the text: a node before what is inside it, a child before the next one. */
  predicate Before(p: Place, q: Place)
    decreases |p|
  {
    q != [] && (p == [] || p[0] < q[0] || (p[0] == q[0] && Before(p[1..], q[1..])))
  }

  /** The places go through the wanted calls of the tree in order, one for each hit. */
  ghost predicate Lists(n: Node, stack: seq<Frame>, names: set<string>, hits: seq<Hit>, places: seq<Place>) {
    && |places| == |hits|
    && (forall i :: 0 <= i < |hits| ==> Stands(n, places[i], hits[i], stack) && hits[i].name in names)
    && (forall i, j :: 0 <= i < j < |places| ==> Before(places[i], places[j]))
    && (forall p, h :: Stands(n, p, h, stack) && h.name in names ==> p in places)
  }

  /** The same of the node itself and what stands in its first `k` children. */
  ghost predicate ListsUpTo(n: Node, k: nat, stack: seq<Frame>, names: set<string>, hits: seq<Hit>, places: seq<Place>) {
    && |places| == |hits|
    && (forall i :: 0 <= i < |hits| ==> Stands(n, places[i], hits[i], stack) && hits[i].name in names)
    && (forall i, j :: 0 <= i < j < |places| ==> Before(places[i], places[j]))
    && (forall p <- places :: p == [] || p[0] < k)
    && (forall p, h :: Stands(n, p, h, stack) && h.name in names && (p == [] || p[0] < k) ==> p in places)
  }

  function Under(i: nat, places: seq<Place>): (under: seq<Place>)
    ensures |under| == |places| && forall j :: 0 <= j < |places| ==> under[j] == [i] + places[j]
  {
    seq(|places|, j requires 0 <= j < |places| => [i] + places[j])
  }

  lemma UnderChild(n: Node, i: nat, p: Place, h: Hit, stack: seq<Frame>)
    requires Visits(n, i)
    ensures Stands(n, [i] + p, h, stack) <==> Stands(n.children[i], p, h, stack + FrameUnder(n, i, stack))
  {
    assert ([i] + p)[1..] == p;
  }

  lemma BeforeUnder(i: nat, p: Place, q: Place)
    ensures Before([i] + p, [i] + q) <==> Before(p, q)
  {
    assert ([i] + p)[1..] == p && ([i] + q)[1..] == q;
  }

  lemma UnderLists(n: Node, i: nat, stack: seq<Frame>, names: set<string>, hits: seq<Hit>, places: seq<Place>)
    requires Visits(n, i) && Lists(n.children[i], stack + FrameUnder(n, i, stack), names, hits, places)
    ensures var under := Under(i, places);
      && (forall j :: 0 <= j < |hits| ==> Stands(n, under[j], hits[j], stack) && hits[j].name in names)
      && (forall j, k :: 0 <= j < k < |under| ==> Before(under[j], under[k]))
      && (forall p, h :: Stands(n, p, h, stack) && h.name in names && p != [] && p[0] == i ==> p in under)
  {
    var under := Under(i, places);
    forall j | 0 <= j < |hits| ensures Stands(n, under[j], hits[j], stack) {
      UnderChild(n, i, places[j], hits[j], stack);
    }
    forall j, k | 0 <= j < k < |under| ensures Before(under[j], under[k]) {
      BeforeUnder(i, places[j], places[k]);
    }
    forall p, h | Stands(n, p, h, stack) && h.name in names && p != [] && p[0] == i ensures p in under {
      assert p == [i] + p[1..];
      assert p[1..] in places;
      var j :| 0 <= j < |places| && places[j] == p[1..];
      assert under[j] == p;
    }
  }

  /** The places of one more child go behind those of the children before it. */
  lemma OneMoreChild(n: Node, i: nat, stack: seq<Frame>, names: set<string>, hits: seq<Hit>, places: seq<Place>, more: seq<Hit>, below: seq<Place>)
    requires ListsUpTo(n, i, stack, names, hits, places) && |below| == |more|
    requires forall j :: 0 <= j < |more| ==> Stands(n, below[j], more[j], stack) && more[j].name in names
    requires forall j, k :: 0 <= j < k < |below| ==> Before(below[j], below[k])
    requires forall p <- below :: p != [] && p[0] == i
    requires forall p, h :: Stands(n, p, h, stack) && h.name in names && p != [] && p[0] == i ==> p in below
    ensures ListsUpTo(n, i + 1, stack, names, hits + more, places + below)
  {
    var all := places + below;
    forall j, k | 0 <= j < k < |all| ensures Before(all[j], all[k]) {
      if j < |places| <= k {
        assert places[j] in places && below[k - |places|] in below;
      }
    }
  }

  lemma NothingBelow(n: Node, i: nat, stack: seq<Frame>, names: set<string>, hits: seq<Hit>, places: seq<Place>)
    requires ListsUpTo(n, i, stack, names, hits, places) && !Visits(n, i)
    ensures ListsUpTo(n, i + 1, stack, names, hits, places)
  {
  }

  lemma OwnPlace(n: Node, stack: seq<Frame>, names: set<string>) returns (places: seq<Place>)
    ensures ListsUpTo(n, 0, stack, names, OwnHits(n, stack, names), places)
  {
    places := if n.Call? && n.name in names then [[]] else [];
  }

  lemma VisitedChild(n: Node, i: nat, stack: seq<Frame>, names: set<string>, hits: seq<Hit>, places: seq<Place>, below: seq<Place>)
    returns (all: seq<Place>)
    requires ListsUpTo(n, i, stack, names, hits, places) && Visits(n, i)
    requires Lists(n.children[i], stack + FrameUnder(n, i, stack), names, BranchHits(n, i, stack, names), below)
    ensures ListsUpTo(n, i + 1, stack, names, hits + BranchHits(n, i, stack, names), all)
  {
    UnderLists(n, i, stack, names, BranchHits(n, i, stack, names), below);
    OneMoreChild(n, i, stack, names, hits, places, BranchHits(n, i, stack, names), Under(i, below));
    all := places + Under(i, below);
  }

  lemma UnvisitedChild(n: Node, i: nat, stack: seq<Frame>, names: set<string>, hits: seq<Hit>, places: seq<Place>)
    requires ListsUpTo(n, i, stack, names, hits, places) && !Visits(n, i)
    ensures ListsUpTo(n, i + 1, stack, names, hits + BranchHits(n, i, stack, names), places)
  {
    NothingBelow(n, i, stack, names, hits, places);
    assert hits + [] == hits;
  }

  /** The hits of the node itself and of its first `k` children. */
  function Parts(n: Node, k: nat, stack: seq<Frame>, names: set<string>): seq<Hit> {
    OwnHits(n, stack, names) + Joined(Branches(n, stack, names), k)
  }

  lemma PartsNext(n: Node, k: nat, stack: seq<Frame>, names: set<string>)
    ensures Parts(n, k + 1, stack, names) == Parts(n, k, stack, names) + BranchHits(n, k, stack, names)
  {
    var part := Branches(n, stack, names);
    assert Joined(part, k + 1) == Joined(part, k) + part(k);
  }

  lemma PartsNone(n: Node, stack: seq<Frame>, names: set<string>)
    ensures Parts(n, 0, stack, names) == OwnHits(n, stack, names)
  {
  }

  lemma {:induction false} ListChildren(n: Node, k: nat, stack: seq<Frame>, names: set<string>) returns (places: seq<Place>)
    requires k <= |n.children|
    ensures ListsUpTo(n, k, stack, names, Parts(n, k, stack, names), places)
    decreases n, 0, k
  {
    if k == 0 {
      places := OwnPlace(n, stack, names);
      PartsNone(n, stack, names);
    } else {
      places := ListChildren(n, k - 1, stack, names);
      PartsNext(n, k - 1, stack, names);
      if Visits(n, k - 1) {
        var below := ListHits(n.children[k - 1], stack + FrameUnder(n, k - 1, stack), names);
        places := VisitedChild(n, k - 1, stack, names, Parts(n, k - 1, stack, names), places, below);
      } else {
        UnvisitedChild(n, k - 1, stack, names, Parts(n, k - 1, stack, names), places);
      }
    }
  }

  /** The hits of a walk are the wanted calls of the tree, each once, in the order of the text: a call before those in
      its arguments, a condition before its arms. */
  lemma {:induction false} ListHits(n: Node, stack: seq<Frame>, names: set<string>) returns (places: seq<Place>)
    ensures Lists(n, stack, names, HitsOf(n, stack, names), places)
    decreases n, 1
  {
    places := ListChildren(n, |n.children|, stack, names);
    HitsAreParts(n, stack, names);
    forall p, h | Stands(n, p, h, stack) && h.name in names ensures p in places {
      assert p == [] || p[0] < |n.children|;
    }
  }

  // ---------------------------------------------------------------- distinct sites

  lemma {:induction false} StandsInside(n: Node, p: Place, h: Hit, stack: seq<Frame>)
    requires Stands(n, p, h, stack)
    ensures h.site in Sites(n)
    decreases |p|
  {
    if p != [] { StandsInside(n.children[p[0]], p[1..], h, stack + FrameUnder(n, p[0], stack)); }
  }

  lemma {:induction false} SiteTellsPlace(n: Node, p: Place, h: Hit, q: Place, g: Hit, stack: seq<Frame>)
    requires IfSequence(n) && Stands(n, p, h, stack) && Stands(n, q, g, stack) && h.site == g.site
    ensures p == q
    decreases |p|
  {
    if p != [] { StandsInside(n.children[p[0]], p[1..], h, stack + FrameUnder(n, p[0], stack)); }
    if q != [] { StandsInside(n.children[q[0]], q[1..], g, stack + FrameUnder(n, q[0], stack)); }
    if p != [] && q != [] {
      assert p[0] == q[0];
      SiteTellsPlace(n.children[p[0]], p[1..], h, q[1..], g, stack + FrameUnder(n, p[0], stack));
      assert p == [p[0]] + p[1..] && q == [q[0]] + q[1..];
    }
  }

  lemma {:induction false} NotBeforeItself(p: Place)
    ensures !Before(p, p)
    decreases |p|
  {
    if p != [] { NotBeforeItself(p[1..]); }
  }

  /** In if/sequence code with distinct identifiers no two hits share a site. */
  lemma SitesAreRecordedOnce(n: Node, stack: seq<Frame>, names: set<string>)
    requires IfSequence(n)
    ensures var hits := HitsOf(n, stack, names); forall i, j :: 0 <= i < j < |hits| ==> hits[i].site != hits[j].site
  {
    var hits := HitsOf(n, stack, names);
    var places := ListHits(n, stack, names);
    forall i, j | 0 <= i < j < |hits| ensures hits[i].site != hits[j].site {
      if hits[i].site == hits[j].site {
        SiteTellsPlace(n, places[i], hits[i], places[j], hits[j], stack);
        NotBeforeItself(places[i]);
      }
    }
  }
}
