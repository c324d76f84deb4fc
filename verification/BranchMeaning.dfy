/** What the judgement "mutually exclusive" means: no execution runs both calls. */
module BranchMeaning {
  import opened Prelude
  import opened BranchWalk

  function UnionOf(ts: seq<set<Site>>): (t: set<Site>)
    ensures Within(t, ts)
  {
    set i, x | 0 <= i < |ts| && x in ts[i] :: x
  }

  /** One execution that always takes the then arm. */
  function RunOf(n: Node): set<Site> {
    if n.If? then
      (if |n.children| >= 1 then RunOf(n.children[0]) else {}) + (if |n.children| >= 2 then RunOf(n.children[1]) else {})
    else UnionOf(RunsOf(n)) + if n.Call? then {n.site} else {}
  }

  function RunsOf(n: Node): seq<set<Site>>
    decreases n, -1
  {
    seq(|n.children|, i requires 0 <= i < |n.children| => RunOf(n.children[i]))
  }

  lemma {:induction false} RunOfRuns(n: Node)
    requires IfSequence(n)
    ensures Runs(n, RunOf(n))
  {
    var cs := n.children;
    forall i | 0 <= i < |cs| ensures Runs(cs[i], RunOf(cs[i])) { RunOfRuns(cs[i]); }
    if n.If? && cs != [] {
      assert RunsArm(n, if |cs| >= 2 then RunOf(cs[1]) else {});
    } else if !n.If? {
      assert RunsEach(n, RunsOf(n));
      assert RunsAll(n, UnionOf(RunsOf(n)));
    }
  }

  lemma {:induction false} RunsStayInside(n: Node, t: set<Site>)
    requires Runs(n, t)
    ensures t <= Sites(n)
  {
    var cs := n.children;
    if n.If? {
      if cs != [] {
        var a, b :| Runs(cs[0], a) && RunsArm(n, b) && t == a + b;
        RunsStayInside(cs[0], a);
        if |cs| >= 2 && Runs(cs[1], b) { RunsStayInside(cs[1], b); }
        if |cs| >= 3 && Runs(cs[2], b) { RunsStayInside(cs[2], b); }
      }
    } else {
      var a :| RunsAll(n, a) && (t == a || (n.Call? && t == a + {n.site}));
      var ts :| RunsEach(n, ts) && Within(a, ts);
      forall x | x in a ensures x in Sites(n) {
        var i :| 0 <= i < |ts| && x in ts[i];
        RunsStayInside(cs[i], ts[i]);
      }
    }
  }

  lemma FrameGroups(n: Node, i: nat)
    requires IfSequence(n)
    ensures forall g <- GroupsOn(FrameOf(n, i)) :: g in Groups(n)
  {
  }

  lemma {:induction false} AtStaysInside(n: Node, x: Site, p: seq<Frame>)
    requires IfSequence(n) && At(n, x, p)
    ensures x in Sites(n)
    ensures forall g <- GroupsOn(p) :: g in Groups(n)
  {
    if !(n.Call? && x == n.site && p == []) {
      var i: nat :| i < |n.children| && AtChild(n, i, x, p);
      AtStaysInside(n.children[i], x, p[|FrameOf(n, i)|..]);
      FrameGroups(n, i);
      GroupsOnSplit(FrameOf(n, i), p[|FrameOf(n, i)|..]);
      assert p == FrameOf(n, i) + p[|FrameOf(n, i)|..];
    }
  }

  lemma GroupsOnSplit(f: seq<Frame>, p: seq<Frame>)
    ensures GroupsOn(f + p) == GroupsOn(f) + GroupsOn(p)
  {
    var fp := f + p;
    forall g | g in GroupsOn(f) ensures g in GroupsOn(fp) {
      var i :| 0 <= i < |f| && f[i].group == Some(g);
      assert fp[i] == f[i];
    }
    forall g | g in GroupsOn(p) ensures g in GroupsOn(fp) {
      var i :| 0 <= i < |p| && p[i].group == Some(g);
      assert fp[|f| + i] == p[i];
    }
  }

  lemma {:induction false} ArmAtSplit(f: Frame, p: seq<Frame>, g: GroupId)
    ensures ArmAt([f] + p, g) == if g in GroupsOn(p) then ArmAt(p, g) else if f.group == Some(g) then Some(f.arm) else None
  {
    if p == [] {
      assert [f] + p == [f];
      assert [f][..0] == [];
    } else {
      var (front, last) := (p[..|p| - 1], p[|p| - 1]);
      assert ([f] + p)[..|p|] == [f] + front;
      ArmAtSplit(f, front, g);
      GroupsOnSplit(front, [last]);
      assert p == front + [last];
      assert g in GroupsOn([last]) <==> last.group == Some(g) by { assert [last][0] == last; }
    }
  }

  lemma {:induction false} ArmAtSome(p: seq<Frame>, g: GroupId)
    ensures ArmAt(p, g).Some? <==> g in GroupsOn(p)
  {
    if p != [] {
      ArmAtSome(p[..|p| - 1], g);
      GroupsOnSplit(p[..|p| - 1], [p[|p| - 1]]);
      assert p == p[..|p| - 1] + [p[|p| - 1]];
      assert g in GroupsOn([p[|p| - 1]]) <==> p[|p| - 1].group == Some(g) by { assert [p[|p| - 1]][0] == p[|p| - 1]; }
    }
  }

  /** A frame both paths start with, of a group neither meets again, does not matter. */
  lemma SharedFrame(f: seq<Frame>, p: seq<Frame>, q: seq<Frame>)
    requires |f| <= 1 && GroupsOn(f) !! GroupsOn(p) && GroupsOn(f) !! GroupsOn(q)
    ensures Exclusive(f + p, f + q) <==> Exclusive(p, q)
  {
    if f == [] {
      assert f + p == p && f + q == q;
    } else {
      assert f == [f[0]];
      forall g ensures ArmAt(f + p, g) == if g in GroupsOn(p) then ArmAt(p, g) else if f[0].group == Some(g) then Some(f[0].arm) else None {
        ArmAtSplit(f[0], p, g);
      }
      forall g ensures ArmAt(f + q, g) == if g in GroupsOn(q) then ArmAt(q, g) else if f[0].group == Some(g) then Some(f[0].arm) else None {
        ArmAtSplit(f[0], q, g);
      }
      GroupsOnSplit(f, p);
      GroupsOnSplit(f, q);
      assert forall g :: g in GroupsOn(f) ==> f[0].group == Some(g);
    }
  }

  // ---------------------------------------------------------------- runs of a node and of its children

  lemma {:induction false} Lift(n: Node, i: nat, u: set<Site>) returns (t: set<Site>)
    requires IfSequence(n) && i < |n.children| && Runs(n.children[i], u)
    ensures Runs(n, t) && u <= t
  {
    var cs := n.children;
    if n.If? {
      RunOfRuns(cs[0]);
      var a, b := if i == 0 then u else RunOf(cs[0]), if i > 0 then u else if |cs| == 1 then {} else RunOf(cs[1]);
      if |cs| > 1 { RunOfRuns(cs[1]); }
      assert Runs(cs[0], a) && RunsArm(n, b);
      t := a + b;
    } else {
      t := LiftEach(n, RunsOf(n)[i := u]);
    }
  }

  lemma LiftEach(n: Node, ts: seq<set<Site>>) returns (t: set<Site>)
    requires IfSequence(n) && !n.If? && |ts| == |n.children|
    requires forall i :: 0 <= i < |ts| ==> ts[i] == RunOf(n.children[i]) || Runs(n.children[i], ts[i])
    ensures Runs(n, t) && forall i :: 0 <= i < |ts| ==> ts[i] <= t
  {
    forall i | 0 <= i < |ts| ensures Runs(n.children[i], ts[i]) { RunOfRuns(n.children[i]); }
    assert RunsEach(n, ts);
    assert RunsAll(n, UnionOf(ts));
    t := UnionOf(ts) + if n.Call? then {n.site} else {};
  }

  /** Runs of two children that are not rival arms fit into one run. */
  lemma LiftTwo(n: Node, i: nat, u: set<Site>, j: nat, v: set<Site>) returns (t: set<Site>)
    requires IfSequence(n) && i < j < |n.children| && (n.If? ==> i == 0)
    requires Runs(n.children[i], u) && Runs(n.children[j], v)
    ensures Runs(n, t) && u <= t && v <= t
  {
    if n.If? {
      assert RunsArm(n, v);
      t := u + v;
    } else {
      t := LiftEach(n, RunsOf(n)[i := u][j := v]);
    }
  }

  lemma ProjectEach(n: Node, a: set<Site>, i: nat) returns (u: set<Site>)
    requires IfSequence(n) && i < |n.children| && RunsAll(n, a)
    ensures Runs(n.children[i], u) && u == a * Sites(n.children[i])
  {
    var ts :| RunsEach(n, ts) && Within(a, ts);
    u := ts[i];
    RunsStayInside(n.children[i], u);
    forall x | x in a && x in Sites(n.children[i]) ensures x in u {
      var k :| 0 <= k < |ts| && x in ts[k];
      RunsStayInside(n.children[k], ts[k]);
    }
  }

  lemma ProjectIf(n: Node, t: set<Site>, i: nat, x: Site) returns (u: set<Site>)
    requires IfSequence(n) && n.If? && Runs(n, t) && i < |n.children| && x in t && x in Sites(n.children[i])
    ensures Runs(n.children[i], u) && u == t * Sites(n.children[i])
  {
    var cs := n.children;
    var a, b :| Runs(cs[0], a) && RunsArm(n, b) && t == a + b;
    RunsStayInside(cs[0], a);
    if |cs| >= 2 && Runs(cs[1], b) { RunsStayInside(cs[1], b); }
    if |cs| >= 3 && Runs(cs[2], b) { RunsStayInside(cs[2], b); }
    u := if i == 0 then a else b;
  }

  /** A run that reaches a site inside a child contains a run of that child. */
  lemma Project(n: Node, t: set<Site>, i: nat, x: Site) returns (u: set<Site>)
    requires IfSequence(n) && Runs(n, t) && i < |n.children| && x in t && x in Sites(n.children[i])
    ensures Runs(n.children[i], u) && u == t * Sites(n.children[i])
  {
    if n.If? {
      u := ProjectIf(n, t, i, x);
    } else if n.Call? {
      var a :| RunsAll(n, a) && t == a + {n.site};
      u := ProjectEach(n, a, i);
    } else {
      u := ProjectEach(n, t, i);
    }
  }

  lemma {:induction false} CanRun(n: Node, x: Site, p: seq<Frame>) returns (t: set<Site>)
    requires IfSequence(n) && At(n, x, p)
    ensures Runs(n, t) && x in t
    decreases n
  {
    if n.Call? && x == n.site && p == [] {
      RunOfRuns(n);
      t := RunOf(n);
    } else {
      var i: nat :| i < |n.children| && AtChild(n, i, x, p);
      var u := CanRun(n.children[i], x, p[|FrameOf(n, i)|..]);
      t := Lift(n, i, u);
    }
  }

  // ---------------------------------------------------------------- the theorem

  ghost predicate BothRun(n: Node, x: Site, y: Site) {
    exists t :: Runs(n, t) && x in t && y in t
  }

  lemma OwnCall(n: Node, y: Site, q: seq<Frame>)
    requires IfSequence(n) && n.Call? && At(n, y, q)
    ensures !Exclusive([], q) && !Exclusive(q, []) && BothRun(n, n.site, y) && BothRun(n, y, n.site)
  {
    var t := CanRun(n, y, q);
  }

  lemma SameChildPaths(n: Node, i: nat, x: Site, p: seq<Frame>, y: Site, q: seq<Frame>)
    requires IfSequence(n) && i < |n.children| && AtChild(n, i, x, p) && AtChild(n, i, y, q)
    ensures var k := |FrameOf(n, i)|; Exclusive(p, q) <==> Exclusive(p[k..], q[k..])
  {
    var (c, f) := (n.children[i], FrameOf(n, i));
    AtStaysInside(c, x, p[|f|..]);
    AtStaysInside(c, y, q[|f|..]);
    assert p == f + p[|f|..] && q == f + q[|f|..];
    SharedFrame(f, p[|f|..], q[|f|..]);
  }

  lemma SameChildRuns(n: Node, i: nat, x: Site, y: Site)
    requires IfSequence(n) && i < |n.children| && x in Sites(n.children[i]) && y in Sites(n.children[i])
    ensures BothRun(n, x, y) <==> BothRun(n.children[i], x, y)
  {
    if BothRun(n, x, y) {
      var t :| Runs(n, t) && x in t && y in t;
      var u := Project(n, t, i, x);
      assert x in u && y in u;
    }
    if BothRun(n.children[i], x, y) {
      var u :| Runs(n.children[i], u) && x in u && y in u;
      var t := Lift(n, i, u);
    }
  }

  lemma SameChild(n: Node, i: nat, x: Site, p: seq<Frame>, y: Site, q: seq<Frame>)
    requires IfSequence(n) && i < |n.children| && AtChild(n, i, x, p) && AtChild(n, i, y, q)
    ensures var k := |FrameOf(n, i)|;
            && (Exclusive(p, q) <==> Exclusive(p[k..], q[k..]))
            && (BothRun(n, x, y) <==> BothRun(n.children[i], x, y))
  {
    SameChildPaths(n, i, x, p, y, q);
    AtStaysInside(n.children[i], x, p[|FrameOf(n, i)|..]);
    AtStaysInside(n.children[i], y, q[|FrameOf(n, i)|..]);
    SameChildRuns(n, i, x, y);
  }

  lemma RivalArms(n: Node, x: Site, p: seq<Frame>, y: Site, q: seq<Frame>)
    requires IfSequence(n) && n.If? && |n.children| == 3 && AtChild(n, 1, x, p) && AtChild(n, 2, y, q)
    ensures Exclusive(p, q) && Exclusive(q, p) && !BothRun(n, x, y)
  {
    var cs := n.children;
    var (f1, f2) := (FrameOf(n, 1)[0], FrameOf(n, 2)[0]);
    AtStaysInside(cs[1], x, p[1..]);
    AtStaysInside(cs[2], y, q[1..]);
    assert p == [f1] + p[1..] && q == [f2] + q[1..];
    ArmAtSplit(f1, p[1..], n.group);
    ArmAtSplit(f2, q[1..], n.group);
    ArmAtSome(p, n.group);
    ArmAtSome(q, n.group);
    forall t | Runs(n, t) && x in t && y in t ensures false {
      var a, b :| Runs(cs[0], a) && RunsArm(n, b) && t == a + b;
      RunsStayInside(cs[0], a);
      if Runs(cs[1], b) { RunsStayInside(cs[1], b); } else { RunsStayInside(cs[2], b); }
    }
  }

  lemma SeparateParts(n: Node, i: nat, x: Site, p: seq<Frame>, j: nat, y: Site, q: seq<Frame>)
    requires IfSequence(n) && i < j < |n.children| && (n.If? ==> i == 0)
    requires AtChild(n, i, x, p) && AtChild(n, j, y, q)
    ensures !Exclusive(p, q) && !Exclusive(q, p) && BothRun(n, x, y)
  {
    SeparatePaths(n, i, x, p, j, y, q);
    var u := CanRun(n.children[i], x, p[|FrameOf(n, i)|..]);
    var v := CanRun(n.children[j], y, q[|FrameOf(n, j)|..]);
    var t := LiftTwo(n, i, u, j, v);
  }

  lemma PathGroups(n: Node, i: nat, x: Site, p: seq<Frame>)
    requires IfSequence(n) && i < |n.children| && AtChild(n, i, x, p)
    ensures GroupsOn(p) <= GroupsOn(FrameOf(n, i)) + Groups(n.children[i])
  {
    var f := FrameOf(n, i);
    AtStaysInside(n.children[i], x, p[|f|..]);
    GroupsOnSplit(f, p[|f|..]);
    assert p == f + p[|f|..];
  }

  lemma DisjointPaths(p: seq<Frame>, q: seq<Frame>)
    requires GroupsOn(p) !! GroupsOn(q)
    ensures !Exclusive(p, q) && !Exclusive(q, p)
  {
  }

  lemma SeparatePaths(n: Node, i: nat, x: Site, p: seq<Frame>, j: nat, y: Site, q: seq<Frame>)
    requires IfSequence(n) && i < j < |n.children| && (n.If? ==> i == 0)
    requires AtChild(n, i, x, p) && AtChild(n, j, y, q)
    ensures !Exclusive(p, q) && !Exclusive(q, p)
  {
    PathGroups(n, i, x, p);
    PathGroups(n, j, y, q);
    assert FrameOf(n, i) == [] && GroupsOn([]) == {};
    assert GroupsOn(FrameOf(n, j)) <= if n.If? then {n.group} else {};
    assert Groups(n.children[i]) !! Groups(n.children[j]);
    DisjointPaths(p, q);
  }

  lemma {:induction false} ExclusiveMeansNoCommonRun(n: Node, x: Site, p: seq<Frame>, y: Site, q: seq<Frame>)
    requires IfSequence(n) && At(n, x, p) && At(n, y, q)
    ensures Exclusive(p, q) <==> !BothRun(n, x, y)
    decreases n
  {
    if n.Call? && x == n.site && p == [] {
      OwnCall(n, y, q);
    } else if n.Call? && y == n.site && q == [] {
      OwnCall(n, x, p);
    } else {
      var i: nat :| i < |n.children| && AtChild(n, i, x, p);
      var j: nat :| j < |n.children| && AtChild(n, j, y, q);
      if i == j {
        SameChild(n, i, x, p, y, q);
        ExclusiveMeansNoCommonRun(n.children[i], x, p[|FrameOf(n, i)|..], y, q[|FrameOf(n, i)|..]);
      } else if n.If? && i == 1 && j == 2 {
        RivalArms(n, x, p, y, q);
      } else if n.If? && i == 2 && j == 1 {
        RivalArms(n, y, q, x, p);
      } else if i < j {
        SeparateParts(n, i, x, p, j, y, q);
      } else {
        SeparateParts(n, j, y, q, i, x, p);
      }
    }
  }

  /** For if/sequence code with distinct identifiers, two recorded calls are judged mutually exclusive
      exactly when no loop-free execution runs both. */
  lemma JudgementIsExact(n: Node, names: set<string>, a: Hit, b: Hit)
    requires IfSequence(n) && a in HitsOf(n, [], names) && b in HitsOf(n, [], names)
    ensures Exclusive(a.path, b.path) <==> !BothRun(n, a.site, b.site)
  {
    HitsAreAt(n, [], names);
    assert a.path[0..] == a.path && b.path[0..] == b.path;
    ExclusiveMeansNoCommonRun(n, a.site, a.path, b.site, b.path);
  }

  // ---------------------------------------------------------------- judged by name

  /** Two recorded calls, one of each name, are judged mutually exclusive. */
  predicate NamesExclusive(hits: seq<Hit>, f: string, g: string) {
    exists i, j :: 0 <= i < |hits| && 0 <= j < |hits| && hits[i].name == f && hits[j].name == g
                   && Exclusive(hits[i].path, hits[j].path)
  }

  function Add(m: map<string, set<string>>, f: string, g: string): map<string, set<string>> {
    m[f := (if f in m then m[f] else {}) + {g}]
  }

  predicate Listed(m: map<string, set<string>>, f: string, g: string) {
    f in m && g in m[f]
  }

  /** Two calls of one pair are the wanted names, in either order. */
  predicate Names(a: Hit, b: Hit, f: string, g: string) {
    (a.name == f && b.name == g) || (a.name == g && b.name == f)
  }

  predicate PairBelow(hits: seq<Hit>, i: nat, j: nat, f: string, g: string) {
    exists k, l :: 0 <= k < l < |hits| && (k < i || (k == i && l < j))
                   && Names(hits[k], hits[l], f, g) && Exclusive(hits[k].path, hits[l].path)
  }

  lemma PairBelowNext(hits: seq<Hit>, i: nat, j: nat, f: string, g: string)
    requires i < j < |hits|
    ensures PairBelow(hits, i, j + 1, f, g) <==>
            PairBelow(hits, i, j, f, g) || (Names(hits[i], hits[j], f, g) && Exclusive(hits[i].path, hits[j].path))
  {
    if PairBelow(hits, i, j + 1, f, g) && !PairBelow(hits, i, j, f, g) {
      var k, l :| 0 <= k < l < |hits| && (k < i || (k == i && l < j + 1))
                  && Names(hits[k], hits[l], f, g) && Exclusive(hits[k].path, hits[l].path);
      assert k == i && l == j;
    }
  }

  /** `_compute_mutex` files its pairs under the callee names: a name is listed for another exactly
      when some call of the one and some call of the other exclude each other. */
  method ComputeMutex(hits: seq<Hit>, names: set<string>) returns (siblings: map<string, set<string>>)
    ensures names <= siblings.Keys
    ensures forall f, g :: Listed(siblings, f, g) <==> NamesExclusive(hits, f, g)
  {
    siblings := map n | n in names :: {};
    var i := 0;
    while i < |hits|
      invariant 0 <= i <= |hits|
      invariant names <= siblings.Keys
      invariant forall f, g :: Listed(siblings, f, g) <==> PairBelow(hits, i, i + 1, f, g)
    {
      var j := i + 1;
      while j < |hits|
        invariant i < j <= |hits|
        invariant names <= siblings.Keys
        invariant forall f, g :: Listed(siblings, f, g) <==> PairBelow(hits, i, j, f, g)
      {
        ghost var before := siblings;
        var (a, b) := (hits[i], hits[j]);
        if Exclusive(a.path, b.path) {
          siblings := Add(Add(siblings, a.name, b.name), b.name, a.name);
        }
        forall f, g ensures Listed(siblings, f, g) <==> PairBelow(hits, i, j + 1, f, g) {
          PairBelowNext(hits, i, j, f, g);
          assert Listed(before, f, g) <==> PairBelow(hits, i, j, f, g);
        }
        j := j + 1;
      }
      forall f, g ensures PairBelow(hits, i, j, f, g) <==> PairBelow(hits, i + 1, i + 2, f, g) {
      }
      i := i + 1;
    }
    forall f, g ensures PairBelow(hits, i, i + 1, f, g) <==> NamesExclusive(hits, f, g) {
      AllPairs(hits, f, g);
    }
  }

  lemma AllPairs(hits: seq<Hit>, f: string, g: string)
    ensures PairBelow(hits, |hits|, |hits| + 1, f, g) <==> NamesExclusive(hits, f, g)
  {
    if PairBelow(hits, |hits|, |hits| + 1, f, g) {
      var k, l :| 0 <= k < l < |hits| && Names(hits[k], hits[l], f, g) && Exclusive(hits[k].path, hits[l].path);
      assert Exclusive(hits[l].path, hits[k].path);
    }
    if NamesExclusive(hits, f, g) {
      var k, l :| 0 <= k < |hits| && 0 <= l < |hits| && hits[k].name == f && hits[l].name == g
                  && Exclusive(hits[k].path, hits[l].path);
      assert k != l;
      assert Exclusive(hits[l].path, hits[k].path);
      var (lo, hi) := (if k < l then k else l, if k < l then l else k);
      assert Names(hits[lo], hits[hi], f, g) && Exclusive(hits[lo].path, hits[hi].path);
    }
  }

  /** So two names are called siblings exactly when some pair of their calls has no common run. */
  lemma SiblingsMeanSomePairExcluded(n: Node, names: set<string>, f: string, g: string)
    requires IfSequence(n)
    ensures var hits := HitsOf(n, [], names);
      NamesExclusive(hits, f, g) <==>
      exists i, j :: 0 <= i < |hits| && 0 <= j < |hits| && hits[i].name == f && hits[j].name == g
                     && !BothRun(n, hits[i].site, hits[j].site)
  {
    var hits := HitsOf(n, [], names);
    forall i, j | 0 <= i < |hits| && 0 <= j < |hits|
      ensures Exclusive(hits[i].path, hits[j].path) <==> !BothRun(n, hits[i].site, hits[j].site)
    {
      JudgementIsExact(n, names, hits[i], hits[j]);
    }
  }

  /** No execution runs a recorded call of `f` together with a recorded call of `g`. */
  ghost predicate NeverTogether(n: Node, hits: seq<Hit>, f: string, g: string) {
    forall t: set<Site>, i, j | Runs(n, t) && 0 <= i < |hits| && 0 <= j < |hits| && hits[i].name == f && hits[j].name == g ::
      !(hits[i].site in t && hits[j].site in t)
  }

  /** Every recorded call of `f` and every recorded call of `g` are judged mutually exclusive. */
  predicate AllExclusive(hits: seq<Hit>, f: string, g: string) {
    forall i, j :: 0 <= i < |hits| && 0 <= j < |hits| && hits[i].name == f && hits[j].name == g ==>
      Exclusive(hits[i].path, hits[j].path)
  }

  /** When "siblings never run together" is right: exactly when all pairs of their recorded calls are judged
      exclusive, where being listed takes only one pair. */
  lemma NeverTogetherExactly(n: Node, names: set<string>, f: string, g: string)
    requires IfSequence(n)
    ensures var hits := HitsOf(n, [], names); NeverTogether(n, hits, f, g) <==> AllExclusive(hits, f, g)
  {
    var hits := HitsOf(n, [], names);
    forall i, j | 0 <= i < |hits| && 0 <= j < |hits| && hits[i].name == f && hits[j].name == g
      ensures Exclusive(hits[i].path, hits[j].path) <==> !BothRun(n, hits[i].site, hits[j].site)
    {
      JudgementIsExact(n, names, hits[i], hits[j]);
    }
    if NeverTogether(n, hits, f, g) {
      forall i, j | 0 <= i < |hits| && 0 <= j < |hits| && hits[i].name == f && hits[j].name == g
        ensures Exclusive(hits[i].path, hits[j].path)
      {
        assert !BothRun(n, hits[i].site, hits[j].site);
      }
    }
    if AllExclusive(hits, f, g) {
      forall t: set<Site>, i, j | Runs(n, t) && 0 <= i < |hits| && 0 <= j < |hits| && hits[i].name == f && hits[j].name == g
        ensures !(hits[i].site in t && hits[j].site in t)
      {
        assert !BothRun(n, hits[i].site, hits[j].site);
      }
    }
  }

  predicate RecordedOnce(hits: seq<Hit>, f: string) {
    exists i :: 0 <= i < |hits| && hits[i].name == f && forall j :: 0 <= j < |hits| && hits[j].name == f ==> j == i
  }

  lemma OnceEachMeansAll(hits: seq<Hit>, f: string, g: string)
    requires RecordedOnce(hits, f) && RecordedOnce(hits, g)
    ensures NamesExclusive(hits, f, g) <==> AllExclusive(hits, f, g)
  {
    var i :| 0 <= i < |hits| && hits[i].name == f && forall j :: 0 <= j < |hits| && hits[j].name == f ==> j == i;
    var k :| 0 <= k < |hits| && hits[k].name == g && forall j :: 0 <= j < |hits| && hits[j].name == g ==> j == k;
  }

  /** For names called once each, being listed as siblings means never running together. */
  lemma SiblingsCalledOnce(n: Node, names: set<string>, f: string, g: string)
    requires IfSequence(n) && RecordedOnce(HitsOf(n, [], names), f) && RecordedOnce(HitsOf(n, [], names), g)
    ensures NamesExclusive(HitsOf(n, [], names), f, g) <==> NeverTogether(n, HitsOf(n, [], names), f, g)
  {
    NeverTogetherExactly(n, names, f, g);
    OnceEachMeansAll(HitsOf(n, [], names), f, g);
  }

  const F_FIRST := Call(0, "f", 1, [])
  const F_THEN := Call(1, "f", 2, [])
  const G_ELSE := Call(2, "g", 3, [])
  const CHOICE := If(0, 2, [Other([]), F_THEN, G_ELSE])
  const EXAMPLE := Other([F_FIRST, CHOICE])
  const THEN_ARM := Frame(Some(0), "then", 2)
  const ELSE_ARM := Frame(Some(0), "else", 2)

  lemma ExampleHits(names: set<string>)
    requires names == {"f", "g"}
    ensures HitsOf(EXAMPLE, [], names) == [Hit(0, "f", 1, []), Hit(1, "f", 2, [THEN_ARM]), Hit(2, "g", 3, [ELSE_ARM])]
  {
    assert [] + [THEN_ARM] == [THEN_ARM] && [] + [ELSE_ARM] == [ELSE_ARM];
    assert HitsOf(F_THEN, [THEN_ARM], names) == [Hit(1, "f", 2, [THEN_ARM])];
    assert HitsOf(G_ELSE, [ELSE_ARM], names) == [Hit(2, "g", 3, [ELSE_ARM])];
    assert HitsOf(CHOICE.children[0], [], names) == [];
    assert HitsOf(CHOICE, [], names) == [Hit(1, "f", 2, [THEN_ARM]), Hit(2, "g", 3, [ELSE_ARM])];
    assert HitsOf(F_FIRST, [], names) == [Hit(0, "f", 1, [])];
    assert HitsOfAll(EXAMPLE.children, 1, [], names) == [Hit(0, "f", 1, [])];
  }

  predicate Leaf(n: Node) {
    n.children == [] && (n.Call? || n.Other?)
  }

  lemma LeafFacts(n: Node)
    requires Leaf(n)
    ensures IfSequence(n) && Groups(n) == {} && Sites(n) == if n.Call? then {n.site} else {}
  {
  }

  predicate LeafArms(n: Node) {
    && n.If? && |n.children| == 3 && Leaf(n.children[0]) && Leaf(n.children[1]) && Leaf(n.children[2])
    && n.children[0].Other? && n.children[1].Call? && n.children[2].Call? && n.children[1].site != n.children[2].site
  }

  lemma LeafIfChild(n: Node, i: nat)
    requires LeafArms(n) && i < 3
    ensures IfSequence(n.children[i]) && Groups(n.children[i]) == {}
    ensures Sites(n.children[i]) == if i == 0 then {} else {n.children[i].site}
  {
    LeafFacts(n.children[i]);
  }

  lemma LeafIfChildren(n: Node)
    requires LeafArms(n)
    ensures forall i :: 0 <= i < 3 ==> IfSequence(n.children[i]) && Groups(n.children[i]) == {}
    ensures forall i, j :: 0 <= i < j < 3 ==> Sites(n.children[i]) !! Sites(n.children[j])
  {
    forall i | 0 <= i < 3 ensures IfSequence(n.children[i]) && Groups(n.children[i]) == {} { LeafIfChild(n, i); }
    LeafIfChild(n, 0);
    LeafIfChild(n, 1);
    LeafIfChild(n, 2);
  }

  lemma LeafIf(n: Node)
    requires LeafArms(n)
    ensures IfSequence(n)
  {
    LeafIfChildren(n);
  }

  lemma LeafIfSite(n: Node, x: Site)
    requires LeafArms(n) && x in Sites(n)
    ensures x == n.children[1].site || x == n.children[2].site
  {
    var i :| 0 <= i < |n.children| && x in Sites(n.children[i]);
    LeafIfChild(n, i);
  }

  lemma ExampleIsIfSequence()
    ensures IfSequence(EXAMPLE)
  {
    assert EXAMPLE.children == [F_FIRST, CHOICE];
    LeafIf(CHOICE);
    forall x | x in Sites(CHOICE) ensures x != 0 { LeafIfSite(CHOICE, x); }
    LeafFacts(F_FIRST);
  }

  /** Which is not the same as "never run together": in `f(); if (c) f(); else g();` the names f and
      g are listed as siblings, yet one execution runs both. */
  lemma SiblingsMayRunTogether(names: set<string>)
    requires names == {"f", "g"}
    ensures var hits := HitsOf(EXAMPLE, [], names);
      && IfSequence(EXAMPLE) && NamesExclusive(hits, "f", "g")
      && |hits| == 3 && hits[0].name == "f" && hits[2].name == "g" && BothRun(EXAMPLE, hits[0].site, hits[2].site)
  {
    ExampleHits(names);
    ExampleIsIfSequence();
    var hits := HitsOf(EXAMPLE, [], names);
    assert [THEN_ARM][0].group == Some(0) && [ELSE_ARM][0].group == Some(0);
    assert 0 in GroupsOn(hits[1].path) && 0 in GroupsOn(hits[2].path);
    assert ArmAt(hits[1].path, 0) != ArmAt(hits[2].path, 0);
    assert GroupsOn(hits[0].path) == {};
    JudgementIsExact(EXAMPLE, names, hits[0], hits[2]);
  }
}
