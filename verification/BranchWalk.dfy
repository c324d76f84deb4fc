/**
 The branch-aware walk over a function body (app/clang_analyzer.py:239-352): it records the branch
 arms around every call, and judges two calls mutually exclusive from those records alone.

 The tree is a small abstract syntax: `Other` is any node that only has children (blocks,
 expressions), and every branch statement and call site carries its own identifier.
 */
module BranchWalk {
  import opened Prelude

  type GroupId = nat
  type Site = nat

  datatype Node =
    | If(group: GroupId, line: int, children: seq<Node>)
    | Switch(group: GroupId, line: int, children: seq<Node>)
    | Case(text: string, line: int, children: seq<Node>)
    | Call(site: Site, name: string, line: int, children: seq<Node>)
    | Other(children: seq<Node>)

  /** A case label outside any switch has no group. */
  datatype Frame = Frame(group: Option<GroupId>, arm: string, line: int)
  datatype Hit = Hit(site: Site, name: string, line: int, path: seq<Frame>)

  // ---------------------------------------------------------------- the walk

  function HitsOf(n: Node, stack: seq<Frame>, names: set<string>): seq<Hit>
    decreases n
  {
    match n
    case If(g, line, cs) =>
      (if |cs| >= 1 then HitsOf(cs[0], stack, names) else [])
      + (if |cs| >= 2 then HitsOf(cs[1], stack + [Frame(Some(g), "then", line)], names) else [])
      + (if |cs| >= 3 then HitsOf(cs[2], stack + [Frame(Some(g), "else", line)], names) else [])
    case Switch(g, line, cs) =>
      (if |cs| >= 1 then HitsOf(cs[0], stack, names) else [])
      + (if |cs| >= 2 then HitsOf(cs[1], stack + [Frame(Some(g), "switch", line)], names) else [])
    case Case(text, line, cs) =>
      HitsOfAll(cs, |cs|, stack + [Frame(if stack == [] then None else stack[|stack| - 1].group, text, line)], names)
    case Call(site, name, line, cs) =>
      (if name in names then [Hit(site, name, line, stack)] else []) + HitsOfAll(cs, |cs|, stack, names)
    case Other(cs) => HitsOfAll(cs, |cs|, stack, names)
  }

  /** The hits of the first `k` children. */
  function HitsOfAll(cs: seq<Node>, k: nat, stack: seq<Frame>, names: set<string>): seq<Hit>
    requires k <= |cs|
    decreases cs, k
  {
    if k == 0 then [] else HitsOfAll(cs, k - 1, stack, names) + HitsOf(cs[k - 1], stack, names)
  }

  class Walker {
    const names: set<string>
    var stack: seq<Frame>
    var hits: seq<Hit>

    constructor (names: set<string>)
      ensures this.names == names && stack == [] && hits == []
    {
      this.names := names;
      stack, hits := [], [];
    }

    /** Push an arm, walk it, pop the arm. */
    method WalkArm(n: Node, f: Frame)
      modifies this
      ensures stack == old(stack)
      ensures hits == old(hits) + HitsOf(n, old(stack) + [f], names)
      decreases n, 2
    {
      stack := stack + [f];
      Walk(n);
      stack := stack[..|stack| - 1];
    }

    /** The stack a node finds is the stack it leaves. */
    method Walk(n: Node)
      modifies this
      ensures stack == old(stack)
      ensures hits == old(hits) + HitsOf(n, old(stack), names)
      decreases n, 1
    {
      match n {
        case If(_, _, _) => WalkIf(n);
        case Switch(g, line, cs) =>
          ghost var hits0 := hits;
          if |cs| >= 1 { Walk(cs[0]); }
          assert hits == hits0 + if |cs| >= 1 then HitsOf(cs[0], stack, names) else [];
          if |cs| >= 2 { WalkArm(cs[1], Frame(Some(g), "switch", line)); }
        case Case(text, line, cs) =>
          stack := stack + [Frame(if stack == [] then None else stack[|stack| - 1].group, text, line)];
          WalkAll(n, cs);
          stack := stack[..|stack| - 1];
        case Call(site, name, line, cs) =>
          if name in names { hits := hits + [Hit(site, name, line, stack)]; }
          WalkAll(n, cs);
        case Other(cs) => WalkAll(n, cs);
      }
    }

    method WalkIf(n: Node)
      requires n.If?
      modifies this
      ensures stack == old(stack)
      ensures hits == old(hits) + HitsOf(n, old(stack), names)
      decreases n, 0
    {
      var cs := n.children;
      ghost var (around, before) := (stack, hits);
      if |cs| >= 1 { Walk(cs[0]); }
      ghost var h0 := if |cs| >= 1 then HitsOf(cs[0], around, names) else [];
      assert stack == around && hits == before + h0;
      if |cs| >= 2 { WalkArm(cs[1], Frame(Some(n.group), "then", n.line)); }
      ghost var h1 := if |cs| >= 2 then HitsOf(cs[1], around + [Frame(Some(n.group), "then", n.line)], names) else [];
      assert stack == around && hits == before + (h0 + h1);
      if |cs| >= 3 { WalkArm(cs[2], Frame(Some(n.group), "else", n.line)); }
    }

    method WalkAll(ghost parent: Node, cs: seq<Node>)
      requires parent.children == cs
      modifies this
      ensures stack == old(stack)
      ensures hits == old(hits) + HitsOfAll(cs, |cs|, old(stack), names)
      decreases parent, 0
    {
      for k := 0 to |cs|
        invariant stack == old(stack)
        invariant hits == old(hits) + HitsOfAll(cs, k, old(stack), names)
      {
        Walk(cs[k]);
      }
    }
  }

  /** Every recorded branch path extends the stack the walk started with. */
  lemma {:induction false} PathsExtendStack(n: Node, stack: seq<Frame>, names: set<string>)
    ensures forall h <- HitsOf(n, stack, names) :: stack <= h.path
    decreases n, 1
  {
    match n
    case If(g, line, cs) =>
      if |cs| >= 1 { PathsExtendStack(cs[0], stack, names); }
      if |cs| >= 2 { PathsExtendStack(cs[1], stack + [Frame(Some(g), "then", line)], names); }
      if |cs| >= 3 { PathsExtendStack(cs[2], stack + [Frame(Some(g), "else", line)], names); }
    case Switch(g, line, cs) =>
      if |cs| >= 1 { PathsExtendStack(cs[0], stack, names); }
      if |cs| >= 2 { PathsExtendStack(cs[1], stack + [Frame(Some(g), "switch", line)], names); }
    case Case(text, line, cs) =>
      AllPathsExtendStack(cs, |cs|, stack + [Frame(if stack == [] then None else stack[|stack| - 1].group, text, line)], names);
    case Call(site, name, line, cs) => AllPathsExtendStack(cs, |cs|, stack, names);
    case Other(cs) => AllPathsExtendStack(cs, |cs|, stack, names);
  }

  lemma {:induction false} AllPathsExtendStack(cs: seq<Node>, k: nat, stack: seq<Frame>, names: set<string>)
    requires k <= |cs|
    ensures forall h <- HitsOfAll(cs, k, stack, names) :: stack <= h.path
    decreases cs, 0, k
  {
    if k > 0 {
      AllPathsExtendStack(cs, k - 1, stack, names);
      PathsExtendStack(cs[k - 1], stack, names);
    }
  }

  // ---------------------------------------------------------------- exactly which calls are recorded

  /** The children the walk goes into: all, but of an if the first three and of a switch the first two. */
  predicate Visits(n: Node, i: nat) {
    i < |n.children| && (n.If? ==> i < 3) && (n.Switch? ==> i < 2)
  }

  /** The frame around the `i`-th child of a node met under `stack`; a case takes the group of the frame it
      stands in. */
  function FrameUnder(n: Node, i: nat, stack: seq<Frame>): seq<Frame> {
    match n
    case If(g, line, _) => if i == 1 then [Frame(Some(g), "then", line)] else if i == 2 then [Frame(Some(g), "else", line)] else []
    case Switch(g, line, _) => if i == 1 then [Frame(Some(g), "switch", line)] else []
    case Case(text, line, _) => [Frame(if stack == [] then None else stack[|stack| - 1].group, text, line)]
    case _ => []
  }

  /** The call `h` stands in `n`, inside exactly the arms of its path. */
  predicate Occurs(n: Node, h: Hit, stack: seq<Frame>)
    decreases n
  {
    || (n.Call? && h == Hit(n.site, n.name, n.line, stack))
    || exists i: nat :: i < |n.children| && Visits(n, i) && Occurs(n.children[i], h, stack + FrameUnder(n, i, stack))
  }

  /** Child `i` of `n` is visited and contributes the hit. */
  predicate Contributes(n: Node, i: nat, stack: seq<Frame>, names: set<string>, h: Hit) {
    Visits(n, i) && h in HitsOf(n.children[i], stack + FrameUnder(n, i, stack), names)
  }

  /** The parts `0..k`, one after the other. */
  function Joined(part: nat -> seq<Hit>, k: nat): seq<Hit> {
    if k == 0 then [] else Joined(part, k - 1) + part(k - 1)
  }

  lemma {:induction false} JoinedMembers(part: nat -> seq<Hit>, k: nat, h: Hit)
    ensures h in Joined(part, k) <==> exists i: nat :: i < k && h in part(i)
  {
    if k > 0 { JoinedMembers(part, k - 1, h); }
  }

  lemma {:induction false} JoinedSame(p: nat -> seq<Hit>, q: nat -> seq<Hit>, k: nat)
    requires forall i: nat :: i < k ==> p(i) == q(i)
    ensures Joined(p, k) == Joined(q, k)
  {
    if k > 0 { JoinedSame(p, q, k - 1); }
  }

  lemma {:induction false} JoinedStops(part: nat -> seq<Hit>, k: nat, m: nat)
    requires k <= m && forall i: nat :: k <= i < m ==> part(i) == []
    ensures Joined(part, m) == Joined(part, k)
  {
    if k < m { JoinedStops(part, k, m - 1); }
  }

  function PartOf(cs: seq<Node>, inner: seq<Frame>, names: set<string>): nat -> seq<Hit> {
    (i: nat) => if i < |cs| then HitsOf(cs[i], inner, names) else []
  }

  lemma JoinedNext(part: nat -> seq<Hit>, k: nat)
    ensures Joined(part, k + 1) == Joined(part, k) + part(k)
  {
  }

  lemma AllNext(cs: seq<Node>, k: nat, inner: seq<Frame>, names: set<string>)
    requires k < |cs|
    ensures HitsOfAll(cs, k + 1, inner, names) == HitsOfAll(cs, k, inner, names) + PartOf(cs, inner, names)(k)
  {
  }

  lemma {:induction false} HitsOfAllIsJoined(cs: seq<Node>, k: nat, inner: seq<Frame>, names: set<string>)
    requires k <= |cs|
    ensures HitsOfAll(cs, k, inner, names) == Joined(PartOf(cs, inner, names), k)
    decreases k
  {
    if k > 0 {
      HitsOfAllIsJoined(cs, k - 1, inner, names);
      AllNext(cs, k - 1, inner, names);
      JoinedNext(PartOf(cs, inner, names), k - 1);
    }
  }

  /** The hit of the node itself, if it is a wanted call. */
  function OwnHits(n: Node, stack: seq<Frame>, names: set<string>): seq<Hit> {
    if n.Call? && n.name in names then [Hit(n.site, n.name, n.line, stack)] else []
  }

  function BranchHits(n: Node, i: nat, stack: seq<Frame>, names: set<string>): seq<Hit> {
    if Visits(n, i) then HitsOf(n.children[i], stack + FrameUnder(n, i, stack), names) else []
  }

  function Branches(n: Node, stack: seq<Frame>, names: set<string>): nat -> seq<Hit> {
    (i: nat) => BranchHits(n, i, stack, names)
  }

  lemma IfIsParts(n: Node, stack: seq<Frame>, names: set<string>)
    requires n.If?
    ensures HitsOf(n, stack, names) == Joined(Branches(n, stack, names), |n.children|)
  {
    var part := Branches(n, stack, names);
    assert stack + FrameUnder(n, 0, stack) == stack;
    assert HitsOf(n, stack, names) == part(0) + part(1) + part(2);
    JoinedThree(part);
    if |n.children| >= 3 { JoinedStops(part, 3, |n.children|); } else { JoinedStops(part, |n.children|, 3); }
  }

  lemma SwitchIsParts(n: Node, stack: seq<Frame>, names: set<string>)
    requires n.Switch?
    ensures HitsOf(n, stack, names) == Joined(Branches(n, stack, names), |n.children|)
  {
    var part := Branches(n, stack, names);
    assert stack + FrameUnder(n, 0, stack) == stack;
    assert HitsOf(n, stack, names) == part(0) + part(1) + part(2);
    JoinedThree(part);
    if |n.children| >= 3 { JoinedStops(part, 3, |n.children|); } else { JoinedStops(part, |n.children|, 3); }
  }

  lemma JoinedThree(part: nat -> seq<Hit>)
    ensures Joined(part, 3) == part(0) + part(1) + part(2)
  {
    assert Joined(part, 1) == part(0);
    assert Joined(part, 2) == part(0) + part(1);
  }

  lemma PlainIsParts(n: Node, stack: seq<Frame>, names: set<string>)
    requires !n.If? && !n.Switch?
    ensures HitsOf(n, stack, names) == OwnHits(n, stack, names) + Joined(Branches(n, stack, names), |n.children|)
  {
    var inner := stack + FrameUnder(n, 0, stack);
    assert !n.Case? ==> inner == stack;
    assert HitsOf(n, stack, names) == OwnHits(n, stack, names) + HitsOfAll(n.children, |n.children|, inner, names);
    HitsOfAllIsJoined(n.children, |n.children|, inner, names);
    JoinedSame(PartOf(n.children, inner, names), Branches(n, stack, names), |n.children|);
  }

  /** A node's hits are its own, then those of the children it visits, one after the other. */
  lemma HitsAreParts(n: Node, stack: seq<Frame>, names: set<string>)
    ensures HitsOf(n, stack, names) == OwnHits(n, stack, names) + Joined(Branches(n, stack, names), |n.children|)
  {
    if n.If? {
      IfIsParts(n, stack, names);
    } else if n.Switch? {
      SwitchIsParts(n, stack, names);
    } else {
      PlainIsParts(n, stack, names);
    }
  }

  /** The hits of a node are its own, if it is a wanted call, and those of the children it visits. */
  lemma HitsOfMembers(n: Node, stack: seq<Frame>, names: set<string>, h: Hit)
    ensures h in HitsOf(n, stack, names) <==>
            h in OwnHits(n, stack, names) || exists i: nat :: Contributes(n, i, stack, names, h)
  {
    HitsAreParts(n, stack, names);
    JoinedMembers(Branches(n, stack, names), |n.children|, h);
    assert forall i: nat :: Contributes(n, i, stack, names, h) <==> i < |n.children| && h in Branches(n, stack, names)(i);
  }

  /** For every tree: the walk records exactly the calls with a wanted name, each with exactly the branch
      arms it stands in. */
  lemma {:induction false} HitsAreExact(n: Node, stack: seq<Frame>, names: set<string>, h: Hit)
    ensures h in HitsOf(n, stack, names) <==> h.name in names && Occurs(n, h, stack)
    decreases n
  {
    HitsOfMembers(n, stack, names, h);
    forall i: nat | Visits(n, i)
      ensures Contributes(n, i, stack, names, h) <==>
              h.name in names && Occurs(n.children[i], h, stack + FrameUnder(n, i, stack))
    {
      HitsAreExact(n.children[i], stack + FrameUnder(n, i, stack), names, h);
    }
  }

  // ---------------------------------------------------------------- the judgement

  /** The arm a path takes at a group: the last frame of that group wins, as in a dict. */
  function ArmAt(path: seq<Frame>, g: GroupId): Option<string> {
    if path == [] then None
    else if path[|path| - 1].group == Some(g) then Some(path[|path| - 1].arm)
    else ArmAt(path[..|path| - 1], g)
  }

  function GroupsOn(path: seq<Frame>): set<GroupId> {
    set i | 0 <= i < |path| && path[i].group.Some? :: path[i].group.value
  }

  predicate Exclusive(p: seq<Frame>, q: seq<Frame>) {
    exists g :: g in GroupsOn(p) && g in GroupsOn(q) && ArmAt(p, g) != ArmAt(q, g)
  }

  // ---------------------------------------------------------------- meaning: which calls one execution runs

  predicate Within(t: set<Site>, ts: seq<set<Site>>) {
    && (forall i :: 0 <= i < |ts| ==> ts[i] <= t)
    && (forall x <- t :: exists i :: 0 <= i < |ts| && x in ts[i])
  }

  /** Some loop-free execution of `n` runs exactly the call sites `t`. An if runs its condition and
      one of its arms (no arm, when there is no else); everything else runs all its parts. */
  ghost predicate Runs(n: Node, t: set<Site>)
    decreases n, 1
  {
    match n
    case If(_, _, cs) =>
      if cs == [] then t == {}
      else exists a, b :: Runs(cs[0], a) && RunsArm(n, b) && t == a + b
    case Call(site, _, _, cs) => exists a :: RunsAll(n, a) && t == a + {site}
    case _ => RunsAll(n, t)
  }

  ghost predicate RunsArm(n: Node, b: set<Site>)
    requires n.If? && n.children != []
    decreases n, 0
  {
    || (|n.children| < 3 && b == {})
    || (|n.children| >= 2 && Runs(n.children[1], b))
    || (|n.children| >= 3 && Runs(n.children[2], b))
  }

  ghost predicate RunsAll(n: Node, t: set<Site>)
    decreases n, 0
  {
    exists ts: seq<set<Site>> :: RunsEach(n, ts) && Within(t, ts)
  }

  ghost predicate RunsEach(n: Node, ts: seq<set<Site>>)
    decreases n, -1
  {
    |ts| == |n.children| && forall i :: 0 <= i < |ts| ==> Runs(n.children[i], ts[i])
  }

  // ---------------------------------------------------------------- if/sequence code with distinct identifiers

  function Groups(n: Node): set<GroupId> {
    (if n.If? then {n.group} else {}) + set i, g | 0 <= i < |n.children| && g in Groups(n.children[i]) :: g
  }

  function Sites(n: Node): set<Site> {
    (if n.Call? then {n.site} else {}) + set i, x | 0 <= i < |n.children| && x in Sites(n.children[i]) :: x
  }

  predicate IfSequence(n: Node) {
    && (n.If? ==> |n.children| <= 3 && forall i :: 0 <= i < |n.children| ==> n.group !in Groups(n.children[i]))
    && !n.Switch? && !n.Case?
    && (n.Call? ==> forall i :: 0 <= i < |n.children| ==> n.site !in Sites(n.children[i]))
    && (forall i :: 0 <= i < |n.children| ==> IfSequence(n.children[i]))
    && (forall i, j :: 0 <= i < j < |n.children| ==>
          Groups(n.children[i]) !! Groups(n.children[j]) && Sites(n.children[i]) !! Sites(n.children[j]))
  }

  /** The frame around the `i`-th child in if/sequence code, where it does not depend on the stack. */
  function FrameOf(n: Node, i: nat): seq<Frame> {
    FrameUnder(n, i, [])
  }

  /** Call site `x` occurs in `n` under the branch path `p`, counted from `n`. */
  ghost predicate At(n: Node, x: Site, p: seq<Frame>)
    decreases n
  {
    || (n.Call? && x == n.site && p == [])
    || exists i :: 0 <= i < |n.children| && AtChild(n, i, x, p)
  }

  ghost predicate AtChild(n: Node, i: nat, x: Site, p: seq<Frame>)
    requires i < |n.children|
    decreases n, -1
  {
    FrameOf(n, i) <= p && At(n.children[i], x, p[|FrameOf(n, i)|..])
  }

  /** In if/sequence code the path of an occurrence is the stack followed by the path from the node. */
  lemma {:induction false} OccursIsAt(n: Node, h: Hit, stack: seq<Frame>)
    requires IfSequence(n) && Occurs(n, h, stack)
    ensures stack <= h.path && At(n, h.site, h.path[|stack|..])
    decreases n
  {
    if n.Call? && h == Hit(n.site, n.name, n.line, stack) {
      assert h.path[|stack|..] == [];
    } else {
      var i: nat :| i < |n.children| && Visits(n, i) && Occurs(n.children[i], h, stack + FrameUnder(n, i, stack));
      var inner := stack + FrameOf(n, i);
      assert FrameUnder(n, i, stack) == FrameOf(n, i);
      OccursIsAt(n.children[i], h, inner);
      assert h.path[|stack|..][|FrameOf(n, i)|..] == h.path[|inner|..];
      assert AtChild(n, i, h.site, h.path[|stack|..]);
    }
  }

  lemma HitsAreAt(n: Node, stack: seq<Frame>, names: set<string>)
    requires IfSequence(n)
    ensures forall h <- HitsOf(n, stack, names) :: stack <= h.path && At(n, h.site, h.path[|stack|..])
  {
    forall h | h in HitsOf(n, stack, names) ensures stack <= h.path && At(n, h.site, h.path[|stack|..]) {
      HitsAreExact(n, stack, names, h);
      OccursIsAt(n, h, stack);
    }
  }
}
