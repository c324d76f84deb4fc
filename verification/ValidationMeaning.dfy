/**
 What covering is meant to say: every value the incoming facts let through, the existing facts let
 through too. Range facts speak about integers (app/validation_state.py:123-162); any other fact is an
 uninterpreted condition on its target.
 */
module ValidationMeaning {
  import opened Prelude
  import opened ValidationState

  // ---------------------------------------------------------------- single bounds

  predicate Within(b: Bound, x: int) {
    match b.side
    case Upper => if b.strict then x < b.value else x <= b.value
    case Lower => if b.strict then x > b.value else x >= b.value
  }

  /** The last integer inside a bound. */
  function Limit(b: Bound): int {
    if !b.strict then b.value else if b.side.Upper? then b.value - 1 else b.value + 1
  }

  predicate Wider(e: Bound, i: Bound) {
    e.side == i.side && if e.side.Upper? then Limit(e) >= Limit(i) else Limit(e) <= Limit(i)
  }

  ghost predicate Includes(e: Bound, i: Bound) {
    forall x :: Within(i, x) ==> Within(e, x)
  }

  lemma InclusionIsWider(e: Bound, i: Bound)
    ensures Includes(e, i) <==> Wider(e, i)
  {
    var m := Limit(i);
    var beyond := if e.side.Upper? then Limit(e) + 1 else Limit(e) - 1;
    if e.side == i.side {
      assert Within(i, m);
    } else {
      var x := if i.side.Lower? then Max(m, beyond) else -Max(-m, -beyond);
      assert Within(i, x) && !Within(e, x);
    }
  }

  /** The constants alone decide covering; strictness does not enter. That differs from inclusion exactly
      at one bound: a strict bound meeting its own constant, or a non-strict one meeting the constant
      that the other, strict one just excludes. */
  predicate OffByOne(e: Bound, i: Bound) {
    && e.side == i.side && e.strict != i.strict
    && e.value == if e.strict then i.value else if e.side.Upper? then i.value - 1 else i.value + 1
  }

  lemma BoundsDifferOnlyAtBoundary(e: Bound, i: Bound)
    ensures (BoundCovers(e, i) <==> Includes(e, i)) <==> !OffByOne(e, i)
  {
    InclusionIsWider(e, i);
  }

  // ---------------------------------------------------------------- sets of facts

  /** A value for every target, and the truth of every uninterpreted condition. */
  datatype World = World(value: TargetKey -> int, holds: ((string, TargetKey, Predicate)) -> bool)

  predicate IsRange(f: Fact) {
    f.kind == "range" && BoundOf(f).Some?
  }

  function Condition(f: Fact): (string, TargetKey, Predicate) {
    (f.kind, KeyOf(f), f.predicate_)
  }

  predicate Admits(f: Fact, w: World) {
    if IsRange(f) then Within(BoundOf(f).value, w.value(KeyOf(f))) else w.holds(Condition(f))
  }

  // ---------------------------------------------------------------- two range facts, by their operators

  predicate IsComparison(op: string) {
    op == "<" || op == "<=" || op == ">" || op == ">="
  }

  /** What a range fact with a constant says of the value at its target, operator by operator; with any other
      operator, or without a constant, it is no usable bound. */
  lemma AdmitsExactly(f: Fact, w: World)
    requires f.kind == "range"
    ensures var (op, v, x) := (f.predicate_.op, f.predicate_.value, w.value(KeyOf(f)));
      && (BoundOf(f).Some? <==> v.Some? && (op == "<" || op == "<=" || op == ">" || op == ">="))
      && (v.Some? && op == "<" ==> (Admits(f, w) <==> x < v.value))
      && (v.Some? && op == "<=" ==> (Admits(f, w) <==> x <= v.value))
      && (v.Some? && op == ">" ==> (Admits(f, w) <==> x > v.value))
      && (v.Some? && op == ">=" ==> (Admits(f, w) <==> x >= v.value))
  {
  }

  /** Two targets are the same key when they agree on index, symbol and path, a missing index being 0, a missing
      symbol the empty one, a missing path the empty one. */
  lemma SameKeyExactly(f: Fact, g: Fact)
    ensures KeyOf(f) == KeyOf(g) <==>
      && (f.target.argIndex == g.target.argIndex || {f.target.argIndex, g.target.argIndex} == {None, Some(0)})
      && (f.target.symbol == g.target.symbol || {f.target.symbol, g.target.symbol} == {None, Some("")})
      && (f.target.accessPath == g.target.accessPath || {f.target.accessPath, g.target.accessPath} == {None, Some([])})
  {
    SameOrMissing(f.target.argIndex, g.target.argIndex, 0);
    SameOrMissing(f.target.symbol, g.target.symbol, "");
    SameOrMissing(f.target.accessPath, g.target.accessPath, []);
  }

  lemma SameOrMissing<T>(a: Option<T>, b: Option<T>, default: T)
    ensures a.GetOr(default) == b.GetOr(default) <==> a == b || {a, b} == {None, Some(default)}
  {
    if {a, b} == {None, Some(default)} { assert a in {None, Some(default)} && b in {None, Some(default)}; }
    if a != b && a.GetOr(default) == b.GetOr(default) { assert {a, b} == {None, Some(default)}; }
  }

  /** When one fact covers another: the same kind on the same key, and, for ranges, usable comparisons in the same
      direction, the existing constant at least as wide; for other kinds the same predicate. */
  lemma FactCoversExactly(e: Fact, i: Fact)
    ensures FactCovers(e, i) <==>
      && e.kind == i.kind && KeyOf(e) == KeyOf(i)
      && if e.kind != "range" then e.predicate_ == i.predicate_
         else
           && e.predicate_.value.Some? && i.predicate_.value.Some?
           && var (eop, iop, ev, iv) := (e.predicate_.op, i.predicate_.op, e.predicate_.value.value, i.predicate_.value.value);
              || ((eop == "<" || eop == "<=") && (iop == "<" || iop == "<=") && ev >= iv)
              || ((eop == ">" || eop == ">=") && (iop == ">" || iop == ">=") && ev <= iv)
  {
  }

  ghost predicate FactIncludes(e: Fact, i: Fact) {
    forall w: World :: Admits(i, w) ==> Admits(e, w)
  }

  predicate ComparableRanges(e: Fact, i: Fact) {
    && e.kind == "range" && i.kind == "range" && KeyOf(e) == KeyOf(i)
    && e.predicate_.value.Some? && i.predicate_.value.Some? && IsComparison(e.predicate_.op) && IsComparison(i.predicate_.op)
  }

  lemma FactIncludesBound(e: Fact, i: Fact)
    requires ComparableRanges(e, i)
    ensures BoundOf(e).Some? && BoundOf(i).Some? && (FactIncludes(e, i) <==> Includes(BoundOf(e).value, BoundOf(i).value))
  {
    var (be, bi) := (BoundOf(e).value, BoundOf(i).value);
    if FactIncludes(e, i) {
      forall x | Within(bi, x) ensures Within(be, x) {
        var w := World(k => x, c => true);
        assert Admits(i, w);
      }
    }
  }

  /** For any two range facts with constants on one target, covering agrees with "every value the incoming one lets
      through, the existing one lets through", except exactly when the strictness is mixed at one constant:
      `< c` against `<= c`, `<= c - 1` against `< c`, and the same for lower bounds. */
  lemma CoverDiffersOnlyAtBoundary(e: Fact, i: Fact)
    requires ComparableRanges(e, i)
    ensures var (eop, iop, ev, iv) := (e.predicate_.op, i.predicate_.op, e.predicate_.value.value, i.predicate_.value.value);
      (FactCovers(e, i) <==> FactIncludes(e, i)) <==>
      !(|| (eop == "<" && iop == "<=" && ev == iv) || (eop == "<=" && iop == "<" && ev == iv - 1)
        || (eop == ">" && iop == ">=" && ev == iv) || (eop == ">=" && iop == ">" && ev == iv + 1))
  {
    FactIncludesBound(e, i);
    BoundsDifferOnlyAtBoundary(BoundOf(e).value, BoundOf(i).value);
  }

  /** With the same operator there is no difference. */
  lemma SameOperatorCoverIsInclusion(e: Fact, i: Fact)
    requires ComparableRanges(e, i) && e.predicate_.op == i.predicate_.op
    ensures FactCovers(e, i) <==> FactIncludes(e, i)
  {
    CoverDiffersOnlyAtBoundary(e, i);
  }

  // ---------------------------------------------------------------- many facts

  predicate AdmitsAll(facts: seq<Fact>, w: World) {
    forall f <- facts :: Admits(f, w)
  }

  ghost predicate Inclusion(existing: seq<Fact>, incoming: seq<Fact>) {
    forall w: World :: AdmitsAll(incoming, w) ==> AdmitsAll(existing, w)
  }

  ghost predicate Satisfiable(facts: seq<Fact>) {
    exists w: World :: AdmitsAll(facts, w)
  }

  // ---------------------------------------------------------------- satisfiable means no crossed bounds

  predicate BoundOn(f: Fact, k: TargetKey, side: Side) {
    IsRange(f) && KeyOf(f) == k && BoundOf(f).value.side == side
  }

  /** No lower bound of a target lies above an upper bound of it. */
  predicate Uncrossed(facts: seq<Fact>) {
    forall u <- facts, l <- facts ::
      BoundOn(u, KeyOf(u), Upper) && BoundOn(l, KeyOf(u), Lower) ==> Limit(BoundOf(l).value) <= Limit(BoundOf(u).value)
  }

  predicate Tightest(facts: seq<Fact>, k: TargetKey, side: Side, f: Fact) {
    && f in facts && BoundOn(f, k, side)
    && forall g <- facts :: BoundOn(g, k, side) ==> Wider(BoundOf(g).value, BoundOf(f).value)
  }

  predicate AnyBound(facts: seq<Fact>, k: TargetKey, side: Side) {
    exists f <- facts :: BoundOn(f, k, side)
  }

  lemma {:induction false} TightestExists(facts: seq<Fact>, k: TargetKey, side: Side) returns (f: Fact)
    requires AnyBound(facts, k, side)
    ensures Tightest(facts, k, side, f)
  {
    var (front, last) := (facts[..|facts| - 1], facts[|facts| - 1]);
    assert facts == front + [last];
    if AnyBound(front, k, side) {
      f := TightestExists(front, k, side);
      if BoundOn(last, k, side) && Wider(BoundOf(f).value, BoundOf(last).value) { f := last; }
    } else {
      f := last;
    }
  }

  ghost function Chosen(facts: seq<Fact>, k: TargetKey): (x: int)
    requires Uncrossed(facts)
    ensures forall f <- facts :: IsRange(f) && KeyOf(f) == k ==> Within(BoundOf(f).value, x)
  {
    if AnyBound(facts, k, Lower) then
      TightestExistsQuantified(facts, k, Lower);
      var f :| Tightest(facts, k, Lower, f);
      Limit(BoundOf(f).value)
    else if AnyBound(facts, k, Upper) then
      TightestExistsQuantified(facts, k, Upper);
      var f :| Tightest(facts, k, Upper, f);
      Limit(BoundOf(f).value)
    else 0
  }

  lemma TightestExistsQuantified(facts: seq<Fact>, k: TargetKey, side: Side)
    requires AnyBound(facts, k, side)
    ensures exists f :: Tightest(facts, k, side, f)
  {
    var f := TightestExists(facts, k, side);
  }

  lemma SatisfiableExact(facts: seq<Fact>)
    ensures Satisfiable(facts) <==> Uncrossed(facts)
  {
    if Uncrossed(facts) {
      var w := World(k => Chosen(facts, k), c => true);
      assert AdmitsAll(facts, w);
    }
    if Satisfiable(facts) {
      var w: World :| AdmitsAll(facts, w);
      forall u, l | u in facts && l in facts && BoundOn(u, KeyOf(u), Upper) && BoundOn(l, KeyOf(u), Lower)
        ensures Limit(BoundOf(l).value) <= Limit(BoundOf(u).value)
      {
        assert Admits(u, w) && Admits(l, w);
      }
    }
  }

  // ---------------------------------------------------------------- when inclusion holds

  /** One incoming fact alone forces `e`. */
  predicate Forces(i: Fact, e: Fact) {
    if IsRange(e) then IsRange(i) && KeyOf(i) == KeyOf(e) && Wider(BoundOf(e).value, BoundOf(i).value)
    else !IsRange(i) && Condition(i) == Condition(e)
  }

  predicate Forced(e: Fact, incoming: seq<Fact>) {
    exists i <- incoming :: Forces(i, e)
  }

  lemma UnforcedCondition(incoming: seq<Fact>, e: Fact, w: World) returns (v: World)
    requires AdmitsAll(incoming, w) && !Forced(e, incoming) && !IsRange(e)
    ensures AdmitsAll(incoming, v) && !Admits(e, v)
  {
    v := World(w.value, c => c != Condition(e) && w.holds(c));
    forall i | i in incoming ensures Admits(i, v) {
      assert Admits(i, w) && !Forces(i, e);
    }
  }

  lemma UnforcedBound(incoming: seq<Fact>, e: Fact, w: World) returns (v: World)
    requires AdmitsAll(incoming, w) && !Forced(e, incoming) && IsRange(e)
    ensures AdmitsAll(incoming, v) && !Admits(e, v)
  {
    var b := BoundOf(e).value;
    if !Admits(e, w) { return w; }
    var outside := if b.side.Upper? then Limit(b) + 1 else Limit(b) - 1;
    v := World(k => if k == KeyOf(e) then outside else w.value(k), w.holds);
    forall i | i in incoming ensures Admits(i, v) {
      assert Admits(i, w) && !Forces(i, e);
    }
  }

  /** Everything the incoming facts allow is allowed by the existing ones exactly when the incoming facts
      allow nothing, or each existing fact is forced by a single incoming one. */
  lemma InclusionExact(existing: seq<Fact>, incoming: seq<Fact>)
    ensures Inclusion(existing, incoming) <==> !Uncrossed(incoming) || forall e <- existing :: Forced(e, incoming)
  {
    SatisfiableExact(incoming);
    if Uncrossed(incoming) && Inclusion(existing, incoming) {
      var w: World :| AdmitsAll(incoming, w);
      forall e | e in existing ensures Forced(e, incoming) {
        if !Forced(e, incoming) {
          var v: World;
          if IsRange(e) { v := UnforcedBound(incoming, e, w); } else { v := UnforcedCondition(incoming, e, w); }
          assert false;
        }
      }
    }
    if forall e <- existing :: Forced(e, incoming) {
      forall w: World, e | AdmitsAll(incoming, w) && e in existing ensures Admits(e, w) {
        var i :| i in incoming && Forces(i, e);
        assert Admits(i, w);
      }
    }
  }

  // ---------------------------------------------------------------- when covering is enough

  /** The place a fact occupies: a target and a side for a range, the condition itself otherwise. */
  predicate SamePlace(f: Fact, g: Fact) {
    if IsRange(f) then IsRange(g) && KeyOf(f) == KeyOf(g) && BoundOf(f).value.side == BoundOf(g).value.side
    else !IsRange(g) && Condition(f) == Condition(g)
  }

  predicate OnePerPlace(facts: seq<Fact>) {
    forall f <- facts, g <- facts :: SamePlace(f, g) && IsRange(f) ==> BoundOf(f) == BoundOf(g)
  }

  /** An incoming fact in the same place, with the same operator if it is a range. */
  predicate Counterpart(e: Fact, i: Fact) {
    SamePlace(e, i) && (IsRange(e) ==> BoundOf(e).value.strict == BoundOf(i).value.strict)
  }

  predicate HasCounterpart(e: Fact, incoming: seq<Fact>) {
    exists i <- incoming :: Counterpart(e, i)
  }

  predicate Counterparts(existing: seq<Fact>, incoming: seq<Fact>) {
    forall e {:trigger HasCounterpart(e, incoming)} :: e in existing ==> HasCounterpart(e, incoming)
  }

  lemma CounterpartForces(existing: seq<Fact>, e: Fact, c: Fact, i: Fact)
    requires OnePerPlace(existing) && e in existing && c in existing && Counterpart(e, i) && FactCovers(c, i)
    ensures Forces(i, e)
  {
    if IsRange(e) { assert SamePlace(e, c); }
  }

  lemma CoverImpliesInclusion(existing: seq<Fact>, incoming: seq<Fact>)
    requires FactsCover(existing, incoming) && OnePerPlace(existing) && Counterparts(existing, incoming)
    ensures Inclusion(existing, incoming)
  {
    forall e | e in existing ensures Forced(e, incoming) {
      assert HasCounterpart(e, incoming);
      var i :| i in incoming && Counterpart(e, i);
      var c :| c in existing && FactCovers(c, i);
      CounterpartForces(existing, e, c, i);
    }
    InclusionExact(existing, incoming);
  }

  /** Covering asks that every incoming fact be matched, inclusion that every existing one be. Without a
      counterpart the two part: a path checked twice covers a path that lacks the second check. */
  lemma CoverMissesExtraFacts()
    ensures FactsCover([CHECKED, CUSTOM], [CHECKED]) && !Inclusion([CHECKED, CUSTOM], [CHECKED])
  {
    assert FactCovers(CHECKED, CHECKED);
    assert CHECKED in [CHECKED, CUSTOM] && CUSTOM in [CHECKED, CUSTOM];
    InclusionExact([CHECKED, CUSTOM], [CHECKED]);
    assert !Forces(CHECKED, CUSTOM);
  }

  /** Mixed strictness alone also parts them: `x < 10` covers `x <= 10`. */
  lemma CoverMissesTheBoundary()
    ensures var loose := CHECKED.(predicate_ := Predicate("<=", Some(10), ""));
            FactsCover([CHECKED], [loose]) && !Inclusion([CHECKED], [loose])
  {
    var loose := CHECKED.(predicate_ := Predicate("<=", Some(10), ""));
    assert FactCovers(CHECKED, loose);
    InclusionExact([CHECKED], [loose]);
    assert CHECKED in [CHECKED] && !Forces(loose, CHECKED);
  }
}
