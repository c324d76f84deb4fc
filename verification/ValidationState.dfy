/**
 Validation states and the order in which one analysis context may stand for another
 (app/validation_state.py:90-179). Keyword recognition in free text is left out: the facts each raw item
 gives are an input. A signature hash is taken as injective on what is hashed.
 */
module ValidationState {
  import opened Prelude

  datatype Target = Target(argIndex: Option<int>, symbol: Option<string>, accessPath: Option<seq<string>>)

  /** `rest` is whatever else the predicate object holds, as text. */
  datatype Predicate = Predicate(op: string, value: Option<int>, rest: string)

  /** The effect field is a function of the kind and is not repeated. */
  datatype Fact = Fact(kind: string, target: Target, predicate_: Predicate, evidence: string)

  datatype TargetKey = TargetKey(argIndex: int, symbol: string, accessPath: seq<string>)

  function KeyOf(f: Fact): TargetKey {
    TargetKey(f.target.argIndex.GetOr(0), f.target.symbol.GetOr(""), f.target.accessPath.GetOr([]))
  }

  // ---------------------------------------------------------------- normalisation

  type Canonical = (string, Target, Predicate)

  datatype Signature = NoValidation | Unknown | Digest(content: multiset<Canonical>)

  datatype RiskClass = NoneClass | UnknownClass | Sanitized | Validated | Partial

  datatype State = State(facts: seq<Fact>, signature: Signature, risk: nat, class_: RiskClass)

  function Canon(f: Fact): Canonical {
    (f.kind, f.target, f.predicate_)
  }

  function Canons(facts: seq<Fact>): seq<Canonical> {
    seq(|facts|, i requires 0 <= i < |facts| => Canon(facts[i]))
  }

  function KindName(f: Fact): string {
    if f.kind == "" then "unknown" else f.kind
  }

  function Kinds(facts: seq<Fact>): set<string> {
    set f | f in facts :: KindName(f)
  }

  const CONSTRAINING := {"range", "bounds", "enum", "auth", "null_check"}

  function ClassOf(kinds: set<string>): (nat, RiskClass) {
    if kinds == {} || "no_validation" in kinds then (100, NoneClass)
    else if "unknown" in kinds then (80, UnknownClass)
    else if kinds == {"sanitizer"} then (10, Sanitized)
    else if kinds * CONSTRAINING != {} then (40, Validated)
    else (60, Partial)
  }

  function SignatureOf(facts: seq<Fact>): Signature {
    if facts == [] || "no_validation" in Kinds(facts) then NoValidation else Digest(multiset(Canons(facts)))
  }

  function StateOf(facts: seq<Fact>): State {
    State(facts, SignatureOf(facts), ClassOf(Kinds(facts)).0, ClassOf(Kinds(facts)).1)
  }

  function Flatten(items: seq<seq<Fact>>): seq<Fact> {
    if items == [] then [] else Flatten(items[..|items| - 1]) + items[|items| - 1]
  }

  /** What a complete sanitizer effect adds. */
  function SanitizerFact(symbol: string): Fact {
    Fact("sanitizer", Target(Some(0), Some(if symbol == "" then "taint" else symbol), Some([])),
         Predicate("sanitized", None, ""), "")
  }

  /** The second half of `normalize_validation_state`: the state of the collected facts. */
  method Summarise(facts: seq<Fact>) returns (s: State)
    ensures s == StateOf(facts)
  {
    if facts == [] {
      assert Kinds(facts) == {};
      return State([], NoValidation, 100, NoneClass);
    }
    var canonical, kinds := [], {};
    for i := 0 to |facts|
      invariant canonical == Canons(facts[..i]) && kinds == Kinds(facts[..i])
    {
      assert facts[..i + 1] == facts[..i] + [facts[i]];
      canonical := canonical + [Canon(facts[i])];
      kinds := kinds + {KindName(facts[i])};
    }
    assert facts[..|facts|] == facts;
    assert KindName(facts[0]) in kinds;
    if "no_validation" in kinds { return State(facts, NoValidation, 100, NoneClass); }
    var risk, class_ := 60, Partial;
    if "unknown" in kinds {
      risk, class_ := 80, UnknownClass;
    } else if kinds == {"sanitizer"} {
      risk, class_ := 10, Sanitized;
    } else if kinds * CONSTRAINING != {} {
      risk, class_ := 40, Validated;
    }
    s := State(facts, Digest(multiset(canonical)), risk, class_);
  }

  /** `normalize_validation_state`; `items` holds the facts of each raw item. */
  method Normalize(items: seq<seq<Fact>>, complete: bool, defaultTarget: string) returns (s: State)
    ensures s == StateOf(Flatten(items) + if complete then [SanitizerFact(defaultTarget)] else [])
  {
    var facts := [];
    for i := 0 to |items|
      invariant facts == Flatten(items[..i])
    {
      assert items[..i + 1][..i] == items[..i];
      facts := facts + items[i];
    }
    assert items[..|items|] == items;
    assert facts + [] == facts;
    if complete { facts := facts + [SanitizerFact(defaultTarget)]; }
    s := Summarise(facts);
  }

  // ---------------------------------------------------------------- covering

  datatype Side = Upper | Lower

  /** A usable range bound: its side, whether it is strict, and the constant. */
  datatype Bound = Bound(side: Side, strict: bool, value: int)

  function BoundOf(f: Fact): Option<Bound> {
    var (op, v) := (f.predicate_.op, f.predicate_.value);
    if v.None? then None
    else if op == "<" then Some(Bound(Upper, true, v.value))
    else if op == "<=" then Some(Bound(Upper, false, v.value))
    else if op == ">" then Some(Bound(Lower, true, v.value))
    else if op == ">=" then Some(Bound(Lower, false, v.value))
    else None
  }

  predicate BoundCovers(e: Bound, i: Bound) {
    e.side == i.side && if e.side.Upper? then e.value >= i.value else e.value <= i.value
  }

  predicate FactCovers(e: Fact, i: Fact) {
    && e.kind == i.kind
    && KeyOf(e) == KeyOf(i)
    && if e.kind != "range" then e.predicate_ == i.predicate_
       else BoundOf(e).Some? && BoundOf(i).Some? && BoundCovers(BoundOf(e).value, BoundOf(i).value)
  }

  predicate FactsCover(existing: seq<Fact>, incoming: seq<Fact>) {
    if existing == [] then true
    else if incoming == [] then false
    else forall i <- incoming :: exists e <- existing :: FactCovers(e, i)
  }

  predicate ValidationCovers(e: State, i: State) {
    if e.signature == i.signature then true
    else if e.signature == NoValidation then true
    else if e.signature == Unknown && i.signature != NoValidation then true
    else FactsCover(e.facts, i.facts)
  }

  /** The loops of `facts_cover`. */
  method ComputeFactsCover(existing: seq<Fact>, incoming: seq<Fact>) returns (covered: bool)
    ensures covered <==> FactsCover(existing, incoming)
  {
    if existing == [] { return true; }
    if incoming == [] { return false; }
    for n := 0 to |incoming|
      invariant forall m :: 0 <= m < n ==> exists e <- existing :: FactCovers(e, incoming[m])
    {
      var found := false;
      for m := 0 to |existing|
        invariant found <==> exists j :: 0 <= j < m && FactCovers(existing[j], incoming[n])
      {
        if FactCovers(existing[m], incoming[n]) { found := true; }
      }
      if found {
        var j :| 0 <= j < |existing| && FactCovers(existing[j], incoming[n]);
        assert existing[j] in existing;
      } else {
        assert incoming[n] in incoming;
        return false;
      }
    }
    return true;
  }

  // ---------------------------------------------------------------- the order on normalised states

  /** A set of facts that determines a signature determines what it covers and what covers it. */
  lemma SameDigestTwin(a: seq<Fact>, b: seq<Fact>, f: Fact)
    requires multiset(Canons(a)) == multiset(Canons(b)) && f in a
    ensures exists g :: g in b && Canon(g) == Canon(f)
  {
    var i :| 0 <= i < |a| && a[i] == f;
    assert Canons(a)[i] in multiset(Canons(b));
    var j :| 0 <= j < |b| && Canons(b)[j] == Canon(f);
    assert b[j] in b;
  }

  lemma FactCoversTransitive(e: Fact, f: Fact, g: Fact)
    requires FactCovers(e, f) && FactCovers(f, g)
    ensures FactCovers(e, g)
  {
  }

  lemma FactsCoverTransitive(a: seq<Fact>, b: seq<Fact>, c: seq<Fact>)
    requires a != [] && b != [] && FactsCover(a, b) && FactsCover(b, c)
    ensures FactsCover(a, c)
  {
    forall i | i in c ensures exists e <- a :: FactCovers(e, i) {
      var f :| f in b && FactCovers(f, i);
      var e :| e in a && FactCovers(e, f);
      FactCoversTransitive(e, f, i);
    }
  }

  lemma SameDigestCovers(a: seq<Fact>, b: seq<Fact>, c: seq<Fact>)
    requires a != [] && b != [] && multiset(Canons(a)) == multiset(Canons(b)) && FactsCover(b, c)
    ensures FactsCover(a, c)
  {
    forall i | i in c ensures exists e <- a :: FactCovers(e, i) {
      var f :| f in b && FactCovers(f, i);
      SameDigestTwin(b, a, f);
      var e :| e in a && Canon(e) == Canon(f);
      assert FactCovers(e, i);
    }
  }

  lemma SameDigestIsCovered(a: seq<Fact>, b: seq<Fact>, c: seq<Fact>)
    requires b != [] && c != [] && multiset(Canons(a)) == multiset(Canons(b)) && FactsCover(c, a)
    ensures FactsCover(c, b)
  {
    forall i | i in b ensures exists e <- c :: FactCovers(e, i) {
      SameDigestTwin(b, a, i);
      var j :| j in a && Canon(j) == Canon(i);
      var e :| e in c && FactCovers(e, j);
      assert FactCovers(e, i);
    }
  }

  lemma CoverKeepsKinds(a: seq<Fact>, b: seq<Fact>)
    requires a != [] && FactsCover(a, b)
    ensures b != [] && Kinds(b) <= Kinds(a)
  {
    forall k | k in Kinds(b) ensures k in Kinds(a) {
      var i :| i in b && KindName(i) == k;
      var e :| e in a && FactCovers(e, i);
      assert KindName(e) == k;
    }
  }

  /** The rule for the signature "unknown" never fires: no normalised state carries it. So a state covers
      another in three cases only. */
  lemma CoversOnStates(a: seq<Fact>, b: seq<Fact>)
    ensures ValidationCovers(StateOf(a), StateOf(b)) <==>
            || SignatureOf(a) == SignatureOf(b) || SignatureOf(a) == NoValidation
            || (SignatureOf(b) != NoValidation && FactsCover(a, b))
  {
    if SignatureOf(a) != NoValidation && SignatureOf(b) == NoValidation && FactsCover(a, b) {
      CoverKeepsKinds(a, b);
      assert false;
    }
  }

  /** "none" covers everything, and is covered by nothing else: no validated context, in whatever way,
      ever stands for an unvalidated path. */
  lemma UnvalidatedIsTop(a: seq<Fact>, b: seq<Fact>)
    ensures SignatureOf(a) == NoValidation ==> ValidationCovers(StateOf(a), StateOf(b))
    ensures SignatureOf(b) == NoValidation ==> (ValidationCovers(StateOf(a), StateOf(b)) <==> SignatureOf(a) == NoValidation)
  {
    CoversOnStates(a, b);
  }

  /** Covering is transitive on normalised states (it is reflexive by its first rule). */
  lemma CoversTransitive(a: seq<Fact>, b: seq<Fact>, c: seq<Fact>)
    requires ValidationCovers(StateOf(a), StateOf(b)) && ValidationCovers(StateOf(b), StateOf(c))
    ensures ValidationCovers(StateOf(a), StateOf(c))
  {
    CoversOnStates(a, b);
    CoversOnStates(b, c);
    CoversOnStates(a, c);
    if SignatureOf(a) != NoValidation && SignatureOf(a) != SignatureOf(c) && SignatureOf(b) != NoValidation {
      if SignatureOf(a) == SignatureOf(b) {
        SameDigestCovers(a, b, c);
      } else if SignatureOf(b) == SignatureOf(c) {
        SameDigestIsCovered(b, c, a);
      } else {
        FactsCoverTransitive(a, b, c);
      }
    }
  }

  lemma SameDigestKinds(a: seq<Fact>, b: seq<Fact>)
    requires multiset(Canons(a)) == multiset(Canons(b))
    ensures Kinds(a) <= Kinds(b)
  {
    forall k | k in Kinds(a) ensures k in Kinds(b) {
      var f :| f in a && KindName(f) == k;
      SameDigestTwin(a, b, f);
      var g :| g in b && Canon(g) == Canon(f);
      assert KindName(g) == k;
    }
  }

  lemma ClassOfSubset(big: set<string>, small: set<string>)
    requires small <= big && small != {} && "no_validation" !in big
    ensures ClassOf(big).0 < ClassOf(small).0 <==> ClassOf(big).1 == Validated && ClassOf(small).1 == Partial
  {
    if big == {"sanitizer"} {
      forall k | k in small ensures k == "sanitizer" {}
      assert small == {"sanitizer"};
    }
    if small * CONSTRAINING != {} {
      var k :| k in small * CONSTRAINING;
      assert k in big * CONSTRAINING;
    }
  }

  /** A covering context is at least as risky as the one it covers, with exactly one exception: a
      "validated" one may cover a riskier "partial" one. */
  lemma CoveringIsRiskier(a: seq<Fact>, b: seq<Fact>)
    requires ValidationCovers(StateOf(a), StateOf(b))
    ensures StateOf(a).risk < StateOf(b).risk <==> StateOf(a).class_ == Validated && StateOf(b).class_ == Partial
  {
    CoversOnStates(a, b);
    if SignatureOf(a) == NoValidation {
    } else {
      if SignatureOf(a) == SignatureOf(b) {
        SameDigestKinds(b, a);
      } else {
        CoverKeepsKinds(a, b);
      }
      assert KindName(b[0]) in Kinds(b);
      ClassOfSubset(Kinds(a), Kinds(b));
    }
  }

  predicate HasKind(facts: seq<Fact>, kind: string) {
    exists f <- facts :: f.kind == kind
  }

  /** The class and the risk of a list of facts: "none" and the highest risk with no fact or a denying one, then
      unknown ones, the lowest for nothing but sanitizers, then constraints, and partial for anything else; the
      signature is "none" with the class. */
  lemma ClassExactly(facts: seq<Fact>)
    ensures var s := StateOf(facts);
      && (s.class_ == NoneClass <==> facts == [] || HasKind(facts, "no_validation"))
      && (s.class_ == UnknownClass <==> s.class_ != NoneClass && (HasKind(facts, "unknown") || HasKind(facts, "")))
      && (s.class_ == Sanitized <==> facts != [] && forall f <- facts :: f.kind == "sanitizer")
      && (s.class_ == Validated <==>
            && s.class_ != NoneClass && s.class_ != UnknownClass
            && (HasKind(facts, "range") || HasKind(facts, "bounds") || HasKind(facts, "enum") || HasKind(facts, "auth")
                || HasKind(facts, "null_check")))
      && (s.signature == NoValidation <==> s.class_ == NoneClass)
      && s.risk == match s.class_ { case Sanitized => 10 case Validated => 40 case Partial => 60 case UnknownClass => 80 case NoneClass => 100 }
  {
    var kinds := Kinds(facts);
    NamedKind(facts, "no_validation");
    NamedKind(facts, "unknown");
    NamedKind(facts, "sanitizer");
    NamedKind(facts, "range");
    NamedKind(facts, "bounds");
    NamedKind(facts, "enum");
    NamedKind(facts, "auth");
    NamedKind(facts, "null_check");
    if facts != [] { assert KindName(facts[0]) in kinds; }
    OnlySanitizers(facts);
    SomeConstraint(kinds);
  }

  lemma SomeConstraint(kinds: set<string>)
    ensures kinds * CONSTRAINING != {} <==>
            "range" in kinds || "bounds" in kinds || "enum" in kinds || "auth" in kinds || "null_check" in kinds
  {
    if k :| k in kinds * CONSTRAINING { assert k in CONSTRAINING; }
    assert forall k <- CONSTRAINING :: k in kinds ==> k in kinds * CONSTRAINING;
    assert "range" in CONSTRAINING && "bounds" in CONSTRAINING && "enum" in CONSTRAINING && "auth" in CONSTRAINING && "null_check" in CONSTRAINING;
  }

  lemma NamedKind(facts: seq<Fact>, kind: string)
    requires kind != ""
    ensures kind in Kinds(facts) <==> HasKind(facts, kind) || (kind == "unknown" && HasKind(facts, ""))
  {
    if f :| f in facts && (f.kind == kind || (kind == "unknown" && f.kind == "")) { assert KindName(f) == kind; }
  }

  lemma OnlySanitizers(facts: seq<Fact>)
    ensures Kinds(facts) == {"sanitizer"} <==> facts != [] && forall f <- facts :: f.kind == "sanitizer"
  {
    if Kinds(facts) == {"sanitizer"} {
      forall f | f in facts ensures f.kind == "sanitizer" { assert KindName(f) in Kinds(facts); }
    }
    if facts != [] && forall f <- facts :: f.kind == "sanitizer" {
      assert KindName(facts[0]) in Kinds(facts);
      forall k | k in Kinds(facts) ensures k == "sanitizer" {}
    }
  }

  const SOMEWHERE := Target(Some(0), Some("x"), Some([]))
  const CHECKED := Fact("range", SOMEWHERE, Predicate("<", Some(10), ""), "")
  const CUSTOM := Fact("custom", SOMEWHERE, Predicate("", None, ""), "")

  lemma ExampleKinds()
    ensures Kinds([CHECKED, CUSTOM]) == {"range", "custom"} && Kinds([CUSTOM]) == {"custom"}
  {
    assert [CHECKED, CUSTOM][0] == CHECKED && [CHECKED, CUSTOM][1] == CUSTOM && CUSTOM in [CUSTOM];
    assert KindName(CHECKED) == "range" && KindName(CUSTOM) == "custom";
    assert CHECKED in [CHECKED, CUSTOM] && CUSTOM in [CHECKED, CUSTOM];
  }

  lemma ExampleClasses()
    ensures ClassOf({"range", "custom"}).1 == Validated && ClassOf({"custom"}).1 == Partial
  {
    assert "range" in {"range", "custom"} * CONSTRAINING;
    assert "custom" in {"custom"} && "custom" !in {"sanitizer"} && "custom" !in CONSTRAINING;
  }

  /** The exception happens: a path with a range check and a custom fact covers one with the custom fact
      alone, though the latter lacks the check. */
  lemma ValidatedCoversPartial()
    ensures ValidationCovers(StateOf([CHECKED, CUSTOM]), StateOf([CUSTOM]))
    ensures StateOf([CHECKED, CUSTOM]).class_ == Validated && StateOf([CUSTOM]).class_ == Partial
  {
    ExampleKinds();
    ExampleClasses();
    assert CUSTOM in [CHECKED, CUSTOM] && FactCovers(CUSTOM, CUSTOM);
    assert FactsCover([CHECKED, CUSTOM], [CUSTOM]);
    CoversOnStates([CHECKED, CUSTOM], [CUSTOM]);
    assert "no_validation" !in {"custom"};
  }

  /** A list of facts covers itself exactly when every range fact in it has a comparison and a constant. */
  lemma SelfCoverExact(a: seq<Fact>)
    ensures FactsCover(a, a) <==> forall f <- a :: f.kind == "range" ==> BoundOf(f).Some?
  {
    if forall f <- a :: f.kind == "range" ==> BoundOf(f).Some? {
      forall f | f in a ensures exists e <- a :: FactCovers(e, f) { assert FactCovers(f, f); }
    }
  }
}
