/** The balanced-bracket scan that finds JSON inside free text (app/parsers.py:41-70). */
module JsonScan {
  import opened Prelude

  // ---------------------------------------------------------------- the scanner

  datatype Scan = Scan(depth: int, inString: bool, escape: bool)

  const START := Scan(0, false, false)

  function Step(s: Scan, c: char, open: char, close: char): Scan {
    if s.escape then s.(escape := false)
    else if c == '\\' then s.(escape := s.inString)
    else if c == '"' then s.(inString := !s.inString)
    else if s.inString then s
    else if c == open then s.(depth := s.depth + 1)
    else if c == close then s.(depth := s.depth - 1)
    else s
  }

  /** The scan closes at a step that brings the depth down to zero. */
  predicate Closes(s: Scan, s': Scan) {
    s.depth == 1 && s'.depth == 0
  }

  /** How many characters the scan takes to close, if it does. */
  function Length(s: Scan, text: string, open: char, close: char): Option<nat>
    decreases text
  {
    if text == [] then None
    else
      var s' := Step(s, text[0], open, close);
      if Closes(s, s') then Some(1)
      else
        var rest := Length(s', text[1..], open, close);
        if rest.Some? then Some(rest.value + 1) else None
  }

  /** The state after a text in which the scan does not close. */
  function Pass(s: Scan, text: string, open: char, close: char): Option<Scan>
    decreases text
  {
    if text == [] then Some(s)
    else
      var s' := Step(s, text[0], open, close);
      if Closes(s, s') then None else Pass(s', text[1..], open, close)
  }

  lemma {:induction false} PassConcat(s: Scan, a: string, b: string, open: char, close: char)
    ensures Pass(s, a + b, open, close) ==
            if Pass(s, a, open, close).Some? then Pass(Pass(s, a, open, close).value, b, open, close) else None
    decreases a
  {
    if a == [] {
      assert a + b == b;
    } else {
      assert (a + b)[1..] == a[1..] + b;
      PassConcat(Step(s, a[0], open, close), a[1..], b, open, close);
    }
  }

  lemma {:induction false} LengthAfterPass(s: Scan, a: string, b: string, open: char, close: char)
    requires Pass(s, a, open, close).Some?
    ensures var rest := Length(Pass(s, a, open, close).value, b, open, close);
            Length(s, a + b, open, close) == if rest.Some? then Some(|a| + rest.value) else None
    decreases a
  {
    if a == [] {
      assert a + b == b;
    } else {
      assert (a + b)[1..] == a[1..] + b;
      LengthAfterPass(Step(s, a[0], open, close), a[1..], b, open, close);
    }
  }

  lemma {:induction false} LengthFits(s: Scan, text: string, open: char, close: char)
    ensures Length(s, text, open, close).Some? ==> 1 <= Length(s, text, open, close).value <= |text|
    decreases text
  {
    if text != [] { LengthFits(Step(s, text[0], open, close), text[1..], open, close); }
  }

  /** The state of the scan of `text` from `i` when it comes to `j`, if it has not closed by then. */
  function ScanTo(text: string, i: nat, j: nat, open: char, close: char): Option<Scan>
    requires i <= j <= |text|
    decreases j
  {
    if j == i then Some(START)
    else
      var before := ScanTo(text, i, j - 1, open, close);
      if before.None? || Closes(before.value, Step(before.value, text[j - 1], open, close)) then None
      else Some(Step(before.value, text[j - 1], open, close))
  }

  lemma {:induction false} ScanToIsPass(text: string, i: nat, j: nat, open: char, close: char)
    requires i <= j <= |text|
    ensures ScanTo(text, i, j, open, close) == Pass(START, text[i..j], open, close)
    decreases j
  {
    if i < j {
      ScanToIsPass(text, i, j - 1, open, close);
      assert text[i..j] == text[i..j - 1] + [text[j - 1]];
      PassConcat(START, text[i..j - 1], [text[j - 1]], open, close);
      assert [text[j - 1]][1..] == [];
    } else {
      assert text[i..j] == [];
    }
  }

  lemma {:induction false} NeverCloses(s: Scan, text: string, open: char, close: char)
    requires Pass(s, text, open, close).Some?
    ensures Length(s, text, open, close).None?
    decreases |text|
  {
    if text != [] { NeverCloses(Step(s, text[0], open, close), text[1..], open, close); }
  }

  /** The candidates that start among the first `n` characters, in order. */
  function Candidates(text: string, n: nat, open: char, close: char): seq<string>
    requires n <= |text|
  {
    if n == 0 then []
    else
      Candidates(text, n - 1, open, close) + CandidateAt(text, n - 1, open, close)
  }

  function CandidateAt(text: string, i: nat, open: char, close: char): seq<string>
    requires i < |text|
  {
    if text[i] != open then []
    else
      var length := Length(START, text[i..], open, close);
      LengthFits(START, text[i..], open, close);
      if length.None? then [] else [text[i..i + length.value]]
  }

  lemma CandidateOfLength(text: string, i: nat, length: nat, open: char, close: char)
    requires i < |text| && text[i] == open && i + length <= |text|
    requires Length(START, text[i..], open, close) == Some(length)
    ensures Candidates(text, i + 1, open, close) == Candidates(text, i, open, close) + [text[i..i + length]]
  {
  }

  lemma ClosesAt(text: string, i: nat, j: nat, s: Scan, open: char, close: char)
    requires i <= j < |text| && ScanTo(text, i, j, open, close) == Some(s)
    requires Closes(s, Step(s, text[j], open, close))
    ensures Length(START, text[i..], open, close) == Some(j + 1 - i)
  {
    var rest := text[j..];
    assert rest != [] && rest[0] == text[j];
    assert Length(s, rest, open, close) == Some(1);
    ScanToIsPass(text, i, j, open, close);
    LengthAfterPass(START, text[i..j], rest, open, close);
    assert text[i..] == text[i..j] + rest;
  }

  lemma NothingFrom(text: string, i: nat, open: char, close: char)
    requires i < |text| && (text[i] != open || Length(START, text[i..], open, close).None?)
    ensures Candidates(text, i + 1, open, close) == Candidates(text, i, open, close)
  {
  }

  lemma NeverClosesFrom(text: string, i: nat, open: char, close: char)
    requires i <= |text| && ScanTo(text, i, |text|, open, close).Some?
    ensures Length(START, text[i..], open, close).None?
  {
    ScanToIsPass(text, i, |text|, open, close);
    assert text[i..|text|] == text[i..];
    NeverCloses(START, text[i..], open, close);
  }

  /** The inner loop: how long the text from the bracket at `i` to its closing bracket is. */
  method BalancedLength(text: string, i: nat, open: char, close: char) returns (length: Option<nat>)
    requires i < |text| && text[i] == open && open != '"' && open != '\\' && open != close
    ensures length == Length(START, text[i..], open, close)
    ensures length.Some? ==> i + length.value <= |text|
  {
    var depth, inString, escape := 0, false, false;
    for j := i to |text|
      invariant ScanTo(text, i, j, open, close) == Some(Scan(depth, inString, escape))
      invariant depth >= (if j == i then 0 else 1)
    {
      var c := text[j];
      ghost var s := Scan(depth, inString, escape);
      if escape {
        escape := false;
      } else if c == '\\' {
        if inString { escape := true; }
      } else if c == '"' {
        inString := !inString;
      } else if !inString {
        if c == open {
          depth := depth + 1;
        } else if c == close {
          depth := depth - 1;
          if depth == 0 {
            ClosesAt(text, i, j, s, open, close);
            return Some(j + 1 - i);
          }
        }
      }
    }
    NeverClosesFrom(text, i, open, close);
    return None;
  }

  method IterBalancedJsonCandidates(text: string, open: char, close: char) returns (candidates: seq<string>)
    requires open != '"' && open != '\\' && open != close
    ensures candidates == Candidates(text, |text|, open, close)
  {
    candidates := [];
    for i := 0 to |text|
      invariant candidates == Candidates(text, i, open, close)
    {
      var length: Option<nat> := None;
      if text[i] == open { length := BalancedLength(text, i, open, close); }
      if length.Some? {
        CandidateOfLength(text, i, length.value, open, close);
        candidates := candidates + [text[i..i + length.value]];
      } else {
        NothingFrom(text, i, open, close);
      }
    }
  }

  // ---------------------------------------------------------------- JSON text (RFC 8259)

  /** Section 7: one character of a string, as written. */
  datatype StringItem = Plain(c: char) | Escaped(c: char) | Unicode(digits: string)

  /** Sections 3 to 5: a value with its white space, as written. `Scalar` is a literal name or a
      number; `gap` is the white space of an empty array or object. */
  datatype Value =
    | Scalar(text: string)
    | Text(items: seq<StringItem>)
    | Array(gap: string, elements: seq<Element>)
    | Object(gap: string, members: seq<Member>)

  datatype Element = Element(before: string, value: Value, after: string)
  datatype Member = Member(before: string, key: seq<StringItem>, afterKey: string, beforeValue: string,
                           value: Value, after: string)

  predicate IsBlank(s: string) {
    forall c <- s :: c == ' ' || c == '\t' || c == '\n' || c == '\r'
  }

  predicate IsHexDigit(c: char) {
    '0' <= c <= '9' || 'a' <= c <= 'f' || 'A' <= c <= 'F'
  }

  /** Section 6 only uses these characters in numbers. */
  predicate IsScalar(s: string) {
    s == "true" || s == "false" || s == "null"
    || (s != "" && forall c <- s :: '0' <= c <= '9' || c == '-' || c == '+' || c == '.' || c == 'e' || c == 'E')
  }

  predicate ItemOk(i: StringItem) {
    match i
    case Plain(c) => c != '"' && c != '\\' && c >= ' '
    case Escaped(c) => c in "\"\\/bfnrt"
    case Unicode(d) => |d| == 4 && forall c <- d :: IsHexDigit(c)
  }

  predicate ItemsOk(items: seq<StringItem>) {
    forall i <- items :: ItemOk(i)
  }

  predicate WellFormed(v: Value) {
    match v
    case Scalar(t) => IsScalar(t)
    case Text(items) => ItemsOk(items)
    case Array(gap, es) =>
      IsBlank(gap) && forall i :: 0 <= i < |es| ==> IsBlank(es[i].before) && IsBlank(es[i].after) && WellFormed(es[i].value)
    case Object(gap, ms) => IsBlank(gap) && forall i :: 0 <= i < |ms| ==> MemberOk(ms[i])
  }

  predicate MemberOk(m: Member) {
    && IsBlank(m.before) && ItemsOk(m.key) && IsBlank(m.afterKey) && IsBlank(m.beforeValue)
    && IsBlank(m.after) && WellFormed(m.value)
  }

  function PrintItem(i: StringItem): string {
    match i
    case Plain(c) => [c]
    case Escaped(c) => ['\\', c]
    case Unicode(d) => "\\u" + d
  }

  function PrintItems(items: seq<StringItem>): string {
    if items == [] then [] else PrintItem(items[0]) + PrintItems(items[1..])
  }

  function PrintString(items: seq<StringItem>): string {
    ['"'] + PrintItems(items) + ['"']
  }

  function Print(v: Value): string {
    match v
    case Scalar(t) => t
    case Text(items) => PrintString(items)
    case Array(gap, es) => ['['] + gap + PrintElements(es) + [']']
    case Object(gap, ms) => ['{'] + gap + PrintMembers(ms) + ['}']
  }

  function PrintElement(e: Element): string {
    e.before + Print(e.value) + e.after
  }

  function PrintElements(es: seq<Element>): string {
    if es == [] then []
    else PrintElement(es[0]) + (if |es| == 1 then [] else [',']) + PrintElements(es[1..])
  }

  function PrintMember(m: Member): string {
    m.before + PrintString(m.key) + m.afterKey + [':'] + m.beforeValue + Print(m.value) + m.after
  }

  function PrintMembers(ms: seq<Member>): string {
    if ms == [] then []
    else PrintMember(ms[0]) + (if |ms| == 1 then [] else [',']) + PrintMembers(ms[1..])
  }

  // ---------------------------------------------------------------- scanning a printed value

  predicate Brackets(open: char, close: char) {
    (open == '{' && close == '}') || (open == '[' && close == ']')
  }

  /** From any state inside the brackets and outside a string, the text is passed over: the scan
      neither closes nor ends up anywhere else. */
  ghost predicate Neutral(text: string, open: char, close: char) {
    forall d | d >= 1 :: Pass(Scan(d, false, false), text, open, close) == Some(Scan(d, false, false))
  }

  lemma NeutralConcat(a: string, b: string, open: char, close: char)
    requires Neutral(a, open, close) && Neutral(b, open, close)
    ensures Neutral(a + b, open, close)
  {
    forall d | d >= 1 ensures Pass(Scan(d, false, false), a + b, open, close) == Some(Scan(d, false, false)) {
      PassConcat(Scan(d, false, false), a, b, open, close);
    }
  }

  predicate Dull(c: char) {
    c !in "\"\\{}[]"
  }

  lemma {:induction false} DullIsNeutral(text: string, open: char, close: char)
    requires Brackets(open, close) && forall c <- text :: Dull(c)
    ensures Neutral(text, open, close)
  {
    if text != [] {
      DullIsNeutral(text[1..], open, close);
      assert Dull(text[0]);
    }
  }

  lemma ScalarIsDull(t: string)
    requires IsScalar(t)
    ensures forall c <- t :: Dull(c)
  {
  }

  /** Inside a string every printed character is passed over, quotes and brackets included. */
  lemma {:induction false} ItemsPass(items: seq<StringItem>, d: int, open: char, close: char)
    requires ItemsOk(items) && d >= 1
    ensures Pass(Scan(d, true, false), PrintItems(items), open, close) == Some(Scan(d, true, false))
  {
    if items != [] {
      ItemPasses(items[0], d, open, close);
      PassConcat(Scan(d, true, false), PrintItem(items[0]), PrintItems(items[1..]), open, close);
      ItemsPass(items[1..], d, open, close);
    }
  }

  lemma ItemPasses(i: StringItem, d: int, open: char, close: char)
    requires ItemOk(i) && d >= 1
    ensures Pass(Scan(d, true, false), PrintItem(i), open, close) == Some(Scan(d, true, false))
  {
    var s := Scan(d, true, false);
    match i
    case Plain(c) =>
      assert Step(s, c, open, close) == s;
      assert PrintItem(i)[1..] == [];
    case Escaped(c) =>
      assert PrintItem(i) == ['\\'] + [c];
      PassConcat(s, ['\\'], [c], open, close);
      assert ['\\'][1..] == [] && [c][1..] == [];
    case Unicode(h) =>
      assert PrintItem(i) == ['\\'] + ['u'] + h;
      PassConcat(s, ['\\'] + ['u'], h, open, close);
      assert (['\\'] + ['u'])[1..] == ['u'] && ['u'][1..] == [];
      assert Step(s, '\\', open, close) == s.(escape := true);
      HexPasses(h, d, open, close);
  }

  lemma {:induction false} HexPasses(h: string, d: int, open: char, close: char)
    requires d >= 1 && forall c <- h :: IsHexDigit(c)
    ensures Pass(Scan(d, true, false), h, open, close) == Some(Scan(d, true, false))
  {
    if h != [] {
      assert IsHexDigit(h[0]);
      HexPasses(h[1..], d, open, close);
    }
  }

  lemma StringIsNeutral(items: seq<StringItem>, open: char, close: char)
    requires ItemsOk(items) && Brackets(open, close)
    ensures Neutral(PrintString(items), open, close)
  {
    forall d | d >= 1 ensures Pass(Scan(d, false, false), PrintString(items), open, close) == Some(Scan(d, false, false)) {
      ItemsPass(items, d, open, close);
      PassConcat(Scan(d, false, false), ['"'] + PrintItems(items), ['"'], open, close);
      PassConcat(Scan(d, false, false), ['"'], PrintItems(items), open, close);
      assert ['"'][1..] == [];
    }
  }

  lemma OpeningPasses(d: int, left: char, right: char, open: char, close: char)
    requires d >= 1 && Brackets(open, close) && Brackets(left, right)
    ensures Pass(Scan(d, false, false), [left], open, close) == Some(Scan(if left == open then d + 1 else d, false, false))
  {
    assert [left][1..] == [];
  }

  lemma ClosingPasses(d: int, left: char, right: char, open: char, close: char)
    requires d >= 1 && Brackets(open, close) && Brackets(left, right)
    ensures Pass(Scan(if left == open then d + 1 else d, false, false), [right], open, close) == Some(Scan(d, false, false))
  {
    assert [right][1..] == [];
  }

  /** A bracketed text is neutral when its inside is, whichever bracket the scan counts. */
  lemma BracketedIsNeutral(left: char, inside: string, right: char, open: char, close: char)
    requires Brackets(open, close) && Brackets(left, right) && Neutral(inside, open, close)
    ensures Neutral([left] + inside + [right], open, close)
  {
    forall d | d >= 1
      ensures Pass(Scan(d, false, false), [left] + inside + [right], open, close) == Some(Scan(d, false, false))
    {
      OpeningPasses(d, left, right, open, close);
      ClosingPasses(d, left, right, open, close);
      ThreePass(Scan(d, false, false), [left], Scan(if left == open then d + 1 else d, false, false), inside, [right], open, close);
    }
  }

  /** Three texts in a row, the middle one passing over its state. */
  lemma ThreePass(s: Scan, a: string, s': Scan, b: string, c: string, open: char, close: char)
    requires Pass(s, a, open, close) == Some(s') && Pass(s', b, open, close) == Some(s')
    ensures Pass(s, a + b + c, open, close) == Pass(s', c, open, close)
  {
    PassConcat(s, a + b, c, open, close);
    PassConcat(s, a, b, open, close);
  }

  lemma {:induction false} ValueIsNeutral(v: Value, open: char, close: char)
    requires WellFormed(v) && Brackets(open, close)
    ensures Neutral(Print(v), open, close)
    decreases v, 1
  {
    match v
    case Scalar(t) => ScalarIsDull(t); DullIsNeutral(t, open, close);
    case Text(items) => StringIsNeutral(items, open, close);
    case Array(gap, es) =>
      InsideIsNeutral(v, open, close);
      BracketedIsNeutral('[', Inside(v), ']', open, close);
      assert Print(v) == ['['] + Inside(v) + [']'];
    case Object(gap, ms) =>
      InsideIsNeutral(v, open, close);
      BracketedIsNeutral('{', Inside(v), '}', open, close);
      assert Print(v) == ['{'] + Inside(v) + ['}'];
  }

  /** What stands between the brackets of an array or object. */
  function Inside(v: Value): string
    requires v.Array? || v.Object?
  {
    v.gap + if v.Array? then PrintElements(v.elements) else PrintMembers(v.members)
  }

  lemma {:induction false} InsideIsNeutral(v: Value, open: char, close: char)
    requires WellFormed(v) && Brackets(open, close) && (v.Array? || v.Object?)
    ensures Neutral(Inside(v), open, close)
    decreases v, 0
  {
    DullIsNeutral(v.gap, open, close);
    if v.Array? {
      ElementsAreNeutral(v.elements, open, close);
      NeutralConcat(v.gap, PrintElements(v.elements), open, close);
    } else {
      MembersAreNeutral(v.members, open, close);
      NeutralConcat(v.gap, PrintMembers(v.members), open, close);
    }
  }

  lemma CommaIsNeutral(n: nat, open: char, close: char)
    requires Brackets(open, close)
    ensures Neutral(if n == 1 then [] else [','], open, close)
  {
    DullIsNeutral(if n == 1 then [] else [','], open, close);
  }

  lemma {:induction false} ElementsAreNeutral(es: seq<Element>, open: char, close: char)
    requires Brackets(open, close)
    requires forall i :: 0 <= i < |es| ==> IsBlank(es[i].before) && IsBlank(es[i].after) && WellFormed(es[i].value)
    ensures Neutral(PrintElements(es), open, close)
    decreases es
  {
    if es == [] {
      DullIsNeutral([], open, close);
    } else {
      var e := es[0];
      DullIsNeutral(e.before, open, close);
      DullIsNeutral(e.after, open, close);
      ValueIsNeutral(e.value, open, close);
      NeutralConcat(e.before, Print(e.value), open, close);
      NeutralConcat(e.before + Print(e.value), e.after, open, close);
      CommaIsNeutral(|es|, open, close);
      NeutralConcat(PrintElement(e), if |es| == 1 then [] else [','], open, close);
      ElementsAreNeutral(es[1..], open, close);
      NeutralConcat(PrintElement(e) + if |es| == 1 then [] else [','], PrintElements(es[1..]), open, close);
    }
  }

  lemma {:induction false} MemberIsNeutral(m: Member, open: char, close: char)
    requires Brackets(open, close) && MemberOk(m)
    ensures Neutral(PrintMember(m), open, close)
    decreases m
  {
    var colon := [':'];
    DullIsNeutral(m.before, open, close);
    StringIsNeutral(m.key, open, close);
    DullIsNeutral(m.afterKey, open, close);
    DullIsNeutral(colon, open, close);
    DullIsNeutral(m.beforeValue, open, close);
    ValueIsNeutral(m.value, open, close);
    DullIsNeutral(m.after, open, close);
    NeutralConcat(m.before, PrintString(m.key), open, close);
    NeutralConcat(m.before + PrintString(m.key), m.afterKey, open, close);
    NeutralConcat(m.before + PrintString(m.key) + m.afterKey, colon, open, close);
    NeutralConcat(m.before + PrintString(m.key) + m.afterKey + colon, m.beforeValue, open, close);
    NeutralConcat(m.before + PrintString(m.key) + m.afterKey + colon + m.beforeValue, Print(m.value), open, close);
    NeutralConcat(m.before + PrintString(m.key) + m.afterKey + colon + m.beforeValue + Print(m.value), m.after, open, close);
  }

  lemma {:induction false} MembersAreNeutral(ms: seq<Member>, open: char, close: char)
    requires Brackets(open, close) && forall i :: 0 <= i < |ms| ==> MemberOk(ms[i])
    ensures Neutral(PrintMembers(ms), open, close)
    decreases ms
  {
    if ms == [] {
      DullIsNeutral([], open, close);
    } else {
      MemberIsNeutral(ms[0], open, close);
      CommaIsNeutral(|ms|, open, close);
      NeutralConcat(PrintMember(ms[0]), if |ms| == 1 then [] else [','], open, close);
      MembersAreNeutral(ms[1..], open, close);
      NeutralConcat(PrintMember(ms[0]) + if |ms| == 1 then [] else [','], PrintMembers(ms[1..]), open, close);
    }
  }

  lemma PrintShape(v: Value, open: char, close: char)
    requires (v.Object? && open == '{' && close == '}') || (v.Array? && open == '[' && close == ']')
    ensures Print(v) == [open] + Inside(v) + [close]
  {
    assert v.Array? ==> Print(v) == ['['] + v.gap + PrintElements(v.elements) + [']'];
    assert v.Object? ==> Print(v) == ['{'] + v.gap + PrintMembers(v.members) + ['}'];
  }

  lemma Regroup(a: string, b: string, c: string, d: string)
    ensures a + b + c + d == a + (b + (c + d))
  {
  }

  lemma StopsAfter(inside: string, post: string, open: char, close: char)
    requires Brackets(open, close) && Neutral(inside, open, close)
    ensures Length(START, [open] + (inside + ([close] + post)), open, close) == Some(|inside| + 2)
  {
    var one := Scan(1, false, false);
    assert Pass(START, [open], open, close) == Some(one) by { assert [open][1..] == []; }
    LengthAfterPass(START, [open], inside + ([close] + post), open, close);
    LengthAfterPass(one, inside, [close] + post, open, close);
    assert ([close] + post)[0] == close;
  }

  /** Scanning from the opening bracket of a printed array or object stops at its own closing
      bracket, whatever text follows. */
  lemma ScanStopsAtOwnBracket(v: Value, post: string, open: char, close: char)
    requires WellFormed(v) && ((v.Object? && open == '{' && close == '}') || (v.Array? && open == '[' && close == ']'))
    ensures Length(START, Print(v) + post, open, close) == Some(|Print(v)|)
  {
    InsideIsNeutral(v, open, close);
    StopsAfter(Inside(v), post, open, close);
    PrintShape(v, open, close);
    Regroup([open], Inside(v), [close], post);
  }

  lemma {:induction false} CandidatesKeep(text: string, i: nat, n: nat, x: string, open: char, close: char)
    requires i < n <= |text| && x in CandidateAt(text, i, open, close)
    ensures x in Candidates(text, n, open, close)
    decreases n
  {
    if i < n - 1 { CandidatesKeep(text, i, n - 1, x, open, close); }
  }

  lemma Cut(pre: string, middle: string, post: string)
    ensures var text := pre + middle + post;
            text[|pre|..] == middle + post && text[|pre|..|pre| + |middle|] == middle
  {
  }

  lemma CandidateHere(pre: string, p: string, post: string, open: char, close: char)
    requires p != "" && p[0] == open && Length(START, p + post, open, close) == Some(|p|)
    ensures CandidateAt(pre + p + post, |pre|, open, close) == [p]
  {
    Cut(pre, p, post);
    assert (pre + p + post)[|pre|] == open;
  }

  /** Every JSON object (or array) printed in a text is among the candidates, character for character,
      whatever stands before and after it. */
  lemma PrintedValueIsCandidate(pre: string, v: Value, post: string, open: char, close: char)
    requires WellFormed(v) && ((v.Object? && open == '{' && close == '}') || (v.Array? && open == '[' && close == ']'))
    ensures var text := pre + Print(v) + post;
      && Print(v) in Candidates(text, |text|, open, close)
      && CandidateAt(text, |pre|, open, close) == [Print(v)]
  {
    ScanStopsAtOwnBracket(v, post, open, close);
    PrintShape(v, open, close);
    CandidateHere(pre, Print(v), post, open, close);
    var text := pre + Print(v) + post;
    assert Print(v) in CandidateAt(text, |pre|, open, close);
    CandidatesKeep(text, |pre|, |text|, Print(v), open, close);
  }

  // ---------------------------------------------------------------- choosing a candidate

  datatype Extraction<+V> = Found(value: V, source: nat, repaired: bool) | NotFound

  /** What one candidate gives: itself parsed, or failing that its repaired text parsed, when the
      repair changed anything. */
  function Try<V>(candidate: string, i: nat, parse: string -> Option<V>, repair: string -> string): Extraction<V> {
    if parse(candidate).Some? then Found(parse(candidate).value, i, false)
    else if repair(candidate) != candidate && parse(repair(candidate)).Some?
    then Found(parse(repair(candidate)).value, i, true)
    else NotFound
  }

  /** The first candidate that gives something. */
  function FirstOf<V>(candidates: seq<string>, n: nat, parse: string -> Option<V>, repair: string -> string): Extraction<V>
    requires n <= |candidates|
  {
    if n == 0 then NotFound
    else
      var before := FirstOf(candidates, n - 1, parse, repair);
      if before.Found? then before else Try(candidates[n - 1], n - 1, parse, repair)
  }

  /** The candidate loop of `extract_llm_structured_output`: skipping the candidates seen before never
      changes the outcome. */
  method ExtractStructured<V>(blocks: seq<string>, balanced: seq<string>, parse: string -> Option<V>, repair: string -> string)
    returns (r: Extraction<V>)
    ensures r == FirstOf(blocks + balanced, |blocks + balanced|, parse, repair)
    ensures r.Found? ==> r.source < |blocks + balanced|
  {
    var candidates := blocks + balanced;
    var seen: set<string> := {};
    for i := 0 to |candidates|
      invariant seen == set j | 0 <= j < i :: candidates[j]
      invariant forall j :: 0 <= j < i ==> Try(candidates[j], j, parse, repair).NotFound?
      invariant FirstOf(candidates, i, parse, repair).NotFound?
    {
      FirstOfStops(candidates, i, |candidates|, parse, repair);
      if candidates[i] in seen { continue; }
      seen := seen + {candidates[i]};
      r := Try(candidates[i], i, parse, repair);
      if r.Found? { return; }
    }
    r := NotFound;
  }

  lemma {:induction false} FirstOfStops<V>(candidates: seq<string>, i: nat, n: nat, parse: string -> Option<V>, repair: string -> string)
    requires i < n <= |candidates| && FirstOf(candidates, i, parse, repair).NotFound?
    ensures Try(candidates[i], i, parse, repair).Found? ==>
              FirstOf(candidates, n, parse, repair) == Try(candidates[i], i, parse, repair)
  {
    if i + 1 < n { FirstOfStops(candidates, i, n - 1, parse, repair); }
  }

  /** A candidate gives something: itself, or its repaired text where the repair changed anything, can be parsed. */
  predicate Gives<V>(candidate: string, parse: string -> Option<V>, repair: string -> string) {
    parse(candidate).Some? || (repair(candidate) != candidate && parse(repair(candidate)).Some?)
  }

  /** What is extracted: nothing exactly when no candidate gives anything; otherwise what the first one that does
      parses to, its repaired text only when it does not parse itself. */
  lemma {:induction false} ExtractedExactly<V>(candidates: seq<string>, n: nat, parse: string -> Option<V>, repair: string -> string)
    requires n <= |candidates|
    ensures var r := FirstOf(candidates, n, parse, repair);
      && (r.NotFound? <==> forall i :: 0 <= i < n ==> !Gives(candidates[i], parse, repair))
      && (r.Found? ==>
            && r.source < n && Gives(candidates[r.source], parse, repair)
            && (forall i :: 0 <= i < r.source ==> !Gives(candidates[i], parse, repair))
            && (r.repaired <==> parse(candidates[r.source]).None?)
            && parse(if r.repaired then repair(candidates[r.source]) else candidates[r.source]) == Some(r.value))
  {
    if n > 0 { ExtractedExactly(candidates, n - 1, parse, repair); }
  }
}
