/**
 The follow-up list that one tool writes (tools/gen_tainted_list.py:56-101) and the scheduler reads back
 (app/parsers.py:378-400): one callee a line, four fields separated by `###`. Which characters beyond ASCII
 count as word characters, and which library functions are skipped, are inputs.
 */
module TaintedList {
  import opened Prelude

  // ---------------------------------------------------------------- characters and lines

  /** The characters at which Python's `splitlines` breaks. (It takes "\r\n" as one break; as two they only
      add an empty line, and empty lines are skipped.) */
  predicate IsBreak(c: char) {
    || c == '\n' || c == '\r' || c == '\U{0B}' || c == '\U{0C}' || c == '\U{1C}' || c == '\U{1D}' || c == '\U{1E}'
    || c == '\U{85}' || c == '\U{2028}' || c == '\U{2029}'
  }

  predicate IsSpace(c: char) {
    || IsBreak(c) || c == ' ' || c == '\t' || c == '\U{1F}' || c == '\U{A0}' || c == '\U{1680}'
    || '\U{2000}' <= c <= '\U{200A}' || c == '\U{202F}' || c == '\U{205F}' || c == '\U{3000}'
  }

  function StripLeft(s: string): string {
    if s != "" && IsSpace(s[0]) then StripLeft(s[1..]) else s
  }

  function StripRight(s: string): string {
    if s != "" && IsSpace(s[|s| - 1]) then StripRight(s[..|s| - 1]) else s
  }

  function Strip(s: string): string {
    StripRight(StripLeft(s))
  }

  function FirstBreak(s: string): nat {
    if s == "" || IsBreak(s[0]) then 0 else 1 + FirstBreak(s[1..])
  }

  lemma {:induction false} FirstBreakInside(s: string)
    ensures FirstBreak(s) <= |s| && (FirstBreak(s) < |s| ==> IsBreak(s[FirstBreak(s)]))
  {
    if s != "" && !IsBreak(s[0]) { FirstBreakInside(s[1..]); }
  }

  /** `splitlines`. */
  function Lines(s: string): seq<string>
    decreases |s|
  {
    FirstBreakInside(s);
    var n := FirstBreak(s);
    if s == "" then [] else if n == |s| then [s] else [s[..n]] + Lines(s[n + 1..])
  }

  // ---------------------------------------------------------------- fields

  const MARK := "###"

  predicate MarkAt(s: string, i: nat) {
    i + 3 <= |s| && s[i] == '#' && s[i + 1] == '#' && s[i + 2] == '#'
  }

  /** Where the first separator starts, or the length. */
  function FirstMark(s: string): (i: nat)
    ensures i <= |s| && (i < |s| ==> MarkAt(s, i))
    ensures forall j: nat :: j < i ==> !MarkAt(s, j)
    decreases |s|
  {
    if s == "" || MarkAt(s, 0) then 0
    else
      var i := FirstMark(s[1..]);
      assert i < |s[1..]| ==> MarkAt(s[1..], i);
      assert forall j: nat :: 0 < j < i + 1 ==> (MarkAt(s, j) ==> MarkAt(s[1..], j - 1));
      i + 1
  }

  /** `split("###")`. */
  function Fields(s: string): seq<string>
    decreases |s|
  {
    var i := FirstMark(s);
    if i == |s| then [s] else [s[..i]] + Fields(s[i + 3..])
  }

  predicate NoMark(s: string) {
    forall i: nat :: i < |s| ==> !MarkAt(s, i)
  }

  predicate EndsInHash(s: string) {
    s != "" && s[|s| - 1] == '#'
  }

  /** A field without a separator in it, and not ending in `#`, is cut off where it ends. */
  lemma FieldCut(a: string, rest: string)
    requires NoMark(a) && !EndsInHash(a)
    ensures Fields(a + MARK + rest) == [a] + Fields(rest)
  {
    var s := a + MARK + rest;
    assert MarkAt(s, |a|);
    forall j: nat | j < |a| ensures !MarkAt(s, j) {
      if j + 3 <= |a| {
        assert !MarkAt(a, j);
        assert s[j] == a[j] && s[j + 1] == a[j + 1] && s[j + 2] == a[j + 2];
      } else {
        assert s[|a| - 1] == a[|a| - 1];
      }
    }
    assert FirstMark(s) == |a|;
    assert s[..|a|] == a && s[|a| + 3..] == rest;
  }

  lemma {:induction false} FieldsHaveNoMark(s: string)
    ensures forall f <- Fields(s) :: NoMark(f)
    decreases |s|
  {
    var i := FirstMark(s);
    if i < |s| {
      FieldsHaveNoMark(s[i + 3..]);
      forall j: nat ensures !MarkAt(s[..i], j) {
        if MarkAt(s[..i], j) { assert MarkAt(s, j); }
      }
    }
  }

  // ---------------------------------------------------------------- stripping

  predicate Stripped(s: string) {
    s == "" || (!IsSpace(s[0]) && !IsSpace(s[|s| - 1]))
  }

  lemma StrippedStays(s: string)
    requires Stripped(s)
    ensures Strip(s) == s
  {
  }

  lemma {:induction false} StripLeftIsSuffix(s: string) returns (i: nat)
    ensures i <= |s| && StripLeft(s) == s[i..]
    ensures StripLeft(s) == "" || !IsSpace(StripLeft(s)[0])
  {
    if s != "" && IsSpace(s[0]) { i := StripLeftIsSuffix(s[1..]); i := i + 1; } else { i := 0; }
  }

  lemma {:induction false} StripRightIsPrefix(s: string) returns (j: nat)
    ensures j <= |s| && StripRight(s) == s[..j]
    ensures StripRight(s) == "" || !IsSpace(StripRight(s)[|StripRight(s)| - 1])
  {
    if s != "" && IsSpace(s[|s| - 1]) { j := StripRightIsPrefix(s[..|s| - 1]); } else { j := |s|; }
  }

  lemma StripIsInside(s: string) returns (i: nat, j: nat)
    ensures i <= j <= |s| && Strip(s) == s[i..j] && Stripped(Strip(s))
  {
    i := StripLeftIsSuffix(s);
    j := StripRightIsPrefix(StripLeft(s));
    j := i + j;
  }

  lemma StripNoMark(s: string)
    requires NoMark(s)
    ensures NoMark(Strip(s))
  {
    var i, j := StripIsInside(s);
    forall k: nat ensures !MarkAt(Strip(s), k) {
      if MarkAt(Strip(s), k) { assert MarkAt(s, i + k); }
    }
  }

  // ---------------------------------------------------------------- the writer

  datatype Entry = Entry(path: string, name: string, line: string, params: string)

  datatype TaintVar = TaintVar(name: string, line: string, source: string)

  datatype Verdict = Ignored | Refused | Variable(tv: TaintVar) | Accepted(entry: Entry)

  function CutAtParen(s: string): string {
    if s == "" || s[0] == '(' then "" else [s[0]] + CutAtParen(s[1..])
  }

  function CleanName(s: string): string {
    Strip(CutAtParen(s))
  }

  predicate FirstNameChar(c: char) {
    'A' <= c <= 'Z' || 'a' <= c <= 'z' || c == '_'
  }

  predicate NameChar(c: char, word: char -> bool) {
    word(c) || c == ':' || c == '<' || c == '>' || c == '~' || c == '*' || c == '&'
  }

  predicate ValidName(s: string, word: char -> bool) {
    s != "" && FirstNameChar(s[0]) && forall i :: 1 <= i < |s| ==> NameChar(s[i], word)
  }

  function LineField(s: string): string {
    if s != "" && s != "-" && s[0] != 'L' then ['L'] + s else s
  }

  function OrDash(s: string): string {
    if s == "" then "-" else s
  }

  /** What one input line is. */
  function Judge(raw: string, word: char -> bool): Verdict {
    var line := Strip(raw);
    if line == "" || line[0] == '#' then Ignored
    else
      var parts := Fields(line);
      if |parts| != 4 then Refused
      else
        var (path, name, at, params) := (Strip(parts[0]), Strip(parts[1]), Strip(parts[2]), Strip(parts[3]));
        if path == "@taintvar" then
          if name == "" then Refused else Variable(TaintVar(name, OrDash(LineField(at)), OrDash(params)))
        else if !ValidName(CleanName(name), word) then Refused
        else Accepted(Entry(path, CleanName(name), LineField(at), params))
  }

  function EntriesOf(raws: seq<string>, word: char -> bool): seq<Entry> {
    if raws == [] then []
    else
      var v := Judge(raws[|raws| - 1], word);
      EntriesOf(raws[..|raws| - 1], word) + if v.Accepted? then [v.entry] else []
  }

  function VariablesOf(raws: seq<string>, word: char -> bool): seq<TaintVar> {
    if raws == [] then []
    else
      var v := Judge(raws[|raws| - 1], word);
      VariablesOf(raws[..|raws| - 1], word) + if v.Variable? then [v.tv] else []
  }

  function RefusedOf(raws: seq<string>, word: char -> bool): nat {
    if raws == [] then 0
    else RefusedOf(raws[..|raws| - 1], word) + if Judge(raws[|raws| - 1], word).Refused? then 1 else 0
  }

  function TextOf(e: Entry): string {
    e.path + MARK + (e.name + MARK + (e.line + MARK + e.params))
  }

  function Texts(entries: seq<Entry>): seq<string> {
    seq(|entries|, i requires 0 <= i < |entries| => TextOf(entries[i]))
  }

  /** Every text on its own line. */
  function Joined(texts: seq<string>, n: nat): string
    requires n <= |texts|
  {
    if n == 0 then "" else Joined(texts, n - 1) + texts[n - 1] + ['\n']
  }

  /** The comment written when there is no entry. */
  const NOTHING := "# \U{65E0}\U{9700}\U{8DDF}\U{5165}\U{5B50}\U{51FD}\U{6570}"

  function FileOf(entries: seq<Entry>): string {
    if entries == [] then NOTHING + ['\n'] else Joined(Texts(entries), |entries|)
  }

  method GenTaintedList(raws: seq<string>, word: char -> bool)
    returns (file: string, variables: seq<TaintVar>, errors: nat)
    ensures file == FileOf(EntriesOf(raws, word))
    ensures variables == VariablesOf(raws, word) && errors == RefusedOf(raws, word)
  {
    var entries: seq<Entry> := [];
    variables, errors := [], 0;
    for i := 0 to |raws|
      invariant entries == EntriesOf(raws[..i], word) && variables == VariablesOf(raws[..i], word)
      invariant errors == RefusedOf(raws[..i], word)
    {
      assert raws[..i + 1][..i] == raws[..i];
      match Judge(raws[i], word) {
        case Ignored =>
        case Refused => errors := errors + 1;
        case Variable(tv) => variables := variables + [tv];
        case Accepted(e) => entries := entries + [e];
      }
    }
    assert raws[..|raws|] == raws;
    file := FileOf(entries);
  }

  // ---------------------------------------------------------------- the reader

  datatype Callee = Callee(name: string, file: string, line: string, params: string)

  function OrEmpty(s: string, blank: string): string {
    if s == blank then "" else s
  }

  /** What one line of the file gives. */
  function ReadLine(raw: string, skip: set<string>): Option<Callee> {
    var line := Strip(raw);
    if line == "" || line[0] == '#' then None
    else
      var parts := Fields(line);
      if |parts| < 2 || Strip(parts[0]) == "@taintvar" then None
      else
        var name := Strip(parts[1]);
        if name == "" || name in skip then None
        else Some(Callee(CleanName(name), OrEmpty(Strip(parts[0]), "-"),
                         if |parts| > 2 then Strip(parts[2]) else "",
                         OrEmpty(if |parts| > 3 then Strip(parts[3]) else "*", "*")))
  }

  /** The values that are there, in order. */
  function Somes(os: seq<Option<Callee>>): seq<Callee> {
    if os == [] then [] else Somes(os[..|os| - 1]) + if os[|os| - 1].Some? then [os[|os| - 1].value] else []
  }

  function ReadEach(lines: seq<string>, skip: set<string>): seq<Option<Callee>> {
    seq(|lines|, i requires 0 <= i < |lines| => ReadLine(lines[i], skip))
  }

  lemma OneMoreRead(os: seq<Option<Callee>>, n: nat)
    requires n < |os|
    ensures Somes(os[..n + 1]) == Somes(os[..n]) + if os[n].Some? then [os[n].value] else []
  {
    assert os[..n + 1][..n] == os[..n];
  }

  method ReadTaintedList(content: string, skip: set<string>) returns (callees: seq<Callee>)
    ensures callees == Somes(ReadEach(Lines(content), skip))
  {
    callees := [];
    var lines := Lines(content);
    ghost var each := ReadEach(lines, skip);
    for i := 0 to |lines|
      invariant callees == Somes(each[..i])
    {
      var c := ReadLine(lines[i], skip);
      OneMoreRead(each, i);
      if c.Some? { callees := callees + [c.value]; }
    }
    assert each[..|lines|] == each;
  }

  // ---------------------------------------------------------------- reading back one entry

  /** Word characters are not separators, brackets or spaces. */
  ghost predicate Sane(word: char -> bool) {
    forall c :: word(c) ==> c != '#' && c != '(' && !IsSpace(c)
  }

  predicate NoBreaks(s: string) {
    forall c <- s :: !IsBreak(c)
  }

  /** The caller's side of the bargain: no line breaks in any field, and no path or line field ending in `#`. */
  predicate Tidy(e: Entry) {
    NoBreaks(e.path) && NoBreaks(e.line) && NoBreaks(e.params) && !EndsInHash(e.path) && !EndsInHash(e.line)
  }

  /** What the writer guarantees of an entry it accepts. */
  predicate WellFormed(e: Entry, word: char -> bool) {
    && e.path != "" && e.path[0] != '#' && e.path != "@taintvar" && ValidName(e.name, word)
    && Stripped(e.path) && Stripped(e.line) && Stripped(e.params)
    && NoMark(e.path) && NoMark(e.line) && NoMark(e.params)
  }

  lemma FirstFieldStart(line: string)
    requires line != "" && line[0] != '#' && !IsSpace(line[0])
    ensures var p := Strip(Fields(line)[0]); p != "" && p[0] == line[0]
  {
    var p := Fields(line)[0];
    assert p != "" && p[0] == line[0];
    assert StripLeft(p) == p;
    var j := StripRightIsPrefix(p);
    StripRightKeepsFirst(p);
  }

  lemma {:induction false} StripRightKeepsFirst(s: string)
    requires s != "" && !IsSpace(s[0])
    ensures StripRight(s) != "" && StripRight(s)[0] == s[0]
    decreases |s|
  {
    if IsSpace(s[|s| - 1]) { StripRightKeepsFirst(s[..|s| - 1]); }
  }

  lemma LineFieldKeeps(s: string)
    requires Stripped(s) && NoMark(s)
    ensures Stripped(LineField(s)) && NoMark(LineField(s))
  {
    if LineField(s) != s {
      forall i: nat ensures !MarkAt(LineField(s), i) {
        if MarkAt(LineField(s), i) { assert MarkAt(s, i - 1); }
      }
    }
  }

  lemma AcceptedIsWellFormed(raw: string, word: char -> bool)
    requires Judge(raw, word).Accepted?
    ensures WellFormed(Judge(raw, word).entry, word)
  {
    var line := Strip(raw);
    var from, to := StripIsInside(raw);
    var parts := Fields(line);
    FieldsHaveNoMark(line);
    FirstFieldStart(line);
    forall f | f in parts ensures Stripped(Strip(f)) && NoMark(Strip(f)) {
      var i, j := StripIsInside(f);
      StripNoMark(f);
    }
    LineFieldKeeps(Strip(parts[2]));
  }

  lemma NameFacts(name: string, word: char -> bool)
    requires ValidName(name, word) && Sane(word)
    ensures forall c <- name :: c != '#' && c != '(' && !IsSpace(c)
    ensures Stripped(name) && NoMark(name) && !EndsInHash(name) && CleanName(name) == name
  {
    forall i | 0 <= i < |name| ensures name[i] != '#' && name[i] != '(' && !IsSpace(name[i]) {}
    CutNothing(name);
    StrippedStays(name);
  }

  lemma {:induction false} CutNothing(s: string)
    requires '(' !in s
    ensures CutAtParen(s) == s
  {
    if s != "" { CutNothing(s[1..]); }
  }

  lemma LastField(q: string)
    requires NoMark(q)
    ensures Fields(q) == [q]
  {
    assert FirstMark(q) == |q| by { assert !MarkAt(q, FirstMark(q)); }
  }

  lemma FieldBefore(a: string, rest: string, fields: seq<string>)
    requires NoMark(a) && !EndsInHash(a) && Fields(rest) == fields
    ensures Fields(a + MARK + rest) == [a] + fields
  {
    FieldCut(a, rest);
  }

  lemma FieldsOfTwo(l: string, q: string)
    requires NoMark(l) && NoMark(q) && !EndsInHash(l)
    ensures Fields(l + MARK + q) == [l, q]
  {
    LastField(q);
    FieldBefore(l, q, [q]);
    assert [l] + [q] == [l, q];
  }

  lemma FieldsOfThree(n: string, l: string, q: string)
    requires NoMark(n) && NoMark(l) && NoMark(q) && !EndsInHash(n) && !EndsInHash(l)
    ensures Fields(n + MARK + (l + MARK + q)) == [n, l, q]
  {
    FieldsOfTwo(l, q);
    FieldBefore(n, l + MARK + q, [l, q]);
    assert [n] + [l, q] == [n, l, q];
  }

  lemma FieldsOfFour(p: string, n: string, l: string, q: string)
    requires NoMark(p) && NoMark(n) && NoMark(l) && NoMark(q)
    requires !EndsInHash(p) && !EndsInHash(n) && !EndsInHash(l)
    ensures Fields(p + MARK + (n + MARK + (l + MARK + q))) == [p, n, l, q]
  {
    FieldsOfThree(n, l, q);
    FieldBefore(p, n + MARK + (l + MARK + q), [n, l, q]);
    assert [p] + [n, l, q] == [p, n, l, q];
  }

  lemma FieldsOfText(e: Entry, word: char -> bool)
    requires WellFormed(e, word) && Sane(word) && !EndsInHash(e.path) && !EndsInHash(e.line)
    ensures Fields(TextOf(e)) == [e.path, e.name, e.line, e.params]
  {
    NameFacts(e.name, word);
    FieldsOfFour(e.path, e.name, e.line, e.params);
  }

  lemma TextIsStripped(e: Entry, word: char -> bool)
    requires WellFormed(e, word)
    ensures TextOf(e) != "" && TextOf(e)[0] == e.path[0] && Stripped(TextOf(e))
  {
    var t := TextOf(e);
    assert t[0] == e.path[0];
    if e.params == "" {
      assert t == e.path + MARK + (e.name + MARK + e.line) + MARK;
      assert t[|t| - 1] == '#';
    } else {
      assert t[|t| - 1] == e.params[|e.params| - 1];
    }
  }

  function CalleeOf(e: Entry): Callee {
    Callee(e.name, OrEmpty(e.path, "-"), e.line, OrEmpty(e.params, "*"))
  }

  /** What an entry reads back as: nothing, if its name is skipped. */
  function KeptOf(e: Entry, skip: set<string>): Option<Callee> {
    if e.name in skip then None else Some(CalleeOf(e))
  }

  lemma EntryComesBack(e: Entry, word: char -> bool, skip: set<string>)
    requires WellFormed(e, word) && Sane(word) && !EndsInHash(e.path) && !EndsInHash(e.line)
    ensures ReadLine(TextOf(e), skip) == KeptOf(e, skip)
  {
    TextIsStripped(e, word);
    StrippedStays(TextOf(e));
    FieldsOfText(e, word);
    NameFacts(e.name, word);
    StrippedStays(e.path);
    StrippedStays(e.name);
    StrippedStays(e.line);
    StrippedStays(e.params);
  }

  // ---------------------------------------------------------------- reading back the file

  lemma {:induction false} BreakAfter(t: string, rest: string)
    requires NoBreaks(t) && rest != "" && IsBreak(rest[0])
    ensures FirstBreak(t + rest) == |t|
    decreases |t|
  {
    if t == "" {
      assert t + rest == rest;
    } else {
      assert (t + rest)[1..] == t[1..] + rest;
      BreakAfter(t[1..], rest);
    }
  }

  lemma {:induction false} BreakExists(s: string)
    requires s != "" && IsBreak(s[|s| - 1])
    ensures FirstBreak(s) < |s| && NoBreaks(s[..FirstBreak(s)])
    decreases |s|
  {
    if !IsBreak(s[0]) {
      BreakExists(s[1..]);
      assert s[..FirstBreak(s)] == [s[0]] + s[1..][..FirstBreak(s[1..])];
    }
  }

  lemma FirstLine(t: string, b: char, rest: string)
    requires NoBreaks(t) && IsBreak(b)
    ensures Lines(t + [b] + rest) == [t] + Lines(rest)
  {
    var s := t + [b] + rest;
    assert s == t + ([b] + rest);
    BreakAfter(t, [b] + rest);
    assert s[..|t|] == t && s[|t| + 1..] == rest;
  }

  lemma Split(s: string, n: nat, more: string)
    requires n < |s|
    ensures s == s[..n] + [s[n]] + s[n + 1..]
    ensures s + more == s[..n] + [s[n]] + (s[n + 1..] + more)
  {
  }

  /** One more line at the end of a text that ends with a line break. */
  lemma {:induction false} LinesAppend(s: string, t: string)
    requires NoBreaks(t) && (s == "" || s[|s| - 1] == '\n')
    ensures Lines(s + (t + ['\n'])) == Lines(s) + [t]
    decreases |s|
  {
    var line := t + ['\n'];
    if s == "" {
      FirstLine(t, '\n', "");
      assert t + ['\n'] + "" == s + line;
    } else {
      BreakExists(s);
      FirstBreakInside(s);
      var n := FirstBreak(s);
      Split(s, n, line);
      FirstLine(s[..n], s[n], s[n + 1..]);
      FirstLine(s[..n], s[n], s[n + 1..] + line);
      LinesAppend(s[n + 1..], t);
    }
  }

  lemma TextHasNoBreaks(e: Entry, word: char -> bool)
    requires ValidName(e.name, word) && Sane(word) && Tidy(e)
    ensures NoBreaks(TextOf(e))
  {
    NameFacts(e.name, word);
  }

  lemma {:induction false} LinesOfJoined(texts: seq<string>, n: nat)
    requires n <= |texts| && forall i :: 0 <= i < |texts| ==> NoBreaks(texts[i])
    ensures Lines(Joined(texts, n)) == texts[..n]
  {
    if n > 0 {
      LinesOfJoined(texts, n - 1);
      LinesAppend(Joined(texts, n - 1), texts[n - 1]);
      assert Joined(texts, n) == Joined(texts, n - 1) + (texts[n - 1] + ['\n']);
    }
  }

  function Kept(entries: seq<Entry>, skip: set<string>): seq<Callee> {
    Somes(seq(|entries|, i requires 0 <= i < |entries| => KeptOf(entries[i], skip)))
  }

  lemma TextsComeBack(entries: seq<Entry>, word: char -> bool, skip: set<string>)
    requires Sane(word) && forall e <- entries :: WellFormed(e, word) && Tidy(e)
    ensures Somes(ReadEach(Texts(entries), skip)) == Kept(entries, skip)
  {
    var kept := seq(|entries|, i requires 0 <= i < |entries| => KeptOf(entries[i], skip));
    forall i | 0 <= i < |entries| ensures ReadEach(Texts(entries), skip)[i] == kept[i] {
      EntryComesBack(entries[i], word, skip);
    }
    assert ReadEach(Texts(entries), skip) == kept;
  }

  lemma NothingIsOneComment()
    ensures |NOTHING| == 9 && NOTHING[0] == '#' && Stripped(NOTHING) && NoBreaks(NOTHING)
  {
    assert NOTHING[8] == '\U{6570}' && !IsSpace('\U{6570}') && !IsSpace('#');
  }

  lemma NothingComesBack(skip: set<string>)
    ensures Somes(ReadEach(Lines(NOTHING + ['\n']), skip)) == []
  {
    var text := NOTHING;
    NothingIsOneComment();
    LinesAppend("", text);
    assert "" + (text + ['\n']) == text + ['\n'];
    StrippedStays(text);
    assert Lines(text + ['\n']) == [text];
    assert ReadLine(text, skip) == None;
    assert ReadEach([text], skip) == [None];
    assert Somes([None]) == Somes([]);
  }

  lemma {:induction false} EntriesAreWellFormed(raws: seq<string>, word: char -> bool)
    ensures forall e <- EntriesOf(raws, word) :: WellFormed(e, word)
  {
    if raws != [] {
      EntriesAreWellFormed(raws[..|raws| - 1], word);
      if Judge(raws[|raws| - 1], word).Accepted? { AcceptedIsWellFormed(raws[|raws| - 1], word); }
    }
  }

  /** Reading the written file gives back exactly the accepted entries in order, with "-" and "*" read as
      empty and the skipped names dropped. */
  lemma WriteReadRoundTrip(raws: seq<string>, word: char -> bool, skip: set<string>)
    requires Sane(word) && forall e <- EntriesOf(raws, word) :: Tidy(e)
    ensures var entries := EntriesOf(raws, word);
            Somes(ReadEach(Lines(FileOf(entries)), skip)) == Kept(entries, skip)
  {
    EntriesAreWellFormed(raws, word);
    var entries := EntriesOf(raws, word);
    if entries == [] {
      NothingComesBack(skip);
    } else {
      var texts := Texts(entries);
      forall i | 0 <= i < |texts| ensures NoBreaks(texts[i]) {
        assert entries[i] in entries;
        TextHasNoBreaks(entries[i], word);
      }
      LinesOfJoined(texts, |texts|);
      TextsComeBack(entries, word, skip);
      assert texts[..|texts|] == texts;
    }
  }

  /** A field that ends in `#` is cut short: the separator is found early. */
  lemma HashCutsShort(a: string, rest: string)
    requires EndsInHash(a)
    ensures |Fields(a + MARK + rest)[0]| < |a|
  {
    assert MarkAt(a + MARK + rest, |a| - 1);
  }

  lemma StripIsShorter(s: string)
    ensures |Strip(s)| <= |s|
  {
    var i, j := StripIsInside(s);
  }

  lemma HashInPath(e: Entry, word: char -> bool, skip: set<string>)
    requires WellFormed(e, word) && EndsInHash(e.path)
    ensures ReadLine(TextOf(e), skip) != Some(CalleeOf(e))
  {
    TextIsStripped(e, word);
    StrippedStays(TextOf(e));
    HashCutsShort(e.path, e.name + MARK + (e.line + MARK + e.params));
    StripIsShorter(Fields(TextOf(e))[0]);
  }

  lemma ThirdFieldShort(p: string, n: string, l: string, q: string)
    requires NoMark(p) && NoMark(n) && !EndsInHash(p) && !EndsInHash(n) && EndsInHash(l)
    ensures var fields := Fields(p + MARK + (n + MARK + (l + MARK + q))); |fields| > 2 && |fields[2]| < |l|
  {
    var rest := l + MARK + q;
    FieldCut(n, rest);
    FieldCut(p, n + MARK + rest);
    HashCutsShort(l, q);
  }

  lemma HashInLine(e: Entry, word: char -> bool, skip: set<string>)
    requires WellFormed(e, word) && Sane(word) && !EndsInHash(e.path) && EndsInHash(e.line)
    ensures ReadLine(TextOf(e), skip) != Some(CalleeOf(e))
  {
    TextIsStripped(e, word);
    StrippedStays(TextOf(e));
    NameFacts(e.name, word);
    ThirdFieldShort(e.path, e.name, e.line, e.params);
    StripIsShorter(Fields(TextOf(e))[2]);
  }

  /** An accepted entry reads back exactly when neither its path nor its line field ends in `#`. */
  lemma ComesBackExactly(e: Entry, word: char -> bool, skip: set<string>)
    requires WellFormed(e, word) && Sane(word) && e.name !in skip
    ensures ReadLine(TextOf(e), skip) == Some(CalleeOf(e)) <==> !EndsInHash(e.path) && !EndsInHash(e.line)
  {
    if EndsInHash(e.path) {
      HashInPath(e, word, skip);
    } else if EndsInHash(e.line) {
      HashInLine(e, word, skip);
    } else {
      EntryComesBack(e, word, skip);
    }
  }
}
