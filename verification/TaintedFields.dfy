/**
 What one line of the follow-up list is, said of the fields it is made of: which lines the writer takes, refuses and
 ignores, and what the reader makes of any line (tools/gen_tainted_list.py:56-94, app/parsers.py:378-400).
 */
module TaintedFields {
  import opened Prelude
  import opened TaintedList

  // ---------------------------------------------------------------- cutting

  /** `strip`: what is left when the white space at both ends is gone. */
  lemma StripExactly(a: string, s: string, b: string)
    requires (forall c <- a :: IsSpace(c)) && (forall c <- b :: IsSpace(c)) && Stripped(s)
    ensures Strip(a + s + b) == s
  {
    StripLeftPasses(a, s + b);
    assert a + s + b == a + (s + b);
    if s == "" {
      StripLeftPasses(b, "");
      assert s + b == b + "" && StripLeft("") == "";
    } else {
      assert StripLeft(s + b) == s + b;
      StripRightPasses(s, b);
    }
  }

  lemma {:induction false} StripLeftPasses(a: string, rest: string)
    requires forall c <- a :: IsSpace(c)
    ensures StripLeft(a + rest) == StripLeft(rest)
    decreases |a|
  {
    if a == "" {
      assert a + rest == rest;
    } else {
      assert (a + rest)[1..] == a[1..] + rest && a[0] in a;
      StripLeftPasses(a[1..], rest);
    }
  }

  lemma {:induction false} StripRightPasses(s: string, b: string)
    requires (forall c <- b :: IsSpace(c)) && s != "" && !IsSpace(s[|s| - 1])
    ensures StripRight(s + b) == s
    decreases |b|
  {
    if b == "" {
      assert s + b == s;
    } else {
      assert b[|b| - 1] in b;
      assert (s + b)[..|s + b| - 1] == s + b[..|b| - 1];
      StripRightPasses(s, b[..|b| - 1]);
    }
  }

  /** A name is cut at its first parenthesis. */
  lemma {:induction false} CutAtFirstParen(a: string, rest: string)
    requires '(' !in a
    ensures CutAtParen(a) == a && CutAtParen(a + "(" + rest) == a
    decreases |a|
  {
    if a == "" {
      assert a + "(" + rest == "(" + rest;
    } else {
      assert (a + "(" + rest)[1..] == a[1..] + "(" + rest;
      CutAtFirstParen(a[1..], rest);
    }
  }

  /** Fields that can be told apart: no separator in any, and no hash at the end of one that another follows. */
  predicate Separable(fields: seq<string>) {
    && (forall f <- fields :: NoMark(f))
    && forall i :: 0 <= i < |fields| - 1 ==> !EndsInHash(fields[i])
  }

  function JoinMarks(fields: seq<string>): string {
    if fields == [] then "" else if |fields| == 1 then fields[0] else fields[0] + MARK + JoinMarks(fields[1..])
  }

  /** `split("###")` undoes joining, for any number of such fields. */
  lemma {:induction false} SplitUndoesJoin(fields: seq<string>)
    requires Separable(fields) && fields != []
    ensures Fields(JoinMarks(fields)) == fields
    decreases |fields|
  {
    assert fields[0] in fields;
    if |fields| == 1 {
      LastField(fields[0]);
    } else {
      var rest := fields[1..];
      assert forall f <- rest :: f in fields;
      forall i | 0 <= i < |rest| - 1 ensures !EndsInHash(rest[i]) { assert rest[i] == fields[i + 1]; }
      SplitUndoesJoin(rest);
      assert !EndsInHash(fields[0]);
      FieldBefore(fields[0], JoinMarks(rest), rest);
      assert [fields[0]] + rest == fields;
    }
  }

  // ---------------------------------------------------------------- what the writer makes of a line

  predicate IsName(name: string, word: char -> bool) {
    && name != "" && ('A' <= name[0] <= 'Z' || 'a' <= name[0] <= 'z' || name[0] == '_')
    && forall i :: 1 <= i < |name| ==> word(name[i]) || name[i] in {':', '<', '>', '~', '*', '&'}
  }

  /** A line number as it is written: an "L" before it, unless it is blank, a dash, or has one. */
  predicate IsLineField(given: string, written: string) {
    if given == "" || given == "-" || given[0] == 'L' then written == given else written == "L" + given
  }

  function Trim(fields: seq<string>): (trimmed: seq<string>)
    ensures |trimmed| == |fields| && forall i :: 0 <= i < |fields| ==> trimmed[i] == Strip(fields[i])
  {
    seq(|fields|, i requires 0 <= i < |fields| => Strip(fields[i]))
  }

  /** For every line made of fields: a comment is ignored; anything but four fields is refused; a "@taintvar" line
      gives a variable, if it is named; any other line gives an entry exactly when its name, cut at the first
      parenthesis, is a name. */
  lemma JudgeExactly(fields: seq<string>, word: char -> bool)
    requires fields != [] && Separable(fields) && JoinMarks(fields) != "" && Stripped(JoinMarks(fields))
    ensures var (v, p) := (Judge(JoinMarks(fields), word), Trim(fields));
      if JoinMarks(fields)[0] == '#' then v == Ignored
      else if |fields| != 4 then v == Refused
      else if p[0] == "@taintvar" then
        if p[1] == "" then v == Refused
        else v.Variable? && v.tv.name == p[1] && v.tv.source == (if p[3] == "" then "-" else p[3])
             && (if p[2] == "" then v.tv.line == "-" else IsLineField(p[2], v.tv.line))
      else if IsName(CleanName(p[1]), word)
      then v.Accepted? && v.entry.path == p[0] && v.entry.name == CleanName(p[1]) && v.entry.params == p[3]
           && IsLineField(p[2], v.entry.line)
      else v == Refused
  {
    var line := JoinMarks(fields);
    StrippedStays(line);
    SplitUndoesJoin(fields);
    NameExactly(CleanName(Trim(fields)[if |fields| > 1 then 1 else 0]), word);
  }

  lemma NameExactly(name: string, word: char -> bool)
    ensures ValidName(name, word) <==> IsName(name, word)
  {
  }

  /** A blank line is ignored. */
  lemma BlankIsIgnored(blank: string, word: char -> bool)
    requires forall c <- blank :: IsSpace(c)
    ensures Judge(blank, word) == Ignored
  {
    StripExactly(blank, "", "");
    assert blank + "" + "" == blank;
  }

  // ---------------------------------------------------------------- what the reader makes of a line

  /** For every line made of fields: nothing for a comment, for a single field, a "@taintvar" line, or a blank or skipped
      name; otherwise the callee named up to the first parenthesis, a dash for no file, a star for no parameters. */
  lemma ReadExactly(fields: seq<string>, skip: set<string>)
    requires fields != [] && Separable(fields) && JoinMarks(fields) != "" && Stripped(JoinMarks(fields))
    ensures var (c, p) := (ReadLine(JoinMarks(fields), skip), Trim(fields));
      if JoinMarks(fields)[0] == '#' || |fields| == 1 || p[0] == "@taintvar" || p[1] == "" || p[1] in skip then c == None
      else
        && c.Some? && c.value.name == CleanName(p[1])
        && c.value.file == (if p[0] == "-" then "" else p[0])
        && c.value.line == (if |fields| == 2 then "" else p[2])
        && c.value.params == (if |fields| <= 3 || p[3] == "*" then "" else p[3])
  {
    StrippedStays(JoinMarks(fields));
    SplitUndoesJoin(fields);
  }

  lemma BlankIsNotRead(blank: string, skip: set<string>)
    requires forall c <- blank :: IsSpace(c)
    ensures ReadLine(blank, skip) == None
  {
    StripExactly(blank, "", "");
    assert blank + "" + "" == blank;
  }

  // ---------------------------------------------------------------- the counts

  function Refusals(raws: seq<string>, n: nat, word: char -> bool): set<nat>
    requires n <= |raws|
  {
    set i: nat | i < n && Judge(raws[i], word).Refused?
  }

  lemma OneMoreRefusal(raws: seq<string>, n: nat, word: char -> bool)
    requires n < |raws|
    ensures |Refusals(raws, n + 1, word)| == |Refusals(raws, n, word)| + if Judge(raws[n], word).Refused? then 1 else 0
  {
    var before := Refusals(raws, n, word);
    assert n !in before;
    assert Refusals(raws, n + 1, word) == before + if Judge(raws[n], word).Refused? then {n} else {};
  }

  lemma RefusedNext(raws: seq<string>, n: nat, word: char -> bool)
    requires n < |raws|
    ensures RefusedOf(raws[..n + 1], word) == RefusedOf(raws[..n], word) + if Judge(raws[n], word).Refused? then 1 else 0
  {
    var more := raws[..n + 1];
    assert more[..n] == raws[..n] && more[n] == raws[n];
  }

  /** The errors are the refused lines, counted one by one. */
  lemma {:induction false} CountsRefused(raws: seq<string>, n: nat, word: char -> bool)
    requires n <= |raws|
    ensures RefusedOf(raws[..n], word) == |Refusals(raws, n, word)|
  {
    if n == 0 {
      assert Refusals(raws, 0, word) == {};
    } else {
      CountsRefused(raws, n - 1, word);
      OneMoreRefusal(raws, n - 1, word);
      RefusedNext(raws, n - 1, word);
    }
  }
}
