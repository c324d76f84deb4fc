/**
 Finding the end of a C function by counting braces outside comments and literals
 (tools/extract_func.py:21-79, 111-126).
 */
module BraceScan {

  // ---------------------------------------------------------------- the lexer, one character at a time

  /** Where a lexer stands: in code, after a `/` in code, in a line or block comment, after a `*` in a
      block comment, in a string or character literal, after a backslash in one. */
  datatype Mode = Code | Slash | Line | Block | Star | Quoted(close: char) | Escaped(close: char)

  datatype Lexer = Lexer(mode: Mode, depth: int)

  predicate InBlock(m: Mode) {
    m.Block? || m.Star?
  }

  predicate InLiteral(m: Mode) {
    m.Quoted? || m.Escaped?
  }

  function FromCode(c: char, depth: int): Lexer {
    if c == '/' then Lexer(Slash, depth)
    else if c == '"' || c == '\'' then Lexer(Quoted(c), depth)
    else if c == '{' then Lexer(Code, depth + 1)
    else if c == '}' then Lexer(Code, depth - 1)
    else Lexer(Code, depth)
  }

  function Next(l: Lexer, c: char): Lexer {
    match l.mode
    case Code => FromCode(c, l.depth)
    case Slash => if c == '*' then l.(mode := Block) else if c == '/' then l.(mode := Line) else FromCode(c, l.depth)
    case Line => if c == '\n' then l.(mode := Code) else l
    case Block => if c == '*' then l.(mode := Star) else l
    case Star => if c == '/' then l.(mode := Code) else if c == '*' then l else l.(mode := Block)
    case Quoted(q) => if c == '\\' then l.(mode := Escaped(q)) else if c == q then l.(mode := Code) else l
    case Escaped(q) => l.(mode := Quoted(q))
  }

  function Lex(l: Lexer, text: string): Lexer
    decreases |text|
  {
    if text == "" then l else Lex(Next(l, text[0]), text[1..])
  }

  // ---------------------------------------------------------------- one line

  function Opening(inBlock: bool, depth: int): Lexer {
    Lexer(if inBlock then Block else Code, depth)
  }

  /** What a line leaves to the next one: the depth, and whether a block comment is open. */
  function LineEnd(l: Lexer): (int, bool) {
    (l.depth, InBlock(l.mode))
  }

  function CountOf(line: string, depth: int, inBlock: bool): (int, bool) {
    LineEnd(Lex(Opening(inBlock, depth), line))
  }

  lemma LexTwo(l: Lexer, text: string)
    requires |text| >= 2
    ensures Lex(l, text) == Lex(Next(Next(l, text[0]), text[1]), text[2..])
  {
    assert text[1..][1..] == text[2..];
  }

  /** A `*` or `/` that starts no token is one more character of comment or code. */
  lemma LoneMark(l: Lexer, text: string)
    requires l.mode.Star? || l.mode.Slash?
    requires text != "" ==> text[0] != '/' && (l.mode.Slash? ==> text[0] != '*')
    ensures LineEnd(Lex(l, text)) == LineEnd(Lex(l.(mode := if l.mode.Star? then Block else Code), text))
  {
  }

  /** A line as it is read from a file: a line break, if any, at its end. */
  predicate OneLine(line: string) {
    forall i :: 0 <= i < |line| - 1 ==> line[i] != '\n'
  }

  lemma {:induction false} LineCommentSwallows(depth: int, text: string)
    requires OneLine(text)
    ensures LineEnd(Lex(Lexer(Line, depth), text)) == (depth, false)
    decreases |text|
  {
    if |text| > 1 { LineCommentSwallows(depth, text[1..]); }
    if |text| == 1 { assert text[1..] == ""; }
  }

  /** The inner loop over a literal: `i` is just past its opening quote; the result may lie past the end. */
  method SkipLiteral(line: string, start: nat, close: char, ghost depth: int) returns (i: nat)
    requires start <= |line| && close != '\\'
    ensures i >= start
    ensures LineEnd(Lex(Lexer(Quoted(close), depth), line[start..]))
         == if i <= |line| then LineEnd(Lex(Lexer(Code, depth), line[i..])) else (depth, false)
  {
    i := start;
    while i < |line|
      invariant start <= i <= |line| + 1
      invariant LineEnd(Lex(Lexer(Quoted(close), depth), line[start..]))
             == if i <= |line| then LineEnd(Lex(Lexer(Quoted(close), depth), line[i..])) else (depth, false)
      decreases |line| + 2 - i
    {
      if line[i] == '\\' {
        if i + 1 < |line| { LexTwo(Lexer(Quoted(close), depth), line[i..]); }
        i := i + 2;
        continue;
      }
      if line[i] == close { break; }
      i := i + 1;
    }
    i := i + 1;
  }

  /** `_count_braces` is the lexer, one line at a time. */
  method CountBraces(line: string, depth: int, inBlock: bool) returns (depth': int, inBlock': bool)
    requires OneLine(line)
    ensures (depth', inBlock') == CountOf(line, depth, inBlock)
  {
    depth', inBlock' := depth, inBlock;
    var i := 0;
    while i < |line|
      invariant 0 <= i
      invariant CountOf(line, depth, inBlock)
             == if i <= |line| then CountOf(line[i..], depth', inBlock') else (depth', inBlock')
    {
      var next := if i + 1 < |line| then line[i + 1] else ' ';
      if i + 1 < |line| { LexTwo(Opening(inBlock', depth'), line[i..]); }
      if inBlock' {
        if line[i] == '*' && next == '/' {
          inBlock' := false;
          i := i + 2;
        } else {
          if line[i] == '*' { LoneMark(Lexer(Star, depth'), line[i + 1..]); }
          i := i + 1;
        }
        continue;
      }
      var c := line[i];
      if c == '/' && next == '*' {
        inBlock' := true;
        i := i + 2;
        continue;
      }
      if c == '/' && next == '/' {
        LineCommentSwallows(depth', line[i + 2..]);
        break;
      }
      if c == '"' || c == '\'' {
        i := SkipLiteral(line, i + 1, c, depth');
        continue;
      }
      if c == '/' { LoneMark(Lexer(Slash, depth'), line[i + 1..]); }
      if c == '{' {
        depth' := depth' + 1;
      } else if c == '}' {
        depth' := depth' - 1;
      }
      i := i + 1;
    }
  }

  // ---------------------------------------------------------------- many lines

  /** What `extract_function` carries after lines `start..k`. */
  function After(lines: seq<string>, start: nat, k: nat): (int, bool)
    requires start <= k <= |lines|
    decreases k
  {
    if k == start then (0, false)
    else
      var (depth, inBlock) := After(lines, start, k - 1);
      CountOf(lines[k - 1], depth, inBlock)
  }

  function DepthAt(lines: seq<string>, start: nat, i: nat): int
    requires start <= i < |lines|
  {
    After(lines, start, i + 1).0
  }

  function Text(lines: seq<string>, start: nat, k: nat): string
    requires start <= k <= |lines|
    decreases k
  {
    if k == start then "" else Text(lines, start, k - 1) + lines[k - 1]
  }

  predicate Ended(line: string) {
    line != "" && line[|line| - 1] == '\n'
  }

  /** The lines of a file: all end with a line break, except perhaps the last. */
  predicate LinesOfFile(lines: seq<string>) {
    forall i :: 0 <= i < |lines| ==> OneLine(lines[i]) && (i < |lines| - 1 ==> Ended(lines[i]))
  }

  /** The lexer as the line scan restarts it before line `k`. */
  function Restart(lines: seq<string>, start: nat, k: nat): Lexer
    requires start <= k <= |lines|
  {
    Opening(After(lines, start, k).1, After(lines, start, k).0)
  }

  /** Every string and character literal ends on the line it starts on. */
  predicate LiteralsClose(lines: seq<string>, start: nat, k: nat)
    requires start <= k <= |lines|
  {
    forall i :: start <= i < k ==> !InLiteral(Lex(Restart(lines, start, i), lines[i]).mode)
  }

  lemma {:induction false} LexAppend(l: Lexer, a: string, b: string)
    ensures Lex(l, a + b) == Lex(Lex(l, a), b)
    decreases |a|
  {
    if a == "" {
      assert a + b == b;
    } else {
      assert (a + b)[1..] == a[1..] + b;
      LexAppend(Next(l, a[0]), a[1..], b);
    }
  }

  /** A line break takes the lexer back to plain code or plain comment, unless a literal is open. */
  lemma BreakSettles(l: Lexer, line: string)
    requires Ended(line) && !InLiteral(Lex(l, line).mode)
    ensures Lex(l, line) == Opening(LineEnd(Lex(l, line)).1, LineEnd(Lex(l, line)).0)
  {
    var n := |line| - 1;
    assert line == line[..n] + ['\n'];
    LexAppend(l, line[..n], ['\n']);
    assert ['\n'][1..] == "";
    assert Lex(l, line) == Next(Lex(l, line[..n]), '\n');
  }

  /** Scanning line by line is scanning the whole text, when every literal closes on its own line. */
  lemma {:induction false} LineByLineIsWhole(lines: seq<string>, start: nat, k: nat)
    requires start <= k <= |lines| && LinesOfFile(lines) && LiteralsClose(lines, start, k)
    ensures LineEnd(Lex(Lexer(Code, 0), Text(lines, start, k))) == After(lines, start, k)
    ensures k < |lines| ==> Lex(Lexer(Code, 0), Text(lines, start, k)) == Restart(lines, start, k)
    decreases k
  {
    if k > start {
      LineByLineIsWhole(lines, start, k - 1);
      LexAppend(Lexer(Code, 0), Text(lines, start, k - 1), lines[k - 1]);
      assert !InLiteral(Lex(Restart(lines, start, k - 1), lines[k - 1]).mode);
      if k < |lines| { BreakSettles(Restart(lines, start, k - 1), lines[k - 1]); }
    }
  }

  /** They stay together past line `k` exactly when no literal is open at its end; an open one leaves the
      whole text inside it while the line scan goes on with code. */
  lemma PartAtOpenLiteral(lines: seq<string>, start: nat, k: nat)
    requires start <= k < |lines| - 1 && LinesOfFile(lines) && LiteralsClose(lines, start, k)
    ensures Lex(Lexer(Code, 0), Text(lines, start, k + 1)) == Restart(lines, start, k + 1)
       <==> !InLiteral(Lex(Restart(lines, start, k), lines[k]).mode)
  {
    LineByLineIsWhole(lines, start, k);
    LexAppend(Lexer(Code, 0), Text(lines, start, k), lines[k]);
    if !InLiteral(Lex(Restart(lines, start, k), lines[k]).mode) { BreakSettles(Restart(lines, start, k), lines[k]); }
  }

  /** Line `i` ends the body: the depth is zero at its end, after having been positive at the end of
      some line. */
  predicate Closes(lines: seq<string>, start: nat, i: nat)
    requires start <= i < |lines|
  {
    DepthAt(lines, start, i) == 0 && exists j: nat :: start <= j < i && DepthAt(lines, start, j) > 0
  }

  /** What `extract_function` promises of `last`: the least closing line, or the start line alone. */
  predicate Extracts(lines: seq<string>, start: nat, last: nat)
    requires start < |lines|
  {
    && start < last <= |lines|
    && (forall i: nat :: start <= i < last - 1 ==> !Closes(lines, start, i))
    && (Closes(lines, start, last - 1)
        || (last == start + 1 && forall i: nat :: start <= i < |lines| ==> !Closes(lines, start, i)))
  }

  method ExtractFunction(lines: seq<string>, start: nat) returns (body: seq<string>, first: nat, last: nat)
    requires start < |lines| && forall i :: 0 <= i < |lines| ==> OneLine(lines[i])
    ensures Extracts(lines, start, last) && first == start + 1 && body == lines[start..last]
  {
    var depth, foundOpen, inBlock := 0, false, false;
    for i := start to |lines|
      invariant (depth, inBlock) == After(lines, start, i)
      invariant foundOpen <==> exists j: nat :: start <= j < i && DepthAt(lines, start, j) > 0
      invariant forall j: nat :: start <= j < i ==> !Closes(lines, start, j)
    {
      depth, inBlock := CountBraces(lines[i], depth, inBlock);
      assert depth == DepthAt(lines, start, i);
      if !foundOpen && depth > 0 { foundOpen := true; }
      if foundOpen && depth == 0 {
        return lines[start..i + 1], start + 1, i + 1;
      }
    }
    return lines[start..start + 1], start + 1, start + 1;
  }

  // ---------------------------------------------------------------- the matching brace

  /** No brace opened yet; the first one is open; its matching brace has been seen. `base` is the depth just
      before the first opening brace: below zero when unmatched closing braces precede it. */
  datatype Balance = Waiting | Open(base: int) | Matched(base: int)

  /** One character, which takes the depth from `before` to `after`. */
  function Watch(b: Balance, before: int, after: int): Balance {
    match b
    case Waiting => if after > before then Open(before) else Waiting
    case Open(base) => if after == base then Matched(base) else b
    case Matched(_) => b
  }

  /** The balance after every single character of a text. */
  function Watching(l: Lexer, b: Balance, text: string): Balance
    decreases |text|
  {
    if text == "" then b else Watching(Next(l, text[0]), Watch(b, l.depth, Next(l, text[0]).depth), text[1..])
  }

  function Watched(lines: seq<string>, start: nat, k: nat): Balance
    requires start <= k <= |lines|
    decreases k
  {
    if k == start then Waiting
    else Watching(Restart(lines, start, k - 1), Watched(lines, start, k - 1), lines[k - 1])
  }

  /** Line `m` holds the brace that matches the first one opened from `start` on, before which the depth
      was `base`. */
  predicate MatchLine(lines: seq<string>, start: nat, m: nat, base: int)
    requires start <= m < |lines|
  {
    !Watched(lines, start, m).Matched? && Watched(lines, start, m + 1) == Matched(base)
  }

  lemma {:induction false} WatchingAppend(l: Lexer, b: Balance, x: string, y: string)
    ensures Watching(l, b, x + y) == Watching(Lex(l, x), Watching(l, b, x), y)
    decreases |x|
  {
    if x == "" {
      assert x + y == y;
    } else {
      assert (x + y)[1..] == x[1..] + y;
      WatchingAppend(Next(l, x[0]), Watch(b, l.depth, Next(l, x[0]).depth), x[1..], y);
    }
  }

  /** Line by line or over the whole text, the matching brace is the same one, as long as every literal
      before its line closes on its own line. */
  lemma {:induction false} WatchedIsWhole(lines: seq<string>, start: nat, k: nat)
    requires start < k <= |lines| && LinesOfFile(lines) && LiteralsClose(lines, start, k - 1)
    ensures Watched(lines, start, k) == Watching(Lexer(Code, 0), Waiting, Text(lines, start, k))
    decreases k
  {
    if k - 1 > start { WatchedIsWhole(lines, start, k - 1); } else { WatchedAtStart(lines, start); }
    RestartIsWhole(lines, start, k - 1);
    WatchedNextLine(lines, start, k - 1);
  }

  lemma WatchedAtStart(lines: seq<string>, start: nat)
    requires start <= |lines|
    ensures Watched(lines, start, start) == Watching(Lexer(Code, 0), Waiting, Text(lines, start, start))
  {
  }

  lemma RestartIsWhole(lines: seq<string>, start: nat, k: nat)
    requires start <= k < |lines| && LinesOfFile(lines) && LiteralsClose(lines, start, k)
    ensures Lex(Lexer(Code, 0), Text(lines, start, k)) == Restart(lines, start, k)
  {
    LineByLineIsWhole(lines, start, k);
  }

  lemma WatchedNextLine(lines: seq<string>, start: nat, k: nat)
    requires start <= k < |lines| && Lex(Lexer(Code, 0), Text(lines, start, k)) == Restart(lines, start, k)
    requires Watched(lines, start, k) == Watching(Lexer(Code, 0), Waiting, Text(lines, start, k))
    ensures Watched(lines, start, k + 1) == Watching(Lexer(Code, 0), Waiting, Text(lines, start, k + 1))
  {
    WatchingAppend(Lexer(Code, 0), Waiting, Text(lines, start, k), lines[k]);
  }

  /** Depth moves by one at a time, so it cannot pass the base without the balance noticing. */
  predicate Agrees(b: Balance, depth: int) {
    match b
    case Waiting => depth <= 0
    case Open(base) => base <= 0 && base < depth
    case Matched(base) => base <= 0
  }

  /** What was opened stays opened on the same base, and what was matched stays matched. */
  predicate GoesOn(b: Balance, b': Balance) {
    && (!b.Waiting? ==> !b'.Waiting? && b'.base == b.base)
    && (b.Matched? ==> b'.Matched?)
  }

  lemma {:induction false} WatchingAgrees(l: Lexer, b: Balance, text: string)
    requires Agrees(b, l.depth)
    ensures Agrees(Watching(l, b, text), Lex(l, text).depth) && GoesOn(b, Watching(l, b, text))
    decreases |text|
  {
    if text != "" { WatchingAgrees(Next(l, text[0]), Watch(b, l.depth, Next(l, text[0]).depth), text[1..]); }
  }

  lemma {:induction false} WatchedAgrees(lines: seq<string>, start: nat, k: nat)
    requires start <= k <= |lines|
    ensures Agrees(Watched(lines, start, k), After(lines, start, k).0)
    decreases k
  {
    if k > start {
      WatchedAgrees(lines, start, k - 1);
      WatchingAgrees(Restart(lines, start, k - 1), Watched(lines, start, k - 1), lines[k - 1]);
    }
  }

  lemma {:induction false} WatchedGoesOn(lines: seq<string>, start: nat, j: nat, k: nat)
    requires start <= j <= k <= |lines|
    ensures GoesOn(Watched(lines, start, j), Watched(lines, start, k))
    decreases k
  {
    if j < k {
      WatchedGoesOn(lines, start, j, k - 1);
      WatchedAgrees(lines, start, k - 1);
      WatchingAgrees(Restart(lines, start, k - 1), Watched(lines, start, k - 1), lines[k - 1]);
    }
  }

  /** A line that closes comes after the first brace was opened; and after it was matched, unless it was
      opened below depth zero. */
  lemma ClosesAfterMatch(lines: seq<string>, start: nat, i: nat)
    requires start <= i < |lines| && Closes(lines, start, i)
    ensures start < i && !Watched(lines, start, i + 1).Waiting?
    ensures Watched(lines, start, i + 1).base == 0 ==> Watched(lines, start, i + 1).Matched?
  {
    var j: nat :| start <= j < i && DepthAt(lines, start, j) > 0;
    WatchedAgrees(lines, start, j + 1);
    WatchedGoesOn(lines, start, j + 1, i + 1);
    WatchedAgrees(lines, start, i + 1);
  }

  lemma NoneClosesBefore(lines: seq<string>, start: nat, m: nat)
    requires start <= m < |lines| && MatchLine(lines, start, m, 0)
    ensures forall i: nat :: start <= i < m ==> !Closes(lines, start, i)
  {
    forall i: nat | start <= i < m ensures !Closes(lines, start, i) {
      if Closes(lines, start, i) {
        ClosesAfterMatch(lines, start, i);
        WatchedGoesOn(lines, start, i + 1, m);
        WatchedGoesOn(lines, start, i + 1, m + 1);
      }
    }
  }

  /** When the extracted text ends with the line of the matching brace, no closing brace standing unmatched
      before the first opening one. A body that spans lines needs both: an end-of-line depth that was
      positive, and nothing else opened on the line of the matching brace. A body on the start line alone is
      right only when no later line closes anything. */
  lemma ExtractionEndsAtMatch(lines: seq<string>, start: nat, last: nat, m: nat)
    requires start <= m < |lines| && Extracts(lines, start, last) && MatchLine(lines, start, m, 0)
    ensures last == m + 1 <==>
            if m > start
            then DepthAt(lines, start, m) == 0 && exists j: nat :: start <= j < m && DepthAt(lines, start, j) > 0
            else forall i: nat :: start < i < |lines| ==> !Closes(lines, start, i)
  {
    NoneClosesBefore(lines, start, m);
    assert !Closes(lines, start, start);
    if m > start {
      assert Closes(lines, start, m) <==>
             DepthAt(lines, start, m) == 0 && exists j: nat :: start <= j < m && DepthAt(lines, start, j) > 0;
    } else {
      assert last - 1 > start ==> Closes(lines, start, last - 1);
    }
  }

  /** Nor does it then end before that line, unless it is the start line alone. */
  lemma ExtractionReachesMatch(lines: seq<string>, start: nat, last: nat, m: nat)
    requires start <= m < |lines| && Extracts(lines, start, last) && MatchLine(lines, start, m, 0)
    ensures last > m || (last == start + 1 && forall i: nat :: start <= i < |lines| ==> !Closes(lines, start, i))
  {
    NoneClosesBefore(lines, start, m);
  }

  /** After unmatched closing braces, the extracted text ends inside the body exactly when some line before
      the matching brace ends at depth zero after a line that ended deeper; where it ends the first brace is
      still open, with all the unmatched braces' worth of nesting. It ends with the line of the matching brace
      only if that line opens enough to bring the depth back up to zero. */
  lemma LeadingCloseMovesEnd(lines: seq<string>, start: nat, last: nat, m: nat, base: int)
    requires start <= m < |lines| && Extracts(lines, start, last) && MatchLine(lines, start, m, base) && base < 0
    ensures start + 1 < last <= m <==> exists i: nat :: start < i < m && Closes(lines, start, i)
    ensures start + 1 < last <= m ==> Watched(lines, start, last) == Open(base) && DepthAt(lines, start, last - 1) == 0
    ensures last == m + 1 <==>
            if m > start
            then Closes(lines, start, m) && forall i: nat :: start < i < m ==> !Closes(lines, start, i)
            else forall i: nat :: start < i < |lines| ==> !Closes(lines, start, i)
  {
    assert !Closes(lines, start, start);
    if start + 1 < last <= m {
      ClosesAfterMatch(lines, start, last - 1);
      WatchedGoesOn(lines, start, last, m);
      WatchedGoesOn(lines, start, last, m + 1);
    }
  }

  /** A matching brace with nothing opened after it on its line is then never where the text ends, unless it
      is on the start line and nothing closes. */
  lemma LeadingCloseMissesMatch(lines: seq<string>, start: nat, last: nat, m: nat, base: int)
    requires start <= m < |lines| && Extracts(lines, start, last) && MatchLine(lines, start, m, base)
    requires base < 0 && DepthAt(lines, start, m) <= base
    ensures last == m + 1 ==> m == start && forall i: nat :: start < i < |lines| ==> !Closes(lines, start, i)
  {
    LeadingCloseMovesEnd(lines, start, last, m, base);
  }

  /** Without an opening brace, as for a declaration, or when the first one is never matched, it is the start
      line alone; again if no closing brace stands unmatched before the first opening one. */
  lemma NoMatchIsStartLine(lines: seq<string>, start: nat, last: nat)
    requires start < |lines| && Extracts(lines, start, last)
    requires var end := Watched(lines, start, |lines|); end.Waiting? || end == Open(0)
    ensures last == start + 1
  {
    if Closes(lines, start, last - 1) {
      ClosesAfterMatch(lines, start, last - 1);
      WatchedGoesOn(lines, start, last, |lines|);
    }
  }

  // ---------------------------------------------------------------- functions it misses

  /** No character of the text means anything to the lexer in code. */
  predicate Plain(text: string) {
    forall c <- text :: c != '/' && c != '"' && c != '\'' && c != '{' && c != '}'
  }

  lemma {:induction false} PlainPasses(depth: int, b: Balance, text: string)
    requires Plain(text) && Watch(b, depth, depth) == b
    ensures Lex(Lexer(Code, depth), text) == Lexer(Code, depth) && Watching(Lexer(Code, depth), b, text) == b
    decreases |text|
  {
    if text != "" {
      assert text[0] in text && forall c <- text[1..] :: c in text;
      assert Next(Lexer(Code, depth), text[0]) == Lexer(Code, depth);
      PlainPasses(depth, b, text[1..]);
    }
  }

  function Brace(b: char): int {
    if b == '{' then 1 else -1
  }

  /** Plain text and one brace. */
  lemma OneBrace(depth: int, b: Balance, pre: string, brace: char, rest: string)
    requires Plain(pre) && (brace == '{' || brace == '}') && Watch(b, depth, depth) == b
    ensures Lex(Lexer(Code, depth), pre + [brace] + rest) == Lex(Lexer(Code, depth + Brace(brace)), rest)
    ensures Watching(Lexer(Code, depth), b, pre + [brace] + rest)
         == Watching(Lexer(Code, depth + Brace(brace)), Watch(b, depth, depth + Brace(brace)), rest)
  {
    PlainPasses(depth, b, pre);
    assert pre + [brace] + rest == pre + ([brace] + rest);
    assert ([brace] + rest)[1..] == rest;
    LexAppend(Lexer(Code, depth), pre, [brace] + rest);
    WatchingAppend(Lexer(Code, depth), b, pre, [brace] + rest);
  }

  lemma LineAt(lines: seq<string>, start: nat, k: nat, depth: int, b: Balance, depth': int, b': Balance)
    requires start <= k < |lines| && After(lines, start, k) == (depth, false) && Watched(lines, start, k) == b
    requires Lex(Lexer(Code, depth), lines[k]) == Lexer(Code, depth') && Watching(Lexer(Code, depth), b, lines[k]) == b'
    ensures After(lines, start, k + 1) == (depth', false) && Watched(lines, start, k + 1) == b'
    ensures DepthAt(lines, start, k) == depth'
  {
  }

  /** A function written on one line: its depth is never positive at an end of line, so the text runs on
      to the end of the next function. */
  lemma OneLineFunctionSwallowsNext(name: string, next: string, last: nat)
    requires Plain(name) && Plain(next)
    requires var lines := [name + "{" + "}\n", next + "{" + "\n", "}\n"]; Extracts(lines, 0, last)
    ensures MatchLine([name + "{" + "}\n", next + "{" + "\n", "}\n"], 0, 0, 0) && last == 3
  {
    var lines := [name + "{" + "}\n", next + "{" + "\n", "}\n"];
    OneBrace(0, Waiting, name, '{', "}\n");
    OneBrace(1, Open(0), "", '}', "\n");
    OneBrace(0, Matched(0), next, '{', "\n");
    OneBrace(1, Matched(0), "", '}', "\n");
    assert "" + ['}'] + "\n" == "}\n";
    PlainPasses(0, Matched(0), "\n");
    PlainPasses(1, Matched(0), "\n");
    LineAt(lines, 0, 0, 0, Waiting, 0, Matched(0));
    LineAt(lines, 0, 1, 0, Matched(0), 1, Matched(0));
    LineAt(lines, 0, 2, 1, Matched(0), 0, Matched(0));
    assert Closes(lines, 0, 2) by { assert DepthAt(lines, 0, 1) > 0; }
    assert !Closes(lines, 0, 0) && !Closes(lines, 0, 1);
  }

  /** A function whose closing brace shares its line with the next one's opening brace. */
  lemma NextOnClosingLineIsSwallowed(name: string, next: string, last: nat)
    requires Plain(name) && Plain(next)
    requires var lines := [name + "{" + "\n", "}" + (next + "{" + "\n"), "}\n"]; Extracts(lines, 0, last)
    ensures MatchLine([name + "{" + "\n", "}" + (next + "{" + "\n"), "}\n"], 0, 1, 0) && last == 3
  {
    var lines := [name + "{" + "\n", "}" + (next + "{" + "\n"), "}\n"];
    OneBrace(0, Waiting, name, '{', "\n");
    OneBrace(1, Open(0), "", '}', next + "{" + "\n");
    OneBrace(0, Matched(0), next, '{', "\n");
    OneBrace(1, Matched(0), "", '}', "\n");
    assert "" + ['}'] + "\n" == "}\n" && "" + ['}'] + (next + "{" + "\n") == lines[1];
    PlainPasses(1, Open(0), "\n");
    PlainPasses(1, Matched(0), "\n");
    PlainPasses(0, Matched(0), "\n");
    LineAt(lines, 0, 0, 0, Waiting, 1, Open(0));
    LineAt(lines, 0, 1, 1, Open(0), 1, Matched(0));
    LineAt(lines, 0, 2, 1, Matched(0), 0, Matched(0));
    assert Closes(lines, 0, 2) by { assert DepthAt(lines, 0, 1) > 0; }
    assert !Closes(lines, 0, 0) && !Closes(lines, 0, 1);
  }

  /** A body after an unmatched closing brace, as in an `else` branch: the text is cut off inside it, at the
      end of its first inner block. */
  lemma LeadingCloseCutsBody(name: string, inner: string, last: nat)
    requires Plain(name) && Plain(inner)
    requires var lines := ["}" + (name + "{" + "\n"), inner + "{" + "\n", "}\n", "}\n"]; Extracts(lines, 0, last)
    ensures MatchLine(["}" + (name + "{" + "\n"), inner + "{" + "\n", "}\n", "}\n"], 0, 3, -1) && last == 3
  {
    var lines := ["}" + (name + "{" + "\n"), inner + "{" + "\n", "}\n", "}\n"];
    OneBrace(0, Waiting, "", '}', name + "{" + "\n");
    OneBrace(-1, Waiting, name, '{', "\n");
    OneBrace(0, Open(-1), inner, '{', "\n");
    OneBrace(1, Open(-1), "", '}', "\n");
    OneBrace(0, Open(-1), "", '}', "\n");
    assert "" + ['}'] + "\n" == "}\n" && "" + ['}'] + (name + "{" + "\n") == lines[0];
    PlainPasses(0, Open(-1), "\n");
    PlainPasses(1, Open(-1), "\n");
    PlainPasses(-1, Matched(-1), "\n");
    LineAt(lines, 0, 0, 0, Waiting, 0, Open(-1));
    LineAt(lines, 0, 1, 0, Open(-1), 1, Open(-1));
    LineAt(lines, 0, 2, 1, Open(-1), 0, Open(-1));
    LineAt(lines, 0, 3, 0, Open(-1), -1, Matched(-1));
    assert Closes(lines, 0, 2) by { assert DepthAt(lines, 0, 1) > 0; }
    assert !Closes(lines, 0, 0) && !Closes(lines, 0, 1);
  }

  /** Without an inner block the depth is never positive, and only the start line is left of the body. */
  lemma LeadingCloseLosesBody(name: string, last: nat)
    requires Plain(name)
    requires var lines := ["}" + (name + "{" + "\n"), "}\n"]; Extracts(lines, 0, last)
    ensures MatchLine(["}" + (name + "{" + "\n"), "}\n"], 0, 1, -1) && last == 1
  {
    var lines := ["}" + (name + "{" + "\n"), "}\n"];
    OneBrace(0, Waiting, "", '}', name + "{" + "\n");
    OneBrace(-1, Waiting, name, '{', "\n");
    OneBrace(0, Open(-1), "", '}', "\n");
    assert "" + ['}'] + "\n" == "}\n" && "" + ['}'] + (name + "{" + "\n") == lines[0];
    PlainPasses(0, Open(-1), "\n");
    PlainPasses(-1, Matched(-1), "\n");
    LineAt(lines, 0, 0, 0, Waiting, 0, Open(-1));
    LineAt(lines, 0, 1, 0, Open(-1), -1, Matched(-1));
    assert !Closes(lines, 0, 0) && !Closes(lines, 0, 1);
  }
}
