/**
 What the brace counter counts, said without its lexer: C text is a sequence of tokens, and only a brace that is a
 token of its own, not one inside a comment, a string or a character literal, changes the depth
 (tools/extract_func.py:21-79).
 */
module BraceTokens {
  import opened BraceScan

  /** One character of a literal, as written. */
  datatype Item = Same(c: char) | Backslashed(c: char)

  datatype Token =
    | Mark(c: char)                                 // any other character of code
    | Literal(quote: char, items: seq<Item>)        // "..." or '...'
    | LineComment(text: string)                     // up to and including its line break
    | BlockComment(text: string)

  function PrintItems(items: seq<Item>): string {
    if items == [] then ""
    else (match items[0] case Same(c) => [c] case Backslashed(c) => ['\\', c]) + PrintItems(items[1..])
  }

  function PrintToken(t: Token): string {
    match t
    case Mark(c) => [c]
    case Literal(q, items) => [q] + PrintItems(items) + [q]
    case LineComment(text) => "//" + text + "\n"
    case BlockComment(text) => "/*" + text + "*/"
  }

  function Print(ts: seq<Token>): string {
    if ts == [] then "" else PrintToken(ts[0]) + Print(ts[1..])
  }

  predicate TokenOk(t: Token) {
    match t
    case Mark(c) => c != '"' && c != '\''
    case Literal(q, items) =>
      (q == '"' || q == '\'') && forall i <- items :: i.Same? ==> i.c != q && i.c != '\\'
    case LineComment(text) => '\n' !in text
    case BlockComment(text) => forall i :: 0 <= i < |text| - 1 ==> !(text[i] == '*' && text[i + 1] == '/')
  }

  /** A slash of its own is not followed by what would make it the start of a comment. */
  predicate Separate(t: Token, next: Token) {
    t == Mark('/') ==> !next.LineComment? && !next.BlockComment? && next != Mark('/') && next != Mark('*')
  }

  predicate Valid(ts: seq<Token>) {
    && (forall t <- ts :: TokenOk(t))
    && forall i :: 0 <= i < |ts| - 1 ==> Separate(ts[i], ts[i + 1])
  }

  /** The opening braces less the closing ones, among the tokens. */
  function Net(ts: seq<Token>): int {
    if ts == [] then 0 else (if ts[0] == Mark('{') then 1 else if ts[0] == Mark('}') then -1 else 0) + Net(ts[1..])
  }

  // ---------------------------------------------------------------- one token

  lemma {:induction false} LiteralPasses(q: char, items: seq<Item>, depth: int)
    requires TokenOk(Literal(q, items))
    ensures Lex(Lexer(Quoted(q), depth), PrintItems(items) + [q]) == Lexer(Code, depth)
  {
    if items == [] {
      assert [] + [q] == [q] && [q][1..] == "";
    } else {
      assert forall i <- items[1..] :: i in items;
      LiteralPasses(q, items[1..], depth);
      var rest := PrintItems(items[1..]) + [q];
      assert items[0] in items;
      match items[0] {
        case Same(c) =>
          assert PrintItems(items) + [q] == [c] + rest && ([c] + rest)[1..] == rest;
        case Backslashed(c) =>
          assert PrintItems(items) + [q] == ['\\', c] + rest && (['\\', c] + rest)[2..] == rest;
          LexTwo(Lexer(Quoted(q), depth), ['\\', c] + rest);
      }
    }
  }

  lemma {:induction false} LinePasses(text: string, depth: int)
    requires '\n' !in text
    ensures Lex(Lexer(Line, depth), text + "\n") == Lexer(Code, depth)
    decreases |text|
  {
    if text == "" {
      assert "" + "\n" == "\n" && "\n"[1..] == "";
    } else {
      assert (text + "\n")[1..] == text[1..] + "\n";
      LinePasses(text[1..], depth);
    }
  }

  /** Inside a block comment, `star` telling whether the last character was a star. */
  lemma {:induction false} BlockPasses(text: string, star: bool, depth: int)
    requires TokenOk(BlockComment(text)) && (star && text != "" ==> text[0] != '/')
    ensures Lex(Lexer(if star then Star else Block, depth), text + "*/") == Lexer(Code, depth)
    decreases |text|
  {
    var l := Lexer(if star then Star else Block, depth);
    if text == "" {
      assert text + "*/" == "*/" && "*/"[2..] == "";
      LexTwo(l, "*/");
    } else {
      assert (text + "*/")[1..] == text[1..] + "*/";
      var rest := text[1..];
      forall i | 0 <= i < |rest| - 1 ensures !(rest[i] == '*' && rest[i + 1] == '/') {
        assert rest[i] == text[i + 1] && rest[i + 1] == text[i + 2];
      }
      BlockPasses(rest, text[0] == '*', depth);
      assert Next(l, text[0]) == Lexer(if text[0] == '*' then Star else Block, depth);
    }
  }

  /** Between tokens the lexer is in code, perhaps just after a slash. */
  predicate Between(m: Mode) {
    m.Code? || m.Slash?
  }

  lemma TokenPasses(t: Token, m: Mode, depth: int)
    requires TokenOk(t) && Between(m) && (m.Slash? ==> Separate(Mark('/'), t))
    ensures var l := Lex(Lexer(m, depth), PrintToken(t));
      l == Lexer(if t == Mark('/') then Slash else Code, depth + Net([t]))
  {
    var start := Lexer(m, depth);
    assert [t][1..] == [];
    match t {
      case Mark(c) => assert [c][1..] == "";
      case Literal(q, items) =>
        var s := [q] + PrintItems(items) + [q];
        assert s[1..] == PrintItems(items) + [q];
        LiteralPasses(q, items, depth);
      case LineComment(text) =>
        var s := "//" + text + "\n";
        assert s[2..] == text + "\n";
        LexTwo(start, s);
        LinePasses(text, depth);
      case BlockComment(text) =>
        var s := "/*" + text + "*/";
        assert s[2..] == text + "*/";
        LexTwo(start, s);
        BlockPasses(text, false, depth);
    }
  }

  // ---------------------------------------------------------------- a text

  lemma ValidTail(ts: seq<Token>)
    requires Valid(ts) && ts != []
    ensures Valid(ts[1..]) && TokenOk(ts[0]) && (|ts| > 1 ==> Separate(ts[0], ts[1..][0]))
  {
    var rest := ts[1..];
    assert ts[0] in ts && forall x <- rest :: x in ts;
    forall i | 0 <= i < |rest| - 1 ensures Separate(rest[i], rest[i + 1]) {
      assert rest[i] == ts[i + 1] && rest[i + 1] == ts[i + 2];
    }
    if |ts| > 1 { assert Separate(ts[0], ts[1]); }
  }

  lemma NetOne(t: Token)
    ensures Net([t]) == if t == Mark('{') then 1 else if t == Mark('}') then -1 else 0
  {
    assert [t][1..] == [];
  }

  /** The depth after any text of tokens is the depth before it and the braces that are tokens. */
  lemma {:induction false} OnlyBraceTokensCount(ts: seq<Token>, m: Mode, depth: int)
    requires Valid(ts) && Between(m) && (m.Slash? && ts != [] ==> Separate(Mark('/'), ts[0]))
    ensures var l := Lex(Lexer(m, depth), Print(ts)); Between(l.mode) && l.depth == depth + Net(ts)
    decreases |ts|
  {
    if ts != [] {
      var (t, rest) := (ts[0], ts[1..]);
      ValidTail(ts);
      TokenPasses(t, m, depth);
      NetOne(t);
      LexAppend(Lexer(m, depth), PrintToken(t), Print(rest));
      OnlyBraceTokensCount(rest, if t == Mark('/') then Slash else Code, depth + Net([t]));
    }
  }

  /** So for one line counted from the start: the tokens on it decide. */
  lemma CountOfTokens(ts: seq<Token>, depth: int)
    requires Valid(ts)
    ensures CountOf(Print(ts), depth, false) == (depth + Net(ts), false)
  {
    OnlyBraceTokensCount(ts, Code, depth);
  }
}
