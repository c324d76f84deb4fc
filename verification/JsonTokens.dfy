/**
 What the balanced-bracket scan counts, said without its states: text is a sequence of string literals and other
 characters, and a bracket counts when it is no part of a string (app/parsers.py:41-70). JSON or not, from an opening
 bracket the scan ends where the brackets first balance, or never.
 */
module JsonTokens {
  import opened Prelude
  import opened JsonScan

  /** Outside a string a backslash is a character like any other. */
  datatype Piece = Outside(c: char) | Quotation(items: seq<Item>)
  datatype Item = Same(c: char) | Backslashed(c: char)

  function PrintItems(items: seq<Item>): string {
    if items == [] then ""
    else PrintItem(items[0]) + PrintItems(items[1..])
  }

  function PrintPiece(p: Piece): string {
    match p
    case Outside(c) => [c]
    case Quotation(items) => ['"'] + PrintItems(items) + ['"']
  }

  function Printed(ps: seq<Piece>): string {
    if ps == [] then "" else PrintPiece(ps[0]) + Printed(ps[1..])
  }

  predicate PieceOk(p: Piece) {
    match p
    case Outside(c) => c != '"'
    case Quotation(items) => forall i <- items :: i.Same? ==> i.c != '"' && i.c != '\\'
  }

  /** What one piece adds to the open brackets; what the first `n` pieces add. */
  function NetOf(p: Piece, open: char, close: char): int {
    if p == Outside(open) then 1 else if p == Outside(close) then -1 else 0
  }

  function Net(ps: seq<Piece>, n: nat, open: char, close: char): int
    requires n <= |ps|
  {
    if n == 0 then 0 else NetOf(ps[0], open, close) + Net(ps[1..], n - 1, open, close)
  }

  /** How long the first `n` pieces are. */
  function LengthOf(ps: seq<Piece>, n: nat): nat
    requires n <= |ps|
  {
    if n == 0 then 0 else |PrintPiece(ps[0])| + LengthOf(ps[1..], n - 1)
  }

  lemma {:induction false} FirstPieces(ps: seq<Piece>, n: nat)
    requires n <= |ps|
    ensures LengthOf(ps, n) <= |Printed(ps)| && Printed(ps)[..LengthOf(ps, n)] == Printed(ps[..n])
    decreases n
  {
    if n > 0 {
      FirstPieces(ps[1..], n - 1);
      assert ps[..n][1..] == ps[1..][..n - 1] && ps[..n][0] == ps[0];
    }
  }

  /** Where the brackets balance: at the first of the pieces after which none is open, `depth` being open before. */
  function BalancesAfter(ps: seq<Piece>, depth: int, open: char, close: char): (n: Option<nat>)
    ensures n.Some? ==> 1 <= n.value <= |ps|
  {
    if ps == [] then None
    else if depth == 1 && ps[0] == Outside(close) then Some(1)
    else
      var rest := BalancesAfter(ps[1..], depth + NetOf(ps[0], open, close), open, close);
      if rest.Some? then Some(rest.value + 1) else None
  }

  function PrintItem(i: Item): string {
    match i case Same(c) => [c] case Backslashed(c) => ['\\', c]
  }

  lemma PassOne(s: Scan, c: char, open: char, close: char)
    ensures Pass(s, [c], open, close) == if Closes(s, Step(s, c, open, close)) then None else Some(Step(s, c, open, close))
  {
    assert [c][1..] == [];
  }

  lemma ItemPasses(i: Item, depth: int, open: char, close: char)
    requires i.Same? ==> i.c != '"' && i.c != '\\'
    ensures Pass(Scan(depth, true, false), PrintItem(i), open, close) == Some(Scan(depth, true, false))
  {
    match i {
      case Same(c) => PassOne(Scan(depth, true, false), c, open, close);
      case Backslashed(c) =>
        PassOne(Scan(depth, true, false), '\\', open, close);
        PassOne(Scan(depth, true, true), c, open, close);
        PassConcat(Scan(depth, true, false), ['\\'], [c], open, close);
        assert ['\\'] + [c] == ['\\', c];
    }
  }

  lemma QuoteCloses(depth: int, open: char, close: char)
    ensures Pass(Scan(depth, true, false), ['"'], open, close) == Some(Scan(depth, false, false))
  {
    assert ['"'][1..] == [];
  }

  lemma {:induction false} QuotationPasses(items: seq<Item>, depth: int, open: char, close: char)
    requires PieceOk(Quotation(items))
    ensures Pass(Scan(depth, true, false), PrintItems(items) + ['"'], open, close) == Some(Scan(depth, false, false))
  {
    if items == [] {
      assert [] + ['"'] == ['"'];
      QuoteCloses(depth, open, close);
    } else {
      assert items[0] in items && forall i <- items[1..] :: i in items;
      QuotationPasses(items[1..], depth, open, close);
      ItemPasses(items[0], depth, open, close);
      PassConcat(Scan(depth, true, false), PrintItem(items[0]), PrintItems(items[1..]) + ['"'], open, close);
      assert PrintItems(items) + ['"'] == PrintItem(items[0]) + (PrintItems(items[1..]) + ['"']);
    }
  }

  lemma PiecePasses(p: Piece, depth: int, open: char, close: char)
    requires Brackets(open, close) && PieceOk(p) && !(depth == 1 && p == Outside(close))
    ensures Pass(Scan(depth, false, false), PrintPiece(p), open, close) == Some(Scan(depth + NetOf(p, open, close), false, false))
  {
    match p {
      case Outside(c) => assert [c][1..] == [];
      case Quotation(items) =>
        var s := ['"'] + PrintItems(items) + ['"'];
        assert s[1..] == PrintItems(items) + ['"'];
        QuotationPasses(items, depth, open, close);
    }
  }

  lemma PassedPiece(p: Piece, text: string, depth: int, open: char, close: char)
    requires Brackets(open, close) && PieceOk(p) && !(depth == 1 && p == Outside(close))
    ensures var below := Length(Scan(depth + NetOf(p, open, close), false, false), text, open, close);
      Length(Scan(depth, false, false), PrintPiece(p) + text, open, close)
      == if below.Some? then Some(|PrintPiece(p)| + below.value) else None
  {
    PiecePasses(p, depth, open, close);
    LengthAfterPass(Scan(depth, false, false), PrintPiece(p), text, open, close);
  }

  lemma ClosingPiece(text: string, open: char, close: char)
    requires Brackets(open, close)
    ensures Length(Scan(1, false, false), PrintPiece(Outside(close)) + text, open, close) == Some(1)
  {
    assert ([close] + text)[0] == close;
  }

  /** A length that is counted piece by piece. */
  ghost predicate Counts(len: (int, seq<Piece>) -> Option<nat>, open: char, close: char) {
    && (forall d :: len(d, []) == None)
    && (forall d, ps :: CountsOne(len, d, ps, open, close))
  }

  ghost predicate CountsOne(len: (int, seq<Piece>) -> Option<nat>, d: int, ps: seq<Piece>, open: char, close: char) {
    ps != [] && PieceOk(ps[0]) ==>
      len(d, ps) == if d == 1 && ps[0] == Outside(close) then Some(1) else More(ps[0], len(d + NetOf(ps[0], open, close), ps[1..]))
  }

  function More(p: Piece, below: Option<nat>): Option<nat> {
    if below.Some? then Some(|PrintPiece(p)| + below.value) else None
  }

  function Scanned(open: char, close: char): (int, seq<Piece>) -> Option<nat> {
    (d: int, ps: seq<Piece>) => Length(Scan(d, false, false), Printed(ps), open, close)
  }

  lemma ScanCountsOne(d: int, p: Piece, rest: seq<Piece>, open: char, close: char)
    requires Brackets(open, close) && PieceOk(p)
    ensures var len := Scanned(open, close);
      Length(Scan(d, false, false), PrintPiece(p) + Printed(rest), open, close)
      == if d == 1 && p == Outside(close) then Some(1) else More(p, len(d + NetOf(p, open, close), rest))
  {
    if d == 1 && p == Outside(close) {
      ClosingPiece(Printed(rest), open, close);
    } else {
      PassedPiece(p, Printed(rest), d, open, close);
    }
  }

  lemma ScanCounts(open: char, close: char)
    requires Brackets(open, close)
    ensures Counts(Scanned(open, close), open, close)
  {
    var len := Scanned(open, close);
    forall d, ps ensures CountsOne(len, d, ps, open, close) {
      if ps != [] && PieceOk(ps[0]) {
        assert Printed(ps) == PrintPiece(ps[0]) + Printed(ps[1..]);
        ScanCountsOne(d, ps[0], ps[1..], open, close);
      }
    }
  }

  lemma {:induction false} CountsToBalance(len: (int, seq<Piece>) -> Option<nat>, ps: seq<Piece>, depth: int, open: char, close: char)
    requires Counts(len, open, close) && forall p <- ps :: PieceOk(p)
    ensures var n := BalancesAfter(ps, depth, open, close);
      len(depth, ps) == if n.None? then None else Some(LengthOf(ps, n.value))
    decreases |ps|
  {
    if ps == [] {
      assert len(depth, []) == None;
    } else {
      var p := ps[0];
      assert p in ps && forall x <- ps[1..] :: x in ps;
      assert CountsOne(len, depth, ps, open, close);
      if depth == 1 && p == Outside(close) {
        assert LengthOf(ps, 1) == |PrintPiece(p)| + LengthOf(ps[1..], 0);
      } else {
        CountsToBalance(len, ps[1..], depth + NetOf(ps[0], open, close), open, close);
      }
    }
  }

  /** The scan takes exactly the pieces up to the balancing one. */
  lemma ScanEndsAtBalance(ps: seq<Piece>, depth: int, open: char, close: char)
    requires Brackets(open, close) && forall p <- ps :: PieceOk(p)
    ensures var n := BalancesAfter(ps, depth, open, close);
      Length(Scan(depth, false, false), Printed(ps), open, close) == if n.None? then None else Some(LengthOf(ps, n.value))
  {
    ScanCounts(open, close);
    CountsToBalance(Scanned(open, close), ps, depth, open, close);
    assert Scanned(open, close)(depth, ps) == Length(Scan(depth, false, false), Printed(ps), open, close);
  }

  /** That piece is the first after which as many brackets are closed as were opened. */
  lemma {:induction false} BalanceIsFirst(ps: seq<Piece>, depth: int, open: char, close: char)
    requires open != close && depth >= 1
    ensures var n := BalancesAfter(ps, depth, open, close);
      && (n.Some? ==> depth + Net(ps, n.value, open, close) == 0)
      && (forall k: nat :: k <= |ps| && (n.Some? ==> k < n.value) ==> depth + Net(ps, k, open, close) >= 1)
    decreases |ps|
  {
    if ps != [] && !(depth == 1 && ps[0] == Outside(close)) {
      var d := depth + NetOf(ps[0], open, close);
      BalanceIsFirst(ps[1..], d, open, close);
      var (n, below) := (BalancesAfter(ps, depth, open, close), BalancesAfter(ps[1..], d, open, close));
      forall k: nat | k <= |ps| && (n.Some? ==> k < n.value) ensures depth + Net(ps, k, open, close) >= 1 {
        if k > 0 {
          assert k - 1 <= |ps[1..]| && (below.Some? ==> k - 1 < below.value);
        }
      }
    }
  }

  lemma LengthNext(ps: seq<Piece>, n: nat)
    requires 1 <= n <= |ps|
    ensures LengthOf(ps, n) == |PrintPiece(ps[0])| + LengthOf(ps[1..], n - 1) && |PrintPiece(ps[0])| >= 1
  {
  }

  lemma {:induction false} LengthGrows(ps: seq<Piece>, k: nat, m: nat)
    requires k < m <= |ps|
    ensures LengthOf(ps, k) < LengthOf(ps, m)
    decreases k
  {
    LengthNext(ps, m);
    if k > 0 {
      LengthNext(ps, k);
      LengthGrows(ps[1..], k - 1, m - 1);
    }
  }

  lemma FirstBalance(ps: seq<Piece>, open: char, close: char)
    requires open != close && ps != [] && ps[0] == Outside(open)
    ensures var n := BalancesAfter(ps, 0, open, close);
      && (n.Some? ==> Net(ps, n.value, open, close) == 0)
      && (forall k: nat :: 1 <= k <= |ps| && (n.Some? ==> k < n.value) ==> Net(ps, k, open, close) >= 1)
  {
    BalanceIsFirst(ps[1..], 1, open, close);
    var (n, below) := (BalancesAfter(ps, 0, open, close), BalancesAfter(ps[1..], 1, open, close));
    forall k: nat | 1 <= k <= |ps| && (n.Some? ==> k < n.value) ensures Net(ps, k, open, close) >= 1 {
      assert k - 1 <= |ps[1..]| && (below.Some? ==> k - 1 < below.value);
    }
  }

  /** For any text that starts with an opening bracket, and any number of its pieces: the candidate is these pieces
      exactly when they are the fewest with as many closing brackets as opening ones outside strings. */
  lemma CandidateIsFewestBalanced(ps: seq<Piece>, n: nat, open: char, close: char)
    requires Brackets(open, close) && ps != [] && ps[0] == Outside(open) && (forall p <- ps :: PieceOk(p)) && n <= |ps|
    ensures Length(START, Printed(ps), open, close) == Some(LengthOf(ps, n)) <==>
            n >= 1 && Net(ps, n, open, close) == 0 && forall k: nat :: 1 <= k < n ==> Net(ps, k, open, close) != 0
  {
    ScanEndsAtBalance(ps, 0, open, close);
    FirstBalance(ps, open, close);
    var m := BalancesAfter(ps, 0, open, close);
    if m.Some? && n != m.value { LengthGrows(ps, if n < m.value then n else m.value, if n < m.value then m.value else n); }
  }
}
