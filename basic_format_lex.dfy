/**
 * The first step of the round trip between Format and the parser
 * (QBasic/basic/Expression.cpp, QBasic/basic/Token.cpp): a printed tree is
 * laid out as a list of tokens, each a text and the item the parser's
 * pre-pass should make of it. Printing the tokens gives Format's text, and
 * the lexer cuts that text back into the tokens' texts.
 *
 * A run of brackets is one token of the lexer, so the brackets a tree prints
 * next to an operand are counted into one run token.
 */
module BasicFormatLex {
  import opened StdTypes
  import opened BasicConfig
  import opened BasicError
  import opened BasicToken
  import opened BasicExpression
  import opened BasicExprParser

  // ---------------------------------------------------------------------------
  // The lexer on texts

  /** The texts of the tokens of line[i..], spelled out as LexFrom cuts them. */
  function TextsAt(line: string, i: nat): seq<string>
    requires i <= |line|
    decreases |line| - i
  {
    if i == |line| then []
    else if IsSpace(line[i]) then TextsAt(line, i + 1)
    else
      var j := TokenEnd(line, i + 1);
      [line[i..j]] + TextsAt(line, j)
  }

  /** The texts of spans in order. */
  function SpanTexts(line: string, s: seq<(nat, nat)>): (texts: seq<string>)
    requires OrderedSpans(line, s, 0)
    ensures |texts| == |s|
  {
    seq(|s|, k requires 0 <= k < |s| => line[s[k].0..s[k].1])
  }

  lemma {:induction false} SpanTextsAt(line: string, i: nat)
    requires i <= |line|
    ensures OrderedSpans(line, LexFrom(line, i), 0)
    ensures SpanTexts(line, LexFrom(line, i)) == TextsAt(line, i)
    decreases |line| - i
  {
    LexFromOrdered(line, i);
    if i == |line| {
    } else if IsSpace(line[i]) {
      SpanTextsAt(line, i + 1);
    } else {
      var j := TokenEnd(line, i + 1);
      SpanTextsAt(line, j);
      var s := LexFrom(line, i);
      assert s == [(i, j)] + LexFrom(line, j);
      var a, b := SpanTexts(line, s), [line[i..j]] + TextsAt(line, j);
      assert |a| == |b|;
      forall k | 0 <= k < |a| ensures a[k] == b[k] {
        if k > 0 {
          assert s[k] == LexFrom(line, j)[k - 1];
        }
      }
    }
  }

  /** TextsAt at the start of a token. */
  lemma TextsAtToken(line: string, i: nat)
    requires i < |line| && !IsSpace(line[i])
    ensures var j := TokenEnd(line, i + 1);
      TextsAt(line, i) == [line[i..j]] + TextsAt(line, j)
  {
  }

  /** The token texts of a line, read off the line itself. */
  function TextsOf(line: string): seq<string> {
    TextsAt(line, 0)
  }

  lemma LexTextsOf(line: string)
    ensures LexTexts(line) == TextsOf(line)
  {
    SpanTextsAt(line, 0);
    var s := Lex(line);
    assert LexTexts(line) == SpanTexts(line, s);
  }

  /** Nothing before the start changes where tokens end. */
  lemma {:induction false} TokenEndShift(p: string, s: string, j: nat)
    requires 1 <= j <= |s|
    ensures TokenEnd(p + s, |p| + j) == |p| + TokenEnd(s, j)
    decreases |s| - j
  {
    if j < |s| {
      assert (p + s)[|p| + j] == s[j] && (p + s)[|p| + j - 1] == s[j - 1];
      if !(IsSpace(s[j]) || !Merges(s[j - 1], s[j])) {
        TokenEndShift(p, s, j + 1);
      }
    }
  }

  lemma SliceShift(p: string, s: string, i: nat, j: nat)
    requires i <= j <= |s|
    ensures (p + s)[|p| + i..|p| + j] == s[i..j]
  {
  }

  lemma SliceCut(a: string, b: string, i: nat, j: nat)
    requires i <= j <= |a|
    ensures (a + b)[i..j] == a[i..j]
  {
  }

  /** A token of s, seen inside p + s. */
  lemma TokenShift(p: string, s: string, i: nat)
    requires i < |s| && !IsSpace(s[i])
    ensures var j := TokenEnd(s, i + 1);
      TextsAt(p + s, |p| + i) == [s[i..j]] + TextsAt(p + s, |p| + j)
  {
    var ps := p + s;
    var j := TokenEnd(s, i + 1);
    assert ps[|p| + i] == s[i];
    TokenEndShift(p, s, i + 1);
    SliceShift(p, s, i, j);
  }

  /** A space of s, seen inside p + s. */
  lemma {:induction false} ShiftSpace(p: string, s: string, i: nat)
    requires i < |s| && IsSpace(s[i])
    ensures TextsAt(p + s, |p| + i) == TextsAt(s, i)
    decreases |s| - i, 0
  {
    assert (p + s)[|p| + i] == s[i];
    TextsAtShift(p, s, i + 1);
  }

  /** A token of s and what follows it, seen inside p + s. */
  lemma {:induction false} ShiftToken(p: string, s: string, i: nat)
    requires i < |s| && !IsSpace(s[i])
    ensures TextsAt(p + s, |p| + i) == TextsAt(s, i)
    decreases |s| - i, 0
  {
    TokenShift(p, s, i);
    TextsAtToken(s, i);
    TextsAtShift(p, s, TokenEnd(s, i + 1));
  }

  /** Nor where they start. */
  lemma {:induction false} TextsAtShift(p: string, s: string, i: nat)
    requires i <= |s|
    ensures TextsAt(p + s, |p| + i) == TextsAt(s, i)
    decreases |s| - i, 1
  {
    if i < |s| {
      if IsSpace(s[i]) {
        ShiftSpace(p, s, i);
      } else {
        ShiftToken(p, s, i);
      }
    }
  }

  /** a and b meet where no token can run across: one is empty, b starts with a space, or the two characters do not merge. */
  predicate Cut(a: string, b: string) {
    a == [] || b == [] || IsSpace(b[0]) || !Merges(a[|a| - 1], b[0])
  }

  lemma {:induction false} TokenEndCut(a: string, b: string, j: nat)
    requires 1 <= j <= |a| && Cut(a, b)
    ensures TokenEnd(a + b, j) == TokenEnd(a, j)
    decreases |a| - j
  {
    if j < |a| {
      assert (a + b)[j] == a[j] && (a + b)[j - 1] == a[j - 1];
      if !(IsSpace(a[j]) || !Merges(a[j - 1], a[j])) {
        TokenEndCut(a, b, j + 1);
      }
    } else if b != [] {
      assert (a + b)[j] == b[0] && (a + b)[j - 1] == a[|a| - 1];
    }
  }

  /** A token of a, seen inside a + b. */
  lemma TokenCut(a: string, b: string, i: nat)
    requires i < |a| && !IsSpace(a[i]) && Cut(a, b)
    ensures var j := TokenEnd(a, i + 1);
      TextsAt(a + b, i) == [a[i..j]] + TextsAt(a + b, j)
  {
    var ab := a + b;
    var j := TokenEnd(a, i + 1);
    assert ab[i] == a[i];
    TokenEndCut(a, b, i + 1);
    SliceCut(a, b, i, j);
  }

  lemma {:induction false} TextsAtCut(a: string, b: string, i: nat)
    requires i <= |a| && Cut(a, b)
    ensures TextsAt(a + b, i) == TextsAt(a, i) + TextsAt(a + b, |a|)
    decreases |a| - i
  {
    if i < |a| {
      if IsSpace(a[i]) {
        assert (a + b)[i] == a[i];
        TextsAtCut(a, b, i + 1);
      } else {
        var j := TokenEnd(a, i + 1);
        TokenCut(a, b, i);
        TextsAtCut(a, b, j);
        assert [a[i..j]] + (TextsAt(a, j) + TextsAt(a + b, |a|)) == ([a[i..j]] + TextsAt(a, j)) + TextsAt(a + b, |a|);
      }
    }
  }

  /** Two texts that meet at a cut lex apart. */
  lemma TextsConcat(a: string, b: string)
    requires Cut(a, b)
    ensures TextsOf(a + b) == TextsOf(a) + TextsOf(b)
  {
    TextsAtCut(a, b, 0);
    TextsAtShift(a, b, 0);
  }

  /** A leading space is skipped. */
  lemma TextsSpace(b: string)
    ensures TextsOf(" " + b) == TextsOf(b)
  {
    TextsAtShift(" ", b, 0);
  }

  /** A word: non-empty, no space, and every neighbouring pair merges. */
  predicate Word(x: string) {
    && |x| > 0
    && (forall i :: 0 <= i < |x| ==> !IsSpace(x[i]))
    && (forall i :: 1 <= i < |x| ==> Merges(x[i - 1], x[i]))
  }

  lemma {:induction false} TokenEndWord(x: string, j: nat)
    requires Word(x) && 1 <= j <= |x|
    ensures TokenEnd(x, j) == |x|
    decreases |x| - j
  {
    if j < |x| {
      TokenEndWord(x, j + 1);
    }
  }

  /** A word is one token. */
  lemma TextsWord(x: string)
    requires Word(x)
    ensures TextsOf(x) == [x]
  {
    TokenEndWord(x, 1);
    assert !IsSpace(x[0]);
    assert TextsAt(x, |x|) == [];
    assert x[0..|x|] == x;
  }

  // ---------------------------------------------------------------------------
  // A printed tree as tokens

  /** A token of a printed tree: its text and what the pre-pass should make of it. */
  type Tok = (string, Item)

  /** n copies of a character. */
  function Rep(c: char, n: nat): (s: string)
    ensures |s| == n
  {
    seq(n, _ => c)
  }

  function Bit(b: bool): nat {
    if b then 1 else 0
  }

  /**
   * The tokens of Wrapped(e, lo, hi), with a bracket run before the first and
   * after the last operand of every tree where the lexer would find one. A
   * run is there even when it is empty (an empty text, and a bracket item of
   * count 0), so that the list has the same shape for every tree; the
   * brackets a tree prints around an operand join the run of that operand.
   */
  function RawToks(e: Expr, lo: nat, hi: nat): seq<Tok> {
    match e
    case Num(v) => [(Rep('(', lo), Open(lo)), (DecimalInt(v), Operand(e)), (Rep(')', hi), Close(hi))]
    case Var(x) => [(Rep('(', lo), Open(lo)), (x, Operand(e)), (Rep(')', hi), Close(hi))]
    case Unary(op, c) =>
      var b := Bit(UnaryBracket(c));
      [(Rep('(', lo), Open(lo)), (UnarySymbol(op), UnaryOp(op))] + RawToks(c, b, b + hi)
    case Binary(op, l, r) =>
      var lb, rb := Bit(LeftBracket(op, l)), Bit(RightBracket(op, r));
      RawToks(l, lo + lb, lb) + [(BinarySymbol(op), BinaryOp(op))] + RawToks(r, rb, rb + hi)
  }

  /** A token if it has a text. */
  function Kept(t: Tok): seq<Tok> {
    if t.0 == [] then [] else [t]
  }

  /** A token's text, and a space either side of a binary operator. */
  function Pieces(t: Tok): seq<string> {
    if t.1.BinaryOp? then [" ", t.0, " "] else [t.0]
  }

  /** The tokens with a text. */
  function Vis(ts: seq<Tok>): seq<Tok> {
    if ts == [] then [] else Kept(ts[0]) + Vis(ts[1..])
  }

  /** The printed text as pieces: each token, and a space either side of a binary operator. */
  function Spaced(ts: seq<Tok>): seq<string> {
    if ts == [] then [] else Pieces(ts[0]) + Spaced(ts[1..])
  }

  /** The pieces written one after another. */
  function Concat(ws: seq<string>): string {
    if ws == [] then [] else ws[0] + Concat(ws[1..])
  }

  function Texts(ts: seq<Tok>): (r: seq<string>)
    ensures |r| == |ts|
  {
    seq(|ts|, i requires 0 <= i < |ts| => ts[i].0)
  }

  function Items(ts: seq<Tok>): (r: seq<Item>)
    ensures |r| == |ts|
  {
    seq(|ts|, i requires 0 <= i < |ts| => ts[i].1)
  }

  /**
   * The trees that print unambiguously: numbers are non-negative (Format
   * prints -3 as a unary minus before 3), names are variable names other
   * than MOD, and no unary operator has an operand of the same sign (its two
   * signs would lex as one token).
   */
  predicate Printable(e: Expr) {
    match e
    case Num(v) => v >= 0
    case Var(x) => IsVariableName(x) && x != "MOD"
    case Unary(op, c) => Printable(c) && !(c.Unary? && c.uop == op)
    case Binary(_, l, r) => Printable(l) && Printable(r)
  }

  // Lists of tokens

  lemma {:induction false} ConcatAppend(a: seq<string>, b: seq<string>)
    ensures Concat(a + b) == Concat(a) + Concat(b)
  {
    if a == [] {
      assert a + b == b;
    } else {
      assert (a + b)[0] == a[0] && (a + b)[1..] == a[1..] + b;
      ConcatAppend(a[1..], b);
      assert Concat(a + b) == a[0] + (Concat(a[1..]) + Concat(b));
    }
  }

  lemma {:induction false} SpacedAppend(a: seq<Tok>, b: seq<Tok>)
    ensures Spaced(a + b) == Spaced(a) + Spaced(b)
  {
    if a == [] {
      assert a + b == b;
    } else {
      assert (a + b)[0] == a[0] && (a + b)[1..] == a[1..] + b;
      SpacedAppend(a[1..], b);
      var h := Pieces(a[0]);
      assert Spaced(a + b) == h + (Spaced(a[1..]) + Spaced(b));
    }
  }

  lemma {:induction false} VisAppend(a: seq<Tok>, b: seq<Tok>)
    ensures Vis(a + b) == Vis(a) + Vis(b)
  {
    if a == [] {
      assert a + b == b;
    } else {
      assert (a + b)[0] == a[0] && (a + b)[1..] == a[1..] + b;
      VisAppend(a[1..], b);
      var h := Kept(a[0]);
      assert Vis(a + b) == h + (Vis(a[1..]) + Vis(b));
    }
  }

  /** The printed text of a list of tokens. */
  function Printed(ts: seq<Tok>): string {
    Concat(Spaced(ts))
  }

  lemma PrintedAppend(a: seq<Tok>, b: seq<Tok>)
    ensures Printed(a + b) == Printed(a) + Printed(b)
  {
    SpacedAppend(a, b);
    ConcatAppend(Spaced(a), Spaced(b));
  }

  lemma ConcatOne(x: string)
    ensures Concat([x]) == x
  {
    assert [x][1..] == [];
  }

  lemma PrintedOne(t: Tok)
    ensures Printed([t]) == if t.1.BinaryOp? then " " + t.0 + " " else t.0
  {
    assert [t][1..] == [];
    var h := Pieces(t);
    assert Spaced([t]) == h + [];
    assert h + [] == h;
    if t.1.BinaryOp? {
      assert h == [" "] + ([t.0] + [" "]);
      ConcatAppend([" "], [t.0] + [" "]);
      ConcatAppend([t.0], [" "]);
      ConcatOne(" ");
      ConcatOne(t.0);
    } else {
      ConcatOne(t.0);
    }
  }

  /** A token without text is a bracket run of count 0. */
  ghost predicate Silent(ts: seq<Tok>) {
    forall k :: 0 <= k < |ts| && ts[k].0 == [] ==> ts[k].1 == Open(0) || ts[k].1 == Close(0)
  }

  lemma SilentAppend(a: seq<Tok>, b: seq<Tok>)
    requires Silent(a) && Silent(b)
    ensures Silent(a + b)
  {
    forall k | 0 <= k < |a + b| && (a + b)[k].0 == []
      ensures (a + b)[k].1 == Open(0) || (a + b)[k].1 == Close(0)
    {
      if k < |a| { assert (a + b)[k] == a[k]; } else { assert (a + b)[k] == b[k - |a|]; }
    }
  }

  lemma SilentTail(ts: seq<Tok>)
    requires Silent(ts) && ts != []
    ensures Silent(ts[1..])
  {
    forall k | 0 <= k < |ts[1..]| && ts[1..][k].0 == []
      ensures ts[1..][k].1 == Open(0) || ts[1..][k].1 == Close(0)
    {
      assert ts[1..][k] == ts[k + 1];
    }
  }

  /** Tokens without text print nothing. */
  lemma {:induction false} PrintedVis(ts: seq<Tok>)
    requires Silent(ts)
    ensures Printed(Vis(ts)) == Printed(ts)
  {
    if ts != [] {
      SilentTail(ts);
      PrintedVis(ts[1..]);
      assert ts == [ts[0]] + ts[1..];
      PrintedAppend([ts[0]], ts[1..]);
      PrintedOne(ts[0]);
      if ts[0].0 != [] {
        assert Vis(ts) == [ts[0]] + Vis(ts[1..]);
        PrintedAppend([ts[0]], Vis(ts[1..]));
      } else {
        assert ts[0].1 == Open(0) || ts[0].1 == Close(0);
        assert Printed([ts[0]]) == [];
        assert Vis(ts) == Vis(ts[1..]);
      }
    }
  }

  // The tokens print the tree.

  /** Format with every bracket written as a run of 0 or 1. */
  function Runs(e: Expr): string {
    match e
    case Num(v) => DecimalInt(v)
    case Var(x) => x
    case Unary(op, c) =>
      var b := Bit(UnaryBracket(c));
      UnarySymbol(op) + (Rep('(', b) + Runs(c) + Rep(')', b))
    case Binary(op, l, r) =>
      var lb, rb := Bit(LeftBracket(op, l)), Bit(RightBracket(op, r));
      (Rep('(', lb) + Runs(l) + Rep(')', lb)) + " " + BinarySymbol(op) + " " + (Rep('(', rb) + Runs(r) + Rep(')', rb))
  }

  lemma Bracketed(b: bool, s: string, t: string)
    requires s == t
    ensures (if b then Paren(s) else s) == Rep('(', Bit(b)) + t + Rep(')', Bit(b))
  {
    if b {
      assert Rep('(', 1) == "(" && Rep(')', 1) == ")";
    } else {
      assert Rep('(', 0) == [] && Rep(')', 0) == [];
    }
  }

  lemma {:induction false} FormatRuns(e: Expr)
    ensures Format(e) == Runs(e)
  {
    match e
    case Num(_) =>
    case Var(_) =>
    case Unary(op, c) =>
      FormatRuns(c);
      Bracketed(UnaryBracket(c), Format(c), Runs(c));
    case Binary(op, l, r) =>
      FormatRuns(l);
      FormatRuns(r);
      Bracketed(LeftBracket(op, l), Format(l), Runs(l));
      Bracketed(RightBracket(op, r), Format(r), Runs(r));
  }

  /** A printed tree inside lo opening and hi closing brackets. */
  function Around(e: Expr, lo: nat, hi: nat): string {
    Rep('(', lo) + Runs(e) + Rep(')', hi)
  }

  lemma RepAdd(c: char, a: nat, b: nat)
    ensures Rep(c, a + b) == Rep(c, a) + Rep(c, b)
  {
  }

  /** Regrouping the pieces of a printed binary tree. */
  lemma RegroupBinary(o1: string, o2: string, ls: string, c1: string, sym: string, o3: string, rs: string, c3: string, c4: string)
    ensures o1 + ((o2 + ls + c1) + " " + sym + " " + (o3 + rs + c3)) + c4
         == (o1 + o2) + ls + c1 + (" " + sym + " ") + (o3 + rs + (c3 + c4))
  {
  }

  /** Regrouping the pieces of a printed unary tree. */
  lemma RegroupUnary(o1: string, sym: string, o2: string, cs: string, c2: string, c3: string)
    ensures o1 + (sym + (o2 + cs + c2)) + c3 == o1 + sym + (o2 + cs + (c2 + c3))
  {
  }

  lemma AroundBinary(op: BinOp, l: Expr, r: Expr, lo: nat, hi: nat, lb: nat, rb: nat)
    requires lb == Bit(LeftBracket(op, l)) && rb == Bit(RightBracket(op, r))
    ensures Around(Binary(op, l, r), lo, hi) == Around(l, lo + lb, lb) + (" " + BinarySymbol(op) + " ") + Around(r, rb, rb + hi)
  {
    RegroupBinary(Rep('(', lo), Rep('(', lb), Runs(l), Rep(')', lb), BinarySymbol(op), Rep('(', rb), Runs(r), Rep(')', rb), Rep(')', hi));
    RepAdd('(', lo, lb);
    RepAdd(')', rb, hi);
  }

  lemma AroundUnary(op: UnOp, c: Expr, lo: nat, hi: nat, b: nat)
    requires b == Bit(UnaryBracket(c))
    ensures Around(Unary(op, c), lo, hi) == Rep('(', lo) + UnarySymbol(op) + Around(c, b, b + hi)
  {
    RegroupUnary(Rep('(', lo), UnarySymbol(op), Rep('(', b), Runs(c), Rep(')', b), Rep(')', hi));
    RepAdd(')', b, hi);
  }

  /** Three tokens that are not binary operators print as their texts. */
  lemma PrintedThree(a: Tok, b: Tok, c: Tok)
    requires !a.1.BinaryOp? && !b.1.BinaryOp? && !c.1.BinaryOp?
    ensures Printed([a, b, c]) == a.0 + b.0 + c.0
  {
    assert [a, b, c] == [a] + [b] + [c];
    PrintedAppend([a] + [b], [c]);
    PrintedAppend([a], [b]);
    PrintedOne(a);
    PrintedOne(b);
    PrintedOne(c);
  }

  lemma RawBinary(op: BinOp, l: Expr, r: Expr, lo: nat, hi: nat, lb: nat, rb: nat)
    requires lb == Bit(LeftBracket(op, l)) && rb == Bit(RightBracket(op, r))
    ensures RawToks(Binary(op, l, r), lo, hi) == RawToks(l, lo + lb, lb) + [(BinarySymbol(op), BinaryOp(op))] + RawToks(r, rb, rb + hi)
  {
    var e := Binary(op, l, r);
    assert e.left == l && e.right == r && e.bop == op;
    var a, b, c := RawToks(l, lo + lb, lb), [(BinarySymbol(op), BinaryOp(op))], RawToks(r, rb, rb + hi);
    assert RawToks(e, lo, hi) == a + b + c;
  }

  /** A binary operator between two lists of tokens prints with a space either side. */
  lemma PrintedInfix(ts: seq<Tok>, a: seq<Tok>, s: Tok, b: seq<Tok>, x: string, y: string, z: string)
    requires ts == a + [s] + b && s.1.BinaryOp?
    requires Printed(a) == x && Printed(b) == y && z == x + (" " + s.0 + " ") + y
    ensures Printed(ts) == z
  {
    PrintedOne(s);
    PrintedAppend(a + [s], b);
    PrintedAppend(a, [s]);
  }

  lemma RawUnary(op: UnOp, c: Expr, lo: nat, hi: nat, b: nat)
    requires b == Bit(UnaryBracket(c))
    ensures RawToks(Unary(op, c), lo, hi) == [(Rep('(', lo), Open(lo)), (UnarySymbol(op), UnaryOp(op))] + RawToks(c, b, b + hi)
  {
  }

  /** An opening run and a unary operator before a list of tokens print as their texts. */
  lemma PrintedPrefix(ts: seq<Tok>, o: Tok, s: Tok, a: seq<Tok>, x: string, z: string)
    requires ts == [o, s] + a && !o.1.BinaryOp? && !s.1.BinaryOp?
    requires Printed(a) == x && z == o.0 + s.0 + x
    ensures Printed(ts) == z
  {
    assert [o, s] == [o] + [s];
    PrintedAppend([o, s], a);
    PrintedAppend([o], [s]);
    PrintedOne(o);
    PrintedOne(s);
  }

  lemma {:induction false} PrintedUnary(op: UnOp, c: Expr, lo: nat, hi: nat)
    ensures Printed(RawToks(Unary(op, c), lo, hi)) == Around(Unary(op, c), lo, hi)
    decreases Unary(op, c), 0
  {
    var b := Bit(UnaryBracket(c));
    var o, s := (Rep('(', lo), Open(lo)), (UnarySymbol(op), UnaryOp(op));
    PrintedRaw(c, b, b + hi);
    RawUnary(op, c, lo, hi, b);
    AroundUnary(op, c, lo, hi, b);
    PrintedPrefix(RawToks(Unary(op, c), lo, hi), o, s, RawToks(c, b, b + hi), Around(c, b, b + hi), Around(Unary(op, c), lo, hi));
  }

  lemma {:induction false} PrintedBinary(op: BinOp, l: Expr, r: Expr, lo: nat, hi: nat)
    ensures Printed(RawToks(Binary(op, l, r), lo, hi)) == Around(Binary(op, l, r), lo, hi)
    decreases Binary(op, l, r), 1
  {
    var lb, rb := Bit(LeftBracket(op, l)), Bit(RightBracket(op, r));
    PrintedRaw(l, lo + lb, lb);
    PrintedRight(op, l, r, lo, hi, lb, rb);
  }

  /** The printed infix tree, given its left operand printed. */
  lemma {:induction false} PrintedRight(op: BinOp, l: Expr, r: Expr, lo: nat, hi: nat, lb: nat, rb: nat)
    requires lb == Bit(LeftBracket(op, l)) && rb == Bit(RightBracket(op, r))
    requires Printed(RawToks(l, lo + lb, lb)) == Around(l, lo + lb, lb)
    ensures Printed(RawToks(Binary(op, l, r), lo, hi)) == Around(Binary(op, l, r), lo, hi)
    decreases Binary(op, l, r), 0
  {
    PrintedRaw(r, rb, rb + hi);
    PrintedJoin(op, l, r, lo, hi, lb, rb);
  }

  /** The printed infix tree, given both operands printed. */
  lemma PrintedJoin(op: BinOp, l: Expr, r: Expr, lo: nat, hi: nat, lb: nat, rb: nat)
    requires lb == Bit(LeftBracket(op, l)) && rb == Bit(RightBracket(op, r))
    requires Printed(RawToks(l, lo + lb, lb)) == Around(l, lo + lb, lb)
    requires Printed(RawToks(r, rb, rb + hi)) == Around(r, rb, rb + hi)
    ensures Printed(RawToks(Binary(op, l, r), lo, hi)) == Around(Binary(op, l, r), lo, hi)
  {
    var tl, s, tr := RawToks(l, lo + lb, lb), (BinarySymbol(op), BinaryOp(op)), RawToks(r, rb, rb + hi);
    RawBinary(op, l, r, lo, hi, lb, rb);
    AroundBinary(op, l, r, lo, hi, lb, rb);
    PrintedInfix(RawToks(Binary(op, l, r), lo, hi), tl, s, tr, Around(l, lo + lb, lb), Around(r, rb, rb + hi), Around(Binary(op, l, r), lo, hi));
  }

  /** The tokens, printed, are the printed tree. */
  lemma {:induction false} PrintedRaw(e: Expr, lo: nat, hi: nat)
    ensures Printed(RawToks(e, lo, hi)) == Around(e, lo, hi)
    decreases e, 2
  {
    match e
    case Num(v) =>
      PrintedThree((Rep('(', lo), Open(lo)), (DecimalInt(v), Operand(e)), (Rep(')', hi), Close(hi)));
    case Var(x) =>
      PrintedThree((Rep('(', lo), Open(lo)), (x, Operand(e)), (Rep(')', hi), Close(hi)));
    case Unary(op, c) =>
      PrintedUnary(op, c, lo, hi);
    case Binary(op, l, r) =>
      PrintedBinary(op, l, r, lo, hi);
  }

  /** The three tokens of an operand. */
  lemma SilentThree(a: Tok, b: Tok, c: Tok)
    requires a.0 == [] ==> a.1 == Open(0) || a.1 == Close(0)
    requires b.0 != [] && (c.0 == [] ==> c.1 == Open(0) || c.1 == Close(0))
    ensures Silent([a, b, c])
  {
  }

  /** An opening run and an operator. */
  lemma SilentTwo(a: Tok, b: Tok)
    requires a.0 == [] ==> a.1 == Open(0) || a.1 == Close(0)
    requires b.0 != []
    ensures Silent([a, b])
  {
  }

  lemma {:induction false} SilentUnary(op: UnOp, c: Expr, lo: nat, hi: nat)
    requires Printable(Unary(op, c))
    ensures Silent(RawToks(Unary(op, c), lo, hi))
    decreases Unary(op, c), 0
  {
    var b := Bit(UnaryBracket(c));
    var o, s := (Rep('(', lo), Open(lo)), (UnarySymbol(op), UnaryOp(op));
    SilentRaw(c, b, b + hi);
    SilentTwo(o, s);
    RawUnary(op, c, lo, hi, b);
    SilentAppend([o, s], RawToks(c, b, b + hi));
  }

  lemma {:induction false} SilentBinary(op: BinOp, l: Expr, r: Expr, lo: nat, hi: nat)
    requires Printable(Binary(op, l, r))
    ensures Silent(RawToks(Binary(op, l, r), lo, hi))
    decreases Binary(op, l, r), 1
  {
    var lb, rb := Bit(LeftBracket(op, l)), Bit(RightBracket(op, r));
    SilentRaw(l, lo + lb, lb);
    SilentRight(op, l, r, lo, hi, lb, rb);
  }

  /** The infix tree's tokens, given its left operand's. */
  lemma {:induction false} SilentRight(op: BinOp, l: Expr, r: Expr, lo: nat, hi: nat, lb: nat, rb: nat)
    requires Printable(Binary(op, l, r))
    requires lb == Bit(LeftBracket(op, l)) && rb == Bit(RightBracket(op, r))
    requires Silent(RawToks(l, lo + lb, lb))
    ensures Silent(RawToks(Binary(op, l, r), lo, hi))
    decreases Binary(op, l, r), 0
  {
    SilentRaw(r, rb, rb + hi);
    SilentJoin(op, l, r, lo, hi, lb, rb);
  }

  /** The infix tree's tokens, given both operands'. */
  lemma SilentJoin(op: BinOp, l: Expr, r: Expr, lo: nat, hi: nat, lb: nat, rb: nat)
    requires lb == Bit(LeftBracket(op, l)) && rb == Bit(RightBracket(op, r))
    requires Silent(RawToks(l, lo + lb, lb)) && Silent(RawToks(r, rb, rb + hi))
    ensures Silent(RawToks(Binary(op, l, r), lo, hi))
  {
    var tl, s, tr := RawToks(l, lo + lb, lb), (BinarySymbol(op), BinaryOp(op)), RawToks(r, rb, rb + hi);
    RawBinary(op, l, r, lo, hi, lb, rb);
    assert Silent([s]);
    SilentAppend(tl, [s]);
    SilentAppend(tl + [s], tr);
  }

  /** Only an empty bracket run of a printable tree has no text. */
  lemma {:induction false} SilentRaw(e: Expr, lo: nat, hi: nat)
    requires Printable(e)
    ensures Silent(RawToks(e, lo, hi))
    decreases e, 2
  {
    match e
    case Num(v) =>
      SilentThree((Rep('(', lo), Open(lo)), (DecimalInt(v), Operand(e)), (Rep(')', hi), Close(hi)));
    case Var(x) =>
      SilentThree((Rep('(', lo), Open(lo)), (x, Operand(e)), (Rep(')', hi), Close(hi)));
    case Unary(op, c) =>
      SilentUnary(op, c, lo, hi);
    case Binary(op, l, r) =>
      SilentBinary(op, l, r, lo, hi);
  }

  // ---------------------------------------------------------------------------
  // The lexer cuts printed tokens apart

  /** Two neighbouring tokens lex apart: a binary operator has spaces round it, and otherwise the characters at the seam do not merge. */
  predicate Apart(a: Tok, b: Tok) {
    a.0 == [] || b.0 == [] || a.1.BinaryOp? || b.1.BinaryOp? || !Merges(a.0[|a.0| - 1], b.0[0])
  }

  /** Every token is a word and neighbours lex apart. */
  ghost predicate Lexes(ts: seq<Tok>) {
    && (forall k :: 0 <= k < |ts| ==> Word(ts[k].0))
    && (forall k :: 1 <= k < |ts| ==> Apart(ts[k - 1], ts[k]))
  }

  lemma LexesTail(ts: seq<Tok>)
    requires Lexes(ts) && ts != []
    ensures Lexes(ts[1..])
  {
    assert forall k :: 0 <= k < |ts| - 1 ==> ts[1..][k] == ts[k + 1];
  }

  /** The first token and the rest, printed. */
  lemma PrintedCons(ts: seq<Tok>)
    requires ts != []
    ensures Printed(ts) == Printed([ts[0]]) + Printed(ts[1..])
  {
    assert ts == [ts[0]] + ts[1..];
    PrintedAppend([ts[0]], ts[1..]);
  }

  /** A binary operator in front prints with a space either side. */
  lemma PrintedSpacedCons(ts: seq<Tok>)
    requires ts != [] && ts[0].1.BinaryOp?
    ensures Printed(ts) == " " + (ts[0].0 + (" " + Printed(ts[1..])))
  {
    var t, rest := ts[0].0, Spaced(ts[1..]);
    assert Spaced(ts) == [" "] + ([t] + ([" "] + rest));
    ConcatAppend([" "], [t] + ([" "] + rest));
    ConcatAppend([t], [" "] + rest);
    ConcatAppend([" "], rest);
    ConcatOne(" ");
    ConcatOne(t);
  }

  /** Any other token in front prints as its text. */
  lemma PrintedPlainCons(ts: seq<Tok>)
    requires ts != [] && !ts[0].1.BinaryOp?
    ensures Printed(ts) == ts[0].0 + Printed(ts[1..])
  {
    assert Spaced(ts) == [ts[0].0] + Spaced(ts[1..]);
  }

  /** The printed text starts with a space before a binary operator, and with the token's own first character otherwise. */
  lemma PrintedFirst(ts: seq<Tok>)
    requires ts != [] && ts[0].0 != []
    ensures Printed(ts) != []
    ensures Printed(ts)[0] == if ts[0].1.BinaryOp? then ' ' else ts[0].0[0]
  {
    PrintedCons(ts);
    PrintedOne(ts[0]);
  }

  lemma TextsCons(ts: seq<Tok>)
    requires ts != []
    ensures Texts(ts) == [ts[0].0] + Texts(ts[1..])
  {
  }

  /** A word with a space either side. */
  lemma TextsSpaced(t: string, tail: string)
    requires Word(t)
    ensures TextsOf(" " + (t + (" " + tail))) == [t] + TextsOf(tail)
  {
    TextsSpace(t + (" " + tail));
    TextsConcat(t, " " + tail);
    TextsWord(t);
    TextsSpace(tail);
  }

  /** A word at a cut. */
  lemma TextsBefore(t: string, tail: string)
    requires Word(t) && Cut(t, tail)
    ensures TextsOf(t + tail) == [t] + TextsOf(tail)
  {
    TextsConcat(t, tail);
    TextsWord(t);
  }

  /** A binary operator in front of printed tokens that lex back into their texts. */
  lemma TextsPrintedSpaced(ts: seq<Tok>)
    requires ts != [] && Word(ts[0].0) && ts[0].1.BinaryOp?
    requires TextsOf(Printed(ts[1..])) == Texts(ts[1..])
    ensures TextsOf(Printed(ts)) == Texts(ts)
  {
    PrintedSpacedCons(ts);
    TextsCons(ts);
    TextsSpaced(ts[0].0, Printed(ts[1..]));
  }

  /** Any other token in front of printed tokens that lex back into their texts. */
  lemma TextsPrintedPlain(ts: seq<Tok>)
    requires ts != [] && Word(ts[0].0) && !ts[0].1.BinaryOp?
    requires |ts| > 1 ==> ts[1].0 != [] && Apart(ts[0], ts[1])
    requires TextsOf(Printed(ts[1..])) == Texts(ts[1..])
    ensures TextsOf(Printed(ts)) == Texts(ts)
  {
    PrintedPlainCons(ts);
    TextsCons(ts);
    if |ts| > 1 {
      PrintedFirst(ts[1..]);
    }
    TextsBefore(ts[0].0, Printed(ts[1..]));
  }

  /** Printed tokens that lex apart are lexed back into their texts. */
  lemma {:induction false} TextsPrinted(ts: seq<Tok>)
    requires Lexes(ts)
    ensures TextsOf(Printed(ts)) == Texts(ts)
    decreases |ts|
  {
    if ts == [] {
      assert Printed(ts) == [];
    } else {
      LexesTail(ts);
      TextsPrinted(ts[1..]);
      if |ts| > 1 {
        assert Word(ts[1].0) && Apart(ts[0], ts[1]);
      }
      if ts[0].1.BinaryOp? {
        TextsPrintedSpaced(ts);
      } else {
        TextsPrintedPlain(ts);
      }
    }
  }
}
