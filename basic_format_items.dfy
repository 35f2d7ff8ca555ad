/**
 * The second step of the round trip between Format and the parser
 * (QBasic/basic/Expression.hpp, QBasic/basic/ExprParser.cpp): the tokens of a
 * printed tree lex apart, and the parser's pre-pass classifies their texts
 * into the tokens' own items, finds no empty bracket pair, and the adjacency
 * check finds no two operands side by side.
 *
 * Which item may follow which (Joint) is proved once for the tokens of a
 * tree; the facts about texts are then read off token by token (Proper).
 */
module BasicFormatItems {
  import opened StdTypes
  import opened BasicConfig
  import opened BasicError
  import opened BasicToken
  import opened BasicExpression
  import opened BasicExprParser
  import opened BasicFormatLex

  /** An operator after this item is unary: after an operator or an opening run (UnaryPosition). */
  predicate After(item: Item) {
    item.UnaryOp? || item.BinaryOp? || item.Open?
  }

  /** The text a printed tree shows for an item, where an operator would be unary or binary. */
  predicate Proper(t: Tok, unary: bool) {
    match t.1
    case Operand(e) =>
      || (e.Num? && e.value >= 0 && t.0 == DecimalNat(e.value))
      || (e.Var? && IsVariableName(e.name) && e.name != "MOD" && t.0 == e.name)
    case UnaryOp(op) => unary && t.0 == UnarySymbol(op)
    case BinaryOp(op) => !unary && t.0 == BinarySymbol(op)
    case Open(n) => n > 0 && t.0 == Rep('(', n)
    case Close(n) => n > 0 && t.0 == Rep(')', n)
  }

  /** Which token may follow which in a printed tree. */
  predicate Joint(a: Tok, b: Tok) {
    && Proper(b, After(a.1))
    && !(a.1.Open? && (b.1.Open? || b.1.Close?))
    && !(a.1.Close? && b.1.Close?)
    && !(EndsOperand(a.1) && StartsOperand(b.1))
    && !(a.1.UnaryOp? && b.1 == a.1)
  }

  /** Every neighbouring pair joint. */
  predicate Chain(ts: seq<Tok>) {
    |ts| <= 1 || (Joint(ts[0], ts[1]) && Chain(ts[1..]))
  }

  /** A non-empty chain that starts where an operand is expected and ends in an operand or a ')' run. */
  predicate Good(ts: seq<Tok>) {
    ts != [] && Chain(ts) && Proper(ts[0], true) && EndsOperand(ts[|ts| - 1].1)
  }

  /** Two chains joint at the seam make one. */
  lemma {:induction false} ChainAppend(a: seq<Tok>, b: seq<Tok>)
    requires Chain(a) && Chain(b) && a != [] && b != []
    requires Joint(a[|a| - 1], b[0])
    ensures Chain(a + b)
    decreases |a|
  {
    if |a| == 1 {
      assert (a + b)[1..] == b;
    } else {
      ChainAppend(a[1..], b);
      assert (a + b)[1..] == a[1..] + b;
    }
  }

  /** Every neighbouring pair of a chain is joint. */
  lemma {:induction false} ChainAt(ts: seq<Tok>, k: nat)
    requires Chain(ts) && 1 <= k < |ts|
    ensures Joint(ts[k - 1], ts[k])
    decreases k
  {
    if k >= 2 {
      ChainAt(ts[1..], k - 1);
      assert ts[1..][k - 1] == ts[k] && ts[1..][k - 2] == ts[k - 1];
    }
  }

  // ---------------------------------------------------------------------------
  // The tokens of a tree

  lemma VisThree(a: Tok, b: Tok, c: Tok)
    requires b.0 != []
    ensures Vis([a, b, c]) == Kept(a) + [b] + Kept(c)
  {
    assert [a, b, c][1..] == [b, c] && [b, c][1..] == [c] && [c][1..] == [];
    assert Vis([c]) == Kept(c) + Vis([]) == Kept(c);
    assert Vis([b, c]) == Kept(b) + Vis([c]) == [b] + Kept(c);
    assert Vis([a, b, c]) == Kept(a) + ([b] + Kept(c));
  }

  lemma VisTwo(a: Tok, b: Tok)
    requires b.0 != []
    ensures Vis([a, b]) == Kept(a) + [b]
  {
    assert [a, b][1..] == [b] && [b][1..] == [];
    assert Vis([b]) == Kept(b) + Vis([]) == [b];
    assert Vis([a, b]) == Kept(a) + Vis([b]);
  }

  /** The tokens of a tree inside lo opening and hi closing brackets that have a text. */
  function Shown(e: Expr, lo: nat, hi: nat): seq<Tok> {
    Vis(RawToks(e, lo, hi))
  }

  /** The shown tokens of a unary tree. */
  lemma VisUnary(op: UnOp, c: Expr, lo: nat, hi: nat, b: nat)
    requires b == Bit(UnaryBracket(c))
    ensures Shown(Unary(op, c), lo, hi) == Kept((Rep('(', lo), Open(lo))) + ([(UnarySymbol(op), UnaryOp(op))] + Shown(c, b, b + hi))
  {
    var o, s := (Rep('(', lo), Open(lo)), (UnarySymbol(op), UnaryOp(op));
    RawUnary(op, c, lo, hi, b);
    VisAppend([o, s], RawToks(c, b, b + hi));
    VisTwo(o, s);
  }

  /** The shown tokens of a binary tree. */
  lemma VisBinary(op: BinOp, l: Expr, r: Expr, lo: nat, hi: nat, lb: nat, rb: nat)
    requires lb == Bit(LeftBracket(op, l)) && rb == Bit(RightBracket(op, r))
    ensures Shown(Binary(op, l, r), lo, hi) == Shown(l, lo + lb, lb) + [(BinarySymbol(op), BinaryOp(op))] + Shown(r, rb, rb + hi)
  {
    var tl, s, tr := RawToks(l, lo + lb, lb), (BinarySymbol(op), BinaryOp(op)), RawToks(r, rb, rb + hi);
    RawBinary(op, l, r, lo, hi, lb, rb);
    VisSplit(tl, s, tr);
  }

  /** The shown tokens around a token with a text. */
  lemma VisSplit(a: seq<Tok>, s: Tok, b: seq<Tok>)
    requires s.0 != []
    ensures Vis(a + [s] + b) == Vis(a) + [s] + Vis(b)
  {
    VisAppend(a + [s], b);
    VisAppend(a, [s]);
    assert [s][1..] == [];
    assert Vis([s]) == [s] + Vis([]);
  }

  /** An opening run before a chain that starts with an operand or a unary operator. */
  lemma GoodOpen(n: nat, ts: seq<Tok>)
    requires n > 0 && Good(ts) && (ts[0].1.Operand? || ts[0].1.UnaryOp?)
    ensures Good([(Rep('(', n), Open(n))] + ts)
  {
    var o := (Rep('(', n), Open(n));
    ChainAppend([o], ts);
    assert ([o] + ts)[|ts|] == ts[|ts| - 1];
  }

  /** The tokens of an operand, with its runs. */
  lemma GoodLeaf(x: Tok, lo: nat, hi: nat)
    requires Proper(x, true) && x.1.Operand?
    ensures var ts := Kept((Rep('(', lo), Open(lo))) + [x] + Kept((Rep(')', hi), Close(hi)));
      && Good(ts)
      && (lo > 0 ==> ts[0].1.Open?)
      && (lo == 0 ==> ts[0] == x)
  {
    var o, z := (Rep('(', lo), Open(lo)), (Rep(')', hi), Close(hi));
    var m := [x] + Kept(z);
    if hi > 0 {
      ChainAppend([x], [z]);
    }
    assert Good(m) && m[0] == x;
    if lo > 0 {
      GoodOpen(lo, m);
    } else {
      assert Kept(o) + m == m;
    }
    assert Kept(o) + [x] + Kept(z) == Kept(o) + m;
  }

  /**
   * What GoodTree promises of the shown tokens of a tree inside lo opening
   * brackets: a good chain, and how it starts.
   */
  ghost predicate GoodTokens(e: Expr, lo: nat, ts: seq<Tok>) {
    && Good(ts)
    && (lo > 0 ==> ts[0].1.Open?)
    && (lo == 0 && (e.Num? || e.Var?) ==> ts[0].1 == Operand(e))
    && (lo == 0 && e.Unary? ==> ts[0].1 == UnaryOp(e.uop))
  }

  /** A unary operator before the good tokens of its operand. */
  lemma GoodPrefix(op: UnOp, c: Expr, lo: nat, b: nat, vc: seq<Tok>, v: seq<Tok>)
    requires Printable(Unary(op, c)) && b == Bit(UnaryBracket(c)) && GoodTokens(c, b, vc)
    requires v == Kept((Rep('(', lo), Open(lo))) + ([(UnarySymbol(op), UnaryOp(op))] + vc)
    ensures GoodTokens(Unary(op, c), lo, v)
  {
    var s := (UnarySymbol(op), UnaryOp(op));
    assert vc[0].1 != UnaryOp(op) by {
      if b == 0 {
        assert !c.Binary?;
      }
    }
    ChainAppend([s], vc);
    var m := [s] + vc;
    assert m[|m| - 1] == vc[|vc| - 1];
    assert Good(m) && m[0] == s;
    if lo > 0 {
      GoodOpen(lo, m);
    } else {
      assert Kept((Rep('(', lo), Open(lo))) + m == m;
    }
  }

  lemma {:induction false} GoodUnary(op: UnOp, c: Expr, lo: nat, hi: nat)
    requires Printable(Unary(op, c))
    ensures GoodTokens(Unary(op, c), lo, Shown(Unary(op, c), lo, hi))
    decreases Unary(op, c), 0
  {
    var b := Bit(UnaryBracket(c));
    GoodTree(c, b, b + hi);
    VisUnary(op, c, lo, hi, b);
    GoodPrefix(op, c, lo, b, Shown(c, b, b + hi), Shown(Unary(op, c), lo, hi));
  }

  /** Two good chains with a binary operator between them. */
  lemma GoodInfix(vl: seq<Tok>, op: BinOp, vr: seq<Tok>)
    requires Good(vl) && Good(vr)
    ensures Good(vl + [(BinarySymbol(op), BinaryOp(op))] + vr)
    ensures (vl + [(BinarySymbol(op), BinaryOp(op))] + vr)[0] == vl[0]
  {
    var s := (BinarySymbol(op), BinaryOp(op));
    ChainAppend(vl, [s]);
    ChainAppend(vl + [s], vr);
    var v := vl + [s] + vr;
    assert v[|v| - 1] == vr[|vr| - 1];
  }

  /** A binary operator between the good tokens of its operands. */
  lemma GoodBetween(op: BinOp, l: Expr, r: Expr, lo: nat, lb: nat, rb: nat, vl: seq<Tok>, vr: seq<Tok>, v: seq<Tok>)
    requires GoodTokens(l, lo + lb, vl) && GoodTokens(r, rb, vr)
    requires v == vl + [(BinarySymbol(op), BinaryOp(op))] + vr
    ensures GoodTokens(Binary(op, l, r), lo, v)
  {
    GoodInfix(vl, op, vr);
  }

  lemma {:induction false} GoodBinary(op: BinOp, l: Expr, r: Expr, lo: nat, hi: nat)
    requires Printable(Binary(op, l, r))
    ensures GoodTokens(Binary(op, l, r), lo, Shown(Binary(op, l, r), lo, hi))
    decreases Binary(op, l, r), 0
  {
    var lb, rb := Bit(LeftBracket(op, l)), Bit(RightBracket(op, r));
    GoodTree(l, lo + lb, lb);
    GoodTree(r, rb, rb + hi);
    GoodOperands(op, l, r, lo, hi, lb, rb);
  }

  /** The good tokens of both operands, with the operator between them, are the good tokens of the tree. */
  lemma GoodOperands(op: BinOp, l: Expr, r: Expr, lo: nat, hi: nat, lb: nat, rb: nat)
    requires lb == Bit(LeftBracket(op, l)) && rb == Bit(RightBracket(op, r))
    requires GoodTokens(l, lo + lb, Shown(l, lo + lb, lb)) && GoodTokens(r, rb, Shown(r, rb, rb + hi))
    ensures GoodTokens(Binary(op, l, r), lo, Shown(Binary(op, l, r), lo, hi))
  {
    VisBinary(op, l, r, lo, hi, lb, rb);
    GoodBetween(op, l, r, lo, lb, rb, Shown(l, lo + lb, lb), Shown(r, rb, rb + hi), Shown(Binary(op, l, r), lo, hi));
  }

  /** The shown tokens of a printable tree form a good chain. */
  lemma {:induction false} GoodTree(e: Expr, lo: nat, hi: nat)
    requires Printable(e)
    ensures GoodTokens(e, lo, Shown(e, lo, hi))
    decreases e, 1
  {
    match e
    case Num(v) =>
      var x := (DecimalInt(v), Operand(e));
      VisThree((Rep('(', lo), Open(lo)), x, (Rep(')', hi), Close(hi)));
      GoodLeaf(x, lo, hi);
    case Var(n) =>
      var x := (n, Operand(e));
      VisThree((Rep('(', lo), Open(lo)), x, (Rep(')', hi), Close(hi)));
      GoodLeaf(x, lo, hi);
    case Unary(op, c) =>
      GoodUnary(op, c, lo, hi);
    case Binary(op, l, r) =>
      GoodBinary(op, l, r, lo, hi);
  }

  // ---------------------------------------------------------------------------
  // From items to texts, token by token

  /** The first and last characters of a proper token's text. */
  lemma ProperEnds(t: Tok, unary: bool)
    requires Proper(t, unary)
    ensures |t.0| > 0
    ensures t.1.Operand? ==> IsAlnum(t.0[0]) && IsAlnum(t.0[|t.0| - 1])
    ensures t.1.UnaryOp? ==> t.0 == UnarySymbol(t.1.uop)
    ensures t.1.Open? ==> t.0[0] == '(' && t.0[|t.0| - 1] == '('
    ensures t.1.Close? ==> t.0[0] == ')' && t.0[|t.0| - 1] == ')'
    ensures t.1.BinaryOp? ==> t.0 == BinarySymbol(t.1.bop)
  {
    if t.1.Operand? && t.1.e.Num? {
      var d := DecimalNat(t.1.e.value);
      assert IsDigitChar(d[0]) && IsDigitChar(d[|d| - 1]);
    }
  }

  /** The text of a proper token is a word. */
  lemma ProperWord(t: Tok, unary: bool)
    requires Proper(t, unary)
    ensures Word(t.0)
  {
    ProperEnds(t, unary);
    var x := t.0;
    if t.1.Operand? && t.1.e.Num? {
      assert AllDigits(x);
    } else if t.1.BinaryOp? {
      assert x == "+" || x == "-" || x == "*" || x == "/" || x == "MOD" || x == "**";
    }
  }

  /** The pre-pass reads an operator after a proper token as unary exactly after an operator or an opening run. */
  lemma ProperAfter(t: Tok, unary: bool)
    requires Proper(t, unary)
    ensures |t.0| > 0 && ((IsOperatorText(t.0) || t.0[0] == '(') <==> After(t.1))
  {
    ProperEnds(t, unary);
  }

  /** The pre-pass turns a proper token into its item. */
  lemma ProperReads(t: Tok, unary: bool, exprStr: string)
    requires Proper(t, unary)
    ensures ClassifyText(t.0, unary, exprStr) == Ok(t.1)
  {
    ProperEnds(t, unary);
    match t.1
    case Operand(e) =>
      if e.Num? {
        DecimalNatRoundTrip(e.value);
        assert !IsOperatorText(t.0) by { assert IsDigitChar(t.0[0]); }
      } else {
        assert !AllDigits(t.0) by { assert !IsDigitChar(t.0[0]); }
      }
    case UnaryOp(op) =>
    case BinaryOp(op) =>
      assert BinarySymbol(BinaryOfText(t.0)) == t.0;
    case Open(n) =>
      assert !IsOperatorText(t.0) && !AllDigits(t.0) && !IsVariableName(t.0);
    case Close(n) =>
      assert !IsOperatorText(t.0) && !AllDigits(t.0) && !IsVariableName(t.0);
  }

  /** Joint tokens lex apart. */
  lemma JointApart(a: Tok, b: Tok, unary: bool)
    requires Proper(a, unary) && Joint(a, b)
    ensures Apart(a, b)
  {
    ProperEnds(a, unary);
    ProperEnds(b, After(a.1));
    if a.1.UnaryOp? && b.1.UnaryOp? {
      assert a.1.uop != b.1.uop;
      assert a.0[0] != b.0[0];
    }
  }

  /** Each token of a good chain is proper where it stands. */
  lemma ProperAt(ts: seq<Tok>, k: nat)
    requires Good(ts) && k < |ts|
    ensures Proper(ts[k], k == 0 || After(ts[k - 1].1))
    ensures k >= 1 ==> Joint(ts[k - 1], ts[k])
  {
    if k >= 1 {
      ChainAt(ts, k);
    }
  }

  /** The texts of a good chain are words and lex apart. */
  lemma GoodLexes(ts: seq<Tok>)
    requires Good(ts)
    ensures Lexes(ts)
  {
    forall k | 0 <= k < |ts| ensures Word(ts[k].0) {
      ProperAt(ts, k);
      ProperWord(ts[k], k == 0 || After(ts[k - 1].1));
    }
    forall k | 1 <= k < |ts| ensures Apart(ts[k - 1], ts[k]) {
      ProperAt(ts, k - 1);
      ProperAt(ts, k);
      JointApart(ts[k - 1], ts[k], k - 1 == 0 || After(ts[k - 2].1));
    }
  }

  /** Token k of a good chain classifies to its item. */
  lemma ClassifyAt(ts: seq<Tok>, exprStr: string, k: nat)
    requires Good(ts) && k < |ts|
    requires NonEmptyTexts(Texts(ts))
    ensures ClassifyToken(Texts(ts), exprStr, k) == Ok(Items(ts)[k])
  {
    var texts := Texts(ts);
    ProperAt(ts, k);
    if k >= 1 {
      ProperAt(ts, k - 1);
      ProperAfter(ts[k - 1], k - 1 == 0 || After(ts[k - 2].1));
      assert UnaryPosition(texts, k) == After(ts[k - 1].1);
    }
    ProperReads(ts[k], k == 0 || After(ts[k - 1].1), exprStr);
  }

  /** No token of a good chain ending in '(' is followed by one starting with ')'. */
  lemma NoEmptyPair(ts: seq<Tok>)
    requires Good(ts)
    requires NonEmptyTexts(Texts(ts))
    ensures !HasEmptyPair(Texts(ts))
  {
    var texts := Texts(ts);
    forall i | 1 <= i < |texts| ensures !EmptyPairAt(texts, i) {
      ProperAt(ts, i - 1);
      ProperAt(ts, i);
      ProperEnds(ts[i - 1], i - 1 == 0 || After(ts[i - 2].1));
      ProperEnds(ts[i], After(ts[i - 1].1));
    }
  }

  /** The pre-pass and the adjacency check pass the texts of a good chain and give back its items. */
  lemma PrepassGood(ts: seq<Tok>, exprStr: string)
    requires Good(ts)
    ensures NonEmptyTexts(Texts(ts))
    ensures Classify(Texts(ts), exprStr) == Ok(Items(ts))
    ensures CheckAdjacency(Items(ts), Texts(ts), exprStr, |ts|) == Ok(())
  {
    var texts, items := Texts(ts), Items(ts);
    GoodLexes(ts);
    NoEmptyPair(ts);
    forall k | 0 <= k < |ts| ensures ClassifyToken(texts, exprStr, k) == Ok(items[k]) {
      ClassifyAt(ts, exprStr, k);
    }
    ClassifyFrom(texts, exprStr, items, |ts|);
    assert items[..|ts|] == items;
    forall k | 1 <= k < |ts| ensures !Juxtaposed(items, k) {
      ProperAt(ts, k);
    }
  }
}
