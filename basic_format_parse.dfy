/**
 * The last step of the round trip between Format and the parser
 * (QBasic/basic/Expression.hpp:129-147, QBasic/basic/ExprParser.cpp): the
 * main pass of the operator-precedence parser rebuilds a tree from the items
 * of its printed form, and so parsing what Format prints gives the tree back.
 *
 * A bracket run is shifted as one bracket at a time, so the main pass is
 * followed over the items of a tree with every bracket its own item (Fine).
 * After the items of a tree, the pending stack holds the operators of its
 * right spine and the tree stack the finished left operands beside them
 * (Pend, Done); reducing those gives the tree.
 */
module BasicFormatParse {
  import opened StdTypes
  import opened BasicConfig
  import opened BasicError
  import opened BasicToken
  import opened BasicExpression
  import opened BasicExprParser
  import opened BasicFormatLex
  import opened BasicFormatItems

  // ---------------------------------------------------------------------------
  // The main pass from the front

  /** The items shifted one after another from the front. */
  function RunFrom(st: Stacks, items: seq<Item>, exprStr: string): ParseResult<Stacks>
    decreases |items|
  {
    if items == [] then Ok(st)
    else
      var s :- Shift(st, items[0], exprStr);
      RunFrom(s, items[1..], exprStr)
  }

  /** Shifting more items after a run: nothing after a failure. */
  function Then(r: ParseResult<Stacks>, items: seq<Item>, exprStr: string): ParseResult<Stacks> {
    if r.Err? then r else RunFrom(r.value, items, exprStr)
  }

  lemma {:induction false} RunFromAppend(st: Stacks, a: seq<Item>, b: seq<Item>, exprStr: string)
    ensures RunFrom(st, a + b, exprStr) == Then(RunFrom(st, a, exprStr), b, exprStr)
    decreases |a|
  {
    if a == [] {
      assert a + b == b;
    } else {
      assert (a + b)[0] == a[0] && (a + b)[1..] == a[1..] + b;
      var r := Shift(st, a[0], exprStr);
      if r.Ok? {
        RunFromAppend(r.value, a[1..], b, exprStr);
      }
    }
  }

  /** A run that ends well, followed by more items. */
  lemma RunFromOk(st: Stacks, a: seq<Item>, b: seq<Item>, mid: Stacks, exprStr: string)
    requires RunFrom(st, a, exprStr) == Ok(mid)
    ensures RunFrom(st, a + b, exprStr) == RunFrom(mid, b, exprStr)
  {
    RunFromAppend(st, a, b, exprStr);
  }

  /** Two runs one after the other. */
  lemma RunSeq(st: Stacks, a: seq<Item>, b: seq<Item>, s1: Stacks, s2: Stacks, exprStr: string)
    requires RunFrom(st, a, exprStr) == Ok(s1) && RunFrom(s1, b, exprStr) == Ok(s2)
    ensures RunFrom(st, a + b, exprStr) == Ok(s2)
  {
    RunFromAppend(st, a, b, exprStr);
  }

  lemma RunFromOne(st: Stacks, item: Item, exprStr: string)
    ensures RunFrom(st, [item], exprStr) == Shift(st, item, exprStr)
  {
    assert [item][1..] == [];
  }

  /** The main pass over a prefix, written from the front. */
  lemma {:induction false} RunItemsFrom(items: seq<Item>, n: nat, exprStr: string)
    requires n <= |items|
    ensures RunItems(items, n, exprStr) == RunFrom(Stacks([], []), items[..n], exprStr)
  {
    if n > 0 {
      RunItemsFrom(items, n - 1, exprStr);
      assert items[..n] == items[..n - 1] + [items[n - 1]];
      RunFromAppend(Stacks([], []), items[..n - 1], [items[n - 1]], exprStr);
      var r := RunItems(items, n - 1, exprStr);
      if r.Ok? {
        RunFromOne(r.value, items[n - 1], exprStr);
      }
    }
  }

  // ---------------------------------------------------------------------------
  // One bracket at a time

  function Opens(n: nat): (s: seq<Item>)
    ensures |s| == n
  {
    seq(n, _ => Open(1))
  }

  function Closes(n: nat): (s: seq<Item>)
    ensures |s| == n
  {
    seq(n, _ => Close(1))
  }

  /** A bracket run as single brackets; any other item as itself. */
  function Ones(item: Item): seq<Item> {
    match item
    case Open(n) => Opens(n)
    case Close(n) => Closes(n)
    case _ => [item]
  }

  /** The items with every bracket run split into single brackets. */
  function Expand(items: seq<Item>): seq<Item> {
    if items == [] then [] else Ones(items[0]) + Expand(items[1..])
  }

  lemma {:induction false} ExpandAppend(a: seq<Item>, b: seq<Item>)
    ensures Expand(a + b) == Expand(a) + Expand(b)
    decreases |a|
  {
    if a == [] {
      assert a + b == b;
    } else {
      assert (a + b)[0] == a[0] && (a + b)[1..] == a[1..] + b;
      ExpandAppend(a[1..], b);
    }
  }

  lemma MarkersCons(n: nat)
    ensures Markers(n + 1) == [Marker] + Markers(n)
  {
  }

  lemma {:induction false} ShiftOpens(st: Stacks, n: nat, exprStr: string)
    ensures RunFrom(st, Opens(n), exprStr) == Ok(Stacks(st.pending + Markers(n), st.trees))
    decreases n
  {
    if n == 0 {
      assert st.pending + Markers(0) == st.pending;
    } else {
      var s := Stacks(st.pending + [Marker], st.trees);
      assert Markers(1) == [Marker];
      assert Opens(n)[0] == Open(1) && Opens(n)[1..] == Opens(n - 1);
      assert Shift(st, Open(1), exprStr) == Ok(s);
      ShiftOpens(s, n - 1, exprStr);
      MarkersCons(n - 1);
      assert st.pending + [Marker] + Markers(n - 1) == st.pending + Markers(n);
    }
  }

  lemma ClosesSnoc(n: nat)
    ensures Closes(n + 1) == Closes(n) + [Close(1)]
  {
  }

  /** One closing bracket is one CloseOne. */
  lemma ShiftClose(st: Stacks, exprStr: string)
    ensures RunFrom(st, [Close(1)], exprStr) == CloseOne(st, exprStr)
  {
    RunFromOne(st, Close(1), exprStr);
    assert CloseBrackets(st, 0, exprStr) == Ok(st);
  }

  lemma {:induction false} ShiftCloses(st: Stacks, n: nat, exprStr: string)
    ensures RunFrom(st, Closes(n), exprStr) == CloseBrackets(st, n, exprStr)
    decreases n
  {
    if n == 0 {
      assert Closes(0) == [];
    } else {
      ShiftCloses(st, n - 1, exprStr);
      ClosesSnoc(n - 1);
      RunFromAppend(st, Closes(n - 1), [Close(1)], exprStr);
      var r := CloseBrackets(st, n - 1, exprStr);
      if r.Ok? {
        ShiftClose(r.value, exprStr);
      }
    }
  }

  /** Shifting an item is shifting its single brackets. */
  lemma ShiftOnes(st: Stacks, item: Item, exprStr: string)
    ensures Shift(st, item, exprStr) == RunFrom(st, Ones(item), exprStr)
  {
    match item
    case Open(n) => ShiftOpens(st, n, exprStr);
    case Close(n) => ShiftCloses(st, n, exprStr);
    case _ => RunFromOne(st, item, exprStr);
  }

  /** The main pass gives the same over the items and over their single brackets. */
  lemma {:induction false} RunExpand(st: Stacks, items: seq<Item>, exprStr: string)
    ensures RunFrom(st, items, exprStr) == RunFrom(st, Expand(items), exprStr)
    decreases |items|
  {
    if items != [] {
      var x, rest := items[0], items[1..];
      ShiftOnes(st, x, exprStr);
      RunFromAppend(st, Ones(x), Expand(rest), exprStr);
      var r := Shift(st, x, exprStr);
      if r.Ok? {
        RunExpand(r.value, rest, exprStr);
      }
    }
  }

  // ---------------------------------------------------------------------------
  // The items of a printed tree, one bracket at a time

  /** Items between a bracket pair, or bare. */
  function Wrap(b: bool, items: seq<Item>): seq<Item> {
    if b then [Open(1)] + items + [Close(1)] else items
  }

  /** The items of Format(e), every bracket its own item. */
  function Fine(e: Expr): seq<Item> {
    match e
    case Num(_) => [Operand(e)]
    case Var(_) => [Operand(e)]
    case Unary(op, c) => [UnaryOp(op)] + Wrap(UnaryBracket(c), Fine(c))
    case Binary(op, l, r) => Wrap(LeftBracket(op, l), Fine(l)) + [BinaryOp(op)] + Wrap(RightBracket(op, r), Fine(r))
  }

  lemma ItemsAppend(a: seq<Tok>, b: seq<Tok>)
    ensures Items(a + b) == Items(a) + Items(b)
  {
  }

  /** Expand over the items of a list of tokens, by parts. */
  lemma ExpandToks(a: seq<Tok>, b: seq<Tok>)
    ensures Expand(Items(a + b)) == Expand(Items(a)) + Expand(Items(b))
  {
    ItemsAppend(a, b);
    ExpandAppend(Items(a), Items(b));
  }

  lemma ExpandSingle(x: Item)
    ensures Expand([x]) == Ones(x)
  {
    assert [x][1..] == [];
  }

  lemma ItemsTwo(a: Tok, b: Tok)
    ensures Items([a, b]) == [a.1] + [b.1]
  {
  }

  lemma ItemsThree(a: Tok, b: Tok, c: Tok)
    ensures Items([a, b, c]) == [a.1] + [b.1] + [c.1]
  {
  }

  lemma ExpandThree(a: Tok, b: Tok, c: Tok)
    requires !b.1.Open? && !b.1.Close?
    ensures Expand(Items([a, b, c])) == Ones(a.1) + [b.1] + Ones(c.1)
  {
    ItemsThree(a, b, c);
    ExpandAppend([a.1] + [b.1], [c.1]);
    ExpandAppend([a.1], [b.1]);
    ExpandSingle(a.1);
    ExpandSingle(b.1);
    ExpandSingle(c.1);
  }

  lemma ExpandTwo(a: Tok, b: Tok)
    requires !b.1.Open? && !b.1.Close?
    ensures Expand(Items([a, b])) == Ones(a.1) + [b.1]
  {
    ItemsTwo(a, b);
    ExpandAppend([a.1], [b.1]);
    ExpandSingle(a.1);
    ExpandSingle(b.1);
  }

  lemma ExpandOne(a: Tok)
    requires !a.1.Open? && !a.1.Close?
    ensures Expand(Items([a])) == [a.1]
  {
    assert Items([a]) == [a.1];
    ExpandSingle(a.1);
  }

  lemma OpensAdd(a: nat, b: nat)
    ensures Opens(a + b) == Opens(a) + Opens(b)
  {
  }

  lemma ClosesAdd(a: nat, b: nat)
    ensures Closes(a + b) == Closes(a) + Closes(b)
  {
  }

  lemma WrapBit(b: bool, items: seq<Item>)
    ensures Wrap(b, items) == Opens(Bit(b)) + items + Closes(Bit(b))
  {
    if b {
      assert Opens(1) == [Open(1)] && Closes(1) == [Close(1)];
    } else {
      assert Opens(0) == [] && Closes(0) == [];
    }
  }

  lemma FineUnary(op: UnOp, c: Expr, b: nat)
    requires b == Bit(UnaryBracket(c))
    ensures Fine(Unary(op, c)) == [UnaryOp(op)] + (Opens(b) + Fine(c) + Closes(b))
  {
    WrapBit(UnaryBracket(c), Fine(c));
  }

  lemma FineBinary(op: BinOp, l: Expr, r: Expr, lb: nat, rb: nat)
    requires lb == Bit(LeftBracket(op, l)) && rb == Bit(RightBracket(op, r))
    ensures Fine(Binary(op, l, r)) == (Opens(lb) + Fine(l) + Closes(lb)) + [BinaryOp(op)] + (Opens(rb) + Fine(r) + Closes(rb))
  {
    WrapBit(LeftBracket(op, l), Fine(l));
    WrapBit(RightBracket(op, r), Fine(r));
  }

  lemma RegroupUnary(o: seq<Item>, u: seq<Item>, ob: seq<Item>, f: seq<Item>, cb: seq<Item>, ch: seq<Item>)
    ensures (o + u) + (ob + f + (cb + ch)) == o + (u + (ob + f + cb)) + ch
  {
  }

  lemma RegroupBinary(o: seq<Item>, ol: seq<Item>, fl: seq<Item>, cl: seq<Item>, x: seq<Item>, or: seq<Item>, fr: seq<Item>, cr: seq<Item>, ch: seq<Item>)
    ensures ((o + ol) + fl + cl) + x + (or + fr + (cr + ch)) == o + ((ol + fl + cl) + x + (or + fr + cr)) + ch
  {
  }

  lemma {:induction false} ExpandUnary(op: UnOp, c: Expr, lo: nat, hi: nat)
    ensures Expand(Items(RawToks(Unary(op, c), lo, hi))) == Opens(lo) + Fine(Unary(op, c)) + Closes(hi)
    decreases Unary(op, c), 0
  {
    var b := Bit(UnaryBracket(c));
    var o: Tok, s: Tok := (Rep('(', lo), Open(lo)), (UnarySymbol(op), UnaryOp(op));
    var rc := RawToks(c, b, b + hi);
    RawUnary(op, c, lo, hi, b);
    ExpandToks([o, s], rc);
    ExpandTwo(o, s);
    ExpandRaw(c, b, b + hi);
    ClosesAdd(b, hi);
    FineUnary(op, c, b);
    RegroupUnary(Opens(lo), [UnaryOp(op)], Opens(b), Fine(c), Closes(b), Closes(hi));
  }

  lemma {:induction false} ExpandBinary(op: BinOp, l: Expr, r: Expr, lo: nat, hi: nat)
    ensures Expand(Items(RawToks(Binary(op, l, r), lo, hi))) == Opens(lo) + Fine(Binary(op, l, r)) + Closes(hi)
    decreases Binary(op, l, r), 1
  {
    var lb, rb := Bit(LeftBracket(op, l)), Bit(RightBracket(op, r));
    ExpandRaw(l, lo + lb, lb);
    ExpandRight(op, l, r, lo, hi, lb, rb);
  }

  /** The split items of an infix tree's tokens, given those of its left operand's tokens. */
  lemma {:induction false} ExpandRight(op: BinOp, l: Expr, r: Expr, lo: nat, hi: nat, lb: nat, rb: nat)
    requires lb == Bit(LeftBracket(op, l)) && rb == Bit(RightBracket(op, r))
    requires Expand(Items(RawToks(l, lo + lb, lb))) == Opens(lo + lb) + Fine(l) + Closes(lb)
    ensures Expand(Items(RawToks(Binary(op, l, r), lo, hi))) == Opens(lo) + Fine(Binary(op, l, r)) + Closes(hi)
    decreases Binary(op, l, r), 0
  {
    ExpandRaw(r, rb, rb + hi);
    BinaryGlue(op, l, r, lo, hi, lb, rb);
  }

  /** The split items of an infix tree's tokens, given those of its operands' tokens. */
  lemma BinaryGlue(op: BinOp, l: Expr, r: Expr, lo: nat, hi: nat, lb: nat, rb: nat)
    requires lb == Bit(LeftBracket(op, l)) && rb == Bit(RightBracket(op, r))
    requires Expand(Items(RawToks(l, lo + lb, lb))) == Opens(lo + lb) + Fine(l) + Closes(lb)
    requires Expand(Items(RawToks(r, rb, rb + hi))) == Opens(rb) + Fine(r) + Closes(rb + hi)
    ensures Expand(Items(RawToks(Binary(op, l, r), lo, hi))) == Opens(lo) + Fine(Binary(op, l, r)) + Closes(hi)
  {
    var s: Tok := (BinarySymbol(op), BinaryOp(op));
    RawBinary(op, l, r, lo, hi, lb, rb);
    FineBinary(op, l, r, lb, rb);
    ExpandGlue(RawToks(Binary(op, l, r), lo, hi), RawToks(l, lo + lb, lb), s, RawToks(r, rb, rb + hi),
      lo, hi, lb, rb, Fine(l), Fine(r), Fine(Binary(op, l, r)));
  }

  /**
   * The items of an infix token between two operands' tokens, split into
   * single brackets, given what the operands' tokens split into.
   */
  lemma ExpandGlue(whole: seq<Tok>, tl: seq<Tok>, s: Tok, tr: seq<Tok>, lo: nat, hi: nat, lb: nat, rb: nat,
                   fl: seq<Item>, fr: seq<Item>, fine: seq<Item>)
    requires !s.1.Open? && !s.1.Close?
    requires whole == tl + [s] + tr
    requires Expand(Items(tl)) == Opens(lo + lb) + fl + Closes(lb)
    requires Expand(Items(tr)) == Opens(rb) + fr + Closes(rb + hi)
    requires fine == (Opens(lb) + fl + Closes(lb)) + [s.1] + (Opens(rb) + fr + Closes(rb))
    ensures Expand(Items(whole)) == Opens(lo) + fine + Closes(hi)
  {
    ExpandToks(tl + [s], tr);
    ExpandToks(tl, [s]);
    ExpandOne(s);
    OpensAdd(lo, lb);
    ClosesAdd(rb, hi);
    RegroupBinary(Opens(lo), Opens(lb), fl, Closes(lb), [s.1], Opens(rb), fr, Closes(rb), Closes(hi));
  }

  /** The laid-out tokens of a tree, one bracket at a time, are its fine items inside the brackets. */
  lemma {:induction false} ExpandRaw(e: Expr, lo: nat, hi: nat)
    ensures Expand(Items(RawToks(e, lo, hi))) == Opens(lo) + Fine(e) + Closes(hi)
    decreases e, 2
  {
    match e
    case Num(v) =>
      ExpandThree((Rep('(', lo), Open(lo)), (DecimalInt(v), Operand(e)), (Rep(')', hi), Close(hi)));
    case Var(x) =>
      ExpandThree((Rep('(', lo), Open(lo)), (x, Operand(e)), (Rep(')', hi), Close(hi)));
    case Unary(op, c) =>
      ExpandUnary(op, c, lo, hi);
    case Binary(op, l, r) =>
      ExpandBinary(op, l, r, lo, hi);
  }

  lemma ExpandCons(ts: seq<Tok>)
    requires ts != []
    ensures Expand(Items(ts)) == Ones(ts[0].1) + Expand(Items(ts[1..]))
  {
    assert ts == [ts[0]] + ts[1..];
    ExpandToks([ts[0]], ts[1..]);
    assert Items([ts[0]]) == [ts[0].1];
    ExpandSingle(ts[0].1);
  }

  /** A token kept or dropped by Vis gives the same single brackets. */
  lemma ExpandKept(t: Tok)
    requires t.0 == [] ==> t.1 == Open(0) || t.1 == Close(0)
    ensures Expand(Items(Kept(t))) == Ones(t.1)
  {
    if t.0 == [] {
      assert Items(Kept(t)) == [];
    } else {
      assert Items(Kept(t)) == [t.1];
      ExpandSingle(t.1);
    }
  }

  /** Tokens without a text add no items once brackets are split. */
  lemma {:induction false} ExpandVis(ts: seq<Tok>)
    requires Silent(ts)
    ensures Expand(Items(Vis(ts))) == Expand(Items(ts))
    decreases |ts|
  {
    if ts != [] {
      SilentTail(ts);
      ExpandVis(ts[1..]);
      ExpandCons(ts);
      ExpandToks(Kept(ts[0]), Vis(ts[1..]));
      ExpandKept(ts[0]);
    }
  }

  // ---------------------------------------------------------------------------
  // What the main pass leaves after a tree

  /** The pending entries left after the items of a tree: the operators of its right spine and the last operand. */
  function Pend(e: Expr): seq<Pending> {
    match e
    case Num(_) => [PendingOperand(e)]
    case Var(_) => [PendingOperand(e)]
    case Unary(op, c) => [PendingUnary(op)] + (if UnaryBracket(c) then [] else Pend(c))
    case Binary(op, l, r) => [PendingBinary(op)] + (if RightBracket(op, r) then [] else Pend(r))
  }

  /** The finished trees left beside them: the operands waiting for those operators. */
  function Done(e: Expr): seq<Expr> {
    match e
    case Num(_) => []
    case Var(_) => []
    case Unary(_, c) => if UnaryBracket(c) then [c] else Done(c)
    case Binary(op, l, r) => [l] + (if RightBracket(op, r) then [r] else Done(r))
  }

  /** A tree in brackets leaves nothing pending, only itself. */
  function WPend(b: bool, e: Expr): seq<Pending> {
    if b then [] else Pend(e)
  }

  function WDone(b: bool, e: Expr): seq<Expr> {
    if b then [e] else Done(e)
  }

  /** Every entry pops under an incoming precedence. */
  ghost predicate PopsAll(p: seq<Pending>, precedence: int, assoEqual: bool) {
    forall k :: 0 <= k < |p| ==> Pops(p[k], precedence, assoEqual)
  }

  /** An incoming precedence below the tree's own (or equal, for a left-associative one). */
  predicate Below(e: Expr, precedence: int, assoEqual: bool) {
    if assoEqual then Precedence(e) >= precedence else Precedence(e) > precedence
  }

  /** The right spine binds at least as tightly as the tree itself, so all of it pops below the tree's precedence. */
  lemma {:induction false} PendPops(e: Expr, precedence: int, assoEqual: bool)
    requires Below(e, precedence, assoEqual)
    ensures PopsAll(Pend(e), precedence, assoEqual)
  {
    match e
    case Num(_) =>
      assert Pend(e) == [PendingOperand(e)];
    case Var(_) =>
      assert Pend(e) == [PendingOperand(e)];
    case Unary(op, c) =>
      if !UnaryBracket(c) {
        PendPops(c, precedence, assoEqual);
        assert forall k :: 1 <= k < |Pend(e)| ==> Pend(e)[k] == Pend(c)[k - 1];
      }
    case Binary(op, l, r) =>
      if !RightBracket(op, r) {
        PendPops(r, precedence, assoEqual);
        assert forall k :: 1 <= k < |Pend(e)| ==> Pend(e)[k] == Pend(r)[k - 1];
      }
  }

  /** Reducing one operand. */
  lemma ReduceOperand(p: seq<Pending>, t: seq<Expr>, e: Expr, precedence: int, assoEqual: bool, exprStr: string)
    requires Pops(PendingOperand(e), precedence, assoEqual)
    ensures Reduce(Stacks(p + [PendingOperand(e)], t), precedence, assoEqual, exprStr) == Reduce(Stacks(p, t + [e]), precedence, assoEqual, exprStr)
  {
    assert Pop(p + [PendingOperand(e)]) == p;
  }

  /** Reducing one unary operator. */
  lemma ReduceUnary(p: seq<Pending>, t: seq<Expr>, op: UnOp, c: Expr, precedence: int, assoEqual: bool, exprStr: string)
    requires Pops(PendingUnary(op), precedence, assoEqual)
    ensures Reduce(Stacks(p + [PendingUnary(op)], t + [c]), precedence, assoEqual, exprStr) == Reduce(Stacks(p, t + [Unary(op, c)]), precedence, assoEqual, exprStr)
  {
    assert Pop(p + [PendingUnary(op)]) == p && Pop(t + [c]) == t;
  }

  /** Reducing one binary operator. */
  lemma ReduceBinary(p: seq<Pending>, t: seq<Expr>, op: BinOp, l: Expr, r: Expr, precedence: int, assoEqual: bool, exprStr: string)
    requires Pops(PendingBinary(op), precedence, assoEqual)
    ensures Reduce(Stacks(p + [PendingBinary(op)], t + [l, r]), precedence, assoEqual, exprStr) == Reduce(Stacks(p, t + [Binary(op, l, r)]), precedence, assoEqual, exprStr)
  {
    var es := t + [l, r];
    assert Pop(p + [PendingBinary(op)]) == p && es[..|es| - 2] == t && es[|es| - 2] == l && Top(es) == r;
  }

  /** The entries after the first of a tree's residue. */
  lemma PopsTail(head: Pending, rest: seq<Pending>, precedence: int, assoEqual: bool)
    requires PopsAll([head] + rest, precedence, assoEqual)
    ensures Pops(head, precedence, assoEqual) && PopsAll(rest, precedence, assoEqual)
  {
    assert ([head] + rest)[0] == head;
    assert forall k :: 0 <= k < |rest| ==> rest[k] == ([head] + rest)[k + 1];
  }

  lemma {:induction false} ReduceResidueUnary(op: UnOp, c: Expr, p: seq<Pending>, t: seq<Expr>, precedence: int, assoEqual: bool, exprStr: string)
    requires PopsAll(Pend(Unary(op, c)), precedence, assoEqual)
    ensures Reduce(Stacks(p + Pend(Unary(op, c)), t + Done(Unary(op, c))), precedence, assoEqual, exprStr) == Reduce(Stacks(p, t + [Unary(op, c)]), precedence, assoEqual, exprStr)
    decreases Unary(op, c), 0
  {
    var rest := if UnaryBracket(c) then [] else Pend(c);
    assert Pend(Unary(op, c)) == [PendingUnary(op)] + rest;
    PopsTail(PendingUnary(op), rest, precedence, assoEqual);
    Assoc(p, [PendingUnary(op)], rest);
    if UnaryBracket(c) {
      assert rest == [] && Done(Unary(op, c)) == [c];
    } else {
      ReduceResidue(c, p + [PendingUnary(op)], t, precedence, assoEqual, exprStr);
    }
    ReduceUnary(p, t, op, c, precedence, assoEqual, exprStr);
  }

  lemma ReduceBracketedRight(op: BinOp, l: Expr, r: Expr, p: seq<Pending>, t: seq<Expr>, precedence: int, assoEqual: bool, exprStr: string)
    requires RightBracket(op, r)
    requires Pops(PendingBinary(op), precedence, assoEqual)
    ensures Reduce(Stacks(p + Pend(Binary(op, l, r)), t + Done(Binary(op, l, r))), precedence, assoEqual, exprStr) == Reduce(Stacks(p, t + [Binary(op, l, r)]), precedence, assoEqual, exprStr)
  {
    assert p + Pend(Binary(op, l, r)) == p + [PendingBinary(op)] && t + Done(Binary(op, l, r)) == t + [l, r];
    ReduceBinary(p, t, op, l, r, precedence, assoEqual, exprStr);
  }

  lemma ResidueRight(op: BinOp, l: Expr, r: Expr, p: seq<Pending>, t: seq<Expr>)
    requires !RightBracket(op, r)
    ensures p + Pend(Binary(op, l, r)) == p + [PendingBinary(op)] + Pend(r)
    ensures t + Done(Binary(op, l, r)) == t + [l] + Done(r)
  {
  }

  lemma {:induction false} ReduceResidueBinary(op: BinOp, l: Expr, r: Expr, p: seq<Pending>, t: seq<Expr>, precedence: int, assoEqual: bool, exprStr: string)
    requires PopsAll(Pend(Binary(op, l, r)), precedence, assoEqual)
    ensures Reduce(Stacks(p + Pend(Binary(op, l, r)), t + Done(Binary(op, l, r))), precedence, assoEqual, exprStr) == Reduce(Stacks(p, t + [Binary(op, l, r)]), precedence, assoEqual, exprStr)
    decreases Binary(op, l, r), 0
  {
    var rest := if RightBracket(op, r) then [] else Pend(r);
    assert Pend(Binary(op, l, r)) == [PendingBinary(op)] + rest;
    PopsTail(PendingBinary(op), rest, precedence, assoEqual);
    if RightBracket(op, r) {
      ReduceBracketedRight(op, l, r, p, t, precedence, assoEqual, exprStr);
    } else {
      ReduceResidue(r, p + [PendingBinary(op)], t + [l], precedence, assoEqual, exprStr);
      ResidueRight(op, l, r, p, t);
      assert t + [l] + [r] == t + [l, r];
      ReduceBinary(p, t, op, l, r, precedence, assoEqual, exprStr);
    }
  }

  /** Reducing what a tree left, when all of it pops, leaves the tree. */
  lemma {:induction false} ReduceResidue(e: Expr, p: seq<Pending>, t: seq<Expr>, precedence: int, assoEqual: bool, exprStr: string)
    requires PopsAll(Pend(e), precedence, assoEqual)
    ensures Reduce(Stacks(p + Pend(e), t + Done(e)), precedence, assoEqual, exprStr) == Reduce(Stacks(p, t + [e]), precedence, assoEqual, exprStr)
    decreases e, 1
  {
    match e
    case Num(_) =>
      assert Pend(e) == [PendingOperand(e)] && t + Done(e) == t;
      assert Pops(Pend(e)[0], precedence, assoEqual);
      ReduceOperand(p, t, e, precedence, assoEqual, exprStr);
    case Var(_) =>
      assert Pend(e) == [PendingOperand(e)] && t + Done(e) == t;
      assert Pops(Pend(e)[0], precedence, assoEqual);
      ReduceOperand(p, t, e, precedence, assoEqual, exprStr);
    case Unary(op, c) =>
      ReduceResidueUnary(op, c, p, t, precedence, assoEqual, exprStr);
    case Binary(op, l, r) =>
      ReduceResidueBinary(op, l, r, p, t, precedence, assoEqual, exprStr);
  }

  // ---------------------------------------------------------------------------
  // The main pass over the items of a tree

  /** A left-associative binary operator at the root. */
  predicate LeftRoot(e: Expr) {
    e.Binary? && BinaryAsso(e.bop) == Left
  }

  /** What is pending below the tree's items does not pop when the tree's root comes in. */
  predicate Guarded(p: seq<Pending>, e: Expr) {
    p == [] || !Pops(Top(p), Precedence(e), LeftRoot(e))
  }

  /** An unbracketed left operand is guarded by what guards its parent. */
  lemma GuardLeft(p: seq<Pending>, op: BinOp, l: Expr, r: Expr)
    requires Guarded(p, Binary(op, l, r)) && !LeftBracket(op, l)
    ensures Guarded(p, l)
  {
  }

  /** An unbracketed right operand is guarded by its parent operator. */
  lemma GuardRight(p: seq<Pending>, op: BinOp, r: Expr)
    requires !RightBracket(op, r)
    ensures Guarded(p + [PendingBinary(op)], r)
  {
  }

  /** An unbracketed unary operand is guarded by its operator. */
  lemma GuardUnary(p: seq<Pending>, op: UnOp, c: Expr)
    requires !UnaryBracket(c)
    ensures Guarded(p + [PendingUnary(op)], c)
  {
  }

  /** Shifting an operator or operand that nothing pending pops for. */
  lemma ShiftPush(st: Stacks, item: Item, p: Pending, exprStr: string)
    requires (item.Operand? && p == PendingOperand(item.e)) || (item.UnaryOp? && p == PendingUnary(item.uop)) || (item.BinaryOp? && p == PendingBinary(item.bop))
    requires st.pending == [] || !Pops(Top(st.pending), PendingPrecedence(p), p.PendingBinary? && BinaryAsso(p.bop) == Left)
    ensures RunFrom(st, [item], exprStr) == Ok(Stacks(st.pending + [p], st.trees))
  {
    RunFromOne(st, item, exprStr);
  }

  lemma RunOperand(e: Expr, p: seq<Pending>, t: seq<Expr>, exprStr: string)
    requires e.Num? || e.Var?
    requires Guarded(p, e)
    ensures RunFrom(Stacks(p, t), Fine(e), exprStr) == Ok(Stacks(p + Pend(e), t + Done(e)))
  {
    assert Fine(e) == [Operand(e)] && Pend(e) == [PendingOperand(e)] && t + Done(e) == t;
    ShiftPush(Stacks(p, t), Operand(e), PendingOperand(e), exprStr);
  }

  /** A closing bracket after the items of a tree reduces them to the tree and drops the marker. */
  lemma CloseTree(e: Expr, p: seq<Pending>, t: seq<Expr>, exprStr: string)
    ensures RunFrom(Stacks(p + [Marker] + Pend(e), t + Done(e)), [Close(1)], exprStr) == Ok(Stacks(p, t + [e]))
  {
    var pm := p + [Marker];
    ShiftClose(Stacks(pm + Pend(e), t + Done(e)), exprStr);
    PendPops(e, INT_MIN, false);
    ReduceResidue(e, pm, t, INT_MIN, false, exprStr);
    assert Reduce(Stacks(pm, t + [e]), INT_MIN, false, exprStr) == Ok(Stacks(pm, t + [e]));
    assert Pop(pm) == p;
  }

  /** A tree in a bracket pair leaves nothing pending and itself finished. */
  lemma {:induction false} RunBracketed(e: Expr, p: seq<Pending>, t: seq<Expr>, exprStr: string)
    ensures RunFrom(Stacks(p, t), [Open(1)] + Fine(e) + [Close(1)], exprStr) == Ok(Stacks(p, t + [e]))
    decreases e, 2
  {
    var pm := p + [Marker];
    ShiftOpens(Stacks(p, t), 1, exprStr);
    assert Opens(1) == [Open(1)] && Markers(1) == [Marker];
    RunTree(e, pm, t, exprStr);
    CloseTree(e, p, t, exprStr);
    RunSeq(Stacks(p, t), [Open(1)], Fine(e), Stacks(pm, t), Stacks(pm + Pend(e), t + Done(e)), exprStr);
    RunSeq(Stacks(p, t), [Open(1)] + Fine(e), [Close(1)], Stacks(pm + Pend(e), t + Done(e)), Stacks(p, t + [e]), exprStr);
  }

  /** The items of a tree, bracketed or not. */
  lemma {:induction false} RunWrap(b: bool, e: Expr, p: seq<Pending>, t: seq<Expr>, exprStr: string)
    requires b || Guarded(p, e)
    ensures RunFrom(Stacks(p, t), Wrap(b, Fine(e)), exprStr) == Ok(Stacks(p + WPend(b, e), t + WDone(b, e)))
    decreases e, 3
  {
    if b {
      RunBracketed(e, p, t, exprStr);
      assert p + WPend(b, e) == p;
    } else {
      RunTree(e, p, t, exprStr);
    }
  }

  lemma ResidueUnary(op: UnOp, c: Expr, p: seq<Pending>, t: seq<Expr>)
    ensures Fine(Unary(op, c)) == [UnaryOp(op)] + Wrap(UnaryBracket(c), Fine(c))
    ensures p + [PendingUnary(op)] + WPend(UnaryBracket(c), c) == p + Pend(Unary(op, c))
    ensures t + WDone(UnaryBracket(c), c) == t + Done(Unary(op, c))
  {
    var b := UnaryBracket(c);
    assert Pend(Unary(op, c)) == [PendingUnary(op)] + WPend(b, c);
    assert Done(Unary(op, c)) == WDone(b, c);
    Assoc(p, [PendingUnary(op)], WPend(b, c));
  }

  lemma {:induction false} RunUnary(op: UnOp, c: Expr, p: seq<Pending>, t: seq<Expr>, exprStr: string)
    requires Guarded(p, Unary(op, c))
    ensures RunFrom(Stacks(p, t), Fine(Unary(op, c)), exprStr) == Ok(Stacks(p + Pend(Unary(op, c)), t + Done(Unary(op, c))))
    decreases Unary(op, c), 0
  {
    var b := UnaryBracket(c);
    var pu := p + [PendingUnary(op)];
    ShiftPush(Stacks(p, t), UnaryOp(op), PendingUnary(op), exprStr);
    if !b {
      GuardUnary(p, op, c);
    }
    RunWrap(b, c, pu, t, exprStr);
    RunSeq(Stacks(p, t), [UnaryOp(op)], Wrap(b, Fine(c)), Stacks(pu, t), Stacks(pu + WPend(b, c), t + WDone(b, c)), exprStr);
    ResidueUnary(op, c, p, t);
  }

  /** After the left operand, the binary operator reduces it and is pushed. */
  lemma ShiftInfix(op: BinOp, l: Expr, r: Expr, lb: bool, p: seq<Pending>, t: seq<Expr>, exprStr: string)
    requires Guarded(p, Binary(op, l, r))
    requires lb == LeftBracket(op, l)
    ensures RunFrom(Stacks(p + WPend(lb, l), t + WDone(lb, l)), [BinaryOp(op)], exprStr) == Ok(Stacks(p + [PendingBinary(op)], t + [l]))
  {
    var ae := BinaryAsso(op) == Left;
    var q := BinaryPrecedence(op);
    var st, done := Stacks(p + WPend(lb, l), t + WDone(lb, l)), Stacks(p, t + [l]);
    GuardedPush(op, l, r, p, t, exprStr);
    if lb {
      assert st == done;
    } else {
      PendPops(l, q, ae);
      ReduceResidue(l, p, t, q, ae, exprStr);
    }
    assert Reduce(st, q, ae, exprStr) == Ok(done);
    PushGlue(st, done, op, exprStr);
  }

  /** A guarded binary operator reduces nothing below its left operand's tree. */
  lemma GuardedPush(op: BinOp, l: Expr, r: Expr, p: seq<Pending>, t: seq<Expr>, exprStr: string)
    requires Guarded(p, Binary(op, l, r))
    ensures Reduce(Stacks(p, t + [l]), BinaryPrecedence(op), BinaryAsso(op) == Left, exprStr) == Ok(Stacks(p, t + [l]))
  {
  }

  /** A binary operator whose reduction of st leaves `done` unchanged is pushed onto it. */
  lemma PushGlue(st: Stacks, done: Stacks, op: BinOp, exprStr: string)
    requires Reduce(st, BinaryPrecedence(op), BinaryAsso(op) == Left, exprStr) == Ok(done)
    ensures RunFrom(st, [BinaryOp(op)], exprStr) == Ok(Stacks(done.pending + [PendingBinary(op)], done.trees))
  {
    RunFromOne(st, BinaryOp(op), exprStr);
    assert Shift(st, BinaryOp(op), exprStr) == PushPending(st, PendingBinary(op), exprStr);
  }

  lemma {:induction false} RunBinary(op: BinOp, l: Expr, r: Expr, p: seq<Pending>, t: seq<Expr>, exprStr: string)
    requires Guarded(p, Binary(op, l, r))
    ensures RunFrom(Stacks(p, t), Fine(Binary(op, l, r)), exprStr) == Ok(Stacks(p + Pend(Binary(op, l, r)), t + Done(Binary(op, l, r))))
    decreases Binary(op, l, r), 0
  {
    var lb, rb := LeftBracket(op, l), RightBracket(op, r);
    var wl, wr := Wrap(lb, Fine(l)), Wrap(rb, Fine(r));
    var pb, tl := p + [PendingBinary(op)], t + [l];
    if !lb {
      GuardLeft(p, op, l, r);
    }
    if !rb {
      GuardRight(p, op, r);
    }
    RunWrap(lb, l, p, t, exprStr);
    ShiftInfix(op, l, r, lb, p, t, exprStr);
    RunWrap(rb, r, pb, tl, exprStr);
    RunThree(Stacks(p, t), wl, BinaryOp(op), wr, Stacks(p + WPend(lb, l), t + WDone(lb, l)), Stacks(pb, tl), Stacks(pb + WPend(rb, r), tl + WDone(rb, r)), exprStr);
    ResidueBinary(op, l, r, p, t);
  }

  lemma RunThree(st: Stacks, a: seq<Item>, x: Item, b: seq<Item>, s1: Stacks, s2: Stacks, s3: Stacks, exprStr: string)
    requires RunFrom(st, a, exprStr) == Ok(s1)
    requires RunFrom(s1, [x], exprStr) == Ok(s2)
    requires RunFrom(s2, b, exprStr) == Ok(s3)
    ensures RunFrom(st, a + [x] + b, exprStr) == Ok(s3)
  {
    RunFromOk(st, a, [x], s1, exprStr);
    RunFromOk(st, a + [x], b, s2, exprStr);
  }

  lemma ResidueBinary(op: BinOp, l: Expr, r: Expr, p: seq<Pending>, t: seq<Expr>)
    ensures Fine(Binary(op, l, r)) == Wrap(LeftBracket(op, l), Fine(l)) + [BinaryOp(op)] + Wrap(RightBracket(op, r), Fine(r))
    ensures p + [PendingBinary(op)] + WPend(RightBracket(op, r), r) == p + Pend(Binary(op, l, r))
    ensures t + [l] + WDone(RightBracket(op, r), r) == t + Done(Binary(op, l, r))
  {
    var rb := RightBracket(op, r);
    assert Pend(Binary(op, l, r)) == [PendingBinary(op)] + WPend(rb, r);
    assert Done(Binary(op, l, r)) == [l] + WDone(rb, r);
    Assoc(p, [PendingBinary(op)], WPend(rb, r));
    Assoc(t, [l], WDone(rb, r));
  }

  /** Concatenation is associative. */
  lemma Assoc<T>(a: seq<T>, b: seq<T>, c: seq<T>)
    ensures a + b + c == a + (b + c)
  {
  }

  /** The main pass over the fine items of a tree leaves its right spine pending and its left operands finished. */
  lemma {:induction false} RunTree(e: Expr, p: seq<Pending>, t: seq<Expr>, exprStr: string)
    requires Guarded(p, e)
    ensures RunFrom(Stacks(p, t), Fine(e), exprStr) == Ok(Stacks(p + Pend(e), t + Done(e)))
    decreases e, 1
  {
    match e
    case Num(_) =>
      RunOperand(e, p, t, exprStr);
    case Var(_) =>
      RunOperand(e, p, t, exprStr);
    case Unary(op, c) =>
      RunUnary(op, c, p, t, exprStr);
    case Binary(op, l, r) =>
      RunBinary(op, l, r, p, t, exprStr);
  }

  /** The end of the main pass over a tree's items rebuilds the tree. */
  lemma FinishTree(e: Expr, exprStr: string)
    ensures Finish(Stacks(Pend(e), Done(e)), exprStr) == Ok(e)
  {
    PendPops(e, INT_MIN, false);
    ReduceResidue(e, [], [], INT_MIN, false, exprStr);
    assert [] + Pend(e) == Pend(e) && [] + Done(e) == Done(e);
    assert Reduce(Stacks([], [e]), INT_MIN, false, exprStr) == Ok(Stacks([], [e]));
  }

  // ---------------------------------------------------------------------------
  // The round trip

  /** Format's text lexes into the texts of the shown tokens, which form a good chain. */
  lemma LexFormat(e: Expr)
    requires Printable(e)
    ensures Good(Shown(e, 0, 0))
    ensures LexTexts(Format(e)) == Texts(Shown(e, 0, 0))
  {
    var raw := RawToks(e, 0, 0);
    var ts := Shown(e, 0, 0);
    GoodTree(e, 0, 0);
    GoodLexes(ts);
    TextsPrinted(ts);
    SilentRaw(e, 0, 0);
    PrintedVis(raw);
    PrintedRaw(e, 0, 0);
    FormatRuns(e);
    assert Around(e, 0, 0) == Runs(e);
    LexTextsOf(Format(e));
  }

  /** The main pass over the items of a printable tree's tokens leaves its residue. */
  lemma RunShown(e: Expr, exprStr: string)
    requires Printable(e)
    ensures RunItems(Items(Shown(e, 0, 0)), |Shown(e, 0, 0)|, exprStr) == Ok(Stacks(Pend(e), Done(e)))
  {
    var items := Items(Shown(e, 0, 0));
    var empty := Stacks([], []);
    RunItemsFrom(items, |items|, exprStr);
    assert items[..|items|] == items;
    RunExpand(empty, items, exprStr);
    SilentRaw(e, 0, 0);
    ExpandVis(RawToks(e, 0, 0));
    ExpandRaw(e, 0, 0);
    assert Opens(0) + Fine(e) + Closes(0) == Fine(e);
    RunTree(e, [], [], exprStr);
    assert [] + Pend(e) == Pend(e) && [] + Done(e) == Done(e);
  }

  /** The corrected parser reads the texts of a printable tree's tokens back into the tree. */
  lemma ParseShown(e: Expr, exprStr: string)
    requires Printable(e)
    ensures Good(Shown(e, 0, 0)) && NonEmptyTexts(Texts(Shown(e, 0, 0)))
    ensures ParseTexts(Texts(Shown(e, 0, 0)), exprStr) == Ok(e)
  {
    var ts := Shown(e, 0, 0);
    GoodTree(e, 0, 0);
    PrepassGood(ts, exprStr);
    RunShown(e, exprStr);
    FinishTree(e, exprStr);
  }

  /**
   * The round trip: the tokens of Format(e), as Tokenize cuts them, parse
   * back into e, for every tree Format prints unambiguously.
   */
  lemma FormatRoundTrip(e: Expr, tokens: seq<Token>)
    requires Printable(e)
    requires TokensOf(tokens, Format(e))
    ensures AllValid(tokens)
    ensures ParseTokens(tokens) == Ok(e)
  {
    TokensOfViews(tokens, Format(e));
    LexFormat(e);
    ParseShown(e, DeTokenizeSpan(tokens));
    assert Views(tokens) == Texts(Shown(e, 0, 0));
  }

  /** Where the round trip fails: a unary minus before a unary minus prints as "--", one invalid token. */
  lemma DoubleNegation(exprStr: string)
    ensures Format(Unary(Neg, Unary(Neg, Var("X")))) == "--X"
    ensures LexTexts("--X") == ["--", "X"]
    ensures ParseTexts(["--", "X"], exprStr) == Err(InvalidToken(exprStr, "", "--"))
  {
    var line := "--X";
    assert Precedence(Unary(Neg, Var("X"))) == UNARY_PRECEDENCE;
    assert Lex(line) == [(0, 2), (2, 3)] by {
      assert TokenEnd(line, 3) == 3;
      assert TokenEnd(line, 2) == 2;
      assert TokenEnd(line, 1) == 2;
    }
    var t := LexTexts(line);
    assert t[0] == "--" && t[1] == "X";
    var texts := ["--", "X"];
    assert !HasEmptyPair(texts) by {
      assert !EmptyPairAt(texts, 1);
    }
    assert ClassifyToken(texts, exprStr, 0) == Err(InvalidToken(exprStr, "", "--")) by {
      assert !IsOperatorText("--") && !AllDigits("--") && !IsVariableName("--");
    }
    assert ClassifyPrefix(texts, exprStr, 1) == Err(InvalidToken(exprStr, "", "--"));
  }
}
