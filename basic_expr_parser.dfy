/**
 * The expression parser (QBasic/basic/ExprParser.cpp): an operator-precedence
 * (shunting-yard) parser over the tokens of one expression.
 *
 * Pre-pass: reject an empty bracket pair, mark which tokens are operators,
 * decide from the previous token whether an operator is unary or binary, and
 * turn every token into an operand, an operator or a run of brackets.
 * Main pass: operators and operands wait on a pending stack (a marker stands
 * for each '('), finished sub-trees on a tree stack; before something is
 * pushed, pending operators binding at least as tightly are reduced.
 *
 * The specification functions below take the token texts and the text of the
 * whole expression (for error messages); the method Parse works on tokens and
 * is proved to agree with them.
 */
module BasicExprParser {
  import opened StdTypes
  import opened BasicConfig
  import opened BasicError
  import opened BasicToken
  import opened BasicExpression

  /** What the pre-pass turns a token into; a bracket token counts its characters. */
  datatype Item =
    | Operand(e: Expr)
    | UnaryOp(uop: UnOp)
    | BinaryOp(bop: BinOp)
    | Open(count: nat)
    | Close(count: nat)

  /** An entry of the pending stack: a '(' marker, or a token waiting for its operands. */
  datatype Pending =
    | Marker
    | PendingOperand(e: Expr)
    | PendingUnary(uop: UnOp)
    | PendingBinary(bop: BinOp)

  /** The two stacks, tops last. */
  datatype Stacks = Stacks(pending: seq<Pending>, trees: seq<Expr>)

  predicate NonEmptyTexts(texts: seq<string>) {
    forall k :: 0 <= k < |texts| ==> |texts[k]| > 0
  }

  /** The symbols of the operator alternatives. */
  predicate IsOperatorText(t: string) {
    t == "+" || t == "-" || t == "*" || t == "/" || t == "MOD" || t == "**"
  }

  // ---------------------------------------------------------------------------
  // Pre-pass

  /** A token ending in '(' directly followed by one starting with ')'. */
  predicate EmptyPairAt(texts: seq<string>, i: nat)
    requires NonEmptyTexts(texts)
    requires 1 <= i < |texts|
  {
    texts[i - 1][|texts[i - 1]| - 1] == '(' && texts[i][0] == ')'
  }

  predicate HasEmptyPair(texts: seq<string>)
    requires NonEmptyTexts(texts)
  {
    exists i :: 1 <= i < |texts| && EmptyPairAt(texts, i)
  }

  /** An operator is unary at the start, after an operator, or after an opening bracket. */
  predicate UnaryPosition(texts: seq<string>, i: nat)
    requires NonEmptyTexts(texts)
    requires i < |texts|
  {
    i == 0 || IsOperatorText(texts[i - 1]) || texts[i - 1][0] == '('
  }

  function BinaryOfText(t: string): (op: BinOp)
    requires IsOperatorText(t)
    ensures BinarySymbol(op) == t
  {
    if t == "+" then Add
    else if t == "-" then Sub
    else if t == "*" then Mul
    else if t == "/" then Div
    else if t == "MOD" then Mod
    else Exp
  }

  /** What a token text becomes, given whether an operator there is unary: an operand, an operator, a bracket run, or an invalid token. */
  function ClassifyText(t: string, unary: bool, exprStr: string): (r: ParseResult<Item>)
    requires |t| > 0
    ensures r.Err? ==> r.error == InvalidToken(exprStr, "", t)
    ensures r.Ok? && r.value.Operand? && r.value.e.Num? ==> AllDigits(t) && r.value.e.value == DigitsValue(t)
    ensures r.Ok? && r.value.Operand? && r.value.e.Var? ==> IsVariableName(t) && r.value.e.name == t
    ensures r.Ok? && r.value.UnaryOp? ==> unary && UnarySymbol(r.value.uop) == t
    ensures r.Ok? && r.value.BinaryOp? ==> !unary && BinarySymbol(r.value.bop) == t
    ensures r.Ok? && (r.value.Open? || r.value.Close?) ==> !IsOperatorText(t) && r.value.count == |t|
  {
    var op := IsOperatorText(t);
    if !op && AllDigits(t) then Ok(Operand(Num(DigitsValue(t))))
    else if op && unary && t == "+" then Ok(UnaryOp(Pos))
    else if op && unary && t == "-" then Ok(UnaryOp(Neg))
    else if op && !unary then Ok(BinaryOp(BinaryOfText(t)))
    else if !op && IsVariableName(t) then Ok(Operand(Var(t)))
    else if t[0] == '(' then Ok(Open(|t|))
    else if t[0] == ')' then Ok(Close(|t|))
    else Err(InvalidToken(exprStr, "", t))
  }

  /** What token i becomes, an operator being unary where UnaryPosition says. */
  function ClassifyToken(texts: seq<string>, exprStr: string, i: nat): (r: ParseResult<Item>)
    requires NonEmptyTexts(texts)
    requires i < |texts|
    ensures r.Err? ==> r.error == InvalidToken(exprStr, "", texts[i])
    ensures r.Ok? && r.value.Operand? && r.value.e.Num? ==> AllDigits(texts[i]) && r.value.e.value == DigitsValue(texts[i])
    ensures r.Ok? && r.value.Operand? && r.value.e.Var? ==> IsVariableName(texts[i]) && r.value.e.name == texts[i]
    ensures r.Ok? && r.value.UnaryOp? ==> UnaryPosition(texts, i) && UnarySymbol(r.value.uop) == texts[i]
    ensures r.Ok? && r.value.BinaryOp? ==> !UnaryPosition(texts, i) && BinarySymbol(r.value.bop) == texts[i]
    ensures r.Ok? && (r.value.Open? || r.value.Close?) ==> !IsOperatorText(texts[i]) && r.value.count == |texts[i]|
  {
    ClassifyText(texts[i], UnaryPosition(texts, i), exprStr)
  }

  /** The items of the first n tokens, or the first invalid token among them. */
  function ClassifyPrefix(texts: seq<string>, exprStr: string, n: nat): (r: ParseResult<seq<Item>>)
    requires NonEmptyTexts(texts)
    requires n <= |texts|
    ensures r.Ok? ==> |r.value| == n && forall k :: 0 <= k < n ==> ClassifyToken(texts, exprStr, k) == Ok(r.value[k])
    ensures r.Ok? ==> PositiveCounts(r.value)
    ensures r.Err? ==> r.error.InvalidToken? && r.error.exprStr == exprStr && r.error.stmtStr == ""
  {
    if n == 0 then Ok([])
    else
      var items :- ClassifyPrefix(texts, exprStr, n - 1);
      var item :- ClassifyToken(texts, exprStr, n - 1);
      Ok(items + [item])
  }

  /** The pre-pass succeeds with the given items when every token classifies to its item. */
  lemma {:induction false} ClassifyFrom(texts: seq<string>, exprStr: string, items: seq<Item>, n: nat)
    requires NonEmptyTexts(texts) && |items| == |texts| && n <= |texts|
    requires forall k :: 0 <= k < n ==> ClassifyToken(texts, exprStr, k) == Ok(items[k])
    ensures ClassifyPrefix(texts, exprStr, n) == Ok(items[..n])
  {
    if n > 0 {
      ClassifyFrom(texts, exprStr, items, n - 1);
      PrefixStep(texts, exprStr, n, items[..n - 1], items[n - 1]);
      assert items[..n - 1] + [items[n - 1]] == items[..n];
    }
  }

  /** One more token classified extends the pre-pass of the tokens before it. */
  lemma PrefixStep(texts: seq<string>, exprStr: string, n: nat, prev: seq<Item>, item: Item)
    requires NonEmptyTexts(texts) && 0 < n <= |texts|
    requires ClassifyPrefix(texts, exprStr, n - 1) == Ok(prev)
    requires ClassifyToken(texts, exprStr, n - 1) == Ok(item)
    ensures ClassifyPrefix(texts, exprStr, n) == Ok(prev + [item])
  {
  }

  /** The whole pre-pass: the empty-pair check comes first, then the tokens left to right. */
  function Classify(texts: seq<string>, exprStr: string): ParseResult<seq<Item>>
    requires NonEmptyTexts(texts)
  {
    if HasEmptyPair(texts) then Err(InvalidToken(exprStr, "", "()")) else ClassifyPrefix(texts, exprStr, |texts|)
  }

  // ---------------------------------------------------------------------------
  // Main pass

  function PendingPrecedence(p: Pending): int
    requires !p.Marker?
  {
    match p
    case PendingOperand(_) => INT_MAX
    case PendingUnary(_) => UNARY_PRECEDENCE
    case PendingBinary(op) => BinaryPrecedence(op)
  }

  /** Does make_new_expr pop this entry? */
  predicate Pops(p: Pending, precedence: int, assoEqual: bool) {
    !p.Marker? && (if assoEqual then PendingPrecedence(p) >= precedence else PendingPrecedence(p) > precedence)
  }

  function Top<T>(s: seq<T>): T
    requires |s| > 0
  {
    s[|s| - 1]
  }

  function Pop<T>(s: seq<T>): seq<T>
    requires |s| > 0
  {
    s[..|s| - 1]
  }

  /**
   * make_new_expr: pop pending entries while they bind at least as tightly
   * (assoEqual) or more tightly than `precedence`, giving each operator its
   * operands from the tree stack. It stops at a marker, an empty stack, or an
   * operator missing an operand (NoOperand).
   */
  function Reduce(st: Stacks, precedence: int, assoEqual: bool, exprStr: string): (r: ParseResult<Stacks>)
    ensures r.Ok? ==> IsSeqPrefix(r.value.pending, st.pending)
    ensures r.Ok? ==> r.value.pending == [] || !Pops(Top(r.value.pending), precedence, assoEqual)
    ensures r.Err? ==> r.error.NoOperand? && r.error.exprStr == exprStr
    decreases |st.pending|
  {
    if st.pending == [] || !Pops(Top(st.pending), precedence, assoEqual) then Ok(st)
    else
      var rest := Pop(st.pending);
      var es := st.trees;
      match Top(st.pending)
      case PendingOperand(e) => Reduce(Stacks(rest, es + [e]), precedence, assoEqual, exprStr)
      case PendingUnary(op) =>
        if es == [] then Err(NoOperand(exprStr, UnarySymbol(op)))
        else Reduce(Stacks(rest, Pop(es) + [Unary(op, Top(es))]), precedence, assoEqual, exprStr)
      case PendingBinary(op) =>
        if |es| < 2 then Err(NoOperand(exprStr, BinarySymbol(op)))
        else Reduce(Stacks(rest, es[..|es| - 2] + [Binary(op, es[|es| - 2], Top(es))]), precedence, assoEqual, exprStr)
  }

  function Markers(n: nat): (m: seq<Pending>)
    ensures |m| == n && forall k :: 0 <= k < n ==> m[k] == Marker
  {
    if n == 0 then [] else Markers(n - 1) + [Marker]
  }

  /** One ')' : reduce down to the nearest marker and drop it; with no marker left the brackets are unmatched. */
  function CloseOne(st: Stacks, exprStr: string): ParseResult<Stacks> {
    var s :- Reduce(st, INT_MIN, false, exprStr);
    if s.pending == [] then Err(BracketUnmatched(exprStr)) else Ok(Stacks(Pop(s.pending), s.trees))
  }

  function CloseBrackets(st: Stacks, n: nat, exprStr: string): ParseResult<Stacks> {
    if n == 0 then Ok(st)
    else
      var s :- CloseBrackets(st, n - 1, exprStr);
      CloseOne(s, exprStr)
  }

  /** Reduce what binds at least as tightly as the incoming token (for a left-associative one), then push it. */
  function PushPending(st: Stacks, p: Pending, exprStr: string): ParseResult<Stacks>
    requires !p.Marker?
  {
    var assoEqual := p.PendingBinary? && BinaryAsso(p.bop) == Left;
    var s :- Reduce(st, PendingPrecedence(p), assoEqual, exprStr);
    Ok(Stacks(s.pending + [p], s.trees))
  }

  function Shift(st: Stacks, item: Item, exprStr: string): ParseResult<Stacks> {
    match item
    case Open(n) => Ok(Stacks(st.pending + Markers(n), st.trees))
    case Close(n) => CloseBrackets(st, n, exprStr)
    case Operand(e) => PushPending(st, PendingOperand(e), exprStr)
    case UnaryOp(op) => PushPending(st, PendingUnary(op), exprStr)
    case BinaryOp(op) => PushPending(st, PendingBinary(op), exprStr)
  }

  /** The stacks after the first n items. */
  function RunItems(items: seq<Item>, n: nat, exprStr: string): ParseResult<Stacks>
    requires n <= |items|
  {
    if n == 0 then Ok(Stacks([], []))
    else
      var st :- RunItems(items, n - 1, exprStr);
      Shift(st, items[n - 1], exprStr)
  }

  /**
   * After the last token: reduce everything; a marker left means an unclosed
   * '('; exactly one tree must remain, else the expression is empty or the
   * tree below the top one is an orphan. (A pending operator cannot be left
   * over: Reduce with INT_MIN only stops at a marker.)
   */
  function Finish(st: Stacks, exprStr: string): ParseResult<Expr> {
    var s :- Reduce(st, INT_MIN, false, exprStr);
    if s.pending != [] then Err(BracketUnmatched(exprStr))
    else if s.trees == [] then Err(EmptyExpr(exprStr))
    else if |s.trees| > 1 then Err(OrphanExpr(exprStr, Format(s.trees[|s.trees| - 2])))
    else Ok(s.trees[0])
  }

  /** Expression::Parse as the source writes it. */
  function ParseUnchecked(texts: seq<string>, exprStr: string): ParseResult<Expr>
    requires NonEmptyTexts(texts)
  {
    if texts == [] then Err(EmptyExpr(exprStr))
    else
      var items :- Classify(texts, exprStr);
      var st :- RunItems(items, |items|, exprStr);
      Finish(st, exprStr)
  }

  // ---------------------------------------------------------------------------
  // The adjacency check of the corrected parser

  /** An item after which an operator (or the end) must come. */
  predicate EndsOperand(item: Item) {
    item.Operand? || item.Close?
  }

  /** An item that may only come where an operand is expected. */
  predicate StartsOperand(item: Item) {
    item.Operand? || item.Open?
  }

  /** Items k-1 and k are two operands (or bracket groups) side by side with no operator between them. */
  predicate Juxtaposed(items: seq<Item>, k: nat)
    requires 1 <= k < |items|
  {
    EndsOperand(items[k - 1]) && StartsOperand(items[k])
  }

  /** The first juxtaposition among the first n items, reported as an invalid token. */
  function CheckAdjacency(items: seq<Item>, texts: seq<string>, exprStr: string, n: nat): (r: ParseResult<()>)
    requires |items| == |texts|
    requires n <= |items|
    ensures r.Ok? <==> forall k :: 1 <= k < n ==> !Juxtaposed(items, k)
    ensures r.Err? ==> exists k :: 1 <= k < n && Juxtaposed(items, k) && r.error == InvalidToken(exprStr, "", texts[k])
  {
    if n <= 1 then Ok(())
    else
      var _ :- CheckAdjacency(items, texts, exprStr, n - 1);
      if Juxtaposed(items, n - 1) then Err(InvalidToken(exprStr, "", texts[n - 1])) else Ok(())
  }

  /**
   * Expression::Parse with the missing adjacency check added: the source's
   * parse runs unchanged and keeps every error it reports; only a tree it
   * builds from an operand or a '(' directly after an operand or a ')' is
   * then rejected, as an invalid token naming the first such token.
   */
  function ParseTexts(texts: seq<string>, exprStr: string): (r: ParseResult<Expr>)
    requires NonEmptyTexts(texts)
    ensures ParseUnchecked(texts, exprStr).Err? ==> r == ParseUnchecked(texts, exprStr)
    ensures r.Ok? ==> r == ParseUnchecked(texts, exprStr)
    ensures r.Ok? ==> Classify(texts, exprStr).Ok? && forall k :: 1 <= k < |texts| ==> !Juxtaposed(Classify(texts, exprStr).value, k)
    ensures ParseUnchecked(texts, exprStr).Ok? && r.Err? ==>
      Classify(texts, exprStr).Ok? && exists k :: 1 <= k < |texts| && Juxtaposed(Classify(texts, exprStr).value, k) && r.error == InvalidToken(exprStr, "", texts[k])
  {
    if texts == [] then Err(EmptyExpr(exprStr))
    else
      var items :- Classify(texts, exprStr);
      var st :- RunItems(items, |items|, exprStr);
      var e :- Finish(st, exprStr);
      var _ :- CheckAdjacency(items, texts, exprStr, |items|);
      Ok(e)
  }

  // ---------------------------------------------------------------------------
  // The corrected parser keeps the operands in order

  /** The operands (numbers and variables) of a tree, left to right. */
  function Leaves(e: Expr): seq<Expr> {
    match e
    case Num(_) => [e]
    case Var(_) => [e]
    case Unary(_, c) => Leaves(c)
    case Binary(_, l, r) => Leaves(l) + Leaves(r)
  }

  /** The operands of a stack of trees, bottom to top. */
  function Flatten(es: seq<Expr>): seq<Expr> {
    if es == [] then [] else Flatten(Pop(es)) + Leaves(Top(es))
  }

  /** The operands still waiting on the pending stack, bottom to top. */
  function PendingOperands(ps: seq<Pending>): seq<Expr> {
    if ps == [] then []
    else PendingOperands(Pop(ps)) + (if Top(ps).PendingOperand? then Leaves(Top(ps).e) else [])
  }

  /** The operand items of an item sequence, in order. */
  function ItemOperands(items: seq<Item>): seq<Expr> {
    if items == [] then []
    else ItemOperands(Pop(items)) + (if Top(items).Operand? then Leaves(Top(items).e) else [])
  }

  predicate NoPendingOperand(ps: seq<Pending>) {
    forall k :: 0 <= k < |ps| ==> !ps[k].PendingOperand?
  }

  /** A pending operand, if any, is the top entry. */
  predicate OperandOnlyOnTop(ps: seq<Pending>) {
    forall k :: 0 <= k < |ps| - 1 ==> !ps[k].PendingOperand?
  }

  lemma {:induction false} NoPendingOperandsEmpty(ps: seq<Pending>)
    requires NoPendingOperand(ps)
    ensures PendingOperands(ps) == []
    decreases |ps|
  {
    if ps != [] {
      NoPendingOperandsEmpty(Pop(ps));
    }
  }

  lemma FlattenPush(es: seq<Expr>, e: Expr)
    ensures Flatten(es + [e]) == Flatten(es) + Leaves(e)
  {
    assert Pop(es + [e]) == es;
  }

  lemma FlattenPop2(es: seq<Expr>)
    requires |es| >= 2
    ensures Flatten(es) == Flatten(es[..|es| - 2]) + Leaves(es[|es| - 2]) + Leaves(Top(es))
  {
    assert Pop(Pop(es)) == es[..|es| - 2];
    assert Top(Pop(es)) == es[|es| - 2];
  }

  /** One pop of make_new_expr, on a stack where it succeeds. */
  ghost predicate CanPop(st: Stacks) {
    && st.pending != []
    && !Top(st.pending).Marker?
    && (Top(st.pending).PendingUnary? ==> st.trees != [])
    && (Top(st.pending).PendingBinary? ==> |st.trees| >= 2)
  }

  ghost function Popped(st: Stacks): Stacks
    requires CanPop(st)
  {
    var rest := Pop(st.pending);
    var es := st.trees;
    match Top(st.pending)
    case PendingOperand(e) => Stacks(rest, es + [e])
    case PendingUnary(op) => Stacks(rest, Pop(es) + [Unary(op, Top(es))])
    case PendingBinary(op) => Stacks(rest, es[..|es| - 2] + [Binary(op, es[|es| - 2], Top(es))])
  }

  lemma ReduceUnfold(st: Stacks, precedence: int, assoEqual: bool, exprStr: string)
    requires st.pending != [] && Pops(Top(st.pending), precedence, assoEqual)
    requires Reduce(st, precedence, assoEqual, exprStr).Ok?
    ensures CanPop(st)
    ensures Reduce(st, precedence, assoEqual, exprStr) == Reduce(Popped(st), precedence, assoEqual, exprStr)
  {
  }

  /** A pop combines neighbouring trees in place or moves the top operand across: the operand order is kept. */
  lemma PoppedKeepsOrder(st: Stacks)
    requires CanPop(st) && OperandOnlyOnTop(st.pending)
    ensures Flatten(Popped(st).trees) + PendingOperands(Popped(st).pending) == Flatten(st.trees) + PendingOperands(st.pending)
    ensures NoPendingOperand(Popped(st).pending)
  {
    var rest := Pop(st.pending);
    var es := st.trees;
    assert NoPendingOperand(rest);
    NoPendingOperandsEmpty(rest);
    var top := Top(st.pending);
    assert st.pending == rest + [top];
    PendingOperandsPush(rest, top);
    PoppedTrees(st);
  }

  /** What a pop does to the operands of the tree stack. */
  lemma PoppedTrees(st: Stacks)
    requires CanPop(st)
    ensures Flatten(Popped(st).trees) ==
      Flatten(st.trees) + (if Top(st.pending).PendingOperand? then Leaves(Top(st.pending).e) else [])
  {
    var es := st.trees;
    match Top(st.pending)
    case PendingOperand(e) =>
      FlattenPush(es, e);
    case PendingUnary(op) =>
      FlattenPush(Pop(es), Unary(op, Top(es)));
      assert Flatten(es) == Flatten(Pop(es)) + Leaves(Top(es));
    case PendingBinary(op) =>
      FlattenPush(es[..|es| - 2], Binary(op, es[|es| - 2], Top(es)));
      FlattenPop2(es);
  }

  /** make_new_expr keeps the operand order; below INT_MAX it leaves no operand pending. */
  lemma {:induction false} ReduceKeepsOrder(st: Stacks, precedence: int, assoEqual: bool, exprStr: string)
    requires OperandOnlyOnTop(st.pending)
    requires Reduce(st, precedence, assoEqual, exprStr).Ok?
    ensures var r := Reduce(st, precedence, assoEqual, exprStr).value;
      Flatten(r.trees) + PendingOperands(r.pending) == Flatten(st.trees) + PendingOperands(st.pending)
    ensures OperandOnlyOnTop(Reduce(st, precedence, assoEqual, exprStr).value.pending)
    ensures precedence < INT_MAX ==> NoPendingOperand(Reduce(st, precedence, assoEqual, exprStr).value.pending)
    ensures NoPendingOperand(st.pending) ==> NoPendingOperand(Reduce(st, precedence, assoEqual, exprStr).value.pending)
    decreases |st.pending|
  {
    if st.pending == [] || !Pops(Top(st.pending), precedence, assoEqual) {
      if precedence < INT_MAX && st.pending != [] {
        assert !Top(st.pending).PendingOperand?;
      }
    } else {
      ReduceUnfold(st, precedence, assoEqual, exprStr);
      PoppedKeepsOrder(st);
      ReduceKeepsOrder(Popped(st), precedence, assoEqual, exprStr);
    }
  }

  /** The order invariant of the main pass after n items. */
  ghost predicate OrderInvariant(st: Stacks, items: seq<Item>, n: nat)
    requires n <= |items|
  {
    && Flatten(st.trees) + PendingOperands(st.pending) == ItemOperands(items[..n])
    && OperandOnlyOnTop(st.pending)
    && (n == 0 || !items[n - 1].Operand? ==> NoPendingOperand(st.pending))
  }

  lemma {:induction false} CloseKeepsOrder(st: Stacks, n: nat, exprStr: string)
    requires OperandOnlyOnTop(st.pending)
    requires CloseBrackets(st, n, exprStr).Ok?
    ensures var r := CloseBrackets(st, n, exprStr).value;
      Flatten(r.trees) + PendingOperands(r.pending) == Flatten(st.trees) + PendingOperands(st.pending)
    ensures n > 0 ==> NoPendingOperand(CloseBrackets(st, n, exprStr).value.pending)
    ensures OperandOnlyOnTop(CloseBrackets(st, n, exprStr).value.pending)
    decreases n
  {
    if n > 0 {
      CloseKeepsOrder(st, n - 1, exprStr);
      var s1 := CloseBrackets(st, n - 1, exprStr).value;
      ReduceKeepsOrder(s1, INT_MIN, false, exprStr);
      var s2 := Reduce(s1, INT_MIN, false, exprStr).value;
      NoPendingOperandsEmpty(s2.pending);
      NoPendingOperandsEmpty(Pop(s2.pending));
    }
  }

  lemma ItemOperandsPush(items: seq<Item>, n: nat)
    requires 0 < n <= |items|
    ensures ItemOperands(items[..n]) ==
      ItemOperands(items[..n - 1]) + (if items[n - 1].Operand? then Leaves(items[n - 1].e) else [])
  {
    assert Pop(items[..n]) == items[..n - 1];
  }

  lemma PendingOperandsPush(ps: seq<Pending>, p: Pending)
    ensures PendingOperands(ps + [p]) == PendingOperands(ps) + (if p.PendingOperand? then Leaves(p.e) else [])
  {
    assert Pop(ps + [p]) == ps;
  }

  /** Nothing binds more tightly than an operand, so pushing one reduces nothing. */
  lemma ShiftOperand(st: Stacks, e: Expr, exprStr: string)
    ensures Shift(st, Operand(e), exprStr) == Ok(Stacks(st.pending + [PendingOperand(e)], st.trees))
  {
    if st.pending != [] && !Top(st.pending).Marker? {
      PrecedenceLadder(Add, Add);
      if Top(st.pending).PendingBinary? {
        PrecedenceLadder(Top(st.pending).bop, Add);
      }
      assert !Pops(Top(st.pending), INT_MAX, false);
    }
    assert Reduce(st, INT_MAX, false, exprStr) == Ok(st);
  }

  /** Pushing an operand (none pending before it) appends it to the operands in order. */
  lemma PushOperandKeepsOrder(st: Stacks, e: Expr, exprStr: string)
    requires NoPendingOperand(st.pending)
    ensures var r := Shift(st, Operand(e), exprStr).value;
      Flatten(r.trees) + PendingOperands(r.pending) == Flatten(st.trees) + PendingOperands(st.pending) + Leaves(e)
    ensures OperandOnlyOnTop(Shift(st, Operand(e), exprStr).value.pending)
  {
    var p := PendingOperand(e);
    ShiftOperand(st, e, exprStr);
    var ps := st.pending + [p];
    forall k | 0 <= k < |st.pending| ensures ps[k] == st.pending[k] { }
    PendingOperandsPush(st.pending, p);
    NoPendingOperandsEmpty(st.pending);
  }

  /** Pushing an operator reduces everything above it, so no operand stays pending. */
  lemma PushOperatorKeepsOrder(st: Stacks, p: Pending, exprStr: string)
    requires p.PendingUnary? || p.PendingBinary?
    requires OperandOnlyOnTop(st.pending)
    requires PushPending(st, p, exprStr).Ok?
    ensures var r := PushPending(st, p, exprStr).value;
      Flatten(r.trees) + PendingOperands(r.pending) == Flatten(st.trees) + PendingOperands(st.pending)
    ensures NoPendingOperand(PushPending(st, p, exprStr).value.pending)
  {
    var assoEqual := p.PendingBinary? && BinaryAsso(p.bop) == Left;
    ReduceKeepsOrder(st, PendingPrecedence(p), assoEqual, exprStr);
    var s := Reduce(st, PendingPrecedence(p), assoEqual, exprStr).value;
    assert PushPending(st, p, exprStr) == Ok(Stacks(s.pending + [p], s.trees));
    PendingOperandsPush(s.pending, p);
    NoPendingOperandsEmpty(s.pending);
  }

  /** Bracket items stand for at least one bracket. */
  predicate PositiveCounts(items: seq<Item>) {
    forall k :: 0 <= k < |items| && (items[k].Open? || items[k].Close?) ==> items[k].count > 0
  }

  /** One item of the main pass keeps the order invariant unless it is juxtaposed to the previous one. */
  lemma ShiftKeepsOrder(st: Stacks, items: seq<Item>, n: nat, exprStr: string)
    requires 0 < n <= |items|
    requires OrderInvariant(st, items, n - 1)
    requires n >= 2 ==> !Juxtaposed(items, n - 1)
    requires Shift(st, items[n - 1], exprStr).Ok?
    requires items[n - 1].Close? ==> items[n - 1].count > 0
    ensures OrderInvariant(Shift(st, items[n - 1], exprStr).value, items, n)
  {
    var item := items[n - 1];
    ItemOperandsPush(items, n);
    if StartsOperand(item) {
      assert n >= 2 ==> !items[n - 2].Operand?;
      assert NoPendingOperand(st.pending);
    }
    match item
    case Open(k) =>
      NoPendingOperandsEmpty(st.pending);
      NoPendingOperandsEmpty(st.pending + Markers(k));
    case Close(k) =>
      CloseKeepsOrder(st, k, exprStr);
    case Operand(e) =>
      PushOperandKeepsOrder(st, e, exprStr);
      ShiftOperand(st, e, exprStr);
    case UnaryOp(op) =>
      PushOperatorKeepsOrder(st, PendingUnary(op), exprStr);
    case BinaryOp(op) =>
      PushOperatorKeepsOrder(st, PendingBinary(op), exprStr);
  }

  lemma {:induction false} RunKeepsOrder(items: seq<Item>, n: nat, exprStr: string)
    requires n <= |items|
    requires forall k :: 1 <= k < n ==> !Juxtaposed(items, k)
    requires PositiveCounts(items)
    requires RunItems(items, n, exprStr).Ok?
    ensures OrderInvariant(RunItems(items, n, exprStr).value, items, n)
    decreases n
  {
    if n > 0 {
      RunKeepsOrder(items, n - 1, exprStr);
      ShiftKeepsOrder(RunItems(items, n - 1, exprStr).value, items, n, exprStr);
    }
  }

  /** Finish returns the single tree left, which holds every operand of the stacks in order. */
  lemma FinishKeepsOrder(st: Stacks, exprStr: string)
    requires OperandOnlyOnTop(st.pending)
    requires Finish(st, exprStr).Ok?
    ensures Leaves(Finish(st, exprStr).value) == Flatten(st.trees) + PendingOperands(st.pending)
  {
    var red := Reduce(st, INT_MIN, false, exprStr);
    assert red.Ok?;
    var s := red.value;
    assert s.pending == [] && |s.trees| == 1;
    assert Finish(st, exprStr) == Ok(s.trees[0]);
    ReduceKeepsOrder(st, INT_MIN, false, exprStr);
    assert Flatten(s.trees) + PendingOperands(s.pending) == Flatten(st.trees) + PendingOperands(st.pending);
    assert s.trees == [] + [s.trees[0]];
    FlattenPush([], s.trees[0]);
  }

  /**
   * The corrected parser keeps the operands in order: on success the
   * numbers and variables of the tree, read left to right, are exactly the
   * operand tokens of the input, in input order.
   */
  lemma ParseKeepsOperandOrder(texts: seq<string>, exprStr: string)
    requires NonEmptyTexts(texts)
    requires ParseTexts(texts, exprStr).Ok?
    ensures Classify(texts, exprStr).Ok?
    ensures Leaves(ParseTexts(texts, exprStr).value) == ItemOperands(Classify(texts, exprStr).value)
  {
    var items := Classify(texts, exprStr).value;
    assert CheckAdjacency(items, texts, exprStr, |items|).Ok?;
    RunKeepsOrder(items, |items|, exprStr);
    var st := RunItems(items, |items|, exprStr).value;
    assert ParseTexts(texts, exprStr) == Finish(st, exprStr);
    FinishKeepsOrder(st, exprStr);
    assert items[..|items|] == items;
  }

  // ---------------------------------------------------------------------------
  // The first error wins: later steps pass it on unchanged (BASIC_UNWRAP)

  lemma {:induction false} ClassifyPrefixSticky(texts: seq<string>, exprStr: string, m: nat, n: nat)
    requires NonEmptyTexts(texts) && m <= n <= |texts|
    requires ClassifyPrefix(texts, exprStr, m).Err?
    ensures ClassifyPrefix(texts, exprStr, n) == ClassifyPrefix(texts, exprStr, m)
    decreases n
  {
    if n > m {
      ClassifyPrefixSticky(texts, exprStr, m, n - 1);
    }
  }

  lemma {:induction false} CheckAdjacencySticky(items: seq<Item>, texts: seq<string>, exprStr: string, m: nat, n: nat)
    requires |items| == |texts| && m <= n <= |items|
    requires CheckAdjacency(items, texts, exprStr, m).Err?
    ensures CheckAdjacency(items, texts, exprStr, n) == CheckAdjacency(items, texts, exprStr, m)
    decreases n
  {
    if n > m {
      CheckAdjacencySticky(items, texts, exprStr, m, n - 1);
    }
  }

  lemma {:induction false} CloseBracketsSticky(st: Stacks, m: nat, n: nat, exprStr: string)
    requires m <= n
    requires CloseBrackets(st, m, exprStr).Err?
    ensures CloseBrackets(st, n, exprStr) == CloseBrackets(st, m, exprStr)
    decreases n
  {
    if n > m {
      CloseBracketsSticky(st, m, n - 1, exprStr);
    }
  }

  lemma {:induction false} RunItemsSticky(items: seq<Item>, m: nat, n: nat, exprStr: string)
    requires m <= n <= |items|
    requires RunItems(items, m, exprStr).Err?
    ensures RunItems(items, n, exprStr) == RunItems(items, m, exprStr)
    decreases n
  {
    if n > m {
      RunItemsSticky(items, m, n - 1, exprStr);
    }
  }

  /** Without juxtaposed items, the corrected parse is what Finish makes of the main pass. */
  lemma ParseFrom(texts: seq<string>, exprStr: string, items: seq<Item>)
    requires NonEmptyTexts(texts) && texts != []
    requires Classify(texts, exprStr) == Ok(items)
    requires forall k :: 1 <= k < |items| ==> !Juxtaposed(items, k)
    ensures RunItems(items, |items|, exprStr).Ok? ==>
      ParseTexts(texts, exprStr) == Finish(RunItems(items, |items|, exprStr).value, exprStr)
    ensures RunItems(items, |items|, exprStr).Err? ==>
      ParseTexts(texts, exprStr) == Err(RunItems(items, |items|, exprStr).error)
  {
    assert CheckAdjacency(items, texts, exprStr, |items|) == Ok(());
  }

  // ---------------------------------------------------------------------------
  // The parser on tokens, step by step

  /** make_new_expr: the while loop popping the pending stack into the tree stack. */
  method MakeNewExpr(st: Stacks, precedence: int, assoEqual: bool, exprStr: string) returns (r: ParseResult<Stacks>)
    ensures r == Reduce(st, precedence, assoEqual, exprStr)
  {
    var pending, trees := st.pending, st.trees;
    while pending != [] && Pops(Top(pending), precedence, assoEqual)
      invariant Reduce(Stacks(pending, trees), precedence, assoEqual, exprStr) == Reduce(st, precedence, assoEqual, exprStr)
      decreases |pending|
    {
      var op := Top(pending);
      pending := Pop(pending);
      if op.PendingOperand? {
        trees := trees + [op.e];
      } else if op.PendingUnary? {
        if trees == [] {
          return Err(NoOperand(exprStr, UnarySymbol(op.uop)));
        }
        trees := Pop(trees) + [Unary(op.uop, Top(trees))];
      } else {
        if trees == [] {
          return Err(NoOperand(exprStr, BinarySymbol(op.bop)));
        }
        var right := Top(trees);
        var rest := Pop(trees);
        if rest == [] {
          return Err(NoOperand(exprStr, BinarySymbol(op.bop)));
        }
        var left := Top(rest);
        assert Pop(rest) == trees[..|trees| - 2];
        trees := Pop(rest) + [Binary(op.bop, left, right)];
      }
    }
    return Ok(Stacks(pending, trees));
  }

  /** The pending entry a non-bracket item pushes. */
  function PendingOf(item: Item): (p: Pending)
    requires item.Operand? || item.UnaryOp? || item.BinaryOp?
    ensures !p.Marker?
  {
    match item
    case Operand(e) => PendingOperand(e)
    case UnaryOp(op) => PendingUnary(op)
    case BinaryOp(op) => PendingBinary(op)
  }

  /** The scan for a token ending in '(' followed by one starting with ')'. */
  method FindEmptyPair(tokens: seq<Token>) returns (found: bool)
    requires AllValid(tokens)
    ensures found == HasEmptyPair(Views(tokens))
  {
    var texts := Views(tokens);
    var i := 1;
    while i < |tokens|
      invariant 1 <= i && (tokens != [] ==> i <= |tokens|)
      invariant forall k :: 1 <= k < i && k < |tokens| ==> !EmptyPairAt(texts, k)
    {
      if tokens[i - 1].Back() == '(' && tokens[i].Front() == ')' {
        assert EmptyPairAt(texts, i);
        return true;
      }
      i := i + 1;
    }
    return false;
  }

  /** What token i becomes, given its operator flag and its unary flag. */
  method ClassifyOne(tokens: seq<Token>, i: nat, isOperator: bool, isUnary: bool, exprStr: string) returns (r: ParseResult<Item>)
    requires AllValid(tokens) && i < |tokens|
    requires isOperator == IsOperatorText(Views(tokens)[i])
    requires isUnary == UnaryPosition(Views(tokens), i)
    ensures r == ClassifyToken(Views(tokens), exprStr, i)
  {
    var t := tokens[i];
    if !isOperator && t.IsDigit() {
      var v := ToDigitInt(t);
      return Ok(Operand(Num(v)));
    } else if isOperator && isUnary && t.IsKeyword("+") {
      return Ok(UnaryOp(Pos));
    } else if isOperator && isUnary && t.IsKeyword("-") {
      return Ok(UnaryOp(Neg));
    } else if isOperator && !isUnary {
      return Ok(BinaryOp(BinaryOfText(t.View())));
    } else if !isOperator && t.IsVariable() {
      return Ok(Operand(Var(t.View())));
    } else if t.Front() == '(' {
      return Ok(Open(|t.View()|));
    } else if t.Front() == ')' {
      return Ok(Close(|t.View()|));
    } else {
      return Err(InvalidToken(exprStr, "", t.View()));
    }
  }

  /** token_is_operator: which tokens are operator symbols. */
  method OperatorFlags(tokens: seq<Token>) returns (isOperator: array<bool>)
    requires AllValid(tokens)
    ensures fresh(isOperator) && isOperator.Length == |tokens|
    ensures forall k :: 0 <= k < |tokens| ==> isOperator[k] == IsOperatorText(Views(tokens)[k])
  {
    isOperator := new bool[|tokens|];
    for j := 0 to |tokens|
      invariant forall k :: 0 <= k < j ==> isOperator[k] == IsOperatorText(Views(tokens)[k])
    {
      isOperator[j] := IsOperatorText(tokens[j].View());
    }
  }

  /** token_is_unary_operator: the first token, and any token after an operator or after a '(' run. */
  method UnaryFlags(tokens: seq<Token>, isOperator: array<bool>) returns (isUnary: array<bool>)
    requires AllValid(tokens) && isOperator.Length == |tokens|
    requires forall k :: 0 <= k < |tokens| ==> isOperator[k] == IsOperatorText(Views(tokens)[k])
    ensures fresh(isUnary) && isUnary.Length == |tokens|
    ensures forall k :: 0 <= k < |tokens| ==> isUnary[k] == UnaryPosition(Views(tokens), k)
  {
    isUnary := new bool[|tokens|];
    for j := 0 to |tokens|
      invariant forall k :: 0 <= k < j ==> isUnary[k] == UnaryPosition(Views(tokens), k)
    {
      isUnary[j] := j == 0 || isOperator[j - 1] || tokens[j - 1].Front() == '(';
    }
  }

  /** One more token: its item is appended, or its error is the error of the whole prefix. */
  lemma ClassifyPrefixNext(texts: seq<string>, exprStr: string, j: nat, items: seq<Item>)
    requires NonEmptyTexts(texts) && j < |texts|
    requires ClassifyPrefix(texts, exprStr, j) == Ok(items)
    ensures ClassifyToken(texts, exprStr, j).Ok? ==>
      ClassifyPrefix(texts, exprStr, j + 1) == Ok(items + [ClassifyToken(texts, exprStr, j).value])
    ensures ClassifyToken(texts, exprStr, j).Err? ==>
      ClassifyPrefix(texts, exprStr, |texts|) == Err(ClassifyToken(texts, exprStr, j).error)
  {
    if ClassifyToken(texts, exprStr, j).Err? {
      ClassifyPrefixSticky(texts, exprStr, j + 1, |texts|);
    }
  }

  /** The classification loop: each token in turn, stopping at the first invalid one. */
  method ClassifyItems(tokens: seq<Token>, isOperator: array<bool>, isUnary: array<bool>, exprStr: string)
    returns (r: ParseResult<seq<Item>>)
    requires AllValid(tokens) && isOperator.Length == |tokens| && isUnary.Length == |tokens|
    requires forall k :: 0 <= k < |tokens| ==> isOperator[k] == IsOperatorText(Views(tokens)[k])
    requires forall k :: 0 <= k < |tokens| ==> isUnary[k] == UnaryPosition(Views(tokens), k)
    ensures r == ClassifyPrefix(Views(tokens), exprStr, |tokens|)
  {
    var texts := Views(tokens);
    var n := |tokens|;
    var items: seq<Item> := [];
    for j := 0 to n
      invariant ClassifyPrefix(texts, exprStr, j) == Ok(items)
    {
      var item := ClassifyOne(tokens, j, isOperator[j], isUnary[j], exprStr);
      ClassifyPrefixNext(texts, exprStr, j, items);
      if item.Err? {
        return Err(item.error);
      }
      items := items + [item.value];
    }
    return Ok(items);
  }

  /** The pre-pass loops: the empty-pair scan, the operator flags, the unary flags and the items. */
  method ClassifyTokens(tokens: seq<Token>, exprStr: string) returns (r: ParseResult<seq<Item>>)
    requires AllValid(tokens)
    ensures r == Classify(Views(tokens), exprStr)
  {
    var texts := Views(tokens);
    var n := |tokens|;
    var emptyPair := FindEmptyPair(tokens);
    if emptyPair {
      return Err(InvalidToken(exprStr, "", "()"));
    }
    var isOperator := OperatorFlags(tokens);
    var isUnary := UnaryFlags(tokens, isOperator);
    r := ClassifyItems(tokens, isOperator, isUnary, exprStr);
  }

  /** The adjacency scan of the corrected parser. */
  method CheckJuxtaposition(tokens: seq<Token>, items: seq<Item>, exprStr: string) returns (r: ParseResult<()>)
    requires AllValid(tokens) && |items| == |tokens|
    ensures r == CheckAdjacency(items, Views(tokens), exprStr, |items|)
  {
    var texts := Views(tokens);
    if |items| <= 1 {
      return Ok(());
    }
    for i := 1 to |items|
      invariant CheckAdjacency(items, texts, exprStr, i) == Ok(())
    {
      if EndsOperand(items[i - 1]) && StartsOperand(items[i]) {
        CheckAdjacencySticky(items, texts, exprStr, i + 1, |items|);
        return Err(InvalidToken(exprStr, "", tokens[i].View()));
      }
    }
    return Ok(());
  }

  /** A token that starts with a bracket is a bracket run, and any other token is not. */
  lemma BracketItem(tokens: seq<Token>, exprStr: string, items: seq<Item>, i: nat)
    requires AllValid(tokens) && i < |tokens|
    requires Classify(Views(tokens), exprStr) == Ok(items)
    ensures i < |items|
    ensures tokens[i].Front() == '(' ==> items[i] == Open(|tokens[i].View()|)
    ensures tokens[i].Front() == ')' ==> items[i] == Close(|tokens[i].View()|)
    ensures tokens[i].Front() != '(' && tokens[i].Front() != ')' ==> !items[i].Open? && !items[i].Close?
  {
    var texts := Views(tokens);
    assert ClassifyToken(texts, exprStr, i) == Ok(items[i]);
    assert texts[i] == tokens[i].View() && texts[i][0] == tokens[i].Front();
  }

  /** Each token starting with a bracket has the bracket-run item of its length, and no other token has a bracket item. */
  predicate BracketsAgree(tokens: seq<Token>, items: seq<Item>)
    requires AllValid(tokens)
  {
    && |items| == |tokens|
    && (forall i :: 0 <= i < |tokens| ==> (tokens[i].Front() == '(' ==> items[i] == Open(|tokens[i].View()|)))
    && (forall i :: 0 <= i < |tokens| ==> (tokens[i].Front() == ')' ==> items[i] == Close(|tokens[i].View()|)))
    && (forall i :: 0 <= i < |tokens| ==> (tokens[i].Front() != '(' && tokens[i].Front() != ')' ==> !items[i].Open? && !items[i].Close?))
  }

  /** The items of the pre-pass agree with the tokens on brackets. */
  lemma ClassifiedBrackets(tokens: seq<Token>, exprStr: string, items: seq<Item>)
    requires AllValid(tokens)
    requires Classify(Views(tokens), exprStr) == Ok(items)
    ensures BracketsAgree(tokens, items)
  {
    forall i | 0 <= i < |tokens| ensures i < |items| && (tokens[i].Front() == '(' ==> items[i] == Open(|tokens[i].View()|))
      && (tokens[i].Front() == ')' ==> items[i] == Close(|tokens[i].View()|))
      && (tokens[i].Front() != '(' && tokens[i].Front() != ')' ==> !items[i].Open? && !items[i].Close?)
    {
      BracketItem(tokens, exprStr, items, i);
    }
  }

  /** One more item of the main pass: its stacks, or its error as the error of the whole pass. */
  lemma RunItemsNext(items: seq<Item>, i: nat, st: Stacks, exprStr: string)
    requires i < |items| && RunItems(items, i, exprStr) == Ok(st)
    ensures Shift(st, items[i], exprStr).Ok? ==> RunItems(items, i + 1, exprStr) == Shift(st, items[i], exprStr)
    ensures Shift(st, items[i], exprStr).Err? ==> RunItems(items, |items|, exprStr) == Shift(st, items[i], exprStr)
  {
    if Shift(st, items[i], exprStr).Err? {
      RunItemsSticky(items, i + 1, |items|, exprStr);
    }
  }

  /** One token of the main loop. */
  method StepToken(st: Stacks, token: Token, item: Item, exprStr: string) returns (r: ParseResult<Stacks>)
    requires token.Valid()
    requires token.Front() == '(' ==> item == Open(|token.View()|)
    requires token.Front() == ')' ==> item == Close(|token.View()|)
    requires token.Front() != '(' && token.Front() != ')' ==> !item.Open? && !item.Close?
    ensures r == Shift(st, item, exprStr)
  {
    var pending, trees := st.pending, st.trees;
    if token.Front() == '(' {
      for c := 0 to |token.View()|
        invariant pending == st.pending + Markers(c)
      {
        pending := pending + [Marker];
      }
    } else if token.Front() == ')' {
      for c := 0 to |token.View()|
        invariant CloseBrackets(st, c, exprStr) == Ok(Stacks(pending, trees))
      {
        var red := MakeNewExpr(Stacks(pending, trees), INT_MIN, false, exprStr);
        if red.Err? || red.value.pending == [] {
          var e := if red.Err? then red.error else BracketUnmatched(exprStr);
          assert CloseBrackets(st, c + 1, exprStr) == Err(e);
          CloseBracketsSticky(st, c + 1, |token.View()|, exprStr);
          return Err(e);
        }
        pending := Pop(red.value.pending);
        trees := red.value.trees;
      }
    } else {
      var p := PendingOf(item);
      var red := MakeNewExpr(Stacks(pending, trees), PendingPrecedence(p), p.PendingBinary? && BinaryAsso(p.bop) == Left, exprStr);
      if red.Err? {
        return Err(red.error);
      }
      pending := red.value.pending + [p];
      trees := red.value.trees;
    }
    return Ok(Stacks(pending, trees));
  }

  /** The main loop over the tokens: markers for '(', reductions for ')', and pushes for the rest. */
  method RunTokens(tokens: seq<Token>, items: seq<Item>, exprStr: string) returns (r: ParseResult<Stacks>)
    requires AllValid(tokens)
    requires BracketsAgree(tokens, items)
    ensures r == RunItems(items, |items|, exprStr)
  {
    var st := Stacks([], []);
    var n := |items|;
    for i := 0 to n
      invariant RunItems(items, i, exprStr) == Ok(st)
    {
      var token, item := tokens[i], items[i];
      assert token.Valid();
      assert token.Front() == '(' ==> item == Open(|token.View()|);
      assert token.Front() == ')' ==> item == Close(|token.View()|);
      assert token.Front() != '(' && token.Front() != ')' ==> !item.Open? && !item.Close?;
      var next := StepToken(st, token, item, exprStr);
      RunItemsNext(items, i, st, exprStr);
      if next.Err? {
        return next;
      }
      st := next.value;
    }
    return Ok(st);
  }

  /** After the last token: reduce everything, then expect no marker and exactly one tree. */
  method FinishStacks(st: Stacks, exprStr: string) returns (r: ParseResult<Expr>)
    ensures r == Finish(st, exprStr)
  {
    var red := MakeNewExpr(st, INT_MIN, false, exprStr);
    if red.Err? {
      return Err(red.error);
    }
    var pending, trees := red.value.pending, red.value.trees;
    if pending != [] {
      // Reduce at INT_MIN stops at a marker only, so no operator can be left here.
      assert Top(pending).Marker?;
      return Err(BracketUnmatched(exprStr));
    }
    if trees == [] {
      return Err(EmptyExpr(exprStr));
    }
    var e := Top(trees);
    trees := Pop(trees);
    if trees != [] {
      return Err(OrphanExpr(exprStr, Format(Top(trees))));
    }
    return Ok(e);
  }

  /**
   * The corrected parse of the tokens of one expression; errors quote the
   * expression's original text. Every error of the source's parse is kept,
   * every tree it returns is one the source's parse builds, and the only
   * trees it refuses are built across juxtaposed operands.
   */
  function ParseTokens(tokens: seq<Token>): (r: ParseResult<Expr>)
    requires AllValid(tokens)
    ensures tokens == [] ==> r == Err(EmptyExpr(""))
    ensures ParseUnchecked(Views(tokens), DeTokenizeSpan(tokens)).Err? ==> r == ParseUnchecked(Views(tokens), DeTokenizeSpan(tokens))
    ensures r.Ok? ==> r == ParseUnchecked(Views(tokens), DeTokenizeSpan(tokens))
    ensures ParseUnchecked(Views(tokens), DeTokenizeSpan(tokens)).Ok? && r.Err? ==>
      var items := Classify(Views(tokens), DeTokenizeSpan(tokens));
      items.Ok? && exists k :: 1 <= k < |tokens| && Juxtaposed(items.value, k) && r.error == InvalidToken(DeTokenizeSpan(tokens), "", tokens[k].View())
  {
    ParseTexts(Views(tokens), DeTokenizeSpan(tokens))
  }

  /** Expression::Parse on the tokens of one expression, with the adjacency check added. */
  method Parse(tokens: seq<Token>) returns (r: ParseResult<Expr>)
    requires AllValid(tokens)
    ensures r == ParseTokens(tokens)
  {
    var exprStr := DeTokenizeSpan(tokens);
    if tokens == [] {
      return Err(EmptyExpr(exprStr));
    }
    var items :- ClassifyTokens(tokens, exprStr);
    ClassifiedBrackets(tokens, exprStr, items);
    var st :- RunTokens(tokens, items, exprStr);
    var e :- FinishStacks(st, exprStr);
    var ok :- CheckJuxtaposition(tokens, items, exprStr);
    return Ok(e);
  }
}
