/**
 * Expression trees of the interpreter: evaluation, the infix printer and the
 * indented tree printer (QBasic/basic/Expression.hpp, QBasic/basic/Expression.cpp).
 *
 * Reading a variable bumps a per-variable use counter in the context; Eval
 * returns the names it read successfully, in order, so that the caller can
 * apply those bumps.
 */
module BasicExpression {
  import opened StdTypes
  import opened BasicConfig
  import opened BasicError

  datatype UnOp = Neg | Pos
  datatype BinOp = Add | Sub | Mul | Div | Mod | Exp
  datatype Asso = Left | Right

  datatype Expr =
    | Num(value: int)
    | Var(name: string)
    | Unary(uop: UnOp, child: Expr)
    | Binary(bop: BinOp, left: Expr, right: Expr)

  const UNARY_PRECEDENCE: int := 30

  function UnarySymbol(op: UnOp): string {
    match op
    case Neg => "-"
    case Pos => "+"
  }

  function BinarySymbol(op: BinOp): string {
    match op
    case Add => "+"
    case Sub => "-"
    case Mul => "*"
    case Div => "/"
    case Mod => "MOD"
    case Exp => "**"
  }

  function BinaryPrecedence(op: BinOp): int {
    match op
    case Add => 0
    case Sub => 0
    case Mul => 10
    case Div => 10
    case Mod => 10
    case Exp => 20
  }

  function BinaryAsso(op: BinOp): Asso {
    if op == Exp then Right else Left
  }

  /** GetPrecedence: operands bind tightest (INT_MAX). */
  function Precedence(e: Expr): int {
    match e
    case Num(_) => INT_MAX
    case Var(_) => INT_MAX
    case Unary(_, _) => UNARY_PRECEDENCE
    case Binary(op, _, _) => BinaryPrecedence(op)
  }

  /** GetAssociative: a binary operator's own associativity; right for everything else. */
  function Associativity(e: Expr): Asso {
    if e.Binary? then BinaryAsso(e.bop) else Right
  }

  /** The precedence ladder: operands > unary > ** > (* / MOD) > (+ -), and each level has one associativity. */
  lemma PrecedenceLadder(a: BinOp, b: BinOp)
    ensures BinaryPrecedence(a) < UNARY_PRECEDENCE < INT_MAX
    ensures BinaryPrecedence(a) == BinaryPrecedence(b) ==> BinaryAsso(a) == BinaryAsso(b)
    ensures BinaryAsso(a) == Right <==> a == Exp
  {
  }

  // ---------------------------------------------------------------------------
  // Format: the infix text

  function Paren(s: string): string {
    "(" + s + ")"
  }

  /** A unary operator brackets an operand that binds more loosely than itself. */
  predicate UnaryBracket(c: Expr) {
    Precedence(c) < UNARY_PRECEDENCE
  }

  /** A binary operator brackets a left operand that binds more loosely, or equally under a right-associative operator. */
  predicate LeftBracket(op: BinOp, l: Expr) {
    if BinaryAsso(op) == Right then Precedence(l) <= BinaryPrecedence(op) else Precedence(l) < BinaryPrecedence(op)
  }

  /** ... and a right operand that binds more loosely, or equally under a left-associative operator. */
  predicate RightBracket(op: BinOp, r: Expr) {
    if BinaryAsso(op) == Right then Precedence(r) < BinaryPrecedence(op) else Precedence(r) <= BinaryPrecedence(op)
  }

  /** Expression::Format: children are bracketed only where precedence and associativity require it. */
  function Format(e: Expr): string {
    match e
    case Num(v) => DecimalInt(v)
    case Var(x) => x
    case Unary(op, c) =>
      var cs := Format(c);
      UnarySymbol(op) + (if UnaryBracket(c) then Paren(cs) else cs)
    case Binary(op, l, r) =>
      var ls := Format(l);
      var rs := Format(r);
      (if LeftBracket(op, l) then Paren(ls) else ls) + " " + BinarySymbol(op) + " " + (if RightBracket(op, r) then Paren(rs) else rs)
  }

  /** Left-associative operators need no bracket for a left operand of equal precedence ... */
  lemma FormatLeftChain()
    ensures Format(Binary(Sub, Binary(Sub, Var("A"), Var("B")), Var("C"))) == "A - B - C"
  {
    var ab := Binary(Sub, Var("A"), Var("B"));
    assert Format(ab) == "A - B";
    assert Precedence(ab) == 0 && Precedence(Var("C")) == INT_MAX;
    assert Format(Binary(Sub, ab, Var("C"))) == "A - B" + " " + "-" + " " + "C";
  }

  /** ... and bracket a right operand of equal precedence. */
  lemma FormatLeftBracket()
    ensures Format(Binary(Sub, Var("A"), Binary(Sub, Var("B"), Var("C")))) == "A - (B - C)"
  {
    var bc := Binary(Sub, Var("B"), Var("C"));
    assert Format(bc) == "B - C";
    assert Precedence(bc) == 0 && Precedence(Var("A")) == INT_MAX;
    assert Format(Binary(Sub, Var("A"), bc)) == "A" + " " + "-" + " " + Paren("B - C");
  }

  /** ** is right-associative, so the bracketing flips: none on the right ... */
  lemma FormatRightChain()
    ensures Format(Binary(Exp, Var("A"), Binary(Exp, Var("B"), Var("C")))) == "A ** B ** C"
  {
    var bc := Binary(Exp, Var("B"), Var("C"));
    assert Format(bc) == "B ** C";
    assert Precedence(bc) == 20 && Precedence(Var("A")) == INT_MAX;
    assert Format(Binary(Exp, Var("A"), bc)) == "A" + " " + "**" + " " + "B ** C";
  }

  /** ... and one on the left. */
  lemma FormatRightBracket()
    ensures Format(Binary(Exp, Binary(Exp, Var("A"), Var("B")), Var("C"))) == "(A ** B) ** C"
  {
    var ab := Binary(Exp, Var("A"), Var("B"));
    assert Format(ab) == "A ** B";
    assert Precedence(ab) == 20 && Precedence(Var("C")) == INT_MAX;
    assert Format(Binary(Exp, ab, Var("C"))) == Paren("A ** B") + " " + "**" + " " + "C";
  }

  /** A unary operator brackets a binary operand ... */
  lemma FormatUnaryBracket()
    ensures Format(Unary(Neg, Binary(Add, Var("A"), Var("B")))) == "-(A + B)"
  {
    assert Format(Binary(Add, Var("A"), Var("B"))) == "A + B";
  }

  /** ... and binds tighter than any binary operator. */
  lemma FormatUnaryTight()
    ensures Format(Binary(Mul, Unary(Neg, Var("A")), Var("B"))) == "-A * B"
  {
    assert Format(Unary(Neg, Var("A"))) == "-A";
  }

  // ---------------------------------------------------------------------------
  // FormatAST: one line per node, children indented by two more spaces

  const AST_ALIGN: string := "  "

  function FormatAST(e: Expr, align: string): string {
    match e
    case Num(_) => align + Format(e) + "\n"
    case Var(_) => align + Format(e) + "\n"
    case Unary(op, c) => align + UnarySymbol(op) + "\n" + FormatAST(c, align + AST_ALIGN)
    case Binary(op, l, r) =>
      align + BinarySymbol(op) + "\n" + FormatAST(l, align + AST_ALIGN) + FormatAST(r, align + AST_ALIGN)
  }

  function Size(e: Expr): nat {
    match e
    case Num(_) => 1
    case Var(_) => 1
    case Unary(_, c) => 1 + Size(c)
    case Binary(_, l, r) => 1 + Size(l) + Size(r)
  }

  function CountNewlines(s: string): nat {
    if s == [] then 0 else (if s[0] == '\n' then 1 else 0) + CountNewlines(s[1..])
  }

  lemma {:induction false} CountNewlinesConcat(a: string, b: string)
    ensures CountNewlines(a + b) == CountNewlines(a) + CountNewlines(b)
    decreases |a|
  {
    if a == [] {
      assert a + b == b;
    } else {
      assert (a + b)[1..] == a[1..] + b;
      CountNewlinesConcat(a[1..], b);
    }
  }

  lemma {:induction false} NoNewlineCount(s: string)
    requires forall i :: 0 <= i < |s| ==> s[i] != '\n'
    ensures CountNewlines(s) == 0
    decreases |s|
  {
    if s != [] {
      NoNewlineCount(s[1..]);
    }
  }

  /** No variable name of the tree holds a line break. */
  predicate NamesSingleLine(e: Expr) {
    match e
    case Num(_) => true
    case Var(x) => forall i :: 0 <= i < |x| ==> x[i] != '\n'
    case Unary(_, c) => NamesSingleLine(c)
    case Binary(_, l, r) => NamesSingleLine(l) && NamesSingleLine(r)
  }

  lemma NoNewlineDecimal(n: int)
    ensures forall i :: 0 <= i < |DecimalInt(n)| ==> DecimalInt(n)[i] != '\n'
  {
    var s := DecimalInt(n);
    var d := DecimalNat(Abs(n));
    assert AllDigits(d);
    assert s == d || s == "-" + d;
  }

  /** The tree printer's text starts with the indentation it is given. */
  lemma FormatASTIndented(e: Expr, align: string)
    ensures IsPrefix(align, FormatAST(e, align))
  {
  }

  /** An indented one-line label followed by a line break is one line. */
  lemma HeadLine(align: string, text: string)
    requires forall i :: 0 <= i < |align| ==> align[i] != '\n'
    requires forall i :: 0 <= i < |text| ==> text[i] != '\n'
    ensures CountNewlines(align + text + "\n") == 1
  {
    NoNewlineCount(align + text);
    CountNewlinesConcat(align + text, "\n");
  }

  /** The tree printer writes exactly one line per node. */
  lemma {:induction false} FormatASTLines(e: Expr, align: string)
    requires forall i :: 0 <= i < |align| ==> align[i] != '\n'
    requires NamesSingleLine(e)
    ensures CountNewlines(FormatAST(e, align)) == Size(e)
    decreases e
  {
    var deeper := align + AST_ALIGN;
    DeeperSingleLine(align);
    match e
    case Num(v) =>
      NoNewlineDecimal(v);
      HeadLine(align, Format(e));
    case Var(x) =>
      HeadLine(align, x);
    case Unary(op, c) =>
      FormatASTLines(c, deeper);
      HeadLine(align, UnarySymbol(op));
      CountNewlinesConcat(align + UnarySymbol(op) + "\n", FormatAST(c, deeper));
    case Binary(op, l, r) =>
      FormatASTLines(l, deeper);
      FormatASTLines(r, deeper);
      var head := align + BinarySymbol(op) + "\n";
      HeadLine(align, BinarySymbol(op));
      CountNewlinesConcat(head, FormatAST(l, deeper));
      CountNewlinesConcat(head + FormatAST(l, deeper), FormatAST(r, deeper));
  }

  /** One more level of indentation adds no line break. */
  lemma DeeperSingleLine(align: string)
    requires forall i :: 0 <= i < |align| ==> align[i] != '\n'
    ensures forall i :: 0 <= i < |align + AST_ALIGN| ==> (align + AST_ALIGN)[i] != '\n'
  {
  }

  // ---------------------------------------------------------------------------
  // Evaluation

  /** a ** b for b >= 0. */
  function Pow(a: int, b: nat): int {
    if b == 0 then 1 else a * Pow(a, b - 1)
  }

  lemma {:induction false} PowAdd(a: int, m: nat, n: nat)
    ensures Pow(a, m + n) == Pow(a, m) * Pow(a, n)
    decreases m
  {
    if m > 0 {
      PowAdd(a, m - 1, n);
      assert Pow(a, m + n) == a * Pow(a, m - 1 + n);
    }
  }

  lemma {:induction false} PowSquare(a: int, k: nat)
    ensures Pow(a * a, k) == Pow(a, 2 * k)
    decreases k
  {
    if k > 0 {
      PowSquare(a, k - 1);
      var x := Pow(a, 2 * k - 2);
      assert Pow(a, 2 * k - 1) == a * x;
      assert Pow(a, 2 * k) == a * (a * x);
      assert a * (a * x) == (a * a) * x;
    }
  }

  /** fast_pow: square-and-multiply; for a non-positive exponent the loop does not run and 1 is returned. */
  method FastPow(a0: int, b0: int) returns (res: int)
    ensures b0 >= 0 ==> res == Pow(a0, b0)
    ensures b0 < 0 ==> res == 1
  {
    res := 1;
    var a, b := a0, b0;
    while b > 0
      invariant b0 >= 0 ==> b >= 0 && res * Pow(a, b) == Pow(a0, b0)
      invariant b0 < 0 ==> b == b0 && res == 1
      decreases if b > 0 then b else 0
    {
      var half := NatDiv(b, 2);
      ghost var oldRes, oldA := res, a;
      PowSquare(a, half);
      if b % 2 == 1 {
        assert b == 2 * half + 1;
        PowAdd(a, 1, 2 * half);
        res := res * a;
        assert res * Pow(a * a, half) == oldRes * (a * Pow(a, 2 * half));
      } else {
        assert b == 2 * half;
      }
      a := a * a;
      b := half;
    }
  }

  /** What MOD computes: the remainder that takes the sign of the divisor (floored modulo). */
  function ModEval(l: int, r: int): (m: int)
    requires r != 0
    ensures r > 0 ==> m == l % r && 0 <= m < r
    ensures r < 0 ==> m == -((-l) % (-r)) && r < m <= 0
  {
    ModValue(l, r);
    TRem(r + TRem(l, r), r)
  }

  /** Adding the divisor to a truncated remainder makes it positive without changing its residue. */
  lemma ShiftedRemainder(x: int, d: int)
    requires d > 0
    ensures 0 < d + TRem(x, d) && (d + TRem(x, d)) % d == x % d
  {
    TRemBounds(x, d);
    var q := TDiv(x, d);
    var y := d + TRem(x, d);
    assert y == x + (1 - q) * d;
    assert x == (x / d) * d + x % d;
    assert (x / d + 1 - q) * d == (x / d) * d + (1 - q) * d;
    ModUnique(y, x / d + 1 - q, x % d, d);
  }

  lemma ModValue(l: int, r: int)
    requires r != 0
    ensures r > 0 ==> TRem(r + TRem(l, r), r) == l % r
    ensures r < 0 ==> TRem(r + TRem(l, r), r) == -((-l) % (-r))
  {
    if r > 0 {
      ShiftedRemainder(l, r);
      TRemSigned(r + TRem(l, r), r);
    } else {
      var d := -r;
      TRemSigned(l, r);
      TRemSigned(-l, d);
      assert TRem(l, r) == -TRem(-l, d);
      ShiftedRemainder(-l, d);
      var y := r + TRem(l, r);
      assert y == -(d + TRem(-l, d));
      TRemSigned(y, r);
    }
  }

  lemma ModExamples()
    ensures ModEval(-7, 3) == 2 && ModEval(7, -3) == -2 && ModEval(-7, -3) == -1 && ModEval(7, 3) == 1
  {
  }

  function ApplyUnary(op: UnOp, v: int): int {
    match op
    case Neg => -v
    case Pos => v
  }

  /** The binary operators; `right` is the right operand's tree, whose text names a zero divisor or a negative exponent. */
  function ApplyBinary(op: BinOp, l: int, r: int, right: Expr): (res: RuntimeResult<int>)
    ensures res.Err? <==> ((op == Div || op == Mod) && r == 0) || (op == Exp && r < 0)
    ensures res.Err? && op != Exp ==> res.error == DivByZero(Format(right))
    ensures res.Err? && op == Exp ==> res.error == ExpByNeg(Format(right))
  {
    match op
    case Add => Ok(l + r)
    case Sub => Ok(l - r)
    case Mul => Ok(l * r)
    case Div => if r == 0 then Err(DivByZero(Format(right))) else Ok(TDiv(l, r))
    case Mod => if r == 0 then Err(DivByZero(Format(right))) else Ok(ModEval(l, r))
    case Exp => if r < 0 then Err(ExpByNeg(Format(right))) else Ok(Pow(l, r))
  }

  /** The outcome of evaluating a tree and the variables read successfully along the way, in order. */
  datatype Evaluation = Evaluation(result: RuntimeResult<int>, trace: seq<string>)

  /** The variable occurrences of a tree, left to right. */
  function Occurrences(e: Expr): seq<string> {
    match e
    case Num(_) => []
    case Var(x) => [x]
    case Unary(_, c) => Occurrences(c)
    case Binary(_, l, r) => Occurrences(l) + Occurrences(r)
  }

  predicate IsSeqPrefix<T(==)>(p: seq<T>, s: seq<T>) {
    |p| <= |s| && s[..|p|] == p
  }

  /** The errors evaluation can raise. */
  predicate IsEvalError(err: RuntimeError) {
    err.UndefinedVariable? || err.DivByZero? || err.ExpByNeg?
  }

  /**
   * Expression::Eval: children left to right; the first error stops
   * evaluation. The variables read are a prefix of the tree's occurrences,
   * all of them defined, and all of them on success; an undefined variable
   * error names an occurrence that is missing from the context.
   */
  function Eval(e: Expr, vars: map<string, int>): (ev: Evaluation)
    ensures IsSeqPrefix(ev.trace, Occurrences(e))
    ensures forall k :: 0 <= k < |ev.trace| ==> ev.trace[k] in vars
    ensures ev.result.Ok? ==> ev.trace == Occurrences(e)
    ensures ev.result.Err? ==> IsEvalError(ev.result.error)
    ensures ev.result.Err? && ev.result.error.UndefinedVariable? ==>
      ev.result.error.name !in vars && ev.result.error.name in Occurrences(e)
  {
    match e
    case Num(v) => Evaluation(Ok(v), [])
    case Var(x) => if x in vars then Evaluation(Ok(vars[x]), [x]) else Evaluation(Err(UndefinedVariable(x)), [])
    case Unary(op, c) =>
      var ec := Eval(c, vars);
      if ec.result.Err? then ec else Evaluation(Ok(ApplyUnary(op, ec.result.value)), ec.trace)
    case Binary(op, l, r) =>
      var el := Eval(l, vars);
      if el.result.Err? then
        assert Occurrences(e)[..|el.trace|] == Occurrences(l)[..|el.trace|];
        el
      else
        var er := Eval(r, vars);
        var trace := el.trace + er.trace;
        assert Occurrences(e)[..|trace|] == Occurrences(l) + Occurrences(r)[..|er.trace|];
        if er.result.Err? then Evaluation(er.result, trace)
        else Evaluation(ApplyBinary(op, el.result.value, er.result.value, r), trace)
  }

  /** Evaluation succeeds exactly when every occurrence is defined and no division by zero or negative exponent happens. */
  lemma {:induction false} EvalDefined(e: Expr, vars: map<string, int>)
    requires forall x :: x in Occurrences(e) ==> x in vars
    ensures Eval(e, vars).result.Err? ==> !Eval(e, vars).result.error.UndefinedVariable?
    decreases e
  {
    match e
    case Num(_) =>
    case Var(_) =>
    case Unary(_, c) => EvalDefined(c, vars);
    case Binary(_, l, r) =>
      EvalDefined(l, vars);
      EvalDefined(r, vars);
  }

  /** Two contexts that agree on the tree's variables give the same evaluation. */
  lemma {:induction false} EvalFrame(e: Expr, v1: map<string, int>, v2: map<string, int>)
    requires forall x :: x in Occurrences(e) ==> (x in v1 <==> x in v2) && (x in v1 ==> v1[x] == v2[x])
    ensures Eval(e, v1) == Eval(e, v2)
    decreases e
  {
    match e
    case Num(_) =>
    case Var(_) =>
    case Unary(_, c) => EvalFrame(c, v1, v2);
    case Binary(_, l, r) =>
      EvalFrame(l, v1, v2);
      EvalFrame(r, v1, v2);
  }

  /** Without /, MOD and ** a tree over defined variables always evaluates. */
  predicate Total(e: Expr) {
    match e
    case Num(_) => true
    case Var(_) => true
    case Unary(_, c) => Total(c)
    case Binary(op, l, r) => op != Div && op != Mod && op != Exp && Total(l) && Total(r)
  }

  lemma {:induction false} EvalTotal(e: Expr, vars: map<string, int>)
    requires Total(e)
    requires forall x :: x in Occurrences(e) ==> x in vars
    ensures Eval(e, vars).result.Ok?
    decreases e
  {
    match e
    case Num(_) =>
    case Var(_) =>
    case Unary(_, c) => EvalTotal(c, vars);
    case Binary(_, l, r) =>
      EvalTotal(l, vars);
      EvalTotal(r, vars);
  }

  lemma EvalExamples()
    ensures Eval(Binary(Sub, Binary(Sub, Num(1), Num(2)), Num(3)), map[]).result == Ok(-4)
    ensures Eval(Binary(Exp, Num(2), Binary(Exp, Num(3), Num(2))), map[]).result == Ok(512)
    ensures Eval(Binary(Div, Num(-7), Num(2)), map[]).result == Ok(-3)
    ensures Eval(Binary(Add, Binary(Div, Num(1), Num(0)), Var("X")), map[]) == Evaluation(Err(DivByZero("0")), [])
    ensures Eval(Binary(Add, Var("X"), Var("Y")), map["X" := 1]) == Evaluation(Err(UndefinedVariable("Y")), ["X"])
  {
    assert Pow(3, 2) == 9;
    assert Pow(2, 9) == 512;
    assert DecimalInt(0) == "0";
  }
}
