/**
 * Worked parses of the expression parser (QBasic/basic/ExprParser.cpp):
 * precedence and associativity on small inputs, the error paths, and the
 * input on which the parser as written builds a tree whose operands are out of
 * token order (see Findings in README.md).
 */
module BasicExprParserExamples {
  import opened StdTypes
  import opened BasicConfig
  import opened BasicError
  import opened BasicExpression
  import opened BasicExprParser

  // ---------------------------------------------------------------------------
  // Assembling a run from its steps

  /** One more item of the main pass. */
  lemma RunStep(items: seq<Item>, n: nat, st: Stacks, next: Stacks, exprStr: string)
    requires n < |items|
    requires RunItems(items, n, exprStr) == Ok(st)
    requires Shift(st, items[n], exprStr) == Ok(next)
    ensures RunItems(items, n + 1, exprStr) == Ok(next)
  {
  }

  /** An operand item is pushed as it is. */
  lemma RunOperand(items: seq<Item>, n: nat, st: Stacks, e: Expr, exprStr: string)
    requires n < |items| && items[n] == Operand(e)
    requires RunItems(items, n, exprStr) == Ok(st)
    ensures RunItems(items, n + 1, exprStr) == Ok(Stacks(st.pending + [PendingOperand(e)], st.trees))
  {
    ShiftOperand(st, e, exprStr);
  }

  /** A single '(' pushes one marker. */
  lemma ShiftOpen(st: Stacks, exprStr: string)
    ensures Shift(st, Open(1), exprStr) == Ok(Stacks(st.pending + [Marker], st.trees))
  {
    assert Markers(1) == [Marker];
  }

  /** A binary operator after a lone operand pops it to the trees and becomes pending. */
  lemma OpAfterOperand(e: Expr, op: BinOp, exprStr: string)
    ensures Shift(Stacks([PendingOperand(e)], []), BinaryOp(op), exprStr) == Ok(Stacks([PendingBinary(op)], [e]))
  {
    var p := PendingBinary(op);
    var r := Stacks([], [e]);
    assert Pop([PendingOperand(e)]) == [] && [] + [e] == r.trees;
    assert Reduce(r, PendingPrecedence(p), BinaryAsso(op) == Left, exprStr) == Ok(r);
    assert [] + [p] == [p];
  }

  /** The items a, an operator, b run to the operator over a and the operand b. */
  lemma OperandOpOperand(its: seq<Item>, a: Expr, op: BinOp, b: Expr, exprStr: string)
    requires |its| >= 3 && its[0] == Operand(a) && its[1] == BinaryOp(op) && its[2] == Operand(b)
    ensures RunItems(its, 3, exprStr) == Ok(Stacks([PendingBinary(op), PendingOperand(b)], [a]))
  {
    var s0 := Stacks([], []);
    var s1 := Stacks([PendingOperand(a)], []);
    var s2 := Stacks([PendingBinary(op)], [a]);
    RunOperand(its, 0, s0, a, exprStr);
    assert s0.pending + [PendingOperand(a)] == s1.pending;
    OpAfterOperand(a, op, exprStr);
    RunStep(its, 1, s1, s2, exprStr);
    RunOperand(its, 2, s2, b, exprStr);
    assert s2.pending + [PendingOperand(b)] == [PendingBinary(op), PendingOperand(b)];
  }

  /** A one-digit token is the number it spells. */
  lemma DigitToken(texts: seq<string>, exprStr: string, i: nat, v: nat)
    requires NonEmptyTexts(texts) && i < |texts| && v < 10
    requires texts[i] == [(v + '0' as int) as char]
    ensures ClassifyToken(texts, exprStr, i) == Ok(Operand(Num(v)))
  {
    var t := texts[i];
    assert AllDigits(t);
    assert t[..|t| - 1] == [] && DigitsValue(t) == DigitValue(t[0]);
    assert !IsOperatorText(t);
  }

  /** An operator's symbol after an operand is that binary operator. */
  lemma OpToken(texts: seq<string>, exprStr: string, i: nat, op: BinOp)
    requires NonEmptyTexts(texts) && 0 < i < |texts|
    requires texts[i] == BinarySymbol(op) && !IsOperatorText(texts[i - 1]) && texts[i - 1][0] != '('
    ensures ClassifyToken(texts, exprStr, i) == Ok(BinaryOp(op))
  {
    assert IsOperatorText(texts[i]) && BinaryOfText(texts[i]) == op by {
      match op
      case Add => case Sub => case Mul => case Div => case Mod => case Exp =>
    }
  }

  // ---------------------------------------------------------------------------
  // 1 + 2 * 3 : '*' binds tighter than '+'

  const SUM_TEXTS: seq<string> := ["1", "+", "2", "*", "3"]
  const SUM_STR: string := "1 + 2 * 3"
  const SUM_ITEMS: seq<Item> := [Operand(Num(1)), BinaryOp(Add), Operand(Num(2)), BinaryOp(Mul), Operand(Num(3))]
  const SUM_TREE: Expr := Binary(Add, Num(1), Binary(Mul, Num(2), Num(3)))

  lemma SumClassify()
    ensures Classify(SUM_TEXTS, SUM_STR) == Ok(SUM_ITEMS)
  {
    SumTokens();
    ClassifyFrom(SUM_TEXTS, SUM_STR, SUM_ITEMS, 5);
    assert SUM_ITEMS[..5] == SUM_ITEMS;
    forall i | 1 <= i < |SUM_TEXTS| ensures !EmptyPairAt(SUM_TEXTS, i) { }
  }

  lemma SumTokens()
    ensures NonEmptyTexts(SUM_TEXTS)
    ensures forall k :: 0 <= k < 5 ==> ClassifyToken(SUM_TEXTS, SUM_STR, k) == Ok(SUM_ITEMS[k])
  {
    DigitToken(SUM_TEXTS, SUM_STR, 0, 1);
    OpToken(SUM_TEXTS, SUM_STR, 1, Add);
    DigitToken(SUM_TEXTS, SUM_STR, 2, 2);
    OpToken(SUM_TEXTS, SUM_STR, 3, Mul);
    DigitToken(SUM_TEXTS, SUM_STR, 4, 3);
  }

  lemma SumMul()
    ensures Shift(Stacks([PendingBinary(Add), PendingOperand(Num(2))], [Num(1)]), BinaryOp(Mul), SUM_STR)
      == Ok(Stacks([PendingBinary(Add), PendingBinary(Mul)], [Num(1), Num(2)]))
  {
    var r := Stacks([PendingBinary(Add)], [Num(1), Num(2)]);
    assert Pop([PendingBinary(Add), PendingOperand(Num(2))]) == r.pending && [Num(1)] + [Num(2)] == r.trees;
    assert Reduce(r, 10, true, SUM_STR) == Ok(r);
    assert r.pending + [PendingBinary(Mul)] == [PendingBinary(Add), PendingBinary(Mul)];
  }

  lemma SumRunFront(its: seq<Item>)
    requires its == SUM_ITEMS
    ensures RunItems(its, 3, SUM_STR) == Ok(Stacks([PendingBinary(Add), PendingOperand(Num(2))], [Num(1)]))
  {
    OperandOpOperand(its, Num(1), Add, Num(2), SUM_STR);
  }

  lemma SumRun(its: seq<Item>)
    requires its == SUM_ITEMS
    ensures RunItems(its, 5, SUM_STR) ==
      Ok(Stacks([PendingBinary(Add), PendingBinary(Mul), PendingOperand(Num(3))], [Num(1), Num(2)]))
  {
    var s3 := Stacks([PendingBinary(Add), PendingOperand(Num(2))], [Num(1)]);
    var s4 := Stacks([PendingBinary(Add), PendingBinary(Mul)], [Num(1), Num(2)]);
    var s5 := Stacks([PendingBinary(Add), PendingBinary(Mul), PendingOperand(Num(3))], [Num(1), Num(2)]);
    SumRunFront(its);
    SumMul();
    RunStep(its, 3, s3, s4, SUM_STR);
    RunOperand(its, 4, s4, Num(3), SUM_STR);
    assert s4.pending + [PendingOperand(Num(3))] == s5.pending;
  }

  lemma SumFinish()
    ensures Finish(Stacks([PendingBinary(Add), PendingBinary(Mul), PendingOperand(Num(3))], [Num(1), Num(2)]), SUM_STR)
      == Ok(SUM_TREE)
  {
    var s := Stacks([PendingBinary(Add), PendingBinary(Mul), PendingOperand(Num(3))], [Num(1), Num(2)]);
    var r1 := Stacks([PendingBinary(Add), PendingBinary(Mul)], [Num(1), Num(2), Num(3)]);
    assert Pop(s.pending) == r1.pending && s.trees + [Num(3)] == r1.trees;
    var r2 := Stacks([PendingBinary(Add)], [Num(1), Binary(Mul, Num(2), Num(3))]);
    assert Pop(r1.pending) == r2.pending && r1.trees[..1] + [Binary(Mul, r1.trees[1], r1.trees[2])] == r2.trees;
    var r3 := Stacks([], [SUM_TREE]);
    assert Pop(r2.pending) == [] && r2.trees[..0] + [Binary(Add, r2.trees[0], r2.trees[1])] == r3.trees;
    assert Reduce(r3, INT_MIN, false, SUM_STR) == Ok(r3);
    assert Reduce(r2, INT_MIN, false, SUM_STR) == Ok(r3);
    assert Reduce(r1, INT_MIN, false, SUM_STR) == Ok(r3);
    assert Reduce(s, INT_MIN, false, SUM_STR) == Ok(r3);
  }

  /** "1 + 2 * 3" parses as 1 + (2 * 3) and evaluates to 7. */
  lemma ParseSum()
    ensures ParseTexts(SUM_TEXTS, SUM_STR) == Ok(SUM_TREE)
    ensures Eval(SUM_TREE, map[]).result == Ok(7)
  {
    SumClassify();
    forall k | 1 <= k < 5 ensures !Juxtaposed(SUM_ITEMS, k) { }
    ParseFrom(SUM_TEXTS, SUM_STR, SUM_ITEMS);
    SumRun(SUM_ITEMS);
    SumFinish();
    SumEval();
  }

  lemma SumEval()
    ensures Eval(SUM_TREE, map[]).result == Ok(7)
  {
  }

  // ---------------------------------------------------------------------------
  // 1 - 2 - 3 : '-' is left associative

  const DIFF_TEXTS: seq<string> := ["1", "-", "2", "-", "3"]
  const DIFF_STR: string := "1 - 2 - 3"
  const DIFF_ITEMS: seq<Item> := [Operand(Num(1)), BinaryOp(Sub), Operand(Num(2)), BinaryOp(Sub), Operand(Num(3))]
  const DIFF_TREE: Expr := Binary(Sub, Binary(Sub, Num(1), Num(2)), Num(3))

  lemma DiffClassify()
    ensures Classify(DIFF_TEXTS, DIFF_STR) == Ok(DIFF_ITEMS)
  {
    DiffTokens();
    ClassifyFrom(DIFF_TEXTS, DIFF_STR, DIFF_ITEMS, 5);
    assert DIFF_ITEMS[..5] == DIFF_ITEMS;
    forall i | 1 <= i < |DIFF_TEXTS| ensures !EmptyPairAt(DIFF_TEXTS, i) { }
  }

  lemma DiffTokens()
    ensures NonEmptyTexts(DIFF_TEXTS)
    ensures forall k :: 0 <= k < 5 ==> ClassifyToken(DIFF_TEXTS, DIFF_STR, k) == Ok(DIFF_ITEMS[k])
  {
    DigitToken(DIFF_TEXTS, DIFF_STR, 0, 1);
    OpToken(DIFF_TEXTS, DIFF_STR, 1, Sub);
    DigitToken(DIFF_TEXTS, DIFF_STR, 2, 2);
    OpToken(DIFF_TEXTS, DIFF_STR, 3, Sub);
    DigitToken(DIFF_TEXTS, DIFF_STR, 4, 3);
  }

  /** The second '-' pops the first: left associativity compares with >=. */
  lemma DiffSecond()
    ensures Shift(Stacks([PendingBinary(Sub), PendingOperand(Num(2))], [Num(1)]), BinaryOp(Sub), DIFF_STR)
      == Ok(Stacks([PendingBinary(Sub)], [Binary(Sub, Num(1), Num(2))]))
  {
    var s := Stacks([PendingBinary(Sub), PendingOperand(Num(2))], [Num(1)]);
    var r1 := Stacks([PendingBinary(Sub)], [Num(1), Num(2)]);
    assert Pop(s.pending) == r1.pending && [Num(1)] + [Num(2)] == r1.trees;
    var r2 := Stacks([], [Binary(Sub, Num(1), Num(2))]);
    assert Pop(r1.pending) == [] && r1.trees[..0] + [Binary(Sub, r1.trees[0], r1.trees[1])] == r2.trees;
    assert Reduce(r2, 0, true, DIFF_STR) == Ok(r2);
    assert Reduce(r1, 0, true, DIFF_STR) == Ok(r2);
    assert Reduce(s, 0, true, DIFF_STR) == Ok(r2);
    assert [] + [PendingBinary(Sub)] == [PendingBinary(Sub)];
  }

  lemma DiffRunFront(its: seq<Item>)
    requires its == DIFF_ITEMS
    ensures RunItems(its, 3, DIFF_STR) == Ok(Stacks([PendingBinary(Sub), PendingOperand(Num(2))], [Num(1)]))
  {
    OperandOpOperand(its, Num(1), Sub, Num(2), DIFF_STR);
  }

  lemma DiffRun(its: seq<Item>)
    requires its == DIFF_ITEMS
    ensures RunItems(its, 5, DIFF_STR) ==
      Ok(Stacks([PendingBinary(Sub), PendingOperand(Num(3))], [Binary(Sub, Num(1), Num(2))]))
  {
    var s3 := Stacks([PendingBinary(Sub), PendingOperand(Num(2))], [Num(1)]);
    var s4 := Stacks([PendingBinary(Sub)], [Binary(Sub, Num(1), Num(2))]);
    var s5 := Stacks([PendingBinary(Sub), PendingOperand(Num(3))], [Binary(Sub, Num(1), Num(2))]);
    DiffRunFront(its);
    DiffSecond();
    RunStep(its, 3, s3, s4, DIFF_STR);
    RunOperand(its, 4, s4, Num(3), DIFF_STR);
    assert s4.pending + [PendingOperand(Num(3))] == s5.pending;
  }

  lemma DiffFinish()
    ensures Finish(Stacks([PendingBinary(Sub), PendingOperand(Num(3))], [Binary(Sub, Num(1), Num(2))]), DIFF_STR)
      == Ok(DIFF_TREE)
  {
    var s := Stacks([PendingBinary(Sub), PendingOperand(Num(3))], [Binary(Sub, Num(1), Num(2))]);
    var r1 := Stacks([PendingBinary(Sub)], [Binary(Sub, Num(1), Num(2)), Num(3)]);
    assert Pop(s.pending) == r1.pending && s.trees + [Num(3)] == r1.trees;
    var r2 := Stacks([], [DIFF_TREE]);
    assert Pop(r1.pending) == [] && r1.trees[..0] + [Binary(Sub, r1.trees[0], r1.trees[1])] == r2.trees;
    assert Reduce(r2, INT_MIN, false, DIFF_STR) == Ok(r2);
    assert Reduce(r1, INT_MIN, false, DIFF_STR) == Ok(r2);
    assert Reduce(s, INT_MIN, false, DIFF_STR) == Ok(r2);
  }

  /** "1 - 2 - 3" parses as (1 - 2) - 3 and evaluates to -4. */
  lemma ParseDifference()
    ensures ParseTexts(DIFF_TEXTS, DIFF_STR) == Ok(DIFF_TREE)
    ensures Eval(DIFF_TREE, map[]).result == Ok(-4)
  {
    DiffClassify();
    forall k | 1 <= k < 5 ensures !Juxtaposed(DIFF_ITEMS, k) { }
    ParseFrom(DIFF_TEXTS, DIFF_STR, DIFF_ITEMS);
    DiffRun(DIFF_ITEMS);
    DiffFinish();
    EvalExamples();
  }

  // ---------------------------------------------------------------------------
  // 2 ** 3 ** 2 : '**' is right associative

  const POW_TEXTS: seq<string> := ["2", "**", "3", "**", "2"]
  const POW_STR: string := "2 ** 3 ** 2"
  const POW_ITEMS: seq<Item> := [Operand(Num(2)), BinaryOp(Exp), Operand(Num(3)), BinaryOp(Exp), Operand(Num(2))]
  const POW_TREE: Expr := Binary(Exp, Num(2), Binary(Exp, Num(3), Num(2)))

  lemma PowClassify()
    ensures Classify(POW_TEXTS, POW_STR) == Ok(POW_ITEMS)
  {
    forall i | 1 <= i < |POW_TEXTS| ensures !EmptyPairAt(POW_TEXTS, i) { }
    assert DigitsValue("2") == 2 && DigitsValue("3") == 3;
    forall k | 0 <= k < 5 ensures ClassifyToken(POW_TEXTS, POW_STR, k) == Ok(POW_ITEMS[k]) { }
    ClassifyFrom(POW_TEXTS, POW_STR, POW_ITEMS, 5);
    assert POW_ITEMS[..5] == POW_ITEMS;
  }

  /** The second '**' does not pop the first: right associativity compares strictly. */
  lemma PowSecond()
    ensures Shift(Stacks([PendingBinary(Exp), PendingOperand(Num(3))], [Num(2)]), BinaryOp(Exp), POW_STR)
      == Ok(Stacks([PendingBinary(Exp), PendingBinary(Exp)], [Num(2), Num(3)]))
  {
    var r := Stacks([PendingBinary(Exp)], [Num(2), Num(3)]);
    assert Pop([PendingBinary(Exp), PendingOperand(Num(3))]) == r.pending && [Num(2)] + [Num(3)] == r.trees;
    assert Reduce(r, 20, false, POW_STR) == Ok(r);
    assert r.pending + [PendingBinary(Exp)] == [PendingBinary(Exp), PendingBinary(Exp)];
  }

  lemma PowRunFront(its: seq<Item>)
    requires its == POW_ITEMS
    ensures RunItems(its, 3, POW_STR) == Ok(Stacks([PendingBinary(Exp), PendingOperand(Num(3))], [Num(2)]))
  {
    OperandOpOperand(its, Num(2), Exp, Num(3), POW_STR);
  }

  lemma PowRun(its: seq<Item>)
    requires its == POW_ITEMS
    ensures RunItems(its, 5, POW_STR) ==
      Ok(Stacks([PendingBinary(Exp), PendingBinary(Exp), PendingOperand(Num(2))], [Num(2), Num(3)]))
  {
    var s3 := Stacks([PendingBinary(Exp), PendingOperand(Num(3))], [Num(2)]);
    var s4 := Stacks([PendingBinary(Exp), PendingBinary(Exp)], [Num(2), Num(3)]);
    var s5 := Stacks([PendingBinary(Exp), PendingBinary(Exp), PendingOperand(Num(2))], [Num(2), Num(3)]);
    PowRunFront(its);
    PowSecond();
    RunStep(its, 3, s3, s4, POW_STR);
    RunOperand(its, 4, s4, Num(2), POW_STR);
    assert s4.pending + [PendingOperand(Num(2))] == s5.pending;
  }

  lemma PowFinish()
    ensures Finish(Stacks([PendingBinary(Exp), PendingBinary(Exp), PendingOperand(Num(2))], [Num(2), Num(3)]), POW_STR)
      == Ok(POW_TREE)
  {
    var s := Stacks([PendingBinary(Exp), PendingBinary(Exp), PendingOperand(Num(2))], [Num(2), Num(3)]);
    var r1 := Stacks([PendingBinary(Exp), PendingBinary(Exp)], [Num(2), Num(3), Num(2)]);
    assert Pop(s.pending) == r1.pending && s.trees + [Num(2)] == r1.trees;
    var r2 := Stacks([PendingBinary(Exp)], [Num(2), Binary(Exp, Num(3), Num(2))]);
    assert Pop(r1.pending) == r2.pending && r1.trees[..1] + [Binary(Exp, r1.trees[1], r1.trees[2])] == r2.trees;
    var r3 := Stacks([], [POW_TREE]);
    assert Pop(r2.pending) == [] && r2.trees[..0] + [Binary(Exp, r2.trees[0], r2.trees[1])] == r3.trees;
    assert Reduce(r3, INT_MIN, false, POW_STR) == Ok(r3);
    assert Reduce(r2, INT_MIN, false, POW_STR) == Ok(r3);
    assert Reduce(r1, INT_MIN, false, POW_STR) == Ok(r3);
    assert Reduce(s, INT_MIN, false, POW_STR) == Ok(r3);
  }

  /** "2 ** 3 ** 2" parses as 2 ** (3 ** 2) and evaluates to 512. */
  lemma ParsePower()
    ensures ParseTexts(POW_TEXTS, POW_STR) == Ok(POW_TREE)
    ensures Eval(POW_TREE, map[]).result == Ok(512)
  {
    PowClassify();
    forall k | 1 <= k < 5 ensures !Juxtaposed(POW_ITEMS, k) { }
    ParseFrom(POW_TEXTS, POW_STR, POW_ITEMS);
    PowRun(POW_ITEMS);
    PowFinish();
    PowEval();
  }

  lemma PowEval()
    ensures Eval(POW_TREE, map[]).result == Ok(512)
  {
    assert Pow(3, 2) == 9;
    assert Pow(2, 9) == 512;
  }

  // ---------------------------------------------------------------------------
  // - 2 ** 2 : unary minus (30) binds tighter than '**' (20)

  const NEG_TEXTS: seq<string> := ["-", "2", "**", "2"]
  const NEG_STR: string := "- 2 ** 2"
  const NEG_ITEMS: seq<Item> := [UnaryOp(Neg), Operand(Num(2)), BinaryOp(Exp), Operand(Num(2))]
  const NEG_TREE: Expr := Binary(Exp, Unary(Neg, Num(2)), Num(2))

  lemma NegClassify()
    ensures Classify(NEG_TEXTS, NEG_STR) == Ok(NEG_ITEMS)
  {
    forall i | 1 <= i < |NEG_TEXTS| ensures !EmptyPairAt(NEG_TEXTS, i) { }
    assert DigitsValue("2") == 2;
    forall k | 0 <= k < 4 ensures ClassifyToken(NEG_TEXTS, NEG_STR, k) == Ok(NEG_ITEMS[k]) { }
    ClassifyFrom(NEG_TEXTS, NEG_STR, NEG_ITEMS, 4);
    assert NEG_ITEMS[..4] == NEG_ITEMS;
  }

  lemma NegMinus()
    ensures Shift(Stacks([], []), UnaryOp(Neg), NEG_STR) == Ok(Stacks([PendingUnary(Neg)], []))
  {
    assert Reduce(Stacks([], []), UNARY_PRECEDENCE, false, NEG_STR) == Ok(Stacks([], []));
    assert [] + [PendingUnary(Neg)] == [PendingUnary(Neg)];
  }

  /** The '**' pops the pending minus first, so the minus applies to 2 alone. */
  lemma NegExp()
    ensures Shift(Stacks([PendingUnary(Neg), PendingOperand(Num(2))], []), BinaryOp(Exp), NEG_STR)
      == Ok(Stacks([PendingBinary(Exp)], [Unary(Neg, Num(2))]))
  {
    var s := Stacks([PendingUnary(Neg), PendingOperand(Num(2))], []);
    var r1 := Stacks([PendingUnary(Neg)], [Num(2)]);
    assert Pop(s.pending) == r1.pending && [] + [Num(2)] == r1.trees;
    var r2 := Stacks([], [Unary(Neg, Num(2))]);
    assert Pop(r1.pending) == [] && Pop(r1.trees) + [Unary(Neg, Top(r1.trees))] == r2.trees;
    assert Reduce(r2, 20, false, NEG_STR) == Ok(r2);
    assert Reduce(r1, 20, false, NEG_STR) == Ok(r2);
    assert Reduce(s, 20, false, NEG_STR) == Ok(r2);
    assert [] + [PendingBinary(Exp)] == [PendingBinary(Exp)];
  }

  lemma NegRun(its: seq<Item>)
    requires its == NEG_ITEMS
    ensures RunItems(its, 4, NEG_STR) ==
      Ok(Stacks([PendingBinary(Exp), PendingOperand(Num(2))], [Unary(Neg, Num(2))]))
  {
    var s0 := Stacks([], []);
    var s1 := Stacks([PendingUnary(Neg)], []);
    var s2 := Stacks([PendingUnary(Neg), PendingOperand(Num(2))], []);
    var s3 := Stacks([PendingBinary(Exp)], [Unary(Neg, Num(2))]);
    var s4 := Stacks([PendingBinary(Exp), PendingOperand(Num(2))], [Unary(Neg, Num(2))]);
    assert RunItems(its, 1, NEG_STR) == Ok(s1) by {
      assert its[0] == UnaryOp(Neg);
      NegMinus();
      RunStep(its, 0, s0, s1, NEG_STR);
    }
    assert RunItems(its, 2, NEG_STR) == Ok(s2) by {
      assert its[1] == Operand(Num(2));
      ShiftOperand(s1, Num(2), NEG_STR);
      assert s1.pending + [PendingOperand(Num(2))] == s2.pending;
      RunStep(its, 1, s1, s2, NEG_STR);
    }
    assert RunItems(its, 3, NEG_STR) == Ok(s3) by {
      assert its[2] == BinaryOp(Exp);
      NegExp();
      RunStep(its, 2, s2, s3, NEG_STR);
    }
    assert its[3] == Operand(Num(2));
    ShiftOperand(s3, Num(2), NEG_STR);
    assert s3.pending + [PendingOperand(Num(2))] == s4.pending;
    RunStep(its, 3, s3, s4, NEG_STR);
  }

  lemma NegFinish()
    ensures Finish(Stacks([PendingBinary(Exp), PendingOperand(Num(2))], [Unary(Neg, Num(2))]), NEG_STR) == Ok(NEG_TREE)
  {
    var s := Stacks([PendingBinary(Exp), PendingOperand(Num(2))], [Unary(Neg, Num(2))]);
    var r1 := Stacks([PendingBinary(Exp)], [Unary(Neg, Num(2)), Num(2)]);
    assert Pop(s.pending) == r1.pending && s.trees + [Num(2)] == r1.trees;
    var r2 := Stacks([], [NEG_TREE]);
    assert Pop(r1.pending) == [] && r1.trees[..0] + [Binary(Exp, r1.trees[0], r1.trees[1])] == r2.trees;
    assert Reduce(r2, INT_MIN, false, NEG_STR) == Ok(r2);
    assert Reduce(r1, INT_MIN, false, NEG_STR) == Ok(r2);
    assert Reduce(s, INT_MIN, false, NEG_STR) == Ok(r2);
  }

  /** "- 2 ** 2" parses as (-2) ** 2 and evaluates to 4. */
  lemma ParseNegPower()
    ensures ParseTexts(NEG_TEXTS, NEG_STR) == Ok(NEG_TREE)
    ensures Eval(NEG_TREE, map[]).result == Ok(4)
  {
    NegClassify();
    forall k | 1 <= k < 4 ensures !Juxtaposed(NEG_ITEMS, k) { }
    ParseFrom(NEG_TEXTS, NEG_STR, NEG_ITEMS);
    NegRun(NEG_ITEMS);
    NegFinish();
    NegEval();
  }

  lemma NegEval()
    ensures Eval(NEG_TREE, map[]).result == Ok(4)
  {
    assert Pow(-2, 2) == 4;
  }

  // ---------------------------------------------------------------------------
  // Error paths

  /** The pre-pass of a two-token expression. */
  lemma ClassifyPair(texts: seq<string>, exprStr: string, items: seq<Item>)
    requires |texts| == 2 == |items| && NonEmptyTexts(texts) && !EmptyPairAt(texts, 1)
    requires ClassifyToken(texts, exprStr, 0) == Ok(items[0]) && ClassifyToken(texts, exprStr, 1) == Ok(items[1])
    ensures Classify(texts, exprStr) == Ok(items)
  {
    ClassifyFrom(texts, exprStr, items, 2);
    assert items[..2] == items;
  }

  lemma MissingOperandRun()
    ensures RunItems([Operand(Num(1)), BinaryOp(Add)], 2, "1 +") == Ok(Stacks([PendingBinary(Add)], [Num(1)]))
  {
    var items: seq<Item> := [Operand(Num(1)), BinaryOp(Add)];
    var s0, s1 := Stacks([], []), Stacks([PendingOperand(Num(1))], []);
    RunOperand(items, 0, s0, Num(1), "1 +");
    assert s0.pending + [PendingOperand(Num(1))] == s1.pending;
    OpAfterOperand(Num(1), Add, "1 +");
    RunStep(items, 1, s1, Stacks([PendingBinary(Add)], [Num(1)]), "1 +");
  }

  lemma MissingOperandClassify()
    ensures Classify(["1", "+"], "1 +") == Ok([Operand(Num(1)), BinaryOp(Add)])
  {
    var texts: seq<string> := ["1", "+"];
    var items: seq<Item> := [Operand(Num(1)), BinaryOp(Add)];
    assert !EmptyPairAt(texts, 1);
    assert DigitsValue("1") == 1;
    assert ClassifyToken(texts, "1 +", 0) == Ok(items[0]);
    assert ClassifyToken(texts, "1 +", 1) == Ok(items[1]);
    ClassifyPair(texts, "1 +", items);
  }

  /** "1 +": the '+' finds one operand only. */
  lemma ParseMissingOperand()
    ensures ParseTexts(["1", "+"], "1 +") == Err(NoOperand("1 +", "+"))
  {
    var texts: seq<string> := ["1", "+"];
    var items: seq<Item> := [Operand(Num(1)), BinaryOp(Add)];
    MissingOperandClassify();
    assert !Juxtaposed(items, 1);
    ParseFrom(texts, "1 +", items);
    MissingOperandRun();
    var s := Stacks([PendingBinary(Add)], [Num(1)]);
    assert Reduce(s, INT_MIN, false, "1 +") == Err(NoOperand("1 +", "+"));
  }


  lemma UnclosedRun()
    ensures RunItems([Open(1), Operand(Num(1))], 2, "( 1") == Ok(Stacks([Marker, PendingOperand(Num(1))], []))
  {
    var items: seq<Item> := [Open(1), Operand(Num(1))];
    ShiftOpen(Stacks([], []), "( 1");
    assert [] + [Marker] == [Marker];
    assert RunItems(items, 1, "( 1") == Ok(Stacks([Marker], []));
    ShiftOperand(Stacks([Marker], []), Num(1), "( 1");
    assert [Marker] + [PendingOperand(Num(1))] == [Marker, PendingOperand(Num(1))];
  }

  /** "( 1": the '(' is never closed. */
  lemma ParseUnclosed()
    ensures ParseTexts(["(", "1"], "( 1") == Err(BracketUnmatched("( 1"))
  {
    var texts: seq<string> := ["(", "1"];
    var items: seq<Item> := [Open(1), Operand(Num(1))];
    assert !EmptyPairAt(texts, 1);
    assert DigitsValue("1") == 1;
    assert ClassifyToken(texts, "( 1", 0) == Ok(items[0]);
    assert ClassifyToken(texts, "( 1", 1) == Ok(items[1]);
    ClassifyPair(texts, "( 1", items);
    assert !Juxtaposed(items, 1);
    ParseFrom(texts, "( 1", items);
    UnclosedRun();
    var s := Stacks([Marker, PendingOperand(Num(1))], []);
    var r := Stacks([Marker], [Num(1)]);
    assert Pop(s.pending) == r.pending && [] + [Num(1)] == r.trees;
    assert Reduce(r, INT_MIN, false, "( 1") == Ok(r);
    assert Reduce(s, INT_MIN, false, "( 1") == Ok(r);
  }

  lemma UnopenedRun()
    ensures RunItems([Operand(Num(1)), Close(1)], 2, "1 )") == Err(BracketUnmatched("1 )"))
  {
    var items: seq<Item> := [Operand(Num(1)), Close(1)];
    ShiftOperand(Stacks([], []), Num(1), "1 )");
    assert [] + [PendingOperand(Num(1))] == [PendingOperand(Num(1))];
    var s := Stacks([PendingOperand(Num(1))], []);
    assert RunItems(items, 1, "1 )") == Ok(s);
    var r := Stacks([], [Num(1)]);
    assert Pop(s.pending) == [] && [] + [Num(1)] == r.trees;
    assert Reduce(r, INT_MIN, false, "1 )") == Ok(r);
    assert CloseBrackets(s, 0, "1 )") == Ok(s);
    assert CloseBrackets(s, 1, "1 )") == Err(BracketUnmatched("1 )"));
  }

  /** "1 )": a ')' with no '(' to close. */
  lemma ParseUnopened()
    ensures ParseTexts(["1", ")"], "1 )") == Err(BracketUnmatched("1 )"))
  {
    var texts: seq<string> := ["1", ")"];
    var items: seq<Item> := [Operand(Num(1)), Close(1)];
    assert !EmptyPairAt(texts, 1);
    assert DigitsValue("1") == 1;
    assert ClassifyToken(texts, "1 )", 0) == Ok(items[0]);
    assert ClassifyToken(texts, "1 )", 1) == Ok(items[1]);
    ClassifyPair(texts, "1 )", items);
    assert !Juxtaposed(items, 1);
    ParseFrom(texts, "1 )", items);
    UnopenedRun();
  }

  /**
   * "1 2": two operands side by side. The source's parse ends with two trees
   * and reports the one below the top as an orphan; the corrected parser
   * keeps that error, since its adjacency check runs only after a success.
   */
  lemma ParseOrphan()
    ensures ParseUnchecked(["1", "2"], "1 2") == Err(OrphanExpr("1 2", "2"))
    ensures ParseTexts(["1", "2"], "1 2") == Err(OrphanExpr("1 2", "2"))
  {
    OrphanClassify();
    OrphanRun();
    OrphanFinish();
  }

  lemma OrphanClassify()
    ensures Classify(["1", "2"], "1 2") == Ok([Operand(Num(1)), Operand(Num(2))])
  {
    var texts: seq<string> := ["1", "2"];
    var items: seq<Item> := [Operand(Num(1)), Operand(Num(2))];
    assert !EmptyPairAt(texts, 1);
    assert DigitsValue("1") == 1 && DigitsValue("2") == 2;
    assert ClassifyToken(texts, "1 2", 0) == Ok(items[0]);
    assert ClassifyToken(texts, "1 2", 1) == Ok(items[1]);
    ClassifyPair(texts, "1 2", items);
  }

  lemma OrphanRun()
    ensures RunItems([Operand(Num(1)), Operand(Num(2))], 2, "1 2") == Ok(Stacks([PendingOperand(Num(1)), PendingOperand(Num(2))], []))
  {
    var items: seq<Item> := [Operand(Num(1)), Operand(Num(2))];
    RunOperand(items, 0, Stacks([], []), Num(1), "1 2");
    assert [] + [PendingOperand(Num(1))] == [PendingOperand(Num(1))];
    var s1 := Stacks([PendingOperand(Num(1))], []);
    RunOperand(items, 1, s1, Num(2), "1 2");
    assert s1.pending + [PendingOperand(Num(2))] == [PendingOperand(Num(1)), PendingOperand(Num(2))];
  }

  lemma OrphanFinish()
    ensures Finish(Stacks([PendingOperand(Num(1)), PendingOperand(Num(2))], []), "1 2") == Err(OrphanExpr("1 2", "2"))
  {
    var s2 := Stacks([PendingOperand(Num(1)), PendingOperand(Num(2))], []);
    var r1 := Stacks([PendingOperand(Num(1))], [Num(2)]);
    assert Pop(s2.pending) == r1.pending && [] + [Num(2)] == r1.trees;
    var r2 := Stacks([], [Num(2), Num(1)]);
    assert Pop(r1.pending) == [] && r1.trees + [Num(1)] == r2.trees;
    assert Reduce(r2, INT_MIN, false, "1 2") == Ok(r2);
    assert Reduce(s2, INT_MIN, false, "1 2") == Ok(r2);
    assert Format(Num(2)) == "2";
  }

  /** "( )": an empty bracket pair is an invalid token "()". */
  lemma ParseEmptyPair()
    ensures ParseTexts(["(", ")"], "( )") == Err(InvalidToken("( )", "", "()"))
  {
    assert EmptyPairAt(["(", ")"], 1);
  }

  // ---------------------------------------------------------------------------
  // The parser as written: operands side by side

  const JUX_TEXTS: seq<string> := ["7", "+", "5", "(", "X", "*", ")"]
  const JUX_STR: string := "7 + 5 (X *)"
  const JUX_ITEMS: seq<Item> :=
    [Operand(Num(7)), BinaryOp(Add), Operand(Num(5)), Open(1), Operand(Var("X")), BinaryOp(Mul), Close(1)]
  const JUX_TREE: Expr := Binary(Add, Binary(Mul, Num(7), Var("X")), Num(5))

  lemma JuxTokensFront()
    ensures forall k :: 0 <= k < 4 ==> ClassifyToken(JUX_TEXTS, JUX_STR, k) == Ok(JUX_ITEMS[k])
  {
    assert DigitsValue("7") == 7 && DigitsValue("5") == 5;
  }

  lemma JuxTokensBack()
    ensures forall k :: 4 <= k < 7 ==> ClassifyToken(JUX_TEXTS, JUX_STR, k) == Ok(JUX_ITEMS[k])
  {
  }

  lemma JuxClassify()
    ensures Classify(JUX_TEXTS, JUX_STR) == Ok(JUX_ITEMS)
  {
    JuxNoEmptyPair();
    JuxTokensFront();
    JuxTokensBack();
    ClassifyFrom(JUX_TEXTS, JUX_STR, JUX_ITEMS, 7);
    assert JUX_ITEMS[..7] == JUX_ITEMS;
  }

  lemma JuxNoEmptyPair()
    ensures NonEmptyTexts(JUX_TEXTS) && !HasEmptyPair(JUX_TEXTS)
  {
    forall i | 1 <= i < |JUX_TEXTS| ensures !EmptyPairAt(JUX_TEXTS, i) { }
  }


  const JUX_S3: Stacks := Stacks([PendingBinary(Add), PendingOperand(Num(5))], [Num(7)])
  const JUX_S6: Stacks := Stacks([PendingBinary(Add), PendingOperand(Num(5)), Marker, PendingBinary(Mul)], [Num(7), Var("X")])
  const JUX_S7: Stacks := Stacks([PendingBinary(Add), PendingOperand(Num(5))], [Binary(Mul, Num(7), Var("X"))])

  /** The '*' pops the X but stops at the marker, above the pending 5. */
  lemma JuxMul()
    ensures Shift(Stacks([PendingBinary(Add), PendingOperand(Num(5)), Marker, PendingOperand(Var("X"))], [Num(7)]),
      BinaryOp(Mul), JUX_STR) == Ok(JUX_S6)
  {
    var r := Stacks([PendingBinary(Add), PendingOperand(Num(5)), Marker], [Num(7), Var("X")]);
    assert Pop([PendingBinary(Add), PendingOperand(Num(5)), Marker, PendingOperand(Var("X"))]) == r.pending;
    assert [Num(7)] + [Var("X")] == r.trees;
    assert Reduce(r, 10, true, JUX_STR) == Ok(r);
    assert r.pending + [PendingBinary(Mul)] == JUX_S6.pending;
  }

  /** The ')' combines 7 and X, the two trees on the stack, into 7 * X. */
  lemma JuxClose()
    ensures Shift(JUX_S6, Close(1), JUX_STR) == Ok(JUX_S7)
  {
    var r := Stacks([PendingBinary(Add), PendingOperand(Num(5)), Marker], [Binary(Mul, Num(7), Var("X"))]);
    assert Pop(JUX_S6.pending) == r.pending;
    assert JUX_S6.trees[..0] + [Binary(Mul, JUX_S6.trees[0], JUX_S6.trees[1])] == r.trees;
    assert Reduce(r, INT_MIN, false, JUX_STR) == Ok(r);
    assert CloseBrackets(JUX_S6, 0, JUX_STR) == Ok(JUX_S6);
    assert Pop(r.pending) == JUX_S7.pending;
  }

  lemma JuxRunFront()
    ensures RunItems(JUX_ITEMS, 3, JUX_STR) == Ok(JUX_S3)
  {
    OperandOpOperand(JUX_ITEMS, Num(7), Add, Num(5), JUX_STR);
  }

  lemma JuxRunBack()
    ensures RunItems(JUX_ITEMS, 7, JUX_STR) == Ok(JUX_S7)
  {
    var its := JUX_ITEMS;
    assert its[3] == Open(1) && its[4] == Operand(Var("X")) && its[5] == BinaryOp(Mul) && its[6] == Close(1);
    JuxRunFront();
    ShiftOpen(JUX_S3, JUX_STR);
    var s4 := Stacks([PendingBinary(Add), PendingOperand(Num(5)), Marker], [Num(7)]);
    assert JUX_S3.pending + [Marker] == s4.pending;
    assert RunItems(its, 4, JUX_STR) == Ok(s4);
    ShiftOperand(s4, Var("X"), JUX_STR);
    var s5 := Stacks([PendingBinary(Add), PendingOperand(Num(5)), Marker, PendingOperand(Var("X"))], [Num(7)]);
    assert s4.pending + [PendingOperand(Var("X"))] == s5.pending;
    assert RunItems(its, 5, JUX_STR) == Ok(s5);
    JuxMul();
    assert RunItems(its, 6, JUX_STR) == Ok(JUX_S6);
    JuxClose();
  }

  lemma JuxFinish()
    ensures Finish(JUX_S7, JUX_STR) == Ok(JUX_TREE)
  {
    var r1 := Stacks([PendingBinary(Add)], [Binary(Mul, Num(7), Var("X")), Num(5)]);
    assert Pop(JUX_S7.pending) == r1.pending && JUX_S7.trees + [Num(5)] == r1.trees;
    var r2 := Stacks([], [JUX_TREE]);
    assert Pop(r1.pending) == [] && r1.trees[..0] + [Binary(Add, r1.trees[0], r1.trees[1])] == r2.trees;
    assert Reduce(r2, INT_MIN, false, JUX_STR) == Ok(r2);
    assert Reduce(r1, INT_MIN, false, JUX_STR) == Ok(r2);
    assert Reduce(JUX_S7, INT_MIN, false, JUX_STR) == Ok(r2);
  }

  /** One more item adds its leaves, when it is an operand, to the operands of the items before it. */
  lemma ItemOperandsStep(items: seq<Item>, n: nat)
    requires n < |items|
    ensures ItemOperands(items[..n + 1]) == ItemOperands(items[..n]) + (if items[n].Operand? then Leaves(items[n].e) else [])
  {
    assert Pop(items[..n + 1]) == items[..n];
  }

  lemma JuxOperands()
    ensures ItemOperands(JUX_ITEMS) == [Num(7), Num(5), Var("X")]
    ensures Leaves(JUX_TREE) == [Num(7), Var("X"), Num(5)]
  {
    var its := JUX_ITEMS;
    assert its[..0] == [];
    ItemOperandsStep(its, 0);
    ItemOperandsStep(its, 1);
    ItemOperandsStep(its, 2);
    assert ItemOperands(its[..3]) == [Num(7), Num(5)];
    ItemOperandsStep(its, 3);
    ItemOperandsStep(its, 4);
    ItemOperandsStep(its, 5);
    ItemOperandsStep(its, 6);
    assert its[..7] == its;
  }

  lemma JuxAsWritten()
    ensures ParseUnchecked(JUX_TEXTS, JUX_STR) == Ok(JUX_TREE)
  {
    JuxClassify();
    JuxRunBack();
    JuxFinish();
  }

  lemma JuxCorrected()
    ensures ParseTexts(JUX_TEXTS, JUX_STR) == Err(InvalidToken(JUX_STR, "", "("))
  {
    JuxClassify();
    JuxRunBack();
    JuxFinish();
    assert Juxtaposed(JUX_ITEMS, 3);
    assert !Juxtaposed(JUX_ITEMS, 1) && !Juxtaposed(JUX_ITEMS, 2);
    assert CheckAdjacency(JUX_ITEMS, JUX_TEXTS, JUX_STR, 1) == Ok(());
    assert CheckAdjacency(JUX_ITEMS, JUX_TEXTS, JUX_STR, 4) == Err(InvalidToken(JUX_STR, "", "("));
    CheckAdjacencySticky(JUX_ITEMS, JUX_TEXTS, JUX_STR, 4, 7);
  }

  /**
   * The parser as written accepts "7 + 5 (X *)" and builds (7 * X) + 5: the
   * operands 7, 5, X come out of the tree as 7, X, 5. The corrected parser
   * rejects the '(' that follows the operand 5.
   */
  lemma JuxtaposedOperandsReordered()
    ensures Classify(JUX_TEXTS, JUX_STR) == Ok(JUX_ITEMS)
    ensures ParseUnchecked(JUX_TEXTS, JUX_STR) == Ok(JUX_TREE)
    ensures ItemOperands(JUX_ITEMS) == [Num(7), Num(5), Var("X")]
    ensures Leaves(JUX_TREE) == [Num(7), Var("X"), Num(5)]
    ensures ParseTexts(JUX_TEXTS, JUX_STR) == Err(InvalidToken(JUX_STR, "", "("))
  {
    JuxClassify();
    JuxAsWritten();
    JuxCorrected();
    JuxOperands();
  }
}
