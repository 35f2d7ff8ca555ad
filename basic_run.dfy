/**
 * Running one statement against a context (QBasic/basic/Statement.cpp, the
 * Run methods, and Expression::Eval reading variables through the context).
 *
 * RunStmt is the step as a function of the context value; the methods below
 * make the same step on a Context object through its own methods.
 */
module BasicRun {
  import opened StdTypes
  import opened BasicConfig
  import opened BasicError
  import opened BasicToken
  import opened BasicExpression
  import opened BasicStatement
  import opened BasicLines
  import opened BasicProgram
  import opened BasicContext

  // ---------------------------------------------------------------------------
  // Evaluation in a context

  /** Count one use of each variable read, in order. */
  function BumpAll(m: map<string, Count>, names: seq<string>): map<string, Count>
    decreases |names|
  {
    if names == [] then m else BumpAll(Bump(m, names[0]), names[1..])
  }

  lemma {:induction false} BumpAllConcat(m: map<string, Count>, a: seq<string>, b: seq<string>)
    ensures BumpAll(m, a + b) == BumpAll(BumpAll(m, a), b)
    decreases |a|
  {
    if a != [] {
      assert (a + b)[0] == a[0] && (a + b)[1..] == a[1..] + b;
      BumpAllConcat(Bump(m, a[0]), a[1..], b);
    } else {
      assert a + b == b;
    }
  }

  /** A variable read n times more counts n more uses. */
  lemma {:induction false} BumpAllCounts(m: map<string, Count>, t: seq<string>, x: string)
    ensures x !in t ==> Counter(BumpAll(m, t), x) == Counter(m, x)
    decreases |t|
  {
    if t != [] {
      assert x !in t ==> x !in t[1..];
      BumpAllCounts(Bump(m, t[0]), t[1..], x);
    }
  }

  /** Expression::Eval against a context: the value, and the context with the successful reads counted. */
  function EvalIn(c: Ctx, e: Expr): (r: (RuntimeResult<int>, Ctx))
    ensures r.0 == Eval(e, c.variables).result
    ensures r.1.(stats := c.stats) == c && r.1.stats.(uses := c.stats.uses) == c.stats
  {
    var ev := Eval(e, c.variables);
    (ev.result, c.(stats := c.stats.(uses := BumpAll(c.stats.uses, ev.trace))))
  }

  /** Evaluating reads nothing it does not need: a variable outside the tree keeps its use count. */
  lemma EvalCountsOnlyOccurrences(c: Ctx, e: Expr, x: string)
    requires x !in Occurrences(e)
    ensures EvalIn(c, e).1.stats.UseStat(x) == c.stats.UseStat(x)
  {
    var ev := Eval(e, c.variables);
    assert ev.trace == Occurrences(e)[..|ev.trace|];
    forall k | 0 <= k < |ev.trace|
      ensures ev.trace[k] != x
    {
      assert ev.trace[k] == Occurrences(e)[k];
    }
    BumpAllCounts(c.stats.uses, ev.trace, x);
  }

  /** Expression::Eval, reading each variable through Context::ReadVariable. */
  method Evaluate(e: Expr, ctx: Context) returns (r: RuntimeResult<int>)
    modifies ctx
    ensures (r, ctx.State()) == EvalIn(old(ctx.State()), e)
    decreases e
  {
    match e
    case Num(v) =>
      r := Ok(v);
    case Var(x) =>
      ghost var uses := ctx.variableStats;
      r := ctx.ReadVariable(x);
      assert BumpAll(uses, [x]) == Bump(uses, x);
    case Unary(op, child) =>
      var v := Evaluate(child, ctx);
      if v.Err? {
        return v;
      }
      r := Ok(ApplyUnary(op, v.value));
    case Binary(op, left, right) =>
      ghost var c0 := ctx.State();
      var a := Evaluate(left, ctx);
      if a.Err? {
        return a;
      }
      ghost var c1 := ctx.State();
      var b := Evaluate(right, ctx);
      BumpAllConcat(c0.stats.uses, Eval(left, c0.variables).trace, Eval(right, c0.variables).trace);
      if b.Err? {
        return b;
      }
      r := ApplyBinary(op, a.value, b.value, right);
  }

  // ---------------------------------------------------------------------------
  // INPUT

  /** What INPUT accepts: one digit token, or "+" or "-" followed by one digit token. */
  function InputValue(input: string): (v: Option<int>)
    ensures |LexTexts(input)| == 0 || |LexTexts(input)| > 2 ==> v.None?
  {
    var t := LexTexts(input);
    if |t| == 0 || |t| > 2 then None
    else if |t| == 1 then
      if AllDigits(t[0]) then Some(DigitsValue(t[0])) else None
    else if !AllDigits(t[1]) then None
    else if t[0] == "-" then Some(0 - DigitsValue(t[1]) as int)
    else if t[0] == "+" then Some(DigitsValue(t[1]))
    else None
  }

  /** Inside a run of digits every character merges with the next, so a token started there runs to the end. */
  lemma {:induction false} DigitsRunToEnd(line: string, lo: nat, j: nat)
    requires lo < j <= |line|
    requires forall p :: lo <= p < |line| ==> IsDigitChar(line[p])
    ensures TokenEnd(line, j) == |line|
    decreases |line| - j
  {
    if j < |line| {
      assert IsDigitChar(line[j - 1]) && IsDigitChar(line[j]);
      DigitsRunToEnd(line, lo, j + 1);
    }
  }

  /** A digit string is one token. */
  lemma DigitsLexAlone(d: string)
    requires d != [] && AllDigits(d)
    ensures LexTexts(d) == [d]
  {
    DigitsRunToEnd(d, 0, 1);
    assert LexFrom(d, |d|) == [];
    assert Lex(d) == [(0, |d|)];
    assert d[0..|d|] == d;
    assert LexTexts(d)[0] == d;
  }

  /** A minus sign before a digit string is a token of its own. */
  lemma SignedLex(d: string)
    requires d != [] && AllDigits(d)
    ensures LexTexts("-" + d) == ["-", d]
  {
    var line := "-" + d;
    assert line[1] == d[0];
    assert !Merges(line[0], line[1]);
    assert TokenEnd(line, 1) == 1;
    DigitsRunToEnd(line, 1, 2);
    assert LexFrom(line, |line|) == [];
    assert LexFrom(line, 1) == [(1, |line|)];
    assert Lex(line) == [(0, 1), (1, |line|)];
    assert line[1..|line|] == d && line[0..1] == "-";
    assert LexTexts(line)[0] == "-" && LexTexts(line)[1] == d;
  }

  /** What PRINT writes, INPUT reads back as the same number. */
  lemma InputReadsPrinted(n: int)
    ensures InputValue(DecimalInt(n)) == Some(n)
  {
    if n >= 0 {
      var d := DecimalNat(n);
      DigitsLexAlone(d);
      DecimalNatRoundTrip(n);
      assert LexTexts(DecimalInt(n)) == [d];
    } else {
      var d := DecimalNat(-n);
      SignedLex(d);
      DecimalNatRoundTrip(-n);
      var t := LexTexts(DecimalInt(n));
      assert t == ["-", d];
      assert t[0] == "-" && AllDigits(t[1]);
    }
  }

  /** IF's comparison: '<' and '=' as written, anything else as '>'. */
  function Compare(cmp: char, a: int, b: int): (holds: bool)
    ensures cmp == '<' ==> (holds <==> a < b)
    ensures cmp == '=' ==> (holds <==> a == b)
    ensures cmp != '<' && cmp != '=' ==> (holds <==> a > b)
  {
    if cmp == '<' then a < b else if cmp == '=' then a == b else a > b
  }

  // ---------------------------------------------------------------------------
  // One statement

  function RunInput(x: string, lines: Lines, c: Ctx): (RuntimeResult<()>, Ctx) {
    var (got, c1) := Dequeue(c);
    if got.Err? then (Err(got.error), c1)
    else match InputValue(got.value)
      case None => (Err(InvalidInput(got.value)), c1)
      case Some(v) => GotoNext(SetVar(c1, x, v), lines)
  }

  function RunPrint(e: Expr, lines: Lines, c: Ctx): (RuntimeResult<()>, Ctx) {
    var (v, c1) := EvalIn(c, e);
    if v.Err? then (Err(v.error), c1)
    else
      var (advanced, c2) := GotoNext(Emit(c1, DecimalInt(v.value)), lines);
      if advanced.Err? then (advanced, c2) else (Err(MsgPrint), c2)
  }

  function RunLet(x: string, e: Expr, lines: Lines, c: Ctx): (RuntimeResult<()>, Ctx) {
    var (v, c1) := EvalIn(c, e);
    if v.Err? then (Err(v.error), c1) else GotoNext(SetVar(c1, x, v.value), lines)
  }

  function RunIf(l: Expr, cmp: char, r: Expr, target: LineID, lines: Lines, c: Ctx): (RuntimeResult<()>, Ctx) {
    var (a, c1) := EvalIn(c, l);
    if a.Err? then (Err(a.error), c1)
    else
      var (b, c2) := EvalIn(c1, r);
      if b.Err? then (Err(b.error), c2)
      else if Compare(cmp, a.value, b.value) then GotoBranch(c2, lines, target)
      else GotoNext(c2, lines)
  }

  /** Statement::Run: the result of one statement and the context after it. */
  function RunStmt(s: Stmt, lines: Lines, c: Ctx): (RuntimeResult<()>, Ctx) {
    match s
    case Rem(_) => GotoNext(c, lines)
    case Input(x) => RunInput(x, lines, c)
    case Print(e) => RunPrint(e, lines, c)
    case Let(x, e) => RunLet(x, e, lines, c)
    case Goto(target) => Jump(c, lines, target)
    case If(l, cmp, r, target) => RunIf(l, cmp, r, target, lines, c)
    case End => (Err(MsgEndOfProgram), c)
  }

  // ---------------------------------------------------------------------------
  // Properties of one step

  /** After a step that goes on (OK, or a PRINT that advanced) the current line holds a statement. */
  lemma StepLandsOnLine(s: Stmt, lines: Lines, c: Ctx)
    requires RunStmt(s, lines, c).0.Ok? || RunStmt(s, lines, c).0 == Err(MsgPrint)
    ensures RunStmt(s, lines, c).1.line in lines
  {
    match s
    case Rem(_) =>
    case Input(x) =>
    case Print(e) =>
    case Let(x, e) =>
    case Goto(target) =>
    case If(l, cmp, r, target) =>
    case End =>
  }

  /** Only PRINT reports MsgPrint, and it has written output. */
  lemma PrintOnlyFromPrint(s: Stmt, lines: Lines, c: Ctx)
    requires RunStmt(s, lines, c).0 == Err(MsgPrint)
    ensures s.Print? && RunStmt(s, lines, c).1.outputs != c.outputs
  {
    match s
    case Rem(_) =>
    case Input(x) =>
    case Print(e) =>
      var (v, c1) := EvalIn(c, e);
      var out := c1.outputs + DecimalInt(v.value) + "\n";
      assert |out| > |c.outputs|;
    case Let(x, e) =>
    case Goto(target) =>
    case If(l, cmp, r, target) =>
    case End =>
  }

  /** END reports the end of the program and changes nothing. */
  lemma EndKeepsContext(lines: Lines, c: Ctx)
    ensures RunStmt(End, lines, c) == (Err(MsgEndOfProgram), c)
  {
  }

  /** INPUT on an empty queue asks for input and changes nothing. */
  lemma InputWaits(x: string, lines: Lines, c: Ctx)
    requires c.inputs == []
    ensures RunStmt(Input(x), lines, c) == (Err(MsgRequestInput), c)
  {
  }

  /** INPUT consumes the front string whether or not it is accepted; an accepted value is stored even if advancing fails. */
  lemma InputConsumes(x: string, lines: Lines, c: Ctx)
    requires c.inputs != []
    ensures RunStmt(Input(x), lines, c).1.inputs == c.inputs[1..]
    ensures InputValue(c.inputs[0]).None? <==> RunStmt(Input(x), lines, c).0 == Err(InvalidInput(c.inputs[0]))
    ensures InputValue(c.inputs[0]).Some? ==>
      RunStmt(Input(x), lines, c).1.variables == c.variables[x := InputValue(c.inputs[0]).value]
  {
    var c1 := Dequeue(c).1;
    assert c1.inputs == c.inputs[1..];
    match InputValue(c.inputs[0])
    case None =>
    case Some(v) =>
      var (adv, c2) := GotoNext(SetVar(c1, x, v), lines);
      assert c2.inputs == c1.inputs;
  }

  /** The fields an evaluation error must leave as they were. */
  predicate SameButStats(c: Ctx, c2: Ctx) {
    c2.variables == c.variables && c2.line == c.line && c2.inputs == c.inputs
    && c2.outputs == c.outputs && c2.terminated == c.terminated
  }

  lemma InputNoEvalError(x: string, lines: Lines, c: Ctx)
    ensures RunInput(x, lines, c).0.Err? ==> !IsEvalError(RunInput(x, lines, c).0.error)
  {
    if c.inputs != [] {
      var c1 := Dequeue(c).1;
      match InputValue(c.inputs[0])
      case None =>
      case Some(v) =>
        var adv := GotoNext(SetVar(c1, x, v), lines).0;
        assert adv.Err? ==> adv.error == MsgEndOfProgram;
    }
  }

  lemma PrintEvalError(e: Expr, lines: Lines, c: Ctx)
    ensures var (r, c2) := RunPrint(e, lines, c); r.Err? && IsEvalError(r.error) ==> SameButStats(c, c2)
  {
    var (v, c1) := EvalIn(c, e);
    if v.Ok? {
      var adv := GotoNext(Emit(c1, DecimalInt(v.value)), lines).0;
      assert adv.Err? ==> adv.error == MsgEndOfProgram;
    }
  }

  lemma LetEvalError(x: string, e: Expr, lines: Lines, c: Ctx)
    ensures var (r, c2) := RunLet(x, e, lines, c); r.Err? && IsEvalError(r.error) ==> SameButStats(c, c2)
  {
    var (v, c1) := EvalIn(c, e);
    if v.Ok? {
      var adv := GotoNext(SetVar(c1, x, v.value), lines).0;
      assert adv.Err? ==> adv.error == MsgEndOfProgram;
    }
  }

  lemma IfEvalError(l: Expr, cmp: char, r: Expr, target: LineID, lines: Lines, c: Ctx)
    ensures var (res, c2) := RunIf(l, cmp, r, target, lines, c); res.Err? && IsEvalError(res.error) ==> SameButStats(c, c2)
  {
    var (a, c1) := EvalIn(c, l);
    EvalInKeeps(c, l);
    if a.Ok? {
      var (b, c2) := EvalIn(c1, r);
      EvalInKeeps(c1, r);
      if b.Ok? {
        AdvanceNoEvalError(c2, lines, target);
      }
    }
  }

  /** Evaluation changes only the statistics. */
  lemma EvalInKeeps(c: Ctx, e: Expr)
    ensures SameButStats(c, EvalIn(c, e).1)
  {
  }

  /** Advancing to the next line or a branch target fails, if at all, with no evaluation error. */
  lemma AdvanceNoEvalError(c: Ctx, lines: Lines, target: LineID)
    ensures GotoBranch(c, lines, target).0.Err? ==> !IsEvalError(GotoBranch(c, lines, target).0.error)
    ensures GotoNext(c, lines).0.Err? ==> !IsEvalError(GotoNext(c, lines).0.error)
  {
  }

  /** An evaluation error stops PRINT, LET and IF before any variable, line, input or output changes. */
  lemma EvalErrorKeepsState(s: Stmt, lines: Lines, c: Ctx)
    ensures var (r, c2) := RunStmt(s, lines, c);
      r.Err? && IsEvalError(r.error) ==> (s.Print? || s.Let? || s.If?) && SameButStats(c, c2)
  {
    match s
    case Rem(_) =>
    case Input(x) => InputNoEvalError(x, lines, c);
    case Print(e) => PrintEvalError(e, lines, c);
    case Let(x, e) => LetEvalError(x, e, lines, c);
    case Goto(target) =>
    case If(l, cmp, r, target) => IfEvalError(l, cmp, r, target, lines, c);
    case End =>
  }

  /** LET stores its value before advancing, so the assignment survives an advance that fails. */
  lemma LetAssigns(x: string, e: Expr, lines: Lines, c: Ctx)
    requires Eval(e, c.variables).result.Ok?
    ensures RunStmt(Let(x, e), lines, c).1.variables == c.variables[x := Eval(e, c.variables).result.value]
    ensures RunStmt(Let(x, e), lines, c).0.Err? ==> RunStmt(Let(x, e), lines, c).0.error == MsgEndOfProgram
  {
  }

  /** PRINT writes the decimal value and a newline, then reports MsgPrint, or the end of the program when there is no next line. */
  lemma PrintWrites(e: Expr, lines: Lines, c: Ctx)
    requires Eval(e, c.variables).result.Ok?
    ensures var v := Eval(e, c.variables).result.value;
      RunStmt(Print(e), lines, c).1.outputs == c.outputs + DecimalInt(v) + "\n"
    ensures RunStmt(Print(e), lines, c).0 == Err(MsgPrint) <==> exists k :: k in lines && c.line < k
    ensures RunStmt(Print(e), lines, c).0 != Err(MsgPrint) ==> RunStmt(Print(e), lines, c).0 == Err(MsgEndOfProgram)
  {
    var (v, c1) := EvalIn(c, Print(e).expr);
    var c2 := Emit(c1, DecimalInt(v.value));
    assert c2.line == c.line;
    var (adv, c3) := GotoNext(c2, lines);
    if adv.Err? {
      assert forall k :: k in lines ==> k <= c.line;
    } else {
      assert c3.line in lines && c.line < c3.line;
    }
  }

  /** A true IF jumps to its target and counts the branch at the current line; a false IF goes to the next line. */
  lemma IfBranches(l: Expr, cmp: char, r: Expr, target: LineID, lines: Lines, c: Ctx)
    requires Eval(l, c.variables).result.Ok? && Eval(r, c.variables).result.Ok?
    ensures var a, b := Eval(l, c.variables).result.value, Eval(r, c.variables).result.value;
      var step := RunStmt(If(l, cmp, r, target), lines, c);
      && (Compare(cmp, a, b) ==> step.0 == CheckLine(lines, target))
      && (Compare(cmp, a, b) ==> step.1.stats.BranchStat(c.line) == Inc(c.stats.BranchStat(c.line)))
      && (Compare(cmp, a, b) && step.0.Ok? ==> step.1.line == target)
      && (!Compare(cmp, a, b) ==> step.1.stats.BranchStat(c.line) == c.stats.BranchStat(c.line))
      && (!Compare(cmp, a, b) && step.0.Ok? ==> c.line < step.1.line)
  {
    var c2 := IfEvaluated(l, cmp, r, target, lines, c);
    if !Compare(cmp, Eval(l, c.variables).result.value, Eval(r, c.variables).result.value) {
      var (adv, c3) := GotoNext(c2, lines);
      assert c3.stats.branches == c2.stats.branches;
    }
  }

  /** After both sides evaluate, IF branches from a context that differs from c in the use counts alone. */
  lemma IfEvaluated(l: Expr, cmp: char, r: Expr, target: LineID, lines: Lines, c: Ctx) returns (c2: Ctx)
    requires Eval(l, c.variables).result.Ok? && Eval(r, c.variables).result.Ok?
    ensures c2.line == c.line && c2.stats.branches == c.stats.branches
    ensures RunStmt(If(l, cmp, r, target), lines, c) ==
      if Compare(cmp, Eval(l, c.variables).result.value, Eval(r, c.variables).result.value)
      then GotoBranch(c2, lines, target) else GotoNext(c2, lines)
  {
    var c1 := EvalIn(c, l).1;
    assert c1.variables == c.variables;
    c2 := EvalIn(c1, r).1;
  }

  // ---------------------------------------------------------------------------
  // The statement runners on a Context object

  /** StmtInput::Run: tokenize the popped string and accept a digit token with an optional sign. */
  method RunInputOn(x: string, program: Program, ctx: Context) returns (r: RuntimeResult<()>)
    modifies ctx
    ensures (r, ctx.State()) == RunInput(x, program.statements, old(ctx.State()))
  {
    var got := ctx.PopInput();
    if got.Err? {
      return Err(got.error);
    }
    var input := got.value;
    var tokens := Tokenize(input);
    ghost var t := LexTexts(input);
    if |tokens| == 0 || |tokens| > 2 {
      return Err(InvalidInput(input));
    }
    var value: int;
    if |tokens| == 1 {
      if !tokens[0].IsDigit() {
        return Err(InvalidInput(input));
      }
      value := ToDigitInt(tokens[0]);
    } else {
      if !tokens[1].IsDigit() {
        return Err(InvalidInput(input));
      }
      value := ToDigitInt(tokens[1]);
      var symbol := tokens[0].View();
      if symbol == "-" {
        value := -value;
      } else if symbol != "+" {
        return Err(InvalidInput(input));
      }
    }
    assert InputValue(input) == Some(value);
    ctx.SetVariable(x, value);
    r := ctx.NextLine(program);
  }

  /** StmtPrint::Run. */
  method RunPrintOn(e: Expr, program: Program, ctx: Context) returns (r: RuntimeResult<()>)
    modifies ctx
    ensures (r, ctx.State()) == RunPrint(e, program.statements, old(ctx.State()))
  {
    var v := Evaluate(e, ctx);
    if v.Err? {
      return Err(v.error);
    }
    ctx.PushOutput(DecimalInt(v.value));
    var advanced := ctx.NextLine(program);
    if advanced.Err? {
      return advanced;
    }
    return Err(MsgPrint);
  }

  /** StmtLet::Run. */
  method RunLetOn(x: string, e: Expr, program: Program, ctx: Context) returns (r: RuntimeResult<()>)
    modifies ctx
    ensures (r, ctx.State()) == RunLet(x, e, program.statements, old(ctx.State()))
  {
    var v := Evaluate(e, ctx);
    if v.Err? {
      return Err(v.error);
    }
    ctx.SetVariable(x, v.value);
    r := ctx.NextLine(program);
  }

  /** StmtIf::Run. */
  method RunIfOn(l: Expr, cmp: char, right: Expr, target: LineID, program: Program, ctx: Context) returns (r: RuntimeResult<()>)
    modifies ctx
    ensures (r, ctx.State()) == RunIf(l, cmp, right, target, program.statements, old(ctx.State()))
  {
    var a := Evaluate(l, ctx);
    if a.Err? {
      return Err(a.error);
    }
    var b := Evaluate(right, ctx);
    if b.Err? {
      return Err(b.error);
    }
    var branch := false;
    if cmp == '<' {
      branch := a.value < b.value;
    } else if cmp == '=' {
      branch := a.value == b.value;
    } else {
      branch := a.value > b.value;
    }
    assert branch == Compare(cmp, a.value, b.value);
    if branch {
      r := ctx.GotoBranchLine(program, target);
    } else {
      r := ctx.NextLine(program);
    }
  }

  /** Statement::Run: dispatch on the kind of statement. */
  method RunStatement(s: Stmt, program: Program, ctx: Context) returns (r: RuntimeResult<()>)
    modifies ctx
    ensures (r, ctx.State()) == RunStmt(s, program.statements, old(ctx.State()))
  {
    match s
    case Rem(_) =>
      r := ctx.NextLine(program);
    case Input(x) =>
      r := RunInputOn(x, program, ctx);
    case Print(e) =>
      r := RunPrintOn(e, program, ctx);
    case Let(x, e) =>
      r := RunLetOn(x, e, program, ctx);
    case Goto(target) =>
      r := ctx.GotoLine(program, target);
    case If(l, cmp, right, target) =>
      r := RunIfOn(l, cmp, right, target, program, ctx);
    case End =>
      r := Err(MsgEndOfProgram);
  }
}
