/**
 * The machine that runs a program (QBasic/basic/Machine.cpp): the step loop
 * of Machine::execute and transfer_context_data, which moves the
 * machine's termination flag and queued inputs into the context before each
 * step.
 *
 * The machine runs on its own thread in the source; here it is sequential,
 * and the flag and the input mailbox are plain fields. The step loop of the
 * source has no bound; here it takes at most `fuel` steps and reports None
 * when the fuel runs out first.
 */
module BasicMachine {
  import opened StdTypes
  import opened BasicConfig
  import opened BasicError
  import opened BasicExpression
  import opened BasicStatement
  import opened BasicLines
  import opened BasicProgram
  import opened BasicContext
  import opened BasicRun

  /** What other threads write into a machine: the termination request and the inputs typed meanwhile. */
  datatype Mailbox = Mailbox(terminated: bool, inputs: seq<string>)

  /** transfer_context_data: pass a termination request on and move every queued input, in order, to the context. */
  function Transfer(m: Mailbox, c: Ctx): (r: (Mailbox, Ctx))
    ensures r.0 == m.(inputs := [])
    ensures r.1.terminated == (c.terminated || m.terminated)
    ensures r.1.inputs == c.inputs + m.inputs
    ensures r.1.(terminated := c.terminated, inputs := c.inputs) == c
  {
    (m.(inputs := []), c.(terminated := c.terminated || m.terminated, inputs := c.inputs + m.inputs))
  }

  /** What the loop carries from step to step: the machine's mailbox and the context. */
  datatype Run = Run(mail: Mailbox, ctx: Ctx)

  /**
   * One pass of the step loop: transfer, stop on termination, fetch the
   * statement at the current line and run it. Some error when the loop
   * stops here, None when it goes on with the returned state.
   */
  function Step(lines: Lines, s: Run): (Option<RuntimeError>, Run) {
    var (m1, c1) := Transfer(s.mail, s.ctx);
    if c1.terminated then (Some(Terminate), Run(m1, c1))
    else match StatementAt(lines, c1.line)
      case Err(e) => (Some(e), Run(m1, c1))
      case Ok(stmt) =>
        var (r, c2) := RunStmt(stmt, lines, c1);
        if r.Err? then (Some(r.error), Run(m1, c2)) else (None, Run(m1, c2))
  }

  /** The step of a given program, as a value the loop can be run with. */
  function StepOf(lines: Lines): Run -> (Option<RuntimeError>, Run) {
    s => Step(lines, s)
  }

  /** A loop over any step: step until some step stops it. None when the fuel runs out before that. */
  function Loop<S>(step: S -> (Option<RuntimeError>, S), s: S, fuel: nat): (Option<RuntimeError>, S)
    decreases fuel
  {
    if fuel == 0 then (None, s)
    else
      var (r, s1) := step(s);
      if r.Some? then (r, s1) else Loop(step, s1, fuel - 1)
  }

  /** The step loop of Machine::execute for a program. */
  function Steps(lines: Lines, s: Run, fuel: nat): (Option<RuntimeError>, Run) {
    Loop(StepOf(lines), s, fuel)
  }

  /** Machine::execute: without a context, create one at the first line (and hand back none if that fails), then loop. */
  function Exec(lines: Lines, m: Mailbox, c: Option<Ctx>, fuel: nat): (Option<RuntimeError>, Mailbox, Option<Ctx>) {
    if c.None? && CreateCtx(lines).Err? then (Some(CreateCtx(lines).error), m, None)
    else
      var start := if c.Some? then c.value else CreateCtx(lines).value;
      var (r, s1) := Steps(lines, Run(m, start), fuel);
      (r, s1.mail, Some(s1.ctx))
  }

  // ---------------------------------------------------------------------------
  // Properties of the loop

  /** A loop with fuel left runs one step, then stops or goes on with one less. */
  lemma LoopUnfold<S>(step: S -> (Option<RuntimeError>, S), s: S, fuel: nat)
    requires fuel > 0
    ensures Loop(step, s, fuel) == if step(s).0.Some? then step(s) else Loop(step, step(s).1, fuel - 1)
  {
  }

  /** One step of a loop with fuel left: it stops with the step's result, or goes on from the step's state. */
  lemma LoopStep<S>(step: S -> (Option<RuntimeError>, S), s: S, fuel: nat, r: Option<RuntimeError>, s1: S)
    requires fuel > 0 && step(s) == (r, s1)
    ensures r.Some? ==> Loop(step, s, fuel) == (r, s1)
    ensures r.None? ==> Loop(step, s, fuel) == Loop(step, s1, fuel - 1)
  {
  }

  /** More fuel does not change a loop that already stopped. */
  lemma {:induction false} LoopMoreFuel<S>(step: S -> (Option<RuntimeError>, S), s: S, fuel: nat, more: nat)
    requires Loop(step, s, fuel).0.Some? && fuel <= more
    ensures Loop(step, s, more) == Loop(step, s, fuel)
    decreases fuel
  {
    LoopUnfold(step, s, fuel);
    LoopUnfold(step, s, more);
    if step(s).0.None? {
      LoopMoreFuel(step, step(s).1, fuel - 1, more - 1);
    }
  }

  /** A termination request stops the machine before any statement runs. */
  lemma TerminationStops(lines: Lines, m: Mailbox, c: Ctx, fuel: nat)
    requires m.terminated && fuel > 0
    ensures Steps(lines, Run(m, c), fuel) == (Some(Terminate), Run(m.(inputs := []), c.(terminated := true, inputs := c.inputs + m.inputs)))
  {
    LoopUnfold(StepOf(lines), Run(m, c), fuel);
  }

  /** Once a context is terminated every later run stops at once: nothing clears the flag. */
  lemma TerminatedStaysStopped(lines: Lines, m: Mailbox, c: Ctx, fuel: nat)
    requires c.terminated && fuel > 0
    ensures var (r, s) := Steps(lines, Run(m, c), fuel);
      r == Some(Terminate) && s.ctx.terminated && s.ctx.line == c.line && s.ctx.variables == c.variables
  {
    LoopUnfold(StepOf(lines), Run(m, c), fuel);
  }

  /** More fuel does not change a run that already stopped: the bound only cuts off runs that have not ended. */
  lemma MoreFuel(lines: Lines, s: Run, fuel: nat, more: nat)
    requires Steps(lines, s, fuel).0.Some? && fuel <= more
    ensures Steps(lines, s, more) == Steps(lines, s, fuel)
  {
    LoopMoreFuel(StepOf(lines), s, fuel, more);
  }

  /** The program 10 PRINT 1 + 2, 20 END. */
  function SumProgram(): Lines {
    map[10 := Print(Binary(Add, Num(1), Num(2))), 20 := End]
  }

  /** The program holds lines 10 and 20 and no other. */
  lemma SumProgramLine(k: LineID)
    ensures k in SumProgram() <==> k == 10 || k == 20
  {
  }

  /** Run from the start, it prints 3 and pauses at line 20; resumed, it reaches END. */
  lemma SumProgramRuns()
    ensures var (r, m, c) := Exec(SumProgram(), Mailbox(false, []), None, 1);
      r == Some(MsgPrint) && c.Some? && c.value.outputs == "3\n" && c.value.line == 20
      && Steps(SumProgram(), Run(m, c.value), 1).0 == Some(MsgEndOfProgram)
  {
    var lines := SumProgram();
    assert 10 in lines && 20 in lines;
    var c0 := CreateCtx(lines).value;
    SumProgramLine(c0.line);
    assert c0.line == 10;
    assert DecimalInt(3) == "3";
    var (adv, c2) := GotoNext(Emit(c0, "3"), lines);
    assert adv.Ok?;
    SumProgramLine(c2.line);
    assert c2.line == 20;
    LoopUnfold(StepOf(lines), Run(Mailbox(false, []), c0), 1);
    var s1 := Step(lines, Run(Mailbox(false, []), c0)).1;
    LoopUnfold(StepOf(lines), s1, 1);
  }

  // ---------------------------------------------------------------------------
  // The machine object

  class Machine {
    var terminated: bool
    var inputs: seq<string>
    /** How many times the completion callback has run. */
    var callbacks: nat

    function Mail(): Mailbox
      reads this
    {
      Mailbox(terminated, inputs)
    }

    constructor ()
      ensures Mail() == Mailbox(false, []) && callbacks == 0
    {
      terminated := false;
      inputs := [];
      callbacks := 0;
    }

    /** Machine::Terminate: request termination; the running loop sees it at its next step. */
    method Terminate()
      modifies this
      ensures Mail() == old(Mail()).(terminated := true) && callbacks == old(callbacks)
    {
      terminated := true;
    }

    /** Machine::PushInput: queue an input for the running loop. */
    method PushInput(s: string)
      modifies this
      ensures Mail() == old(Mail()).(inputs := old(inputs) + [s]) && callbacks == old(callbacks)
    {
      inputs := inputs + [s];
    }

    /** transfer_context_data: nothing for a missing context. */
    method TransferContextData(ctx: Context?)
      modifies this, ctx
      ensures callbacks == old(callbacks)
      ensures ctx == null ==> Mail() == old(Mail())
      ensures ctx != null ==> (Mail(), ctx.State()) == Transfer(old(Mail()), old(ctx.State()))
    {
      if ctx == null {
        return;
      }
      if terminated {
        ctx.Terminate();
      }
      ghost var queued := inputs;
      while inputs != []
        invariant ctx.State() == Transfer(old(Mail()), old(ctx.State())).1.(inputs := old(ctx.inputs) + queued[..|queued| - |inputs|])
        invariant |inputs| <= |queued| && inputs == queued[|queued| - |inputs|..]
        invariant terminated == old(terminated) && queued == old(inputs) && callbacks == old(callbacks)
        decreases |inputs|
      {
        ghost var done := |queued| - |inputs|;
        assert queued[done] == inputs[0];
        assert queued[..done + 1] == queued[..done] + [inputs[0]];
        ctx.PushInput(inputs[0]);
        inputs := inputs[1..];
      }
      assert queued[..|queued|] == queued;
    }

    /** One pass of the loop in Machine::execute: None when the loop goes on. */
    method StepOnce(program: Program, ctx: Context, ghost step: Run -> (Option<RuntimeError>, Run)) returns (r: Option<RuntimeError>)
      modifies this, ctx
      requires forall s {:trigger Step(program.statements, s)} :: step(s) == Step(program.statements, s)
      ensures callbacks == old(callbacks)
      ensures (r, Run(Mail(), ctx.State())) == step(Run(old(Mail()), old(ctx.State())))
    {
      ghost var before := Run(Mail(), ctx.State());
      assert step(before) == Step(program.statements, before);
      TransferContextData(ctx);
      if ctx.terminated {
        return Some(RuntimeError.Terminate);
      }
      var stmt := StatementAt(program.statements, ctx.line);
      if stmt.Err? {
        return Some(stmt.error);
      }
      var res := RunStatement(stmt.value, program, ctx);
      if res.Err? {
        return Some(res.error);
      }
      return None;
    }

    /**
     * The loop of Machine::execute, proved against the loop over any step
     * function that agrees with Step on this program. Keeping the step
     * abstract keeps the statement semantics out of the loop's proof.
     */
    method StepLoop(program: Program, ctx: Context, fuel: nat, ghost step: Run -> (Option<RuntimeError>, Run)) returns (result: Option<RuntimeError>)
      modifies this, ctx
      requires forall s {:trigger Step(program.statements, s)} :: step(s) == Step(program.statements, s)
      ensures callbacks == old(callbacks)
      ensures (result, Run(Mail(), ctx.State())) == Loop(step, Run(old(Mail()), old(ctx.State())), fuel)
    {
      ghost var s0 := Run(Mail(), ctx.State());
      var steps := 0;
      while steps < fuel
        invariant steps <= fuel
        invariant callbacks == old(callbacks) && program.statements == old(program.statements)
        invariant Loop(step, s0, fuel) == Loop(step, Run(Mail(), ctx.State()), fuel - steps)
        decreases fuel - steps
      {
        ghost var before := Run(Mail(), ctx.State());
        var r := StepOnce(program, ctx, step);
        ghost var after := Run(Mail(), ctx.State());
        LoopStep(step, before, fuel - steps, r, after);
        if r.Some? {
          return r;
        }
        steps := steps + 1;
      }
      return None;
    }

    /** The body of Machine::execute, without the callback: create a context if there is none, then loop. */
    method RunLoop(program: Program, ctx0: Context?, fuel: nat) returns (result: Option<RuntimeError>, ctx: Context?)
      modifies this, ctx0
      ensures callbacks == old(callbacks)
      ensures ctx0 != null ==> ctx == ctx0
      ensures ctx0 == null && ctx != null ==> fresh(ctx)
      ensures (result, Mail(), if ctx == null then None else Some(ctx.State()))
        == Exec(program.statements, old(Mail()), if ctx0 == null then None else Some(old(ctx0.State())), fuel)
    {
      ctx := ctx0;
      if ctx == null {
        var created := Context.Create(program);
        if created.Err? {
          return Some(created.error), null;
        }
        ctx := created.value;
      }
      result := StepLoop(program, ctx, fuel, StepOf(program.statements));
    }

    /** Machine::execute: the loop, with the completion callback run once on whichever path it returns. */
    method Execute(program: Program, ctx0: Context?, fuel: nat) returns (result: Option<RuntimeError>, ctx: Context?)
      modifies this, ctx0
      ensures callbacks == old(callbacks) + 1
      ensures ctx0 != null ==> ctx == ctx0
      ensures (result, Mail(), if ctx == null then None else Some(ctx.State()))
        == Exec(program.statements, old(Mail()), if ctx0 == null then None else Some(old(ctx0.State())), fuel)
    {
      result, ctx := RunLoop(program, ctx0, fuel);
      callbacks := callbacks + 1;
    }

    /** Machine::GetResult: one last transfer into the context the loop hands back. */
    method GetResult(ctx: Context?)
      modifies this, ctx
      ensures callbacks == old(callbacks)
      ensures ctx != null ==> (Mail(), ctx.State()) == Transfer(old(Mail()), old(ctx.State()))
    {
      TransferContextData(ctx);
    }
  }
}
