/**
 * The execution context of a running program (QBasic/basic/Context.hpp):
 * variables, the current line, the FIFO input queue, the output buffer, the
 * termination flag and the execution statistics.
 *
 * Each operation is first a function from one context value (Ctx) to the
 * next; the class Context keeps the same state in fields that its methods
 * update in place, and each method is proved to make exactly the step the
 * function describes.
 */
module BasicContext {
  import opened StdTypes
  import opened BasicConfig
  import opened BasicError
  import opened BasicStatement
  import opened BasicLines
  import opened BasicProgram

  /** m_line starts as -1 converted to uint32_t. */
  const NO_LINE: LineID := 0xFFFF_FFFF

  /** Everything a Context holds. */
  datatype Ctx = Ctx(
    variables: map<string, int>,
    line: LineID,
    inputs: seq<string>,
    outputs: string,
    terminated: bool,
    stats: Stats)

  /** A counter of a statistics map: 0 for a key never counted, as operator[] default-constructs it. */
  function Counter<K(!new)>(m: map<K, Count>, k: K): Count {
    if k in m then m[k] else 0
  }

  /** ++m[k]. */
  function Bump<K(!new)>(m: map<K, Count>, k: K): (r: map<K, Count>)
    ensures Counter(r, k) == Inc(Counter(m, k))
    ensures forall j :: j != k ==> Counter(r, j) == Counter(m, j)
  {
    m[k := Inc(Counter(m, k))]
  }

  /** A new context: no variables, no line yet, nothing queued, nothing counted. */
  function FreshCtx(): Ctx {
    Ctx(map[], NO_LINE, [], "", false, Stats(map[], map[], map[]))
  }

  // ---------------------------------------------------------------------------
  // The steps, as functions

  /** ReadVariable: the stored value, counting the read; an undefined name changes nothing. */
  function ReadVar(c: Ctx, x: string): (r: (RuntimeResult<int>, Ctx))
    ensures r.0.Ok? <==> x in c.variables
    ensures r.0.Ok? ==> r.0.value == c.variables[x]
    ensures r.0.Err? ==> r.0.error == UndefinedVariable(x) && r.1 == c
    ensures r.0.Ok? ==> r.1.(stats := c.stats) == c && r.1.stats.(uses := c.stats.uses) == c.stats
    ensures r.0.Ok? ==> r.1.stats.UseStat(x) == Inc(c.stats.UseStat(x))
    ensures forall y :: y != x ==> r.1.stats.UseStat(y) == c.stats.UseStat(y)
  {
    if x !in c.variables then (Err(UndefinedVariable(x)), c)
    else (Ok(c.variables[x]), c.(stats := c.stats.(uses := Bump(c.stats.uses, x))))
  }

  /** SetVariable: insert or overwrite one variable. */
  function SetVar(c: Ctx, x: string, v: int): (r: Ctx)
    ensures x in r.variables && r.variables[x] == v
    ensures forall y :: y != x ==> (y in r.variables <==> y in c.variables)
    ensures forall y :: y != x && y in c.variables ==> r.variables[y] == c.variables[y]
    ensures r.(variables := c.variables) == c
  {
    c.(variables := c.variables[x := v])
  }

  /** GotoLine: a line of the program becomes current and counts one execution; otherwise nothing changes. */
  function Jump(c: Ctx, lines: Lines, l: LineID): (r: (RuntimeResult<()>, Ctx))
    ensures r.0 == CheckLine(lines, l)
    ensures r.0.Err? ==> r.1 == c
    ensures r.0.Ok? ==> r.1.line == l && r.1.stats.LineStat(l) == Inc(c.stats.LineStat(l))
    ensures r.0.Ok? ==> forall k :: k != l ==> r.1.stats.LineStat(k) == c.stats.LineStat(k)
    ensures r.0.Ok? ==> r.1.(line := c.line, stats := c.stats) == c && r.1.stats.(lines := c.stats.lines) == c.stats
  {
    var checked := CheckLine(lines, l);
    if checked.Err? then (checked, c)
    else (Ok(()), c.(line := l, stats := c.stats.(lines := Bump(c.stats.lines, l))))
  }

  /** NextLine: go to the program's next line after the current one. */
  function GotoNext(c: Ctx, lines: Lines): (r: (RuntimeResult<()>, Ctx))
    ensures r.0.Err? <==> forall k :: k in lines ==> k <= c.line
    ensures r.0.Err? ==> r.0.error == MsgEndOfProgram && r.1 == c
    ensures r.0.Ok? ==> r.1.line in lines && c.line < r.1.line
    ensures r.0.Ok? ==> forall k :: k in lines && c.line < k ==> r.1.line <= k
    ensures r.0.Ok? ==> r.1 == Jump(c, lines, r.1.line).1
  {
    match NextLine(lines, c.line)
    case Err(e) => (Err(e), c)
    case Ok(next) => Jump(c, lines, next)
  }

  /** GotoBranchLine: count a taken branch at the current line, then jump; the count stays even when the jump fails. */
  function GotoBranch(c: Ctx, lines: Lines, l: LineID): (r: (RuntimeResult<()>, Ctx))
    ensures r.0 == CheckLine(lines, l)
    ensures r.1.stats.BranchStat(c.line) == Inc(c.stats.BranchStat(c.line))
    ensures r.0.Err? ==> r.1 == c.(stats := c.stats.(branches := Bump(c.stats.branches, c.line)))
    ensures r.0.Ok? ==> r.1.line == l
  {
    Jump(c.(stats := c.stats.(branches := Bump(c.stats.branches, c.line))), lines, l)
  }

  /** PushInput: enqueue one string at the back. */
  function Enqueue(c: Ctx, s: string): (r: Ctx)
    ensures r.inputs == c.inputs + [s] && r.(inputs := c.inputs) == c
  {
    c.(inputs := c.inputs + [s])
  }

  /** PopInput: the front of the queue, or a request for input when it is empty (which changes nothing). */
  function Dequeue(c: Ctx): (r: (RuntimeResult<string>, Ctx))
    ensures r.0.Ok? <==> c.inputs != []
    ensures r.0.Err? ==> r.0.error == MsgRequestInput && r.1 == c
    ensures r.0.Ok? ==> [r.0.value] + r.1.inputs == c.inputs && r.1.(inputs := c.inputs) == c
  {
    if c.inputs == [] then (Err(MsgRequestInput), c)
    else (Ok(c.inputs[0]), c.(inputs := c.inputs[1..]))
  }

  /** PushOutput: append the text and a newline. */
  function Emit(c: Ctx, s: string): (r: Ctx)
    ensures r.outputs == c.outputs + s + "\n" && r.(outputs := c.outputs) == c
  {
    c.(outputs := c.outputs + s + "\n")
  }

  /** The buffer without one trailing newline. */
  function DropNewline(s: string): (t: string)
    ensures s != [] && s[|s| - 1] == '\n' ==> s == t + "\n"
    ensures !(s != [] && s[|s| - 1] == '\n') ==> t == s
  {
    if s != [] && s[|s| - 1] == '\n' then s[..|s| - 1] else s
  }

  /** PopOutputs: the buffer minus one trailing newline; the buffer is left empty. */
  function Flush(c: Ctx): (r: (string, Ctx))
    ensures r.1 == c.(outputs := "")
  {
    (DropNewline(c.outputs), c.(outputs := ""))
  }

  /** Context::Create: seek to the first line of the program, counting one execution of it. */
  function CreateCtx(lines: Lines): (r: RuntimeResult<Ctx>)
    ensures r.Err? <==> lines == map[]
    ensures r.Err? ==> r.error == MsgEndOfProgram
    ensures r.Ok? ==> r.value.line in lines && forall k :: k in lines ==> r.value.line <= k
    ensures r.Ok? ==> r.value.stats.LineStat(r.value.line) == 1
    ensures r.Ok? ==> r.value.(line := NO_LINE, stats := FreshCtx().stats) == FreshCtx()
  {
    var first :- FirstLine(lines);
    // The jump to a line the program holds cannot fail, so BASIC_UNWRAP passes it through.
    Ok(Jump(FreshCtx(), lines, first).1)
  }

  // ---------------------------------------------------------------------------
  // Properties of the steps

  /** A read after SetVariable returns the new value. */
  lemma ReadAfterSet(c: Ctx, x: string, v: int)
    ensures ReadVar(SetVar(c, x, v), x).0 == Ok(v)
  {
  }

  /** A read of another variable after SetVariable sees what it saw before. */
  lemma ReadOtherAfterSet(c: Ctx, x: string, y: string, v: int)
    requires x != y
    ensures ReadVar(SetVar(c, x, v), y).0 == ReadVar(c, y).0
  {
  }

  /** The queue is first in, first out: what is pushed comes out after what was already queued. */
  lemma {:induction false} QueueOrder(c: Ctx, s: string)
    ensures c.inputs == [] ==> Dequeue(Enqueue(c, s)).0 == Ok(s)
    ensures c.inputs != [] ==> Dequeue(Enqueue(c, s)).0 == Dequeue(c).0
    ensures c.inputs != [] ==> Dequeue(Enqueue(c, s)).1 == Enqueue(Dequeue(c).1, s)
  {
    var pushed := Enqueue(c, s);
    if c.inputs != [] {
      assert pushed.inputs[1..] == c.inputs[1..] + [s];
    }
  }

  /** Pushing strings one by one onto a buffer. */
  function PushAll(c: Ctx, ss: seq<string>): (r: Ctx)
    ensures r.(outputs := c.outputs) == c
  {
    if ss == [] then c else Emit(PushAll(c, ss[..|ss| - 1]), ss[|ss| - 1])
  }

  /** The strings written one after the other with a newline between neighbours. */
  function JoinLines(ss: seq<string>): string {
    if ss == [] then "" else if |ss| == 1 then ss[0] else JoinLines(ss[..|ss| - 1]) + "\n" + ss[|ss| - 1]
  }

  lemma {:induction false} PushAllOutputs(c: Ctx, ss: seq<string>)
    requires c.outputs == "" && ss != []
    ensures PushAll(c, ss).outputs == JoinLines(ss) + "\n"
  {
    if |ss| > 1 {
      var init := ss[..|ss| - 1];
      PushAllOutputs(c, init);
      assert init[..|init| - 1] == ss[..|ss| - 2];
    }
  }

  /** Popping after pushing some lines onto an empty buffer gives the lines joined by newlines. */
  lemma PopAfterPushes(c: Ctx, ss: seq<string>)
    requires c.outputs == ""
    ensures Flush(PushAll(c, ss)).0 == JoinLines(ss)
  {
    if ss != [] {
      PushAllOutputs(c, ss);
      var o := PushAll(c, ss).outputs;
      assert o[|o| - 1] == '\n';
      assert o[..|o| - 1] == JoinLines(ss);
    }
  }

  // ---------------------------------------------------------------------------
  // The mutable context

  class Context {
    var variables: map<string, int>
    var line: LineID
    var inputs: seq<string>
    var outputs: string
    var terminated: bool
    var variableStats: map<string, Count>
    var lineStats: map<LineID, Count>
    var branchStats: map<LineID, Count>

    /** The state the fields hold. */
    function State(): Ctx
      reads this
    {
      Ctx(variables, line, inputs, outputs, terminated, Stats(lineStats, branchStats, variableStats))
    }

    constructor ()
      ensures State() == FreshCtx()
    {
      variables := map[];
      line := NO_LINE;
      inputs := [];
      outputs := "";
      terminated := false;
      variableStats := map[];
      lineStats := map[];
      branchStats := map[];
    }

    /** Context::Create: a context at the program's first line, or the end of the program. */
    static method Create(program: Program) returns (r: RuntimeResult<Context>)
      ensures r.Ok? <==> CreateCtx(program.statements).Ok?
      ensures r.Err? ==> r.error == CreateCtx(program.statements).error
      ensures r.Ok? ==> fresh(r.value) && r.value.State() == CreateCtx(program.statements).value
    {
      var first := FirstLine(program.statements);
      if first.Err? {
        return Err(first.error);
      }
      var ctx := new Context();
      var res := ctx.GotoLine(program, first.value);
      // The first line is always in the program, so BASIC_UNWRAP passes the jump through.
      assert res.Ok?;
      return Ok(ctx);
    }

    method ReadVariable(x: string) returns (r: RuntimeResult<int>)
      modifies this
      ensures (r, State()) == ReadVar(old(State()), x)
    {
      if x !in variables {
        return Err(UndefinedVariable(x));
      }
      variableStats := Bump(variableStats, x);
      return Ok(variables[x]);
    }

    method SetVariable(x: string, v: int)
      modifies this
      ensures State() == SetVar(old(State()), x, v)
    {
      variables := variables[x := v];
    }

    method GotoLine(program: Program, l: LineID) returns (r: RuntimeResult<()>)
      modifies this
      ensures (r, State()) == Jump(old(State()), program.statements, l)
    {
      var checked := CheckLine(program.statements, l);
      if checked.Err? {
        return checked;
      }
      line := l;
      lineStats := Bump(lineStats, l);
      return Ok(());
    }

    method NextLine(program: Program) returns (r: RuntimeResult<()>)
      modifies this
      ensures (r, State()) == GotoNext(old(State()), program.statements)
    {
      var next := BasicLines.NextLine(program.statements, line);
      if next.Err? {
        return Err(next.error);
      }
      r := GotoLine(program, next.value);
    }

    method GotoBranchLine(program: Program, l: LineID) returns (r: RuntimeResult<()>)
      modifies this
      ensures (r, State()) == GotoBranch(old(State()), program.statements, l)
    {
      branchStats := Bump(branchStats, line);
      r := GotoLine(program, l);
    }

    method PushInput(s: string)
      modifies this
      ensures State() == Enqueue(old(State()), s)
    {
      inputs := inputs + [s];
    }

    method PopInput() returns (r: RuntimeResult<string>)
      modifies this
      ensures (r, State()) == Dequeue(old(State()))
    {
      if inputs == [] {
        return Err(MsgRequestInput);
      }
      r := Ok(inputs[0]);
      inputs := inputs[1..];
    }

    /** HaveInput. */
    function HaveInput(): (b: bool)
      reads this
      ensures b <==> Dequeue(State()).0.Ok?
    {
      inputs != []
    }

    method PushOutput(s: string)
      modifies this
      ensures State() == Emit(old(State()), s)
    {
      outputs := outputs + s;
      outputs := outputs + "\n";
    }

    method PopOutputs() returns (text: string)
      modifies this
      ensures (text, State()) == Flush(old(State()))
    {
      text := outputs;
      if text != [] && text[|text| - 1] == '\n' {
        text := text[..|text| - 1];
      }
      outputs := "";
    }

    /** Terminate: the flag is set and nothing clears it. */
    method Terminate()
      modifies this
      ensures State() == old(State()).(terminated := true)
    {
      terminated := true;
    }
  }
}
