/**
 * Statements of the interpreter (QBasic/basic/Statement.hpp) and their two
 * printers: the one-line listing text and the indented syntax tree with the
 * optional execution statistics (the FormatAST half of QBasic/basic/Statement.cpp).
 */
module BasicStatement {
  import opened StdTypes
  import opened BasicConfig
  import opened BasicError
  import opened BasicExpression

  /** The seven statement kinds, each holding what its parser stored. */
  datatype Stmt =
    | Rem(comment: string)
    | Input(name: string)
    | Print(expr: Expr)
    | Let(name: string, expr: Expr)
    | Goto(target: LineID)
    | If(left: Expr, cmp: char, right: Expr, target: LineID)
    | End

  /** kKeyWord of each kind. */
  function Keyword(s: Stmt): string {
    match s
    case Rem(_) => "REM"
    case Input(_) => "INPUT"
    case Print(_) => "PRINT"
    case Let(_, _) => "LET"
    case Goto(_) => "GOTO"
    case If(_, _, _, _) => "IF"
    case End => "END"
  }

  /** The keywords in the order the statement parser tries them. */
  const KEYWORDS: seq<string> := ["REM", "INPUT", "PRINT", "LET", "GOTO", "IF", "END"]

  /** Every kind has one of the seven keywords, and the seven are pairwise different. */
  lemma KeywordsDistinct(s: Stmt)
    ensures Keyword(s) in KEYWORDS
    ensures forall i, j :: 0 <= i < j < |KEYWORDS| ==> KEYWORDS[i] != KEYWORDS[j]
  {
  }

  /** The text after the keyword in a listing: each kind's own Format. */
  function Text(s: Stmt): string {
    match s
    case Rem(c) => c
    case Input(x) => x
    case Print(e) => Format(e)
    case Let(x, e) => x + " = " + Format(e)
    case Goto(n) => DecimalNat(n)
    case If(l, c, r, n) => Format(l) + [' ', c, ' '] + Format(r) + " THEN " + DecimalNat(n)
    case End => ""
  }

  /** Statement::Format: the keyword, one space, then the kind's text. */
  function FormatStmt(s: Stmt): string {
    Keyword(s) + " " + Text(s)
  }

  /** The listing of END is "END " with the trailing space. */
  lemma FormatEnd()
    ensures FormatStmt(End) == "END "
  {
  }

  /** Listing of a LET. */
  lemma FormatLetExample()
    ensures FormatStmt(Let("X", Binary(Add, Num(1), Num(2)))) == "LET X = 1 + 2"
  {
    assert DecimalInt(1) == "1" && DecimalInt(2) == "2";
  }

  /** Listing of a GOTO. */
  lemma FormatGotoExample()
    ensures FormatStmt(Goto(20)) == "GOTO 20"
  {
    assert DecimalNat(20) == DecimalNat(2) + "0";
  }

  /** Listing of an IF. */
  lemma FormatIfExample()
    ensures FormatStmt(If(Var("X"), '<', Num(3), 40)) == "IF X < 3 THEN 40"
  {
    assert Format(Var("X")) == "X";
    assert Format(Num(3)) == "3" by {
      assert DecimalInt(3) == "3";
    }
    assert DecimalNat(40) == "40" by {
      assert DecimalNat(40) == DecimalNat(4) + "0";
    }
  }

  /** Reads the keyword back from the first two characters of a listing. */
  function KeywordOf(f: string): string
    requires |f| >= 2
  {
    match f[0]
    case 'R' => "REM"
    case 'P' => "PRINT"
    case 'L' => "LET"
    case 'G' => "GOTO"
    case 'E' => "END"
    case _ => if f[1] == 'N' then "INPUT" else "IF"
  }

  /** A listing starts with its keyword, and the keyword can be read back from it. */
  lemma KeywordOfFormat(s: Stmt)
    ensures |FormatStmt(s)| >= 2
    ensures FormatStmt(s)[..|Keyword(s)|] == Keyword(s)
    ensures KeywordOf(FormatStmt(s)) == Keyword(s)
  {
    var k := Keyword(s);
    HeadOf(k, Text(s));
    assert KeywordOf(k) == k;
  }

  /** A keyword followed by a space and a text starts with that keyword. */
  lemma HeadOf(k: string, t: string)
    requires |k| >= 2
    ensures var f := k + " " + t;
      |f| >= 2 && f[..|k|] == k && f[0] == k[0] && f[1] == k[1] && KeywordOf(f) == KeywordOf(k)
  {
  }

  /** A listing tells the statement's kind: two statements of different kinds never print alike. */
  lemma FormatTellsKind(a: Stmt, b: Stmt)
    requires FormatStmt(a) == FormatStmt(b)
    ensures Keyword(a) == Keyword(b)
  {
    KeywordOfFormat(a);
    KeywordOfFormat(b);
  }

  // ---------------------------------------------------------------------------
  // FormatAST

  /** The counters a context keeps: executions and taken branches per line, successful reads (uses) per variable. */
  datatype Stats = Stats(lines: map<LineID, Count>, branches: map<LineID, Count>, uses: map<string, Count>) {
    /** Each counter reads as 0 for a key never counted. */
    function LineStat(l: LineID): Count {
      if l in lines then lines[l] else 0
    }

    function BranchStat(l: LineID): Count {
      if l in branches then branches[l] else 0
    }

    function UseStat(x: string): Count {
      if x in uses then uses[x] else 0
    }
  }

  /** AST_STMT_END: the execution count of the line, printed only when a context is given. */
  function StmtEnd(line: LineID, stats: Option<Stats>): string {
    if stats.Some? then "[execute:" + DecimalNat(stats.value.LineStat(line)) + "]" else ""
  }

  /** AST_VAR_END: the read count of a variable, printed only when a context is given. */
  function VarEnd(x: string, stats: Option<Stats>): string {
    if stats.Some? then "[use:" + DecimalNat(stats.value.UseStat(x)) + "]" else ""
  }

  /** The false count of an IF: executions minus taken branches, in uint32_t arithmetic. */
  function FalseCount(stats: Stats, line: LineID): (f: Count)
    ensures (stats.BranchStat(line) + f) % UINT32_MOD == stats.LineStat(line)
    ensures stats.BranchStat(line) <= stats.LineStat(line) ==> f == stats.LineStat(line) - stats.BranchStat(line)
  {
    (stats.LineStat(line) - stats.BranchStat(line)) % UINT32_MOD
  }

  function IfEnd(line: LineID, stats: Option<Stats>): string {
    if stats.Some? then
      "[true:" + DecimalNat(stats.value.BranchStat(line)) + "] [false:" + DecimalNat(FalseCount(stats.value, line)) + "]"
    else ""
  }

  /** One line of the tree printer. */
  function Line(s: string): string {
    s + "\n"
  }

  /** Each kind's FormatAST: the rest of the keyword line, then the indented children. */
  function TreeText(s: Stmt, line: LineID, stats: Option<Stats>): string {
    match s
    case Rem(c) => Line(StmtEnd(line, stats)) + (if c == [] then "" else Line(AST_ALIGN + c))
    case Input(x) => Line(StmtEnd(line, stats)) + Line(AST_ALIGN + x + " " + VarEnd(x, stats))
    case Print(e) => Line(StmtEnd(line, stats)) + FormatAST(e, AST_ALIGN)
    case Let(x, e) =>
      Line("= " + StmtEnd(line, stats)) + Line(AST_ALIGN + x + " " + VarEnd(x, stats)) + FormatAST(e, AST_ALIGN)
    // StmtGoto::FormatAST leaves its line parameter unnamed, so the count it
    // prints is the jump target's, not the GOTO line's own.
    case Goto(n) => Line(StmtEnd(n, stats)) + Line(AST_ALIGN + DecimalNat(n))
    case If(l, c, r, n) =>
      Line("THEN " + IfEnd(line, stats)) + FormatAST(l, AST_ALIGN) + Line(AST_ALIGN + [c]) +
      FormatAST(r, AST_ALIGN) + Line(AST_ALIGN + DecimalNat(n))
    case End => Line(StmtEnd(line, stats))
  }

  /**
   * The tree of a GOTO does not depend on the line it stands on: its count is
   * the target's, so two GOTOs to one target print the same tree.
   */
  lemma GotoTreeShowsTarget(n: LineID, line: LineID, other: LineID, stats: Option<Stats>)
    ensures TreeText(Goto(n), line, stats) == TreeText(Goto(n), other, stats)
    ensures stats.Some? ==> TreeText(Goto(n), line, stats)[..|StmtEnd(n, stats)|] == StmtEnd(n, stats)
  {
  }

  /** Statement::FormatAST: the keyword, one space, then the kind's tree text. */
  function FormatStmtAST(s: Stmt, line: LineID, stats: Option<Stats>): string {
    Keyword(s) + " " + TreeText(s, line, stats)
  }

  /** No line break in a text. */
  predicate SingleLine(s: string) {
    forall i :: 0 <= i < |s| ==> s[i] != '\n'
  }

  /** The statement holds no line break in a name, a comment or a comparator. */
  predicate StmtSingleLine(s: Stmt) {
    match s
    case Rem(c) => SingleLine(c)
    case Input(x) => SingleLine(x)
    case Print(e) => NamesSingleLine(e)
    case Let(x, e) => SingleLine(x) && NamesSingleLine(e)
    case Goto(_) => true
    case If(l, c, r, _) => c != '\n' && NamesSingleLine(l) && NamesSingleLine(r)
    case End => true
  }

  /** The number of lines the tree printer writes for a statement. */
  function TreeLines(s: Stmt): nat {
    match s
    case Rem(c) => if c == [] then 1 else 2
    case Input(_) => 2
    case Print(e) => 1 + Size(e)
    case Let(_, e) => 2 + Size(e)
    case Goto(_) => 2
    case If(l, _, r, _) => 3 + Size(l) + Size(r)
    case End => 1
  }

  lemma DecimalSingleLine(n: nat)
    ensures SingleLine(DecimalNat(n))
  {
    NoNewlineDecimal(n);
    assert DecimalInt(n) == DecimalNat(n);
  }

  lemma StatsSingleLine(line: LineID, x: string, stats: Option<Stats>)
    ensures SingleLine(StmtEnd(line, stats)) && SingleLine(VarEnd(x, stats)) && SingleLine(IfEnd(line, stats))
  {
    if stats.Some? {
      var st := stats.value;
      TagSingleLine("[execute:", st.LineStat(line), "]");
      TagSingleLine("[use:", st.UseStat(x), "]");
      TagSingleLine("[true:", st.BranchStat(line), "] [false:");
      TagSingleLine("[true:" + DecimalNat(st.BranchStat(line)) + "] [false:", FalseCount(st, line), "]");
    }
  }

  /** A count printed between two texts without line breaks adds none. */
  lemma TagSingleLine(open: string, n: nat, close: string)
    requires SingleLine(open) && SingleLine(close)
    ensures SingleLine(open + DecimalNat(n) + close)
  {
    DecimalSingleLine(n);
    SingleLineConcat(open, DecimalNat(n));
    SingleLineConcat(open + DecimalNat(n), close);
  }

  lemma SingleLineConcat(a: string, b: string)
    requires SingleLine(a) && SingleLine(b)
    ensures SingleLine(a + b)
  {
    assert forall i :: |a| <= i < |a + b| ==> (a + b)[i] == b[i - |a|];
  }

  lemma OneLine(s: string)
    requires SingleLine(s)
    ensures CountNewlines(Line(s)) == 1
  {
    NoNewlineCount(s);
    CountNewlinesConcat(s, "\n");
  }

  lemma HeadSingleLine(s: Stmt)
    ensures SingleLine(Keyword(s) + " ")
  {
    var head := Keyword(s) + " ";
    assert forall i :: 0 <= i < |head| ==> head[i] in "ABCDEFGHIJKLMNOPQRSTUVWXYZ ";
  }

  /** The indented line of a name with its read count. */
  lemma NameLine(x: string, stats: Option<Stats>)
    requires SingleLine(x)
    ensures CountNewlines(Line(AST_ALIGN + x + " " + VarEnd(x, stats))) == 1
  {
    StatsSingleLine(0, x, stats);
    SingleLineConcat(AST_ALIGN, x);
    SingleLineConcat(AST_ALIGN + x, " ");
    SingleLineConcat(AST_ALIGN + x + " ", VarEnd(x, stats));
    OneLine(AST_ALIGN + x + " " + VarEnd(x, stats));
  }

  /** The indented line of a line number. */
  lemma NumberLine(n: nat)
    ensures CountNewlines(Line(AST_ALIGN + DecimalNat(n))) == 1
  {
    DecimalSingleLine(n);
    SingleLineConcat(AST_ALIGN, DecimalNat(n));
    OneLine(AST_ALIGN + DecimalNat(n));
  }

  /** The tree text of each kind has TreeLines lines. */
  lemma TreeTextLines(s: Stmt, line: LineID, stats: Option<Stats>)
    requires StmtSingleLine(s)
    ensures CountNewlines(TreeText(s, line, stats)) == TreeLines(s)
  {
    StatsSingleLine(line, "", stats);
    var e1 := StmtEnd(line, stats);
    match s
    case Rem(c) =>
      OneLine(e1);
      if c != [] {
        SingleLineConcat(AST_ALIGN, c);
        OneLine(AST_ALIGN + c);
      }
      CountNewlinesConcat(Line(e1), if c == [] then "" else Line(AST_ALIGN + c));
    case Input(x) =>
      OneLine(e1);
      NameLine(x, stats);
      CountNewlinesConcat(Line(e1), Line(AST_ALIGN + x + " " + VarEnd(x, stats)));
    case Print(e) =>
      OneLine(e1);
      FormatASTLines(e, AST_ALIGN);
      CountNewlinesConcat(Line(e1), FormatAST(e, AST_ALIGN));
    case Let(x, e) =>
      var a := Line("= " + e1);
      var b := Line(AST_ALIGN + x + " " + VarEnd(x, stats));
      SingleLineConcat("= ", e1);
      OneLine("= " + e1);
      NameLine(x, stats);
      FormatASTLines(e, AST_ALIGN);
      CountNewlinesConcat(a, b);
      CountNewlinesConcat(a + b, FormatAST(e, AST_ALIGN));
    case Goto(n) =>
      StatsSingleLine(n, "", stats);
      OneLine(StmtEnd(n, stats));
      NumberLine(n);
      CountNewlinesConcat(Line(StmtEnd(n, stats)), Line(AST_ALIGN + DecimalNat(n)));
    case If(l, c, r, n) =>
      IfLines(l, c, r, n, line, stats);
    case End =>
      OneLine(e1);
  }

  lemma IfLines(l: Expr, c: char, r: Expr, n: LineID, line: LineID, stats: Option<Stats>)
    requires c != '\n' && NamesSingleLine(l) && NamesSingleLine(r)
    ensures CountNewlines(TreeText(If(l, c, r, n), line, stats)) == 3 + Size(l) + Size(r)
  {
    StatsSingleLine(line, "", stats);
    var a := Line("THEN " + IfEnd(line, stats));
    var lt := FormatAST(l, AST_ALIGN);
    var ct := Line(AST_ALIGN + [c]);
    var rt := FormatAST(r, AST_ALIGN);
    var nt := Line(AST_ALIGN + DecimalNat(n));
    SingleLineConcat("THEN ", IfEnd(line, stats));
    OneLine("THEN " + IfEnd(line, stats));
    SingleLineConcat(AST_ALIGN, [c]);
    OneLine(AST_ALIGN + [c]);
    NumberLine(n);
    FormatASTLines(l, AST_ALIGN);
    FormatASTLines(r, AST_ALIGN);
    CountFive(a, lt, ct, rt, nt);
  }

  /** The line breaks of five texts written one after another. */
  lemma CountFive(a: string, b: string, c: string, d: string, e: string)
    ensures CountNewlines(a + b + c + d + e) ==
      CountNewlines(a) + CountNewlines(b) + CountNewlines(c) + CountNewlines(d) + CountNewlines(e)
  {
    CountNewlinesConcat(a, b);
    CountNewlinesConcat(a + b, c);
    CountNewlinesConcat(a + b + c, d);
    CountNewlinesConcat(a + b + c + d, e);
  }

  /** The tree printer writes one line for the keyword, one per child node and one per name, comparator or target. */
  lemma FormatStmtASTLines(s: Stmt, line: LineID, stats: Option<Stats>)
    requires StmtSingleLine(s)
    ensures CountNewlines(FormatStmtAST(s, line, stats)) == TreeLines(s)
  {
    HeadSingleLine(s);
    NoNewlineCount(Keyword(s) + " ");
    TreeTextLines(s, line, stats);
    CountNewlinesConcat(Keyword(s) + " ", TreeText(s, line, stats));
  }
}
