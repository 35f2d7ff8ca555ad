/**
 * Parse errors, runtime errors and the Result type of the interpreter
 * (QBasic/basic/Error.hpp). Runtime "messages" (a PRINT happened, the program
 * ended, input is needed) travel on the error channel like real errors.
 */
module BasicError {
  import opened StdTypes
  import opened BasicConfig

  const PARSE_ERROR_HEAD: string := "[PARSE ERROR] "
  const RUNTIME_ERROR_HEAD: string := "[RUNTIME ERROR] "
  const RUNTIME_MSG_HEAD: string := "[RUNTIME INFO] "

  predicate IsPrefix(p: string, s: string) {
    |p| <= |s| && s[..|p|] == p
  }

  /** Where an error occurred: " in expression '...'" wins over " in statement '...'"; nothing when both are empty. */
  function Where(exprStr: string, stmtStr: string): (w: string)
    ensures exprStr != [] ==> w == " in expression '" + exprStr + "'"
    ensures exprStr == [] && stmtStr != [] ==> w == " in statement '" + stmtStr + "'"
    ensures exprStr == [] && stmtStr == [] ==> w == ""
  {
    if exprStr != [] then " in expression '" + exprStr + "'"
    else if stmtStr != [] then " in statement '" + stmtStr + "'"
    else ""
  }

  datatype ParseError =
    | NoOperand(exprStr: string, operatorStr: string)
    | EmptyExpr(exprStr: string)
    | OrphanExpr(exprStr: string, orphExprStr: string)
    | BracketUnmatched(exprStr: string)
    | InvalidToken(exprStr: string, stmtStr: string, tokenStr: string)
    | MissingToken(exprStr: string, stmtStr: string, tokenStr: string)
    | InvalidVariable(exprStr: string, stmtStr: string, varStr: string)
    | InvalidDigit(exprStr: string, stmtStr: string, digitStr: string)
    | EmptyStmt
  {
    /** The message shown to the user. */
    function Format(): (s: string)
      ensures IsPrefix(PARSE_ERROR_HEAD, s)
    {
      PARSE_ERROR_HEAD +
        match this
        case NoOperand(e, op) => "No operand for '" + op + "' in '" + e + "'"
        case EmptyExpr(e) => "Empty expression '" + e + "'"
        case OrphanExpr(e, o) => "Orphan expression '" + o + "' in '" + e + "'"
        case BracketUnmatched(e) => "Unmatched brackets in '" + e + "'"
        case InvalidToken(e, st, t) => "Invalid token '" + t + "'" + Where(e, st)
        case MissingToken(e, st, t) => "Missing token '" + t + "'" + Where(e, st)
        case InvalidVariable(e, st, v) => "Invalid variable '" + v + "'" + Where(e, st)
        case InvalidDigit(e, st, d) => "Invalid digit '" + d + "'" + Where(e, st)
        case EmptyStmt => "Empty statement"
    }
  }

  datatype RuntimeError =
    | UndefinedVariable(name: string)
    | UndefinedLine(line: LineID)
    | DivByZero(zeroExprStr: string)
    | ExpByNeg(negExprStr: string)
    | Terminate
    | InvalidInput(input: string)
    | MsgPrint
    | MsgEndOfProgram
    | MsgRequestInput
  {
    /** The three variants that report progress rather than a failure. */
    predicate IsMessage() {
      MsgPrint? || MsgEndOfProgram? || MsgRequestInput?
    }

    /** The message shown to the user. */
    function Format(): (s: string)
      ensures !IsMessage() ==> IsPrefix(RUNTIME_ERROR_HEAD, s)
      ensures MsgEndOfProgram? || MsgRequestInput? ==> IsPrefix(RUNTIME_MSG_HEAD, s)
      ensures MsgPrint? <==> s == ""
    {
      match this
      case UndefinedVariable(v) => RUNTIME_ERROR_HEAD + "Undefined variable '" + v + "'"
      case UndefinedLine(l) => RUNTIME_ERROR_HEAD + "Undefined line '" + DecimalNat(l) + "'"
      case DivByZero(e) => RUNTIME_ERROR_HEAD + "Divided by zero value expression '" + e + "'"
      case ExpByNeg(e) => RUNTIME_ERROR_HEAD + "Exponentiated by negative value expression '" + e + "'"
      case InvalidInput(i) => RUNTIME_ERROR_HEAD + "Invalid input '" + i + "'"
      case Terminate => RUNTIME_ERROR_HEAD + "Program terminated by user"
      case MsgPrint => ""
      case MsgEndOfProgram => RUNTIME_MSG_HEAD + "Program ended"
      case MsgRequestInput => RUNTIME_MSG_HEAD + "Input requested"
    }
  }

  /** Heads of different lengths or contents never both prefix one message. */
  lemma HeadsDiffer(s: string)
    ensures !(IsPrefix(PARSE_ERROR_HEAD, s) && IsPrefix(RUNTIME_ERROR_HEAD, s))
    ensures !(IsPrefix(PARSE_ERROR_HEAD, s) && IsPrefix(RUNTIME_MSG_HEAD, s))
    ensures !(IsPrefix(RUNTIME_ERROR_HEAD, s) && IsPrefix(RUNTIME_MSG_HEAD, s))
  {
    if IsPrefix(PARSE_ERROR_HEAD, s) {
      assert s[1] == PARSE_ERROR_HEAD[1] == 'P';
    }
    if IsPrefix(RUNTIME_ERROR_HEAD, s) {
      assert s[9] == RUNTIME_ERROR_HEAD[9] == 'E';
    }
  }

  /**
   * The text of a message tells its class: a parse error, a runtime error and
   * a runtime message never print the same, and only MsgPrint prints nothing.
   */
  lemma FormatTellsClass(p: ParseError, r: RuntimeError)
    ensures p.Format() != r.Format()
    ensures r.Format() != "" ==> (r.IsMessage() <==> !IsPrefix(RUNTIME_ERROR_HEAD, r.Format()))
  {
    HeadsDiffer(p.Format());
    HeadsDiffer(r.Format());
  }

  /** Result<Type, ErrorType>: a value or an error; `:-` plays BASIC_UNWRAP. */
  datatype Result<T, E> = Ok(value: T) | Err(error: E) {
    predicate IsOK() {
      Ok?
    }

    predicate IsError() {
      Err?
    }

    predicate IsFailure() {
      Err?
    }

    function PropagateFailure<U>(): Result<U, E>
      requires Err?
    {
      Err(error)
    }

    function Extract(): T
      requires Ok?
    {
      value
    }
  }

  type ParseResult<T> = Result<T, ParseError>
  type RuntimeResult<T> = Result<T, RuntimeError>
}
