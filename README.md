# Three programs of SJTU-SEP-Modern-CPP, modelled in Dafny

This project models the logic of three C++ programs of the repository and
proves what they promise. Each program is a separate group of modules; they
share only `StdTypes` (std::optional and the 32-bit limits) and `RowMajor`
(row-major indexing of a board).

**QBasic: a line-numbered integer BASIC interpreter** (`QBasic/basic`).
- The lexer is `BasicToken`. Tokens are windows onto one shared line buffer, a class object, so that "the same buffer" is reference identity as the shared pointer is.
- `BasicExpression` holds the expression trees: evaluation with C++'s truncating `/` and `%` and the `MOD` of the source, the minimal-bracket printer and the indented tree printer.
- `BasicFormatLex`, `BasicFormatItems` and `BasicFormatParse` prove the printer's round trip: the tokens of `Format(e)` parse back into `e` for every tree whose text is unambiguous (`Printable`).
- `BasicExprParser` is the two-stack operator-precedence parser. It has specification functions on token texts and a method on tokens proved equal to them.
- `BasicStatement` and `BasicStmtParser` are the seven statements, their printers and their parsers.
- `BasicLines` and `BasicProgram` are the program store, a map from line number to statement walked in ascending order.
- `BasicContext` is the execution context: variables, current line, input queue, output buffer, termination and statistics.
- `BasicRun` runs one statement. `BasicMachine` is the step loop of the machine.
- Every state-changing class (`Program`, `Context`, `Machine`) is proved step by step against a function on the value it holds.

**QLink: the logic of a two-player link-up game** (`QLink/game`).
- `LinkGrid` is the board: 1-based cells with a border ring of empty cells. It has the matching rule `IsLinked`, `HasSolution`, `Shuffle` and `GetRandomSpace`. `IsLinked` is proved to report exactly the pairs of equal blocks that a way with at most two turns through empty cells joins.
- `LinkEffect` is the effect set and its counters.
- `LinkTick` states one call of `Game::Update` as functions on a value holding every field of a Game. `LinkTickFacts` and `LinkTickRules` prove what a tick does and keeps.
- `LinkGame` holds the class `Game`, whose methods run the source's steps on its fields and are proved to match `LinkTick`.
- `LinkCodec` and `LinkCodecFacts` hold the byte format of a saved game and its round trips. `LinkSerializer` runs every `Serializer<T>::Write` and `Read` on a byte stream, proved against `LinkCodec`.
- The random draws of a tick are passed in as a `Chance`: the arrangement each round of `std::shuffle` produces, the value each `std::uniform_int_distribution` gives, and the roll that picks the new effect type.

**QExam: the safety and path searches of `Matrix`** (`QExam`).
- `ExamBoard` is the board and its index map. `ExamSafety` states what the safety search computes: each cell's distance to the nearest blocked cell, or INT_MAX when no cell is blocked. `ExamPath` states what the path search computes: a shortest route through cells at least `min_safety` safe, or the empty path.
- `ExamMatrix` holds both breadth-first searches as loops over a queue, proved to establish those properties, and the class `Matrix` built on them.
- `ExamInput` is `Matrix::Input` over a stream of integers.

Where the model parts from the code, it says so below:
- The expression parser is modelled twice, as written (`ParseUnchecked`) and with a check for two operands side by side (`ParseTexts`, the one the statement parser uses). `ParseTexts` reports every error the parser as written reports; it only refuses some trees that parser builds. See Findings.
- The interpreter's `Int` is an unbounded integer; see Left out.

## Model

| member | source | states |
|---|---|---|
| BasicConfig.Inc | QBasic/basic/Config.hpp:13 | ++ on a Count (uint32_t): one more, or 0 when the counter was at 2^32 - 1 |
| BasicConfig.DigitChar | QBasic/basic/Token.hpp:29 | the digit character of d < 10 is a digit whose value c - '0' is d |
| BasicConfig.DecimalNat | QBasic/basic/Expression.hpp:45 | std::to_string of a non-negative number is a non-empty string of digits, one digit exactly below 10 |
| BasicConfig.DecimalInt | QBasic/basic/Expression.hpp:45 | std::to_string of any Int: the digits of the number, after a '-' when it is negative |
| BasicConfig.DecimalNatRoundTrip | QBasic/basic/Token.hpp:25-31 | reading back with the Horner loop what std::to_string printed gives the number again |
| BasicConfig.TDiv | QBasic/basic/Expression.cpp:15 | C++ `l / r`: the quotient of the magnitudes, positive only when the signs agree and negative only when they differ |
| BasicConfig.TRem | QBasic/basic/Expression.cpp:20 | C++ `l % r`: the remainder that completes `l == (l / r) * r + l % r` |
| BasicConfig.TRemSigned | QBasic/basic/Expression.cpp:20 | C++ `%` is the remainder of the magnitudes with the sign of the dividend |
| BasicConfig.TRemBounds | QBasic/basic/Expression.cpp:20 | the remainder is smaller than the divisor in magnitude, non-negative for a non-negative dividend and non-positive for a non-positive one |
| BasicConfig.HornerMod | QBasic/basic/Token.hpp:29 | one Horner step in uint32_t arithmetic leaves the same residue modulo 2^32 as the exact step |
| BasicToken.LexFrom | QBasic/basic/Token.cpp:11-34 | the spans Tokenize cuts from one index on; LexFromOrdered, LexFromSpaceless, LexFromMerged and LexFromMaximal state what they are |
| BasicToken.Lex | QBasic/basic/Token.cpp:5-37 | the spans of a whole line; LexShape and LexPartitions state that they are ordered, space-free, maximal and cover every non-space character |
| BasicToken.TokenEnd | QBasic/basic/Token.cpp:17-25 | the inner scan stops at or after j and never past the end of the line |
| BasicToken.TokenEndProps | QBasic/basic/Token.cpp:17-25 | every character the scan takes is a non-space that merges with the one before it (both alphanumeric, or equal), and the scan stops at the end, a space or a non-merging pair |
| BasicToken.LexFromOrdered | QBasic/basic/Token.cpp:11-34 | the spans cut from line[i..] are non-empty, in increasing order, disjoint and inside the line |
| BasicToken.LexFromSpaceless | QBasic/basic/Token.cpp:12-15 | no span cut from line[i..] holds a space |
| BasicToken.LexFromMerged | QBasic/basic/Token.cpp:22-24 | inside each span every neighbouring pair of characters merges |
| BasicToken.LexFromMaximal | QBasic/basic/Token.cpp:17-25 | no span can be extended to the right: it ends at the line's end, at a space or at a pair that does not merge |
| BasicToken.LexShape | QBasic/basic/Token.cpp:5-37 | the tokens of a whole line are ordered, space-free, merged inside and maximal |
| BasicToken.LexFromCovers | QBasic/basic/Token.cpp:11-34 | a character of line[i..] lies in some span exactly when it is not a space |
| BasicToken.LexPartitions | QBasic/basic/Token.cpp:11-34 | every non-space character lies in exactly one token and a space lies in none |
| BasicToken.LexEmpty | QBasic/basic/Token.cpp:11-34 | a line yields no tokens exactly when every character is a space |
| BasicToken.LexTexts | QBasic/basic/Token.cpp:27-31 | one text per token, in order |
| BasicToken.LexExampleArith | QBasic/basic/Token.cpp:22 | "12+34" splits into "12", "+", "34": digits merge, an operator after a digit does not |
| BasicToken.LexExamplePower | QBasic/basic/Token.cpp:22 | "2**3" splits into "2", "**", "3": equal characters merge |
| BasicToken.LexExampleBrackets | QBasic/basic/Token.cpp:12-15 | " ((X)) " splits into "((", "X", "))": spaces separate, equal brackets merge |
| BasicToken.SpansOf | QBasic/basic/Token.hpp:15 | the [m_begin, m_end) pair of each token, in order |
| BasicToken.Tokenize | QBasic/basic/Token.cpp:5-37 | all tokens view one new buffer holding the line, cut at the lexer's spans; they are valid and their views are the lexer's texts |
| BasicToken.TokensOfViews | QBasic/basic/Token.cpp:27-31 | tokens cut at the lexer's spans are valid and each one's view is the matching lexer text |
| BasicToken.Views | QBasic/basic/Token.hpp:18-19 | one non-empty view per token, in order |
| BasicToken.DeTokenize | QBasic/basic/Token.hpp:46-50 | "" when the tokens view different buffers or l starts at or after r's end, else the buffer's text from l's start to r's end |
| BasicToken.DeTokenizeSpan | QBasic/basic/Token.hpp:41-45 | "" for no tokens, the token's own view for one token, else DeTokenize of the first and the last |
| BasicToken.TokensNested | QBasic/basic/Token.cpp:11-34 | within one Tokenize call, tokens i..j lie in order between token i's start and token j's end |
| BasicToken.DeTokenizeRange | QBasic/basic/Token.hpp:41-50 | for tokens of one Tokenize call, DeTokenize of a contiguous range is the line's text from the first token's start to the last token's end, and it contains every token of the range at its place |
| BasicToken.ToDigitInt | QBasic/basic/Token.hpp:25-31 | the Horner loop gives the decimal value of the digits |
| BasicToken.ToDigitLine | QBasic/basic/Token.hpp:25-31 | the same loop in uint32_t arithmetic gives the decimal value modulo 2^32 |
| BasicExpression.Precedence | QBasic/basic/Expression.hpp:166-176 | GetPrecedence: INT_MAX for an operand, the unary level for a unary operator and the operator's own level for a binary one; PrecedenceLadder orders the levels |
| BasicExpression.Format | QBasic/basic/Expression.hpp:123-150 | the minimal-bracket printer; FormatRoundTrip proves that the parser reads its text back into the same tree |
| BasicExpression.FormatAST | QBasic/basic/Expression.hpp:152-165 | the tree printer, one indented line per node; FormatASTIndented and FormatASTLines state its shape |
| BasicExpression.Pow | QBasic/basic/Expression.cpp:22-31 | a ** b for b >= 0, the reference FastPow proves fast_pow equal to |
| BasicExpression.ApplyUnary | QBasic/basic/Expression.hpp:60-71 | unary minus negates, unary plus keeps the value; Eval uses it for a unary node |
| BasicExpression.PrecedenceLadder | QBasic/basic/Expression.hpp:56-87 | the operand, unary, ** , (* / MOD) and (+ -) levels are strictly ordered below INT_MAX, operators with equal precedence share one associativity, and only ** is right-associative |
| BasicExpression.FormatLeftChain | QBasic/basic/Expression.hpp:141-147 | a left-associative operator needs no bracket around a left operand of equal precedence: A - B - C |
| BasicExpression.FormatLeftBracket | QBasic/basic/Expression.hpp:144-145 | a left-associative operator brackets a right operand of equal precedence: A - (B - C) |
| BasicExpression.FormatRightChain | QBasic/basic/Expression.hpp:136-140 | ** keeps no bracket around a right operand of equal precedence: A ** B ** C |
| BasicExpression.FormatRightBracket | QBasic/basic/Expression.hpp:137-138 | ** brackets a left operand of equal precedence: (A ** B) ** C |
| BasicExpression.FormatUnaryBracket | QBasic/basic/Expression.hpp:129-133 | a unary operator brackets a binary operand: -(A + B) |
| BasicExpression.FormatUnaryTight | QBasic/basic/Expression.hpp:142-143 | a unary operand of a binary operator needs no bracket: -A * B |
| BasicExpression.CountNewlinesConcat | QBasic/basic/Expression.hpp:152-165 | the line breaks of a concatenation are those of its parts |
| BasicExpression.NoNewlineDecimal | QBasic/basic/Expression.hpp:45 | the printed number holds no line break |
| BasicExpression.FormatASTIndented | QBasic/basic/Expression.hpp:152-165 | the tree printer's text starts with the indentation it is given |
| BasicExpression.FormatASTLines | QBasic/basic/Expression.hpp:152-165 | the tree printer writes exactly one line per node of the tree |
| BasicExpression.PowAdd | QBasic/basic/Expression.cpp:22-31 | a^(m+n) == a^m * a^n, the step square-and-multiply relies on |
| BasicExpression.PowSquare | QBasic/basic/Expression.cpp:27 | squaring the base halves the exponent: (a*a)^k == a^(2k) |
| BasicExpression.FastPow | QBasic/basic/Expression.cpp:22-31 | fast_pow gives a^b for b >= 0 and 1 for a negative exponent, where the loop does not run |
| BasicExpression.ModEval | QBasic/basic/Expression.cpp:20 | `(r + l % r) % r` is the remainder with the sign of the divisor: in [0, r) for r > 0 and in (r, 0] for r < 0 |
| BasicExpression.ShiftedRemainder | QBasic/basic/Expression.cpp:20 | adding a positive divisor to a truncated remainder makes it positive and keeps its residue |
| BasicExpression.ModValue | QBasic/basic/Expression.cpp:20 | the truncated `(r + l % r) % r` equals the floored modulo for either sign of r |
| BasicExpression.ModExamples | QBasic/basic/Expression.cpp:20 | -7 MOD 3 is 2, 7 MOD -3 is -2, -7 MOD -3 is -1 and 7 MOD 3 is 1 |
| BasicExpression.ApplyBinary | QBasic/basic/Expression.cpp:12-36 | an operator fails exactly on a zero divisor for / and MOD and a negative exponent for **, the error carrying the right operand's text |
| BasicExpression.Eval | QBasic/basic/Expression.hpp:104-122 | children are evaluated left to right and the first error stops evaluation; the variables read are a prefix of the tree's occurrences, all defined, all of them on success; an undefined-variable error names a missing occurrence |
| BasicExpression.EvalDefined | QBasic/basic/Expression.cpp:7-11 | when every occurrence is defined, evaluation never fails with an undefined variable |
| BasicExpression.EvalFrame | QBasic/basic/Expression.hpp:104-122 | two contexts that agree on the tree's variables give the same evaluation |
| BasicExpression.EvalTotal | QBasic/basic/Expression.hpp:104-122 | a tree without /, MOD and ** over defined variables always evaluates |
| BasicExpression.EvalExamples | QBasic/basic/Expression.hpp:104-122 | 1-2-3 is -4, 2**3**2 is 512, -7/2 is -3 (truncation), 1/0 + X fails on "0" before X is read, X + Y with only X fails on Y after reading X |
| BasicError.Where | QBasic/basic/Error.hpp:18-19 | " in expression '...'" when there is an expression text, else " in statement '...'" when there is a statement text, else nothing |
| BasicError.ParseError.Format | QBasic/basic/Error.hpp:15-70 | every parse error message starts with "[PARSE ERROR] " |
| BasicError.RuntimeError.Format | QBasic/basic/Error.hpp:73-110 | every runtime error starts with "[RUNTIME ERROR] ", the end-of-program and input-request messages with "[RUNTIME INFO] ", and only MsgPrint prints nothing |
| BasicError.HeadsDiffer | QBasic/basic/Error.hpp:10-12 | no text starts with two of the three message heads |
| BasicError.FormatTellsClass | QBasic/basic/Error.hpp:101-133 | a parse error and a runtime error never print the same text, and a non-empty runtime text is a message exactly when it lacks the runtime error head |
| BasicContext.Bump | QBasic/basic/Context.hpp:40 | ++m[k] on a uint32_t counter map: k's count goes up by one (wrapping), a missing key counting as 0, and no other count changes |
| BasicContext.ReadVar | QBasic/basic/Context.hpp:36-42 | succeeds exactly for a defined name, gives its value and bumps only its use count; an undefined name gives ErrUndefinedVariable and changes nothing |
| BasicContext.SetVar | QBasic/basic/Context.hpp:43 | the variable is inserted or overwritten, every other variable and the rest of the context unchanged |
| BasicContext.Jump | QBasic/basic/Context.hpp:47-52 | the outcome is the program's CheckLine; on success the line becomes current and only its execution count goes up, on failure nothing changes |
| BasicContext.GotoNext | QBasic/basic/Context.hpp:53-57 | fails with MsgEndOfProgram, changing nothing, exactly when no line follows the current one; else jumps to the least line after it |
| BasicContext.GotoBranch | QBasic/basic/Context.hpp:58-61 | the branch count of the current line goes up even when the jump then fails; the outcome is the target's CheckLine |
| BasicContext.Enqueue | QBasic/basic/Context.hpp:63 | the string joins the back of the input queue, nothing else changes |
| BasicContext.Dequeue | QBasic/basic/Context.hpp:64-70 | the front of the queue and the rest of it when there is input, else MsgRequestInput with nothing changed |
| BasicContext.Emit | QBasic/basic/Context.hpp:73-76 | the text and a newline are appended to the output buffer, nothing else changes |
| BasicContext.DropNewline | QBasic/basic/Context.hpp:79-80 | one trailing newline is removed when there is one, otherwise the text is kept |
| BasicContext.Flush | QBasic/basic/Context.hpp:77-83 | the output buffer is left empty and nothing else changes |
| BasicContext.CreateCtx | QBasic/basic/Context.hpp:26-34 | fails with MsgEndOfProgram exactly for an empty program, else a fresh context at the least line, counted once |
| BasicContext.ReadAfterSet | QBasic/basic/Context.hpp:36-43 | a read after SetVariable returns the value set |
| BasicContext.ReadOtherAfterSet | QBasic/basic/Context.hpp:36-43 | SetVariable does not change what a read of another variable returns |
| BasicContext.QueueOrder | QBasic/basic/Context.hpp:63-70 | the input queue is first in, first out |
| BasicContext.PushAll | QBasic/basic/Context.hpp:73-76 | pushing several lines changes only the output buffer |
| BasicContext.PushAllOutputs | QBasic/basic/Context.hpp:73-76 | pushing lines onto an empty buffer leaves the lines joined by newlines, with one newline after the last |
| BasicContext.PopAfterPushes | QBasic/basic/Context.hpp:73-83 | popping after pushing lines onto an empty buffer gives the lines joined by newlines |
| BasicContext.Context.constructor | QBasic/basic/Context.hpp:15-23 | no variables, line -1 (2^32 - 1), no input or output, not terminated, all counts zero |
| BasicContext.Context.ReadVariable | QBasic/basic/Context.hpp:36-42 | result and new state are those of ReadVar |
| BasicContext.Context.SetVariable | QBasic/basic/Context.hpp:43 | the new state is SetVar's |
| BasicContext.Context.GotoLine | QBasic/basic/Context.hpp:47-52 | result and new state are those of Jump |
| BasicContext.Context.NextLine | QBasic/basic/Context.hpp:53-57 | result and new state are those of GotoNext |
| BasicContext.Context.GotoBranchLine | QBasic/basic/Context.hpp:58-61 | result and new state are those of GotoBranch |
| BasicContext.Context.PushInput | QBasic/basic/Context.hpp:63 | the new state is Enqueue's |
| BasicContext.Context.PopInput | QBasic/basic/Context.hpp:64-70 | result and new state are those of Dequeue |
| BasicContext.Context.HaveInput | QBasic/basic/Context.hpp:71 | true exactly when a PopInput would succeed |
| BasicContext.Context.PushOutput | QBasic/basic/Context.hpp:73-76 | the new state is Emit's |
| BasicContext.Context.PopOutputs | QBasic/basic/Context.hpp:77-83 | the text and new state are those of Flush |
| BasicContext.Context.Terminate | QBasic/basic/Context.hpp:85 | only the terminated flag changes, to true |
| BasicLines.MinLine | QBasic/basic/Program.hpp:23 | the smallest line number of a non-empty set: in the set and at most every member |
| BasicLines.Ascending | QBasic/basic/Program.hpp:63 | the line numbers of a set in strictly increasing order, each once: the order a std::map is walked in |
| BasicLines.FirstLine | QBasic/basic/Program.hpp:19-24 | MsgEndOfProgram exactly for an empty program, else the least line |
| BasicLines.NextLine | QBasic/basic/Program.hpp:25-33 | MsgEndOfProgram exactly when no line is greater than l, else the least line greater than l (upper_bound) |
| BasicLines.CheckLine | QBasic/basic/Program.hpp:34-42 | succeeds exactly for a line of the program; fails with MsgEndOfProgram on an empty program and ErrUndefinedLine otherwise |
| BasicLines.StatementAt | QBasic/basic/Program.hpp:43-51 | succeeds exactly for a line of the program, with its statement, and fails as CheckLine does |
| BasicLines.Pairs | QBasic/basic/Program.hpp:63 | each key paired with what the map holds at it, in the keys' order |
| BasicLines.Entries | QBasic/basic/Program.hpp:63 | one entry per line, each holding that line's statement, in strictly increasing line order |
| BasicLines.EntryOf | QBasic/basic/Program.hpp:63 | every line of the program has an entry |
| BasicLines.FirstIsFirstEntry | QBasic/basic/Program.hpp:19-24 | the first line of a non-empty program is the line of its first entry |
| BasicLines.NextIsSuccessor | QBasic/basic/Program.hpp:25-33 | the next line after an entry's line is the following entry's line |
| BasicLines.NextAfterLast | QBasic/basic/Program.hpp:25-33 | the last entry's line has no next line |
| BasicProgram.Listing | QBasic/basic/Program.hpp:61-66 | the listing of entries in order, one line each; ListingStep and Program.Format state it |
| BasicProgram.Trees | QBasic/basic/Program.hpp:68-73 | the trees of entries in order; TreesStep and Program.FormatAST state it |
| BasicProgram.ListingStep | QBasic/basic/Program.hpp:61-66 | listing one more entry appends that entry's line |
| BasicProgram.TreesStep | QBasic/basic/Program.hpp:68-73 | printing one more entry's tree appends that tree |
| BasicProgram.ListingSplit | QBasic/basic/Program.hpp:61-66 | a listing is its first entry's line followed by the listing of the rest |
| BasicProgram.ListingFirst | QBasic/basic/Program.hpp:19-24 | a program's listing starts with the line of GetFirstLine |
| BasicProgram.Program.constructor | QBasic/basic/Program.hpp:17 | Program::Create makes an empty program |
| BasicProgram.Program.InsertStatement | QBasic/basic/Program.hpp:53-56 | the line gets the statement, replacing any old one; a null statement leaves the program as it was |
| BasicProgram.Program.EraseStatement | QBasic/basic/Program.hpp:57 | exactly that line is removed, if present |
| BasicProgram.Program.Clear | QBasic/basic/Program.hpp:59 | the program is left without lines |
| BasicProgram.Program.Format | QBasic/basic/Program.hpp:61-66 | the loop builds each line's number, a space, the statement and a newline, in ascending line order |
| BasicProgram.Program.FormatAST | QBasic/basic/Program.hpp:68-73 | the loop builds each line's number and statement tree, in ascending line order; a GOTO's tree shows its target line's execution count, as StmtGoto::FormatAST does |
| BasicProgram.InsertLookup | QBasic/basic/Program.hpp:43-56 | after an insert the line holds the new statement and every other line keeps what it had, or stays undefined |
| BasicProgram.EraseLookup | QBasic/basic/Program.hpp:43-57 | after an erase the line is gone and every other line keeps what it had |
| BasicStatement.Keyword | QBasic/basic/Statement.hpp:15-85 | kKeyWord of each kind; KeywordsDistinct states the seven are different |
| BasicStatement.Text | QBasic/basic/Statement.hpp:15-85 | the text each kind lists after its keyword; KeywordOfFormat and FormatTellsKind read the kind back from it |
| BasicStatement.FormatStmt | QBasic/basic/Statement.hpp:101-103 | Statement::Format, the keyword, a space and the text; FormatTellsKind states that equal listings have equal keywords |
| BasicStatement.TreeText | QBasic/basic/Statement.cpp:77-106 | each kind's FormatAST; TreeTextLines counts its lines and GotoTreeShowsTarget states that a GOTO shows its target's count |
| BasicStatement.GotoTreeShowsTarget | QBasic/basic/Statement.cpp:93-95 | the tree of a GOTO does not depend on the line it stands on, and with statistics it starts with the target line's execution count |
| BasicStatement.FormatStmtAST | QBasic/basic/Statement.hpp:104-110 | Statement::FormatAST; FormatStmtASTLines states its number of lines |
| BasicStatement.KeywordsDistinct | QBasic/basic/Statement.hpp:15-80 | every statement kind has one of the seven keywords REM, INPUT, PRINT, LET, GOTO, IF, END, and the seven are pairwise different |
| BasicStatement.FormatEnd | QBasic/basic/Statement.hpp:85 | END lists as "END " with the space before its empty body |
| BasicStatement.FormatLetExample | QBasic/basic/Statement.hpp:52 | LET X = 1 + 2 lists as "LET X = 1 + 2" |
| BasicStatement.FormatGotoExample | QBasic/basic/Statement.hpp:62 | GOTO 20 lists as "GOTO 20" |
| BasicStatement.FormatIfExample | QBasic/basic/Statement.hpp:74-76 | IF X < 3 THEN 40 lists as "IF X < 3 THEN 40" |
| BasicStatement.KeywordOfFormat | QBasic/basic/Statement.hpp:101-103 | a listing starts with its statement's keyword, and the keyword can be read back from it |
| BasicStatement.FormatTellsKind | QBasic/basic/Statement.hpp:101-103 | two statements whose listings are equal have the same keyword |
| BasicStatement.FalseCount | QBasic/basic/Statement.cpp:99-100 | the false count is the execution count minus the branch count in uint32_t arithmetic, and the plain difference when the branches do not exceed the executions |
| BasicStatement.DecimalSingleLine | QBasic/basic/Statement.cpp:78-79 | a printed count holds no line break |
| BasicStatement.StatsSingleLine | QBasic/basic/Statement.cpp:78-101 | the [execute:], [use:] and [true:] [false:] annotations hold no line break |
| BasicStatement.HeadSingleLine | QBasic/basic/Statement.hpp:107 | the keyword and its space hold no line break |
| BasicStatement.NameLine | QBasic/basic/Statement.cpp:84 | the indented line of a variable name and its use count is one line |
| BasicStatement.NumberLine | QBasic/basic/Statement.cpp:94 | the indented line of a line number is one line |
| BasicStatement.TreeTextLines | QBasic/basic/Statement.cpp:80-106 | each kind's tree text has the number of lines its shape gives: one per child node, name, comparator or target, plus the head |
| BasicStatement.IfLines | QBasic/basic/Statement.cpp:96-105 | an IF's tree has 3 lines plus one per node of each side |
| BasicStatement.FormatStmtASTLines | QBasic/basic/Statement.hpp:104-110 | a statement's tree text has exactly TreeLines lines |
| BasicStmtParser.FirstFrom | QBasic/basic/StmtParser.cpp:78-82 | the first index at or after i whose text is one of the keys, or None when no later text is one |
| BasicStmtParser.LastBelow | QBasic/basic/StmtParser.cpp:93-97 | the last index strictly between lo and hi whose text is the key, or None when there is none |
| BasicStmtParser.ParseRem | QBasic/basic/StmtParser.cpp:32-35 | REM always succeeds with a comment |
| BasicStmtParser.ParseInput | QBasic/basic/StmtParser.cpp:36-42 | a parsed INPUT is an INPUT statement |
| BasicStmtParser.ParsePrint | QBasic/basic/StmtParser.cpp:43-46 | a parsed PRINT is a PRINT statement; PrintIff ties its expression to the parse of the tokens after the keyword |
| BasicStmtParser.ParseLet | QBasic/basic/StmtParser.cpp:47-66 | a parsed LET is a LET statement |
| BasicStmtParser.ParseLetParts | QBasic/basic/StmtParser.cpp:58-65 | a LET that succeeds has its "=" third and the single variable token before it as its name |
| BasicStmtParser.ParseGoto | QBasic/basic/StmtParser.cpp:67-73 | a parsed GOTO is a GOTO statement |
| BasicStmtParser.ParseIf | QBasic/basic/StmtParser.cpp:74-116 | a parsed IF is an IF statement |
| BasicStmtParser.ParseIfParts | QBasic/basic/StmtParser.cpp:104-115 | an IF that succeeds has its comparator character from the comparator token, at least one token on each side, THEN second to last and the digit target last, whose value wraps modulo 2^32 |
| BasicStmtParser.ParseEnd | QBasic/basic/StmtParser.cpp:117-121 | END succeeds exactly when nothing follows the keyword |
| BasicStmtParser.ParseStatement | QBasic/basic/StmtParser.cpp:8-30 | no tokens give ErrEmptyStmt |
| BasicStmtParser.ParsedKeyword | QBasic/basic/StmtParser.cpp:16-23 | a parsed statement's keyword is its first token |
| BasicStmtParser.RemComment | QBasic/basic/StmtParser.cpp:32-35 | for the tokens of one line, REM's comment is the line's text from the second token's start to the last token's end |
| BasicStmtParser.InputIff | QBasic/basic/StmtParser.cpp:36-42 | INPUT succeeds with variable x exactly on the keyword followed by one token x that is a variable name |
| BasicStmtParser.GotoIff | QBasic/basic/StmtParser.cpp:67-73 | GOTO succeeds with n exactly on the keyword followed by one digit token whose value modulo 2^32 is n |
| BasicStmtParser.EndIff | QBasic/basic/StmtParser.cpp:117-121 | END succeeds exactly alone, and otherwise fails naming the second token |
| BasicStmtParser.LetShape | QBasic/basic/StmtParser.cpp:47-66 | a parsed LET has "=" third, the single variable name before it and the parsed expression after it |
| BasicStmtParser.LetRightFirst | QBasic/basic/StmtParser.cpp:58-62 | a LET whose right side fails reports that error, before any complaint about the left side |
| BasicStmtParser.FirstAt | QBasic/basic/StmtParser.cpp:78-82 | an index past only non-keys and holding a key is the one FirstFrom finds |
| BasicStmtParser.IfLeftFirst | QBasic/basic/StmtParser.cpp:104-108 | an IF whose left expression fails reports that error, whatever is wrong after it |
| BasicStmtParser.IfMissing | QBasic/basic/StmtParser.cpp:83-84 | an IF without a comparator after the keyword reports the missing "<, =, >" |
| BasicStmtParser.NoneFrom | QBasic/basic/StmtParser.cpp:78-82 | FirstFrom finds nothing where no text is a key |
| BasicStmtParser.NotKeyword | QBasic/basic/StmtParser.cpp:25-26 | a first token that is no keyword is reported as an invalid token, with the statement's text |
| BasicStmtParser.IfDispatch | QBasic/basic/StmtParser.cpp:16-28 | a statement parsed as an IF began with IF and went through the IF grammar |
| BasicStmtParser.IfShape | QBasic/basic/StmtParser.cpp:74-116 | a parsed IF has at least six tokens, ends in THEN and a digit target whose value wraps modulo 2^32, and compares with =, < or > |
| BasicStmtParser.CmpChar | QBasic/basic/StmtParser.cpp:79-88 | the comparator character is the whole comparator token |
| BasicStmtParser.GotoRoundTrip | QBasic/basic/StmtParser.cpp:67-73 | "GOTO 20" parses to GOTO 20, whose listing is that text again |
| BasicStmtParser.InputDigitRefused | QBasic/basic/StmtParser.cpp:37-39 | "INPUT 7" is refused with ErrInvalidVariable naming "7" |
| BasicStmtParser.FindFirst | QBasic/basic/StmtParser.cpp:49-53 | the forward loop finds what FirstFrom specifies: the first key after the keyword |
| BasicStmtParser.FindLast | QBasic/basic/StmtParser.cpp:93-97 | the backward loop finds what LastBelow specifies: the last key after lo |
| BasicStmtParser.ParseLetTokens | QBasic/basic/StmtParser.cpp:47-66 | StmtLet::Parse gives what ParseLet specifies |
| BasicStmtParser.ParseLetPartsTokens | QBasic/basic/StmtParser.cpp:58-65 | the right side and the variable are parsed as ParseLetParts specifies |
| BasicStmtParser.ParseIfTokens | QBasic/basic/StmtParser.cpp:74-116 | StmtIf::Parse gives what ParseIf specifies |
| BasicStmtParser.ParseIfPartsTokens | QBasic/basic/StmtParser.cpp:104-115 | the expressions and the target are parsed as ParseIfParts specifies |
| BasicStmtParser.ParseInputTokens | QBasic/basic/StmtParser.cpp:36-42 | StmtInput::Parse gives what ParseInput specifies |
| BasicStmtParser.PrintIff | QBasic/basic/StmtParser.cpp:43-46 | a PRINT statement with expression e is parsed exactly when the tokens after the keyword parse into e; otherwise their error is passed on unchanged |
| BasicStmtParser.ParsePrintTokens | QBasic/basic/StmtParser.cpp:43-46 | StmtPrint::Parse gives what ParsePrint specifies |
| BasicStmtParser.ParseGotoTokens | QBasic/basic/StmtParser.cpp:67-73 | StmtGoto::Parse gives what ParseGoto specifies |
| BasicStmtParser.ParseStmt | QBasic/basic/StmtParser.cpp:8-30 | Statement::Parse gives what ParseStatement specifies |
| BasicExprParser.ClassifyText | QBasic/basic/ExprParser.cpp:47-74 | a text becomes the number its digits spell, the variable it names, the unary or binary operator it spells (unary exactly when an operator is expected there), a bracket run of its length, or an invalid token naming it |
| BasicExprParser.Classify | QBasic/basic/ExprParser.cpp:16-75 | the pre-pass over the texts; ClassifyTokens proves the loops equal to it |
| BasicExprParser.Shift | QBasic/basic/ExprParser.cpp:117-135 | one item of the main loop; StepToken proves the loop body equal to it |
| BasicExprParser.RunItems | QBasic/basic/ExprParser.cpp:116-136 | the main loop over the first n items; RunTokens and RunKeepsOrder state it |
| BasicExprParser.Finish | QBasic/basic/ExprParser.cpp:138-156 | the final reduction and the checks after it; FinishStacks and FinishKeepsOrder state it |
| BasicExprParser.ParseUnchecked | QBasic/basic/ExprParser.cpp:10-157 | Expression::Parse as written; JuxtaposedOperandsReordered shows the tree it builds for "7 + 5 (X *)" |
| BasicExprParser.ParseTexts | QBasic/basic/ExprParser.cpp:10-157 | keeps every error and every tree of the parse as written, and refuses a tree exactly when the items hold an operand or '(' directly after an operand or ')', naming that token |
| BasicExprParser.BinaryOfText | QBasic/basic/ExprParser.cpp:62-64 | the binary operator chosen for an operator text has that text as its symbol |
| BasicExprParser.ClassifyToken | QBasic/basic/ExprParser.cpp:47-74 | a token becomes a number exactly from digits, with their value, a variable from a variable name, a unary operator only in unary position and a binary one only elsewhere, each with its own symbol, or a bracket run of its length; anything else is ErrInvalidToken naming it |
| BasicExprParser.ClassifyPrefix | QBasic/basic/ExprParser.cpp:47-74 | the items of the first n tokens, each what ClassifyToken gives, bracket runs of positive length; or the first invalid token's error |
| BasicExprParser.Reduce | QBasic/basic/ExprParser.cpp:80-114 | make_new_expr pops only from the top of the pending stack and stops at a marker, an empty stack or an entry that does not bind tightly enough (>= when asso_equal, > otherwise); a missing operand is ErrNoOperand |
| BasicExprParser.Markers | QBasic/basic/ExprParser.cpp:119-121 | a '(' run of n characters pushes n markers |
| BasicExprParser.CheckAdjacency | QBasic/basic/ExprParser.cpp:116-136 | succeeds exactly when no operand or '(' directly follows an operand or ')'; otherwise names such a token |
| BasicExprParser.PoppedKeepsOrder | QBasic/basic/ExprParser.cpp:84-110 | one pop combines neighbouring trees in place or moves the top operand across, so the operands keep their order |
| BasicExprParser.ReduceKeepsOrder | QBasic/basic/ExprParser.cpp:80-114 | make_new_expr keeps the operand order, and below INT_MAX it leaves no operand pending |
| BasicExprParser.CloseKeepsOrder | QBasic/basic/ExprParser.cpp:122-128 | closing brackets keeps the operand order and leaves no operand pending |
| BasicExprParser.ShiftOperand | QBasic/basic/ExprParser.cpp:130-134 | nothing binds more tightly than an operand, so pushing one pops nothing |
| BasicExprParser.PushOperandKeepsOrder | QBasic/basic/ExprParser.cpp:130-134 | pushing an operand, with no operand pending before it, appends it to the operands in order |
| BasicExprParser.PushOperatorKeepsOrder | QBasic/basic/ExprParser.cpp:130-134 | pushing an operator first pops the pending operand, so none stays pending |
| BasicExprParser.ShiftKeepsOrder | QBasic/basic/ExprParser.cpp:116-136 | one item of the main loop keeps the order invariant when it is not juxtaposed to the item before it |
| BasicExprParser.RunKeepsOrder | QBasic/basic/ExprParser.cpp:116-136 | the main loop over items without juxtaposition keeps the order invariant |
| BasicExprParser.FinishKeepsOrder | QBasic/basic/ExprParser.cpp:138-156 | the single tree left at the end holds every operand of the stacks, in order |
| BasicExprParser.ParseKeepsOperandOrder | QBasic/basic/ExprParser.cpp:10-157 | on success the operands of the parsed tree, read left to right, are exactly the operand tokens of the input, in input order |
| BasicExprParser.ClassifyPrefixSticky | QBasic/basic/ExprParser.cpp:72-73 | once the pre-pass fails at a token, every longer prefix fails with the same error |
| BasicExprParser.CheckAdjacencySticky | QBasic/basic/ExprParser.cpp:116-136 | once the adjacency check fails, every longer prefix fails with the same error |
| BasicExprParser.CloseBracketsSticky | QBasic/basic/ExprParser.cpp:123-128 | once closing brackets fails, closing more fails with the same error |
| BasicExprParser.RunItemsSticky | QBasic/basic/ExprParser.cpp:116-136 | once the main loop fails, running further fails with the same error |
| BasicExprParser.ParseFrom | QBasic/basic/ExprParser.cpp:116-157 | once the pre-pass and the adjacency check pass, the parse is what the final reduction makes of the main loop's stacks, or the main loop's error |
| BasicExprParser.MakeNewExpr | QBasic/basic/ExprParser.cpp:80-114 | the while loop gives what Reduce specifies |
| BasicExprParser.PendingOf | QBasic/basic/ExprParser.cpp:130-134 | an operand or operator item pushes an entry that is not a marker |
| BasicExprParser.FindEmptyPair | QBasic/basic/ExprParser.cpp:20-22 | the scan is true exactly when a token ending in '(' is followed by one starting with ')' |
| BasicExprParser.ClassifyOne | QBasic/basic/ExprParser.cpp:47-74 | matching one token against the expression kinds gives what ClassifyToken specifies |
| BasicExprParser.OperatorFlags | QBasic/basic/ExprParser.cpp:25-37 | token_is_operator marks exactly the tokens that are an operator symbol |
| BasicExprParser.UnaryFlags | QBasic/basic/ExprParser.cpp:40-44 | token_is_unary_operator marks exactly the first token and any token after an operator or after a '(' run |
| BasicExprParser.ClassifyPrefixNext | QBasic/basic/ExprParser.cpp:47-74 | one more token either appends its item or its error is the error of the whole pre-pass |
| BasicExprParser.ClassifyItems | QBasic/basic/ExprParser.cpp:47-74 | the classification loop gives what ClassifyPrefix specifies for all tokens |
| BasicExprParser.ClassifyTokens | QBasic/basic/ExprParser.cpp:16-75 | the pre-pass loops give what Classify specifies |
| BasicExprParser.CheckJuxtaposition | QBasic/basic/ExprParser.cpp:116-136 | the adjacency scan gives what CheckAdjacency specifies |
| BasicExprParser.BracketItem | QBasic/basic/ExprParser.cpp:70-73 | a token starting with '(' or ')' is a bracket run of its length and any other token is not |
| BasicExprParser.RunItemsNext | QBasic/basic/ExprParser.cpp:116-136 | one more item of the main loop gives its stacks, or its error as the error of the whole loop |
| BasicExprParser.StepToken | QBasic/basic/ExprParser.cpp:117-135 | one token of the main loop does what Shift specifies |
| BasicExprParser.RunTokens | QBasic/basic/ExprParser.cpp:116-136 | the main loop gives what RunItems specifies |
| BasicExprParser.FinishStacks | QBasic/basic/ExprParser.cpp:138-156 | the final reduction and checks give what Finish specifies |
| BasicExprParser.ParseTokens | QBasic/basic/ExprParser.cpp:10-157 | no tokens give ErrEmptyExpr; every error the source's parse reports is reported unchanged, and every tree it builds is kept, except one built across an operand or '(' directly after an operand or ')', which is refused as an invalid token naming that token |
| BasicExprParser.Parse | QBasic/basic/ExprParser.cpp:10-157 | Expression::Parse, with the adjacency check run after a successful parse, gives what ParseTokens specifies |
| BasicExprParserExamples.ClassifyFrom | QBasic/basic/ExprParser.cpp:47-74 | the pre-pass succeeds with the given items when every token classifies to its item |
| BasicExprParserExamples.RunOperand | QBasic/basic/ExprParser.cpp:130-134 | an operand item is pushed as it is |
| BasicExprParserExamples.ShiftOpen | QBasic/basic/ExprParser.cpp:119-121 | a single '(' pushes one marker |
| BasicExprParserExamples.ParseSum | QBasic/basic/ExprParser.cpp:10-157 | "1 + 2 * 3" parses as 1 + (2 * 3), which evaluates to 7 |
| BasicExprParserExamples.DiffSecond | QBasic/basic/ExprParser.cpp:82 | the second '-' of "1 - 2 - 3" pops the first: a left-associative operator compares with >= |
| BasicExprParserExamples.ParseDifference | QBasic/basic/ExprParser.cpp:10-157 | "1 - 2 - 3" parses as (1 - 2) - 3, which evaluates to -4 |
| BasicExprParserExamples.PowSecond | QBasic/basic/ExprParser.cpp:83 | the second '**' of "2 ** 3 ** 2" does not pop the first: a right-associative operator compares strictly |
| BasicExprParserExamples.ParsePower | QBasic/basic/ExprParser.cpp:10-157 | "2 ** 3 ** 2" parses as 2 ** (3 ** 2), which evaluates to 512 |
| BasicExprParserExamples.NegExp | QBasic/basic/ExprParser.cpp:80-114 | the '**' of "- 2 ** 2" pops the pending minus first, so the minus applies to 2 alone |
| BasicExprParserExamples.ParseNegPower | QBasic/basic/ExprParser.cpp:10-157 | "- 2 ** 2" parses as (-2) ** 2, which evaluates to 4 |
| BasicExprParserExamples.ParseMissingOperand | QBasic/basic/ExprParser.cpp:140-144 | "1 +" fails with ErrNoOperand for '+' |
| BasicExprParserExamples.ParseUnclosed | QBasic/basic/ExprParser.cpp:140-142 | "( 1" fails with ErrBracketUnmatched |
| BasicExprParserExamples.ParseUnopened | QBasic/basic/ExprParser.cpp:123-126 | "1 )" fails with ErrBracketUnmatched |
| BasicExprParserExamples.ParseEmptyPair | QBasic/basic/ExprParser.cpp:20-22 | "( )" fails with ErrInvalidToken "()" |
| BasicExprParserExamples.JuxMul | QBasic/basic/ExprParser.cpp:80-83 | in "7 + 5 (X *)" the '*' pops the X but stops at the marker, above the pending 5 |
| BasicExprParserExamples.JuxClose | QBasic/basic/ExprParser.cpp:122-128 | the ')' then combines 7 and X, the two trees on the stack, into 7 * X |
| BasicExprParserExamples.JuxAsWritten | QBasic/basic/ExprParser.cpp:10-157 | the parser as written accepts "7 + 5 (X *)" |
| BasicExprParserExamples.JuxCorrected | QBasic/basic/ExprParser.cpp:116-136 | the corrected parser rejects "7 + 5 (X *)" at the '(' after the operand 5 |
| BasicExprParserExamples.JuxtaposedOperandsReordered | QBasic/basic/ExprParser.cpp:116-156 | the parser as written turns "7 + 5 (X *)" into (7 * X) + 5, whose operands read 7, X, 5 where the input has 7, 5, X |
| BasicFormatLex.LexTextsOf | QBasic/basic/Token.cpp:5-37 | the texts of Tokenize's spans are those of the reference cut of the line into words |
| BasicFormatLex.FormatRuns | QBasic/basic/Expression.hpp:123-150 | Format's text is the same as the one printed bracket run by bracket run |
| BasicFormatLex.PrintedRaw | QBasic/basic/Expression.hpp:123-150 | the tokens laid out for a tree, printed, are the tree's text inside its brackets |
| BasicFormatLex.PrintedVis | QBasic/basic/Expression.hpp:123-150 | dropping tokens without text does not change what is printed |
| BasicFormatLex.TextsPrinted | QBasic/basic/Token.cpp:5-37 | tokens whose texts are words that lex apart are cut back into exactly those texts |
| BasicFormatItems.GoodTree | QBasic/basic/Expression.hpp:123-150 | the shown tokens of a printable tree form a good chain: every token is a word and follows the one before as the pre-pass expects |
| BasicFormatItems.GoodLexes | QBasic/basic/Token.cpp:5-37 | the texts of a good chain are words that lex apart |
| BasicFormatItems.ProperReads | QBasic/basic/ExprParser.cpp:47-74 | the pre-pass turns each token of a printed tree back into its item |
| BasicFormatItems.PrepassGood | QBasic/basic/ExprParser.cpp:16-75 | the pre-pass and the adjacency check pass the texts of a good chain and give back its items |
| BasicFormatParse.RunFromAppend | QBasic/basic/ExprParser.cpp:116-136 | the main loop over two lists of items one after another is the loop over the second from where the first left off |
| BasicFormatParse.RunExpand | QBasic/basic/ExprParser.cpp:117-135 | splitting every bracket run into single brackets does not change the main loop's result |
| BasicFormatParse.ExpandRaw | QBasic/basic/Expression.hpp:123-150 | a tree's tokens, split into single brackets, are its fine items inside its outer brackets |
| BasicFormatParse.ReduceResidue | QBasic/basic/ExprParser.cpp:138-156 | reducing what the main loop left for a tree, when all of it pops, leaves the tree |
| BasicFormatParse.RunTree | QBasic/basic/ExprParser.cpp:116-136 | the main loop over a tree's items leaves its right spine pending and its left operands finished, on any stack that binds more loosely |
| BasicFormatParse.FinishTree | QBasic/basic/ExprParser.cpp:138-156 | the final reduction of what a tree left gives the tree |
| BasicFormatParse.LexFormat | QBasic/basic/Token.cpp:5-37 | Tokenize cuts Format's text of a printable tree into the texts of its shown tokens, a good chain |
| BasicFormatParse.ParseShown | QBasic/basic/ExprParser.cpp:10-157 | the parser reads the texts of a printable tree's tokens back into the tree |
| BasicFormatParse.FormatRoundTrip | QBasic/basic/ExprParser.cpp:10-157 | for every printable tree, the tokens Tokenize cuts from Format's text are valid and parse back into the same tree |
| BasicFormatParse.DoubleNegation | QBasic/basic/Expression.hpp:129-133 | where the round trip fails: - applied to -X prints as "--X", whose first token "--" the parser refuses as invalid |
| BasicMachine.Step | QBasic/basic/Machine.cpp:55-62 | one pass of the step loop; LoopStep and TerminationStops state what it does |
| BasicMachine.Loop | QBasic/basic/Machine.cpp:54-63 | the step loop with fuel; LoopStep, LoopMoreFuel and MoreFuel state it |
| BasicMachine.Exec | QBasic/basic/Machine.cpp:23-66 | Machine::execute; Machine.Execute is proved to give it |
| BasicMachine.Transfer | QBasic/basic/Machine.cpp:5-16 | a termination request is passed on and every queued input moves, in order, to the back of the context's queue; the machine's queue is left empty and nothing else changes |
| BasicMachine.LoopUnfold | QBasic/basic/Machine.cpp:54-63 | a loop with fuel left runs one step, then stops with its result or goes on with one less |
| BasicMachine.LoopStep | QBasic/basic/Machine.cpp:54-63 | one step of the loop either stops it with the step's result or leaves the loop from the step's new state |
| BasicMachine.LoopMoreFuel | QBasic/basic/Machine.cpp:54-63 | more fuel does not change a loop that already stopped |
| BasicMachine.TerminationStops | QBasic/basic/Machine.cpp:55-58 | a termination request stops the run with ErrTerminate before any statement runs, once the inputs have been transferred |
| BasicMachine.TerminatedStaysStopped | QBasic/basic/Machine.cpp:57-58 | once the context is terminated every later run stops at once, with the line and the variables unchanged |
| BasicMachine.MoreFuel | QBasic/basic/Machine.cpp:54-63 | more fuel does not change a run that already stopped |
| BasicMachine.SumProgramRuns | QBasic/basic/Machine.cpp:23-66 | a LET, PRINT, END program run from the start prints 3 and pauses on MsgPrint with line 20 current; resumed, it reaches END |
| BasicMachine.Machine.constructor | QBasic/basic/Machine.hpp:35-38 | a new machine has no termination request and no queued input |
| BasicMachine.Machine.Terminate | QBasic/basic/Machine.hpp:57 | only the termination request is set |
| BasicMachine.Machine.PushInput | QBasic/basic/Machine.hpp:58-61 | the string joins the back of the machine's queue and nothing else changes |
| BasicMachine.Machine.TransferContextData | QBasic/basic/Machine.cpp:5-16 | nothing happens without a context; otherwise the machine and the context change as Transfer specifies |
| BasicMachine.Machine.StepOnce | QBasic/basic/Machine.cpp:55-62 | one pass of the loop changes the machine and the context as the step function specifies |
| BasicMachine.Machine.StepLoop | QBasic/basic/Machine.cpp:54-63 | the while loop ends in the result and state Loop specifies for any step function that agrees with Step on this program |
| BasicMachine.Machine.RunLoop | QBasic/basic/Machine.cpp:48-63 | a context is created when there is none, then the loop runs; the result, the machine and the context are those Exec specifies |
| BasicMachine.Machine.Execute | QBasic/basic/Machine.cpp:23-66 | the result and state are those Exec specifies, and the completion callback runs exactly once, on whichever path the loop returns |
| BasicMachine.Machine.GetResult | QBasic/basic/Machine.hpp:43-48 | one last transfer into the context the loop hands back |
| BasicRun.BumpAllConcat | QBasic/basic/Context.hpp:40 | counting the reads of two traces one after the other is counting their concatenation |
| BasicRun.BumpAllCounts | QBasic/basic/Context.hpp:40 | a variable that is not read keeps its use count |
| BasicRun.EvalIn | QBasic/basic/Expression.cpp:7-11 | evaluation against a context gives Eval's result and changes only the use counts |
| BasicRun.EvalCountsOnlyOccurrences | QBasic/basic/Expression.cpp:7-11 | a variable outside the tree keeps its use count |
| BasicRun.Evaluate | QBasic/basic/Expression.hpp:104-122 | evaluation through Context::ReadVariable gives what EvalIn specifies |
| BasicRun.InputValue | QBasic/basic/Statement.cpp:16-35 | an input of no tokens or more than two is refused |
| BasicRun.DigitsRunToEnd | QBasic/basic/Token.cpp:17-25 | inside a run of digits every character merges with the next, so a token started there runs to the end |
| BasicRun.DigitsLexAlone | QBasic/basic/Token.cpp:5-37 | a string of digits is one token |
| BasicRun.SignedLex | QBasic/basic/Token.cpp:22 | a minus sign before digits is a token of its own |
| BasicRun.InputReadsPrinted | QBasic/basic/Statement.cpp:16-35 | what PRINT writes for a number, INPUT reads back as that number |
| BasicRun.Compare | QBasic/basic/Statement.cpp:64-70 | '<' and '=' compare as written and any other comparator as '>' |
| BasicRun.StepLandsOnLine | QBasic/basic/Statement.cpp:8-75 | after a statement that went on, the current line holds a statement |
| BasicRun.PrintOnlyFromPrint | QBasic/basic/Statement.cpp:42-48 | only PRINT reports MsgPrint, and when it does it has written output |
| BasicRun.EndKeepsContext | QBasic/basic/Statement.cpp:75 | END reports MsgEndOfProgram and changes nothing |
| BasicRun.InputWaits | QBasic/basic/Statement.cpp:14 | INPUT on an empty queue reports MsgRequestInput and changes nothing |
| BasicRun.InputConsumes | QBasic/basic/Statement.cpp:12-41 | INPUT consumes the front string whether or not it is accepted, fails with ErrInvalidInput exactly when it is refused, and stores an accepted value even if advancing then fails |
| BasicRun.InputNoEvalError | QBasic/basic/Statement.cpp:12-41 | INPUT never reports an evaluation error |
| BasicRun.PrintEvalError | QBasic/basic/Statement.cpp:44 | a PRINT whose expression fails changes nothing but use counts |
| BasicRun.LetEvalError | QBasic/basic/Statement.cpp:51 | a LET whose expression fails changes nothing but use counts |
| BasicRun.IfEvalError | QBasic/basic/Statement.cpp:62-63 | an IF whose expressions fail changes nothing but use counts |
| BasicRun.EvalErrorKeepsState | QBasic/basic/Statement.cpp:42-74 | an evaluation error comes only from PRINT, LET and IF, and stops them before any variable, line, input or output changes |
| BasicRun.LetAssigns | QBasic/basic/Statement.cpp:49-55 | LET stores its value before advancing, so the assignment survives an advance that fails with MsgEndOfProgram |
| BasicRun.PrintWrites | QBasic/basic/Statement.cpp:42-48 | PRINT writes the decimal value and a newline, then reports MsgPrint exactly when a next line exists, and MsgEndOfProgram otherwise |
| BasicRun.IfBranches | QBasic/basic/Statement.cpp:60-74 | a true IF counts a branch at the current line and jumps to its target; a false IF counts no branch and goes to a later line |
| BasicRun.RunInput | QBasic/basic/Statement.cpp:12-41 | StmtInput::Run; InputWaits and InputConsumes state it |
| BasicRun.RunPrint | QBasic/basic/Statement.cpp:42-48 | StmtPrint::Run; PrintWrites and PrintEvalError state it |
| BasicRun.RunLet | QBasic/basic/Statement.cpp:49-55 | StmtLet::Run; LetAssigns and LetEvalError state it |
| BasicRun.RunIf | QBasic/basic/Statement.cpp:60-74 | StmtIf::Run; IfBranches and IfEvalError state it |
| BasicRun.RunStmt | QBasic/basic/Statement.hpp:98-100 | Statement::Run for every kind; StepLandsOnLine, PrintOnlyFromPrint and EndKeepsContext state it |
| BasicRun.RunInputOn | QBasic/basic/Statement.cpp:12-41 | StmtInput::Run changes the context as RunInput specifies |
| BasicRun.RunPrintOn | QBasic/basic/Statement.cpp:42-48 | StmtPrint::Run changes the context as RunPrint specifies |
| BasicRun.RunLetOn | QBasic/basic/Statement.cpp:49-55 | StmtLet::Run changes the context as RunLet specifies |
| BasicRun.RunIfOn | QBasic/basic/Statement.cpp:60-74 | StmtIf::Run changes the context as RunIf specifies |
| BasicRun.RunStatement | QBasic/basic/Statement.hpp:98-100 | Statement::Run changes the context as RunStmt specifies |
| RowMajor.RowStart | QExam/Matrix.hpp:25 | the first index of a row is never negative on a board of non-negative width |
| RowMajor.RowStartIsProduct | QExam/Matrix.hpp:25 | the first index of row y is y * width |
| RowMajor.AreaIsProduct | QExam/Matrix.hpp:37 | the number of cells is width * height |
| RowMajor.RowStartMono | QExam/Matrix.hpp:25 | later rows start at least one row's width later |
| RowMajor.AreaPositive | QExam/Matrix.hpp:37-39 | a board has cells exactly when both sides are positive |
| ExamBoard.At | QExam/Matrix.hpp:57-60 | GetGrid and GetSafety; AtStored and AtOutside state them |
| ExamBoard.Neighbours | QExam/Matrix.cpp:34-41 | the four cells PROP visits; NeighboursAreAdjacent states them |
| ExamBoard.IdxInRange | QExam/Matrix.hpp:25-26 | the index of an in-bounds cell lies in [0, width * height) |
| ExamBoard.IdxInjective | QExam/Matrix.hpp:25-26 | two in-bounds cells with the same index are the same cell |
| ExamBoard.AtStored | QExam/Matrix.hpp:57-60 | on a board stored in full an in-bounds read is the stored value at the cell's index |
| ExamBoard.AtOutside | QExam/Matrix.hpp:57-60 | an out-of-bounds read gives the default: false for the grid, 0 for the safety |
| ExamBoard.CornerIdx | QExam/Matrix.cpp:56-84 | the start (0, 0) is stored first and the goal (width - 1, height - 1) last |
| ExamBoard.AtUpdate | QExam/Matrix.cpp:30 | writing one index changes the read of exactly the cell stored there |
| ExamBoard.NeighboursAreAdjacent | QExam/Matrix.cpp:34-41 | the four cells PROP visits are exactly the cells adjacent to c |
| ExamBoard.PrependWalk | QExam/Matrix.cpp:85-92 | a cell adjacent to the start of a walk extends it at the front |
| ExamBoard.WalkTail | QExam/Matrix.cpp:85-92 | dropping the first cell of a longer walk leaves a walk |
| ExamBoard.Toward | QExam/Matrix.cpp:34-41 | one step from a toward b is adjacent to a, stays on any board holding both and is one Manhattan step closer |
| ExamBoard.StraightWalk | QExam/Matrix.cpp:34-41 | a walk from a to b has their Manhattan distance plus one cells |
| ExamBoard.StraightWalkIsWalk | QExam/Matrix.cpp:34-41 | any two cells of the board are joined by a walk of their Manhattan distance |
| ExamBoard.Cells | QExam/Matrix.hpp:47-51 | ForEachCoord visits width * height cells, all in bounds |
| ExamBoard.Row | QExam/Matrix.hpp:49-50 | row y is visited from x = 0 to width - 1 |
| ExamBoard.CellsAreTheBoard | QExam/Matrix.hpp:47-51 | ForEachCoord visits exactly the cells of the board |
| ExamBoard.CellsInIndexOrder | QExam/Matrix.hpp:47-51 | the cell visited in position i is the one stored at index i |
| ExamSafety.Safety | QExam/Matrix.hpp:57-60 | the safety of a cell, INT_MAX outside; SafetyIsDistance states what it is |
| ExamSafety.SafetyMap | QExam/Matrix.cpp:8-44 | what the safety search establishes; SafetyIsDistance proves it is the distance to the nearest blocked cell |
| ExamSafety.ShapedAt | QExam/Matrix.cpp:9-12 | every safety value lies in [0, INT_MAX], and it is 0 exactly at a blocked cell |
| ExamSafety.NoShorterWalk | QExam/Matrix.cpp:8-44 | no walk from a cell to a blocked cell is shorter than the cell's safety |
| ExamSafety.WalkOfSafetyLength | QExam/Matrix.cpp:8-44 | following smaller neighbours from a finite cell reaches a blocked cell in exactly its safety's steps |
| ExamSafety.WithinReach | QExam/Matrix.hpp:37 | on a board of at most INT_MAX cells any two cells are fewer than INT_MAX steps apart |
| ExamSafety.SafetyIsDistance | QExam/Matrix.cpp:8-44 | the safety of a cell is finite exactly when the board has a blocked cell; then it is the length of a shortest walk to a blocked cell, else INT_MAX |
| ExamSafety.BlockedAndUnblocked | QExam/Matrix.cpp:9-12 | blocked cells have safety 0 and, with no blocked cell, every cell keeps INT_MAX |
| ExamPath.Route | QExam/Matrix.cpp:46-94 | a walk from the start to the goal through cells at least min_safety safe |
| ExamPath.ShortestRoute | QExam/Matrix.cpp:46-94 | a route no other route is shorter than, or the empty path when none exists; BackTrackIsShortest and UnseenGoalNoRoute establish it |
| ExamPath.BfsTree | QExam/Matrix.cpp:52-81 | what the breadth-first loop leaves; RouteIsSeen and GoalSeenIffRoute state it |
| ExamPath.RouteIsSeen | QExam/Matrix.cpp:58-81 | on a finished search every cell of a route is reached no deeper than its position on the route |
| ExamPath.GoalSeenIffRoute | QExam/Matrix.cpp:58-82 | the goal is reached when some route exists, and no route is shorter than the goal's depth |
| ExamPath.BackTrack | QExam/Matrix.cpp:84-91 | the way back from c has c's depth plus one cells, starts at c and ends at the start cell |
| ExamPath.BackTrackStep | QExam/Matrix.cpp:86-90 | the start cell ends the way back; any other cell is followed by its predecessor's way back |
| ExamPath.BackTrackIsWalk | QExam/Matrix.cpp:84-91 | every cell on the way back is safe enough and each is adjacent to the next |
| ExamPath.Reversed | QExam/Matrix.cpp:92 | std::reverse: the same cells in the opposite order |
| ExamPath.ReversedWalk | QExam/Matrix.cpp:92 | a reversed walk is a walk |
| ExamPath.BackTrackRoute | QExam/Matrix.cpp:82-93 | the reversed way back from a reached goal is a route from start to goal as long as the goal is deep |
| ExamPath.BackTrackIsShortest | QExam/Matrix.cpp:82-93 | on a finished search the reversed way back from a reached goal is a shortest route |
| ExamPath.UnseenGoalNoRoute | QExam/Matrix.cpp:82 | on a finished search that did not reach the goal, no route exists and the empty path is right |
| ExamPath.UnsafeStartNoRoute | QExam/Matrix.cpp:49-50 | when the start cell is not safe enough no route exists, so the empty path is right |
| ExamPath.SingleCellRoute | QExam/Matrix.cpp:46-93 | on a 1-by-1 board whose cell is safe enough the route is that one cell |
| ExamMatrix.SafetyUpdate | QExam/Matrix.cpp:30 | writing v at n's index changes the safety read at n alone |
| ExamMatrix.LowerShaped | QExam/Matrix.cpp:29-30 | lowering an unblocked cell to a value in [1, INT_MAX] keeps the safety map well shaped |
| ExamMatrix.LowerParents | QExam/Matrix.cpp:29-30 | lowering n to one more than its neighbour c, with c as its parent, keeps every finite cell's parent |
| ExamMatrix.LowerSettled | QExam/Matrix.cpp:29-31 | lowering a cell that is then queued leaves every other cell as settled as it was |
| ExamMatrix.SafetyInvLower | QExam/Matrix.cpp:29-31 | lowering n to one more than c and queueing it keeps the search's invariant |
| ExamMatrix.RelaxSafety | QExam/Matrix.cpp:26-33 | PROP keeps the invariant, leaves the expanded cell's value, leaves the neighbour at most one more than it, never raises a value, and queues only when it lowers one |
| ExamMatrix.BlockedInMembers | QExam/Matrix.cpp:15-18 | a cell is queued by the seeding exactly when it is listed and blocked |
| ExamMatrix.BlockedInStep | QExam/Matrix.cpp:16-17 | visiting one more cell queues it exactly when it is blocked |
| ExamMatrix.SeedsAreBlocked | QExam/Matrix.cpp:15-18 | the seeding queues exactly the blocked cells of the board |
| ExamMatrix.BlockedInConcat | QExam/Matrix.cpp:15-18 | seeding a concatenation of cells queues the seeds of each part, in order |
| ExamMatrix.SeedRow | QExam/Matrix.cpp:15-18 | the inner loop queues the blocked cells of row y, left to right |
| ExamMatrix.SeedQueue | QExam/Matrix.cpp:14-18 | the ForEachCoord loop queues the blocked cells in visiting order |
| ExamMatrix.SafetyInvStart | QExam/Matrix.cpp:9-18 | the initial values with the blocked cells queued satisfy the search's invariant |
| ExamMatrix.SafetyInvDone | QExam/Matrix.cpp:20 | once the queue is empty, the invariant is the safety map |
| ExamMatrix.TreeReach | QExam/Matrix.cpp:67-68 | reaching n from c, one step deeper than c, keeps the tree of predecessors |
| ExamMatrix.LinkedKept | QExam/Matrix.cpp:67-68 | a reached cell other than n keeps its link when only n changes |
| ExamMatrix.PathInvReach | QExam/Matrix.cpp:67-69 | reaching n from c, one step deeper, keeps the invariant, adds exactly n and keeps every other depth |
| ExamMatrix.RelaxPath | QExam/Matrix.cpp:64-71 | PROP keeps the invariant, reaches a safe neighbour no deeper than one step past the front, keeps the cells already reached, and queues only when it reaches a new one |
| ExamMatrix.PathInvStart | QExam/Matrix.cpp:52-56 | the state after queueing the start cell satisfies the invariant |
| ExamMatrix.ExpandSafety | QExam/Matrix.cpp:21-41 | one round of the loop keeps the invariant and lowers the sum of values or shortens the queue |
| ExamMatrix.SafetySearch | QExam/Matrix.cpp:8-44 | solve_safety leaves the safety map: every cell's distance to the nearest blocked cell |
| ExamMatrix.PathInvPop | QExam/Matrix.cpp:59-60 | taking the front cell off the queue moves the front to its depth and leaves it to be expanded |
| ExamMatrix.PathInvClose | QExam/Matrix.cpp:72-79 | once the expanded cell's safe neighbours are reached, it needs no exception in the invariant |
| ExamMatrix.ExpandPath | QExam/Matrix.cpp:59-80 | one round of the loop keeps the invariant and reaches a new cell or shortens the queue |
| ExamMatrix.PathSearch | QExam/Matrix.cpp:52-81 | the search leaves a breadth-first tree: each reached cell's predecessor is one step shallower, and every safe cell connected to the start is reached at its distance |
| ExamMatrix.TraceBack | QExam/Matrix.cpp:82-93 | the loop collects the way back from the goal and reverses it |
| ExamMatrix.RouteSearch | QExam/Matrix.cpp:46-94 | solve_path leaves a shortest route through safe enough cells, or the empty path when there is none |
| ExamMatrix.Resized | QExam/Matrix.hpp:37 | std::vector::resize to n keeps the first n values and pads with false |
| ExamMatrix.Matrix.constructor | QExam/Matrix.hpp:33-43 | the sides are clamped at zero, the grid is resized to their product and, when it is not empty, the safety map and a shortest route are computed |
| ExamMatrix.Matrix.SolveSafety | QExam/Matrix.cpp:8-44 | the safety field becomes the safety map and nothing else changes |
| ExamMatrix.Matrix.SolvePath | QExam/Matrix.cpp:46-94 | the path field becomes a shortest route, or empty, and nothing else changes |
| ExamInput.ProductIsMul | QExam/Matrix.hpp:69 | the repeated-addition product of the sides is width * height |
| ExamInput.ReadFields | QExam/Matrix.hpp:65-77 | height then width are the first two numbers read |
| ExamInput.ReadFieldsShape | QExam/Matrix.hpp:65-77 | reading succeeds exactly when width * height is an int that is not negative; then the next width * height numbers, nonzero meaning blocked, are the cells and the one after them the minimum safety |
| ExamInput.ReadWrite | QExam/Matrix.hpp:65-77 | reading back a written board gives the same fields, whatever follows it in the stream |
| ExamInput.ClampedArea | QExam/Matrix.hpp:34-37 | clamping the sides at zero keeps their product an int |
| ExamInput.Input | QExam/Matrix.hpp:65-77 | Matrix::Input builds the Matrix of the fields read, or none where the source's resize fails or the product overflows |
| ExamMatrix.Matrix.HavePath | QExam/Matrix.hpp:62 | on a solved matrix, HavePath holds exactly when some route from start to goal through safe enough cells exists |
| LinkGrid.IndexInRange | QLink/game/Grid.hpp:27-29 | a cell of the board is stored inside m_blocks, at (y - 1) * width + x - 1 |
| LinkGrid.IndexInjective | QLink/game/Grid.hpp:27-29 | two cells of the board are stored at different indices |
| LinkGrid.SetCell | QLink/game/Grid.hpp:31-34 | Set keeps the sides and the number of stored blocks |
| LinkGrid.SetGet | QLink/game/Grid.hpp:27-34 | after Set a Get of that cell gives the new block when the cell is on the board, and every other Get is unchanged |
| LinkGrid.RowJoin | QLink/game/Grid.cpp:38-49 | a clear stretch of a row up to an empty cell joins the clear stretch that continues from it |
| LinkGrid.ColumnJoin | QLink/game/Grid.cpp:50-61 | a clear stretch of a column up to an empty cell joins the clear stretch that continues from it |
| LinkGrid.StraightJoin | QLink/game/Grid.cpp:38-61 | two straight links along one row or one column through an empty cell make one straight link |
| LinkGrid.StraightSymmetric | QLink/game/Grid.cpp:43-44 | a straight link does not depend on the order of its ends, as the swap makes it |
| LinkGrid.Path2 | QLink/game/Grid.cpp:88-93 | a way with no inner joint is a straight link |
| LinkGrid.Path3 | QLink/game/Grid.cpp:95-109 | a way with one inner joint turns at an empty cell of the ring reached straight from both ends |
| LinkGrid.Path4 | QLink/game/Grid.cpp:111-139 | a way with two inner joints runs through two empty cells of the ring by three straight links |
| LinkGrid.PathShape | QLink/game/Grid.cpp:79-142 | every way has two, three or four joints, from c1 to c2 |
| LinkGrid.ThreeJointCanonical | QLink/game/Grid.cpp:95-109 | a way with one turn is straight or turns at one of the two corners IsLinked tries |
| LinkGrid.FourJointCanonical | QLink/game/Grid.cpp:111-139 | a way with two inner joints a, m is straight, turns at one of the two corners, or is a column detour at a's column or a row detour at a's row |
| LinkGrid.LinkPathCanonical | QLink/game/Grid.cpp:79-142 | every way with at most two turns between two blocks has one of the shapes IsLinked tries |
| LinkGrid.LinkableIffCanonical | QLink/game/Grid.cpp:79-142 | two cells match, that is hold the same block, are distinct, not walled in and joined by a way with at most two turns, exactly when they pass the checks of lines 81-86 and one tried shape joins them |
| LinkGrid.Reversed | QLink/game/Grid.cpp:79-142 | the joints in the opposite order |
| LinkGrid.ReversedPath | QLink/game/Grid.cpp:79-142 | a way read backwards is a way from c2 to c1 |
| LinkGrid.LinkableSymmetric | QLink/game/Grid.cpp:79-142 | matching does not depend on the order of the two blocks |
| LinkGrid.FirstColumnLeast | QLink/game/Grid.cpp:113-125 | the column scan finds the leftmost column detour from a given column on, or reports none from there |
| LinkGrid.FirstRowLeast | QLink/game/Grid.cpp:126-138 | the row scan finds the topmost row detour from a given row on, or reports none from there |
| LinkGrid.LinkJointsCanonical | QLink/game/Grid.cpp:79-142 | IsLinked reports joints exactly when the blocks pass its checks and one tried shape joins them |
| LinkGrid.ColumnJointsSome | QLink/game/Grid.cpp:113-125 | the first two-joint loop succeeds exactly when some column detour exists |
| LinkGrid.RowJointsSome | QLink/game/Grid.cpp:126-138 | the second two-joint loop succeeds exactly when some row detour exists |
| LinkGrid.LinkJointsPath | QLink/game/Grid.cpp:79-142 | the joints IsLinked reports form a way with at most two turns from c1 to c2 |
| LinkGrid.LinkJoints | QLink/game/Grid.cpp:79-142 | the joints IsLinked writes; LinkJointsMeaning and LinkJointsCanonical state them |
| LinkGrid.LinkJointsMeaning | QLink/game/Grid.cpp:79-142 | IsLinked reports joints exactly when the two blocks match, and the joints are a way between them |
| LinkGrid.FirstColumnIs | QLink/game/Grid.cpp:116-125 | the leftmost column detour is the one the scan finds |
| LinkGrid.FirstRowIs | QLink/game/Grid.cpp:129-138 | the topmost row detour is the one the scan finds |
| LinkGrid.PartnerFromMeaning | QLink/game/Grid.cpp:149-158 | the inner scan finds a block matching c1 at or after a cell in row-major order, or there is none |
| LinkGrid.SolutionFromMeaning | QLink/game/Grid.cpp:144-161 | the scan from a cell on finds a matching pair whose first block is at or after that cell and not below the second, or no such pair exists |
| LinkGrid.FirstSolution | QLink/game/Grid.cpp:144-161 | the pair HasSolution reports; FirstSolutionMeaning states it |
| LinkGrid.FirstSolutionMeaning | QLink/game/Grid.cpp:144-161 | HasSolution finds a pair exactly when two blocks of the board match, and the pair it finds matches with the first block in the upper row |
| LinkGrid.Reshuffled | QLink/game/Grid.cpp:29-33 | the board Shuffle leaves after its rounds; ReshuffledBlocks and ReshuffledSolvable state it |
| LinkGrid.ReshuffledBlocks | QLink/game/Grid.cpp:29-33 | shuffling keeps the sides and only rearranges the blocks |
| LinkGrid.ReshuffledSolvable | QLink/game/Grid.cpp:29-33 | the rounds stop at a board with a matching pair: if any round leaves one, the result has one |
| LinkGrid.HBoundReach | QLink/game/Grid.cpp:62-69 | a column of the ring is reachable empty along c's row exactly when it lies between the two bounds get_pos_h_bound returns |
| LinkGrid.VBoundReach | QLink/game/Grid.cpp:70-77 | a row of the ring is reachable empty along c's column exactly when it lies between the two bounds get_pos_v_bound returns |
| LinkGrid.ColumnDetourBounds | QLink/game/Grid.cpp:113-125 | a column detour exists exactly at the columns in both horizontal bounds, other than the blocks' own, that a clear column joins |
| LinkGrid.RowDetourBounds | QLink/game/Grid.cpp:126-138 | a row detour exists exactly at the rows in both vertical bounds, other than the blocks' own, that a clear row joins |
| LinkGrid.RingRow | QLink/game/Grid.cpp:166 | the first w' cells of a row of the ring |
| LinkGrid.RingRowAt | QLink/game/Grid.cpp:166 | the i-th of them is column i |
| LinkGrid.SpacesStep | QLink/game/Grid.cpp:167-168 | visiting one more cell adds it to the spaces exactly when it is empty and not excluded |
| LinkGrid.SpacesConcat | QLink/game/Grid.cpp:165-168 | the spaces of two lists of cells are the spaces of each, in order |
| LinkGrid.SpacesMembers | QLink/game/Grid.cpp:167 | a cell is a space of a list exactly when it is in the list, empty and not excluded |
| LinkGrid.RingRowsCover | QLink/game/Grid.cpp:165-166 | the loops of GetRandomSpace visit every cell of the first h' rows of the ring |
| LinkGrid.FreeCells | QLink/game/Grid.cpp:163-168 | the free cells GetRandomSpace counts, in its order; FreeCellsMembers states which they are |
| LinkGrid.FreeCellsMembers | QLink/game/Grid.cpp:163-168 | the free cells are exactly the empty, not excluded cells of the ring, the border included |
| LinkGrid.SpacesOfPrefix | QLink/game/Grid.cpp:171-174 | the spaces of a prefix of the visiting order are a prefix of the spaces |
| LinkGrid.RingRowsPrefix | QLink/game/Grid.cpp:165-166 | fewer rows visited give a prefix of the visiting order |
| LinkGrid.RingPrefix | QLink/game/Grid.cpp:171-172 | the cells up to (x, y) come first in the visiting order |
| LinkGrid.RingStep | QLink/game/Grid.cpp:165-166 | one more cell of a row extends the visiting order by that cell, and a full row moves on to the next |
| LinkGrid.RandomSpace | QLink/game/Grid.cpp:163-178 | the cell GetRandomSpace returns for a given draw; RandomSpaceFree states it is free |
| LinkGrid.RandomSpaceFree | QLink/game/Grid.cpp:163-178 | when there are free cells, fewer than 2^32, the cell drawn is empty, in the ring and not excluded |
| LinkGrid.CountStep | QLink/game/Grid.cpp:167-168 | the count grows by one when the cell visited is a space |
| LinkGrid.SpaceAt | QLink/game/Grid.cpp:173 | a free cell comes in the free list right after the spaces visited before it |
| LinkGrid.SpaceInList | QLink/game/Grid.cpp:173 | a space of a list follows, in the list's spaces, the spaces before it |
| LinkGrid.PrefixAt | QLink/game/Grid.cpp:173 | a sequence extended by c that is a prefix of another has c at that position |
| LinkGrid.CountRow | QLink/game/Grid.cpp:166-168 | the inner counting loop counts the spaces up to the end of row y |
| LinkGrid.CountSpaces | QLink/game/Grid.cpp:164-168 | the first loop of GetRandomSpace counts the free cells |
| LinkGrid.NthInRow | QLink/game/Grid.cpp:172-174 | the inner second loop returns the sample-th free cell when it lies in row y, or has counted the spaces up to the end of the row, no more than the sample |
| LinkGrid.NthSpace | QLink/game/Grid.cpp:171-177 | the second loop of GetRandomSpace returns the sample-th free cell counting from 0, or (0, 0) past the end |
| LinkGrid.Grid.constructor | QLink/game/Grid.hpp:13-16 | a grid before Initialize has no cells |
| LinkGrid.Grid.Initialize | QLink/game/Grid.cpp:6-11 | Initialize leaves the given sides and width * height empty cells |
| LinkGrid.Grid.Set | QLink/game/Grid.hpp:31-34 | Set replaces the block of a cell of the board, leaves a cell outside it and every other cell alone |
| LinkGrid.Grid.IsPosHLinked | QLink/game/Grid.cpp:38-49 | the result is true exactly when the cells share a row that is on the border or clear between them |
| LinkGrid.Grid.IsPosVLinked | QLink/game/Grid.cpp:50-61 | the result is true exactly when the cells share a column that is on the border or clear between them |
| LinkGrid.Grid.GetPosHBound | QLink/game/Grid.cpp:62-69 | the two ends of the empty stretch of c's row around c, within the ring |
| LinkGrid.Grid.GetPosVBound | QLink/game/Grid.cpp:70-77 | the two ends of the empty stretch of c's column around c, within the ring |
| LinkGrid.Grid.IsLinked | QLink/game/Grid.cpp:79-142 | joints are reported exactly when the two blocks match, and they are a way with at most two turns between them |
| LinkGrid.Grid.OneJoint | QLink/game/Grid.cpp:95-109 | the corner in c1's column is tried first, then the corner in c1's row |
| LinkGrid.Grid.TwoJointsColumn | QLink/game/Grid.cpp:113-125 | the first two-joint loop reports the leftmost column detour, or none |
| LinkGrid.Grid.TwoJointsRow | QLink/game/Grid.cpp:126-138 | the second two-joint loop reports the topmost row detour, or none |
| LinkGrid.Grid.FindPartner | QLink/game/Grid.cpp:149-158 | the inner two loops find the first block in row-major order from c1's row on that matches c1 |
| LinkGrid.Grid.HasSolution | QLink/game/Grid.cpp:144-161 | the first matching pair in scan order; none exactly when no two blocks match |
| LinkGrid.Grid.Shuffle | QLink/game/Grid.cpp:29-33 | the blocks are rearranged, the sides kept, and the hint is the board's first matching pair, if any |
| LinkGrid.Grid.GetRandomSpace | QLink/game/Grid.cpp:163-178 | the drawn one of the ring's empty cells that are not excluded, or (0, 0) when the draw is past them |
| LinkGridExamples.Empty | QLink/game/Grid.cpp:6-11 | the board Initialize leaves stores width * height blocks |
| LinkGridExamples.Board3Stored | QLink/GridTest.cpp:5-34 | the cells the tests set on a 3 x 3 board are stored at these indices |
| LinkGridExamples.Test1Match | QLink/GridTest.cpp:5-13 | two blocks of one column link straight; an empty cell and a border cell match nothing |
| LinkGridExamples.Test2Match | QLink/GridTest.cpp:15-23 | the blocks link with one turn |
| LinkGridExamples.Test3Match | QLink/GridTest.cpp:25-34 | with the column between them blocked, the blocks link round it through the border |
| LinkGridExamples.EmptyHasNoSolution | QLink/GridTest.cpp:39-40 | an empty board has no matching pair |
| LinkGridExamples.Test3HasSolution | QLink/GridTest.cpp:42-45 | with two blocks of one type set, there is a matching pair |
| LinkGridExamples.CrossBlocks | QLink/GridTest.cpp:47-51 | the last board stores blocks 1, 2, 2, 1 |
| LinkGridExamples.CrossCells | QLink/GridTest.cpp:47-51 | the cells of that board read as set |
| LinkGridExamples.CrossHasNoSolution | QLink/GridTest.cpp:47-52 | on the last board no two blocks match |
| LinkGridExamples.CrossPair | QLink/GridTest.cpp:47-52 | no shape joins two blocks of one type on that board |
| LinkGridExamples.CrossColumn | QLink/GridTest.cpp:47-52 | no column detour joins them |
| LinkGridExamples.CrossRow | QLink/GridTest.cpp:47-52 | no row detour joins them |
| LinkEffect.Ordinal | QLink/game/Effect.hpp:13 | the ordinal of an effect type is below __EFFECT_NUM__, five |
| LinkEffect.TypeAt | QLink/game/Effect.hpp:13 | casting an ordinal below five to EffectType and back gives the ordinal |
| LinkEffect.TypeAtOrdinal | QLink/game/Effect.hpp:13 | casting a type to its ordinal and back gives the type |
| LinkEffect.TimedTypes | QLink/game/Effect.hpp:31-61 | Hint, Freeze and Dizzy last (kDuration 10, 3, 10) and Plus1S and Shuffle act once; Freeze and Dizzy are the kExclude effects |
| LinkEffect.Cleared | QLink/game/Effect.hpp:88 | Clear leaves no time of any type |
| LinkEffect.Inserted | QLink/game/Effect.hpp:89-93 | Insert adds kDuration seconds to the type's counter, in uint32_t arithmetic, and leaves the other counters |
| LinkEffect.Ticked | QLink/game/Effect.hpp:101-115 | the counter change of EffectSet::Update for one type; TickedRemaining states it |
| LinkEffect.AfterSeconds | QLink/game/Effect.hpp:101-115 | a set after n passed seconds; AfterSecondsRemaining states when an effect runs out |
| LinkEffect.TickedRemaining | QLink/game/Effect.hpp:101-115 | updating one type takes one second off its counter when it is running and a second passed, and leaves every other counter |
| LinkEffect.AfterSecondsRemaining | QLink/game/Effect.hpp:101-115 | a timed effect runs out after exactly as many seconds as it has left; an untimed one keeps its counter |
| LinkEffect.FreshEffectLasts | QLink/game/Effect.hpp:89-115 | an effect picked with no time left stays running for exactly its kDuration seconds |
| LinkEffect.ActiveFromMembers | QLink/game/Effect.hpp:125-134 | from type k on, ForEach visits exactly the running timed types, each with its time left, in type order |
| LinkEffect.Active | QLink/game/Effect.hpp:125-134 | the types ForEach visits with their time left; ActiveMembers states them |
| LinkEffect.ActiveMembers | QLink/game/Effect.hpp:125-134 | ForEach visits exactly the running timed types with their time left, in type order, at most three |
| LinkEffect.ClearedInactive | QLink/game/Effect.hpp:88 | a cleared set has nothing running |
| LinkEffect.ForEach | QLink/game/Effect.hpp:125-134 | the callback is called for each running timed type with its time left, in type order |
| LinkEffect.GetCount | QLink/game/Effect.hpp:116-124 | the count is the number of running timed types, at most three |
| LinkTick.Tick | QLink/game/Game.cpp:36-124 | Game::do_update on a whole game; TickStopped and TickRuns state what a tick does and keeps |
| LinkTick.NewPos | QLink/game/Game.cpp:59-69 | the cell a player steps to, or ~0u when it does not move; NewPosStep states it |
| LinkTick.AfterPlace | QLink/game/Game.cpp:101-108 | the new effect block after one is picked up; PlaceFree states where it lands |
| LinkTick.AfterClock | QLink/game/Game.cpp:110-123 | the clock, the game over flag and the hint pair at the end of a tick; ClockRules states them |
| LinkTick.ClearedInputs | QLink/game/Game.cpp:126-130 | clear_update; Game.ClearUpdate is proved to give it, and GameRoundTrip shows a loaded game has these inputs cleared |
| LinkTick.AfterEnded | QLink/game/Effect.cpp:54-55 | Effect<t>::OnEnded: only the end of Hint changes the game, hiding the hint; Game.OnEnded is proved to give it |
| LinkTick.DrawInRange | QLink/game/Grid.cpp:170 | a fair draw on [0, n] is at most n |
| LinkTick.WithSet | QLink/game/Effect.cpp:7-19 | replacing one effect set keeps the board's sides, the players, the available effects, the effect block and the over and paused flags |
| LinkTick.AfterShuffle | QLink/game/Effect.cpp:38-52 | Shuffle's OnActive keeps the board's sides, the number of players, the available effects, the effect block and the flags |
| LinkTick.Relocated | QLink/game/Effect.cpp:44-51 | the player loop of Shuffle's OnActive keeps the number of players |
| LinkTick.AfterActive | QLink/game/Effect.cpp:33-54 | no OnActive changes the board's sides, the number of players, the available effects, the effect block or the flags |
| LinkTick.AfterHold | QLink/game/Effect.cpp:57-64 | no OnHold changes them either |
| LinkTick.AfterInsert | QLink/game/Effect.hpp:89-93 | Insert<t> keeps the board's sides, the number of players, the available effects, the effect block and the flags |
| LinkTick.AfterInsertOthers | QLink/game/Effect.cpp:12-18 | the kExclude loop keeps them |
| LinkTick.AfterAddEffect | QLink/game/Effect.cpp:7-26 | AddEffect keeps them |
| LinkTick.AfterUpdateType | QLink/game/Effect.hpp:103-113 | updating one type keeps them |
| LinkTick.AfterUpdateFrom | QLink/game/Effect.hpp:101-115 | EffectSet::Update keeps them |
| LinkTick.AfterEffectsFrom | QLink/game/Effect.cpp:27-31 | Effect<>::Update keeps them |
| LinkTick.AfterMove | QLink/game/Game.cpp:58-87 | a step keeps them |
| LinkTick.AfterPlayer | QLink/game/Game.cpp:52-93 | one pass of the player loop keeps them |
| LinkTick.AfterPlayersFrom | QLink/game/Game.cpp:52-93 | the whole player loop keeps them |
| LinkTick.AfterResets | QLink/game/Game.cpp:95-99 | the second player loop keeps the number of players |
| LinkTickFacts.NewPosStep | QLink/game/Game.cpp:59-69 | a player moves exactly when one of the steps its move asks for stays in the ring, and then by one cell of the ring |
| LinkTickFacts.MoveLinks | QLink/game/Game.cpp:72-79 | a link happens exactly when the player steps onto a block that matches its activated block; then both cells are emptied and nothing else, the score rises by one, the activation goes and the joints are a way between the two |
| LinkTickFacts.MoveWithoutLink | QLink/game/Game.cpp:59-86 | without a link the board and score stay: a step onto a block activates it, a step onto an empty cell goes there, and no step leaves the player as it was |
| LinkTickFacts.MoveFrame | QLink/game/Game.cpp:58-87 | a step changes only the board and the stepping player's position, activation, joints and score |
| LinkTickFacts.ResetsDropEmpty | QLink/game/Game.cpp:95-99 | after the second loop no activation lies on an empty cell, and the loop only drops activations |
| LinkTickFacts.PlaceFree | QLink/game/Game.cpp:101-108 | a new effect block is of an available type and, when there are free cells, lies on an empty cell of the ring no player stands on; nothing else changes, and nothing at all when the block was not picked |
| LinkTickFacts.ClockRules | QLink/game/Game.cpp:110-123 | a passed second takes one off a nonzero clock; the game is over at zero, or after a link that leaves no matching pair; otherwise after a link the hint pair matches; without a link the hint stays |
| LinkTickFacts.TickedFromRemaining | QLink/game/Effect.hpp:101-115 | the update from type k on takes one second off a running type from k on when a second passed |
| LinkTickFacts.PlayerStepsHeld | QLink/game/Effect.hpp:101-115 | updating a player's set ages its counters, then a held Freeze stops the move and a held Dizzy reverses it, Freeze first |
| LinkTickFacts.UpdateTypeCases | QLink/game/Effect.hpp:103-113 | one type of the update leaves an idle type alone, holds a type with time left after the second, and ends one that ran out |
| LinkTickFacts.UpdateTypeHolds | QLink/game/Effect.hpp:109-110 | a type with time left after the second holds on the player |
| LinkTickFacts.UpdateTypeEnds | QLink/game/Effect.hpp:111-112 | a type that runs out ends on the game |
| LinkTickFacts.UpdateTypeFrame | QLink/game/Effect.hpp:101-115 | updating a player's set changes no board, clock, hint pair, flag, effect block or game set |
| LinkTickFacts.UpdateTypePlayer | QLink/game/Effect.hpp:103-113 | updating a player's set changes only that player, and the hint flag when its Hint runs out |
| LinkTickFacts.HoldIs | QLink/game/Effect.cpp:57-64 | Freeze's OnHold stops the player's move, Dizzy's reverses it, and the others do nothing |
| LinkTickFacts.UpdateTypeGame | QLink/game/Effect.cpp:30 | updating the game's set with no player ages its counter and touches no player; the hint goes when Hint ends |
| LinkTickFacts.UpdateFromPlayer | QLink/game/Effect.cpp:28-29 | updating player i's set changes only that player and can only hide the hint |
| LinkTickFacts.UpdateFromGame | QLink/game/Effect.cpp:30 | updating the game's set ages its counters, touches no player, and hides the hint exactly when its Hint runs out |
| LinkTickFacts.EffectsFrame | QLink/game/Effect.cpp:27-31 | Effect<>::Update leaves the rest of the game: the game's counters age and the hint can only go away |
| LinkTickFacts.EffectsPlayers | QLink/game/Effect.cpp:27-31 | Effect<>::Update ages every player's counters and freezes or reverses its move |
| LinkTickFacts.EffectsAge | QLink/game/Effect.cpp:27-31 | over a whole update every running timed counter loses one second when a second passed, and only then |
| LinkTickFacts.RelocatedFrame | QLink/game/Effect.cpp:44-51 | the loop takes every activation and joint list away and moves only players who stand on a block |
| LinkTickFacts.RelocatedSpaces | QLink/game/Effect.cpp:44-51 | when the ring has room, every player moved off a block lands on an empty cell of the ring that no player moved before took |
| LinkTickFacts.RelocatedStayed | QLink/game/Effect.cpp:47 | the step of RelocatedSpaces for a player on an empty cell |
| LinkTickFacts.RelocatedMoved | QLink/game/Effect.cpp:47-50 | the step of RelocatedSpaces for a player on a block, which adds its new cell to the used ones |
| LinkTickFacts.ShuffleEffect | QLink/game/Effect.cpp:38-52 | Shuffle's OnActive only rearranges the blocks, sets the hint pair to a matching pair when there is one, takes every activation and link path away, leaves players on empty cells and, with room, moves the rest to distinct empty cells of the ring |
| LinkTickFacts.IdleKept | QLink/game/Effect.hpp:88-115 | Clear leaves Plus1S and Shuffle without time, and Insert and Update keep them so |
| LinkTickFacts.ActiveKeeps | QLink/game/Effect.cpp:33-54 | OnActive changes no effect set, no score and no player's move; only Shuffle touches the board or the players |
| LinkTickFacts.InsertKeeps | QLink/game/Effect.hpp:89-93 | Insert keeps the scores and keeps Plus1S and Shuffle without time |
| LinkTickFacts.ActiveIdle | QLink/game/Effect.cpp:33-54 | OnActive keeps Plus1S and Shuffle without time |
| LinkTickFacts.WithSetKeeps | QLink/game/Effect.cpp:7-19 | replacing one set keeps the scores, and keeps Plus1S and Shuffle idle when the new set has them idle |
| LinkTickFacts.AddEffectKeeps | QLink/game/Effect.cpp:7-26 | picking up an effect changes no score and keeps Plus1S and Shuffle idle |
| LinkTickFacts.InsertHinder | QLink/game/Effect.hpp:89-93 | Insert of Freeze or Dizzy only moves the counter, as their OnActive does nothing |
| LinkTickFacts.Hindered | QLink/game/Effect.cpp:16 | hindering one player leaves the rest of the game and keeps the board sized |
| LinkTickFacts.OthersStep | QLink/game/Effect.cpp:13-17 | one turn of the kExclude loop on a player other than the picker hinders that player |
| LinkTickFacts.InsertOthersFrame | QLink/game/Effect.cpp:12-18 | the kExclude loop touches nothing but the players' sets |
| LinkTickFacts.OthersHinderedStep | QLink/game/Effect.cpp:13-17 | hindering player j, then the players after it, hinders the players from j on |
| LinkTickFacts.OthersTurn | QLink/game/Effect.cpp:13-17 | the induction step of InsertOthers for a player other than the picker |
| LinkTickFacts.InsertOthers | QLink/game/Effect.cpp:12-18 | the kExclude loop adds the duration to the set of every player from j on but the picker |
| LinkTickFacts.OthersKeep | QLink/game/Effect.cpp:12-18 | the kExclude loop changes no score and keeps Plus1S and Shuffle idle |
| LinkTickFacts.ExcludeRouting | QLink/game/Effect.cpp:12-18 | Freeze and Dizzy go to every player but the picker, and nothing else changes |
| LinkTickFacts.GlobalInsert | QLink/game/Effect.cpp:8-9 | a kGlobal effect runs OnActive on the game when its counter was 0, then adds its duration to the game's set |
| LinkTickFacts.GlobalRouting | QLink/game/Effect.cpp:8-9 | Plus1S, Shuffle and Hint go to the game's set; no player's set, move or score changes, and only Shuffle moves blocks or players |
| LinkTickFacts.GlobalActions | QLink/game/Effect.cpp:33-54 | with none running, Plus1S adds 30 seconds and restarts the second, Hint shows the hint, Shuffle reshuffles; with one running, only the counter changes |
| LinkTickRules.IncChanges | QLink/game/Game.cpp:78 | ++m_score in uint32_t always changes the score |
| LinkTickRules.MoveScores | QLink/game/Game.cpp:58-87 | a step changes only the stepping player's score, by one exactly when it links |
| LinkTickRules.ResetScores | QLink/game/Game.cpp:53-55 | the reset before the move changes no score and no effect set |
| LinkTickRules.PlayerScores | QLink/game/Game.cpp:52-93 | one pass changes at most player i's score, by at most one, sets the check exactly when it did, and keeps Plus1S and Shuffle idle |
| LinkTickRules.ChainScores | QLink/game/Game.cpp:52-93 | a pass followed by the rest of the loop is the loop from that player on |
| LinkTickRules.NoScores | QLink/game/Game.cpp:52 | past the last player the loop changes nothing |
| LinkTickRules.PlayersFromScores | QLink/game/Game.cpp:52-93 | from player i on, each score rises by at most one, the check is set exactly when some score moved, and Plus1S and Shuffle stay idle |
| LinkTickRules.EffectsKeep | QLink/game/Effect.cpp:27-31 | the effect update changes no score, keeps Plus1S and Shuffle idle and leaves the board and the clock |
| LinkTickRules.EndOfTick | QLink/game/Game.cpp:95-123 | the end of a tick changes no score or set; no activation is left on an empty cell; the game is over at zero; after a link a game not over has a matching hint pair; a new effect block is of an available type |
| LinkTickRules.Looped | QLink/game/Game.cpp:36-93 | up to the end of the player loop the board stays sized, the effects available, effect block and over flag stay, and the pause flips when toggled |
| LinkTickRules.TickRunning | QLink/game/Game.cpp:47-123 | a running tick is the effect update and the player loop followed by the end of the tick |
| LinkTickRules.LoopedScores | QLink/game/Game.cpp:47-93 | over the player loop each score rises by at most one, the check is set exactly when some score moved, and Plus1S and Shuffle stay idle |
| LinkTickRules.LoopedFrom | QLink/game/Game.cpp:52-93 | the same from any state with the scores and idle effects of s |
| LinkTickRules.TickStopped | QLink/game/Game.cpp:37-45 | a game that is over does not change; otherwise the pause flips when asked, and a paused game changes in nothing else |
| LinkTickRules.RunRulesCompose | QLink/game/Game.cpp:47-123 | the rules of a running tick follow from those of its player loop and of its end |
| LinkTickRules.TickRuns | QLink/game/Game.cpp:36-124 | a tick that runs moves each score by at most one, leaves no activation on an empty cell, is over at zero, keeps a matching hint pair after a link unless over, and keeps the board's sides and available effects |
| LinkGame.Blank | QLink/game/Game.hpp:12-25 | a default Game is not over, not paused, has no players and nothing running |
| LinkGame.Asked | QLink/game/Player.hpp:33 | Move adds dx and dy to the asked move and changes nothing else of the player |
| LinkGame.OneKeyStep | QLink/game/Game.cpp:59-67 | after clear_update one key press steps right or down unless at the far edge, left or up unless at the near edge, else not at all |
| LinkGame.InsertSteps | QLink/game/Effect.hpp:89-93 | Insert<t> is OnActive when the counter is 0, then the counter change, on the same set |
| LinkGame.RunSteps | QLink/game/Game.cpp:47-123 | past the pause check do_update is the effects, the player loop, then the rest on the loop's two flags |
| LinkGame.Game.constructor | QLink/game/Game.hpp:34 | Game() holds the blank game, with a new grid |
| LinkGame.Game.NextSecond | QLink/game/Game.hpp:38 | NextSecond only marks that a second passed |
| LinkGame.Game.TogglePause | QLink/game/Game.hpp:39 | TogglePause only marks that the pause flips at the next tick |
| LinkGame.Game.Move | QLink/game/Player.hpp:33 | Move on player i changes only that player's asked move |
| LinkGame.Game.ClearUpdate | QLink/game/Game.cpp:126-130 | clear_update leaves no second, toggle or move pending and changes nothing else |
| LinkGame.Game.OnHold | QLink/game/Effect.cpp:57-64 | OnHold of t on its target, as AfterHold says |
| LinkGame.Game.OnEnded | QLink/game/Effect.hpp:46 | OnEnded of t: the end of Hint hides the hint |
| LinkGame.Game.Reshuffle | QLink/game/Effect.cpp:38-52 | the game after Shuffle's OnActive, whose meaning ShuffleEffect states |
| LinkGame.Game.Relocate | QLink/game/Effect.cpp:43-51 | the player loop of Shuffle's OnActive on the players, as Relocated says |
| LinkGame.Game.OnActive | QLink/game/Effect.cpp:33-54 | OnActive of t on the game, as AfterActive says |
| LinkGame.Game.SetCounter | QLink/game/Effect.hpp:92 | only counter k of the target's set is written |
| LinkGame.Game.Insert | QLink/game/Effect.hpp:89-93 | Insert<t> on the target's set, as AfterInsert says |
| LinkGame.Game.ActivateIdle | QLink/game/Effect.hpp:90-91 | OnActive runs exactly when t has no time left in the target's set |
| LinkGame.Game.AddEffect | QLink/game/Effect.cpp:7-26 | AddEffect on the game, as AfterAddEffect says |
| LinkGame.Game.UpdateSet | QLink/game/Effect.hpp:101-115 | EffectSet::Update on the target's set, as AfterUpdateFrom says |
| LinkGame.Game.UpdateType | QLink/game/Effect.hpp:103-113 | one type of the update, as AfterUpdateType says |
| LinkGame.Game.UpdateEffects | QLink/game/Effect.cpp:27-31 | Effect<>::Update, as AfterEffectsFrom says |
| LinkGame.Game.ResetPlayer | QLink/game/Game.cpp:53-55 | only player i's activation, dropped when its cell is empty |
| LinkGame.Game.MovePlayer | QLink/game/Game.cpp:58-87 | the step of player i and whether it linked, as AfterMove says |
| LinkGame.Game.PlayerStep | QLink/game/Game.cpp:52-93 | one pass of the player loop with its two flags, as AfterPlayer says |
| LinkGame.Game.ResetActivations | QLink/game/Game.cpp:95-99 | the second player loop, as AfterResets says |
| LinkGame.Game.PlaceEffect | QLink/game/Game.cpp:101-108 | the new effect block, as AfterPlace says |
| LinkGame.Game.UpdateClock | QLink/game/Game.cpp:110-123 | the clock and game over, as AfterClock says |
| LinkGame.Game.PlayerLoop | QLink/game/Game.cpp:50-93 | the whole player loop from clear flags, as AfterPlayersFrom says |
| LinkGame.Game.DoUpdate | QLink/game/Game.cpp:36-124 | do_update leaves the state Tick gives, whose rules TickStopped and TickRuns state |
| LinkGame.Game.Update | QLink/game/Game.cpp:31-34 | Update is a tick followed by clearing the inputs |
| LinkCodec.EncBool | QLink/game/Serializer.hpp:21-26 | Serializer<T>::Write; BoolRoundTrip reads it back |
| LinkCodec.DecBool | QLink/game/Serializer.hpp:21-26 | Serializer<T>::Read; BoolRoundTrip states it reads back what EncBool wrote |
| LinkCodec.DecU32 | QLink/game/Serializer.hpp:36-42 | reads four bytes as a uint32_t; LittleEndianRoundTrip reads back what EncU32 wrote |
| LinkCodec.EncType | QLink/game/Serializer.hpp:44-52 | Serializer<T>::Write; TypeRoundTrip reads it back |
| LinkCodec.DecType | QLink/game/Serializer.hpp:44-52 | Serializer<T>::Read; TypeRoundTrip states it reads back what EncType wrote |
| LinkCodec.EncCoord | QLink/game/Serializer.hpp:54-64 | Serializer<T>::Write; CoordRoundTrip reads it back |
| LinkCodec.DecCoord | QLink/game/Serializer.hpp:54-64 | Serializer<T>::Read; CoordRoundTrip states it reads back what EncCoord wrote |
| LinkCodec.EncEffectBlock | QLink/game/Serializer.hpp:66-77 | Serializer<T>::Write; EffectBlockRoundTrip reads it back |
| LinkCodec.DecEffectBlock | QLink/game/Serializer.hpp:66-77 | Serializer<T>::Read; EffectBlockRoundTrip states it reads back what EncEffectBlock wrote |
| LinkCodec.EncVector | QLink/game/Serializer.hpp:92-106 | Serializer<T>::Write; VectorRoundTrip reads it back |
| LinkCodec.DecVector | QLink/game/Serializer.hpp:92-106 | Serializer<T>::Read; VectorRoundTrip states it reads back what EncVector wrote |
| LinkCodec.EncOption | QLink/game/Serializer.hpp:108-120 | Serializer<T>::Write; OptionRoundTrip reads it back |
| LinkCodec.DecOption | QLink/game/Serializer.hpp:108-120 | Serializer<T>::Read; OptionRoundTrip states it reads back what EncOption wrote |
| LinkCodec.EncEffectSet | QLink/game/Serializer.hpp:122-131 | Serializer<T>::Write; EffectSetRoundTrip reads it back |
| LinkCodec.DecEffectSet | QLink/game/Serializer.hpp:122-131 | Serializer<T>::Read; EffectSetRoundTrip states it reads back what EncEffectSet wrote |
| LinkCodec.EncPair | QLink/game/Serializer.hpp:79-90 | Serializer<T>::Write; PairRoundTrip reads it back |
| LinkCodec.DecPair | QLink/game/Serializer.hpp:79-90 | Serializer<T>::Read; PairRoundTrip states it reads back what EncPair wrote |
| LinkCodec.EncPlayer | QLink/game/Serializer.hpp:133-150 | Serializer<T>::Write; PlayerRoundTrip reads it back |
| LinkCodec.DecPlayer | QLink/game/Serializer.hpp:133-150 | Serializer<T>::Read; PlayerRoundTrip states it reads back what EncPlayer wrote |
| LinkCodec.EncBoard | QLink/game/Serializer.hpp:152-165 | Serializer<T>::Write; BoardRoundTrip reads it back |
| LinkCodec.DecBoard | QLink/game/Serializer.hpp:152-165 | Serializer<T>::Read; BoardRoundTrip states it reads back what EncBoard wrote |
| LinkCodec.DecGame | QLink/game/Serializer.hpp:167-199 | Serializer<Game>::Read; ForeignStream states a foreign header gives the default game and GameRoundTrip that a saved game loads back |
| LinkCodec.DecU8 | QLink/game/Serializer.hpp:9-19 | a byte is read exactly when the stream is not at its end, and it is the stream's first byte |
| LinkCodec.LittleEndian | QLink/game/Serializer.hpp:28-35 | n bytes are written |
| LinkCodec.DecLittleEndian | QLink/game/Serializer.hpp:36-42 | n bytes read back are a value below 256^n |
| LinkCodec.EncU32 | QLink/game/Serializer.hpp:28-35 | a uint32_t takes four bytes |
| LinkCodec.DecSeq | QLink/game/Serializer.hpp:79-90 | reading an array of n elements gives n elements |
| LinkCodec.EncGame | QLink/game/Serializer.hpp:167-181 | a saved game starts with kVersionStr and its NUL |
| LinkCodecFacts.LittleEndianRoundTrip | QLink/game/Serializer.hpp:28-42 | a value below 256^n written as n bytes reads back, the rest of the stream untouched |
| LinkCodecFacts.LittleEndianCanonical | QLink/game/Serializer.hpp:28-42 | any n bytes are the encoding of the value they read as |
| LinkCodecFacts.U32RoundTrip | QLink/game/Serializer.hpp:28-42 | a uint32_t reads back as written |
| LinkCodecFacts.U32Canonical | QLink/game/Serializer.hpp:28-42 | every four bytes are the encoding of the uint32_t they read as |
| LinkCodecFacts.U32Bytes | QLink/game/Serializer.hpp:28-35 | the four bytes written are (val >> 8k) & 0xff for k = 0 to 3 |
| LinkCodecFacts.LittleEndianShort | QLink/game/Serializer.hpp:36-42 | fewer than n bytes do not read as an n-byte value |
| LinkCodecFacts.U32FromBytes | QLink/game/Serializer.hpp:36-42 | four bytes read as v0 \| v1 << 8 \| v2 << 16 \| v3 << 24, and reading needs four bytes |
| LinkCodecFacts.BoolRoundTrip | QLink/game/Serializer.hpp:21-26 | a bool reads back as written |
| LinkCodecFacts.TypeRoundTrip | QLink/game/Serializer.hpp:44-52 | an EffectType reads back as written, and a uint32_t naming no type does not read |
| LinkCodecFacts.CoordRoundTrip | QLink/game/Serializer.hpp:54-64 | a Coord reads back as written |
| LinkCodecFacts.EffectBlockRoundTrip | QLink/game/Serializer.hpp:66-77 | an EffectBlock reads back as written |
| LinkCodecFacts.SeqRoundTrip | QLink/game/Serializer.hpp:79-90 | elements written one after another read back one after another, whenever each element reads back |
| LinkCodecFacts.VectorRoundTrip | QLink/game/Serializer.hpp:92-106 | a vector of fewer than 2^32 elements reads back with its size |
| LinkCodecFacts.OptionRoundTrip | QLink/game/Serializer.hpp:108-120 | an optional reads back as written when its value does |
| LinkCodecFacts.EncSeqAppend | QLink/game/Serializer.hpp:79-85 | writing a sequence in two parts writes the whole |
| LinkCodecFacts.EncSeqSnoc | QLink/game/Serializer.hpp:79-85 | writing one more element appends its encoding |
| LinkCodecFacts.BytesRead | QLink/game/Serializer.hpp:184-185 | reading n chars gives the next n bytes when there are n, and fails otherwise |
| LinkCodecFacts.DecSeqSnoc | QLink/game/Serializer.hpp:86-90 | reading n + 1 elements is reading n and then one more |
| LinkCodecFacts.EffectSetRoundTrip | QLink/game/Serializer.hpp:122-131 | the five counters of an EffectSet read back as written |
| LinkCodecFacts.PairRoundTrip | QLink/game/Serializer.hpp:79-90 | the hint pair reads back as written |
| LinkCodecFacts.CoordsRoundTrip | QLink/game/Serializer.hpp:92-106 | a list of coordinates of fewer than 2^32 elements reads back |
| LinkCodecFacts.PlayerRoundTrip | QLink/game/Serializer.hpp:133-150 | a storable player reads back as written, with no move pending |
| LinkCodecFacts.BoardRoundTrip | QLink/game/Serializer.hpp:152-165 | a board of fewer than 2^32 cells reads back as written |
| LinkCodecFacts.PlayersRoundTrip | QLink/game/Serializer.hpp:92-106 | the players read back with no move pending |
| LinkCodecFacts.GameHeadRoundTrip | QLink/game/Serializer.hpp:171-174 | the fields up to the hint read back as written |
| LinkCodecFacts.GameTailRoundTrip | QLink/game/Serializer.hpp:175-180 | the fields from the game over flag on read back as written |
| LinkCodecFacts.GameRoundTrip | QLink/game/Serializer.hpp:167-199 | a storable saved game loads as the game it was, with no second, toggle or move pending, and the stream after it untouched |
| LinkCodecFacts.ForeignStream | QLink/game/Serializer.hpp:182-187 | a stream whose first nine bytes are not kVersionStr loads as the default game, whatever follows |
| LinkSerializer.ByteSink.constructor | QLink/game/Serializer.hpp:9-13 | an output stream starts empty |
| LinkSerializer.ByteSink.Put | QLink/game/Serializer.hpp:9-13 | writing one char appends it |
| LinkSerializer.ByteSource.constructor | QLink/game/Serializer.hpp:14-19 | an input stream starts at its first byte, not failed |
| LinkSerializer.ByteSource.Get | QLink/game/Serializer.hpp:14-19 | reading a char at the end of the stream, or once failed, sets the fail bit; otherwise it is the next byte |
| LinkSerializer.WriteBool | QLink/game/Serializer.hpp:21-26 | appends the encoding of the bool |
| LinkSerializer.ReadBool | QLink/game/Serializer.hpp:21-26 | reads what DecBool decodes, or fails the stream as DecBool does |
| LinkSerializer.WriteU32 | QLink/game/Serializer.hpp:28-35 | appends the four bytes of the uint32_t |
| LinkSerializer.ReadU32 | QLink/game/Serializer.hpp:36-42 | reads what DecU32 decodes, or fails the stream |
| LinkSerializer.WriteType | QLink/game/Serializer.hpp:44-48 | appends the type's ordinal as a uint32_t |
| LinkSerializer.ReadType | QLink/game/Serializer.hpp:49-52 | reads what DecType decodes, or fails the stream |
| LinkSerializer.WriteCoord | QLink/game/Serializer.hpp:54-59 | appends x, then y |
| LinkSerializer.ReadCoord | QLink/game/Serializer.hpp:60-64 | reads what DecCoord decodes, or fails the stream |
| LinkSerializer.WriteEffectBlock | QLink/game/Serializer.hpp:66-71 | appends the coordinate, then the type |
| LinkSerializer.ReadEffectBlock | QLink/game/Serializer.hpp:72-77 | reads what DecEffectBlock decodes, or fails the stream |
| LinkSerializer.WriteU32Seq | QLink/game/Serializer.hpp:79-85 | appends the uint32_t elements one after another |
| LinkSerializer.ReadU32Seq | QLink/game/Serializer.hpp:86-90 | reads n uint32_t elements as DecSeq decodes them, or fails the stream |
| LinkSerializer.WriteCoordSeq | QLink/game/Serializer.hpp:79-85 | appends the Coord elements one after another |
| LinkSerializer.ReadCoordSeq | QLink/game/Serializer.hpp:86-90 | reads n Coord elements as DecSeq decodes them, or fails the stream |
| LinkSerializer.WriteTypeSeq | QLink/game/Serializer.hpp:79-85 | appends the EffectType elements one after another |
| LinkSerializer.ReadTypeSeq | QLink/game/Serializer.hpp:86-90 | reads n EffectType elements as DecSeq decodes them, or fails the stream |
| LinkSerializer.WritePlayerSeq | QLink/game/Serializer.hpp:79-85 | appends the Player elements one after another |
| LinkSerializer.ReadPlayerSeq | QLink/game/Serializer.hpp:86-90 | reads n Player elements as DecSeq decodes them, or fails the stream |
| LinkSerializer.WriteBlocks | QLink/game/Serializer.hpp:92-99 | appends the size cast to uint32_t, then the blocks |
| LinkSerializer.ReadBlocks | QLink/game/Serializer.hpp:100-106 | reads a size and that many blocks as DecVector decodes them, or fails the stream |
| LinkSerializer.WriteCoords | QLink/game/Serializer.hpp:92-99 | appends the size cast to uint32_t, then the coordinates |
| LinkSerializer.ReadCoords | QLink/game/Serializer.hpp:100-106 | reads a size and that many coordinates, or fails the stream |
| LinkSerializer.WriteTypes | QLink/game/Serializer.hpp:92-99 | appends the size cast to uint32_t, then the types |
| LinkSerializer.ReadTypes | QLink/game/Serializer.hpp:100-106 | reads a size and that many types, or fails the stream |
| LinkSerializer.WritePlayers | QLink/game/Serializer.hpp:92-99 | appends the size cast to uint32_t, then the players |
| LinkSerializer.ReadPlayers | QLink/game/Serializer.hpp:100-106 | reads a size and that many players, or fails the stream |
| LinkSerializer.WriteOptCoord | QLink/game/Serializer.hpp:108-114 | appends the tag byte and, when present, the coordinate |
| LinkSerializer.ReadOptCoord | QLink/game/Serializer.hpp:115-120 | reads what DecOption decodes, or fails the stream |
| LinkSerializer.WritePair | QLink/game/Serializer.hpp:79-85 | appends the two coordinates of the hint |
| LinkSerializer.ReadPair | QLink/game/Serializer.hpp:86-90 | reads what DecPair decodes, or fails the stream |
| LinkSerializer.WriteOptPair | QLink/game/Serializer.hpp:108-114 | appends the tag byte and, when present, the hint pair |
| LinkSerializer.ReadOptPair | QLink/game/Serializer.hpp:115-120 | reads what DecOption decodes, or fails the stream |
| LinkSerializer.WriteEffectSet | QLink/game/Serializer.hpp:122-126 | appends the five counters |
| LinkSerializer.ReadEffectSet | QLink/game/Serializer.hpp:127-131 | reads what DecEffectSet decodes, or fails the stream |
| LinkSerializer.WritePlayer | QLink/game/Serializer.hpp:133-142 | appends position, activation, joints, effect set and score |
| LinkSerializer.ReadPlayer | QLink/game/Serializer.hpp:143-150 | reads what DecPlayer decodes, with no move pending, or fails the stream |
| LinkSerializer.WriteGrid | QLink/game/Serializer.hpp:152-158 | appends width, height and the blocks of the grid |
| LinkSerializer.ReadBoard | QLink/game/Serializer.hpp:159-165 | reads what DecBoard decodes, or fails the stream |
| LinkSerializer.WriteChars | QLink/game/Serializer.hpp:171-172 | writing n chars appends them |
| LinkSerializer.ReadChars | QLink/game/Serializer.hpp:184-185 | reading n chars gives the next n bytes, or fails the stream when there are fewer |
| LinkSerializer.WriteGameHead | QLink/game/Serializer.hpp:171-174 | appends the fields of the game up to the hint |
| LinkSerializer.WriteGameTail | QLink/game/Serializer.hpp:175-180 | appends the fields from the game over flag on |
| LinkSerializer.WriteGame | QLink/game/Serializer.hpp:167-181 | appends kVersionStr with its NUL, then the fields, as EncGame, which GameRoundTrip reads back |
| LinkSerializer.ReadGameHead | QLink/game/Serializer.hpp:188-191 | reads the fields up to the hint as DecGameHead decodes them, or fails the stream |
| LinkSerializer.ReadGameTail | QLink/game/Serializer.hpp:192-197 | reads the fields from the game over flag on, or fails the stream |
| LinkSerializer.ReadGame | QLink/game/Serializer.hpp:182-199 | a new Game holding what DecGame decodes: the default game on a foreign header, else the fields read, or a failed stream |

## Left out

- QBasic `Int` (int64_t) is an unbounded integer: the overflow of `+`, `-`, `*`, `fast_pow` and `ToDigit<Int>` is undefined behaviour in C++ and is not modelled, so results hold only while they fit in 64 bits. `ToDigit<LineID>` and every uint32_t counter wrap modulo 2^32 as in the source.
- The machine's thread, `std::async`, the future, the atomic flag and the mutex (QBasic/basic/Machine.hpp) are not modelled. The machine runs sequentially; the termination flag and the input mailbox are plain fields, and the completion callback is a counter of its calls.
- BasicMachine.Exec: the step loop of `Machine::execute` has no bound in the source; the model runs at most `fuel` steps and reports no result when the fuel runs out, and `MoreFuel` shows that more fuel does not change a run that has ended.
- The Qt front ends, their painting code, the dialogs, `main.cpp` and the GUI's resuming after `MsgPrint` (QBasic/MainWindow.*, QLink/*Widget*, QLink/MainWindow.*, QLink/NewGameDialog.*, QLink/KeysDialog.hpp, QLink/Style.hpp, QExam/mainwindow.*) are not part of this model.
- QBasic/basic/Config.hpp's variant-iteration helper is not modelled; only its type aliases are used.
- `Grid::InitializeRandomized` and `Game::Start` are not modelled: they only deal random blocks and place the players, and they need a random source the model does not have.
- Block.hpp and Random.hpp are not part of this model. A Block is taken to be a uint32_t, the width the serializer writes it with.
- Randomness is a parameter. `std::shuffle` is any rearrangement of the blocks in each round, a uniform draw is any value in its range, and the effect type roll is any number. Two uses of the same draw index in one tick, when Shuffle moves player k and the new effect block is then placed, are free to coincide.
- LinkGrid.Grid.Shuffle: the source repeats the shuffle until the board has a matching pair, which may never happen; the model stops after `rounds` rounds, at least one, and states the hint only when a pair was found.
- LinkGrid.Grid.GetRandomSpace: the free-cell counter is unbounded; the source's uint32_t counter would wrap with 2^32 or more free cells, and the cell drawn is promised free only for fewer than 2^32 of them. With no free cell the source's draw on [0, 2^32 - 1] is modelled, and the result is the (0, 0) its failed assertion falls through to.
- LinkTick.Player: the asked move dx, dy is an unbounded integer; the int32_t sum of many key presses in one tick could overflow in the source.
- LinkGame.Game.DoUpdate requires at least one available effect type: the source takes the roll modulo their number, which is undefined for none, and `Game::Start` asserts it.
- LinkTickFacts.ShuffleEffect: that moved players land on distinct empty cells is proved only when every set of as many cells as there are players leaves a free cell (Roomy); the source assumes a board with room.
- LinkSerializer.ByteSource.Get: a read past the end of the stream sets the fail bit and gives 0; the source leaves the value it reads indeterminate. A failed stream reads nothing more in either.
- LinkSerializer.ReadType: a uint32_t naming none of the five effect types fails the stream; the source casts it to an EffectType all the same, a value no code of the game expects.
- LinkSerializer.ReadBoard: as in the source, the number of blocks read is not checked against the sides, so a loaded board may be unsized; the round trip is stated for boards written by the game.
- LinkCodecFacts.GameRoundTrip requires every vector to have fewer than 2^32 elements (Storable): the source casts the size to uint32_t, so a longer vector does not read back.
- BasicExpression.Format: the round trip is proved only for `Printable` trees: numbers not negative, no variable named MOD, and no unary operator applied to a unary operator of the same sign. A negative number prints with a '-' that reads back as a unary minus, and `- -X` prints as "--X", whose "--" is one invalid token (DoubleNegation).
- BasicExprParser.ParseTexts: where the parser as written builds a tree across an operand or '(' that directly follows an operand or ')', the model refuses it with ErrInvalidToken naming that token (see Findings). Every other result, errors included, is the source's.
- ExamInput.Input: the stream is a sequence of integers, a read past its end gives 0, and a board whose product of sides is negative or exceeds INT_MAX gives no Matrix, where the source's resize throws or its int product overflows.
- The stream I/O of `Serializer` and `Matrix::Input` is not modelled; streams are byte or integer sequences.

## Findings

| source | as written | input that shows it | evidently intended | confidence | as-written member | corrected member |
|---|---|---|---|---|---|---|
| QBasic/basic/ExprParser.cpp:116-156 | nothing checks that an operator separates two operands, so an operand directly followed by '(' is accepted and the operands are combined out of order | "7 + 5 (X *)" parses as (7 * X) + 5 | refuse a tree built across an operand or '(' that directly follows an operand or ')', as an invalid token naming it; inputs the source already refuses keep its error | not executed | BasicExprParser.ParseUnchecked, BasicExprParserExamples.JuxtaposedOperandsReordered | BasicExprParser.ParseTexts, BasicExprParser.ParseKeepsOperandOrder |
