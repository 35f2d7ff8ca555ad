/**
 * The statement parser (QBasic/basic/StmtParser.cpp).
 *
 * Statement::Parse picks the statement kind by the first token, then the
 * kind's own Parse reads the rest. The specification is the function
 * ParseStatement on token sequences; the methods below scan for "=", the
 * comparator and "THEN" with loops, as the source does, and are proved to
 * agree with it.
 */
module BasicStmtParser {
  import opened StdTypes
  import opened BasicConfig
  import opened BasicError
  import opened BasicToken
  import opened BasicExpression
  import opened BasicExprParser
  import opened BasicStatement

  /** The comparators an IF may use. */
  const CMP_TEXTS: set<string> := {"=", "<", ">"}

  /** The first index at or after i whose text is one of keys. */
  function FirstFrom(texts: seq<string>, i: nat, keys: set<string>): (r: Option<nat>)
    decreases |texts| - i
    ensures r.Some? ==> i <= r.value < |texts| && texts[r.value] in keys
    ensures r.Some? ==> forall k :: i <= k < r.value ==> texts[k] !in keys
    ensures r.None? ==> forall k :: i <= k < |texts| ==> texts[k] !in keys
  {
    if i >= |texts| then None
    else if texts[i] in keys then Some(i)
    else FirstFrom(texts, i + 1, keys)
  }

  /** The last index k with lo < k < hi whose text is key. */
  function LastBelow(texts: seq<string>, lo: nat, hi: nat, key: string): (r: Option<nat>)
    requires hi <= |texts|
    decreases hi
    ensures r.Some? ==> lo < r.value < hi && texts[r.value] == key
    ensures r.Some? ==> forall k :: r.value < k < hi ==> texts[k] != key
    ensures r.None? ==> forall k :: lo < k < hi ==> texts[k] != key
  {
    if hi <= lo + 1 then None
    else if texts[hi - 1] == key then Some(hi - 1)
    else LastBelow(texts, lo, hi - 1, key)
  }

  /** The value ToDigit<LineID> gives a digit token. */
  function LineValue(t: Token): LineID
    requires t.Valid() && t.IsDigit()
  {
    DigitsValue(t.View()) % UINT32_MOD
  }

  // ---------------------------------------------------------------------------
  // The grammar of each kind (tokens[0] is the kind's keyword)

  /** REM: everything after the keyword, as originally written. */
  function ParseRem(tokens: seq<Token>): (r: ParseResult<Stmt>)
    requires AllValid(tokens) && |tokens| >= 1
    ensures r.Ok? && r.value.Rem?
  {
    Ok(Rem(DeTokenizeSpan(tokens[1..])))
  }

  /** INPUT: exactly one variable token. */
  function ParseInput(tokens: seq<Token>): (r: ParseResult<Stmt>)
    requires AllValid(tokens) && |tokens| >= 1
    ensures r.Ok? ==> r.value.Input?
  {
    if |tokens| != 2 || !tokens[1].IsVariable() then
      Err(InvalidVariable("", DeTokenizeSpan(tokens), DeTokenizeSpan(tokens[1..])))
    else Ok(Input(tokens[1].View()))
  }

  /** PRINT: one expression. */
  function ParsePrint(tokens: seq<Token>): (r: ParseResult<Stmt>)
    requires AllValid(tokens) && |tokens| >= 1
    ensures r.Ok? ==> r.value.Print?
  {
    var e :- ParseTokens(tokens[1..]);
    Ok(Print(e))
  }

  /** LET: split at the first "=", parse the right side, then check the single variable on the left. */
  function ParseLet(tokens: seq<Token>): (r: ParseResult<Stmt>)
    requires AllValid(tokens) && |tokens| >= 1
    ensures r.Ok? ==> r.value.Let?
  {
    match FirstFrom(Views(tokens), 1, {"="})
    case None => Err(MissingToken("", DeTokenizeSpan(tokens), "="))
    case Some(eq) => ParseLetParts(tokens, eq)
  }

  /** The part of LET after the "=" at eq is found: the right side first, then the variable. */
  function ParseLetParts(tokens: seq<Token>, eq: nat): (r: ParseResult<Stmt>)
    requires AllValid(tokens) && 1 <= eq < |tokens|
    ensures r.Ok? ==> r.value.Let? && eq == 2 && r.value.name == tokens[1].View() && tokens[1].IsVariable()
  {
    var e :- ParseTokens(tokens[eq + 1..]);
    var lhs := tokens[1..eq];
    if |lhs| != 1 || !lhs[0].IsVariable() then
      Err(InvalidVariable("", DeTokenizeSpan(tokens), DeTokenizeSpan(lhs)))
    else Ok(Let(lhs[0].View(), e))
  }

  /** GOTO: exactly one digit token. */
  function ParseGoto(tokens: seq<Token>): (r: ParseResult<Stmt>)
    requires AllValid(tokens) && |tokens| >= 1
    ensures r.Ok? ==> r.value.Goto?
  {
    if |tokens| != 2 || !tokens[1].IsDigit() then
      Err(InvalidDigit("", DeTokenizeSpan(tokens), DeTokenizeSpan(tokens[1..])))
    else Ok(Goto(LineValue(tokens[1])))
  }

  /** The target of an IF, after its last THEN: exactly one digit token. */
  function ParseTarget(tokens: seq<Token>, line: seq<Token>): ParseResult<LineID>
    requires AllValid(tokens) && AllValid(line)
  {
    if |line| != 1 || !line[0].IsDigit() then Err(InvalidDigit("", DeTokenizeSpan(tokens), DeTokenizeSpan(line)))
    else Ok(LineValue(line[0]))
  }

  /**
   * IF: the first comparator, the last THEN after it, the left expression,
   * the right expression, then the target, failing at the first of these
   * that is missing or malformed.
   */
  function ParseIf(tokens: seq<Token>): (r: ParseResult<Stmt>)
    requires AllValid(tokens) && |tokens| >= 1
    ensures r.Ok? ==> r.value.If?
  {
    var texts := Views(tokens);
    match FirstFrom(texts, 1, CMP_TEXTS)
    case None => Err(MissingToken("", DeTokenizeSpan(tokens), "<, =, >"))
    case Some(c) =>
      match LastBelow(texts, c, |tokens|, "THEN")
      case None => Err(MissingToken("", DeTokenizeSpan(tokens), "THEN"))
      case Some(t) => ParseIfParts(tokens, c, t)
  }

  /** The part of IF after the comparator at c and the THEN at t are found. */
  function ParseIfParts(tokens: seq<Token>, c: nat, t: nat): (r: ParseResult<Stmt>)
    requires AllValid(tokens) && 1 <= c < t < |tokens| && tokens[c].View() in CMP_TEXTS
    ensures r.Ok? ==> r.value.If? && r.value.cmp == tokens[c].View()[0]
    ensures r.Ok? ==> 2 <= c && c + 2 <= t
    ensures r.Ok? ==> t == |tokens| - 2 && AllDigits(tokens[t + 1].View()) && r.value.target == LineValue(tokens[t + 1])
  {
    var l :- ParseTokens(tokens[1..c]);
    var r :- ParseTokens(tokens[c + 1..t]);
    var n :- ParseTarget(tokens, tokens[t + 1..]);
    Ok(If(l, tokens[c].View()[0], r, n))
  }

  /** END: nothing may follow the keyword. */
  function ParseEnd(tokens: seq<Token>): (r: ParseResult<Stmt>)
    requires AllValid(tokens) && |tokens| >= 1
    ensures r.Ok? <==> |tokens| == 1
    ensures r.Ok? ==> r.value.End?
  {
    if |tokens| > 1 then Err(InvalidToken("", DeTokenizeSpan(tokens), tokens[1].View())) else Ok(End)
  }

  /**
   * Statement::Parse: an empty statement, a first token that is no keyword, or
   * the kind's own grammar. A parsed statement has the first token as keyword.
   */
  function ParseStatement(tokens: seq<Token>): (r: ParseResult<Stmt>)
    requires AllValid(tokens)
    ensures tokens == [] ==> r == Err(EmptyStmt)
  {
    if tokens == [] then Err(EmptyStmt)
    else
      var head := tokens[0].View();
      if head == "REM" then ParseRem(tokens)
      else if head == "INPUT" then ParseInput(tokens)
      else if head == "PRINT" then ParsePrint(tokens)
      else if head == "LET" then ParseLet(tokens)
      else if head == "GOTO" then ParseGoto(tokens)
      else if head == "IF" then ParseIf(tokens)
      else if head == "END" then ParseEnd(tokens)
      else Err(InvalidToken("", DeTokenizeSpan(tokens), head))
  }

  /** A parsed statement's keyword is its first token. */
  lemma ParsedKeyword(tokens: seq<Token>)
    requires AllValid(tokens)
    ensures ParseStatement(tokens).Ok? ==> tokens != [] && Keyword(ParseStatement(tokens).value) == tokens[0].View()
  {
    var r := ParseStatement(tokens);
    if r.Ok? {
      var s, head := r.value, tokens[0].View();
      if head == "REM" {
        assert r == ParseRem(tokens) && s.Rem?;
      } else if head == "INPUT" {
        assert r == ParseInput(tokens) && s.Input?;
      } else if head == "PRINT" {
        assert r == ParsePrint(tokens) && s.Print?;
      } else if head == "LET" {
        assert r == ParseLet(tokens) && s.Let?;
      } else if head == "GOTO" {
        assert r == ParseGoto(tokens) && s.Goto?;
      } else if head == "IF" {
        assert r == ParseIf(tokens) && s.If?;
      } else {
        assert r == ParseEnd(tokens) && s.End?;
      }
    }
  }

  // ---------------------------------------------------------------------------
  // Properties of the grammar

  /** REM never fails, and for the tokens of one line its comment is the line's text from the second token to the last. */
  lemma RemComment(tokens: seq<Token>, line: string)
    requires AllValid(tokens) && TokensOf(tokens, line) && |tokens| >= 2 && tokens[0].View() == "REM"
    ensures tokens[1].begin < tokens[|tokens| - 1].end <= |line|
    ensures ParseStatement(tokens) == Ok(Rem(line[tokens[1].begin..tokens[|tokens| - 1].end]))
  {
    RemDispatch(tokens);
    DeTokenizeRange(tokens, line, 1, |tokens| - 1);
    assert tokens[1..|tokens| - 1 + 1] == tokens[1..];
  }

  /** A statement whose first token is REM is parsed by the REM grammar. */
  lemma RemDispatch(tokens: seq<Token>)
    requires AllValid(tokens) && |tokens| >= 1 && tokens[0].View() == "REM"
    ensures ParseStatement(tokens) == ParseRem(tokens)
  {
  }

  /** INPUT succeeds exactly on the keyword and one variable token. */
  lemma InputIff(tokens: seq<Token>, x: string)
    requires AllValid(tokens)
    ensures ParseStatement(tokens) == Ok(Input(x)) <==>
      |tokens| == 2 && tokens[0].View() == "INPUT" && tokens[1].View() == x && IsVariableName(x)
  {
  }

  /** PRINT succeeds exactly when the tokens after the keyword parse, and passes their error on unchanged. */
  lemma PrintIff(tokens: seq<Token>, e: Expr)
    requires AllValid(tokens)
    ensures ParseStatement(tokens) == Ok(Print(e)) <==>
      tokens != [] && tokens[0].View() == "PRINT" && ParseTokens(tokens[1..]) == Ok(e)
    ensures tokens != [] && tokens[0].View() == "PRINT" && ParseTokens(tokens[1..]).Err? ==>
      ParseStatement(tokens) == Err(ParseTokens(tokens[1..]).error)
  {
    if ParseStatement(tokens) == Ok(Print(e)) {
      ParsedKeyword(tokens);
    }
  }

  /** GOTO succeeds exactly on the keyword and one digit token, whose value wraps modulo 2^32. */
  lemma GotoIff(tokens: seq<Token>, n: LineID)
    requires AllValid(tokens)
    ensures ParseStatement(tokens) == Ok(Goto(n)) <==>
      |tokens| == 2 && tokens[0].View() == "GOTO" && AllDigits(tokens[1].View()) &&
      n == DigitsValue(tokens[1].View()) % UINT32_MOD
  {
  }

  /** END succeeds only alone, and otherwise names the second token. */
  lemma EndIff(tokens: seq<Token>)
    requires AllValid(tokens) && tokens != [] && tokens[0].View() == "END"
    ensures ParseStatement(tokens) == Ok(End) <==> |tokens| == 1
    ensures |tokens| > 1 ==> ParseStatement(tokens) == Err(InvalidToken("", DeTokenizeSpan(tokens), tokens[1].View()))
  {
  }

  /** A parsed LET has its "=" as the third token, the single variable before it and the parsed right side after it. */
  lemma LetShape(tokens: seq<Token>, x: string, e: Expr)
    requires AllValid(tokens)
    requires ParseStatement(tokens) == Ok(Let(x, e))
    ensures |tokens| >= 3 && tokens[0].View() == "LET" && tokens[2].View() == "="
    ensures tokens[1].View() == x && IsVariableName(x)
    ensures ParseTokens(tokens[3..]) == Ok(e)
  {
    var eq := FirstFrom(Views(tokens), 1, {"="}).value;
    assert ParseLetParts(tokens, eq) == Ok(Let(x, e));
  }

  /** LET reports an error of its right side before any complaint about its left side. */
  lemma LetRightFirst(tokens: seq<Token>, eq: nat)
    requires AllValid(tokens) && tokens != [] && tokens[0].View() == "LET"
    requires 1 <= eq < |tokens| && tokens[eq].View() == "="
    requires forall k :: 1 <= k < eq ==> tokens[k].View() != "="
    requires ParseTokens(tokens[eq + 1..]).Err?
    ensures ParseStatement(tokens) == Err(ParseTokens(tokens[eq + 1..]).error)
  {
    LetHead(tokens);
    FirstAt(Views(tokens), 1, {"="}, eq);
    assert ParseLet(tokens) == ParseLetParts(tokens, eq);
  }

  /** A statement whose first token is LET is parsed by the LET grammar. */
  lemma LetHead(tokens: seq<Token>)
    requires AllValid(tokens) && |tokens| >= 1 && tokens[0].View() == "LET"
    ensures ParseStatement(tokens) == ParseLet(tokens)
  {
  }

  /** FirstFrom finds an index that satisfies its characterisation. */
  lemma {:induction false} FirstAt(texts: seq<string>, i: nat, keys: set<string>, p: nat)
    requires i <= p < |texts| && texts[p] in keys
    requires forall k :: i <= k < p ==> texts[k] !in keys
    ensures FirstFrom(texts, i, keys) == Some(p)
    decreases p - i
  {
    if i < p {
      FirstAt(texts, i + 1, keys, p);
    }
  }

  /** An IF whose left expression fails reports that error, whatever else is wrong after it. */
  lemma IfLeftFirst(tokens: seq<Token>, c: nat, t: nat)
    requires AllValid(tokens) && tokens != [] && tokens[0].View() == "IF"
    requires FirstFrom(Views(tokens), 1, CMP_TEXTS) == Some(c)
    requires LastBelow(Views(tokens), c, |tokens|, "THEN") == Some(t)
    requires ParseTokens(tokens[1..c]).Err?
    ensures ParseStatement(tokens) == Err(ParseTokens(tokens[1..c]).error)
  {
  }

  /** IF reports a missing comparator, then a missing THEN, before looking at any expression. */
  lemma IfMissing(tokens: seq<Token>)
    requires AllValid(tokens) && tokens != [] && tokens[0].View() == "IF"
    ensures (forall k :: 1 <= k < |tokens| ==> tokens[k].View() !in CMP_TEXTS) ==>
      ParseStatement(tokens) == Err(MissingToken("", DeTokenizeSpan(tokens), "<, =, >"))
  {
    if forall k :: 1 <= k < |tokens| ==> tokens[k].View() !in CMP_TEXTS {
      NoneFrom(Views(tokens), 1, CMP_TEXTS);
    }
  }

  /** FirstFrom finds nothing where nothing matches. */
  lemma {:induction false} NoneFrom(texts: seq<string>, i: nat, keys: set<string>)
    requires forall k :: i <= k < |texts| ==> texts[k] !in keys
    ensures FirstFrom(texts, i, keys) == None
    decreases |texts| - i
  {
    if i < |texts| {
      NoneFrom(texts, i + 1, keys);
    }
  }

  /** A first token that is no keyword is reported as an invalid token. */
  lemma NotKeyword(tokens: seq<Token>)
    requires AllValid(tokens) && tokens != [] && tokens[0].View() !in KEYWORDS
    ensures ParseStatement(tokens) == Err(InvalidToken("", DeTokenizeSpan(tokens), tokens[0].View()))
  {
  }

  /** A statement parsed as an IF went through the IF grammar. */
  lemma IfDispatch(tokens: seq<Token>)
    requires AllValid(tokens)
    requires ParseStatement(tokens).Ok? && ParseStatement(tokens).value.If?
    ensures tokens != [] && tokens[0].View() == "IF"
    ensures ParseStatement(tokens) == ParseIf(tokens)
  {
    ParsedKeyword(tokens);
    IfHead(tokens);
  }

  /** A statement whose first token is IF is parsed by the IF grammar. */
  lemma IfHead(tokens: seq<Token>)
    requires AllValid(tokens) && |tokens| >= 1 && tokens[0].View() == "IF"
    ensures ParseStatement(tokens) == ParseIf(tokens)
  {
  }

  /** A parsed IF ends in THEN and its digit target, and its comparator is one of the three. */
  lemma IfShape(tokens: seq<Token>, l: Expr, c: char, r: Expr, n: LineID)
    requires AllValid(tokens)
    requires ParseStatement(tokens) == Ok(If(l, c, r, n))
    ensures |tokens| >= 6 && tokens[0].View() == "IF"
    ensures tokens[|tokens| - 2].View() == "THEN" && AllDigits(tokens[|tokens| - 1].View())
    ensures n == DigitsValue(tokens[|tokens| - 1].View()) % UINT32_MOD
    ensures c in ['=', '<', '>']
  {
    var cp, tp := IfLocate(tokens);
    IfPartsShape(tokens, cp, tp, If(l, c, r, n));
    SameToken(tokens, tp, |tokens| - 2);
  }

  /** A statement parsed as an IF is the IF grammar's parts around its comparator and its THEN. */
  lemma IfLocate(tokens: seq<Token>) returns (cp: nat, tp: nat)
    requires AllValid(tokens)
    requires ParseStatement(tokens).Ok? && ParseStatement(tokens).value.If?
    ensures tokens[0].View() == "IF"
    ensures 1 <= cp < tp < |tokens| && tokens[cp].View() in CMP_TEXTS && tokens[tp].View() == "THEN"
    ensures ParseStatement(tokens) == ParseIfParts(tokens, cp, tp)
  {
    IfDispatch(tokens);
    cp, tp := IfFound(tokens);
  }

  /** The shape an IF's parts show once they parse. */
  lemma IfPartsShape(tokens: seq<Token>, cp: nat, tp: nat, st: Stmt)
    requires AllValid(tokens) && 1 <= cp < tp < |tokens| && tokens[cp].View() in CMP_TEXTS
    requires ParseIfParts(tokens, cp, tp) == Ok(st)
    ensures |tokens| >= 6 && tp == |tokens| - 2
    ensures AllDigits(tokens[|tokens| - 1].View()) && st.If?
    ensures st.target == DigitsValue(tokens[|tokens| - 1].View()) % UINT32_MOD
    ensures st.cmp in ['=', '<', '>']
  {
    CmpChar(tokens[cp].View());
  }

  /** Two positions that are equal hold the same token. */
  lemma SameToken(tokens: seq<Token>, i: nat, j: nat)
    requires i == j < |tokens|
    ensures tokens[i] == tokens[j]
  {
  }

  /** An IF that parses has its comparator at cp and its THEN at tp, the last token but one. */
  lemma IfFound(tokens: seq<Token>) returns (cp: nat, tp: nat)
    requires AllValid(tokens) && |tokens| >= 1 && ParseIf(tokens).Ok?
    ensures 1 <= cp < tp < |tokens| && tokens[cp].View() in CMP_TEXTS
    ensures tokens[tp].View() == "THEN"
    ensures ParseIf(tokens) == ParseIfParts(tokens, cp, tp)
  {
    var texts := Views(tokens);
    cp := FirstFrom(texts, 1, CMP_TEXTS).value;
    tp := LastBelow(texts, cp, |tokens|, "THEN").value;
  }

  /** The comparator character is the whole comparator token. */
  lemma CmpChar(s: string)
    requires s in CMP_TEXTS
    ensures s == [s[0]] && s[0] in ['=', '<', '>']
  {
    if s == "=" {
    } else if s == "<" {
    } else {
      assert s == ">";
    }
  }

  /** "GOTO 20" parses to GOTO 20, whose listing is the same text again. */
  lemma GotoRoundTrip(b: LineBuffer)
    requires b.text == "GOTO 20"
    ensures AllValid([Token(b, 0, 4), Token(b, 5, 7)])
    ensures ParseStatement([Token(b, 0, 4), Token(b, 5, 7)]) == Ok(Goto(20))
    ensures FormatStmt(Goto(20)) == b.text
  {
    var tokens := [Token(b, 0, 4), Token(b, 5, 7)];
    assert tokens[0].View() == "GOTO";
    assert tokens[1].View() == "20";
    assert DigitsValue("20") == 20 by {
      assert "20"[..1] == "2";
    }
    FormatGotoExample();
  }

  /** "INPUT 7" is refused: the operand of INPUT must be a variable. */
  lemma InputDigitRefused(b: LineBuffer)
    requires b.text == "INPUT 7"
    ensures AllValid([Token(b, 0, 5), Token(b, 6, 7)])
    ensures ParseStatement([Token(b, 0, 5), Token(b, 6, 7)]) == Err(InvalidVariable("", "INPUT 7", "7"))
  {
    var tokens := [Token(b, 0, 5), Token(b, 6, 7)];
    assert tokens[0].View() == "INPUT";
    assert tokens[1].View() == "7";
    assert b.text[0..7] == b.text;
  }

  // ---------------------------------------------------------------------------
  // The parser with its scanning loops

  /** The loop looking for the first token, after the keyword, that is one of keys. */
  method FindFirst(tokens: seq<Token>, keys: set<string>) returns (pos: Option<nat>)
    requires AllValid(tokens)
    ensures pos == FirstFrom(Views(tokens), 1, keys)
  {
    var i := 1;
    while i < |tokens|
      invariant 1 <= i
      invariant FirstFrom(Views(tokens), 1, keys) == FirstFrom(Views(tokens), i, keys)
      decreases |tokens| - i
    {
      if tokens[i].View() in keys {
        return Some(i);
      }
      i := i + 1;
    }
    return None;
  }

  /** The loop looking backwards for the last key token after index lo. */
  method FindLast(tokens: seq<Token>, lo: nat, key: string) returns (pos: Option<nat>)
    requires AllValid(tokens)
    ensures pos == LastBelow(Views(tokens), lo, |tokens|, key)
  {
    var i: nat := |tokens|;
    while i > lo + 1
      invariant i <= |tokens|
      invariant LastBelow(Views(tokens), lo, |tokens|, key) == LastBelow(Views(tokens), lo, i, key)
    {
      if tokens[i - 1].View() == key {
        return Some(i - 1);
      }
      i := i - 1;
    }
    return None;
  }

  /** StmtLet::Parse. */
  method ParseLetTokens(tokens: seq<Token>) returns (r: ParseResult<Stmt>)
    requires AllValid(tokens) && |tokens| >= 1
    ensures r == ParseLet(tokens)
  {
    var found := FindFirst(tokens, {"="});
    if found.None? {
      return Err(MissingToken("", DeTokenizeSpan(tokens), "="));
    }
    r := ParseLetPartsTokens(tokens, found.value);
  }

  /** The right side and the variable of a LET. */
  method ParseLetPartsTokens(tokens: seq<Token>, eq: nat) returns (r: ParseResult<Stmt>)
    requires AllValid(tokens) && 1 <= eq < |tokens|
    ensures r == ParseLetParts(tokens, eq)
  {
    var parsed := Parse(tokens[eq + 1..]);
    if parsed.Err? {
      return Err(parsed.error);
    }
    var lhs := tokens[1..eq];
    if |lhs| != 1 || !lhs[0].IsVariable() {
      return Err(InvalidVariable("", DeTokenizeSpan(tokens), DeTokenizeSpan(lhs)));
    }
    return Ok(Let(lhs[0].View(), parsed.value));
  }

  /** StmtIf::Parse. */
  method ParseIfTokens(tokens: seq<Token>) returns (r: ParseResult<Stmt>)
    requires AllValid(tokens) && |tokens| >= 1
    ensures r == ParseIf(tokens)
  {
    var foundCmp := FindFirst(tokens, CMP_TEXTS);
    if foundCmp.None? {
      return Err(MissingToken("", DeTokenizeSpan(tokens), "<, =, >"));
    }
    var c := foundCmp.value;
    var foundThen := FindLast(tokens, c, "THEN");
    if foundThen.None? {
      return Err(MissingToken("", DeTokenizeSpan(tokens), "THEN"));
    }
    r := ParseIfPartsTokens(tokens, c, foundThen.value);
  }

  /** The two expressions and the target of an IF. */
  method ParseIfPartsTokens(tokens: seq<Token>, c: nat, t: nat) returns (r: ParseResult<Stmt>)
    requires AllValid(tokens) && 1 <= c < t < |tokens| && tokens[c].View() in CMP_TEXTS
    ensures r == ParseIfParts(tokens, c, t)
  {
    var cmp := tokens[c].View()[0];
    var left :- Parse(tokens[1..c]);
    var right :- Parse(tokens[c + 1..t]);
    var line := tokens[t + 1..];
    if |line| != 1 || !line[0].IsDigit() {
      return Err(InvalidDigit("", DeTokenizeSpan(tokens), DeTokenizeSpan(line)));
    }
    var n := ToDigitLine(line[0]);
    return Ok(If(left, cmp, right, n));
  }

  /** StmtInput::Parse. */
  method ParseInputTokens(tokens: seq<Token>) returns (r: ParseResult<Stmt>)
    requires AllValid(tokens) && |tokens| >= 1
    ensures r == ParseInput(tokens)
  {
    if |tokens| != 2 || !tokens[1].IsVariable() {
      return Err(InvalidVariable("", DeTokenizeSpan(tokens), DeTokenizeSpan(tokens[1..])));
    }
    return Ok(Input(tokens[1].View()));
  }

  /** StmtPrint::Parse. */
  method ParsePrintTokens(tokens: seq<Token>) returns (r: ParseResult<Stmt>)
    requires AllValid(tokens) && |tokens| >= 1
    ensures r == ParsePrint(tokens)
  {
    var e :- Parse(tokens[1..]);
    return Ok(Print(e));
  }

  /** StmtGoto::Parse. */
  method ParseGotoTokens(tokens: seq<Token>) returns (r: ParseResult<Stmt>)
    requires AllValid(tokens) && |tokens| >= 1
    ensures r == ParseGoto(tokens)
  {
    if |tokens| != 2 || !tokens[1].IsDigit() {
      return Err(InvalidDigit("", DeTokenizeSpan(tokens), DeTokenizeSpan(tokens[1..])));
    }
    var n := ToDigitLine(tokens[1]);
    return Ok(Goto(n));
  }

  /** Statement::Parse: the keyword dispatch, then the kind's parser. */
  method ParseStmt(tokens: seq<Token>) returns (r: ParseResult<Stmt>)
    requires AllValid(tokens)
    ensures r == ParseStatement(tokens)
  {
    if tokens == [] {
      return Err(EmptyStmt);
    }
    var head := tokens[0].View();
    if head == "REM" {
      r := Ok(Rem(DeTokenizeSpan(tokens[1..])));
    } else if head == "INPUT" {
      r := ParseInputTokens(tokens);
    } else if head == "PRINT" {
      r := ParsePrintTokens(tokens);
    } else if head == "LET" {
      r := ParseLetTokens(tokens);
    } else if head == "GOTO" {
      r := ParseGotoTokens(tokens);
    } else if head == "IF" {
      r := ParseIfTokens(tokens);
    } else if head == "END" {
      r := if |tokens| > 1 then Err(InvalidToken("", DeTokenizeSpan(tokens), tokens[1].View())) else Ok(End);
    } else {
      r := Err(InvalidToken("", DeTokenizeSpan(tokens), head));
    }
  }
}
