/**
 * Tokens and the lexer (QBasic/basic/Token.hpp, QBasic/basic/Token.cpp).
 *
 * A token is a [begin, end) window onto the character buffer that one call of
 * Tokenize copied the line into. All tokens of one call refer to the same
 * buffer object, so DeTokenize can recover the original text between two of
 * them; the buffer is a class object so that "the same buffer" is reference
 * identity, as the shared pointer is in the source.
 */
module BasicToken {
  import opened StdTypes
  import opened BasicConfig

  /** The shared, never-modified copy of one tokenized line. */
  class LineBuffer {
    const text: string

    constructor (text: string)
      ensures this.text == text
    {
      this.text := text;
    }
  }

  datatype Token = Token(buffer: LineBuffer, begin: nat, end: nat) {
    /** Tokens made by Tokenize are non-empty windows inside their buffer. */
    predicate Valid() {
      begin < end <= |buffer.text|
    }

    /** GetView / GetString. */
    function View(): string
      requires Valid()
    {
      buffer.text[begin..end]
    }

    function Front(): char
      requires Valid()
    {
      buffer.text[begin]
    }

    function Back(): char
      requires Valid()
    {
      buffer.text[end - 1]
    }

    /** Every character is a decimal digit. */
    predicate IsDigit()
      requires Valid()
    {
      AllDigits(View())
    }

    /** A letter followed by letters and digits (keywords such as MOD or THEN included). */
    predicate IsVariable()
      requires Valid()
    {
      IsVariableName(View())
    }

    /** Exact, case-sensitive comparison with a keyword. */
    predicate IsKeyword(keyword: string)
      requires Valid()
    {
      View() == keyword
    }
  }

  predicate IsVariableName(s: string) {
    |s| > 0 && IsAlpha(s[0]) && forall i :: 1 <= i < |s| ==> IsAlnum(s[i])
  }

  predicate AllValid(tokens: seq<Token>) {
    forall k :: 0 <= k < |tokens| ==> tokens[k].Valid()
  }

  // ---------------------------------------------------------------------------
  // The merge rule and the spans the lexer produces

  /** Two neighbouring characters stay in one token when both are alphanumeric or they are equal. */
  predicate Merges(prev: char, next: char) {
    (IsAlnum(prev) && IsAlnum(next)) || prev == next
  }

  /** Where the token whose characters so far end just before j stops. */
  function TokenEnd(line: string, j: nat): (e: nat)
    requires 1 <= j <= |line|
    ensures j <= e <= |line|
    decreases |line| - j
  {
    if j == |line| || IsSpace(line[j]) || !Merges(line[j - 1], line[j]) then j else TokenEnd(line, j + 1)
  }

  /** The [begin, end) spans of the tokens of line[i..]. */
  function LexFrom(line: string, i: nat): seq<(nat, nat)>
    requires i <= |line|
    decreases |line| - i
  {
    if i == |line| then []
    else if IsSpace(line[i]) then LexFrom(line, i + 1)
    else
      var j := TokenEnd(line, i + 1);
      [(i, j)] + LexFrom(line, j)
  }

  function Lex(line: string): seq<(nat, nat)> {
    LexFrom(line, 0)
  }

  /** The spans are non-empty, inside line[lo..], in increasing order and without overlap. */
  ghost predicate OrderedSpans(line: string, s: seq<(nat, nat)>, lo: nat) {
    && (forall k :: 0 <= k < |s| ==> lo <= s[k].0 < s[k].1 <= |line|)
    && (forall k :: 0 <= k < |s| - 1 ==> s[k].1 <= s[k + 1].0)
  }

  /** No span holds a space. */
  ghost predicate SpacelessSpans(line: string, s: seq<(nat, nat)>)
    requires OrderedSpans(line, s, 0)
  {
    forall k, p :: 0 <= k < |s| && s[k].0 <= p < s[k].1 ==> !IsSpace(line[p])
  }

  /** Inside a span every neighbouring pair of characters merges. */
  ghost predicate MergedSpans(line: string, s: seq<(nat, nat)>)
    requires OrderedSpans(line, s, 0)
  {
    forall k, p :: 0 <= k < |s| && s[k].0 < p < s[k].1 ==> Merges(line[p - 1], line[p])
  }

  /** No span can be extended: it ends the line, or is followed by a space or by a character that does not merge. */
  ghost predicate MaximalSpans(line: string, s: seq<(nat, nat)>)
    requires OrderedSpans(line, s, 0)
  {
    forall k :: 0 <= k < |s| ==>
      s[k].1 == |line| || IsSpace(line[s[k].1]) || !Merges(line[s[k].1 - 1], line[s[k].1])
  }

  lemma {:induction false} TokenEndProps(line: string, j: nat)
    requires 1 <= j <= |line|
    ensures forall p :: j <= p < TokenEnd(line, j) ==> !IsSpace(line[p]) && Merges(line[p - 1], line[p])
    ensures var e := TokenEnd(line, j); e == |line| || IsSpace(line[e]) || !Merges(line[e - 1], line[e])
    decreases |line| - j
  {
    if !(j == |line| || IsSpace(line[j]) || !Merges(line[j - 1], line[j])) {
      TokenEndProps(line, j + 1);
    }
  }

  /** The lexer's spans are ordered and lie inside line[i..]. */
  lemma {:induction false} LexFromOrdered(line: string, i: nat)
    requires i <= |line|
    ensures OrderedSpans(line, LexFrom(line, i), i)
    ensures OrderedSpans(line, LexFrom(line, i), 0)
    decreases |line| - i
  {
    if i == |line| {
    } else if IsSpace(line[i]) {
      LexFromOrdered(line, i + 1);
    } else {
      var j := TokenEnd(line, i + 1);
      LexFromOrdered(line, j);
      var rest := LexFrom(line, j);
      var s := LexFrom(line, i);
      assert s == [(i, j)] + rest;
      forall k | 0 <= k < |s| ensures i <= s[k].0 < s[k].1 <= |line| {
        if k > 0 { assert s[k] == rest[k - 1]; }
      }
      forall k | 0 <= k < |s| - 1 ensures s[k].1 <= s[k + 1].0 {
        if k > 0 { assert s[k] == rest[k - 1]; }
      }
    }
  }

  /** No span of the lexer holds a space. */
  lemma {:induction false} LexFromSpaceless(line: string, i: nat)
    requires i <= |line|
    ensures OrderedSpans(line, LexFrom(line, i), 0)
    ensures SpacelessSpans(line, LexFrom(line, i))
    decreases |line| - i
  {
    LexFromOrdered(line, i);
    if i == |line| {
    } else if IsSpace(line[i]) {
      LexFromSpaceless(line, i + 1);
    } else {
      var j := TokenEnd(line, i + 1);
      TokenEndProps(line, i + 1);
      LexFromSpaceless(line, j);
      var rest := LexFrom(line, j);
      var s := LexFrom(line, i);
      assert s == [(i, j)] + rest;
      forall k, p | 0 <= k < |s| && s[k].0 <= p < s[k].1 ensures !IsSpace(line[p]) {
        if k > 0 { assert s[k] == rest[k - 1]; }
      }
    }
  }

  /** Inside every span of the lexer neighbouring characters merge. */
  lemma {:induction false} LexFromMerged(line: string, i: nat)
    requires i <= |line|
    ensures OrderedSpans(line, LexFrom(line, i), 0)
    ensures MergedSpans(line, LexFrom(line, i))
    decreases |line| - i
  {
    LexFromOrdered(line, i);
    if i == |line| {
    } else if IsSpace(line[i]) {
      LexFromMerged(line, i + 1);
    } else {
      var j := TokenEnd(line, i + 1);
      TokenEndProps(line, i + 1);
      LexFromMerged(line, j);
      var rest := LexFrom(line, j);
      var s := LexFrom(line, i);
      assert s == [(i, j)] + rest;
      forall k, p | 0 <= k < |s| && s[k].0 < p < s[k].1 ensures Merges(line[p - 1], line[p]) {
        if k > 0 { assert s[k] == rest[k - 1]; }
      }
    }
  }

  /** No span of the lexer can be extended to the right. */
  lemma {:induction false} LexFromMaximal(line: string, i: nat)
    requires i <= |line|
    ensures OrderedSpans(line, LexFrom(line, i), 0)
    ensures MaximalSpans(line, LexFrom(line, i))
    decreases |line| - i
  {
    LexFromOrdered(line, i);
    if i == |line| {
    } else if IsSpace(line[i]) {
      LexFromMaximal(line, i + 1);
    } else {
      var j := TokenEnd(line, i + 1);
      TokenEndProps(line, i + 1);
      LexFromMaximal(line, j);
      var rest := LexFrom(line, j);
      var s := LexFrom(line, i);
      assert s == [(i, j)] + rest;
      forall k | 0 <= k < |s|
        ensures s[k].1 == |line| || IsSpace(line[s[k].1]) || !Merges(line[s[k].1 - 1], line[s[k].1])
      {
        if k > 0 { assert s[k] == rest[k - 1]; }
      }
    }
  }

  /** The lexer's spans are ordered, space-free, merged inside and maximal. */
  lemma LexShape(line: string)
    ensures OrderedSpans(line, Lex(line), 0)
    ensures SpacelessSpans(line, Lex(line))
    ensures MergedSpans(line, Lex(line))
    ensures MaximalSpans(line, Lex(line))
  {
    LexFromOrdered(line, 0);
    LexFromSpaceless(line, 0);
    LexFromMerged(line, 0);
    LexFromMaximal(line, 0);
  }

  /** Character p lies inside one of the spans. */
  ghost predicate Covered(s: seq<(nat, nat)>, p: nat) {
    exists k :: 0 <= k < |s| && s[k].0 <= p < s[k].1
  }

  /** A character of line[i..] lies in some span exactly when it is not a space. */
  lemma {:induction false} LexFromCovers(line: string, i: nat, p: nat)
    requires i <= p < |line|
    ensures !IsSpace(line[p]) <==> Covered(LexFrom(line, i), p)
    decreases |line| - i
  {
    var s := LexFrom(line, i);
    LexFromOrdered(line, i);
    if IsSpace(line[i]) {
      assert s == LexFrom(line, i + 1);
      if p > i {
        LexFromCovers(line, i + 1, p);
      } else {
        LexFromOrdered(line, i + 1);
        forall k | 0 <= k < |s| ensures !(s[k].0 <= p < s[k].1) {
          assert s[k].0 >= i + 1;
        }
      }
    } else {
      var j := TokenEnd(line, i + 1);
      var rest := LexFrom(line, j);
      assert s == [(i, j)] + rest;
      if p < j {
        TokenEndProps(line, i + 1);
        assert s[0].0 <= p < s[0].1;
      } else {
        LexFromCovers(line, j, p);
        if !IsSpace(line[p]) {
          var k :| 0 <= k < |rest| && rest[k].0 <= p < rest[k].1;
          assert s[k + 1] == rest[k];
        } else {
          forall k | 0 <= k < |s| ensures !(s[k].0 <= p < s[k].1) {
            if k > 0 {
              assert s[k] == rest[k - 1];
            } else {
              assert s[0].1 == j;
            }
          }
        }
      }
    }
  }

  /** Ordered spans keep their order across any distance: an earlier span ends before a later one begins. */
  lemma {:induction false} SpansChain(line: string, s: seq<(nat, nat)>, a: nat, b: nat)
    requires OrderedSpans(line, s, 0)
    requires a < b < |s|
    ensures s[a].1 <= s[b].0
    decreases b - a
  {
    if a + 1 < b {
      SpansChain(line, s, a + 1, b);
    }
  }

  /** Every non-space character of the line lies in exactly one token; a space lies in none. */
  lemma LexPartitions(line: string, p: nat)
    requires p < |line|
    ensures !IsSpace(line[p]) <==> Covered(Lex(line), p)
    ensures var s := Lex(line);
      forall k1, k2 :: 0 <= k1 < |s| && 0 <= k2 < |s| && s[k1].0 <= p < s[k1].1 && s[k2].0 <= p < s[k2].1 ==> k1 == k2
  {
    LexFromCovers(line, 0, p);
    LexFromOrdered(line, 0);
    var s := Lex(line);
    forall k1, k2 | 0 <= k1 < |s| && 0 <= k2 < |s| && s[k1].0 <= p < s[k1].1 && s[k2].0 <= p < s[k2].1
      ensures k1 == k2
    {
      if k1 < k2 { SpansChain(line, s, k1, k2); }
      if k2 < k1 { SpansChain(line, s, k2, k1); }
    }
  }

  /** A line yields no tokens exactly when it is empty or all spaces. */
  lemma LexEmpty(line: string)
    ensures Lex(line) == [] <==> forall p :: 0 <= p < |line| ==> IsSpace(line[p])
  {
    var s := Lex(line);
    LexFromOrdered(line, 0);
    if s == [] {
      forall p | 0 <= p < |line| ensures IsSpace(line[p]) { LexFromCovers(line, 0, p); }
    } else {
      LexFromCovers(line, 0, s[0].0);
      assert s[0].0 <= s[0].0 < s[0].1;
    }
  }

  /** The texts of the tokens of a line, in order. */
  function LexTexts(line: string): (texts: seq<string>)
    ensures |texts| == |Lex(line)|
  {
    LexFromOrdered(line, 0);
    var s := Lex(line);
    seq(|s|, k requires 0 <= k < |s| => line[s[k].0..s[k].1])
  }

  lemma LexExampleArith()
    ensures LexTexts("12+34") == ["12", "+", "34"]
  {
    var line := "12+34";
    assert LexFrom(line, 3) == [(3, 5)] by {
      assert TokenEnd(line, 5) == 5;
      assert TokenEnd(line, 4) == 5;
    }
    assert LexFrom(line, 2) == [(2, 3), (3, 5)] by {
      assert TokenEnd(line, 3) == 3;
    }
    assert Lex(line) == [(0, 2), (2, 3), (3, 5)] by {
      assert TokenEnd(line, 2) == 2;
      assert TokenEnd(line, 1) == 2;
    }
    var t := LexTexts(line);
    assert t[0] == "12" && t[1] == "+" && t[2] == "34";
  }

  lemma LexExamplePower()
    ensures LexTexts("2**3") == ["2", "**", "3"]
  {
    assert Lex("2**3") == [(0, 1), (1, 3), (3, 4)];
    var t := LexTexts("2**3");
    assert t[0] == "2" && t[1] == "**" && t[2] == "3";
  }

  lemma LexExampleBrackets()
    ensures LexTexts(" ((X)) ") == ["((", "X", "))"]
  {
    var line := " ((X)) ";
    assert LexFrom(line, 4) == [(4, 6)] by {
      assert LexFrom(line, 6) == [];
      assert TokenEnd(line, 6) == 6;
      assert TokenEnd(line, 5) == 6;
    }
    assert LexFrom(line, 3) == [(3, 4), (4, 6)] by {
      assert TokenEnd(line, 4) == 4;
    }
    assert Lex(line) == [(1, 3), (3, 4), (4, 6)] by {
      assert TokenEnd(line, 3) == 3;
      assert TokenEnd(line, 2) == 3;
    }
    var t := LexTexts(line);
    assert t[0] == "((" && t[1] == "X" && t[2] == "))";
  }

  // ---------------------------------------------------------------------------
  // Tokenize

  /** The [begin, end) spans of a token sequence. */
  function SpansOf(tokens: seq<Token>): (s: seq<(nat, nat)>)
    ensures |s| == |tokens|
    ensures forall k :: 0 <= k < |s| ==> s[k] == (tokens[k].begin, tokens[k].end)
  {
    seq(|tokens|, k requires 0 <= k < |tokens| => (tokens[k].begin, tokens[k].end))
  }

  /** Tokens that all view one buffer holding `line`, cut at the lexer's spans. */
  ghost predicate TokensOf(tokens: seq<Token>, line: string) {
    && SpansOf(tokens) == Lex(line)
    && (forall k :: 0 <= k < |tokens| ==> tokens[k].buffer.text == line)
    && (forall k :: 0 <= k < |tokens| ==> tokens[k].buffer == tokens[0].buffer)
  }

  /** Token::Tokenize: copy the line into a new buffer and cut it into tokens by the merge rule. */
  method Tokenize(line: string) returns (tokens: seq<Token>)
    ensures TokensOf(tokens, line)
    ensures AllValid(tokens)
    ensures |tokens| == |LexTexts(line)|
    ensures forall k :: 0 <= k < |tokens| ==> tokens[k].View() == LexTexts(line)[k]
  {
    var buffer := new LineBuffer(line);
    tokens := [];
    var i := 0;
    while i < |line|
      invariant i <= |line|
      invariant forall k :: 0 <= k < |tokens| ==> tokens[k].buffer == buffer
      invariant SpansOf(tokens) + LexFrom(line, i) == Lex(line)
      decreases |line| - i
    {
      if IsSpace(line[i]) {
        i := i + 1;
        continue;
      }
      var j := i + 1;
      while j < |line|
        invariant i + 1 <= j <= |line|
        invariant TokenEnd(line, j) == TokenEnd(line, i + 1)
        decreases |line| - j
      {
        if IsSpace(line[j]) {
          break;
        }
        var merge := (IsAlnum(line[j - 1]) && IsAlnum(line[j])) || line[j - 1] == line[j];
        if !merge {
          break;
        }
        j := j + 1;
      }
      assert LexFrom(line, i) == [(i, j)] + LexFrom(line, j);
      assert SpansOf(tokens + [Token(buffer, i, j)]) == SpansOf(tokens) + [(i, j)];
      tokens := tokens + [Token(buffer, i, j)];
      i := j;
    }
    TokensOfViews(tokens, line);
  }

  /** Tokens cut at the lexer's spans are valid and their views are the lexer's texts. */
  lemma TokensOfViews(tokens: seq<Token>, line: string)
    requires TokensOf(tokens, line)
    ensures AllValid(tokens)
    ensures |tokens| == |LexTexts(line)|
    ensures forall k :: 0 <= k < |tokens| ==> tokens[k].View() == LexTexts(line)[k]
  {
    LexFromOrdered(line, 0);
    var s := Lex(line);
    assert forall k :: 0 <= k < |tokens| ==> s[k] == (tokens[k].begin, tokens[k].end);
  }

  /** The texts of a token sequence. */
  function Views(tokens: seq<Token>): (texts: seq<string>)
    requires AllValid(tokens)
    ensures |texts| == |tokens|
    ensures forall k :: 0 <= k < |tokens| ==> texts[k] == tokens[k].View() && |texts[k]| > 0
  {
    seq(|tokens|, k requires 0 <= k < |tokens| => tokens[k].View())
  }

  // ---------------------------------------------------------------------------
  // DeTokenize

  /** The original text from l's first character to r's last, or "" across buffers or out of order. */
  function DeTokenize(l: Token, r: Token): (s: string)
    requires l.Valid() && r.Valid()
    ensures l.buffer != r.buffer || l.begin >= r.end ==> s == ""
    ensures l.buffer == r.buffer && l.begin < r.end ==> s == l.buffer.text[l.begin..r.end]
  {
    if l.buffer != r.buffer || l.begin >= r.end then "" else l.buffer.text[l.begin..r.end]
  }

  /** DeTokenize of a span of tokens: "" when empty, else from the first token to the last. */
  function DeTokenizeSpan(tokens: seq<Token>): (s: string)
    requires AllValid(tokens)
    ensures tokens == [] ==> s == ""
    ensures |tokens| == 1 ==> s == tokens[0].View()
  {
    if tokens == [] then "" else DeTokenize(tokens[0], tokens[|tokens| - 1])
  }

  /** Within one Tokenize call, tokens i..j lie in order between token i's start and token j's end. */
  lemma TokensNested(tokens: seq<Token>, line: string, i: nat, j: nat)
    requires TokensOf(tokens, line)
    requires i <= j < |tokens|
    ensures forall k :: i <= k <= j ==> tokens[i].begin <= tokens[k].begin < tokens[k].end <= tokens[j].end
  {
    LexFromOrdered(line, 0);
    var s := Lex(line);
    forall k | i <= k <= j
      ensures tokens[i].begin <= tokens[k].begin < tokens[k].end <= tokens[j].end
    {
      assert s[k] == (tokens[k].begin, tokens[k].end);
      assert s[i] == (tokens[i].begin, tokens[i].end);
      assert s[j] == (tokens[j].begin, tokens[j].end);
      if i < k { SpansChain(line, s, i, k); }
      if k < j { SpansChain(line, s, k, j); }
    }
  }

  /**
   * For the tokens of one Tokenize call, DeTokenize of a contiguous range is
   * the line's text from the first token's start to the last token's end, and
   * it holds the text of every token of the range at that token's own offset.
   */
  lemma DeTokenizeRange(tokens: seq<Token>, line: string, i: nat, j: nat)
    requires TokensOf(tokens, line)
    requires i <= j < |tokens|
    ensures AllValid(tokens)
    ensures tokens[i].begin < tokens[j].end <= |line|
    ensures DeTokenizeSpan(tokens[i..j + 1]) == line[tokens[i].begin..tokens[j].end]
    ensures forall k :: i <= k <= j ==>
      tokens[i].begin <= tokens[k].begin && tokens[k].end <= tokens[j].end &&
      tokens[k].View() ==
      DeTokenizeSpan(tokens[i..j + 1])[tokens[k].begin - tokens[i].begin..tokens[k].end - tokens[i].begin]
  {
    TokensOfViews(tokens, line);
    TokensNested(tokens, line, i, j);
    var range := tokens[i..j + 1];
    assert range[0] == tokens[i] && range[|range| - 1] == tokens[j];
    assert tokens[i].buffer == tokens[j].buffer;
    var text := line[tokens[i].begin..tokens[j].end];
    assert DeTokenizeSpan(range) == text;
    forall k | i <= k <= j
      ensures tokens[k].View() == text[tokens[k].begin - tokens[i].begin..tokens[k].end - tokens[i].begin]
    {
      assert tokens[k].View() == line[tokens[k].begin..tokens[k].end];
    }
  }

  // ---------------------------------------------------------------------------
  // ToDigit

  /** Token::ToDigit<Int>: the Horner value of the digits (Int is unbounded in this model). */
  method ToDigitInt(t: Token) returns (v: int)
    requires t.Valid() && t.IsDigit()
    ensures v == DigitsValue(t.View())
  {
    var view := t.View();
    v := 0;
    for k := 0 to |view|
      invariant v == DigitsValue(view[..k])
    {
      assert view[..k + 1][..k] == view[..k];
      v := v * 10 + (view[k] as int - '0' as int);
    }
    assert view[..|view|] == view;
  }

  /** Token::ToDigit<LineID>: the same Horner loop in uint32_t arithmetic, so it wraps modulo 2^32. */
  method ToDigitLine(t: Token) returns (v: LineID)
    requires t.Valid() && t.IsDigit()
    ensures v == DigitsValue(t.View()) % UINT32_MOD
  {
    var view := t.View();
    v := 0;
    for k := 0 to |view|
      invariant v == DigitsValue(view[..k]) % UINT32_MOD
    {
      assert view[..k + 1][..k] == view[..k];
      HornerMod(DigitsValue(view[..k]), DigitValue(view[k]));
      v := (v * 10 + (view[k] as int - '0' as int)) % UINT32_MOD;
    }
    assert view[..|view|] == view;
  }
}
