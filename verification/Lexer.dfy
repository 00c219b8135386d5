/** The character lexer: what its tokens cover, where they say they are, and that lexing is stable. */
module Lexer {
  import opened Digits

  datatype Kind =
    | Eof
    | Punct(c: char)
    | Keyword(word: string)
    | Name(word: string)
    | IntLit
    | FloatLit
    | Unknown(c: char)

  datatype Token = Token(kind: Kind, lexeme: string, line: nat, col: nat)

  // ------------------------------------------------------------------- characters --

  predicate Blank(c: char) { c == ' ' || c == '\n' || c == '\r' || c == '\t' }
  predicate WordChar(c: char) { IsLetter(c) || IsDigit(c) }
  predicate NumberChar(c: char) { IsDigit(c) || c == '.' }
  predicate IsPunct(c: char) { c in {'{', '}', '(', ')', ';', ':', ',', '=', '+', '*', '&', '<', '>'} }

  predicate IsKeyword(w: string) {
    w in {"enum", "struct", "impl", "fn", "let", "return", "if", "else", "while", "true", "false", "mut",
          "String", "Vec", "char", "I32", "I64", "bool"}
  }

  // --------------------------------------------------------------- what a text means --

  /** The text ends at its first terminator. */
  predicate AtEnd(s: string, pos: nat) { pos >= |s| || s[pos] == '\0' }

  /** The characters of a token run on while they fit its first one. */
  predicate Continues(first: char, c: char) {
    if IsLetter(first) then WordChar(c) else IsDigit(first) && NumberChar(c)
  }

  function RunEnd(s: string, first: char, pos: nat): (end: nat)
    requires pos <= |s|
    ensures pos <= end <= |s| && forall i :: pos <= i < end ==> Continues(first, s[i])
    ensures end < |s| ==> !Continues(first, s[end])
    decreases |s| - pos
  {
    if pos < |s| && Continues(first, s[pos]) then RunEnd(s, first, pos + 1) else pos
  }

  function SkipBlanks(s: string, pos: nat): (end: nat)
    requires pos <= |s|
    ensures pos <= end <= |s| && (forall i :: pos <= i < end ==> Blank(s[i])) && (end < |s| ==> !Blank(s[end]))
    decreases |s| - pos
  {
    if pos < |s| && Blank(s[pos]) then SkipBlanks(s, pos + 1) else pos
  }

  /** Where a token stands in the text. */
  datatype Span = Span(from: nat, to: nat)

  /** The tokens from `pos` on, up to the end of the text. */
  function Spans(s: string, pos: nat): (spans: seq<Span>)
    requires pos <= |s|
    ensures forall k :: 0 <= k < |spans| ==> spans[k].from < spans[k].to <= |s|
    decreases |s| - pos
  {
    var from := SkipBlanks(s, pos);
    if AtEnd(s, from) then [] else
      var to := RunEnd(s, s[from], from + 1);
      [Span(from, to)] + Spans(s, to)
  }

  /** A token is its text, except that characters without a meaning all look alike. */
  function Lexeme(text: string): string
    requires text != ""
  {
    if IsLetter(text[0]) || IsDigit(text[0]) || IsPunct(text[0]) then text else "?"
  }

  function KindOf(text: string): Kind
    requires text != ""
  {
    if IsPunct(text[0]) then Punct(text[0])
    else if IsLetter(text[0]) then if IsKeyword(text) then Keyword(text) else Name(text)
    else if IsDigit(text[0]) then if '.' in text then FloatLit else IntLit
    else Unknown(text[0])
  }

  function Newlines(s: string): nat {
    if s == "" then 0 else Newlines(s[..|s| - 1]) + if s[|s| - 1] == '\n' then 1 else 0
  }

  /** How many characters come after the last newline. */
  function Tail(s: string): nat { if s == "" || s[|s| - 1] == '\n' then 0 else Tail(s[..|s| - 1]) + 1 }

  function LineAt(s: string, pos: nat): nat
    requires pos <= |s|
  {
    1 + Newlines(s[..pos])
  }

  function ColAt(s: string, pos: nat): nat
    requires pos <= |s|
  {
    1 + Tail(s[..pos])
  }

  function TokenAt(s: string, span: Span): (token: Token)
    requires span.from < span.to <= |s|
    ensures token.lexeme != ""
  {
    var text := s[span.from..span.to];
    Token(KindOf(text), Lexeme(text), LineAt(s, span.from), ColAt(s, span.from))
  }

  /** The tokens of a text: each has the position of its first character. */
  function Tokens(s: string): (tokens: seq<Token>)
    ensures |tokens| == |Spans(s, 0)|
  {
    seq(|Spans(s, 0)|, k requires 0 <= k < |Spans(s, 0)| => TokenAt(s, Spans(s, 0)[k]))
  }

  /** One token for each span. */
  ghost predicate TokensOf(s: string, spans: seq<Span>, tokens: seq<Token>) {
    && |tokens| == |spans|
    && forall k :: 0 <= k < |spans| ==> spans[k].from < spans[k].to <= |s| && tokens[k] == TokenAt(s, spans[k])
  }

  lemma MoreTokens(s: string, spans: seq<Span>, tokens: seq<Token>, span: Span, token: Token)
    requires TokensOf(s, spans, tokens) && span.from < span.to <= |s| && token == TokenAt(s, span)
    ensures TokensOf(s, spans + [span], tokens + [token])
  {
    hide TokenAt;
  }

  lemma TextToken(s: string, from: nat, to: nat)
    requires from < to <= |s|
    ensures var text := s[from..to];
            TokenAt(s, Span(from, to)) == Token(KindOf(text), Lexeme(text), LineAt(s, from), ColAt(s, from))
  {}

  /** What is neither letter nor digit is a token of its own. */
  lemma SingleCharacter(s: string, from: nat)
    requires from < |s| && !IsLetter(s[from]) && !IsDigit(s[from])
    ensures RunEnd(s, s[from], from + 1) == from + 1 && s[from..from + 1] == [s[from]]
    ensures var c := s[from];
            && KindOf([c]) == (if IsPunct(c) then Punct(c) else Unknown(c))
            && Lexeme([c]) == if IsPunct(c) then [c] else "?"
  {}

  lemma WordOrNumber(text: string)
    requires text != "" && (IsLetter(text[0]) || IsDigit(text[0]))
    ensures Lexeme(text) == text && !IsPunct(text[0])
    ensures KindOf(text) == if IsLetter(text[0]) then if IsKeyword(text) then Keyword(text) else Name(text)
                            else if '.' in text then FloatLit else IntLit
  {}

  lemma NoTokens(s: string)
    ensures TokensOf(s, [], [])
  {}

  lemma AllTokens(s: string, tokens: seq<Token>)
    requires TokensOf(s, Spans(s, 0), tokens)
    ensures tokens == Tokens(s)
  {
    hide TokenAt, Spans;
  }

  // --------------------------------------------------------------------- the lexer --

  class CharLexer {
    const input: string
    var pos: nat
    var line: nat
    var col: nat

    ghost predicate Valid()
      reads this
    {
      pos <= |input| && line == LineAt(input, pos) && col == ColAt(input, pos)
    }

    constructor (source: string)
      ensures Valid() && input == source && pos == 0
    {
      input, pos, line, col := source, 0, 1, 1;
    }

    function Peek(): (c: char)
      reads this
      ensures (c == '\0') == AtEnd(input, pos) && (c != '\0' ==> c == input[pos])
    {
      if pos >= |input| then '\0' else input[pos]
    }

    method Advance() returns (c: char)
      requires Valid()
      modifies this
      ensures Valid() && c == old(Peek()) && pos == old(pos) + (if c == '\0' then 0 else 1)
    {
      c := Peek();
      if c != '\0' {
        assert input[..pos + 1][..pos] == input[..pos];
        pos := pos + 1;
        if c == '\n' {
          line, col := line + 1, 1;
        } else {
          col := col + 1;
        }
      }
    }

    method SkipWhitespace()
      requires Valid()
      modifies this
      ensures Valid() && pos == SkipBlanks(input, old(pos))
    {
      while Blank(Peek())
        invariant Valid() && SkipBlanks(input, pos) == SkipBlanks(input, old(pos))
        decreases |input| - pos
      {
        var c := Advance();
      }
    }

    /** The rest of a word or number whose first character has been read. */
    method ScanRun(first: char) returns (text: string)
      requires Valid() && 0 < pos && input[pos - 1] == first && (IsLetter(first) || IsDigit(first))
      modifies this
      ensures Valid() && pos == RunEnd(input, first, old(pos)) && text == input[old(pos) - 1..pos]
    {
      text := [first];
      while Continues(first, Peek())
        invariant Valid() && old(pos) <= pos && RunEnd(input, first, pos) == RunEnd(input, first, old(pos))
        invariant text == input[old(pos) - 1..pos]
        decreases |input| - pos
      {
        var c := Advance();
        text := text + [c];
      }
    }

    method NextToken() returns (token: Token)
      requires Valid()
      modifies this
      ensures Valid() && old(pos) <= pos
      ensures var from := SkipBlanks(input, old(pos));
              if AtEnd(input, from) then pos == from && token == Token(Eof, "", LineAt(input, from), ColAt(input, from))
              else pos == RunEnd(input, input[from], from + 1) && token == TokenAt(input, Span(from, pos))
    {
      hide LineAt, ColAt, TokenAt, RunEnd, SkipBlanks, KindOf, Lexeme;
      SkipWhitespace();
      var line0, col0 := line, col;
      ghost var from := pos;
      var c := Advance();
      if c == '\0' {
        return Token(Eof, "", line0, col0);
      }
      if IsPunct(c) {
        SingleCharacter(input, from);
        token := Token(Punct(c), [c], line0, col0);
      } else if IsLetter(c) {
        var text := ScanRun(c);
        WordOrNumber(text);
        token := Token(if IsKeyword(text) then Keyword(text) else Name(text), text, line0, col0);
      } else if IsDigit(c) {
        var text := ScanRun(c);
        WordOrNumber(text);
        token := Token(if '.' in text then FloatLit else IntLit, text, line0, col0);
      } else {
        SingleCharacter(input, from);
        token := Token(Unknown(c), "?", line0, col0);
      }
      TextToken(input, from, pos);
    }

    method Tokenize() returns (tokens: seq<Token>)
      requires Valid() && pos == 0
      modifies this
      ensures tokens == Tokens(input)
    {
      hide TokenAt, SkipBlanks, RunEnd, LineAt, ColAt, Spans, AtEnd, Tokens, TokensOf;
      tokens := [];
      var parsing := true;
      ghost var spans: seq<Span> := [];
      NoTokens(input);
      while parsing
        invariant Valid() && TokensOf(input, spans, tokens)
        invariant Spans(input, 0) == spans + if parsing then Spans(input, pos) else []
        decreases |input| - pos, parsing
      {
        SpansFrom(input, pos);
        ghost var from := SkipBlanks(input, pos);
        var token := NextToken();
        if token.lexeme == "" {
          parsing := false;
        } else {
          MoreTokens(input, spans, tokens, Span(from, pos), token);
          spans := spans + [Span(from, pos)];
          tokens := tokens + [token];
        }
      }
      assert spans + [] == spans;
      AllTokens(input, tokens);
    }
  }

  lemma SpansFrom(s: string, pos: nat)
    requires pos <= |s|
    ensures var from := SkipBlanks(s, pos);
            Spans(s, pos) == if AtEnd(s, from) then []
                             else [Span(from, RunEnd(s, s[from], from + 1))] + Spans(s, RunEnd(s, s[from], from + 1))
  {}

  // -------------------------------------------------------------------- coverage --

  /** Character `i` belongs to one of the tokens. */
  predicate Covered(spans: seq<Span>, i: nat) { exists k :: 0 <= k < |spans| && spans[k].from <= i < spans[k].to }

  /** Tokens come in the order of the text and do not overlap. */
  predicate InOrder(spans: seq<Span>) { forall j, k :: 0 <= j < k < |spans| ==> spans[j].to <= spans[k].from }

  /** Before the first terminator the tokens cover every character that is not blank, and no blank;
      none reaches past it. */
  lemma {:induction false} CoverageFrom(s: string, pos: nat, end: nat)
    requires pos <= end <= |s| && (forall i :: pos <= i < end ==> s[i] != '\0') && (end < |s| ==> s[end] == '\0')
    ensures var spans := Spans(s, pos);
            && InOrder(spans)
            && (forall k :: 0 <= k < |spans| ==> pos <= spans[k].from && spans[k].to <= end)
            && (forall i :: pos <= i < end ==> (Covered(spans, i) <==> !Blank(s[i])))
    decreases |s| - pos
  {
    hide RunEnd, SkipBlanks, Spans, Covered, InOrder, Blank;
    SpansFrom(s, pos);
    var from := SkipBlanks(s, pos);
    OnlyBlanks(s, pos, end);
    if !AtEnd(s, from) {
      var to := RunEnd(s, s[from], from + 1);
      OneToken(s, from, end);
      CoverageFrom(s, to, end);
      CoverFirst(s, pos, Span(from, to), Spans(s, to), end);
    } else {
      NothingCovered(s, pos, end);
    }
  }

  lemma OnlyBlanks(s: string, pos: nat, end: nat)
    requires pos <= end <= |s| && (end < |s| ==> s[end] == '\0')
    ensures var from := SkipBlanks(s, pos);
            from <= end && (forall i :: pos <= i < from ==> Blank(s[i])) && (from < |s| ==> !Blank(s[from]))
  {
    hide SkipBlanks;
  }

  lemma NothingCovered(s: string, pos: nat, end: nat)
    requires pos <= end <= |s| && forall i :: pos <= i < end ==> Blank(s[i])
    ensures InOrder([]) && forall i :: pos <= i < end ==> (Covered([], i) <==> !Blank(s[i]))
  {}

  /** A token has no blank in it and ends where the text ends, if not before. */
  lemma OneToken(s: string, from: nat, end: nat)
    requires from < end <= |s| && !Blank(s[from]) && (end < |s| ==> s[end] == '\0')
    ensures var to := RunEnd(s, s[from], from + 1); to <= end && forall i :: from <= i < to ==> !Blank(s[i])
  {
    hide RunEnd;
  }

  lemma CoverFirst(s: string, pos: nat, span: Span, rest: seq<Span>, end: nat)
    requires pos <= span.from < span.to <= end <= |s|
    requires forall i :: pos <= i < span.from ==> Blank(s[i])
    requires forall i :: span.from <= i < span.to ==> !Blank(s[i])
    requires InOrder(rest) && forall k :: 0 <= k < |rest| ==> span.to <= rest[k].from
    requires forall i :: span.to <= i < end ==> (Covered(rest, i) <==> !Blank(s[i]))
    ensures InOrder([span] + rest) && forall i :: pos <= i < end ==> (Covered([span] + rest, i) <==> !Blank(s[i]))
  {
    hide Covered, Blank;
    forall i | pos <= i < end ensures Covered([span] + rest, i) <==> !Blank(s[i]) {
      CoveredFirst(span, rest, i);
      NotBefore(rest, span.to, i);
    }
  }

  lemma NotBefore(spans: seq<Span>, to: nat, i: nat)
    requires forall k :: 0 <= k < |spans| ==> to <= spans[k].from
    ensures i < to ==> !Covered(spans, i)
  {}

  lemma CoveredFirst(span: Span, rest: seq<Span>, i: nat)
    ensures Covered([span] + rest, i) <==> span.from <= i < span.to || Covered(rest, i)
  {
    var spans := [span] + rest;
    if span.from <= i < span.to {
      assert spans[0].from <= i < spans[0].to;
    } else if Covered(rest, i) {
      var k :| 0 <= k < |rest| && rest[k].from <= i < rest[k].to;
      assert spans[k + 1] == rest[k];
    }
  }

  /** The end of a text. */
  function Limit(s: string): (end: nat)
    ensures end <= |s| && (forall i :: 0 <= i < end ==> s[i] != '\0') && (end < |s| ==> s[end] == '\0')
  {
    if s == "" || s[0] == '\0' then 0 else
      var rest := Limit(s[1..]);
      assert forall i :: 0 < i < 1 + rest ==> s[i] == s[1..][i - 1];
      1 + rest
  }

  /** Tokens cover every non-blank character before the first terminator, and each says the line and
      column of its first character. */
  lemma Coverage(s: string)
    ensures var spans := Spans(s, 0);
            && InOrder(spans)
            && (forall i :: 0 <= i < Limit(s) ==> (Covered(spans, i) <==> !Blank(s[i])))
            && (forall i :: Limit(s) <= i ==> !Covered(spans, i))
            && |Tokens(s)| == |spans|
            && (forall k :: 0 <= k < |spans| ==>
                  Tokens(s)[k].line == LineAt(s, spans[k].from) && Tokens(s)[k].col == ColAt(s, spans[k].from))
  {
    CoverageFrom(s, 0, Limit(s));
  }

  // --------------------------------------------------------------------- stability --

  function Lexemes(tokens: seq<Token>): (ls: seq<string>)
    ensures |ls| == |tokens|
  {
    seq(|tokens|, k requires 0 <= k < |tokens| => tokens[k].lexeme)
  }

  /** Lexemes with a space between each two. */
  function Joined(ls: seq<string>): string {
    if ls == [] then "" else if |ls| == 1 then ls[0] else ls[0] + " " + Joined(ls[1..])
  }

  /** The covered texts. */
  function Texts(s: string, spans: seq<Span>): (texts: seq<string>)
    requires forall k :: 0 <= k < |spans| ==> spans[k].from < spans[k].to <= |s|
    ensures |texts| == |spans| && forall k :: 0 <= k < |spans| ==> texts[k] == s[spans[k].from..spans[k].to]
  {
    seq(|spans|, k requires 0 <= k < |spans| => s[spans[k].from..spans[k].to])
  }

  /** A text that is one token and its own lexeme. */
  predicate IsLexeme(x: string) {
    && x != "" && !Blank(x[0]) && x[0] != '\0' && Lexeme(x) == x
    && forall i :: 1 <= i < |x| ==> Continues(x[0], x[i])
  }

  lemma {:induction false} SpansAreLexemes(s: string, pos: nat)
    requires pos <= |s|
    ensures var spans := Spans(s, pos);
            forall k :: 0 <= k < |spans| ==> IsLexeme(Lexeme(s[spans[k].from..spans[k].to]))
    decreases |s| - pos
  {
    hide RunEnd, SkipBlanks, Spans, IsLexeme, Lexeme;
    SpansFrom(s, pos);
    var from := SkipBlanks(s, pos);
    if !AtEnd(s, from) {
      var to := RunEnd(s, s[from], from + 1);
      SpansAreLexemes(s, to);
      OneLexeme(s, from, to);
    }
  }

  lemma OneLexeme(s: string, from: nat, to: nat)
    requires from < to <= |s| && !Blank(s[from]) && s[from] != '\0'
    requires forall i :: from < i < to ==> Continues(s[from], s[i])
    ensures IsLexeme(Lexeme(s[from..to]))
  {
    var x := s[from..to];
    assert forall i :: 1 <= i < |x| ==> Continues(x[0], x[i]);
  }

  /** Behind `pre`, the joined lexemes are found again one by one. */
  lemma {:induction false} Relex(t: string, pre: string, ls: seq<string>)
    requires t == pre + Joined(ls) && forall k :: 0 <= k < |ls| ==> IsLexeme(ls[k])
    ensures Texts(t, Spans(t, |pre|)) == ls
    decreases |ls|, 1
  {
    hide Spans, RunEnd, SkipBlanks, IsLexeme, Joined, Texts, Blank, Continues;
    var at := |pre|;
    SpansFrom(t, at);
    if ls == [] {
      NothingJoined();
      SkipStops(t, at);
    } else {
      var end := at + |ls[0]|;
      LexemeStands(t, pre, ls);
      SkipStops(t, at);
      RunIs(t, ls[0], at);
      RelexRest(t, pre, ls);
      TextsFirst(t, Span(at, end), Spans(t, end));
    }
  }

  lemma NothingJoined()
    ensures Joined([]) == ""
  {}

  lemma {:induction false} RelexRest(t: string, pre: string, ls: seq<string>)
    requires t == pre + Joined(ls) && ls != [] && forall k :: 0 <= k < |ls| ==> IsLexeme(ls[k])
    ensures |pre| + |ls[0]| <= |t| && Texts(t, Spans(t, |pre| + |ls[0]|)) == ls[1..]
    decreases |ls|, 0
  {
    hide RunEnd, SkipBlanks, IsLexeme, Spans, Texts;
    var end := |pre| + |ls[0]|;
    LexemeStands(t, pre, ls);
    if |ls| == 1 {
      SpansFrom(t, end);
      SkipStops(t, end);
    } else {
      var pre' := pre + ls[0] + " ";
      assert t == pre' + Joined(ls[1..]);
      Relex(t, pre', ls[1..]);
      BlankSkipped(t, end);
    }
  }

  lemma LexemeStands(t: string, pre: string, ls: seq<string>)
    requires ls != [] && t == pre + Joined(ls) && IsLexeme(ls[0])
    ensures var at, x := |pre|, ls[0];
            && at + |x| <= |t| && t[at..at + |x|] == x && !Blank(t[at]) && t[at] != '\0'
            && (if |ls| == 1 then at + |x| == |t| else at + |x| < |t| && t[at + |x|] == ' ')
  {
    var x := ls[0];
    var rest := if |ls| == 1 then "" else " " + Joined(ls[1..]);
    assert Joined(ls) == x + rest;
    assert t[|pre|..|pre| + |x|] == x;
    assert t[|pre|] == x[0];
  }

  lemma SkipStops(t: string, at: nat)
    requires at <= |t| && (at < |t| ==> !Blank(t[at]))
    ensures SkipBlanks(t, at) == at
  {}

  lemma RunIs(t: string, x: string, at: nat)
    requires IsLexeme(x) && at + |x| <= |t| && t[at..at + |x|] == x && (at + |x| < |t| ==> t[at + |x|] == ' ')
    ensures t[at] == x[0] && RunEnd(t, x[0], at + 1) == at + |x|
  {
    assert forall i :: 0 <= i < |x| ==> t[at + i] == t[at..at + |x|][i] == x[i];
    RunOn(t, x[0], at + 1, at + |x|);
  }

  lemma {:induction false} RunOn(t: string, first: char, pos: nat, end: nat)
    requires pos <= end <= |t| && (forall i :: pos <= i < end ==> Continues(first, t[i]))
    requires (end < |t| ==> t[end] == ' ')
    ensures RunEnd(t, first, pos) == end
    decreases end - pos
  {
    if pos < end {
      RunOn(t, first, pos + 1, end);
    }
  }

  lemma BlankSkipped(t: string, at: nat)
    requires at < |t| && Blank(t[at])
    ensures Spans(t, at) == Spans(t, at + 1)
  {}

  lemma TextsFirst(t: string, span: Span, rest: seq<Span>)
    requires span.from < span.to <= |t| && forall k :: 0 <= k < |rest| ==> rest[k].from < rest[k].to <= |t|
    ensures Texts(t, [span] + rest) == [t[span.from..span.to]] + Texts(t, rest)
  {}

  /** Lexemes joined by spaces are found again. */
  lemma JoinedLexes(ls: seq<string>)
    requires forall k :: 0 <= k < |ls| ==> IsLexeme(ls[k])
    ensures Lexemes(Tokens(Joined(ls))) == ls
  {
    hide Spans, Joined, IsLexeme, Texts, Tokens, Lexemes;
    var t := Joined(ls);
    RelexAll(ls);
    forall k | 0 <= k < |ls| ensures Tokens(t)[k].lexeme == ls[k] { LexemeFound(t, ls, k); }
    LexemesAre(Tokens(t), ls);
  }

  lemma RelexAll(ls: seq<string>)
    requires forall k :: 0 <= k < |ls| ==> IsLexeme(ls[k])
    ensures Texts(Joined(ls), Spans(Joined(ls), 0)) == ls
  {
    hide Spans, Joined, IsLexeme, Texts;
    assert Joined(ls) == "" + Joined(ls);
    Relex(Joined(ls), "", ls);
  }

  lemma LexemeFound(t: string, ls: seq<string>, k: nat)
    requires Texts(t, Spans(t, 0)) == ls && k < |ls| && IsLexeme(ls[k])
    ensures Tokens(t)[k].lexeme == ls[k]
  {
    hide Spans, IsLexeme, Texts, Tokens, Lexeme;
    TextIsLexeme(t, k);
    OwnLexeme(ls[k]);
  }

  lemma LexemesAre(tokens: seq<Token>, ls: seq<string>)
    requires |tokens| == |ls| && forall k :: 0 <= k < |ls| ==> tokens[k].lexeme == ls[k]
    ensures Lexemes(tokens) == ls
  {}

  lemma TextIsLexeme(t: string, k: nat)
    requires k < |Spans(t, 0)|
    ensures Texts(t, Spans(t, 0))[k] != "" && Tokens(t)[k].lexeme == Lexeme(Texts(t, Spans(t, 0))[k])
  {
    hide Spans, Lexeme, KindOf, LineAt, ColAt;
    var span := Spans(t, 0)[k];
    assert t[span.from..span.to] == Texts(t, Spans(t, 0))[k];
  }

  lemma OwnLexeme(x: string)
    requires IsLexeme(x)
    ensures Lexeme(x) == x
  {}

  /** Lexing the lexemes of a text, joined by spaces, gives the same lexemes, and the same kinds, too,
      except that every unknown character has become a question mark. */
  lemma LexingIsStable(s: string)
    ensures var ls := Lexemes(Tokens(s));
            && Lexemes(Tokens(Joined(ls))) == ls
            && forall k :: 0 <= k < |ls| ==>
                 Tokens(Joined(ls))[k].kind == if Tokens(s)[k].kind.Unknown? then Unknown('?') else Tokens(s)[k].kind
  {
    hide Spans, Joined, IsLexeme, Lexeme, KindOf, LineAt, ColAt;
    var ls := Lexemes(Tokens(s));
    var t := Joined(ls);
    SpansAreLexemes(s, 0);
    forall k | 0 <= k < |ls| ensures IsLexeme(ls[k]) {
      assert ls[k] == Lexeme(s[Spans(s, 0)[k].from..Spans(s, 0)[k].to]);
    }
    assert t == "" + Joined(ls);
    Relex(t, "", ls);
    forall k | 0 <= k < |ls|
      ensures Tokens(t)[k].lexeme == ls[k]
      ensures Tokens(t)[k].kind == if Tokens(s)[k].kind.Unknown? then Unknown('?') else Tokens(s)[k].kind
    {
      var was, now := Spans(s, 0)[k], Spans(t, 0)[k];
      assert t[now.from..now.to] == Texts(t, Spans(t, 0))[k] == ls[k];
      LexemeAgain(s[was.from..was.to]);
    }
  }

  lemma LexemeAgain(text: string)
    requires text != ""
    ensures Lexeme(Lexeme(text)) == Lexeme(text)
    ensures KindOf(Lexeme(text)) == if KindOf(text).Unknown? then Unknown('?') else KindOf(text)
  {}
}
