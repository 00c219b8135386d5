/** The lexer described from outside: what it makes of a text that begins with a blank, a word, a number, a
    punctuation character or anything else. Together these laws fix the tokens of every text. The
    characters are written out here once more. */
module LexerLaws {
  import opened Digits
  import opened Lexer

  predicate LetterChar(c: char) { 'a' <= c <= 'z' || 'A' <= c <= 'Z' || c == '_' }
  predicate DigitOrLetter(c: char) { 'a' <= c <= 'z' || 'A' <= c <= 'Z' || '0' <= c <= '9' || c == '_' }
  predicate DigitOrDot(c: char) { '0' <= c <= '9' || c == '.' }

  /** A letter or underscore with letters, underscores and digits behind it. */
  predicate IsWord(x: string) { x != "" && LetterChar(x[0]) && forall i :: 0 < i < |x| ==> DigitOrLetter(x[i]) }

  /** A digit with digits and dots behind it. */
  predicate IsNumber(x: string) { x != "" && '0' <= x[0] <= '9' && forall i :: 0 < i < |x| ==> DigitOrDot(x[i]) }

  const PUNCTUATION := "{}();:,=+*&<>"

  const KEYWORDS: set<string> := {
    "enum", "struct", "impl", "fn", "let", "return", "if", "else", "while", "true", "false", "mut",
    "String", "Vec", "char", "I32", "I64", "bool"}

  /** What a token looks like, apart from where it stands. */
  datatype Face = Face(kind: Kind, lexeme: string)

  function Faces(tokens: seq<Token>): (fs: seq<Face>)
    ensures |fs| == |tokens|
  {
    seq(|tokens|, k requires 0 <= k < |tokens| => Face(tokens[k].kind, tokens[k].lexeme))
  }

  function FaceOf(text: string): Face
    requires text != ""
  {
    Face(KindOf(text), Lexeme(text))
  }

  function FacesOf(texts: seq<string>): (fs: seq<Face>)
    requires forall k :: 0 <= k < |texts| ==> texts[k] != ""
    ensures |fs| == |texts|
  {
    seq(|texts|, k requires 0 <= k < |texts| => FaceOf(texts[k]))
  }

  // ------------------------------------------------------------ the same text elsewhere --

  lemma {:induction false} SkipShifts(pre: string, s: string, pos: nat)
    requires pos <= |s|
    ensures SkipBlanks(pre + s, |pre| + pos) == |pre| + SkipBlanks(s, pos)
    decreases |s| - pos
  {
    hide Blank;
    if pos < |s| {
      assert (pre + s)[|pre| + pos] == s[pos];
      SkipShifts(pre, s, pos + 1);
    }
  }

  lemma {:induction false} RunShifts(pre: string, s: string, first: char, pos: nat)
    requires pos <= |s|
    ensures RunEnd(pre + s, first, |pre| + pos) == |pre| + RunEnd(s, first, pos)
    decreases |s| - pos
  {
    hide Continues;
    if pos < |s| {
      assert (pre + s)[|pre| + pos] == s[pos];
      RunShifts(pre, s, first, pos + 1);
    }
  }

  /** The first token from a place on, and the texts of all of them. */
  lemma TextsFrom(s: string, pos: nat)
    requires pos <= |s|
    ensures var from := SkipBlanks(s, pos);
            if AtEnd(s, from) then Texts(s, Spans(s, pos)) == [] else
              var to := RunEnd(s, s[from], from + 1);
              Texts(s, Spans(s, pos)) == [s[from..to]] + Texts(s, Spans(s, to))
  {
    hide SkipBlanks, RunEnd, Spans, Texts, AtEnd;
    var from := SkipBlanks(s, pos);
    SpansFrom(s, pos);
    EndShifts("", s, from);
    if AtEnd(s, from) {
      NoTexts(s);
    } else {
      var to := RunEnd(s, s[from], from + 1);
      TextsFirst(s, Span(from, to), Spans(s, to));
    }
  }

  /** Behind any other text a text has the tokens that it has alone. */
  lemma {:induction false} TextsShift(pre: string, s: string, pos: nat)
    requires pos <= |s|
    ensures Texts(pre + s, Spans(pre + s, |pre| + pos)) == Texts(s, Spans(s, pos))
    decreases |s| - pos
  {
    hide SkipBlanks, RunEnd, Spans, Texts, AtEnd;
    var t, from := pre + s, SkipBlanks(s, pos);
    TextsFrom(s, pos);
    TextsFrom(t, |pre| + pos);
    SkipShifts(pre, s, pos);
    EndShifts(pre, s, from);
    if !AtEnd(s, from) {
      var to := RunEnd(s, s[from], from + 1);
      SliceShifts(pre, s, from, to);
      RunShifts(pre, s, s[from], from + 1);
      TextsShift(pre, s, to);
    }
  }

  lemma SliceShifts(pre: string, s: string, from: nat, to: nat)
    requires from < to <= |s|
    ensures var t := pre + s; t[|pre| + from] == s[from] && t[|pre| + from..|pre| + to] == s[from..to]
  {}

  lemma EndShifts(pre: string, s: string, from: nat)
    requires from <= |s|
    ensures AtEnd(pre + s, |pre| + from) == AtEnd(s, from) && (!AtEnd(s, from) ==> from < |s|)
  {}

  lemma NoTexts(s: string)
    ensures Texts(s, []) == []
  {}

  lemma FacesAre(s: string)
    ensures var texts := Texts(s, Spans(s, 0));
            (forall k :: 0 <= k < |texts| ==> texts[k] != "") && Faces(Tokens(s)) == FacesOf(texts)
  {
    hide Spans, KindOf, Lexeme, LineAt, ColAt;
    var texts := Texts(s, Spans(s, 0));
    forall k | 0 <= k < |texts| ensures texts[k] != "" && Faces(Tokens(s))[k] == FaceOf(texts[k]) {
      var span := Spans(s, 0)[k];
      assert texts[k] == s[span.from..span.to];
    }
    assert Faces(Tokens(s)) == FacesOf(texts);
  }

  /** If the first token of a text is `x`, the others are those of the rest. */
  lemma FirstToken(x: string, rest: string)
    requires x != "" && !Blank(x[0]) && x[0] != '\0' && RunEnd(x + rest, x[0], 1) == |x|
    ensures Faces(Tokens(x + rest)) == [FaceOf(x)] + Faces(Tokens(rest))
  {
    hide RunEnd, Spans, Texts, Tokens, Faces, FaceOf, FacesOf;
    var t := x + rest;
    assert t[0] == x[0] && t[..|x|] == x && t[0..|x|] == x;
    SkipStops(t, 0);
    SpansFrom(t, 0);
    TextsFirst(t, Span(0, |x|), Spans(t, |x|));
    TextsShift(x, rest, 0);
    FacesAre(t);
    FacesAre(rest);
    FacesFirst(x, Texts(rest, Spans(rest, 0)));
  }

  lemma FacesFirst(x: string, texts: seq<string>)
    requires x != "" && forall k :: 0 <= k < |texts| ==> texts[k] != ""
    ensures (forall k :: 0 <= k < |texts| + 1 ==> ([x] + texts)[k] != "")
    ensures FacesOf([x] + texts) == [FaceOf(x)] + FacesOf(texts)
  {
    hide FaceOf;
    var all := [x] + texts;
    forall k | 0 <= k < |all| ensures all[k] != "" && all[k] == if k == 0 then x else texts[k - 1] {}
    assert FacesOf(all) == [FaceOf(x)] + FacesOf(texts);
  }

  lemma {:induction false} RunStops(t: string, first: char, pos: nat, end: nat)
    requires pos <= end <= |t| && (forall i :: pos <= i < end ==> Continues(first, t[i]))
    requires end < |t| ==> !Continues(first, t[end])
    ensures RunEnd(t, first, pos) == end
    decreases end - pos
  {
    hide Continues;
    if pos < end { RunStops(t, first, pos + 1, end); }
  }

  // --------------------------------------------------------------------------- the laws --

  /** Nothing has no tokens, and neither has what stands behind a terminator. */
  lemma NothingLexes(rest: string)
    ensures Tokens("") == [] && Tokens("\0" + rest) == []
  {
    SkipStops("\0" + rest, 0);
  }

  /** Exactly a space, a tab, a newline and a return are passed over. */
  lemma BlankLexes(c: char, rest: string)
    requires c in {' ', '\t', '\n', '\r'}
    ensures Faces(Tokens([c] + rest)) == Faces(Tokens(rest))
  {
    hide Spans, Texts, Tokens, Faces, FaceOf, FacesOf;
    var t := [c] + rest;
    assert t[0] == c && t[..1] == [c];
    BlankSkipped(t, 0);
    TextsShift([c], rest, 0);
    FacesAre(t);
    FacesAre(rest);
  }

  /** A word up to the first character that is no part of one is a single token: a keyword if it is
      listed, and otherwise a name. */
  lemma WordLexes(x: string, rest: string)
    requires IsWord(x) && (rest != "" ==> !DigitOrLetter(rest[0]))
    ensures Faces(Tokens(x + rest)) == [Face(if x in KEYWORDS then Keyword(x) else Name(x), x)] + Faces(Tokens(rest))
  {
    var t := x + rest;
    assert forall i :: 0 <= i < |x| ==> t[i] == x[i];
    RunStops(t, x[0], 1, |x|);
    FirstToken(x, rest);
    WordOrNumber(x);
  }

  /** So is a number: with a dot in it, it is a floating-point number. */
  lemma NumberLexes(x: string, rest: string)
    requires IsNumber(x) && (rest != "" ==> !DigitOrDot(rest[0]))
    ensures Faces(Tokens(x + rest)) == [Face(if '.' in x then FloatLit else IntLit, x)] + Faces(Tokens(rest))
  {
    var t := x + rest;
    assert forall i :: 0 <= i < |x| ==> t[i] == x[i];
    RunStops(t, x[0], 1, |x|);
    FirstToken(x, rest);
    WordOrNumber(x);
  }

  /** Each punctuation character is a token of its own, with itself as lexeme. */
  lemma PunctuationLexes(c: char, rest: string)
    requires c in PUNCTUATION
    ensures Faces(Tokens([c] + rest)) == [Face(Punct(c), [c])] + Faces(Tokens(rest))
  {
    var t := [c] + rest;
    assert t[0] == c;
    SingleCharacter(t, 0);
    FirstToken([c], rest);
  }

  /** Any other character is unknown, and its lexeme is a question mark. */
  lemma UnknownLexes(c: char, rest: string)
    requires c !in PUNCTUATION && !DigitOrLetter(c) && c !in {' ', '\t', '\n', '\r', '\0'}
    ensures Faces(Tokens([c] + rest)) == [Face(Unknown(c), "?")] + Faces(Tokens(rest))
  {
    var t := [c] + rest;
    assert t[0] == c;
    SingleCharacter(t, 0);
    FirstToken([c], rest);
  }

  /** A text of one character has no token exactly if it is a blank or the terminator. */
  lemma TokenlessExactly(c: char)
    ensures Tokens([c]) == [] <==> c in {' ', '\t', '\n', '\r', '\0'}
  {
    hide Tokens;
    assert [c] + "" == [c];
    NothingLexes("");
    if c in {' ', '\t', '\n', '\r'} {
      BlankLexes(c, "");
    } else if c in PUNCTUATION {
      PunctuationLexes(c, "");
    } else if '0' <= c <= '9' {
      NumberLexes([c], "");
    } else if DigitOrLetter(c) {
      WordLexes([c], "");
    } else if c != '\0' {
      UnknownLexes(c, "");
    }
  }

  /** The lexemes that the lexer can make. */
  lemma LexemeExactly(x: string)
    ensures IsLexeme(x) <==> IsWord(x) || IsNumber(x) || (|x| == 1 && x[0] in PUNCTUATION) || x == "?"
  {
    if IsLexeme(x) && !IsWord(x) && !IsNumber(x) {
      assert |x| > 1 ==> !Continues(x[0], x[1]);
    }
  }

  /** Every lexeme of every text is one of these. */
  lemma EveryLexeme(s: string, k: nat)
    requires k < |Tokens(s)|
    ensures IsLexeme(Tokens(s)[k].lexeme)
  {
    hide Spans, IsLexeme, Lexeme, KindOf, LineAt, ColAt;
    SpansAreLexemes(s, 0);
    assert Tokens(s)[k].lexeme == Lexeme(s[Spans(s, 0)[k].from..Spans(s, 0)[k].to]);
  }

  // ------------------------------------------------------------------------- positions --

  /** The line of a place is one more than the number of newlines before it. */
  lemma {:induction false} LineCounts(s: string, pos: nat)
    requires pos <= |s|
    ensures LineAt(s, pos) == 1 + |set i | 0 <= i < pos && s[i] == '\n'|
    decreases pos
  {
    var now := set i | 0 <= i < pos && s[i] == '\n';
    if pos == 0 {
      assert now == {} && s[..0] == "";
    } else {
      var was := set i | 0 <= i < pos - 1 && s[i] == '\n';
      LineCounts(s, pos - 1);
      assert s[..pos][..pos - 1] == s[..pos - 1];
      assert now == if s[pos - 1] == '\n' then was + {pos - 1} else was;
    }
  }

  /** So every token says how many newlines are before it. */
  lemma TokenLine(s: string, k: nat)
    requires k < |Tokens(s)|
    ensures Tokens(s)[k].line == 1 + |set i | 0 <= i < Spans(s, 0)[k].from && s[i] == '\n'|
  {
    hide Spans, LineAt, ColAt, KindOf, Lexeme;
    LineCounts(s, Spans(s, 0)[k].from);
  }

  /** The column of a place is one more than the number of characters since the beginning of the line. */
  lemma {:induction false} ColumnCounts(s: string, start: nat, pos: nat)
    requires start <= pos <= |s| && (start == 0 || s[start - 1] == '\n') && '\n' !in s[start..pos]
    ensures ColAt(s, pos) == 1 + pos - start
    decreases pos
  {
    if start < pos {
      assert s[pos - 1] == s[start..pos][pos - 1 - start];
      assert s[start..pos - 1] == s[start..pos][..pos - 1 - start];
      ColumnCounts(s, start, pos - 1);
      assert s[..pos][..pos - 1] == s[..pos - 1];
    }
  }
}
