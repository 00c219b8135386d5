/** What the expression parser does with any token stream, as functions.

    Only the lexemes of tokens matter to the parser; past the end of the stream it
    sees the empty lexeme. A few loops of the parser never end there. `patience` is the
    number of rounds such a loop is watched for: a run that used it up is `hung`, and
    since it may be any number, what holds of all runs holds at every moment of an
    endless one. */
module ParserSpec {
  import opened Ast
  import opened Digits

  type Tokens = seq<string>

  datatype S = S(pos: nat, a: Arena, patience: nat, hung: bool)

  // ------------------------------------------------------------------ lexemes --

  function Peek(ts: Tokens, pos: nat): string { if pos < |ts| then ts[pos] else "" }

  function Advance(ts: Tokens, pos: nat): (p: nat)
    ensures pos <= p && (pos <= |ts| ==> p <= |ts|) && (pos < |ts| ==> p == pos + 1)
  {
    if pos < |ts| then pos + 1 else pos
  }

  predicate IsIdentLexeme(lex: string) { lex != "" && IsLetter(lex[0]) && lex != "true" && lex != "false" }

  function UnaryOf(lex: string): (op: UnaryOp)
    requires lex in {"&", "*", "-", "!"}
  {
    if lex == "&" then Ref else if lex == "*" then Deref else if lex == "-" then Neg else Not
  }

  function Precedence(lex: string): nat {
    if lex == "||" then 1
    else if lex == "&&" then 3
    else if lex == "==" then 5
    else if lex == "!=" then 5
    else if lex == "<" then 7
    else if lex == ">" then 7
    else if lex == "<=" then 7
    else if lex == ">=" then 7
    else if lex == "|" then 9
    else if lex == "^" then 9
    else if lex == "&" then 11
    else if lex == "+" then 15
    else if lex == "-" then 15
    else if lex == "*" then 17
    else if lex == "/" then 17
    else if lex == "%" then 17
    else 0
  }

  function LexToBinop(lex: string): BinaryOp {
    if lex == "+" then Add
    else if lex == "-" then Sub
    else if lex == "*" then Mul
    else if lex == "/" then Div
    else if lex == "%" then Mod
    else if lex == "==" then Eq
    else if lex == "!=" then NotEq
    else if lex == "<" then Lt
    else if lex == ">" then Gt
    else if lex == "<=" then Le
    else if lex == ">=" then Ge
    else if lex == "&&" then And
    else if lex == "||" then Or
    else if lex == "&" then BitAnd
    else if lex == "|" then BitOr
    else if lex == "^" then BitXor
    else Add
  }

  /** An identifier followed by `{` starts a structure literal if a `}` or a second-next `:` says so. */
  predicate StartsStructLit(ts: Tokens, pos: nat) {
    Peek(ts, pos) == "{" && (Peek(ts, pos + 1) == "}" || Peek(ts, pos + 2) == ":")
  }

  // --------------------------------------------------------------------- steps --

  function Push(s: S, e: Expr): (S, nat) {
    (s.(a := s.a.(exprs := s.a.exprs + [e])), |s.a.exprs| + 1)
  }

  function PushArg(s: S, h: nat): S { s.(a := s.a.(argIndices := s.a.argIndices + [h])) }

  function PushField(s: S, name: string, h: nat): S {
    s.(a := s.a.(structLitNames := s.a.structLitNames + [name], structLitExprs := s.a.structLitExprs + [h]))
  }

  function Step(ts: Tokens, s: S): S { s.(pos := Advance(ts, s.pos)) }

  /** Later in the same run: further on in the tokens, with no more patience. */
  predicate Later(ts: Tokens, s: S, s': S) { s.pos <= s'.pos <= |ts| && s'.patience <= s.patience }

  /** One more round of a loop that could go on at the end of the tokens forever. */
  function Watched(ts: Tokens, s: S): (s': S)
    ensures s'.pos == s.pos && s'.a == s.a && s'.patience <= s.patience
    ensures !s'.hung && !s.hung ==> s.pos < |ts| || s'.patience < s.patience
  {
    if s.pos < |ts| then s
    else if s.patience == 0 then s.(hung := true)
    else s.(patience := s.patience - 1)
  }

  // -------------------------------------------------------------------- parsing --

  function ParsePrimary(ts: Tokens, s: S): (r: (S, nat))
    requires s.pos <= |ts|
    ensures Later(ts, s, r.0)
    decreases |ts| - s.pos, s.patience, 0
  {
    var lex := Peek(ts, s.pos);
    if lex != "" && IsDigit(lex[0]) then Push(Step(ts, s), IntLit(0))
    else if lex != "" && lex[0] == '"' then Push(Step(ts, s), StringLit(lex))
    else if lex == "true" then Push(Step(ts, s), BoolLit(true))
    else if lex == "false" then Push(Step(ts, s), BoolLit(false))
    else if lex != "" && IsLetter(lex[0]) then ParseIdent(ts, Step(ts, s), lex)
    else if lex == "(" then
      var r := ParseBp(ts, Step(ts, s), 0);
      if r.0.hung then r else (Step(ts, r.0), r.1)
    else if lex in {"&", "*", "-", "!"} then
      var r := ParsePrimary(ts, Step(ts, s));
      if r.0.hung then r else Push(r.0, Unary(UnaryOf(lex), r.1))
    else Push(s, IntLit(0))
  }

  /** After an identifier: a path, a structure literal, or just the identifier. */
  function ParseIdent(ts: Tokens, s: S, lex: string): (r: (S, nat))
    requires s.pos <= |ts|
    ensures Later(ts, s, r.0)
    decreases |ts| - s.pos, s.patience, 6
  {
    if Peek(ts, s.pos) == "::" then
      var s1 := Step(ts, s);
      Push(Step(ts, s1), Path(lex, Peek(ts, s1.pos)))
    else if StartsStructLit(ts, s.pos) then
      var s1 := Step(ts, s);
      var r := ParseFields(ts, s1, 0);
      if r.0.hung then r else Push(Step(ts, r.0), StructLit(lex, |s.a.structLitExprs|, r.1))
    else Push(s, Ident(lex))
  }

  /** The fields of a structure literal. At the end of the tokens this goes round forever. */
  function ParseFields(ts: Tokens, s: S, count: nat): (r: (S, nat))
    requires s.pos <= |ts|
    ensures Later(ts, s, r.0)
    decreases |ts| - s.pos, s.patience, 5
  {
    if s.hung || Peek(ts, s.pos) == "}" then (s, count) else
      var s0 := Watched(ts, s);
      if s0.hung then (s0, count) else
        var name := Peek(ts, s0.pos);
        var r := ParseBp(ts, Step(ts, Step(ts, s0)), 0);
        if r.0.hung then r else
          var s1 := PushField(r.0, name, r.1);
          ParseFields(ts, if Peek(ts, s1.pos) == "," then Step(ts, s1) else s1, count + 1)
  }

  function ParsePostfix(ts: Tokens, s: S, current: nat): (r: (S, nat))
    requires s.pos <= |ts|
    ensures Later(ts, s, r.0)
    decreases |ts| - s.pos, s.patience, 1
  {
    var lex := Peek(ts, s.pos);
    if lex == "(" then
      var r := ParseArgs(ts, Step(ts, s), 0);
      if r.0.hung then r else
        var p := Push(Step(ts, r.0), Call(current, |s.a.argIndices|, r.1));
        ParsePostfix(ts, p.0, p.1)
    else if lex == "." then
      var s1 := Step(ts, s);
      var p := Push(Step(ts, s1), Member(current, Peek(ts, s1.pos)));
      ParsePostfix(ts, p.0, p.1)
    else if lex == "[" then
      var r := ParseBp(ts, Step(ts, s), 0);
      if r.0.hung then r else
        var p := Push(Step(ts, r.0), Index(current, r.1));
        ParsePostfix(ts, p.0, p.1)
    else (s, current)
  }

  /** Arguments up to the closing parenthesis; each handle is pushed when its argument is complete. */
  function ParseArgs(ts: Tokens, s: S, count: nat): (r: (S, nat))
    requires s.pos <= |ts|
    ensures Later(ts, s, r.0)
    decreases |ts| - s.pos, s.patience, 4
  {
    if Peek(ts, s.pos) == ")" then (s, count) else
      var r := ParseBp(ts, s, 0);
      if r.0.hung then r else
        var s1 := PushArg(r.0, r.1);
        if Peek(ts, s1.pos) == "," then ParseArgs(ts, Step(ts, s1), count + 1) else (s1, count + 1)
  }

  /** Precedence climbing: an operand, then every operator that binds at least as tightly as `minBp`. */
  function ParseBp(ts: Tokens, s: S, minBp: nat): (r: (S, nat))
    requires s.pos <= |ts|
    ensures Later(ts, s, r.0)
    decreases |ts| - s.pos, s.patience, 3
  {
    var r := ParsePrimary(ts, s);
    if r.0.hung then r else
      var r1 := ParsePostfix(ts, r.0, r.1);
      if r1.0.hung then r1 else ParseOperators(ts, r1.0, r1.1, minBp)
  }

  function ParseOperators(ts: Tokens, s: S, lhs: nat, minBp: nat): (r: (S, nat))
    requires s.pos <= |ts|
    ensures Later(ts, s, r.0)
    decreases |ts| - s.pos, s.patience, 2
  {
    var lex := Peek(ts, s.pos);
    var prec := Precedence(lex);
    if prec == 0 || prec < minBp then (s, lhs) else
      var r := ParseBp(ts, Step(ts, s), prec + 1);
      if r.0.hung then r else
        var p := Push(r.0, Binary(lhs, LexToBinop(lex), r.1));
        var q := ParsePostfix(ts, p.0, p.1);
        if q.0.hung then q else ParseOperators(ts, q.0, q.1, minBp)
  }

  // ----------------------------------------------------------------- statements --

  function PushStmt(s: S, st: Stmt): (S, nat) {
    (s.(a := s.a.(stmts := s.a.stmts + [st])), |s.a.stmts| + 1)
  }

  function PushArm(s: S, arm: MatchArm): S { s.(a := s.a.(matchArms := s.a.matchArms + [arm])) }

  function PushParam(s: S, param: Param): S { s.(a := s.a.(params := s.a.params + [param])) }

  /** Tokens are skipped up to one of `stops`; without one, the loop never ends. */
  function SkipUntil(ts: Tokens, s: S, stops: set<string>): (s': S)
    requires s.pos <= |ts|
    ensures Later(ts, s, s') && s'.a == s.a
    ensures s.pos == |ts| && "" !in stops ==> s'.hung
    decreases |ts| - s.pos, s.patience
  {
    if Peek(ts, s.pos) in stops then s
    else if s.pos < |ts| then SkipUntil(ts, Step(ts, s), stops)
    else if s.patience == 0 then s.(hung := true)
    else SkipUntil(ts, s.(patience := s.patience - 1), stops)
  }

  /** Expression parsing starts at the loosest level. */
  function ParseExpr(ts: Tokens, s: S): (r: (S, nat))
    requires s.pos <= |ts|
    ensures Later(ts, s, r.0)
  {
    ParseBp(ts, s, 0)
  }

  function ParseStmt(ts: Tokens, s: S): (r: (S, nat))
    requires s.pos <= |ts|
    ensures Later(ts, s, r.0)
    ensures s.pos < |ts| && !r.0.hung ==> s.pos < r.0.pos
    decreases |ts| - s.pos, s.patience, 1
  {
    var lex := Peek(ts, s.pos);
    if lex == "let" then ParseLet(ts, Step(ts, s))
    else if lex == "return" then ParseReturn(ts, Step(ts, s))
    else if lex == "if" then ParseIf(ts, Step(ts, s))
    else if lex == "while" then ParseWhile(ts, Step(ts, s))
    else if lex == "for" then ParseFor(ts, Step(ts, s))
    else if lex == "match" then ParseMatch(ts, Step(ts, s))
    else ParseSimple(ts, s)
  }

  function ParseLet(ts: Tokens, s: S): (r: (S, nat))
    requires s.pos <= |ts|
    ensures Later(ts, s, r.0)
  {
    var s1 := if Peek(ts, s.pos) == "mut" then Step(ts, s) else s;
    var name := Peek(ts, s1.pos);
    var s2 := Step(ts, s1);
    var s3 := if Peek(ts, s2.pos) == ":" then SkipUntil(ts, Step(ts, s2), {"=", ";"}) else s2;
    if s3.hung then (s3, 0) else
      var r := if Peek(ts, s3.pos) == "=" then ParseExpr(ts, Step(ts, s3)) else (s3, 0);
      if r.0.hung then r else PushStmt(Step(ts, r.0), Let(name, 0, r.1))
  }

  function ParseReturn(ts: Tokens, s: S): (r: (S, nat))
    requires s.pos <= |ts|
    ensures Later(ts, s, r.0)
  {
    var r := if Peek(ts, s.pos) == ";" then (s, 0) else ParseExpr(ts, s);
    if r.0.hung then r else PushStmt(Step(ts, r.0), Return(r.1))
  }

  /** The statements up to a closing brace and the handle of each of them. */
  function ParseBlock(ts: Tokens, s: S): (r: (S, seq<nat>))
    requires s.pos <= |ts|
    ensures Later(ts, s, r.0)
    decreases |ts| - s.pos, s.patience, 2
  {
    if s.hung || Peek(ts, s.pos) == "}" then (s, []) else
      var s0 := Watched(ts, s);
      if s0.hung then (s0, []) else
        var r := ParseStmt(ts, s0);
        if r.0.hung then (r.0, []) else
          var rest := ParseBlock(ts, r.0);
          (rest.0, [r.1] + rest.1)
  }

  /** A block with the brace before it and the brace behind it. */
  function ParseBraced(ts: Tokens, s: S): (r: (S, seq<nat>))
    requires s.pos <= |ts|
    ensures Later(ts, s, r.0)
    decreases |ts| - s.pos, s.patience, 3
  {
    var r := ParseBlock(ts, Step(ts, s));
    if r.0.hung then r else (Step(ts, r.0), r.1)
  }

  function ParseIf(ts: Tokens, s: S): (r: (S, nat))
    requires s.pos <= |ts|
    ensures Later(ts, s, r.0)
    decreases |ts| - s.pos, s.patience, 4
  {
    var c := ParseExpr(ts, s);
    if c.0.hung then c else
      var t := ParseBraced(ts, c.0);
      if t.0.hung then (t.0, 0) else
        var thenStart := |c.0.a.stmts|;
        if Peek(ts, t.0.pos) == "else" then
          var e := ParseBraced(ts, Step(ts, t.0));
          if e.0.hung then (e.0, 0)
          else PushStmt(e.0, If(c.1, thenStart, |t.1|, |t.0.a.stmts|, |e.1|))
        else PushStmt(t.0, If(c.1, thenStart, |t.1|, 0, 0))
  }

  function ParseWhile(ts: Tokens, s: S): (r: (S, nat))
    requires s.pos <= |ts|
    ensures Later(ts, s, r.0)
    decreases |ts| - s.pos, s.patience, 4
  {
    var c := ParseExpr(ts, s);
    if c.0.hung then c else
      var b := ParseBraced(ts, c.0);
      if b.0.hung then (b.0, 0) else PushStmt(b.0, While(c.1, |c.0.a.stmts|, |b.1|))
  }

  function ParseFor(ts: Tokens, s: S): (r: (S, nat))
    requires s.pos <= |ts|
    ensures Later(ts, s, r.0)
    decreases |ts| - s.pos, s.patience, 4
  {
    var name := Peek(ts, s.pos);
    var f := ParseExpr(ts, Step(ts, Step(ts, s)));
    if f.0.hung then f else
      var t := ParseExpr(ts, Step(ts, f.0));
      if t.0.hung then t else
        var p := if Peek(ts, t.0.pos) == "step" then ParseExpr(ts, Step(ts, t.0)) else (t.0, 0);
        if p.0.hung then p else
          var b := ParseBraced(ts, p.0);
          if b.0.hung then (b.0, 0)
          else PushStmt(b.0, For(name, f.1, t.1, p.1, |p.0.a.stmts|, |b.1|))
  }

  function ParseMatch(ts: Tokens, s: S): (r: (S, nat))
    requires s.pos <= |ts|
    ensures Later(ts, s, r.0)
  {
    var c := ParseExpr(ts, s);
    if c.0.hung then c else
      var arms := ParseArms(ts, Step(ts, c.0), 0);
      if arms.0.hung then (arms.0, 0)
      else PushStmt(Step(ts, arms.0), Match(c.1, |c.0.a.matchArms|, arms.1))
  }

  function ParseArms(ts: Tokens, s: S, count: nat): (r: (S, nat))
    requires s.pos <= |ts|
    ensures Later(ts, s, r.0)
    decreases |ts| - s.pos, s.patience
  {
    if s.hung || Peek(ts, s.pos) == "}" then (s, count) else
      var s0 := Watched(ts, s);
      if s0.hung then (s0, count) else
        var p := ParsePattern(ts, s0);
        var r := ParseExpr(ts, Step(ts, p.0));
        if r.0.hung then (r.0, count) else
          var s1 := if Peek(ts, r.0.pos) == "," then Step(ts, r.0) else r.0;
          ParseArms(ts, PushArm(s1, MatchArm(p.1, r.1, 1)), count + 1)
  }

  function ParsePattern(ts: Tokens, s: S): (r: (S, Pattern))
    requires s.pos <= |ts|
    ensures Later(ts, s, r.0) && r.0.a == s.a && r.0.patience == s.patience && r.0.hung == s.hung
    ensures s.pos < |ts| ==> s.pos < r.0.pos
  {
    var lex := Peek(ts, s.pos);
    var s1 := Step(ts, s);
    if lex == "_" then (s1, Wildcard)
    else if Peek(ts, s1.pos) == "::" then
      var s2 := Step(ts, s1);
      (Step(ts, s2), Variant(lex, Peek(ts, s2.pos)))
    else (s1, PatIdent(lex))
  }

  /** An assignment, `+=`, `-=`, or an expression on its own. */
  function ParseSimple(ts: Tokens, s: S): (r: (S, nat))
    requires s.pos <= |ts|
    ensures Later(ts, s, r.0)
    ensures s.pos < |ts| && !r.0.hung ==> s.pos < r.0.pos
  {
    var e := ParseExpr(ts, s);
    if e.0.hung then e else
      var lex := Peek(ts, e.0.pos);
      if lex == "=" || lex == "+=" || lex == "-=" then
        var v := ParseExpr(ts, Step(ts, e.0));
        if v.0.hung then v else
          PushStmt(Step(ts, v.0), if lex == "=" then Assign(e.1, v.1)
                                  else CompoundAssign(e.1, if lex == "+=" then Add else Sub, v.1))
      else PushStmt(Step(ts, e.0), ExprStmt(e.1))
  }

  // ------------------------------------------------------------------ functions --

  function Blanks(n: nat): string { seq(n, _ => ' ') }

  /** Parameters up to the closing parenthesis; of a type only its number of tokens is kept. */
  function ParseParams(ts: Tokens, s: S, count: nat): (r: (S, nat))
    requires s.pos <= |ts|
    ensures Later(ts, s, r.0)
    decreases |ts| - s.pos, s.patience
  {
    if s.hung || Peek(ts, s.pos) == ")" then (s, count) else
      var s1 := Step(ts, Step(ts, s));
      var s2 := SkipUntil(ts, s1, {",", ")"});
      if s2.hung then (s2, count) else
        var s3 := PushParam(s2, Param(Peek(ts, s.pos), Blanks(s2.pos - s1.pos)));
        ParseParams(ts, if Peek(ts, s3.pos) == "," then Step(ts, s3) else s3, count + 1)
  }

  /** A function from its name on. The new function is the last one of the arena, and its body
      is recorded as the range of as many statements as the body has. */
  function ParseFuncDecl(ts: Tokens, s: S, isSafe: bool): (r: (S, nat))
    requires s.pos <= |ts|
    ensures Later(ts, s, r.0)
  {
    var name := Peek(ts, s.pos);
    var ps := ParseParams(ts, Step(ts, Step(ts, s)), 0);
    if ps.0.hung then (ps.0, 0) else
      var s1 := Step(ts, ps.0);
      var s2 := if Peek(ts, s1.pos) == "->" then SkipUntil(ts, Step(ts, s1), {"{"}) else s1;
      if s2.hung then (s2, 0) else
        var b := ParseBraced(ts, s2);
        if b.0.hung then (b.0, 0) else
          var f := FuncDecl(name, isSafe, |s.a.params|, ps.1, |s2.a.stmts|, |b.1|);
          (b.0.(a := b.0.a.(funcs := b.0.a.funcs + [f])), |b.0.a.funcs| + 1)
  }
}
