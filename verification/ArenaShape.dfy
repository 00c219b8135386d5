/** Every arena the parser builds is acyclic and in range, for any tokens at all, and what
    the range recorded for a block contains. */
module ArenaShape {
  import opened Ast
  import opened Digits
  import opened ParserSpec

  ghost predicate AllName(entries: seq<nat>, n: nat) { forall j :: 0 <= j < |entries| ==> Names(entries[j], n) }

  ghost predicate ArmsAllName(arms: seq<MatchArm>, n: nat) { forall j :: 0 <= j < |arms| ==> Names(arms[j].body, n) }

  /** Acyclic, and every entry of the index vectors, owned by a node already or not, names a node. */
  ghost predicate Sound(a: Arena) {
    && Acyclic(a)
    && AllName(a.argIndices, |a.exprs|) && AllName(a.structLitExprs, |a.exprs|) && ArmsAllName(a.matchArms, |a.exprs|)
  }

  ghost predicate Grows(a: Arena, a': Arena) {
    && a.exprs <= a'.exprs && a.stmts <= a'.stmts && a.params <= a'.params && a.funcs <= a'.funcs
    && a.matchArms <= a'.matchArms && a.argIndices <= a'.argIndices
    && a.structLitNames <= a'.structLitNames && a.structLitExprs <= a'.structLitExprs
  }

  /** A step of the parser that keeps the arena sound and only adds to it. */
  ghost predicate Adds(s: S, s': S) { Sound(s'.a) && Grows(s.a, s'.a) }

  /** Such a step below the level of functions: expressions and statements. */
  ghost predicate Keeps(s: S, s': S) { Adds(s, s') && s'.a.funcs == s.a.funcs && s'.a.params == s.a.params }

  /** No statement and no arm of a match was pushed. */
  ghost predicate NoStmt(s: S, s': S) { s'.a.stmts == s.a.stmts && s'.a.matchArms == s.a.matchArms }

  // --------------------------------------------------------------------- one push --

  lemma PushExprSound(s: S, e: Expr)
    requires Sound(s.a) && ExprRefersBelow(e, |s.a.exprs|, s.a.argIndices, s.a.structLitExprs)
    ensures Keeps(s, Push(s, e).0) && Names(Push(s, e).1, |Push(s, e).0.a.exprs|)
  {
    hide ArmsName;
    var a, a' := s.a, Push(s, e).0.a;
    forall i | 0 <= i < |a'.stmts| ensures StmtRefersBelow(a'.stmts[i], i, |a'.exprs|, a'.matchArms) {
      StmtStays(a.stmts[i], i, |a.exprs|, |a'.exprs|, a.matchArms, a.matchArms);
    }
    assert forall i :: 0 <= i < |a.funcs| ==> FuncInRange(a, a.funcs[i]) ==> FuncInRange(a', a.funcs[i]);
  }

  lemma StmtStays(st: Stmt, i: nat, n: nat, n': nat, arms: seq<MatchArm>, arms': seq<MatchArm>)
    requires StmtRefersBelow(st, i, n, arms) && n <= n' && arms <= arms'
    ensures StmtRefersBelow(st, i, n', arms')
  {
    assert forall j :: 0 <= j < |arms| ==> arms'[j] == arms[j];
  }

  lemma ExprStays(e: Expr, n: nat, args: seq<nat>, args': seq<nat>, fields: seq<nat>, fields': seq<nat>)
    requires ExprRefersBelow(e, n, args, fields) && args <= args' && fields <= fields'
    ensures ExprRefersBelow(e, n, args', fields')
  {
    assert forall j :: 0 <= j < |args| ==> args'[j] == args[j];
    assert forall j :: 0 <= j < |fields| ==> fields'[j] == fields[j];
  }

  lemma PushStmtSound(s: S, st: Stmt)
    requires Sound(s.a) && StmtRefersBelow(st, |s.a.stmts|, |s.a.exprs|, s.a.matchArms)
    ensures Keeps(s, PushStmt(s, st).0)
  {
    hide ExprRefersBelow, StmtRefersBelow;
    var a' := PushStmt(s, st).0.a;
    assert forall i :: 0 <= i < |s.a.funcs| ==> FuncInRange(s.a, s.a.funcs[i]) ==> FuncInRange(a', s.a.funcs[i]);
  }

  lemma PushEntriesSound(s: S, args: seq<nat>, names: seq<string>, fields: seq<nat>, arms: seq<MatchArm>)
    requires Sound(s.a)
    requires AllName(args, |s.a.exprs|) && AllName(fields, |s.a.exprs|) && ArmsAllName(arms, |s.a.exprs|)
    ensures Keeps(s, s.(a := s.a.(argIndices := s.a.argIndices + args, structLitNames := s.a.structLitNames + names,
                                  structLitExprs := s.a.structLitExprs + fields, matchArms := s.a.matchArms + arms)))
  {
    hide ExprRefersBelow, StmtRefersBelow;
    var a := s.a;
    var a' := a.(argIndices := a.argIndices + args, structLitNames := a.structLitNames + names,
                 structLitExprs := a.structLitExprs + fields, matchArms := a.matchArms + arms);
    forall i | 0 <= i < |a.exprs| ensures ExprRefersBelow(a'.exprs[i], i, a'.argIndices, a'.structLitExprs) {
      ExprStays(a.exprs[i], i, a.argIndices, a'.argIndices, a.structLitExprs, a'.structLitExprs);
    }
    forall i | 0 <= i < |a.stmts| ensures StmtRefersBelow(a'.stmts[i], i, |a'.exprs|, a'.matchArms) {
      StmtStays(a.stmts[i], i, |a.exprs|, |a'.exprs|, a.matchArms, a'.matchArms);
    }
    assert forall i :: 0 <= i < |a.funcs| ==> FuncInRange(a, a.funcs[i]) ==> FuncInRange(a', a.funcs[i]);
  }

  lemma PushArgSound(s: S, h: nat)
    requires Sound(s.a) && Names(h, |s.a.exprs|)
    ensures Keeps(s, PushArg(s, h))
  {
    hide Sound, Grows;
    PushEntriesSound(s, [h], [], [], []);
    assert s.a.matchArms + [] == s.a.matchArms && s.a.structLitNames + [] == s.a.structLitNames;
    assert s.a.structLitExprs + [] == s.a.structLitExprs;
  }

  lemma PushFieldSound(s: S, name: string, h: nat)
    requires Sound(s.a) && Names(h, |s.a.exprs|)
    ensures Keeps(s, PushField(s, name, h))
  {
    hide Sound, Grows;
    PushEntriesSound(s, [], [name], [h], []);
    assert s.a.matchArms + [] == s.a.matchArms && s.a.argIndices + [] == s.a.argIndices;
  }

  lemma PushArmSound(s: S, arm: MatchArm)
    requires Sound(s.a) && Names(arm.body, |s.a.exprs|)
    ensures Keeps(s, PushArm(s, arm))
  {
    hide Sound, Grows;
    PushEntriesSound(s, [], [], [], [arm]);
    assert s.a.argIndices + [] == s.a.argIndices && s.a.structLitNames + [] == s.a.structLitNames;
    assert s.a.structLitExprs + [] == s.a.structLitExprs;
  }

  lemma PushParamSound(s: S, p: Param)
    requires Sound(s.a)
    ensures Adds(s, PushParam(s, p))
  {
    hide ExprRefersBelow, StmtRefersBelow;
    var a' := PushParam(s, p).a;
    assert forall i :: 0 <= i < |s.a.funcs| ==> FuncInRange(s.a, s.a.funcs[i]) ==> FuncInRange(a', s.a.funcs[i]);
  }

  lemma PushFuncSound(s: S, f: FuncDecl)
    requires Sound(s.a) && FuncInRange(s.a, f)
    ensures Adds(s, s.(a := s.a.(funcs := s.a.funcs + [f])))
  {
    hide ExprRefersBelow, StmtRefersBelow;
    var a' := s.a.(funcs := s.a.funcs + [f]);
    assert forall i :: 0 <= i < |a'.funcs| ==> FuncInRange(s.a, a'.funcs[i]) ==> FuncInRange(a', a'.funcs[i]);
  }

  // ------------------------------------------------------------------ expressions --

  /** What a parse from `s` ending in `r` keeps: the arena stays sound and only grows, no
      statement is pushed, and the handle names a node unless the parse never ends. */
  ghost predicate Parsed(s: S, r: (S, nat)) {
    Keeps(s, r.0) && NoStmt(s, r.0) && (!r.0.hung ==> Names(r.1, |r.0.a.exprs|))
  }

  lemma Chain(s: S, s1: S, s2: S)
    requires Keeps(s, s1) && Keeps(s1, s2)
    ensures Keeps(s, s2)
  {}

  lemma NameStays(s: S, s': S, h: nat)
    requires Keeps(s, s') && Names(h, |s.a.exprs|)
    ensures Names(h, |s'.a.exprs|)
  {}

  lemma Pushed(s: S, s1: S, e: Expr)
    requires Keeps(s, s1) && NoStmt(s, s1)
    requires ExprRefersBelow(e, |s1.a.exprs|, s1.a.argIndices, s1.a.structLitExprs)
    ensures Parsed(s, Push(s1, e))
  {
    hide Sound, Grows;
    PushExprSound(s1, e);
    Chain(s, s1, Push(s1, e).0);
  }

  lemma Nothing(s: S, s1: S)
    requires Sound(s.a) && s1.a == s.a
    ensures Keeps(s, s1)
  {}

  /** A leaf can always be pushed. */
  lemma Leaf(s: S, s1: S, e: Expr)
    requires Sound(s.a) && s1.a == s.a && (e.Ident? || e.IntLit? || e.StringLit? || e.BoolLit? || e.Path?)
    ensures Parsed(s, Push(s1, e))
  {
    hide Sound, Grows;
    Nothing(s, s1);
    Pushed(s, s1, e);
  }

  lemma {:induction false} PrimarySound(ts: Tokens, s: S)
    requires s.pos <= |ts| && Sound(s.a)
    ensures Parsed(s, ParsePrimary(ts, s))
    decreases |ts| - s.pos, s.patience, 0
  {
    hide ParseIdent, ParseBp, Sound, Grows;
    var lex := Peek(ts, s.pos);
    var s1 := Step(ts, s);
    if lex != "" && IsDigit(lex[0]) {
      Leaf(s, s1, IntLit(0));
    } else if lex != "" && lex[0] == '"' {
      Leaf(s, s1, StringLit(lex));
    } else if lex == "true" || lex == "false" {
      Leaf(s, s1, BoolLit(lex == "true"));
    } else if lex != "" && IsLetter(lex[0]) {
      IdentSound(ts, s1, lex);
    } else if lex == "(" {
      ExprSound(ts, s1, 0);
    } else if lex in {"&", "*", "-", "!"} {
      PrimarySound(ts, s1);
      var r := ParsePrimary(ts, s1);
      if !r.0.hung {
        Pushed(s, r.0, Unary(UnaryOf(lex), r.1));
      }
    } else {
      Leaf(s, s, IntLit(0));
    }
  }

  lemma {:induction false} IdentSound(ts: Tokens, s: S, lex: string)
    requires s.pos <= |ts| && Sound(s.a)
    ensures Parsed(s, ParseIdent(ts, s, lex))
    decreases |ts| - s.pos, s.patience, 6
  {
    hide ParseFields, Sound, Grows;
    if Peek(ts, s.pos) == "::" {
      var s1 := Step(ts, s);
      Leaf(s, Step(ts, s1), Path(lex, Peek(ts, s1.pos)));
    } else if StartsStructLit(ts, s.pos) {
      FieldsSound(ts, Step(ts, s), 0);
      var r := ParseFields(ts, Step(ts, s), 0);
      if !r.0.hung {
        FieldRange(s.a, r.0.a, r.1);
        Pushed(s, Step(ts, r.0), StructLit(lex, |s.a.structLitExprs|, r.1));
      }
    } else {
      Leaf(s, s, Ident(lex));
    }
  }

  lemma FieldRange(a: Arena, a': Arena, count: nat)
    requires Sound(a') && |a.structLitExprs| + count <= |a'.structLitExprs|
    ensures EntriesName(a'.structLitExprs, |a.structLitExprs|, count, |a'.exprs|)
  {}

  lemma ArgRange(a: Arena, a': Arena, count: nat)
    requires Sound(a') && |a.argIndices| + count <= |a'.argIndices|
    ensures EntriesName(a'.argIndices, |a.argIndices|, count, |a'.exprs|)
  {}

  /** The entries that belong to a structure literal are there; those of its field values may be among them. */
  lemma {:induction false} FieldsSound(ts: Tokens, s: S, count: nat)
    requires s.pos <= |ts| && Sound(s.a)
    ensures var r := ParseFields(ts, s, count);
            && Keeps(s, r.0) && NoStmt(s, r.0)
            && (!r.0.hung ==> count <= r.1 && |s.a.structLitExprs| + (r.1 - count) <= |r.0.a.structLitExprs|)
    decreases |ts| - s.pos, s.patience, 5
  {
    hide ParseBp, Sound, Watched;
    var s0 := Watched(ts, s);
    if s.hung || Peek(ts, s.pos) == "}" || s0.hung {
      Nothing(s, s0);
    } else {
      var s1 := Step(ts, Step(ts, s0));
      ExprSound(ts, s1, 0);
      var r := ParseBp(ts, s1, 0);
      if !r.0.hung {
        var s2 := PushField(r.0, Peek(ts, s0.pos), r.1);
        PushFieldSound(r.0, Peek(ts, s0.pos), r.1);
        FieldsSound(ts, if Peek(ts, s2.pos) == "," then Step(ts, s2) else s2, count + 1);
      }
    }
  }

  lemma {:induction false} PostfixSound(ts: Tokens, s: S, current: nat)
    requires s.pos <= |ts| && Sound(s.a) && Names(current, |s.a.exprs|)
    ensures Parsed(s, ParsePostfix(ts, s, current))
    decreases |ts| - s.pos, s.patience, 1
  {
    hide ParseBp, ParseArgs, Sound, Grows;
    var lex := Peek(ts, s.pos);
    var s1 := Step(ts, s);
    Nothing(s, s);
    Nothing(s, s1);
    if lex == "(" {
      ArgsSound(ts, s1, 0);
      var r := ParseArgs(ts, s1, 0);
      if !r.0.hung {
        NameStays(s, r.0, current);
        ArgRange(s.a, r.0.a, r.1);
        GoOn(ts, s, Step(ts, r.0), Call(current, |s.a.argIndices|, r.1));
      }
    } else if lex == "." {
      GoOn(ts, s, Step(ts, s1), Member(current, Peek(ts, s1.pos)));
    } else if lex == "[" {
      ExprSound(ts, s1, 0);
      var r := ParseBp(ts, s1, 0);
      if !r.0.hung {
        NameStays(s, r.0, current);
        GoOn(ts, s, Step(ts, r.0), Index(current, r.1));
      }
    }
  }

  /** A postfix node is pushed, and further postfix operators follow. */
  lemma {:induction false} GoOn(ts: Tokens, s: S, s1: S, e: Expr)
    requires s.pos < s1.pos <= |ts| && Sound(s.a) && s1.patience <= s.patience
    requires Keeps(s, s1) && NoStmt(s, s1)
    requires ExprRefersBelow(e, |s1.a.exprs|, s1.a.argIndices, s1.a.structLitExprs)
    ensures var p := Push(s1, e); Parsed(s, ParsePostfix(ts, p.0, p.1))
    decreases |ts| - s.pos, s.patience, 0
  {
    hide ParsePostfix, Sound, Grows;
    Pushed(s, s1, e);
    var p := Push(s1, e);
    PostfixSound(ts, p.0, p.1);
    Chain(s, p.0, ParsePostfix(ts, p.0, p.1).0);
  }

  lemma {:induction false} ArgsSound(ts: Tokens, s: S, count: nat)
    requires s.pos <= |ts| && Sound(s.a)
    ensures var r := ParseArgs(ts, s, count);
            && Keeps(s, r.0) && NoStmt(s, r.0)
            && (!r.0.hung ==> count <= r.1 && |s.a.argIndices| + (r.1 - count) <= |r.0.a.argIndices|)
    decreases |ts| - s.pos, s.patience, 4
  {
    hide ParseBp, Sound;
    if Peek(ts, s.pos) == ")" {
      Nothing(s, s);
    } else {
      ExprSound(ts, s, 0);
      var r := ParseBp(ts, s, 0);
      if !r.0.hung {
        var s1 := PushArg(r.0, r.1);
        PushArgSound(r.0, r.1);
        if Peek(ts, s1.pos) == "," {
          ArgsSound(ts, Step(ts, s1), count + 1);
        }
      }
    }
  }

  lemma {:induction false} ExprSound(ts: Tokens, s: S, minBp: nat)
    requires s.pos <= |ts| && Sound(s.a)
    ensures Parsed(s, ParseBp(ts, s, minBp))
    decreases |ts| - s.pos, s.patience, 3
  {
    hide ParsePrimary, ParsePostfix, ParseOperators, Sound, Grows;
    PrimarySound(ts, s);
    var r := ParsePrimary(ts, s);
    if !r.0.hung {
      PostfixSound(ts, r.0, r.1);
      var r1 := ParsePostfix(ts, r.0, r.1);
      Chain(s, r.0, r1.0);
      if !r1.0.hung {
        OperatorsSound(ts, r1.0, r1.1, minBp);
        Chain(s, r1.0, ParseOperators(ts, r1.0, r1.1, minBp).0);
      }
    }
  }

  lemma {:induction false} OperatorsSound(ts: Tokens, s: S, lhs: nat, minBp: nat)
    requires s.pos <= |ts| && Sound(s.a) && Names(lhs, |s.a.exprs|)
    ensures Parsed(s, ParseOperators(ts, s, lhs, minBp))
    decreases |ts| - s.pos, s.patience, 2
  {
    hide ParseBp, ParsePostfix, Sound, Grows, LexToBinop;
    var lex := Peek(ts, s.pos);
    var prec := Precedence(lex);
    Nothing(s, s);
    if prec != 0 && prec >= minBp {
      ExprSound(ts, Step(ts, s), prec + 1);
      var r := ParseBp(ts, Step(ts, s), prec + 1);
      if !r.0.hung {
        NameStays(s, r.0, lhs);
        var p := Push(r.0, Binary(lhs, LexToBinop(lex), r.1));
        GoOn(ts, s, r.0, Binary(lhs, LexToBinop(lex), r.1));
        var q := ParsePostfix(ts, p.0, p.1);
        if !q.0.hung {
          OperatorsSound(ts, q.0, q.1, minBp);
          Chain(s, q.0, ParseOperators(ts, q.0, q.1, minBp).0);
        }
      }
    }
  }

  // ------------------------------------------------------------------- statements --

  /** What parsing one statement keeps; its handle names the last statement of the arena. */
  ghost predicate ParsedStmt(s: S, r: (S, nat)) {
    && Keeps(s, r.0)
    && (!r.0.hung ==> |s.a.stmts| < |r.0.a.stmts| == r.1)
  }

  lemma StmtPushed(s: S, s1: S, st: Stmt)
    requires Keeps(s, s1) && StmtRefersBelow(st, |s1.a.stmts|, |s1.a.exprs|, s1.a.matchArms)
    ensures ParsedStmt(s, PushStmt(s1, st))
  {
    hide Sound;
    PushStmtSound(s1, st);
  }

  lemma {:induction false} StmtSound(ts: Tokens, s: S)
    requires s.pos <= |ts| && Sound(s.a)
    ensures ParsedStmt(s, ParseStmt(ts, s))
    decreases |ts| - s.pos, s.patience, 1
  {
    hide ParseLet, ParseReturn, ParseIf, ParseWhile, ParseFor, ParseMatch, ParseSimple, Sound;
    var lex := Peek(ts, s.pos);
    if lex == "let" {
      LetSound(ts, Step(ts, s));
    } else if lex == "return" {
      ReturnSound(ts, Step(ts, s));
    } else if lex == "if" {
      IfSound(ts, Step(ts, s));
    } else if lex == "while" {
      WhileSound(ts, Step(ts, s));
    } else if lex == "for" {
      ForSound(ts, Step(ts, s));
    } else if lex == "match" {
      MatchSound(ts, Step(ts, s));
    } else {
      SimpleSound(ts, s);
    }
  }

  lemma ParsedExpr(ts: Tokens, s: S)
    requires s.pos <= |ts| && Sound(s.a)
    ensures Parsed(s, ParseExpr(ts, s))
  {
    ExprSound(ts, s, 0);
  }

  lemma LetSound(ts: Tokens, s: S)
    requires s.pos <= |ts| && Sound(s.a)
    ensures ParsedStmt(s, ParseLet(ts, s))
  {
    hide ParseExpr, SkipUntil, Sound, Grows;
    var s1 := if Peek(ts, s.pos) == "mut" then Step(ts, s) else s;
    var s2 := Step(ts, s1);
    var s3 := if Peek(ts, s2.pos) == ":" then SkipUntil(ts, Step(ts, s2), {"=", ";"}) else s2;
    Nothing(s, s3);
    if !s3.hung {
      if Peek(ts, s3.pos) == "=" {
        ParsedExpr(ts, Step(ts, s3));
        var r := ParseExpr(ts, Step(ts, s3));
        if !r.0.hung {
          StmtPushed(s, Step(ts, r.0), Let(Peek(ts, s1.pos), 0, r.1));
        }
      } else {
        StmtPushed(s, Step(ts, s3), Let(Peek(ts, s1.pos), 0, 0));
      }
    }
  }

  lemma ReturnSound(ts: Tokens, s: S)
    requires s.pos <= |ts| && Sound(s.a)
    ensures ParsedStmt(s, ParseReturn(ts, s))
  {
    hide ParseExpr, Sound, Grows;
    Nothing(s, s);
    if Peek(ts, s.pos) == ";" {
      StmtPushed(s, Step(ts, s), Return(0));
    } else {
      ParsedExpr(ts, s);
      var r := ParseExpr(ts, s);
      if !r.0.hung {
        StmtPushed(s, Step(ts, r.0), Return(r.1));
      }
    }
  }

  lemma SimpleSound(ts: Tokens, s: S)
    requires s.pos <= |ts| && Sound(s.a)
    ensures ParsedStmt(s, ParseSimple(ts, s))
  {
    hide ParseExpr, Sound, Grows;
    ParsedExpr(ts, s);
    var e := ParseExpr(ts, s);
    if !e.0.hung {
      var lex := Peek(ts, e.0.pos);
      if lex == "=" || lex == "+=" || lex == "-=" {
        ParsedExpr(ts, Step(ts, e.0));
        var v := ParseExpr(ts, Step(ts, e.0));
        Chain(s, e.0, v.0);
        if !v.0.hung {
          NameStays(e.0, v.0, e.1);
          StmtPushed(s, Step(ts, v.0), if lex == "=" then Assign(e.1, v.1)
                                       else CompoundAssign(e.1, if lex == "+=" then Add else Sub, v.1));
        }
      } else {
        StmtPushed(s, Step(ts, e.0), ExprStmt(e.1));
      }
    }
  }

  /** The handles of the statements of a block rise, the last one is the newest statement,
      and so a block has no more statements than the arena has new ones. */
  ghost predicate Tops(tops: seq<nat>, before: nat, after: nat) {
    && before <= after && (tops == [] <==> before == after) && |tops| <= after - before
    && (tops != [] ==> tops[|tops| - 1] == after)
    && (forall k :: 0 <= k < |tops| ==> before + k < tops[k] <= after - (|tops| - 1 - k))
    && (forall j, k :: 0 <= j < k < |tops| ==> tops[j] < tops[k])
  }

  ghost predicate ParsedBlock(s: S, r: (S, seq<nat>)) {
    Keeps(s, r.0) && (!r.0.hung ==> Tops(r.1, |s.a.stmts|, |r.0.a.stmts|))
  }

  lemma {:induction false} BlockSound(ts: Tokens, s: S)
    requires s.pos <= |ts| && Sound(s.a)
    ensures ParsedBlock(s, ParseBlock(ts, s))
    decreases |ts| - s.pos, s.patience, 2
  {
    hide ParseStmt, Sound, Watched;
    var s0 := Watched(ts, s);
    if s.hung || Peek(ts, s.pos) == "}" || s0.hung {
      Nothing(s, s0);
    } else {
      StmtSound(ts, s0);
      var r := ParseStmt(ts, s0);
      if !r.0.hung {
        BlockSound(ts, r.0);
        var rest := ParseBlock(ts, r.0);
        Chain(s, r.0, rest.0);
      }
    }
  }

  lemma {:induction false} BracedSound(ts: Tokens, s: S)
    requires s.pos <= |ts| && Sound(s.a)
    ensures ParsedBlock(s, ParseBraced(ts, s))
    decreases |ts| - s.pos, s.patience, 3
  {
    hide ParseBlock, Sound, Tops;
    BlockSound(ts, Step(ts, s));
  }

  lemma {:induction false} IfSound(ts: Tokens, s: S)
    requires s.pos <= |ts| && Sound(s.a)
    ensures ParsedStmt(s, ParseIf(ts, s))
    decreases |ts| - s.pos, s.patience, 4
  {
    hide ParseExpr, ParseBraced, Sound, Grows;
    ParsedExpr(ts, s);
    var c := ParseExpr(ts, s);
    if !c.0.hung {
      BracedSound(ts, c.0);
      var t := ParseBraced(ts, c.0);
      Chain(s, c.0, t.0);
      if !t.0.hung {
        NameStays(c.0, t.0, c.1);
        if Peek(ts, t.0.pos) == "else" {
          BracedSound(ts, Step(ts, t.0));
          var e := ParseBraced(ts, Step(ts, t.0));
          Chain(s, t.0, e.0);
          if !e.0.hung {
            NameStays(t.0, e.0, c.1);
            StmtPushed(s, e.0, If(c.1, |c.0.a.stmts|, |t.1|, |t.0.a.stmts|, |e.1|));
          }
        } else {
          StmtPushed(s, t.0, If(c.1, |c.0.a.stmts|, |t.1|, 0, 0));
        }
      }
    }
  }

  lemma {:induction false} WhileSound(ts: Tokens, s: S)
    requires s.pos <= |ts| && Sound(s.a)
    ensures ParsedStmt(s, ParseWhile(ts, s))
    decreases |ts| - s.pos, s.patience, 4
  {
    hide ParseExpr, ParseBraced, Sound, Grows;
    ParsedExpr(ts, s);
    var c := ParseExpr(ts, s);
    if !c.0.hung {
      BracedSound(ts, c.0);
      var b := ParseBraced(ts, c.0);
      Chain(s, c.0, b.0);
      if !b.0.hung {
        NameStays(c.0, b.0, c.1);
        StmtPushed(s, b.0, While(c.1, |c.0.a.stmts|, |b.1|));
      }
    }
  }

  lemma {:induction false} ForSound(ts: Tokens, s: S)
    requires s.pos <= |ts| && Sound(s.a)
    ensures ParsedStmt(s, ParseFor(ts, s))
    decreases |ts| - s.pos, s.patience, 5
  {
    hide ParseExpr, ParseBraced, Sound, Grows;
    var s1 := Step(ts, Step(ts, s));
    Nothing(s, s1);
    ParsedExpr(ts, s1);
    var f := ParseExpr(ts, s1);
    Chain(s, s1, f.0);
    if !f.0.hung {
      ParsedExpr(ts, Step(ts, f.0));
      var t := ParseExpr(ts, Step(ts, f.0));
      Chain(s, f.0, t.0);
      if !t.0.hung {
        NameStays(f.0, t.0, f.1);
        if Peek(ts, t.0.pos) == "step" {
          ParsedExpr(ts, Step(ts, t.0));
          var p := ParseExpr(ts, Step(ts, t.0));
          Chain(s, t.0, p.0);
          if !p.0.hung {
            NameStays(t.0, p.0, f.1);
            NameStays(t.0, p.0, t.1);
            ForBodySound(ts, s, p.0, Peek(ts, s.pos), f.1, t.1, p.1);
          }
        } else {
          ForBodySound(ts, s, t.0, Peek(ts, s.pos), f.1, t.1, 0);
        }
      }
    }
  }

  lemma {:induction false} ForBodySound(ts: Tokens, s: S, s1: S, name: string, from: nat, to: nat, step: nat)
    requires s.pos <= s1.pos <= |ts| && s1.patience <= s.patience && Keeps(s, s1) && NoStmt(s, s1)
    requires Names(from, |s1.a.exprs|) && Names(to, |s1.a.exprs|) && (step == 0 || Names(step, |s1.a.exprs|))
    ensures var b := ParseBraced(ts, s1);
            ParsedStmt(s, if b.0.hung then (b.0, 0)
                          else PushStmt(b.0, For(name, from, to, step, |s1.a.stmts|, |b.1|)))
    decreases |ts| - s.pos, s.patience, 4
  {
    hide ParseBraced, Sound;
    BracedSound(ts, s1);
    var b := ParseBraced(ts, s1);
    Chain(s, s1, b.0);
    if !b.0.hung {
      StmtPushed(s, b.0, For(name, from, to, step, |s1.a.stmts|, |b.1|));
    }
  }

  lemma MatchSound(ts: Tokens, s: S)
    requires s.pos <= |ts| && Sound(s.a)
    ensures ParsedStmt(s, ParseMatch(ts, s))
  {
    hide ParseExpr, ParseArms, Sound, Grows;
    ParsedExpr(ts, s);
    var c := ParseExpr(ts, s);
    if !c.0.hung {
      ArmsSound(ts, Step(ts, c.0), 0);
      var arms := ParseArms(ts, Step(ts, c.0), 0);
      Chain(s, c.0, arms.0);
      if !arms.0.hung {
        NameStays(c.0, arms.0, c.1);
        ArmRange(c.0.a, arms.0.a, arms.1);
        StmtPushed(s, Step(ts, arms.0), Match(c.1, |c.0.a.matchArms|, arms.1));
      }
    }
  }

  lemma ArmRange(a: Arena, a': Arena, count: nat)
    requires Sound(a') && |a.matchArms| + count <= |a'.matchArms|
    ensures ArmsName(a'.matchArms, |a.matchArms|, count, |a'.exprs|)
  {}

  lemma {:induction false} ArmsSound(ts: Tokens, s: S, count: nat)
    requires s.pos <= |ts| && Sound(s.a)
    ensures var r := ParseArms(ts, s, count);
            && Keeps(s, r.0) && r.0.a.stmts == s.a.stmts
            && (!r.0.hung ==> count <= r.1 && |s.a.matchArms| + (r.1 - count) <= |r.0.a.matchArms|)
    decreases |ts| - s.pos, s.patience
  {
    hide ParseExpr, Sound, Watched, ParsePattern;
    var s0 := Watched(ts, s);
    if s.hung || Peek(ts, s.pos) == "}" || s0.hung {
      Nothing(s, s0);
    } else {
      var p := ParsePattern(ts, s0);
      var s1 := Step(ts, p.0);
      ParsedExpr(ts, s1);
      var r := ParseExpr(ts, s1);
      Chain(s, s1, r.0) by { Nothing(s, s1); }
      if !r.0.hung {
        var s2 := if Peek(ts, r.0.pos) == "," then Step(ts, r.0) else r.0;
        Nothing(r.0, s2);
        PushArmSound(s2, MatchArm(p.1, r.1, 1));
        ArmsSound(ts, PushArm(s2, MatchArm(p.1, r.1, 1)), count + 1);
      }
    }
  }

  // -------------------------------------------------------------------- functions --

  lemma {:induction false} ParamsSound(ts: Tokens, s: S, count: nat)
    requires s.pos <= |ts| && Sound(s.a)
    ensures var r := ParseParams(ts, s, count);
            && Adds(s, r.0) && NoStmt(s, r.0) && r.0.a.funcs == s.a.funcs
            && (!r.0.hung ==> count <= r.1 && |s.a.params| + (r.1 - count) == |r.0.a.params|)
    decreases |ts| - s.pos, s.patience
  {
    hide SkipUntil, Sound;
    if s.hung || Peek(ts, s.pos) == ")" {
      Nothing(s, s);
    } else {
      var s1 := Step(ts, Step(ts, s));
      var s2 := SkipUntil(ts, s1, {",", ")"});
      Nothing(s, s2);
      if !s2.hung {
        var s3 := PushParam(s2, Param(Peek(ts, s.pos), Blanks(s2.pos - s1.pos)));
        PushParamSound(s2, Param(Peek(ts, s.pos), Blanks(s2.pos - s1.pos)));
        ParamsSound(ts, if Peek(ts, s3.pos) == "," then Step(ts, s3) else s3, count + 1);
      }
    }
  }

  lemma AddsChain(s: S, s1: S, s2: S)
    requires Adds(s, s1) && Adds(s1, s2)
    ensures Adds(s, s2)
  {}

  /** A function declaration keeps the arena sound, from any place in any tokens; the new
      function is the last one, and its parameters are exactly the new ones. */
  lemma FuncDeclSound(ts: Tokens, s: S, isSafe: bool)
    requires s.pos <= |ts| && Sound(s.a)
    ensures var r := ParseFuncDecl(ts, s, isSafe);
            && Sound(r.0.a) && Grows(s.a, r.0.a)
            && (!r.0.hung ==> r.1 == |r.0.a.funcs| == |s.a.funcs| + 1)
            && (!r.0.hung ==> var f := r.0.a.funcs[r.1 - 1];
                              f.paramStart == |s.a.params| && f.paramStart + f.paramCount == |r.0.a.params|)
  {
    hide SkipUntil, ParseParams, ParseBraced, Sound, Grows;
    var s0 := Step(ts, Step(ts, s));
    Nothing(s, s0);
    ParamsSound(ts, s0, 0);
    var ps := ParseParams(ts, s0, 0);
    AddsChain(s, s0, ps.0);
    if !ps.0.hung {
      var s1 := Step(ts, ps.0);
      var s2 := if Peek(ts, s1.pos) == "->" then SkipUntil(ts, Step(ts, s1), {"{"}) else s1;
      Nothing(ps.0, s2);
      AddsChain(s, ps.0, s2);
      if !s2.hung {
        BracedSound(ts, s2);
        var b := ParseBraced(ts, s2);
        AddsChain(s, s2, b.0);
        if !b.0.hung {
          var f := FuncDecl(Peek(ts, s.pos), isSafe, |s.a.params|, ps.1, |s2.a.stmts|, |b.1|);
          PushFuncSound(b.0, f);
          AddsChain(s, b.0, b.0.(a := b.0.a.(funcs := b.0.a.funcs + [f])));
        }
      }
    }
  }

  // ----------------------------------------------------------------- block ranges --

  /** A statement that owns no statements. */
  predicate Blockless(st: Stmt) {
    match st
    case If(_, _, tc, _, ec) => tc == 0 && ec == 0
    case While(_, _, bc) => bc == 0
    case For(_, _, _, _, _, bc) => bc == 0
    case _ => true
  }

  /** The statements of a block lie one behind the other, as its recorded range presumes. */
  ghost predicate Contiguous(tops: seq<nat>, start: nat) { forall k :: 0 <= k < |tops| ==> tops[k] == start + k + 1 }

  ghost predicate AllBlockless(a: Arena, tops: seq<nat>) {
    forall k :: 0 <= k < |tops| ==> 1 <= tops[k] <= |a.stmts| && Blockless(a.stmts[tops[k] - 1])
  }

  /** A statement comes alone exactly if it owns no statements. */
  lemma StmtGrowth(ts: Tokens, s: S)
    requires s.pos <= |ts| && Sound(s.a) && !ParseStmt(ts, s).0.hung
    ensures var r := ParseStmt(ts, s);
            && |s.a.stmts| < |r.0.a.stmts| == r.1
            && (|r.0.a.stmts| == |s.a.stmts| + 1 <==> Blockless(r.0.a.stmts[r.1 - 1]))
  {
    hide ParseExpr, ParseBlock, ParseArms, SkipUntil, Sound, Grows;
    StmtSound(ts, s);
    var lex, s1 := Peek(ts, s.pos), Step(ts, s);
    if lex == "if" {
      IfGrowth(ts, s1);
    } else if lex == "while" {
      WhileGrowth(ts, s1);
    } else if lex == "for" {
      ForGrowth(ts, s1);
    } else if lex == "let" {
      LetGrowth(ts, s1);
    } else if lex == "return" {
      ReturnGrowth(ts, s1);
    } else if lex == "match" {
      MatchGrowth(ts, s1);
    } else {
      SimpleGrowth(ts, s);
    }
  }

  ghost predicate Alone(s: S, r: (S, nat)) {
    && |r.0.a.stmts| == r.1 >= 1
    && (|r.0.a.stmts| == |s.a.stmts| + 1 <==> Blockless(r.0.a.stmts[r.1 - 1]))
  }

  lemma LetGrowth(ts: Tokens, s: S)
    requires s.pos <= |ts| && Sound(s.a) && !ParseLet(ts, s).0.hung
    ensures Alone(s, ParseLet(ts, s))
  {
    hide ParseExpr, SkipUntil, Sound, Grows;
    var s1 := if Peek(ts, s.pos) == "mut" then Step(ts, s) else s;
    var s2 := Step(ts, s1);
    var s3 := if Peek(ts, s2.pos) == ":" then SkipUntil(ts, Step(ts, s2), {"=", ";"}) else s2;
    if Peek(ts, s3.pos) == "=" {
      ParsedExpr(ts, Step(ts, s3));
    }
  }

  lemma ReturnGrowth(ts: Tokens, s: S)
    requires s.pos <= |ts| && Sound(s.a) && !ParseReturn(ts, s).0.hung
    ensures Alone(s, ParseReturn(ts, s))
  {
    hide ParseExpr, Sound, Grows;
    ParsedExpr(ts, s);
  }

  lemma SimpleGrowth(ts: Tokens, s: S)
    requires s.pos <= |ts| && Sound(s.a) && !ParseSimple(ts, s).0.hung
    ensures Alone(s, ParseSimple(ts, s))
  {
    hide ParseExpr, Sound, Grows;
    ParsedExpr(ts, s);
    ParsedExpr(ts, Step(ts, ParseExpr(ts, s).0));
  }

  lemma MatchGrowth(ts: Tokens, s: S)
    requires s.pos <= |ts| && Sound(s.a) && !ParseMatch(ts, s).0.hung
    ensures Alone(s, ParseMatch(ts, s))
  {
    hide ParseExpr, ParseArms, Sound, Grows;
    ParsedExpr(ts, s);
    ArmsSound(ts, Step(ts, ParseExpr(ts, s).0), 0);
  }

  lemma IfGrowth(ts: Tokens, s: S)
    requires s.pos <= |ts| && Sound(s.a) && !ParseIf(ts, s).0.hung
    ensures Alone(s, ParseIf(ts, s))
  {
    hide ParseExpr, ParseBraced, Sound, Grows;
    ParsedExpr(ts, s);
    var c := ParseExpr(ts, s).0;
    BracedSound(ts, c);
    var t := ParseBraced(ts, c).0;
    if Peek(ts, t.pos) == "else" {
      BracedSound(ts, Step(ts, t));
    }
  }

  lemma WhileGrowth(ts: Tokens, s: S)
    requires s.pos <= |ts| && Sound(s.a) && !ParseWhile(ts, s).0.hung
    ensures Alone(s, ParseWhile(ts, s))
  {
    hide ParseExpr, ParseBraced, Sound, Grows;
    ParsedExpr(ts, s);
    BracedSound(ts, ParseExpr(ts, s).0);
  }

  lemma ForGrowth(ts: Tokens, s: S)
    requires s.pos <= |ts| && Sound(s.a) && !ParseFor(ts, s).0.hung
    ensures Alone(s, ParseFor(ts, s))
  {
    hide ParseExpr, ParseBraced, Sound, Grows;
    var s1 := Step(ts, Step(ts, s));
    ParsedExpr(ts, s1);
    var f := ParseExpr(ts, s1).0;
    ParsedExpr(ts, Step(ts, f));
    var t := ParseExpr(ts, Step(ts, f)).0;
    if Peek(ts, t.pos) == "step" {
      ParsedExpr(ts, Step(ts, t));
      BracedSound(ts, ParseExpr(ts, Step(ts, t)).0);
    } else {
      BracedSound(ts, t);
    }
  }

  lemma {:induction false} BlockGrowth(ts: Tokens, s: S)
    requires s.pos <= |ts| && Sound(s.a) && !s.hung && !ParseBlock(ts, s).0.hung
    ensures var r := ParseBlock(ts, s);
            |r.0.a.stmts| == |s.a.stmts| + |r.1| <==> AllBlockless(r.0.a, r.1)
    decreases |ts| - s.pos, s.patience
  {
    hide ParseStmt, Sound, Watched, Blockless;
    var s0 := Watched(ts, s);
    if Peek(ts, s.pos) != "}" {
      StmtSound(ts, s0);
      StmtGrowth(ts, s0);
      var r := ParseStmt(ts, s0);
      BlockSound(ts, r.0);
      BlockGrowth(ts, r.0);
      var rest := ParseBlock(ts, r.0);
      BlocklessSplit(r.0.a, rest.0.a, r.1, rest.1);
    }
  }

  lemma BlocklessSplit(a: Arena, a': Arena, first: nat, rest: seq<nat>)
    requires Grows(a, a') && 1 <= first <= |a.stmts|
    ensures AllBlockless(a', [first] + rest) <==> Blockless(a.stmts[first - 1]) && AllBlockless(a', rest)
  {
    hide Blockless;
    var all := [first] + rest;
    if AllBlockless(a', all) {
      assert all[0] == first;
      forall k | 0 <= k < |rest| ensures 1 <= rest[k] <= |a'.stmts| && Blockless(a'.stmts[rest[k] - 1]) {
        assert all[k + 1] == rest[k];
      }
    }
  }

  /** The range recorded for a block holds exactly the statements of the block, in order, if
      and only if none of them owns statements itself. Otherwise statements of nested blocks
      stand in it, and the last statement of the block is behind its end. */
  lemma BlockRange(ts: Tokens, s: S)
    requires s.pos <= |ts| && Sound(s.a) && !s.hung && !ParseBlock(ts, s).0.hung
    ensures var (s', tops) := ParseBlock(ts, s);
            && |s.a.stmts| + |tops| <= |s'.a.stmts|
            && (Contiguous(tops, |s.a.stmts|) <==> AllBlockless(s'.a, tops))
            && (!AllBlockless(s'.a, tops) ==> tops != [] && tops[|tops| - 1] > |s.a.stmts| + |tops|)
  {
    hide ParseBlock, Sound, Blockless;
    BlockSound(ts, s);
    BlockGrowth(ts, s);
  }

  /** The place behind the opening brace of a function body. */
  function BodyState(ts: Tokens, s: S): (s': S)
    requires s.pos <= |ts|
    ensures s'.pos <= |ts|
  {
    var ps := ParseParams(ts, Step(ts, Step(ts, s)), 0);
    var s1 := Step(ts, ps.0);
    Step(ts, if Peek(ts, s1.pos) == "->" then SkipUntil(ts, Step(ts, s1), {"{"}) else s1)
  }

  /** So the range of a parsed function is its body, `tops`, exactly if no statement of the
      body owns statements; otherwise the last statement of the body is outside the range. */
  lemma FuncBodyRange(ts: Tokens, s: S, isSafe: bool)
    requires s.pos <= |ts| && Sound(s.a) && !s.hung && !ParseFuncDecl(ts, s, isSafe).0.hung
    ensures var (s', h) := ParseFuncDecl(ts, s, isSafe);
            && 1 <= h <= |s'.a.funcs|
            && var f, tops := s'.a.funcs[h - 1], ParseBlock(ts, BodyState(ts, s)).1;
               && |tops| == f.bodyCount
               && (Contiguous(tops, f.bodyStart) <==> AllBlockless(s'.a, tops))
               && (!AllBlockless(s'.a, tops) ==> tops != [] && tops[|tops| - 1] > f.bodyStart + f.bodyCount)
  {
    hide SkipUntil, ParseParams, ParseBlock, Sound, Grows, Blockless;
    var s0 := Step(ts, Step(ts, s));
    Nothing(s, s0);
    ParamsSound(ts, s0, 0);
    var ps := ParseParams(ts, s0, 0);
    var s1 := Step(ts, ps.0);
    var s2 := if Peek(ts, s1.pos) == "->" then SkipUntil(ts, Step(ts, s1), {"{"}) else s1;
    Nothing(ps.0, s2);
    BlockRange(ts, Step(ts, s2));
  }

  // --------------------------------------------------------------- whole programs --

  datatype Place = Place(pos: nat, isSafe: bool)

  /** Functions declared one after another, at any places of the tokens. */
  function ParseDecls(ts: Tokens, a: Arena, places: seq<Place>, patience: nat): Arena
    requires forall i :: 0 <= i < |places| ==> places[i].pos <= |ts|
  {
    if places == [] then a else
      var last := places[|places| - 1];
      ParseFuncDecl(ts, S(last.pos, ParseDecls(ts, a, places[..|places| - 1], patience), patience, false),
        last.isSafe).0.a
  }

  /** Whatever the tokens are and however long the parser is watched, the arena it has built from
      an empty one is acyclic and in range: the emitter ends on it and never leaves it. */
  lemma {:induction false} ProgramSound(ts: Tokens, places: seq<Place>, patience: nat)
    requires forall i :: 0 <= i < |places| ==> places[i].pos <= |ts|
    ensures Sound(ParseDecls(ts, Arena([], [], [], [], [], [], [], []), places, patience))
  {
    hide ParseFuncDecl;
    if places != [] {
      var last := places[|places| - 1];
      var before := ParseDecls(ts, Arena([], [], [], [], [], [], [], []), places[..|places| - 1], patience);
      ProgramSound(ts, places[..|places| - 1], patience);
      FuncDeclSound(ts, S(last.pos, before, patience, false), last.isSafe);
    }
  }
}
