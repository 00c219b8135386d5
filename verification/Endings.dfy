/** Which runs of the parser end. A run that is `hung` for some patience is hung for any; a run that is not
    ends in the same place with the same arena for any. So a run never ends if and only if it is `hung`. */
module Endings {
  import opened Ast
  import opened ParserSpec

  /** The same state with another patience. */
  function Given(s: S, q: nat): S { s.(patience := q) }

  /** The run from `s` ending in `r` and the one with patience `q` instead: both never end, or both end alike
      without having lost patience. Nodes are only added on the way. */
  ghost predicate Alike<T(!new)>(s: S, q: nat, r: (S, T), r': (S, T)) {
    && (r.0.hung <==> r'.0.hung)
    && (!r.0.hung ==> r' == (Given(r.0, q), r.1) && r.0.patience == s.patience && s.a.exprs <= r.0.a.exprs)
  }

  // --------------------------------------------------------- loops at the end of the tokens --

  /** At the end of the tokens the fields of a structure literal never end. */
  lemma {:induction false} FieldsNeverEnd(ts: Tokens, s: S, count: nat)
    requires s.pos == |ts| && !s.hung
    ensures ParseFields(ts, s, count).0.hung
    decreases s.patience
  {
    hide ParseBp;
    var s0 := Watched(ts, s);
    if !s0.hung {
      var r := ParseBp(ts, Step(ts, Step(ts, s0)), 0);
      if !r.0.hung {
        FieldsNeverEnd(ts, PushField(r.0, "", r.1), count + 1);
      }
    }
  }

  lemma {:induction false} BlockNeverEnds(ts: Tokens, s: S)
    requires s.pos == |ts| && !s.hung
    ensures ParseBlock(ts, s).0.hung
    decreases s.patience
  {
    hide ParseStmt;
    var s0 := Watched(ts, s);
    if !s0.hung {
      var r := ParseStmt(ts, s0);
      if !r.0.hung {
        BlockNeverEnds(ts, r.0);
      }
    }
  }

  lemma {:induction false} ArmsNeverEnd(ts: Tokens, s: S, count: nat)
    requires s.pos == |ts| && !s.hung
    ensures ParseArms(ts, s, count).0.hung
    decreases s.patience
  {
    hide ParseBp, ParsePattern;
    var s0 := Watched(ts, s);
    if !s0.hung {
      var p := ParsePattern(ts, s0);
      var r := ParseExpr(ts, Step(ts, p.0));
      if !r.0.hung {
        ArmsNeverEnd(ts, PushArm(r.0, MatchArm(p.1, r.1, 1)), count + 1);
      }
    }
  }

  lemma ParamsNeverEnd(ts: Tokens, s: S, count: nat)
    requires s.pos == |ts| && !s.hung
    ensures ParseParams(ts, s, count).0.hung
  {}

  // ---------------------------------------------------------------------- expressions --

  lemma {:induction false} PrimaryAlike(ts: Tokens, s: S, q: nat)
    requires s.pos <= |ts| && !s.hung
    ensures Alike(s, q, ParsePrimary(ts, s), ParsePrimary(ts, Given(s, q)))
    decreases |ts| - s.pos, 0
  {
    hide ParseIdent, ParseBp;
    var lex, s1 := Peek(ts, s.pos), Step(ts, s);
    if lex == "(" {
      ExprAlike(ts, s1, q, 0);
    } else if lex in {"&", "*", "-", "!"} {
      PrimaryAlike(ts, s1, q);
    } else if s.pos < |ts| {
      IdentAlike(ts, s1, q, lex);
    }
  }

  lemma {:induction false} IdentAlike(ts: Tokens, s: S, q: nat, lex: string)
    requires s.pos <= |ts| && !s.hung
    ensures Alike(s, q, ParseIdent(ts, s, lex), ParseIdent(ts, Given(s, q), lex))
    decreases |ts| - s.pos, 6
  {
    hide ParseFields;
    if Peek(ts, s.pos) != "::" && StartsStructLit(ts, s.pos) {
      FieldsAlike(ts, Step(ts, s), q, 0);
    }
  }

  lemma {:induction false} FieldsAlike(ts: Tokens, s: S, q: nat, count: nat)
    requires s.pos <= |ts| && !s.hung
    ensures Alike(s, q, ParseFields(ts, s, count), ParseFields(ts, Given(s, q), count))
    decreases |ts| - s.pos, 5
  {
    hide ParseBp;
    if s.pos == |ts| {
      FieldsNeverEnd(ts, s, count);
      FieldsNeverEnd(ts, Given(s, q), count);
    } else if Peek(ts, s.pos) != "}" {
      ExprAlike(ts, Step(ts, Step(ts, s)), q, 0);
      var r := ParseBp(ts, Step(ts, Step(ts, s)), 0);
      if !r.0.hung {
        var s1 := PushField(r.0, Peek(ts, s.pos), r.1);
        FieldsAlike(ts, if Peek(ts, s1.pos) == "," then Step(ts, s1) else s1, q, count + 1);
      }
    }
  }

  lemma {:induction false} PostfixAlike(ts: Tokens, s: S, q: nat, current: nat)
    requires s.pos <= |ts| && !s.hung
    ensures Alike(s, q, ParsePostfix(ts, s, current), ParsePostfix(ts, Given(s, q), current))
    decreases |ts| - s.pos, 1
  {
    hide ParseBp, ParseArgs;
    var lex, s1 := Peek(ts, s.pos), Step(ts, s);
    if lex == "(" {
      ArgsAlike(ts, s1, q, 0);
      var r := ParseArgs(ts, s1, 0);
      if !r.0.hung {
        var p := Push(Step(ts, r.0), Call(current, |s.a.argIndices|, r.1));
        PostfixAlike(ts, p.0, q, p.1);
      }
    } else if lex == "." {
      var p := Push(Step(ts, s1), Member(current, Peek(ts, s1.pos)));
      PostfixAlike(ts, p.0, q, p.1);
    } else if lex == "[" {
      ExprAlike(ts, s1, q, 0);
      var r := ParseBp(ts, s1, 0);
      if !r.0.hung {
        var p := Push(Step(ts, r.0), Index(current, r.1));
        PostfixAlike(ts, p.0, q, p.1);
      }
    }
  }

  lemma {:induction false} ArgsAlike(ts: Tokens, s: S, q: nat, count: nat)
    requires s.pos <= |ts| && !s.hung
    ensures Alike(s, q, ParseArgs(ts, s, count), ParseArgs(ts, Given(s, q), count))
    decreases |ts| - s.pos, 4
  {
    hide ParseBp;
    if Peek(ts, s.pos) != ")" {
      ExprAlike(ts, s, q, 0);
      var r := ParseBp(ts, s, 0);
      if !r.0.hung && Peek(ts, r.0.pos) == "," {
        ArgsAlike(ts, Step(ts, PushArg(r.0, r.1)), q, count + 1);
      }
    }
  }

  lemma {:induction false} ExprAlike(ts: Tokens, s: S, q: nat, minBp: nat)
    requires s.pos <= |ts| && !s.hung
    ensures Alike(s, q, ParseBp(ts, s, minBp), ParseBp(ts, Given(s, q), minBp))
    decreases |ts| - s.pos, 3
  {
    hide ParsePrimary, ParsePostfix, ParseOperators;
    PrimaryAlike(ts, s, q);
    var r := ParsePrimary(ts, s);
    if !r.0.hung {
      PostfixAlike(ts, r.0, q, r.1);
      var r1 := ParsePostfix(ts, r.0, r.1);
      if !r1.0.hung {
        OperatorsAlike(ts, r1.0, q, r1.1, minBp);
      }
    }
  }

  lemma {:induction false} OperatorsAlike(ts: Tokens, s: S, q: nat, lhs: nat, minBp: nat)
    requires s.pos <= |ts| && !s.hung
    ensures Alike(s, q, ParseOperators(ts, s, lhs, minBp), ParseOperators(ts, Given(s, q), lhs, minBp))
    decreases |ts| - s.pos, 2
  {
    hide ParseBp, ParsePostfix, LexToBinop;
    var lex := Peek(ts, s.pos);
    var prec := Precedence(lex);
    if prec > 0 && prec >= minBp {
      ExprAlike(ts, Step(ts, s), q, prec + 1);
      var r := ParseBp(ts, Step(ts, s), prec + 1);
      if !r.0.hung {
        var p := Push(r.0, Binary(lhs, LexToBinop(lex), r.1));
        PostfixAlike(ts, p.0, q, p.1);
        var t := ParsePostfix(ts, p.0, p.1);
        if !t.0.hung {
          OperatorsAlike(ts, t.0, q, t.1, minBp);
        }
      }
    }
  }

  // ----------------------------------------------------------------------- statements --

  lemma {:induction false} SkipAlike(ts: Tokens, s: S, q: nat, stops: set<string>)
    requires s.pos <= |ts| && !s.hung && "" !in stops
    ensures Alike(s, q, (SkipUntil(ts, s, stops), 0), (SkipUntil(ts, Given(s, q), stops), 0))
    decreases |ts| - s.pos
  {
    if s.pos < |ts| && Peek(ts, s.pos) !in stops {
      SkipAlike(ts, Step(ts, s), q, stops);
    }
  }

  lemma {:induction false} StmtAlike(ts: Tokens, s: S, q: nat)
    requires s.pos <= |ts| && !s.hung
    ensures Alike(s, q, ParseStmt(ts, s), ParseStmt(ts, Given(s, q)))
    decreases |ts| - s.pos, 1
  {
    hide ParseLet, ParseReturn, ParseIf, ParseWhile, ParseFor, ParseMatch, ParseSimple;
    var lex, s1 := Peek(ts, s.pos), Step(ts, s);
    if lex == "let" {
      LetAlike(ts, s1, q);
    } else if lex == "return" {
      ReturnAlike(ts, s1, q);
    } else if lex == "if" {
      IfAlike(ts, s1, q);
    } else if lex == "while" {
      WhileAlike(ts, s1, q);
    } else if lex == "for" {
      ForAlike(ts, s1, q);
    } else if lex == "match" {
      MatchAlike(ts, s1, q);
    } else {
      SimpleAlike(ts, s, q);
    }
  }

  lemma LetAlike(ts: Tokens, s: S, q: nat)
    requires s.pos <= |ts| && !s.hung
    ensures Alike(s, q, ParseLet(ts, s), ParseLet(ts, Given(s, q)))
  {
    hide SkipUntil, ParseBp;
    var s1 := if Peek(ts, s.pos) == "mut" then Step(ts, s) else s;
    var s2 := Step(ts, s1);
    var s3 := if Peek(ts, s2.pos) == ":" then SkipUntil(ts, Step(ts, s2), {"=", ";"}) else s2;
    if Peek(ts, s2.pos) == ":" {
      SkipAlike(ts, Step(ts, s2), q, {"=", ";"});
    }
    if !s3.hung && Peek(ts, s3.pos) == "=" {
      ExprAlike(ts, Step(ts, s3), q, 0);
    }
  }

  lemma ReturnAlike(ts: Tokens, s: S, q: nat)
    requires s.pos <= |ts| && !s.hung
    ensures Alike(s, q, ParseReturn(ts, s), ParseReturn(ts, Given(s, q)))
  {
    hide ParseBp;
    ExprAlike(ts, s, q, 0);
  }

  lemma SimpleAlike(ts: Tokens, s: S, q: nat)
    requires s.pos <= |ts| && !s.hung
    ensures Alike(s, q, ParseSimple(ts, s), ParseSimple(ts, Given(s, q)))
  {
    hide ParseBp;
    ExprAlike(ts, s, q, 0);
    var e := ParseExpr(ts, s);
    if !e.0.hung && Peek(ts, e.0.pos) in {"=", "+=", "-="} {
      ExprAlike(ts, Step(ts, e.0), q, 0);
    }
  }

  lemma {:induction false} BlockAlike(ts: Tokens, s: S, q: nat)
    requires s.pos <= |ts| && !s.hung
    ensures Alike(s, q, ParseBlock(ts, s), ParseBlock(ts, Given(s, q)))
    decreases |ts| - s.pos, 2
  {
    hide ParseStmt;
    if s.pos == |ts| {
      BlockNeverEnds(ts, s);
      BlockNeverEnds(ts, Given(s, q));
    } else if Peek(ts, s.pos) != "}" {
      StmtAlike(ts, s, q);
      var r := ParseStmt(ts, s);
      if !r.0.hung {
        BlockAlike(ts, r.0, q);
      }
    }
  }

  lemma {:induction false} BracedAlike(ts: Tokens, s: S, q: nat)
    requires s.pos <= |ts| && !s.hung
    ensures Alike(s, q, ParseBraced(ts, s), ParseBraced(ts, Given(s, q)))
    decreases |ts| - s.pos, 3
  {
    hide ParseBlock;
    BlockAlike(ts, Step(ts, s), q);
  }

  lemma {:induction false} IfAlike(ts: Tokens, s: S, q: nat)
    requires s.pos <= |ts| && !s.hung
    ensures Alike(s, q, ParseIf(ts, s), ParseIf(ts, Given(s, q)))
    decreases |ts| - s.pos, 4
  {
    hide ParseBp, ParseBraced;
    ExprAlike(ts, s, q, 0);
    var c := ParseExpr(ts, s);
    if !c.0.hung {
      BracedAlike(ts, c.0, q);
      var t := ParseBraced(ts, c.0);
      if !t.0.hung && Peek(ts, t.0.pos) == "else" {
        BracedAlike(ts, Step(ts, t.0), q);
      }
    }
  }

  lemma {:induction false} WhileAlike(ts: Tokens, s: S, q: nat)
    requires s.pos <= |ts| && !s.hung
    ensures Alike(s, q, ParseWhile(ts, s), ParseWhile(ts, Given(s, q)))
    decreases |ts| - s.pos, 4
  {
    hide ParseBp, ParseBraced;
    ExprAlike(ts, s, q, 0);
    var c := ParseExpr(ts, s);
    if !c.0.hung {
      BracedAlike(ts, c.0, q);
    }
  }

  lemma {:induction false} ForAlike(ts: Tokens, s: S, q: nat)
    requires s.pos <= |ts| && !s.hung
    ensures Alike(s, q, ParseFor(ts, s), ParseFor(ts, Given(s, q)))
    decreases |ts| - s.pos, 4
  {
    hide ParseBp, ParseBraced;
    var s0 := Step(ts, Step(ts, s));
    ExprAlike(ts, s0, q, 0);
    var f := ParseExpr(ts, s0);
    if !f.0.hung {
      ExprAlike(ts, Step(ts, f.0), q, 0);
      var t := ParseExpr(ts, Step(ts, f.0));
      if !t.0.hung {
        ExprAlike(ts, Step(ts, t.0), q, 0);
        var p := if Peek(ts, t.0.pos) == "step" then ParseExpr(ts, Step(ts, t.0)) else (t.0, 0);
        if !p.0.hung {
          BracedAlike(ts, p.0, q);
        }
      }
    }
  }

  lemma MatchAlike(ts: Tokens, s: S, q: nat)
    requires s.pos <= |ts| && !s.hung
    ensures Alike(s, q, ParseMatch(ts, s), ParseMatch(ts, Given(s, q)))
  {
    hide ParseBp, ParseArms;
    ExprAlike(ts, s, q, 0);
    var c := ParseExpr(ts, s);
    if !c.0.hung {
      ArmsAlike(ts, Step(ts, c.0), q, 0);
    }
  }

  lemma {:induction false} ArmsAlike(ts: Tokens, s: S, q: nat, count: nat)
    requires s.pos <= |ts| && !s.hung
    ensures Alike(s, q, ParseArms(ts, s, count), ParseArms(ts, Given(s, q), count))
    decreases |ts| - s.pos
  {
    hide ParseBp;
    if s.pos == |ts| {
      ArmsNeverEnd(ts, s, count);
      ArmsNeverEnd(ts, Given(s, q), count);
    } else if Peek(ts, s.pos) != "}" {
      var p := ParsePattern(ts, s);
      ExprAlike(ts, Step(ts, p.0), q, 0);
      var r := ParseExpr(ts, Step(ts, p.0));
      if !r.0.hung {
        var s1 := if Peek(ts, r.0.pos) == "," then Step(ts, r.0) else r.0;
        ArmsAlike(ts, PushArm(s1, MatchArm(p.1, r.1, 1)), q, count + 1);
      }
    }
  }

  // ----------------------------------------------------------------------- functions --

  lemma {:induction false} ParamsAlike(ts: Tokens, s: S, q: nat, count: nat)
    requires s.pos <= |ts| && !s.hung
    ensures Alike(s, q, ParseParams(ts, s, count), ParseParams(ts, Given(s, q), count))
    decreases |ts| - s.pos
  {
    hide SkipUntil;
    if s.pos == |ts| {
      ParamsNeverEnd(ts, s, count);
      ParamsNeverEnd(ts, Given(s, q), count);
    } else if Peek(ts, s.pos) != ")" {
      var s1 := Step(ts, Step(ts, s));
      SkipAlike(ts, s1, q, {",", ")"});
      var s2 := SkipUntil(ts, s1, {",", ")"});
      if !s2.hung {
        var s3 := PushParam(s2, Param(Peek(ts, s.pos), Blanks(s2.pos - s1.pos)));
        ParamsAlike(ts, if Peek(ts, s3.pos) == "," then Step(ts, s3) else s3, q, count + 1);
      }
    }
  }

  /** How long the endless loops are watched decides nothing: a function is parsed alike with any patience. */
  lemma FuncDeclAlike(ts: Tokens, s: S, q: nat, isSafe: bool)
    requires s.pos <= |ts| && !s.hung
    ensures Alike(s, q, ParseFuncDecl(ts, s, isSafe), ParseFuncDecl(ts, Given(s, q), isSafe))
  {
    hide SkipUntil, ParseParams, ParseBraced;
    var s0 := Step(ts, Step(ts, s));
    ParamsAlike(ts, s0, q, 0);
    var ps := ParseParams(ts, s0, 0);
    if !ps.0.hung {
      var s1 := Step(ts, ps.0);
      SkipAlike(ts, Step(ts, s1), q, {"{"});
      var s2 := if Peek(ts, s1.pos) == "->" then SkipUntil(ts, Step(ts, s1), {"{"}) else s1;
      if !s2.hung {
        BracedAlike(ts, s2, q);
      }
    }
  }

  // --------------------------------------------------------------------- main theorems --

  /** Parsing a function from `s` never ends: however long it is watched, it is not over. */
  ghost predicate NeverEnds(ts: Tokens, s: S, isSafe: bool)
    requires s.pos <= |ts|
  {
    forall q: nat :: ParseFuncDecl(ts, Given(s, q), isSafe).0.hung
  }

  /** A run that is hung never ends, and a run that never ends is hung; if it ends, it ends alike however
      long it was watched. */
  lemma HungNeverEnds(ts: Tokens, s: S, isSafe: bool, q: nat)
    requires s.pos <= |ts| && !s.hung
    ensures var r := ParseFuncDecl(ts, s, isSafe);
            && (r.0.hung <==> NeverEnds(ts, s, isSafe))
            && (!r.0.hung ==> ParseFuncDecl(ts, Given(s, q), isSafe) == (Given(r.0, q), r.1))
  {
    hide ParseFuncDecl;
    forall p: nat ensures ParseFuncDecl(ts, Given(s, p), isSafe).0.hung <==> ParseFuncDecl(ts, s, isSafe).0.hung {
      FuncDeclAlike(ts, s, p, isSafe);
    }
    FuncDeclAlike(ts, s, q, isSafe);
    if NeverEnds(ts, s, isSafe) {
      assert ParseFuncDecl(ts, Given(s, 0), isSafe).0.hung;
    }
  }

  /** A block without a closing brace behind it never ends. */
  lemma {:induction false} UnclosedBlock(ts: Tokens, s: S)
    requires s.pos <= |ts| && !s.hung && forall i :: s.pos <= i < |ts| ==> ts[i] != "}"
    ensures ParseBlock(ts, s).0.hung
    decreases |ts| - s.pos
  {
    hide ParseStmt;
    if s.pos == |ts| {
      BlockNeverEnds(ts, s);
    } else {
      var r := ParseStmt(ts, s);
      if !r.0.hung {
        StmtAlike(ts, s, s.patience);
        UnclosedBlock(ts, r.0);
      }
    }
  }

  /** Nor does a function whose body is not closed, whatever comes before. */
  lemma UnclosedFunction(ts: Tokens, s: S, isSafe: bool)
    requires s.pos <= |ts| && !s.hung && forall i :: s.pos <= i < |ts| ==> ts[i] != "}"
    ensures NeverEnds(ts, s, isSafe)
  {
    hide SkipUntil, ParseParams, ParseBlock;
    var ps := ParseParams(ts, Step(ts, Step(ts, s)), 0);
    if !ps.0.hung {
      var s1 := Step(ts, ps.0);
      var s2 := if Peek(ts, s1.pos) == "->" then SkipUntil(ts, Step(ts, s1), {"{"}) else s1;
      if !s2.hung {
        UnclosedBlock(ts, Step(ts, s2));
      }
    }
    HungNeverEnds(ts, s, isSafe, 0);
  }
}
