/** Empty blocks behind conditions: exactly when `if c {}` and `while c {}` are read as conditional and loop. */
module EmptyBlocks {
  import opened Ast
  import opened ParserSpec
  import opened RoundTrip
  import opened ArenaShape
  import opened StmtTrip
  import Endings

  /** A structure literal stands where node `h` begins: at `h` itself or down its first operands. */
  predicate Spoilt(a: Arena, h: nat)
    decreases h
  {
    && 1 <= h <= |a.exprs|
    && match a.exprs[h - 1]
       case StructLit(_, _, _) => true
       case Unary(_, e) => e < h && Spoilt(a, e)
       case Binary(l, _, r) => (l < h && Spoilt(a, l)) || (r < h && Spoilt(a, r))
       case Index(b, _) => b < h && Spoilt(a, b)
       case Member(b, _) => b < h && Spoilt(a, b)
       case Call(f, _, _) => f < h && Spoilt(a, f)
       case _ => false
  }

  /** Such a node cannot be read back as any printed tree. */
  lemma {:induction false} SpoiltNotWhole(a: Arena, h: nat)
    requires Spoilt(a, h)
    ensures !Whole(Decode(a, h))
    decreases h
  {
    match a.exprs[h - 1] {
      case Unary(_, e) => SpoiltNotWhole(a, e);
      case Binary(l, _, r) =>
        if l < h && Spoilt(a, l) {
          SpoiltNotWhole(a, l);
        } else {
          SpoiltNotWhole(a, r);
        }
      case Index(b, _) => SpoiltNotWhole(a, b);
      case Member(b, _) => SpoiltNotWhole(a, b);
      case Call(f, _, _) => SpoiltNotWhole(a, f);
      case _ =>
    }
  }

  lemma {:induction false} SpoiltStays(a: Arena, a': Arena, h: nat)
    requires Spoilt(a, h) && a.exprs <= a'.exprs
    ensures Spoilt(a', h)
    decreases h
  {
    assert a'.exprs[h - 1] == a.exprs[h - 1];
    match a.exprs[h - 1] {
      case Unary(_, e) => SpoiltStays(a, a', e);
      case Binary(l, _, r) =>
        if l < h && Spoilt(a, l) {
          SpoiltStays(a, a', l);
        } else {
          SpoiltStays(a, a', r);
        }
      case Index(b, _) => SpoiltStays(a, a', b);
      case Member(b, _) => SpoiltStays(a, a', b);
      case Call(f, _, _) => SpoiltStays(a, a', f);
      case _ =>
    }
  }

  /** A node that is put on top of a spoilt one. */
  lemma PushSpoilt(a: Arena, s: S, e: Expr, h: nat)
    requires Spoilt(a, h) && a.exprs <= s.a.exprs
    requires match e
             case Unary(_, x) => x == h
             case Binary(l, _, r) => l == h || r == h
             case Index(b, _) => b == h
             case Member(b, _) => b == h
             case Call(f, _, _) => f == h
             case _ => false
    ensures var p := Push(s, e); Spoilt(p.0.a, p.1)
  {
    SpoiltStays(a, Push(s, e).0.a, h);
  }

  // -------------------------------------------------------------- what follows changes nothing --

  /** The parse is never over, or its result is spoilt. */
  predicate Lost(r: (S, nat)) { r.0.hung || Spoilt(r.0.a, r.1) }

  lemma {:induction false} PostfixLost(ts: Tokens, s: S, h: nat)
    requires s.pos <= |ts| && !s.hung && Spoilt(s.a, h)
    ensures Lost(ParsePostfix(ts, s, h))
    decreases |ts| - s.pos
  {
    hide ParseBp, ParseArgs, Spoilt;
    var lex, s1 := Peek(ts, s.pos), Step(ts, s);
    if lex == "(" {
      Endings.ArgsAlike(ts, s1, s.patience, 0);
      var r := ParseArgs(ts, s1, 0);
      if !r.0.hung {
        var s2, e := Step(ts, r.0), Call(h, |s.a.argIndices|, r.1);
        PushSpoilt(s.a, s2, e, h);
        PostfixLost(ts, Push(s2, e).0, Push(s2, e).1);
      }
    } else if lex == "." {
      var s2, e := Step(ts, s1), Member(h, Peek(ts, s1.pos));
      PushSpoilt(s.a, s2, e, h);
      PostfixLost(ts, Push(s2, e).0, Push(s2, e).1);
    } else if lex == "[" {
      Endings.ExprAlike(ts, s1, s.patience, 0);
      var r := ParseBp(ts, s1, 0);
      if !r.0.hung {
        var s2, e := Step(ts, r.0), Index(h, r.1);
        PushSpoilt(s.a, s2, e, h);
        PostfixLost(ts, Push(s2, e).0, Push(s2, e).1);
      }
    }
  }

  /** One operator and its right operand, one of the two operands being spoilt. */
  lemma OperandLost(ts: Tokens, a: Arena, s: S, e: Expr, h: nat)
    requires s.pos <= |ts| && !s.hung && Spoilt(a, h) && a.exprs <= s.a.exprs && e.Binary? && (e.lhs == h || e.rhs == h)
    ensures var p := Push(s, e); Lost(ParsePostfix(ts, p.0, p.1))
  {
    hide Spoilt, ParsePostfix;
    PushSpoilt(a, s, e, h);
    PostfixLost(ts, Push(s, e).0, Push(s, e).1);
  }

  lemma {:induction false} OperatorsLost(ts: Tokens, s: S, h: nat, min: nat)
    requires s.pos <= |ts| && !s.hung && Spoilt(s.a, h)
    ensures Lost(ParseOperators(ts, s, h, min))
    decreases |ts| - s.pos
  {
    hide ParseBp, ParsePostfix, LexToBinop, Spoilt;
    var lex := Peek(ts, s.pos);
    var prec := Precedence(lex);
    if prec > 0 && prec >= min {
      Endings.ExprAlike(ts, Step(ts, s), s.patience, prec + 1);
      var r := ParseBp(ts, Step(ts, s), prec + 1);
      if !r.0.hung {
        var e := Binary(h, LexToBinop(lex), r.1);
        OperandLost(ts, s.a, r.0, e, h);
        var q := ParsePostfix(ts, Push(r.0, e).0, Push(r.0, e).1);
        if !q.0.hung {
          OperatorsLost(ts, q.0, q.1, min);
        }
      }
    }
  }

  /** An operand that is lost loses the whole expression. */
  lemma ExprLost(ts: Tokens, s: S, min: nat)
    requires s.pos <= |ts| && !s.hung && Lost(ParsePrimary(ts, s))
    ensures Lost(ParseBp(ts, s, min))
  {
    hide ParsePrimary, ParsePostfix, ParseOperators, Spoilt;
    var r := ParsePrimary(ts, s);
    if !r.0.hung {
      PostfixLost(ts, r.0, r.1);
      var q := ParsePostfix(ts, r.0, r.1);
      if !q.0.hung {
        OperatorsLost(ts, q.0, q.1, min);
      }
    }
  }

  // ------------------------------------------------------------------------ a name and braces --

  /** A pair of braces with nothing between them. */
  predicate BracesAt(ts: Tokens, pos: nat) { Peek(ts, pos) == "{" && Peek(ts, pos + 1) == "}" }

  /** A name and empty braces are a structure literal, with prefix operators before them too. */
  lemma {:induction false} NameLost(ts: Tokens, s: S, t: Tree)
    requires s.pos <= |ts| && !s.hung && Printable(t) && UnitEndsInName(t) && Stands(ts, s.pos, PrintUnit(t))
    requires BracesAt(ts, s.pos + |PrintUnit(t)|)
    ensures Lost(ParsePrimary(ts, s))
    decreases t
  {
    hide ParseBp, Spoilt;
    if t.Id? {
      StandsOne(ts, s.pos, t.name);
      LiteralLost(ts, Step(ts, s), t.name);
    } else {
      var Un(op, e) := t;
      StandsSplit(ts, s.pos, [UnaryText(op)], PrintUnit(e));
      StandsOne(ts, s.pos, UnaryText(op));
      NameLost(ts, Step(ts, s), e);
      UnaryLost(ts, s, op);
    }
  }

  lemma LiteralLost(ts: Tokens, s: S, x: string)
    requires s.pos <= |ts| && !s.hung && BracesAt(ts, s.pos)
    ensures Lost(ParseIdent(ts, s, x))
  {
    hide ParseBp;
  }

  lemma UnaryLost(ts: Tokens, s: S, op: UnaryOp)
    requires s.pos < |ts| && ts[s.pos] == UnaryText(op) && Lost(ParsePrimary(ts, Step(ts, s)))
    ensures Lost(ParsePrimary(ts, s))
  {
    hide ParseIdent, ParseBp, Spoilt;
    var r := ParsePrimary(ts, Step(ts, s));
    if !r.0.hung {
      PrimaryUnary(ts, s, op, r.0, r.1);
      PushSpoilt(r.0.a, r.0, Unary(op, r.1), r.1);
    }
  }

  /** So is the name at the end of any expression. */
  lemma {:induction false} ConditionLost(ts: Tokens, s: S, t: Tree, min: nat)
    requires s.pos <= |ts| && !s.hung && Printable(t) && EndsInName(t, min) && Stands(ts, s.pos, Print(t, min))
    requires BracesAt(ts, s.pos + |Print(t, min)|)
    ensures Lost(ParseBp(ts, s, min))
    decreases t
  {
    hide ParseBp, ParsePrimary, ParseOperators, Spoilt, PrintUnit, BracesAt, Stands, Built;
    if t.Bi? && Level(t.op) >= min {
      var level := Level(t.op);
      var left, right := Print(t.l, level), Print(t.r, level + 1);
      BinaryStands(ts, s.pos, left, t.op, right);
      var s1, h1 := ParsesOperand(ts, s, t.l, level, min);
      BuiltPos(s, s1, h1, t.l, |left|);
      ConditionLost(ts, Step(ts, s1), t.r, level + 1);
      RightLost(ts, s1, h1, t.op, min);
    } else {
      NameLost(ts, s, t);
      ExprLost(ts, s, min);
    }
  }

  lemma RightLost(ts: Tokens, s: S, lhs: nat, op: BinaryOp, min: nat)
    requires s.pos < |ts| && !s.hung && Peek(ts, s.pos) == OpText(op) && min <= Level(op)
    requires Lost(ParseBp(ts, Step(ts, s), Level(op) + 1))
    ensures Lost(ParseOperators(ts, s, lhs, min))
  {
    hide ParseBp, ParsePostfix, LexToBinop, Spoilt, Precedence, OpText;
    OpLexeme(op);
    var r := ParseBp(ts, Step(ts, s), Level(op) + 1);
    if !r.0.hung {
      var e := Binary(lhs, LexToBinop(OpText(op)), r.1);
      OperandLost(ts, r.0.a, r.0, e, r.1);
      var q := ParsePostfix(ts, Push(r.0, e).0, Push(r.0, e).1);
      if !q.0.hung {
        OperatorsLost(ts, q.0, q.1, min);
      }
    }
  }

  // ------------------------------------------------------------------------------ statements --

  lemma {:induction false} ZeroedWhole(t: Tree)
    requires Printable(t)
    ensures Whole(Zeroed(t))
  {
    match t {
      case Un(_, e) => ZeroedWhole(e);
      case Bi(l, _, r) => ZeroedWhole(l); ZeroedWhole(r);
      case At(b, i) => ZeroedWhole(b); ZeroedWhole(i);
      case Dot(b, _) => ZeroedWhole(b);
      case App(f, args) =>
        ZeroedWhole(f);
        forall i | 0 <= i < |args| ensures Whole(ZeroedAll(args)[i]) { ZeroedWhole(args[i]); }
      case _ =>
    }
  }

  /** The parse is never over, or it ends with a conditional or a loop whose condition is spoilt. */
  ghost predicate StmtLost(r: (S, nat)) {
    r.0.hung || (1 <= r.1 <= |r.0.a.stmts|
                 && match r.0.a.stmts[r.1 - 1]
                    case If(c, _, _, _, _) => Spoilt(r.0.a, c)
                    case While(c, _, _) => Spoilt(r.0.a, c)
                    case _ => false)
  }

  lemma IfLost(ts: Tokens, s: S)
    requires s.pos <= |ts| && !s.hung && Lost(ParseExpr(ts, s))
    ensures StmtLost(ParseIf(ts, s))
  {
    hide ParseExpr, ParseBraced, Spoilt;
    var c := ParseExpr(ts, s);
    if !c.0.hung {
      Endings.BracedAlike(ts, c.0, c.0.patience);
      var t := ParseBraced(ts, c.0);
      if !t.0.hung {
        SpoiltStays(c.0.a, t.0.a, c.1);
        Endings.BracedAlike(ts, Step(ts, t.0), t.0.patience);
        var e := if Peek(ts, t.0.pos) == "else" then ParseBraced(ts, Step(ts, t.0)) else t;
        if !e.0.hung {
          SpoiltStays(t.0.a, ParseIf(ts, s).0.a, c.1);
        }
      }
    }
  }

  lemma WhileLost(ts: Tokens, s: S)
    requires s.pos <= |ts| && !s.hung && Lost(ParseExpr(ts, s))
    ensures StmtLost(ParseWhile(ts, s))
  {
    hide ParseExpr, ParseBraced, Spoilt;
    var c := ParseExpr(ts, s);
    if !c.0.hung {
      Endings.BracedAlike(ts, c.0, c.0.patience);
      var t := ParseBraced(ts, c.0);
      if !t.0.hung {
        SpoiltStays(c.0.a, ParseWhile(ts, s).0.a, c.1);
      }
    }
  }

  lemma LostIsNotRead(r: (S, nat), t: Statement)
    requires !r.0.hung && StmtLost(r) && (t.Choose? || t.Repeat?) && Printable(Condition(t))
    ensures DecodeStmt(r.0.a, r.1) != StmtZeroed(t)
  {
    hide Decode, Zeroed, Whole, Spoilt;
    ZeroedWhole(Condition(t));
    match r.0.a.stmts[r.1 - 1] {
      case If(c, _, _, _, _) => SpoiltNotWhole(r.0.a, c);
      case While(c, _, _) => SpoiltNotWhole(r.0.a, c);
    }
  }

  function Condition(t: Statement): Tree
    requires t.Choose? || t.Repeat?
  {
    if t.Choose? then t.cond else t.until
  }

  function Block(t: Statement): seq<Statement>
    requires t.Choose? || t.Repeat?
  {
    if t.Choose? then t.thn else t.body
  }

  lemma NoStatements()
    ensures PrintBraced([]) == ["{"] + ["}"]
  {}

  lemma ConditionStands(ts: Tokens, pos: nat, t: Statement)
    requires (t.Choose? || t.Repeat?) && Block(t) == [] && Stands(ts, pos, PrintStmt(t))
    ensures pos < |ts| && Peek(ts, pos) == if t.Choose? then "if" else "while"
    ensures var p := Print(Condition(t), 0); Stands(ts, pos + 1, p) && BracesAt(ts, pos + 1 + |p|)
  {
    hide Print, Stands, PrintBlock, Peek;
    var p := Print(Condition(t), 0);
    var rest := if t.Choose? && t.els != [] then ["else"] + PrintBraced(t.els) else [];
    NoStatements();
    assert PrintStmt(t) == [if t.Choose? then "if" else "while"] + (p + (["{"] + (["}"] + rest)));
    KeywordStands(ts, pos, if t.Choose? then "if" else "while", p + (["{"] + (["}"] + rest)));
    StandsSplit(ts, pos + 1, p, ["{"] + (["}"] + rest));
    KeywordStands(ts, pos + 1 + |p|, "{", ["}"] + rest);
    KeywordStands(ts, pos + 2 + |p|, "}", rest);
  }

  /** An empty block behind a condition that ends in a name is lost, and the condition with it. */
  lemma EmptyBlockLost(ts: Tokens, s: S, t: Statement)
    requires s.pos <= |ts| && !s.hung && (t.Choose? || t.Repeat?) && Block(t) == [] && Printable(Condition(t))
    requires EndsInName(Condition(t), 0) && Stands(ts, s.pos, PrintStmt(t))
    ensures StmtLost(ParseStmt(ts, s))
  {
    hide ParseBp, ParseIf, ParseWhile, Print, PrintStmt, EndsInName, Stands, BracesAt, Lost, StmtLost;
    ConditionStands(ts, s.pos, t);
    ConditionLost(ts, Step(ts, s), Condition(t), 0);
    if t.Choose? {
      IfLost(ts, Step(ts, s));
    } else {
      WhileLost(ts, Step(ts, s));
    }
  }

  /** A conditional or a loop with an empty first block is taken whole and read back if and only if its
      condition does not end in a name, and everything in it is flat. */
  lemma EmptyBlockExact(ts: Tokens, s: S, t: Statement)
    requires s.pos <= |ts| && !s.hung && Sound(s.a) && (t.Choose? || t.Repeat?) && Block(t) == []
    requires Printable(Condition(t))
    requires (t.Choose? ==> AllWritable(t.els)) && Stands(ts, s.pos, PrintStmt(t))
    requires Peek(ts, s.pos + |PrintStmt(t)|) != "else"
    ensures var (s', h) := ParseStmt(ts, s);
            !s'.hung && s'.pos == s.pos + |PrintStmt(t)| && DecodeStmt(s'.a, h) == StmtZeroed(t)
            <==> !EndsInName(Condition(t), 0) && StmtFlat(t)
  {
    hide ParseStmt, PrintStmt, DecodeStmt, StmtZeroed, StmtFlat, EndsInName, Stands, Sound, StmtLost;
    if EndsInName(Condition(t), 0) {
      EmptyBlockLost(ts, s, t);
      if !ParseStmt(ts, s).0.hung {
        LostIsNotRead(ParseStmt(ts, s), t);
      }
    } else {
      assert Writable(t);
      StmtRoundTrip(ts, s, t);
    }
  }

  // ----------------------------------------------------------------------------- an example --

  const IF_X: Tokens := ["if", "x", "{", "}"]

  /** `if x {}` on its own is never taken for a conditional: the parser goes on looking for the block forever. */
  lemma IfNameNeverEnds(s: S)
    requires s.pos == 0 && !s.hung
    ensures PrintStmt(Choose(Id("x"), [], [])) == IF_X && ParseStmt(IF_X, s).0.hung
  {
    hide ParseBlock, ParsePrimary;
    assert PrintBraced([]) == ["{", "}"];
    var s1, s2 := Step(IF_X, s), Push(s.(pos := 4), StructLit("x", |s.a.structLitExprs|, 0)).0;
    NameTakesBraces(s1);
    NoPostfix(IF_X, s2, |s2.a.exprs|);
    StopsAt(IF_X, s2, |s2.a.exprs|, 0);
    assert ParseExpr(IF_X, s1) == (s2, |s2.a.exprs|);
    Endings.BlockNeverEnds(IF_X, s2);
    assert ParseStmt(IF_X, s) == ParseIf(IF_X, s1);
  }

  lemma NameTakesBraces(s: S)
    requires s.pos == 1 && !s.hung
    ensures ParsePrimary(IF_X, s) == Push(s.(pos := 4), StructLit("x", |s.a.structLitExprs|, 0))
  {
    hide ParseBp;
    var s2 := s.(pos := 2);
    assert Peek(IF_X, 1) == "x" && Peek(IF_X, 2) == "{" && Peek(IF_X, 3) == "}";
    assert ParseFields(IF_X, s.(pos := 3), 0) == (s.(pos := 3), 0);
    assert ParseIdent(IF_X, s2, "x") == Push(s.(pos := 4), StructLit("x", |s.a.structLitExprs|, 0));
  }
}
