/** The recursive-descent parser as it runs: it moves along the tokens and pushes nodes into the arena. */
module Parser {
  import opened Ast
  import opened Digits
  import opened ParserSpec

  class AstArena {
    var exprs: seq<Expr>
    var stmts: seq<Stmt>
    var params: seq<Param>
    var funcs: seq<FuncDecl>
    var matchArms: seq<MatchArm>
    var argIndices: seq<nat>
    var structLitNames: seq<string>
    var structLitExprs: seq<nat>

    constructor ()
      ensures View() == Arena([], [], [], [], [], [], [], [])
    {
      exprs, stmts, params, funcs := [], [], [], [];
      matchArms, argIndices, structLitNames, structLitExprs := [], [], [], [];
    }

    function View(): Arena
      reads this
    {
      Arena(exprs, stmts, params, funcs, matchArms, argIndices, structLitNames, structLitExprs)
    }

    method PushExpr(e: Expr) returns (handle: nat)
      modifies this
      ensures View() == old(View()).(exprs := old(exprs) + [e]) && handle == |exprs|
    {
      exprs := exprs + [e];
      handle := |exprs|;
    }

    method PushStmt(s: Stmt) returns (handle: nat)
      modifies this
      ensures View() == old(View()).(stmts := old(stmts) + [s]) && handle == |stmts|
    {
      stmts := stmts + [s];
      handle := |stmts|;
    }
  }

  class TokenParser {
    const tokens: Tokens
    const arena: AstArena
    var pos: nat
    var patience: nat
    var hung: bool

    constructor (tokens: Tokens, arena: AstArena, patience: nat)
      ensures this.tokens == tokens && this.arena == arena && State() == S(0, arena.View(), patience, false)
    {
      this.tokens, this.arena, this.pos, this.patience, this.hung := tokens, arena, 0, patience, false;
    }

    function State(): S
      reads this, arena
    {
      S(pos, arena.View(), patience, hung)
    }

    ghost predicate Valid()
      reads this
    {
      pos <= |tokens|
    }

    /** The parser is where the specification says and returns what it says; an endless loop returns nothing. */
    predicate Agrees(result: nat, expected: (S, nat))
      reads this, arena
    {
      State() == expected.0 && (hung || result == expected.1)
    }

    // ---------------------------------------------------------------- the tokens --

    function PeekAt(offset: nat): (lex: string)
      reads this
      ensures lex == Peek(tokens, pos + offset)
    {
      if pos + offset < |tokens| then tokens[pos + offset] else ""
    }

    method Next() returns (lex: string)
      requires Valid()
      modifies this
      ensures Valid() && State() == Step(tokens, old(State())) && lex == Peek(tokens, old(pos))
    {
      lex := PeekAt(0);
      if pos < |tokens| {
        pos := pos + 1;
      }
    }

    /** A missing token is reported, and whatever stands in its place is skipped. */
    method Expect(lex: string)
      requires Valid()
      modifies this
      ensures Valid() && State() == Step(tokens, old(State()))
    {
      var found := Next();
    }

    /** Keeps count of the rounds of a loop at the end of the tokens. */
    method Watch()
      modifies this
      ensures State() == Watched(tokens, old(State()))
    {
      if pos >= |tokens| {
        if patience == 0 {
          hung := true;
        } else {
          patience := patience - 1;
        }
      }
    }

    // ----------------------------------------------------------------- expressions --

    method Node(e: Expr) returns (handle: nat)
      modifies arena
      ensures (State(), handle) == Push(old(State()), e)
    {
      handle := arena.PushExpr(e);
    }

    method ParsePrimary() returns (handle: nat)
      requires Valid() && !hung
      modifies this, arena
      ensures Valid() && Agrees(handle, ParserSpec.ParsePrimary(tokens, old(State())))
      decreases |tokens| - pos, patience, 0
    {
      hide ParserSpec.ParseBp, ParserSpec.ParseIdent;
      var lex := PeekAt(0);
      handle := 0;
      if lex != "" && IsDigit(lex[0]) {
        lex := Next();
        handle := Node(IntLit(0));
      } else if lex != "" && lex[0] == '"' {
        lex := Next();
        handle := Node(StringLit(lex));
      } else if lex == "true" {
        lex := Next();
        handle := Node(BoolLit(true));
      } else if lex == "false" {
        lex := Next();
        handle := Node(BoolLit(false));
      } else if lex != "" && IsLetter(lex[0]) {
        lex := Next();
        handle := ParseIdent(lex);
      } else if lex == "(" {
        lex := Next();
        handle := ParseExprBp(0);
        if !hung {
          Expect(")");
        }
      } else if lex in {"&", "*", "-", "!"} {
        lex := Next();
        handle := ParsePrimary();
        if !hung {
          handle := Node(Unary(UnaryOf(lex), handle));
        }
      } else {
        handle := Node(IntLit(0));
      }
    }

    method ParseIdent(lex: string) returns (handle: nat)
      requires Valid() && !hung
      modifies this, arena
      ensures Valid() && Agrees(handle, ParserSpec.ParseIdent(tokens, old(State()), lex))
      decreases |tokens| - pos, patience, 6
    {
      hide ParserSpec.ParseFields;
      if PeekAt(0) == "::" {
        var colons := Next();
        var item := Next();
        handle := Node(Path(lex, item));
      } else if PeekAt(0) == "{" && (PeekAt(1) == "}" || PeekAt(2) == ":") {
        var brace := Next();
        var start := |arena.structLitExprs|;
        var count := ParseFields();
        handle := 0;
        if !hung {
          Expect("}");
          handle := Node(StructLit(lex, start, count));
        }
      } else {
        handle := Node(Ident(lex));
      }
    }

    method ParseFields() returns (count: nat)
      requires Valid() && !hung
      modifies this, arena
      ensures Valid() && Agrees(count, ParserSpec.ParseFields(tokens, old(State()), 0))
      decreases |tokens| - pos, patience, 5
    {
      hide ParserSpec.ParseBp, Watched;
      count := 0;
      while PeekAt(0) != "}"
        invariant Valid() && !hung && old(pos) <= pos && patience <= old(patience)
        invariant ParserSpec.ParseFields(tokens, State(), count) == ParserSpec.ParseFields(tokens, old(State()), 0)
        decreases |tokens| - pos, patience
      {
        Watch();
        if hung {
          return;
        }
        var name := Next();
        Expect(":");
        var value := ParseExprBp(0);
        if hung {
          return;
        }
        arena.structLitNames := arena.structLitNames + [name];
        arena.structLitExprs := arena.structLitExprs + [value];
        count := count + 1;
        if PeekAt(0) == "," {
          Expect(",");
        }
      }
    }

    method ParsePostfix(lhs: nat) returns (current: nat)
      requires Valid() && !hung
      modifies this, arena
      ensures Valid() && Agrees(current, ParserSpec.ParsePostfix(tokens, old(State()), lhs))
      decreases |tokens| - pos, patience, 1
    {
      hide ParserSpec.ParseBp, ParserSpec.ParseArgs;
      current := lhs;
      var running := true;
      while running
        invariant Valid() && !hung && old(pos) <= pos && patience <= old(patience)
        invariant ParserSpec.ParsePostfix(tokens, old(State()), lhs) ==
                  if running then ParserSpec.ParsePostfix(tokens, State(), current) else (State(), current)
        decreases |tokens| - pos, patience, if running then 1 else 0
      {
        if PeekAt(0) == "(" {
          Expect("(");
          var start := |arena.argIndices|;
          var count := ParseArgs();
          if hung {
            return;
          }
          Expect(")");
          current := Node(Call(current, start, count));
        } else if PeekAt(0) == "." {
          Expect(".");
          var field := Next();
          current := Node(Member(current, field));
        } else if PeekAt(0) == "[" {
          Expect("[");
          var index := ParseExprBp(0);
          if hung {
            return;
          }
          Expect("]");
          current := Node(Index(current, index));
        } else {
          running := false;
        }
      }
    }

    method ParseArgs() returns (count: nat)
      requires Valid() && !hung
      modifies this, arena
      ensures Valid() && Agrees(count, ParserSpec.ParseArgs(tokens, old(State()), 0))
      decreases |tokens| - pos, patience, 4
    {
      hide ParserSpec.ParseBp;
      count := 0;
      var parsing := true;
      while parsing
        invariant Valid() && !hung && old(pos) <= pos && patience <= old(patience)
        invariant ParserSpec.ParseArgs(tokens, old(State()), 0) ==
                  if parsing then ParserSpec.ParseArgs(tokens, State(), count) else (State(), count)
        decreases |tokens| - pos, patience, if parsing then 1 else 0
      {
        if PeekAt(0) == ")" {
          parsing := false;
        } else {
          var arg := ParseExprBp(0);
          if hung {
            return;
          }
          arena.argIndices := arena.argIndices + [arg];
          count := count + 1;
          if PeekAt(0) == "," {
            Expect(",");
          } else {
            parsing := false;
          }
        }
      }
    }

    method ParseExprBp(minBp: nat) returns (lhs: nat)
      requires Valid() && !hung
      modifies this, arena
      ensures Valid() && Agrees(lhs, ParseBp(tokens, old(State()), minBp))
      decreases |tokens| - pos, patience, 3
    {
      hide ParserSpec.ParsePrimary, ParserSpec.ParsePostfix, Precedence;
      lhs := ParsePrimary();
      if hung {
        return;
      }
      lhs := ParsePostfix(lhs);
      if hung {
        return;
      }
      lhs := ClimbOperators(lhs, minBp);
    }

    method ClimbOperators(first: nat, minBp: nat) returns (lhs: nat)
      requires Valid() && !hung
      modifies this, arena
      ensures Valid() && Agrees(lhs, ParseOperators(tokens, old(State()), first, minBp))
      decreases |tokens| - pos, patience, 2
    {
      hide ParseBp, ParserSpec.ParsePostfix, Precedence, LexToBinop, ParseOperators;
      lhs := first;
      var looping := true;
      while looping
        invariant Valid() && !hung && old(pos) <= pos && patience <= old(patience)
        invariant ParseOperators(tokens, old(State()), first, minBp) ==
                  if looping then ParseOperators(tokens, State(), lhs, minBp) else (State(), lhs)
        decreases |tokens| - pos, patience, if looping then 1 else 0
      {
        var lex := PeekAt(0);
        var prec := Precedence(lex);
        NextOperator(tokens, State(), lhs, minBp);
        if prec == 0 || prec < minBp {
          looping := false;
        } else {
          EndHasNoLevel();
          lex := Next();
          var rhs := ParseExprBp(prec + 1);
          if hung {
            return;
          }
          lhs := Node(Binary(lhs, LexToBinop(lex), rhs));
          lhs := ParsePostfix(lhs);
          if hung {
            return;
          }
        }
      }
    }

    lemma EndHasNoLevel()
      ensures Precedence("") == 0
    {}

    /** One round of the operator loop. */
    static lemma NextOperator(ts: Tokens, s: S, lhs: nat, minBp: nat)
      requires s.pos <= |ts|
      ensures var lex, all := Peek(ts, s.pos), ParseOperators(ts, s, lhs, minBp);
              var prec := Precedence(lex);
              if prec == 0 || prec < minBp then all == (s, lhs) else
                var r := ParseBp(ts, Step(ts, s), prec + 1);
                if r.0.hung then all == r else
                  var p := Push(r.0, Binary(lhs, LexToBinop(lex), r.1));
                  var q := ParserSpec.ParsePostfix(ts, p.0, p.1);
                  all == if q.0.hung then q else ParseOperators(ts, q.0, q.1, minBp)
    {
      hide ParseBp, ParserSpec.ParsePostfix, Precedence, LexToBinop;
    }

    method ParseExpr() returns (handle: nat)
      requires Valid() && !hung
      modifies this, arena
      ensures Valid() && Agrees(handle, ParserSpec.ParseExpr(tokens, old(State())))
    {
      handle := ParseExprBp(0);
    }

    // ------------------------------------------------------------------ statements --

    method StmtNode(s: Stmt) returns (handle: nat)
      modifies arena
      ensures (State(), handle) == PushStmt(old(State()), s)
    {
      handle := arena.PushStmt(s);
    }

    method SkipUntil(stops: set<string>)
      requires Valid() && !hung
      modifies this
      ensures Valid() && State() == ParserSpec.SkipUntil(tokens, old(State()), stops)
    {
      while PeekAt(0) !in stops
        invariant Valid() && !hung
        invariant ParserSpec.SkipUntil(tokens, State(), stops) == ParserSpec.SkipUntil(tokens, old(State()), stops)
        decreases |tokens| - pos, patience
      {
        if pos < |tokens| {
          Expect(PeekAt(0));
        } else {
          Watch();
          if hung {
            return;
          }
        }
      }
    }

    method ParseStmt() returns (handle: nat)
      requires Valid() && !hung
      modifies this, arena
      ensures Valid() && Agrees(handle, ParserSpec.ParseStmt(tokens, old(State())))
      decreases |tokens| - pos, patience, 1
    {
      hide ParserSpec.ParseLet, ParserSpec.ParseReturn, ParserSpec.ParseIf, ParserSpec.ParseWhile;
      hide ParserSpec.ParseFor, ParserSpec.ParseMatch, ParserSpec.ParseSimple;
      var lex := PeekAt(0);
      if lex == "let" {
        Expect("let");
        handle := ParseLet();
      } else if lex == "return" {
        Expect("return");
        handle := ParseReturn();
      } else if lex == "if" {
        Expect("if");
        handle := ParseIf();
      } else if lex == "while" {
        Expect("while");
        handle := ParseWhile();
      } else if lex == "for" {
        Expect("for");
        handle := ParseFor();
      } else if lex == "match" {
        Expect("match");
        handle := ParseMatch();
      } else {
        handle := ParseSimple();
      }
    }

    method ParseLet() returns (handle: nat)
      requires Valid() && !hung
      modifies this, arena
      ensures Valid() && Agrees(handle, ParserSpec.ParseLet(tokens, old(State())))
    {
      hide ParserSpec.ParseExpr, ParserSpec.SkipUntil;
      handle := 0;
      if PeekAt(0) == "mut" {
        Expect("mut");
      }
      var name := Next();
      if PeekAt(0) == ":" {
        Expect(":");
        SkipUntil({"=", ";"});
        if hung {
          return;
        }
      }
      var init := 0;
      if PeekAt(0) == "=" {
        Expect("=");
        init := ParseExpr();
        if hung {
          return;
        }
      }
      Expect(";");
      handle := StmtNode(Let(name, 0, init));
    }

    method ParseReturn() returns (handle: nat)
      requires Valid() && !hung
      modifies this, arena
      ensures Valid() && Agrees(handle, ParserSpec.ParseReturn(tokens, old(State())))
    {
      hide ParserSpec.ParseExpr;
      handle := 0;
      var value := 0;
      if PeekAt(0) != ";" {
        value := ParseExpr();
        if hung {
          return;
        }
      }
      Expect(";");
      handle := StmtNode(Return(value));
    }

    /** The braces of a block and the statements between them; `tops` are their handles. */
    method ParseBraced() returns (count: nat, ghost tops: seq<nat>)
      requires Valid() && !hung
      modifies this, arena
      ensures Valid() && State() == ParserSpec.ParseBraced(tokens, old(State())).0
      ensures !hung ==> tops == ParserSpec.ParseBraced(tokens, old(State())).1 && count == |tops|
      decreases |tokens| - pos, patience, 3
    {
      hide ParseBlock;
      Expect("{");
      count, tops := ParseStmts();
      if !hung {
        Expect("}");
      }
    }

    /** After the statements `tops` from `s` on, the rest of the block lies ahead of `now`. */
    static ghost predicate Ahead(ts: Tokens, s: S, tops: seq<nat>, now: S)
      requires s.pos <= |ts| && now.pos <= |ts|
    {
      var all, rest := ParseBlock(ts, s), ParseBlock(ts, now);
      all.0 == rest.0 && (!all.0.hung ==> all.1 == tops + rest.1)
    }

    static lemma AheadNext(ts: Tokens, s: S, tops: seq<nat>, now: S)
      requires s.pos <= |ts| && now.pos <= |ts| && Ahead(ts, s, tops, now)
      requires !now.hung && Peek(ts, now.pos) != "}"
      ensures var watched := Watched(ts, now);
              if watched.hung then ParseBlock(ts, s).0 == watched else
                var r := ParserSpec.ParseStmt(ts, watched);
                if r.0.hung then ParseBlock(ts, s).0 == r.0 else Ahead(ts, s, tops + [r.1], r.0)
    {
      hide Watched, ParserSpec.ParseStmt;
      var watched := Watched(ts, now);
      if !watched.hung {
        var r := ParserSpec.ParseStmt(ts, watched);
        if !r.0.hung {
          assert tops + ([r.1] + ParseBlock(ts, r.0).1) == tops + [r.1] + ParseBlock(ts, r.0).1;
        }
      }
    }

    method ParseStmts() returns (count: nat, ghost tops: seq<nat>)
      requires Valid() && !hung
      modifies this, arena
      ensures Valid() && State() == ParseBlock(tokens, old(State())).0
      ensures !hung ==> tops == ParseBlock(tokens, old(State())).1 && count == |tops|
      decreases |tokens| - pos, patience, 2
    {
      hide ParserSpec.ParseStmt, Watched, ParseBlock;
      count, tops := 0, [];
      assert Ahead(tokens, State(), [], State());
      while PeekAt(0) != "}"
        invariant Valid() && !hung && old(pos) <= pos && patience <= old(patience)
        invariant count == |tops| && Ahead(tokens, old(State()), tops, State())
        decreases |tokens| - pos, patience
      {
        AheadNext(tokens, old(State()), tops, State());
        Watch();
        if hung {
          return;
        }
        var handle := ParseStmt();
        if hung {
          return;
        }
        count, tops := count + 1, tops + [handle];
      }
      BlockEnds(tokens, State());
    }

    static lemma BlockEnds(ts: Tokens, s: S)
      requires s.pos <= |ts| && Peek(ts, s.pos) == "}"
      ensures ParseBlock(ts, s) == (s, [])
    {}

    method ParseIf() returns (handle: nat)
      requires Valid() && !hung
      modifies this, arena
      ensures Valid() && Agrees(handle, ParserSpec.ParseIf(tokens, old(State())))
      decreases |tokens| - pos, patience, 4
    {
      hide ParserSpec.ParseExpr, ParserSpec.ParseBraced;
      handle := 0;
      var cond := ParseExpr();
      if hung {
        return;
      }
      var thenStart := |arena.stmts|;
      var thenCount, thenTops := ParseBraced();
      if hung {
        return;
      }
      var elseStart, elseCount := 0, 0;
      if PeekAt(0) == "else" {
        Expect("else");
        elseStart := |arena.stmts|;
        ghost var elseTops;
        elseCount, elseTops := ParseBraced();
        if hung {
          return;
        }
      }
      handle := StmtNode(If(cond, thenStart, thenCount, elseStart, elseCount));
    }

    method ParseWhile() returns (handle: nat)
      requires Valid() && !hung
      modifies this, arena
      ensures Valid() && Agrees(handle, ParserSpec.ParseWhile(tokens, old(State())))
      decreases |tokens| - pos, patience, 4
    {
      hide ParserSpec.ParseExpr, ParserSpec.ParseBraced;
      handle := 0;
      var cond := ParseExpr();
      if hung {
        return;
      }
      var bodyStart := |arena.stmts|;
      var bodyCount, tops := ParseBraced();
      if hung {
        return;
      }
      handle := StmtNode(While(cond, bodyStart, bodyCount));
    }

    method ParseFor() returns (handle: nat)
      requires Valid() && !hung
      modifies this, arena
      ensures Valid() && Agrees(handle, ParserSpec.ParseFor(tokens, old(State())))
      decreases |tokens| - pos, patience, 4
    {
      hide ParserSpec.ParseExpr, ParserSpec.ParseBraced;
      handle := 0;
      var name := Next();
      Expect("in");
      var from := ParseExpr();
      if hung {
        return;
      }
      Expect("..");
      var to := ParseExpr();
      if hung {
        return;
      }
      var step := 0;
      if PeekAt(0) == "step" {
        Expect("step");
        step := ParseExpr();
        if hung {
          return;
        }
      }
      var bodyStart := |arena.stmts|;
      var bodyCount, tops := ParseBraced();
      if hung {
        return;
      }
      handle := StmtNode(For(name, from, to, step, bodyStart, bodyCount));
    }

    method ParseMatch() returns (handle: nat)
      requires Valid() && !hung
      modifies this, arena
      ensures Valid() && Agrees(handle, ParserSpec.ParseMatch(tokens, old(State())))
    {
      hide ParserSpec.ParseExpr, ParserSpec.ParseArms;
      handle := 0;
      var scrutinee := ParseExpr();
      if hung {
        return;
      }
      Expect("{");
      var armStart := |arena.matchArms|;
      var armCount := ParseArms();
      if hung {
        return;
      }
      Expect("}");
      handle := StmtNode(Match(scrutinee, armStart, armCount));
    }

    method ParseArms() returns (count: nat)
      requires Valid() && !hung
      modifies this, arena
      ensures Valid() && Agrees(count, ParserSpec.ParseArms(tokens, old(State()), 0))
    {
      hide ParserSpec.ParseExpr, ParserSpec.ParsePattern;
      count := 0;
      while PeekAt(0) != "}"
        invariant Valid() && !hung
        invariant ParserSpec.ParseArms(tokens, State(), count) == ParserSpec.ParseArms(tokens, old(State()), 0)
        decreases |tokens| - pos, patience
      {
        Watch();
        if hung {
          return;
        }
        var pattern := ParsePattern();
        Expect("=>");
        var body := ParseExpr();
        if hung {
          return;
        }
        if PeekAt(0) == "," {
          Expect(",");
        }
        arena.matchArms := arena.matchArms + [MatchArm(pattern, body, 1)];
        count := count + 1;
      }
    }

    method ParsePattern() returns (pattern: Pattern)
      requires Valid()
      modifies this
      ensures Valid() && (State(), pattern) == ParserSpec.ParsePattern(tokens, old(State()))
    {
      var lex := Next();
      if lex == "_" {
        pattern := Wildcard;
      } else if PeekAt(0) == "::" {
        Expect("::");
        var variant := Next();
        pattern := Variant(lex, variant);
      } else {
        pattern := PatIdent(lex);
      }
    }

    method ParseSimple() returns (handle: nat)
      requires Valid() && !hung
      modifies this, arena
      ensures Valid() && Agrees(handle, ParserSpec.ParseSimple(tokens, old(State())))
    {
      hide ParserSpec.ParseExpr;
      handle := 0;
      var e := ParseExpr();
      if hung {
        return;
      }
      var lex := PeekAt(0);
      if lex == "=" || lex == "+=" || lex == "-=" {
        Expect(lex);
        var v := ParseExpr();
        if hung {
          return;
        }
        Expect(";");
        if lex == "=" {
          handle := StmtNode(Assign(e, v));
        } else if lex == "+=" {
          handle := StmtNode(CompoundAssign(e, Add, v));
        } else {
          handle := StmtNode(CompoundAssign(e, Sub, v));
        }
      } else {
        Expect(";");
        handle := StmtNode(ExprStmt(e));
      }
    }

    // ------------------------------------------------------------------- functions --

    /** The tokens of a type; one blank stands for each of them. */
    method ParseTypeText() returns (text: string)
      requires Valid() && !hung
      modifies this
      ensures Valid() && State() == ParserSpec.SkipUntil(tokens, old(State()), {",", ")"})
      ensures !hung ==> text == Blanks(pos - old(pos))
    {
      text := "";
      while PeekAt(0) != "," && PeekAt(0) != ")"
        invariant Valid() && !hung && old(pos) <= pos
        invariant patience <= old(patience) && (patience == old(patience) || pos == |tokens|)
        invariant patience == old(patience) ==> text == Blanks(pos - old(pos))
        invariant ParserSpec.SkipUntil(tokens, State(), {",", ")"}) ==
          ParserSpec.SkipUntil(tokens, old(State()), {",", ")"})
        decreases |tokens| - pos, patience
      {
        assert Blanks(pos - old(pos)) + " " == Blanks(pos + 1 - old(pos));
        text := text + " ";
        if pos < |tokens| {
          Expect(PeekAt(0));
        } else {
          Watch();
          if hung {
            return;
          }
        }
      }
    }

    method ParseParams() returns (count: nat)
      requires Valid() && !hung
      modifies this, arena
      ensures Valid() && Agrees(count, ParserSpec.ParseParams(tokens, old(State()), 0))
    {
      hide ParserSpec.SkipUntil;
      count := 0;
      while PeekAt(0) != ")"
        invariant Valid() && !hung
        invariant ParserSpec.ParseParams(tokens, State(), count) == ParserSpec.ParseParams(tokens, old(State()), 0)
        decreases |tokens| - pos, patience
      {
        var name := Next();
        Expect(":");
        var text := ParseTypeText();
        if hung {
          return;
        }
        arena.params := arena.params + [Param(name, text)];
        count := count + 1;
        if PeekAt(0) == "," {
          Expect(",");
        }
      }
    }

    method ParseFuncDecl(isSafe: bool) returns (handle: nat)
      requires Valid() && !hung
      modifies this, arena
      ensures Valid() && Agrees(handle, ParserSpec.ParseFuncDecl(tokens, old(State()), isSafe))
    {
      hide ParserSpec.SkipUntil, ParserSpec.ParseParams, ParserSpec.ParseBraced;
      handle := 0;
      var name := Next();
      Expect("(");
      var paramStart := |arena.params|;
      var paramCount := ParseParams();
      if hung {
        return;
      }
      Expect(")");
      if PeekAt(0) == "->" {
        Expect("->");
        SkipUntil({"{"});
        if hung {
          return;
        }
      }
      var bodyStart := |arena.stmts|;
      var bodyCount, tops := ParseBraced();
      if hung {
        return;
      }
      arena.funcs := arena.funcs + [FuncDecl(name, isSafe, paramStart, paramCount, bodyStart, bodyCount)];
      handle := |arena.funcs|;
    }
  }
}
