/** Printing statements and functions and parsing them: what the recorded ranges give back. */
module StmtTrip {
  import opened Options
  import opened Ast
  import opened Digits
  import opened ParserSpec
  import opened RoundTrip
  import opened ArenaShape

  /** Statements, as a reader of the source sees them. */
  datatype Statement =
    | Declare(x: string, value: Option<Tree>)
    | Leave(result: Option<Tree>)
    | Choose(cond: Tree, thn: seq<Statement>, els: seq<Statement>)
    | Repeat(until: Tree, body: seq<Statement>)
    | Set(place: Tree, source: Tree)
    | Change(target: Tree, plus: bool, amount: Tree)
    | Do(e: Tree)
    | Unread

  // -------------------------------------------------------------------- printing --

  function PrintStmt(t: Statement): Tokens
    decreases t, 0
  {
    match t
    case Declare(x, v) => if v.None? then ["let", x, ";"] else ["let", x, "="] + (Print(v.value, 0) + [";"])
    case Leave(r) => if r.None? then ["return", ";"] else ["return"] + (Print(r.value, 0) + [";"])
    case Choose(c, thn, els) =>
      ["if"] + (Print(c, 0) + (PrintBraced(thn) + if els == [] then [] else ["else"] + PrintBraced(els)))
    case Repeat(c, body) => ["while"] + (Print(c, 0) + PrintBraced(body))
    case Set(p, e) => Print(p, 0) + (["="] + (Print(e, 0) + [";"]))
    case Change(p, plus, e) => Print(p, 0) + ([if plus then "+=" else "-="] + (Print(e, 0) + [";"]))
    case Do(e) => Print(e, 0) + [";"]
    case Unread => []
  }

  function PrintBraced(ss: seq<Statement>): Tokens
    decreases ss, 1
  {
    ["{"] + (PrintBlock(ss) + ["}"])
  }

  function PrintBlock(ss: seq<Statement>): Tokens
    decreases ss, 0
  {
    if ss == [] then [] else PrintStmt(ss[0]) + PrintBlock(ss[1..])
  }

  /** Does not begin like another kind of statement, or like the rest of a conditional. */
  predicate SafeStart(t: Tree) {
    var p := Print(t, 0);
    p != [] && p[0] !in {"let", "return", "if", "while", "for", "match", "else"}
  }

  /** An empty block directly behind a name would be taken for a structure literal: `if x {}`. */
  predicate BlockMayFollow(c: Tree, ss: seq<Statement>) { ss == [] ==> !EndsInName(c, 0) }

  /** Every statement has a source form. */
  predicate Writable(t: Statement)
    decreases t, 0
  {
    match t
    case Declare(x, v) => IsIdentLexeme(x) && x != "mut" && (v.Some? ==> Printable(v.value))
    case Leave(r) => r.Some? ==> Printable(r.value)
    case Choose(c, thn, els) => Printable(c) && BlockMayFollow(c, thn) && AllWritable(thn) && AllWritable(els)
    case Repeat(c, body) => Printable(c) && BlockMayFollow(c, body) && AllWritable(body)
    case Set(p, e) => Printable(p) && Printable(e) && SafeStart(p)
    case Change(p, _, e) => Printable(p) && Printable(e) && SafeStart(p)
    case Do(e) => Printable(e) && SafeStart(e)
    case Unread => false
  }

  predicate AllWritable(ss: seq<Statement>)
    decreases ss, 1
  {
    forall i :: 0 <= i < |ss| ==> Writable(ss[i])
  }

  // ---------------------------------------------------------------- reading back --

  function OptDecode(a: Arena, h: nat): Option<Tree> { if h == 0 then None else Some(Decode(a, h)) }

  /** The statement at handle `h`, blocks read as the recorded ranges say. */
  function DecodeStmt(a: Arena, h: nat): Statement
    decreases h, 0
  {
    if !(1 <= h <= |a.stmts|) then Unread else
      match a.stmts[h - 1]
      case Let(x, _, init) => Declare(x, OptDecode(a, init))
      case Return(v) => Leave(OptDecode(a, v))
      case If(c, ts, tc, es, ec) =>
        if ts + tc < h && es + ec < h then Choose(Decode(a, c), DecodeRange(a, ts, tc), DecodeRange(a, es, ec))
        else Unread
      case While(c, bs, bc) => if bs + bc < h then Repeat(Decode(a, c), DecodeRange(a, bs, bc)) else Unread
      case Assign(p, e) => Set(Decode(a, p), Decode(a, e))
      case CompoundAssign(p, op, e) =>
        if op == Add || op == Sub then Change(Decode(a, p), op == Add, Decode(a, e)) else Unread
      case ExprStmt(e) => Do(Decode(a, e))
      case _ => Unread
  }

  function DecodeRange(a: Arena, start: nat, n: nat): (ss: seq<Statement>)
    ensures |ss| == n
    decreases start + n, 1, n
  {
    if n == 0 then [] else DecodeRange(a, start, n - 1) + [DecodeStmt(a, start + n)]
  }

  lemma {:induction false} RangeAt(a: Arena, start: nat, n: nat, k: nat)
    requires k < n
    ensures DecodeRange(a, start, n)[k] == DecodeStmt(a, start + k + 1)
  {
    hide DecodeStmt;
    if k < n - 1 {
      RangeAt(a, start, n - 1, k);
    }
  }

  function OptZeroed(o: Option<Tree>): Option<Tree> { if o.None? then None else Some(Zeroed(o.value)) }

  /** Every literal reads as zero. */
  function StmtZeroed(t: Statement): Statement
    decreases t, 0
  {
    match t
    case Declare(x, v) => Declare(x, OptZeroed(v))
    case Leave(r) => Leave(OptZeroed(r))
    case Choose(c, thn, els) => Choose(Zeroed(c), BlockZeroed(thn), BlockZeroed(els))
    case Repeat(c, body) => Repeat(Zeroed(c), BlockZeroed(body))
    case Set(p, e) => Set(Zeroed(p), Zeroed(e))
    case Change(p, plus, e) => Change(Zeroed(p), plus, Zeroed(e))
    case Do(e) => Do(Zeroed(e))
    case Unread => Unread
  }

  function BlockZeroed(ss: seq<Statement>): (r: seq<Statement>)
    ensures |r| == |ss| && forall i :: 0 <= i < |ss| ==> r[i] == StmtZeroed(ss[i])
    decreases ss, 1
  {
    if ss == [] then [] else [StmtZeroed(ss[0])] + BlockZeroed(ss[1..])
  }

  /** A statement that owns no statements. */
  predicate NoBlock(t: Statement) {
    match t
    case Choose(_, thn, els) => thn == [] && els == []
    case Repeat(_, body) => body == []
    case _ => true
  }

  predicate OptFlat(o: Option<Tree>) { o.Some? ==> Flat(o.value) }

  /** No argument of a call contains a call with arguments, and no statement of a block has a block. */
  predicate StmtFlat(t: Statement)
    decreases t, 0
  {
    match t
    case Declare(_, v) => OptFlat(v)
    case Leave(r) => OptFlat(r)
    case Choose(c, thn, els) => Flat(c) && BlockFlat(thn) && BlockFlat(els)
    case Repeat(c, body) => Flat(c) && BlockFlat(body)
    case Set(p, e) => Flat(p) && Flat(e)
    case Change(p, _, e) => Flat(p) && Flat(e)
    case Do(e) => Flat(e)
    case Unread => true
  }

  predicate BlockFlat(ss: seq<Statement>)
    decreases ss, 1
  {
    forall i :: 0 <= i < |ss| ==> StmtFlat(ss[i]) && NoBlock(ss[i])
  }

  predicate OptWhole(o: Option<Tree>) { o.Some? ==> Whole(o.value) }

  predicate StmtWhole(t: Statement)
    decreases t, 0
  {
    match t
    case Declare(_, v) => OptWhole(v)
    case Leave(r) => OptWhole(r)
    case Choose(c, thn, els) => Whole(c) && BlockWhole(thn) && BlockWhole(els)
    case Repeat(c, body) => Whole(c) && BlockWhole(body)
    case Set(p, e) => Whole(p) && Whole(e)
    case Change(p, _, e) => Whole(p) && Whole(e)
    case Do(e) => Whole(e)
    case Unread => false
  }

  predicate BlockWhole(ss: seq<Statement>)
    decreases ss, 1
  {
    forall i :: 0 <= i < |ss| ==> StmtWhole(ss[i])
  }

  ghost predicate StmtsExtend(a: Arena, a': Arena) { Extends(a, a') && a.stmts <= a'.stmts }

  /** A statement that has been read back completely stays the same while the arena grows. */
  lemma {:induction false} DecodeStmtExtends(a: Arena, a': Arena, h: nat)
    requires StmtsExtend(a, a') && StmtWhole(DecodeStmt(a, h))
    ensures DecodeStmt(a', h) == DecodeStmt(a, h)
    decreases h, 0
  {
    hide Decode, Whole, Extends;
    assert a'.stmts[h - 1] == a.stmts[h - 1];
    match a.stmts[h - 1] {
      case Let(_, _, init) => if init != 0 { DecodeExtends(a, a', init); }
      case Return(v) => if v != 0 { DecodeExtends(a, a', v); }
      case If(c, ts, tc, es, ec) =>
        DecodeExtends(a, a', c);
        DecodeRangeExtends(a, a', ts, tc);
        DecodeRangeExtends(a, a', es, ec);
      case While(c, bs, bc) =>
        DecodeExtends(a, a', c);
        DecodeRangeExtends(a, a', bs, bc);
      case Assign(p, e) => DecodeExtends(a, a', p); DecodeExtends(a, a', e);
      case CompoundAssign(p, _, e) => DecodeExtends(a, a', p); DecodeExtends(a, a', e);
      case ExprStmt(e) => DecodeExtends(a, a', e);
      case _ =>
    }
  }

  lemma {:induction false} DecodeRangeExtends(a: Arena, a': Arena, start: nat, n: nat)
    requires StmtsExtend(a, a') && BlockWhole(DecodeRange(a, start, n))
    ensures DecodeRange(a', start, n) == DecodeRange(a, start, n)
    decreases start + n, 1, n
  {
    hide DecodeStmt, StmtWhole;
    if n > 0 {
      var all, before := DecodeRange(a, start, n), DecodeRange(a, start, n - 1);
      assert all[n - 1] == DecodeStmt(a, start + n);
      forall i | 0 <= i < n - 1 ensures StmtWhole(before[i]) { assert all[i] == before[i]; }
      DecodeRangeExtends(a, a', start, n - 1);
      DecodeStmtExtends(a, a', start + n);
    }
  }

  // ------------------------------------------------------------------------ tokens --

  /** A token that an expression can begin with. */
  predicate Starts(x: string) {
    || IsIdentLexeme(x) || x in {"true", "false", "(", "&", "*", "-", "!"}
    || (x != "" && (IsDigit(x[0]) || x[0] == '"'))
  }

  lemma {:induction false} ExprStart(t: Tree, min: nat)
    requires Printable(t)
    ensures Print(t, min) != [] && Starts(Print(t, min)[0])
    decreases t, 1
  {
    if t.Bi? && Level(t.op) >= min {
      ExprStart(t.l, Level(t.op));
    } else {
      UnitStart(t);
    }
  }

  lemma {:induction false} UnitStart(t: Tree)
    requires Printable(t)
    ensures PrintUnit(t) != [] && Starts(PrintUnit(t)[0])
    decreases t, 0
  {
    hide Print, PrintBinary, PrintPrimary, PrintArgs, IntText;
    match t {
      case At(b, _) => UnitStart(b);
      case Dot(b, _) => UnitStart(b);
      case App(f, _) => UnitStart(f);
      case Num(n) => StartsWithDigit(n);
      case _ =>
    }
  }

  lemma PrimaryStart(t: Tree)
    requires Printable(t)
    ensures PrintPrimary(t) != [] && Starts(PrintPrimary(t)[0])
  {
    hide Print, PrintUnit;
    UnitStart(t);
  }

  /** The second token of an expression, if there is one, is not a colon. */
  lemma {:induction false} ExprSecond(t: Tree, min: nat)
    requires Printable(t)
    ensures var p := Print(t, min); |p| > 1 ==> p[1] != ":"
    decreases t, 1
  {
    hide PrintUnit;
    if t.Bi? && Level(t.op) >= min {
      BinarySecond(t);
    } else {
      UnitSecond(t);
    }
  }

  lemma {:induction false} BinarySecond(t: Tree)
    requires Printable(t) && t.Bi?
    ensures var p := PrintBinary(t); |p| > 1 && p[1] != ":" && Starts(p[0])
    decreases t, 0
  {
    hide Print;
    ExprSecond(t.l, Level(t.op));
    ExprStart(t.l, Level(t.op));
    ExprStart(t.r, Level(t.op) + 1);
    assert OpText(t.op) != ":";
  }

  lemma {:induction false} UnitSecond(t: Tree)
    requires Printable(t)
    ensures var p := PrintUnit(t); |p| > 1 ==> p[1] != ":"
    decreases t, 0, 0
  {
    hide Print, PrintBinary, PrintPrimary, PrintArgs;
    match t {
      case At(b, _) => UnitSecond(b); UnitStart(b);
      case Dot(b, _) => UnitSecond(b); UnitStart(b);
      case App(f, _) => UnitSecond(f); UnitStart(f);
      case Un(op, e) => PrimaryStart(e);
      case Bi(_, _, _) => BinaryFirst(t);
      case _ =>
    }
  }

  lemma BinaryFirst(t: Tree)
    requires Printable(t) && t.Bi?
    ensures PrintBinary(t) != [] && PrintBinary(t)[0] != ":"
  {
    hide Print;
    ExprStart(t.l, Level(t.op));
  }

  /** A statement has two tokens at least; the first does not end a block, the second is not a colon. */
  lemma StmtStart(t: Statement)
    requires Writable(t)
    ensures var p := PrintStmt(t); |p| > 1 && p[0] != "}" && p[0] != "else" && p[1] != ":"
  {
    hide Print, PrintBlock;
    match t {
      case Leave(r) => if r.Some? { ExprStart(r.value, 0); }
      case Choose(c, _, _) => ExprStart(c, 0);
      case Repeat(c, _) => ExprStart(c, 0);
      case Set(p, _) => ExprStart(p, 0); ExprSecond(p, 0);
      case Change(p, _, _) => ExprStart(p, 0); ExprSecond(p, 0);
      case Do(e) => ExprStart(e, 0); ExprSecond(e, 0);
      case _ =>
    }
  }

  /** Behind an opening brace and the statements of a block that is not empty, no structure literal begins. */
  lemma BlockStart(ts: Tokens, pos: nat, ss: seq<Statement>)
    requires ss != [] && AllWritable(ss) && Stands(ts, pos, PrintBraced(ss))
    ensures Peek(ts, pos) == "{" && AfterName(ts, pos)
  {
    hide PrintStmt, Writable;
    var p := PrintStmt(ss[0]);
    var rest := PrintBlock(ss[1..]) + ["}"];
    assert Writable(ss[0]);
    StmtStart(ss[0]);
    assert PrintBraced(ss) == ["{"] + (p + rest);
    StandsSplit(ts, pos, ["{"], p + rest);
    StandsOne(ts, pos, "{");
    StandsSplit(ts, pos + 1, p, rest);
    assert ts[pos + 1] == ts[pos + 1..pos + 1 + |p|][0] && ts[pos + 2] == ts[pos + 1..pos + 1 + |p|][1];
  }

  // ------------------------------------------------------------------- expressions --

  /** An expression ends here: nothing that could extend it follows. */
  predicate ExprEnds(ts: Tokens, pos: nat, e: Tree) {
    NotPostfix(Peek(ts, pos)) && (EndsInName(e, 0) ==> AfterName(ts, pos)) && Precedence(Peek(ts, pos)) == 0
  }

  lemma EndTokens(ts: Tokens, pos: nat, e: Tree)
    requires Peek(ts, pos) in {";", "=", "+=", "-="}
    ensures ExprEnds(ts, pos, e)
  {}

  lemma BraceEnds(ts: Tokens, pos: nat, c: Tree)
    requires Peek(ts, pos) == "{" && (EndsInName(c, 0) ==> AfterName(ts, pos))
    ensures ExprEnds(ts, pos, c)
  {}

  /** From `s` to `s'` exactly the expression `e` was parsed: no statement, arm or field was pushed. */
  ghost predicate ExprDone(s: S, s': S, h: nat, e: Tree, n: nat) {
    && s'.pos == s.pos + n && !s'.hung && s'.patience == s.patience
    && Sound(s'.a) && StmtsExtend(s.a, s'.a) && s'.a.stmts == s.a.stmts && s'.a.matchArms == s.a.matchArms
    && s'.a.structLitNames == s.a.structLitNames && s'.a.structLitExprs == s.a.structLitExprs
    && h != 0 && Whole(Decode(s'.a, h)) && (Decode(s'.a, h) == Zeroed(e) <==> Flat(e))
  }

  lemma ParsesExpression(ts: Tokens, s: S, e: Tree) returns (s': S, h: nat)
    requires s.pos <= |ts| && !s.hung && Sound(s.a) && Printable(e)
    requires Stands(ts, s.pos, Print(e, 0)) && ExprEnds(ts, s.pos + |Print(e, 0)|, e)
    ensures ParseExpr(ts, s) == (s', h) && ExprDone(s, s', h, e, |Print(e, 0)|)
  {
    hide Print, Sound, Decode, Zeroed, Flat, Precedence, AfterName, ParseBp;
    s', h := ParsesExpr(ts, s, e, 0);
    ExprSound(ts, s, 0);
  }

  // -------------------------------------------------------------------- statements --

  /** The statements that `a'` has and `a` had not can be read back, and the first of them has no block. */
  ghost predicate Added(a: Arena, a': Arena) {
    && StmtsExtend(a, a')
    && (forall g :: |a.stmts| < g <= |a'.stmts| ==> StmtWhole(DecodeStmt(a', g)))
    && (|a.stmts| < |a'.stmts| ==> NoBlock(DecodeStmt(a', |a.stmts| + 1)))
  }

  /** From `s` to `s'` exactly the statement `t` was parsed; it is read back as it was written exactly if
      it is `StmtFlat`, and it came alone if it has no block. */
  ghost predicate StmtBuilt(s: S, s': S, h: nat, t: Statement, n: nat) {
    && s'.pos == s.pos + n && !s'.hung && s'.patience == s.patience && Sound(s'.a)
    && Added(s.a, s'.a) && |s.a.stmts| < |s'.a.stmts| == h
    && (DecodeStmt(s'.a, h) == StmtZeroed(t) <==> StmtFlat(t))
    && (NoBlock(t) ==> h == |s.a.stmts| + 1)
  }

  /** The statements from `start` on are those of a block. */
  ghost predicate RangeReads(a: Arena, start: nat, ss: seq<Statement>) {
    forall k :: 0 <= k < |ss| ==> DecodeStmt(a, start + k + 1) == StmtZeroed(ss[k])
  }

  ghost predicate BlockBuilt(s: S, s': S, ss: seq<Statement>, n: nat) {
    && s'.pos == s.pos + n && !s'.hung && s'.patience == s.patience && Sound(s'.a)
    && Added(s.a, s'.a) && |s.a.stmts| + |ss| <= |s'.a.stmts|
    && (ss == [] ==> s'.a.stmts == s.a.stmts)
    && (RangeReads(s'.a, |s.a.stmts|, ss) <==> BlockFlat(ss))
    && (BlockFlat(ss) ==> |s'.a.stmts| == |s.a.stmts| + |ss|)
  }

  lemma AddedMore(a: Arena, a1: Arena, a2: Arena)
    requires Added(a, a1) && Added(a1, a2)
    ensures Added(a, a2)
    ensures forall g :: |a.stmts| < g <= |a1.stmts| ==> DecodeStmt(a2, g) == DecodeStmt(a1, g)
  {
    hide DecodeStmt, StmtWhole, NoBlock;
    forall g | |a.stmts| < g <= |a1.stmts| ensures DecodeStmt(a2, g) == DecodeStmt(a1, g) {
      DecodeStmtExtends(a1, a2, g);
    }
  }

  lemma NothingAdded(a: Arena, a': Arena)
    requires StmtsExtend(a, a') && a'.stmts == a.stmts
    ensures Added(a, a')
  {}

  /** Pushing a statement that can be read back, and has no block if it is the first. */
  lemma AddStmt(a: Arena, a1: Arena, st: Stmt)
    requires Added(a, a1)
    requires var a2 := a1.(stmts := a1.stmts + [st]);
             StmtWhole(DecodeStmt(a2, |a2.stmts|)) && (|a1.stmts| == |a.stmts| ==> NoBlock(DecodeStmt(a2, |a2.stmts|)))
    ensures Added(a, a1.(stmts := a1.stmts + [st]))
  {
    hide DecodeStmt, StmtWhole, NoBlock;
    var a2 := a1.(stmts := a1.stmts + [st]);
    forall g | |a.stmts| < g <= |a1.stmts| ensures DecodeStmt(a2, g) == DecodeStmt(a1, g) {
      DecodeStmtExtends(a1, a2, g);
    }
  }

  /** A statement without a block that was made of expressions parsed before. */
  lemma LeafBuilt(s: S, s1: S, st: Stmt, t: Statement, n: nat)
    requires s1.pos + 1 == s.pos + n && !s1.hung && s1.patience == s.patience
    requires Sound(s1.a) && StmtsExtend(s.a, s1.a) && s1.a.stmts == s.a.stmts
    requires StmtRefersBelow(st, |s1.a.stmts|, |s1.a.exprs|, s1.a.matchArms)
    requires var a2 := s1.a.(stmts := s1.a.stmts + [st]);
             var d := DecodeStmt(a2, |a2.stmts|);
             StmtWhole(d) && NoBlock(d) && NoBlock(t) && (d == StmtZeroed(t) <==> StmtFlat(t))
    ensures StmtBuilt(s, PushStmt(s1.(pos := s1.pos + 1), st).0, |s1.a.stmts| + 1, t, n)
  {
    hide DecodeStmt, StmtWhole, StmtRefersBelow, Sound, StmtZeroed, StmtFlat;
    NothingAdded(s.a, s1.a);
    AddStmt(s.a, s1.a, st);
    PushStmtSound(s1.(pos := s1.pos + 1), st);
  }

  /** An expression handle means the same after statements were pushed. */
  lemma ExprKept(a: Arena, st: Stmt, h: nat)
    requires Whole(Decode(a, h))
    ensures Decode(a.(stmts := a.stmts + [st]), h) == Decode(a, h) && Ast.Names(h, |a.exprs|)
  {
    RoundTrip.Named(a, h);
    DecodeExtends(a, a.(stmts := a.stmts + [st]), h);
  }

  lemma ParsesDeclare(ts: Tokens, s: S, t: Statement) returns (s': S, h: nat)
    requires s.pos <= |ts| && !s.hung && Sound(s.a) && Writable(t) && t.Declare? && Stands(ts, s.pos, PrintStmt(t))
    ensures ParseStmt(ts, s) == (s', h) && StmtBuilt(s, s', h, t, |PrintStmt(t)|)
  {
    hide Sound, ParseStmt, Print, Decode, Zeroed, Flat, Whole, Printable, Stands, Peek;
    var Declare(x, v) := t;
    if v.None? {
      assert PrintStmt(t) == ["let", x, ";"] + [];
      NameStands(ts, s.pos, x, ";", []);
      LetAlone(ts, s, x);
      var s1 := s.(pos := s.pos + 2);
      var p := PushStmt(s1.(pos := s1.pos + 1), Let(x, 0, 0));
      s', h := p.0, p.1;
      LeafBuilt(s, s1, Let(x, 0, 0), t, 3);
    } else {
      s', h := ParsesInitialised(ts, s, t);
    }
  }

  lemma NameStands(ts: Tokens, pos: nat, x: string, sign: string, p: Tokens)
    requires Stands(ts, pos, ["let", x, sign] + p)
    ensures pos + 3 <= |ts| && Peek(ts, pos) == "let" && Peek(ts, pos + 1) == x && Peek(ts, pos + 2) == sign
    ensures Stands(ts, pos + 3, p)
  {
    assert ["let", x, sign] + p == ["let"] + ([x] + ([sign] + p));
    KeywordStands(ts, pos, "let", [x] + ([sign] + p));
    KeywordStands(ts, pos + 1, x, [sign] + p);
    KeywordStands(ts, pos + 2, sign, p);
  }

  lemma Steps(ts: Tokens, s: S)
    ensures s.pos < |ts| ==> Step(ts, s) == s.(pos := s.pos + 1)
    ensures s.pos + 2 <= |ts| ==> Step(ts, Step(ts, s)) == s.(pos := s.pos + 2)
  {}

  lemma LetAlone(ts: Tokens, s: S, x: string)
    requires s.pos + 3 <= |ts| && !s.hung && Peek(ts, s.pos) == "let" && Peek(ts, s.pos + 1) == x && x != "mut"
    requires Peek(ts, s.pos + 2) == ";"
    ensures ParseStmt(ts, s) == PushStmt(s.(pos := s.pos + 3), Let(x, 0, 0))
  {
    hide ParseStmt, ParseExpr, SkipUntil, Peek, Step;
    LetOpens(ts, s);
    Steps(ts, s.(pos := s.pos + 1));
    Steps(ts, s.(pos := s.pos + 2));
  }

  lemma LetOpens(ts: Tokens, s: S)
    requires s.pos < |ts| && Peek(ts, s.pos) == "let"
    ensures ParseStmt(ts, s) == ParseLet(ts, s.(pos := s.pos + 1))
  {
    hide ParseLet, ParseIf, ParseWhile, ParseFor, ParseMatch, ParseSimple, ParseReturn;
  }

  lemma LetAssigned(ts: Tokens, s: S, r: (S, nat))
    requires s.pos + 2 <= |ts| && !s.hung && Peek(ts, s.pos) != "mut" && Peek(ts, s.pos + 1) == "="
    requires ParseExpr(ts, s.(pos := s.pos + 2)) == r && !r.0.hung
    ensures ParseLet(ts, s) == PushStmt(Step(ts, r.0), Let(Peek(ts, s.pos), 0, r.1))
  {
    hide ParseExpr, SkipUntil, Peek, Step, Later;
    Steps(ts, s);
    Steps(ts, s.(pos := s.pos + 1));
  }

  lemma LetValue(ts: Tokens, s: S, x: string, s1: S, e: nat)
    requires s.pos + 3 <= |ts| && !s.hung && Peek(ts, s.pos) == "let" && Peek(ts, s.pos + 1) == x && x != "mut"
    requires Peek(ts, s.pos + 2) == "="
    requires ParseExpr(ts, s.(pos := s.pos + 3)) == (s1, e) && !s1.hung && s1.pos < |ts|
    ensures ParseStmt(ts, s) == PushStmt(s1.(pos := s1.pos + 1), Let(x, 0, e))
  {
    hide ParseStmt, ParseLet, ParseExpr, Peek, Step, Later;
    LetOpens(ts, s);
    LetAssigned(ts, s.(pos := s.pos + 1), (s1, e));
    Steps(ts, s1);
  }

  /** An expression and the semicolon behind it. */
  lemma ClosedStands(ts: Tokens, pos: nat, e: Tree)
    requires Stands(ts, pos, Print(e, 0) + [";"])
    ensures var p := Print(e, 0); Stands(ts, pos, p) && pos + |p| < |ts| && ExprEnds(ts, pos + |p|, e)
  {
    hide Print, ExprEnds, Stands;
    var p := Print(e, 0);
    StandsSplit(ts, pos, p, [";"]);
    StandsOne(ts, pos + |p|, ";");
    EndTokens(ts, pos + |p|, e);
  }

  lemma ParsesInitialised(ts: Tokens, s: S, t: Statement) returns (s': S, h: nat)
    requires s.pos <= |ts| && !s.hung && Sound(s.a) && Writable(t) && t.Declare? && t.value.Some?
    requires Stands(ts, s.pos, PrintStmt(t))
    ensures ParseStmt(ts, s) == (s', h) && StmtBuilt(s, s', h, t, |PrintStmt(t)|)
  {
    hide Sound, ParseStmt, ParseExpr, Print, Decode, Zeroed, Flat, Whole, Printable, ExprEnds, Stands, Peek;
    var Declare(x, v) := t;
    var p := Print(v.value, 0);
    assert PrintStmt(t) == ["let", x, "="] + (p + [";"]);
    NameStands(ts, s.pos, x, "=", p + [";"]);
    ClosedStands(ts, s.pos + 3, v.value);
    var s0 := s.(pos := s.pos + 3);
    var s1, e := ParsesExpression(ts, s0, v.value);
    LetValue(ts, s, x, s1, e);
    var r := PushStmt(s1.(pos := s1.pos + 1), Let(x, 0, e));
    s', h := r.0, r.1;
    ExprKept(s1.a, Let(x, 0, e), e);
    LeafBuilt(s, s1, Let(x, 0, e), t, 4 + |p|);
  }

  lemma ParsesLeave(ts: Tokens, s: S, t: Statement) returns (s': S, h: nat)
    requires s.pos <= |ts| && !s.hung && Sound(s.a) && Writable(t) && t.Leave? && Stands(ts, s.pos, PrintStmt(t))
    ensures ParseStmt(ts, s) == (s', h) && StmtBuilt(s, s', h, t, |PrintStmt(t)|)
  {
    hide Sound, ParseStmt, Print, Decode, Zeroed, Flat, Whole, Printable, Stands, Peek;
    if t.result.None? {
      assert ["return", ";"] == ["return"] + [";"];
      KeywordStands(ts, s.pos, "return", [";"]);
      StandsOne(ts, s.pos + 1, ";");
      ReturnAlone(ts, s);
      var s1 := s.(pos := s.pos + 1);
      var r := PushStmt(s1.(pos := s1.pos + 1), Return(0));
      s', h := r.0, r.1;
      LeafBuilt(s, s1, Return(0), t, 2);
    } else {
      s', h := ParsesResult(ts, s, t);
    }
  }

  lemma ReturnAlone(ts: Tokens, s: S)
    requires s.pos + 2 <= |ts| && !s.hung && Peek(ts, s.pos) == "return" && Peek(ts, s.pos + 1) == ";"
    ensures ParseStmt(ts, s) == PushStmt(s.(pos := s.pos + 2), Return(0))
  {
    hide ParseIf, ParseWhile, ParseFor, ParseMatch, ParseSimple, ParseLet, ParseExpr, Peek, Step;
    Steps(ts, s);
    Steps(ts, s.(pos := s.pos + 1));
  }

  lemma ReturnValue(ts: Tokens, s: S, s1: S, e: nat)
    requires s.pos + 1 <= |ts| && Peek(ts, s.pos) == "return" && Peek(ts, s.pos + 1) != ";"
    requires ParseExpr(ts, s.(pos := s.pos + 1)) == (s1, e) && !s1.hung && s1.pos < |ts|
    ensures ParseStmt(ts, s) == PushStmt(s1.(pos := s1.pos + 1), Return(e))
  {
    hide ParseIf, ParseWhile, ParseFor, ParseMatch, ParseSimple, ParseLet, ParseExpr, Peek, Step;
    Steps(ts, s);
    Steps(ts, s.(pos := s.pos + 1));
    Steps(ts, s1);
  }

  lemma ParsesResult(ts: Tokens, s: S, t: Statement) returns (s': S, h: nat)
    requires s.pos <= |ts| && !s.hung && Sound(s.a) && Writable(t) && t.Leave? && t.result.Some?
    requires Stands(ts, s.pos, PrintStmt(t))
    ensures ParseStmt(ts, s) == (s', h) && StmtBuilt(s, s', h, t, |PrintStmt(t)|)
  {
    hide Sound, ParseStmt, ParseExpr, Print, Decode, Zeroed, Flat, Whole, Printable, ExprEnds, Stands, Peek;
    var e := t.result.value;
    var p := Print(e, 0);
    KeywordStands(ts, s.pos, "return", p + [";"]);
    ClosedStands(ts, s.pos + 1, e);
    ExprStart(e, 0);
    FirstStands(ts, s.pos + 1, p);
    var s1, v := ParsesExpression(ts, s.(pos := s.pos + 1), e);
    ReturnValue(ts, s, s1, v);
    var r := PushStmt(s1.(pos := s1.pos + 1), Return(v));
    s', h := r.0, r.1;
    ExprKept(s1.a, Return(v), v);
    LeafBuilt(s, s1, Return(v), t, 2 + |p|);
  }

  /** A statement that begins with an expression is none of the others. */
  lemma SimpleFirst(ts: Tokens, s: S, e: Tree)
    requires s.pos <= |ts| && Printable(e) && SafeStart(e) && Stands(ts, s.pos, Print(e, 0))
    ensures ParseStmt(ts, s) == ParseSimple(ts, s)
  {
    hide Print, ParseLet, ParseReturn, ParseIf, ParseWhile, ParseFor, ParseMatch, ParseSimple;
    FirstStands(ts, s.pos, Print(e, 0));
  }

  lemma ParsesDo(ts: Tokens, s: S, t: Statement) returns (s': S, h: nat)
    requires s.pos <= |ts| && !s.hung && Sound(s.a) && Writable(t) && t.Do? && Stands(ts, s.pos, PrintStmt(t))
    ensures ParseStmt(ts, s) == (s', h) && StmtBuilt(s, s', h, t, |PrintStmt(t)|)
  {
    hide Sound, ParseExpr, Print, Decode, Zeroed, Flat, Whole, Printable, ExprEnds, ParseStmt, SafeStart;
    var p := Print(t.e, 0);
    StandsSplit(ts, s.pos, p, [";"]);
    StandsOne(ts, s.pos + |p|, ";");
    EndTokens(ts, s.pos + |p|, t.e);
    SimpleFirst(ts, s, t.e);
    var s1, e := ParsesExpression(ts, s, t.e);
    var r := PushStmt(Step(ts, s1), ExprStmt(e));
    s', h := r.0, r.1;
    ExprKept(s1.a, ExprStmt(e), e);
    LeafBuilt(s, s1, ExprStmt(e), t, 1 + |p|);
  }

  /** The two expressions of an assignment with the sign between them. */
  lemma ParsesSides(ts: Tokens, s: S, place: Tree, sign: string, e: Tree) returns (s1: S, h1: nat, s2: S, h2: nat)
    requires s.pos <= |ts| && !s.hung && Sound(s.a) && Printable(place) && Printable(e) && sign in {"=", "+=", "-="}
    requires Stands(ts, s.pos, Print(place, 0) + ([sign] + (Print(e, 0) + [";"])))
    ensures ParseExpr(ts, s) == (s1, h1) && ExprDone(s, s1, h1, place, |Print(place, 0)|) && Peek(ts, s1.pos) == sign
    ensures s1.pos < |ts| && ParseExpr(ts, Step(ts, s1)) == (s2, h2) && ExprDone(Step(ts, s1), s2, h2, e, |Print(e, 0)|)
    ensures s2.pos < |ts| && Stands(ts, s.pos, Print(place, 0))
    ensures Whole(Decode(s2.a, h1)) && (Decode(s2.a, h1) == Zeroed(place) <==> Flat(place))
  {
    hide Sound, ParseExpr, Print, Decode, Zeroed, Flat, Whole, Printable, ExprEnds, Extends;
    SidesStand(ts, s.pos, place, sign, e);
    s1, h1 := ParsesExpression(ts, s, place);
    s2, h2 := ParsesExpression(ts, Step(ts, s1), e);
    DecodeExtends(s1.a, s2.a, h1);
  }

  lemma SidesStand(ts: Tokens, pos: nat, place: Tree, sign: string, e: Tree)
    requires sign in {"=", "+=", "-="} && Stands(ts, pos, Print(place, 0) + ([sign] + (Print(e, 0) + [";"])))
    ensures var p, q := Print(place, 0), Print(e, 0);
            && Stands(ts, pos, p) && Stands(ts, pos + |p| + 1, q) && pos + |p| + 1 + |q| < |ts|
            && Peek(ts, pos + |p|) == sign
            && ExprEnds(ts, pos + |p|, place) && ExprEnds(ts, pos + |p| + 1 + |q|, e)
  {
    hide ExprEnds, Print, Stands;
    var p, q := Print(place, 0), Print(e, 0);
    StandsSplit(ts, pos, p, [sign] + (q + [";"]));
    StandsSplit(ts, pos + |p|, [sign], q + [";"]);
    StandsOne(ts, pos + |p|, sign);
    StandsSplit(ts, pos + |p| + 1, q, [";"]);
    StandsOne(ts, pos + |p| + 1 + |q|, ";");
    EndTokens(ts, pos + |p|, place);
    EndTokens(ts, pos + |p| + 1 + |q|, e);
  }

  lemma ParsesSet(ts: Tokens, s: S, t: Statement) returns (s': S, h: nat)
    requires s.pos <= |ts| && !s.hung && Sound(s.a) && Writable(t) && t.Set? && Stands(ts, s.pos, PrintStmt(t))
    ensures ParseStmt(ts, s) == (s', h) && StmtBuilt(s, s', h, t, |PrintStmt(t)|)
  {
    hide Sound, ParseExpr, Print, Decode, Zeroed, Flat, Whole, Printable, ParseStmt, SafeStart;
    var s1, h1, s2, h2 := ParsesSides(ts, s, t.place, "=", t.source);
    SimpleFirst(ts, s, t.place);
    var r := PushStmt(Step(ts, s2), Assign(h1, h2));
    s', h := r.0, r.1;
    ExprKept(s2.a, Assign(h1, h2), h1);
    ExprKept(s2.a, Assign(h1, h2), h2);
    LeafBuilt(s, s2, Assign(h1, h2), t, |PrintStmt(t)|);
  }

  lemma ParsesChange(ts: Tokens, s: S, t: Statement) returns (s': S, h: nat)
    requires s.pos <= |ts| && !s.hung && Sound(s.a) && Writable(t) && t.Change? && Stands(ts, s.pos, PrintStmt(t))
    ensures ParseStmt(ts, s) == (s', h) && StmtBuilt(s, s', h, t, |PrintStmt(t)|)
  {
    hide Sound, ParseExpr, Print, Decode, Zeroed, Flat, Whole, Printable, ParseStmt, SafeStart;
    var s1, h1, s2, h2 := ParsesSides(ts, s, t.target, if t.plus then "+=" else "-=", t.amount);
    SimpleFirst(ts, s, t.target);
    var st := CompoundAssign(h1, if t.plus then Add else Sub, h2);
    var r := PushStmt(Step(ts, s2), st);
    s', h := r.0, r.1;
    ExprKept(s2.a, st, h1);
    ExprKept(s2.a, st, h2);
    LeafBuilt(s, s2, st, t, |PrintStmt(t)|);
  }

  // ------------------------------------------------------------------------ blocks --

  lemma {:induction false} ParsesStatement(ts: Tokens, s: S, t: Statement) returns (s': S, h: nat)
    requires s.pos <= |ts| && !s.hung && Sound(s.a) && Writable(t) && Stands(ts, s.pos, PrintStmt(t))
    requires Peek(ts, s.pos + |PrintStmt(t)|) != "else"
    ensures ParseStmt(ts, s) == (s', h) && StmtBuilt(s, s', h, t, |PrintStmt(t)|)
    decreases t, 2
  {
    hide ParseStmt, PrintStmt, StmtBuilt, Sound;
    if t.Choose? {
      s', h := ParsesChoose(ts, s, t);
    } else if t.Repeat? {
      s', h := ParsesRepeat(ts, s, t);
    } else if t.Declare? {
      s', h := ParsesDeclare(ts, s, t);
    } else if t.Leave? {
      s', h := ParsesLeave(ts, s, t);
    } else if t.Set? {
      s', h := ParsesSet(ts, s, t);
    } else if t.Change? {
      s', h := ParsesChange(ts, s, t);
    } else {
      s', h := ParsesDo(ts, s, t);
    }
  }

  /** The statements of a block one after the other, up to the closing brace. */
  lemma {:induction false} ParsesBlock(ts: Tokens, s: S, ss: seq<Statement>) returns (s': S, tops: seq<nat>)
    requires s.pos <= |ts| && !s.hung && Sound(s.a) && AllWritable(ss) && Stands(ts, s.pos, PrintBlock(ss) + ["}"])
    ensures ParseBlock(ts, s) == (s', tops) && |tops| == |ss| && BlockBuilt(s, s', ss, |PrintBlock(ss)|)
    decreases ss, 1
  {
    hide ParseStmt, PrintStmt, StmtBuilt, Sound, Writable, DecodeStmt, Watched;
    if ss == [] {
      assert PrintBlock(ss) + ["}"] == ["}"];
      StandsOne(ts, s.pos, "}");
      s', tops := s, [];
      NothingAdded(s.a, s.a);
    } else {
      var p, rest := PrintStmt(ss[0]), PrintBlock(ss[1..]);
      BlockStands(ts, s.pos, ss);
      var s1, h1 := ParsesStatement(ts, s, ss[0]);
      StmtPos(s, s1, h1, ss[0], |p|);
      var more;
      s', more := ParsesBlock(ts, s1, ss[1..]);
      tops := [h1] + more;
      Unwatched(ts, s);
      MoreBuilt(s, s1, s', h1, ss, |p|, |rest|);
    }
  }

  lemma Unwatched(ts: Tokens, s: S)
    requires s.pos < |ts|
    ensures Watched(ts, s) == s
  {}

  lemma StmtPos(s: S, s1: S, h: nat, t: Statement, n: nat)
    requires StmtBuilt(s, s1, h, t, n)
    ensures s1.pos == s.pos + n && !s1.hung && Sound(s1.a)
  {}

  /** What is left of a block does not begin like the rest of a conditional. */
  lemma RestStart(ss: seq<Statement>)
    requires AllWritable(ss)
    ensures (PrintBlock(ss) + ["}"])[0] != "else"
  {
    hide PrintStmt, Writable;
    if ss != [] {
      assert Writable(ss[0]);
      StmtStart(ss[0]);
      assert (PrintBlock(ss) + ["}"])[0] == PrintStmt(ss[0])[0];
    }
  }

  lemma BlockStands(ts: Tokens, pos: nat, ss: seq<Statement>)
    requires ss != [] && AllWritable(ss) && Stands(ts, pos, PrintBlock(ss) + ["}"])
    ensures var p := PrintStmt(ss[0]);
            && Writable(ss[0]) && AllWritable(ss[1..]) && pos + |p| < |ts|
            && Stands(ts, pos, p) && Stands(ts, pos + |p|, PrintBlock(ss[1..]) + ["}"])
            && Peek(ts, pos) != "}" && Peek(ts, pos + |p|) != "else"
  {
    hide PrintStmt, Writable, AllWritable, PrintBlock, Stands, Peek;
    BlockSplit(ss);
    var p, rest := PrintStmt(ss[0]), PrintBlock(ss[1..]) + ["}"];
    StmtStart(ss[0]);
    RestStart(ss[1..]);
    TwoStand(ts, pos, p, rest);
  }

  lemma BlockSplit(ss: seq<Statement>)
    requires ss != [] && AllWritable(ss)
    ensures Writable(ss[0]) && AllWritable(ss[1..])
    ensures PrintBlock(ss) + ["}"] == PrintStmt(ss[0]) + (PrintBlock(ss[1..]) + ["}"])
  {
    hide PrintStmt, Writable;
  }

  lemma TwoStand(ts: Tokens, pos: nat, p: Tokens, q: Tokens)
    requires p != [] && q != [] && Stands(ts, pos, p + q)
    ensures Stands(ts, pos, p) && Stands(ts, pos + |p|, q) && pos + |p| < |ts|
    ensures Peek(ts, pos) == p[0] && Peek(ts, pos + |p|) == q[0]
  {
    StandsSplit(ts, pos, p, q);
    FirstStands(ts, pos, p);
    FirstStands(ts, pos + |p|, q);
  }

  lemma MoreBuilt(s: S, s1: S, s': S, h1: nat, ss: seq<Statement>, n: nat, m: nat)
    requires ss != [] && StmtBuilt(s, s1, h1, ss[0], n) && BlockBuilt(s1, s', ss[1..], m)
    ensures BlockBuilt(s, s', ss, n + m)
  {
    hide DecodeStmt, StmtZeroed, StmtFlat, Sound, StmtWhole, Extends;
    var start := |s.a.stmts|;
    AddedMore(s.a, s1.a, s'.a);
    FlatSplit(ss);
    ReadsSplit(s'.a, start, ss);
    if !NoBlock(ss[0]) {
      BlockKind(ss[0]);
      assert DecodeStmt(s'.a, start + 0 + 1) != StmtZeroed(ss[0]);
    }
  }

  lemma BlockKind(t: Statement)
    ensures NoBlock(StmtZeroed(t)) == NoBlock(t)
  {}

  lemma FlatSplit(ss: seq<Statement>)
    requires ss != []
    ensures BlockFlat(ss) <==> StmtFlat(ss[0]) && NoBlock(ss[0]) && BlockFlat(ss[1..])
  {
    hide StmtFlat, NoBlock;
    if BlockFlat(ss[1..]) {
      forall i | 1 <= i < |ss| ensures StmtFlat(ss[i]) && NoBlock(ss[i]) { assert ss[i] == ss[1..][i - 1]; }
    }
  }

  lemma ReadsSplit(a: Arena, start: nat, ss: seq<Statement>)
    requires ss != []
    ensures RangeReads(a, start, ss) <==>
            DecodeStmt(a, start + 1) == StmtZeroed(ss[0]) && RangeReads(a, start + 1, ss[1..])
  {
    hide DecodeStmt, StmtZeroed;
    if RangeReads(a, start, ss) {
      assert DecodeStmt(a, start + 0 + 1) == StmtZeroed(ss[0]);
      forall k | 0 <= k < |ss| - 1 ensures DecodeStmt(a, start + 1 + k + 1) == StmtZeroed(ss[1..][k]) {
        assert DecodeStmt(a, start + (k + 1) + 1) == StmtZeroed(ss[k + 1]);
      }
    }
    if DecodeStmt(a, start + 1) == StmtZeroed(ss[0]) && RangeReads(a, start + 1, ss[1..]) {
      forall k | 0 <= k < |ss| ensures DecodeStmt(a, start + k + 1) == StmtZeroed(ss[k]) {
        if k > 0 { assert DecodeStmt(a, start + 1 + (k - 1) + 1) == StmtZeroed(ss[1..][k - 1]); }
      }
    }
  }

  // ---------------------------------------------------------------- nested statements --

  /** A block between its braces. */
  lemma {:induction false} ParsesBraces(ts: Tokens, s: S, ss: seq<Statement>) returns (s': S, tops: seq<nat>)
    requires s.pos <= |ts| && !s.hung && Sound(s.a) && AllWritable(ss) && Stands(ts, s.pos, PrintBraced(ss))
    ensures ParseBraced(ts, s) == (s', tops) && |tops| == |ss|
    ensures BlockBuilt(s.(pos := s.pos + 1), s', ss, |PrintBraced(ss)| - 1)
    decreases ss, 2
  {
    hide PrintBlock, ParseBlock, Sound, Added, RangeReads, BlockFlat, AllWritable;
    BracesStand(ts, s.pos, PrintBlock(ss));
    var s1;
    s1, tops := ParsesBlock(ts, Step(ts, s), ss);
    s' := Step(ts, s1);
  }

  lemma BracesStand(ts: Tokens, pos: nat, p: Tokens)
    requires Stands(ts, pos, ["{"] + (p + ["}"]))
    ensures pos + 1 + |p| < |ts| && Peek(ts, pos) == "{" && Stands(ts, pos + 1, p + ["}"])
    ensures Peek(ts, pos + 1 + |p|) == "}"
  {
    StandsSplit(ts, pos, ["{"], p + ["}"]);
    StandsOne(ts, pos, "{");
    StandsSplit(ts, pos + 1, p, ["}"]);
    StandsOne(ts, pos + 1 + |p|, "}");
  }

  /** The recorded range of a block reads as the block exactly if its statements stand in it. */
  lemma RangeIsBlock(a: Arena, start: nat, ss: seq<Statement>)
    ensures DecodeRange(a, start, |ss|) == BlockZeroed(ss) <==> RangeReads(a, start, ss)
  {
    hide DecodeStmt, StmtZeroed;
    var r := DecodeRange(a, start, |ss|);
    forall k | 0 <= k < |ss| ensures r[k] == DecodeStmt(a, start + k + 1) { RangeAt(a, start, |ss|, k); }
    assert r == BlockZeroed(ss) <==> forall k :: 0 <= k < |ss| ==> r[k] == BlockZeroed(ss)[k];
  }

  lemma RangeWhole(a: Arena, start: nat, n: nat)
    requires forall g :: start < g <= start + n ==> StmtWhole(DecodeStmt(a, g))
    ensures BlockWhole(DecodeRange(a, start, n))
  {
    hide DecodeStmt, StmtWhole;
    forall k | 0 <= k < n ensures StmtWhole(DecodeRange(a, start, n)[k]) { RangeAt(a, start, n, k); }
  }

  /** The same, with what the code behind the block relies on. */
  lemma {:induction false} ParsesBraced(ts: Tokens, s: S, ss: seq<Statement>) returns (s': S, tops: seq<nat>)
    requires s.pos <= |ts| && !s.hung && Sound(s.a) && AllWritable(ss) && Stands(ts, s.pos, PrintBraced(ss))
    ensures ParseBraced(ts, s) == (s', tops) && |tops| == |ss| && PrintBraced(ss) != []
    ensures s'.pos == s.pos + |PrintBraced(ss)| && !s'.hung && Sound(s'.a)
    ensures BlockBuilt(s.(pos := s.pos + 1), s', ss, |PrintBraced(ss)| - 1)
    decreases ss, 3
  {
    hide Sound, ParseBraced, AllWritable, BlockBuilt;
    s', tops := ParsesBraces(ts, s, ss);
    BlockPos(s.(pos := s.pos + 1), s', ss, |PrintBraced(ss)| - 1);
  }

  lemma StandsInside(ts: Tokens, pos: nat, p: Tokens)
    requires Stands(ts, pos, p)
    ensures pos + |p| <= |ts|
  {}

  lemma BraceFollows(ts: Tokens, pos: nat, c: Tree, ss: seq<Statement>)
    requires BlockMayFollow(c, ss) && AllWritable(ss) && Stands(ts, pos, PrintBraced(ss))
    ensures Peek(ts, pos) == "{" && (EndsInName(c, 0) ==> AfterName(ts, pos))
  {
    hide PrintBlock, AllWritable, EndsInName, AfterName;
    BracesStand(ts, pos, PrintBlock(ss));
    if ss != [] {
      BlockStart(ts, pos, ss);
    }
  }

  lemma HeadStands(ts: Tokens, pos: nat, c: Tree, ss: seq<Statement>, rest: Tokens)
    requires BlockMayFollow(c, ss) && AllWritable(ss) && Stands(ts, pos, Print(c, 0) + (PrintBraced(ss) + rest))
    ensures var p, q := Print(c, 0), PrintBraced(ss);
            && Stands(ts, pos, p) && ExprEnds(ts, pos + |p|, c) && Stands(ts, pos + |p|, q)
            && pos + |p| + |q| <= |ts| && Stands(ts, pos + |p| + |q|, rest)
  {
    hide Print, PrintBraced, ExprEnds, AfterName, AllWritable, EndsInName, Stands, Peek, BlockMayFollow;
    var p, q := Print(c, 0), PrintBraced(ss);
    StandsSplit(ts, pos, p, q + rest);
    StandsSplit(ts, pos + |p|, q, rest);
    StandsInside(ts, pos + |p|, q);
    BraceFollows(ts, pos + |p|, c, ss);
    BraceEnds(ts, pos + |p|, c);
  }

  /** From `s` to `s1` the condition `c`, from `s1` to `s2` the block `ss` was parsed. */
  ghost predicate HeadDone(ts: Tokens, s: S, s1: S, h1: nat, s2: S, c: Tree, ss: seq<Statement>) {
    && ExprDone(s, s1, h1, c, |Print(c, 0)|)
    && s1.pos <= |ts| && Stands(ts, s1.pos, PrintBraced(ss)) && ParseBraced(ts, s1).0 == s2
    && PrintBraced(ss) != [] && BlockBuilt(s1.(pos := s1.pos + 1), s2, ss, |PrintBraced(ss)| - 1)
  }

  /** A condition and the block behind it. */
  lemma {:induction false} ParsesHead(ts: Tokens, s: S, c: Tree, ss: seq<Statement>, rest: Tokens)
    returns (s1: S, h1: nat, s2: S, tops: seq<nat>)
    requires s.pos <= |ts| && !s.hung && Sound(s.a) && Printable(c) && BlockMayFollow(c, ss) && AllWritable(ss)
    requires Stands(ts, s.pos, Print(c, 0) + (PrintBraced(ss) + rest))
    ensures ParseExpr(ts, s) == (s1, h1) && ExprDone(s, s1, h1, c, |Print(c, 0)|)
    ensures s1.pos <= |ts| && ParseBraced(ts, s1) == (s2, tops) && |tops| == |ss|
    ensures PrintBraced(ss) != [] && BlockBuilt(s1.(pos := s1.pos + 1), s2, ss, |PrintBraced(ss)| - 1)
    ensures s2.pos == s.pos + |Print(c, 0)| + |PrintBraced(ss)| && !s2.hung && Sound(s2.a) && Stands(ts, s2.pos, rest)
    ensures HeadDone(ts, s, s1, h1, s2, c, ss)
    decreases ss, 4
  {
    hide Sound, ParseExpr, Print, PrintBraced, Decode, Zeroed, Flat, Whole, Printable, ExprEnds, ParseBraced,
         AllWritable, BlockBuilt, AfterName, Stands, ExprDone, Peek, BlockMayFollow;
    HeadStands(ts, s.pos, c, ss, rest);
    s1, h1 := ParsesExpression(ts, s, c);
    ExprPos(s, s1, h1, c, |Print(c, 0)|);
    s2, tops := ParsesBraced(ts, s1, ss);
  }

  lemma {:induction false} ParsesRepeat(ts: Tokens, s: S, t: Statement) returns (s': S, h: nat)
    requires s.pos <= |ts| && !s.hung && Sound(s.a) && Writable(t) && t.Repeat? && Stands(ts, s.pos, PrintStmt(t))
    ensures ParseStmt(ts, s) == (s', h) && StmtBuilt(s, s', h, t, |PrintStmt(t)|)
    decreases t, 1
  {
    hide Sound, Print, PrintBraced, Writable, ParseBraced, BlockBuilt, StmtBuilt, ExprDone, ParseStmt, Stands;
    var s1, h1, s2 := RepeatParts(ts, s, t);
    var r := PushStmt(s2, While(h1, |s1.a.stmts|, |t.body|));
    s', h := r.0, r.1;
    RepeatBuilt(s, s1, s2, t, h1, |Print(t.until, 0)|, |PrintBraced(t.body)|);
  }

  /** A loop: the condition, the block, and the node that is pushed behind them. */
  lemma {:induction false} RepeatParts(ts: Tokens, s: S, t: Statement) returns (s1: S, h1: nat, s2: S)
    requires s.pos <= |ts| && !s.hung && Sound(s.a) && Writable(t) && t.Repeat? && Stands(ts, s.pos, PrintStmt(t))
    ensures s.pos < |ts| && HeadDone(ts, s.(pos := s.pos + 1), s1, h1, s2, t.until, t.body)
    ensures ParseStmt(ts, s) == PushStmt(s2, While(h1, |s1.a.stmts|, |t.body|)) && AllWritable(t.body)
    ensures !s1.hung && Sound(s1.a)
    decreases t, 0
  {
    hide Sound, ParseExpr, Print, PrintBraced, Printable, ParseBraced, AllWritable, BlockBuilt, ExprDone, HeadDone;
    var Repeat(c, body) := t;
    KeywordStands(ts, s.pos, "while", Print(c, 0) + PrintBraced(body));
    assert Print(c, 0) + PrintBraced(body) == Print(c, 0) + (PrintBraced(body) + []);
    var tops;
    s1, h1, s2, tops := ParsesHead(ts, Step(ts, s), c, body, []);
    ExprPos(Step(ts, s), s1, h1, c, |Print(c, 0)|);
  }

  lemma KeywordStands(ts: Tokens, pos: nat, word: string, p: Tokens)
    requires Stands(ts, pos, [word] + p)
    ensures pos < |ts| && Peek(ts, pos) == word && Stands(ts, pos + 1, p)
  {
    StandsSplit(ts, pos, [word], p);
    StandsOne(ts, pos, word);
  }

  lemma ExprPos(s: S, s1: S, h: nat, e: Tree, n: nat)
    requires ExprDone(s, s1, h, e, n)
    ensures !s1.hung && s1.pos == s.pos + n && Sound(s1.a)
  {}

  lemma BlockPos(s: S, s1: S, ss: seq<Statement>, n: nat)
    requires BlockBuilt(s, s1, ss, n)
    ensures s1.pos == s.pos + n && !s1.hung && Sound(s1.a)
  {}

  lemma RepeatBuilt(s: S, s1: S, s2: S, t: Statement, h1: nat, n: nat, m: nat)
    requires t.Repeat? && m > 0 && ExprDone(s.(pos := s.pos + 1), s1, h1, t.until, n)
    requires BlockBuilt(s1.(pos := s1.pos + 1), s2, t.body, m - 1)
    ensures StmtBuilt(s, PushStmt(s2, While(h1, |s1.a.stmts|, |t.body|)).0, |s2.a.stmts| + 1, t, 1 + n + m)
  {
    hide Sound, Decode, Zeroed, Flat, Whole, Extends, StmtWhole, RangeReads, BlockFlat, BlockZeroed;
    var st, start, k := While(h1, |s1.a.stmts|, |t.body|), |s1.a.stmts|, |t.body|;
    var a2 := s2.a.(stmts := s2.a.stmts + [st]);
    BlockRead(s1, s2, t.body, st, m - 1);
    DecodeExtends(s1.a, s2.a, h1);
    ExprKept(s2.a, st, h1);
    var d := DecodeStmt(a2, |a2.stmts|);
    assert d == Repeat(Decode(a2, h1), DecodeRange(a2, start, k));
    RepeatWhole(d);
    NothingAdded(s.a, s1.a);
    AddedMore(s.a, s1.a, s2.a);
    AddStmt(s.a, s2.a, st);
    PushStmtSound(s2, st);
  }

  lemma RepeatWhole(t: Statement)
    requires t.Repeat? && Whole(t.until) && BlockWhole(t.body)
    ensures StmtWhole(t)
  {}

  /** The range of a block that was parsed, read behind the statement that owns it. */
  lemma BlockRead(s1: S, s2: S, ss: seq<Statement>, st: Stmt, n: nat)
    requires BlockBuilt(s1.(pos := s1.pos + 1), s2, ss, n)
    ensures var a2, start := s2.a.(stmts := s2.a.stmts + [st]), |s1.a.stmts|;
            && BlockWhole(DecodeRange(a2, start, |ss|))
            && (DecodeRange(a2, start, |ss|) == BlockZeroed(ss) <==> BlockFlat(ss))
  {
    hide DecodeStmt, StmtWhole, StmtZeroed, BlockFlat, Sound;
    var a2, start := s2.a.(stmts := s2.a.stmts + [st]), |s1.a.stmts|;
    forall g | start < g <= |s2.a.stmts|
      ensures DecodeStmt(a2, g) == DecodeStmt(s2.a, g)
    {
      DecodeStmtExtends(s2.a, a2, g);
    }
    RangeWhole(a2, start, |ss|);
    RangeIsBlock(a2, start, ss);
    assert RangeReads(a2, start, ss) <==> RangeReads(s2.a, start, ss);
  }

  lemma {:induction false} ParsesChoose(ts: Tokens, s: S, t: Statement) returns (s': S, h: nat)
    requires s.pos <= |ts| && !s.hung && Sound(s.a) && Writable(t) && t.Choose? && Stands(ts, s.pos, PrintStmt(t))
    requires Peek(ts, s.pos + |PrintStmt(t)|) != "else"
    ensures ParseStmt(ts, s) == (s', h) && StmtBuilt(s, s', h, t, |PrintStmt(t)|)
    decreases t, 1
  {
    hide Sound, Print, PrintBraced, Writable, ParseBraced, BlockBuilt, StmtBuilt, ExprDone, ParseStmt, Stands;
    if t.els == [] {
      var s1, h1, s2 := ThenParts(ts, s, t);
      var r := PushStmt(s2, If(h1, |s1.a.stmts|, |t.thn|, 0, 0));
      s', h := r.0, r.1;
      ThenBuilt(s, s1, s2, t, h1, |Print(t.cond, 0)|, |PrintBraced(t.thn)|);
    } else {
      var s1, h1, s2, s3 := ElseParts(ts, s, t);
      var r := PushStmt(s3, If(h1, |s1.a.stmts|, |t.thn|, |s2.a.stmts|, |t.els|));
      s', h := r.0, r.1;
      ElseBuilt(s, s1, s2, s3, t, h1, |Print(t.cond, 0)|, |PrintBraced(t.thn)|, |PrintBraced(t.els)|);
    }
  }

  /** A conditional without an `else`: the condition, the block, and the node that is pushed behind them. */
  lemma {:induction false} ThenParts(ts: Tokens, s: S, t: Statement) returns (s1: S, h1: nat, s2: S)
    requires s.pos <= |ts| && !s.hung && Sound(s.a) && Writable(t) && t.Choose? && t.els == []
    requires Stands(ts, s.pos, PrintStmt(t))
    requires Peek(ts, s.pos + |PrintStmt(t)|) != "else"
    ensures s.pos < |ts| && HeadDone(ts, s.(pos := s.pos + 1), s1, h1, s2, t.cond, t.thn)
    ensures ParseStmt(ts, s) == PushStmt(s2, If(h1, |s1.a.stmts|, |t.thn|, 0, 0)) && AllWritable(t.thn)
    ensures !s1.hung && Sound(s1.a)
    decreases t, 0
  {
    hide Sound, ParseExpr, Print, PrintBraced, Printable, ParseBraced, AllWritable, BlockBuilt, ExprDone, ParseStmt,
         HeadDone;
    var Choose(c, thn, _) := t;
    assert PrintStmt(t) == ["if"] + (Print(c, 0) + (PrintBraced(thn) + []));
    KeywordStands(ts, s.pos, "if", Print(c, 0) + (PrintBraced(thn) + []));
    var tops;
    s1, h1, s2, tops := ParsesHead(ts, Step(ts, s), c, thn, []);
    ExprPos(Step(ts, s), s1, h1, c, |Print(c, 0)|);
    IfThen(ts, s, s1, h1, s2, tops);
  }

  /** A conditional with an `else`. */
  lemma {:induction false} ElseParts(ts: Tokens, s: S, t: Statement) returns (s1: S, h1: nat, s2: S, s3: S)
    requires s.pos <= |ts| && !s.hung && Sound(s.a) && Writable(t) && t.Choose? && t.els != []
    requires Stands(ts, s.pos, PrintStmt(t))
    ensures s.pos < |ts| && HeadDone(ts, s.(pos := s.pos + 1), s1, h1, s2, t.cond, t.thn)
    ensures !s1.hung && Sound(s1.a) && s2.pos + 1 <= |ts| && !s2.hung && Sound(s2.a)
    ensures Stands(ts, s2.pos + 1, PrintBraced(t.els)) && ParseBraced(ts, s2.(pos := s2.pos + 1)).0 == s3
    ensures PrintBraced(t.els) != [] && BlockBuilt(s2.(pos := s2.pos + 2), s3, t.els, |PrintBraced(t.els)| - 1)
    ensures ParseStmt(ts, s) == PushStmt(s3, If(h1, |s1.a.stmts|, |t.thn|, |s2.a.stmts|, |t.els|))
    ensures AllWritable(t.thn) && AllWritable(t.els)
    decreases t, 0
  {
    hide Sound, ParseExpr, Print, PrintBraced, Printable, ParseBraced, AllWritable, BlockBuilt, ExprDone, ParseStmt,
         HeadDone;
    var Choose(c, thn, els) := t;
    KeywordStands(ts, s.pos, "if", Print(c, 0) + (PrintBraced(thn) + (["else"] + PrintBraced(els))));
    var tops;
    s1, h1, s2, tops := ParsesHead(ts, Step(ts, s), c, thn, ["else"] + PrintBraced(els));
    ExprPos(Step(ts, s), s1, h1, c, |Print(c, 0)|);
    KeywordStands(ts, s2.pos, "else", PrintBraced(els));
    var more;
    s3, more := ParsesBraced(ts, Step(ts, s2), els);
    IfThenElse(ts, s, s1, h1, s2, tops, s3, more);
  }

  lemma IfThen(ts: Tokens, s: S, s1: S, h1: nat, s2: S, tops: seq<nat>)
    requires s.pos <= |ts| && Peek(ts, s.pos) == "if" && ParseExpr(ts, Step(ts, s)) == (s1, h1) && !s1.hung
    requires s1.pos <= |ts| && ParseBraced(ts, s1) == (s2, tops) && !s2.hung && Peek(ts, s2.pos) != "else"
    ensures ParseStmt(ts, s) == PushStmt(s2, If(h1, |s1.a.stmts|, |tops|, 0, 0))
  {
    hide ParseExpr, ParseBraced;
  }

  lemma IfThenElse(ts: Tokens, s: S, s1: S, h1: nat, s2: S, tops: seq<nat>, s3: S, more: seq<nat>)
    requires s.pos <= |ts| && Peek(ts, s.pos) == "if" && ParseExpr(ts, Step(ts, s)) == (s1, h1) && !s1.hung
    requires s1.pos <= |ts| && ParseBraced(ts, s1) == (s2, tops) && !s2.hung && Peek(ts, s2.pos) == "else"
    requires s2.pos <= |ts| && ParseBraced(ts, Step(ts, s2)) == (s3, more) && !s3.hung
    ensures ParseStmt(ts, s) == PushStmt(s3, If(h1, |s1.a.stmts|, |tops|, |s2.a.stmts|, |more|))
  {
    hide ParseExpr, ParseBraced;
  }

  lemma ChooseWhole(t: Statement)
    requires t.Choose? && Whole(t.cond) && BlockWhole(t.thn) && BlockWhole(t.els)
    ensures StmtWhole(t)
  {}

  /** A conditional without an `else`. */
  lemma ThenBuilt(s: S, s1: S, s2: S, t: Statement, h1: nat, n: nat, m: nat)
    requires t.Choose? && t.els == [] && m > 0 && ExprDone(s.(pos := s.pos + 1), s1, h1, t.cond, n)
    requires BlockBuilt(s1.(pos := s1.pos + 1), s2, t.thn, m - 1)
    ensures StmtBuilt(s, PushStmt(s2, If(h1, |s1.a.stmts|, |t.thn|, 0, 0)).0, |s2.a.stmts| + 1, t, 1 + n + m)
  {
    hide Sound, Decode, Zeroed, Flat, Whole, Extends, StmtWhole, RangeReads, BlockFlat;
    var st, start, k := If(h1, |s1.a.stmts|, |t.thn|, 0, 0), |s1.a.stmts|, |t.thn|;
    var a2 := s2.a.(stmts := s2.a.stmts + [st]);
    BlockRead(s1, s2, t.thn, st, m - 1);
    DecodeExtends(s1.a, s2.a, h1);
    ExprKept(s2.a, st, h1);
    var d := DecodeStmt(a2, |a2.stmts|);
    EmptyBlock(a2);
    assert d == Choose(Decode(a2, h1), DecodeRange(a2, start, k), []);
    ChooseWhole(d);
    NothingAdded(s.a, s1.a);
    AddedMore(s.a, s1.a, s2.a);
    AddStmt(s.a, s2.a, st);
    PushStmtSound(s2, st);
  }

  lemma ExtendsMore(a: Arena, b: Arena, c: Arena)
    ensures Extends(a, a) && (Extends(a, b) && Extends(b, c) ==> Extends(a, c))
  {}

  lemma EmptyBlock(a: Arena)
    ensures DecodeRange(a, 0, 0) == [] && BlockZeroed([]) == [] && BlockWhole([]) && BlockFlat([])
  {}

  /** The range of a block still reads the same after a second block and the owner of both. */
  lemma BlockReadLater(s1: S, s2: S, a3: Arena, ss: seq<Statement>, st: Stmt, n: nat)
    requires BlockBuilt(s1.(pos := s1.pos + 1), s2, ss, n) && StmtsExtend(s2.a, a3)
    ensures var a4, start := a3.(stmts := a3.stmts + [st]), |s1.a.stmts|;
            && BlockWhole(DecodeRange(a4, start, |ss|))
            && (DecodeRange(a4, start, |ss|) == BlockZeroed(ss) <==> BlockFlat(ss))
  {
    hide DecodeStmt, StmtWhole, StmtZeroed, BlockFlat, Sound;
    var a4, start := a3.(stmts := a3.stmts + [st]), |s1.a.stmts|;
    forall g | start < g <= |s2.a.stmts|
      ensures DecodeStmt(a4, g) == DecodeStmt(s2.a, g)
    {
      DecodeStmtExtends(s2.a, a4, g);
    }
    RangeWhole(a4, start, |ss|);
    RangeIsBlock(a4, start, ss);
    assert RangeReads(a4, start, ss) <==> RangeReads(s2.a, start, ss);
  }

  /** A conditional with an `else`. */
  lemma ElseBuilt(s: S, s1: S, s2: S, s3: S, t: Statement, h1: nat, n: nat, m: nat, k: nat)
    requires t.Choose? && t.els != [] && m > 0 && k > 0 && ExprDone(s.(pos := s.pos + 1), s1, h1, t.cond, n)
    requires BlockBuilt(s1.(pos := s1.pos + 1), s2, t.thn, m - 1)
    requires BlockBuilt(s2.(pos := s2.pos + 2), s3, t.els, k - 1)
    ensures StmtBuilt(s, PushStmt(s3, If(h1, |s1.a.stmts|, |t.thn|, |s2.a.stmts|, |t.els|)).0, |s3.a.stmts| + 1, t,
            2 + n + m + k)
  {
    hide Sound, Decode, Zeroed, Flat, Whole, Extends, StmtWhole, RangeReads, BlockFlat, BlockZeroed;
    var st := If(h1, |s1.a.stmts|, |t.thn|, |s2.a.stmts|, |t.els|);
    var a4 := s3.a.(stmts := s3.a.stmts + [st]);
    ExtendsMore(s3.a, s3.a, s3.a);
    ExtendsMore(s1.a, s2.a, s3.a);
    BlockReadLater(s1, s2, s3.a, t.thn, st, m - 1);
    BlockReadLater(s2.(pos := s2.pos + 1), s3, s3.a, t.els, st, k - 1);
    DecodeExtends(s1.a, s3.a, h1);
    ExprKept(s3.a, st, h1);
    var d := DecodeStmt(a4, |a4.stmts|);
    assert d == Choose(Decode(a4, h1), DecodeRange(a4, |s1.a.stmts|, |t.thn|), DecodeRange(a4, |s2.a.stmts|, |t.els|));
    ChooseWhole(d);
    NothingAdded(s.a, s1.a);
    AddedMore(s.a, s1.a, s2.a);
    AddedMore(s.a, s2.a, s3.a);
    AddStmt(s.a, s3.a, st);
    PushStmtSound(s3, st);
  }

  // -------------------------------------------------------------------- main theorems --

  /** Printing a statement and parsing it takes exactly the printed tokens and reads the statement back, with
      every literal zero, if and only if no call argument in it contains a call with arguments and no
      statement of a block has a block. */
  lemma StmtRoundTrip(ts: Tokens, s: S, t: Statement)
    requires s.pos <= |ts| && !s.hung && Sound(s.a) && Writable(t) && Stands(ts, s.pos, PrintStmt(t))
    requires Peek(ts, s.pos + |PrintStmt(t)|) != "else"
    ensures var (s', h) := ParseStmt(ts, s);
            && !s'.hung && s'.pos == s.pos + |PrintStmt(t)| && h == |s'.a.stmts|
            && (DecodeStmt(s'.a, h) == StmtZeroed(t) <==> StmtFlat(t))
  {
    hide PrintStmt, ParseStmt, DecodeStmt, StmtZeroed, StmtFlat, Sound;
    var s', h := ParsesStatement(ts, s, t);
  }

  /** The same of a whole block: every statement of the range that its owner records can be read back. */
  lemma BlockRoundTrip(ts: Tokens, s: S, ss: seq<Statement>)
    requires s.pos <= |ts| && !s.hung && Sound(s.a) && AllWritable(ss) && Stands(ts, s.pos, PrintBraced(ss))
    ensures var (s', tops) := ParseBraced(ts, s);
            && !s'.hung && s'.pos == s.pos + |PrintBraced(ss)| && Sound(s'.a) && |tops| == |ss|
            && BlockWhole(DecodeRange(s'.a, |s.a.stmts|, |tops|))
            && (DecodeRange(s'.a, |s.a.stmts|, |tops|) == BlockZeroed(ss) <==> BlockFlat(ss))
  {
    hide PrintBraced, ParseBraced, DecodeStmt, StmtZeroed, BlockFlat, Sound, StmtWhole;
    var s', tops := ParsesBraced(ts, s, ss);
    RangeWhole(s'.a, |s.a.stmts|, |ss|);
    RangeIsBlock(s'.a, |s.a.stmts|, ss);
  }
}
