/** Parser and emitter together: from the tokens of statements and functions to runs of the emitted code. */
module Compilation {
  import opened Options
  import opened Ast
  import opened Machine
  import opened StmtTrip
  import opened FuncTrip
  import opened Flattening
  import ParserSpec
  import ArenaShape
  import Digits
  import Emitter
  import Lexer
  import LexerLaws
  import LocalNames
  import RoundTrip
  import Preservation
  import Pipeline

  type Tree = RoundTrip.Tree

  // --------------------------------------------------- what the source text means --

  function IntValue(t: Tree, env: Env): Option<int> {
    match Pipeline.Value(t, env) case Some(I32(n)) => Some(n) case _ => None
  }

  /** A condition: a comparison, or one of the literals 0 and 1. */
  function Holds(t: Tree, env: Env): Option<bool> {
    match t
    case Num(n) => if n == 0 then Some(false) else if n == 1 then Some(true) else None
    case _ => match Pipeline.Value(t, env) case Some(I1(b)) => Some(b) case _ => None
  }

  /** What a statement does, as a reader of the source sees it; every loop iteration uses up one unit of `fuel`. */
  function Exec(t: Statement, env: Env, fuel: nat): Result
    decreases fuel, t, 0
  {
    match t
    case Declare(x, init) =>
      if init.None? then Normal(env[x := None]) else
        var v := IntValue(init.value, env);
        if v.Some? then Normal(env[x := v]) else Fault
    case Set(place, source) =>
      var v := IntValue(source, env);
      if v.Some? && place.Id? && place.name in env then Normal(env[place.name := v]) else Fault
    case Leave(result) =>
      if result.None? then Returned(0, env) else
        var v := IntValue(result.value, env);
        if v.Some? then Returned(v.value, env) else Fault
    case Choose(cond, thn, els) =>
      var b := Holds(cond, env);
      if b.None? then Fault else if b.value then ExecBlock(thn, env, fuel) else ExecBlock(els, env, fuel)
    case Repeat(cond, body) =>
      if fuel == 0 then Timeout else
        var b := Holds(cond, env);
        if b.None? then Fault
        else if !b.value then Normal(env)
        else
          var r := ExecBlock(body, env, fuel);
          if r.Normal? then Exec(t, r.env, fuel - 1) else r
    case Do(e) => if Pipeline.Value(e, env).Some? then Normal(env) else Fault
    case _ => Fault
  }

  function ExecBlock(ss: seq<Statement>, env: Env, fuel: nat): Result
    decreases fuel, ss, 1
  {
    if ss == [] then Normal(env) else
      var n := |ss| - 1;
      var r := ExecBlock(ss[..n], env, fuel);
      if r.Normal? then Exec(ss[n], r.env, fuel) else r
  }

  function Arguments(ps: seq<Parameter>, args: seq<int>): Env
    requires |args| <= |ps|
  {
    if args == [] then map[] else
      var n := |args| - 1;
      Arguments(ps, args[..n])[ps[n].name := Some(args[n])]
  }

  /** A call of a function. Falling off the end returns zero. */
  function Call(f: Function, args: seq<int>, fuel: nat): Result
    requires |args| == |f.params|
  {
    var r := ExecBlock(f.body, Arguments(f.params, args), fuel);
    if r.Normal? then Returned(0, r.env) else r
  }

  // ---------------------------------------------------------- the part that is covered --

  predicate Mentioned(t: Tree, x: string) {
    match t
    case Id(y) => x == y
    case Bi(l, _, r) => Mentioned(l, x) || Mentioned(r, x)
    case _ => false
  }

  /** Statements of the kinds that have a meaning. The names in `selves` are exactly those that an initialiser
      declares while mentioning them. */
  predicate Covered(t: Statement, selves: set<string>)
    decreases t, 0
  {
    match t
    case Declare(x, v) =>
      && PlainName(x) && (v.Some? ==> Pipeline.Compilable(v.value))
      && (x in selves <==> v.Some? && Mentioned(v.value, x))
    case Set(p, e) => p.Id? && Pipeline.Compilable(e)
    case Leave(r) => r.Some? ==> Pipeline.Compilable(r.value)
    case Choose(c, thn, els) => Pipeline.Compilable(c) && BlockCovered(thn, selves) && BlockCovered(els, selves)
    case Repeat(c, body) => Pipeline.Compilable(c) && BlockCovered(body, selves)
    case Do(e) => Pipeline.Compilable(e)
    case _ => false
  }

  predicate BlockCovered(ss: seq<Statement>, selves: set<string>)
    decreases ss, 1
  {
    forall i :: 0 <= i < |ss| ==> Covered(ss[i], selves)
  }

  // ------------------------------------------------- the arena means what can be read back --

  lemma {:induction false} MentionsAlike(a: Arena, h: nat, x: string)
    requires Acyclic(a) && Pipeline.Compilable(RoundTrip.Decode(a, h))
    ensures 1 <= h <= |a.exprs| && Mentions(a, h - 1, x) == Mentioned(RoundTrip.Decode(a, h), x)
    decreases h
  {
    hide Acyclic, HasOpcode, Digits.Palindrome;
    match a.exprs[h - 1] {
      case Binary(l, op, r) =>
        assert RoundTrip.Decode(a, h) == RoundTrip.Bi(RoundTrip.Decode(a, l), op, RoundTrip.Decode(a, r));
        MentionsAlike(a, l, x);
        MentionsAlike(a, r, x);
      case _ =>
    }
  }

  /** An expression is covered and has the value of the tree that can be read back. */
  lemma ValueAlike(a: Arena, h: nat, env: Env)
    requires Acyclic(a) && Pipeline.Compilable(RoundTrip.Decode(a, h))
    ensures 1 <= h <= |a.exprs| && ExprCovered(a, h - 1)
    ensures Eval(a, h - 1, env) == Pipeline.Value(RoundTrip.Decode(a, h), env)
    ensures EvalInt(a, h - 1, env) == IntValue(RoundTrip.Decode(a, h), env)
    ensures EvalCond(a, h - 1, env) == Holds(RoundTrip.Decode(a, h), env)
  {
    hide Acyclic, ExprCovered, Eval, Pipeline.Value, Pipeline.Compilable;
    Pipeline.DecodedMeaning(a, h, env);
    NumAlike(a, h);
  }

  lemma NumAlike(a: Arena, h: nat)
    requires 1 <= h <= |a.exprs|
    ensures var d := RoundTrip.Decode(a, h);
            (d.Num? <==> a.exprs[h - 1].IntLit?) && (d.Num? ==> d.n == a.exprs[h - 1].n)
  {}

  /** A statement does in the arena what the statement that can be read back does. */
  lemma {:induction false} StmtAlike(a: Arena, h: nat, env: Env, fuel: nat, selves: set<string>)
    requires Acyclic(a) && Covered(DecodeStmt(a, h), selves)
    ensures 1 <= h <= |a.stmts| && StmtCovered(a, h - 1, selves)
    ensures ExecStmt(a, h - 1, env, fuel) == Exec(DecodeStmt(a, h), env, fuel)
    decreases fuel, h, 0
  {
    hide Acyclic, ExprCovered, Eval, EvalInt, EvalCond, IntValue, Holds, Mentions, Mentioned, Pipeline.Value,
         Pipeline.Compilable, RoundTrip.Decode, PlainName;
    Known(a, h, selves);
    match a.stmts[h - 1] {
      case If(_, _, _, _, _) => ChooseAlike(a, h, env, fuel, selves);
      case While(_, _, _) => RepeatAlike(a, h, env, fuel, selves);
      case _ => LeafAlike(a, h, env, fuel, selves);
    }
  }

  lemma Known(a: Arena, h: nat, selves: set<string>)
    requires Covered(DecodeStmt(a, h), selves)
    ensures 1 <= h <= |a.stmts|
  {}

  lemma LeafAlike(a: Arena, h: nat, env: Env, fuel: nat, selves: set<string>)
    requires Acyclic(a) && Covered(DecodeStmt(a, h), selves) && 1 <= h <= |a.stmts| && !a.stmts[h - 1].If?
    requires !a.stmts[h - 1].While?
    ensures StmtCovered(a, h - 1, selves) && ExecStmt(a, h - 1, env, fuel) == Exec(DecodeStmt(a, h), env, fuel)
  {
    hide Acyclic, ExprCovered, Eval, EvalInt, EvalCond, IntValue, Holds, Mentions, Mentioned, Pipeline.Value,
         Pipeline.Compilable, RoundTrip.Decode, PlainName;
    match a.stmts[h - 1] {
      case Let(_, _, _) => LetAlike(a, h, env, fuel, selves);
      case Return(v) => if v != 0 { ValueAlike(a, v, env); }
      case Assign(p, e) => ValueAlike(a, e, env); PlaceAlike(a, p);
      case ExprStmt(e) => ValueAlike(a, e, env);
      case _ =>
    }
  }

  lemma LetAlike(a: Arena, h: nat, env: Env, fuel: nat, selves: set<string>)
    requires Acyclic(a) && Covered(DecodeStmt(a, h), selves) && 1 <= h <= |a.stmts| && a.stmts[h - 1].Let?
    ensures StmtCovered(a, h - 1, selves) && ExecStmt(a, h - 1, env, fuel) == Exec(DecodeStmt(a, h), env, fuel)
  {
    hide Acyclic, ExprCovered, Eval, EvalInt, IntValue, Mentions, Mentioned, Pipeline.Compilable, RoundTrip.Decode,
         PlainName;
    var Let(x, _, init) := a.stmts[h - 1];
    if init != 0 {
      ValueAlike(a, init, env);
      MentionsAlike(a, init, x);
    }
  }

  lemma PlaceAlike(a: Arena, h: nat)
    requires RoundTrip.Decode(a, h).Id?
    ensures 1 <= h <= |a.exprs| && a.exprs[h - 1] == Ident(RoundTrip.Decode(a, h).name)
  {}

  lemma {:induction false} ChooseAlike(a: Arena, h: nat, env: Env, fuel: nat, selves: set<string>)
    requires Acyclic(a) && Covered(DecodeStmt(a, h), selves) && 1 <= h <= |a.stmts| && a.stmts[h - 1].If?
    ensures StmtCovered(a, h - 1, selves) && ExecStmt(a, h - 1, env, fuel) == Exec(DecodeStmt(a, h), env, fuel)
    decreases fuel, h, -1
  {
    hide Acyclic, ExprCovered, Eval, EvalInt, EvalCond, IntValue, Holds, Mentions, Mentioned, Pipeline.Value,
         Pipeline.Compilable, RoundTrip.Decode, PlainName, DecodeRange, RangeCovered, BlockCovered, ExecRange,
         ExecBlock;
    var If(c, ts, tc, es, ec) := a.stmts[h - 1];
    ValueAlike(a, c, env);
    RangeAlike(a, ts, tc, env, fuel, selves);
    RangeAlike(a, es, ec, env, fuel, selves);
  }

  lemma {:induction false} RepeatAlike(a: Arena, h: nat, env: Env, fuel: nat, selves: set<string>)
    requires Acyclic(a) && Covered(DecodeStmt(a, h), selves) && 1 <= h <= |a.stmts| && a.stmts[h - 1].While?
    ensures StmtCovered(a, h - 1, selves) && ExecStmt(a, h - 1, env, fuel) == Exec(DecodeStmt(a, h), env, fuel)
    decreases fuel, h, -1
  {
    hide Acyclic, ExprCovered, Eval, EvalInt, EvalCond, IntValue, Holds, Mentions, Mentioned, Pipeline.Value,
         Pipeline.Compilable, RoundTrip.Decode, PlainName;
    var While(c, bs, bc) := a.stmts[h - 1];
    ValueAlike(a, c, env);
    RangeAlike(a, bs, bc, env, fuel, selves);
    var r := ExecRange(a, bs, bc, env, fuel);
    if fuel > 0 && r.Normal? {
      StmtAlike(a, h, r.env, fuel - 1, selves);
    }
  }

  lemma {:induction false} RangeAlike(a: Arena, start: nat, n: nat, env: Env, fuel: nat, selves: set<string>)
    requires Acyclic(a) && start + n <= |a.stmts| && BlockCovered(DecodeRange(a, start, n), selves)
    ensures RangeCovered(a, start, n, selves)
    ensures ExecRange(a, start, n, env, fuel) == ExecBlock(DecodeRange(a, start, n), env, fuel)
    decreases fuel, start + n, 1, n
  {
    hide Acyclic, ExecStmt, Exec, StmtCovered, Covered, DecodeStmt;
    if n > 0 {
      var all, before := DecodeRange(a, start, n), DecodeRange(a, start, n - 1);
      assert all[..n - 1] == before && all[n - 1] == DecodeStmt(a, start + n);
      forall i | 0 <= i < n - 1 ensures Covered(before[i], selves) { assert all[i] == before[i]; }
      RangeAlike(a, start, n - 1, env, fuel, selves);
      var r := ExecRange(a, start, n - 1, env, fuel);
      StmtAlike(a, start + n, if r.Normal? then r.env else env, fuel, selves);
    }
  }

  // ------------------------------------------------------------- what is pushed is covered --

  /** Of a covered statement everything that is pushed is covered, and its expressions are read back. */
  lemma {:induction false} PushedCovered(t: Statement, selves: set<string>)
    requires Covered(StmtZeroed(t), selves)
    ensures BlockCovered(Pushed(t), selves) && ExprsFlat(t)
    decreases t
  {
    hide Pipeline.Compilable, RoundTrip.Zeroed, RoundTrip.Flat, PlainName, Mentioned;
    match t {
      case Choose(c, thn, els) =>
        Pipeline.CompilableFlat(c);
        AllPushedCovered(thn, selves);
        AllPushedCovered(els, selves);
      case Repeat(c, body) =>
        Pipeline.CompilableFlat(c);
        AllPushedCovered(body, selves);
      case _ => SimpleFlat(t, selves);
    }
  }

  lemma IdFlat(t: Tree)
    requires RoundTrip.Zeroed(t).Id?
    ensures RoundTrip.Flat(t)
  {}

  lemma SimpleFlat(t: Statement, selves: set<string>)
    requires Covered(StmtZeroed(t), selves) && !t.Choose? && !t.Repeat?
    ensures StmtFlat(t)
  {
    hide Pipeline.Compilable, RoundTrip.Flat, PlainName, Mentioned;
    match t {
      case Declare(_, v) => if v.Some? { Pipeline.CompilableFlat(v.value); }
      case Leave(r) => if r.Some? { Pipeline.CompilableFlat(r.value); }
      case Set(p, e) => IdFlat(p); Pipeline.CompilableFlat(e);
      case Do(e) => Pipeline.CompilableFlat(e);
      case _ =>
    }
  }

  lemma {:induction false} AllPushedCovered(ss: seq<Statement>, selves: set<string>)
    requires BlockCovered(BlockZeroed(ss), selves)
    ensures BlockCovered(PushedAll(ss), selves) && BlockCovered(Shifted(ss), selves) && BlockExprsFlat(ss)
    decreases ss
  {
    hide Covered, ExprsFlat, StmtZeroed, Pushed;
    if ss != [] {
      assert BlockZeroed(ss)[0] == StmtZeroed(ss[0]);
      PushedCovered(ss[0], selves);
      forall i | 0 <= i < |ss| - 1
        ensures Covered(BlockZeroed(ss[1..])[i], selves)
      {
        assert Covered(BlockZeroed(ss)[i + 1], selves);
      }
      AllPushedCovered(ss[1..], selves);
    }
  }

  // ---------------------------------------------------------------------- statements --

  /** The statement as it is read back from its own node. */
  function ReadBack(t: Statement): Statement { Pushed(t)[|Pushed(t)| - 1] }

  /** From the tokens of a statement to the machine. A statement is parsed into any sound arena, and the code
      of the new node is run from anywhere in any code with unique labels: it does what the statement does as
      it is read back, loops and early returns included. */
  lemma CompiledStatement(ts: ParserSpec.Tokens, s: ParserSpec.S, t: Statement, k: nat, l: nat,
                          c: seq<Emitter.Instr>, pc: nat, regs: Regs, fuel: nat, selves: set<string>)
    returns (n: nat, regs': Regs)
    requires s.pos <= |ts| && !s.hung && ArenaShape.Sound(s.a) && Writable(t)
    requires RoundTrip.Stands(ts, s.pos, PrintStmt(t)) && ParserSpec.Peek(ts, s.pos + |PrintStmt(t)|) != "else"
    requires Covered(StmtZeroed(t), selves) && LocalNames.UniqueLabels(c) && Preservation.SlotsPlain(regs)
    requires Preservation.Clear(selves, Preservation.Vars(regs))
    requires var (s', h) := ParserSpec.ParseStmt(ts, s);
             Acyclic(s'.a) && 1 <= h <= |s'.a.stmts| ==>
               Preservation.At(c, pc, Emitter.StmtCode(s'.a, h - 1, k, l).code)
    ensures var (s', h) := ParserSpec.ParseStmt(ts, s);
            && Acyclic(s'.a) && 1 <= h <= |s'.a.stmts|
            && Preservation.Simulates(c, State(pc, regs), pc + |Emitter.StmtCode(s'.a, h - 1, k, l).code|,
                                      Exec(ReadBack(t), Preservation.Vars(regs), fuel), fuel, n, regs')
  {
    hide PrintStmt, ParserSpec.ParseStmt, RoundTrip.Stands, DecodeStmt, StmtZeroed, StmtFlat, Covered, Exec, ExecStmt,
         Preservation.Simulates, Preservation.At, Preservation.SlotsPlain, LocalNames.UniqueLabels, Emitter.StmtCode,
         Preservation.Vars, StmtCovered, Acyclic, Writable, Pushed, ExprsFlat;
    PushedCovered(t, selves);
    StmtRoundTrip(ts, s, t);
    StmtPushes(ts, s, t);
    ArenaShape.StmtSound(ts, s);
    var r := ParserSpec.ParseStmt(ts, s);
    assert DecodeStmt(r.0.a, |s.a.stmts| + (|Pushed(t)| - 1) + 1) == ReadBack(t);
    StmtAlike(r.0.a, r.1, Preservation.Vars(regs), fuel, selves);
    n, regs' := Preservation.StmtSim(r.0.a, r.1 - 1, k, l, c, pc, regs, fuel, selves);
  }

  // ---------------------------------------------------------------------- functions --

  predicate PlainParams(ps: seq<Parameter>, selves: set<string>) {
    && (forall i :: 0 <= i < |ps| ==> PlainName(ps[i].name) && ps[i].name !in selves)
    && (forall i, j :: 0 <= i < j < |ps| ==> ps[i].name != ps[j].name)
  }

  /** The function with its body as it is read back. */
  function FuncShifted(f: Function): Function { f.(body := Shifted(f.body)) }

  /** The parameters of the function at handle `h` are those of `f`. */
  lemma KeptNames(a: Arena, h: nat, f: Function, isSafe: bool)
    requires HeadKept(a, h, f, isSafe)
    ensures var d := a.funcs[h - 1];
            && d.paramCount == |f.params| && d.paramStart + d.paramCount == |a.params|
            && forall j :: d.paramStart <= j < |a.params| ==> a.params[j].name == f.params[j - d.paramStart].name
  {
    var d := a.funcs[h - 1];
    forall j | d.paramStart <= j < |a.params| ensures a.params[j].name == f.params[j - d.paramStart].name {
      assert a.params[d.paramStart..][j - d.paramStart] == Kept(f.params)[j - d.paramStart];
    }
  }

  lemma {:induction false} ArgumentsAlike(a: Arena, start: nat, ps: seq<Parameter>, args: seq<int>)
    requires |args| <= |ps| && start + |ps| <= |a.params|
    requires forall j :: start <= j < start + |ps| ==> a.params[j].name == ps[j - start].name
    ensures ParamEnv(a, start, args) == Arguments(ps, args)
    decreases |args|
  {
    if args != [] {
      ArgumentsAlike(a, start, ps, args[..|args| - 1]);
    }
  }

  /** The parameters and the body that are read back are covered, so the recorded function is. */
  lemma CoveredFunc(a: Arena, h: nat, f: Function, isSafe: bool, selves: set<string>)
    requires Acyclic(a) && HeadKept(a, h, f, isSafe) && PlainParams(f.params, selves)
    requires var d := a.funcs[h - 1];
             d.bodyStart + d.bodyCount <= |a.stmts| && RangeCovered(a, d.bodyStart, d.bodyCount, selves)
    ensures FuncCovered(a, h - 1, selves)
  {
    hide Acyclic, RangeCovered, PlainName, HeadKept;
    KeptNames(a, h, f, isSafe);
  }

  lemma FuncAlike(a: Arena, h: nat, f: Function, isSafe: bool, args: seq<int>, fuel: nat, selves: set<string>)
    requires Acyclic(a) && HeadKept(a, h, f, isSafe) && |args| == |f.params| && PlainParams(f.params, selves)
    requires DecodeRange(a, a.funcs[h - 1].bodyStart, a.funcs[h - 1].bodyCount) == Shifted(f.body)
    requires BlockCovered(Shifted(f.body), selves)
    ensures FuncCovered(a, h - 1, selves) && a.funcs[h - 1].paramCount == |args|
    ensures ExecFunc(a, h - 1, args, fuel) == Call(FuncShifted(f), args, fuel)
  {
    hide *;
    HeadNamed(a, h, f, isSafe);
    var d := a.funcs[h - 1];
    BodyInside(a, h - 1);
    KeptNames(a, h, f, isSafe);
    ArgumentsAlike(a, d.paramStart, f.params, args);
    RangeAlike(a, d.bodyStart, d.bodyCount, Arguments(f.params, args), fuel, selves);
    CoveredFunc(a, h, f, isSafe, selves);
    BodyDecides(a, h - 1, f, args, fuel);
  }

  lemma BodyInside(a: Arena, g: nat)
    requires Acyclic(a) && g < |a.funcs|
    ensures FuncInRange(a, a.funcs[g]) && a.funcs[g].bodyStart + a.funcs[g].bodyCount <= |a.stmts|
  {
    assert FuncInRange(a, a.funcs[g]);
  }

  lemma BodyDecides(a: Arena, g: nat, f: Function, args: seq<int>, fuel: nat)
    requires Acyclic(a) && g < |a.funcs| && |args| == a.funcs[g].paramCount == |f.params| && FuncInRange(a, a.funcs[g])
    requires var d := a.funcs[g];
             && ParamEnv(a, d.paramStart, args) == Arguments(f.params, args)
             && ExecRange(a, d.bodyStart, d.bodyCount, Arguments(f.params, args), fuel)
                == ExecBlock(Shifted(f.body), Arguments(f.params, args), fuel)
    ensures ExecFunc(a, g, args, fuel) == Call(FuncShifted(f), args, fuel)
  {
    hide ExecRange, ExecBlock, ParamEnv, Arguments, Shifted, Acyclic;
  }

  /** The run of a function ends in `r`, for some number of loop iterations. */
  ghost predicate CallEnds(f: Function, args: seq<int>, r: Result)
    requires |args| == |f.params|
  {
    exists fuel: nat :: Call(f, args, fuel) == r
  }

  /** The emitted function never stops. */
  ghost predicate CodeRunsOn(a: Arena, f: nat, l: nat, args: seq<int>)
    requires Acyclic(a) && f < |a.funcs| && |args| == a.funcs[f].paramCount
  {
    forall n: nat :: Preservation.Execution(a, f, l, args, n).Running?
  }

  /** The code of the function with the handle `h` returns exactly what `f` returns, gets stuck exactly when `f`
      has no meaning, and runs forever exactly when `f` does. */
  ghost predicate RunsAs(a: Arena, h: nat, l: nat, f: Function, args: seq<int>, v: int, env: Env)
    requires |args| == |f.params|
  {
    && Acyclic(a) && 1 <= h <= |a.funcs| && a.funcs[h - 1].paramCount == |args|
    && (Preservation.CodeReturns(a, h - 1, l, args, v, env) <==> CallEnds(f, args, Returned(v, env)))
    && (Preservation.CodeGetsStuck(a, h - 1, l, args) <==> CallEnds(f, args, Fault))
    && (CodeRunsOn(a, h - 1, l, args) <==> forall fuel: nat :: Call(f, args, fuel) == Timeout)
  }

  /** From the tokens of a function to the machine. Any function of covered statements, however they are
      nested, is parsed into any sound arena, and its code is run with any arguments: it returns exactly what
      the function returns as it is read back, gets stuck exactly when that has no meaning, and runs forever
      exactly when that does. */
  lemma CompiledFunction(ts: ParserSpec.Tokens, s: ParserSpec.S, isSafe: bool, f: Function, l: nat, args: seq<int>,
                         v: int, env: Env, selves: set<string>)
    requires s.pos <= |ts| && !s.hung && ArenaShape.Sound(s.a) && WritableFunc(f)
    requires RoundTrip.Stands(ts, s.pos, PrintFunc(f))
    requires BlockCovered(BlockZeroed(f.body), selves) && PlainParams(f.params, selves) && |args| == |f.params|
    ensures var (s', h) := ParserSpec.ParseFuncDecl(ts, s, isSafe);
            RunsAs(s'.a, h, l, FuncShifted(f), args, v, env)
  {
    hide RunsAs, PrintFunc, ParserSpec.ParseFuncDecl, RoundTrip.Stands, DecodeRange, BlockZeroed, BlockCovered,
         WritableFunc, PlainParams, Call, CallEnds, CodeRunsOn, Shifted, BlockExprsFlat, PushedAll,
         Preservation.CodeReturns, Preservation.CodeGetsStuck;
    AllPushedCovered(f.body, selves);
    FuncShifts(ts, s, isSafe, f);
    var r := ParserSpec.ParseFuncDecl(ts, s, isSafe);
    Compiled(r.0.a, r.1, f, isSafe, l, args, v, env, selves);
  }

  lemma Compiled(a: Arena, h: nat, f: Function, isSafe: bool, l: nat, args: seq<int>, v: int, env: Env,
                 selves: set<string>)
    requires Acyclic(a) && HeadKept(a, h, f, isSafe) && PlainParams(f.params, selves) && |args| == |f.params|
    requires DecodeRange(a, a.funcs[h - 1].bodyStart, a.funcs[h - 1].bodyCount) == Shifted(f.body)
    requires BlockCovered(Shifted(f.body), selves)
    ensures RunsAs(a, h, l, FuncShifted(f), args, v, env)
  {
    hide *;
    ShiftedHead(f);
    HeadNamed(a, h, f, isSafe);
    FuncAlike(a, h, f, isSafe, args, 0, selves);
    var g: nat, shifted := h - 1, FuncShifted(f);
    forall fuel: nat ensures ExecFunc(a, g, args, fuel) == Call(shifted, args, fuel) {
      FuncAlike(a, h, f, isSafe, args, fuel, selves);
    }
    Preservation.MeaningPreserved(a, g, l, args, v, env, selves);
    SameRuns(a, h, g, l, shifted, args, v, env);
  }

  /** Two functions that do the same end in the same way. */
  lemma SameRuns(a: Arena, h: nat, g: nat, l: nat, f: Function, args: seq<int>, v: int, env: Env)
    requires Acyclic(a) && h == g + 1 && g < |a.funcs| && |args| == a.funcs[g].paramCount == |f.params|
    requires forall fuel: nat :: ExecFunc(a, g, args, fuel) == Call(f, args, fuel)
    requires Preservation.CodeReturns(a, g, l, args, v, env)
             <==> Preservation.SourceEnds(a, g, args, Returned(v, env))
    requires Preservation.CodeGetsStuck(a, g, l, args) <==> Preservation.SourceEnds(a, g, args, Fault)
    requires (forall n: nat :: Preservation.Execution(a, g, l, args, n).Running?)
             <==> (forall fuel: nat :: ExecFunc(a, g, args, fuel) == Timeout)
    ensures RunsAs(a, h, l, f, args, v, env)
  {
    hide Acyclic, ExecFunc, Call, Preservation.CodeReturns, Preservation.CodeGetsStuck, Preservation.Execution;
    assert Preservation.SourceEnds(a, g, args, Returned(v, env)) <==> CallEnds(f, args, Returned(v, env));
    assert Preservation.SourceEnds(a, g, args, Fault) <==> CallEnds(f, args, Fault);
  }

  lemma ShiftedHead(f: Function)
    ensures FuncShifted(f).params == f.params
  {}

  lemma HeadNamed(a: Arena, h: nat, f: Function, isSafe: bool)
    requires HeadKept(a, h, f, isSafe)
    ensures 1 <= h <= |a.funcs|
  {}

  /** A function none of whose statements owns statements, with no literal but zero, is compiled as it was
      written: its code returns what the function returns, gets stuck exactly when the function has no
      meaning, and runs forever exactly when the function does. */
  lemma CompiledAsWritten(ts: ParserSpec.Tokens, s: ParserSpec.S, isSafe: bool, f: Function, l: nat, args: seq<int>,
                          v: int, env: Env, selves: set<string>)
    requires s.pos <= |ts| && !s.hung && ArenaShape.Sound(s.a) && WritableFunc(f)
    requires RoundTrip.Stands(ts, s.pos, PrintFunc(f))
    requires NoNesting(f.body) && BlockNoLiterals(f.body)
    requires BlockCovered(f.body, selves) && PlainParams(f.params, selves) && |args| == |f.params|
    ensures var (s', h) := ParserSpec.ParseFuncDecl(ts, s, isSafe);
            RunsAs(s'.a, h, l, f, args, v, env)
  {
    hide RunsAs, PrintFunc, ParserSpec.ParseFuncDecl, RoundTrip.Stands, BlockZeroed, BlockCovered, PlainParams, Call,
         CallEnds, CodeRunsOn, Shifted, NoNesting, BlockNoLiterals, AllWritable, Preservation.CodeReturns,
         Preservation.CodeGetsStuck;
    BlockZeroedSame(f.body);
    ShiftedAsWritten(f.body);
    assert FuncShifted(f) == f;
    CompiledFunction(ts, s, isSafe, f, l, args, v, env, selves);
  }

  // --------------------------------------------------------------- from characters on --

  predicate AllLexemes(ts: ParserSpec.Tokens) { forall k :: 0 <= k < |ts| ==> Lexer.IsLexeme(ts[k]) }

  /** The text of an operator is a lexeme of some text exactly for five of the sixteen: the lexer knows no
      character for the others, and none of its tokens of two of them. */
  lemma OperatorLexed(op: BinaryOp)
    ensures (exists s, k: nat :: k < |Lexer.Tokens(s)| && Lexer.Tokens(s)[k].lexeme == RoundTrip.OpText(op))
            <==> op in {Add, Mul, Lt, Gt, BitAnd}
  {
    hide Lexer.Tokens, Lexer.IsLexeme;
    var x := RoundTrip.OpText(op);
    LexerLaws.LexemeExactly(x);
    if op in {Add, Mul, Lt, Gt, BitAnd} {
      LexerLaws.PunctuationLexes(x[0], "");
      assert [x[0]] + "" == x;
      assert LexerLaws.Faces(Lexer.Tokens(x))[0].lexeme == x;
      assert 0 < |Lexer.Tokens(x)| && Lexer.Tokens(x)[0].lexeme == x;
    } else {
      forall s, k: nat | k < |Lexer.Tokens(s)|
        ensures Lexer.Tokens(s)[k].lexeme != x
      {
        LexerLaws.EveryLexeme(s, k);
      }
    }
  }

  /** The state before the first token, with nothing parsed. */
  function Start(): ParserSpec.S { ParserSpec.S(0, Arena([], [], [], [], [], [], [], []), 0, false) }

  /** The text of a function: its tokens with a space between each two. */
  function Text(f: Function): string { Lexer.Joined(PrintFunc(f)) }

  /** From characters to the machine. The text of a function is lexed, parsed and emitted, and its code is run:
      it does what the function does as it is read back. */
  lemma CompiledText(f: Function, isSafe: bool, l: nat, args: seq<int>, v: int, env: Env, selves: set<string>)
    requires AllLexemes(PrintFunc(f)) && WritableFunc(f)
    requires BlockCovered(BlockZeroed(f.body), selves) && PlainParams(f.params, selves) && |args| == |f.params|
    ensures var ts := Lexer.Lexemes(Lexer.Tokens(Text(f)));
            var (s', h) := ParserSpec.ParseFuncDecl(ts, Start(), isSafe);
            RunsAs(s'.a, h, l, FuncShifted(f), args, v, env)
  {
    hide RunsAs, PrintFunc, ParserSpec.ParseFuncDecl, BlockZeroed, BlockCovered, PlainParams, Call, CallEnds,
         CodeRunsOn, Shifted, FuncShifted, WritableFunc, Lexer.Tokens, Lexer.Joined, Lexer.IsLexeme,
         Preservation.CodeReturns, Preservation.CodeGetsStuck;
    var ts := PrintFunc(f);
    Lexer.JoinedLexes(ts);
    assert ts[0..|ts|] == ts;
    CompiledFunction(ts, Start(), isSafe, f, l, args, v, env, selves);
  }

  // ------------------------------------------------------------------- an example --

  /** The smaller of two numbers: `if a < b { return a; } return b;` */
  function Min(): Function {
    var a, b := RoundTrip.Id("a"), RoundTrip.Id("b");
    Function("min", [Parameter("a", ["i32"]), Parameter("b", ["i32"])], None,
             [Choose(RoundTrip.Bi(a, Lt, b), [Leave(Some(a))], []), Leave(Some(b))])
  }

  function MinEnv(x: int, y: int): Env { map["a" := Some(x), "b" := Some(y)] }

  /** The early return stands first in the body as it is read back. */
  lemma MinShifted()
    ensures var a, b := RoundTrip.Id("a"), RoundTrip.Id("b");
            Shifted(Min().body) == [Leave(Some(a)), Choose(RoundTrip.Bi(a, Lt, b), [Leave(Some(a))], [])]
  {
    var ss := Min().body;
    var thn := ss[0].thn;
    assert ss[1..] == [ss[1]] && ss[1..][1..] == [] && thn[1..] == [];
    assert Pushed(thn[0]) == [thn[0]] && Pushed(ss[1]) == [ss[1]];
    assert PushedAll(thn) == [thn[0]] && PushedAll(ss[1..]) == [ss[1]] && PushedAll(ss[0].els) == [];
  }

  lemma MinArguments(x: int, y: int)
    ensures Arguments(Min().params, [x, y]) == MinEnv(x, y)
  {
    var ps := Min().params;
    assert Arguments(ps, []) == map[];
    assert [x, y][..1] == [x] && [x][..0] == [];
    assert Arguments(ps, [x]) == map["a" := Some(x)];
  }

  /** The source returns the smaller argument. */
  lemma MinMeaning(x: int, y: int, fuel: nat)
    ensures Call(Min(), [x, y], fuel) == Returned(if x < y then x else y, MinEnv(x, y))
  {
    MinArguments(x, y);
    var env, first, last := MinEnv(x, y), Min().body[0], Min().body[1];
    var early := first.thn[0];
    InOrder([], early, env, fuel);
    InOrder([], first, env, fuel);
    InOrder([first], last, env, fuel);
    assert [] + [early] == first.thn && [] + [first] == [first] && [first] + [last] == Min().body;
    assert Pipeline.Value(RoundTrip.Id("a"), env) == Some(I32(x))
      && Pipeline.Value(RoundTrip.Id("b"), env) == Some(I32(y));
    assert Exec(early, env, fuel) == Returned(x, env) && Exec(last, env, fuel) == Returned(y, env);
    assert Pipeline.Value(first.cond, env) == Some(I1(x < y));
    assert Exec(first, env, fuel) == if x < y then Returned(x, env) else ExecBlock([], env, fuel);
  }

  /** What is read back returns the first argument. */
  lemma MinShiftedMeaning(x: int, y: int, fuel: nat)
    ensures Call(FuncShifted(Min()), [x, y], fuel) == Returned(x, MinEnv(x, y))
  {
    MinShifted();
    MinArguments(x, y);
    var env, body := MinEnv(x, y), Shifted(Min().body);
    InOrder([], body[0], env, fuel);
    InOrder([body[0]], body[1], env, fuel);
    assert [] + [body[0]] == [body[0]] && body == [body[0]] + [body[1]];
    assert Exec(body[0], env, fuel) == Returned(x, env);
  }

  lemma InOrder(before: seq<Statement>, t: Statement, env: Env, fuel: nat)
    ensures var r := ExecBlock(before, env, fuel);
            ExecBlock(before + [t], env, fuel) == if r.Normal? then Exec(t, r.env, fuel) else r
    ensures ExecBlock([], env, fuel) == Normal(env)
  {
    assert (before + [t])[..|before|] == before;
  }

  lemma MinWritable()
    ensures WritableFunc(Min()) && PlainParams(Min().params, {})
  {}

  lemma MinCovered()
    ensures BlockCovered(BlockZeroed(Min().body), {})
  {
    hide Pipeline.Compilable;
    MinCompilable();
  }

  lemma MinCompilable()
    ensures forall x :: Pipeline.Compilable(RoundTrip.Id(x))
    ensures forall x, y :: Pipeline.Compilable(RoundTrip.Bi(RoundTrip.Id(x), Lt, RoundTrip.Id(y)))
  {}

  /** The code that is emitted for `Min` returns its first argument, whichever is smaller. */
  lemma MinMiscompiled(ts: ParserSpec.Tokens, s: ParserSpec.S, isSafe: bool, l: nat, x: int, y: int)
    requires s.pos <= |ts| && !s.hung && ArenaShape.Sound(s.a) && RoundTrip.Stands(ts, s.pos, PrintFunc(Min()))
    ensures var (s', h) := ParserSpec.ParseFuncDecl(ts, s, isSafe);
            && Acyclic(s'.a) && 1 <= h <= |s'.a.funcs| && s'.a.funcs[h - 1].paramCount == 2
            && Preservation.CodeReturns(s'.a, h - 1, l, [x, y], x, MinEnv(x, y))
            && Call(Min(), [x, y], 0) == Returned(if x < y then x else y, MinEnv(x, y))
  {
    hide PrintFunc, ParserSpec.ParseFuncDecl, RoundTrip.Stands, BlockZeroed, BlockCovered, WritableFunc, PlainParams,
         Call, CodeRunsOn, Preservation.CodeReturns, Preservation.CodeGetsStuck, FuncShifted, MinEnv;
    MinWritable();
    MinCovered();
    MinMeaning(x, y, 0);
    MinShiftedMeaning(x, y, 0);
    CompiledFunction(ts, s, isSafe, Min(), l, [x, y], x, MinEnv(x, y), {});
  }
}
