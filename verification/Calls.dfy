/** What stands on the line of a call. The code of an argument is written in the middle of the line, and may
    hold lines of other calls; the arguments of the call itself are those at its own depth. */
module Calls {
  import opened Ast
  import opened Digits
  import opened Emitter
  import opened LocalNames
  import opened Machine
  import opened Options
  import opened Preservation

  /** The arguments at depth 1, if the code begins at depth `depth`. */
  function OwnArgs(code: seq<Instr>, depth: int): seq<Instr> {
    if code == [] then [] else
      match code[0]
      case CallOpen(_, _) => OwnArgs(code[1..], depth + 1)
      case CallClose => OwnArgs(code[1..], depth - 1)
      case CallArg(_, _) => (if depth == 1 then [code[0]] else []) + OwnArgs(code[1..], depth)
      case _ => OwnArgs(code[1..], depth)
  }

  /** How many lines of calls are opened and not closed. */
  function Nesting(code: seq<Instr>): int {
    if code == [] then 0 else
      (if code[0].CallOpen? then 1 else if code[0].CallClose? then -1 else 0) + Nesting(code[1..])
  }

  /** The code of the arguments, without the pieces of call lines. */
  function WithoutCalls(code: seq<Instr>): seq<Instr> {
    if code == [] then [] else
      (if code[0].CallOpen? || code[0].CallArg? || code[0].CallClose? then [] else [code[0]]) + WithoutCalls(code[1..])
  }

  lemma {:induction false} OwnArgsConcat(c: seq<Instr>, d: seq<Instr>, depth: int)
    ensures OwnArgs(c + d, depth) == OwnArgs(c, depth) + OwnArgs(d, depth + Nesting(c))
  {
    if c == [] {
      assert c + d == d;
    } else {
      assert (c + d)[1..] == c[1..] + d;
      OwnArgsConcat(c[1..], d, if c[0].CallOpen? then depth + 1 else if c[0].CallClose? then depth - 1 else depth);
    }
  }

  lemma {:induction false} NestingConcat(c: seq<Instr>, d: seq<Instr>)
    ensures Nesting(c + d) == Nesting(c) + Nesting(d)
  {
    if c == [] {
      assert c + d == d;
    } else {
      assert (c + d)[1..] == c[1..] + d;
      NestingConcat(c[1..], d);
    }
  }

  lemma {:induction false} WithoutCallsConcat(c: seq<Instr>, d: seq<Instr>)
    ensures WithoutCalls(c + d) == WithoutCalls(c) + WithoutCalls(d)
  {
    if c == [] {
      assert c + d == d;
    } else {
      assert (c + d)[1..] == c[1..] + d;
      WithoutCallsConcat(c[1..], d);
    }
  }

  // ---------------------------------------------------------------- the code of arguments --

  /** The code opens and closes as many lines, and shows no arguments at depth 1 if it begins at `depth`. */
  ghost predicate Inside(code: seq<Instr>, depth: int) { Nesting(code) == 0 && OwnArgs(code, depth) == [] }

  lemma InsideConcat(c: seq<Instr>, d: seq<Instr>, depth: int)
    requires Inside(c, depth) && Inside(d, depth)
    ensures Inside(c + d, depth)
  {
    NestingConcat(c, d);
    OwnArgsConcat(c, d, depth);
  }

  lemma InsideOne(ins: Instr, depth: int)
    requires !ins.CallOpen? && !ins.CallClose? && (ins.CallArg? ==> depth != 1)
    ensures Inside([ins], depth)
  {
    assert [ins][1..] == [];
  }

  lemma InsideLine(open: Instr, args: seq<Instr>, depth: int)
    requires open.CallOpen? && Inside(args, depth + 1)
    ensures Inside([open] + args + [CallClose], depth)
  {
    assert [open][1..] == [] && [CallClose][1..] == [];
    NestingConcat([open], args);
    NestingConcat([open] + args, [CallClose]);
    OwnArgsConcat([open], args, depth);
    OwnArgsConcat([open] + args, [CallClose], depth);
  }

  lemma {:induction false} ExprInside(a: Arena, i: nat, k: nat, depth: int)
    requires Acyclic(a) && i < |a.exprs| && depth >= 1
    ensures Inside(ExprCode(a, i, k).code, depth)
    decreases i, |a.argIndices| + 1
  {
    hide TmpName, IntText, Inside, ArgsCode;
    match a.exprs[i] {
      case Ident(x) => InsideOne(Load(TmpName(k + 1), x), depth);
      case Binary(lhs, op, rhs) =>
        var l := ExprCode(a, lhs - 1, k);
        var r := ExprCode(a, rhs - 1, l.tmps);
        var last := Bin(TmpName(r.tmps + 1), OpcodeOf(op), l.val, r.val);
        ExprInside(a, lhs - 1, k, depth);
        ExprInside(a, rhs - 1, l.tmps, depth);
        InsideConcat(l.code, r.code, depth);
        InsideOne(last, depth);
        InsideConcat(l.code + r.code, [last], depth);
      case Call(callee, start, count) =>
        ArgsInside(a, i, count, k + 1, depth + 1);
        InsideLine(CallOpen(TmpName(k + 1), CalleeName(a, callee)), ArgsCode(a, i, count, k + 1).code, depth);
      case _ => InsideNothing(depth);
    }
  }

  lemma InsideNothing(depth: int)
    ensures Inside([], depth)
  {}

  lemma {:induction false} ArgsInside(a: Arena, i: nat, j: nat, k: nat, depth: int)
    requires Acyclic(a) && i < |a.exprs| && a.exprs[i].Call? && j <= a.exprs[i].argCount && depth >= 2
    ensures Inside(ArgsCode(a, i, j, k).code, depth)
    decreases i, j
  {
    hide TmpName, Inside, ExprCode;
    if j == 0 {
      InsideNothing(depth);
    } else {
      var before := ArgsCode(a, i, j - 1, k);
      var h := a.argIndices[a.exprs[i].argsStart + j - 1];
      var arg := ExprCode(a, h - 1, before.tmps);
      var last := CallArg(arg.val, j < a.exprs[i].argCount);
      ArgsInside(a, i, j - 1, k, depth);
      ExprInside(a, h - 1, before.tmps, depth);
      InsideConcat(before.code, arg.code, depth);
      InsideOne(last, depth);
      InsideConcat(before.code + arg.code, [last], depth);
    }
  }

  // ------------------------------------------------------------------------ the line --

  /** The handle of argument `m` of the call at `i`. */
  function Argument(a: Arena, i: nat, m: nat): nat
    requires Acyclic(a) && i < |a.exprs| && a.exprs[i].Call? && m < a.exprs[i].argCount
    ensures Names(Argument(a, i, m), i)
  {
    a.argIndices[a.exprs[i].argsStart + m]
  }

  /** The counter before each argument: every argument takes up where the one before it left off. */
  ghost predicate Counters(a: Arena, i: nat, j: nat, k: nat, ks: seq<nat>)
    requires Acyclic(a) && i < |a.exprs| && a.exprs[i].Call? && j <= a.exprs[i].argCount
  {
    && |ks| == j + 1 && ks[0] == k
    && forall m: nat :: m < j ==> ExprCode(a, Argument(a, i, m) - 1, ks[m]).tmps == ks[m + 1]
  }

  /** The argument `m` as it stands on the line: the operand that its own code leaves, and a comma unless it
      is the last one. */
  function ArgPiece(a: Arena, i: nat, m: nat, k: nat): Instr
    requires Acyclic(a) && i < |a.exprs| && a.exprs[i].Call? && m < a.exprs[i].argCount
  {
    CallArg(ExprCode(a, Argument(a, i, m) - 1, k).val, m + 1 < a.exprs[i].argCount)
  }

  lemma OneMoreArg(line: seq<Instr>, arg: seq<Instr>, piece: Instr)
    requires Nesting(line) == 0 && Inside(arg, 1) && piece.CallArg?
    ensures Nesting(line + arg + [piece]) == 0 && OwnArgs(line + arg + [piece], 1) == OwnArgs(line, 1) + [piece]
  {
    assert [piece][1..] == [];
    NestingConcat(line, arg);
    NestingConcat(line + arg, [piece]);
    OwnArgsConcat(line, arg, 1);
    OwnArgsConcat(line + arg, [piece], 1);
  }

  lemma CountersMore(a: Arena, i: nat, j: nat, k: nat, ks: seq<nat>, next: nat)
    requires Acyclic(a) && i < |a.exprs| && a.exprs[i].Call? && j < a.exprs[i].argCount
    requires Counters(a, i, j, k, ks) && ExprCode(a, Argument(a, i, j) - 1, ks[j]).tmps == next
    ensures Counters(a, i, j + 1, k, ks + [next])
  {
    hide ExprCode, Argument, Acyclic;
  }

  lemma {:induction false} ArgsOnLine(a: Arena, i: nat, j: nat, k: nat) returns (ks: seq<nat>)
    requires Acyclic(a) && i < |a.exprs| && a.exprs[i].Call? && j <= a.exprs[i].argCount
    ensures Counters(a, i, j, k, ks) && ks[j] == ArgsCode(a, i, j, k).tmps
    ensures Nesting(ArgsCode(a, i, j, k).code) == 0
    ensures var own := OwnArgs(ArgsCode(a, i, j, k).code, 1);
            |own| == j && forall m: nat :: m < j ==> own[m] == ArgPiece(a, i, m, ks[m])
    decreases j
  {
    hide TmpName, ExprCode, OwnArgs, Nesting, Inside;
    if j == 0 {
      ks := [k];
      NothingInside();
    } else {
      var before := ArgsCode(a, i, j - 1, k);
      var h := Argument(a, i, j - 1);
      var arg := ExprCode(a, h - 1, before.tmps);
      ks := ArgsOnLine(a, i, j - 1, k);
      CountersMore(a, i, j - 1, k, ks, arg.tmps);
      ExprInside(a, h - 1, before.tmps, 1);
      OneMoreArg(before.code, arg.code, ArgPiece(a, i, j - 1, ks[j - 1]));
      ks := ks + [arg.tmps];
    }
  }

  lemma NothingInside()
    ensures Nesting([]) == 0 && OwnArgs([], 1) == []
  {}

  /** The line of a call begins with a fresh temporary and the name of the function, which must be a name of
      its own to be known, holds exactly the arguments of the call, in order and with their commas, and
      ends with its parenthesis. */
  lemma CallLine(a: Arena, i: nat, k: nat) returns (ks: seq<nat>)
    requires Acyclic(a) && i < |a.exprs| && a.exprs[i].Call?
    ensures var Call(callee, start, count) := a.exprs[i];
            var e, f := ExprCode(a, i, k), a.exprs[callee - 1];
            && Counters(a, i, count, k + 1, ks) && e.tmps == ks[count] && e.val == Local(TmpName(k + 1))
            && |e.code| >= 2 && e.code[|e.code| - 1] == CallClose
            && e.code[0] == CallOpen(TmpName(k + 1), match f case Ident(name) => name case _ => "unknown")
            && Nesting(e.code) == 0 && |OwnArgs(e.code, 0)| == count
            && forall m: nat :: m < count ==> OwnArgs(e.code, 0)[m] == ArgPiece(a, i, m, ks[m])
  {
    hide ArgsCode, TmpName, OwnArgs, Nesting, Counters, Argument, ArgPiece;
    var Call(callee, start, count) := a.exprs[i];
    ks := ArgsOnLine(a, i, count, k + 1);
    WholeLine(CallOpen(TmpName(k + 1), CalleeName(a, callee)), ArgsCode(a, i, count, k + 1).code);
  }

  lemma WholeLine(open: Instr, args: seq<Instr>)
    requires open.CallOpen? && Nesting(args) == 0
    ensures var line := [open] + args + [CallClose];
            Nesting(line) == 0 && OwnArgs(line, 0) == OwnArgs(args, 1)
  {
    assert [open][1..] == [] && [CallClose][1..] == [];
    NestingConcat([open], args);
    NestingConcat([open] + args, [CallClose]);
    OwnArgsConcat([open], args, 0);
    OwnArgsConcat([open] + args, [CallClose], 0);
  }

  // ------------------------------------------------------------- what the arguments hold --

  lemma WithoutCallsOne(ins: Instr)
    ensures WithoutCalls([ins]) == if ins.CallOpen? || ins.CallArg? || ins.CallClose? then [] else [ins]
  {
    assert [ins][1..] == [];
  }

  lemma {:induction false} CoveredWithoutCalls(a: Arena, i: nat, k: nat)
    requires Acyclic(a) && i < |a.exprs| && ExprCovered(a, i)
    ensures WithoutCalls(ExprCode(a, i, k).code) == ExprCode(a, i, k).code
    decreases i
  {
    hide TmpName, IntText, OpcodeOf, HasOpcode, WithoutCalls;
    match a.exprs[i] {
      case Binary(lhs, op, rhs) =>
        var l := ExprCode(a, lhs - 1, k);
        var r := ExprCode(a, rhs - 1, l.tmps);
        var last := Bin(TmpName(r.tmps + 1), OpcodeOf(op), l.val, r.val);
        CoveredWithoutCalls(a, lhs - 1, k);
        CoveredWithoutCalls(a, rhs - 1, l.tmps);
        WithoutCallsConcat(l.code, r.code);
        WithoutCallsConcat(l.code + r.code, [last]);
        WithoutCallsOne(last);
      case Ident(x) => WithoutCallsOne(Load(TmpName(k + 1), x));
      case _ => WithoutCallsNone();
    }
  }

  lemma WithoutCallsNone()
    ensures WithoutCalls([]) == []
  {}

  /** The first `j` arguments have values. */
  ghost predicate HaveValues(a: Arena, i: nat, j: nat, env: Env)
    requires Acyclic(a) && i < |a.exprs| && a.exprs[i].Call? && j <= a.exprs[i].argCount
  {
    forall m: nat :: m < j ==> Eval(a, Argument(a, i, m) - 1, env).Some?
  }

  /** The operand of each of them holds its value, and no later temporary can change that. */
  ghost predicate Hold(a: Arena, i: nat, j: nat, ks: seq<nat>, regs: Regs, env: Env)
    requires Acyclic(a) && i < |a.exprs| && a.exprs[i].Call? && j <= a.exprs[i].argCount && |ks| > j
  {
    forall m: nat :: m < j ==>
      var o := ExprCode(a, Argument(a, i, m) - 1, ks[m]).val;
      OperandVal(o, regs) == Eval(a, Argument(a, i, m) - 1, env) && Settled(o, ks[j])
  }

  ghost predicate ArgsCovered(a: Arena, i: nat, j: nat)
    requires Acyclic(a) && i < |a.exprs| && a.exprs[i].Call? && j <= a.exprs[i].argCount
  {
    forall m: nat :: m < j ==> ExprCovered(a, Argument(a, i, m) - 1)
  }

  /** One more argument leaves the operands before it alone. */
  lemma HoldMore(a: Arena, i: nat, j: nat, ks: seq<nat>, regs: Regs, regs': Regs, env: Env)
    requires Acyclic(a) && i < |a.exprs| && a.exprs[i].Call? && j < a.exprs[i].argCount && |ks| > j + 1
    requires HaveValues(a, i, j, env) && Hold(a, i, j, ks, regs, env) && KeepsTmps(regs, regs', ks[j])
    requires ks[j] <= ks[j + 1]
    requires var e := ExprCode(a, Argument(a, i, j) - 1, ks[j]);
             OperandVal(e.val, regs') == Eval(a, Argument(a, i, j) - 1, env) && Settled(e.val, ks[j + 1])
    ensures Hold(a, i, j + 1, ks, regs', env)
  {
    hide ExprCode, Eval, OperandVal, Settled, KeepsTmps, Argument, Acyclic;
    forall m: nat | m < j
      ensures var o := ExprCode(a, Argument(a, i, m) - 1, ks[m]).val;
              OperandVal(o, regs') == Eval(a, Argument(a, i, m) - 1, env) && Settled(o, ks[j + 1])
    {
      var o := ExprCode(a, Argument(a, i, m) - 1, ks[m]).val;
      SettledKept(o, ks[j], regs, regs');
      SettledLonger(o, ks[j], ks[j + 1]);
    }
  }

  lemma SettledLonger(o: Operand, k: nat, k': nat)
    requires Settled(o, k) && k <= k'
    ensures Settled(o, k')
  {
    hide TmpName;
  }

  lemma ArgsApart(a: Arena, i: nat, j: nat, k: nat)
    requires Acyclic(a) && i < |a.exprs| && a.exprs[i].Call? && j < a.exprs[i].argCount
    requires ExprCovered(a, Argument(a, i, j) - 1)
    ensures var before := ArgsCode(a, i, j, k);
            var arg := ExprCode(a, Argument(a, i, j) - 1, before.tmps);
            && WithoutCalls(ArgsCode(a, i, j + 1, k).code) == WithoutCalls(before.code) + arg.code
            && ArgsCode(a, i, j + 1, k).tmps == arg.tmps
  {
    hide ExprCode, ExprCovered, Acyclic, WithoutCalls;
    var before := ArgsCode(a, i, j, k);
    var arg := ExprCode(a, Argument(a, i, j) - 1, before.tmps);
    var last := CallArg(arg.val, j + 1 < a.exprs[i].argCount);
    CoveredWithoutCalls(a, Argument(a, i, j) - 1, before.tmps);
    WithoutCallsConcat(before.code, arg.code);
    WithoutCallsConcat(before.code + arg.code, [last]);
    WithoutCallsOne(last);
  }

  /** Without the pieces of call lines the code of the first `j` arguments runs: every operand holds the
      value of its argument, or the code gets stuck exactly when one of them has none. */
  lemma {:induction false} ArgsRun(a: Arena, i: nat, j: nat, k: nat, ks: seq<nat>, c: seq<Instr>, pc: nat, regs: Regs)
    returns (n: nat, regs': Regs)
    requires Acyclic(a) && i < |a.exprs| && a.exprs[i].Call? && j <= a.exprs[i].argCount
    requires Counters(a, i, a.exprs[i].argCount, k, ks) && ks[j] == ArgsCode(a, i, j, k).tmps && ArgsCovered(a, i, j)
    requires At(c, pc, WithoutCalls(ArgsCode(a, i, j, k).code)) && SlotsPlain(regs)
    ensures if HaveValues(a, i, j, Vars(regs))
            then Run(c, State(pc, regs), n) == Running(State(pc + |WithoutCalls(ArgsCode(a, i, j, k).code)|, regs'))
                 && Vars(regs') == Vars(regs) && Hold(a, i, j, ks, regs', Vars(regs))
            else Run(c, State(pc, regs), n) == Stuck
    ensures SlotsPlain(regs')
    decreases j
  {
    hide ExprCode, ArgsCode, Eval, ExprCovered, Argument, Acyclic, At, SlotsPlain, Vars, OperandVal, Settled, KeepsTmps,
         Run, WithoutCalls;
    n, regs' := 0, regs;
    if j == 0 {
      RunNothing(c, State(pc, regs));
      NoArgs(a, i, k);
    } else {
      var code, arg := WithoutCalls(ArgsCode(a, i, j - 1, k).code), Argument(a, i, j - 1) - 1;
      var e := ExprCode(a, arg, ks[j - 1]);
      CountersAt(a, i, j - 1, k, ks);
      ArgsApart(a, i, j - 1, k);
      AtSplit(c, pc, code, e.code);
      n, regs' := ArgsRun(a, i, j - 1, k, ks, c, pc, regs);
      if HaveValues(a, i, j - 1, Vars(regs)) {
        var regs1, m := regs', n;
        n, regs' := ExprSim(a, arg, ks[j - 1], c, pc + |code|, regs1);
        RunChain(c, State(pc, regs), m, State(pc + |code|, regs1), n);
        n := m + n;
        if Eval(a, arg, Vars(regs)).Some? {
          ExprGrows(a, arg, ks[j - 1]);
          HoldMore(a, i, j - 1, ks, regs1, regs', Vars(regs));
        }
      }
    }
  }

  lemma NoArgs(a: Arena, i: nat, k: nat)
    requires Acyclic(a) && i < |a.exprs| && a.exprs[i].Call?
    ensures WithoutCalls(ArgsCode(a, i, 0, k).code) == []
  {}

  lemma {:induction false} CountersAt(a: Arena, i: nat, j: nat, k: nat, ks: seq<nat>)
    requires Acyclic(a) && i < |a.exprs| && a.exprs[i].Call? && j <= a.exprs[i].argCount
    requires Counters(a, i, a.exprs[i].argCount, k, ks)
    ensures ks[j] == ArgsCode(a, i, j, k).tmps
    decreases j
  {
    hide ExprCode;
    if j > 0 { CountersAt(a, i, j - 1, k, ks); }
  }

  lemma RunNothing(c: seq<Instr>, s: State)
    ensures Run(c, s, 0) == Running(s)
  {}

  /** Every argument on the line holds the value of its expression, and has a comma unless it is the last one. */
  ghost predicate LineHolds(a: Arena, i: nat, line: seq<Instr>, regs: Regs, env: Env)
    requires Acyclic(a) && i < |a.exprs| && a.exprs[i].Call?
  {
    && |line| == a.exprs[i].argCount
    && forall m: nat :: m < |line| ==>
         && line[m].CallArg? && (line[m].more <==> m + 1 < |line|)
         && OperandVal(line[m].arg, regs) == Eval(a, Argument(a, i, m) - 1, env)
  }

  /** The code on the line of a call, run without the pieces of the line: in the end every argument on the line
      holds the value of its expression, or the code gets stuck exactly when one of them has none. */
  lemma CallRuns(a: Arena, i: nat, k: nat, c: seq<Instr>, pc: nat, regs: Regs) returns (n: nat, regs': Regs)
    requires Acyclic(a) && i < |a.exprs| && a.exprs[i].Call? && ArgsCovered(a, i, a.exprs[i].argCount)
    requires At(c, pc, WithoutCalls(ExprCode(a, i, k).code)) && SlotsPlain(regs)
    ensures var code := ExprCode(a, i, k).code;
            if HaveValues(a, i, a.exprs[i].argCount, Vars(regs))
            then Run(c, State(pc, regs), n) == Running(State(pc + |WithoutCalls(code)|, regs'))
                 && Vars(regs') == Vars(regs) && LineHolds(a, i, OwnArgs(code, 0), regs', Vars(regs))
            else Run(c, State(pc, regs), n) == Stuck
  {
    hide TmpName, ArgsCode, OwnArgs, WithoutCalls, At, SlotsPlain, Vars, OperandVal, Run, Eval, ExprCovered, Settled,
         HaveValues, LineHolds, Hold, ArgsCovered, ArgPiece;
    var Call(callee, start, count) := a.exprs[i];
    var ks := CallLine(a, i, k);
    CountersAt(a, i, count, k + 1, ks);
    LineWithout(CallOpen(TmpName(k + 1), CalleeName(a, callee)), ArgsCode(a, i, count, k + 1).code);
    n, regs' := ArgsRun(a, i, count, k + 1, ks, c, pc, regs);
    if HaveValues(a, i, count, Vars(regs)) {
      HeldOnLine(a, i, OwnArgs(ExprCode(a, i, k).code, 0), ks, regs', Vars(regs));
    }
  }

  lemma LineWithout(open: Instr, args: seq<Instr>)
    requires open.CallOpen?
    ensures WithoutCalls([open] + args + [CallClose]) == WithoutCalls(args)
  {
    WithoutCallsConcat([open], args);
    WithoutCallsConcat([open] + args, [CallClose]);
    WithoutCallsOne(open);
    WithoutCallsOne(CallClose);
  }

  lemma HeldOnLine(a: Arena, i: nat, line: seq<Instr>, ks: seq<nat>, regs: Regs, env: Env)
    requires Acyclic(a) && i < |a.exprs| && a.exprs[i].Call?
    requires |line| == a.exprs[i].argCount < |ks| && Hold(a, i, |line|, ks, regs, env)
    requires forall m: nat :: m < |line| ==> line[m] == ArgPiece(a, i, m, ks[m])
    ensures LineHolds(a, i, line, regs, env)
  {
    hide ExprCode, Eval, OperandVal, Settled, Argument, Acyclic;
  }

  // ---------------------------------------------------------------------- what is dropped --

  /** An expression leaves code exactly if it is a name, an operator or a call. The operand of anything else
      but a literal is the constant zero. */
  lemma ExprEmitsExactly(a: Arena, i: nat, k: nat)
    requires Acyclic(a) && i < |a.exprs|
    ensures var e, x := ExprCode(a, i, k), a.exprs[i];
            && (e.code != [] <==> x.Ident? || x.Binary? || x.Call?)
            && (!x.Ident? && !x.Binary? && !x.Call? && !x.IntLit? ==> OperandVal(e.val, map[]) == Some(I32(0)))
  {
    hide TmpName, IntText, ArgsCode;
    assert ReadDecimal("0") == 0 by { assert "0"[..0] == ""; }
  }

  /** A statement leaves no code at all exactly if it is a `for`, a `match`, a compound assignment or an
      expression without code: whatever its blocks and operands are, it does nothing. */
  lemma StmtEmitsExactly(a: Arena, i: nat, k: nat, l: nat)
    requires Acyclic(a) && i < |a.stmts|
    ensures StmtCode(a, i, k, l).code == [] <==>
            var s := a.stmts[i];
            || s.For? || s.Match? || s.CompoundAssign?
            || (s.ExprStmt? && ExprCode(a, s.expr - 1, k).code == [])
  {
    hide TmpName, LabelName, IntText, ExprCode, RangeCode;
  }
}
