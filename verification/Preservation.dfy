/** Code generation preserves meaning: running the emitted code of a function and
    running the arena it came from give the same answer, loops, early returns,
    faults and endless runs included. */
module Preservation {
  import opened Ast
  import opened Digits
  import opened Emitter
  import opened Machine
  import opened Options
  import opened LocalNames

  /** The variables that live in the slots of a register file. */
  function Vars(regs: Regs): Env { map x | x in regs && regs[x].Slot? :: regs[x].content }

  ghost predicate SlotsPlain(regs: Regs) { forall x :: x in Vars(regs) ==> PlainName(x) }

  /** The code `d` stands in `c` from `pc` on. */
  ghost predicate At(c: seq<Instr>, pc: nat, d: seq<Instr>) {
    pc + |d| <= |c| && c[pc..pc + |d|] == d
  }

  lemma AtSplit(c: seq<Instr>, pc: nat, d: seq<Instr>, e: seq<Instr>)
    requires At(c, pc, d + e)
    ensures At(c, pc, d) && At(c, pc + |d|, e)
  {
    assert c[pc..pc + |d|] == (d + e)[..|d|];
    assert c[pc + |d|..pc + |d| + |e|] == (d + e)[|d|..];
  }

  lemma AtOne(c: seq<Instr>, pc: nat, d: seq<Instr>)
    requires At(c, pc, d) && d != []
    ensures pc < |c| && c[pc] == d[0]
  {
    assert c[pc] == c[pc..pc + |d|][0];
  }

  lemma AtLast(c: seq<Instr>, pc: nat, d: seq<Instr>, x: Instr)
    requires At(c, pc, d + [x])
    ensures At(c, pc, d) && pc + |d| < |c| && c[pc + |d|] == x
  {
    AtSplit(c, pc, d, [x]);
    AtOne(c, pc + |d|, [x]);
  }

  lemma AtFirst(c: seq<Instr>, pc: nat, x: Instr, d: seq<Instr>)
    requires At(c, pc, [x] + d)
    ensures At(c, pc + 1, d) && pc < |c| && c[pc] == x
  {
    AtSplit(c, pc, [x], d);
    AtOne(c, pc, [x]);
  }

  lemma RunChain(c: seq<Instr>, s: State, m: nat, s1: State, n: nat)
    requires Run(c, s, m) == Running(s1)
    ensures Run(c, s, m + n) == Run(c, s1, n)
  {
    RunAdd(c, s, m, n);
  }

  lemma RunOne(c: seq<Instr>, s: State)
    ensures Run(c, s, 1) == Step(c, s)
  {
    hide Step;
    if Step(c, s).Running? {
      assert Run(c, Step(c, s).s, 0) == Step(c, s);
    }
  }

  /** With block names unique, a branch arrives just after its label. */
  lemma JumpTo(c: seq<Instr>, p: nat, l: string, regs: Regs)
    requires p < |c| && c[p] == Label(l) && UniqueLabels(c)
    ensures Jump(c, l, regs) == Running(State(p + 1, regs))
  {
    var q := FindLabel(c, l, 0);
    assert q <= p && c[q] == Label(l);
  }

  // ---------------------------------------------------------------- expressions --

  /** The temporaries numbered up to `k` are untouched. */
  ghost predicate KeepsTmps(regs: Regs, regs': Regs, k: nat) {
    forall j :: 0 <= j <= k && TmpName(j) in regs ==> TmpName(j) in regs' && regs'[TmpName(j)] == regs[TmpName(j)]
  }

  /** An operand whose value later temporaries cannot change. */
  ghost predicate Settled(o: Operand, k: nat) { o.Local? ==> exists j: nat :: j <= k && o.name == TmpName(j) }

  lemma SettledKept(o: Operand, k: nat, regs: Regs, regs': Regs)
    requires Settled(o, k) && KeepsTmps(regs, regs', k) && OperandVal(o, regs).Some?
    ensures OperandVal(o, regs') == OperandVal(o, regs)
  {
    hide TmpName;
  }

  lemma SetTmp(regs: Regs, k: nat, v: Val)
    requires SlotsPlain(regs)
    ensures var regs' := regs[TmpName(k + 1) := Word(v)];
            Vars(regs') == Vars(regs) && SlotsPlain(regs') && KeepsTmps(regs, regs', k)
            && OperandVal(Local(TmpName(k + 1)), regs') == Some(v) && Settled(Local(TmpName(k + 1)), k + 1)
  {
    hide TmpName, PlainName;
    var x := TmpName(k + 1);
    var regs' := regs[x := Word(v)];
    TmpIsNotPlain(k + 1);
    assert x !in Vars(regs);
    assert Vars(regs') == Vars(regs);
    forall j | 0 <= j <= k && TmpName(j) in regs
      ensures TmpName(j) in regs' && regs'[TmpName(j)] == regs[TmpName(j)]
    {
      if TmpName(j) == x { TmpInjective(j, k + 1); }
    }
  }

  /** Running the code of an expression leaves its value in its operand, or gets
      stuck exactly when the expression has no value. */
  ghost predicate ExprRuns(c: seq<Instr>, pc: nat, regs: Regs, e: Emitted, v: Option<Val>, k: nat, n: nat,
                           regs': Regs) {
    if v.None? then Run(c, State(pc, regs), n) == Stuck else
      && Run(c, State(pc, regs), n) == Running(State(pc + |e.code|, regs'))
      && Vars(regs') == Vars(regs)
      && OperandVal(e.val, regs') == v
      && Settled(e.val, e.tmps)
      && KeepsTmps(regs, regs', k)
  }

  lemma {:induction false} ExprSim(a: Arena, i: nat, k: nat, c: seq<Instr>, pc: nat, regs: Regs)
    returns (n: nat, regs': Regs)
    requires Acyclic(a) && i < |a.exprs| && ExprCovered(a, i)
    requires At(c, pc, ExprCode(a, i, k).code) && SlotsPlain(regs)
    ensures ExprRuns(c, pc, regs, ExprCode(a, i, k), Eval(a, i, Vars(regs)), k, n, regs')
    ensures SlotsPlain(regs')
    decreases i
  {
    hide TmpName, PlainName, At, SlotsPlain, ExprRuns;
    match a.exprs[i] {
      case IntLit(m) =>
        n, regs' := 0, regs;
        LiteralSim(a, i, k, c, pc, regs);
      case Ident(x) =>
        n, regs' := LoadSim(a, i, k, c, pc, regs);
      case Binary(_, _, _) =>
        n, regs' := BinarySim(a, i, k, c, pc, regs);
    }
  }

  lemma LiteralSim(a: Arena, i: nat, k: nat, c: seq<Instr>, pc: nat, regs: Regs)
    requires Acyclic(a) && i < |a.exprs| && a.exprs[i].IntLit? && Palindrome(a.exprs[i].n)
    ensures ExprRuns(c, pc, regs, ExprCode(a, i, k), Eval(a, i, Vars(regs)), k, 0, regs)
  {
    hide Palindrome, IntText, Vars, TmpName;
    LiteralFaithful(a.exprs[i].n);
  }

  lemma LoadSim(a: Arena, i: nat, k: nat, c: seq<Instr>, pc: nat, regs: Regs) returns (n: nat, regs': Regs)
    requires Acyclic(a) && i < |a.exprs| && a.exprs[i].Ident?
    requires At(c, pc, ExprCode(a, i, k).code) && SlotsPlain(regs)
    ensures ExprRuns(c, pc, regs, ExprCode(a, i, k), Eval(a, i, Vars(regs)), k, n, regs')
    ensures SlotsPlain(regs')
  {
    hide TmpName, PlainName, At;
    var x := a.exprs[i].name;
    n, regs' := 1, regs;
    AtOne(c, pc, ExprCode(a, i, k).code);
    RunOne(c, State(pc, regs));
    if IsSlot(regs, x) && regs[x].content.Some? {
      var v := I32(regs[x].content.value);
      SetTmp(regs, k, v);
      regs' := regs[TmpName(k + 1) := Word(v)];
    }
  }

  lemma BinaryShape(a: Arena, i: nat, k: nat, env: Env)
    requires Acyclic(a) && i < |a.exprs| && a.exprs[i].Binary? && ExprCovered(a, i)
    ensures var Binary(lhs, op, rhs) := a.exprs[i];
            && Names(lhs, i) && Names(rhs, i) && HasOpcode(op)
            && ExprCovered(a, lhs - 1) && ExprCovered(a, rhs - 1)
            && Eval(a, i, env) == EvalBinary(op, Eval(a, lhs - 1, env), Eval(a, rhs - 1, env))
            && var l := ExprCode(a, lhs - 1, k);
               var r := ExprCode(a, rhs - 1, l.tmps);
               ExprCode(a, i, k) == Emitted(l.code + r.code + [Bin(TmpName(r.tmps + 1), OpcodeOf(op), l.val, r.val)],
                                            Local(TmpName(r.tmps + 1)), r.tmps + 1)
  {
    hide TmpName, EvalBinary, OpcodeOf, HasOpcode, Denote, Compute;
  }

  lemma {:induction false} BinarySim(a: Arena, i: nat, k: nat, c: seq<Instr>, pc: nat, regs: Regs)
    returns (n: nat, regs': Regs)
    requires Acyclic(a) && i < |a.exprs| && a.exprs[i].Binary? && ExprCovered(a, i)
    requires At(c, pc, ExprCode(a, i, k).code) && SlotsPlain(regs)
    ensures ExprRuns(c, pc, regs, ExprCode(a, i, k), Eval(a, i, Vars(regs)), k, n, regs')
    ensures SlotsPlain(regs')
    decreases i, 0
  {
    hide TmpName, PlainName, At, SlotsPlain, Step, Vars, ExprCode, Eval, ExprCovered, Acyclic, OperandVal, Settled, Run;
    var Binary(lhs, op, rhs) := a.exprs[i];
    BinaryShape(a, i, k, Vars(regs));
    var l := ExprCode(a, lhs - 1, k);
    var r := ExprCode(a, rhs - 1, l.tmps);
    var last := Bin(TmpName(r.tmps + 1), OpcodeOf(op), l.val, r.val);
    AtSplit(c, pc, l.code + r.code, [last]);
    AtSplit(c, pc, l.code, r.code);
    n, regs' := ExprSim(a, lhs - 1, k, c, pc, regs);
    if Eval(a, lhs - 1, Vars(regs)).Some? {
      var regs1 := regs';
      var m;
      m, regs' := ExprSim(a, rhs - 1, l.tmps, c, pc + |l.code|, regs1);
      RunChain(c, State(pc, regs), n, State(pc + |l.code|, regs1), m);
      n := n + m;
      if Eval(a, rhs - 1, Vars(regs)).Some? {
        var regs2 := regs';
        SettledKept(l.val, l.tmps, regs1, regs2);
        AtOne(c, pc + |l.code + r.code|, [last]);
        regs' := BinStep(c, pc + |l.code + r.code|, r.tmps, OpcodeOf(op), l.val, r.val, regs2);
        RunChain(c, State(pc, regs), n, State(pc + |l.code + r.code|, regs2), 1);
        n := n + 1;
        OpcodeFaithful(op);
        ExprGrows(a, lhs - 1, k);
        ExprGrows(a, rhs - 1, l.tmps);
      }
    }
  }

  lemma ExprGrows(a: Arena, i: nat, k: nat)
    requires Acyclic(a) && i < |a.exprs|
    ensures k <= ExprCode(a, i, k).tmps
  {
    hide ExprCode;
    ExprDefs(a, i, k, 0);
  }

  lemma BinStep(c: seq<Instr>, pc: nat, k: nat, op: Opcode, x: Operand, y: Operand, regs: Regs) returns (regs': Regs)
    requires pc < |c| && c[pc] == Bin(TmpName(k + 1), op, x, y) && SlotsPlain(regs)
    ensures var v := Machine.Binary(op, OperandVal(x, regs), OperandVal(y, regs));
            if v.None? then Run(c, State(pc, regs), 1) == Stuck else
              && Run(c, State(pc, regs), 1) == Running(State(pc + 1, regs'))
              && Vars(regs') == Vars(regs) && KeepsTmps(regs, regs', k)
              && OperandVal(Local(TmpName(k + 1)), regs') == v && Settled(Local(TmpName(k + 1)), k + 1)
    ensures SlotsPlain(regs')
  {
    hide TmpName, PlainName, SlotsPlain, KeepsTmps, Settled, Vars, OperandVal;
    var v := Machine.Binary(op, OperandVal(x, regs), OperandVal(y, regs));
    RunOne(c, State(pc, regs));
    regs' := regs;
    if v.Some? {
      SetTmp(regs, k, v.value);
      regs' := regs[TmpName(k + 1) := Word(v.value)];
    }
  }

  // ----------------------------------------------------- an expression and its use --

  lemma SetSlot(regs: Regs, x: string, content: Option<int>)
    requires SlotsPlain(regs) && PlainName(x)
    ensures Vars(regs[x := Slot(content)]) == Vars(regs)[x := content] && SlotsPlain(regs[x := Slot(content)])
  {
    hide PlainName;
    assert Vars(regs[x := Slot(content)]) == Vars(regs)[x := content];
  }

  lemma ExprThenStore(a: Arena, i: nat, k: nat, c: seq<Instr>, pc: nat, regs: Regs, x: string)
    returns (n: nat, regs': Regs)
    requires Acyclic(a) && i < |a.exprs| && ExprCovered(a, i) && SlotsPlain(regs)
    requires At(c, pc, ExprCode(a, i, k).code + [Store(ExprCode(a, i, k).val, x)])
    ensures var v := EvalInt(a, i, Vars(regs));
            if v.None? || x !in Vars(regs) then Run(c, State(pc, regs), n) == Stuck else
              && Run(c, State(pc, regs), n) == Running(State(pc + |ExprCode(a, i, k).code| + 1, regs'))
              && Vars(regs') == Vars(regs)[x := v]
    ensures SlotsPlain(regs')
  {
    hide ExprCode, Eval, ExprCovered, Acyclic, PlainName, Run, At;
    var e := ExprCode(a, i, k);
    AtSplit(c, pc, e.code, [Store(e.val, x)]);
    n, regs' := ExprSim(a, i, k, c, pc, regs);
    if Eval(a, i, Vars(regs)).Some? {
      AtOne(c, pc + |e.code|, [Store(e.val, x)]);
      RunChain(c, State(pc, regs), n, State(pc + |e.code|, regs'), 1);
      RunOne(c, State(pc + |e.code|, regs'));
      n := n + 1;
      assert x in Vars(regs) <==> IsSlot(regs', x) by { assert x in Vars(regs') <==> IsSlot(regs', x); }
      var v := EvalInt(a, i, Vars(regs));
      if v.Some? && x in Vars(regs) {
        SetSlot(regs', x, v);
        regs' := regs'[x := Slot(v)];
      }
    }
  }

  lemma ExprThenRet(a: Arena, i: nat, k: nat, c: seq<Instr>, pc: nat, regs: Regs) returns (n: nat, regs': Regs)
    requires Acyclic(a) && i < |a.exprs| && ExprCovered(a, i) && SlotsPlain(regs)
    requires At(c, pc, ExprCode(a, i, k).code + [Ret(ExprCode(a, i, k).val)])
    ensures var v := EvalInt(a, i, Vars(regs));
            if v.None? then Run(c, State(pc, regs), n) == Stuck else
              Run(c, State(pc, regs), n) == Done(v.value, regs') && Vars(regs') == Vars(regs)
  {
    hide ExprCode, Eval, ExprCovered, Acyclic, PlainName, Run, At, Vars;
    var e := ExprCode(a, i, k);
    AtSplit(c, pc, e.code, [Ret(e.val)]);
    n, regs' := ExprSim(a, i, k, c, pc, regs);
    if Eval(a, i, Vars(regs)).Some? {
      AtOne(c, pc + |e.code|, [Ret(e.val)]);
      RunChain(c, State(pc, regs), n, State(pc + |e.code|, regs'), 1);
      RunOne(c, State(pc + |e.code|, regs'));
      n := n + 1;
    }
  }

  /** A literal stays a literal, anything else ends in a temporary. */
  lemma OperandShape(a: Arena, i: nat, k: nat)
    requires Acyclic(a) && i < |a.exprs| && ExprCovered(a, i)
    ensures a.exprs[i].IntLit? <==> ExprCode(a, i, k).val.Lit?
  {}

  lemma ExprThenBranch(a: Arena, i: nat, k: nat, c: seq<Instr>, pc: nat, regs: Regs, thn: string, els: string)
    returns (n: nat, regs': Regs)
    requires Acyclic(a) && i < |a.exprs| && ExprCovered(a, i) && SlotsPlain(regs)
    requires At(c, pc, ExprCode(a, i, k).code + [CondBr(ExprCode(a, i, k).val, thn, els)])
    ensures var b := EvalCond(a, i, Vars(regs));
            if b.None? then Run(c, State(pc, regs), n) == Stuck else
              Run(c, State(pc, regs), n) == Jump(c, if b.value then thn else els, regs') && Vars(regs') == Vars(regs)
    ensures SlotsPlain(regs')
  {
    hide ExprCode, ExprCovered, Acyclic, PlainName, Run, At, Vars, SlotsPlain, Jump, Step, Eval, EvalCond;
    var e := ExprCode(a, i, k);
    AtSplit(c, pc, e.code, [CondBr(e.val, thn, els)]);
    n, regs' := ExprSim(a, i, k, c, pc, regs);
    if Eval(a, i, Vars(regs)).Some? {
      AtOne(c, pc + |e.code|, [CondBr(e.val, thn, els)]);
      RunChain(c, State(pc, regs), n, State(pc + |e.code|, regs'), 1);
      RunOne(c, State(pc + |e.code|, regs'));
      BranchTaken(a, i, k, c, State(pc + |e.code|, regs'), Vars(regs), thn, els);
      n := n + 1;
    } else {
      NoCondition(a, i, Vars(regs));
    }
  }

  lemma NoCondition(a: Arena, i: nat, env: Env)
    requires Acyclic(a) && i < |a.exprs| && Eval(a, i, env).None?
    ensures EvalCond(a, i, env).None?
  {}

  /** The branch goes where the condition says, or is stuck where it says nothing. */
  lemma BranchTaken(a: Arena, i: nat, k: nat, c: seq<Instr>, s: State, env: Env, thn: string, els: string)
    requires Acyclic(a) && i < |a.exprs| && ExprCovered(a, i) && s.pc < |c|
    requires c[s.pc] == CondBr(ExprCode(a, i, k).val, thn, els)
    requires Eval(a, i, env).Some? && OperandVal(ExprCode(a, i, k).val, s.regs) == Eval(a, i, env)
    ensures var b := EvalCond(a, i, env);
            Step(c, s) == if b.None? then Stuck else Jump(c, if b.value then thn else els, s.regs)
  {
    hide ExprCode, ExprCovered, Acyclic, PlainName, Jump;
    OperandShape(a, i, k);
  }

  lemma {:induction false} EvalIgnores(a: Arena, i: nat, env: Env, x: string, content: Option<int>)
    requires Acyclic(a) && i < |a.exprs| && !Mentions(a, i, x)
    ensures Eval(a, i, env[x := content]) == Eval(a, i, env)
  {
    if a.exprs[i].Binary? {
      EvalIgnores(a, a.exprs[i].lhs - 1, env, x, content);
      EvalIgnores(a, a.exprs[i].rhs - 1, env, x, content);
    }
  }

  // ----------------------------------------------------------------- statements --

  /** `n` machine steps do what the source run `r` says. A source run that used up its
      `fuel` leaves the machine still running after at least as many steps. */
  ghost predicate Simulates(c: seq<Instr>, s: State, end: nat, r: Result, fuel: nat, n: nat, regs': Regs) {
    match r
    case Normal(env) => Run(c, s, n) == Running(State(end, regs')) && Vars(regs') == env && SlotsPlain(regs')
    case Returned(v, env) => Run(c, s, n) == Done(v, regs') && Vars(regs') == env
    case Fault => Run(c, s, n) == Stuck
    case Timeout => Run(c, s, n).Running? && n >= fuel
  }

  /** `m` steps first. */
  lemma SimulatesAfter(c: seq<Instr>, s: State, m: nat, s1: State, end: nat, r: Result, fuel: nat, n: nat, regs': Regs)
    requires Run(c, s, m) == Running(s1) && Simulates(c, s1, end, r, fuel, n, regs')
    ensures Simulates(c, s, end, r, fuel, m + n, regs')
  {
    hide Run, Vars, SlotsPlain;
    RunChain(c, s, m, s1, n);
  }

  /** A straight stretch of code, then one branch to the label at `p`. */
  lemma BranchAfter(c: seq<Instr>, s: State, n: nat, pc: nat, regs: Regs, l: string, p: nat)
    requires Run(c, s, n) == Running(State(pc, regs)) && pc < |c| && c[pc] == Br(l)
    requires p < |c| && c[p] == Label(l) && UniqueLabels(c)
    ensures Run(c, s, n + 1) == Running(State(p + 1, regs))
  {
    hide Run, UniqueLabels;
    RunChain(c, s, n, State(pc, regs), 1);
    RunOne(c, State(pc, regs));
    JumpTo(c, p, l, regs);
  }

  lemma Overwrite(env: Env, x: string, content: Option<int>, content': Option<int>)
    ensures env[x := content][x := content'] == env[x := content']
  {}

  lemma LetSim(a: Arena, i: nat, k: nat, l: nat, c: seq<Instr>, pc: nat, regs: Regs, fuel: nat, selves: set<string>)
    returns (n: nat, regs': Regs)
    requires Acyclic(a) && i < |a.stmts| && a.stmts[i].Let? && StmtCovered(a, i, selves)
    requires At(c, pc, StmtCode(a, i, k, l).code) && SlotsPlain(regs) && Clear(selves, Vars(regs))
    ensures Simulates(c, State(pc, regs), pc + |StmtCode(a, i, k, l).code|,
                      ExecStmt(a, i, Vars(regs), fuel), fuel, n, regs')
  {
    hide ExprCode, Eval, ExprCovered, PlainName, Run, At, Vars, SlotsPlain, Mentions;
    var Let(x, _, init) := a.stmts[i];
    AtOne(c, pc, StmtCode(a, i, k, l).code);
    RunOne(c, State(pc, regs));
    SetSlot(regs, x, None);
    var regs1 := regs[x := Slot(None)];
    if init == 0 {
      n, regs' := 1, regs1;
    } else {
      var e := ExprCode(a, init - 1, k);
      assert StmtCode(a, i, k, l).code == [Alloca(x)] + (e.code + [Store(e.val, x)]);
      AtSplit(c, pc, [Alloca(x)], e.code + [Store(e.val, x)]);
      if x in selves {
        EmptyMention(a, init - 1, Vars(regs), x);
        MissingMention(a, init - 1, Vars(regs), x);
      } else {
        EvalIgnores(a, init - 1, Vars(regs), x, None);
      }
      n, regs' := ExprThenStore(a, init - 1, k, c, pc + 1, regs1, x);
      RunChain(c, State(pc, regs), 1, State(pc + 1, regs1), n);
      n := 1 + n;
      Overwrite(Vars(regs), x, None, EvalInt(a, init - 1, Vars(regs)));
    }
  }

  /** None of the names that initialisers declare while mentioning them is a variable yet. */
  ghost predicate Clear(selves: set<string>, env: Env) { forall x :: x in env ==> x !in selves }

  /** An expression that mentions what is no variable has no value. */
  lemma {:induction false} MissingMention(a: Arena, i: nat, env: Env, x: string)
    requires Acyclic(a) && i < |a.exprs| && Mentions(a, i, x) && x !in env
    ensures Eval(a, i, env) == None
  {
    hide Denote;
    if a.exprs[i].Binary? {
      if Mentions(a, a.exprs[i].lhs - 1, x) {
        MissingMention(a, a.exprs[i].lhs - 1, env, x);
      } else {
        MissingMention(a, a.exprs[i].rhs - 1, env, x);
      }
    }
  }

  /** Nor does such a declaration ever succeed: these names never become variables. */
  lemma {:induction false} StmtClear(a: Arena, i: nat, env: Env, fuel: nat, selves: set<string>)
    requires Acyclic(a) && i < |a.stmts| && StmtCovered(a, i, selves) && Clear(selves, env)
    requires ExecStmt(a, i, env, fuel).Normal?
    ensures Clear(selves, ExecStmt(a, i, env, fuel).env)
    decreases fuel, i + 1, 0
  {
    hide Eval, EvalCond, ExprCovered, PlainName, Mentions;
    match a.stmts[i] {
      case Let(x, _, init) =>
        if x in selves {
          MissingMention(a, init - 1, env, x);
        }
      case If(cond, ts, tc, es, ec) =>
        if EvalCond(a, cond - 1, env) == Some(true) {
          RangeClear(a, ts, tc, env, fuel, selves);
        } else {
          RangeClear(a, es, ec, env, fuel, selves);
        }
      case While(cond, bs, bc) =>
        if EvalCond(a, cond - 1, env) == Some(true) {
          RangeClear(a, bs, bc, env, fuel, selves);
          StmtClear(a, i, ExecRange(a, bs, bc, env, fuel).env, fuel - 1, selves);
        }
      case _ =>
    }
  }

  lemma {:induction false} RangeClear(a: Arena, s: nat, n: nat, env: Env, fuel: nat, selves: set<string>)
    requires Acyclic(a) && s + n <= |a.stmts| && RangeCovered(a, s, n, selves) && Clear(selves, env)
    requires ExecRange(a, s, n, env, fuel).Normal?
    ensures Clear(selves, ExecRange(a, s, n, env, fuel).env)
    decreases fuel, s + n, n
  {
    hide ExecStmt, StmtCovered, Clear;
    if n > 0 {
      RangeClear(a, s, n - 1, env, fuel, selves);
      StmtClear(a, s + n - 1, ExecRange(a, s, n - 1, env, fuel).env, fuel, selves);
    }
  }

  /** An expression that mentions a variable without a value has none. */
  lemma {:induction false} EmptyMention(a: Arena, i: nat, env: Env, x: string)
    requires Acyclic(a) && i < |a.exprs| && Mentions(a, i, x)
    ensures Eval(a, i, env[x := None]) == None
  {
    hide Denote;
    if a.exprs[i].Binary? {
      if Mentions(a, a.exprs[i].lhs - 1, x) {
        EmptyMention(a, a.exprs[i].lhs - 1, env, x);
      } else {
        EmptyMention(a, a.exprs[i].rhs - 1, env, x);
      }
    }
  }

  /** A declaration whose initialiser mentions the declared name, whether that is a variable already or not: the
      code always gets stuck, so it does what the source does exactly if the initialiser has no value there either. */
  lemma SelfInitialiser(a: Arena, i: nat, k: nat, l: nat, c: seq<Instr>, pc: nat, regs: Regs, fuel: nat)
    returns (n: nat, regs': Regs)
    requires Acyclic(a) && i < |a.stmts| && a.stmts[i].Let? && a.stmts[i].init != 0 && PlainName(a.stmts[i].x)
    requires ExprCovered(a, a.stmts[i].init - 1) && Mentions(a, a.stmts[i].init - 1, a.stmts[i].x)
    requires At(c, pc, StmtCode(a, i, k, l).code) && SlotsPlain(regs)
    ensures Run(c, State(pc, regs), n) == Stuck
    ensures Simulates(c, State(pc, regs), pc + |StmtCode(a, i, k, l).code|, ExecStmt(a, i, Vars(regs), fuel), fuel, n,
            regs')
            <==> EvalInt(a, a.stmts[i].init - 1, Vars(regs)).None?
  {
    hide ExprCode, Eval, ExprCovered, PlainName, Run, At, Vars, SlotsPlain, Mentions;
    var Let(x, _, init) := a.stmts[i];
    AtOne(c, pc, StmtCode(a, i, k, l).code);
    RunOne(c, State(pc, regs));
    SetSlot(regs, x, None);
    var regs1 := regs[x := Slot(None)];
    var e := ExprCode(a, init - 1, k);
    assert StmtCode(a, i, k, l).code == [Alloca(x)] + (e.code + [Store(e.val, x)]);
    AtSplit(c, pc, [Alloca(x)], e.code + [Store(e.val, x)]);
    EmptyMention(a, init - 1, Vars(regs), x);
    n, regs' := ExprThenStore(a, init - 1, k, c, pc + 1, regs1, x);
    RunChain(c, State(pc, regs), 1, State(pc + 1, regs1), n);
    n := 1 + n;
  }

  lemma AssignSim(a: Arena, i: nat, k: nat, l: nat, c: seq<Instr>, pc: nat, regs: Regs, fuel: nat, selves: set<string>)
    returns (n: nat, regs': Regs)
    requires Acyclic(a) && i < |a.stmts| && a.stmts[i].Assign? && StmtCovered(a, i, selves)
    requires At(c, pc, StmtCode(a, i, k, l).code) && SlotsPlain(regs)
    ensures Simulates(c, State(pc, regs), pc + |StmtCode(a, i, k, l).code|,
                      ExecStmt(a, i, Vars(regs), fuel), fuel, n, regs')
  {
    hide ExprCode, Eval, ExprCovered, PlainName, Run, At, Vars, SlotsPlain;
    var Assign(place, source) := a.stmts[i];
    var x := a.exprs[place - 1].name;
    var e := ExprCode(a, source - 1, k);
    assert StmtCode(a, i, k, l).code == e.code + [Store(e.val, x)];
    n, regs' := ExprThenStore(a, source - 1, k, c, pc, regs, x);
  }

  lemma ReturnSim(a: Arena, i: nat, k: nat, l: nat, c: seq<Instr>, pc: nat, regs: Regs, fuel: nat, selves: set<string>)
    returns (n: nat, regs': Regs)
    requires Acyclic(a) && i < |a.stmts| && a.stmts[i].Return? && StmtCovered(a, i, selves)
    requires At(c, pc, StmtCode(a, i, k, l).code) && SlotsPlain(regs)
    ensures Simulates(c, State(pc, regs), pc + |StmtCode(a, i, k, l).code|,
                      ExecStmt(a, i, Vars(regs), fuel), fuel, n, regs')
  {
    hide ExprCode, Eval, ExprCovered, PlainName, Run, At, Vars, SlotsPlain;
    var value := a.stmts[i].value;
    if value == 0 {
      AtOne(c, pc, StmtCode(a, i, k, l).code);
      RunOne(c, State(pc, regs));
      n, regs' := 1, regs;
      ZeroText();
    } else {
      n, regs' := ExprThenRet(a, value - 1, k, c, pc, regs);
    }
  }

  lemma ZeroText()
    ensures AllDigits("0") && ReadDecimal("0") == 0
  {
    assert "0"[..0] == "";
  }

  /** Where a simulated run ends, and what may follow it there. */
  lemma NormalEnd(c: seq<Instr>, s: State, end: nat, r: Result, fuel: nat, n: nat, regs': Regs)
    requires Simulates(c, s, end, r, fuel, n, regs')
    ensures r.Normal? ==> Vars(regs') == r.env && SlotsPlain(regs')
    ensures !r.Normal? ==> forall end': nat :: Simulates(c, s, end', r, fuel, n, regs')
  {
    hide Run, Vars, SlotsPlain;
  }

  lemma SimulatesThen(c: seq<Instr>, s: State, mid: nat, r: Result, fuel: nat, n: nat, regs: Regs,
                      end: nat, r': Result, n': nat, regs': Regs)
    requires Simulates(c, s, mid, r, fuel, n, regs) && r.Normal?
    requires Simulates(c, State(mid, regs), end, r', fuel, n', regs')
    ensures Simulates(c, s, end, r', fuel, n + n', regs')
  {
    hide Run, Vars, SlotsPlain;
    SimulatesAfter(c, s, n, State(mid, regs), end, r', fuel, n', regs');
  }

  lemma SimulatesNothing(c: seq<Instr>, s: State, fuel: nat)
    requires SlotsPlain(s.regs)
    ensures Simulates(c, s, s.pc, Normal(Vars(s.regs)), fuel, 0, s.regs)
  {}

  lemma {:induction false} RangeSim(a: Arena, s: nat, m: nat, k: nat, l: nat, c: seq<Instr>, pc: nat, regs: Regs,
                                    fuel: nat, selves: set<string>)
    returns (n: nat, regs': Regs)
    requires Acyclic(a) && s + m <= |a.stmts| && RangeCovered(a, s, m, selves) && UniqueLabels(c)
    requires At(c, pc, RangeCode(a, s, m, k, l).code) && SlotsPlain(regs) && Clear(selves, Vars(regs))
    ensures Simulates(c, State(pc, regs), pc + |RangeCode(a, s, m, k, l).code|,
                      ExecRange(a, s, m, Vars(regs), fuel), fuel, n, regs')
    decreases fuel, s + m, m
  {
    hide ExecStmt, StmtCode, StmtCovered, Vars, SlotsPlain, At, UniqueLabels, Clear, Acyclic, Simulates;
    if m == 0 {
      n, regs' := 0, regs;
      SimulatesNothing(c, State(pc, regs), fuel);
    } else {
      var before := RangeCode(a, s, m - 1, k, l);
      var last := StmtCode(a, s + m - 1, before.tmps, before.labels);
      AtSplit(c, pc, before.code, last.code);
      n, regs' := RangeSim(a, s, m - 1, k, l, c, pc, regs, fuel, selves);
      var r := ExecRange(a, s, m - 1, Vars(regs), fuel);
      NormalEnd(c, State(pc, regs), pc + |before.code|, r, fuel, n, regs');
      if r.Normal? {
        RangeClear(a, s, m - 1, Vars(regs), fuel, selves);
        var regs1, n1 := regs', n;
        n, regs' := StmtSim(a, s + m - 1, before.tmps, before.labels, c, pc + |before.code|, regs1, fuel, selves);
        SimulatesThen(c, State(pc, regs), pc + |before.code|, r, fuel, n1, regs1, pc + |before.code + last.code|,
                      ExecStmt(a, s + m - 1, r.env, fuel), n, regs');
        n := n1 + n;
      }
    }
  }

  lemma {:induction false} StmtSim(a: Arena, i: nat, k: nat, l: nat, c: seq<Instr>, pc: nat, regs: Regs, fuel: nat,
                                   selves: set<string>)
    returns (n: nat, regs': Regs)
    requires Acyclic(a) && i < |a.stmts| && StmtCovered(a, i, selves) && UniqueLabels(c)
    requires At(c, pc, StmtCode(a, i, k, l).code) && SlotsPlain(regs) && Clear(selves, Vars(regs))
    ensures Simulates(c, State(pc, regs), pc + |StmtCode(a, i, k, l).code|,
                      ExecStmt(a, i, Vars(regs), fuel), fuel, n, regs')
    decreases fuel, i + 1, 0, 3
  {
    hide Simulates, StmtCode, ExecStmt, Vars, SlotsPlain, At, UniqueLabels;
    match a.stmts[i] {
      case Let(_, _, _) => n, regs' := LetSim(a, i, k, l, c, pc, regs, fuel, selves);
      case Assign(_, _) => n, regs' := AssignSim(a, i, k, l, c, pc, regs, fuel, selves);
      case Return(_) => n, regs' := ReturnSim(a, i, k, l, c, pc, regs, fuel, selves);
      case If(_, _, _, _, _) => n, regs' := IfSim(a, i, k, l, c, pc, regs, fuel, selves);
      case While(_, _, _) => n, regs' := WhileSim(a, i, k, l, c, pc, regs, fuel, selves);
      case ExprStmt(_) => n, regs' := ExprStmtSim(a, i, k, l, c, pc, regs, fuel, selves);
    }
  }

  lemma ExprStmtSim(a: Arena, i: nat, k: nat, l: nat, c: seq<Instr>, pc: nat, regs: Regs, fuel: nat,
                    selves: set<string>)
    returns (n: nat, regs': Regs)
    requires Acyclic(a) && i < |a.stmts| && a.stmts[i].ExprStmt? && StmtCovered(a, i, selves)
    requires At(c, pc, StmtCode(a, i, k, l).code) && SlotsPlain(regs)
    ensures Simulates(c, State(pc, regs), pc + |StmtCode(a, i, k, l).code|,
                      ExecStmt(a, i, Vars(regs), fuel), fuel, n, regs')
  {
    hide ExprCode, Eval, ExprCovered, PlainName, Run, At, Vars, SlotsPlain;
    n, regs' := ExprSim(a, a.stmts[i].expr - 1, k, c, pc, regs);
  }

  /** Where the pieces of a conditional stand. */
  lemma IfLayout(c: seq<Instr>, pc: nat, ce: seq<Instr>, br: Instr, t: seq<Instr>, e: seq<Instr>,
                 thn: string, els: string, merge: string, two: bool)
    requires At(c, pc, ce + [br, Label(thn)] + t + [Br(merge)]
                       + (if two then [Label(els)] + e + [Br(merge)] else []) + [Label(merge)])
    ensures At(c, pc, ce + [br])
    ensures var p := pc + |ce| + 1;
            && p < |c| && c[p] == Label(thn) && At(c, p + 1, t)
            && p + 1 + |t| < |c| && c[p + 1 + |t|] == Br(merge)
    ensures var p := pc + |ce| + |t| + 3;
            two ==> p < |c| && c[p] == Label(els) && At(c, p + 1, e) && p + 1 + |e| < |c| && c[p + 1 + |e|] == Br(merge)
    ensures var p := pc + |ce| + |t| + 3 + (if two then |e| + 2 else 0); p < |c| && c[p] == Label(merge)
  {
    hide At;
    var x := if two then [Label(els)] + e + [Br(merge)] else [];
    var y := [br, Label(thn)];
    var head := ce + y + t + [Br(merge)];
    AtLast(c, pc, head + x, Label(merge));
    AtSplit(c, pc, head, x);
    ThenLayout(c, pc, ce, br, t, thn, merge);
    if two {
      ElseLayout(c, pc + |head|, e, els, merge);
    }
  }

  lemma ThenLayout(c: seq<Instr>, pc: nat, ce: seq<Instr>, br: Instr, t: seq<Instr>, thn: string, merge: string)
    requires At(c, pc, ce + [br, Label(thn)] + t + [Br(merge)])
    ensures At(c, pc, ce + [br])
    ensures var p := pc + |ce| + 1;
            && p < |c| && c[p] == Label(thn) && At(c, p + 1, t)
            && p + 1 + |t| < |c| && c[p + 1 + |t|] == Br(merge)
  {
    hide At;
    AtLast(c, pc, ce + [br, Label(thn)] + t, Br(merge));
    AtSplit(c, pc, ce + [br, Label(thn)], t);
    assert ce + [br, Label(thn)] == ce + [br] + [Label(thn)];
    AtLast(c, pc, ce + [br], Label(thn));
  }

  lemma ElseLayout(c: seq<Instr>, p: nat, e: seq<Instr>, els: string, merge: string)
    requires At(c, p, [Label(els)] + e + [Br(merge)])
    ensures p < |c| && c[p] == Label(els) && At(c, p + 1, e) && p + 1 + |e| < |c| && c[p + 1 + |e|] == Br(merge)
  {
    hide At;
    AtLast(c, p, [Label(els)] + e, Br(merge));
    AtFirst(c, p, Label(els), e);
  }

  /** A block of a conditional, entered just after its label and left by the branch behind it. */
  lemma {:induction false} ArmSim(a: Arena, i: nat, s: nat, m: nat, k: nat, l: nat, c: seq<Instr>, pc: nat, regs: Regs,
                                  merge: string, p: nat, fuel: nat, selves: set<string>)
    returns (n: nat, regs': Regs)
    requires Acyclic(a) && i < |a.stmts| && s + m <= i && RangeCovered(a, s, m, selves) && UniqueLabels(c)
    requires SlotsPlain(regs)
    requires Clear(selves, Vars(regs))
    requires var d := RangeCode(a, s, m, k, l).code; At(c, pc, d) && pc + |d| < |c| && c[pc + |d|] == Br(merge)
    requires p < |c| && c[p] == Label(merge)
    ensures Simulates(c, State(pc, regs), p + 1, ExecRange(a, s, m, Vars(regs), fuel), fuel, n, regs')
    decreases fuel, i + 1, 0, 0
  {
    hide ExecRange, RangeCode, RangeCovered, Acyclic, Vars, SlotsPlain, At, UniqueLabels, Run;
    n, regs' := RangeSim(a, s, m, k, l, c, pc, regs, fuel, selves);
    if ExecRange(a, s, m, Vars(regs), fuel).Normal? {
      BranchAfter(c, State(pc, regs), n, pc + |RangeCode(a, s, m, k, l).code|, regs', merge, p);
      n := n + 1;
    }
  }

  lemma {:induction false} IfSim(a: Arena, i: nat, k: nat, l: nat, c: seq<Instr>, pc: nat, regs: Regs, fuel: nat,
                                 selves: set<string>)
    returns (n: nat, regs': Regs)
    requires Acyclic(a) && i < |a.stmts| && a.stmts[i].If? && StmtCovered(a, i, selves) && UniqueLabels(c)
    requires At(c, pc, StmtCode(a, i, k, l).code) && SlotsPlain(regs) && Clear(selves, Vars(regs))
    ensures Simulates(c, State(pc, regs), pc + |StmtCode(a, i, k, l).code|,
                      ExecStmt(a, i, Vars(regs), fuel), fuel, n, regs')
    decreases fuel, i + 1, 0, 2
  {
    hide ExprCode, RangeCode, ExecRange, EvalCond, LabelName, Run, Vars, SlotsPlain, At, UniqueLabels,
         ExprCovered, RangeCovered, Jump, FindLabel;
    var If(cond, ts, tc, es, ec) := a.stmts[i];
    var thn, els, merge := LabelName("then", l + 1), LabelName("else", l + 2), LabelName("merge", l + 3);
    var ce := ExprCode(a, cond - 1, k);
    var t := RangeCode(a, ts, tc, ce.tmps, l + 3);
    var e := RangeCode(a, es, ec, t.tmps, t.labels);
    var other := if ec > 0 then els else merge;
    var br := CondBr(ce.val, thn, other);
    IfLayout(c, pc, ce.code, br, t.code, e.code, thn, els, merge, ec > 0);
    var pm := pc + |StmtCode(a, i, k, l).code| - 1;
    n, regs' := ExprThenBranch(a, cond - 1, k, c, pc, regs, thn, other);
    var b := EvalCond(a, cond - 1, Vars(regs));
    if b.Some? {
      var regs1, n1 := regs', n;
      var p := if b.value then pc + |ce.code| + 1 else pc + |ce.code| + |t.code| + 3;
      JumpTo(c, p, if b.value then thn else other, regs1);
      if b.value {
        n, regs' := ArmSim(a, i, ts, tc, ce.tmps, l + 3, c, p + 1, regs1, merge, pm, fuel, selves);
        SimulatesAfter(c, State(pc, regs), n1, State(p + 1, regs1), pm + 1,
                       ExecRange(a, ts, tc, Vars(regs), fuel), fuel, n, regs');
        n := n1 + n;
      } else if ec > 0 {
        n, regs' := ArmSim(a, i, es, ec, t.tmps, t.labels, c, p + 1, regs1, merge, pm, fuel, selves);
        SimulatesAfter(c, State(pc, regs), n1, State(p + 1, regs1), pm + 1,
                       ExecRange(a, es, ec, Vars(regs), fuel), fuel, n, regs');
        n := n1 + n;
      } else {
        NothingRuns(a, es, Vars(regs), fuel);
      }
    }
  }

  lemma NothingRuns(a: Arena, s: nat, env: Env, fuel: nat)
    requires Acyclic(a) && s <= |a.stmts|
    ensures ExecRange(a, s, 0, env, fuel) == Normal(env)
  {}

  /** Where the pieces of a loop stand. */
  lemma WhileLayout(c: seq<Instr>, pc: nat, ce: seq<Instr>, br: Instr, b: seq<Instr>, head: string, body: string,
                    end: string)
    requires At(c, pc, [Br(head), Label(head)] + ce + [br, Label(body)] + b + [Br(head), Label(end)])
    ensures pc + 1 < |c| && c[pc] == Br(head) && c[pc + 1] == Label(head) && At(c, pc + 2, ce + [br])
    ensures var p := pc + |ce| + 3;
            && p < |c| && c[p] == Label(body) && At(c, p + 1, b)
            && p + |b| + 2 < |c| && c[p + |b| + 1] == Br(head) && c[p + |b| + 2] == Label(end)
  {
    hide At;
    var x, y := [Br(head), Label(head)], [br, Label(body)];
    var inside := x + ce + y + b;
    assert inside + [Br(head), Label(end)] == inside + [Br(head)] + [Label(end)];
    AtLast(c, pc, inside + [Br(head)], Label(end));
    AtLast(c, pc, inside, Br(head));
    AtSplit(c, pc, x + ce + y, b);
    WhileHead(c, pc, ce, br, head, body);
  }

  lemma WhileHead(c: seq<Instr>, pc: nat, ce: seq<Instr>, br: Instr, head: string, body: string)
    requires At(c, pc, [Br(head), Label(head)] + ce + [br, Label(body)])
    ensures pc + 1 < |c| && c[pc] == Br(head) && c[pc + 1] == Label(head) && At(c, pc + 2, ce + [br])
    ensures var p := pc + |ce| + 3; p < |c| && c[p] == Label(body)
  {
    hide At;
    assert [Br(head), Label(head)] + ce + [br, Label(body)] ==
      [Br(head)] + ([Label(head)] + (ce + [br] + [Label(body)]));
    AtFirst(c, pc, Br(head), [Label(head)] + (ce + [br] + [Label(body)]));
    AtFirst(c, pc + 1, Label(head), ce + [br] + [Label(body)]);
    AtLast(c, pc + 2, ce + [br], Label(body));
  }

  lemma {:induction false} WhileSim(a: Arena, i: nat, k: nat, l: nat, c: seq<Instr>, pc: nat, regs: Regs, fuel: nat,
                                    selves: set<string>)
    returns (n: nat, regs': Regs)
    requires Acyclic(a) && i < |a.stmts| && a.stmts[i].While? && StmtCovered(a, i, selves) && UniqueLabels(c)
    requires At(c, pc, StmtCode(a, i, k, l).code) && SlotsPlain(regs) && Clear(selves, Vars(regs))
    ensures Simulates(c, State(pc, regs), pc + |StmtCode(a, i, k, l).code|,
                      ExecStmt(a, i, Vars(regs), fuel), fuel, n, regs')
    decreases fuel, i + 1, 0, 2
  {
    hide ExprCode, RangeCode, ExecStmt, LabelName, Run, Vars, SlotsPlain, At, UniqueLabels, StmtCovered, Simulates;
    var While(cond, bs, bc) := a.stmts[i];
    var head, body, end :=
      LabelName("while.cond", l + 1), LabelName("while.body", l + 2), LabelName("while.end", l + 3);
    var ce := ExprCode(a, cond - 1, k);
    WhileLayout(c, pc, ce.code, CondBr(ce.val, body, end), RangeCode(a, bs, bc, ce.tmps, l + 3).code, head, body, end);
    NoSteps(c, State(pc, regs));
    BranchAfter(c, State(pc, regs), 0, pc, regs, head, pc + 1);
    n, regs' := LoopSim(a, i, k, l, c, pc, regs, fuel, selves);
    SimulatesAfter(c, State(pc, regs), 1, State(pc + 2, regs), pc + |StmtCode(a, i, k, l).code|,
                   ExecStmt(a, i, Vars(regs), fuel), fuel, n, regs');
    n := 1 + n;
  }

  lemma NoSteps(c: seq<Instr>, s: State)
    ensures Run(c, s, 0) == Running(s)
  {}

  /** The loop from its head on, once per unit of fuel. */
  lemma {:induction false} LoopSim(a: Arena, i: nat, k: nat, l: nat, c: seq<Instr>, pc: nat, regs: Regs, fuel: nat,
                                   selves: set<string>)
    returns (n: nat, regs': Regs)
    requires Acyclic(a) && i < |a.stmts| && a.stmts[i].While? && StmtCovered(a, i, selves) && UniqueLabels(c)
    requires At(c, pc, StmtCode(a, i, k, l).code) && SlotsPlain(regs) && Clear(selves, Vars(regs))
    ensures Simulates(c, State(pc + 2, regs), pc + |StmtCode(a, i, k, l).code|,
                      ExecStmt(a, i, Vars(regs), fuel), fuel, n, regs')
    decreases fuel, i + 1, 0, 1
  {
    hide ExprCode, RangeCode, ExecRange, EvalCond, LabelName, Run, Vars, SlotsPlain, At, UniqueLabels,
         ExprCovered, RangeCovered, Jump, FindLabel;
    var While(cond, bs, bc) := a.stmts[i];
    var head, body, end :=
      LabelName("while.cond", l + 1), LabelName("while.body", l + 2), LabelName("while.end", l + 3);
    var ce := ExprCode(a, cond - 1, k);
    var b := RangeCode(a, bs, bc, ce.tmps, l + 3).code;
    WhileLayout(c, pc, ce.code, CondBr(ce.val, body, end), b, head, body, end);
    n, regs' := 0, regs;
    NoSteps(c, State(pc + 2, regs));
    if fuel > 0 {
      n, regs' := ExprThenBranch(a, cond - 1, k, c, pc + 2, regs, body, end);
      var v := EvalCond(a, cond - 1, Vars(regs));
      if v == Some(false) {
        JumpTo(c, pc + |ce.code| + |b| + 5, end, regs');
      } else if v == Some(true) {
        JumpTo(c, pc + |ce.code| + 3, body, regs');
        n, regs' := IterationSim(a, i, k, l, c, pc, regs, n, regs', fuel, selves);
      }
    }
  }

  /** One iteration whose condition held, and the rest of the loop. */
  lemma {:induction false} IterationSim(a: Arena, i: nat, k: nat, l: nat, c: seq<Instr>, pc: nat, regs: Regs,
                                        n1: nat, regs1: Regs, fuel: nat, selves: set<string>)
    returns (n: nat, regs': Regs)
    requires fuel > 0 && Acyclic(a) && i < |a.stmts| && a.stmts[i].While? && StmtCovered(a, i, selves)
    requires UniqueLabels(c)
    requires At(c, pc, StmtCode(a, i, k, l).code) && SlotsPlain(regs1) && Clear(selves, Vars(regs))
    requires EvalCond(a, a.stmts[i].wcond - 1, Vars(regs)) == Some(true) && Vars(regs1) == Vars(regs)
    requires Run(c, State(pc + 2, regs), n1)
          == Running(State(pc + |ExprCode(a, a.stmts[i].wcond - 1, k).code| + 4, regs1))
    ensures Simulates(c, State(pc + 2, regs), pc + |StmtCode(a, i, k, l).code|,
                      ExecStmt(a, i, Vars(regs), fuel), fuel, n, regs')
    decreases fuel, i + 1, 0, 0
  {
    hide ExprCode, RangeCode, ExecRange, EvalCond, LabelName, Run, Vars, SlotsPlain, At, UniqueLabels,
         ExprCovered, RangeCovered;
    var While(cond, bs, bc) := a.stmts[i];
    var head, body, end :=
      LabelName("while.cond", l + 1), LabelName("while.body", l + 2), LabelName("while.end", l + 3);
    var ce := ExprCode(a, cond - 1, k);
    var b := RangeCode(a, bs, bc, ce.tmps, l + 3).code;
    WhileLayout(c, pc, ce.code, CondBr(ce.val, body, end), b, head, body, end);
    var start := State(pc + 2, regs);
    var p := pc + |ce.code| + 4;
    var finish := pc + |StmtCode(a, i, k, l).code|;
    var r := ExecRange(a, bs, bc, Vars(regs), fuel);
    n, regs' := RangeSim(a, bs, bc, ce.tmps, l + 3, c, p, regs1, fuel, selves);
    SimulatesAfter(c, start, n1, State(p, regs1), p + |b|, r, fuel, n, regs');
    n := n1 + n;
    if r.Normal? {
      var n2, regs2 := n, regs';
      BranchAfter(c, start, n2, p + |b|, regs2, head, pc + 1);
      RangeClear(a, bs, bc, Vars(regs), fuel, selves);
      n, regs' := LoopSim(a, i, k, l, c, pc, regs2, fuel - 1, selves);
      SimulatesAfter(c, start, n2 + 1, State(pc + 2, regs2), finish, ExecStmt(a, i, r.env, fuel - 1), fuel - 1, n,
        regs');
      n := n2 + 1 + n;
    }
  }

  // ------------------------------------------------------------------ functions --

  /** The registers that a function of the arena starts with: its arguments, under the names of its parameters. */
  function ArgRegs(a: Arena, start: nat, args: seq<int>): Regs
    requires start + |args| <= |a.params|
  {
    if args == [] then map[] else
      var n := |args| - 1;
      ArgRegs(a, start, args[..n])[ArgName(a.params[start + n].name) := Word(I32(args[n]))]
  }

  ghost predicate DistinctParams(a: Arena, start: nat, n: nat)
    requires start + n <= |a.params|
  {
    && (forall i :: start <= i < start + n ==> PlainName(a.params[i].name))
    && (forall i, j :: start <= i < j < start + n ==> a.params[i].name != a.params[j].name)
  }

  /** The first argument registers hold their arguments, and there is no slot yet. */
  lemma {:induction false} ArgRegsHold(a: Arena, start: nat, args: seq<int>)
    requires start + |args| <= |a.params| && DistinctParams(a, start, |args|)
    ensures ArgsHeld(a, start, args, ArgRegs(a, start, args))
    ensures Vars(ArgRegs(a, start, args)) == map[]
  {
    hide PlainName, ArgName;
    if args != [] {
      var n := |args| - 1;
      ArgRegsHold(a, start, args[..n]);
      var regs := ArgRegs(a, start, args[..n]);
      forall j | 0 <= j < |args| ensures ArgHeld(a, start, j, args, ArgRegs(a, start, args)) {
        if j < n {
          assert ArgHeld(a, start, j, args[..n], regs);
          assert args[..n][j] == args[j];
          if ArgName(a.params[start + j].name) == ArgName(a.params[start + n].name) {
            ArgNameInjective(a.params[start + j].name, a.params[start + n].name);
          }
        }
      }
    }
  }

  ghost predicate ArgHeld(a: Arena, start: nat, j: nat, args: seq<int>, regs: Regs)
    requires start + |args| <= |a.params| && j < |args|
  {
    var x := ArgName(a.params[start + j].name);
    x in regs && regs[x] == Word(I32(args[j]))
  }

  ghost predicate ArgsHeld(a: Arena, start: nat, args: seq<int>, regs: Regs)
    requires start + |args| <= |a.params|
  {
    forall j :: 0 <= j < |args| ==> ArgHeld(a, start, j, args, regs)
  }

  /** The prologue stores each argument into the slot of its parameter. */
  lemma {:induction false} ParamsSim(a: Arena, start: nat, args: seq<int>, m: nat, c: seq<Instr>, pc: nat)
    returns (regs: Regs)
    requires start + |args| <= |a.params| && m <= |args| && DistinctParams(a, start, |args|)
    requires At(c, pc, ParamsCode(a, start, m))
    ensures Run(c, State(pc, ArgRegs(a, start, args)), 2 * m) == Running(State(pc + 2 * m, regs))
    ensures |ParamsCode(a, start, m)| == 2 * m
    ensures ArgsHeld(a, start, args, regs)
    ensures Vars(regs) == ParamEnv(a, start, args[..m]) && SlotsPlain(regs)
  {
    hide PlainName, ArgName, Run, At, Vars, SlotsPlain, ArgHeld;
    if m == 0 {
      regs := ArgRegs(a, start, args);
      ArgRegsHold(a, start, args);
      NoSlots(regs);
      NoSteps(c, State(pc, regs));
    } else {
      var x := a.params[start + m - 1].name;
      var code := ParamsCode(a, start, m - 1);
      AtSplit(c, pc, code, [Alloca(x), Store(Local(ArgName(x)), x)]);
      var regs0 := ParamsSim(a, start, args, m - 1, c, pc);
      regs := ParamStep(a, start, args, m - 1, c, pc + 2 * (m - 1), regs0);
      RunChain(c, State(pc, ArgRegs(a, start, args)), 2 * (m - 1), State(pc + 2 * (m - 1), regs0), 2);
      assert args[..m][..m - 1] == args[..m - 1];
    }
  }

  lemma NoSlots(regs: Regs)
    requires Vars(regs) == map[]
    ensures SlotsPlain(regs)
  {}

  lemma ParamStep(a: Arena, start: nat, args: seq<int>, j: nat, c: seq<Instr>, pc: nat, regs: Regs)
    returns (regs': Regs)
    requires start + |args| <= |a.params| && j < |args| && DistinctParams(a, start, |args|)
    requires var x := a.params[start + j].name; At(c, pc, [Alloca(x), Store(Local(ArgName(x)), x)])
    requires ArgsHeld(a, start, args, regs) && SlotsPlain(regs)
    ensures Run(c, State(pc, regs), 2) == Running(State(pc + 2, regs'))
    ensures ArgsHeld(a, start, args, regs')
    ensures Vars(regs') == Vars(regs)[a.params[start + j].name := Some(args[j])] && SlotsPlain(regs')
  {
    hide PlainName, ArgName, Run, At, Vars, SlotsPlain;
    var x := a.params[start + j].name;
    var regs1 := regs[x := Slot(None)];
    regs' := regs1[x := Slot(Some(args[j]))];
    assert [Alloca(x), Store(Local(ArgName(x)), x)] == [Alloca(x)] + [Store(Local(ArgName(x)), x)];
    AtSplit(c, pc, [Alloca(x)], [Store(Local(ArgName(x)), x)]);
    AtOne(c, pc, [Alloca(x)]);
    AtOne(c, pc + 1, [Store(Local(ArgName(x)), x)]);
    forall i | 0 <= i < |args|
      ensures ArgHeld(a, start, i, args, regs1) && ArgHeld(a, start, i, args, regs')
    {
      assert ArgHeld(a, start, i, args, regs);
      ArgIsNotPlain(a.params[start + i].name);
    }
    assert ArgHeld(a, start, j, args, regs1);
    RunOne(c, State(pc, regs));
    RunOne(c, State(pc + 1, regs1));
    RunChain(c, State(pc, regs), 1, State(pc + 1, regs1), 1);
    SetSlot(regs, x, None);
    SetSlot(regs1, x, Some(args[j]));
    Overwrite(Vars(regs), x, None, Some(args[j]));
  }

  lemma {:induction false} ParamDeclsPlain(a: Arena, start: nat, n: nat)
    requires start + n <= |a.params| && forall i :: start <= i < start + n ==> PlainName(a.params[i].name)
    ensures forall x :: x in ParamDecls(a, start, n) ==> PlainName(x)
  {
    hide PlainName;
    if n > 0 { ParamDeclsPlain(a, start, n - 1); }
  }

  lemma {:induction false} RangeDeclsPlain(a: Arena, s: nat, n: nat, selves: set<string>)
    requires Acyclic(a) && s + n <= |a.stmts| && RangeCovered(a, s, n, selves)
    ensures forall x :: x in RangeDecls(a, s, n) ==> PlainName(x)
    decreases s + n, n
  {
    hide PlainName;
    if n > 0 {
      RangeDeclsPlain(a, s, n - 1, selves);
      StmtDeclsPlain(a, s + n - 1, selves);
    }
  }

  lemma {:induction false} StmtDeclsPlain(a: Arena, i: nat, selves: set<string>)
    requires Acyclic(a) && i < |a.stmts| && StmtCovered(a, i, selves)
    ensures forall x :: x in StmtDecls(a, i) ==> PlainName(x)
    decreases i + 1, 0
  {
    hide PlainName;
    match a.stmts[i] {
      case If(_, ts, tc, es, ec) =>
        RangeDeclsPlain(a, ts, tc, selves);
        RangeDeclsPlain(a, es, ec, selves);
      case While(_, bs, bc) => RangeDeclsPlain(a, bs, bc, selves);
      case _ =>
    }
  }

  lemma CoveredDeclsPlain(a: Arena, f: nat, selves: set<string>)
    requires Acyclic(a) && f < |a.funcs| && FuncCovered(a, f, selves)
    ensures DeclsPlain(a, f)
  {
    hide PlainName, RangeDecls, ParamDecls;
    var d := a.funcs[f];
    ParamDeclsPlain(a, d.paramStart, d.paramCount);
    RangeDeclsPlain(a, d.bodyStart, d.bodyCount, selves);
  }

  lemma {:induction false} ParamsClear(a: Arena, start: nat, args: seq<int>, selves: set<string>)
    requires start + |args| <= |a.params| && forall j :: start <= j < start + |args| ==> a.params[j].name !in selves
    ensures Clear(selves, ParamEnv(a, start, args))
    decreases |args|
  {
    if args != [] {
      ParamsClear(a, start, args[..|args| - 1], selves);
    }
  }

  /** The first line of a function has the names of its parameters, in order. */
  lemma EntryIs(a: Arena, f: nat, l: nat, args: seq<int>)
    requires Acyclic(a) && f < |a.funcs| && |args| == a.funcs[f].paramCount
    ensures var c := FuncCode(a, f, l).code;
            Callable(c, |args|) && Entry(c, args) == State(2, ArgRegs(a, a.funcs[f].paramStart, args))
  {
    hide RangeCode, ParamsCode, ArgNames, Bound, ArgRegs;
    assert FuncInRange(a, a.funcs[f]);
    BoundNames(a, a.funcs[f].paramStart, args);
  }

  lemma {:induction false} BoundNames(a: Arena, start: nat, args: seq<int>)
    requires start + |args| <= |a.params|
    ensures Bound(ArgNames(a, start, |args|), args) == ArgRegs(a, start, args)
  {
    hide ArgName;
    if args != [] {
      var n := |args| - 1;
      BoundNames(a, start, args[..n]);
      assert ArgNames(a, start, |args|)[..n] == ArgNames(a, start, n);
    }
  }

  lemma FirstLine(a: Arena, f: nat, l: nat)
    requires Acyclic(a) && f < |a.funcs|
    ensures Callable(FuncCode(a, f, l).code, a.funcs[f].paramCount)
  {
    hide RangeCode, ParamsCode;
    assert FuncInRange(a, a.funcs[f]);
  }

  /** The emitted function, called with `args`, after at most `n` instructions. */
  function Execution(a: Arena, f: nat, l: nat, args: seq<int>, n: nat): Outcome
    requires Acyclic(a) && f < |a.funcs| && |args| == a.funcs[f].paramCount
  {
    var c := FuncCode(a, f, l).code;
    FirstLine(a, f, l);
    Run(c, Entry(c, args), n)
  }

  /** The source run with `fuel`, matched by the machine. */
  lemma FuncSim(a: Arena, f: nat, l: nat, args: seq<int>, fuel: nat, selves: set<string>) returns (n: nat, regs': Regs)
    requires Acyclic(a) && f < |a.funcs| && FuncCovered(a, f, selves) && |args| == a.funcs[f].paramCount
    ensures match ExecFunc(a, f, args, fuel)
            case Returned(v, env) => Execution(a, f, l, args, n) == Done(v, regs') && Vars(regs') == env
            case Fault => Execution(a, f, l, args, n) == Stuck
            case Timeout => Execution(a, f, l, args, n).Running? && n >= fuel
            case Normal(_) => false
  {
    hide RangeCode, ParamsCode, ArgNames, ExecRange, RangeCovered, Vars, SlotsPlain, At, UniqueLabels, Run,
         PlainName, ParamEnv, ArgRegs, Step, Clear, Entry;
    var d := a.funcs[f];
    var c := FuncCode(a, f, l).code;
    var head := [Define(d.name, ArgNames(a, d.paramStart, d.paramCount)), Label("entry")];
    var params := ParamsCode(a, d.paramStart, d.paramCount);
    var body := RangeCode(a, d.bodyStart, d.bodyCount, 0, l).code;
    CoveredDeclsPlain(a, f, selves);
    ParamsClear(a, d.paramStart, args, selves);
    BranchTargets(a, f, l);
    FuncLayout(head, params, body);
    assert args[..|args|] == args;
    EntryIs(a, f, l, args);
    var regs := ParamsSim(a, d.paramStart, args, |args|, c, 2);
    var start := State(2, ArgRegs(a, d.paramStart, args));
    var p := 2 + |params|;
    var r := ExecRange(a, d.bodyStart, d.bodyCount, Vars(regs), fuel);
    n, regs' := RangeSim(a, d.bodyStart, d.bodyCount, 0, l, c, p, regs, fuel, selves);
    SimulatesAfter(c, start, |params|, State(p, regs), p + |body|, r, fuel, n, regs');
    n := |params| + n;
    if r.Normal? {
      RunChain(c, start, n, State(p + |body|, regs'), 1);
      RetZero(c, State(p + |body|, regs'));
      n := n + 1;
    }
  }

  lemma RetZero(c: seq<Instr>, s: State)
    requires s.pc < |c| && c[s.pc] == Ret(Lit("0"))
    ensures Run(c, s, 1) == Done(0, s.regs)
  {
    ZeroText();
    RunOne(c, s);
  }

  lemma FuncLayout(head: seq<Instr>, params: seq<Instr>, body: seq<Instr>)
    requires |head| == 2
    ensures var c := head + params + body + [Ret(Lit("0")), EndDefine];
            && At(c, 2, params) && At(c, 2 + |params|, body)
            && 2 + |params| + |body| < |c| && c[2 + |params| + |body|] == Ret(Lit("0"))
  {
    var c := head + params + body + [Ret(Lit("0")), EndDefine];
    assert c[2..2 + |params|] == params;
    assert c[2 + |params|..2 + |params| + |body|] == body;
  }

  /** A machine that has stopped after `n` instructions: some source run ended the same way. */
  lemma Reflect(a: Arena, f: nat, l: nat, args: seq<int>, n: nat, selves: set<string>) returns (m: nat, regs': Regs)
    requires Acyclic(a) && f < |a.funcs| && FuncCovered(a, f, selves) && |args| == a.funcs[f].paramCount
    requires !Execution(a, f, l, args, n).Running?
    ensures match ExecFunc(a, f, args, n + 1)
            case Returned(v, env) => Execution(a, f, l, args, n) == Done(v, regs') && Vars(regs') == env
            case Fault => Execution(a, f, l, args, n) == Stuck
            case _ => false
  {
    hide ExecFunc, FuncCode, FuncCovered, ArgRegs, Run, Vars, Entry;
    m, regs' := FuncSim(a, f, l, args, n + 1, selves);
    EntryIs(a, f, l, args);
    var c, s := FuncCode(a, f, l).code, Entry(FuncCode(a, f, l).code, args);
    if m >= n {
      RunStable(c, s, n, m);
    } else if !Run(c, s, m).Running? {
      RunStable(c, s, m, n);
    }
  }

  /** The source run of `f` ends in `r`, for some number of loop iterations. */
  ghost predicate SourceEnds(a: Arena, f: nat, args: seq<int>, r: Result)
    requires Acyclic(a) && f < |a.funcs| && |args| == a.funcs[f].paramCount
  {
    exists fuel: nat :: ExecFunc(a, f, args, fuel) == r
  }

  /** The emitted function returns `v` with the variables `env`. */
  ghost predicate CodeReturns(a: Arena, f: nat, l: nat, args: seq<int>, v: int, env: Env)
    requires Acyclic(a) && f < |a.funcs| && |args| == a.funcs[f].paramCount
  {
    exists n: nat, regs :: Execution(a, f, l, args, n) == Done(v, regs) && Vars(regs) == env
  }

  ghost predicate CodeGetsStuck(a: Arena, f: nat, l: nat, args: seq<int>)
    requires Acyclic(a) && f < |a.funcs| && |args| == a.funcs[f].paramCount
  {
    exists n: nat :: Execution(a, f, l, args, n) == Stuck
  }

  /** Code generation preserves meaning. The emitted function returns a value exactly
      when the arena does, with the same variables; it faults exactly when the arena
      does; and it runs forever exactly when the arena does. */
  lemma MeaningPreserved(a: Arena, f: nat, l: nat, args: seq<int>, v: int, env: Env, selves: set<string>)
    requires Acyclic(a) && f < |a.funcs| && FuncCovered(a, f, selves) && |args| == a.funcs[f].paramCount
    ensures CodeReturns(a, f, l, args, v, env) <==> SourceEnds(a, f, args, Returned(v, env))
    ensures CodeGetsStuck(a, f, l, args) <==> SourceEnds(a, f, args, Fault)
    ensures (forall n: nat :: Execution(a, f, l, args, n).Running?)
       <==> (forall fuel: nat :: ExecFunc(a, f, args, fuel) == Timeout)
  {
    hide ExecFunc, Execution, FuncCovered, Vars;
    forall n: nat | !Execution(a, f, l, args, n).Running?
      ensures var r := ExecFunc(a, f, args, n + 1);
              match r
              case Returned(w, e) => exists regs :: Execution(a, f, l, args, n) == Done(w, regs) && Vars(regs) == e
              case Fault => Execution(a, f, l, args, n) == Stuck
              case _ => false
    {
      var _, _ := Reflect(a, f, l, args, n, selves);
    }
    forall fuel: nat
      ensures match ExecFunc(a, f, args, fuel)
              case Returned(w, e) =>
                exists n: nat, regs :: Execution(a, f, l, args, n) == Done(w, regs) && Vars(regs) == e
              case Fault => exists n: nat :: Execution(a, f, l, args, n) == Stuck
              case Timeout => exists n: nat :: Execution(a, f, l, args, n).Running? && n >= fuel
              case Normal(_) => false
    {
      var n, regs := FuncSim(a, f, l, args, fuel, selves);
    }
  }
}
