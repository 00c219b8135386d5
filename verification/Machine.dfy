/** What emitted code does when it runs, and what the arena it came from means. */
module Machine {
  import opened Ast
  import opened Digits
  import opened Emitter
  import opened Options

  /** The two LLVM types of the emitted code: 32-bit integers and truth values. */
  datatype Val = I32(n: int) | I1(b: bool)

  // ---------------------------------------------------------------- arithmetic --

  /** Two's complement wrap-around to 32 bits. */
  function Wrap32(x: int): (r: int)
    ensures -0x8000_0000 <= r < 0x8000_0000
  {
    (x + 0x8000_0000) % 0x1_0000_0000 - 0x8000_0000
  }

  /** Division that truncates toward zero. */
  function Truncated(x: int, y: int): int
    requires y != 0
  {
    if x >= 0 then x / y else -((-x) / y)
  }

  predicate DivisionFaults(x: int, y: int) { y == 0 || (x == -0x8000_0000 && y == -1) }

  /** What an LLVM instruction computes; `None` where it has no defined result. */
  function Compute(op: Opcode, x: int, y: int): Option<Val> {
    match op
    case OpAdd => Some(I32(Wrap32(x + y)))
    case OpSub => Some(I32(Wrap32(x - y)))
    case OpMul => Some(I32(Wrap32(x * y)))
    case OpSdiv => if DivisionFaults(x, y) then None else Some(I32(Truncated(x, y)))
    case CmpEq => Some(I1(x == y))
    case CmpNe => Some(I1(x != y))
    case CmpSlt => Some(I1(x < y))
    case CmpSgt => Some(I1(x > y))
  }

  /** The 32 bits of a number. */
  function Bits(x: int): bv32 { (x % 0x1_0000_0000) as bv32 }

  function Bitwise(op: BinaryOp, x: bv32, y: bv32): bv32
    requires op in {BitAnd, BitOr, BitXor}
  {
    if op == BitAnd then x & y else if op == BitOr then x | y else x ^ y
  }

  /** What a source operator denotes on 32-bit integers. For the logical operators zero is false. */
  function Denote(op: BinaryOp, x: int, y: int): Option<Val> {
    match op
    case Add => Some(I32(Wrap32(x + y)))
    case Sub => Some(I32(Wrap32(x - y)))
    case Mul => Some(I32(Wrap32(x * y)))
    case Div => if DivisionFaults(x, y) then None else Some(I32(Truncated(x, y)))
    case Mod => if DivisionFaults(x, y) then None else Some(I32(x - y * Truncated(x, y)))
    case Eq => Some(I1(x == y))
    case NotEq => Some(I1(x != y))
    case Lt => Some(I1(x < y))
    case Gt => Some(I1(x > y))
    case Le => Some(I1(x <= y))
    case Ge => Some(I1(x >= y))
    case And => Some(I1(x != 0 && y != 0))
    case Or => Some(I1(x != 0 || y != 0))
    case _ => Some(I32(Wrap32(Bitwise(op, Bits(x), Bits(y)) as int)))
  }

  /** The operators with an opcode of their own. */
  predicate HasOpcode(op: BinaryOp) { op in {Add, Sub, Mul, Div, Eq, NotEq, Lt, Gt} }

  /** The opcode computes what the operator denotes, on all operands, exactly for
      the operators that have one; all others are emitted as additions. */
  lemma OpcodeFaithful(op: BinaryOp)
    ensures (forall x, y :: Compute(OpcodeOf(op), x, y) == Denote(op, x, y)) <==> HasOpcode(op)
    ensures !HasOpcode(op) ==> OpcodeOf(op) == OpAdd
  {
    if !HasOpcode(op) {
      EmittedAsSum(op);
      assert exists x, y :: Compute(OpcodeOf(op), x, y) != Denote(op, x, y);
    }
  }

  lemma EmittedAsSum(op: BinaryOp)
    requires !HasOpcode(op)
    ensures OpcodeOf(op) == OpAdd && exists x, y :: Compute(OpAdd, x, y) != Denote(op, x, y)
  {
    if op in {BitAnd, BitOr, BitXor} {
      BitwiseIsNoSum(op);
      assert Compute(OpAdd, 1, 1) != Denote(op, 1, 1);
    } else {
      assert Compute(OpAdd, 0, 0) != Denote(op, 0, 0) || Compute(OpAdd, 1, 1) != Denote(op, 1, 1);
    }
  }

  lemma BitwiseIsNoSum(op: BinaryOp)
    requires op in {BitAnd, BitOr, BitXor}
    ensures Bitwise(op, Bits(1), Bits(1)) as int != 2 && 0 <= Wrap32(Bitwise(op, Bits(1), Bits(1)) as int) <= 1
  {
    assert Bits(1) == 1 as bv32;
  }

  // ------------------------------------------------------------------- machine --

  /** A name stands for the address of its own stack slot, or for a computed word. */
  datatype Reg = Slot(content: Option<int>) | Word(v: Val)
  type Regs = map<string, Reg>

  datatype State = State(pc: nat, regs: Regs)
  datatype Outcome = Running(s: State) | Done(result: int, regs: Regs) | Stuck

  function OperandVal(o: Operand, regs: Regs): Option<Val> {
    match o
    case Lit(d) => if AllDigits(d) then Some(I32(ReadDecimal(d))) else None
    case Local(x) => if x in regs && regs[x].Word? then Some(regs[x].v) else None
  }

  /** An operand of a conditional branch: the constants 0 and 1, or a truth value. */
  function CondVal(o: Operand, regs: Regs): Option<bool> {
    match OperandVal(o, regs)
    case Some(I1(b)) => Some(b)
    case Some(I32(n)) => if o.Lit? && n == 0 then Some(false) else if o.Lit? && n == 1 then Some(true) else None
    case None => None
  }

  /** Where the block named `l` begins, at or after position `i`. */
  function FindLabel(c: seq<Instr>, l: string, i: nat): (p: nat)
    requires i <= |c|
    ensures i <= p <= |c|
    ensures p < |c| ==> c[p] == Label(l)
    ensures forall j :: i <= j < p ==> c[j] != Label(l)
    decreases |c| - i
  {
    if i == |c| || c[i] == Label(l) then i else FindLabel(c, l, i + 1)
  }

  function Jump(c: seq<Instr>, l: string, regs: Regs): Outcome {
    var p := FindLabel(c, l, 0);
    if p < |c| then Running(State(p + 1, regs)) else Stuck
  }

  function IsSlot(regs: Regs, x: string): bool { x in regs && regs[x].Slot? }

  /** One instruction. A block is entered by a branch only: running into a label is an error. */
  function Step(c: seq<Instr>, s: State): Outcome {
    if s.pc >= |c| then Stuck else
      var regs := s.regs;
      match c[s.pc]
      case Alloca(x) => Running(State(s.pc + 1, regs[x := Slot(None)]))
      case Store(val, x) =>
        var v := OperandVal(val, regs);
        if v.Some? && v.value.I32? && IsSlot(regs, x)
        then Running(State(s.pc + 1, regs[x := Slot(Some(v.value.n))])) else Stuck
      case Load(dst, x) =>
        if IsSlot(regs, x) && regs[x].content.Some?
        then Running(State(s.pc + 1, regs[dst := Word(I32(regs[x].content.value))])) else Stuck
      case Bin(dst, op, lhs, rhs) =>
        var v := Binary(op, OperandVal(lhs, regs), OperandVal(rhs, regs));
        if v.Some? then Running(State(s.pc + 1, regs[dst := Word(v.value)])) else Stuck
      case Br(l) => Jump(c, l, regs)
      case CondBr(o, thn, els) =>
        var b := CondVal(o, regs);
        if b.Some? then Jump(c, if b.value then thn else els, regs) else Stuck
      case Ret(o) =>
        var v := OperandVal(o, regs);
        if v.Some? && v.value.I32? then Done(v.value.n, regs) else Stuck
      case _ => Stuck
  }

  function Binary(op: Opcode, x: Option<Val>, y: Option<Val>): Option<Val> {
    if x.Some? && x.value.I32? && y.Some? && y.value.I32? then Compute(op, x.value.n, y.value.n) else None
  }

  /** The state after at most `n` instructions. */
  function Run(c: seq<Instr>, s: State, n: nat): Outcome
    decreases n
  {
    if n == 0 then Running(s) else
      var o := Step(c, s);
      if o.Running? then Run(c, o.s, n - 1) else o
  }

  lemma {:induction false} RunAdd(c: seq<Instr>, s: State, m: nat, n: nat)
    ensures var o := Run(c, s, m); Run(c, s, m + n) == if o.Running? then Run(c, o.s, n) else o
    decreases m
  {
    if m > 0 && Step(c, s).Running? {
      RunAdd(c, Step(c, s).s, m - 1, n);
    }
  }

  /** A program that has stopped stays stopped, with the same answer. */
  lemma RunStable(c: seq<Instr>, s: State, m: nat, n: nat)
    requires !Run(c, s, m).Running? && m <= n
    ensures Run(c, s, n) == Run(c, s, m)
  {
    RunAdd(c, s, m, n - m);
  }

  /** The registers of a function that has been called: every name of its first line stands for the argument
      at its place. */
  function Bound(names: seq<string>, args: seq<int>): Regs
    requires |names| == |args|
  {
    if args == [] then map[] else
      var n := |args| - 1;
      Bound(names[..n], args[..n])[names[n] := Word(I32(args[n]))]
  }

  /** Code that can be called with `n` arguments: it begins with a first line for as many, and its entry. */
  predicate Callable(c: seq<Instr>, n: nat) { |c| >= 2 && c[0].Define? && |c[0].args| == n && c[1] == Label("entry") }

  function Entry(c: seq<Instr>, args: seq<int>): State
    requires Callable(c, |args|)
  {
    State(2, Bound(c[0].args, args))
  }

  // ------------------------------------------------------ meaning of the arena --

  /** The variables of a function. A declared variable may still be without a value. */
  type Env = map<string, Option<int>>

  /** How running a piece of the arena ends. `Timeout` means that the loop bound was reached. */
  datatype Result = Normal(env: Env) | Returned(value: int, env: Env) | Fault | Timeout

  function EvalBinary(op: BinaryOp, x: Option<Val>, y: Option<Val>): Option<Val> {
    if x.Some? && x.value.I32? && y.Some? && y.value.I32? then Denote(op, x.value.n, y.value.n) else None
  }

  function Eval(a: Arena, i: nat, env: Env): Option<Val>
    requires Acyclic(a) && i < |a.exprs|
  {
    match a.exprs[i]
    case IntLit(n) => Some(I32(n))
    case Ident(x) => if x in env && env[x].Some? then Some(I32(env[x].value)) else None
    case Binary(lhs, op, rhs) => EvalBinary(op, Eval(a, lhs - 1, env), Eval(a, rhs - 1, env))
    case _ => None
  }

  /** A condition: a comparison, or one of the literals 0 and 1. */
  function EvalCond(a: Arena, i: nat, env: Env): Option<bool>
    requires Acyclic(a) && i < |a.exprs|
  {
    match a.exprs[i]
    case IntLit(n) => if n == 0 then Some(false) else if n == 1 then Some(true) else None
    case _ => match Eval(a, i, env) case Some(I1(b)) => Some(b) case _ => None
  }

  /** A value that a variable can hold. */
  function EvalInt(a: Arena, i: nat, env: Env): Option<int>
    requires Acyclic(a) && i < |a.exprs|
  {
    match Eval(a, i, env) case Some(I32(n)) => Some(n) case _ => None
  }

  /** Runs the statement at `i`; every loop iteration uses up one unit of `fuel`. */
  function ExecStmt(a: Arena, i: nat, env: Env, fuel: nat): Result
    requires Acyclic(a) && i < |a.stmts|
    decreases fuel, i + 1, 0
  {
    match a.stmts[i]
    case Let(x, _, init) =>
      if init == 0 then Normal(env[x := None]) else
        var v := EvalInt(a, init - 1, env);
        if v.Some? then Normal(env[x := v]) else Fault
    case Assign(place, source) =>
      var v := EvalInt(a, source - 1, env);
      if v.Some? && a.exprs[place - 1].Ident? && a.exprs[place - 1].name in env
      then Normal(env[a.exprs[place - 1].name := v]) else Fault
    case Return(value) =>
      if value == 0 then Returned(0, env) else
        var v := EvalInt(a, value - 1, env);
        if v.Some? then Returned(v.value, env) else Fault
    case If(cond, ts, tc, es, ec) =>
      var b := EvalCond(a, cond - 1, env);
      if b.None? then Fault
      else if b.value then ExecRange(a, ts, tc, env, fuel)
      else ExecRange(a, es, ec, env, fuel)
    case While(cond, bs, bc) =>
      if fuel == 0 then Timeout else
        var b := EvalCond(a, cond - 1, env);
        if b.None? then Fault
        else if !b.value then Normal(env)
        else
          var r := ExecRange(a, bs, bc, env, fuel);
          if r.Normal? then ExecStmt(a, i, r.env, fuel - 1) else r
    case ExprStmt(expr) => if Eval(a, expr - 1, env).Some? then Normal(env) else Fault
    case _ => Fault
  }

  function ExecRange(a: Arena, s: nat, n: nat, env: Env, fuel: nat): Result
    requires Acyclic(a) && s + n <= |a.stmts|
    decreases fuel, s + n, n
  {
    if n == 0 then Normal(env) else
      var r := ExecRange(a, s, n - 1, env, fuel);
      if r.Normal? then ExecStmt(a, s + n - 1, r.env, fuel) else r
  }

  function ParamEnv(a: Arena, start: nat, args: seq<int>): Env
    requires start + |args| <= |a.params|
  {
    if args == [] then map[] else
      var n := |args| - 1;
      ParamEnv(a, start, args[..n])[a.params[start + n].name := Some(args[n])]
  }

  /** Runs a function. Falling off the end returns zero. */
  function ExecFunc(a: Arena, f: nat, args: seq<int>, fuel: nat): Result
    requires Acyclic(a) && f < |a.funcs| && |args| == a.funcs[f].paramCount
  {
    var d := a.funcs[f];
    var r := ExecRange(a, d.bodyStart, d.bodyCount, ParamEnv(a, d.paramStart, args), fuel);
    if r.Normal? then Returned(0, r.env) else r
  }

  // -------------------------------------------------- the part that is covered --

  /** Names that no temporary, argument or block of the emitted code can have. */
  predicate PlainName(x: string) {
    && !(|x| >= 2 && x[0] == 't' && AllDigits(x[1..]))
    && '.' !in x
    && x != "entry"
  }

  /** Identifiers, literals that are printed faithfully, and operators with an opcode. */
  predicate ExprCovered(a: Arena, i: nat)
    requires Acyclic(a) && i < |a.exprs|
  {
    match a.exprs[i]
    case IntLit(n) => Palindrome(n)
    case Ident(_) => true
    case Binary(lhs, op, rhs) => HasOpcode(op) && ExprCovered(a, lhs - 1) && ExprCovered(a, rhs - 1)
    case _ => false
  }

  /** The slot of a `let` is made before its initialiser runs, so an initialiser
      that mentions the variable reads the new, empty slot. */
  predicate Mentions(a: Arena, i: nat, x: string)
    requires Acyclic(a) && i < |a.exprs|
  {
    match a.exprs[i]
    case Ident(y) => x == y
    case Binary(lhs, _, rhs) => Mentions(a, lhs - 1, x) || Mentions(a, rhs - 1, x)
    case _ => false
  }

  /** Statements of the kinds that have a meaning. The names in `selves` are exactly those that an initialiser
      declares while mentioning them. */
  predicate StmtCovered(a: Arena, i: nat, selves: set<string>)
    requires Acyclic(a) && i < |a.stmts|
    decreases i + 1, 0
  {
    match a.stmts[i]
    case Let(x, _, init) =>
      && PlainName(x) && (init == 0 || ExprCovered(a, init - 1))
      && (x in selves <==> init != 0 && Mentions(a, init - 1, x))
    case Assign(place, source) => a.exprs[place - 1].Ident? && ExprCovered(a, source - 1)
    case Return(value) => value == 0 || ExprCovered(a, value - 1)
    case If(cond, ts, tc, es, ec) =>
      ExprCovered(a, cond - 1) && RangeCovered(a, ts, tc, selves) && RangeCovered(a, es, ec, selves)
    case While(cond, bs, bc) => ExprCovered(a, cond - 1) && RangeCovered(a, bs, bc, selves)
    case ExprStmt(expr) => ExprCovered(a, expr - 1)
    case _ => false
  }

  predicate RangeCovered(a: Arena, s: nat, n: nat, selves: set<string>)
    requires Acyclic(a) && s + n <= |a.stmts|
    decreases s + n, n
  {
    n == 0 || (RangeCovered(a, s, n - 1, selves) && StmtCovered(a, s + n - 1, selves))
  }

  predicate FuncCovered(a: Arena, f: nat, selves: set<string>)
    requires Acyclic(a) && f < |a.funcs|
  {
    var d := a.funcs[f];
    && (forall j :: d.paramStart <= j < d.paramStart + d.paramCount ==>
          PlainName(a.params[j].name) && a.params[j].name !in selves)
    && (forall i, j :: d.paramStart <= i < j < d.paramStart + d.paramCount ==> a.params[i].name != a.params[j].name)
    && RangeCovered(a, d.bodyStart, d.bodyCount, selves)
  }
}
