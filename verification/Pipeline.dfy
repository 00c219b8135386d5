/** Parser and emitter together: from the tokens of an expression to the value its code computes. */
module Pipeline {
  import opened Options
  import opened Ast
  import opened Digits
  import opened Machine
  import ParserSpec
  import ArenaShape
  import Emitter
  import RoundTrip
  import Preservation

  type Tree = RoundTrip.Tree

  /** Identifiers, literals that are printed faithfully, and operators with an opcode. */
  predicate Compilable(t: Tree) {
    match t
    case Id(_) => true
    case Num(n) => Palindrome(n)
    case Bi(l, op, r) => HasOpcode(op) && Compilable(l) && Compilable(r)
    case _ => false
  }

  /** What an expression means to a reader of the source. */
  function Value(t: Tree, env: Env): Option<Val> {
    match t
    case Id(x) => if x in env && env[x].Some? then Some(I32(env[x].value)) else None
    case Num(n) => Some(I32(n))
    case Bi(l, op, r) => EvalBinary(op, Value(l, env), Value(r, env))
    case _ => None
  }

  /** The tree that can be read back from the arena means what the arena means. */
  lemma {:induction false} DecodedMeaning(a: Arena, h: nat, env: Env)
    requires Acyclic(a) && Compilable(RoundTrip.Decode(a, h))
    ensures 1 <= h <= |a.exprs| && ExprCovered(a, h - 1) && Eval(a, h - 1, env) == Value(RoundTrip.Decode(a, h), env)
    decreases h
  {
    hide Acyclic, Palindrome, EvalBinary, HasOpcode;
    match a.exprs[h - 1] {
      case Binary(l, _, r) =>
        DecodedMeaning(a, l, env);
        DecodedMeaning(a, r, env);
      case _ =>
    }
  }

  lemma {:induction false} CompilableFlat(t: Tree)
    requires Compilable(RoundTrip.Zeroed(t))
    ensures RoundTrip.Flat(t)
  {
    match t {
      case Bi(l, _, r) => CompilableFlat(l); CompilableFlat(r);
      case _ =>
    }
  }

  /** From tokens to the machine. The tokens of an expression are parsed into any sound arena, and the
      code of the new node is run from anywhere in any code: it ends with the value of the expression,
      its literals taken as zero, or gets stuck exactly when there is none. */
  lemma CompiledValue(ts: ParserSpec.Tokens, s: ParserSpec.S, t: Tree, k: nat, c: seq<Emitter.Instr>, pc: nat,
                      regs: Regs)
    returns (n: nat, regs': Regs)
    requires s.pos <= |ts| && !s.hung && ArenaShape.Sound(s.a) && RoundTrip.Printable(t)
    requires Compilable(RoundTrip.Zeroed(t))
    requires RoundTrip.Stands(ts, s.pos, RoundTrip.Print(t, 0))
    requires var next := ParserSpec.Peek(ts, s.pos + |RoundTrip.Print(t, 0)|);
             && RoundTrip.NotPostfix(next) && ParserSpec.Precedence(next) == 0
             && (RoundTrip.EndsInName(t, 0) ==> RoundTrip.AfterName(ts, s.pos + |RoundTrip.Print(t, 0)|))
    requires Preservation.SlotsPlain(regs)
    requires var (s', h) := ParserSpec.ParseBp(ts, s, 0);
             Acyclic(s'.a) && 1 <= h <= |s'.a.exprs| ==> Preservation.At(c, pc, Emitter.ExprCode(s'.a, h - 1, k).code)
    ensures var (s', h) := ParserSpec.ParseBp(ts, s, 0);
            && Acyclic(s'.a) && 1 <= h <= |s'.a.exprs|
            && var code, value := Emitter.ExprCode(s'.a, h - 1, k), Value(RoundTrip.Zeroed(t), Preservation.Vars(regs));
               if value.None? then Run(c, State(pc, regs), n) == Stuck
               else Run(c, State(pc, regs), n) == Running(State(pc + |code.code|, regs'))
                    && OperandVal(code.val, regs') == value && Preservation.Vars(regs') == Preservation.Vars(regs)
  {
    hide RoundTrip.Print, ParserSpec.Precedence, RoundTrip.Stands, RoundTrip.Printable, RoundTrip.Flat,
         RoundTrip.Decode, RoundTrip.Zeroed, Compilable, Preservation.SlotsPlain, Preservation.Vars, Preservation.At,
         Emitter.ExprCode, Eval, Value, Acyclic, ParserSpec.ParseBp, ParserSpec.Peek, Run, ParserSpec.Later;
    CompilableFlat(t);
    RoundTrip.PrintParseRoundTrip(ts, s, t, 0);
    ArenaShape.ExprSound(ts, s, 0);
    var r := ParserSpec.ParseBp(ts, s, 0);
    DecodedMeaning(r.0.a, r.1, Preservation.Vars(regs));
    n, regs' := Preservation.ExprSim(r.0.a, r.1 - 1, k, c, pc, regs);
  }
}
