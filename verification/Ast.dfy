/** The flat syntax arenas of the self-hosted compiler.

    Nodes live in growing vectors and name one another by 1-based handles: handle
    `h` is node `h - 1`, and 0 means "absent". A block is a range of the statement
    vector, the arguments of a call are a range of one shared index vector. */
module Ast {

  datatype BinaryOp =
    | Add | Sub | Mul | Div | Mod
    | Eq | NotEq | Lt | Gt | Le | Ge
    | And | Or | BitAnd | BitOr | BitXor

  datatype UnaryOp = Neg | Not | Ref | Deref

  datatype Expr =
    | Ident(name: string)
    | IntLit(n: nat)
    | StringLit(text: string)
    | BoolLit(b: bool)
    | Call(callee: nat, argsStart: nat, argCount: nat)
    | Index(base: nat, index: nat)
    | Member(target: nat, field: string)
    | Path(scope: string, item: string)
    | Binary(lhs: nat, op: BinaryOp, rhs: nat)
    | Unary(uop: UnaryOp, operand: nat)
    | StructLit(struct: string, fieldStart: nat, fieldCount: nat)

  datatype Stmt =
    | Let(x: string, typeIdx: nat, init: nat)
    | Return(value: nat)
    | If(cond: nat, thenStart: nat, thenCount: nat, elseStart: nat, elseCount: nat)
    | While(wcond: nat, bodyStart: nat, bodyCount: nat)
    | For(loopVar: string, from: nat, to: nat, step: nat, forStart: nat, forCount: nat)
    | Match(scrutinee: nat, armStart: nat, armCount: nat)
    | Assign(place: nat, source: nat)
    | CompoundAssign(cplace: nat, cop: BinaryOp, csource: nat)
    | ExprStmt(expr: nat)

  datatype Pattern = Wildcard | PatIdent(id: string) | Variant(enum: string, variant: string)
  datatype MatchArm = MatchArm(pattern: Pattern, body: nat, bodyCount: nat)
  datatype Param = Param(name: string, typeText: string)
  datatype FuncDecl =
    FuncDecl(name: string, isSafe: bool, paramStart: nat, paramCount: nat, bodyStart: nat, bodyCount: nat)

  datatype Arena = Arena(
    exprs: seq<Expr>, stmts: seq<Stmt>, params: seq<Param>, funcs: seq<FuncDecl>,
    matchArms: seq<MatchArm>, argIndices: seq<nat>,
    structLitNames: seq<string>, structLitExprs: seq<nat>)

  /** Handle `h` names one of the first `n` nodes. */
  predicate Names(h: nat, n: nat) { 1 <= h <= n }

  /** The entries `start .. start + count` of an index vector exist and name some of the first `n` nodes. */
  predicate EntriesName(entries: seq<nat>, start: nat, count: nat, n: nat) {
    start + count <= |entries| && forall j :: start <= j < start + count ==> Names(entries[j], n)
  }

  /** Every handle inside `e` names one of the first `n` expressions. */
  predicate ExprRefersBelow(e: Expr, n: nat, args: seq<nat>, fields: seq<nat>) {
    match e
    case Call(callee, start, count) => Names(callee, n) && EntriesName(args, start, count, n)
    case Index(base, index) => Names(base, n) && Names(index, n)
    case Member(target, _) => Names(target, n)
    case Binary(lhs, _, rhs) => Names(lhs, n) && Names(rhs, n)
    case Unary(_, operand) => Names(operand, n)
    case StructLit(_, start, count) => EntriesName(fields, start, count, n)
    case _ => true
  }

  /** Every handle inside `s` names one of the first `n` expressions, and every
      block of `s` ends at or before statement `i`. */
  predicate StmtRefersBelow(s: Stmt, i: nat, n: nat, arms: seq<MatchArm>) {
    match s
    case Let(_, _, init) => init == 0 || Names(init, n)
    case Return(value) => value == 0 || Names(value, n)
    case If(cond, ts, tc, es, ec) => Names(cond, n) && ts + tc <= i && es + ec <= i
    case While(cond, bs, bc) => Names(cond, n) && bs + bc <= i
    case For(_, from, to, step, bs, bc) =>
      Names(from, n) && Names(to, n) && (step == 0 || Names(step, n)) && bs + bc <= i
    case Match(scrutinee, start, count) => Names(scrutinee, n) && ArmsName(arms, start, count, n)
    case Assign(place, source) => Names(place, n) && Names(source, n)
    case CompoundAssign(place, _, source) => Names(place, n) && Names(source, n)
    case ExprStmt(expr) => Names(expr, n)
  }

  predicate ArmsName(arms: seq<MatchArm>, start: nat, count: nat, n: nat) {
    start + count <= |arms| && forall j :: start <= j < start + count ==> Names(arms[j].body, n)
  }

  /** Children come before their owner: the arena is acyclic and no handle,
      argument entry or statement range leads outside it. */
  predicate Acyclic(a: Arena) {
    && (forall i :: 0 <= i < |a.exprs| ==> ExprRefersBelow(a.exprs[i], i, a.argIndices, a.structLitExprs))
    && (forall i :: 0 <= i < |a.stmts| ==> StmtRefersBelow(a.stmts[i], i, |a.exprs|, a.matchArms))
    && (forall i :: 0 <= i < |a.funcs| ==> FuncInRange(a, a.funcs[i]))
  }

  predicate FuncInRange(a: Arena, f: FuncDecl) {
    f.paramStart + f.paramCount <= |a.params| && f.bodyStart + f.bodyCount <= |a.stmts|
  }
}
