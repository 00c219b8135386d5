/** Printing an expression tree, with parentheses around operands that bind looser only, and parsing
    the tokens builds an arena from which the same tree is read back. */
module RoundTrip {
  import opened Ast
  import opened Digits
  import opened ParserSpec

  /** Expression trees, as a reader of the source sees them. */
  datatype Tree =
    | Id(name: string)
    | Num(n: nat)
    | Truth(b: bool)
    | Text(lexeme: string)
    | Item(scope: string, item: string)
    | Un(uop: UnaryOp, operand: Tree)
    | Bi(l: Tree, op: BinaryOp, r: Tree)
    | At(base: Tree, index: Tree)
    | Dot(whole: Tree, field: string)
    | App(callee: Tree, args: seq<Tree>)
    | Other

  // -------------------------------------------------------------------- printing --

  function OpText(op: BinaryOp): string {
    match op
    case Add => "+" case Sub => "-" case Mul => "*" case Div => "/" case Mod => "%"
    case Eq => "==" case NotEq => "!=" case Lt => "<" case Gt => ">" case Le => "<=" case Ge => ">="
    case And => "&&" case Or => "||" case BitAnd => "&" case BitOr => "|" case BitXor => "^"
  }

  function UnaryText(op: UnaryOp): string {
    match op case Ref => "&" case Deref => "*" case Neg => "-" case Not => "!"
  }

  /** How tightly an operator binds: `||`, `&&`, equality, order, `|` and `^`, `&`, sums, products, loosest first.
      Between two levels lies one for the right operand of the lower. */
  function Level(op: BinaryOp): nat {
    match op
    case Or => 1
    case And => 3
    case Eq => 5 case NotEq => 5
    case Lt => 7 case Gt => 7 case Le => 7 case Ge => 7
    case BitOr => 9 case BitXor => 9
    case BitAnd => 11
    case Add => 15 case Sub => 15
    case Mul => 17 case Div => 17 case Mod => 17
  }

  /** The tree at a place that takes operators of level `min` and above. All operators group to the left. */
  function Print(t: Tree, min: nat): Tokens
    decreases t, 2
  {
    if t.Bi? && Level(t.op) >= min then PrintBinary(t) else PrintUnit(t)
  }

  function PrintBinary(t: Tree): Tokens
    requires t.Bi?
    decreases t, 0
  {
    Print(t.l, Level(t.op)) + [OpText(t.op)] + Print(t.r, Level(t.op) + 1)
  }

  /** An operand that postfix operators can follow directly. */
  function PrintUnit(t: Tree): Tokens
    decreases t, 1
  {
    match t
    case Id(x) => [x]
    case Num(n) => [IntText(n)]
    case Truth(b) => [if b then "true" else "false"]
    case Text(x) => [x]
    case Item(x, y) => [x, "::", y]
    case Un(op, e) => [UnaryText(op)] + PrintPrimary(e)
    case At(b, i) => PrintUnit(b) + (["["] + Print(i, 0) + ["]"])
    case Dot(b, f) => PrintUnit(b) + [".", f]
    case App(f, args) => PrintUnit(f) + (["("] + PrintArgs(args) + [")"])
    case Bi(_, _, _) => ["("] + PrintBinary(t) + [")"]
    case Other => []
  }

  /** What a prefix operator applies to: it binds tighter than the postfix operators. */
  function PrintPrimary(t: Tree): Tokens
    decreases t, 3
  {
    if t.At? || t.Dot? || t.App? || t.Bi? then ["("] + Print(t, 0) + [")"] else PrintUnit(t)
  }

  function PrintArgs(args: seq<Tree>): Tokens
    decreases args, 0
  {
    if args == [] then []
    else if |args| == 1 then Print(args[0], 0)
    else Print(args[0], 0) + [","] + PrintArgs(args[1..])
  }

  // --------------------------------------------------------------- reading back --

  /** The tree at handle `h`; `Other` for node kinds without a place here and for handles that lead nowhere. */
  function Decode(a: Arena, h: nat): Tree
    decreases h, |a.argIndices| + 1
  {
    if !(1 <= h <= |a.exprs|) then Other else
      match a.exprs[h - 1]
      case Ident(x) => Id(x)
      case IntLit(n) => Num(n)
      case BoolLit(b) => Truth(b)
      case StringLit(x) => Text(x)
      case Path(x, y) => Item(x, y)
      case Unary(op, e) => if e < h then Un(op, Decode(a, e)) else Other
      case Binary(l, op, r) => if l < h && r < h then Bi(Decode(a, l), op, Decode(a, r)) else Other
      case Index(b, i) => if b < h && i < h then At(Decode(a, b), Decode(a, i)) else Other
      case Member(b, f) => if b < h then Dot(Decode(a, b), f) else Other
      case Call(f, start, n) =>
        if f < h && start + n <= |a.argIndices| && (forall j :: start <= j < start + n ==> a.argIndices[j] < h)
        then App(Decode(a, f), DecodeArgs(a, h, start, n)) else Other
      case _ => Other
  }

  function DecodeArgs(a: Arena, h: nat, start: nat, n: nat): (args: seq<Tree>)
    requires start + n <= |a.argIndices| && forall j :: start <= j < start + n ==> a.argIndices[j] < h
    ensures |args| == n
    decreases h, n
  {
    if n == 0 then [] else DecodeArgs(a, h, start, n - 1) + [Decode(a, a.argIndices[start + n - 1])]
  }

  /** The parser reads every integer literal as zero. */
  function Zeroed(t: Tree): Tree {
    match t
    case Num(_) => Num(0)
    case Un(op, e) => Un(op, Zeroed(e))
    case Bi(l, op, r) => Bi(Zeroed(l), op, Zeroed(r))
    case At(b, i) => At(Zeroed(b), Zeroed(i))
    case Dot(b, f) => Dot(Zeroed(b), f)
    case App(f, args) => App(Zeroed(f), ZeroedAll(args))
    case _ => t
  }

  function ZeroedAll(args: seq<Tree>): (r: seq<Tree>)
    ensures |r| == |args| && forall i :: 0 <= i < |args| ==> r[i] == Zeroed(args[i])
  {
    if args == [] then [] else [Zeroed(args[0])] + ZeroedAll(args[1..])
  }

  // ------------------------------------------------------------ which trees, where --

  /** Every name is an identifier lexeme and every node has a source form. */
  predicate Printable(t: Tree) {
    match t
    case Id(x) => IsIdentLexeme(x)
    case Text(x) => x != "" && x[0] == '"'
    case Item(x, _) => IsIdentLexeme(x)
    case Un(_, e) => Printable(e)
    case Bi(l, _, r) => Printable(l) && Printable(r)
    case At(b, i) => Printable(b) && Printable(i)
    case Dot(b, _) => Printable(b)
    case App(f, args) => Printable(f) && forall i :: 0 <= i < |args| ==> Printable(args[i])
    case Other => false
    case _ => true
  }

  /** A call with arguments occurs in the tree. */
  predicate HasArgCall(t: Tree) {
    match t
    case Un(_, e) => HasArgCall(e)
    case Bi(l, _, r) => HasArgCall(l) || HasArgCall(r)
    case At(b, i) => HasArgCall(b) || HasArgCall(i)
    case Dot(b, _) => HasArgCall(b)
    case App(f, args) => args != [] || HasArgCall(f)
    case _ => false
  }

  /** No argument of a call contains a call with arguments. */
  predicate Flat(t: Tree) {
    match t
    case Un(_, e) => Flat(e)
    case Bi(l, _, r) => Flat(l) && Flat(r)
    case At(b, i) => Flat(b) && Flat(i)
    case Dot(b, _) => Flat(b)
    case App(f, args) => Flat(f) && forall i :: 0 <= i < |args| ==> Flat(args[i]) && !HasArgCall(args[i])
    case _ => true
  }

  /** The tokens `p` stand in `ts` from `pos` on. */
  ghost predicate Stands(ts: Tokens, pos: nat, p: Tokens) {
    pos + |p| <= |ts| && ts[pos..pos + |p|] == p
  }

  predicate NotPostfix(lex: string) { lex != "(" && lex != "." && lex != "[" }

  /** Does not turn an identifier before it into a path or a structure literal. */
  predicate AfterName(ts: Tokens, pos: nat) { Peek(ts, pos) != "::" && !StartsStructLit(ts, pos) }

  /** The last token of an operand is a name of its own: not a field behind a dot, nothing in parentheses. */
  predicate UnitEndsInName(t: Tree) {
    match t
    case Id(_) => true
    case Un(_, e) => UnitEndsInName(e)
    case _ => false
  }

  /** So is the last token of a tree printed for level `min`. */
  predicate EndsInName(t: Tree, min: nat) {
    if t.Bi? && Level(t.op) >= min then EndsInName(t.r, Level(t.op) + 1) else UnitEndsInName(t)
  }

  lemma StandsSplit(ts: Tokens, pos: nat, p: Tokens, q: Tokens)
    requires Stands(ts, pos, p + q)
    ensures Stands(ts, pos, p) && Stands(ts, pos + |p|, q)
  {
    assert ts[pos..pos + |p|] == (p + q)[..|p|];
    assert ts[pos + |p|..pos + |p| + |q|] == (p + q)[|p|..];
  }

  lemma StandsOne(ts: Tokens, pos: nat, x: string)
    requires Stands(ts, pos, [x])
    ensures pos < |ts| && Peek(ts, pos) == x
  {
    assert ts[pos] == ts[pos..pos + 1][0];
  }

  // -------------------------------------------------------------- growing arenas --

  ghost predicate Extends(a: Arena, a': Arena) { a.exprs <= a'.exprs && a.argIndices <= a'.argIndices }

  predicate Whole(t: Tree) {
    match t
    case Other => false
    case Un(_, e) => Whole(e)
    case Bi(l, _, r) => Whole(l) && Whole(r)
    case At(b, i) => Whole(b) && Whole(i)
    case Dot(b, _) => Whole(b)
    case App(f, args) => Whole(f) && forall i :: 0 <= i < |args| ==> Whole(args[i])
    case _ => true
  }

  /** A tree that has been read back completely stays the same while the arena grows. */
  lemma {:induction false} DecodeExtends(a: Arena, a': Arena, h: nat)
    requires Extends(a, a') && Whole(Decode(a, h))
    ensures Decode(a', h) == Decode(a, h)
    decreases h, |a.argIndices| + 1
  {
    assert a'.exprs[h - 1] == a.exprs[h - 1];
    match a.exprs[h - 1] {
      case Unary(_, e) => DecodeExtends(a, a', e);
      case Binary(l, _, r) => DecodeExtends(a, a', l); DecodeExtends(a, a', r);
      case Index(b, i) => DecodeExtends(a, a', b); DecodeExtends(a, a', i);
      case Member(b, _) => DecodeExtends(a, a', b);
      case Call(f, start, n) =>
        DecodeExtends(a, a', f);
        assert forall j :: start <= j < start + n ==> a'.argIndices[j] == a.argIndices[j];
        DecodeArgsExtend(a, a', h, start, n);
      case _ =>
    }
  }

  lemma {:induction false} DecodeArgsExtend(a: Arena, a': Arena, h: nat, start: nat, n: nat)
    requires Extends(a, a') && start + n <= |a.argIndices|
    requires forall j :: start <= j < start + n ==> a.argIndices[j] < h && a'.argIndices[j] == a.argIndices[j]
    requires forall i :: 0 <= i < n ==> Whole(DecodeArgs(a, h, start, n)[i])
    ensures DecodeArgs(a', h, start, n) == DecodeArgs(a, h, start, n)
    decreases h, n
  {
    if n > 0 {
      var args := DecodeArgs(a, h, start, n);
      var before := DecodeArgs(a, h, start, n - 1);
      assert args[..n - 1] == before;
      assert Whole(args[n - 1]);
      forall i | 0 <= i < n - 1 ensures Whole(before[i]) { assert args[i] == before[i]; }
      DecodeArgsExtend(a, a', h, start, n - 1);
      DecodeExtends(a, a', a.argIndices[start + n - 1]);
    }
  }

  /** The argument entries that `a'` has and `a` had not: all can be read back, there are
      `some` or none, and the first one is an argument without calls inside. No field entries are new. */
  ghost predicate Pushed(a: Arena, a': Arena, some: bool) {
    && a'.structLitNames == a.structLitNames && a'.structLitExprs == a.structLitExprs
    && |a.argIndices| <= |a'.argIndices|
    && (forall j :: |a.argIndices| <= j < |a'.argIndices| ==> Whole(Decode(a', a'.argIndices[j])))
    && (some ==> |a.argIndices| < |a'.argIndices| && !HasArgCall(Decode(a', a'.argIndices[|a.argIndices|])))
    && (!some ==> a'.argIndices == a.argIndices)
  }

  /** From `s` to `s'` exactly the tree `t`, printed in `n` tokens, was parsed; `h` is its handle.
      It is read back as it was written exactly if it is `Flat`. */
  ghost predicate Built(s: S, s': S, h: nat, t: Tree, n: nat) {
    && s'.pos == s.pos + n && !s'.hung && s'.patience == s.patience
    && Extends(s.a, s'.a) && Pushed(s.a, s'.a, HasArgCall(t))
    && Whole(Decode(s'.a, h)) && (Decode(s'.a, h) == Zeroed(t) <==> Flat(t))
  }

  lemma BuiltPos(s: S, s1: S, h: nat, t: Tree, n: nat)
    requires Built(s, s1, h, t, n)
    ensures s1.pos == s.pos + n && !s1.hung
  {}

  lemma PushedMore(a: Arena, a1: Arena, a2: Arena, p: bool, q: bool)
    requires Extends(a, a1) && Extends(a1, a2) && Pushed(a, a1, p) && Pushed(a1, a2, q)
    ensures Extends(a, a2) && Pushed(a, a2, p || q)
  {
    hide Decode, Whole, HasArgCall;
    forall j | |a.argIndices| <= j < |a1.argIndices|
      ensures Decode(a2, a2.argIndices[j]) == Decode(a1, a1.argIndices[j])
    {
      DecodeExtends(a1, a2, a1.argIndices[j]);
    }
  }

  /** Pushing a node pushes no argument entry. */
  lemma PushedNode(a: Arena, a1: Arena, e: Expr, some: bool)
    requires Extends(a, a1) && Pushed(a, a1, some)
    ensures Extends(a, a1.(exprs := a1.exprs + [e])) && Pushed(a, a1.(exprs := a1.exprs + [e]), some)
  {
    hide Decode, Whole, HasArgCall;
    PushedMore(a, a1, a1.(exprs := a1.exprs + [e]), some, false);
  }

  lemma Named(a: Arena, h: nat)
    requires Whole(Decode(a, h))
    ensures 1 <= h <= |a.exprs|
  {}

  lemma {:induction false} NoArgCallFlat(t: Tree)
    requires !HasArgCall(t)
    ensures Flat(t)
  {
    match t {
      case Un(_, e) => NoArgCallFlat(e);
      case Bi(l, _, r) => NoArgCallFlat(l); NoArgCallFlat(r);
      case At(b, i) => NoArgCallFlat(b); NoArgCallFlat(i);
      case Dot(b, _) => NoArgCallFlat(b);
      case App(f, _) => NoArgCallFlat(f);
      case _ =>
    }
  }

  lemma {:induction false} ZeroedHasArgCall(t: Tree)
    ensures HasArgCall(Zeroed(t)) == HasArgCall(t)
  {
    match t {
      case Un(_, e) => ZeroedHasArgCall(e);
      case Bi(l, _, r) => ZeroedHasArgCall(l); ZeroedHasArgCall(r);
      case At(b, i) => ZeroedHasArgCall(b); ZeroedHasArgCall(i);
      case Dot(b, _) => ZeroedHasArgCall(b);
      case App(f, _) => ZeroedHasArgCall(f);
      case _ =>
    }
  }

  // --------------------------------------------------------------- parsing it back --

  /** A printed operand never begins like the end of an argument list. */
  lemma {:induction false} FirstToken(t: Tree, min: nat)
    requires Printable(t)
    ensures Print(t, min) != [] && Print(t, min)[0] != ")"
    decreases t, 1
  {
    if t.Bi? && Level(t.op) >= min {
      FirstToken(t.l, Level(t.op));
    } else {
      FirstUnitToken(t);
    }
  }

  lemma {:induction false} FirstUnitToken(t: Tree)
    requires Printable(t)
    ensures PrintUnit(t) != [] && PrintUnit(t)[0] != ")"
    decreases t, 0
  {
    match t {
      case At(b, _) => FirstUnitToken(b);
      case Dot(b, _) => FirstUnitToken(b);
      case App(f, _) => FirstUnitToken(f);
      case Num(n) => StartsWithDigit(n);
      case _ =>
    }
  }

  predicate Leaf(t: Tree) { t.Id? || t.Num? || t.Truth? || t.Text? || t.Item? }

  predicate Atom(t: Tree) { Leaf(t) || t.Un? }

  lemma ParsesLeaf(ts: Tokens, s: S, t: Tree) returns (s': S, h: nat)
    requires s.pos <= |ts| && !s.hung && Printable(t) && Leaf(t)
    requires Stands(ts, s.pos, PrintUnit(t)) && (t.Id? ==> AfterName(ts, s.pos + 1))
    ensures ParsePrimary(ts, s) == (s', h) && Built(s, s', h, t, |PrintUnit(t)|)
  {
    hide ParsePostfix, ParseOperators, ParseArgs, ParseFields, ParseBp, IntText;
    s', h := ParsePrimary(ts, s).0, ParsePrimary(ts, s).1;
    if t.Item? {
      PathTaken(ts, s, t.scope, t.item);
    } else {
      var x := PrintUnit(t)[0];
      StandsOne(ts, s.pos, x);
      match t {
        case Num(n) => StartsWithDigit(n);
        case _ =>
      }
    }
  }

  lemma PathTaken(ts: Tokens, s: S, x: string, y: string)
    requires s.pos <= |ts| && IsIdentLexeme(x) && Stands(ts, s.pos, [x, "::", y])
    ensures ParsePrimary(ts, s) == Push(s.(pos := s.pos + 3), Path(x, y))
  {
    hide ParsePostfix, ParseFields, ParseBp;
    assert [x, "::", y] == [x] + (["::"] + [y]);
    StandsSplit(ts, s.pos, [x], ["::"] + [y]);
    StandsSplit(ts, s.pos + 1, ["::"], [y]);
    StandsOne(ts, s.pos, x);
    StandsOne(ts, s.pos + 1, "::");
    StandsOne(ts, s.pos + 2, y);
  }

  lemma StartsWithDigit(n: nat)
    ensures IntText(n) != "" && IsDigit(IntText(n)[0])
  {}

  lemma {:induction false} ParsesUnary(ts: Tokens, s: S, t: Tree) returns (s': S, h: nat)
    requires s.pos <= |ts| && !s.hung && Printable(t) && t.Un?
    requires Stands(ts, s.pos, PrintUnit(t)) && (UnitEndsInName(t) ==> AfterName(ts, s.pos + |PrintUnit(t)|))
    ensures ParsePrimary(ts, s) == (s', h) && Built(s, s', h, t, |PrintUnit(t)|)
    decreases t, 0
  {
    hide ParsePrimary, PrintPrimary, Built;
    var Un(op, e) := t;
    var inner := PrintPrimary(e);
    StandsSplit(ts, s.pos, [UnaryText(op)], inner);
    StandsOne(ts, s.pos, UnaryText(op));
    var s1, h1 := ParsesPrimary(ts, Step(ts, s), e);
    var p := Push(s1, Unary(op, h1));
    s', h := p.0, p.1;
    BuiltPos(Step(ts, s), s1, h1, e, |inner|);
    PrimaryUnary(ts, s, op, s1, h1);
    UnaryBuilt(s, s1, s', t, h1, |inner|);
  }

  lemma PrimaryUnary(ts: Tokens, s: S, op: UnaryOp, s1: S, h1: nat)
    requires s.pos <= |ts| && Peek(ts, s.pos) == UnaryText(op) && ParsePrimary(ts, Step(ts, s)) == (s1, h1) && !s1.hung
    ensures ParsePrimary(ts, s) == Push(s1, Unary(op, h1))
  {
    hide ParseIdent, ParseBp;
  }

  lemma UnaryBuilt(s: S, s1: S, s': S, t: Tree, h1: nat, n: nat)
    requires t.Un? && Built(s.(pos := s.pos + 1), s1, h1, t.operand, n)
    requires s' == Push(s1, Unary(t.uop, h1)).0
    ensures Built(s, s', |s'.a.exprs|, t, n + 1)
  {
    PushedNode(s.a, s1.a, Unary(t.uop, h1), HasArgCall(t));
    DecodeExtends(s1.a, s'.a, h1);
    Named(s1.a, h1);
  }

  lemma {:induction false} ParsesAtom(ts: Tokens, s: S, t: Tree) returns (s': S, h: nat)
    requires s.pos <= |ts| && !s.hung && Printable(t) && Atom(t)
    requires Stands(ts, s.pos, PrintUnit(t)) && (UnitEndsInName(t) ==> AfterName(ts, s.pos + |PrintUnit(t)|))
    ensures ParsePrimary(ts, s) == (s', h) && Built(s, s', h, t, |PrintUnit(t)|)
    decreases t, 1
  {
    hide ParsePrimary, Built;
    if t.Un? {
      s', h := ParsesUnary(ts, s, t);
    } else {
      s', h := ParsesLeaf(ts, s, t);
    }
  }

  lemma {:induction false} ParsesPrimary(ts: Tokens, s: S, t: Tree) returns (s': S, h: nat)
    requires s.pos <= |ts| && !s.hung && Printable(t)
    requires Stands(ts, s.pos, PrintPrimary(t)) && (UnitEndsInName(t) ==> AfterName(ts, s.pos + |PrintPrimary(t)|))
    ensures ParsePrimary(ts, s) == (s', h) && Built(s, s', h, t, |PrintPrimary(t)|)
    decreases t, 7
  {
    hide ParsePrimary, Built, Print, AfterName, Stands;
    if Atom(t) {
      s', h := ParsesAtom(ts, s, t);
    } else {
      s', h := ParsesParenthesised(ts, s, t);
    }
  }

  lemma {:induction false} ParsesParenthesised(ts: Tokens, s: S, t: Tree) returns (s': S, h: nat)
    requires s.pos <= |ts| && !s.hung && Printable(t)
    requires Stands(ts, s.pos, ["("] + Print(t, 0) + [")"])
    ensures ParsePrimary(ts, s) == (s', h) && Built(s, s', h, t, |Print(t, 0)| + 2)
    decreases t, 6
  {
    hide ParsePrimary, ParseBp, Built, Stands, Print, EndsInName, AfterName;
    var p := Print(t, 0);
    ParenthesesStand(ts, s.pos, p);
    s', h := ParsesExpr(ts, Step(ts, s), t, 0);
    BuiltPos(Step(ts, s), s', h, t, |p|);
    ParenthesesTaken(ts, s, s', h);
    GroupBuilt(s, s', h, t, |p|);
    s' := Step(ts, s');
  }

  /** An operand and what follows it as postfix operators. */
  function ParseUnit(ts: Tokens, s: S): (S, nat)
    requires s.pos <= |ts|
  {
    var r := ParsePrimary(ts, s);
    if r.0.hung then r else ParsePostfix(ts, r.0, r.1)
  }

  /** Parsing an operand goes on as if the postfix operators after it came next. */
  lemma {:induction false} ParsesUnit(ts: Tokens, s: S, t: Tree) returns (s': S, h: nat)
    requires s.pos <= |ts| && !s.hung && Printable(t)
    requires Stands(ts, s.pos, PrintUnit(t)) && (UnitEndsInName(t) ==> AfterName(ts, s.pos + |PrintUnit(t)|))
    ensures s'.pos <= |ts| && ParseUnit(ts, s) == ParsePostfix(ts, s', h) && Built(s, s', h, t, |PrintUnit(t)|)
    decreases t, 3
  {
    hide ParsePrimary, ParsePostfix, Print, Decode, Zeroed, Extends;
    if t.At? {
      s', h := ParsesIndex(ts, s, t);
    } else if t.Dot? {
      s', h := ParsesMember(ts, s, t);
    } else if t.App? {
      s', h := ParsesCall(ts, s, t);
    } else if t.Bi? {
      s', h := ParsesGroup(ts, s, t);
    } else {
      s', h := ParsesAtom(ts, s, t);
    }
  }

  lemma {:induction false} ParsesGroup(ts: Tokens, s: S, t: Tree) returns (s': S, h: nat)
    requires s.pos <= |ts| && !s.hung && Printable(t) && t.Bi?
    requires Stands(ts, s.pos, PrintUnit(t))
    ensures ParsePrimary(ts, s) == (s', h) && Built(s, s', h, t, |PrintUnit(t)|)
    decreases t, 2
  {
    hide ParsePrimary, ParseBp, ParseOperators, Built, Stands, PrintBinary, EndsInName, AfterName;
    var p := PrintBinary(t);
    ParenthesesStand(ts, s.pos, p);
    s', h := ParsesBinary(ts, Step(ts, s), t, 0);
    BuiltPos(Step(ts, s), s', h, t, |p|);
    StopsAt(ts, s', h, 0);
    ParenthesesTaken(ts, s, s', h);
    GroupBuilt(s, s', h, t, |p|);
    s' := Step(ts, s');
  }

  lemma ParenthesesStand(ts: Tokens, pos: nat, p: Tokens)
    requires Stands(ts, pos, ["("] + p + [")"])
    ensures Stands(ts, pos + 1, p) && pos + 1 + |p| < |ts| && Peek(ts, pos) == "(" && Peek(ts, pos + 1 + |p|) == ")"
    ensures NotPostfix(")") && AfterName(ts, pos + 1 + |p|) && Precedence(")") == 0
  {
    StandsSplit(ts, pos, ["("] + p, [")"]);
    StandsSplit(ts, pos, ["("], p);
    StandsOne(ts, pos, "(");
    StandsOne(ts, pos + 1 + |p|, ")");
  }

  lemma ParenthesesTaken(ts: Tokens, s: S, s1: S, h: nat)
    requires s.pos < |ts| && Peek(ts, s.pos) == "(" && ParseBp(ts, Step(ts, s), 0) == (s1, h) && !s1.hung
    ensures ParsePrimary(ts, s) == (Step(ts, s1), h)
  {
    hide ParseBp;
  }

  lemma GroupBuilt(s: S, s1: S, h: nat, t: Tree, n: nat)
    requires Built(s.(pos := s.pos + 1), s1, h, t, n)
    ensures Built(s, s1.(pos := s1.pos + 1), h, t, n + 2)
  {
    hide Decode, Zeroed, Flat, Whole, HasArgCall, Pushed;
  }

  /** The operator loop ends at anything that binds too loosely. */
  lemma StopsAt(ts: Tokens, s: S, lhs: nat, min: nat)
    requires s.pos <= |ts| && (Precedence(Peek(ts, s.pos)) == 0 || Precedence(Peek(ts, s.pos)) < min)
    ensures ParseOperators(ts, s, lhs, min) == (s, lhs)
  {}

  lemma NoPostfix(ts: Tokens, s: S, h: nat)
    requires s.pos <= |ts| && NotPostfix(Peek(ts, s.pos))
    ensures ParsePostfix(ts, s, h) == (s, h)
  {}

  /** A whole expression up to a token that cannot go on with it. */
  lemma {:induction false} ParsesExpr(ts: Tokens, s: S, t: Tree, min: nat) returns (s': S, h: nat)
    requires s.pos <= |ts| && !s.hung && Printable(t) && Stands(ts, s.pos, Print(t, min))
    requires var next := Peek(ts, s.pos + |Print(t, min)|);
             && NotPostfix(next) && (EndsInName(t, min) ==> AfterName(ts, s.pos + |Print(t, min)|))
             && (Precedence(next) == 0 || Precedence(next) < min)
    ensures ParseBp(ts, s, min) == (s', h) && Built(s, s', h, t, |Print(t, min)|)
    decreases t, 5
  {
    hide ParseBp, ParseOperators, Precedence, Print;
    s', h := ParsesOperand(ts, s, t, min, min);
    StopsAt(ts, s', h, min);
  }

  /** An operand printed for level `outer`, read in a loop for level `min`: the loop goes
      on behind it as if it had just been read. */
  lemma {:induction false} ParsesOperand(ts: Tokens, s: S, t: Tree, outer: nat, min: nat) returns (s': S, h: nat)
    requires s.pos <= |ts| && !s.hung && Printable(t) && min <= outer && Stands(ts, s.pos, Print(t, outer))
    requires var next := Peek(ts, s.pos + |Print(t, outer)|);
             && NotPostfix(next) && (EndsInName(t, outer) ==> AfterName(ts, s.pos + |Print(t, outer)|))
             && Precedence(next) <= outer
    ensures s'.pos <= |ts| && ParseBp(ts, s, min) == ParseOperators(ts, s', h, min)
    ensures Built(s, s', h, t, |Print(t, outer)|)
    decreases t, 4
  {
    hide ParsePrimary, ParseOperators, ParsePostfix, Precedence, PrintUnit, PrintBinary;
    if t.Bi? && Level(t.op) >= outer {
      s', h := ParsesBinary(ts, s, t, min);
    } else {
      s', h := ParsesUnit(ts, s, t);
      NoPostfix(ts, s', h);
    }
  }

  /** A binary expression without parentheses: the left operand, the operator, and a
      right operand that takes only tighter operators. */
  lemma {:induction false} ParsesBinary(ts: Tokens, s: S, t: Tree, min: nat) returns (s': S, h: nat)
    requires s.pos <= |ts| && !s.hung && Printable(t) && t.Bi? && min <= Level(t.op)
    requires Stands(ts, s.pos, PrintBinary(t))
    requires var next := Peek(ts, s.pos + |PrintBinary(t)|);
             && NotPostfix(next) && (EndsInName(t.r, Level(t.op) + 1) ==> AfterName(ts, s.pos + |PrintBinary(t)|))
             && Precedence(next) <= Level(t.op)
    ensures s'.pos <= |ts| && ParseBp(ts, s, min) == ParseOperators(ts, s', h, min)
    ensures Built(s, s', h, t, |PrintBinary(t)|)
    decreases t, 1
  {
    hide ParseBp, ParseOperators, Precedence, Print, Built, Stands, Peek, AfterName, EndsInName;
    var Bi(l, op, r) := t;
    var level := Level(op);
    var left, right := Print(l, level), Print(r, level + 1);
    BinaryStands(ts, s.pos, left, op, right);
    var s1, h1 := ParsesOperand(ts, s, l, level, min);
    BuiltPos(s, s1, h1, l, |left|);
    var s2, h2 := ParsesExpr(ts, Step(ts, s1), r, level + 1);
    BuiltPos(Step(ts, s1), s2, h2, r, |right|);
    var p := Push(s2, Binary(h1, op, h2));
    s', h := p.0, p.1;
    OperatorGoesOn(ts, s1, h1, min, op, s2, h2);
    BinaryBuilt(s, s1, s2, s', t, h1, h2);
  }

  lemma BinaryStands(ts: Tokens, pos: nat, left: Tokens, op: BinaryOp, right: Tokens)
    requires Stands(ts, pos, left + [OpText(op)] + right)
    ensures Stands(ts, pos, left) && Stands(ts, pos + |left| + 1, right) && pos + |left| + 1 + |right| <= |ts|
    ensures var next := Peek(ts, pos + |left|);
            next == OpText(op) && NotPostfix(next) && Precedence(next) == Level(op) && AfterName(ts, pos + |left|)
  {
    hide Precedence, OpText;
    OpLexeme(op);
    StandsSplit(ts, pos, left + [OpText(op)], right);
    StandsSplit(ts, pos, left, [OpText(op)]);
    StandsOne(ts, pos + |left|, OpText(op));
  }

  /** The loop takes an operator that binds tightly enough, and the operand behind it. */
  lemma OperatorGoesOn(ts: Tokens, s1: S, h1: nat, min: nat, op: BinaryOp, s2: S, h2: nat)
    requires s1.pos < |ts| && Peek(ts, s1.pos) == OpText(op) && min <= Level(op)
    requires ParseBp(ts, Step(ts, s1), Level(op) + 1) == (s2, h2) && !s2.hung && s2.pos <= |ts|
    requires NotPostfix(Peek(ts, s2.pos))
    ensures var p := Push(s2, Binary(h1, op, h2)); ParseOperators(ts, s1, h1, min) == ParseOperators(ts, p.0, p.1, min)
  {
    hide ParseBp, ParsePostfix, Precedence, LexToBinop, OpText;
    OpLexeme(op);
    var p := Push(s2, Binary(h1, op, h2));
    NoPostfix(ts, p.0, p.1);
  }

  lemma BinaryBuilt(s: S, s1: S, s2: S, s': S, t: Tree, h1: nat, h2: nat)
    requires t.Bi? && s.pos <= s1.pos < s2.pos && Built(s, s1, h1, t.l, s1.pos - s.pos)
    requires Built(s1.(pos := s1.pos + 1), s2, h2, t.r, s2.pos - s1.pos - 1)
    requires s' == Push(s2, Binary(h1, t.op, h2)).0
    ensures Built(s, s', |s'.a.exprs|, t, s2.pos - s.pos)
  {
    hide Pushed;
    PushedMore(s.a, s1.a, s2.a, HasArgCall(t.l), HasArgCall(t.r));
    PushedNode(s.a, s2.a, Binary(h1, t.op, h2), HasArgCall(t));
    DecodeExtends(s1.a, s'.a, h1);
    DecodeExtends(s2.a, s'.a, h2);
    Named(s1.a, h1);
    Named(s2.a, h2);
  }

  lemma OpLexeme(op: BinaryOp)
    ensures var x := OpText(op);
            NotPostfix(x) && x != "::" && x != "{" && LexToBinop(x) == op && Precedence(x) == Level(op) > 0
  {}

  lemma {:induction false} ParsesIndex(ts: Tokens, s: S, t: Tree) returns (s': S, h: nat)
    requires s.pos <= |ts| && !s.hung && Printable(t) && t.At? && Stands(ts, s.pos, PrintUnit(t))
    ensures s'.pos <= |ts| && ParseUnit(ts, s) == ParsePostfix(ts, s', h) && Built(s, s', h, t, |PrintUnit(t)|)
    decreases t, 0
  {
    hide ParsePostfix, Print, Built, ParseUnit, Precedence, AfterName, Stands, EndsInName, Peek;
    var At(b, i) := t;
    var base, inner := PrintUnit(b), Print(i, 0);
    IndexStands(ts, s.pos, base, inner);
    SeparatorLevel();
    var s1, h1 := ParsesUnit(ts, s, b);
    BuiltPos(s, s1, h1, b, |base|);
    var s2, h2 := ParsesExpr(ts, Step(ts, s1), i, 0);
    BuiltPos(Step(ts, s1), s2, h2, i, |inner|);
    var p := Push(Step(ts, s2), Index(h1, h2));
    s', h := p.0, p.1;
    PostfixIndex(ts, s1, h1, s2, h2);
    IndexBuilt(s, s1, s2, s', t, h1, h2);
  }

  lemma IndexStands(ts: Tokens, pos: nat, base: Tokens, inner: Tokens)
    requires Stands(ts, pos, base + (["["] + inner + ["]"]))
    ensures Stands(ts, pos, base) && Stands(ts, pos + |base| + 1, inner)
    ensures pos + |base| + 1 + |inner| < |ts| && Peek(ts, pos + |base|) == "["
    ensures Peek(ts, pos + |base| + 1 + |inner|) == "]"
    ensures AfterName(ts, pos + |base|) && AfterName(ts, pos + |base| + 1 + |inner|)
  {
    StandsSplit(ts, pos, base, ["["] + inner + ["]"]);
    StandsSplit(ts, pos + |base|, ["["] + inner, ["]"]);
    StandsSplit(ts, pos + |base|, ["["], inner);
    StandsOne(ts, pos + |base|, "[");
    StandsOne(ts, pos + |base| + 1 + |inner|, "]");
  }

  lemma PostfixIndex(ts: Tokens, s: S, current: nat, s1: S, h1: nat)
    requires s.pos <= |ts| && Peek(ts, s.pos) == "[" && ParseBp(ts, Step(ts, s), 0) == (s1, h1) && !s1.hung
    ensures var p := Push(Step(ts, s1), Index(current, h1));
            ParsePostfix(ts, s, current) == ParsePostfix(ts, p.0, p.1)
  {
    hide ParseBp, ParseArgs;
  }

  lemma IndexBuilt(s: S, s1: S, s2: S, s': S, t: Tree, h1: nat, h2: nat)
    requires t.At? && s.pos <= s1.pos < s2.pos && Built(s, s1, h1, t.base, s1.pos - s.pos)
    requires Built(s1.(pos := s1.pos + 1), s2, h2, t.index, s2.pos - s1.pos - 1)
    requires s' == Push(s2.(pos := s2.pos + 1), Index(h1, h2)).0
    ensures Built(s, s', |s'.a.exprs|, t, s2.pos + 1 - s.pos)
  {
    hide Pushed;
    PushedMore(s.a, s1.a, s2.a, HasArgCall(t.base), HasArgCall(t.index));
    PushedNode(s.a, s2.a, Index(h1, h2), HasArgCall(t));
    DecodeExtends(s1.a, s'.a, h1);
    DecodeExtends(s2.a, s'.a, h2);
    Named(s1.a, h1);
    Named(s2.a, h2);
  }

  lemma {:induction false} ParsesMember(ts: Tokens, s: S, t: Tree) returns (s': S, h: nat)
    requires s.pos <= |ts| && !s.hung && Printable(t) && t.Dot? && Stands(ts, s.pos, PrintUnit(t))
    ensures s'.pos <= |ts| && ParseUnit(ts, s) == ParsePostfix(ts, s', h) && Built(s, s', h, t, |PrintUnit(t)|)
    decreases t, 0
  {
    hide ParsePostfix, Built, ParseUnit;
    var Dot(b, f) := t;
    var base := PrintUnit(b);
    MemberStands(ts, s.pos, base, f);
    var s1, h1 := ParsesUnit(ts, s, b);
    BuiltPos(s, s1, h1, b, |base|);
    var p := Push(Step(ts, Step(ts, s1)), Member(h1, f));
    s', h := p.0, p.1;
    PostfixMember(ts, s1, h1);
    MemberBuilt(s, s1, s', t, h1, |base|);
  }

  lemma MemberStands(ts: Tokens, pos: nat, base: Tokens, f: string)
    requires Stands(ts, pos, base + [".", f])
    ensures Stands(ts, pos, base) && pos + |base| + 1 < |ts|
    ensures Peek(ts, pos + |base|) == "." && Peek(ts, pos + |base| + 1) == f
  {
    StandsSplit(ts, pos, base, [".", f]);
    assert [".", f] == ["."] + [f];
    StandsSplit(ts, pos + |base|, ["."], [f]);
    StandsOne(ts, pos + |base|, ".");
    StandsOne(ts, pos + |base| + 1, f);
  }

  lemma PostfixMember(ts: Tokens, s: S, current: nat)
    requires s.pos <= |ts| && Peek(ts, s.pos) == "."
    ensures var s1 := Step(ts, s);
            var p := Push(Step(ts, s1), Member(current, Peek(ts, s1.pos)));
            ParsePostfix(ts, s, current) == ParsePostfix(ts, p.0, p.1)
  {
    hide ParseBp, ParseArgs;
  }

  lemma MemberBuilt(s: S, s1: S, s': S, t: Tree, h1: nat, n: nat)
    requires t.Dot? && Built(s, s1, h1, t.whole, n)
    requires s' == Push(s1.(pos := s1.pos + 2), Member(h1, t.field)).0
    ensures Built(s, s', |s'.a.exprs|, t, n + 2)
  {
    hide Pushed;
    PushedNode(s.a, s1.a, Member(h1, t.field), HasArgCall(t));
    DecodeExtends(s1.a, s'.a, h1);
    Named(s1.a, h1);
  }

  /** The entries from `start` on are the arguments `args`. */
  ghost predicate ReadBack(a: Arena, start: nat, args: seq<Tree>)
    requires start + |args| <= |a.argIndices|
  {
    forall i :: 0 <= i < |args| ==> Decode(a, a.argIndices[start + i]) == Zeroed(args[i])
  }

  /** No argument contains a call with arguments. */
  predicate Plain(args: seq<Tree>) { forall i :: 0 <= i < |args| ==> Flat(args[i]) && !HasArgCall(args[i]) }

  predicate AllPrintable(args: seq<Tree>) { forall i :: 0 <= i < |args| ==> Printable(args[i]) }

  /** From `s` to `s'` the arguments `args`, printed in `n` tokens, were parsed. */
  ghost predicate ArgsBuilt(s: S, s': S, args: seq<Tree>, n: nat) {
    && s'.pos == s.pos + n && !s'.hung && s'.patience == s.patience
    && Extends(s.a, s'.a) && Pushed(s.a, s'.a, args != [])
    && |s.a.argIndices| + |args| <= |s'.a.argIndices|
    && (ReadBack(s'.a, |s.a.argIndices|, args) <==> Plain(args))
    && (Plain(args) ==> |s'.a.argIndices| == |s.a.argIndices| + |args|)
  }

  lemma {:induction false} ParsesArgs(ts: Tokens, s: S, args: seq<Tree>, count: nat) returns (s': S)
    requires s.pos <= |ts| && !s.hung && AllPrintable(args) && Stands(ts, s.pos, PrintArgs(args) + [")"])
    ensures ParseArgs(ts, s, count) == (s', count + |args|) && ArgsBuilt(s, s', args, |PrintArgs(args)|)
    decreases args, 9
  {
    hide ParseBp, Print, Decode, Zeroed, Precedence, Built;
    StandsSplit(ts, s.pos, PrintArgs(args), [")"]);
    StandsOne(ts, s.pos + |PrintArgs(args)|, ")");
    if args == [] {
      s' := s;
    } else {
      var first := Print(args[0], 0);
      FirstToken(args[0], 0);
      if |args| == 1 {
        SeparatorLevel();
        FirstStands(ts, s.pos, first);
        var s1, h1 := ParsesExpr(ts, s, args[0], 0);
        BuiltPos(s, s1, h1, args[0], |first|);
        s' := PushArg(s1, h1);
        OneArgBuilt(s, s1, h1, args[0], |first|);
        assert args == [args[0]];
      } else {
        s' := ParsesMoreArgs(ts, s, args, count);
      }
    }
  }

  lemma FirstStands(ts: Tokens, pos: nat, p: Tokens)
    requires Stands(ts, pos, p) && p != []
    ensures pos < |ts| && Peek(ts, pos) == p[0]
  {
    assert ts[pos] == ts[pos..pos + |p|][0];
  }

  lemma SeparatorLevel()
    ensures Precedence(",") == 0 && Precedence(")") == 0 && Precedence("]") == 0
  {}

  /** The entry at which the first argument is looked for leads to it exactly if nothing was pushed before it. */
  lemma OneArgBuilt(s: S, s1: S, h: nat, t: Tree, n: nat)
    requires Built(s, s1, h, t, n)
    ensures ArgsBuilt(s, PushArg(s1, h), [t], n)
  {
    hide Decode, Whole, HasArgCall, Flat, Zeroed;
    var s2, start := PushArg(s1, h), |s.a.argIndices|;
    DecodeExtends(s1.a, s2.a, h);
    ZeroedHasArgCall(t);
    EntriesKept(s.a, s1.a, s2.a, HasArgCall(t));
    assert [t][0] == t;
    if HasArgCall(t) {
      assert s2.a.argIndices[start + 0] == s1.a.argIndices[start];
      assert Decode(s2.a, s2.a.argIndices[start + 0]) != Zeroed([t][0]);
      assert !Plain([t]);
    } else {
      NoArgCallFlat(t);
      assert s2.a.argIndices[start] == h;
    }
  }

  /** Entries that were pushed before are still there and mean the same. */
  lemma EntriesKept(a: Arena, a1: Arena, a2: Arena, some: bool)
    requires Extends(a, a1) && Extends(a1, a2) && Pushed(a, a1, some)
    ensures forall j :: |a.argIndices| <= j < |a1.argIndices| ==>
                          && a2.argIndices[j] == a1.argIndices[j]
                          && Decode(a2, a2.argIndices[j]) == Decode(a1, a1.argIndices[j])
  {
    hide Decode, Whole, HasArgCall;
    forall j | |a.argIndices| <= j < |a1.argIndices|
      ensures a2.argIndices[j] == a1.argIndices[j]
      ensures Decode(a2, a2.argIndices[j]) == Decode(a1, a1.argIndices[j])
    {
      DecodeExtends(a1, a2, a1.argIndices[j]);
    }
  }

  lemma {:induction false} ParsesMoreArgs(ts: Tokens, s: S, args: seq<Tree>, count: nat) returns (s': S)
    requires s.pos <= |ts| && !s.hung && |args| > 1 && AllPrintable(args) && Stands(ts, s.pos, PrintArgs(args) + [")"])
    ensures ParseArgs(ts, s, count) == (s', count + |args|) && ArgsBuilt(s, s', args, |PrintArgs(args)|)
    decreases args, 8
  {
    hide ParseArgs, Print, Precedence, Built, ArgsBuilt, Stands, Peek, EndsInName;
    var first, rest := Print(args[0], 0), PrintArgs(args[1..]);
    FirstToken(args[0], 0);
    SeparatorLevel();
    assert PrintArgs(args) + [")"] == first + ([","] + (rest + [")"]));
    ArgsStand(ts, s.pos, first, rest + [")"]);
    var s1, h1 := ParsesExpr(ts, s, args[0], 0);
    BuiltPos(s, s1, h1, args[0], |first|);
    OneArgBuilt(s, s1, h1, args[0], |first|);
    var s2 := Step(ts, PushArg(s1, h1));
    assert s2.pos == s.pos + |first| + 1;
    s' := ParsesArgs(ts, s2, args[1..], count + 1);
    ArgsGoOn(ts, s, s1, h1, count);
    MoreArgsBuilt(s, s2, s', args, |first|, |rest|);
  }

  lemma ArgsStand(ts: Tokens, pos: nat, first: Tokens, rest: Tokens)
    requires first != [] && Stands(ts, pos, first + ([","] + rest))
    ensures Stands(ts, pos, first) && Stands(ts, pos + |first| + 1, rest)
    ensures pos + |first| < |ts| && Peek(ts, pos) == first[0] && Peek(ts, pos + |first|) == ","
  {
    StandsSplit(ts, pos, first, [","] + rest);
    FirstStands(ts, pos, first);
    StandsSplit(ts, pos + |first|, [","], rest);
    StandsOne(ts, pos + |first|, ",");
  }

  lemma ArgsGoOn(ts: Tokens, s: S, s1: S, h1: nat, count: nat)
    requires s.pos <= |ts| && Peek(ts, s.pos) != ")" && ParseBp(ts, s, 0) == (s1, h1) && !s1.hung
    requires s1.pos <= |ts| && Peek(ts, s1.pos) == ","
    ensures ParseArgs(ts, s, count) == ParseArgs(ts, Step(ts, PushArg(s1, h1)), count + 1)
  {
    hide ParseBp;
  }

  lemma MoreArgsBuilt(s: S, s2: S, s': S, args: seq<Tree>, n: nat, m: nat)
    requires |args| > 1 && s2.pos > 0 && ArgsBuilt(s, s2.(pos := s2.pos - 1), [args[0]], n)
    requires ArgsBuilt(s2, s', args[1..], m)
    ensures ArgsBuilt(s, s', args, n + 1 + m)
  {
    hide Decode, Whole, HasArgCall, Flat, Zeroed;
    var start, rest := |s.a.argIndices|, args[1..];
    PushedMore(s.a, s2.a, s'.a, true, true);
    EntriesKept(s.a, s2.a, s'.a, true);
    PlainSplit(args);
    ReadBackSplit(s'.a, start, args);
    assert ReadBack(s'.a, start, [args[0]]) <==> ReadBack(s2.a, start, [args[0]]) by {
      assert s'.a.argIndices[start] == s2.a.argIndices[start];
      assert [args[0]][0] == args[0];
    }
  }

  lemma PlainSplit(args: seq<Tree>)
    requires |args| > 1
    ensures Plain(args) <==> Plain([args[0]]) && Plain(args[1..])
  {
    hide HasArgCall, Flat;
    if Plain([args[0]]) && Plain(args[1..]) {
      assert [args[0]][0] == args[0];
      forall i | 0 <= i < |args| ensures Flat(args[i]) && !HasArgCall(args[i]) {
        if i > 0 { assert args[i] == args[1..][i - 1]; }
      }
    }
  }

  lemma ReadBackSplit(a: Arena, start: nat, args: seq<Tree>)
    requires |args| > 1 && start + |args| <= |a.argIndices|
    ensures ReadBack(a, start, args) <==> ReadBack(a, start, [args[0]]) && ReadBack(a, start + 1, args[1..])
  {
    hide Decode, Zeroed;
    if ReadBack(a, start, [args[0]]) && ReadBack(a, start + 1, args[1..]) {
      assert [args[0]][0] == args[0];
      forall i | 0 <= i < |args| ensures Decode(a, a.argIndices[start + i]) == Zeroed(args[i]) {
        if i > 0 { assert args[i] == args[1..][i - 1]; }
      }
    }
    if ReadBack(a, start, args) {
      forall i | 0 <= i < |args| - 1 ensures Decode(a, a.argIndices[start + 1 + i]) == Zeroed(args[1..][i]) {
        assert args[1..][i] == args[i + 1];
      }
    }
  }

  lemma {:induction false} ParsesCall(ts: Tokens, s: S, t: Tree) returns (s': S, h: nat)
    requires s.pos <= |ts| && !s.hung && Printable(t) && t.App? && Stands(ts, s.pos, PrintUnit(t))
    ensures s'.pos <= |ts| && ParseUnit(ts, s) == ParsePostfix(ts, s', h) && Built(s, s', h, t, |PrintUnit(t)|)
    decreases t, 0
  {
    hide ParsePostfix, PrintArgs, Built, ParseUnit, ParseArgs, AfterName, ArgsBuilt, Stands, Peek;
    var App(f, args) := t;
    var base, inner := PrintUnit(f), PrintArgs(args);
    CallStands(ts, s.pos, base, inner);
    var s1, h1 := ParsesUnit(ts, s, f);
    BuiltPos(s, s1, h1, f, |base|);
    var s2 := ParsesArgs(ts, Step(ts, s1), args, 0);
    ArgsPos(Step(ts, s1), s2, args, |inner|);
    var p := Push(Step(ts, s2), Call(h1, |s1.a.argIndices|, |args|));
    s', h := p.0, p.1;
    PostfixCall(ts, s1, h1, s2, |args|);
    CallBuilt(s, s1, s2, s', t, h1);
  }

  lemma ArgsPos(s: S, s1: S, args: seq<Tree>, n: nat)
    requires ArgsBuilt(s, s1, args, n)
    ensures s1.pos == s.pos + n && !s1.hung
  {}

  lemma CallStands(ts: Tokens, pos: nat, base: Tokens, inner: Tokens)
    requires Stands(ts, pos, base + (["("] + inner + [")"]))
    ensures Stands(ts, pos, base) && Stands(ts, pos + |base| + 1, inner + [")"])
    ensures pos + |base| + 1 + |inner| < |ts| && Peek(ts, pos + |base|) == "("
    ensures Peek(ts, pos + |base| + 1 + |inner|) == ")"
    ensures AfterName(ts, pos + |base|)
  {
    StandsSplit(ts, pos, base, ["("] + inner + [")"]);
    assert ["("] + inner + [")"] == ["("] + (inner + [")"]);
    StandsSplit(ts, pos + |base|, ["("], inner + [")"]);
    StandsOne(ts, pos + |base|, "(");
    StandsSplit(ts, pos + |base| + 1, inner, [")"]);
    StandsOne(ts, pos + |base| + 1 + |inner|, ")");
  }

  lemma PostfixCall(ts: Tokens, s: S, current: nat, s1: S, n: nat)
    requires s.pos <= |ts| && Peek(ts, s.pos) == "(" && ParseArgs(ts, Step(ts, s), 0) == (s1, n) && !s1.hung
    ensures var p := Push(Step(ts, s1), Call(current, |s.a.argIndices|, n));
            ParsePostfix(ts, s, current) == ParsePostfix(ts, p.0, p.1)
  {
    hide ParseBp, ParseArgs;
  }

  lemma CallBuilt(s: S, s1: S, s2: S, s': S, t: Tree, h1: nat)
    requires t.App? && s.pos <= s1.pos < s2.pos && Built(s, s1, h1, t.callee, s1.pos - s.pos)
    requires ArgsBuilt(s1.(pos := s1.pos + 1), s2, t.args, s2.pos - s1.pos - 1)
    requires s' == Push(s2.(pos := s2.pos + 1), Call(h1, |s1.a.argIndices|, |t.args|)).0
    ensures Built(s, s', |s'.a.exprs|, t, s2.pos + 1 - s.pos)
  {
    hide Decode, Pushed, Whole;
    var h, start, n := |s'.a.exprs|, |s1.a.argIndices|, |t.args|;
    var call := Call(h1, start, n);
    PushedMore(s.a, s1.a, s2.a, HasArgCall(t.callee), t.args != []);
    PushedNode(s.a, s2.a, call, HasArgCall(t));
    DecodeExtends(s1.a, s'.a, h1);
    Named(s1.a, h1);
    ArgsKept(s1.a, s2.a, call, n);
    DecodeCall(s'.a, h, h1, start, n);
    CallRead(s2.a, s'.a, h, start, t.args);
    assert Decode(s'.a, h) == App(Decode(s'.a, h1), DecodeArgs(s'.a, h, start, n));
    WholeApp(Decode(s'.a, h1), DecodeArgs(s'.a, h, start, n));
  }

  lemma WholeApp(f: Tree, args: seq<Tree>)
    requires Whole(f) && forall i :: 0 <= i < |args| ==> Whole(args[i])
    ensures Whole(App(f, args))
  {}

  /** The argument entries of the call name nodes before it and still mean the same. */
  lemma ArgsKept(a1: Arena, a2: Arena, call: Expr, n: nat)
    requires Pushed(a1, a2, n > 0) && |a1.argIndices| + n <= |a2.argIndices|
    ensures var a' := a2.(exprs := a2.exprs + [call]);
            forall j :: |a1.argIndices| <= j < |a1.argIndices| + n ==>
                          && 1 <= a2.argIndices[j] <= |a2.exprs| && Whole(Decode(a', a2.argIndices[j]))
                          && Decode(a', a2.argIndices[j]) == Decode(a2, a2.argIndices[j])
  {
    hide Decode, Whole, HasArgCall;
    forall j | |a1.argIndices| <= j < |a1.argIndices| + n
      ensures 1 <= a2.argIndices[j] <= |a2.exprs|
      ensures Decode(a2.(exprs := a2.exprs + [call]), a2.argIndices[j]) == Decode(a2, a2.argIndices[j])
    {
      Named(a2, a2.argIndices[j]);
      DecodeExtends(a2, a2.(exprs := a2.exprs + [call]), a2.argIndices[j]);
    }
  }

  lemma CallRead(a2: Arena, a: Arena, h: nat, start: nat, args: seq<Tree>)
    requires start + |args| <= |a2.argIndices| && a.argIndices == a2.argIndices
    requires forall j :: start <= j < start + |args| ==> a.argIndices[j] < h && Whole(Decode(a, a.argIndices[j]))
    requires forall j :: start <= j < start + |args| ==> Decode(a, a.argIndices[j]) == Decode(a2, a.argIndices[j])
    ensures DecodeArgs(a, h, start, |args|) == ZeroedAll(args) <==> ReadBack(a2, start, args)
    ensures forall i :: 0 <= i < |args| ==> Whole(DecodeArgs(a, h, start, |args|)[i])
  {
    hide Decode, Whole, Zeroed;
    ReadArgs(a, h, start, |args|);
    var read := DecodeArgs(a, h, start, |args|);
    assert forall i :: 0 <= i < |args| ==> read[i] == Decode(a2, a2.argIndices[start + i]);
    assert read == ZeroedAll(args) <==> forall i :: 0 <= i < |args| ==> read[i] == ZeroedAll(args)[i];
  }

  lemma DecodeCall(a: Arena, h: nat, f: nat, start: nat, n: nat)
    requires 1 <= h <= |a.exprs| && a.exprs[h - 1] == Call(f, start, n) && f < h && start + n <= |a.argIndices|
    requires forall j :: start <= j < start + n ==> a.argIndices[j] < h
    ensures Decode(a, h) == App(Decode(a, f), DecodeArgs(a, h, start, n))
  {}

  lemma {:induction false} ReadArgs(a: Arena, h: nat, start: nat, n: nat)
    requires start + n <= |a.argIndices| && forall j :: start <= j < start + n ==> a.argIndices[j] < h
    ensures forall i :: 0 <= i < n ==> DecodeArgs(a, h, start, n)[i] == Decode(a, a.argIndices[start + i])
  {
    hide Decode;
    if n > 0 {
      ReadArgs(a, h, start, n - 1);
    }
  }

  // -------------------------------------------------------------------- main result --

  /** Print, parse, read back: any tree, at any level, with any tokens before and after, as
      long as the next token cannot extend the expression. The parser takes exactly the
      printed tokens, and the tree comes back with every literal read as zero exactly if no
      argument of a call contains a call with arguments. */
  lemma PrintParseRoundTrip(ts: Tokens, s: S, t: Tree, min: nat)
    requires s.pos <= |ts| && !s.hung && Printable(t) && Stands(ts, s.pos, Print(t, min))
    requires var next := Peek(ts, s.pos + |Print(t, min)|);
             && NotPostfix(next) && (EndsInName(t, min) ==> AfterName(ts, s.pos + |Print(t, min)|))
             && (Precedence(next) == 0 || Precedence(next) < min)
    ensures var (s', h) := ParseBp(ts, s, min);
            && !s'.hung && s'.pos == s.pos + |Print(t, min)| && s'.patience == s.patience
            && (Decode(s'.a, h) == Zeroed(t) <==> Flat(t))
            && (Flat(t) ==> (Decode(s'.a, h) == t <==> NoLiterals(t)))
  {
    hide Print, Decode, Zeroed, Flat, ParseBp;
    var s', h := ParsesExpr(ts, s, t, min);
    ZeroedSame(t);
  }

  /** Exactly the sixteen operators are taken for operators, each at its own level. */
  lemma OperatorLevels(lex: string)
    ensures forall op :: lex == OpText(op) ==> Precedence(lex) == Level(op) && LexToBinop(lex) == op
    ensures Precedence(lex) == 0 <==> forall op :: lex != OpText(op)
  {
    if Precedence(lex) != 0 {
      assert lex == OpText(LexToBinop(lex));
    }
  }

  /** Of two operators in a row the first takes its operands first, unless the second binds tighter. */
  lemma Grouping(ts: Tokens, s: S, x: string, o: BinaryOp, y: string, p: BinaryOp, z: string)
    requires s.pos <= |ts| && !s.hung && IsIdentLexeme(x) && IsIdentLexeme(y) && IsIdentLexeme(z)
    requires Stands(ts, s.pos, [x, OpText(o), y, OpText(p), z])
    requires NotPostfix(Peek(ts, s.pos + 5)) && AfterName(ts, s.pos + 5) && Precedence(Peek(ts, s.pos + 5)) == 0
    ensures var (s', h) := ParseBp(ts, s, 0);
            && !s'.hung && s'.pos == s.pos + 5
            && Decode(s'.a, h) == if Level(o) < Level(p) then Bi(Id(x), o, Bi(Id(y), p, Id(z)))
                                  else Bi(Bi(Id(x), o, Id(y)), p, Id(z))
  {
    hide ParseBp, Decode, Stands, OpText, Level, IsIdentLexeme;
    var t := if Level(o) < Level(p) then Bi(Id(x), o, Bi(Id(y), p, Id(z))) else Bi(Bi(Id(x), o, Id(y)), p, Id(z));
    GroupedText(x, o, y, p, z);
    PrintParseRoundTrip(ts, s, t, 0);
  }

  lemma GroupedText(x: string, o: BinaryOp, y: string, p: BinaryOp, z: string)
    requires IsIdentLexeme(x) && IsIdentLexeme(y) && IsIdentLexeme(z)
    ensures var t := if Level(o) < Level(p) then Bi(Id(x), o, Bi(Id(y), p, Id(z)))
            else Bi(Bi(Id(x), o, Id(y)), p, Id(z));
            Print(t, 0) == [x, OpText(o), y, OpText(p), z] && Kept(t)
  {
    hide OpText, Level, IsIdentLexeme, Print, Kept;
    KeptName(x);
    KeptName(y);
    KeptName(z);
    if Level(o) < Level(p) {
      KeptOperator(Id(y), p, Id(z));
      KeptOperator(Id(x), o, Bi(Id(y), p, Id(z)));
      TwoNames(y, p, z, Level(o) + 1);
      OddLevels(o, p);
      InnerOuter(Id(x), o, Bi(Id(y), p, Id(z)));
      NamePrint(x, Level(o));
    } else {
      KeptOperator(Id(x), o, Id(y));
      KeptOperator(Bi(Id(x), o, Id(y)), p, Id(z));
      TwoNames(x, o, y, Level(p));
      InnerOuter(Bi(Id(x), o, Id(y)), p, Id(z));
      NamePrint(z, Level(p) + 1);
    }
  }

  /** A tree that is read back just as it is. */
  predicate Kept(t: Tree) { Printable(t) && Flat(t) && Zeroed(t) == t }

  lemma KeptName(x: string)
    requires IsIdentLexeme(x)
    ensures Kept(Id(x))
  {}

  lemma KeptOperator(l: Tree, op: BinaryOp, r: Tree)
    requires Kept(l) && Kept(r)
    ensures Kept(Bi(l, op, r))
  {}

  lemma InnerOuter(l: Tree, op: BinaryOp, r: Tree)
    ensures Print(Bi(l, op, r), 0) == Print(l, Level(op)) + [OpText(op)] + Print(r, Level(op) + 1)
  {
    hide OpText, Level;
  }

  lemma TwoNames(x: string, op: BinaryOp, y: string, min: nat)
    requires min <= Level(op)
    ensures Print(Bi(Id(x), op, Id(y)), min) == [x, OpText(op), y]
  {
    hide OpText, Level;
    NamePrint(x, Level(op));
    NamePrint(y, Level(op) + 1);
  }

  lemma NamePrint(x: string, min: nat)
    ensures Print(Id(x), min) == [x]
  {}

  lemma OddLevels(o: BinaryOp, p: BinaryOp)
    ensures Level(o) < Level(p) ==> Level(o) + 1 < Level(p)
  {}

  /** The smallest call that is not read back: `f(g(x))` comes back as `f(x)`. */
  lemma NestedCallLosesItself()
    ensures var t := App(Id("f"), [App(Id("g"), [Id("x")])]);
            Print(t, 0) == NESTED && Printable(t) && !Flat(t)
    ensures var (s', h) := ParseBp(NESTED, S(0, Arena([], [], [], [], [], [], [], []), 0, false), 0);
            !s'.hung && Decode(s'.a, h) == App(Id("f"), [Id("x")])
  {
    hide ParseBp, Decode;
    NestedPrint();
    NestedParse();
  }

  lemma NestedPrint()
    ensures var t := App(Id("f"), [App(Id("g"), [Id("x")])]);
            Print(t, 0) == NESTED && Printable(t) && !Flat(t)
  {
    var inner := App(Id("g"), [Id("x")]);
    assert PrintArgs([Id("x")]) == ["x"];
    assert Print(inner, 0) == ["g", "(", "x", ")"];
    assert HasArgCall(inner);
    assert [inner][0] == inner;
  }

  const NESTED: Tokens := ["f", "(", "g", "(", "x", ")", ")"]

  /** On the way through `f(g(x))`: the nodes and the shared argument entries so far. */
  function Midway(pos: nat, exprs: seq<Expr>, args: seq<nat>): S {
    S(pos, Arena(exprs, [], [], [], [], args, [], []), 0, false)
  }

  lemma NameAlone(s: S, x: string)
    requires s.pos < |NESTED| && !s.hung && NESTED[s.pos] == x && IsIdentLexeme(x)
    ensures ParsePrimary(NESTED, s) == Push(s.(pos := s.pos + 1), Ident(x))
  {
    hide ParsePostfix, ParseBp, ParseFields;
  }

  lemma NothingFollows(s: S, h: nat)
    requires s.pos <= |NESTED| && (s.pos < |NESTED| ==> NESTED[s.pos] == ")")
    ensures ParsePostfix(NESTED, s, h) == (s, h) && ParseOperators(NESTED, s, h, 0) == (s, h)
  {
    hide ParsePostfix, ParseOperators;
    SeparatorLevel();
    NoPostfix(NESTED, s, h);
    StopsAt(NESTED, s, h, 0);
  }

  lemma OneArg(s: S, s1: S, h: nat)
    requires s.pos <= |NESTED| && Peek(NESTED, s.pos) != ")" && ParseBp(NESTED, s, 0) == (s1, h) && !s1.hung
    requires s1.pos < |NESTED| && NESTED[s1.pos] == ")"
    ensures ParseArgs(NESTED, s, 0) == (PushArg(s1, h), 1)
  {
    hide ParseBp;
  }

  lemma NestedParse()
    ensures var (s', h) := ParseBp(NESTED, S(0, Arena([], [], [], [], [], [], [], []), 0, false), 0);
            !s'.hung && Decode(s'.a, h) == App(Id("f"), [Id("x")])
  {
    hide ParsePrimary, ParsePostfix, ParseOperators, ParseArgs;
    var f, g, x := Ident("f"), Ident("g"), Ident("x");
    var s0, s1, s2, s3 := Midway(0, [], []), Midway(1, [f], []), Midway(2, [f], []), Midway(3, [f, g], []);
    var s4, s5, s6 := Midway(4, [f, g], []), Midway(5, [f, g, x], []), Midway(5, [f, g, x], [3]);
    var s7 := Midway(6, [f, g, x, Call(2, 0, 1)], [3]);
    var s8 := Midway(6, [f, g, x, Call(2, 0, 1)], [3, 4]);
    var s9 := Midway(7, [f, g, x, Call(2, 0, 1), Call(1, 0, 1)], [3, 4]);
    assert [f, g] + [x] == [f, g, x] && [] + [3] == [3] && [3] + [4] == [3, 4] && [] + [f] == [f]
      && [f] + [g] == [f, g];
    assert [f, g, x] + [Call(2, 0, 1)] == [f, g, x, Call(2, 0, 1)];
    assert [f, g, x, Call(2, 0, 1)] + [Call(1, 0, 1)] == [f, g, x, Call(2, 0, 1), Call(1, 0, 1)];
    NameAlone(s4, "x");
    NothingFollows(s5, 3);
    assert ParseBp(NESTED, s4, 0) == (s5, 3);
    OneArg(s4, s5, 3);
    PostfixCall(NESTED, s3, 2, s6, 1);
    NothingFollows(s7, 4);
    NameAlone(s2, "g");
    assert ParseBp(NESTED, s2, 0) == (s7, 4);
    OneArg(s2, s7, 4);
    PostfixCall(NESTED, s1, 1, s8, 1);
    NothingFollows(s9, 5);
    NameAlone(s0, "f");
    assert ParseBp(NESTED, s0, 0) == (s9, 5);
    NestedDecode(s9.a);
  }

  lemma NestedDecode(a: Arena)
    requires a.exprs == [Ident("f"), Ident("g"), Ident("x"), Call(2, 0, 1), Call(1, 0, 1)] && a.argIndices == [3, 4]
    ensures Decode(a, 5) == App(Id("f"), [Id("x")])
  {
    assert Decode(a, 1) == Id("f") && Decode(a, 3) == Id("x");
    assert DecodeArgs(a, 5, 0, 0) == [];
    assert DecodeArgs(a, 5, 0, 1) == [Id("x")];
  }

  /** Every integer literal of the tree is zero. */
  predicate NoLiterals(t: Tree) {
    match t
    case Num(n) => n == 0
    case Un(_, e) => NoLiterals(e)
    case Bi(l, _, r) => NoLiterals(l) && NoLiterals(r)
    case At(b, i) => NoLiterals(b) && NoLiterals(i)
    case Dot(b, _) => NoLiterals(b)
    case App(f, args) => NoLiterals(f) && forall i :: 0 <= i < |args| ==> NoLiterals(args[i])
    case _ => true
  }

  lemma {:induction false} ZeroedSame(t: Tree)
    ensures Zeroed(t) == t <==> NoLiterals(t)
  {
    match t {
      case Un(_, e) => ZeroedSame(e);
      case Bi(l, _, r) => ZeroedSame(l); ZeroedSame(r);
      case At(b, i) => ZeroedSame(b); ZeroedSame(i);
      case Dot(b, _) => ZeroedSame(b);
      case App(f, args) =>
        ZeroedSame(f);
        forall i | 0 <= i < |args| ensures Zeroed(args[i]) == args[i] <==> NoLiterals(args[i]) { ZeroedSame(args[i]); }
        assert ZeroedAll(args) == args <==> forall i :: 0 <= i < |args| ==> Zeroed(args[i]) == args[i];
      case _ =>
    }
  }
}
