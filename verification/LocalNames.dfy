/** The names that emitted code defines, and why they never clash. */
module LocalNames {
  import opened Ast
  import opened Digits
  import opened Emitter
  import opened Machine
  import opened Options

  // -------------------------------------------------------- shapes of the names --

  lemma TmpShape(n: nat)
    ensures var x := TmpName(n); |x| >= 2 && x[0] == 't' && AllDigits(x[1..]) && x[1..] == IntText(n)
    ensures '.' !in TmpName(n)
  {}

  lemma TmpInjective(m: nat, n: nat)
    requires TmpName(m) == TmpName(n)
    ensures m == n
  {
    TmpShape(m);
    TmpShape(n);
    IntTextInjective(m, n);
  }

  lemma TmpIsNotPlain(n: nat)
    ensures !PlainName(TmpName(n))
  {
    TmpShape(n);
  }

  /** The dot before the digits is the last one. */
  lemma LastDot(p: string, d: string)
    requires AllDigits(d)
    ensures var x := p + "." + d;
            x[|p|] == '.' && (forall j :: |p| < j < |x| ==> x[j] != '.') && x[..|p|] == p && x[|p| + 1..] == d
  {
    var x := p + "." + d;
    forall j | |p| < j < |x| ensures x[j] != '.' {
      assert x[j] == d[j - |p| - 1];
    }
  }

  /** A dotted name has one reading as a stem and digits. */
  lemma DottedInjective(p: string, d: string, q: string, e: string)
    requires p + "." + d == q + "." + e && AllDigits(d) && AllDigits(e)
    ensures p == q && d == e
  {
    LastDot(p, d);
    LastDot(q, e);
  }

  /** Labels with different numbers differ, whatever their prefixes. */
  lemma LabelInjective(p: string, m: nat, q: string, n: nat)
    requires LabelName(p, m) == LabelName(q, n)
    ensures p == q && m == n
  {
    DottedInjective(p, IntText(m), q, IntText(n));
    IntTextInjective(m, n);
  }

  lemma LabelIsDotted(p: string, n: nat)
    ensures '.' in LabelName(p, n) && LabelName(p, n) != "entry"
    ensures forall x :: LabelName(p, n) != ArgName(x)
  {
    var l := LabelName(p, n);
    assert l[|p|] == '.';
    assert IsDigit(l[|l| - 1]) by { assert l[|l| - 1] == IntText(n)[|IntText(n)| - 1]; }
    forall x ensures l != ArgName(x) {
      assert ArgName(x)[|ArgName(x)| - 1] == 'g';
    }
  }

  // ------------------------------------------------------------- fresh names --

  /** One of the temporaries numbered from `k + 1` to `k'`. */
  ghost predicate TmpBetween(x: string, k: nat, k': nat) {
    exists n {:trigger TmpName(n)} :: k < n <= k' && x == TmpName(n)
  }

  /** A label with a number from `l + 1` to `l'`. */
  ghost predicate LabelBetween(x: string, l: nat, l': nat) {
    exists p, n {:trigger LabelName(p, n)} :: l < n <= l' && x == LabelName(p, n)
  }

  /** Names that a stretch of the counters may define, each at most once. */
  ghost predicate Fresh(names: multiset<string>, k: nat, k': nat, l: nat, l': nat) {
    forall x :: x in names ==> names[x] == 1 && (TmpBetween(x, k, k') || LabelBetween(x, l, l'))
  }

  /** Two consecutive stretches of the counters share no name. */
  lemma FreshUnion(m: multiset<string>, n: multiset<string>,
                   k: nat, k1: nat, k2: nat, l: nat, l1: nat, l2: nat)
    requires k <= k1 <= k2 && l <= l1 <= l2
    requires Fresh(m, k, k1, l, l1) && Fresh(n, k1, k2, l1, l2)
    ensures Fresh(m + n, k, k2, l, l2)
  {
    hide TmpName, LabelName;
    forall x | x in m + n
      ensures (m + n)[x] == 1 && (TmpBetween(x, k, k2) || LabelBetween(x, l, l2))
    {
      if x in m {
        FreshDisjoint(x, k, k1, k2, l, l1, l2);
        assert x !in n;
      } else {
        assert x in n;
      }
    }
  }

  lemma FreshDisjoint(x: string, k: nat, k1: nat, k2: nat, l: nat, l1: nat, l2: nat)
    requires TmpBetween(x, k, k1) || LabelBetween(x, l, l1)
    ensures !TmpBetween(x, k1, k2) && !LabelBetween(x, l1, l2)
  {
    hide TmpName, LabelName;
    if TmpBetween(x, k, k1) {
      var n :| k < n <= k1 && x == TmpName(n);
      TmpShape(n);
      forall n' | x == TmpName(n') ensures n' == n { TmpInjective(n, n'); }
      forall p, n' ensures x != LabelName(p, n') { LabelIsDotted(p, n'); }
    } else {
      var p, n :| l < n <= l1 && x == LabelName(p, n);
      LabelIsDotted(p, n);
      forall n' ensures x != TmpName(n') { TmpShape(n'); }
      forall q, n' | x == LabelName(q, n') ensures n' == n { LabelInjective(p, n, q, n'); }
    }
  }

  // ------------------------------------------------- the definitions in a code --

  /** The local names an instruction defines. Block names and value names share one table. */
  function InstrDefs(ins: Instr): multiset<string> {
    match ins
    case Define(_, args) => multiset(args)
    case Alloca(x) => multiset{x}
    case Load(dst, _) => multiset{dst}
    case Bin(dst, _, _, _) => multiset{dst}
    case Label(l) => multiset{l}
    case CallOpen(dst, _) => multiset{dst}
    case _ => multiset{}
  }

  function Defs(c: seq<Instr>): multiset<string> {
    if c == [] then multiset{} else Defs(c[..|c| - 1]) + InstrDefs(c[|c| - 1])
  }

  lemma {:induction false} DefsConcat(c: seq<Instr>, d: seq<Instr>)
    ensures Defs(c + d) == Defs(c) + Defs(d)
  {
    if d == [] {
      assert c + d == c;
    } else {
      var d' := d[..|d| - 1];
      assert (c + d)[..|c + d| - 1] == c + d';
      DefsConcat(c, d');
    }
  }

  lemma DefsOne(i: Instr)
    ensures Defs([i]) == InstrDefs(i)
  {
    assert [i][..0] == [];
    assert Defs([i]) == Defs([]) + InstrDefs(i);
  }

  lemma DefsTwo(i: Instr, j: Instr)
    ensures Defs([i, j]) == InstrDefs(i) + InstrDefs(j)
  {
    assert [i, j] == [i] + [j];
    DefsConcat([i], [j]);
    DefsOne(i);
    DefsOne(j);
  }

  /** `d` consists of the names `decls` and of fresh ones, each of these once. */
  ghost predicate Owns(d: multiset<string>, decls: multiset<string>, k: nat, k': nat, l: nat, l': nat) {
    k <= k' && l <= l' && decls <= d && Fresh(d - decls, k, k', l, l')
  }

  lemma OwnsUnion(c: multiset<string>, d: multiset<string>, m: multiset<string>, n: multiset<string>,
                  k: nat, k1: nat, k2: nat, l: nat, l1: nat, l2: nat)
    requires Owns(c, m, k, k1, l, l1) && Owns(d, n, k1, k2, l1, l2)
    ensures Owns(c + d, m + n, k, k2, l, l2)
  {
    hide Fresh;
    FreshUnion(c - m, d - n, k, k1, k2, l, l1, l2);
    assert (c + d) - (m + n) == (c - m) + (d - n);
  }

  /** `c` defines the names `decls`, and besides them only fresh ones, each once. */
  ghost predicate Defines(c: seq<Instr>, decls: multiset<string>, k: nat, k': nat, l: nat, l': nat) {
    Owns(Defs(c), decls, k, k', l, l')
  }

  lemma DefinesConcat(c: seq<Instr>, d: seq<Instr>, m: multiset<string>, n: multiset<string>,
                      k: nat, k1: nat, k2: nat, l: nat, l1: nat, l2: nat)
    requires Defines(c, m, k, k1, l, l1) && Defines(d, n, k1, k2, l1, l2)
    ensures Defines(c + d, m + n, k, k2, l, l2)
  {
    hide Defs, Owns;
    DefsConcat(c, d);
    OwnsUnion(Defs(c), Defs(d), m, n, k, k1, k2, l, l1, l2);
  }

  lemma DefinesNone(k: nat, l: nat)
    ensures Defines([], multiset{}, k, k, l, l)
  {}

  lemma DefinesSilent(i: Instr, k: nat, l: nat)
    requires InstrDefs(i) == multiset{}
    ensures Defines([i], multiset{}, k, k, l, l)
  {
    DefsOne(i);
  }

  lemma DefinesTmp(i: Instr, k: nat, l: nat)
    requires InstrDefs(i) == multiset{TmpName(k + 1)}
    ensures Defines([i], multiset{}, k, k + 1, l, l)
  {
    DefsOne(i);
    assert Defs([i]) - multiset{} == multiset{TmpName(k + 1)};
  }

  lemma LabelFresh(p: string, k: nat, l: nat)
    ensures Owns(multiset{LabelName(p, l + 1)}, multiset{}, k, k, l, l + 1)
  {
    var m := multiset{LabelName(p, l + 1)};
    assert m - multiset{} == m;
  }

  /** The three labels of a compound statement; the middle one may stay unused. */
  lemma ThreeLabels(p: string, q: string, r: string, middle: bool, k: nat, l: nat)
    ensures Owns(multiset{LabelName(p, l + 1)}
                 + (if middle then multiset{LabelName(q, l + 2)} else multiset{})
                 + multiset{LabelName(r, l + 3)}, multiset{}, k, k, l, l + 3)
  {
    hide LabelName, Owns;
    var none: multiset<string> := multiset{};
    assert none + none == none;
    var m := if middle then multiset{LabelName(q, l + 2)} else none;
    LabelFresh(p, k, l);
    LabelFresh(q, k, l + 1);
    LabelFresh(r, k, l + 2);
    OwnsNothing(k, l + 1, l + 2);
    OwnsUnion(multiset{LabelName(p, l + 1)}, m, none, none, k, k, k, l, l + 1, l + 2);
    OwnsUnion(multiset{LabelName(p, l + 1)} + m, multiset{LabelName(r, l + 3)}, none, none, k, k, k, l, l + 2, l + 3);
  }

  lemma OwnsNothing(k: nat, l: nat, l': nat)
    requires l <= l'
    ensures Owns(multiset{}, multiset{}, k, k, l, l')
  {}

  lemma DefinesThree(x: seq<Instr>, y: seq<Instr>, z: seq<Instr>, k: nat, k1: nat, k2: nat, k3: nat, l: nat)
    requires Defines(x, multiset{}, k, k1, l, l)
    requires Defines(y, multiset{}, k1, k2, l, l)
    requires Defines(z, multiset{}, k2, k3, l, l)
    ensures Defines(x + y + z, multiset{}, k, k3, l, l)
  {
    hide Defines;
    var none: multiset<string> := multiset{};
    assert none + none == none;
    DefinesConcat(x, y, none, none, k, k1, k2, l, l, l);
    DefinesConcat(x + y, z, none, none, k, k2, k3, l, l, l);
  }

  /** The definitions of an expression are exactly fresh temporaries. */
  lemma {:induction false} ExprDefs(a: Arena, i: nat, k: nat, l: nat)
    requires Acyclic(a) && i < |a.exprs|
    ensures Defines(ExprCode(a, i, k).code, multiset{}, k, ExprCode(a, i, k).tmps, l, l)
    decreases i, |a.argIndices| + 1
  {
    hide TmpName, LabelName, IntText, Defines, ArgsCode;
    match a.exprs[i] {
      case Ident(x) =>
        DefinesTmp(Load(TmpName(k + 1), x), k, l);
      case Binary(_, _, _) =>
        BinaryDefs(a, i, k, l);
      case Call(callee, start, count) =>
        var first := CallOpen(TmpName(k + 1), CalleeName(a, callee));
        var args := ArgsCode(a, i, count, k + 1);
        ArgsDefs(a, i, count, k + 1, l);
        DefinesTmp(first, k, l);
        DefinesSilent(CallClose, args.tmps, l);
        DefinesThree([first], args.code, [CallClose], k, k + 1, args.tmps, args.tmps, l);
      case _ =>
        DefinesNone(k, l);
    }
  }

  lemma {:induction false} BinaryDefs(a: Arena, i: nat, k: nat, l: nat)
    requires Acyclic(a) && i < |a.exprs| && a.exprs[i].Binary?
    ensures Defines(ExprCode(a, i, k).code, multiset{}, k, ExprCode(a, i, k).tmps, l, l)
    decreases i, 0
  {
    hide TmpName, LabelName, IntText, Defines, ArgsCode;
    var Binary(lhs, op, rhs) := a.exprs[i];
    var x := ExprCode(a, lhs - 1, k);
    var y := ExprCode(a, rhs - 1, x.tmps);
    ExprDefs(a, lhs - 1, k, l);
    ExprDefs(a, rhs - 1, x.tmps, l);
    var last := Bin(TmpName(y.tmps + 1), OpcodeOf(op), x.val, y.val);
    DefinesTmp(last, y.tmps, l);
    DefinesThree(x.code, y.code, [last], k, x.tmps, y.tmps, y.tmps + 1, l);
  }

  lemma {:induction false} ArgsDefs(a: Arena, i: nat, j: nat, k: nat, l: nat)
    requires Acyclic(a) && i < |a.exprs| && a.exprs[i].Call? && j <= a.exprs[i].argCount
    ensures Defines(ArgsCode(a, i, j, k).code, multiset{}, k, ArgsCode(a, i, j, k).tmps, l, l)
    decreases i, j
  {
    hide TmpName, LabelName, IntText, Defines, ExprCode;
    if j == 0 {
      DefinesNone(k, l);
    } else {
      var e := a.exprs[i];
      var before := ArgsCode(a, i, j - 1, k);
      var h := a.argIndices[e.argsStart + j - 1];
      var arg := ExprCode(a, h - 1, before.tmps);
      var last := CallArg(arg.val, j < e.argCount);
      ArgsDefs(a, i, j - 1, k, l);
      ExprDefs(a, h - 1, before.tmps, l);
      DefinesSilent(last, arg.tmps, l);
      DefinesThree(before.code, arg.code, [last], k, before.tmps, arg.tmps, arg.tmps, l);
    }
  }

  // ------------------------------------------------------ statements and ranges --

  /** The variables that a stretch of emitted statements declares, in the order of emission. */
  function StmtDecls(a: Arena, i: nat): multiset<string>
    requires Acyclic(a) && i < |a.stmts|
    decreases i + 1, 0
  {
    match a.stmts[i]
    case Let(x, _, _) => multiset{x}
    case If(_, ts, tc, es, ec) => RangeDecls(a, ts, tc) + RangeDecls(a, es, ec)
    case While(_, bs, bc) => RangeDecls(a, bs, bc)
    case _ => multiset{}
  }

  function RangeDecls(a: Arena, s: nat, n: nat): multiset<string>
    requires Acyclic(a) && s + n <= |a.stmts|
    decreases s + n, n
  {
    if n == 0 then multiset{} else RangeDecls(a, s, n - 1) + StmtDecls(a, s + n - 1)
  }

  lemma DefinesDecl(x: string, k: nat, l: nat)
    ensures Defines([Alloca(x)], multiset{x}, k, k, l, l)
  {
    DefsOne(Alloca(x));
    assert Defs([Alloca(x)]) - multiset{x} == multiset{};
  }

  lemma {:induction false} RangeDefs(a: Arena, s: nat, n: nat, k: nat, l: nat)
    requires Acyclic(a) && s + n <= |a.stmts|
    ensures var r := RangeCode(a, s, n, k, l); Defines(r.code, RangeDecls(a, s, n), k, r.tmps, l, r.labels)
    decreases s + n, n
  {
    hide TmpName, LabelName, IntText, Defines, ExprCode, StmtCode;
    if n == 0 {
      DefinesNone(k, l);
    } else {
      var before := RangeCode(a, s, n - 1, k, l);
      var last := StmtCode(a, s + n - 1, before.tmps, before.labels);
      RangeDefs(a, s, n - 1, k, l);
      StmtDefs(a, s + n - 1, before.tmps, before.labels);
      DefinesConcat(before.code, last.code, RangeDecls(a, s, n - 1), StmtDecls(a, s + n - 1),
                    k, before.tmps, last.tmps, l, before.labels, last.labels);
    }
  }

  lemma {:induction false} StmtDefs(a: Arena, i: nat, k: nat, l: nat)
    requires Acyclic(a) && i < |a.stmts|
    ensures var r := StmtCode(a, i, k, l); Defines(r.code, StmtDecls(a, i), k, r.tmps, l, r.labels)
    decreases i + 1, 0, 1
  {
    hide TmpName, LabelName, IntText, Defines, ExprCode, RangeCode, RangeDecls;
    match a.stmts[i] {
      case If(_, _, _, _, _) => IfDefs(a, i, k, l);
      case While(_, _, _) => WhileDefs(a, i, k, l);
      case _ => SimpleDefs(a, i, k, l);
    }
  }

  lemma SimpleDefs(a: Arena, i: nat, k: nat, l: nat)
    requires Acyclic(a) && i < |a.stmts| && !a.stmts[i].If? && !a.stmts[i].While?
    ensures var r := StmtCode(a, i, k, l); Defines(r.code, StmtDecls(a, i), k, r.tmps, l, r.labels)
  {
    hide TmpName, LabelName, IntText, Defines, ExprCode, RangeCode, RangeDecls;
    match a.stmts[i] {
      case Let(_, _, _) =>
        LetDefs(a, i, k, l);
      case Assign(_, _) =>
        AssignDefs(a, i, k, l);
      case Return(value) =>
        if value > 0 {
          var e := ExprCode(a, value - 1, k);
          ExprDefs(a, value - 1, k, l);
          DefinesThen(e.code, Ret(e.val), k, e.tmps, l);
        } else {
          DefinesSilent(Ret(Lit("0")), k, l);
        }
      case ExprStmt(expr) =>
        ExprDefs(a, expr - 1, k, l);
      case _ =>
        DefinesNone(k, l);
    }
  }

  lemma LetDefs(a: Arena, i: nat, k: nat, l: nat)
    requires Acyclic(a) && i < |a.stmts| && a.stmts[i].Let?
    ensures var r := StmtCode(a, i, k, l); Defines(r.code, StmtDecls(a, i), k, r.tmps, l, r.labels)
  {
    hide TmpName, LabelName, IntText, Defines, ExprCode, RangeCode, RangeDecls;
    var Let(x, _, init) := a.stmts[i];
    var none: multiset<string> := multiset{};
    DefinesDecl(x, k, l);
    if init > 0 {
      var e := ExprCode(a, init - 1, k);
      ExprDefs(a, init - 1, k, l);
      DefinesThen(e.code, Store(e.val, x), k, e.tmps, l);
      DefinesConcat([Alloca(x)], e.code + [Store(e.val, x)], multiset{x}, none, k, k, e.tmps, l, l, l);
      assert [Alloca(x)] + (e.code + [Store(e.val, x)]) == [Alloca(x)] + e.code + [Store(e.val, x)];
      assert multiset{x} + none == multiset{x};
    }
  }

  lemma AssignDefs(a: Arena, i: nat, k: nat, l: nat)
    requires Acyclic(a) && i < |a.stmts| && a.stmts[i].Assign?
    ensures var r := StmtCode(a, i, k, l); Defines(r.code, StmtDecls(a, i), k, r.tmps, l, r.labels)
  {
    hide TmpName, LabelName, IntText, Defines, ExprCode, RangeCode, RangeDecls, PlaceCode;
    var Assign(place, source) := a.stmts[i];
    var e := ExprCode(a, source - 1, k);
    var p := PlaceCode(a, place - 1, e.tmps);
    ExprDefs(a, source - 1, k, l);
    PlaceDefs(a, place - 1, e.tmps, l);
    DefinesSilent(Store(e.val, p.1), p.2, l);
    DefinesThree(e.code, p.0, [Store(e.val, p.1)], k, e.tmps, p.2, p.2, l);
  }

  lemma DefinesThen(c: seq<Instr>, i: Instr, k: nat, k': nat, l: nat)
    requires Defines(c, multiset{}, k, k', l, l) && InstrDefs(i) == multiset{}
    ensures Defines(c + [i], multiset{}, k, k', l, l)
  {
    hide Defines;
    var none: multiset<string> := multiset{};
    assert none + none == none;
    DefinesSilent(i, k', l);
    DefinesConcat(c, [i], none, none, k, k', k', l, l, l);
  }

  lemma PlaceDefs(a: Arena, i: nat, k: nat, l: nat)
    requires Acyclic(a) && i < |a.exprs|
    ensures var p := PlaceCode(a, i, k); Defines(p.0, multiset{}, k, p.2, l, l)
  {
    hide Defines, ExprCode;
    if a.exprs[i].Ident? {
      DefinesNone(k, l);
    } else {
      ExprDefs(a, i, k, l);
    }
  }

  lemma {:induction false} WhileDefs(a: Arena, i: nat, k: nat, l: nat)
    requires Acyclic(a) && i < |a.stmts| && a.stmts[i].While?
    ensures var r := StmtCode(a, i, k, l); Defines(r.code, StmtDecls(a, i), k, r.tmps, l, r.labels)
    decreases i + 1, 0, 0
  {
    hide TmpName, LabelName, IntText, Owns, ExprCode, RangeCode, RangeDecls, Defs;
    var While(cond, bs, bc) := a.stmts[i];
    var head, body, end :=
      LabelName("while.cond", l + 1), LabelName("while.body", l + 2), LabelName("while.end", l + 3);
    var c := ExprCode(a, cond - 1, k);
    var b := RangeCode(a, bs, bc, c.tmps, l + 3);
    ExprDefs(a, cond - 1, k, l);
    RangeDefs(a, bs, bc, c.tmps, l + 3);
    ThreeLabels("while.cond", "while.body", "while.end", true, c.tmps, l);
    var labels := multiset{head} + multiset{body} + multiset{end};
    var none: multiset<string> := multiset{};
    assert none + none + RangeDecls(a, bs, bc) == RangeDecls(a, bs, bc);
    OwnsUnion(Defs(c.code), labels, none, none, k, c.tmps, c.tmps, l, l, l + 3);
    OwnsUnion(Defs(c.code) + labels, Defs(b.code), none + none, RangeDecls(a, bs, bc),
              k, c.tmps, b.tmps, l, l + 3, b.labels);
    WhileShape(c.code, c.val, b.code, head, body, end);
  }

  lemma WhileShape(c: seq<Instr>, o: Operand, b: seq<Instr>, head: string, body: string, end: string)
    ensures Defs([Br(head), Label(head)] + c + [CondBr(o, body, end), Label(body)] + b + [Br(head), Label(end)])
         == Defs(c) + (multiset{head} + multiset{body} + multiset{end}) + Defs(b)
  {
    hide Defs;
    var x, y, z := [Br(head), Label(head)], [CondBr(o, body, end), Label(body)], [Br(head), Label(end)];
    DefsConcat(x, c);
    DefsConcat(x + c, y);
    DefsConcat(x + c + y, b);
    DefsConcat(x + c + y + b, z);
    DefsTwo(Br(head), Label(head));
    DefsTwo(CondBr(o, body, end), Label(body));
    DefsTwo(Br(head), Label(end));
  }

  lemma {:induction false} IfDefs(a: Arena, i: nat, k: nat, l: nat)
    requires Acyclic(a) && i < |a.stmts| && a.stmts[i].If?
    ensures var r := StmtCode(a, i, k, l); Defines(r.code, StmtDecls(a, i), k, r.tmps, l, r.labels)
    decreases i + 1, 0, 0
  {
    hide TmpName, LabelName, IntText, Owns, ExprCode, RangeCode, RangeDecls, Defs;
    var If(cond, ts, tc, es, ec) := a.stmts[i];
    var thn, els, merge := LabelName("then", l + 1), LabelName("else", l + 2), LabelName("merge", l + 3);
    var c := ExprCode(a, cond - 1, k);
    var t := RangeCode(a, ts, tc, c.tmps, l + 3);
    var e := RangeCode(a, es, ec, t.tmps, t.labels);
    ExprDefs(a, cond - 1, k, l);
    RangeDefs(a, ts, tc, c.tmps, l + 3);
    RangeDefs(a, es, ec, t.tmps, t.labels);
    if ec == 0 { EmptyRange(a, es, t.tmps, t.labels); }
    ThreeLabels("then", "else", "merge", ec > 0, c.tmps, l);
    var labels := multiset{thn} + (if ec > 0 then multiset{els} else multiset{}) + multiset{merge};
    var none: multiset<string> := multiset{};
    assert none + none + RangeDecls(a, ts, tc) == RangeDecls(a, ts, tc);
    OwnsUnion(Defs(c.code), labels, none, none, k, c.tmps, c.tmps, l, l, l + 3);
    OwnsUnion(Defs(c.code) + labels, Defs(t.code), none + none, RangeDecls(a, ts, tc),
              k, c.tmps, t.tmps, l, l + 3, t.labels);
    OwnsUnion(Defs(c.code) + labels + Defs(t.code), Defs(e.code), RangeDecls(a, ts, tc), RangeDecls(a, es, ec),
              k, t.tmps, e.tmps, l, t.labels, e.labels);
    IfShape(c.code, CondBr(c.val, thn, if ec > 0 then els else merge), t.code, e.code, thn, els, merge, ec > 0);
  }

  lemma IfShape(c: seq<Instr>, br: Instr, t: seq<Instr>, e: seq<Instr>, thn: string, els: string, merge: string,
                two: bool)
    requires br.CondBr? && (two || e == [])
    ensures Defs(c + [br, Label(thn)] + t + [Br(merge)]
                 + (if two then [Label(els)] + e + [Br(merge)] else []) + [Label(merge)])
         == Defs(c) + (multiset{thn} + (if two then multiset{els} else multiset{}) + multiset{merge}) + Defs(t)
           + Defs(e)
  {
    hide Defs;
    var y, m, z := [br, Label(thn)], [Br(merge)], if two then [Label(els)] + e + [Br(merge)] else [];
    DefsConcat(c, y);
    DefsConcat(c + y, t);
    DefsConcat(c + y + t, m);
    DefsConcat(c + y + t + m, z);
    DefsConcat(c + y + t + m + z, [Label(merge)]);
    DefsTwo(br, Label(thn));
    DefsOne(Br(merge));
    DefsOne(Label(merge));
    DefsOne(Label(els));
    DefsConcat([Label(els)], e);
    DefsConcat([Label(els)] + e, [Br(merge)]);
    DefsNone();
  }

  lemma DefsNone()
    ensures Defs([]) == multiset{}
  {}

  // ------------------------------------------------------------ whole functions --

  function ParamDecls(a: Arena, start: nat, n: nat): multiset<string>
    requires start + n <= |a.params|
  {
    if n == 0 then multiset{} else ParamDecls(a, start, n - 1) + multiset{a.params[start + n - 1].name}
  }

  /** The variables a function declares: its parameters and every emitted `let`. */
  function FuncDecls(a: Arena, f: nat): multiset<string>
    requires Acyclic(a) && f < |a.funcs|
  {
    var d := a.funcs[f];
    ParamDecls(a, d.paramStart, d.paramCount) + RangeDecls(a, d.bodyStart, d.bodyCount)
  }

  ghost predicate DeclsPlain(a: Arena, f: nat)
    requires Acyclic(a) && f < |a.funcs|
  {
    forall x :: x in FuncDecls(a, f) ==> PlainName(x)
  }

  lemma {:induction false} ParamsDefs(a: Arena, start: nat, n: nat)
    requires start + n <= |a.params|
    ensures Defs(ParamsCode(a, start, n)) == ParamDecls(a, start, n)
  {
    hide Defs, ArgName;
    if n == 0 {
      DefsNone();
    } else {
      var x := a.params[start + n - 1].name;
      ParamsDefs(a, start, n - 1);
      DefsConcat(ParamsCode(a, start, n - 1), [Alloca(x), Store(Local(ArgName(x)), x)]);
      DefsTwo(Alloca(x), Store(Local(ArgName(x)), x));
    }
  }

  lemma ArgNameInjective(x: string, y: string)
    requires ArgName(x) == ArgName(y)
    ensures x == y
  {
    assert x == ArgName(x)[..|x|] && y == ArgName(y)[..|y|];
  }

  lemma ArgIsNotPlain(x: string)
    ensures !PlainName(ArgName(x)) && ArgName(x) != "entry"
  {
    assert ArgName(x)[|x|] == '.';
  }

  /** Arguments are as distinct as the parameters. */
  lemma {:induction false} ArgNamesCount(a: Arena, start: nat, n: nat, x: string)
    requires start + n <= |a.params|
    ensures multiset(ArgNames(a, start, n))[ArgName(x)] == ParamDecls(a, start, n)[x]
  {
    hide ArgName, ArgNames;
    if n == 0 {
      NoArgs(a, start);
    } else {
      var y := a.params[start + n - 1].name;
      PushArg(a, start, n);
      ArgNamesCount(a, start, n - 1, x);
      PushCount(ArgNames(a, start, n - 1), ArgName(y), ArgName(x));
      if ArgName(x) == ArgName(y) { ArgNameInjective(x, y); }
    }
  }

  lemma NoArgs(a: Arena, start: nat)
    requires start <= |a.params|
    ensures ArgNames(a, start, 0) == []
  {}

  lemma PushArg(a: Arena, start: nat, n: nat)
    requires 0 < n && start + n <= |a.params|
    ensures ArgNames(a, start, n) == ArgNames(a, start, n - 1) + [ArgName(a.params[start + n - 1].name)]
  {}

  lemma PushCount(s: seq<string>, z: string, x: string)
    ensures multiset(s + [z])[x] == multiset(s)[x] + if x == z then 1 else 0
  {}

  lemma ArgNamesOnly(a: Arena, start: nat, n: nat, x: string)
    requires start + n <= |a.params| && forall y :: x != ArgName(y)
    ensures multiset(ArgNames(a, start, n))[x] == 0
  {
    hide ArgName;
    assert x !in ArgNames(a, start, n);
  }

  lemma FuncDefs(a: Arena, f: nat, l: nat)
    requires Acyclic(a) && f < |a.funcs|
    ensures var d := a.funcs[f];
            var body := RangeCode(a, d.bodyStart, d.bodyCount, 0, l).code;
            Defs(FuncCode(a, f, l).code) == multiset(ArgNames(a, d.paramStart, d.paramCount)) + multiset{"entry"}
                                            + ParamDecls(a, d.paramStart, d.paramCount) + Defs(body)
  {
    hide Defs, RangeCode, ParamDecls, ArgNames, ParamsCode;
    var d := a.funcs[f];
    var head := [Define(d.name, ArgNames(a, d.paramStart, d.paramCount)), Label("entry")];
    var params := ParamsCode(a, d.paramStart, d.paramCount);
    var body := RangeCode(a, d.bodyStart, d.bodyCount, 0, l).code;
    DefsTwo(head[0], head[1]);
    DefsTwo(Ret(Lit("0")), EndDefine);
    ParamsDefs(a, d.paramStart, d.paramCount);
    DefsConcat(head, params);
    DefsConcat(head + params, body);
    DefsConcat(head + params + body, [Ret(Lit("0")), EndDefine]);
  }

  lemma NotDeclared(a: Arena, f: nat, x: string)
    requires Acyclic(a) && f < |a.funcs| && DeclsPlain(a, f) && !PlainName(x)
    ensures ParamDecls(a, a.funcs[f].paramStart, a.funcs[f].paramCount)[x] == 0
    ensures RangeDecls(a, a.funcs[f].bodyStart, a.funcs[f].bodyCount)[x] == 0
  {
    hide PlainName, RangeDecls, ParamDecls;
    assert FuncDecls(a, f)[x] == 0;
  }

  /** A generated name, or "entry", is defined at most once, and only if the
      counters passed its number while the function was emitted. */
  lemma FuncGeneratedCount(a: Arena, f: nat, l: nat, x: string)
    requires Acyclic(a) && f < |a.funcs| && DeclsPlain(a, f) && !PlainName(x) && forall y :: x != ArgName(y)
    ensures var r := FuncCode(a, f, l);
            && Defs(r.code)[x] <= 1
            && (x in Defs(r.code) ==> x == "entry" || TmpBetween(x, 0, r.tmps) || LabelBetween(x, l, r.labels))
  {
    hide LabelName, TmpName, RangeCode, Defs, ParamDecls, RangeDecls, PlainName, ArgName;
    var d := a.funcs[f];
    var body := RangeCode(a, d.bodyStart, d.bodyCount, 0, l);
    FuncDefs(a, f, l);
    RangeDefs(a, d.bodyStart, d.bodyCount, 0, l);
    FreshIsNotPlain(Defs(body.code) - RangeDecls(a, d.bodyStart, d.bodyCount), 0, body.tmps, l, body.labels);
    ArgNamesOnly(a, d.paramStart, d.paramCount, x);
    NotDeclared(a, f, x);
    var extra := Defs(body.code) - RangeDecls(a, d.bodyStart, d.bodyCount);
    assert Defs(body.code)[x] == extra[x];
  }

  lemma EntryIsNotPlain()
    ensures !PlainName("entry")
  {}

  lemma LabelIsNotPlain(p: string, n: nat)
    ensures !PlainName(LabelName(p, n))
  {
    LabelIsDotted(p, n);
  }

  lemma FreshIsNotPlain(m: multiset<string>, k: nat, k': nat, l: nat, l': nat)
    requires Fresh(m, k, k', l, l')
    ensures forall x :: x in m ==> !PlainName(x) && x != "entry"
    ensures forall x :: ArgName(x) !in m
  {
    hide LabelName, TmpName, PlainName;
    forall x | x in m
      ensures !PlainName(x) && x != "entry" && forall y :: x != ArgName(y)
    {
      if TmpBetween(x, k, k') {
        var n :| k < n <= k' && x == TmpName(n);
        TmpIsNotPlain(n);
        TmpShape(n);
        forall y ensures x != ArgName(y) { assert ArgName(y)[|y|] == '.'; }
      } else {
        var p, n :| l < n <= l' && x == LabelName(p, n);
        LabelIsNotPlain(p, n);
        LabelIsDotted(p, n);
      }
    }
  }

  /** No name is defined twice, neither as a value nor as a block. */
  ghost predicate WellNamed(c: seq<Instr>) { forall x :: Defs(c)[x] <= 1 }

  /** What the emitter names itself: the arguments, the first block, and the temporaries and labels of the body. */
  function Generated(a: Arena, f: nat, l: nat): multiset<string>
    requires Acyclic(a) && f < |a.funcs|
  {
    var d := a.funcs[f];
    multiset(ArgNames(a, d.paramStart, d.paramCount)) + multiset{"entry"}
    + (Defs(RangeCode(a, d.bodyStart, d.bodyCount, 0, l).code) - RangeDecls(a, d.bodyStart, d.bodyCount))
  }

  lemma FuncDefsSplit(a: Arena, f: nat, l: nat)
    requires Acyclic(a) && f < |a.funcs|
    ensures Defs(FuncCode(a, f, l).code) == FuncDecls(a, f) + Generated(a, f, l)
  {
    hide Defs, RangeCode, ParamDecls, RangeDecls, ArgNames, FuncCode;
    var d := a.funcs[f];
    FuncDefs(a, f, l);
    RangeDefs(a, d.bodyStart, d.bodyCount, 0, l);
  }

  /** Generated names never clash with one another, if the parameters are distinct. */
  lemma GeneratedDistinct(a: Arena, f: nat, l: nat, x: string)
    requires Acyclic(a) && f < |a.funcs| && forall y :: FuncDecls(a, f)[y] <= 1
    ensures Generated(a, f, l)[x] <= 1
  {
    hide LabelName, TmpName, RangeCode, Defs, ParamDecls, RangeDecls, ArgName, ArgNames;
    var d := a.funcs[f];
    var body := RangeCode(a, d.bodyStart, d.bodyCount, 0, l);
    var extra := Defs(body.code) - RangeDecls(a, d.bodyStart, d.bodyCount);
    RangeDefs(a, d.bodyStart, d.bodyCount, 0, l);
    FreshIsNotPlain(extra, 0, body.tmps, l, body.labels);
    if y :| x == ArgName(y) {
      ArgIsNotPlain(y);
      ArgNamesCount(a, d.paramStart, d.paramCount, y);
      assert FuncDecls(a, f)[y] <= 1;
    } else {
      ArgNamesOnly(a, d.paramStart, d.paramCount, x);
    }
  }

  /** A function is well named if and only if its own declarations are distinct and none of them is a name
      that the emitter generates for it. */
  lemma FuncWellNamed(a: Arena, f: nat, l: nat)
    requires Acyclic(a) && f < |a.funcs|
    ensures WellNamed(FuncCode(a, f, l).code)
            <==> forall x :: FuncDecls(a, f)[x] <= 1 && (x in FuncDecls(a, f) ==> x !in Generated(a, f, l))
  {
    hide FuncCode, Defs, FuncDecls, Generated;
    var m, decls, own := Defs(FuncCode(a, f, l).code), FuncDecls(a, f), Generated(a, f, l);
    FuncDefsSplit(a, f, l);
    assert forall x :: m[x] == decls[x] + own[x];
    if forall x :: decls[x] <= 1 && (x in decls ==> x !in own) {
      forall x ensures m[x] <= 1 {
        GeneratedDistinct(a, f, l, x);
      }
    }
  }

  /** No generated name is plain, so with plain declarations only these matter. */
  lemma GeneratedNotPlain(a: Arena, f: nat, l: nat, x: string)
    requires Acyclic(a) && f < |a.funcs| && x in Generated(a, f, l)
    ensures !PlainName(x)
  {
    hide LabelName, TmpName, RangeCode, Defs, RangeDecls, ArgName, ArgNames, PlainName;
    var d := a.funcs[f];
    var body := RangeCode(a, d.bodyStart, d.bodyCount, 0, l);
    var extra := Defs(body.code) - RangeDecls(a, d.bodyStart, d.bodyCount);
    RangeDefs(a, d.bodyStart, d.bodyCount, 0, l);
    FreshIsNotPlain(extra, 0, body.tmps, l, body.labels);
    EntryIsNotPlain();
    if y :| x == ArgName(y) {
      ArgIsNotPlain(y);
    } else {
      ArgNamesOnly(a, d.paramStart, d.paramCount, x);
    }
  }

  // -------------------------------------------------------------------- branches --

  ghost predicate IsLabelName(x: string) { exists p, n {:trigger LabelName(p, n)} :: x == LabelName(p, n) }

  /** What an instruction of the code `c` needs: the targets of its branches. A label is a generated name. */
  ghost predicate InstrClosed(ins: Instr, c: seq<Instr>) {
    match ins
    case Br(t) => Label(t) in c
    case CondBr(_, t, e) => Label(t) in c && Label(e) in c
    case Label(x) => IsLabelName(x)
    case _ => true
  }

  /** Every branch leads to a block of the same code. */
  ghost predicate Closed(c: seq<Instr>) { forall ins :: ins in c ==> InstrClosed(ins, c) }

  lemma ClosedConcat(c: seq<Instr>, d: seq<Instr>)
    requires Closed(c) && Closed(d)
    ensures Closed(c + d)
  {
    forall ins | ins in c + d ensures InstrClosed(ins, c + d) {
      assert ins in c || ins in d;
    }
  }

  ghost predicate StraightLine(c: seq<Instr>) {
    forall ins :: ins in c ==> !ins.Br? && !ins.CondBr? && !ins.Label?
  }

  lemma StraightMore(c: seq<Instr>, d: seq<Instr>, ins: Instr)
    requires StraightLine(c) && StraightLine(d) && !ins.Br? && !ins.CondBr? && !ins.Label?
    ensures StraightLine(c + d + [ins]) && StraightLine([ins])
  {}

  lemma {:induction false} ExprStraight(a: Arena, i: nat, k: nat)
    requires Acyclic(a) && i < |a.exprs|
    ensures StraightLine(ExprCode(a, i, k).code)
    decreases i, |a.argIndices| + 1
  {
    hide TmpName, ArgsCode, OpcodeOf, CalleeName, IntText;
    match a.exprs[i] {
      case Binary(lhs, op, rhs) =>
        var l := ExprCode(a, lhs - 1, k);
        var r := ExprCode(a, rhs - 1, l.tmps);
        ExprStraight(a, lhs - 1, k);
        ExprStraight(a, rhs - 1, l.tmps);
        hide StraightLine;
        StraightMore(l.code, r.code, Bin(TmpName(r.tmps + 1), OpcodeOf(op), l.val, r.val));
      case Call(callee, _, count) =>
        var open := [CallOpen(TmpName(k + 1), CalleeName(a, callee))];
        assert StraightLine(open);
        ArgsStraight(a, i, count, k + 1);
        hide StraightLine;
        StraightMore(open, ArgsCode(a, i, count, k + 1).code, CallClose);
      case _ =>
    }
  }

  lemma {:induction false} ArgsStraight(a: Arena, i: nat, j: nat, k: nat)
    requires Acyclic(a) && i < |a.exprs| && a.exprs[i].Call? && j <= a.exprs[i].argCount
    ensures StraightLine(ArgsCode(a, i, j, k).code)
    decreases i, j
  {
    hide TmpName, ExprCode;
    if j > 0 {
      ArgsStraight(a, i, j - 1, k);
      ExprStraight(a, a.argIndices[a.exprs[i].argsStart + j - 1] - 1, ArgsCode(a, i, j - 1, k).tmps);
    }
  }

  lemma {:induction false} RangeClosed(a: Arena, s: nat, n: nat, k: nat, l: nat)
    requires Acyclic(a) && s + n <= |a.stmts|
    ensures Closed(RangeCode(a, s, n, k, l).code)
    decreases s + n, n
  {
    hide StmtCode, Closed;
    if n == 0 {
      assert Closed([]) by { ClosedNone(); }
    } else {
      var before := RangeCode(a, s, n - 1, k, l);
      RangeClosed(a, s, n - 1, k, l);
      StmtClosed(a, s + n - 1, before.tmps, before.labels);
      ClosedConcat(before.code, StmtCode(a, s + n - 1, before.tmps, before.labels).code);
    }
  }

  lemma ClosedNone()
    ensures Closed([])
  {}

  lemma {:induction false} StmtClosed(a: Arena, i: nat, k: nat, l: nat)
    requires Acyclic(a) && i < |a.stmts|
    ensures Closed(StmtCode(a, i, k, l).code)
    decreases i + 1, 0
  {
    hide ExprCode, RangeCode, LabelName, IntText, TmpName;
    match a.stmts[i] {
      case Let(_, _, init) => if init > 0 { ExprStraight(a, init - 1, k); }
      case Assign(place, source) =>
        ExprStraight(a, source - 1, k);
        ExprStraight(a, place - 1, ExprCode(a, source - 1, k).tmps);
      case Return(value) => if value > 0 { ExprStraight(a, value - 1, k); }
      case ExprStmt(expr) => ExprStraight(a, expr - 1, k);
      case If(cond, ts, tc, es, ec) =>
        var c := ExprCode(a, cond - 1, k);
        var t := RangeCode(a, ts, tc, c.tmps, l + 3);
        ExprStraight(a, cond - 1, k);
        RangeClosed(a, ts, tc, c.tmps, l + 3);
        RangeClosed(a, es, ec, t.tmps, t.labels);
        IfClosed(c.code, c.val, t.code, RangeCode(a, es, ec, t.tmps, t.labels).code, l, ec > 0);
      case While(cond, bs, bc) =>
        var c := ExprCode(a, cond - 1, k);
        ExprStraight(a, cond - 1, k);
        RangeClosed(a, bs, bc, c.tmps, l + 3);
        WhileClosed(c.code, c.val, RangeCode(a, bs, bc, c.tmps, l + 3).code, l);
      case _ =>
    }
  }

  lemma WhileClosed(c: seq<Instr>, o: Operand, b: seq<Instr>, l: nat)
    requires StraightLine(c) && Closed(b)
    ensures var head, body, end :=
              LabelName("while.cond", l + 1), LabelName("while.body", l + 2), LabelName("while.end", l + 3);
            Closed([Br(head), Label(head)] + c + [CondBr(o, body, end), Label(body)] + b + [Br(head), Label(end)])
  {
    hide LabelName;
    var head, body, end :=
      LabelName("while.cond", l + 1), LabelName("while.body", l + 2), LabelName("while.end", l + 3);
    var x, y, z := [Br(head), Label(head)], [CondBr(o, body, end), Label(body)], [Br(head), Label(end)];
    var w := x + c + y + b + z;
    assert Label(head) in w && Label(body) in w && Label(end) in w by {
      assert Label(head) == x[1] && Label(body) == y[1] && Label(end) == z[1];
    }
    forall ins | ins in w ensures InstrClosed(ins, w) {
      assert ins in x || ins in c || ins in y || ins in b || ins in z;
    }
  }

  /** The jumps and labels that the code of a conditional adds to those of its parts. */
  function IfJumps(o: Operand, thn: string, els: string, merge: string, two: bool): set<Instr> {
    {CondBr(o, thn, if two then els else merge), Label(thn), Label(merge), Br(merge)}
    + if two then {Label(els)} else {}
  }

  lemma IfParts(c: seq<Instr>, y: seq<Instr>, t: seq<Instr>, b: Instr, x: seq<Instr>, z: Instr)
    ensures var w := c + y + t + [b] + x + [z];
            forall ins :: ins in w <==> ins in c || ins in y || ins in t || ins == b || ins in x || ins == z
  {}

  lemma IfClosed(c: seq<Instr>, o: Operand, t: seq<Instr>, e: seq<Instr>, l: nat, two: bool)
    requires StraightLine(c) && Closed(t) && Closed(e)
    ensures var thn, els, merge := LabelName("then", l + 1), LabelName("else", l + 2), LabelName("merge", l + 3);
            Closed(c + [CondBr(o, thn, if two then els else merge), Label(thn)] + t + [Br(merge)]
                   + (if two then [Label(els)] + e + [Br(merge)] else []) + [Label(merge)])
  {
    hide LabelName, Closed, InstrClosed, IsLabelName, StraightLine;
    var thn, els, merge := LabelName("then", l + 1), LabelName("else", l + 2), LabelName("merge", l + 3);
    var y := [CondBr(o, thn, if two then els else merge), Label(thn)];
    var x := if two then [Label(els)] + e + [Br(merge)] else [];
    var w := c + y + t + [Br(merge)] + x + [Label(merge)];
    IfParts(c, y, t, Br(merge), x, Label(merge));
    assert Label(thn) == y[1] && (two ==> Label(els) == x[0]);
    forall ins | ins in w ensures InstrClosed(ins, w) {
      if ins in t {
        ClosedIn(t, ins, w);
      } else if two && ins in e {
        ClosedIn(e, ins, w);
      } else if ins in c {
        StraightClosed(c, ins, w);
      } else {
        assert ins in IfJumps(o, thn, els, merge, two);
        IfJumpClosed(o, l, two, ins, w);
      }
    }
    AllClosed(w);
  }

  lemma StraightClosed(c: seq<Instr>, ins: Instr, w: seq<Instr>)
    requires StraightLine(c) && ins in c
    ensures InstrClosed(ins, w)
  {}

  lemma IfJumpClosed(o: Operand, l: nat, two: bool, ins: Instr, w: seq<Instr>)
    requires var thn, els, merge := LabelName("then", l + 1), LabelName("else", l + 2), LabelName("merge", l + 3);
             && Label(thn) in w && Label(merge) in w && (two ==> Label(els) in w)
             && ins in IfJumps(o, thn, els, merge, two)
    ensures InstrClosed(ins, w)
  {
    hide LabelName;
  }

  lemma AllClosed(w: seq<Instr>)
    requires forall ins :: ins in w ==> InstrClosed(ins, w)
    ensures Closed(w)
  {}

  // ------------------------------------------------ uniqueness of branch targets --

  ghost predicate UniqueLabels(c: seq<Instr>) {
    forall i, j :: 0 <= i < j < |c| && c[i].Label? && c[j].Label? ==> c[i].name != c[j].name
  }

  lemma {:induction false} DefsAt(c: seq<Instr>, i: nat, x: string)
    requires i < |c| && x in InstrDefs(c[i])
    ensures Defs(c)[x] >= 1
  {
    if i < |c| - 1 { DefsAt(c[..|c| - 1], i, x); }
  }

  lemma DefinedTwice(c: seq<Instr>, i: nat, j: nat, x: string)
    requires i < j < |c| && x in InstrDefs(c[i]) && x in InstrDefs(c[j])
    ensures Defs(c)[x] >= 2
  {
    hide Defs;
    assert c == c[..j] + c[j..];
    DefsConcat(c[..j], c[j..]);
    DefsAt(c[..j], i, x);
    DefsAt(c[j..], 0, x);
  }

  lemma {:induction false} ParamsStraight(a: Arena, start: nat, n: nat)
    requires start + n <= |a.params|
    ensures StraightLine(ParamsCode(a, start, n))
  {
    if n > 0 { ParamsStraight(a, start, n - 1); }
  }

  /** Every branch of an emitted function has its target inside the function, and no
      block name occurs twice: each target is defined exactly once. */
  lemma BranchTargets(a: Arena, f: nat, l: nat)
    requires Acyclic(a) && f < |a.funcs| && DeclsPlain(a, f)
    ensures var c := FuncCode(a, f, l).code;
            UniqueLabels(c) && forall ins :: ins in c ==> ins == Label("entry") || InstrClosed(ins, c)
  {
    hide RangeCode, ParamsCode, Defs, Closed, PlainName, ArgName;
    var d := a.funcs[f];
    var head := [Define(d.name, ArgNames(a, d.paramStart, d.paramCount)), Label("entry")];
    var params := ParamsCode(a, d.paramStart, d.paramCount);
    var body := RangeCode(a, d.bodyStart, d.bodyCount, 0, l).code;
    var tail := [Ret(Lit("0")), EndDefine];
    var c := FuncCode(a, f, l).code;
    assert c == head + params + body + tail;
    RangeClosed(a, d.bodyStart, d.bodyCount, 0, l);
    ParamsStraight(a, d.paramStart, d.paramCount);
    forall ins | ins in c ensures ins == Label("entry") || InstrClosed(ins, c) {
      assert ins in head || ins in params || ins in body || ins in tail;
      if ins in body { ClosedIn(body, ins, c); }
    }
    forall i, j | 0 <= i < j < |c| && c[i].Label? && c[j].Label?
      ensures c[i].name != c[j].name
    {
      var x := c[i].name;
      assert c[i] in c;
      GeneratedLabel(x);
      FuncGeneratedCount(a, f, l, x);
      if c[j].name == x { DefinedTwice(c, i, j, x); }
    }
  }

  lemma ClosedIn(b: seq<Instr>, ins: Instr, c: seq<Instr>)
    requires Closed(b) && ins in b && forall x :: x in b ==> x in c
    ensures InstrClosed(ins, c)
  {}

  lemma GeneratedLabel(x: string)
    requires x == "entry" || IsLabelName(x)
    ensures !PlainName(x) && forall y :: x != ArgName(y)
  {
    if x == "entry" {
      forall y ensures x != ArgName(y) { ArgIsNotPlain(y); }
    } else {
      var p, n :| x == LabelName(p, n);
      LabelIsDotted(p, n);
    }
  }

  /** Labels go on counting from one function to the next, so no numbered label is
      defined twice in a whole module. */
  lemma {:induction false} ModuleLabelsDistinct(a: Arena, n: nat, p: string, m: nat)
    requires Acyclic(a) && n <= |a.funcs| && forall f :: 0 <= f < n ==> DeclsPlain(a, f)
    ensures var r := ModuleCode(a, n); Defs(r.code)[LabelName(p, m)] <= if m <= r.labels then 1 else 0
  {
    hide Defs, FuncCode, LabelName, DeclsPlain, PlainName;
    var x := LabelName(p, m);
    if n == 0 {
      DefsNone();
    } else {
      var before := ModuleCode(a, n - 1);
      var last := FuncCode(a, n - 1, before.labels);
      ModuleLabelsDistinct(a, n - 1, p, m);
      DefsConcat(before.code, last.code);
      GeneratedLabel(x);
      FuncGeneratedCount(a, n - 1, before.labels, x);
      LabelIsDotted(p, m);
      forall k ensures x != TmpName(k) { TmpShape(k); }
      forall q, k | x == LabelName(q, k) ensures k == m { LabelInjective(p, m, q, k); }
      FuncLabelsGrow(a, n - 1, before.labels);
    }
  }

  lemma FuncLabelsGrow(a: Arena, f: nat, l: nat)
    requires Acyclic(a) && f < |a.funcs|
    ensures l <= FuncCode(a, f, l).labels
  {
    hide RangeCode, RangeDecls, Defs;
    RangeDefs(a, a.funcs[f].bodyStart, a.funcs[f].bodyCount, 0, l);
  }
}
