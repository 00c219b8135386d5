/** The code of a module: each function of the arena can be found in it by its name, whole and unchanged. */
module ModuleText {
  import opened Ast
  import opened Digits
  import opened Emitter

  /** The names on the first lines of functions, in order. */
  function Headers(code: seq<Instr>): seq<string> {
    if code == [] then [] else (if code[0].Define? then [code[0].func] else []) + Headers(code[1..])
  }

  /** Everything up to the first end of a function. */
  function UpToEnd(code: seq<Instr>): seq<Instr> {
    if code == [] || code[0] == EndDefine then code[..if code == [] then 0 else 1]
    else [code[0]] + UpToEnd(code[1..])
  }

  /** The code from the first line of the function `name` up to its end. */
  function FunctionNamed(code: seq<Instr>, name: string): seq<Instr> {
    if code == [] then [] else
      if code[0].Define? && code[0].func == name then UpToEnd(code) else FunctionNamed(code[1..], name)
  }

  /** No function begins or ends in the code. */
  ghost predicate Unbroken(code: seq<Instr>) { forall ins :: ins in code ==> !ins.Define? && !ins.EndDefine? }

  lemma UnbrokenMore(c: seq<Instr>, d: seq<Instr>)
    requires Unbroken(c) && Unbroken(d)
    ensures Unbroken(c + d)
  {}

  lemma UnbrokenOne(ins: Instr)
    requires !ins.Define? && !ins.EndDefine?
    ensures Unbroken([ins])
  {}

  // ------------------------------------------------------------------ what functions hold --

  lemma {:induction false} ExprUnbroken(a: Arena, i: nat, k: nat)
    requires Acyclic(a) && i < |a.exprs|
    ensures Unbroken(ExprCode(a, i, k).code)
    decreases i, |a.argIndices| + 1
  {
    hide TmpName, IntText, ArgsCode, OpcodeOf, CalleeName;
    match a.exprs[i] {
      case Binary(lhs, op, rhs) =>
        var l := ExprCode(a, lhs - 1, k);
        var r := ExprCode(a, rhs - 1, l.tmps);
        ExprUnbroken(a, lhs - 1, k);
        ExprUnbroken(a, rhs - 1, l.tmps);
        hide Unbroken;
        UnbrokenMore(l.code, r.code);
        UnbrokenOne(Bin(TmpName(r.tmps + 1), OpcodeOf(op), l.val, r.val));
        UnbrokenMore(l.code + r.code, [Bin(TmpName(r.tmps + 1), OpcodeOf(op), l.val, r.val)]);
      case Call(callee, _, count) =>
        var open, args := CallOpen(TmpName(k + 1), CalleeName(a, callee)), ArgsCode(a, i, count, k + 1).code;
        ArgsUnbroken(a, i, count, k + 1);
        UnbrokenOne(open);
        UnbrokenOne(CallClose);
        hide Unbroken;
        UnbrokenMore([open], args);
        UnbrokenMore([open] + args, [CallClose]);
      case _ =>
    }
  }

  lemma {:induction false} ArgsUnbroken(a: Arena, i: nat, j: nat, k: nat)
    requires Acyclic(a) && i < |a.exprs| && a.exprs[i].Call? && j <= a.exprs[i].argCount
    ensures Unbroken(ArgsCode(a, i, j, k).code)
    decreases i, j
  {
    hide TmpName, ExprCode;
    if j > 0 {
      var before := ArgsCode(a, i, j - 1, k);
      var h := a.argIndices[a.exprs[i].argsStart + j - 1];
      var arg := ExprCode(a, h - 1, before.tmps);
      var last := CallArg(arg.val, j < a.exprs[i].argCount);
      ArgsUnbroken(a, i, j - 1, k);
      ExprUnbroken(a, h - 1, before.tmps);
      UnbrokenOne(last);
      hide Unbroken;
      UnbrokenMore(before.code, arg.code);
      UnbrokenMore(before.code + arg.code, [last]);
    }
  }

  lemma {:induction false} RangeUnbroken(a: Arena, s: nat, n: nat, k: nat, l: nat)
    requires Acyclic(a) && s + n <= |a.stmts|
    ensures Unbroken(RangeCode(a, s, n, k, l).code)
    decreases s + n, n
  {
    hide StmtCode;
    if n > 0 {
      var before := RangeCode(a, s, n - 1, k, l);
      RangeUnbroken(a, s, n - 1, k, l);
      StmtUnbroken(a, s + n - 1, before.tmps, before.labels);
      hide Unbroken;
      UnbrokenMore(before.code, StmtCode(a, s + n - 1, before.tmps, before.labels).code);
    }
  }

  lemma PlaceUnbroken(a: Arena, i: nat, k: nat)
    requires Acyclic(a) && i < |a.exprs|
    ensures Unbroken(PlaceCode(a, i, k).0)
  {
    hide ExprCode;
    ExprUnbroken(a, i, k);
  }

  lemma {:induction false} StmtUnbroken(a: Arena, i: nat, k: nat, l: nat)
    requires Acyclic(a) && i < |a.stmts|
    ensures Unbroken(StmtCode(a, i, k, l).code)
    decreases i + 1, 0
  {
    hide ExprCode, RangeCode, LabelName, IntText, TmpName, PlaceCode;
    match a.stmts[i] {
      case Let(_, _, init) => if init > 0 { ExprUnbroken(a, init - 1, k); }
      case Assign(place, source) =>
        ExprUnbroken(a, source - 1, k);
        PlaceUnbroken(a, place - 1, ExprCode(a, source - 1, k).tmps);
      case Return(value) => if value > 0 { ExprUnbroken(a, value - 1, k); }
      case ExprStmt(expr) => ExprUnbroken(a, expr - 1, k);
      case If(cond, ts, tc, es, ec) =>
        var c := ExprCode(a, cond - 1, k);
        var t := RangeCode(a, ts, tc, c.tmps, l + 3);
        ExprUnbroken(a, cond - 1, k);
        RangeUnbroken(a, ts, tc, c.tmps, l + 3);
        RangeUnbroken(a, es, ec, t.tmps, t.labels);
      case While(cond, bs, bc) =>
        var c := ExprCode(a, cond - 1, k);
        ExprUnbroken(a, cond - 1, k);
        RangeUnbroken(a, bs, bc, c.tmps, l + 3);
      case _ =>
    }
  }

  lemma {:induction false} ParamsUnbroken(a: Arena, start: nat, n: nat)
    requires start + n <= |a.params|
    ensures Unbroken(ParamsCode(a, start, n))
  {
    if n > 0 { ParamsUnbroken(a, start, n - 1); }
  }

  /** A function begins with its name, ends with its end, and neither occurs in between. */
  lemma FuncFrame(a: Arena, f: nat, l: nat) returns (mid: seq<Instr>)
    requires Acyclic(a) && f < |a.funcs|
    ensures Unbroken(mid)
    ensures var d := a.funcs[f];
            FuncCode(a, f, l).code == [Define(d.name, ArgNames(a, d.paramStart, d.paramCount))] + mid + [EndDefine]
  {
    hide ParamsCode, RangeCode, ArgNames;
    var d := a.funcs[f];
    assert FuncInRange(a, d);
    var params, body := ParamsCode(a, d.paramStart, d.paramCount), RangeCode(a, d.bodyStart, d.bodyCount, 0, l).code;
    ParamsUnbroken(a, d.paramStart, d.paramCount);
    RangeUnbroken(a, d.bodyStart, d.bodyCount, 0, l);
    UnbrokenOne(Label("entry"));
    UnbrokenOne(Ret(Lit("0")));
    mid := [Label("entry")] + params + body + [Ret(Lit("0"))];
    hide Unbroken;
    UnbrokenMore([Label("entry")], params);
    UnbrokenMore([Label("entry")] + params, body);
    UnbrokenMore([Label("entry")] + params + body, [Ret(Lit("0"))]);
  }

  // --------------------------------------------------------------------- finding functions --

  lemma {:induction false} HeadersConcat(c: seq<Instr>, d: seq<Instr>)
    ensures Headers(c + d) == Headers(c) + Headers(d)
  {
    if c == [] {
      assert c + d == d;
    } else {
      assert (c + d)[1..] == c[1..] + d;
      HeadersConcat(c[1..], d);
    }
  }

  lemma {:induction false} UnbrokenHeaders(c: seq<Instr>)
    requires Unbroken(c)
    ensures Headers(c) == []
  {
    if c != [] {
      assert c[0] in c;
      UnbrokenHeaders(c[1..]);
    }
  }

  lemma FuncHeaders(a: Arena, f: nat, l: nat)
    requires Acyclic(a) && f < |a.funcs|
    ensures Headers(FuncCode(a, f, l).code) == [a.funcs[f].name]
  {
    hide FuncCode, ArgNames;
    var mid := FuncFrame(a, f, l);
    var first := Define(a.funcs[f].name, ArgNames(a, a.funcs[f].paramStart, a.funcs[f].paramCount));
    HeadersConcat([first], mid);
    HeadersConcat([first] + mid, [EndDefine]);
    UnbrokenHeaders(mid);
    assert [first][1..] == [] && [EndDefine][1..] == [];
  }

  /** The functions of the arena, each once and in order, and no others. */
  lemma {:induction false} ModuleHeaders(a: Arena, n: nat)
    requires Acyclic(a) && n <= |a.funcs|
    ensures var names := Headers(ModuleCode(a, n).code);
            |names| == n && forall f :: 0 <= f < n ==> names[f] == a.funcs[f].name
  {
    hide FuncCode;
    if n > 0 {
      var before := ModuleCode(a, n - 1);
      ModuleHeaders(a, n - 1);
      FuncHeaders(a, n - 1, before.labels);
      HeadersConcat(before.code, FuncCode(a, n - 1, before.labels).code);
    }
  }

  lemma {:induction false} ModuleSplit(a: Arena, f: nat, n: nat) returns (rest: seq<Instr>)
    requires Acyclic(a) && f < n <= |a.funcs|
    ensures ModuleCode(a, n).code == ModuleCode(a, f).code + FuncCode(a, f, ModuleCode(a, f).labels).code + rest
    decreases n
  {
    hide FuncCode;
    if f == n - 1 {
      rest := [];
    } else {
      rest := ModuleSplit(a, f, n - 1);
      rest := rest + FuncCode(a, n - 1, ModuleCode(a, n - 1).labels).code;
    }
  }

  lemma {:induction false} NotHere(c: seq<Instr>, d: seq<Instr>, name: string)
    requires name !in Headers(c)
    ensures FunctionNamed(c + d, name) == FunctionNamed(d, name)
  {
    if c == [] {
      assert c + d == d;
    } else {
      assert (c + d)[1..] == c[1..] + d;
      NotHere(c[1..], d, name);
    }
  }

  lemma {:induction false} EndsThere(mid: seq<Instr>, rest: seq<Instr>)
    requires Unbroken(mid)
    ensures UpToEnd(mid + [EndDefine] + rest) == mid + [EndDefine]
  {
    var c := mid + [EndDefine] + rest;
    if mid == [] {
      assert c[..1] == [EndDefine];
    } else {
      assert mid[0] in mid;
      assert c[1..] == mid[1..] + [EndDefine] + rest;
      EndsThere(mid[1..], rest);
    }
  }

  /** In the code of the module, with no two functions of one name, each function is found by its name, just as it
      was emitted. */
  lemma FunctionFound(a: Arena, f: nat)
    requires Acyclic(a) && f < |a.funcs|
    requires forall g, h :: 0 <= g < h < |a.funcs| ==> a.funcs[g].name != a.funcs[h].name
    ensures FunctionNamed(ModuleCode(a, |a.funcs|).code, a.funcs[f].name) ==
            FuncCode(a, f, ModuleCode(a, f).labels).code
  {
    hide FuncCode, ModuleCode, ArgNames, Unbroken;
    var name, l := a.funcs[f].name, ModuleCode(a, f).labels;
    var rest := ModuleSplit(a, f, |a.funcs|);
    var code := FuncCode(a, f, l).code;
    ModuleHeaders(a, f);
    assert ModuleCode(a, |a.funcs|).code == ModuleCode(a, f).code + (code + rest);
    NotHere(ModuleCode(a, f).code, code + rest, name);
    var mid := FuncFrame(a, f, l);
    var first := Define(name, ArgNames(a, a.funcs[f].paramStart, a.funcs[f].paramCount));
    assert (code + rest)[0] == first && (code + rest)[1..] == mid + [EndDefine] + rest;
    EndsThere(mid, rest);
  }
}
