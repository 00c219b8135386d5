/** Printing functions and parsing them: parameters, return types and bodies. */
module FuncTrip {
  import opened Options
  import opened Ast
  import opened ParserSpec
  import opened RoundTrip
  import opened ArenaShape
  import opened StmtTrip

  /** A parameter and the tokens of its type. */
  datatype Parameter = Parameter(name: string, kind: Tokens)

  datatype Function = Function(name: string, params: seq<Parameter>, result: Option<Tokens>, body: seq<Statement>)

  // -------------------------------------------------------------------- printing --

  function PrintParams(ps: seq<Parameter>): Tokens {
    if ps == [] then [] else
      [ps[0].name, ":"] + (ps[0].kind + if |ps| == 1 then [] else [","] + PrintParams(ps[1..]))
  }

  function PrintResult(r: Option<Tokens>): Tokens {
    if r.None? then [] else ["->"] + r.value
  }

  /** A function from its name on. */
  function PrintFunc(f: Function): Tokens {
    [f.name, "("] + (PrintParams(f.params) + ([")"] + (PrintResult(f.result) + PrintBraced(f.body))))
  }

  predicate WritableParam(p: Parameter) { p.name != ")" && "," !in p.kind && ")" !in p.kind }

  predicate WritableParams(ps: seq<Parameter>) { forall i :: 0 <= i < |ps| ==> WritableParam(ps[i]) }

  predicate WritableFunc(f: Function) {
    WritableParams(f.params) && (f.result.Some? ==> "{" !in f.result.value) && AllWritable(f.body)
  }

  // ---------------------------------------------------------------- reading back --

  /** What is kept of parameters: their names, and of their types only how many tokens there were. */
  function Kept(ps: seq<Parameter>): (ks: seq<Param>)
    ensures |ks| == |ps| && forall i :: 0 <= i < |ps| ==> ks[i] == Param(ps[i].name, Blanks(|ps[i].kind|))
  {
    if ps == [] then [] else [Param(ps[0].name, Blanks(|ps[0].kind|))] + Kept(ps[1..])
  }

  /** Tokens that are no stop are skipped, up to the first that is one. */
  lemma {:induction false} Skips(ts: Tokens, s: S, p: Tokens, stops: set<string>)
    requires s.pos + |p| <= |ts| && Stands(ts, s.pos, p) && Peek(ts, s.pos + |p|) in stops
    requires forall i :: 0 <= i < |p| ==> p[i] !in stops
    ensures SkipUntil(ts, s, stops) == s.(pos := s.pos + |p|)
    decreases |p|
  {
    if p != [] {
      FirstStands(ts, s.pos, p);
      StandsSplit(ts, s.pos, [p[0]], p[1..]) by { assert p == [p[0]] + p[1..]; }
      Skips(ts, Step(ts, s), p[1..], stops);
    }
  }

  /** Where the parts of a parameter stand, and which token comes behind its type. */
  lemma ParamStands(ts: Tokens, pos: nat, p: Parameter, last: Tokens)
    requires last != [] && Stands(ts, pos, [p.name, ":"] + (p.kind + last))
    ensures var after := pos + 2 + |p.kind|;
            && after < |ts| && Peek(ts, pos) == p.name && Stands(ts, pos + 2, p.kind)
            && Peek(ts, after) == last[0] && Stands(ts, after, last)
  {
    hide Peek;
    StandsSplit(ts, pos, [p.name, ":"], p.kind + last);
    FirstStands(ts, pos, [p.name, ":"]);
    StandsSplit(ts, pos + 2, p.kind, last);
    FirstStands(ts, pos + 2 + |p.kind|, last);
  }

  /** What comes behind the type of the first parameter. */
  function Behind(ps: seq<Parameter>): (r: Tokens)
    requires ps != []
    ensures PrintParams(ps) + [")"] == [ps[0].name, ":"] + (ps[0].kind + r)
    ensures |PrintParams(ps)| == |ps[0].kind| + |r| + 1
    ensures r == if |ps| == 1 then [")"] else [","] + (PrintParams(ps[1..]) + [")"])
  {
    if |ps| == 1 then [")"] else [","] + (PrintParams(ps[1..]) + [")"])
  }

  /** A parameter that is parsed on its own. */
  lemma ParsesParam(ts: Tokens, s: S, p: Parameter, last: Tokens, count: nat)
    requires s.pos <= |ts| && !s.hung && WritableParam(p) && last != [] && last[0] in {",", ")"}
    requires Stands(ts, s.pos, [p.name, ":"] + (p.kind + last))
    ensures var next := s.pos + 2 + |p.kind| + (if last[0] == "," then 1 else 0);
            var s1 := s.(pos := next, a := s.a.(params := s.a.params + [Param(p.name, Blanks(|p.kind|))]));
            && next <= |ts| && ParseParams(ts, s, count) == ParseParams(ts, s1, count + 1)
  {
    hide SkipUntil, Stands, Kept;
    ParamStands(ts, s.pos, p, last);
    Skips(ts, s.(pos := s.pos + 2), p.kind, {",", ")"});
  }

  /** Parameters are recorded one behind the other, up to the closing parenthesis. */
  lemma {:induction false} ParsesParams(ts: Tokens, s: S, ps: seq<Parameter>, count: nat)
    requires s.pos <= |ts| && !s.hung && WritableParams(ps) && Stands(ts, s.pos, PrintParams(ps) + [")"])
    ensures ParseParams(ts, s, count)
            == (s.(pos := s.pos + |PrintParams(ps)|, a := s.a.(params := s.a.params + Kept(ps))), count + |ps|)
    ensures Peek(ts, s.pos + |PrintParams(ps)|) == ")"
    decreases |ps|
  {
    hide Stands, ParseParams, Peek;
    if ps == [] {
      assert PrintParams(ps) + [")"] == [")"] && s.a.params + Kept(ps) == s.a.params;
      NoParams(ts, s, count);
    } else {
      var p, last := ps[0], Behind(ps);
      hide PrintParams, Behind;
      assert WritableParam(p) && WritableParams(ps[1..]);
      KeptMore(s.a.params, ps);
      hide WritableParam, WritableParams, Kept;
      ParsesParam(ts, s, p, last, count);
      ParamStands(ts, s.pos, p, last);
      var after := s.pos + 2 + |p.kind|;
      var one := s.a.(params := s.a.params + [Param(p.name, Blanks(|p.kind|))]);
      if |ps| == 1 {
        NoParams(ts, s.(pos := after, a := one), count + 1);
      } else {
        StandsSplit(ts, after, [","], PrintParams(ps[1..]) + [")"]);
        StandsWithin(ts, after + 1, PrintParams(ps[1..]) + [")"]);
        ParsesParams(ts, s.(pos := after + 1, a := one), ps[1..], count + 1);
      }
    }
  }

  lemma KeptMore(before: seq<Param>, ps: seq<Parameter>)
    requires ps != []
    ensures before + [Param(ps[0].name, Blanks(|ps[0].kind|))] + Kept(ps[1..]) == before + Kept(ps)
    ensures |ps| == 1 ==> before + [Param(ps[0].name, Blanks(|ps[0].kind|))] == before + Kept(ps)
  {
    var one := [Param(ps[0].name, Blanks(|ps[0].kind|))];
    assert Kept(ps) == one + Kept(ps[1..]);
    hide Kept, Blanks;
    assert before + one + Kept(ps[1..]) == before + (one + Kept(ps[1..]));
    if |ps| == 1 {
      assert one + Kept(ps[1..]) == one;
    }
  }

  lemma NoParams(ts: Tokens, s: S, count: nat)
    requires s.pos <= |ts| && Stands(ts, s.pos, [")"])
    ensures ParseParams(ts, s, count) == (s, count) && Peek(ts, s.pos) == ")"
  {
    StandsOne(ts, s.pos, ")");
  }

  lemma StandsWithin(ts: Tokens, pos: nat, p: Tokens)
    requires Stands(ts, pos, p)
    ensures pos + |p| <= |ts|
  {}

  // ---------------------------------------------------------------- main theorem --

  /** Where the parts of a function stand. */
  lemma HeadStands(ts: Tokens, pos: nat, f: Function)
    requires Stands(ts, pos, PrintFunc(f))
    ensures var n, m := |PrintParams(f.params)|, |PrintResult(f.result)|;
            && Peek(ts, pos) == f.name && Stands(ts, pos + 2, PrintParams(f.params) + [")"])
            && Stands(ts, pos + 3 + n, PrintResult(f.result)) && Stands(ts, pos + 3 + n + m, PrintBraced(f.body))
            && pos + 3 + n + m < |ts| && Peek(ts, pos + 3 + n + m) == "{"
  {
    hide PrintParams, PrintResult, PrintBraced, Stands, Peek;
    var ps, r, b := PrintParams(f.params), PrintResult(f.result), PrintBraced(f.body);
    assert PrintFunc(f) == [f.name] + (["("] + ((ps + [")"]) + (r + b)));
    hide PrintFunc;
    StandsSplit(ts, pos, [f.name], ["("] + ((ps + [")"]) + (r + b)));
    StandsOne(ts, pos, f.name);
    StandsSplit(ts, pos + 1, ["("], (ps + [")"]) + (r + b));
    StandsSplit(ts, pos + 2, ps + [")"], r + b);
    StandsSplit(ts, pos + 3 + |ps|, r, b);
    BraceFirst(ts, pos + 3 + |ps| + |r|, f.body);
  }

  lemma BraceFirst(ts: Tokens, pos: nat, ss: seq<Statement>)
    requires Stands(ts, pos, PrintBraced(ss))
    ensures pos < |ts| && Peek(ts, pos) == "{"
  {
    hide PrintBlock;
    BracesStand(ts, pos, PrintBlock(ss));
  }

  /** A return type is skipped up to the brace of the body. */
  lemma SkipsResult(ts: Tokens, s: S, r: Option<Tokens>)
    requires s.pos + |PrintResult(r)| <= |ts| && Stands(ts, s.pos, PrintResult(r))
    requires (r.Some? ==> "{" !in r.value) && Peek(ts, s.pos + |PrintResult(r)|) == "{"
    ensures (if Peek(ts, s.pos) == "->" then SkipUntil(ts, Step(ts, s), {"{"}) else s) ==
            s.(pos := s.pos + |PrintResult(r)|)
  {
    hide SkipUntil, Stands;
    if r.Some? {
      StandsSplit(ts, s.pos, ["->"], r.value);
      StandsOne(ts, s.pos, "->");
      Skips(ts, Step(ts, s), r.value, {"{"});
    }
  }

  /** The function at handle `h` has the name and the parameters of `f`, of each type only its width. */
  ghost predicate HeadKept(a: Arena, h: nat, f: Function, isSafe: bool) {
    && 1 <= h <= |a.funcs|
    && var g := a.funcs[h - 1];
       && g.name == f.name && g.isSafe == isSafe
       && g.paramStart + g.paramCount == |a.params| && a.params[g.paramStart..] == Kept(f.params)
  }

  lemma FuncPieces(ts: Tokens, s: S, isSafe: bool, s1: S, count: nat, s2: S, s3: S, tops: seq<nat>)
    requires s.pos + 2 <= |ts| && ParseParams(ts, s.(pos := s.pos + 2), 0) == (s1, count) && !s1.hung
    requires s1.pos < |ts| && s2.pos <= |ts| && !s2.hung && ParseBraced(ts, s2) == (s3, tops) && !s3.hung
    requires var s0 := s1.(pos := s1.pos + 1);
             s2 == if Peek(ts, s0.pos) == "->" then SkipUntil(ts, Step(ts, s0), {"{"}) else s0
    ensures var g := FuncDecl(Peek(ts, s.pos), isSafe, |s.a.params|, count, |s2.a.stmts|, |tops|);
            ParseFuncDecl(ts, s, isSafe) == (s3.(a := s3.a.(funcs := s3.a.funcs + [g])), |s3.a.funcs| + 1)
  {
    hide ParseParams, ParseBraced, SkipUntil, Peek, Advance;
    Steps(ts, s);
    Steps(ts, s1);
  }

  /** Where the body of a function begins, and what is recorded behind it. */
  lemma FuncParts(ts: Tokens, s: S, isSafe: bool, f: Function) returns (s2: S)
    requires s.pos <= |ts| && !s.hung && Sound(s.a) && WritableFunc(f) && Stands(ts, s.pos, PrintFunc(f))
    ensures s2.pos <= |ts| && !s2.hung && Sound(s2.a) && Stands(ts, s2.pos, PrintBraced(f.body))
    ensures s2.pos + |PrintBraced(f.body)| == s.pos + |PrintFunc(f)|
    ensures var (s3, tops) := ParseBraced(ts, s2);
            var (s', h) := ParseFuncDecl(ts, s, isSafe);
            && s' == s3.(a := s3.a.(funcs := s'.a.funcs)) && h == |s'.a.funcs|
            && Sound(s'.a) && HeadKept(s'.a, h, f, isSafe)
            && s'.a.funcs[h - 1].bodyStart == |s2.a.stmts| && s'.a.funcs[h - 1].bodyCount == |tops|
  {
    hide SkipUntil, Stands, ParseBraced, ParseParams, PrintBraced, PrintParams, DecodeStmt, StmtZeroed, BlockFlat,
         Sound, AllWritable, Kept, ParseFuncDecl, PrintResult, DecodeRange, BlockWhole;
    HeadStands(ts, s.pos, f);
    FuncDeclSound(ts, s, isSafe);
    ParsesParams(ts, s.(pos := s.pos + 2), f.params, 0);
    ParamsSound(ts, s.(pos := s.pos + 2), 0);
    var s1 := ParseParams(ts, s.(pos := s.pos + 2), 0).0;
    SkipsResult(ts, s1.(pos := s1.pos + 1), f.result);
    s2 := s1.(pos := s1.pos + 1 + |PrintResult(f.result)|);
    BlockRoundTrip(ts, s2, f.body);
    BracedSound(ts, s2);
    var s3, tops := ParseBraced(ts, s2).0, ParseBraced(ts, s2).1;
    FuncPieces(ts, s, isSafe, s1, |f.params|, s2, s3, tops);
    assert s3.a.params[|s.a.params|..] == Kept(f.params);
  }

  /** Printing a function and parsing it takes exactly the printed tokens and keeps the name and the
      parameters; the recorded body is the body that was written if and only if no call argument in it
      contains a call with arguments and no statement of it has a block. */
  lemma FuncRoundTrip(ts: Tokens, s: S, isSafe: bool, f: Function)
    requires s.pos <= |ts| && !s.hung && Sound(s.a) && WritableFunc(f) && Stands(ts, s.pos, PrintFunc(f))
    ensures var (s', h) := ParseFuncDecl(ts, s, isSafe);
            && !s'.hung && s'.pos == s.pos + |PrintFunc(f)| && Sound(s'.a) && h == |s'.a.funcs|
            && HeadKept(s'.a, h, f, isSafe)
            && var g := s'.a.funcs[h - 1];
               DecodeRange(s'.a, g.bodyStart, g.bodyCount) == BlockZeroed(f.body) <==> BlockFlat(f.body)
  {
    hide ParseFuncDecl, ParseBraced, PrintFunc, PrintBraced, DecodeRange, BlockWhole, BlockFlat, BlockZeroed, Sound,
         Stands, HeadKept, AllWritable;
    var s2 := FuncParts(ts, s, isSafe, f);
    BlockRoundTrip(ts, s2, f.body);
    DecodeRangeExtends(ParseBraced(ts, s2).0.a, ParseFuncDecl(ts, s, isSafe).0.a, |s2.a.stmts|, |f.body|);
  }

  // ------------------------------------------------------------------ other declarations --

  /** The mark of a variable, and a type. */
  function Mark(muted: bool): Tokens { if muted then ["mut"] else [] }

  function PrintType(ty: Option<Tokens>): Tokens { if ty.Some? then [":"] + ty.value else [] }

  /** A declaration up to its value. */
  function LetHead(muted: bool, x: string, ty: Option<Tokens>): Tokens {
    ["let"] + (Mark(muted) + ([x] + PrintType(ty)))
  }

  lemma SkipsMark(ts: Tokens, s: S, muted: bool, x: string)
    requires Stands(ts, s.pos, Mark(muted)) && Stands(ts, s.pos + |Mark(muted)|, [x]) && (muted || x != "mut")
    ensures (if Peek(ts, s.pos) == "mut" then Step(ts, s) else s) == s.(pos := s.pos + |Mark(muted)|)
  {
    hide Stands;
    StandsOne(ts, s.pos + |Mark(muted)|, x);
    if muted { StandsOne(ts, s.pos, "mut"); }
  }

  lemma SkipsType(ts: Tokens, s: S, ty: Option<Tokens>)
    requires s.pos + |PrintType(ty)| <= |ts| && Stands(ts, s.pos, PrintType(ty))
    requires ty.Some? ==> "=" !in ty.value && ";" !in ty.value
    requires Peek(ts, s.pos + |PrintType(ty)|) in {"=", ";"}
    ensures (if Peek(ts, s.pos) == ":" then SkipUntil(ts, Step(ts, s), {"=", ";"}) else s) ==
            s.(pos := s.pos + |PrintType(ty)|)
  {
    hide SkipUntil, Stands;
    if ty.Some? {
      StandsSplit(ts, s.pos, [":"], ty.value);
      StandsOne(ts, s.pos, ":");
      Skips(ts, Step(ts, s), ty.value, {"=", ";"});
    }
  }

  lemma HeadTaken(ts: Tokens, s: S, muted: bool, x: string, p: S)
    requires s.pos < |ts| && !s.hung && p == s.(pos := s.pos + |Mark(muted)| + 1) && p.pos <= |ts|
    requires (if Peek(ts, s.pos) == "mut" then Step(ts, s) else s) == s.(pos := s.pos + |Mark(muted)|)
    requires Peek(ts, s.pos + |Mark(muted)|) == x
    ensures ParseLet(ts, s) ==
            var s3 := if Peek(ts, p.pos) == ":" then SkipUntil(ts, Step(ts, p), {"=", ";"}) else p;
            if s3.hung then (s3, 0) else
              var r := if Peek(ts, s3.pos) == "=" then ParseExpr(ts, Step(ts, s3)) else (s3, 0);
              if r.0.hung then r else PushStmt(Step(ts, r.0), Let(x, 0, r.1))
  {
    hide SkipUntil, ParseExpr, PushStmt, Peek, Step, Later;
    Steps(ts, s.(pos := s.pos + |Mark(muted)|));
  }

  /** Neither the mark nor the type, whatever its tokens are, leaves a trace: the declaration is pushed with its
      name and the expression behind its sign, or with none. */
  lemma LetForms(ts: Tokens, s: S, muted: bool, x: string, ty: Option<Tokens>)
    requires s.pos <= |ts| && !s.hung && (muted || x != "mut") && Stands(ts, s.pos, LetHead(muted, x, ty))
    requires ty.Some? ==> "=" !in ty.value && ";" !in ty.value
    requires Peek(ts, s.pos + |LetHead(muted, x, ty)|) in {"=", ";"}
    ensures var p := s.(pos := s.pos + |LetHead(muted, x, ty)|);
            if Peek(ts, p.pos) == ";" then ParseStmt(ts, s) == PushStmt(Step(ts, p), Let(x, 0, 0)) else
              var r := ParseExpr(ts, Step(ts, p));
              ParseStmt(ts, s) == if r.0.hung then r else PushStmt(Step(ts, r.0), Let(x, 0, r.1))
  {
    hide ParseStmt, ParseLet, ParseExpr, SkipUntil, Peek, Step, Later, Stands, Mark, PrintType;
    var m, t := Mark(muted), PrintType(ty);
    var s1, p := s.(pos := s.pos + 1), s.(pos := s.pos + 1 + |m| + 1);
    StandsSplit(ts, s.pos, ["let"], m + ([x] + t));
    StandsSplit(ts, s1.pos, m, [x] + t);
    StandsSplit(ts, s1.pos + |m|, [x], t);
    StandsOne(ts, s.pos, "let");
    StandsOne(ts, s1.pos + |m|, x);
    LetOpens(ts, s);
    SkipsMark(ts, s1, muted, x);
    HeadTaken(ts, s1, muted, x, p);
    assert p.pos + |t| == s.pos + |LetHead(muted, x, ty)|;
    assert p.pos + |t| <= |ts| by { Inside(ts, p.pos, t); }
    SkipsType(ts, p, ty);
  }

  lemma Inside(ts: Tokens, pos: nat, p: Tokens)
    requires Stands(ts, pos, p)
    ensures pos + |p| <= |ts|
  {}
}
