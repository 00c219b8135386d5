/** The forms of the language beside those of the round trip: counting loops, matches and structure literals. */
module Forms {
  import opened Options
  import opened Ast
  import opened Digits
  import opened ParserSpec
  import opened RoundTrip
  import opened ArenaShape
  import opened StmtTrip

  /** The expression at handle `h` is `e`, as far as the arena can hold it. */
  ghost predicate Holds(a: Arena, h: nat, e: Tree) {
    h != 0 && Whole(Decode(a, h)) && (Decode(a, h) == Zeroed(e) <==> Flat(e))
  }

  lemma HoldsLater(a: Arena, a': Arena, h: nat, e: Tree)
    requires Extends(a, a') && Holds(a, h, e)
    ensures Holds(a', h, e)
  {
    hide Decode, Whole, Zeroed, Flat;
    DecodeExtends(a, a', h);
  }

  lemma EndWord(ts: Tokens, pos: nat, e: Tree)
    requires Peek(ts, pos) in {"..", "step", ","}
    ensures ExprEnds(ts, pos, e)
  {}

  lemma ExprParsed(ts: Tokens, s: S, e: Tree) returns (s': S, h: nat)
    requires s.pos <= |ts| && !s.hung && Sound(s.a) && Printable(e)
    requires Stands(ts, s.pos, Print(e, 0)) && ExprEnds(ts, s.pos + |Print(e, 0)|, e)
    ensures ParseExpr(ts, s) == (s', h) && Holds(s'.a, h, e)
    ensures s'.pos == s.pos + |Print(e, 0)| && !s'.hung && Sound(s'.a) && s'.a.stmts == s.a.stmts && Extends(s.a, s'.a)
    ensures s'.patience == s.patience && s'.a.matchArms == s.a.matchArms
    ensures s'.a.structLitNames == s.a.structLitNames && s'.a.structLitExprs == s.a.structLitExprs
  {
    hide Print, Stands, ParseExpr, Sound, Decode, Zeroed, Flat, Whole, Printable, ExprEnds, Extends;
    s', h := ParsesExpression(ts, s, e);
  }

  /** An expression and the token that ends it. */
  lemma Worded(ts: Tokens, s: S, e: Tree, word: string, rest: Tokens) returns (s': S, h: nat)
    requires s.pos <= |ts| && !s.hung && Sound(s.a) && Printable(e) && word in {"..", "step", ","}
    requires Stands(ts, s.pos, Print(e, 0) + ([word] + rest))
    ensures ParseExpr(ts, s) == (s', h) && Holds(s'.a, h, e)
    ensures s'.pos == s.pos + |Print(e, 0)| && !s'.hung && Sound(s'.a) && s'.a.stmts == s.a.stmts && Extends(s.a, s'.a)
    ensures s'.pos < |ts| && Peek(ts, s'.pos) == word && Stands(ts, s'.pos + 1, rest) && s'.patience == s.patience
    ensures s'.a.matchArms == s.a.matchArms
    ensures s'.a.structLitNames == s.a.structLitNames && s'.a.structLitExprs == s.a.structLitExprs
  {
    hide *;
    var p := Print(e, 0);
    StandsSplit(ts, s.pos, p, [word] + rest);
    KeywordStands(ts, s.pos + |p|, word, rest);
    EndWord(ts, s.pos + |p|, e);
    s', h := ExprParsed(ts, s, e);
  }

  // -------------------------------------------------------------- counting loops --

  function PrintFor(x: string, lo: Tree, hi: Tree, step: Option<Tree>, body: seq<Statement>): Tokens {
    ["for", x, "in"] + (Print(lo, 0) + ([".."] + PrintLimit(hi, step, body)))
  }

  /** The end of a loop's head, and its block. */
  function PrintLimit(hi: Tree, step: Option<Tree>, body: seq<Statement>): Tokens {
    if step.None? then PrintEnd(hi, body) else Print(hi, 0) + (["step"] + PrintEnd(step.value, body))
  }

  function PrintEnd(e: Tree, body: seq<Statement>): Tokens { Print(e, 0) + (PrintBraced(body) + []) }

  lemma Limits(hi: Tree, step: Option<Tree>, body: seq<Statement>)
    ensures PrintLimit(hi, None, body) == PrintEnd(hi, body)
    ensures step.Some? ==> PrintLimit(hi, step, body) == Print(hi, 0) + (["step"] + PrintEnd(step.value, body))
    ensures step.Some? ==> |PrintLimit(hi, step, body)| == |Print(hi, 0)| + 1 + |PrintEnd(step.value, body)|
  {}

  lemma ForOpens(ts: Tokens, s: S, x: string, lo: Tree, hi: Tree, step: Option<Tree>, body: seq<Statement>)
    requires s.pos <= |ts| && Stands(ts, s.pos, PrintFor(x, lo, hi, step, body))
    ensures s.pos + 3 <= |ts| && Peek(ts, s.pos + 1) == x
    ensures Stands(ts, s.pos + 3, Print(lo, 0) + ([".."] + PrintLimit(hi, step, body)))
    ensures ParseStmt(ts, s) == ParseFor(ts, s.(pos := s.pos + 1))
    ensures |PrintFor(x, lo, hi, step, body)| == 4 + |Print(lo, 0)| + |PrintLimit(hi, step, body)|
  {
    hide ParseLet, ParseIf, ParseWhile, ParseFor, ParseMatch, ParseSimple, ParseReturn, Print, PrintLimit;
    assert ["for", x, "in"] == ["for"] + ([x] + ["in"]);
    StandsSplit(ts, s.pos, ["for", x, "in"], Print(lo, 0) + ([".."] + PrintLimit(hi, step, body)));
    KeywordStands(ts, s.pos, "for", [x] + ["in"]);
    KeywordStands(ts, s.pos + 1, x, ["in"]);
    StandsOne(ts, s.pos + 2, "in");
  }

  /** A loop whose parts were parsed: `f` and `t` the bounds, `p` the step if there is one, `b` the block. */
  lemma ForPlain(ts: Tokens, s: S, f: (S, nat), t: (S, nat), b: (S, seq<nat>))
    requires s.pos + 2 <= |ts| && ParseExpr(ts, s.(pos := s.pos + 2)) == f && !f.0.hung && f.0.pos < |ts|
    requires ParseExpr(ts, f.0.(pos := f.0.pos + 1)) == t && !t.0.hung && Peek(ts, t.0.pos) != "step"
    requires ParseBraced(ts, t.0) == b && !b.0.hung
    ensures ParseFor(ts, s) == PushStmt(b.0, For(Peek(ts, s.pos), f.1, t.1, 0, |t.0.a.stmts|, |b.1|))
  {
    hide ParseExpr, ParseBraced, PushStmt, Peek, Step, Later;
    Steps(ts, s);
    Steps(ts, f.0);
  }

  lemma ForStepped(ts: Tokens, s: S, f: (S, nat), t: (S, nat), p: (S, nat), b: (S, seq<nat>))
    requires s.pos + 2 <= |ts| && ParseExpr(ts, s.(pos := s.pos + 2)) == f && !f.0.hung && f.0.pos < |ts|
    requires ParseExpr(ts, f.0.(pos := f.0.pos + 1)) == t && !t.0.hung && t.0.pos < |ts| && Peek(ts, t.0.pos) == "step"
    requires ParseExpr(ts, t.0.(pos := t.0.pos + 1)) == p && !p.0.hung && ParseBraced(ts, p.0) == b && !b.0.hung
    ensures ParseFor(ts, s) == PushStmt(b.0, For(Peek(ts, s.pos), f.1, t.1, p.1, |p.0.a.stmts|, |b.1|))
  {
    hide ParseExpr, ParseBraced, PushStmt, Peek, Step, Later;
    Steps(ts, s);
    Steps(ts, f.0);
    Steps(ts, t.0);
  }

  /** The node `n` is the loop over `x` from `lo` to `hi`, by `step` if there is one, and its range is the block
      exactly if no statement of the block has a block. */
  ghost predicate IsFor(a: Arena, n: Stmt, start: nat, x: string, lo: Tree, hi: Tree, step: Option<Tree>,
                        body: seq<Statement>) {
    && n.For? && n.loopVar == x && Holds(a, n.from, lo) && Holds(a, n.to, hi)
    && (if step.None? then n.step == 0 else Holds(a, n.step, step.value))
    && n.forStart == start && n.forCount == |body|
    && (DecodeRange(a, start, |body|) == BlockZeroed(body) <==> BlockFlat(body))
  }

  /** The last expression of the head and the block behind it, and what the handles found before mean then. */
  lemma LastPart(ts: Tokens, s: S, e: Tree, body: seq<Statement>) returns (s1: S, h1: nat, s2: S, tops: seq<nat>)
    requires s.pos <= |ts| && !s.hung && Sound(s.a) && Printable(e) && BlockMayFollow(e, body) && AllWritable(body)
    requires Stands(ts, s.pos, PrintEnd(e, body))
    ensures ParseExpr(ts, s) == (s1, h1) && !s1.hung && s1.pos <= |ts| && Peek(ts, s1.pos) == "{"
    ensures ParseBraced(ts, s1) == (s2, tops) && |tops| == |body| && !s2.hung && s1.a.stmts == s.a.stmts
    ensures Extends(s.a, s2.a) && Holds(s2.a, h1, e) && |s1.a.stmts| <= |s2.a.stmts|
    ensures s2.pos == s.pos + |PrintEnd(e, body)|
    ensures BlockBuilt(s1.(pos := s1.pos + 1), s2, body, |PrintBraced(body)| - 1) && PrintBraced(body) != []
  {
    hide Sound, ParseExpr, Print, PrintBraced, Decode, Zeroed, Flat, Whole, Printable, ParseBraced, ExprEnds,
         AllWritable, Stands, Peek, BlockMayFollow, RangeReads, BlockFlat, StmtWhole, DecodeStmt, NoBlock;
    s1, h1, s2, tops := ParsesHead(ts, s, e, body, []);
    HeadStands(ts, s.pos, e, body, []);
    BraceFollows(ts, s1.pos, e, body);
    HoldsLater(s1.a, s2.a, h1, e);
  }

  lemma ForDone(s1: S, s2: S, n: Stmt, x: string, lo: Tree, hi: Tree, step: Option<Tree>, body: seq<Statement>, m: nat)
    requires BlockBuilt(s1.(pos := s1.pos + 1), s2, body, m) && n.For? && n.loopVar == x
    requires Holds(s2.a, n.from, lo) && Holds(s2.a, n.to, hi)
    requires if step.None? then n.step == 0 else Holds(s2.a, n.step, step.value)
    requires n.forStart == |s1.a.stmts| && n.forCount == |body|
    ensures IsFor(PushStmt(s2, n).0.a, n, |s1.a.stmts|, x, lo, hi, step, body)
  {
    hide Holds, DecodeRange, BlockZeroed, BlockFlat, BlockBuilt, Decode;
    var a := PushStmt(s2, n).0.a;
    BlockRead(s1, s2, body, n, m);
    HoldsLater(s2.a, a, n.from, lo);
    HoldsLater(s2.a, a, n.to, hi);
    if step.Some? { HoldsLater(s2.a, a, n.step, step.value); }
  }

  lemma StmtTaken(r: (S, nat), s2: S, n: Stmt, before: nat)
    requires r == PushStmt(s2, n) && !s2.hung && before <= |s2.a.stmts|
    ensures !r.0.hung && r.0.pos == s2.pos && r.1 == |r.0.a.stmts| > before && r.0.a.stmts[r.1 - 1] == n
  {}

  lemma PlainParts(ts: Tokens, s: S, x: string, lo: Tree, hi: Tree, body: seq<Statement>)
    returns (s3: S, n: Stmt)
    requires s.pos <= |ts| && !s.hung && Sound(s.a) && Printable(lo) && Printable(hi) && AllWritable(body)
    requires BlockMayFollow(hi, body) && Stands(ts, s.pos, PrintFor(x, lo, hi, None, body))
    ensures ParseStmt(ts, s) == PushStmt(s3, n) && !s3.hung && |s.a.stmts| <= |s3.a.stmts|
    ensures s3.pos == s.pos + |PrintFor(x, lo, hi, None, body)|
    ensures IsFor(PushStmt(s3, n).0.a, n, |s.a.stmts|, x, lo, hi, None, body)
  {
    hide *;
    Limits(hi, None, body);
    ForOpens(ts, s, x, lo, hi, None, body);
    var s1, f := Worded(ts, s.(pos := s.pos + 3), lo, "..", PrintLimit(hi, None, body));
    var s2, t, tops;
    s2, t, s3, tops := LastPart(ts, s1.(pos := s1.pos + 1), hi, body);
    ForPlain(ts, s.(pos := s.pos + 1), (s1, f), (s2, t), (s3, tops));
    HoldsLater(s1.a, s3.a, f, lo);
    n := For(x, f, t, 0, |s2.a.stmts|, |body|);
    ForDone(s2, s3, n, x, lo, hi, None, body, |PrintBraced(body)| - 1);
  }

  lemma PlainTaken(ts: Tokens, s: S, x: string, lo: Tree, hi: Tree, body: seq<Statement>)
    requires s.pos <= |ts| && !s.hung && Sound(s.a) && Printable(lo) && Printable(hi) && AllWritable(body)
    requires BlockMayFollow(hi, body) && Stands(ts, s.pos, PrintFor(x, lo, hi, None, body))
    ensures var (s', h) := ParseStmt(ts, s);
            && !s'.hung && s'.pos == s.pos + |PrintFor(x, lo, hi, None, body)| && h == |s'.a.stmts| > |s.a.stmts|
            && IsFor(s'.a, s'.a.stmts[h - 1], |s.a.stmts|, x, lo, hi, None, body)
  {
    hide *;
    var s3, n := PlainParts(ts, s, x, lo, hi, body);
    StmtTaken(ParseStmt(ts, s), s3, n, |s.a.stmts|);
  }

  lemma SteppedParts(ts: Tokens, s: S, x: string, lo: Tree, hi: Tree, step: Tree, body: seq<Statement>)
    returns (s3: S, n: Stmt)
    requires s.pos <= |ts| && !s.hung && Sound(s.a) && Printable(lo) && Printable(hi) && AllWritable(body)
    requires Printable(step) && BlockMayFollow(step, body) && Stands(ts, s.pos, PrintFor(x, lo, hi, Some(step), body))
    ensures ParseStmt(ts, s) == PushStmt(s3, n) && !s3.hung && |s.a.stmts| <= |s3.a.stmts|
    ensures s3.pos == s.pos + |PrintFor(x, lo, hi, Some(step), body)|
    ensures IsFor(PushStmt(s3, n).0.a, n, |s.a.stmts|, x, lo, hi, Some(step), body)
  {
    hide *;
    Limits(hi, Some(step), body);
    ForOpens(ts, s, x, lo, hi, Some(step), body);
    var s1, f := Worded(ts, s.(pos := s.pos + 3), lo, "..", PrintLimit(hi, Some(step), body));
    var s2, t := Worded(ts, s1.(pos := s1.pos + 1), hi, "step", PrintEnd(step, body));
    var s0, p, tops;
    s0, p, s3, tops := LastPart(ts, s2.(pos := s2.pos + 1), step, body);
    ForStepped(ts, s.(pos := s.pos + 1), (s1, f), (s2, t), (s0, p), (s3, tops));
    HoldsLater(s1.a, s2.a, f, lo);
    HoldsLater(s2.a, s3.a, f, lo);
    HoldsLater(s2.a, s3.a, t, hi);
    n := For(x, f, t, p, |s0.a.stmts|, |body|);
    ForDone(s0, s3, n, x, lo, hi, Some(step), body, |PrintBraced(body)| - 1);
  }

  lemma SteppedTaken(ts: Tokens, s: S, x: string, lo: Tree, hi: Tree, step: Tree, body: seq<Statement>)
    requires s.pos <= |ts| && !s.hung && Sound(s.a) && Printable(lo) && Printable(hi) && AllWritable(body)
    requires Printable(step) && BlockMayFollow(step, body) && Stands(ts, s.pos, PrintFor(x, lo, hi, Some(step), body))
    ensures var (s', h) := ParseStmt(ts, s);
            && !s'.hung && s'.pos == s.pos + |PrintFor(x, lo, hi, Some(step), body)| && h == |s'.a.stmts| > |s.a.stmts|
            && IsFor(s'.a, s'.a.stmts[h - 1], |s.a.stmts|, x, lo, hi, Some(step), body)
  {
    hide *;
    var s3, n := SteppedParts(ts, s, x, lo, hi, step, body);
    StmtTaken(ParseStmt(ts, s), s3, n, |s.a.stmts|);
  }

  /** A printed counting loop is taken whole: its node has the name, the bounds and the step that were written,
      and the range of the statements that were pushed first for its block. */
  lemma ForTaken(ts: Tokens, s: S, x: string, lo: Tree, hi: Tree, step: Option<Tree>, body: seq<Statement>)
    requires s.pos <= |ts| && !s.hung && Sound(s.a) && Printable(lo) && Printable(hi) && AllWritable(body)
    requires (step.Some? ==> Printable(step.value)) && BlockMayFollow(if step.None? then hi else step.value, body)
    requires Stands(ts, s.pos, PrintFor(x, lo, hi, step, body))
    ensures var (s', h) := ParseStmt(ts, s);
            && !s'.hung && s'.pos == s.pos + |PrintFor(x, lo, hi, step, body)| && h == |s'.a.stmts| > |s.a.stmts|
            && IsFor(s'.a, s'.a.stmts[h - 1], |s.a.stmts|, x, lo, hi, step, body)
  {
    hide *;
    if step.None? {
      PlainTaken(ts, s, x, lo, hi, body);
    } else {
      SteppedTaken(ts, s, x, lo, hi, step.value, body);
    }
  }

  // -------------------------------------------------------------------- matches --

  /** One arm of a match, as a reader of the source sees it. */
  datatype Arm = Arm(pattern: Pattern, body: Tree)

  function PrintPattern(p: Pattern): Tokens {
    match p case Wildcard => ["_"] case PatIdent(x) => [x] case Variant(e, v) => [e, "::", v]
  }

  function PrintArm(m: Arm): Tokens { PrintPattern(m.pattern) + (["=>"] + (Print(m.body, 0) + [","])) }

  function PrintArms(ms: seq<Arm>): Tokens { if ms == [] then [] else PrintArm(ms[0]) + PrintArms(ms[1..]) }

  function PrintMatch(e: Tree, ms: seq<Arm>): Tokens {
    ["match"] + (Print(e, 0) + (["{"] + (PrintArms(ms) + ["}"])))
  }

  /** The first token of the pattern is a name. */
  predicate GoodArm(m: Arm) {
    && Printable(m.body)
    && match m.pattern
       case Wildcard => true
       case PatIdent(x) => x !in {"_", "}"}
       case Variant(e, _) => e !in {"_", "}"}
  }

  predicate GoodArms(ms: seq<Arm>) { forall k :: 0 <= k < |ms| ==> GoodArm(ms[k]) }

  /** The entries from `start` on are the arms `ms`, each with a body of one expression. */
  ghost predicate ArmsHeld(a: Arena, start: nat, ms: seq<Arm>) {
    && start + |ms| <= |a.matchArms|
    && forall k :: 0 <= k < |ms| ==> ArmHeld(a, a.matchArms[start + k], ms[k])
  }

  ghost predicate ArmHeld(a: Arena, arm: MatchArm, m: Arm) {
    arm.pattern == m.pattern && arm.bodyCount == 1 && Holds(a, arm.body, m.body)
  }

  lemma PatternTaken(ts: Tokens, s: S, m: Arm, rest: Tokens)
    requires s.pos <= |ts| && GoodArm(m) && Stands(ts, s.pos, PrintPattern(m.pattern) + (["=>"] + rest))
    ensures var n := |PrintPattern(m.pattern)|;
            && ParsePattern(ts, s) == (s.(pos := s.pos + n), m.pattern) && s.pos + n < |ts|
            && Stands(ts, s.pos + n + 1, rest) && s.pos < |ts| && Peek(ts, s.pos) != "}"
            && Peek(ts, s.pos + 1) in {"=>", "::"}
  {
    hide Stands, Printable;
    var p := PrintPattern(m.pattern);
    StandsSplit(ts, s.pos, p, ["=>"] + rest);
    KeywordStands(ts, s.pos + |p|, "=>", rest);
    match m.pattern {
      case Wildcard => StandsOne(ts, s.pos, "_");
      case PatIdent(x) => StandsOne(ts, s.pos, x);
      case Variant(e, v) =>
        assert [e, "::", v] == [e] + (["::"] + [v]);
        KeywordStands(ts, s.pos, e, ["::"] + [v]);
        KeywordStands(ts, s.pos + 1, "::", [v]);
        StandsOne(ts, s.pos + 2, v);
    }
  }

  /** One arm: its pattern, the arrow, the body and the comma. */
  lemma ArmParts(ts: Tokens, s: S, m: Arm, rest: Tokens) returns (s': S, h: nat)
    requires s.pos <= |ts| && !s.hung && Sound(s.a) && GoodArm(m) && Stands(ts, s.pos, PrintArm(m) + rest)
    ensures s.pos < |ts| && Peek(ts, s.pos) != "}" && Peek(ts, s.pos + 1) in {"=>", "::"}
    ensures ParsePattern(ts, s).1 == m.pattern && ParseExpr(ts, Step(ts, ParsePattern(ts, s).0)) == (s', h)
    ensures !s'.hung && Sound(s'.a) && s'.pos < |ts| && Peek(ts, s'.pos) == "," && s'.patience == s.patience
    ensures s'.pos + 1 == s.pos + |PrintArm(m)| && Stands(ts, s'.pos + 1, rest)
    ensures Extends(s.a, s'.a) && s'.a.matchArms == s.a.matchArms && s'.a.stmts == s.a.stmts && Holds(s'.a, h, m.body)
  {
    hide *;
    ArmShape(m, rest);
    PatternTaken(ts, s, m, Print(m.body, 0) + ([","] + rest));
    var s1 := s.(pos := s.pos + |PrintPattern(m.pattern)| + 1);
    Steps(ts, ParsePattern(ts, s).0);
    s', h := Worded(ts, s1, m.body, ",", rest);
  }

  lemma ArmShape(m: Arm, rest: Tokens)
    ensures PrintArm(m) + rest == PrintPattern(m.pattern) + (["=>"] + (Print(m.body, 0) + ([","] + rest)))
    ensures |PrintArm(m)| == |PrintPattern(m.pattern)| + 2 + |Print(m.body, 0)|
    ensures GoodArm(m) ==> Printable(m.body)
  {}

  /** Printed arms up to the closing brace are taken one by one, and pushed in their order. */
  lemma {:induction false} ArmsTaken(ts: Tokens, s: S, ms: seq<Arm>, count: nat) returns (s': S)
    requires s.pos <= |ts| && !s.hung && Sound(s.a) && GoodArms(ms) && Stands(ts, s.pos, PrintArms(ms) + ["}"])
    ensures ParseArms(ts, s, count) == (s', count + |ms|) && !s'.hung && Sound(s'.a)
    ensures s'.pos == s.pos + |PrintArms(ms)| && s'.pos < |ts| && Extends(s.a, s'.a) && s'.a.stmts == s.a.stmts
    ensures s.a.matchArms <= s'.a.matchArms && |s'.a.matchArms| == |s.a.matchArms| + |ms|
    ensures ArmsHeld(s'.a, |s.a.matchArms|, ms)
    decreases |ms|
  {
    hide *;
    if ms == [] {
      NoArms(ts, s, count);
      s' := s;
    } else {
      ArmsSplit(ms);
      var s1, h := ArmParts(ts, s, ms[0], PrintArms(ms[1..]) + ["}"]);
      var arm := MatchArm(ms[0].pattern, h, 1);
      var s2 := PushArm(s1.(pos := s1.pos + 1), arm);
      OneArm(ts, s, s1, arm, count);
      ArmPushed(s1, arm, ms[0].body);
      s' := ArmsTaken(ts, s2, ms[1..], count + 1);
      ExtendsMore(s.a, s1.a, s2.a);
      ExtendsMore(s.a, s2.a, s'.a);
      HoldsLater(s1.a, s2.a, h, ms[0].body);
      HoldsLater(s2.a, s'.a, h, ms[0].body);
      ArmsJoin(s.a, s1.a, s'.a, arm, ms);
    }
  }

  lemma NoArms(ts: Tokens, s: S, count: nat)
    requires s.pos <= |ts| && Stands(ts, s.pos, PrintArms([]) + ["}"])
    ensures ParseArms(ts, s, count) == (s, count) && s.pos < |ts| && PrintArms([]) == []
    ensures Extends(s.a, s.a) && ArmsHeld(s.a, |s.a.matchArms|, [])
  {
    assert PrintArms([]) + ["}"] == ["}"];
    StandsOne(ts, s.pos, "}");
  }

  lemma ArmsSplit(ms: seq<Arm>)
    requires ms != [] && GoodArms(ms)
    ensures PrintArms(ms) + ["}"] == PrintArm(ms[0]) + (PrintArms(ms[1..]) + ["}"])
    ensures |PrintArms(ms)| == |PrintArm(ms[0])| + |PrintArms(ms[1..])| && GoodArm(ms[0]) && GoodArms(ms[1..])
  {
    hide PrintArm, GoodArm;
  }

  /** One round of the loop over the arms. */
  lemma OneArm(ts: Tokens, s: S, s1: S, arm: MatchArm, count: nat)
    requires s.pos < |ts| && !s.hung && Peek(ts, s.pos) != "}" && ParsePattern(ts, s).1 == arm.pattern
    requires arm.bodyCount == 1 && ParseExpr(ts, Step(ts, ParsePattern(ts, s).0)) == (s1, arm.body)
    requires !s1.hung && s1.pos < |ts| && Peek(ts, s1.pos) == ","
    ensures ParseArms(ts, s, count) == ParseArms(ts, PushArm(s1.(pos := s1.pos + 1), arm), count + 1)
  {
    hide ParsePattern, ParseExpr, Peek;
  }

  lemma ArmPushed(s1: S, arm: MatchArm, e: Tree)
    requires Sound(s1.a) && Holds(s1.a, arm.body, e)
    ensures var s2 := PushArm(s1.(pos := s1.pos + 1), arm);
            && Sound(s2.a) && Extends(s1.a, s2.a) && s2.pos == s1.pos + 1 && s2.hung == s1.hung
            && s2.a.stmts == s1.a.stmts && s2.a.matchArms == s1.a.matchArms + [arm]
  {
    hide Sound, Decode, Whole, Flat, Zeroed;
    Named(s1.a, arm.body);
    PushArmSound(s1.(pos := s1.pos + 1), arm);
  }

  lemma ArmsJoin(a: Arena, a1: Arena, a': Arena, arm: MatchArm, ms: seq<Arm>)
    requires ms != [] && a1.matchArms == a.matchArms && a.matchArms + [arm] <= a'.matchArms
    requires arm.pattern == ms[0].pattern && arm.bodyCount == 1 && Holds(a', arm.body, ms[0].body)
    requires ArmsHeld(a', |a.matchArms| + 1, ms[1..])
    ensures ArmsHeld(a', |a.matchArms|, ms)
  {
    hide Holds;
    var n := |a.matchArms|;
    forall k | 0 <= k < |ms| ensures ArmHeld(a', a'.matchArms[n + k], ms[k]) {
      if k > 0 { assert ArmHeld(a', a'.matchArms[n + 1 + (k - 1)], ms[1..][k - 1]); }
    }
  }

  lemma MatchOpens(ts: Tokens, s: S, e: Tree, ms: seq<Arm>)
    requires s.pos <= |ts| && Stands(ts, s.pos, PrintMatch(e, ms)) && GoodArms(ms) && (ms == [] ==> !EndsInName(e, 0))
    ensures var after := s.pos + 1 + |Print(e, 0)|;
            && Stands(ts, s.pos + 1, Print(e, 0)) && ExprEnds(ts, after, e) && after < |ts| && s.pos < |ts|
            && Stands(ts, after + 1, PrintArms(ms) + ["}"]) && Peek(ts, after) == "{"
    ensures ParseStmt(ts, s) == ParseMatch(ts, s.(pos := s.pos + 1))
    ensures |PrintMatch(e, ms)| == 3 + |Print(e, 0)| + |PrintArms(ms)|
  {
    hide ParseLet, ParseIf, ParseWhile, ParseFor, ParseMatch, ParseSimple, ParseReturn, Print, PrintArms, GoodArms,
         EndsInName, Stands, ExprEnds;
    var after := s.pos + 1 + |Print(e, 0)|;
    KeywordStands(ts, s.pos, "match", Print(e, 0) + (["{"] + (PrintArms(ms) + ["}"])));
    StandsSplit(ts, s.pos + 1, Print(e, 0), ["{"] + (PrintArms(ms) + ["}"]));
    KeywordStands(ts, after, "{", PrintArms(ms) + ["}"]);
    BraceEnds(ts, after, e) by { ArmsFollow(ts, s.(pos := after), e, ms); }
  }

  /** Behind a name, arms are not taken for the fields of a structure literal. */
  lemma ArmsFollow(ts: Tokens, s: S, e: Tree, ms: seq<Arm>)
    requires s.pos < |ts| && Peek(ts, s.pos) == "{" && Stands(ts, s.pos + 1, PrintArms(ms) + ["}"])
    requires GoodArms(ms) && (ms == [] ==> !EndsInName(e, 0))
    ensures EndsInName(e, 0) ==> AfterName(ts, s.pos)
  {
    hide PrintArms, PrintArm, Stands, EndsInName, Print, PrintPattern, GoodArms, GoodArm;
    if ms != [] {
      var rest := PrintArms(ms[1..]) + ["}"];
      ArmsSplit(ms);
      ArmShape(ms[0], rest);
      PatternTaken(ts, s.(pos := s.pos + 1), ms[0], Print(ms[0].body, 0) + ([","] + rest));
    }
  }

  lemma MatchParts(ts: Tokens, s: S, c: (S, nat), arms: (S, nat))
    requires s.pos <= |ts| && ParseExpr(ts, s) == c && !c.0.hung && c.0.pos < |ts|
    requires ParseArms(ts, c.0.(pos := c.0.pos + 1), 0) == arms && !arms.0.hung && arms.0.pos < |ts|
    ensures ParseMatch(ts, s) == PushStmt(arms.0.(pos := arms.0.pos + 1), Match(c.1, |c.0.a.matchArms|, arms.1))
  {
    hide ParseExpr, ParseArms, PushStmt;
  }

  /** A printed match is taken whole: one statement with the subject that was written, and as many new arms as were
      written, in their order, each with its pattern and its body. */
  lemma MatchTaken(ts: Tokens, s: S, e: Tree, ms: seq<Arm>)
    requires s.pos <= |ts| && !s.hung && Sound(s.a) && Printable(e) && GoodArms(ms)
    requires (ms == [] ==> !EndsInName(e, 0)) && Stands(ts, s.pos, PrintMatch(e, ms))
    ensures var r := ParseStmt(ts, s);
            && !r.0.hung && r.0.pos == s.pos + |PrintMatch(e, ms)|
            && r.1 == |s.a.stmts| + 1 == |r.0.a.stmts| && IsMatch(s.a, r.0.a, r.0.a.stmts[r.1 - 1], e, ms)
  {
    hide *;
    var s2, n := MatchPieces(ts, s, e, ms);
    StmtTaken(ParseStmt(ts, s), s2, n, |s.a.stmts|);
    MatchCount(ParseStmt(ts, s), s2, n);
  }

  lemma MatchCount(r: (S, nat), s2: S, n: Stmt)
    requires r == PushStmt(s2, n)
    ensures r.1 == |s2.a.stmts| + 1 && r.0.a == PushStmt(s2, n).0.a
  {}

  ghost predicate IsMatch(a: Arena, a': Arena, n: Stmt, e: Tree, ms: seq<Arm>) {
    && n.Match? && Holds(a', n.scrutinee, e) && n.armStart == |a.matchArms| && n.armCount == |ms|
    && |a'.matchArms| == |a.matchArms| + |ms| && ArmsHeld(a', n.armStart, ms)
  }

  lemma MatchPieces(ts: Tokens, s: S, e: Tree, ms: seq<Arm>) returns (s3: S, n: Stmt)
    requires s.pos <= |ts| && !s.hung && Sound(s.a) && Printable(e) && GoodArms(ms)
    requires (ms == [] ==> !EndsInName(e, 0)) && Stands(ts, s.pos, PrintMatch(e, ms))
    ensures ParseStmt(ts, s) == PushStmt(s3, n) && !s3.hung && s3.a.stmts == s.a.stmts
    ensures s3.pos == s.pos + |PrintMatch(e, ms)| && IsMatch(s.a, PushStmt(s3, n).0.a, n, e, ms)
  {
    hide *;
    MatchOpens(ts, s, e, ms);
    var s1, h := ExprParsed(ts, s.(pos := s.pos + 1), e);
    var s2 := ArmsTaken(ts, s1.(pos := s1.pos + 1), ms, 0);
    MatchParts(ts, s.(pos := s.pos + 1), (s1, h), (s2, |ms|));
    s3, n := s2.(pos := s2.pos + 1), Match(h, |s1.a.matchArms|, |ms|);
    HoldsLater(s1.a, s2.a, h, e);
    MatchDone(s.a, s3, n, e, ms);
  }

  lemma MatchDone(a: Arena, s3: S, n: Stmt, e: Tree, ms: seq<Arm>)
    requires n.Match? && Holds(s3.a, n.scrutinee, e) && n.armStart == |a.matchArms| && n.armCount == |ms|
    requires |s3.a.matchArms| == |a.matchArms| + |ms| && ArmsHeld(s3.a, n.armStart, ms)
    ensures IsMatch(a, PushStmt(s3, n).0.a, n, e, ms)
  {
    hide Holds;
    var a' := PushStmt(s3, n).0.a;
    HoldsLater(s3.a, a', n.scrutinee, e);
    forall k | 0 <= k < |ms| ensures ArmHeld(a', a'.matchArms[n.armStart + k], ms[k]) {
      HoldsLater(s3.a, a', s3.a.matchArms[n.armStart + k].body, ms[k].body);
    }
  }

  // -------------------------------------------------------- structure literals --

  datatype Field = Field(name: string, value: Tree)

  function PrintField(f: Field): Tokens { [f.name, ":"] + (Print(f.value, 0) + [","]) }

  function PrintFields(fs: seq<Field>): Tokens { if fs == [] then [] else PrintField(fs[0]) + PrintFields(fs[1..]) }

  function PrintStruct(x: string, fs: seq<Field>): Tokens { [x, "{"] + (PrintFields(fs) + ["}"]) }

  predicate GoodField(f: Field) { f.name != "}" && Printable(f.value) }

  predicate GoodFields(fs: seq<Field>) { forall k :: 0 <= k < |fs| ==> GoodField(fs[k]) }

  function FieldNames(fs: seq<Field>): (names: seq<string>)
    ensures |names| == |fs| && forall k :: 0 <= k < |fs| ==> names[k] == fs[k].name
  {
    seq(|fs|, k requires 0 <= k < |fs| => fs[k].name)
  }

  /** The value entries from `start` on are those of the fields `fs`. */
  ghost predicate ValuesHeld(a: Arena, start: nat, fs: seq<Field>) {
    && start + |fs| <= |a.structLitExprs|
    && forall k :: 0 <= k < |fs| ==> Holds(a, a.structLitExprs[start + k], fs[k].value)
  }

  /** From `s` to `s'` exactly the field entries of `fs` were added. */
  ghost predicate FieldsBuilt(s: S, s': S, fs: seq<Field>) {
    && s'.a.structLitNames == s.a.structLitNames + FieldNames(fs)
    && s.a.structLitExprs <= s'.a.structLitExprs && |s'.a.structLitExprs| == |s.a.structLitExprs| + |fs|
    && ValuesHeld(s'.a, |s.a.structLitExprs|, fs)
  }

  lemma FieldOpens(ts: Tokens, s: S, f: Field, rest: Tokens)
    requires s.pos <= |ts| && GoodField(f) && Stands(ts, s.pos, PrintField(f) + rest)
    ensures s.pos + 2 <= |ts| && Peek(ts, s.pos) == f.name && Peek(ts, s.pos + 1) == ":" && f.name != "}"
    ensures Stands(ts, s.pos + 2, Print(f.value, 0) + ([","] + rest)) && Printable(f.value)
    ensures |PrintField(f)| == 3 + |Print(f.value, 0)|
  {
    hide Print, Stands, Printable;
    assert PrintField(f) + rest == [f.name] + ([":"] + (Print(f.value, 0) + ([","] + rest)));
    KeywordStands(ts, s.pos, f.name, [":"] + (Print(f.value, 0) + ([","] + rest)));
    KeywordStands(ts, s.pos + 1, ":", Print(f.value, 0) + ([","] + rest));
  }

  /** Printed fields up to the closing brace are taken one by one, names and values in their order. */
  lemma {:induction false} FieldsTaken(ts: Tokens, s: S, fs: seq<Field>, count: nat) returns (s': S)
    requires s.pos <= |ts| && !s.hung && Sound(s.a) && GoodFields(fs) && Stands(ts, s.pos, PrintFields(fs) + ["}"])
    ensures ParseFields(ts, s, count) == (s', count + |fs|) && !s'.hung && Sound(s'.a)
    ensures s'.pos == s.pos + |PrintFields(fs)| && s'.pos < |ts| && Extends(s.a, s'.a) && FieldsBuilt(s, s', fs)
    decreases |fs|
  {
    hide *;
    if fs == [] {
      NoFields(ts, s, count);
      s' := s;
    } else {
      FieldsSplit(fs);
      var f, rest := fs[0], PrintFields(fs[1..]) + ["}"];
      FieldOpens(ts, s, f, rest);
      var s1, h := Worded(ts, s.(pos := s.pos + 2), f.value, ",", rest);
      var s2 := PushField(s1, f.name, h).(pos := s1.pos + 1);
      OneField(ts, s, s1, h, count);
      FieldPushed(s1, f, h);
      s' := FieldsTaken(ts, s2, fs[1..], count + 1);
      ExtendsMore(s.a, s1.a, s2.a);
      ExtendsMore(s.a, s2.a, s'.a);
      HoldsLater(s1.a, s2.a, h, f.value);
      HoldsLater(s2.a, s'.a, h, f.value);
      FieldsJoin(s, s2, s', h, fs);
    }
  }

  lemma NoFields(ts: Tokens, s: S, count: nat)
    requires s.pos <= |ts| && Stands(ts, s.pos, PrintFields([]) + ["}"])
    ensures ParseFields(ts, s, count) == (s, count) && s.pos < |ts| && PrintFields([]) == []
    ensures Extends(s.a, s.a) && FieldsBuilt(s, s, [])
  {
    assert PrintFields([]) + ["}"] == ["}"];
    StandsOne(ts, s.pos, "}");
  }

  lemma FieldsSplit(fs: seq<Field>)
    requires fs != [] && GoodFields(fs)
    ensures PrintFields(fs) + ["}"] == PrintField(fs[0]) + (PrintFields(fs[1..]) + ["}"])
    ensures |PrintFields(fs)| == |PrintField(fs[0])| + |PrintFields(fs[1..])| && GoodField(fs[0]) && GoodFields(fs[1..])
  {
    hide PrintField, GoodField;
  }

  lemma OneField(ts: Tokens, s: S, s1: S, h: nat, count: nat)
    requires s.pos + 2 <= |ts| && !s.hung && Peek(ts, s.pos) != "}"
    requires ParseExpr(ts, s.(pos := s.pos + 2)) == (s1, h) && !s1.hung && s1.pos < |ts| && Peek(ts, s1.pos) == ","
    ensures ParseFields(ts, s, count) ==
            ParseFields(ts, PushField(s1, Peek(ts, s.pos), h).(pos := s1.pos + 1), count + 1)
  {
    hide ParseBp, Peek;
    Steps(ts, s);
  }

  lemma FieldPushed(s1: S, f: Field, h: nat)
    requires Sound(s1.a) && Holds(s1.a, h, f.value)
    ensures var s2 := PushField(s1, f.name, h).(pos := s1.pos + 1);
            && Sound(s2.a) && Extends(s1.a, s2.a) && s2.pos == s1.pos + 1 && s2.hung == s1.hung
            && s2.a.structLitNames == s1.a.structLitNames + [f.name]
            && s2.a.structLitExprs == s1.a.structLitExprs + [h]
  {
    hide Sound, Decode, Whole, Flat, Zeroed;
    Named(s1.a, h);
    PushFieldSound(s1, f.name, h);
  }

  lemma FieldsJoin(s: S, s2: S, s': S, h: nat, fs: seq<Field>)
    requires fs != [] && s2.a.structLitNames == s.a.structLitNames + [fs[0].name]
    requires s2.a.structLitExprs == s.a.structLitExprs + [h] && Holds(s'.a, h, fs[0].value)
    requires FieldsBuilt(s2, s', fs[1..])
    ensures FieldsBuilt(s, s', fs)
  {
    hide Holds, ValuesHeld, FieldNames;
    NamesJoin(s.a.structLitNames, fs);
    ValuesJoin(s'.a, |s.a.structLitExprs|, h, fs);
  }

  lemma NamesJoin(before: seq<string>, fs: seq<Field>)
    requires fs != []
    ensures before + [fs[0].name] + FieldNames(fs[1..]) == before + FieldNames(fs)
  {
    assert [fs[0].name] + FieldNames(fs[1..]) == FieldNames(fs);
  }

  lemma ValuesJoin(a: Arena, n: nat, h: nat, fs: seq<Field>)
    requires fs != [] && n < |a.structLitExprs| && a.structLitExprs[n] == h && Holds(a, h, fs[0].value)
    requires ValuesHeld(a, n + 1, fs[1..])
    ensures ValuesHeld(a, n, fs)
  {
    hide Holds;
    forall k | 0 <= k < |fs| ensures Holds(a, a.structLitExprs[n + k], fs[k].value) {
      if k > 0 { assert Holds(a, a.structLitExprs[n + 1 + (k - 1)], fs[1..][k - 1].value); }
    }
  }

  lemma StructOpens(ts: Tokens, s: S, x: string, fs: seq<Field>)
    requires s.pos <= |ts| && IsIdentLexeme(x) && GoodFields(fs) && Stands(ts, s.pos, PrintStruct(x, fs))
    ensures s.pos + 2 <= |ts| && Stands(ts, s.pos + 2, PrintFields(fs) + ["}"]) && Peek(ts, s.pos) == x
    ensures Peek(ts, s.pos + 1) == "{" && StartsStructLit(ts, s.pos + 1)
    ensures |PrintStruct(x, fs)| == 3 + |PrintFields(fs)|
  {
    hide PrintFields, PrintField, Stands, GoodFields, GoodField;
    assert PrintStruct(x, fs) == [x] + (["{"] + (PrintFields(fs) + ["}"]));
    KeywordStands(ts, s.pos, x, ["{"] + (PrintFields(fs) + ["}"]));
    KeywordStands(ts, s.pos + 1, "{", PrintFields(fs) + ["}"]);
    if fs == [] {
      NoFields(ts, s.(pos := s.pos + 2), 0);
      StandsOne(ts, s.pos + 2, "}") by { assert PrintFields([]) + ["}"] == ["}"]; }
    } else {
      FieldsSplit(fs);
      FieldOpens(ts, s.(pos := s.pos + 2), fs[0], PrintFields(fs[1..]) + ["}"]);
    }
  }

  lemma StructParts(ts: Tokens, s: S, x: string, s1: S, n: nat)
    requires s.pos + 2 <= |ts| && Peek(ts, s.pos) == x && IsIdentLexeme(x)
    requires Peek(ts, s.pos + 1) == "{" && StartsStructLit(ts, s.pos + 1)
    requires ParseFields(ts, s.(pos := s.pos + 2), 0) == (s1, n) && !s1.hung && s1.pos < |ts|
    ensures ParsePrimary(ts, s) == Push(s1.(pos := s1.pos + 1), StructLit(x, |s.a.structLitExprs|, n))
  {
    hide ParseFields, Push, StartsStructLit;
    Steps(ts, s);
    Steps(ts, s1);
  }

  /** A printed structure literal, its values being expressions of the round trip, is taken whole: its node owns as
      many new entries as it has fields, in their order, each with its name and its value. */
  lemma StructTaken(ts: Tokens, s: S, x: string, fs: seq<Field>)
    requires s.pos <= |ts| && !s.hung && Sound(s.a) && IsIdentLexeme(x) && GoodFields(fs)
    requires Stands(ts, s.pos, PrintStruct(x, fs))
    ensures var r := ParsePrimary(ts, s);
            && !r.0.hung && r.0.pos == s.pos + |PrintStruct(x, fs)| && r.1 == |r.0.a.exprs| > |s.a.exprs|
            && r.0.a.exprs[r.1 - 1] == StructLit(x, |s.a.structLitExprs|, |fs|) && FieldsBuilt(s, r.0, fs)
  {
    hide *;
    StructOpens(ts, s, x, fs);
    var s1 := FieldsTaken(ts, s.(pos := s.pos + 2), fs, 0);
    StructParts(ts, s, x, s1, |fs|);
    StructPushed(s.(pos := s.pos + 2), s1, StructLit(x, |s.a.structLitExprs|, |fs|), fs);
    assert FieldsBuilt(s, ParsePrimary(ts, s).0, fs) by { SameEntries(s, ParsePrimary(ts, s).0, fs); }
  }

  lemma SameEntries(s: S, s': S, fs: seq<Field>)
    requires FieldsBuilt(s.(pos := s.pos + 2), s', fs)
    ensures FieldsBuilt(s, s', fs)
  {}

  lemma StructPushed(s: S, s1: S, e: Expr, fs: seq<Field>)
    requires FieldsBuilt(s, s1, fs) && Extends(s.a, s1.a) && !s1.hung
    ensures var r := Push(s1.(pos := s1.pos + 1), e);
            && !r.0.hung && r.0.pos == s1.pos + 1 && r.1 == |r.0.a.exprs| > |s.a.exprs|
            && r.0.a.exprs[r.1 - 1] == e && FieldsBuilt(s, r.0, fs)
  {
    hide Holds;
    var a' := Push(s1, e).0.a;
    var n := |s.a.structLitExprs|;
    forall k | 0 <= k < |fs| ensures Holds(a', a'.structLitExprs[n + k], fs[k].value) {
      HoldsLater(s1.a, a', s1.a.structLitExprs[n + k], fs[k].value);
    }
  }

  /** A literal in a literal, `x { f: y { g: e, }, }`. */
  function PrintNested(x: string, f: string, y: string, g: string, e: Tree): Tokens {
    [x, "{"] + ([f, ":"] + (PrintStruct(y, [Field(g, e)]) + [",", "}"]))
  }

  lemma NestedOpens(ts: Tokens, s: S, x: string, f: string, y: string, g: string, e: Tree)
    requires s.pos <= |ts| && Stands(ts, s.pos, PrintNested(x, f, y, g, e))
    ensures var n := |PrintStruct(y, [Field(g, e)])|;
            && s.pos + n + 6 <= |ts| && Stands(ts, s.pos + 4, PrintStruct(y, [Field(g, e)]))
            && Peek(ts, s.pos) == x && Peek(ts, s.pos + 1) == "{" && Peek(ts, s.pos + 2) == f
            && Peek(ts, s.pos + 3) == ":" && Peek(ts, s.pos + 4 + n) == "," && Peek(ts, s.pos + 5 + n) == "}"
  {
    hide Stands, PrintStruct;
    var p := PrintStruct(y, [Field(g, e)]);
    assert PrintNested(x, f, y, g, e) == [x] + (["{"] + ([f] + ([":"] + (p + ([","] + ["}"])))));
    KeywordStands(ts, s.pos, x, ["{"] + ([f] + ([":"] + (p + ([","] + ["}"])))));
    KeywordStands(ts, s.pos + 1, "{", [f] + ([":"] + (p + ([","] + ["}"]))));
    KeywordStands(ts, s.pos + 2, f, [":"] + (p + ([","] + ["}"])));
    KeywordStands(ts, s.pos + 3, ":", p + ([","] + ["}"]));
    StandsSplit(ts, s.pos + 4, p, [","] + ["}"]);
    KeywordStands(ts, s.pos + 4 + |p|, ",", ["}"]);
    StandsOne(ts, s.pos + 5 + |p|, "}");
  }

  /** An operand before a comma is the whole expression. */
  lemma OperandAlone(ts: Tokens, s: S, r: (S, nat))
    requires s.pos <= |ts| && ParsePrimary(ts, s) == r && !r.0.hung && Peek(ts, r.0.pos) == ","
    ensures ParseExpr(ts, s) == r
  {
    hide ParsePrimary, Peek;
    assert ParsePostfix(ts, r.0, r.1) == r;
    assert Precedence(",") == 0;
    assert ParseOperators(ts, r.0, r.1, 0) == r;
  }

  lemma LastField(ts: Tokens, s: S, count: nat)
    requires s.pos <= |ts| && Peek(ts, s.pos) == "}"
    ensures ParseFields(ts, s, count) == (s, count)
  {}

  /** The entries of the inner literal come first, so the first entry that the outer one owns is the inner field:
      the outer literal reads as `x { g: e }`. */
  lemma NestedLiteralLosesItself(ts: Tokens, s: S, x: string, f: string, y: string, g: string, e: Tree)
    requires s.pos <= |ts| && !s.hung && Sound(s.a) && IsIdentLexeme(x) && IsIdentLexeme(y) && f != "}" && g != "}"
    requires Printable(e) && Stands(ts, s.pos, PrintNested(x, f, y, g, e))
    ensures var r := ParsePrimary(ts, s);
            var n, m := |s.a.structLitExprs|, |s.a.structLitNames|;
            && !r.0.hung && 1 <= r.1 <= |r.0.a.exprs| && r.0.a.exprs[r.1 - 1] == StructLit(x, n, 1)
            && r.0.a.structLitNames == s.a.structLitNames + [g, f]
            && n < |r.0.a.structLitExprs| && Holds(r.0.a, r.0.a.structLitExprs[n], e)
  {
    hide *;
    NestedOpens(ts, s, x, f, y, g, e);
    var fs := [Field(g, e)];
    assert GoodFields(fs) by { OneGood(g, e); }
    var s1 := s.(pos := s.pos + 4);
    StructTaken(ts, s1, y, fs);
    var r := ParsePrimary(ts, s1);
    OperandAlone(ts, s1, r);
    OneField(ts, s.(pos := s.pos + 2), r.0, r.1, 0);
    var s2 := PushField(r.0, f, r.1).(pos := r.0.pos + 1);
    FieldLeaves(r.0, f, r.1);
    LastField(ts, s2, 1);
    assert StartsStructLit(ts, s.pos + 1) by { Colon(ts, s.pos + 1); }
    StructParts(ts, s, x, s2, 1);
    NestedRead(s1, r.0, r.1, f, g, e, StructLit(x, |s.a.structLitExprs|, 1));
  }

  lemma FieldLeaves(s: S, f: string, h: nat)
    ensures PushField(s, f, h).hung == s.hung
  {}

  lemma Colon(ts: Tokens, pos: nat)
    requires Peek(ts, pos) == "{" && Peek(ts, pos + 2) == ":"
    ensures StartsStructLit(ts, pos)
  {}

  lemma OneGood(g: string, e: Tree)
    requires g != "}" && Printable(e)
    ensures GoodFields([Field(g, e)])
  {}

  lemma NestedRead(s: S, s1: S, h: nat, f: string, g: string, e: Tree, node: Expr)
    requires FieldsBuilt(s, s1, [Field(g, e)])
    ensures var r := Push(PushField(s1, f, h).(pos := s1.pos + 2), node);
            && r.0.hung == s1.hung && 1 <= r.1 <= |r.0.a.exprs| && r.0.a.exprs[r.1 - 1] == node
            && r.0.a.structLitNames == s.a.structLitNames + [g, f] && |s.a.structLitExprs| < |r.0.a.structLitExprs|
            && Holds(r.0.a, r.0.a.structLitExprs[|s.a.structLitExprs|], e)
  {
    hide Holds;
    var a, n := Push(PushField(s1, f, h), node).0.a, |s.a.structLitExprs|;
    assert FieldNames([Field(g, e)]) == [g];
    assert Holds(s1.a, s1.a.structLitExprs[n + 0], [Field(g, e)][0].value);
    HoldsLater(s1.a, a, s1.a.structLitExprs[n], e);
  }
}
