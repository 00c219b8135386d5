/** What the recorded ranges of any statements read back as, nested blocks included. */
module Flattening {
  import opened Options
  import opened Ast
  import opened ParserSpec
  import opened RoundTrip
  import opened ArenaShape
  import opened StmtTrip
  import opened FuncTrip

  /** The statements that parsing `t` pushes, as they are read back: those of its blocks before it, and its
      own blocks as the first of the statements that were pushed for them. */
  function Pushed(t: Statement): (ps: seq<Statement>)
    ensures |ps| >= 1
    decreases t, 0
  {
    match t
    case Choose(c, thn, els) => PushedAll(thn) + PushedAll(els) + [Choose(Zeroed(c), Shifted(thn), Shifted(els))]
    case Repeat(c, body) => PushedAll(body) + [Repeat(Zeroed(c), Shifted(body))]
    case _ => [StmtZeroed(t)]
  }

  function PushedAll(ss: seq<Statement>): (ps: seq<Statement>)
    ensures |ps| >= |ss|
    decreases ss, 1
  {
    if ss == [] then [] else Pushed(ss[0]) + PushedAll(ss[1..])
  }

  /** A block as it is read back: as many statements as it has, from the first that was pushed for it. */
  function Shifted(ss: seq<Statement>): (r: seq<Statement>)
    ensures |r| == |ss|
    decreases ss, 2
  {
    PushedAll(ss)[..|ss|]
  }

  /** No argument of a call contains a call with arguments. */
  predicate ExprsFlat(t: Statement)
    decreases t, 0
  {
    match t
    case Choose(c, thn, els) => Flat(c) && BlockExprsFlat(thn) && BlockExprsFlat(els)
    case Repeat(c, body) => Flat(c) && BlockExprsFlat(body)
    case _ => StmtFlat(t)
  }

  predicate BlockExprsFlat(ss: seq<Statement>)
    decreases ss, 1
  {
    forall i :: 0 <= i < |ss| ==> ExprsFlat(ss[i])
  }

  /** What is pushed first for a statement has no block itself. */
  lemma {:induction false} FirstPushed(t: Statement)
    requires Writable(t)
    ensures NoBlock(Pushed(t)[0])
    decreases t
  {
    match t {
      case Choose(_, thn, els) =>
        if thn != [] {
          assert Writable(thn[0]);
          FirstPushed(thn[0]);
        } else if els != [] {
          assert Writable(els[0]);
          FirstPushed(els[0]);
        }
      case Repeat(_, body) =>
        if body != [] {
          assert Writable(body[0]);
          FirstPushed(body[0]);
        }
      case _ => BlockKind(t);
    }
  }

  /** No statement of the block owns statements. */
  predicate NoNesting(ss: seq<Statement>) { forall i :: 0 <= i < |ss| ==> NoBlock(ss[i]) }

  lemma NoNestingSplit(ss: seq<Statement>)
    requires ss != []
    ensures NoNesting(ss) <==> NoBlock(ss[0]) && NoNesting(ss[1..])
  {
    hide NoBlock;
    if NoNesting(ss[1..]) {
      forall i | 1 <= i < |ss| ensures NoBlock(ss[i]) { assert ss[i] == ss[1..][i - 1]; }
    }
  }

  /** A block is read back as it was written exactly if none of its statements owns statements. */
  lemma {:induction false} ShiftedExact(ss: seq<Statement>)
    requires AllWritable(ss)
    ensures Shifted(ss) == BlockZeroed(ss) <==> NoNesting(ss)
    decreases |ss|
  {
    if ss != [] {
      hide StmtZeroed, Writable, NoBlock, NoNesting, Shifted;
      var rest := ss[1..];
      assert Writable(ss[0]) && AllWritable(rest);
      ShiftedExact(rest);
      NoNestingSplit(ss);
      ShiftedFirst(ss);
      assert BlockZeroed(ss) == [StmtZeroed(ss[0])] + BlockZeroed(rest);
    }
  }

  /** A statement that owns none is read back first; of one that owns some another one is. */
  lemma ShiftedFirst(ss: seq<Statement>)
    requires ss != [] && Writable(ss[0])
    ensures NoBlock(ss[0]) ==> Shifted(ss) == [StmtZeroed(ss[0])] + Shifted(ss[1..])
    ensures !NoBlock(ss[0]) ==> Shifted(ss)[0] != StmtZeroed(ss[0])
  {
    hide StmtZeroed, Writable, NoBlock, Pushed;
    FirstPushed(ss[0]);
    BlockKind(ss[0]);
    if NoBlock(ss[0]) {
      PushedSimple(ss[0]);
    }
    assert PushedAll(ss)[0] == Pushed(ss[0])[0];
  }

  lemma PushedSimple(t: Statement)
    requires NoBlock(t)
    ensures Pushed(t) == [StmtZeroed(t)]
  {}

  // ------------------------------------------------------------------------ as written --

  predicate OptNoLiterals(o: Option<Tree>) { o.Some? ==> NoLiterals(o.value) }

  /** Every integer literal is zero. */
  predicate StmtNoLiterals(t: Statement)
    decreases t, 0
  {
    match t
    case Declare(_, v) => OptNoLiterals(v)
    case Leave(r) => OptNoLiterals(r)
    case Choose(c, thn, els) => NoLiterals(c) && BlockNoLiterals(thn) && BlockNoLiterals(els)
    case Repeat(c, body) => NoLiterals(c) && BlockNoLiterals(body)
    case Set(p, e) => NoLiterals(p) && NoLiterals(e)
    case Change(p, _, e) => NoLiterals(p) && NoLiterals(e)
    case Do(e) => NoLiterals(e)
    case Unread => true
  }

  predicate BlockNoLiterals(ss: seq<Statement>)
    decreases ss, 1
  {
    forall i :: 0 <= i < |ss| ==> StmtNoLiterals(ss[i])
  }

  lemma OptZeroedSame(o: Option<Tree>)
    ensures OptZeroed(o) == o <==> OptNoLiterals(o)
  {
    hide Zeroed, NoLiterals;
    if o.Some? {
      ZeroedSame(o.value);
    }
  }

  lemma {:induction false} StmtZeroedSame(t: Statement)
    ensures StmtZeroed(t) == t <==> StmtNoLiterals(t)
    decreases t, 0
  {
    hide Zeroed, NoLiterals, OptZeroed, OptNoLiterals;
    match t {
      case Declare(_, v) => OptZeroedSame(v);
      case Leave(r) => OptZeroedSame(r);
      case Choose(c, thn, els) => ZeroedSame(c); BlockZeroedSame(thn); BlockZeroedSame(els);
      case Repeat(c, body) => ZeroedSame(c); BlockZeroedSame(body);
      case Set(p, e) => ZeroedSame(p); ZeroedSame(e);
      case Change(p, _, e) => ZeroedSame(p); ZeroedSame(e);
      case Do(e) => ZeroedSame(e);
      case Unread =>
    }
  }

  lemma {:induction false} BlockZeroedSame(ss: seq<Statement>)
    ensures BlockZeroed(ss) == ss <==> BlockNoLiterals(ss)
    decreases ss, 1
  {
    hide StmtZeroed, StmtNoLiterals;
    forall i | 0 <= i < |ss| ensures StmtZeroed(ss[i]) == ss[i] <==> StmtNoLiterals(ss[i]) { StmtZeroedSame(ss[i]); }
    assert BlockZeroed(ss) == ss <==> forall i :: 0 <= i < |ss| ==> BlockZeroed(ss)[i] == ss[i];
  }

  lemma {:induction false} ZeroedNoLiterals(t: Tree)
    ensures NoLiterals(Zeroed(t))
  {
    match t {
      case Un(_, e) => ZeroedNoLiterals(e);
      case Bi(l, _, r) => ZeroedNoLiterals(l); ZeroedNoLiterals(r);
      case At(b, i) => ZeroedNoLiterals(b); ZeroedNoLiterals(i);
      case Dot(b, _) => ZeroedNoLiterals(b);
      case App(f, args) =>
        ZeroedNoLiterals(f);
        forall i | 0 <= i < |args| ensures NoLiterals(ZeroedAll(args)[i]) { ZeroedNoLiterals(args[i]); }
      case _ =>
    }
  }

  lemma SimpleNoLiterals(t: Statement)
    requires !t.Choose? && !t.Repeat?
    ensures StmtNoLiterals(StmtZeroed(t))
  {
    hide Zeroed, NoLiterals;
    match t {
      case Declare(_, v) => if v.Some? { ZeroedNoLiterals(v.value); }
      case Leave(r) => if r.Some? { ZeroedNoLiterals(r.value); }
      case Set(p, e) => ZeroedNoLiterals(p); ZeroedNoLiterals(e);
      case Change(p, _, e) => ZeroedNoLiterals(p); ZeroedNoLiterals(e);
      case Do(e) => ZeroedNoLiterals(e);
      case Unread =>
    }
  }

  /** What is pushed has no literals but zero. */
  lemma {:induction false} PushedNoLiterals(t: Statement)
    ensures BlockNoLiterals(Pushed(t))
    decreases t, 0
  {
    hide Zeroed, NoLiterals;
    match t {
      case Choose(c, thn, els) => ZeroedNoLiterals(c); AllPushedNoLiterals(thn); AllPushedNoLiterals(els);
      case Repeat(c, body) => ZeroedNoLiterals(c); AllPushedNoLiterals(body);
      case _ => SimpleNoLiterals(t);
    }
  }

  lemma {:induction false} AllPushedNoLiterals(ss: seq<Statement>)
    ensures BlockNoLiterals(PushedAll(ss)) && BlockNoLiterals(Shifted(ss))
    decreases ss, 1
  {
    hide StmtNoLiterals, Pushed;
    if ss != [] {
      PushedNoLiterals(ss[0]);
      AllPushedNoLiterals(ss[1..]);
    }
  }

  /** A block is read back exactly as it was written, literals included, if and only if none of its
      statements owns statements and every literal is zero. */
  lemma ShiftedAsWritten(ss: seq<Statement>)
    requires AllWritable(ss)
    ensures Shifted(ss) == ss <==> NoNesting(ss) && BlockNoLiterals(ss)
  {
    hide Shifted, BlockZeroed, NoNesting, BlockNoLiterals, AllWritable;
    ShiftedExact(ss);
    BlockZeroedSame(ss);
    AllPushedNoLiterals(ss);
  }

  // ------------------------------------------------------------------- in the arena --

  /** The statements behind the first `start` are read back as `ps`. */
  ghost predicate Reads(a: Arena, start: nat, ps: seq<Statement>) {
    start + |ps| == |a.stmts| && forall k :: 0 <= k < |ps| ==> DecodeStmt(a, start + k + 1) == ps[k]
  }

  /** They still are after the arena has grown. */
  lemma ReadsKept(a: Arena, a': Arena, start: nat, ps: seq<Statement>)
    requires Reads(a, start, ps) && StmtsExtend(a, a')
    requires forall g :: start < g <= |a.stmts| ==> StmtWhole(DecodeStmt(a, g))
    ensures forall k :: 0 <= k < |ps| ==> DecodeStmt(a', start + k + 1) == ps[k]
  {
    hide DecodeStmt, StmtWhole, StmtsExtend;
    forall k | 0 <= k < |ps| ensures DecodeStmt(a', start + k + 1) == ps[k] {
      DecodeStmtExtends(a, a', start + k + 1);
    }
  }

  lemma ReadsOne(a: Arena, start: nat, ps: seq<Statement>, last: Statement)
    requires start + |ps| + 1 == |a.stmts| && DecodeStmt(a, |a.stmts|) == last
    requires forall k :: 0 <= k < |ps| ==> DecodeStmt(a, start + k + 1) == ps[k]
    ensures Reads(a, start, ps + [last])
  {
    hide DecodeStmt;
  }

  lemma ReadsJoin(a: Arena, start: nat, ps: seq<Statement>, qs: seq<Statement>)
    requires Reads(a, start + |ps|, qs)
    requires forall k :: 0 <= k < |ps| ==> DecodeStmt(a, start + k + 1) == ps[k]
    ensures Reads(a, start, ps + qs)
  {
    hide DecodeStmt;
    forall k | 0 <= k < |ps + qs| ensures DecodeStmt(a, start + k + 1) == (ps + qs)[k] {
      if k >= |ps| {
        assert DecodeStmt(a, start + |ps| + (k - |ps|) + 1) == qs[k - |ps|];
      }
    }
  }

  /** The range of as many statements as a block has. */
  lemma RangeTakes(a: Arena, start: nat, ps: seq<Statement>, n: nat)
    requires n <= |ps| && forall k :: 0 <= k < |ps| ==> DecodeStmt(a, start + k + 1) == ps[k]
    ensures DecodeRange(a, start, n) == ps[..n]
  {
    hide DecodeStmt;
    forall k | 0 <= k < n ensures DecodeRange(a, start, n)[k] == ps[k] {
      RangeAt(a, start, n, k);
    }
  }

  // --------------------------------------------------------------------- what is pushed --

  /** Whatever the nesting, a statement pushes exactly the statements `Pushed` says. */
  lemma {:induction false} StmtPushes(ts: Tokens, s: S, t: Statement)
    requires s.pos <= |ts| && !s.hung && Sound(s.a) && Writable(t) && Stands(ts, s.pos, PrintStmt(t))
    requires Peek(ts, s.pos + |PrintStmt(t)|) != "else" && ExprsFlat(t)
    ensures Reads(ParseStmt(ts, s).0.a, |s.a.stmts|, Pushed(t))
    decreases t, 1
  {
    hide ParseStmt, PrintStmt, Stands, Sound, DecodeStmt, StmtZeroed, Writable;
    if t.Choose? {
      ChoosePushes(ts, s, t);
    } else if t.Repeat? {
      RepeatPushes(ts, s, t);
    } else {
      var s', h := ParsesStatement(ts, s, t);
    }
  }

  lemma {:induction false} RepeatPushes(ts: Tokens, s: S, t: Statement)
    requires s.pos <= |ts| && !s.hung && Sound(s.a) && Writable(t) && t.Repeat? && Stands(ts, s.pos, PrintStmt(t))
    requires ExprsFlat(t)
    ensures Reads(ParseStmt(ts, s).0.a, |s.a.stmts|, Pushed(t))
    decreases t, 0
  {
    hide ParseStmt, PrintStmt, Stands, Sound, Writable, ExprDone, BlockBuilt, Reads, ParseBraced, PrintBraced, Print,
         AllWritable;
    var s1, h1, s2 := RepeatParts(ts, s, t);
    BracedPushes(ts, s1, t.body);
    RepeatReads(s, s1, s2, t, h1, |Print(t.until, 0)|, |PrintBraced(t.body)|);
  }

  lemma RepeatReads(s: S, s1: S, s2: S, t: Statement, h1: nat, n: nat, m: nat)
    requires t.Repeat? && ExprsFlat(t) && m > 0 && ExprDone(s.(pos := s.pos + 1), s1, h1, t.until, n)
    requires BlockBuilt(s1.(pos := s1.pos + 1), s2, t.body, m - 1) && Reads(s2.a, |s1.a.stmts|, PushedAll(t.body))
    ensures Reads(PushStmt(s2, While(h1, |s1.a.stmts|, |t.body|)).0.a, |s.a.stmts|, Pushed(t))
  {
    hide Sound, Decode, Zeroed, Flat, Whole, StmtWhole, RangeReads, BlockFlat, PushedAll;
    var st, start := While(h1, |s1.a.stmts|, |t.body|), |s1.a.stmts|;
    var a2 := s2.a.(stmts := s2.a.stmts + [st]);
    ReadsKept(s2.a, a2, start, PushedAll(t.body));
    RangeTakes(a2, start, PushedAll(t.body), |t.body|);
    DecodeExtends(s1.a, s2.a, h1);
    ExprKept(s2.a, st, h1);
    ReadsOne(a2, start, PushedAll(t.body), DecodeStmt(a2, |a2.stmts|));
  }

  lemma {:induction false} ChoosePushes(ts: Tokens, s: S, t: Statement)
    requires s.pos <= |ts| && !s.hung && Sound(s.a) && Writable(t) && t.Choose? && Stands(ts, s.pos, PrintStmt(t))
    requires ExprsFlat(t)
    requires Peek(ts, s.pos + |PrintStmt(t)|) != "else"
    ensures Reads(ParseStmt(ts, s).0.a, |s.a.stmts|, Pushed(t))
    decreases t, 0
  {
    hide ParseStmt, PrintStmt, Stands, Sound, Writable, ExprDone, BlockBuilt, Reads, ParseBraced, PrintBraced, Print,
         AllWritable;
    if t.els == [] {
      var s1, h1, s2 := ThenParts(ts, s, t);
      BracedPushes(ts, s1, t.thn);
      ThenReads(s, s1, s2, t, h1, |Print(t.cond, 0)|, |PrintBraced(t.thn)|);
    } else {
      var s1, h1, s2, s3 := ElseParts(ts, s, t);
      BracedPushes(ts, s1, t.thn);
      BracedPushes(ts, s2.(pos := s2.pos + 1), t.els);
      ElseReads(s, s1, s2, s3, t, h1, |Print(t.cond, 0)|, |PrintBraced(t.thn)|, |PrintBraced(t.els)|);
    }
  }

  lemma ShiftedPart(ss: seq<Statement>)
    ensures Shifted(ss) == PushedAll(ss)[..|ss|]
  {}

  lemma NothingPushed()
    ensures PushedAll([]) == [] && Shifted([]) == []
  {}

  lemma ThenReads(s: S, s1: S, s2: S, t: Statement, h1: nat, n: nat, m: nat)
    requires t.Choose? && t.els == [] && ExprsFlat(t) && m > 0 && ExprDone(s.(pos := s.pos + 1), s1, h1, t.cond, n)
    requires BlockBuilt(s1.(pos := s1.pos + 1), s2, t.thn, m - 1) && Reads(s2.a, |s1.a.stmts|, PushedAll(t.thn))
    ensures Reads(PushStmt(s2, If(h1, |s1.a.stmts|, |t.thn|, 0, 0)).0.a, |s.a.stmts|, Pushed(t))
  {
    hide Sound, Decode, Zeroed, Flat, Whole, StmtWhole, RangeReads, BlockFlat;
    NothingPushed();
    hide PushedAll, Shifted, DecodeRange, BlockZeroed;
    var st, start := If(h1, |s1.a.stmts|, |t.thn|, 0, 0), |s1.a.stmts|;
    var a2 := s2.a.(stmts := s2.a.stmts + [st]);
    ReadsKept(s2.a, a2, start, PushedAll(t.thn));
    RangeTakes(a2, start, PushedAll(t.thn), |t.thn|);
    ShiftedPart(t.thn);
    EmptyBlock(a2);
    DecodeExtends(s1.a, s2.a, h1);
    ExprKept(s2.a, st, h1);
    ReadsOne(a2, start, PushedAll(t.thn), DecodeStmt(a2, |a2.stmts|));
    assert PushedAll(t.thn) + PushedAll(t.els) == PushedAll(t.thn);
  }

  lemma ElseReads(s: S, s1: S, s2: S, s3: S, t: Statement, h1: nat, n: nat, m: nat, k: nat)
    requires t.Choose? && ExprsFlat(t) && m > 0 && k > 0 && ExprDone(s.(pos := s.pos + 1), s1, h1, t.cond, n)
    requires BlockBuilt(s1.(pos := s1.pos + 1), s2, t.thn, m - 1) && Reads(s2.a, |s1.a.stmts|, PushedAll(t.thn))
    requires BlockBuilt(s2.(pos := s2.pos + 2), s3, t.els, k - 1) && Reads(s3.a, |s2.a.stmts|, PushedAll(t.els))
    ensures Reads(PushStmt(s3, If(h1, |s1.a.stmts|, |t.thn|, |s2.a.stmts|, |t.els|)).0.a, |s.a.stmts|, Pushed(t))
  {
    hide Sound, Decode, Zeroed, Flat, Whole, RangeReads, BlockFlat, PushedAll, Shifted, DecodeRange, Reads, BlockBuilt,
         ExprDone, StmtsExtend, BlockExprsFlat, DecodeStmt;
    var st, start, mid := If(h1, |s1.a.stmts|, |t.thn|, |s2.a.stmts|, |t.els|), |s1.a.stmts|, |s2.a.stmts|;
    var a4 := s3.a.(stmts := s3.a.stmts + [st]);
    var ps, qs := PushedAll(t.thn), PushedAll(t.els);
    ElseGrows(s, s1, s2, s3, t, h1, n, m, k, st);
    BlockKept(s1.(pos := s1.pos + 1), s2, a4, t.thn, m - 1);
    BlockKept(s2.(pos := s2.pos + 2), s3, a4, t.els, k - 1);
    CondKept(s.(pos := s.pos + 1), s1, a4, h1, t.cond, n);
    TwoBlocks(a4, start, ps, qs);
    IfRead(a4, st);
    ReadsOne(a4, start, ps + qs, DecodeStmt(a4, |a4.stmts|));
  }

  /** The arenas on the way each extend the one before. */
  lemma ElseGrows(s: S, s1: S, s2: S, s3: S, t: Statement, h1: nat, n: nat, m: nat, k: nat, st: Stmt)
    requires t.Choose? && m > 0 && k > 0 && ExprDone(s.(pos := s.pos + 1), s1, h1, t.cond, n)
    requires BlockBuilt(s1.(pos := s1.pos + 1), s2, t.thn, m - 1)
    requires BlockBuilt(s2.(pos := s2.pos + 2), s3, t.els, k - 1)
    ensures var a4 := s3.a.(stmts := s3.a.stmts + [st]);
            StmtsExtend(s1.a, a4) && StmtsExtend(s2.a, a4) && StmtsExtend(s3.a, a4)
    ensures |s.a.stmts| == |s1.a.stmts| <= |s2.a.stmts| <= |s3.a.stmts|
  {
    hide Sound, Decode, Zeroed, Flat, Whole, RangeReads, BlockFlat, DecodeStmt, StmtWhole;
  }

  lemma CondKept(s: S, s1: S, a: Arena, h: nat, e: Tree, n: nat)
    requires ExprDone(s, s1, h, e, n) && StmtsExtend(s1.a, a) && Flat(e)
    ensures Decode(a, h) == Zeroed(e)
  {
    hide Sound, Decode, Zeroed, Flat, Whole;
    DecodeExtends(s1.a, a, h);
  }

  lemma BlockKept(s: S, s1: S, a: Arena, ss: seq<Statement>, n: nat)
    requires BlockBuilt(s, s1, ss, n) && Reads(s1.a, |s.a.stmts|, PushedAll(ss)) && StmtsExtend(s1.a, a)
    ensures |s.a.stmts| + |PushedAll(ss)| == |s1.a.stmts|
    ensures forall k :: 0 <= k < |PushedAll(ss)| ==> DecodeStmt(a, |s.a.stmts| + k + 1) == PushedAll(ss)[k]
    ensures DecodeRange(a, |s.a.stmts|, |ss|) == Shifted(ss)
  {
    hide Sound, DecodeStmt, StmtWhole, RangeReads, BlockFlat, PushedAll, StmtsExtend, DecodeRange;
    ReadsKept(s1.a, a, |s.a.stmts|, PushedAll(ss));
    RangeTakes(a, |s.a.stmts|, PushedAll(ss), |ss|);
  }

  lemma IfRead(a: Arena, st: Stmt)
    requires a.stmts != [] && a.stmts[|a.stmts| - 1] == st && st.If?
    requires st.thenStart + st.thenCount < |a.stmts| && st.elseStart + st.elseCount < |a.stmts|
    ensures DecodeStmt(a, |a.stmts|) == Choose(Decode(a, st.cond), DecodeRange(a, st.thenStart, st.thenCount),
                                              DecodeRange(a, st.elseStart, st.elseCount))
  {
    hide Decode, DecodeRange;
  }

  lemma TwoBlocks(a: Arena, start: nat, ps: seq<Statement>, qs: seq<Statement>)
    requires forall k :: 0 <= k < |ps| ==> DecodeStmt(a, start + k + 1) == ps[k]
    requires forall k :: 0 <= k < |qs| ==> DecodeStmt(a, start + |ps| + k + 1) == qs[k]
    ensures forall k :: 0 <= k < |ps + qs| ==> DecodeStmt(a, start + k + 1) == (ps + qs)[k]
  {
    hide DecodeStmt;
    forall k | 0 <= k < |ps + qs| ensures DecodeStmt(a, start + k + 1) == (ps + qs)[k] {
      if k >= |ps| {
        assert DecodeStmt(a, start + |ps| + (k - |ps|) + 1) == qs[k - |ps|];
      }
    }
  }

  lemma {:induction false} BracedPushes(ts: Tokens, s: S, ss: seq<Statement>)
    requires s.pos <= |ts| && !s.hung && Sound(s.a) && AllWritable(ss) && Stands(ts, s.pos, PrintBraced(ss))
    requires BlockExprsFlat(ss)
    ensures Reads(ParseBraced(ts, s).0.a, |s.a.stmts|, PushedAll(ss))
    decreases ss, 1
  {
    hide PrintBlock, ParseBlock, Sound, Reads, AllWritable, BlockBuilt;
    BracesStand(ts, s.pos, PrintBlock(ss));
    BlockPushes(ts, Step(ts, s), ss);
    var s1, tops := ParsesBlock(ts, Step(ts, s), ss);
    BlockPos(Step(ts, s), s1, ss, |PrintBlock(ss)|);
  }

  lemma {:induction false} BlockPushes(ts: Tokens, s: S, ss: seq<Statement>)
    requires s.pos <= |ts| && !s.hung && Sound(s.a) && AllWritable(ss) && Stands(ts, s.pos, PrintBlock(ss) + ["}"])
    requires BlockExprsFlat(ss)
    ensures Reads(ParseBlock(ts, s).0.a, |s.a.stmts|, PushedAll(ss))
    decreases ss, 0
  {
    hide ParseStmt, PrintStmt, StmtBuilt, BlockBuilt, Sound, Writable, DecodeStmt, Watched, ExprsFlat, Pushed, Stands;
    if ss == [] {
      assert PrintBlock(ss) + ["}"] == ["}"];
      StandsOne(ts, s.pos, "}");
    } else {
      BlockStands(ts, s.pos, ss);
      var s1, h1 := ParsesStatement(ts, s, ss[0]);
      StmtPos(s, s1, h1, ss[0], |PrintStmt(ss[0])|);
      StmtPushes(ts, s, ss[0]);
      BlockPushes(ts, s1, ss[1..]);
      var s', more := ParsesBlock(ts, s1, ss[1..]);
      Unwatched(ts, s);
      MoreReads(s, s1, s', h1, ss, |PrintStmt(ss[0])|, |PrintBlock(ss[1..])|);
    }
  }

  lemma MoreReads(s: S, s1: S, s': S, h1: nat, ss: seq<Statement>, n: nat, m: nat)
    requires ss != [] && StmtBuilt(s, s1, h1, ss[0], n) && BlockBuilt(s1, s', ss[1..], m)
    requires Reads(s1.a, |s.a.stmts|, Pushed(ss[0])) && Reads(s'.a, |s1.a.stmts|, PushedAll(ss[1..]))
    ensures Reads(s'.a, |s.a.stmts|, PushedAll(ss))
  {
    hide DecodeStmt, StmtZeroed, StmtFlat, Sound, StmtWhole, Extends, Pushed, RangeReads, BlockFlat, NoBlock;
    ReadsKept(s1.a, s'.a, |s.a.stmts|, Pushed(ss[0]));
    ReadsJoin(s'.a, |s.a.stmts|, Pushed(ss[0]), PushedAll(ss[1..]));
  }

  // ---------------------------------------------------------------------- main theorem --

  /** The recorded range of a block, whatever is nested in it, reads as its `Shifted` form. */
  lemma BlockShifts(ts: Tokens, s: S, ss: seq<Statement>)
    requires s.pos <= |ts| && !s.hung && Sound(s.a) && AllWritable(ss) && Stands(ts, s.pos, PrintBraced(ss))
    requires BlockExprsFlat(ss)
    ensures var (s', tops) := ParseBraced(ts, s);
            |tops| == |ss| && DecodeRange(s'.a, |s.a.stmts|, |tops|) == Shifted(ss)
  {
    hide PrintBraced, ParseBraced, DecodeStmt, PushedAll, Sound, BlockBuilt, Stands;
    var s', tops := ParsesBraced(ts, s, ss);
    BracedPushes(ts, s, ss);
    RangeTakes(s'.a, |s.a.stmts|, PushedAll(ss), |ss|);
  }

  /** The body of any function, read back behind the function that was recorded for it. */
  lemma FuncShifts(ts: Tokens, s: S, isSafe: bool, f: Function)
    requires s.pos <= |ts| && !s.hung && Sound(s.a) && WritableFunc(f) && Stands(ts, s.pos, PrintFunc(f))
    requires BlockExprsFlat(f.body)
    ensures var (s', h) := ParseFuncDecl(ts, s, isSafe);
            && Sound(s'.a) && HeadKept(s'.a, h, f, isSafe)
            && var g := s'.a.funcs[h - 1];
               DecodeRange(s'.a, g.bodyStart, g.bodyCount) == Shifted(f.body)
  {
    hide ParseFuncDecl, ParseBraced, PrintFunc, PrintBraced, DecodeRange, Shifted, BlockWhole, BlockFlat, BlockZeroed,
         Sound, Stands, BlockExprsFlat, HeadKept, AllWritable;
    var s2 := FuncParts(ts, s, isSafe, f);
    BlockRoundTrip(ts, s2, f.body);
    BlockShifts(ts, s2, f.body);
    DecodeRangeExtends(ParseBraced(ts, s2).0.a, ParseFuncDecl(ts, s, isSafe).0.a, |s2.a.stmts|, |f.body|);
  }
}
