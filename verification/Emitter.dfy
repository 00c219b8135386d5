/** The code generator: from arena statement ranges to labelled code.

    Each line of LLVM text is one `Instr`. A name that the text writes with a leading
    `%` is the `Local` or the destination of an instruction, without the sign. */
module Emitter {
  import opened Ast
  import opened Digits

  datatype Opcode = OpAdd | OpSub | OpMul | OpSdiv | CmpEq | CmpNe | CmpSlt | CmpSgt

  /** The text an expression leaves behind: digits, or the name of a temporary. */
  datatype Operand = Lit(digits: string) | Local(name: string)

  datatype Instr =
    | Define(func: string, args: seq<string>)
    | EndDefine
    | Alloca(slot: string)
    | Store(val: Operand, place: string)
    | Load(dst: string, source: string)
    | Bin(dst: string, op: Opcode, lhs: Operand, rhs: Operand)
    | Label(name: string)
    | Br(target: string)
    | CondBr(cond: Operand, thn: string, els: string)
    | Ret(ret: Operand)
      // The three pieces of a call line. The code of each argument is written between them.
    | CallOpen(dst: string, callee: string)
    | CallArg(arg: Operand, more: bool)
    | CallClose

  function TmpName(n: nat): string { "t" + IntText(n) }

  function LabelName(prefix: string, n: nat): string { prefix + "." + IntText(n) }

  function ArgName(x: string): string { x + ".arg" }

  /** The opcode written for each operator; the ones without their own case fall through to `add`. */
  function OpcodeOf(op: BinaryOp): Opcode {
    match op
    case Add => OpAdd
    case Sub => OpSub
    case Mul => OpMul
    case Div => OpSdiv
    case Eq => CmpEq
    case NotEq => CmpNe
    case Lt => CmpSlt
    case Gt => CmpSgt
    case _ => OpAdd
  }

  /** Code, the operand that holds its value, and the temporary counter afterwards. */
  datatype Emitted = Emitted(code: seq<Instr>, val: Operand, tmps: nat)

  function CalleeName(a: Arena, h: nat): string
    requires Names(h, |a.exprs|)
  {
    if a.exprs[h - 1].Ident? then a.exprs[h - 1].name else "unknown"
  }

  function ExprCode(a: Arena, i: nat, k: nat): Emitted
    requires Acyclic(a) && i < |a.exprs|
    decreases i, |a.argIndices| + 1
  {
    match a.exprs[i]
    case IntLit(n) => Emitted([], Lit(IntText(n)), k)
    case Ident(x) => Emitted([Load(TmpName(k + 1), x)], Local(TmpName(k + 1)), k + 1)
    case Binary(lhs, op, rhs) =>
      var l := ExprCode(a, lhs - 1, k);
      var r := ExprCode(a, rhs - 1, l.tmps);
      var tmp := TmpName(r.tmps + 1);
      Emitted(l.code + r.code + [Bin(tmp, OpcodeOf(op), l.val, r.val)], Local(tmp), r.tmps + 1)
    case Call(callee, start, count) =>
      var args := ArgsCode(a, i, count, k + 1);
      Emitted([CallOpen(TmpName(k + 1), CalleeName(a, callee))] + args.code + [CallClose],
              Local(TmpName(k + 1)), args.tmps)
    case _ => Emitted([], Lit("0"), k)
  }

  /** The first `j` arguments of the call at `i`. The operand of the result has no meaning. */
  function ArgsCode(a: Arena, i: nat, j: nat, k: nat): Emitted
    requires Acyclic(a) && i < |a.exprs| && a.exprs[i].Call? && j <= a.exprs[i].argCount
    decreases i, j
  {
    if j == 0 then Emitted([], Lit("0"), k) else
      var e := a.exprs[i];
      var before := ArgsCode(a, i, j - 1, k);
      var arg := ExprCode(a, a.argIndices[e.argsStart + j - 1] - 1, before.tmps);
      Emitted(before.code + arg.code + [CallArg(arg.val, j < e.argCount)], Lit("0"), arg.tmps)
  }

  /** Code together with the two counters afterwards. */
  datatype Block = Block(code: seq<Instr>, tmps: nat, labels: nat)

  function StmtCode(a: Arena, i: nat, k: nat, l: nat): Block
    requires Acyclic(a) && i < |a.stmts|
    decreases i + 1, 0
  {
    match a.stmts[i]
    case Let(x, _, init) =>
      if init == 0 then Block([Alloca(x)], k, l) else
        var e := ExprCode(a, init - 1, k);
        Block([Alloca(x)] + e.code + [Store(e.val, x)], e.tmps, l)
    case Assign(place, source) =>
      var e := ExprCode(a, source - 1, k);
      var p := PlaceCode(a, place - 1, e.tmps);
      Block(e.code + p.0 + [Store(e.val, p.1)], p.2, l)
    case Return(value) =>
      if value == 0 then Block([Ret(Lit("0"))], k, l) else
        var e := ExprCode(a, value - 1, k);
        Block(e.code + [Ret(e.val)], e.tmps, l)
    case If(cond, ts, tc, es, ec) =>
      var thn, els, merge := LabelName("then", l + 1), LabelName("else", l + 2), LabelName("merge", l + 3);
      var c := ExprCode(a, cond - 1, k);
      var t := RangeCode(a, ts, tc, c.tmps, l + 3);
      var e := RangeCode(a, es, ec, t.tmps, t.labels);
      Block(c.code + [CondBr(c.val, thn, if ec > 0 then els else merge), Label(thn)]
            + t.code + [Br(merge)]
            + (if ec > 0 then [Label(els)] + e.code + [Br(merge)] else [])
            + [Label(merge)],
            e.tmps, e.labels)
    case While(cond, bs, bc) =>
      var head, body, end :=
        LabelName("while.cond", l + 1), LabelName("while.body", l + 2), LabelName("while.end", l + 3);
      var c := ExprCode(a, cond - 1, k);
      var b := RangeCode(a, bs, bc, c.tmps, l + 3);
      Block([Br(head), Label(head)] + c.code + [CondBr(c.val, body, end), Label(body)]
            + b.code + [Br(head), Label(end)],
            b.tmps, b.labels)
    case ExprStmt(expr) =>
      var e := ExprCode(a, expr - 1, k);
      Block(e.code, e.tmps, l)
    case _ => Block([], k, l)
  }

  /** The address of an assignment's target: code, name, temporary counter.
      Anything but an identifier is evaluated, and its value used as the address. */
  function PlaceCode(a: Arena, i: nat, k: nat): (seq<Instr>, string, nat)
    requires Acyclic(a) && i < |a.exprs|
  {
    if a.exprs[i].Ident? then ([], a.exprs[i].name, k) else
      var e := ExprCode(a, i, k);
      (e.code, if e.val.Local? then e.val.name else e.val.digits, e.tmps)
  }

  /** The `n` statements from index `s` on, whatever the source nesting was. */
  function RangeCode(a: Arena, s: nat, n: nat, k: nat, l: nat): Block
    requires Acyclic(a) && s + n <= |a.stmts|
    decreases s + n, n
  {
    if n == 0 then Block([], k, l) else
      var before := RangeCode(a, s, n - 1, k, l);
      var last := StmtCode(a, s + n - 1, before.tmps, before.labels);
      Block(before.code + last.code, last.tmps, last.labels)
  }

  /** The code of the second branch of a conditional; nothing if it has no statements. */
  function ElseCode(a: Arena, es: nat, ec: nat, els: string, merge: string, k: nat, l: nat): seq<Instr>
    requires Acyclic(a) && es + ec <= |a.stmts|
  {
    if ec > 0 then [Label(els)] + RangeCode(a, es, ec, k, l).code + [Br(merge)] else []
  }

  lemma IfLayout(a: Arena, i: nat, k: nat, l: nat)
    requires Acyclic(a) && i < |a.stmts| && a.stmts[i].If?
    ensures var If(cond, ts, tc, es, ec) := a.stmts[i];
            var thn, els, merge := LabelName("then", l + 1), LabelName("else", l + 2), LabelName("merge", l + 3);
            var c := ExprCode(a, cond - 1, k);
            var t := RangeCode(a, ts, tc, c.tmps, l + 3);
            var e := RangeCode(a, es, ec, t.tmps, t.labels);
            StmtCode(a, i, k, l) ==
            Block(c.code + [CondBr(c.val, thn, if ec > 0 then els else merge), Label(thn)] + t.code + [Br(merge)]
                  + ElseCode(a, es, ec, els, merge, t.tmps, t.labels) + [Label(merge)],
                  e.tmps, e.labels)
  {
    hide LabelName, ExprCode, RangeCode;
  }

  lemma AppendTwo<T>(w: seq<T>, x: seq<T>, y: seq<T>, z: seq<T>)
    ensures w + x + y + z == w + (x + y + z)
  {}

  lemma EmptyRange(a: Arena, s: nat, k: nat, l: nat)
    requires Acyclic(a) && s <= |a.stmts|
    ensures RangeCode(a, s, 0, k, l) == Block([], k, l)
  {}

  function ParamsCode(a: Arena, start: nat, n: nat): seq<Instr>
    requires start + n <= |a.params|
  {
    if n == 0 then [] else
      var x := a.params[start + n - 1].name;
      ParamsCode(a, start, n - 1) + [Alloca(x), Store(Local(ArgName(x)), x)]
  }

  function ArgNames(a: Arena, start: nat, n: nat): (names: seq<string>)
    requires start + n <= |a.params|
    ensures |names| == n
    ensures forall j :: 0 <= j < n ==> names[j] == ArgName(a.params[start + j].name)
  {
    if n == 0 then [] else ArgNames(a, start, n - 1) + [ArgName(a.params[start + n - 1].name)]
  }

  /** A whole function. Temporaries start again from zero, labels go on counting. */
  function FuncCode(a: Arena, f: nat, l: nat): Block
    requires Acyclic(a) && f < |a.funcs|
  {
    var d := a.funcs[f];
    var body := RangeCode(a, d.bodyStart, d.bodyCount, 0, l);
    Block([Define(d.name, ArgNames(a, d.paramStart, d.paramCount)), Label("entry")]
          + ParamsCode(a, d.paramStart, d.paramCount) + body.code + [Ret(Lit("0")), EndDefine],
          body.tmps, body.labels)
  }

  /** The first `n` functions, with the label counter running through. */
  function ModuleCode(a: Arena, n: nat): Block
    requires Acyclic(a) && n <= |a.funcs|
  {
    if n == 0 then Block([], 0, 0) else
      var before := ModuleCode(a, n - 1);
      var last := FuncCode(a, n - 1, before.labels);
      Block(before.code + last.code, last.tmps, last.labels)
  }

  /** Appending twice is appending once. */
  lemma Append(was: seq<Instr>, x: seq<Instr>, y: seq<Instr>)
    ensures (was + x) + y == was + (x + y)
  {}

  /** The emitter itself: a buffer that only grows and two counters. */
  class LlvmEmitter {
    var buffer: seq<Instr>
    var tmpCounter: nat
    var labelCounter: nat

    constructor ()
      ensures buffer == [] && tmpCounter == 0 && labelCounter == 0
    {
      buffer, tmpCounter, labelCounter := [], 0, 0;
    }

    static method IntToStr(val: nat) returns (s: string)
      ensures s == IntText(val)
    {
      if val == 0 {
        return "0";
      }
      var temp := val;
      s := "";
      while temp > 0
        invariant s + LowFirst(temp) == LowFirst(val)
      {
        var digit := temp % 10;
        s := s + [DigitChar(digit)];
        temp := temp / 10;
      }
    }

    method FreshTmp() returns (s: string)
      modifies this`tmpCounter
      ensures tmpCounter == old(tmpCounter) + 1 && s == TmpName(tmpCounter)
    {
      tmpCounter := tmpCounter + 1;
      s := "t";
      var digits := IntToStr(tmpCounter);
      s := s + digits;
    }

    method FreshLabel(prefix: string) returns (s: string)
      modifies this`labelCounter
      ensures labelCounter == old(labelCounter) + 1 && s == LabelName(prefix, labelCounter)
    {
      labelCounter := labelCounter + 1;
      s := prefix + ".";
      var digits := IntToStr(labelCounter);
      s := s + digits;
    }

    method EmitExpr(a: Arena, i: nat) returns (val: Operand)
      requires Acyclic(a) && i < |a.exprs|
      modifies this`buffer, this`tmpCounter
      ensures var e := ExprCode(a, i, old(tmpCounter));
              buffer == old(buffer) + e.code && val == e.val && tmpCounter == e.tmps
      decreases i, 1
    {
      match a.exprs[i] {
        case IntLit(n) =>
          var digits := IntToStr(n);
          return Lit(digits);
        case Ident(x) =>
          var tmp := FreshTmp();
          buffer := buffer + [Load(tmp, x)];
          return Local(tmp);
        case Binary(_, _, _) =>
          val := EmitBinary(a, i);
        case Call(_, _, _) =>
          val := EmitCall(a, i);
        case _ =>
          return Lit("0");
      }
    }

    method EmitBinary(a: Arena, i: nat) returns (val: Operand)
      requires Acyclic(a) && i < |a.exprs| && a.exprs[i].Binary?
      modifies this`buffer, this`tmpCounter
      ensures var e := ExprCode(a, i, old(tmpCounter));
              buffer == old(buffer) + e.code && val == e.val && tmpCounter == e.tmps
      decreases i, 0
    {
      hide IntText, TmpName, LabelName;
      var Binary(l, op, r) := a.exprs[i];
      ghost var le := ExprCode(a, l - 1, tmpCounter);
      ghost var re := ExprCode(a, r - 1, le.tmps);
      var lhs := EmitExpr(a, l - 1);
      var rhs := EmitExpr(a, r - 1);
      var tmp := FreshTmp();
      buffer := buffer + [Bin(tmp, OpcodeOf(op), lhs, rhs)];
      Append(old(buffer), le.code, re.code);
      Append(old(buffer), le.code + re.code, [Bin(tmp, OpcodeOf(op), lhs, rhs)]);
      return Local(tmp);
    }

    /** The code of every argument lands between the pieces of the call line. */
    method EmitCall(a: Arena, i: nat) returns (val: Operand)
      requires Acyclic(a) && i < |a.exprs| && a.exprs[i].Call?
      modifies this`buffer, this`tmpCounter
      ensures var e := ExprCode(a, i, old(tmpCounter));
              buffer == old(buffer) + e.code && val == e.val && tmpCounter == e.tmps
      decreases i, 0
    {
      hide IntText, TmpName, LabelName;
      var Call(callee, start, count) := a.exprs[i];
      var name := CalleeName(a, callee);
      var tmp := FreshTmp();
      var k := tmpCounter;
      buffer := buffer + [CallOpen(tmp, name)];
      ghost var line := buffer;
      var j := 0;
      while j < count
        invariant j <= count
        invariant buffer == line + ArgsCode(a, i, j, k).code && tmpCounter == ArgsCode(a, i, j, k).tmps
      {
        ghost var before := ArgsCode(a, i, j, k);
        ghost var code := ExprCode(a, a.argIndices[start + j] - 1, before.tmps).code;
        var arg := EmitExpr(a, a.argIndices[start + j] - 1);
        buffer := buffer + [CallArg(arg, j + 1 < count)];
        j := j + 1;
        Append(line, before.code, code);
        Append(line, before.code + code, [CallArg(arg, j < count)]);
      }
      buffer := buffer + [CallClose];
      Append(old(buffer), [CallOpen(tmp, name)], ArgsCode(a, i, count, k).code);
      Append(old(buffer), [CallOpen(tmp, name)] + ArgsCode(a, i, count, k).code, [CallClose]);
      return Local(tmp);
    }

    method EmitPlace(a: Arena, i: nat) returns (place: string)
      requires Acyclic(a) && i < |a.exprs|
      modifies this`buffer, this`tmpCounter
      ensures var p := PlaceCode(a, i, old(tmpCounter));
              buffer == old(buffer) + p.0 && place == p.1 && tmpCounter == p.2
    {
      if a.exprs[i].Ident? {
        return a.exprs[i].name;
      }
      var val := EmitExpr(a, i);
      return if val.Local? then val.name else val.digits;
    }

    method EmitStmt(a: Arena, i: nat)
      requires Acyclic(a) && i < |a.stmts|
      modifies this
      ensures var s := StmtCode(a, i, old(tmpCounter), old(labelCounter));
              buffer == old(buffer) + s.code && tmpCounter == s.tmps && labelCounter == s.labels
      decreases i + 1, 0, 1
    {
      hide IntText, TmpName, LabelName, ExprCode, ArgsCode, RangeCode;
      match a.stmts[i] {
        case Let(x, _, init) =>
          buffer := buffer + [Alloca(x)];
          if init > 0 {
            var val := EmitExpr(a, init - 1);
            buffer := buffer + [Store(val, x)];
          }
        case Assign(place, source) =>
          var val := EmitExpr(a, source - 1);
          var address := EmitPlace(a, place - 1);
          buffer := buffer + [Store(val, address)];
        case Return(value) =>
          if value > 0 {
            var val := EmitExpr(a, value - 1);
            buffer := buffer + [Ret(val)];
          } else {
            buffer := buffer + [Ret(Lit("0"))];
          }
        case If(_, _, _, _, _) =>
          EmitIf(a, i);
        case While(_, _, _) =>
          EmitWhile(a, i);
        case ExprStmt(expr) =>
          var _ := EmitExpr(a, expr - 1);
        case _ =>
      }
    }

    method EmitIf(a: Arena, i: nat)
      requires Acyclic(a) && i < |a.stmts| && a.stmts[i].If?
      modifies this
      ensures var s := StmtCode(a, i, old(tmpCounter), old(labelCounter));
              buffer == old(buffer) + s.code && tmpCounter == s.tmps && labelCounter == s.labels
      decreases i + 1, 0, 0
    {
      hide IntText, TmpName, LabelName, ExprCode, ArgsCode, RangeCode, StmtCode;
      IfLayout(a, i, tmpCounter, labelCounter);
      var If(c, ts, tc, es, ec) := a.stmts[i];
      ghost var was := buffer;
      ghost var x := ExprCode(a, c - 1, tmpCounter).code;
      var cond := EmitExpr(a, c - 1);
      var thn := FreshLabel("then");
      var els := FreshLabel("else");
      var merge := FreshLabel("merge");
      buffer := buffer + [CondBr(cond, thn, if ec > 0 then els else merge)];
      buffer := buffer + [Label(thn)];
      x := x + [CondBr(cond, thn, if ec > 0 then els else merge), Label(thn)];
      assert buffer == was + x;
      ghost var y := RangeCode(a, ts, tc, tmpCounter, labelCounter).code;
      EmitRange(a, ts, tc);
      buffer := buffer + [Br(merge)];
      AppendTwo(was, x, y, [Br(merge)]);
      x := x + y + [Br(merge)];
      ghost var z := ElseCode(a, es, ec, els, merge, tmpCounter, labelCounter);
      EmitElse(a, es, ec, els, merge);
      buffer := buffer + [Label(merge)];
      AppendTwo(was, x, z, [Label(merge)]);
    }

    /** The second branch, if it has statements. */
    method EmitElse(a: Arena, es: nat, ec: nat, els: string, merge: string)
      requires Acyclic(a) && es + ec <= |a.stmts|
      modifies this
      ensures buffer == old(buffer) + ElseCode(a, es, ec, els, merge, old(tmpCounter), old(labelCounter))
      ensures var e := RangeCode(a, es, ec, old(tmpCounter), old(labelCounter));
              tmpCounter == e.tmps && labelCounter == e.labels
      decreases es + ec, ec + 1, 0
    {
      hide RangeCode;
      if ec > 0 {
        buffer := buffer + [Label(els)];
        EmitRange(a, es, ec);
        buffer := buffer + [Br(merge)];
      } else {
        EmptyRange(a, es, tmpCounter, labelCounter);
      }
    }

    method EmitWhile(a: Arena, i: nat)
      requires Acyclic(a) && i < |a.stmts| && a.stmts[i].While?
      modifies this
      ensures var s := StmtCode(a, i, old(tmpCounter), old(labelCounter));
              buffer == old(buffer) + s.code && tmpCounter == s.tmps && labelCounter == s.labels
      decreases i + 1, 0, 0
    {
      hide IntText, TmpName, LabelName, ExprCode, ArgsCode, RangeCode;
      var While(c, bs, bc) := a.stmts[i];
      ghost var was := buffer;
      var head := FreshLabel("while.cond");
      var body := FreshLabel("while.body");
      var end := FreshLabel("while.end");
      buffer := buffer + [Br(head)];
      buffer := buffer + [Label(head)];
      ghost var x := ExprCode(a, c - 1, tmpCounter).code;
      var cond := EmitExpr(a, c - 1);
      buffer := buffer + [CondBr(cond, body, end)];
      buffer := buffer + [Label(body)];
      x := [Br(head), Label(head)] + x + [CondBr(cond, body, end), Label(body)];
      assert buffer == was + x;
      ghost var y := RangeCode(a, bs, bc, tmpCounter, labelCounter).code;
      EmitRange(a, bs, bc);
      buffer := buffer + [Br(head)];
      buffer := buffer + [Label(end)];
      assert buffer == was + (x + y + [Br(head), Label(end)]);
    }

    /** The counting loop around `EmitStmt` that every block is emitted by. */
    method EmitRange(a: Arena, s: nat, n: nat)
      requires Acyclic(a) && s + n <= |a.stmts|
      modifies this
      ensures var r := RangeCode(a, s, n, old(tmpCounter), old(labelCounter));
              buffer == old(buffer) + r.code && tmpCounter == r.tmps && labelCounter == r.labels
      decreases s + n, n
    {
      hide IntText, TmpName, LabelName;
      var j := 0;
      while j < n
        invariant j <= n
        invariant var r := RangeCode(a, s, j, old(tmpCounter), old(labelCounter));
                  buffer == old(buffer) + r.code && tmpCounter == r.tmps && labelCounter == r.labels
      {
        ghost var before := RangeCode(a, s, j, old(tmpCounter), old(labelCounter));
        ghost var last := StmtCode(a, s + j, before.tmps, before.labels);
        EmitStmt(a, s + j);
        j := j + 1;
        Append(old(buffer), before.code, last.code);
      }
    }

    method EmitFunc(a: Arena, f: nat)
      requires Acyclic(a) && f < |a.funcs|
      modifies this
      ensures var r := FuncCode(a, f, old(labelCounter));
              buffer == old(buffer) + r.code && tmpCounter == r.tmps && labelCounter == r.labels
    {
      hide IntText, TmpName, LabelName, ExprCode, ArgsCode, RangeCode;
      var d := a.funcs[f];
      tmpCounter := 0;
      var args: seq<string> := [];
      var p := 0;
      while p < d.paramCount
        invariant p <= d.paramCount && args == ArgNames(a, d.paramStart, p)
        invariant buffer == old(buffer) && tmpCounter == 0 && labelCounter == old(labelCounter)
      {
        args := args + [ArgName(a.params[d.paramStart + p].name)];
        p := p + 1;
      }
      buffer := buffer + [Define(d.name, args)];
      buffer := buffer + [Label("entry")];
      ghost var header := buffer;
      var ap := 0;
      while ap < d.paramCount
        invariant ap <= d.paramCount && buffer == header + ParamsCode(a, d.paramStart, ap)
        invariant tmpCounter == 0 && labelCounter == old(labelCounter)
      {
        var x := a.params[d.paramStart + ap].name;
        buffer := buffer + [Alloca(x)];
        buffer := buffer + [Store(Local(ArgName(x)), x)];
        Append(header, ParamsCode(a, d.paramStart, ap), [Alloca(x), Store(Local(ArgName(x)), x)]);
        ap := ap + 1;
      }
      ghost var params := ParamsCode(a, d.paramStart, d.paramCount);
      ghost var body := RangeCode(a, d.bodyStart, d.bodyCount, 0, labelCounter).code;
      EmitRange(a, d.bodyStart, d.bodyCount);
      buffer := buffer + [Ret(Lit("0"))];
      buffer := buffer + [EndDefine];
      assert buffer == old(buffer)
                       + ([Define(d.name, args), Label("entry")] + params + body + [Ret(Lit("0")), EndDefine]);
    }

    /** The emission loop of the driver. */
    method EmitModule(a: Arena)
      requires Acyclic(a) && buffer == [] && labelCounter == 0
      modifies this
      ensures buffer == ModuleCode(a, |a.funcs|).code
    {
      var i := 0;
      while i < |a.funcs|
        invariant i <= |a.funcs|
        invariant buffer == ModuleCode(a, i).code && labelCounter == ModuleCode(a, i).labels
      {
        EmitFunc(a, i);
        i := i + 1;
      }
    }
  }
}
