// The emitted instructions implement the named store in the bytes of the frame.
module Bytes {
  import opened Program
  import opened Integers
  import opened ArgBlock
  import opened FrameLayout
  import opened Refinement
  import opened Asm
  import opened Codegen
  import opened Named
  import opened Machine

  // A function being run: its code generation report, its frame below rbp, its
  // argument block somewhere above, and what memory holds above the frame.
  datatype Target = Target(main: Scope, report: Report, frameSize: nat, rbp: int, argsBase: nat, retSize: nat,
                           argSizes: seq<nat>, env: Env, outside: Mem)
  {
    function Addr(v: Variable): int { rbp + report.OffsetOf(v) }

    function Bottom(): int { rbp - frameSize }
  }

  ghost predicate TargetOk(t: Target) {
    && IsFrame(t.main, t.report.variables, t.frameSize)
    && (forall i :: 0 <= i < |t.argSizes| ==>
          i in t.report.argsMap && t.report.argsMap[i] == Slot(t.retSize, t.argSizes, i))
    && t.rbp <= t.argsBase < Pow256(8) && t.rbp % 16 == 0
  }

  predicate HoldsVar(t: Target, s: Store, m: Mem, v: Variable)
    requires v in s.vars
  {
    s.vars[v].Some? ==> |s.vars[v].value| == v.ty.size && Read(m, t.Addr(v), v.ty.size) == s.vars[v].value
  }

  // Above the frame, only the return slot is the function's to write.
  ghost predicate OutsideKept(t: Target, m: Mem) {
    forall a :: t.rbp <= a && !(t.argsBase <= a < t.argsBase + t.retSize) ==> m(a) == t.outside(a)
  }

  // Memory represents the store: every variable that has a value holds it at
  // its offset, the saved pointer leads to the arguments, and the floor of
  // their block holds what has been returned.
  ghost predicate Represents(t: Target, s: Store, m: Mem) {
    && (forall v :: v in s.vars ==> HoldsVar(t, s, m, v))
    && (STACK_RESERVE <= t.frameSize ==> Read(m, t.rbp - 8, 8) == Encode(t.argsBase, 8))
    && |s.args| == |t.argSizes|
    && (forall i :: 0 <= i < |s.args| ==>
          |s.args[i]| == t.argSizes[i] &&
            Read(m, t.argsBase + Slot(t.retSize, t.argSizes, i), t.argSizes[i]) == s.args[i])
    && s.retSize == t.retSize
    && (s.ret.Some? ==> |s.ret.value| == t.retSize && Read(m, t.argsBase, t.retSize) == s.ret.value)
    && OutsideKept(t, m)
  }

  // Between operations the stack pointer is at the bottom of the frame; other
  // registers and the flags hold whatever the operations before left there.
  ghost function Rel(t: Target): Relation<Store, Cpu> {
    (p: Path, s: Store, c: Cpu) => InScope(t.main, p, s) && Stands(t, s, c)
  }

  ghost predicate Stands(t: Target, s: Store, c: Cpu) { Represents(t, s, c.mem) && c.regs(Rsp) == t.Bottom() }

  // The operations as the emitted instructions do them to the processor.
  function OnCpu(t: Target): Interp<Cpu> {
    Interp(
      (op: Op, c: Cpu) => RunAsm(t.env, t.rbp, EmitOp(t.report, op), c),
      (e: Expr, c: Cpu) => AlAfter(RunAsm(t.env, t.rbp, EmitCond(t.report, e), c)),
      (v: Variable, c: Cpu) => RunAsm(t.env, t.rbp, EmitStore(t.report, v), c),
      (v: Variable, c: Cpu) => RunAsm(t.env, t.rbp, EmitDestroy(t.report, v), c).Or(c),
      (v: Variable, c: Cpu) => c,
      (p: Path, c: Cpu) => c)
  }

  function AlAfter(c: Option<Cpu>): Option<(bool, Cpu)> {
    match c case None => None case Some(c') => Some((Low(c'.regs(Rax), 1) != 0, c'))
  }

  lemma {:induction false} ExecOnCpu(t: Target, op: Op, c: Cpu)
    ensures OnCpu(t).exec(op, c) == RunAsm(t.env, t.rbp, EmitOp(t.report, op), c)
  {
  }

  lemma {:induction false} BottomAligned(t: Target)
    requires TargetOk(t)
    ensures t.Bottom() % 16 == 0
  {
    hide Offset, Declares;
    DifferenceAligned(t.rbp, t.frameSize);
  }

  lemma {:induction false} DifferenceAligned(a: int, b: int)
    requires a % 16 == 0 && b % 16 == 0
    ensures (a - b) % 16 == 0
  {
  }

  // ---------- Addresses ----------

  lemma {:induction false} AddrIs(t: Target, v: Variable)
    requires TargetOk(t) && DeclaredIn(t.main, v)
    ensures var p, i := v.site[..|v.site| - 1], v.site[|v.site| - 1];
            t.Addr(v) == t.rbp + Offset(t.main, p, i)
    ensures t.Bottom() <= t.Addr(v) && t.Addr(v) + v.ty.size <= t.rbp - 8
    ensures STACK_RESERVE <= t.frameSize
  {
    hide Declares, Offset;
    var p, i := v.site[..|v.site| - 1], v.site[|v.site| - 1];
    assert v.site == p + [i];
    BelowReserve(t.main, p, i);
  }

  lemma {:induction false} VisibleComparable(u: Path, v: Path, point: Path)
    requires Visible(u, point) && Visible(v, point) && u != v && |u| <= |v|
    ensures Visible(u, v) || Visible(v, u)
  {
    var k := |u| - 1;
    assert u[..k] == point[..k] && v[..|v| - 1] == point[..|v| - 1];
    assert v[..|v| - 1][..k] == point[..|v| - 1][..k] == point[..k];
    assert v[..k] == v[..|v| - 1][..k];
    if |u| == |v| {
      assert u == u[..k] + [u[k]] && v == v[..k] + [v[k]];
    } else {
      assert v[k] == v[..|v| - 1][k] == point[..|v| - 1][k] == point[k];
    }
  }

  // Two variables in scope at once share no byte.
  lemma {:induction false} ScopeDisjoint(t: Target, p: Path, s: Store, u: Variable, v: Variable)
    requires TargetOk(t) && InScope(t.main, p, s) && u in s.vars && v in s.vars && u != v
    ensures t.Addr(u) + u.ty.size <= t.Addr(v) || t.Addr(v) + v.ty.size <= t.Addr(u)
  {
    hide Declares, Offset, Visible, IsFrame;
    AddrIs(t, u);
    AddrIs(t, v);
    var pu, iu := u.site[..|u.site| - 1], u.site[|u.site| - 1];
    var pv, iv := v.site[..|v.site| - 1], v.site[|v.site| - 1];
    assert u.site == pu + [iu] && v.site == pv + [iv];
    if u.site == v.site {
      assert false;
    }
    if |u.site| <= |v.site| { VisibleComparable(u.site, v.site, p); }
    else { VisibleComparable(v.site, u.site, p); }
    if Visible(u.site, v.site) { FrameDisjoint(t.main, pu, iu, pv, iv); }
    else { FrameDisjoint(t.main, pv, iv, pu, iu); }
  }

  // Memory that differs below the frame only represents the same store.
  lemma {:induction false} Above(t: Target, p: Path, s: Store, m: Mem, m': Mem)
    requires TargetOk(t) && InScope(t.main, p, s) && Represents(t, s, m)
    requires forall a :: t.Bottom() <= a ==> m'(a) == m(a)
    ensures Represents(t, s, m')
  {
    hide DeclaredIn, TargetOk, Visible, Read, Encode, Slot, HoldsVar;
    ArgsAbove(t);
    forall v | v in s.vars
      ensures HoldsVar(t, s, m', v)
    {
      assert HoldsVar(t, s, m, v);
      HoldsAbove(t, s, m, m', v);
    }
    ReadSame(m, m', t.rbp - 8, if STACK_RESERVE <= t.frameSize then 8 else 0);
    forall i | 0 <= i < |s.args|
      ensures Read(m', t.argsBase + Slot(t.retSize, t.argSizes, i), t.argSizes[i]) == s.args[i]
    {
      SlotInBlock(t.retSize, t.argSizes, i);
      ReadSame(m, m', t.argsBase + Slot(t.retSize, t.argSizes, i), t.argSizes[i]);
    }
    ReadSame(m, m', t.argsBase, t.retSize);
  }

  lemma {:induction false} HoldsAbove(t: Target, s: Store, m: Mem, m': Mem, v: Variable)
    requires TargetOk(t) && v in s.vars && DeclaredIn(t.main, v) && HoldsVar(t, s, m, v)
    requires forall a :: t.Bottom() <= a ==> m'(a) == m(a)
    ensures HoldsVar(t, s, m', v)
  {
    hide DeclaredIn, TargetOk, Read;
    AddrIs(t, v);
    ReadSame(m, m', t.Addr(v), v.ty.size);
  }

  lemma {:induction false} ReadSame(m: Mem, m': Mem, a: int, n: nat)
    requires forall x :: a <= x < a + n ==> m'(x) == m(x)
    ensures Read(m', a, n) == Read(m, a, n)
  {
  }

  lemma {:induction false} ArgsAbove(t: Target)
    requires TargetOk(t)
    ensures t.rbp <= t.argsBase
  {
    hide IsFrame;
  }

  // Writing v's bytes, seen from a variable in scope.
  lemma {:induction false} PutHolds(t: Target, p: Path, s: Store, m: Mem, v: Variable, bs: seq<Byte>, u: Variable)
    requires TargetOk(t) && InScope(t.main, p, s) && Represents(t, s, m)
    requires Put(s, v, bs).Some? && u in s.vars
    ensures u in Put(s, v, bs).value.vars && HoldsVar(t, Put(s, v, bs).value, Write(m, t.Addr(v), bs), u)
  {
    hide DeclaredIn, TargetOk, Visible;
    if u == v {
      ReadWritten(m, t.Addr(v), bs);
    } else {
      assert HoldsVar(t, s, m, u);
      ScopeDisjoint(t, p, s, u, v);
      ReadElsewhere(m, t.Addr(v), bs, t.Addr(u), u.ty.size);
    }
  }

  // Writing a variable's bytes gives it its new value and changes no other
  // variable, nor the saved pointer, nor the argument block.
  lemma {:induction false} PutRefines(t: Target, p: Path, s: Store, m: Mem, v: Variable, bs: seq<Byte>)
    requires TargetOk(t) && InScope(t.main, p, s) && Represents(t, s, m)
    requires Put(s, v, bs).Some?
    ensures InScope(t.main, p, Put(s, v, bs).value)
    ensures Represents(t, Put(s, v, bs).value, Write(m, t.Addr(v), bs))
  {
    hide DeclaredIn, TargetOk, Visible, HoldsVar;
    var s', m' := Put(s, v, bs).value, Write(m, t.Addr(v), bs);
    AddrIs(t, v);
    ArgsAbove(t);
    forall u | u in s'.vars ensures HoldsVar(t, s', m', u) { PutHolds(t, p, s, m, v, bs, u); }
    ReadElsewhere(m, t.Addr(v), bs, t.rbp - 8, 8);
    forall i | 0 <= i < |s.args|
      ensures Read(m', t.argsBase + Slot(t.retSize, t.argSizes, i), t.argSizes[i]) == s.args[i]
    {
      SlotInBlock(t.retSize, t.argSizes, i);
      ReadElsewhere(m, t.Addr(v), bs, t.argsBase + Slot(t.retSize, t.argSizes, i), t.argSizes[i]);
    }
    ReadElsewhere(m, t.Addr(v), bs, t.argsBase, t.retSize);
  }

  // ---------- Instruction sequences ----------

  // What a copy keeps: the stack pointer, and r10 unless it calls out.
  predicate Keeps(ty: Type, c: Cpu, c': Cpu) {
    c'.regs(Rsp) == c.regs(Rsp) && (ty.primitive ==> c'.regs(R10) == c.regs(R10))
  }

  // What a copy puts at dst, given the bytes at src.
  function Transfer(env: Env, m: Mem, ty: Type, assigning: bool, dst: int, src: int): seq<Byte> {
    if ty.primitive then Read(m, src, ty.size)
    else if assigning then env.assign(ty, Read(m, dst, ty.size), Read(m, src, ty.size))
    else env.copy(ty, Read(m, src, ty.size))
  }

  lemma {:induction false} MoveBytes(m: Mem, src: int, w: nat, v: int)
    ensures Encode(Low(Merge(v, w, Decode(Read(m, src, w))), w), w) == Read(m, src, w)
  {
    var bs := Read(m, src, w);
    DecodeBound(bs);
    LowMerge(v, w, Decode(bs));
    EncodeDecode(bs);
  }

  lemma {:induction false} PrimitiveCopyRuns(t: Target, c: Cpu, ty: Type) returns (c': Cpu)
    requires RegisterWidth(ty.size)
    ensures RunAsm(t.env, t.rbp, [Load(ty.size, Rdx, Rcx), StoreReg(ty.size, Rbx, Rdx)], c) == Some(c')
    ensures c'.mem == Write(c.mem, c.regs(Rbx), Read(c.mem, c.regs(Rcx), ty.size))
    ensures c'.regs(Rsp) == c.regs(Rsp) && c'.regs(R10) == c.regs(R10)
  {
    hide RunAsm, Merge, Low, Encode, Decode, Read, Write;
    RunTwo(t.env, t.rbp, Load(ty.size, Rdx, Rcx), StoreReg(ty.size, Rbx, Rdx), c);
    MoveBytes(c.mem, c.regs(Rcx), ty.size, c.regs(Rdx));
    var c1 := Exec(t.env, t.rbp, Load(ty.size, Rdx, Rcx), c).value;
    c' := Exec(t.env, t.rbp, StoreReg(ty.size, Rbx, Rdx), c1).value;
  }

  lemma {:induction false} ObjectCopyRuns(t: Target, c: Cpu, ty: Type, assigning: bool) returns (c': Cpu)
    requires Aligned(c) && !ty.primitive
    requires |Transfer(t.env, c.mem, ty, assigning, c.regs(Rbx), c.regs(Rcx))| == ty.size
    ensures RunAsm(t.env, t.rbp, [MovReg(Rdi, Rbx), MovReg(Rsi, Rcx)] + [CallCopy(ty, assigning)], c) == Some(c')
    ensures c'.mem == Write(c.mem, c.regs(Rbx), Transfer(t.env, c.mem, ty, assigning, c.regs(Rbx), c.regs(Rcx))) &&
            Keeps(ty, c, c')
  {
    hide RunAsm, Read, Write;
    RunConcat(t.env, t.rbp, [MovReg(Rdi, Rbx), MovReg(Rsi, Rcx)], [CallCopy(ty, assigning)], c);
    RunTwo(t.env, t.rbp, MovReg(Rdi, Rbx), MovReg(Rsi, Rcx), c);
    var c1 := Exec(t.env, t.rbp, MovReg(Rdi, Rbx), c).value;
    var c2 := Exec(t.env, t.rbp, MovReg(Rsi, Rcx), c1).value;
    RunOne(t.env, t.rbp, CallCopy(ty, assigning), c2);
    c' := Exec(t.env, t.rbp, CallCopy(ty, assigning), c2).value;
  }

  lemma {:induction false} VarCopyRuns(t: Target, c: Cpu, ty: Type, assigning: bool) returns (c': Cpu)
    requires Movable(ty) && (Aligned(c) || ty.primitive)
    requires |Transfer(t.env, c.mem, ty, assigning, c.regs(Rbx), c.regs(Rcx))| == ty.size
    ensures RunAsm(t.env, t.rbp, VarCopy(ty, assigning), c) == Some(c')
    ensures c'.mem == Write(c.mem, c.regs(Rbx), Transfer(t.env, c.mem, ty, assigning, c.regs(Rbx), c.regs(Rcx)))
    ensures Keeps(ty, c, c')
  {
    hide RunAsm, Read, Write, Aligned;
    if ty.primitive { c' := PrimitiveCopyRuns(t, c, ty); } else { c' := ObjectCopyRuns(t, c, ty, assigning); }
  }

  // An operand's bytes, as code reads them.
  predicate OperandIs(t: Target, m: Mem, x: Operand, w: nat, bs: seq<Byte>) {
    |bs| == w &&
    match x case Imm(bytes) => bytes == bs case Var(v) => Read(m, t.Addr(v), w) == bs
  }

  lemma {:induction false} OperandRuns(t: Target, c: Cpu, x: Operand, w: nat, dst: Reg, bs: seq<Byte>) returns (c': Cpu)
    requires OperandIs(t, c.mem, x, w, bs) && dst != R10 && RegisterWidth(w)
    ensures RunAsm(t.env, t.rbp, LoadOperand(t.report, w, dst, x), c) == Some(c')
    ensures c'.mem == c.mem && Low(c'.regs(dst), w) == Decode(bs)
    ensures forall r :: r != dst && r != R10 ==> c'.regs(r) == c.regs(r)
  {
    hide RunAsm, Merge, Low, Encode, Decode, Read, Write;
    DecodeBound(bs);
    LowMerge(c.regs(dst), w, Decode(bs));
    match x {
      case Imm(bytes) =>
        RunOne(t.env, t.rbp, MovImm(w, dst, bytes), c);
        c' := Exec(t.env, t.rbp, MovImm(w, dst, bytes), c).value;
      case Var(v) =>
        RunTwo(t.env, t.rbp, Lea(R10, t.report.OffsetOf(v)), Load(w, dst, R10), c);
        var c1 := Exec(t.env, t.rbp, Lea(R10, t.report.OffsetOf(v)), c).value;
        c' := Exec(t.env, t.rbp, Load(w, dst, R10), c1).value;
    }
  }

  lemma {:induction false} OperandsRun(t: Target, c: Cpu, e: Expr, l: seq<Byte>, r: seq<Byte>) returns (c': Cpu)
    requires OperandIs(t, c.mem, e.left, e.ty.size, l) && OperandIs(t, c.mem, e.right, e.ty.size, r)
    requires SupportedExpr(e)
    ensures RunAsm(t.env, t.rbp, Operands(t.report, e), c) == Some(c')
    ensures c'.mem == c.mem && c'.regs(Rsp) == c.regs(Rsp)
    ensures Low(c'.regs(Rax), e.ty.size) == Decode(l) && Low(c'.regs(Rbx), e.ty.size) == Decode(r)
  {
    hide RunAsm, Low, Decode, LoadOperand, OperandIs;
    var c1 := OperandRuns(t, c, e.left, e.ty.size, Rax, l);
    c' := OperandRuns(t, c1, e.right, e.ty.size, Rbx, r);
    RunConcat(t.env, t.rbp, LoadOperand(t.report, e.ty.size, Rax, e.left),
              LoadOperand(t.report, e.ty.size, Rbx, e.right), c);
  }

  lemma {:induction false} WrapBound(n: int, w: nat)
    ensures Wrap(n, w) < Pow256(w)
  {
  }

  // Comparisons leave 0 or 1 in al, in agreement with the operands' values.
  lemma {:induction false} ComparisonRuns(t: Target, c: Cpu, e: Expr, a: nat, b: nat) returns (c': Cpu)
    requires SupportedExpr(e) && IsComparison(e.op) && a < Pow256(e.ty.size) && b < Pow256(e.ty.size)
    requires Low(c.regs(Rax), e.ty.size) == a && Low(c.regs(Rbx), e.ty.size) == b
    ensures RunAsm(t.env, t.rbp, Compute(e), c) == Some(c')
    ensures c'.mem == c.mem && c'.regs(Rcx) == c.regs(Rcx) && c'.regs(Rsp) == c.regs(Rsp)
    ensures Low(c'.regs(Rax), 1) ==
            if Compare(e.op, Value(a, e.ty.size, e.ty.signed), Value(b, e.ty.size, e.ty.signed)) then 1 else 0
  {
    hide RunAsm, Low, Merge, Cmp, Met, Compare, ConditionFor;
    var w, cc := e.ty.size, ConditionFor(e.op, e.ty.signed);
    RunTwo(t.env, t.rbp, CmpAB(w), SetAl(cc), c);
    var c1 := Exec(t.env, t.rbp, CmpAB(w), c).value;
    c' := Exec(t.env, t.rbp, SetAl(cc), c1).value;
    ComparisonCorrect(e.op, e.ty.signed, a, b, w);
    LowMerge(c1.regs(Rax), 1, if Met(cc, c1.flags) then 1 else 0);
  }

  // Arithmetic leaves the wrapped result in the low bytes of rax.
  lemma {:induction false} ArithmeticRuns(t: Target, c: Cpu, e: Expr, a: nat, b: nat) returns (c': Cpu)
    requires SupportedExpr(e) && !IsComparison(e.op) && a < Pow256(e.ty.size) && b < Pow256(e.ty.size)
    requires Low(c.regs(Rax), e.ty.size) == a && Low(c.regs(Rbx), e.ty.size) == b
    requires var x, y := Value(a, e.ty.size, e.ty.signed), Value(b, e.ty.size, e.ty.signed);
             Evaluate(e.op, x, y, e.ty.size).Some?
    ensures RunAsm(t.env, t.rbp, Compute(e), c) == Some(c')
    ensures c'.mem == c.mem && c'.regs(Rcx) == c.regs(Rcx) && c'.regs(Rsp) == c.regs(Rsp)
    ensures var x, y := Value(a, e.ty.size, e.ty.signed), Value(b, e.ty.size, e.ty.signed);
            Evaluate(e.op, x, y, e.ty.size) == Some(Encode(Low(c'.regs(Rax), e.ty.size), e.ty.size))
  {
    hide RunAsm, Low, Merge, Encode, Wrap, Pow256, Half, TruncDiv, TruncMod, Divide;
    var w, signed := e.ty.size, e.ty.signed;
    var x, y := Value(a, w, signed), Value(b, w, signed);
    if e.op == Div || e.op == Mod {
      c' := DivisionRuns(t, c, e, a, b);
    } else {
      RunOne(t.env, t.rbp, Alu(e.op, w), c);
      c' := Exec(t.env, t.rbp, Alu(e.op, w), c).value;
      ArithmeticWraps(e.op, a, b, w, signed);
      WrapBound(Arithmetic(e.op, a, b), w);
      LowMerge(c.regs(Rax), w, Wrap(Arithmetic(e.op, a, b), w));
    }
  }

  lemma {:induction false} LowZero(w: nat)
    ensures Low(0, w) == 0
  {
    hide Pow256;
    WrapSmall(0, w);
  }

  lemma {:induction false} DivisionRuns(t: Target, c: Cpu, e: Expr, a: nat, b: nat) returns (c': Cpu)
    requires SupportedExpr(e) && (e.op == Div || e.op == Mod)
    requires a < Pow256(e.ty.size) && b < Pow256(e.ty.size)
    requires Low(c.regs(Rax), e.ty.size) == a && Low(c.regs(Rbx), e.ty.size) == b
    requires e.ty.size > 1 && Value(b, e.ty.size, e.ty.signed) != 0 && Value(a, e.ty.size, e.ty.signed) >= 0
    ensures RunAsm(t.env, t.rbp, Compute(e), c) == Some(c')
    ensures c'.mem == c.mem && c'.regs(Rcx) == c.regs(Rcx) && c'.regs(Rsp) == c.regs(Rsp)
    ensures var x, y := Value(a, e.ty.size, e.ty.signed), Value(b, e.ty.size, e.ty.signed);
            Low(c'.regs(Rax), e.ty.size) == Wrap(if e.op == Div then TruncDiv(x, y) else TruncMod(x, y), e.ty.size)
  {
    hide RunAsm, Low, Merge, Encode, Wrap, Pow256, Half, TruncDiv, TruncMod, Divide, Value;
    var w, signed := e.ty.size, e.ty.signed;
    var c1 := Exec(t.env, t.rbp, ZeroRdx, c).value;
    var c2 := DivRuns(t, c1, w, signed, a, b);
    RunTwo(t.env, t.rbp, ZeroRdx, DivRbx(w, signed), c);
    c' := c2;
    if e.op == Mod { c' := RemainderMoves(t, c, c2, [ZeroRdx, DivRbx(w, signed)]); }
  }

  // The division itself: the quotient to rax, the remainder to rdx.
  lemma {:induction false} DivRuns(t: Target, c: Cpu, w: nat, signed: bool, a: nat, b: nat) returns (c': Cpu)
    requires RegisterWidth(w) && w > 1 && a < Pow256(w) && b < Pow256(w)
    requires Low(c.regs(Rax), w) == a && Low(c.regs(Rbx), w) == b && c.regs(Rdx) == 0
    requires Value(b, w, signed) != 0 && Value(a, w, signed) >= 0
    ensures Exec(t.env, t.rbp, DivRbx(w, signed), c) == Some(c')
    ensures c'.mem == c.mem && c'.regs(Rcx) == c.regs(Rcx) && c'.regs(Rsp) == c.regs(Rsp)
    ensures var x, y := Value(a, w, signed), Value(b, w, signed);
            && Low(c'.regs(Rax), w) == Wrap(TruncDiv(x, y), w) && Low(c'.regs(Rdx), w) == Wrap(TruncMod(x, y), w)
  {
    hide Low, Merge, Encode, Wrap, Pow256, Half, TruncDiv, TruncMod, Divide;
    var x, y := Value(a, w, signed), Value(b, w, signed);
    var q, m := TruncDiv(x, y), TruncMod(x, y);
    DivisionExact(a, b, w, signed);
    LowZero(w);
    WrapBound(q, w);
    WrapBound(m, w);
    c' := Exec(t.env, t.rbp, DivRbx(w, signed), c).value;
    LowMerge(c.regs(Rax), w, Wrap(q, w));
    LowMerge(c.regs(Rdx), w, Wrap(m, w));
  }

  lemma {:induction false} RemainderMoves(t: Target, c: Cpu, c1: Cpu, code: seq<Instruction>) returns (c': Cpu)
    requires RunAsm(t.env, t.rbp, code, c) == Some(c1)
    ensures RunAsm(t.env, t.rbp, code + [MovReg(Rax, Rdx)], c) == Some(c')
    ensures c' == c1.With(Rax, c1.regs(Rdx))
  {
    hide RunAsm;
    RunConcat(t.env, t.rbp, code, [MovReg(Rax, Rdx)], c);
    RunOne(t.env, t.rbp, MovReg(Rax, Rdx), c1);
    c' := Exec(t.env, t.rbp, MovReg(Rax, Rdx), c1).value;
  }

  // ---------- Operations ----------

  lemma {:induction false} VarIs(t: Target, p: Path, s: Store, m: Mem, v: Variable)
    requires TargetOk(t) && InScope(t.main, p, s) && Represents(t, s, m) && Get(s, v).Some?
    ensures |Get(s, v).value| == v.ty.size && Read(m, t.Addr(v), v.ty.size) == Get(s, v).value
  {
    hide IsFrame, DeclaredIn, Visible;
    assert HoldsVar(t, s, m, v);
  }

  lemma {:induction false} OperandIsValue(t: Target, p: Path, s: Store, m: Mem, x: Operand, w: nat)
    requires TargetOk(t) && InScope(t.main, p, s) && Represents(t, s, m)
    requires OperandValue(s, x).Some? && |OperandValue(s, x).value| == w
    ensures OperandIs(t, m, x, w, OperandValue(s, x).value)
  {
    hide TargetOk, InScope, Represents;
    if x.Var? { VarIs(t, p, s, m, x.v); }
  }

  // The operands of an expression that has a value, in rax and rbx.
  lemma {:induction false} ExprOperands(t: Target, p: Path, s: Store, c: Cpu, e: Expr) returns (c': Cpu, a: nat, b: nat)
    requires TargetOk(t) && InScope(t.main, p, s) && Represents(t, s, c.mem) && ExprValue(s, e).Some?
    ensures RunAsm(t.env, t.rbp, Operands(t.report, e), c) == Some(c')
    ensures c'.mem == c.mem && c'.regs(Rsp) == c.regs(Rsp)
    ensures SupportedExpr(e) && a < Pow256(e.ty.size) && b < Pow256(e.ty.size)
    ensures Low(c'.regs(Rax), e.ty.size) == a && Low(c'.regs(Rbx), e.ty.size) == b
    ensures ExprValue(s, e) ==
            Evaluate(e.op, Value(a, e.ty.size, e.ty.signed), Value(b, e.ty.size, e.ty.signed), e.ty.size)
  {
    hide TargetOk, InScope, Represents, RunAsm, Low, Decode, Operands, Pow256, Half, Evaluate;
    var w := e.ty.size;
    var l, r := OperandValue(s, e.left).value, OperandValue(s, e.right).value;
    OperandIsValue(t, p, s, c.mem, e.left, w);
    OperandIsValue(t, p, s, c.mem, e.right, w);
    c' := OperandsRun(t, c, e, l, r);
    DecodeBound(l);
    DecodeBound(r);
    a, b := Decode(l), Decode(r);
  }

  lemma {:induction false} ComputeRuns(t: Target, c: Cpu, e: Expr, a: nat, b: nat) returns (c': Cpu)
    requires SupportedExpr(e) && a < Pow256(e.ty.size) && b < Pow256(e.ty.size)
    requires Low(c.regs(Rax), e.ty.size) == a && Low(c.regs(Rbx), e.ty.size) == b
    requires var x, y := Value(a, e.ty.size, e.ty.signed), Value(b, e.ty.size, e.ty.signed);
             Evaluate(e.op, x, y, e.ty.size).Some?
    ensures RunAsm(t.env, t.rbp, Compute(e), c) == Some(c')
    ensures c'.mem == c.mem && c'.regs(Rcx) == c.regs(Rcx) && c'.regs(Rsp) == c.regs(Rsp)
    ensures var x, y := Value(a, e.ty.size, e.ty.signed), Value(b, e.ty.size, e.ty.signed);
            Evaluate(e.op, x, y, e.ty.size) == Some(Encode(Low(c'.regs(Rax), ResultSize(e)), ResultSize(e)))
  {
    hide RunAsm, Low, Pow256, Half, Compute;
    if IsComparison(e.op) {
      c' := ComparisonRuns(t, c, e, a, b);
      var n := Low(c'.regs(Rax), 1);
      assert Encode(n, 1) == [n];
    } else {
      c' := ArithmeticRuns(t, c, e, a, b);
    }
  }

  // The effect of an operation: v's bytes are bs, nothing else has changed.
  ghost predicate Wrote(t: Target, c: Cpu, code: seq<Instruction>, v: Variable, bs: seq<Byte>, c': Cpu) {
    && RunAsm(t.env, t.rbp, code, c) == Some(c')
    && c'.mem == Write(c.mem, t.Addr(v), bs)
    && c'.regs(Rsp) == c.regs(Rsp)
  }

  lemma {:induction false} CopyExpr(t: Target, p: Path, s: Store, c: Cpu, v: Variable, e: Expr, assigning: bool)
    returns (c': Cpu)
    requires TargetOk(t) && InScope(t.main, p, s) && Represents(t, s, c.mem)
    requires ExprValue(s, e).Some?
    ensures Wrote(t, c, CopyFrom(t.report, v, FromExpr(e), assigning), v, ExprValue(s, e).value, c')
  {
    hide TargetOk, InScope, Represents, RunAsm, Low, Compute, Operands, Pow256, Half, Evaluate, ExprValue;
    hide Encode, Write;
    var w := ResultSize(e);
    var c1, a, b := ExprOperands(t, p, s, c, e);
    var lea, store := Lea(Rcx, t.report.OffsetOf(v)), StoreReg(w, Rcx, Rax);
    var c2 := Exec(t.env, t.rbp, lea, c1).value;
    var c3 := ComputeRuns(t, c2, e, a, b);
    c' := Exec(t.env, t.rbp, store, c3).value;
    RunOne(t.env, t.rbp, store, c3);
    RunConcat(t.env, t.rbp, Compute(e), [store], c2);
    RunOne(t.env, t.rbp, lea, c1);
    RunConcat(t.env, t.rbp, [lea], Compute(e) + [store], c1);
    RunConcat(t.env, t.rbp, Operands(t.report, e), [lea] + (Compute(e) + [store]), c);
  }

  lemma {:induction false} CopyImm(t: Target, c: Cpu, v: Variable, bytes: seq<Byte>, assigning: bool) returns (c': Cpu)
    requires |bytes| == v.ty.size && v.ty.primitive && Movable(v.ty)
    ensures Wrote(t, c, CopyFrom(t.report, v, FromImm(bytes), assigning), v, bytes, c')
  {
    hide RunAsm, Low, Merge, Encode, Decode, Write;
    var w := v.ty.size;
    var lea, mov, store := Lea(Rdi, t.report.OffsetOf(v)), MovImm(w, Rcx, bytes), StoreReg(w, Rdi, Rcx);
    DecodeBound(bytes);
    EncodeDecode(bytes);
    LowMerge(c.regs(Rcx), w, Decode(bytes));
    RunTwo(t.env, t.rbp, lea, mov, c);
    var c1 := Exec(t.env, t.rbp, lea, c).value;
    var c2 := Exec(t.env, t.rbp, mov, c1).value;
    RunOne(t.env, t.rbp, store, c2);
    RunConcat(t.env, t.rbp, [lea, mov], [store], c);
    c' := Exec(t.env, t.rbp, store, c2).value;
  }

  // What a copy into v yields when the value at the source address is known.
  lemma {:induction false} TransferIs(t: Target, p: Path, s: Store, m: Mem, v: Variable, value: seq<Byte>, src: int,
                                      assigning: bool)
    requires TargetOk(t) && InScope(t.main, p, s) && Represents(t, s, m)
    requires Read(m, src, v.ty.size) == value && Copied(t.env, s, v, Some(value), assigning).Some?
    ensures Transfer(t.env, m, v.ty, assigning, t.Addr(v), src) == Copied(t.env, s, v, Some(value), assigning).value
  {
    hide TargetOk, InScope, Represents;
    if !v.ty.primitive && assigning { VarIs(t, p, s, m, v); }
  }

  lemma {:induction false} CopyVar(t: Target, p: Path, s: Store, c: Cpu, v: Variable, u: Variable, assigning: bool)
    returns (c': Cpu)
    requires Aligned(c) && TargetOk(t) && InScope(t.main, p, s) && Represents(t, s, c.mem)
    requires Movable(v.ty) && u.ty == v.ty && Get(s, u).Some? && Copied(t.env, s, v, Get(s, u), assigning).Some?
    requires |Copied(t.env, s, v, Get(s, u), assigning).value| == v.ty.size
    ensures Wrote(t, c, CopyFrom(t.report, v, FromVar(u), assigning), v,
                  Copied(t.env, s, v, Get(s, u), assigning).value, c')
  {
    hide TargetOk, InScope, Represents, RunAsm, Write, VarCopy, Transfer, Copied;
    var lea, lea' := Lea(Rbx, t.report.OffsetOf(v)), Lea(Rcx, t.report.OffsetOf(u));
    VarIs(t, p, s, c.mem, u);
    TransferIs(t, p, s, c.mem, v, Get(s, u).value, t.Addr(u), assigning);
    RunTwo(t.env, t.rbp, lea, lea', c);
    var c1 := Exec(t.env, t.rbp, lea, c).value;
    var c2 := Exec(t.env, t.rbp, lea', c1).value;
    c' := VarCopyRuns(t, c2, v.ty, assigning);
    RunConcat(t.env, t.rbp, [lea, lea'], VarCopy(v.ty, assigning), c);
  }

  lemma {:induction false} SavedPointer(t: Target, s: Store, m: Mem)
    requires TargetOk(t) && Represents(t, s, m) && STACK_RESERVE <= t.frameSize
    ensures Decode(Read(m, t.rbp - 8, 8)) == t.argsBase
  {
    hide IsFrame, Pow256, Encode, Decode;
    DecodeEncode(t.argsBase, 8);
  }

  lemma {:induction false} ArgIs(t: Target, s: Store, m: Mem, i: nat)
    requires TargetOk(t) && Represents(t, s, m) && i < |s.args|
    ensures Read(m, t.argsBase + t.report.ArgAt(i), |s.args[i]|) == s.args[i]
  {
    hide IsFrame;
  }

  lemma {:induction false} CopyArg(t: Target, p: Path, s: Store, c: Cpu, v: Variable, i: nat, assigning: bool)
    returns (c': Cpu)
    requires Aligned(c) && TargetOk(t) && InScope(t.main, p, s) && Represents(t, s, c.mem) && v in s.vars
    requires Movable(v.ty) && i < |s.args| && |s.args[i]| == v.ty.size
    requires Copied(t.env, s, v, Some(s.args[i]), assigning).Some?
    requires |Copied(t.env, s, v, Some(s.args[i]), assigning).value| == v.ty.size
    ensures Wrote(t, c, CopyFrom(t.report, v, FromArg(i), assigning), v,
                  Copied(t.env, s, v, Some(s.args[i]), assigning).value, c')
  {
    hide TargetOk, Represents, RunAsm, Write, VarCopy, Transfer, Copied, Decode, Read, DeclaredIn, Visible;
    var r := t.report;
    var load, lea, mov, add := LoadSlot(R10, -8), Lea(Rbx, r.OffsetOf(v)), MovReg(Rcx, R10), AddImm(Rcx, r.ArgAt(i));
    AddrIs(t, v);
    SavedPointer(t, s, c.mem);
    ArgIs(t, s, c.mem, i);
    TransferIs(t, p, s, c.mem, v, s.args[i], t.argsBase + r.ArgAt(i), assigning);
    RunTwo(t.env, t.rbp, load, lea, c);
    var c1 := Exec(t.env, t.rbp, load, c).value;
    var c2 := Exec(t.env, t.rbp, lea, c1).value;
    RunTwo(t.env, t.rbp, mov, add, c2);
    var c3 := Exec(t.env, t.rbp, mov, c2).value;
    var c4 := Exec(t.env, t.rbp, add, c3).value;
    c' := VarCopyRuns(t, c4, v.ty, assigning);
    RunConcat(t.env, t.rbp, [mov, add], VarCopy(v.ty, assigning), c2);
    RunConcat(t.env, t.rbp, [load, lea], [mov, add] + VarCopy(v.ty, assigning), c);
  }

  lemma {:induction false} CopyRuns(t: Target, p: Path, s: Store, c: Cpu, v: Variable, src: Source, assigning: bool)
    returns (c': Cpu)
    requires Aligned(c) && TargetOk(t) && InScope(t.main, p, s) && Represents(t, s, c.mem)
    requires SourceValue(t.env, s, v, src, assigning).Some? && (src.FromExpr? || Movable(v.ty))
    requires Put(s, v, SourceValue(t.env, s, v, src, assigning).value).Some?
    ensures Wrote(t, c, CopyFrom(t.report, v, src, assigning), v, SourceValue(t.env, s, v, src, assigning).value, c')
  {
    hide TargetOk, InScope, Represents, Wrote, CopyFrom, ExprValue;
    match src {
      case FromImm(bytes) => c' := CopyImm(t, c, v, bytes, assigning);
      case FromArg(i) => c' := CopyArg(t, p, s, c, v, i, assigning);
      case FromVar(u) => c' := CopyVar(t, p, s, c, v, u, assigning);
      case FromExpr(e) => c' := CopyExpr(t, p, s, c, v, e, assigning);
    }
  }

  lemma {:induction false} ConstructRuns(t: Target, c: Cpu, v: Variable) returns (c': Cpu)
    requires Aligned(c) && |t.env.construct(v.ty)| == v.ty.size
    ensures Wrote(t, c, EmitOp(t.report, Construct(v)), v, t.env.construct(v.ty), c')
  {
    hide RunAsm, Write;
    var lea, call := Lea(Rdi, t.report.OffsetOf(v)), CallConstruct(v.ty);
    RunTwo(t.env, t.rbp, lea, call, c);
    c' := Exec(t.env, t.rbp, call, Exec(t.env, t.rbp, lea, c).value).value;
  }

  lemma {:induction false} ConvertRuns(t: Target, p: Path, s: Store, c: Cpu, from: Variable, to: Variable,
                                       converter: nat) returns (c': Cpu)
    requires Aligned(c) && TargetOk(t) && InScope(t.main, p, s) && Represents(t, s, c.mem) && Get(s, from).Some?
    requires |t.env.convert(converter, Get(s, from).value)| == to.ty.size
    ensures Wrote(t, c, EmitOp(t.report, Op.Convert(from, to, converter)), to,
                  t.env.convert(converter, Get(s, from).value), c')
  {
    hide TargetOk, InScope, Represents, RunAsm, Write, Read;
    VarIs(t, p, s, c.mem, from);
    var lea, lea' := Lea(Rdi, t.report.OffsetOf(from)), Lea(Rsi, t.report.OffsetOf(to));
    var call := CallConvert(converter, from.ty.size, to.ty.size);
    RunTwo(t.env, t.rbp, lea, lea', c);
    var c1 := Exec(t.env, t.rbp, lea, c).value;
    var c2 := Exec(t.env, t.rbp, lea', c1).value;
    RunOne(t.env, t.rbp, call, c2);
    RunConcat(t.env, t.rbp, [lea, lea'], [call], c);
    c' := Exec(t.env, t.rbp, call, c2).value;
  }
}
