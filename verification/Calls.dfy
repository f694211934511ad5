// Calls made by compiled code: the argument block below the frame, and the
// result copied out of it.
module Calls {
  import opened Program
  import opened ArgBlock
  import opened Asm
  import opened Codegen
  import opened Named
  import opened Bytes

  ghost predicate SameAbove(t: Target, m: Mem, m': Mem) {
    forall a :: t.Bottom() <= a ==> m'(a) == m(a)
  }

  lemma {:induction false} ArgumentsAt(s: Store, args: seq<Operand>, vs: seq<seq<Byte>>)
    ensures ArgumentValues(s, args) == Some(vs) <==>
            |vs| == |args| && forall i :: 0 <= i < |args| ==> ArgumentValue(s, args[i]) == Some(vs[i])
  {
    if args != [] {
      var n := |args| - 1;
      if vs != [] {
        ArgumentsAt(s, args[..n], vs[..|vs| - 1]);
        assert vs == vs[..|vs| - 1] + [vs[|vs| - 1]];
      }
      if ArgumentValues(s, args[..n]).Some? {
        ArgumentsAt(s, args[..n], ArgumentValues(s, args[..n]).value);
      }
    }
  }

  predicate Placed(t: Target, m: Mem, sizes: seq<nat>, vs: seq<seq<Byte>>, i: nat)
    requires i < |sizes| == |vs|
  {
    Read(m, t.Bottom() - Prefix(sizes, i + 1), sizes[i]) == vs[i]
  }

  // The first k arguments are below the frame, and r10 below them.
  ghost predicate Pushed(t: Target, c: Cpu, sizes: seq<nat>, vs: seq<seq<Byte>>, k: nat, c': Cpu)
    requires k <= |sizes| == |vs|
  {
    && c'.regs(R10) == t.Bottom() - Prefix(sizes, k)
    && c'.regs(Rsp) == c.regs(Rsp)
    && SameAbove(t, c.mem, c'.mem)
    && (forall i: nat :: i < k ==> Placed(t, c'.mem, sizes, vs, i))
  }

  // One argument: its bytes go right below r10.
  ghost predicate PushedOn(t: Target, c: Cpu, x: Operand, bs: seq<Byte>, c': Cpu) {
    && RunAsm(t.env, t.rbp, EmitArgument(t.report, x), c) == Some(c')
    && c'.mem == Write(c.mem, c.regs(R10) - |bs|, bs)
    && c'.regs(R10) == c.regs(R10) - |bs| && c'.regs(Rsp) == c.regs(Rsp)
  }

  lemma {:induction false} PushImmRuns(t: Target, c: Cpu, bytes: seq<Byte>) returns (c': Cpu)
    requires RegisterWidth(|bytes|)
    ensures PushedOn(t, c, Imm(bytes), bytes, c')
  {
    hide RunAsm, Write, Merge, Low, Encode, Decode;
    var w := |bytes|;
    var sub, mov, imm, store := SubImm(R10, w), MovReg(Rdi, R10), MovImm(w, Rcx, bytes), StoreReg(w, Rdi, Rcx);
    DecodeBound(bytes);
    EncodeDecode(bytes);
    RunTwo(t.env, t.rbp, sub, mov, c);
    var c2 := Exec(t.env, t.rbp, mov, Exec(t.env, t.rbp, sub, c).value).value;
    LowMerge(c2.regs(Rcx), w, Decode(bytes));
    RunTwo(t.env, t.rbp, imm, store, c2);
    c' := Exec(t.env, t.rbp, store, Exec(t.env, t.rbp, imm, c2).value).value;
    RunConcat(t.env, t.rbp, [sub, mov], [imm, store], c);
  }

  lemma {:induction false} PushVarRuns(t: Target, c: Cpu, v: Variable, bs: seq<Byte>) returns (c': Cpu)
    requires v.ty.primitive && Movable(v.ty) && |bs| == v.ty.size && Read(c.mem, t.Addr(v), v.ty.size) == bs
    ensures PushedOn(t, c, Var(v), bs, c')
  {
    hide RunAsm, Write, VarCopy, Read;
    var sub, mov, lea := SubImm(R10, v.ty.size), MovReg(Rbx, R10), Lea(Rcx, t.report.OffsetOf(v));
    RunTwo(t.env, t.rbp, sub, mov, c);
    var c2 := Exec(t.env, t.rbp, mov, Exec(t.env, t.rbp, sub, c).value).value;
    var c3 := Exec(t.env, t.rbp, lea, c2).value;
    RunOne(t.env, t.rbp, lea, c2);
    c' := VarCopyRuns(t, c3, v.ty, false);
    RunConcat(t.env, t.rbp, [lea], VarCopy(v.ty, false), c2);
    RunConcat(t.env, t.rbp, [sub, mov], [lea] + VarCopy(v.ty, false), c);
  }

  lemma {:induction false} PushRuns(t: Target, p: Path, s: Store, c: Cpu, x: Operand, bs: seq<Byte>) returns (c': Cpu)
    requires TargetOk(t) && InScope(t.main, p, s) && Represents(t, s, c.mem) && ArgumentValue(s, x) == Some(bs)
    ensures |bs| == OperandSize(x) && PushedOn(t, c, x, bs, c')
  {
    hide TargetOk, InScope, Represents, PushedOn, Read;
    match x {
      case Imm(bytes) => c' := PushImmRuns(t, c, bytes);
      case Var(v) =>
        VarIs(t, p, s, c.mem, v);
        c' := PushVarRuns(t, c, v, bs);
    }
  }

  lemma {:induction false} PushesRun(t: Target, p: Path, s: Store, c: Cpu, args: seq<Operand>, vs: seq<seq<Byte>>,
                                     k: nat)
    returns (c': Cpu)
    requires TargetOk(t) && InScope(t.main, p, s) && Represents(t, s, c.mem) && c.regs(R10) == t.Bottom()
    requires |vs| == |args| && forall i :: 0 <= i < |args| ==> ArgumentValue(s, args[i]) == Some(vs[i])
    requires k <= |args|
    ensures RunAsm(t.env, t.rbp, EmitArguments(t.report, args, k), c) == Some(c')
    ensures Pushed(t, c, OperandSizes(args), vs, k, c')
    ensures forall i :: 0 <= i < k ==> |vs[i]| == OperandSizes(args)[i]
    decreases k
  {
    hide TargetOk, InScope, Represents, RunAsm, Write, EmitArgument, ArgumentValue, OperandSize, Read;
    var sizes := OperandSizes(args);
    if k == 0 {
      c' := c;
      assert RunAsm(t.env, t.rbp, [], c) == Some(c) by { RunNone(t, c); }
      return;
    }
    var c1 := PushesRun(t, p, s, c, args, vs, k - 1);
    StoreAbove(t, p, s, c.mem, c1.mem);
    c' := PushRuns(t, p, s, c1, args[k - 1], vs[k - 1]);
    RunConcat(t.env, t.rbp, EmitArguments(t.report, args, k - 1), EmitArgument(t.report, args[k - 1]), c);
    PushedOne(t, c, sizes, vs, k, c1, c');
  }

  lemma {:induction false} RunNone(t: Target, c: Cpu)
    ensures RunAsm(t.env, t.rbp, [], c) == Some(c)
  {
  }

  lemma {:induction false} StoreAbove(t: Target, p: Path, s: Store, m: Mem, m': Mem)
    requires TargetOk(t) && InScope(t.main, p, s) && Represents(t, s, m) && SameAbove(t, m, m')
    ensures Represents(t, s, m')
  {
    hide TargetOk, InScope, Represents;
    Above(t, p, s, m, m');
  }

  lemma {:induction false} PushedOne(t: Target, c: Cpu, sizes: seq<nat>, vs: seq<seq<Byte>>, k: nat, c1: Cpu, c': Cpu)
    requires 0 < k <= |sizes| == |vs| && |vs[k - 1]| == sizes[k - 1]
    requires Pushed(t, c, sizes, vs, k - 1, c1)
    requires c'.mem == Write(c1.mem, c1.regs(R10) - |vs[k - 1]|, vs[k - 1])
    requires c'.regs(R10) == c1.regs(R10) - |vs[k - 1]| && c'.regs(Rsp) == c1.regs(Rsp)
    ensures Pushed(t, c, sizes, vs, k, c')
  {
    hide Read;
    ReadWritten(c1.mem, c'.regs(R10), vs[k - 1]);
    forall i: nat | i < k
      ensures Placed(t, c'.mem, sizes, vs, i)
    {
      if i < k - 1 {
        PrefixMonotone(sizes, i + 1, k - 1);
        ReadElsewhere(c1.mem, c'.regs(R10), vs[k - 1], t.Bottom() - Prefix(sizes, i + 1), sizes[i]);
        assert Placed(t, c1.mem, sizes, vs, i);
      }
    }
  }

  // What the callee is given, read at the slots its own table names.
  lemma {:induction false} CalleeSees(t: Target, m: Mem, sizes: seq<nat>, ret: nat, vs: seq<seq<Byte>>)
    requires SizesOf(vs) == sizes && forall i: nat :: i < |sizes| ==> Placed(t, m, sizes, vs, i)
    ensures seq(|sizes|, k requires 0 <= k < |sizes| =>
              Read(m, t.Bottom() - BlockSize(ret, sizes) + Slot(ret, sizes, k), sizes[k])) == vs
  {
    hide Read, Prefix, BlockSize;
    forall k | 0 <= k < |sizes|
      ensures Read(m, t.Bottom() - BlockSize(ret, sizes) + Slot(ret, sizes, k), sizes[k]) == vs[k]
    {
      assert Placed(t, m, sizes, vs, k);
    }
  }

  // From the frame's bottom to the filled block.
  lemma {:induction false} HeadRuns(t: Target, p: Path, s: Store, c: Cpu, args: seq<Operand>, vs: seq<seq<Byte>>,
                                    retSize: nat) returns (c': Cpu)
    requires TargetOk(t) && InScope(t.main, p, s) && Represents(t, s, c.mem) && c.regs(Rsp) == t.Bottom()
    requires ArgumentValues(s, args) == Some(vs)
    ensures SizesOf(vs) == OperandSizes(args)
    ensures RunAsm(t.env, t.rbp, InvokeHead(t.report, args, retSize), c) == Some(c')
    ensures c'.regs(Rsp) == t.Bottom() - BlockSize(retSize, OperandSizes(args)) && SameAbove(t, c.mem, c'.mem)
    ensures forall i: nat :: i < |args| ==> Placed(t, c'.mem, OperandSizes(args), vs, i)
  {
    hide TargetOk, InScope, Represents, RunAsm, EmitArguments, ArgumentValues, ArgumentValue, OperandSize, Read;
    hide BlockSize;
    var mov, sub := MovReg(R10, Rsp), SubImm(Rsp, BlockSize(retSize, OperandSizes(args)));
    RunTwo(t.env, t.rbp, mov, sub, c);
    var c1 := Exec(t.env, t.rbp, sub, Exec(t.env, t.rbp, mov, c).value).value;
    ArgumentsAt(s, args, vs);
    c' := PushesRun(t, p, s, c1, args, vs, |args|);
    RunConcat(t.env, t.rbp, [mov, sub], EmitArguments(t.report, args, |args|), c);
    assert SizesOf(vs) == OperandSizes(args);
  }

  // The call itself: the result is at the floor of the block, and nothing above
  // the block has changed.
  lemma {:induction false} TrampolineRuns(t: Target, c: Cpu, callee: nat, ret: nat, sizes: seq<nat>, vs: seq<seq<Byte>>)
    returns (c': Cpu)
    requires c.regs(Rsp) == t.Bottom() - BlockSize(ret, sizes) && SizesOf(vs) == sizes
    requires forall i: nat :: i < |sizes| ==> Placed(t, c.mem, sizes, vs, i)
    requires |t.env.call(callee, vs)| == ret && Aligned(c)
    ensures RunAsm(t.env, t.rbp, [MovReg(Rsi, Rsp), CallTrampoline(callee, ret, sizes)], c) == Some(c')
    ensures c'.regs(Rsp) == c.regs(Rsp) && SameAbove(t, c.mem, c'.mem)
    ensures Read(c'.mem, c'.regs(Rsp), ret) == t.env.call(callee, vs)
  {
    hide RunAsm, Read, BlockSize, Placed;
    var result := t.env.call(callee, vs);
    var mov, call := MovReg(Rsi, Rsp), CallTrampoline(callee, ret, sizes);
    CalleeSees(t, c.mem, sizes, ret, vs);
    FloorBelow(ret, sizes);
    var c1 := Exec(t.env, t.rbp, mov, c).value;
    RunTwo(t.env, t.rbp, mov, call, c);
    assert Exec(t.env, t.rbp, call, c1) == Some(c1.Writing(c1.regs(Rsi), result).Back(t.env));
    c' := Exec(t.env, t.rbp, call, c1).value;
    ReadWritten(c.mem, c.regs(Rsp), result);
  }

  // At the call the stack pointer is aligned as the ABI asks.
  lemma {:induction false} CallAligned(t: Target, ret: nat, sizes: seq<nat>)
    requires TargetOk(t)
    ensures (t.Bottom() - BlockSize(ret, sizes)) % 16 == 0
  {
    hide TargetOk;
    BottomAligned(t);
    AlignBounds(ret + Total(sizes));
    DifferenceAligned(t.Bottom(), BlockSize(ret, sizes));
  }

  lemma {:induction false} FloorBelow(ret: nat, sizes: seq<nat>)
    ensures ret <= BlockSize(ret, sizes)
  {
    AlignBounds(ret + Total(sizes));
  }

  lemma {:induction false} DropsRun(t: Target, c: Cpu, args: seq<Operand>, k: nat) returns (c': Cpu)
    requires k <= |args|
    ensures RunAsm(t.env, t.rbp, DropArguments(args, k), c) == Some(c')
    ensures c'.mem == c.mem && forall r :: r != R10 ==> c'.regs(r) == c.regs(r)
    decreases k
  {
    hide RunAsm, OperandSize;
    if k == 0 {
      c' := c;
      RunNone(t, c);
    } else {
      var c1 := DropsRun(t, c, args, k - 1);
      var sub := SubImm(R10, OperandSize(args[k - 1]));
      RunOne(t.env, t.rbp, sub, c1);
      c' := Exec(t.env, t.rbp, sub, c1).value;
      RunConcat(t.env, t.rbp, DropArguments(args, k - 1), [sub], c);
    }
  }

  lemma {:induction false} UnwindsRun(t: Target, c: Cpu, args: seq<Operand>) returns (c': Cpu)
    ensures RunAsm(t.env, t.rbp, [MovReg(R10, Rsp)] + DropArguments(args, |args|), c) == Some(c')
    ensures c'.mem == c.mem && c'.regs(Rsp) == c.regs(Rsp) && c'.regs(R11) == c.regs(R11)
  {
    hide RunAsm, DropArguments;
    var c1 := Exec(t.env, t.rbp, MovReg(R10, Rsp), c).value;
    RunOne(t.env, t.rbp, MovReg(R10, Rsp), c);
    c' := DropsRun(t, c1, args, |args|);
    RunConcat(t.env, t.rbp, [MovReg(R10, Rsp)], DropArguments(args, |args|), c);
  }

  // The result goes from the floor of the block into the returned variable.
  lemma {:induction false} ResultRuns(t: Target, c: Cpu, retType: Option<Type>, ret: Option<Variable>,
                                      result: seq<Byte>) returns (c': Cpu)
    requires |result| == RetSize(retType) && Read(c.mem, c.regs(R11), |result|) == result
    requires ret.Some? ==> retType == Some(ret.value.ty) && ret.value.ty.primitive && Movable(ret.value.ty)
    ensures RunAsm(t.env, t.rbp, CopyResult(t.report, retType, ret), c) == Some(c')
    ensures c'.mem == if ret.Some? then Write(c.mem, t.Addr(ret.value), result) else c.mem
    ensures c'.regs(Rsp) == c.regs(Rsp)
  {
    hide RunAsm, Read, Write, VarCopy;
    if ret.Some? {
      var v := ret.value;
      var lea, mov := Lea(Rbx, t.report.OffsetOf(v)), MovReg(Rcx, R11);
      RunTwo(t.env, t.rbp, lea, mov, c);
      var c1 := Exec(t.env, t.rbp, mov, Exec(t.env, t.rbp, lea, c).value).value;
      c' := VarCopyRuns(t, c1, v.ty, false);
      RunConcat(t.env, t.rbp, [lea, mov], VarCopy(v.ty, false), c);
    } else {
      c' := c;
      RunNone(t, c);
    }
  }

  // After the call: the stack pointer is back at the bottom, and the result is
  // copied from the floor of the block into the returned variable.
  lemma {:induction false} TailRuns(t: Target, c: Cpu, args: seq<Operand>, retType: Option<Type>, ret: Option<Variable>,
                                    result: seq<Byte>) returns (c': Cpu)
    requires c.regs(Rsp) == t.Bottom() - BlockSize(RetSize(retType), OperandSizes(args))
    requires |result| == RetSize(retType) && Read(c.mem, c.regs(Rsp), |result|) == result
    requires ret.Some? ==> retType == Some(ret.value.ty) && ret.value.ty.primitive && Movable(ret.value.ty)
    ensures RunAsm(t.env, t.rbp, InvokeTail(t.report, args, retType, ret), c) == Some(c')
    ensures c'.mem == if ret.Some? then Write(c.mem, t.Addr(ret.value), result) else c.mem
    ensures c'.regs(Rsp) == t.Bottom()
  {
    hide RunAsm, DropArguments, CopyResult, Read, Write, BlockSize, RetSize, OperandSizes;
    var keep, add := MovReg(R11, Rsp), AddImm(Rsp, BlockSize(RetSize(retType), OperandSizes(args)));
    RunTwo(t.env, t.rbp, keep, add, c);
    var c1 := Exec(t.env, t.rbp, add, Exec(t.env, t.rbp, keep, c).value).value;
    var c2 := UnwindsRun(t, c1, args);
    c' := ResultRuns(t, c2, retType, ret, result);
    var drop, copy := [MovReg(R10, Rsp)] + DropArguments(args, |args|), CopyResult(t.report, retType, ret);
    RunConcat(t.env, t.rbp, drop, copy, c1);
    RunConcat(t.env, t.rbp, [keep, add], drop + copy, c);
  }

  // The stack pointer is restored, the returned variable has the result, and no
  // other byte at or above the frame's bottom has changed.
  lemma {:induction false} InvokeRuns(t: Target, p: Path, s: Store, c: Cpu, callee: nat, args: seq<Operand>,
                                      retType: Option<Type>, ret: Option<Variable>, vs: seq<seq<Byte>>)
    returns (c': Cpu, below: Mem)
    requires TargetOk(t) && InScope(t.main, p, s) && Represents(t, s, c.mem) && c.regs(Rsp) == t.Bottom()
    requires ArgumentValues(s, args) == Some(vs) && |t.env.call(callee, vs)| == RetSize(retType)
    requires ret.Some? ==> retType == Some(ret.value.ty) && ret.value.ty.primitive && Movable(ret.value.ty)
    ensures RunAsm(t.env, t.rbp, InvokeFunction(t.report, callee, args, retType, ret), c) == Some(c')
    ensures SameAbove(t, c.mem, below) && c'.regs(Rsp) == c.regs(Rsp)
    ensures c'.mem == if ret.Some? then Write(below, t.Addr(ret.value), t.env.call(callee, vs)) else below
  {
    hide TargetOk, InScope, Represents, RunAsm, ArgumentValues, OperandSizes, InvokeHead, InvokeTail;
    hide Read, Write, BlockSize, RetSize, Placed;
    var sizes, n := OperandSizes(args), RetSize(retType);
    assert |sizes| == |args| by { SizesLength(args); }
    var c1 := HeadRuns(t, p, s, c, args, vs, n);
    CallAligned(t, n, sizes);
    var c2 := TrampolineRuns(t, c1, callee, n, sizes, vs);
    c' := TailRuns(t, c2, args, retType, ret, t.env.call(callee, vs));
    below := c2.mem;
    var call, tail := [MovReg(Rsi, Rsp), CallTrampoline(callee, n, sizes)], InvokeTail(t.report, args, retType, ret);
    RunConcat(t.env, t.rbp, call, tail, c1);
    RunConcat(t.env, t.rbp, InvokeHead(t.report, args, n), call + tail, c);
  }

  lemma {:induction false} SizesLength(args: seq<Operand>)
    ensures |OperandSizes(args)| == |args|
  {
  }

  // A call refines its meaning on the named store.
  lemma {:induction false} InvokeRefines(t: Target, p: Path, s: Store, c: Cpu, op: Op)
    requires TargetOk(t) && InScope(t.main, p, s) && Stands(t, s, c)
    requires op.Invoke? && ExecOp(t.env, s, op).Some?
    ensures OnCpu(t).exec(op, c).Some?
    ensures InScope(t.main, p, ExecOp(t.env, s, op).value)
    ensures Stands(t, ExecOp(t.env, s, op).value, OnCpu(t).exec(op, c).value)
  {
    hide TargetOk, InScope, Represents, RunAsm, InvokeFunction, ArgumentValues, Supported, Write;
    var Invoke(callee, args, retType, ret) := op;
    var vs := ArgumentValues(s, args).value;
    var c', below := InvokeRuns(t, p, s, c, callee, args, retType, ret, vs);
    ExecOnCpu(t, op, c);
    StoreAbove(t, p, s, c.mem, below);
    if ret.Some? {
      assert ExecOp(t.env, s, op) == Put(s, ret.value, t.env.call(callee, vs));
      PutRefines(t, p, s, below, ret.value, t.env.call(callee, vs));
    } else {
      assert ExecOp(t.env, s, op) == Some(s);
    }
  }
}
