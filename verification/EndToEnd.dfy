// From named variables to the processor, for whole programs.
module EndToEnd {
  import opened Program
  import opened Integers
  import opened ArgBlock
  import opened FrameLayout
  import opened Machine
  import opened Semantics
  import opened Refinement
  import opened Asm
  import opened Codegen
  import opened Named
  import opened Bytes
  import opened Calls
  import Preservation
  import Simulation

  // Somewhere to run the function: an aligned frame below its argument block.
  predicate Targets(t: Target, main: Scope, retSize: nat, argSizes: seq<nat>, report: Report, frameSize: nat) {
    && t.main == main && t.report == report && t.frameSize == frameSize
    && t.retSize == retSize && t.argSizes == argSizes
    && t.rbp <= t.argsBase < Pow256(8) && t.rbp % 16 == 0
  }

  // The report that code generation works from, for any program and arguments.
  method PrepareReport(main: Scope, retSize: nat, argSizes: seq<nat>) returns (report: Report, frameSize: nat)
    ensures forall t: Target :: Targets(t, main, retSize, argSizes, report, frameSize) ==> TargetOk(t)
  {
    hide IsFrame;
    var argsMap := CreateArgsMap(retSize, argSizes);
    var variables, size, objects := CreateFrameReport(main);
    report, frameSize := Report(variables, argsMap), size;
  }

  // ---------- Operations ----------

  // Writing a variable's new value is what the operation means.
  lemma {:induction false} WroteRefines(t: Target, p: Path, s: Store, c: Cpu, op: Op, v: Variable, bs: seq<Byte>,
                                        c': Cpu)
    requires TargetOk(t) && InScope(t.main, p, s) && Stands(t, s, c)
    requires ExecOp(t.env, s, op) == Put(s, v, bs) && Put(s, v, bs).Some?
    requires Wrote(t, c, EmitOp(t.report, op), v, bs, c')
    ensures OnCpu(t).exec(op, c).Some?
    ensures InScope(t.main, p, ExecOp(t.env, s, op).value)
    ensures Stands(t, ExecOp(t.env, s, op).value, OnCpu(t).exec(op, c).value)
  {
    hide TargetOk, InScope, Represents, RunAsm, EmitOp, ExecOp, OnCpu, Write;
    ExecOnCpu(t, op, c);
    PutRefines(t, p, s, c.mem, v, bs);
  }

  lemma {:induction false} CopySupported(op: Op)
    requires Supported(op) && (op.CopyConstruct? || op.Assign?)
    ensures op.src.FromExpr? || Movable(op.v.ty)
  {
  }

  // Every operation the program can perform is performed on the processor, with
  // the same result, whatever its registers held.
  lemma {:induction false} OpRefines(t: Target, p: Path, s: Store, c: Cpu, op: Op)
    requires TargetOk(t) && InScope(t.main, p, s) && Stands(t, s, c)
    requires ExecOp(t.env, s, op).Some?
    ensures OnCpu(t).exec(op, c).Some?
    ensures InScope(t.main, p, ExecOp(t.env, s, op).value)
    ensures Stands(t, ExecOp(t.env, s, op).value, OnCpu(t).exec(op, c).value)
  {
    hide TargetOk, InScope, Represents, OnCpu, SourceValue, Supported, RunAsm, CopyFrom, Wrote;
    BottomAligned(t);
    match op {
      case Construct(v) =>
        var c' := ConstructRuns(t, c, v);
        WroteRefines(t, p, s, c, op, v, t.env.construct(v.ty), c');
      case CopyConstruct(v, src) =>
        assert src.FromExpr? || Movable(v.ty) by { CopySupported(op); }
        var c' := CopyRuns(t, p, s, c, v, src, false);
        WroteRefines(t, p, s, c, op, v, SourceValue(t.env, s, v, src, false).value, c');
      case Assign(v, src) =>
        assert src.FromExpr? || Movable(v.ty) by { CopySupported(op); }
        var c' := CopyRuns(t, p, s, c, v, src, true);
        WroteRefines(t, p, s, c, op, v, SourceValue(t.env, s, v, src, true).value, c');
      case Convert(from, to, converter) =>
        var c' := ConvertRuns(t, p, s, c, from, to, converter);
        WroteRefines(t, p, s, c, op, to, t.env.convert(converter, Get(s, from).value), c');
      case Invoke(_, _, _, _) =>
        InvokeRefines(t, p, s, c, op);
    }
  }

  // A condition leaves its truth in al, and uses registers only.
  lemma {:induction false} TestRefines(t: Target, p: Path, s: Store, c: Cpu, e: Expr)
    requires TargetOk(t) && InScope(t.main, p, s) && Stands(t, s, c)
    requires TestCond(s, e).Some?
    ensures var r := AlAfter(RunAsm(t.env, t.rbp, EmitCond(t.report, e), c));
            r.Some? && r.value.0 == TestCond(s, e).value && Stands(t, s, r.value.1)
  {
    hide TargetOk, InScope, Represents, RunAsm, Operands, Compute, Low, ExprValue, Evaluate, Pow256, Half;
    var c1, a, b := ExprOperands(t, p, s, c, e);
    var c2 := ComputeRuns(t, c1, e, a, b);
    RunConcat(t.env, t.rbp, Operands(t.report, e), Compute(e), c);
    var n := Low(c2.regs(Rax), 1);
    assert Encode(n, 1) == [n % 256];
    LowByte(c2.regs(Rax));
  }

  lemma {:induction false} LowByte(v: int)
    ensures Low(v, 1) < 256
  {
    assert Pow256(1) == 256;
  }

  // The floor of the argument block is above the frame and below every argument.
  lemma {:induction false} ReturnRefines(t: Target, p: Path, s: Store, m: Mem, bs: seq<Byte>)
    requires TargetOk(t) && InScope(t.main, p, s) && Represents(t, s, m) && |bs| == t.retSize
    ensures Represents(t, s.(ret := Some(bs)), Write(m, t.argsBase, bs))
  {
    hide DeclaredIn, TargetOk, Visible;
    ArgsAbove(t);
    var s', m' := s.(ret := Some(bs)), Write(m, t.argsBase, bs);
    ReadWritten(m, t.argsBase, bs);
    forall v | v in s'.vars
      ensures HoldsVar(t, s', m', v)
    {
      assert HoldsVar(t, s, m, v);
      AddrIs(t, v);
      ReadElsewhere(m, t.argsBase, bs, t.Addr(v), v.ty.size);
    }
    ReadElsewhere(m, t.argsBase, bs, t.rbp - 8, 8);
    forall i | 0 <= i < |s.args|
      ensures Read(m', t.argsBase + Slot(t.retSize, t.argSizes, i), t.argSizes[i]) == s.args[i]
    {
      SlotInBlock(t.retSize, t.argSizes, i);
      ReadElsewhere(m, t.argsBase, bs, t.argsBase + Slot(t.retSize, t.argSizes, i), t.argSizes[i]);
    }
  }

  lemma {:induction false} StoreRuns(t: Target, c: Cpu, v: Variable) returns (c': Cpu)
    requires Movable(v.ty) && Aligned(c) && Decode(Read(c.mem, t.rbp - 8, 8)) == t.argsBase
    requires |Transfer(t.env, c.mem, v.ty, false, t.argsBase, t.Addr(v))| == v.ty.size
    ensures RunAsm(t.env, t.rbp, EmitStore(t.report, v), c) == Some(c')
    ensures c'.mem == Write(c.mem, t.argsBase, Transfer(t.env, c.mem, v.ty, false, t.argsBase, t.Addr(v)))
    ensures c'.regs(Rsp) == c.regs(Rsp)
  {
    hide RunAsm, VarCopy, Decode, Read, Write, Transfer;
    var load, lea := LoadSlot(Rbx, -8), Lea(Rcx, t.report.OffsetOf(v));
    RunTwo(t.env, t.rbp, load, lea, c);
    var c1 := Exec(t.env, t.rbp, lea, Exec(t.env, t.rbp, load, c).value).value;
    c' := VarCopyRuns(t, c1, v.ty, false);
    RunConcat(t.env, t.rbp, [load, lea], VarCopy(v.ty, false), c);
  }

  lemma {:induction false} StoreRefines(t: Target, p: Path, s: Store, c: Cpu, v: Variable)
    requires TargetOk(t) && InScope(t.main, p, s) && Stands(t, s, c)
    requires StoreVar(t.env, s, v).Some?
    ensures var c' := RunAsm(t.env, t.rbp, EmitStore(t.report, v), c);
            && c'.Some? && InScope(t.main, p, StoreVar(t.env, s, v).value)
            && Stands(t, StoreVar(t.env, s, v).value, c'.value)
  {
    hide TargetOk, Represents, RunAsm, EmitStore, Decode, Read, Write, DeclaredIn, Visible;
    var bs := Get(s, v).value;
    AddrIs(t, v);
    SavedPointer(t, s, c.mem);
    VarIs(t, p, s, c.mem, v);
    BottomAligned(t);
    var c' := StoreRuns(t, c, v);
    RetSizeIs(t, s, c.mem);
    ReturnRefines(t, p, s, c.mem, if v.ty.primitive then bs else t.env.copy(v.ty, bs));
  }

  // A destructor call gets what the slot holds, and leaves memory alone here.
  lemma {:induction false} DestroyRuns(t: Target, c: Cpu, v: Variable) returns (c': Cpu)
    requires Aligned(c)
    ensures RunAsm(t.env, t.rbp, EmitDestroy(t.report, v), c) == Some(c')
    ensures c'.mem == c.mem && c'.regs(Rsp) == c.regs(Rsp)
    ensures c'.destroyed == c.destroyed + [(v.ty, Decode(Read(c.mem, t.Addr(v), 8)))]
  {
    hide RunAsm, Decode, Read;
    var load, call := LoadSlot(Rdi, t.report.OffsetOf(v)), CallDestroy(v.ty);
    RunTwo(t.env, t.rbp, load, call, c);
    c' := Exec(t.env, t.rbp, call, Exec(t.env, t.rbp, load, c).value).value;
  }

  lemma {:induction false} DestroyRefines(t: Target, s: Store, c: Cpu, v: Variable)
    requires TargetOk(t) && Stands(t, s, c)
    ensures Stands(t, s, RunAsm(t.env, t.rbp, EmitDestroy(t.report, v), c).Or(c))
  {
    hide TargetOk, Represents, RunAsm, EmitDestroy;
    BottomAligned(t);
    var c' := DestroyRuns(t, c, v);
  }

  lemma {:induction false} RetSizeIs(t: Target, s: Store, m: Mem)
    requires Represents(t, s, m)
    ensures s.retSize == t.retSize
  {
  }

  lemma {:induction false} ExecKept(t: Target)
    requires TargetOk(t)
    ensures forall p: Path, op, s, c :: Rel(t)(p, s, c) && ExecOp(t.env, s, op).Some? ==>
              OnCpu(t).exec(op, c).Some? && Rel(t)(p, ExecOp(t.env, s, op).value, OnCpu(t).exec(op, c).value)
  {
    hide TargetOk, InScope, Represents, ExecOp, RunAsm, EmitOp;
    forall p: Path, op: Op, s: Store, c: Cpu | Rel(t)(p, s, c) && ExecOp(t.env, s, op).Some?
      ensures OnCpu(t).exec(op, c).Some? && Rel(t)(p, ExecOp(t.env, s, op).value, OnCpu(t).exec(op, c).value)
    {
      OpRefines(t, p, s, c, op);
    }
  }

  lemma {:induction false} OpsRefine(t: Target)
    requires TargetOk(t)
    ensures KeepsOps(Meaning(t.env), OnCpu(t), Rel(t))
  {
    hide TargetOk, InScope, Represents, ExecOp, TestCond, StoreVar, RunAsm, EmitOp, EmitCond, EmitStore, EmitDestroy;
    var J, R := OnCpu(t), Rel(t);
    ExecKept(t);
    forall p: Path, e: Expr, s: Store, c: Cpu | R(p, s, c) && TestCond(s, e).Some?
      ensures J.test(e, c).Some? && J.test(e, c).value.0 == TestCond(s, e).value && R(p, s, J.test(e, c).value.1)
    {
      TestRefines(t, p, s, c, e);
    }
    forall p: Path, v: Variable, s: Store, c: Cpu | R(p, s, c) && StoreVar(t.env, s, v).Some?
      ensures J.store(v, c).Some? && R(p, StoreVar(t.env, s, v).value, J.store(v, c).value)
    {
      StoreRefines(t, p, s, c, v);
    }
    forall p: Path, v: Variable, s: Store, c: Cpu | R(p, s, c)
      ensures R(p, s, J.destroy(v, c))
    {
      DestroyRefines(t, s, c, v);
    }
  }

  // ---------- Moves ----------

  // The next instruction sees one site more: this one.
  lemma {:induction false} VisibleNext(v: Path, p: Path, i: nat)
    ensures Visible(v, p + [i + 1]) <==> Visible(v, p + [i]) || v == p + [i]
  {
    var q, q' := p + [i], p + [i + 1];
    assert q[..|p|] == p == q'[..|p|];
    if 0 < |v| <= |p| { assert q[..|v| - 1] == p[..|v| - 1] == q'[..|v| - 1]; }
    if |v| == |q| { assert v == v[..|p|] + [v[|p|]]; }
  }

  // A body sees at first what is visible where it stands; so does what follows it.
  lemma {:induction false} VisibleInside(v: Path, p: Path, i: nat)
    ensures Visible(v, p + [0]) <==> Visible(v, p)
    ensures Visible(v, p) ==> Visible(v, p + [i])
  {
    if 0 < |v| <= |p| { assert (p + [0])[..|v| - 1] == p[..|v| - 1] == (p + [i])[..|v| - 1]; }
  }

  // What is represented stays so when variables leave the scope.
  lemma {:induction false} FewerRepresented(t: Target, s: Store, s': Store, m: Mem)
    requires Represents(t, s, m)
    requires s' == s.(vars := s'.vars)
    requires forall v :: v in s'.vars ==> s'.vars[v] == None || (v in s.vars && s'.vars[v] == s.vars[v])
    ensures Represents(t, s', m)
  {
    forall v | v in s'.vars
      ensures HoldsVar(t, s', m, v)
    {
      if s'.vars[v].Some? { assert HoldsVar(t, s, m, v); }
    }
  }

  lemma {:induction false} DeclareKeeps(t: Target, p: Path, i: nat, s: Store, m: Mem)
    requires Declares(t.main, p, i) && InScope(t.main, p + [i], s) && Represents(t, s, m)
    ensures var s' := s.(vars := s.vars[DeclaredAt(t.main, p, i) := None]);
            InScope(t.main, p + [i + 1], s') && Represents(t, s', m)
  {
    hide InScope, Represents, Declares;
    FewerRepresented(t, s, s.(vars := s.vars[DeclaredAt(t.main, p, i) := None]), m);
    DeclareScope(t.main, p, i, s);
  }

  lemma {:induction false} DeclareScope(main: Scope, p: Path, i: nat, s: Store)
    requires Declares(main, p, i) && InScope(main, p + [i], s)
    ensures InScope(main, p + [i + 1], s.(vars := s.vars[DeclaredAt(main, p, i) := None]))
  {
    hide Declares, Visible, DeclaredIn;
    var v := DeclaredAt(main, p, i);
    var s' := s.(vars := s.vars[v := None]);
    DeclaredIs(main, p, i);
    forall u
      ensures u in s'.vars <==> DeclaredIn(main, u) && Visible(u.site, p + [i + 1])
    {
      VisibleNext(u.site, p, i);
      if u.site == p + [i] { OneAtSite(main, u, v); }
    }
  }

  lemma {:induction false} DeclaredIs(main: Scope, p: Path, i: nat)
    requires Declares(main, p, i)
    ensures DeclaredIn(main, DeclaredAt(main, p, i))
  {
    hide Declares;
    assert (p + [i])[..|p + [i]| - 1] == p;
  }

  lemma {:induction false} OneAtSite(main: Scope, u: Variable, v: Variable)
    requires DeclaredIn(main, v) && u.site == v.site
    ensures DeclaredIn(main, u) ==> u == v
  {
    hide Declares;
  }

  lemma {:induction false} NextKeeps(main: Scope, p: Path, i: nat, s: Store)
    requires !Declares(main, p, i) && InScope(main, p + [i], s)
    ensures InScope(main, p + [i + 1], s)
  {
    hide DeclaredIn, Visible;
    forall v ensures v in s.vars <==> DeclaredIn(main, v) && Visible(v.site, p + [i + 1]) {
      VisibleNext(v.site, p, i);
      if v.site == p + [i] { UndeclaredIs(main, p, i, v); }
    }
  }

  lemma {:induction false} UndeclaredIs(main: Scope, p: Path, i: nat, v: Variable)
    requires !Declares(main, p, i) && v.site == p + [i]
    ensures !DeclaredIn(main, v)
  {
    hide Declares;
    assert (p + [i])[..|p + [i]| - 1] == p;
  }

  lemma {:induction false} EnterKeeps(main: Scope, p: Path, s: Store)
    requires InScope(main, p, s)
    ensures InScope(main, p + [0], s)
  {
    hide DeclaredIn, Visible;
    forall v: Variable ensures Visible(v.site, p + [0]) <==> Visible(v.site, p) { VisibleInside(v.site, p, 0); }
  }

  lemma {:induction false} LeaveKeeps(t: Target, p: Path, i: nat, s: Store, m: Mem)
    requires InScope(t.main, p + [i], s) && Represents(t, s, m)
    ensures var s' := Meaning(t.env).leave(p, s);
            InScope(t.main, p, s') && Represents(t, s', m)
  {
    hide DeclaredIn, Visible, Represents;
    LeaveKeepsValues(t.env, t.main, p, i, s);
    FewerRepresented(t, s, Meaning(t.env).leave(p, s), m);
  }

  // Leaving a scope takes its own variables out of scope, and nothing else: every
  // variable visible outside stays, with its value.
  lemma {:induction false} LeaveKeepsValues(env: Env, main: Scope, p: Path, i: nat, s: Store)
    requires InScope(main, p + [i], s)
    ensures var s' := Meaning(env).leave(p, s);
            && s' == s.(vars := s'.vars) && InScope(main, p, s')
            && (forall v :: v in s'.vars ==> v in s.vars && s'.vars[v] == s.vars[v])
            && (forall v :: v in s.vars && Visible(v.site, p) ==> v in s'.vars)
  {
    hide DeclaredIn, Visible;
    forall v: Variable ensures Visible(v.site, p) ==> Visible(v.site, p + [i]) { VisibleInside(v.site, p, i); }
  }

  lemma {:induction false} MovesKept(t: Target)
    requires TargetOk(t)
    ensures KeepsMoves(Meaning(t.env), OnCpu(t), Rel(t), t.main)
  {
    hide TargetOk, InScope, Represents, Declares, DeclaredAt;
    var I, J, R := Meaning(t.env), OnCpu(t), Rel(t);
    forall p: Path, i: nat, s: Store, c: Cpu | Declares(t.main, p, i) && R(p + [i], s, c)
      ensures R(p + [i + 1], I.declare(DeclaredAt(t.main, p, i), s), J.declare(DeclaredAt(t.main, p, i), c))
    {
      DeclareKeeps(t, p, i, s, c.mem);
    }
    forall p: Path, i: nat, j: nat, s: Store, c: Cpu | j == i + 1 && !Declares(t.main, p, i) && R(p + [i], s, c)
      ensures R(p + [j], s, c)
    {
      NextKeeps(t.main, p, i, s);
    }
    forall p: Path, s: Store, c: Cpu | R(p, s, c)
      ensures R(p + [0], s, c)
    {
      EnterKeeps(t.main, p, s);
    }
    forall p: Path, i: nat, s: Store, c: Cpu | R(p + [i], s, c)
      ensures R(p, I.leave(p, s), J.leave(p, c))
    {
      LeaveKeeps(t, p, i, s, c.mem);
    }
  }

  // ---------- Whole programs ----------

  lemma {:induction false} CpuErasing(t: Target)
    ensures Preservation.Erasing(OnCpu(t))
  {
  }

  // The state the prologue leaves: no variable in scope, the argument pointer
  // saved, the arguments in their block, nothing returned yet.
  ghost predicate Entered(t: Target, s: Store, c: Cpu) {
    s.vars.Keys == {} && s.ret == None && Stands(t, s, c)
  }

  lemma {:induction false} NothingInScope(main: Scope, s: Store)
    requires s.vars.Keys == {}
    ensures InScope(main, [], s)
  {
  }

  // What a caller finds in memory when the function is done: the returned value
  // at the floor of the block, and every other byte above the frame, its
  // arguments included, as it was.
  ghost predicate Answers(t: Target, s: Store, m: Mem) {
    (s.ret.Some? ==> Read(m, t.argsBase, t.retSize) == s.ret.value) && OutsideKept(t, m)
  }

  // Whoever fills the block as callers do, and passes its address in rdi, enters
  // the function in that state.
  lemma {:induction false} PrologueEnters(t: Target, c: Cpu, args: seq<seq<Byte>>) returns (c': Cpu)
    requires TargetOk(t) && t.argSizes == SizesOf(args) && c.mem == t.outside
    requires c.regs(Rsp) == t.rbp && c.regs(Rdi) == t.argsBase
    requires Holds(Read(c.mem, t.argsBase, BlockSize(t.retSize, t.argSizes)), t.retSize, args)
    ensures RunAsm(t.env, t.rbp, Prologue(t.frameSize), c) == Some(c')
    ensures Entered(t, Store(map[], args, None, t.retSize), c')
  {
    hide RunAsm, Represents, Write, Encode, Low, IsFrame, Read;
    RunTwo(t.env, t.rbp, SubImm(Rsp, t.frameSize), SaveRdi, c);
    c' := Exec(t.env, t.rbp, SaveRdi, Exec(t.env, t.rbp, SubImm(Rsp, t.frameSize), c).value).value;
    assert Low(t.argsBase, 8) == t.argsBase by { LowAll(t); }
    BlockRepresents(t, c.mem, args);
  }

  lemma {:induction false} LowAll(t: Target)
    requires TargetOk(t)
    ensures Low(t.argsBase, 8) == t.argsBase
  {
    hide Pow256, IsFrame;
    WrapSmall(t.argsBase, 8);
  }

  lemma {:induction false} BlockRepresents(t: Target, m: Mem, args: seq<seq<Byte>>)
    requires TargetOk(t) && t.argSizes == SizesOf(args) && m == t.outside
    requires Holds(Read(m, t.argsBase, BlockSize(t.retSize, t.argSizes)), t.retSize, args)
    ensures Represents(t, Store(map[], args, None, t.retSize), Write(m, t.rbp - 8, Encode(t.argsBase, 8)))
  {
    hide TargetOk, Encode;
    ArgsAbove(t);
    var size := BlockSize(t.retSize, t.argSizes);
    var block, m' := Read(m, t.argsBase, size), Write(m, t.rbp - 8, Encode(t.argsBase, 8));
    ReadWritten(m, t.rbp - 8, Encode(t.argsBase, 8));
    forall i | 0 <= i < |args|
      ensures Read(m', t.argsBase + Slot(t.retSize, t.argSizes, i), t.argSizes[i]) == args[i]
    {
      SlotInBlock(t.retSize, t.argSizes, i);
      assert SlotHolds(block, t.retSize, args, i);
      ReadElsewhere(m, t.rbp - 8, Encode(t.argsBase, 8), t.argsBase + Slot(t.retSize, t.argSizes, i), t.argSizes[i]);
    }
  }

  // Whatever refines the program's operations on the processor computes the
  // program's answer, through the control flow of the compiled code.
  lemma {:induction false} RefinedComputes(t: Target, I: Interp<Store>, J: Interp<Cpu>, s: Store, c: Cpu, s': Store)
    requires Simulates(I, J, Rel(t), t.main) && Preservation.Erasing(J)
    requires Preservation.Faithful(t.main) && Entered(t, s, c)
    requires Preservation.ProgramHalts(I, t.main, s, s')
    ensures exists c' :: Simulation.MachineHalts(J, t.main, c, c') && Answers(t, s', c'.mem)
  {
    hide Simulates, Represents, RunMain, Preservation.Faithful, Preservation.Erasing, Simulation.MachineHalts;
    hide InScope;
    var fuel: nat :| var r := RunMain(I, t.main, s, fuel); (r.Fell? || r.Returned?) && r.s == s';
    NothingInScope(t.main, s);
    assert Rel(t)([], s, c);
    SimMain(I, J, Rel(t), t.main, s, c, fuel);
    var q := RunMain(J, t.main, c, fuel);
    Preservation.PreservesMeaning(J, t.main, c);
    assert Preservation.ProgramHalts(J, t.main, c, q.s);
    assert Simulation.MachineHalts(J, t.main, c, q.s);
    RepresentedAnswers(t, s', q.s);
  }

  lemma {:induction false} RepresentedAnswers(t: Target, s: Store, c: Cpu)
    requires Rel(t)([], s, c)
    ensures Answers(t, s, c.mem)
  {
    assert Stands(t, s, c);
    assert Represents(t, s, c.mem);
  }

  lemma {:induction false} RefinedOnlyComputes(t: Target, I: Interp<Store>, J: Interp<Cpu>, s: Store, c: Cpu, c': Cpu)
    requires Simulates(I, J, Rel(t), t.main) && Preservation.Erasing(J)
    requires Preservation.Faithful(t.main) && Entered(t, s, c)
    requires !Preservation.ProgramSticks(I, t.main, s)
    ensures !Simulation.MachineFaults(J, t.main, c)
    ensures Simulation.MachineHalts(J, t.main, c, c') ==>
            exists s' :: Preservation.ProgramHalts(I, t.main, s, s') && Answers(t, s', c'.mem)
  {
    hide Simulates, Represents, RunMain, Preservation.Faithful, Preservation.Erasing;
    hide Simulation.MachineHalts, Simulation.MachineFaults, InScope;
    Preservation.PreservesMeaning(J, t.main, c);
    NothingInScope(t.main, s);
    assert Rel(t)([], s, c);
    forall fuel: nat
      ensures Matches(Rel(t), [], RunMain(I, t.main, s, fuel), RunMain(J, t.main, c, fuel))
    {
      SimMain(I, J, Rel(t), t.main, s, c, fuel);
    }
    assert forall fuel: nat :: !RunMain(J, t.main, c, fuel).Stuck?;
    if Simulation.MachineHalts(J, t.main, c, c') {
      var fuel: nat :| var r := RunMain(J, t.main, c, fuel); (r.Fell? || r.Returned?) && r.s == c';
      var r := RunMain(I, t.main, s, fuel);
      assert !r.Stuck?;
      assert Preservation.ProgramHalts(I, t.main, s, r.s);
      RepresentedAnswers(t, r.s, c');
    }
  }

  lemma {:induction false} CpuSimulates(t: Target)
    requires TargetOk(t)
    ensures Simulates(Meaning(t.env), OnCpu(t), Rel(t), t.main)
  {
    hide TargetOk, KeepsOps, KeepsMoves;
    OpsRefine(t);
    MovesKept(t);
  }

  // The compiled function, on the processor, computes what the program says about
  // named variables: whenever the program halts, the compiled code halts with the
  // program's answer.
  lemma {:induction false} CompiledComputes(t: Target, s: Store, c: Cpu, s': Store)
    requires TargetOk(t) && Preservation.Faithful(t.main) && Entered(t, s, c)
    requires Preservation.ProgramHalts(Meaning(t.env), t.main, s, s')
    ensures exists c' :: Simulation.MachineHalts(OnCpu(t), t.main, c, c') && Answers(t, s', c'.mem)
  {
    hide *;
    CpuSimulates(t);
    CpuErasing(t);
    RefinedComputes(t, Meaning(t.env), OnCpu(t), s, c, s');
  }

  // Conversely, when the program never performs what it may not, whatever the
  // compiled code halts with is the program's answer; and the code never faults.
  lemma {:induction false} CompiledOnlyComputes(t: Target, s: Store, c: Cpu, c': Cpu)
    requires TargetOk(t) && Preservation.Faithful(t.main) && Entered(t, s, c)
    requires !Preservation.ProgramSticks(Meaning(t.env), t.main, s)
    ensures !Simulation.MachineFaults(OnCpu(t), t.main, c)
    ensures Simulation.MachineHalts(OnCpu(t), t.main, c, c') ==>
            exists s' :: Preservation.ProgramHalts(Meaning(t.env), t.main, s, s') && Answers(t, s', c'.mem)
  {
    hide *;
    CpuSimulates(t);
    CpuErasing(t);
    RefinedOnlyComputes(t, Meaning(t.env), OnCpu(t), s, c, c');
  }
}
