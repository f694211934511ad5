// Compiled functions that call compiled functions: the callee's code runs in the
// place of the oracle, on the caller's processor, to any depth of calls.
module Linked {
  import opened Program
  import opened Integers
  import opened ArgBlock
  import opened FrameLayout
  import opened Machine
  import opened Refinement
  import opened Asm
  import opened Codegen
  import opened Named
  import opened Bytes
  import opened Calls
  import opened EndToEnd
  import Emission
  import Preservation
  import Simulation

  // A function, compiled; where its frame and its block lie is up to each call.
  datatype Function = Function(main: Scope, report: Report, frameSize: nat, retSize: nat, argSizes: seq<nat>, env: Env)

  // The functions there are, and what happens to the processor between a caller's
  // call and the callee's prologue, in the trampoline: it uses at most `gap` bytes
  // of stack. A call takes at most `step` bytes in all.
  datatype Linkage = Linkage(functions: nat -> Function, enter: Cpu -> Cpu, gap: nat, step: nat)

  // The callee's frame and block, for a call that entered it in state e with its
  // block at a.
  function Place(f: Function, e: Cpu, a: nat): Target {
    Target(f.main, f.report, f.frameSize, e.regs(Rsp), a, f.retSize, f.argSizes, f.env, e.mem)
  }

  ghost predicate FunctionOk(link: Linkage, f: Function) {
    && Preservation.Faithful(f.main)
    && (forall u: Target :: Targets(u, f.main, f.retSize, f.argSizes, f.report, f.frameSize) ==> TargetOk(u))
    && BlockSize(f.retSize, f.argSizes) + link.gap + f.frameSize <= link.step
  }

  // The callee finds the block in rdi, an aligned stack pointer below the return
  // address and the saved frame pointer, and the memory from the block up as it was.
  ghost predicate EntryOk(link: Linkage, c: Cpu) {
    var e := link.enter(c);
    && e.regs(Rdi) == c.regs(Rsp) && e.regs(Rsp) % 16 == 0
    && c.regs(Rsp) - link.gap <= e.regs(Rsp) <= c.regs(Rsp) - 16
    && forall x :: c.regs(Rsp) <= x ==> e.mem(x) == c.mem(x)
  }

  ghost predicate LinkOk(link: Linkage) {
    (forall k: nat :: FunctionOk(link, link.functions(k))) && forall c: Cpu :: EntryOk(link, c)
  }

  // There is stack for n calls inside one another.
  predicate Room(t: Target, link: Linkage, n: nat) { n * link.step <= t.Bottom() }

  // A trampoline that only makes room.
  function EnterAligned(c: Cpu): Cpu {
    var sp := c.regs(Rsp) - 16;
    c.(regs := Set(Set(c.regs, Rdi, c.regs(Rsp)), Rsp, sp - sp % 16))
  }

  // A linkage: one function, for any program, that may call itself.
  method LinkItself(main: Scope, retSize: nat, argSizes: seq<nat>, env: Env) returns (link: Linkage)
    requires Preservation.Faithful(main)
    ensures LinkOk(link)
    ensures forall k: nat :: var f := link.functions(k);
              f.main == main && f.retSize == retSize && f.argSizes == argSizes && f.env == env
  {
    hide TargetOk, Preservation.Faithful, BlockSize;
    var report, frameSize := PrepareReport(main, retSize, argSizes);
    var f := Function(main, report, frameSize, retSize, argSizes, env);
    link := Linkage((k: nat) => f, EnterAligned, 32, BlockSize(retSize, argSizes) + 32 + frameSize);
    forall c: Cpu ensures EntryOk(link, c) {}
    forall k: nat ensures FunctionOk(link, link.functions(k)) {}
  }

  // ---------- On the processor ----------

  // The operations of a function, with calls at most n deep run by the callees'
  // own code.
  ghost function OnLinked(t: Target, link: Linkage, n: nat): Interp<Cpu>
    decreases n, 1
  {
    var J := OnCpu(t);
    Interp((op: Op, c: Cpu) => ExecLinked(t, link, n, op, c), J.test, J.store, J.destroy, J.declare, J.leave)
  }

  ghost function ExecLinked(t: Target, link: Linkage, n: nat, op: Op, c: Cpu): Option<Cpu>
    decreases n, 0
  {
    if !op.Invoke? then OnCpu(t).exec(op, c)
    else if n == 0 then None
    else
      match RunAsm(t.env, t.rbp, InvokeHead(t.report, op.args, RetSize(op.retType)), c)
      case None => None
      case Some(c1) =>
        match RunCallee(link, n - 1, link.functions(op.callee), c1)
        case None => None
        case Some(c2) => RunAsm(t.env, t.rbp, InvokeTail(t.report, op.args, op.retType, op.ret), c2)
  }

  // The callee's prologue and code, and the way back: the stack pointer is what
  // it was, the other registers what the callee left.
  ghost function RunCallee(link: Linkage, n: nat, f: Function, c: Cpu): Option<Cpu>
    decreases n, 2
  {
    if c.regs(Rsp) < 0 then None
    else
      var e := link.enter(c);
      var u := Place(f, e, c.regs(Rsp));
      match RunAsm(u.env, u.rbp, Prologue(u.frameSize), e)
      case None => None
      case Some(e1) =>
        if exists e' :: Simulation.MachineHalts(OnLinked(u, link, n), u.main, e1, e') then
          var e' :| Simulation.MachineHalts(OnLinked(u, link, n), u.main, e1, e');
          Some(e'.(regs := Set(e'.regs, Rsp, c.regs(Rsp))))
        else None
  }

  // ---------- On named variables ----------

  // The same program over named variables: a call means what the callee's program
  // answers to the values of the arguments.
  ghost function LinkedMeaning(link: Linkage, env: Env, n: nat): Interp<Store>
    decreases n, 1
  {
    var I := Meaning(env);
    Interp((op: Op, s: Store) => LinkedExec(link, env, n, s, op), I.test, I.store, I.destroy, I.declare, I.leave)
  }

  ghost function LinkedExec(link: Linkage, env: Env, n: nat, s: Store, op: Op): Option<Store>
    decreases n, 0
  {
    if !op.Invoke? then ExecOp(env, s, op)
    else if n == 0 || !Supported(op) then None
    else
      var f := link.functions(op.callee);
      if OperandSizes(op.args) != f.argSizes || RetSize(op.retType) != f.retSize then None
      else
        match ArgumentValues(s, op.args)
        case None => None
        case Some(vs) =>
          match Answer(link, n - 1, f, vs)
          case None => None
          case Some(result) => Accept(s, op.retType, op.ret, result)
  }

  // What the callee's program returns, of the size it declares.
  ghost function Answer(link: Linkage, n: nat, f: Function, vs: seq<seq<Byte>>): Option<seq<Byte>>
    decreases n, 2
  {
    if exists s' :: Answered(link, n, f, vs, s') then
      var s' :| Answered(link, n, f, vs, s');
      Some(if s'.ret.Some? then s'.ret.value else [])
    else None
  }

  ghost predicate Answered(link: Linkage, n: nat, f: Function, vs: seq<seq<Byte>>, s': Store)
    decreases n, 2, 0
  {
    && Preservation.ProgramHalts(LinkedMeaning(link, f.env, n), f.main, Store(map[], vs, None, f.retSize), s')
    && (s'.ret.Some? || f.retSize == 0)
  }

  // ---------- The call ----------

  lemma {:induction false} PlaceOk(t: Target, link: Linkage, n: nat, f: Function, c: Cpu)
    requires TargetOk(t) && FunctionOk(link, f) && EntryOk(link, c) && Room(t, link, n + 1)
    requires c.regs(Rsp) == t.Bottom() - BlockSize(f.retSize, f.argSizes)
    ensures 0 <= c.regs(Rsp)
    ensures TargetOk(Place(f, link.enter(c), c.regs(Rsp))) && Room(Place(f, link.enter(c), c.regs(Rsp)), link, n)
  {
    hide TargetOk, BlockSize, Pow256;
    assert t.Bottom() <= t.argsBase < Pow256(8) by { FrameBelow(t); }
    assert (n + 1) * link.step == n * link.step + link.step;
    var u := Place(f, link.enter(c), c.regs(Rsp));
    assert Targets(u, f.main, f.retSize, f.argSizes, f.report, f.frameSize);
  }

  lemma {:induction false} FrameBelow(t: Target)
    requires TargetOk(t)
    ensures t.Bottom() <= t.argsBase < Pow256(8)
  {
    hide IsFrame, Pow256;
  }

  // The filled block holds the arguments, as the callee looks for them.
  lemma {:induction false} BlockHolds(t: Target, f: Function, c: Cpu, vs: seq<seq<Byte>>, m: Mem)
    requires c.regs(Rsp) == t.Bottom() - BlockSize(f.retSize, f.argSizes) && SizesOf(vs) == f.argSizes
    requires forall i: nat :: i < |vs| ==> Placed(t, c.mem, f.argSizes, vs, i)
    requires forall x :: c.regs(Rsp) <= x ==> m(x) == c.mem(x)
    ensures Holds(Read(m, c.regs(Rsp), BlockSize(f.retSize, f.argSizes)), f.retSize, vs)
  {
    hide BlockSize, Prefix;
    var size := BlockSize(f.retSize, f.argSizes);
    var block := Read(m, c.regs(Rsp), size);
    forall j | 0 <= j < |vs| ensures SlotHolds(block, f.retSize, vs, j) {
      SlotInBlock(f.retSize, f.argSizes, j);
      assert Placed(t, c.mem, f.argSizes, vs, j);
      var at := Slot(f.retSize, f.argSizes, j);
      assert block[at..at + |vs[j]|] == Read(c.mem, c.regs(Rsp) + at, |vs[j]|);
    }
  }

  // The callee returns with its program's answer at the floor of the block, and
  // the caller's memory above the block as it was.
  lemma {:induction false} CalleeReturns(t: Target, link: Linkage, n: nat, k: nat, c: Cpu, vs: seq<seq<Byte>>)
    returns (c': Cpu)
    requires LinkOk(link) && TargetOk(t) && Room(t, link, n + 1)
    requires var f := link.functions(k);
             && c.regs(Rsp) == t.Bottom() - BlockSize(f.retSize, f.argSizes) && SizesOf(vs) == f.argSizes
             && (forall i: nat :: i < |vs| ==> Placed(t, c.mem, f.argSizes, vs, i))
             && Answer(link, n, f, vs).Some? && |Answer(link, n, f, vs).value| == f.retSize
    ensures RunCallee(link, n, link.functions(k), c) == Some(c')
    ensures c'.regs(Rsp) == c.regs(Rsp) && SameAbove(t, c.mem, c'.mem)
    ensures Read(c'.mem, c.regs(Rsp), link.functions(k).retSize) == Answer(link, n, link.functions(k), vs).value
    decreases n, 3
  {
    hide TargetOk, BlockSize, RunAsm, Read, Holds, Prologue, Simulation.MachineHalts, Placed, Represents;
    var f := link.functions(k);
    assert FunctionOk(link, f) && EntryOk(link, c);
    PlaceOk(t, link, n, f, c);
    var e := link.enter(c);
    var u := Place(f, e, c.regs(Rsp));
    BlockHolds(t, f, c, vs, e.mem);
    var e1 := PrologueEnters(u, e, vs);
    var s0 := Store(map[], vs, None, f.retSize);
    var s' := AnswerState(link, n, f, vs);
    LinkedComputes(u, link, n, s0, e1, s');
    var e' :| Simulation.MachineHalts(OnLinked(u, link, n), u.main, e1, e') && Answers(u, s', e'.mem);
    c' := e'.(regs := Set(e'.regs, Rsp, c.regs(Rsp)));
    var e'' :| Simulation.MachineHalts(OnLinked(u, link, n), u.main, e1, e'') &&
               RunCallee(link, n, f, c) == Some(e''.(regs := Set(e''.regs, Rsp, c.regs(Rsp))));
    Simulation.MachineHaltsOnce(OnLinked(u, link, n), u.main, e1, e', e'');
    FloorBelow(f.retSize, f.argSizes);
  }

  lemma {:induction false} AnswerState(link: Linkage, n: nat, f: Function, vs: seq<seq<Byte>>) returns (s': Store)
    requires Answer(link, n, f, vs).Some?
    ensures Preservation.ProgramHalts(LinkedMeaning(link, f.env, n), f.main, Store(map[], vs, None, f.retSize), s')
    ensures s'.ret.Some? || f.retSize == 0
    ensures Answer(link, n, f, vs).value == if s'.ret.Some? then s'.ret.value else []
  {
    hide Preservation.ProgramHalts;
    s' :| Answered(link, n, f, vs, s') && Answer(link, n, f, vs) == Some(if s'.ret.Some? then s'.ret.value else []);
  }

  // A call through the callee's code means what the callee's program answers.
  lemma {:induction false} InvokeLinked(t: Target, link: Linkage, n: nat, p: Path, s: Store, c: Cpu, op: Op)
    requires LinkOk(link) && TargetOk(t) && Room(t, link, n) && InScope(t.main, p, s) && Stands(t, s, c)
    requires op.Invoke? && LinkedExec(link, t.env, n, s, op).Some?
    ensures ExecLinked(t, link, n, op, c).Some?
    ensures InScope(t.main, p, LinkedExec(link, t.env, n, s, op).value)
    ensures Stands(t, LinkedExec(link, t.env, n, s, op).value, ExecLinked(t, link, n, op, c).value)
    decreases n, 0
  {
    hide TargetOk, InScope, Represents, RunAsm, InvokeHead, InvokeTail, ArgumentValues, Supported, Write, Read;
    hide Answer, RunCallee, LinkOk, BlockSize, Placed, OperandSizes, RetSize;
    var Invoke(callee, args, retType, ret) := op;
    var f := link.functions(callee);
    var vs := ArgumentValues(s, args).value;
    var result := Answer(link, n - 1, f, vs).value;
    assert |OperandSizes(args)| == |args| by { SizesLength(args); }
    var c1 := HeadRuns(t, p, s, c, args, vs, f.retSize);
    assert |result| == RetSize(retType) by { AcceptedSize(s, retType, ret, result); }
    var c2 := CalleeReturns(t, link, n - 1, callee, c1, vs);
    var c3 := TailRuns(t, c2, args, retType, ret, result);
    StoreAbove(t, p, s, c.mem, c2.mem);
    if ret.Some? { PutRefines(t, p, s, c2.mem, ret.value, result); }
  }

  lemma {:induction false} AcceptedSize(s: Store, retType: Option<Type>, ret: Option<Variable>, result: seq<Byte>)
    requires Accept(s, retType, ret, result).Some?
    ensures |result| == RetSize(retType)
    ensures ret.Some? ==> retType == Some(ret.value.ty) && ret.value.ty.primitive
  {
  }

  // ---------- Whole programs ----------

  lemma {:induction false} LinkedSimulates(t: Target, link: Linkage, n: nat)
    requires LinkOk(link) && TargetOk(t) && Room(t, link, n)
    ensures Simulates(LinkedMeaning(link, t.env, n), OnLinked(t, link, n), Rel(t), t.main)
    decreases n, 1
  {
    hide TargetOk, InScope, Represents, LinkOk, LinkedExec, ExecLinked, ExecOp, TestCond, StoreVar, OnCpu, Declares;
    hide DeclaredAt;
    CpuSimulates(t);
    var I, J, R := LinkedMeaning(link, t.env, n), OnLinked(t, link, n), Rel(t);
    forall p: Path, op: Op, s: Store, c: Cpu | R(p, s, c) && I.exec(op, s).Some?
      ensures J.exec(op, c).Some? && R(p, I.exec(op, s).value, J.exec(op, c).value)
    {
      if op.Invoke? { InvokeLinked(t, link, n, p, s, c, op); } else { OtherLinked(t, link, n, p, s, c, op); }
    }
  }

  lemma {:induction false} OtherLinked(t: Target, link: Linkage, n: nat, p: Path, s: Store, c: Cpu, op: Op)
    requires TargetOk(t) && InScope(t.main, p, s) && Stands(t, s, c) && !op.Invoke?
    requires LinkedExec(link, t.env, n, s, op).Some?
    ensures ExecLinked(t, link, n, op, c).Some?
    ensures InScope(t.main, p, LinkedExec(link, t.env, n, s, op).value)
    ensures Stands(t, LinkedExec(link, t.env, n, s, op).value, ExecLinked(t, link, n, op, c).value)
  {
    hide TargetOk, InScope, Represents, OnCpu, ExecOp;
    OpRefines(t, p, s, c, op);
  }

  lemma {:induction false} LinkedErasing(t: Target, link: Linkage, n: nat)
    ensures Preservation.Erasing(OnLinked(t, link, n))
  {
  }

  // Whenever a program halts whose calls, at most n deep, are answered by the
  // programs they call, its compiled code halts on a processor that runs the
  // compiled code of all of them, with the program's answer.
  lemma {:induction false} LinkedComputes(t: Target, link: Linkage, n: nat, s: Store, c: Cpu, s': Store)
    requires LinkOk(link) && TargetOk(t) && Room(t, link, n)
    requires Preservation.Faithful(t.main) && Entered(t, s, c)
    requires Preservation.ProgramHalts(LinkedMeaning(link, t.env, n), t.main, s, s')
    ensures exists c' :: Simulation.MachineHalts(OnLinked(t, link, n), t.main, c, c') && Answers(t, s', c'.mem)
    decreases n, 2
  {
    hide *;
    LinkedSimulates(t, link, n);
    LinkedErasing(t, link, n);
    RefinedComputes(t, LinkedMeaning(link, t.env, n), OnLinked(t, link, n), s, c, s');
  }

  // And if it never gets stuck, its code never faults, in itself or in a callee,
  // and halts with nothing but the program's answer.
  lemma {:induction false} LinkedOnlyComputes(t: Target, link: Linkage, n: nat, s: Store, c: Cpu, c': Cpu)
    requires LinkOk(link) && TargetOk(t) && Room(t, link, n)
    requires Preservation.Faithful(t.main) && Entered(t, s, c)
    requires !Preservation.ProgramSticks(LinkedMeaning(link, t.env, n), t.main, s)
    ensures !Simulation.MachineFaults(OnLinked(t, link, n), t.main, c)
    ensures Simulation.MachineHalts(OnLinked(t, link, n), t.main, c, c') ==>
            exists s' :: Preservation.ProgramHalts(LinkedMeaning(link, t.env, n), t.main, s, s') &&
              Answers(t, s', c'.mem)
  {
    hide *;
    LinkedSimulates(t, link, n);
    LinkedErasing(t, link, n);
    RefinedOnlyComputes(t, LinkedMeaning(link, t.env, n), OnLinked(t, link, n), s, c, c');
  }
}
