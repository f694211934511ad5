// Which programs code generation accepts, told by the instructions it would have
// to emit.
module Assembled {
  import opened Program
  import opened Emission
  import opened Worklist
  import opened ArgBlock
  import opened Asm
  import opened Codegen

  ghost predicate AllEncodable(code: seq<Instruction>) { forall i :: i in code ==> Encodable(i) }

  lemma {:induction false} EncodableConcat(a: seq<Instruction>, b: seq<Instruction>)
    ensures AllEncodable(a + b) <==> AllEncodable(a) && AllEncodable(b)
  {
    if AllEncodable(a + b) {
      forall i | i in a ensures Encodable(i) { assert i in a + b; }
      forall i | i in b ensures Encodable(i) { assert i in a + b; }
    }
  }

  // An instruction that does not exist cannot be run.
  lemma {:induction false} OnlyEncodableRuns(env: Env, rbp: int, code: seq<Instruction>, c: Cpu)
    requires RunAsm(env, rbp, code, c).Some?
    ensures AllEncodable(code)
    decreases |code|
  {
    if code != [] {
      OnlyEncodableRuns(env, rbp, code[1..], Exec(env, rbp, code[0], c).value);
      assert code == [code[0]] + code[1..];
    }
  }

  lemma {:induction false} CopyEncodable(ty: Type, assigning: bool)
    ensures AllEncodable(VarCopy(ty, assigning)) <==> Movable(ty)
  {
    if ty.primitive { assert Load(ty.size, Rdx, Rcx) in VarCopy(ty, assigning); }
  }

  lemma {:induction false} OperandsEncodable(r: Report, e: Expr)
    ensures AllEncodable(Operands(r, e)) <==> SupportedExpr(e)
  {
    var w := e.ty.size;
    var left := LoadOperand(r, w, Rax, e.left);
    assert left[|left| - 1] in Operands(r, e);
  }

  lemma {:induction false} ComputeEncodable(e: Expr)
    ensures SupportedExpr(e) ==> AllEncodable(Compute(e))
  {
  }

  // A condition can be tested exactly when its instructions exist.
  lemma {:induction false} CondEncodable(r: Report, e: Expr)
    ensures SupportedExpr(e) <==> AllEncodable(EmitCond(r, e))
  {
    hide AllEncodable, SupportedExpr;
    OperandsEncodable(r, e);
    ComputeEncodable(e);
    EncodableConcat(Operands(r, e), Compute(e));
  }

  // So it is with a value to be returned.
  lemma {:induction false} StoreEncodable(r: Report, v: Variable)
    ensures Movable(v.ty) <==> AllEncodable(EmitStore(r, v))
  {
    hide AllEncodable, Movable;
    CopyEncodable(v.ty, false);
    var loads := [LoadSlot(Rbx, -8), Lea(Rcx, r.OffsetOf(v))];
    Unsized(loads);
    EncodableConcat(loads, VarCopy(v.ty, false));
  }

  // Instructions on whole registers always exist.
  predicate IsSized(i: Instruction) {
    i.Load? || i.StoreReg? || i.MovImm? || i.StoreImm? || i.Alu? || i.DivRbx? || i.CmpAB?
  }

  lemma {:induction false} Unsized(code: seq<Instruction>)
    requires forall i :: i in code ==> !IsSized(i)
    ensures AllEncodable(code)
  {
  }

  lemma {:induction false} PushEncodable(bytes: seq<Byte>)
    ensures AllEncodable(PushObject(bytes))
  {
  }

  lemma {:induction false} ImmEncodable(r: Report, v: Variable, bytes: seq<Byte>, assigning: bool)
    ensures Movable(v.ty) <==> AllEncodable(CopyFrom(r, v, FromImm(bytes), assigning))
  {
    var code := CopyFrom(r, v, FromImm(bytes), assigning);
    if v.ty.primitive {
      assert code[1] in code;
    } else {
      PushEncodable(bytes);
      EncodableConcat(PushObject(bytes), CopyPushed(v.ty, assigning));
      EncodableConcat([Lea(Rdi, r.OffsetOf(v)), SubImm(Rsp, v.ty.size)],
                      PushObject(bytes) + CopyPushed(v.ty, assigning));
    }
  }

  lemma {:induction false} SourceEncodable(r: Report, v: Variable, src: Source, assigning: bool)
    ensures (match src case FromExpr(e) => SupportedExpr(e) case _ => Movable(v.ty)) <==>
            AllEncodable(CopyFrom(r, v, src, assigning))
  {
    hide AllEncodable, SupportedExpr, Movable;
    match src {
      case FromImm(bytes) => ImmEncodable(r, v, bytes, assigning);
      case FromArg(i) =>
        var load, add := [LoadSlot(R10, -8), Lea(Rbx, r.OffsetOf(v))], [MovReg(Rcx, R10), AddImm(Rcx, r.ArgAt(i))];
        Unsized(load);
        Unsized(add);
        CopyEncodable(v.ty, assigning);
        EncodableConcat(add, VarCopy(v.ty, assigning));
        EncodableConcat(load, add + VarCopy(v.ty, assigning));
      case FromVar(u) =>
        var load := [Lea(Rbx, r.OffsetOf(v)), Lea(Rcx, r.OffsetOf(u))];
        Unsized(load);
        CopyEncodable(v.ty, assigning);
        EncodableConcat(load, VarCopy(v.ty, assigning));
      case FromExpr(e) => ExprEncodable(r, v, e, assigning);
    }
  }

  lemma {:induction false} ExprEncodable(r: Report, v: Variable, e: Expr, assigning: bool)
    ensures SupportedExpr(e) <==> AllEncodable(CopyFrom(r, v, FromExpr(e), assigning))
  {
    hide AllEncodable, SupportedExpr;
    var lea, save := [Lea(Rcx, r.OffsetOf(v))], [StoreReg(ResultSize(e), Rcx, Rax)];
    OperandsEncodable(r, e);
    ComputeEncodable(e);
    Unsized(lea);
    SaveEncodable(e);
    EncodableConcat(Compute(e), save);
    EncodableConcat(lea, Compute(e) + save);
    EncodableConcat(Operands(r, e), lea + (Compute(e) + save));
  }

  lemma {:induction false} SaveEncodable(e: Expr)
    ensures SupportedExpr(e) ==> AllEncodable([StoreReg(ResultSize(e), Rcx, Rax)])
  {
  }

  lemma {:induction false} ArgumentEncodable(r: Report, x: Operand)
    ensures SupportedOperand(x) <==> AllEncodable(EmitArgument(r, x))
  {
    match x {
      case Imm(bytes) => assert EmitArgument(r, x)[2] in EmitArgument(r, x);
      case Var(v) =>
        var make, lea := [SubImm(R10, v.ty.size), MovReg(Rbx, R10)], [Lea(Rcx, r.OffsetOf(v))];
        CopyEncodable(v.ty, false);
        EncodableConcat(lea, VarCopy(v.ty, false));
        EncodableConcat(make, lea + VarCopy(v.ty, false));
    }
  }

  lemma {:induction false} ArgumentsEncodable(r: Report, args: seq<Operand>, k: nat)
    requires k <= |args|
    ensures (forall i :: 0 <= i < k ==> SupportedOperand(args[i])) <==> AllEncodable(EmitArguments(r, args, k))
  {
    hide AllEncodable, SupportedOperand, EmitArgument;
    if k == 0 {
      Unsized([]);
    } else {
      ArgumentsEncodable(r, args, k - 1);
      ArgumentEncodable(r, args[k - 1]);
      EncodableConcat(EmitArguments(r, args, k - 1), EmitArgument(r, args[k - 1]));
    }
  }

  lemma {:induction false} DropsEncodable(args: seq<Operand>, k: nat)
    requires k <= |args|
    ensures AllEncodable(DropArguments(args, k))
  {
    if k > 0 { DropsEncodable(args, k - 1); }
  }

  lemma {:induction false} ResultEncodable(r: Report, retType: Option<Type>, ret: Option<Variable>)
    ensures (retType.Some? && ret.Some? ==> Movable(ret.value.ty)) <==> AllEncodable(CopyResult(r, retType, ret))
  {
    if retType.Some? && ret.Some? {
      var load := [Lea(Rbx, r.OffsetOf(ret.value)), MovReg(Rcx, R11)];
      CopyEncodable(ret.value.ty, false);
      EncodableConcat(load, VarCopy(ret.value.ty, false));
    }
  }

  lemma {:induction false} CallEncodable(r: Report, callee: nat, args: seq<Operand>, retType: Option<Type>,
                                         ret: Option<Variable>)
    ensures Supported(Invoke(callee, args, retType, ret)) <==>
            AllEncodable(InvokeFunction(r, callee, args, retType, ret))
  {
    hide AllEncodable, Movable, SupportedOperand, CopyResult, EmitArguments, DropArguments;
    var retSize, sizes := RetSize(retType), OperandSizes(args);
    var make := [MovReg(R10, Rsp), SubImm(Rsp, BlockSize(retSize, sizes))];
    var call := [MovReg(Rsi, Rsp), CallTrampoline(callee, retSize, sizes)];
    var keep := [MovReg(R11, Rsp), AddImm(Rsp, BlockSize(retSize, sizes))];
    var back := [MovReg(R10, Rsp)];
    Unsized(make); Unsized(call); Unsized(keep); Unsized(back);
    ArgumentsEncodable(r, args, |args|);
    DropsEncodable(args, |args|);
    ResultEncodable(r, retType, ret);
    EncodableConcat(make, EmitArguments(r, args, |args|));
    EncodableConcat(back, DropArguments(args, |args|));
    EncodableConcat(back + DropArguments(args, |args|), CopyResult(r, retType, ret));
    EncodableConcat(keep, (back + DropArguments(args, |args|)) + CopyResult(r, retType, ret));
    EncodableConcat(call, InvokeTail(r, args, retType, ret));
    EncodableConcat(InvokeHead(r, args, retSize), call + InvokeTail(r, args, retType, ret));
  }

  // An operation is supported exactly when every instruction it is emitted as
  // exists, whatever the frame report says.
  lemma {:induction false} SupportedExactly(r: Report, op: Op)
    ensures Supported(op) <==> AllEncodable(EmitOp(r, op))
  {
    hide AllEncodable, Movable, SupportedExpr, SupportedOperand, CopyFrom, InvokeFunction;
    match op {
      case Construct(_) => Unsized(EmitOp(r, op));
      case CopyConstruct(v, src) => SourceEncodable(r, v, src, false);
      case Assign(v, src) => SourceEncodable(r, v, src, true);
      case Convert(_, _, _) => Unsized(EmitOp(r, op));
      case Invoke(callee, args, retType, ret) => CallEncodable(r, callee, args, retType, ret);
    }
  }

  // ---------- Whole programs ----------

  // The flat instruction can be turned into instructions of the processor.
  ghost predicate Assembles(r: Report, x: Flat) {
    match x
    case Do(op) => AllEncodable(EmitOp(r, op))
    case Test(e) => AllEncodable(EmitCond(r, e))
    case Store(v) => AllEncodable(EmitStore(r, v))
    case Destroy(v) => AllEncodable(EmitDestroy(r, v))
    case _ => true
  }

  ghost predicate AllAssemble(r: Report, code: seq<Flat>) { forall x :: x in code ==> Assembles(r, x) }

  lemma {:induction false} AssembleConcat(r: Report, a: seq<Flat>, b: seq<Flat>)
    ensures AllAssemble(r, a + b) <==> AllAssemble(r, a) && AllAssemble(r, b)
  {
    hide Assembles;
    if AllAssemble(r, a + b) {
      forall x | x in a ensures Assembles(r, x) { assert x in a + b; }
      forall x | x in b ensures Assembles(r, x) { assert x in a + b; }
    }
  }

  predicate NoReturn(s: Scope, i: nat, n: nat)
    requires n <= |s.instrs|
  {
    forall j :: i <= j < n ==> !s.instrs[j].Return?
  }

  // The instruction k of the scope at p is come upon, from instruction i of the
  // main scope on: in no scope on the way is there a `return` before.
  predicate Met(s: Scope, i: nat, p: Path, k: nat)
    decreases p
  {
    if p == [] then i <= k < |s.instrs| && NoReturn(s, i, k)
    else
      i <= p[0] < |s.instrs| && NoReturn(s, i, p[0]) && (s.instrs[p[0]].Nested? || s.instrs[p[0]].Branch?) &&
      Met(s.instrs[p[0]].scope, 0, p[1..], k)
  }

  lemma {:induction false} MetIsScope(s: Scope, i: nat, p: Path, k: nat)
    requires Met(s, i, p, k)
    ensures IsScope(s, p) && k < |ScopeAt(s, p).instrs|
    decreases p
  {
    if p != [] { MetIsScope(s.instrs[p[0]].scope, 0, p[1..], k); }
  }

  // Primitive conversions are refused, and so are branches that are not under
  // branch bodies only, for which there are no labels.
  predicate Refused(s: Scope, p: Path, k: nat, through: bool)
    requires IsScope(s, p) && k < |ScopeAt(s, p).instrs|
  {
    var x := ScopeAt(s, p).instrs[k];
    x.PrimitiveConvert? || (x.Branch? && !(through && ThroughBranches(s, p)))
  }

  ghost predicate NoneRefused(s: Scope, i: nat, through: bool) {
    forall p: Path, k: nat :: Met(s, i, p, k) ==>
      IsScope(s, p) && k < |ScopeAt(s, p).instrs| && !Refused(s, p, k, through)
  }

  lemma {:induction false} MetHere(s: Scope, i: nat, p: Path, k: nat)
    requires i < |s.instrs|
    ensures Met(s, i, p, k) <==>
            (p == [] && k == i) ||
            (p != [] && p[0] == i && (s.instrs[i].Nested? || s.instrs[i].Branch?) &&
             Met(s.instrs[i].scope, 0, p[1..], k)) ||
            (!s.instrs[i].Return? && Met(s, i + 1, p, k))
  {
    if p == [] {
      if i < k && !s.instrs[i].Return? && Met(s, i + 1, p, k) { assert NoReturn(s, i, k); }
    } else if i < p[0] < |s.instrs| && !s.instrs[i].Return? {
      assert NoReturn(s, i, p[0]) <==> NoReturn(s, i + 1, p[0]);
    }
  }

  lemma {:induction false} RefusedBelow(s: Scope, p: Path, k: nat, through: bool)
    requires p != [] && IsScope(s, p) && k < |ScopeAt(s, p).instrs|
    ensures IsScope(s.instrs[p[0]].scope, p[1..]) && k < |ScopeAt(s.instrs[p[0]].scope, p[1..]).instrs|
    ensures Refused(s, p, k, through) <==>
            Refused(s.instrs[p[0]].scope, p[1..], k, through && s.instrs[p[0]].Branch?)
  {
  }

  predicate RefusedHere(s: Scope, i: nat, through: bool)
    requires i < |s.instrs|
  {
    s.instrs[i].PrimitiveConvert? || (s.instrs[i].Branch? && !through)
  }

  lemma {:induction false} NoneRefusedSplit(s: Scope, i: nat, through: bool)
    requires i < |s.instrs|
    ensures NoneRefused(s, i, through) <==>
            && !RefusedHere(s, i, through)
            && (s.instrs[i].Nested? || s.instrs[i].Branch? ==>
                  NoneRefused(s.instrs[i].scope, 0, through && s.instrs[i].Branch?))
            && (!s.instrs[i].Return? ==> NoneRefused(s, i + 1, through))
  {
    hide Refused, IsScope, ScopeAt;
    MetHere(s, i, [], i);
    RefusedAtTop(s, i, through);
    if NoneRefused(s, i, through) {
      assert Met(s, i, [], i);
      if s.instrs[i].Nested? || s.instrs[i].Branch? {
        var b, t := s.instrs[i].scope, through && s.instrs[i].Branch?;
        forall p: Path, k: nat | Met(b, 0, p, k)
          ensures IsScope(b, p) && k < |ScopeAt(b, p).instrs| && !Refused(b, p, k, t)
        {
          assert ([i] + p)[1..] == p;
          MetHere(s, i, [i] + p, k);
          assert Met(s, i, [i] + p, k);
          RefusedBelow(s, [i] + p, k, through);
        }
        assert NoneRefused(b, 0, t);
      }
      if !s.instrs[i].Return? { NoneRefusedNext(s, i, i + 1, through); }
    } else {
      SomeRefused(s, i, through);
    }
  }

  lemma {:induction false} NoneRefusedNext(s: Scope, i: nat, next: nat, through: bool)
    requires next == i + 1 <= |s.instrs| && !s.instrs[i].Return? && NoneRefused(s, i, through)
    ensures NoneRefused(s, next, through)
  {
    hide Refused, IsScope, ScopeAt;
    forall p: Path, k: nat | Met(s, next, p, k)
      ensures IsScope(s, p) && k < |ScopeAt(s, p).instrs| && !Refused(s, p, k, through)
    {
      MetHere(s, i, p, k);
    }
  }

  lemma {:induction false} RefusedAtTop(s: Scope, i: nat, through: bool)
    requires i < |s.instrs|
    ensures IsScope(s, []) && i < |ScopeAt(s, []).instrs|
    ensures Refused(s, [], i, through) <==> RefusedHere(s, i, through)
  {
  }

  lemma {:induction false} SomeRefused(s: Scope, i: nat, through: bool)
    requires i < |s.instrs| && !NoneRefused(s, i, through)
    ensures RefusedHere(s, i, through) ||
            ((s.instrs[i].Nested? || s.instrs[i].Branch?) &&
             !NoneRefused(s.instrs[i].scope, 0, through && s.instrs[i].Branch?)) ||
            (!s.instrs[i].Return? && !NoneRefused(s, i + 1, through))
  {
    hide Refused, IsScope, ScopeAt;
    var p: Path, k: nat :| Met(s, i, p, k) &&
      !(IsScope(s, p) && k < |ScopeAt(s, p).instrs| && !Refused(s, p, k, through));
    MetIsScope(s, i, p, k);
    MetHere(s, i, p, k);
    if p == [] && k == i {
      RefusedAtTop(s, i, through);
    } else if p != [] && p[0] == i && (s.instrs[i].Nested? || s.instrs[i].Branch?) &&
              Met(s.instrs[i].scope, 0, p[1..], k) {
      RefusedBelow(s, p, k, through);
      MetIsScope(s.instrs[i].scope, 0, p[1..], k);
    }
  }

  // The loop a frame is the body of, if it is one.
  predicate SameLoop(kind: Kind, branch: Option<BranchKind>) {
    match kind
    case OfWhile(c) => branch == Some(While(c))
    case _ => !(branch.Some? && branch.value.While?)
  }

  lemma {:induction false} DestroysAssemble(r: Report, f: Frame)
    ensures AllAssemble(r, Destroys(f))
  {
    forall x | x in Destroys(f) ensures Assembles(r, x) { Unsized(EmitDestroy(r, x.v)); }
  }

  lemma {:induction false} UnwindAssembles(r: Report, frames: seq<Frame>)
    ensures AllAssemble(r, UnwindCode(frames))
    decreases |frames|
  {
    hide AllAssemble, Destroys;
    if frames == [] {
      assert AllAssemble(r, []) by { NothingAssembles(r); }
    } else {
      DestroysAssemble(r, frames[|frames| - 1]);
      UnwindAssembles(r, frames[..|frames| - 1]);
      AssembleConcat(r, Destroys(frames[|frames| - 1]), UnwindCode(frames[..|frames| - 1]));
    }
  }

  lemma {:induction false} NothingAssembles(r: Report)
    ensures AllAssemble(r, [])
  {
  }

  // Labels and jumps are always there.
  lemma {:induction false} PlainAssemble(r: Report, code: seq<Flat>)
    requires forall x :: x in code ==> !x.Do? && !x.Test? && !x.Store? && !x.Destroy?
    ensures AllAssemble(r, code)
  {
  }

  lemma {:induction false} ClosingAssembles(r: Report, f: Frame, branch: Option<BranchKind>)
    requires f.Valid() && SameLoop(f.kind, branch)
    ensures AllAssemble(r, Closing(f)) <==>
            (branch.Some? && branch.value.While? ==> SupportedExpr(branch.value.cond))
  {
    hide SupportedExpr, AllEncodable, EmitCond;
    match f.kind {
      case OfWhile(c) =>
        CondEncodable(r, c);
        assert Closing(f)[1] in Closing(f);
      case _ => PlainAssemble(r, Closing(f));
    }
  }

  lemma {:induction false} ReturnAssembles(r: Report, below: seq<Frame>, f: Frame, v: Option<Variable>)
    ensures AllAssemble(r, ReturnCode(below, f, v)) <==> (v.Some? ==> Movable(v.value.ty))
  {
    hide AllAssemble, UnwindCode, Movable, AllEncodable;
    UnwindAssembles(r, below + [f]);
    PlainAssemble(r, [Jmp(Exit)]);
    PlainAssemble(r, EndBind(f));
    AssembleConcat(r, StoreCode(v), UnwindCode(below + [f]));
    AssembleConcat(r, StoreCode(v) + UnwindCode(below + [f]), [Jmp(Exit)]);
    AssembleConcat(r, StoreCode(v) + UnwindCode(below + [f]) + [Jmp(Exit)], EndBind(f));
    StoreAssembles(r, v);
  }

  lemma {:induction false} StoreAssembles(r: Report, v: Option<Variable>)
    ensures AllAssemble(r, StoreCode(v)) <==> (v.Some? ==> Movable(v.value.ty))
  {
    hide Movable, AllEncodable;
    if v.Some? {
      StoreEncodable(r, v.value);
      assert Store(v.value) in StoreCode(v);
    }
  }

  lemma {:induction false} HeadAssembles(r: Report, f: Frame)
    requires f.at < |f.scope.instrs| && f.scope.instrs[f.at].Branch?
    ensures AllAssemble(r, Head(f)) <==>
            (f.scope.instrs[f.at].kind.If? ==> SupportedExpr(f.scope.instrs[f.at].kind.cond))
  {
    hide SupportedExpr, AllEncodable, EmitCond;
    match f.scope.instrs[f.at].kind {
      case If(c) =>
        CondEncodable(r, c);
        assert Head(f)[0] in Head(f);
      case _ => PlainAssemble(r, Head(f));
    }
  }

  // What is emitted from a point on can be assembled, and nothing from there on is
  // refused, exactly when generation goes through from there.
  lemma {:induction false} EmittableHere(r: Report, below: seq<Frame>, f: Frame, through: bool,
                                         branch: Option<BranchKind>)
    requires f.Valid() && SameLoop(f.kind, branch)
    ensures EmittableFrom(f.scope, f.at, through, branch) <==>
            AllAssemble(r, Emit(below, f)) && NoneRefused(f.scope, f.at, through)
    decreases f.scope, |f.scope.instrs| - f.at, 1
  {
    hide AllAssemble, NoneRefused, SupportedExpr, Destroys, Closing, Opening, ReturnCode, Movable, Piece;
    if f.at == |f.scope.instrs| {
      DestroysAssemble(r, f);
      ClosingAssembles(r, f, branch);
      AssembleConcat(r, Destroys(f), Closing(f));
      NothingMet(f.scope, through);
    } else {
      OpeningAssembles(r, f);
      NoneRefusedSplit(f.scope, f.at, through);
      if f.scope.instrs[f.at].Return? {
        var v := f.scope.instrs[f.at].v;
        ReturnAssembles(r, below, f, v);
        AssembleConcat(r, Opening(f), ReturnCode(below, f, v));
      } else {
        AssembleConcat(r, Opening(f), Piece(below, f));
        AssembleConcat(r, Opening(f) + Piece(below, f), Emit(below, f.Next()));
        EmittableHere(r, below, f.Next(), through, branch);
        PieceEmittable(r, below, f, through);
      }
    }
  }

  lemma {:induction false} NothingMet(s: Scope, through: bool)
    ensures NoneRefused(s, |s.instrs|, through)
  {
  }

  lemma {:induction false} OpeningAssembles(r: Report, f: Frame)
    ensures AllAssemble(r, Opening(f))
  {
    PlainAssemble(r, Opening(f));
  }

  // The instruction at f.at by itself, with the body it opens.
  predicate EmittableOne(s: Scope, i: nat, through: bool)
    requires i < |s.instrs|
  {
    match s.instrs[i]
    case Effect(op) => Supported(op)
    case Nested(b) => EmittableFrom(b, 0, false, None)
    case Branch(k, b) => through && (k.If? ==> SupportedExpr(k.cond)) && EmittableFrom(b, 0, through, Some(k))
    case PrimitiveConvert => false
    case _ => true
  }

  lemma {:induction false} PieceEmittable(r: Report, below: seq<Frame>, f: Frame, through: bool)
    requires f.Valid() && f.at < |f.scope.instrs| && !f.scope.instrs[f.at].Return?
    ensures EmittableOne(f.scope, f.at, through) <==>
            && AllAssemble(r, Piece(below, f)) && !RefusedHere(f.scope, f.at, through)
            && (f.scope.instrs[f.at].Nested? || f.scope.instrs[f.at].Branch? ==>
                  NoneRefused(f.scope.instrs[f.at].scope, 0, through && f.scope.instrs[f.at].Branch?))
    decreases f.scope, |f.scope.instrs| - f.at, 0
  {
    hide AllAssemble, NoneRefused, SupportedExpr, Emit, Supported, Head, BreakCode, EmittableFrom;
    match f.scope.instrs[f.at] {
      case Effect(op) => OpAssembles(r, op);
      case Nested(b) => EmittableHere(r, below + [f], f.Sub(), false, None);
      case Branch(k, b) =>
        HeadAssembles(r, f);
        if through { EmittableHere(r, below + [f], f.Sub(), through, Some(k)); }
        AssembleConcat(r, Head(f), Emit(below + [f], f.Sub()));
      case Break => BreakAssembles(r, below, f);
      case _ => PlainAssemble(r, []);
    }
  }

  lemma {:induction false} OpAssembles(r: Report, op: Op)
    ensures AllAssemble(r, [Do(op)]) <==> Supported(op)
  {
    hide Supported, AllEncodable;
    SupportedExactly(r, op);
    assert [Do(op)][0] in [Do(op)];
  }

  lemma {:induction false} BreakAssembles(r: Report, below: seq<Frame>, f: Frame)
    ensures AllAssemble(r, BreakCode(below, f))
  {
    hide AllAssemble, Destroys;
    match InnermostLoop(below + [f]) {
      case None => PlainAssemble(r, []);
      case Some(loop) =>
        DestroysAssemble(r, f);
        PlainAssemble(r, [Jmp(LoopEnd(loop))]);
        AssembleConcat(r, Destroys(f), [Jmp(LoopEnd(loop))]);
    }
  }

  lemma {:induction false} NoneRefusedMeans(main: Scope)
    ensures NoneRefused(main, 0, true) <==>
            forall p: Path, k: nat :: Met(main, 0, p, k) ==>
              IsScope(main, p) && k < |ScopeAt(main, p).instrs| &&
              !ScopeAt(main, p).instrs[k].PrimitiveConvert? &&
              (ScopeAt(main, p).instrs[k].Branch? ==> ThroughBranches(main, p))
  {
    if NoneRefused(main, 0, true) {
      forall p: Path, k: nat | Met(main, 0, p, k)
        ensures IsScope(main, p) && k < |ScopeAt(main, p).instrs|
        ensures !ScopeAt(main, p).instrs[k].PrimitiveConvert?
        ensures ScopeAt(main, p).instrs[k].Branch? ==> ThroughBranches(main, p)
      {
        assert !Refused(main, p, k, true);
      }
    } else {
      var p: Path, k: nat :| Met(main, 0, p, k) &&
        !(IsScope(main, p) && k < |ScopeAt(main, p).instrs| && !Refused(main, p, k, true));
      MetIsScope(main, 0, p, k);
    }
  }

  // A program is accepted exactly when every instruction of its code exists on the
  // processor, it comes upon no primitive conversion, and every branch it comes
  // upon is reached through branch bodies only.
  lemma {:induction false} EmittableExactly(r: Report, main: Scope)
    ensures Emittable(main) <==>
            && (forall x :: x in Compile(main) ==> Assembles(r, x))
            && (forall p: Path, k: nat :: Met(main, 0, p, k) ==>
                  IsScope(main, p) && k < |ScopeAt(main, p).instrs| &&
                  !ScopeAt(main, p).instrs[k].PrimitiveConvert? &&
                  (ScopeAt(main, p).instrs[k].Branch? ==> ThroughBranches(main, p)))
  {
    hide Emit, EmittableFrom, Assembles, IsScope, ScopeAt, Met, ThroughBranches;
    EmittableHere(r, [], MainFrame(main), true, None);
    PlainAssemble(r, [Bind(Exit), Leave]);
    AssembleConcat(r, Emit([], MainFrame(main)), [Bind(Exit), Leave]);
    assert AllAssemble(r, Compile(main)) <==> forall x :: x in Compile(main) ==> Assembles(r, x);
    NoneRefusedMeans(main);
  }
}
