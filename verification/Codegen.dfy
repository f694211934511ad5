// The instructions each straight-line operation is emitted as.
module Codegen {
  import opened Program
  import opened Integers
  import opened ArgBlock
  import opened Asm

  // What the frame report and the function's declaration tell code generation.
  datatype Report = Report(variables: map<Path, int>, argsMap: map<nat, nat>)
  {
    function OffsetOf(v: Variable): int { if v.site in variables then variables[v.site] else 0 }

    function ArgAt(i: nat): int { if i in argsMap then argsMap[i] else 0 }
  }

  // Copies what rcx points at to what rbx points at.
  function VarCopy(ty: Type, assigning: bool): seq<Instruction> {
    if ty.primitive then [Load(ty.size, Rdx, Rcx), StoreReg(ty.size, Rbx, Rdx)]
    else [MovReg(Rdi, Rbx), MovReg(Rsi, Rcx)] + [CallCopy(ty, assigning)]
  }

  function LoadOperand(r: Report, w: nat, dst: Reg, x: Operand): seq<Instruction> {
    match x
    case Imm(bytes) => [MovImm(w, dst, bytes)]
    case Var(v) => [Lea(R10, r.OffsetOf(v)), Load(w, dst, R10)]
  }

  // Computes on rax and rbx, leaving the result in rax or al.
  function Compute(e: Expr): seq<Instruction> {
    var w := e.ty.size;
    if IsComparison(e.op) then [CmpAB(w), SetAl(ConditionFor(e.op, e.ty.signed))]
    else match e.op
      case Div => [ZeroRdx, DivRbx(w, e.ty.signed)]
      case Mod => [ZeroRdx, DivRbx(w, e.ty.signed)] + [MovReg(Rax, Rdx)]
      case _ => [Alu(e.op, w)]
  }

  function Operands(r: Report, e: Expr): seq<Instruction> {
    LoadOperand(r, e.ty.size, Rax, e.left) + LoadOperand(r, e.ty.size, Rbx, e.right)
  }

  function ResultSize(e: Expr): nat { if IsComparison(e.op) then 1 else e.ty.size }

  // The bytes of an object given as an immediate, put at the stack pointer.
  function PushObject(bytes: seq<Byte>): seq<Instruction> {
    if |bytes| in {1, 2, 4} then [StoreImm(|bytes|, Rsp, 0, bytes)]
    else if |bytes| == 8 then [MovImm(8, Rcx, bytes), StoreReg(8, Rsp, Rcx)]
    else seq(|bytes|, k requires 0 <= k < |bytes| => StoreImm(1, Rsp, k, [bytes[k]]))
  }

  // It is copied from there.
  function CopyPushed(ty: Type, assigning: bool): seq<Instruction> {
    [MovReg(Rsi, Rsp), CallCopy(ty, assigning)] + [AddImm(Rsp, ty.size)]
  }

  function CopyFrom(r: Report, v: Variable, src: Source, assigning: bool): seq<Instruction> {
    match src
    case FromImm(bytes) =>
      if v.ty.primitive then
        [Lea(Rdi, r.OffsetOf(v)), MovImm(v.ty.size, Rcx, bytes)] + [StoreReg(v.ty.size, Rdi, Rcx)]
      else [Lea(Rdi, r.OffsetOf(v)), SubImm(Rsp, v.ty.size)] + (PushObject(bytes) + CopyPushed(v.ty, assigning))
    case FromArg(i) =>
      [LoadSlot(R10, -8), Lea(Rbx, r.OffsetOf(v))] +
      ([MovReg(Rcx, R10), AddImm(Rcx, r.ArgAt(i))] + VarCopy(v.ty, assigning))
    case FromVar(u) =>
      [Lea(Rbx, r.OffsetOf(v)), Lea(Rcx, r.OffsetOf(u))] + VarCopy(v.ty, assigning)
    case FromExpr(e) =>
      Operands(r, e) + ([Lea(Rcx, r.OffsetOf(v))] + (Compute(e) + [StoreReg(ResultSize(e), Rcx, Rax)]))
  }

  // ---------- Calls ----------

  function OperandSize(x: Operand): nat {
    match x case Imm(bytes) => |bytes| case Var(v) => v.ty.size
  }

  function OperandSizes(args: seq<Operand>): seq<nat> {
    seq(|args|, i requires 0 <= i < |args| => OperandSize(args[i]))
  }

  // One argument, moved below r10.
  function EmitArgument(r: Report, x: Operand): seq<Instruction> {
    match x
    case Imm(bytes) =>
      [SubImm(R10, |bytes|), MovReg(Rdi, R10)] + [MovImm(|bytes|, Rcx, bytes), StoreReg(|bytes|, Rdi, Rcx)]
    case Var(v) =>
      [SubImm(R10, v.ty.size), MovReg(Rbx, R10)] + ([Lea(Rcx, r.OffsetOf(v))] + VarCopy(v.ty, false))
  }

  // The first k arguments, in order.
  function EmitArguments(r: Report, args: seq<Operand>, k: nat): seq<Instruction>
    requires k <= |args|
  {
    if k == 0 then [] else EmitArguments(r, args, k - 1) + EmitArgument(r, args[k - 1])
  }

  // Walks back over the arguments of a finished call; primitive ones need no destructor.
  function DropArguments(args: seq<Operand>, k: nat): seq<Instruction>
    requires k <= |args|
  {
    if k == 0 then [] else DropArguments(args, k - 1) + [SubImm(R10, OperandSize(args[k - 1]))]
  }

  function RetSize(retType: Option<Type>): nat {
    match retType case None => 0 case Some(ty) => ty.size
  }

  // The block is made below the stack pointer and filled.
  function InvokeHead(r: Report, args: seq<Operand>, retSize: nat): seq<Instruction> {
    [MovReg(R10, Rsp), SubImm(Rsp, BlockSize(retSize, OperandSizes(args)))] + EmitArguments(r, args, |args|)
  }

  // It is given back before the result is copied out of it.
  function InvokeTail(r: Report, args: seq<Operand>, retType: Option<Type>, ret: Option<Variable>): seq<Instruction> {
    [MovReg(R11, Rsp), AddImm(Rsp, BlockSize(RetSize(retType), OperandSizes(args)))] +
    (([MovReg(R10, Rsp)] + DropArguments(args, |args|)) + CopyResult(r, retType, ret))
  }

  // In between, the callee's trampoline is handed the block.
  function InvokeFunction(r: Report, callee: nat, args: seq<Operand>, retType: Option<Type>,
                          ret: Option<Variable>): seq<Instruction> {
    InvokeHead(r, args, RetSize(retType)) +
    ([MovReg(Rsi, Rsp), CallTrampoline(callee, RetSize(retType), OperandSizes(args))] +
     InvokeTail(r, args, retType, ret))
  }

  function CopyResult(r: Report, retType: Option<Type>, ret: Option<Variable>): seq<Instruction> {
    match (retType, ret)
    case (Some(_), Some(v)) => [Lea(Rbx, r.OffsetOf(v)), MovReg(Rcx, R11)] + VarCopy(v.ty, false)
    case _ => []
  }

  function EmitOp(r: Report, op: Op): seq<Instruction> {
    match op
    case Construct(v) => [Lea(Rdi, r.OffsetOf(v)), CallConstruct(v.ty)]
    case CopyConstruct(v, src) => CopyFrom(r, v, src, false)
    case Assign(v, src) => CopyFrom(r, v, src, true)
    case Convert(from, to, converter) =>
      [Lea(Rdi, r.OffsetOf(from)), Lea(Rsi, r.OffsetOf(to))] + [CallConvert(converter, from.ty.size, to.ty.size)]
    case Invoke(callee, args, retType, ret) => InvokeFunction(r, callee, args, retType, ret)
  }

  // A branch condition leaves its result in al.
  function EmitCond(r: Report, e: Expr): seq<Instruction> { Operands(r, e) + Compute(e) }

  // The returned variable goes to the floor of the argument block.
  function EmitStore(r: Report, v: Variable): seq<Instruction> {
    [LoadSlot(Rbx, -8), Lea(Rcx, r.OffsetOf(v))] + VarCopy(v.ty, false)
  }

  // A destructor is handed what the variable's slot holds.
  function EmitDestroy(r: Report, v: Variable): seq<Instruction> {
    [LoadSlot(Rdi, r.OffsetOf(v)), CallDestroy(v.ty)]
  }

  // The frame is made below rbp and the argument pointer saved at its top.
  function Prologue(frameSize: nat): seq<Instruction> { [SubImm(Rsp, frameSize), SaveRdi] }
}
