// The part of x86-64 the straight-line operations are emitted in: registers,
// byte-addressed memory, and instructions that move, compute and compare at
// widths of 1, 2, 4 and 8 bytes.
module Asm {
  import opened Program
  import opened Integers
  import opened ArgBlock

  // ---------- Memory ----------

  type Mem = int -> Byte

  function Read(m: Mem, a: int, n: nat): (bs: seq<Byte>)
    ensures |bs| == n
  {
    seq(n, i requires 0 <= i < n => m(a + i))
  }

  function Write(m: Mem, a: int, bs: seq<Byte>): Mem {
    (x: int) => if a <= x < a + |bs| then bs[x - a] else m(x)
  }

  lemma {:induction false} ReadWritten(m: Mem, a: int, bs: seq<Byte>)
    ensures Read(Write(m, a, bs), a, |bs|) == bs
  {
  }

  lemma {:induction false} ReadElsewhere(m: Mem, a: int, bs: seq<Byte>, b: int, n: nat)
    requires b + n <= a || a + |bs| <= b
    ensures Read(Write(m, a, bs), b, n) == Read(m, b, n)
  {
  }

  // Little-endian numbers.
  function Decode(bs: seq<Byte>): nat {
    if bs == [] then 0 else bs[0] + 256 * Decode(bs[1..])
  }

  function Encode(n: nat, w: nat): (bs: seq<Byte>)
    ensures |bs| == w
  {
    if w == 0 then [] else [n % 256] + Encode(n / 256, w - 1)
  }

  lemma {:induction false} DecodeBound(bs: seq<Byte>)
    ensures Decode(bs) < Pow256(|bs|)
  {
    if bs != [] { DecodeBound(bs[1..]); }
  }

  lemma {:induction false} EncodeDecode(bs: seq<Byte>)
    ensures Encode(Decode(bs), |bs|) == bs
  {
    if bs != [] {
      EncodeDecode(bs[1..]);
      assert Decode(bs) % 256 == bs[0] && Decode(bs) / 256 == Decode(bs[1..]);
      assert bs == [bs[0]] + bs[1..];
    }
  }

  lemma {:induction false} DecodeEncode(n: nat, w: nat)
    requires n < Pow256(w)
    ensures Decode(Encode(n, w)) == n
  {
    if w > 0 {
      assert n / 256 < Pow256(w - 1);
      DecodeEncode(n / 256, w - 1);
      assert Encode(n, w)[1..] == Encode(n / 256, w - 1);
    }
  }

  // ---------- Registers ----------

  datatype Reg = Rax | Rbx | Rcx | Rdx | Rdi | Rsi | R10 | R11 | Rsp

  type Regs = Reg -> int

  function Set(r: Regs, x: Reg, v: int): Regs {
    (y: Reg) => if y == x then v else r(y)
  }

  // The low w bytes of a register, and the register after they are written: a
  // 4-byte write clears the upper half, narrower ones keep the rest.
  function Low(v: int, w: nat): nat { Wrap(v, w) }

  function Merge(v: int, w: nat, x: nat): int {
    if w >= 4 then x else v - Low(v, w) + x
  }

  lemma {:induction false} LowMerge(v: int, w: nat, x: nat)
    requires x < Pow256(w)
    ensures Low(Merge(v, w, x), w) == x
  {
    hide Pow256;
    WrapSmall(x, w);
    if w < 4 {
      var m := Pow256(w);
      assert v == (v / m) * m + v % m;
      WrapShift(x, v / m, w);
    }
  }

  // ---------- Instructions ----------

  // What the code calls out to. Each is a fixed function of the bytes it is
  // given; how it computes is not modelled. What registers hold after a call is
  // anything, but for the stack pointer. Destructors are not given a meaning:
  // the processor records what they were called on.
  datatype Env = Env(
    construct: Type -> seq<Byte>,
    copy: (Type, seq<Byte>) -> seq<Byte>,
    assign: (Type, seq<Byte>, seq<Byte>) -> seq<Byte>,
    convert: (nat, seq<Byte>) -> seq<Byte>,
    call: (nat, seq<seq<Byte>>) -> seq<Byte>,
    clobber: Regs -> Regs)

  datatype Instruction =
    | Lea(dst: Reg, off: int)                      // address rbp + off
    | MovReg(dst: Reg, src: Reg)
    | AddImm(dst: Reg, n: int)
    | SubImm(dst: Reg, n: int)
    | LoadSlot(dst: Reg, off: int)                 // the quadword at rbp + off
    | SaveRdi                                      // to the quadword at rbp - 8
    | Load(w: nat, dst: Reg, addr: Reg)
    | StoreReg(w: nat, addr: Reg, src: Reg)
    | MovImm(w: nat, dst: Reg, bytes: seq<Byte>)
    | StoreImm(w: nat, addr: Reg, off: int, bytes: seq<Byte>)
    | ZeroRdx
    | Alu(op: BinaryOperator, w: nat)              // rax := rax op rbx
    | DivRbx(w: nat, signed: bool)                   // rax, rdx := rdx:rax divided by rbx
    | CmpAB(w: nat)
    | SetAl(cc: Condition)
    | CallConstruct(ty: Type)
    | CallCopy(ty: Type, assigning: bool)
    | CallConvert(converter: nat, from: nat, to: nat)
    | CallDestroy(ty: Type)
    | CallTrampoline(callee: nat, ret: nat, sizes: seq<nat>)

  datatype Cpu = Cpu(regs: Regs, flags: Flags, mem: Mem, destroyed: seq<(Type, int)>)
  {
    function With(x: Reg, v: int): Cpu { this.(regs := Set(regs, x, v)) }

    function WithLow(x: Reg, w: nat, v: nat): Cpu { With(x, Merge(regs(x), w, v)) }

    function Writing(a: int, bs: seq<Byte>): Cpu { this.(mem := Write(mem, a, bs)) }

    // After a call that has written its result.
    function Back(env: Env): Cpu { this.(regs := Set(env.clobber(regs), Rsp, regs(Rsp))) }
  }

  // What the ABI asks of the stack pointer at a call.
  predicate Aligned(c: Cpu) { c.regs(Rsp) % 16 == 0 }

  // A register has a name for its low byte, word and doubleword, and for itself.
  predicate RegisterWidth(w: nat) { w == 1 || w == 2 || w == 4 || w == 8 }

  // Instructions on parts of registers exist for those widths.
  predicate Encodable(i: Instruction) {
    match i
    case Load(w, _, _) => RegisterWidth(w)
    case StoreReg(w, _, _) => RegisterWidth(w)
    case MovImm(w, _, _) => RegisterWidth(w)
    case StoreImm(w, _, _, _) => RegisterWidth(w)
    case Alu(_, w) => RegisterWidth(w)
    case DivRbx(w, _) => RegisterWidth(w)
    case CmpAB(w) => RegisterWidth(w)
    case _ => true
  }

  // One instruction; none on a fault. A call with the stack pointer out of
  // alignment is one, and so is an instruction that there is not.
  function Exec(env: Env, rbp: int, i: Instruction, c: Cpu): Option<Cpu> {
    if Encodable(i) then Perform(env, rbp, i, c) else None
  }

  function Perform(env: Env, rbp: int, i: Instruction, c: Cpu): Option<Cpu> {
    var r := c.regs;
    match i
    case Lea(dst, off) => Some(c.With(dst, rbp + off))
    case MovReg(dst, src) => Some(c.With(dst, r(src)))
    case AddImm(dst, n) => Some(c.With(dst, r(dst) + n))
    case SubImm(dst, n) => Some(c.With(dst, r(dst) - n))
    case LoadSlot(dst, off) => Some(c.With(dst, Decode(Read(c.mem, rbp + off, 8))))
    case SaveRdi => Some(c.Writing(rbp - 8, Encode(Low(r(Rdi), 8), 8)))
    case Load(w, dst, addr) => Some(c.WithLow(dst, w, Decode(Read(c.mem, r(addr), w))))
    case StoreReg(w, addr, src) => Some(c.Writing(r(addr), Encode(Low(r(src), w), w)))
    case MovImm(w, dst, bytes) => Some(c.WithLow(dst, w, Decode(bytes)))
    case StoreImm(w, addr, off, bytes) => Some(c.Writing(r(addr) + off, Encode(Wrap(Decode(bytes), w), w)))
    case ZeroRdx => Some(c.With(Rdx, 0))
    case Alu(op, w) =>
      if op in {Add, Sub} || (op == Mul && w > 1) then
        Some(c.WithLow(Rax, w, Wrap(Arithmetic(op, Low(r(Rax), w), Low(r(Rbx), w)), w)))
      else None
    case DivRbx(w, signed) =>
      if w <= 1 || Low(r(Rdx), w) != 0 then None
      else
        (match Divide(Low(r(Rax), w), Low(r(Rbx), w), w, signed)
         case None => None
         case Some((q, m)) => Some(c.WithLow(Rax, w, Wrap(q, w)).WithLow(Rdx, w, Wrap(m, w))))
    case CmpAB(w) => if w == 0 then None else Some(c.(flags := Cmp(Low(r(Rax), w), Low(r(Rbx), w), w)))
    case SetAl(cc) => Some(c.WithLow(Rax, 1, if Met(cc, c.flags) then 1 else 0))
    case CallConstruct(ty) =>
      var bs := env.construct(ty);
      if Aligned(c) && |bs| == ty.size then Some(c.Writing(r(Rdi), bs).Back(env)) else None
    case CallCopy(ty, assigning) =>
      var src := Read(c.mem, r(Rsi), ty.size);
      var bs := if assigning then env.assign(ty, Read(c.mem, r(Rdi), ty.size), src) else env.copy(ty, src);
      if Aligned(c) && |bs| == ty.size then Some(c.Writing(r(Rdi), bs).Back(env)) else None
    case CallConvert(converter, from, to) =>
      var bs := env.convert(converter, Read(c.mem, r(Rdi), from));
      if Aligned(c) && |bs| == to then Some(c.Writing(r(Rsi), bs).Back(env)) else None
    case CallDestroy(ty) =>
      if Aligned(c) then Some(c.(destroyed := c.destroyed + [(ty, r(Rdi))]).Back(env)) else None
    case CallTrampoline(callee, ret, sizes) =>
      var bs := env.call(callee, seq(|sizes|, k requires 0 <= k < |sizes| =>
                                       Read(c.mem, r(Rsi) + Slot(ret, sizes, k), sizes[k])));
      if Aligned(c) && |bs| == ret then Some(c.Writing(r(Rsi), bs).Back(env)) else None
  }

  function RunAsm(env: Env, rbp: int, code: seq<Instruction>, c: Cpu): Option<Cpu>
    decreases |code|
  {
    if code == [] then Some(c)
    else
      match Exec(env, rbp, code[0], c)
      case None => None
      case Some(c') => RunAsm(env, rbp, code[1..], c')
  }

  lemma {:induction false} RunConcat(env: Env, rbp: int, a: seq<Instruction>, b: seq<Instruction>, c: Cpu)
    ensures RunAsm(env, rbp, a + b, c) ==
            match RunAsm(env, rbp, a, c) case None => None case Some(c') => RunAsm(env, rbp, b, c')
    decreases |a|
  {
    if a == [] {
      assert a + b == b;
    } else {
      assert (a + b)[1..] == a[1..] + b;
      match Exec(env, rbp, a[0], c) {
        case None =>
        case Some(c') => RunConcat(env, rbp, a[1..], b, c');
      }
    }
  }

  lemma {:induction false} RunOne(env: Env, rbp: int, i: Instruction, c: Cpu)
    ensures RunAsm(env, rbp, [i], c) == Exec(env, rbp, i, c)
  {
    assert [i][1..] == [];
  }

  lemma {:induction false} RunCons(env: Env, rbp: int, i: Instruction, rest: seq<Instruction>, c: Cpu)
    ensures RunAsm(env, rbp, [i] + rest, c) ==
            match Exec(env, rbp, i, c) case None => None case Some(c') => RunAsm(env, rbp, rest, c')
  {
    assert ([i] + rest)[1..] == rest;
  }

  lemma {:induction false} RunTwo(env: Env, rbp: int, i: Instruction, j: Instruction, c: Cpu)
    ensures RunAsm(env, rbp, [i, j], c) ==
            match Exec(env, rbp, i, c) case None => None case Some(c') => Exec(env, rbp, j, c')
  {
    assert [i, j] == [i] + [j];
    RunCons(env, rbp, i, [j], c);
    if Exec(env, rbp, i, c).Some? { RunOne(env, rbp, j, Exec(env, rbp, i, c).value); }
  }
}
