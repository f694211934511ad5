// Which programs never get stuck.
module Progress {
  import opened Program
  import opened Integers
  import opened ArgBlock
  import opened Machine
  import opened Semantics
  import opened Refinement
  import opened Asm
  import opened Codegen
  import opened Named
  import opened EndToEnd

  // A program, and the sizes of its arguments and of what it returns.
  datatype Signature = Signature(main: Scope, argSizes: seq<nat>, retSize: nat)

  // ---------- What may be done where ----------

  // A variable can be written to where it is visible, and read where it has also
  // been given a value; `given` are the variables that have been.
  predicate Writable(x: Signature, p: Path, v: Variable) { DeclaredIn(x.main, v) && Visible(v.site, p) }

  predicate Readable(x: Signature, p: Path, given: set<Variable>, v: Variable) { v in given && Writable(x, p, v) }

  predicate ReadyOperand(x: Signature, p: Path, given: set<Variable>, o: Operand, w: nat) {
    match o case Imm(bytes) => |bytes| == w case Var(v) => Readable(x, p, given, v) && v.ty.size == w
  }

  // Both operands have the width of the expression, which a register has; single
  // bytes are neither multiplied nor divided.
  predicate ReadyExpr(x: Signature, p: Path, given: set<Variable>, e: Expr) {
    && RegisterWidth(e.ty.size)
    && ReadyOperand(x, p, given, e.left, e.ty.size) && ReadyOperand(x, p, given, e.right, e.ty.size)
    && (e.op in {Mul, Div, Mod} ==> 1 < e.ty.size)
  }

  predicate ReadyTest(x: Signature, p: Path, given: set<Variable>, e: Expr) {
    IsComparison(e.op) && ReadyExpr(x, p, given, e)
  }

  // A value of v's type to copy: objects are copied from arguments and variables.
  predicate ReadySource(x: Signature, p: Path, given: set<Variable>, v: Variable, src: Source) {
    && (v.ty.primitive && !src.FromExpr? ==> RegisterWidth(v.ty.size))
    && match src
       case FromImm(bytes) => v.ty.primitive && |bytes| == v.ty.size
       case FromArg(i) => i < |x.argSizes| && x.argSizes[i] == v.ty.size
       case FromVar(u) => u.ty == v.ty && Readable(x, p, given, u)
       case FromExpr(e) =>
         v.ty.primitive && ReadyExpr(x, p, given, e) && v.ty.size == if IsComparison(e.op) then 1 else e.ty.size
  }

  predicate ReadyArgument(x: Signature, p: Path, given: set<Variable>, o: Operand) {
    match o
    case Imm(bytes) => RegisterWidth(|bytes|)
    case Var(v) => v.ty.primitive && RegisterWidth(v.ty.size) && Readable(x, p, given, v)
  }

  predicate ReadyOp(x: Signature, p: Path, given: set<Variable>, op: Op) {
    match op
    case Construct(v) => Writable(x, p, v)
    case CopyConstruct(v, src) => Writable(x, p, v) && ReadySource(x, p, given, v, src)
    case Assign(v, src) =>
      && Writable(x, p, v) && ReadySource(x, p, given, v, src)
      && (v.ty.primitive || Readable(x, p, given, v))
    case Convert(from, to, _) => Readable(x, p, given, from) && Writable(x, p, to)
    case Invoke(_, args, retType, ret) =>
      && (forall i :: 0 <= i < |args| ==> ReadyArgument(x, p, given, args[i]))
      && (ret.Some? ==> Writable(x, p, ret.value) && retType == Some(ret.value.ty) &&
                        ret.value.ty.primitive && RegisterWidth(ret.value.ty.size))
  }

  // The variable an operation gives a value.
  function Gives(op: Op): set<Variable> {
    match op
    case Construct(v) => {v}
    case CopyConstruct(v, _) => {v}
    case Assign(v, _) => {v}
    case Convert(_, to, _) => {to}
    case Invoke(_, _, _, ret) => if ret.Some? then {ret.value} else {}
  }

  predicate ReadyResult(x: Signature, p: Path, given: set<Variable>, v: Variable) {
    Readable(x, p, given, v) && v.ty.size == x.retSize && (v.ty.primitive ==> RegisterWidth(v.ty.size))
  }

  // ---------- The check ----------

  // A scope is refused, or is always left early, or its end is reached with these
  // variables given a value.
  datatype Flow = Refused | Leaves | Falls(given: set<Variable>)

  // What is given a value whichever of two ways is taken.
  function Join(a: Flow, b: Flow): Flow {
    match (a, b)
    case (Refused, _) => Refused
    case (_, Refused) => Refused
    case (Leaves, _) => b
    case (_, Leaves) => a
    case (Falls(g), Falls(h)) => Falls(g * h)
  }

  // Goes through the scope at p from instruction i on, once along every way that
  // conditions may decide; a loop's body may run or not.
  function Check(x: Signature, p: Path, sc: Scope, i: nat, inLoop: bool, given: set<Variable>): Flow
    requires i <= |sc.instrs|
    decreases sc, |sc.instrs| - i
  {
    if i == |sc.instrs| then Falls(given)
    else match sc.instrs[i]
      case Declare(ty) => Check(x, p, sc, i + 1, inLoop, given - {Variable(p + [i], ty)})
      case Effect(op) =>
        if ReadyOp(x, p + [i], given, op) then Check(x, p, sc, i + 1, inLoop, given + Gives(op)) else Refused
      case Return(v) => if v.Some? && !ReadyResult(x, p + [i], given, v.value) then Refused else Leaves
      case Break => if inLoop then Leaves else Check(x, p, sc, i + 1, inLoop, given)
      case Nested(b) =>
        (match Check(x, p + [i], b, 0, inLoop, given)
         case Falls(after) => Check(x, p, sc, i + 1, inLoop, after)
         case other => other)
      case Branch(Else, b) =>
        (match Check(x, p + [i], b, 0, inLoop, given)
         case Falls(after) => Check(x, p, sc, i + 1, inLoop, after)
         case other => other)
      case Branch(If(c), b) =>
        if !ReadyTest(x, p + [i], given, c) then Refused
        else
          Join(match Check(x, p + [i], b, 0, inLoop, given)
               case Falls(after) => Check(x, p, sc, AfterIf(sc, i), inLoop, after)
               case other => other,
               Check(x, p, sc, i + 1, inLoop, given))
      case Branch(While(c), b) =>
        if !ReadyTest(x, p + [i], given, c) || Check(x, p + [i], b, 0, true, given).Refused? then Refused
        else Check(x, p, sc, i + 1, inLoop, given)
      case PrimitiveConvert => Refused
  }

  predicate Checked(x: Signature) { !Check(x, [], x.main, 0, false, {}).Refused? }

  // ---------- The state at a point ----------

  // The variables declared and visible there are in scope, those given have a
  // value, every value has its variable's size, and so have the arguments.
  ghost predicate Good(x: Signature, p: Path, given: set<Variable>, s: Store) {
    && InScope(x.main, p, s)
    && (forall v :: v in s.vars && s.vars[v].Some? ==> |s.vars[v].value| == v.ty.size)
    && (forall v :: Readable(x, p, given, v) ==> Get(s, v).Some?)
    && SizesOf(s.args) == x.argSizes && s.retSize == x.retSize
  }

  // Constructors and operators make values of their type's size.
  ghost predicate ObjectsFit(env: Env) {
    && (forall ty: Type :: |env.construct(ty)| == ty.size)
    && (forall ty: Type, bs :: |bs| == ty.size ==> |env.copy(ty, bs)| == ty.size)
    && (forall ty: Type, was, bs :: |was| == |bs| == ty.size ==> |env.assign(ty, was, bs)| == ty.size)
  }

  // So do the conversion or the function that an operation calls.
  ghost predicate CallFits(env: Env, op: Op) {
    match op
    case Convert(_, to, converter) => forall bs :: |env.convert(converter, bs)| == to.ty.size
    case Invoke(callee, _, retType, _) => forall vs :: |env.call(callee, vs)| == RetSize(retType)
    case _ => true
  }

  // The quotients the emitted code computes.
  predicate Served(s: Store, e: Expr) {
    e.op in {Div, Mod} ==>
      match (OperandValue(s, e.left), OperandValue(s, e.right))
      case (Some(l), Some(r)) =>
        Value(Decode(r), e.ty.size, e.ty.signed) != 0 && Value(Decode(l), e.ty.size, e.ty.signed) >= 0
      case _ => true
  }

  predicate ServedOp(s: Store, op: Op) {
    match op
    case CopyConstruct(_, FromExpr(e)) => Served(s, e)
    case Assign(_, FromExpr(e)) => Served(s, e)
    case _ => true
  }

  // ---------- One step ----------

  lemma {:induction false} ReadValue(x: Signature, p: Path, given: set<Variable>, s: Store, v: Variable)
    requires Good(x, p, given, s) && Readable(x, p, given, v)
    ensures Get(s, v).Some? && |Get(s, v).value| == v.ty.size
  {
    hide InScope, Visible;
  }

  lemma {:induction false} OperandReads(x: Signature, p: Path, given: set<Variable>, s: Store, o: Operand, w: nat)
    requires Good(x, p, given, s) && ReadyOperand(x, p, given, o, w)
    ensures OperandValue(s, o).Some? && |OperandValue(s, o).value| == w
  {
    hide Good, Readable;
    if o.Var? { ReadValue(x, p, given, s, o.v); }
  }

  // An expression the check accepts has a value exactly when the code serves it.
  lemma {:induction false} ExprExact(x: Signature, p: Path, given: set<Variable>, s: Store, e: Expr)
    requires Good(x, p, given, s) && ReadyExpr(x, p, given, e)
    ensures ExprValue(s, e).Some? <==> Served(s, e)
    ensures ExprValue(s, e).Some? ==> |ExprValue(s, e).value| == if IsComparison(e.op) then 1 else e.ty.size
  {
    hide Good, Decode, Value, Encode, Wrap, TruncDiv, TruncMod, Compare;
    OperandReads(x, p, given, s, e.left, e.ty.size);
    OperandReads(x, p, given, s, e.right, e.ty.size);
  }

  lemma {:induction false} SourceExact(x: Signature, p: Path, given: set<Variable>, env: Env, s: Store, v: Variable,
                                       src: Source, assigning: bool)
    requires Good(x, p, given, s) && ReadySource(x, p, given, v, src) && ObjectsFit(env)
    requires assigning && !v.ty.primitive ==> Readable(x, p, given, v)
    ensures SourceValue(env, s, v, src, assigning).Some? <==> (src.FromExpr? ==> Served(s, src.e))
    ensures SourceValue(env, s, v, src, assigning).Some? ==>
              |SourceValue(env, s, v, src, assigning).value| == v.ty.size
  {
    hide InScope, Visible, ExprValue, Served, ReadyExpr;
    match src {
      case FromImm(_) =>
      case FromArg(i) => assert SizesOf(s.args)[i] == |s.args[i]|;
      case FromVar(u) => ReadValue(x, p, given, s, u);
      case FromExpr(e) => ExprExact(x, p, given, s, e);
    }
    if assigning && !v.ty.primitive { ReadValue(x, p, given, s, v); }
  }

  lemma {:induction false} ArgumentsRead(x: Signature, p: Path, given: set<Variable>, s: Store, args: seq<Operand>)
    requires Good(x, p, given, s) && forall i :: 0 <= i < |args| ==> ReadyArgument(x, p, given, args[i])
    ensures ArgumentValues(s, args).Some?
  {
    hide Good, Readable;
    if args != [] {
      var n := |args| - 1;
      ArgumentsRead(x, p, given, s, args[..n]);
      if args[n].Var? { ReadValue(x, p, given, s, args[n].v); }
    }
  }

  // Writing a variable in scope, with a value of its size.
  lemma {:induction false} PutGood(x: Signature, p: Path, given: set<Variable>, s: Store, v: Variable, bs: seq<Byte>)
    requires Good(x, p, given, s) && Writable(x, p, v) && |bs| == v.ty.size
    ensures Put(s, v, bs).Some? && Get(Put(s, v, bs).value, v) == Some(bs)
    ensures Good(x, p, given + {v}, Put(s, v, bs).value)
  {
    hide DeclaredIn, Visible;
    assert v in s.vars;
    var s' := Put(s, v, bs).value;
    assert s'.vars.Keys == s.vars.Keys;
    forall u | Readable(x, p, given + {v}, u) ensures Get(s', u).Some? {
      if u != v { assert Readable(x, p, given, u); }
    }
  }

  // An operation the check accepts can be performed exactly when the quotients in
  // it are served; then it leaves what the check says.
  lemma {:induction false} OpExact(x: Signature, p: Path, given: set<Variable>, env: Env, s: Store, op: Op)
    requires Good(x, p, given, s) && ReadyOp(x, p, given, op) && ObjectsFit(env) && CallFits(env, op)
    ensures ExecOp(env, s, op).Some? <==> ServedOp(s, op)
    ensures ExecOp(env, s, op).Some? ==> Good(x, p, given + Gives(op), ExecOp(env, s, op).value)
  {
    hide Good, Writable, SourceValue, Served, ArgumentValues, Readable, Put;
    assert Supported(op) by { ReadySupported(x, p, given, op); }
    match op {
      case Construct(v) =>
        PutGood(x, p, given, s, v, env.construct(v.ty));
      case CopyConstruct(v, src) =>
        SourceExact(x, p, given, env, s, v, src, false);
        var r := SourceValue(env, s, v, src, false);
        if r.Some? { PutGood(x, p, given, s, v, r.value); }
      case Assign(v, src) =>
        SourceExact(x, p, given, env, s, v, src, true);
        var r := SourceValue(env, s, v, src, true);
        if r.Some? { PutGood(x, p, given, s, v, r.value); }
      case Convert(from, to, converter) =>
        ReadValue(x, p, given, s, from);
        PutGood(x, p, given, s, to, env.convert(converter, Get(s, from).value));
      case Invoke(callee, args, retType, ret) =>
        ArgumentsRead(x, p, given, s, args);
        AcceptGood(x, p, given, s, op, env.call(callee, ArgumentValues(s, args).value));
    }
  }

  lemma {:induction false} ReadySupported(x: Signature, p: Path, given: set<Variable>, op: Op)
    requires ReadyOp(x, p, given, op)
    ensures Supported(op)
  {
  }

  lemma {:induction false} AcceptGood(x: Signature, p: Path, given: set<Variable>, s: Store, op: Op, result: seq<Byte>)
    requires op.Invoke? && Good(x, p, given, s) && ReadyOp(x, p, given, op) && |result| == RetSize(op.retType)
    ensures Accept(s, op.retType, op.ret, result).Some?
    ensures Good(x, p, given + Gives(op), Accept(s, op.retType, op.ret, result).value)
  {
    hide Good, Writable;
    if op.ret.Some? { PutGood(x, p, given, s, op.ret.value, result); }
    else { assert given + {} == given; }
  }

  lemma {:induction false} TestTotal(x: Signature, p: Path, given: set<Variable>, s: Store, e: Expr)
    requires Good(x, p, given, s) && ReadyTest(x, p, given, e)
    ensures TestCond(s, e).Some?
  {
    hide Good, ReadyExpr;
    ExprExact(x, p, given, s, e);
  }

  // Returning a variable sets aside its value, or a copy of the object.
  lemma {:induction false} StoreTotal(x: Signature, p: Path, given: set<Variable>, env: Env, s: Store, v: Variable)
    requires Good(x, p, given, s) && ReadyResult(x, p, given, v) && ObjectsFit(env)
    ensures var s' := StoreVar(env, s, v);
            && s'.Some? && Good(x, p, given, s'.value) && Get(s, v).Some? && s'.value.vars == s.vars
            && s'.value.ret == Some(if v.ty.primitive then Get(s, v).value else env.copy(v.ty, Get(s, v).value))
  {
    hide DeclaredIn, Visible, Readable;
    ReadValue(x, p, given, s, v);
    assert Get(StoreVar(env, s, v).value, v) == Get(s, v);
    forall u | Readable(x, p, given, u) ensures Get(StoreVar(env, s, v).value, u).Some? {
      assert Get(s, u).Some?;
    }
  }

  // ---------- Nothing else runs ----------

  function Known(s: Store): set<Variable> { set v | v in s.vars && s.vars[v].Some? }

  lemma {:induction false} KnownReadable(x: Signature, p: Path, s: Store, v: Variable)
    requires Good(x, p, Known(s), s)
    ensures v in s.vars <==> Writable(x, p, v)
    ensures Get(s, v).Some? <==> Readable(x, p, Known(s), v)
    ensures Get(s, v).Some? ==> |Get(s, v).value| == v.ty.size
  {
    hide DeclaredIn, Visible;
  }

  lemma {:induction false} OnlyReadyOperand(x: Signature, p: Path, s: Store, o: Operand, w: nat)
    requires Good(x, p, Known(s), s)
    requires OperandValue(s, o).Some? && |OperandValue(s, o).value| == w
    ensures ReadyOperand(x, p, Known(s), o, w)
  {
    hide Good, Readable, Known;
    if o.Var? { KnownReadable(x, p, s, o.v); }
  }

  lemma {:induction false} OnlyReadyExpr(x: Signature, p: Path, s: Store, e: Expr)
    requires Good(x, p, Known(s), s) && ExprValue(s, e).Some?
    ensures ReadyExpr(x, p, Known(s), e) && Served(s, e)
    ensures |ExprValue(s, e).value| == if IsComparison(e.op) then 1 else e.ty.size
  {
    hide Good, ReadyOperand, Known, Decode, Value, Encode, Wrap, TruncDiv, TruncMod, Compare;
    OnlyReadyOperand(x, p, s, e.left, e.ty.size);
    OnlyReadyOperand(x, p, s, e.right, e.ty.size);
  }

  lemma {:induction false} OnlyReadySource(x: Signature, p: Path, env: Env, s: Store, v: Variable, src: Source,
                                           assigning: bool)
    requires Good(x, p, Known(s), s) && (src.FromExpr? || Movable(v.ty))
    requires SourceValue(env, s, v, src, assigning).Some?
    requires v.ty.primitive ==> |SourceValue(env, s, v, src, assigning).value| == v.ty.size
    ensures ReadySource(x, p, Known(s), v, src) && (src.FromExpr? ==> Served(s, src.e))
    ensures assigning && !v.ty.primitive ==> Readable(x, p, Known(s), v)
  {
    hide InScope, Known, Readable, ExprValue, ReadyExpr, Served;
    match src {
      case FromImm(_) =>
      case FromArg(i) => assert SizesOf(s.args)[i] == |s.args[i]|;
      case FromVar(u) => KnownReadable(x, p, s, u);
      case FromExpr(e) => OnlyReadyExpr(x, p, s, e);
    }
    KnownReadable(x, p, s, v);
  }

  lemma {:induction false} OnlyReadyArguments(x: Signature, p: Path, s: Store, args: seq<Operand>)
    requires Good(x, p, Known(s), s) && ArgumentValues(s, args).Some?
    ensures forall i :: 0 <= i < |args| ==> ReadyArgument(x, p, Known(s), args[i])
  {
    hide Good, Readable, Known;
    if args != [] {
      var n := |args| - 1;
      OnlyReadyArguments(x, p, s, args[..n]);
      forall i | 0 <= i < n ensures ReadyArgument(x, p, Known(s), args[i]) { assert args[..n][i] == args[i]; }
      if args[n].Var? { KnownReadable(x, p, s, args[n].v); }
    }
  }

  // Nothing can be performed but what the check accepts where just the variables
  // are given that have a value.
  lemma {:induction false} OnlyReadyRuns(x: Signature, p: Path, env: Env, s: Store, op: Op)
    requires Good(x, p, Known(s), s) && ObjectsFit(env) && CallFits(env, op)
    ensures ExecOp(env, s, op).Some? <==> ReadyOp(x, p, Known(s), op) && ServedOp(s, op)
  {
    hide Good, Writable, Readable, Known, SourceValue, Served, ArgumentValues, ReadySource, ReadyArgument;
    if ReadyOp(x, p, Known(s), op) { OpExact(x, p, Known(s), env, s, op); }
    if ExecOp(env, s, op).Some? {
      match op {
        case Construct(v) => KnownReadable(x, p, s, v);
        case CopyConstruct(v, src) =>
          CopySupported(op);
          KnownReadable(x, p, s, v);
          OnlyReadySource(x, p, env, s, v, src, false);
        case Assign(v, src) =>
          CopySupported(op);
          KnownReadable(x, p, s, v);
          OnlyReadySource(x, p, env, s, v, src, true);
        case Convert(from, to, _) =>
          KnownReadable(x, p, s, from);
          KnownReadable(x, p, s, to);
        case Invoke(_, args, _, ret) =>
          OnlyReadyArguments(x, p, s, args);
          if ret.Some? { KnownReadable(x, p, s, ret.value); }
      }
    }
  }

  lemma {:induction false} OnlyReadyTests(x: Signature, p: Path, s: Store, e: Expr)
    requires Good(x, p, Known(s), s)
    ensures TestCond(s, e).Some? <==> ReadyTest(x, p, Known(s), e)
  {
    hide Good, ReadyExpr, ExprValue, Known;
    if ReadyTest(x, p, Known(s), e) { TestTotal(x, p, Known(s), s, e); }
    if TestCond(s, e).Some? { OnlyReadyExpr(x, p, s, e); }
  }

  lemma {:induction false} OnlyReadyReturns(x: Signature, p: Path, env: Env, s: Store, v: Variable)
    requires Good(x, p, Known(s), s) && ObjectsFit(env)
    ensures StoreVar(env, s, v).Some? <==> ReadyResult(x, p, Known(s), v)
  {
    hide InScope, Readable, Known;
    if ReadyResult(x, p, Known(s), v) { StoreTotal(x, p, Known(s), env, s, v); }
    KnownReadable(x, p, s, v);
  }

  // ---------- Along a run ----------

  // What is given on entry and visible at the end of a scope is given there.
  lemma {:induction false} CheckKeeps(x: Signature, p: Path, sc: Scope, i: nat, inLoop: bool, given: set<Variable>)
    requires i <= |sc.instrs| && Check(x, p, sc, i, inLoop, given).Falls?
    ensures forall v :: Readable(x, p, given, v) ==> v in Check(x, p, sc, i, inLoop, given).given
    decreases sc, |sc.instrs| - i
  {
    hide DeclaredIn, ReadyOp, ReadyTest, ReadyResult;
    if i < |sc.instrs| {
      ReadableInside(x, p, i, given);
      match sc.instrs[i] {
        case Declare(ty) => CheckKeeps(x, p, sc, i + 1, inLoop, given - {Variable(p + [i], ty)});
        case Effect(op) => CheckKeeps(x, p, sc, i + 1, inLoop, given + Gives(op));
        case Break => CheckKeeps(x, p, sc, i + 1, inLoop, given);
        case Nested(b) => BodyKeeps(x, p, sc, i, b, i + 1, inLoop, given);
        case Branch(Else, b) => BodyKeeps(x, p, sc, i, b, i + 1, inLoop, given);
        case Branch(If(c), b) =>
          if Check(x, p, sc, i + 1, inLoop, given).Falls? { CheckKeeps(x, p, sc, i + 1, inLoop, given); }
          BodyKeeps(x, p, sc, i, b, AfterIf(sc, i), inLoop, given);
        case Branch(While(c), b) => CheckKeeps(x, p, sc, i + 1, inLoop, given);
        case _ =>
      }
    }
  }

  lemma {:induction false} BodyKeeps(x: Signature, p: Path, sc: Scope, i: nat, b: Scope, next: nat, inLoop: bool,
                                     given: set<Variable>)
    requires i < next <= |sc.instrs| && b < sc
    ensures var body := Check(x, p + [i], b, 0, inLoop, given);
            body.Falls? && Check(x, p, sc, next, inLoop, body.given).Falls? ==>
              forall v :: Readable(x, p, given, v) ==> v in Check(x, p, sc, next, inLoop, body.given).given
    decreases sc, |sc.instrs| - i, 0
  {
    hide Writable, Check;
    ReadableInside(x, p, i, given);
    var body := Check(x, p + [i], b, 0, inLoop, given);
    if body.Falls? && Check(x, p, sc, next, inLoop, body.given).Falls? {
      CheckKeeps(x, p + [i], b, 0, inLoop, given);
      CheckKeeps(x, p, sc, next, inLoop, body.given);
    }
  }

  lemma {:induction false} ReadableInside(x: Signature, p: Path, i: nat, given: set<Variable>)
    ensures forall v :: Readable(x, p, given, v) ==> Readable(x, p + [i], given, v)
  {
    hide DeclaredIn, Visible;
    forall v: Variable ensures Visible(v.site, p) ==> Visible(v.site, p + [i]) { VisibleInside(v.site, p, i); }
  }

  lemma {:induction false} GoodFewer(x: Signature, p: Path, given: set<Variable>, fewer: set<Variable>, s: Store)
    requires Good(x, p, given, s) && forall v :: Readable(x, p, fewer, v) ==> v in given
    ensures Good(x, p, fewer, s)
  {
    hide InScope, Writable;
  }

  lemma {:induction false} GoodDeclare(x: Signature, p: Path, i: nat, given: set<Variable>, env: Env, s: Store)
    requires Declares(x.main, p, i) && Good(x, p + [i], given, s)
    ensures var v := DeclaredAt(x.main, p, i); Good(x, p + [i + 1], given - {v}, Meaning(env).declare(v, s))
  {
    hide DeclaredIn, Visible, Declares;
    DeclareScope(x.main, p, i, s);
    var v := DeclaredAt(x.main, p, i);
    var s' := s.(vars := s.vars[v := None]);
    forall u | Readable(x, p + [i + 1], given - {v}, u) ensures Get(s', u).Some? {
      assert u in s'.vars && u in s.vars;
      assert Readable(x, p + [i], given, u);
    }
  }

  lemma {:induction false} GoodNext(x: Signature, p: Path, i: nat, given: set<Variable>, s: Store)
    requires !Declares(x.main, p, i) && Good(x, p + [i], given, s)
    ensures Good(x, p + [i + 1], given, s)
  {
    hide DeclaredIn, Visible, Declares;
    NextKeeps(x.main, p, i, s);
  }

  lemma {:induction false} GoodEnter(x: Signature, p: Path, given: set<Variable>, s: Store)
    requires Good(x, p, given, s)
    ensures Good(x, p + [0], given, s)
  {
    hide DeclaredIn, Visible;
    EnterKeeps(x.main, p, s);
  }

  lemma {:induction false} GoodLeave(x: Signature, p: Path, i: nat, given: set<Variable>, env: Env, s: Store)
    requires Good(x, p + [i], given, s)
    ensures Good(x, p, given, Meaning(env).leave(p, s))
  {
    hide DeclaredIn, Visible;
    LeaveKeepsValues(env, x.main, p, i, s);
    var s' := Meaning(env).leave(p, s);
    forall u | Readable(x, p, given, u) ensures Get(s', u).Some? {
      assert u in s'.vars && u in s.vars;
      assert Readable(x, p + [i], given, u);
    }
  }

  // ---------- Whole runs ----------

  // Something that holds wherever a run is.
  type Invariant = (Path, Store) -> bool

  predicate Performed(main: Scope, p: Path, i: nat, op: Op) {
    IsScope(main, p) && i < |ScopeAt(main, p).instrs| && ScopeAt(main, p).instrs[i] == Effect(op)
  }

  ghost function Same(inv: Invariant): Relation<Store, Store> { (p: Path, s: Store, t: Store) => s == t && inv(p, s) }

  ghost function Everywhere(keep: Store -> bool): Invariant { (p: Path, s: Store) => keep(s) }

  lemma {:induction false} KeptEverywhere(I: Interp<Store>, keep: Store -> bool, main: Scope)
    requires forall op, s :: keep(s) && I.exec(op, s).Some? ==> keep(I.exec(op, s).value)
    requires forall e, s :: keep(s) && I.test(e, s).Some? ==> keep(I.test(e, s).value.1)
    requires forall v, s :: keep(s) && I.store(v, s).Some? ==> keep(I.store(v, s).value)
    requires forall v, s :: keep(s) ==> keep(I.destroy(v, s)) && keep(I.declare(v, s))
    requires forall p: Path, s :: keep(s) ==> keep(I.leave(p, s))
    ensures Simulates(I, I, Same(Everywhere(keep)), main)
  {
    hide Declares, DeclaredAt;
  }

  // An interpretation of the operations that keeps the invariant and, where it
  // holds, performs what the check accepts.
  ghost predicate Performs(x: Signature, env: Env, I: Interp<Store>, inv: Invariant) {
    && I == Meaning(env).(exec := I.exec)
    && Simulates(I, I, Same(inv), x.main)
    && forall p: Path, i: nat, op, given, s ::
         Performed(x.main, p, i, op) && At(x, inv, p + [i], given, s) && ReadyOp(x, p + [i], given, op) ==>
           I.exec(op, s).Some? && Good(x, p + [i], given + Gives(op), I.exec(op, s).value)
  }

  ghost predicate At(x: Signature, inv: Invariant, p: Path, given: set<Variable>, s: Store) {
    Good(x, p, given, s) && inv(p, s)
  }

  // The way out agrees with the check, and is not getting stuck.
  ghost predicate Reaches(x: Signature, inv: Invariant, p: Path, given: set<Variable>, flow: Flow, r: Outcome<Store>) {
    match r
    case Fell(s, _) => flow.Falls? && At(x, inv, p, flow.given, s)
    case Broke(s, _) => At(x, inv, p, given, s)
    case Returned(s, _) => At(x, inv, p, given, s)
    case Timeout => true
    case Stuck => false
  }

  lemma {:induction false} AtUnwind(x: Signature, env: Env, I: Interp<Store>, inv: Invariant, p: Path, sc: Scope,
                                    i: nat, at: nat, given: set<Variable>, s: Store)
    requires Performs(x, env, I, inv) && At(x, inv, p + [i], given, s)
    ensures At(x, inv, p, given, Unwind(I, p, sc, at, s))
  {
    hide Good;
    DestroysNothing(env, I, Dying(p, sc, at), s);
    GoodLeave(x, p, i, given, env, s);
    assert Same(inv)(p + [i], s, s) && Same(inv)(p, I.leave(p, s), I.leave(p, s));
  }

  lemma {:induction false} DestroysNothing(env: Env, I: Interp<Store>, vs: seq<Variable>, s: Store)
    requires I == Meaning(env).(exec := I.exec)
    ensures DestroyVars(I, vs, s) == s
  {
    if vs != [] { DestroysNothing(env, I, vs[1..], s); }
  }

  lemma {:induction false} AtPast(x: Signature, env: Env, I: Interp<Store>, inv: Invariant, p: Path, i: nat, j: nat,
                                  given: set<Variable>, s: Store)
    requires Performs(x, env, I, inv) && At(x, inv, p + [i], given, s)
    requires i <= j && forall k: nat :: i <= k < j ==> !Declares(x.main, p, k)
    ensures At(x, inv, p + [j], given, s)
    decreases j - i
  {
    hide Good, Declares;
    if i < j {
      GoodNext(x, p, i, given, s);
      assert Same(inv)(p + [i], s, s) && Same(inv)(p + [i + 1], s, s);
      AtPast(x, env, I, inv, p, i + 1, j, given, s);
    }
  }

  lemma {:induction false} AtDeclare(x: Signature, env: Env, I: Interp<Store>, inv: Invariant, p: Path, i: nat,
                                     given: set<Variable>, s: Store)
    requires Performs(x, env, I, inv) && At(x, inv, p + [i], given, s) && Declares(x.main, p, i)
    ensures var v := DeclaredAt(x.main, p, i); At(x, inv, p + [i + 1], given - {v}, I.declare(v, s))
  {
    hide Good, Declares;
    var v := DeclaredAt(x.main, p, i);
    GoodDeclare(x, p, i, given, env, s);
    assert Same(inv)(p + [i], s, s) && Same(inv)(p + [i + 1], I.declare(v, s), I.declare(v, s));
  }

  lemma {:induction false} AtEnter(x: Signature, env: Env, I: Interp<Store>, inv: Invariant, p: Path,
                                   given: set<Variable>, s: Store)
    requires Performs(x, env, I, inv) && At(x, inv, p, given, s)
    ensures At(x, inv, p + [0], given, s)
  {
    hide Good;
    GoodEnter(x, p, given, s);
    assert Same(inv)(p, s, s) && Same(inv)(p + [0], s, s);
  }

  lemma {:induction false} AtPerformed(x: Signature, env: Env, I: Interp<Store>, inv: Invariant, p: Path, i: nat,
                                       op: Op, given: set<Variable>, s: Store)
    requires Performs(x, env, I, inv) && At(x, inv, p + [i], given, s)
    requires Performed(x.main, p, i, op) && ReadyOp(x, p + [i], given, op)
    ensures I.exec(op, s).Some? && At(x, inv, p + [i + 1], given + Gives(op), I.exec(op, s).value)
  {
    hide Good, ReadyOp, IsScope, ScopeAt;
    assert Same(inv)(p + [i], s, s);
    var s' := I.exec(op, s).value;
    assert Same(inv)(p + [i], s', s');
    AtPast(x, env, I, inv, p, i, i + 1, given + Gives(op), s');
  }

  lemma {:induction false} AtTested(x: Signature, env: Env, I: Interp<Store>, inv: Invariant, p: Path, e: Expr,
                                    given: set<Variable>, s: Store)
    requires Performs(x, env, I, inv) && At(x, inv, p, given, s) && ReadyTest(x, p, given, e)
    ensures I.test(e, s).Some? && I.test(e, s).value.1 == s
  {
    hide Good, ReadyTest;
    TestTotal(x, p, given, s, e);
  }

  lemma {:induction false} AtStored(x: Signature, env: Env, I: Interp<Store>, inv: Invariant, p: Path, v: Variable,
                                    given: set<Variable>, s: Store)
    requires Performs(x, env, I, inv) && At(x, inv, p, given, s) && ReadyResult(x, p, given, v) && ObjectsFit(env)
    ensures I.store(v, s).Some? && At(x, inv, p, given, I.store(v, s).value)
  {
    hide Good, ReadyResult;
    StoreTotal(x, p, given, env, s, v);
    assert Same(inv)(p, s, s) && Same(inv)(p, I.store(v, s).value, I.store(v, s).value);
  }

  lemma {:induction false} FewerReaches(x: Signature, inv: Invariant, p: Path, given: set<Variable>,
                                        fewer: set<Variable>, flow: Flow, r: Outcome<Store>)
    requires Reaches(x, inv, p, given, flow, r) && forall v :: Readable(x, p, fewer, v) ==> v in given
    ensures Reaches(x, inv, p, fewer, flow, r)
  {
    hide Good, Readable;
    if r.Broke? || r.Returned? { GoodFewer(x, p, given, fewer, r.s); }
  }

  lemma {:induction false} JoinReaches(x: Signature, inv: Invariant, p: Path, given: set<Variable>, a: Flow, b: Flow,
                                       r: Outcome<Store>)
    requires !a.Refused? && !b.Refused?
    requires Reaches(x, inv, p, given, a, r) || Reaches(x, inv, p, given, b, r)
    ensures Reaches(x, inv, p, given, Join(a, b), r)
  {
    hide Good, Writable;
    if r.Fell? && a.Falls? && b.Falls? {
      if Good(x, p, a.given, r.s) { GoodFewer(x, p, a.given, a.given * b.given, r.s); }
      else { GoodFewer(x, p, b.given, a.given * b.given, r.s); }
    }
  }

  // A scope the check accepts is left as the check says, from every state good
  // enough for it.
  lemma {:induction false} Proceeds(x: Signature, env: Env, I: Interp<Store>, inv: Invariant, p: Path, sc: Scope,
                                    i: nat, inLoop: bool, given: set<Variable>, s: Store, fuel: nat)
    requires Performs(x, env, I, inv) && ObjectsFit(env)
    requires IsScope(x.main, p) && ScopeAt(x.main, p) == sc && i <= |sc.instrs|
    requires At(x, inv, p + [i], given, s) && !Check(x, p, sc, i, inLoop, given).Refused?
    ensures Reaches(x, inv, p, given, Check(x, p, sc, i, inLoop, given), Eval(I, p, sc, i, inLoop, s, fuel))
    decreases fuel, sc, |sc.instrs| - i, 3
  {
    hide IsScope, ScopeAt, Continue, Loop, Unwind, At, Performs, Reaches, ReadyOp, ReadyTest, ReadyResult, Writable;
    if i == |sc.instrs| {
      AtUnwind(x, env, I, inv, p, sc, i, i, given, s);
      LeavesSo(x, inv, p, given, Falls(given), Fell(Unwind(I, p, sc, i, s), fuel));
      return;
    }
    ScopeSnoc(x.main, p, i);
    match sc.instrs[i] {
      case Declare(ty) =>
        var v := Variable(p + [i], ty);
        assert Declares(x.main, p, i) && DeclaredAt(x.main, p, i) == v;
        AtDeclare(x, env, I, inv, p, i, given, s);
        ProceedsFewer(x, env, I, inv, p, sc, i, inLoop, given, given - {v}, I.declare(v, s), fuel);
      case Effect(op) =>
        AtPerformed(x, env, I, inv, p, i, op, given, s);
        ProceedsFewer(x, env, I, inv, p, sc, i, inLoop, given, given + Gives(op), I.exec(op, s).value, fuel);
      case Return(_) => ReturnProceeds(x, env, I, inv, p, sc, i, inLoop, given, s, fuel);
      case Break =>
        if inLoop {
          AtUnwind(x, env, I, inv, p, sc, i, i, given, s);
          LeavesSo(x, inv, p, given, Leaves, Broke(Unwind(I, p, sc, i, s), fuel));
        } else {
          AtPast(x, env, I, inv, p, i, i + 1, given, s);
          Proceeds(x, env, I, inv, p, sc, i + 1, inLoop, given, s, fuel);
        }
      case Nested(b) => BodyProceeds(x, env, I, inv, p, sc, i, b, i + 1, inLoop, given, s, fuel);
      case Branch(Else, b) => BodyProceeds(x, env, I, inv, p, sc, i, b, i + 1, inLoop, given, s, fuel);
      case Branch(If(c), b) =>
        AtTested(x, env, I, inv, p + [i], c, given, s);
        var after := Check(x, p, sc, i + 1, inLoop, given);
        var body := match Check(x, p + [i], b, 0, inLoop, given)
                    case Falls(g) => Check(x, p, sc, AfterIf(sc, i), inLoop, g)
                    case other => other;
        if I.test(c, s).value.0 {
          BodyProceeds(x, env, I, inv, p, sc, i, b, AfterIf(sc, i), inLoop, given, s, fuel);
        } else {
          AtPast(x, env, I, inv, p, i, i + 1, given, s);
          Proceeds(x, env, I, inv, p, sc, i + 1, inLoop, given, s, fuel);
        }
        JoinReaches(x, inv, p, given, body, after, Eval(I, p, sc, i, inLoop, s, fuel));
      case Branch(While(c), b) =>
        LoopProceeds(x, env, I, inv, p, i, c, b, given, s, fuel);
        ContinueProceeds(x, env, I, inv, p, sc, i, i + 1, inLoop, given, Falls(given), Loop(I, p + [i], c, b, s, fuel),
                         fuel);
      case PrimitiveConvert =>
    }
  }

  lemma {:induction false} LeavesSo(x: Signature, inv: Invariant, p: Path, given: set<Variable>, flow: Flow,
                                    r: Outcome<Store>)
    requires (r.Fell? && flow.Falls? && At(x, inv, p, flow.given, r.s)) ||
             ((r.Broke? || r.Returned?) && At(x, inv, p, given, r.s))
    ensures Reaches(x, inv, p, given, flow, r)
  {
    hide At;
  }

  // Past an instruction that changed what is given, at most by its own variable.
  lemma {:induction false} ProceedsFewer(x: Signature, env: Env, I: Interp<Store>, inv: Invariant, p: Path, sc: Scope,
                                         i: nat, inLoop: bool, given: set<Variable>, now: set<Variable>, s: Store,
                                         fuel: nat)
    requires Performs(x, env, I, inv) && ObjectsFit(env)
    requires IsScope(x.main, p) && ScopeAt(x.main, p) == sc && i < |sc.instrs|
    requires At(x, inv, p + [i + 1], now, s) && !Check(x, p, sc, i + 1, inLoop, now).Refused?
    requires forall v :: v in given && v.site != p + [i] ==> v in now
    ensures Reaches(x, inv, p, given, Check(x, p, sc, i + 1, inLoop, now), Eval(I, p, sc, i + 1, inLoop, s, fuel))
    decreases fuel, sc, |sc.instrs| - i, 2
  {
    hide IsScope, ScopeAt, At, Performs, Reaches, Eval, Check, DeclaredIn;
    Proceeds(x, env, I, inv, p, sc, i + 1, inLoop, now, s, fuel);
    FewerReaches(x, inv, p, now, given, Check(x, p, sc, i + 1, inLoop, now), Eval(I, p, sc, i + 1, inLoop, s, fuel));
  }

  lemma {:induction false} ReturnProceeds(x: Signature, env: Env, I: Interp<Store>, inv: Invariant, p: Path, sc: Scope,
                                          i: nat, inLoop: bool, given: set<Variable>, s: Store, fuel: nat)
    requires Performs(x, env, I, inv) && ObjectsFit(env)
    requires i < |sc.instrs| && sc.instrs[i].Return?
    requires At(x, inv, p + [i], given, s) && !Check(x, p, sc, i, inLoop, given).Refused?
    ensures Reaches(x, inv, p, given, Check(x, p, sc, i, inLoop, given), Eval(I, p, sc, i, inLoop, s, fuel))
  {
    hide Unwind, At, Performs, Reaches, ReadyResult;
    var v, s' := sc.instrs[i].v, s;
    if v.Some? {
      AtStored(x, env, I, inv, p + [i], v.value, given, s);
      s' := I.store(v.value, s).value;
    }
    AtUnwind(x, env, I, inv, p, sc, i, i, given, s');
    LeavesSo(x, inv, p, given, Leaves, Returned(Unwind(I, p, sc, i, s'), fuel));
  }

  // A body that is entered, and what follows it.
  lemma {:induction false} BodyProceeds(x: Signature, env: Env, I: Interp<Store>, inv: Invariant, p: Path, sc: Scope,
                                        i: nat, b: Scope, next: nat, inLoop: bool, given: set<Variable>, s: Store,
                                        fuel: nat)
    requires Performs(x, env, I, inv) && ObjectsFit(env)
    requires IsScope(x.main, p) && ScopeAt(x.main, p) == sc && i < next <= |sc.instrs|
    requires IsScope(x.main, p + [i]) && ScopeAt(x.main, p + [i]) == b && b < sc
    requires forall k :: i <= k < next ==> !sc.instrs[k].Declare?
    requires At(x, inv, p + [i], given, s)
    requires var body := Check(x, p + [i], b, 0, inLoop, given);
             !body.Refused? && (body.Falls? ==> !Check(x, p, sc, next, inLoop, body.given).Refused?)
    ensures var body := Check(x, p + [i], b, 0, inLoop, given);
            Reaches(x, inv, p, given, if body.Falls? then Check(x, p, sc, next, inLoop, body.given) else body,
                    Continue(I, p, sc, i, next, inLoop, Eval(I, p + [i], b, 0, inLoop, s, fuel), fuel))
    decreases fuel, sc, |sc.instrs| - i, 1
  {
    hide IsScope, ScopeAt, At, Performs, Reaches, Eval, Check, Readable, Continue;
    AtEnter(x, env, I, inv, p + [i], given, s);
    var body := Check(x, p + [i], b, 0, inLoop, given);
    Proceeds(x, env, I, inv, p + [i], b, 0, inLoop, given, s, fuel);
    if body.Falls? { CheckKeeps(x, p + [i], b, 0, inLoop, given); }
    ContinueProceeds(x, env, I, inv, p, sc, i, next, inLoop, given, body, Eval(I, p + [i], b, 0, inLoop, s, fuel),
                     fuel);
  }

  lemma {:induction false} ContinueProceeds(x: Signature, env: Env, I: Interp<Store>, inv: Invariant, p: Path,
                                            sc: Scope, at: nat, next: nat, inLoop: bool, given: set<Variable>,
                                            body: Flow, r: Outcome<Store>, fuel: nat)
    requires Performs(x, env, I, inv) && ObjectsFit(env)
    requires IsScope(x.main, p) && ScopeAt(x.main, p) == sc && at < next <= |sc.instrs|
    requires forall k :: at <= k < next ==> !sc.instrs[k].Declare?
    requires r.Fell? || r.Broke? || r.Returned? ==> r.fuel <= fuel
    requires r.Broke? ==> inLoop
    requires Reaches(x, inv, p + [at], given, body, r)
    requires body.Falls? ==> !Check(x, p, sc, next, inLoop, body.given).Refused?
    requires body.Falls? ==> forall v :: Readable(x, p + [at], given, v) ==> v in body.given
    ensures Reaches(x, inv, p, given, if body.Falls? then Check(x, p, sc, next, inLoop, body.given) else body,
                    Continue(I, p, sc, at, next, inLoop, r, fuel))
    decreases fuel, sc, |sc.instrs| - at, 0
  {
    hide IsScope, ScopeAt, Unwind, Eval, Check, At, Performs, Readable;
    if r.Fell? {
      assert forall k: nat :: at <= k < next ==> !Declares(x.main, p, k);
      AtPast(x, env, I, inv, p, at, next, body.given, r.s);
      Proceeds(x, env, I, inv, p, sc, next, inLoop, body.given, r.s, r.fuel);
      ReadableInside(x, p, at, given);
      FewerReaches(x, inv, p, body.given, given, Check(x, p, sc, next, inLoop, body.given),
                   Eval(I, p, sc, next, inLoop, r.s, r.fuel));
    } else if r.Broke? || r.Returned? {
      AtUnwind(x, env, I, inv, p, sc, at, at, given, r.s);
    }
  }

  // However many turns a loop takes, what was given before it still is after it.
  lemma {:induction false} LoopProceeds(x: Signature, env: Env, I: Interp<Store>, inv: Invariant, p: Path, i: nat,
                                        c: Expr, b: Scope, given: set<Variable>, s: Store, fuel: nat)
    requires Performs(x, env, I, inv) && ObjectsFit(env)
    requires IsScope(x.main, p + [i]) && ScopeAt(x.main, p + [i]) == b
    requires At(x, inv, p + [i], given, s) && ReadyTest(x, p + [i], given, c)
    requires !Check(x, p + [i], b, 0, true, given).Refused?
    ensures Reaches(x, inv, p + [i], given, Falls(given), Loop(I, p + [i], c, b, s, fuel))
    decreases fuel, b, |b.instrs| + 1, 0
  {
    hide IsScope, ScopeAt, Eval, Check, Performs, ReadyTest, Readable, Good;
    var site := p + [i];
    AtTested(x, env, I, inv, site, c, given, s);
    if I.test(c, s).value.0 && fuel > 0 {
      AtEnter(x, env, I, inv, site, given, s);
      Proceeds(x, env, I, inv, site, b, 0, true, given, s, fuel - 1);
      var r := Eval(I, site, b, 0, true, s, fuel - 1);
      if r.Fell? {
        CheckKeeps(x, site, b, 0, true, given);
        GoodFewer(x, site, Check(x, site, b, 0, true, given).given, given, r.s);
        LoopProceeds(x, env, I, inv, p, i, c, b, given, r.s, r.fuel);
      }
    }
  }
}
