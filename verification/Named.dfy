// What the straight-line operations mean to a store of named variables.
module Named {
  import opened Program
  import opened Integers
  import opened Asm
  import opened Machine
  import opened Refinement

  // A variable in scope holds its bytes, or nothing yet. `args` are the
  // function's arguments, `ret` what it has returned, of `retSize` bytes.
  datatype Store = Store(vars: map<Variable, Option<seq<Byte>>>, args: seq<seq<Byte>>, ret: Option<seq<Byte>>,
                         retSize: nat)

  // The value of a variable that is in scope and has one.
  function Get(s: Store, v: Variable): Option<seq<Byte>> {
    if v in s.vars then s.vars[v] else None
  }

  // Giving a variable in scope a value of its size.
  function Put(s: Store, v: Variable, bs: seq<Byte>): Option<Store> {
    if v in s.vars && |bs| == v.ty.size then Some(s.(vars := s.vars[v := Some(bs)])) else None
  }

  function OperandValue(s: Store, x: Operand): Option<seq<Byte>> {
    match x case Imm(bytes) => Some(bytes) case Var(v) => Get(s, v)
  }

  // Integer expressions over signed or unsigned values. The cases the emitted
  // code does not serve have no value: a zero divisor, a negative dividend, and
  // multiplication and division of single bytes.
  function ExprValue(s: Store, e: Expr): Option<seq<Byte>> {
    var w := e.ty.size;
    match (OperandValue(s, e.left), OperandValue(s, e.right))
    case (Some(l), Some(r)) =>
      if |l| != w || |r| != w || !SupportedExpr(e) then None
      else Evaluate(e.op, Value(Decode(l), w, e.ty.signed), Value(Decode(r), w, e.ty.signed), w)
    case _ => None
  }

  function Evaluate(op: BinaryOperator, x: int, y: int, w: nat): Option<seq<Byte>> {
    if IsComparison(op) then Some([if Compare(op, x, y) then 1 else 0])
    else match op
      case Add => Some(Encode(Wrap(x + y, w), w))
      case Sub => Some(Encode(Wrap(x - y, w), w))
      case Mul => if w > 1 then Some(Encode(Wrap(x * y, w), w)) else None
      case Div => if w > 1 && y != 0 && x >= 0 then Some(Encode(Wrap(TruncDiv(x, y), w), w)) else None
      case Mod => if w > 1 && y != 0 && x >= 0 then Some(Encode(Wrap(TruncMod(x, y), w), w)) else None
      case _ => None
  }

  // The value a source copies into v.
  function SourceValue(env: Env, s: Store, v: Variable, src: Source, assigning: bool): Option<seq<Byte>> {
    match src
    case FromImm(bytes) => if v.ty.primitive then Some(bytes) else None
    case FromArg(i) => if i < |s.args| &&
      |s.args[i]| == v.ty.size then Copied(env, s, v, Some(s.args[i]), assigning) else None
    case FromVar(u) => if u.ty == v.ty then Copied(env, s, v, Get(s, u), assigning) else None
    case FromExpr(e) => if v.ty.primitive then ExprValue(s, e) else None
  }

  // Primitive values are copied as they are, others by their copy constructor
  // or assignment operator.
  function Copied(env: Env, s: Store, v: Variable, value: Option<seq<Byte>>, assigning: bool): Option<seq<Byte>> {
    if v.ty.primitive then value
    else match value
      case None => None
      case Some(bs) =>
        if !assigning then Some(env.copy(v.ty, bs))
        else match Get(s, v) case None => None case Some(was) => Some(env.assign(v.ty, was, bs))
  }

  // Arguments of a call: primitive values only.
  function ArgumentValue(s: Store, x: Operand): Option<seq<Byte>> {
    if !SupportedOperand(x) then None
    else match x
      case Imm(bytes) => Some(bytes)
      case Var(v) => if v.ty.primitive then Get(s, v) else None
  }

  function ArgumentValues(s: Store, args: seq<Operand>): Option<seq<seq<Byte>>> {
    if args == [] then Some([])
    else
      var n := |args| - 1;
      match ArgumentValues(s, args[..n])
      case None => None
      case Some(vs) =>
        match ArgumentValue(s, args[n])
        case None => None
        case Some(x) => Some(vs + [x])
  }

  function ExecOp(env: Env, s: Store, op: Op): Option<Store> {
    if !Supported(op) then None
    else match op
      case Construct(v) => Put(s, v, env.construct(v.ty))
      case CopyConstruct(v, src) =>
        (match SourceValue(env, s, v, src, false) case None => None case Some(bs) => Put(s, v, bs))
      case Assign(v, src) =>
        (match SourceValue(env, s, v, src, true) case None => None case Some(bs) => Put(s, v, bs))
      case Convert(from, to, converter) =>
        (match Get(s, from) case None => None case Some(bs) => Put(s, to, env.convert(converter, bs)))
      case Invoke(callee, args, retType, ret) =>
        (match ArgumentValues(s, args)
         case None => None
         case Some(vs) =>
           Accept(s, retType, ret, env.call(callee, vs)))
  }

  // What a call's result is used for.
  function Accept(s: Store, retType: Option<Type>, ret: Option<Variable>, result: seq<Byte>): Option<Store> {
    if |result| != (match retType case None => 0 case Some(ty) => ty.size) then None
    else match ret
      case None => Some(s)
      case Some(v) =>
        if retType == Some(v.ty) && v.ty.primitive && Movable(v.ty) then Put(s, v, result) else None
  }

  function TestCond(s: Store, e: Expr): Option<bool> {
    if !IsComparison(e.op) then None
    else match ExprValue(s, e)
      case None => None
      case Some(bs) => Some(bs != [0])
  }

  function StoreVar(env: Env, s: Store, v: Variable): Option<Store> {
    match Get(s, v)
    case None => None
    case Some(bs) =>
      var result := if v.ty.primitive then bs else env.copy(v.ty, bs);
      if Movable(v.ty) && |result| == v.ty.size == s.retSize then Some(s.(ret := Some(result))) else None
  }

  // At every point the variables in scope are those declared that are visible there.
  ghost predicate InScope(main: Scope, p: Path, s: Store) {
    forall v :: v in s.vars <==> DeclaredIn(main, v) && Visible(v.site, p)
  }

  // Declaring a variable brings it into scope without a value; leaving a scope
  // takes out the variables that are not visible outside.
  function Meaning(env: Env): Interp<Store> {
    Interp(
      (op: Op, s: Store) => ExecOp(env, s, op),
      (e: Expr, s: Store) => (match TestCond(s, e) case None => None case Some(b) => Some((b, s))),
      (v: Variable, s: Store) => StoreVar(env, s, v),
      (v: Variable, s: Store) => s,
      (v: Variable, s: Store) => s.(vars := s.vars[v := None]),
      (p: Path, s: Store) => s.(vars := map v | v in s.vars && Visible(v.site, p) :: s.vars[v]))
  }
}
