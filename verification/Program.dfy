// Structured programs as the builder leaves them: a tree of scopes.
//
// The library identifies a scope, a branch or a variable by the address of its
// heap object. Here the identity of an instruction is its *site*: the path of
// instruction indices that leads to it from the main scope. Two instructions
// of one tree never share a site, just as two live objects never share an
// address, so no freshness assumption is needed anywhere.
module Program {

  datatype Option<+T> = None | Some(value: T)
  {
    function Or(other: T): T { match this case None => other case Some(x) => x }
  }

  type Path = seq<nat>

  // Strict positivity is C++'s `sizeof`.
  type Size = n: nat | 0 < n witness 1

  type Byte = n: nat | n < 256

  // What code generation looks at in a `Type`.
  datatype Type = Type(size: Size, signed: bool, primitive: bool)

  // A reference to a `VariableInstruction`: which declaration, and its type.
  datatype Variable = Variable(site: Path, ty: Type)

  datatype BinaryOperator = Add | Sub | Mul | Div | Mod | Eq | Ne | Gt | Ge | Lt | Le

  datatype Operand = Imm(bytes: seq<Byte>) | Var(v: Variable)

  // An atomic binary expression; `ty` is the type of the left operand, which
  // alone decides widths and signedness.
  datatype Expr = Expr(op: BinaryOperator, ty: Type, left: Operand, right: Operand)

  datatype Source =
    | FromImm(bytes: seq<Byte>)
    | FromArg(index: nat)
    | FromVar(v: Variable)
    | FromExpr(e: Expr)

  // Straight-line instructions: everything that transfers no control.
  datatype Op =
    | Construct(v: Variable)
    | CopyConstruct(v: Variable, src: Source)
    | Assign(v: Variable, src: Source)
    | Convert(from: Variable, to: Variable, converter: nat)
    | Invoke(callee: nat, args: seq<Operand>, retType: Option<Type>, ret: Option<Variable>)

  datatype BranchKind = If(cond: Expr) | Else | While(cond: Expr)

  datatype Instr =
    | Declare(ty: Type)
    | Effect(op: Op)
    | Return(v: Option<Variable>)
    | Nested(scope: Scope)
    | Branch(kind: BranchKind, scope: Scope)
    | Break
    | PrimitiveConvert

  datatype Scope = Scope(instrs: seq<Instr>)

  // What code generation can move: a primitive must have a register's width.
  predicate Movable(ty: Type) {
    ty.primitive ==> ty.size in {1, 2, 4, 8}
  }

  predicate SupportedOperand(x: Operand) {
    match x
    case Imm(bytes) => |bytes| in {1, 2, 4, 8}
    case Var(v) => Movable(v.ty)
  }

  predicate SupportedExpr(e: Expr) {
    e.ty.size in {1, 2, 4, 8}
  }

  predicate Supported(op: Op) {
    match op
    case Construct(_) => true
    case CopyConstruct(v, FromExpr(e)) => SupportedExpr(e)
    case CopyConstruct(v, _) => Movable(v.ty)
    case Assign(v, FromExpr(e)) => SupportedExpr(e)
    case Assign(v, _) => Movable(v.ty)
    case Convert(_, _, _) => true
    case Invoke(_, args, retType, ret) =>
      (forall i :: 0 <= i < |args| ==> SupportedOperand(args[i])) &&
      (retType.Some? && ret.Some? ==> Movable(ret.value.ty))
  }

  // Whether the instruction after instruction i is an `else`.
  predicate ElseFollows(s: Scope, i: nat) {
    i + 1 < |s.instrs| && s.instrs[i + 1].Branch? && s.instrs[i + 1].kind.Else?
  }

  // Code generation stops at a `return` that sits directly in the scope.
  predicate ReturnsFrom(s: Scope, i: nat)
    decreases |s.instrs| - i
  {
    i < |s.instrs| && (s.instrs[i].Return? || ReturnsFrom(s, i + 1))
  }

  // Whether a `break` met from instruction i on leaves this scope.
  predicate BreaksFrom(sc: Scope, i: nat)
    decreases sc, |sc.instrs| - i
  {
    i < |sc.instrs| &&
    match sc.instrs[i]
    case Break => true
    case Return(_) => false
    case Nested(b) => BreaksFrom(b, 0) || BreaksFrom(sc, i + 1)
    case Branch(k, b) => (!k.While? && BreaksFrom(b, 0)) || BreaksFrom(sc, i + 1)
    case _ => BreaksFrom(sc, i + 1)
  }

  // The variables a scope must destroy when it is left at index `at`: the
  // non-primitive ones whose declaration has been passed, in declaration order.
  function Dying(p: Path, s: Scope, at: nat): seq<Variable> {
    DyingBefore(p, s, if at < |s.instrs| then at + 1 else |s.instrs|)
  }

  function DyingBefore(p: Path, s: Scope, n: nat): seq<Variable>
    requires n <= |s.instrs|
  {
    if n == 0 then []
    else
      DyingBefore(p, s, n - 1) +
      (match s.instrs[n - 1]
       case Declare(ty) => if ty.primitive then [] else [Variable(p + [n - 1], ty)]
       case _ => [])
  }

  // A variable is visible at a point when it is declared in the same scope or
  // in an enclosing one, at a smaller index than the point's at that depth.
  predicate Visible(v: Path, point: Path) {
    0 < |v| <= |point| && v[..|v| - 1] == point[..|v| - 1] && v[|v| - 1] < point[|v| - 1]
  }

  // Paths that lead to a scope of the tree, and the scope they lead to.
  predicate IsScope(s: Scope, p: Path)
    decreases p
  {
    p == [] ||
    (p[0] < |s.instrs| && (s.instrs[p[0]].Nested? || s.instrs[p[0]].Branch?) &&
     IsScope(s.instrs[p[0]].scope, p[1..]))
  }

  function ScopeAt(s: Scope, p: Path): Scope
    requires IsScope(s, p)
    decreases p
  {
    if p == [] then s else ScopeAt(s.instrs[p[0]].scope, p[1..])
  }

  // Paths that step through branch bodies only.
  predicate ThroughBranches(s: Scope, p: Path)
    decreases p
  {
    p == [] ||
    (p[0] < |s.instrs| && s.instrs[p[0]].Branch? && ThroughBranches(s.instrs[p[0]].scope, p[1..]))
  }

  lemma {:induction false} ScopeSnoc(s: Scope, p: Path, i: nat)
    requires IsScope(s, p)
    ensures IsScope(s, p + [i]) <==>
            i < |ScopeAt(s, p).instrs| &&
            (ScopeAt(s, p).instrs[i].Nested? || ScopeAt(s, p).instrs[i].Branch?)
    ensures IsScope(s, p + [i]) ==> ScopeAt(s, p + [i]) == ScopeAt(s, p).instrs[i].scope
    ensures ThroughBranches(s, p + [i]) <==>
            ThroughBranches(s, p) && i < |ScopeAt(s, p).instrs| && ScopeAt(s, p).instrs[i].Branch?
    decreases p
  {
    if p == [] {
      assert (p + [i])[1..] == [];
    } else {
      assert (p + [i])[1..] == p[1..] + [i];
      ScopeSnoc(s.instrs[p[0]].scope, p[1..], i);
    }
  }
}
