// The flat code a scope tree compiles to, by structural recursion.
module Emission {
  import opened Program

  // A branch's three labels are named by the branch's site.
  datatype Label = Begin(site: Path) | End(site: Path) | LoopEnd(site: Path) | Exit

  datatype Flat =
    | Do(op: Op)
    | Store(v: Variable)
    | Destroy(v: Variable)
    | Test(cond: Expr)
    | CmpAl
    | Jmp(l: Label)
    | Je(l: Label)
    | Jne(l: Label)
    | Bind(l: Label)
    | Leave

  // The branch a scope is the body of, if any. `els` says that the `if` has an `else`.
  datatype Kind = Plain | OfIf(els: bool) | OfElse | OfWhile(cond: Expr)

  // An open scope: where it is, and the index code generation has reached in it.
  datatype Frame = Frame(path: Path, scope: Scope, at: nat, kind: Kind)
  {
    predicate Valid() {
      at <= |scope.instrs| && (!kind.Plain? ==> path != [])
    }

    function Next(): Frame { this.(at := at + 1) }

    // The body opened by the instruction at `at`.
    function Sub(): Frame
      requires at < |scope.instrs| && (scope.instrs[at].Nested? || scope.instrs[at].Branch?)
    {
      Frame(path + [at], scope.instrs[at].scope, 0, SubKind(scope, at))
    }
  }

  function SubKind(s: Scope, i: nat): Kind
    requires i < |s.instrs|
  {
    match s.instrs[i]
    case Branch(If(_), _) => OfIf(ElseFollows(s, i))
    case Branch(Else, _) => OfElse
    case Branch(While(c), _) => OfWhile(c)
    case _ => Plain
  }

  // The site right after a site.
  function Sibling(p: Path): Path
    requires p != []
  {
    p[..|p| - 1] + [p[|p| - 1] + 1]
  }

  function InnermostLoop(frames: seq<Frame>): Option<Path> {
    if frames == [] then None
    else if frames[|frames| - 1].kind.OfWhile? then Some(frames[|frames| - 1].path)
    else InnermostLoop(frames[..|frames| - 1])
  }

  function DestroyAll(vs: seq<Variable>): seq<Flat> {
    seq(|vs|, i requires 0 <= i < |vs| => Destroy(vs[i]))
  }

  function Destroys(f: Frame): seq<Flat> {
    DestroyAll(Dying(f.path, f.scope, f.at))
  }

  // A `return` destroys every open scope's variables, innermost scope first.
  function UnwindCode(frames: seq<Frame>): seq<Flat> {
    if frames == [] then []
    else Destroys(frames[|frames| - 1]) + UnwindCode(frames[..|frames| - 1])
  }

  function StoreCode(v: Option<Variable>): seq<Flat> {
    match v case None => [] case Some(x) => [Store(x)]
  }

  function ReturnCode(below: seq<Frame>, f: Frame, v: Option<Variable>): seq<Flat> {
    StoreCode(v) + UnwindCode(below + [f]) + [Jmp(Exit)] + EndBind(f)
  }

  function EndBind(f: Frame): seq<Flat> {
    if f.kind.Plain? then [] else [Bind(End(f.path))]
  }

  function BreakCode(below: seq<Frame>, f: Frame): seq<Flat> {
    match InnermostLoop(below + [f])
    case None => []
    case Some(loop) => Destroys(f) + [Jmp(LoopEnd(loop))]
  }

  // Emitted once, before a branch body's first instruction.
  function Opening(f: Frame): seq<Flat> {
    if f.at == 0 && !f.kind.Plain? then [Bind(Begin(f.path))] else []
  }

  // Emitted after the last instruction of a body that was not cut short by a `return`.
  function Closing(f: Frame): seq<Flat>
    requires f.Valid()
  {
    match f.kind
    case Plain => []
    case OfIf(els) =>
      if els then [Bind(End(f.path)), Jmp(End(Sibling(f.path)))] else [Bind(End(f.path))]
    case OfElse => [Bind(End(f.path))]
    case OfWhile(c) =>
      [Bind(End(f.path)), Test(c), CmpAl, Jne(Begin(f.path)), Bind(LoopEnd(f.path))]
  }

  // Emitted before a branch's body is opened.
  function Head(f: Frame): seq<Flat>
    requires f.at < |f.scope.instrs|
  {
    var site := f.path + [f.at];
    match f.scope.instrs[f.at]
    case Branch(If(c), _) =>
      [Test(c), CmpAl, Je(if ElseFollows(f.scope, f.at) then Begin(f.path + [f.at + 1]) else End(site))]
    case Branch(While(_), _) => [Jmp(End(site))]
    case _ => []
  }

  // Code of the single instruction at `f.at`, which is not a `return`.
  function Piece(below: seq<Frame>, f: Frame): seq<Flat>
    requires f.Valid() && f.at < |f.scope.instrs|
    decreases f.scope, |f.scope.instrs| - f.at, 0
  {
    match f.scope.instrs[f.at]
    case Effect(op) => [Do(op)]
    case Break => BreakCode(below, f)
    case Nested(_) => Emit(below + [f], f.Sub())
    case Branch(_, _) => Head(f) + Emit(below + [f], f.Sub())
    case _ => []
  }

  // Everything emitted for the innermost open scope `f` from its index on.
  function Emit(below: seq<Frame>, f: Frame): seq<Flat>
    requires f.Valid()
    decreases f.scope, |f.scope.instrs| - f.at, 1
  {
    if f.at == |f.scope.instrs| then Destroys(f) + Closing(f)
    else if f.scope.instrs[f.at].Return? then
      Opening(f) + ReturnCode(below, f, f.scope.instrs[f.at].v)
    else Opening(f) + Piece(below, f) + Emit(below, f.Next())
  }

  function MainFrame(main: Scope): Frame { Frame([], main, 0, Plain) }

  function Compile(main: Scope): seq<Flat> {
    Emit([], MainFrame(main)) + [Bind(Exit), Leave]
  }
}
