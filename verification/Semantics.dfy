// What a structured program means, independently of how it is compiled.
module Semantics {
  import opened Program
  import opened Machine

  // How a scope is left. `fuel` is what remains of the number of loop
  // iterations the run was allowed.
  datatype Outcome<S> =
    | Fell(s: S, fuel: nat)
    | Broke(s: S, fuel: nat)
    | Returned(s: S, fuel: nat)
    | Stuck
    | Timeout

  function DestroyVars<S(!new)>(I: Interp<S>, vs: seq<Variable>, s: S): S {
    if vs == [] then s else DestroyVars(I, vs[1..], I.destroy(vs[0], s))
  }

  // Leaving the scope at path p at index `at` destroys its constructed variables.
  function Unwind<S(!new)>(I: Interp<S>, p: Path, sc: Scope, at: nat, s: S): S {
    I.leave(p, DestroyVars(I, Dying(p, sc, at), s))
  }

  function Left<S(!new)>(I: Interp<S>, p: Path, sc: Scope, at: nat, r: Outcome<S>): Outcome<S> {
    match r
    case Broke(s, f) => Broke(Unwind(I, p, sc, at, s), f)
    case Returned(s, f) => Returned(Unwind(I, p, sc, at, s), f)
    case _ => r
  }

  // After an `if` body: past the `else`, if there is one.
  function AfterIf(sc: Scope, i: nat): nat {
    if ElseFollows(sc, i) then i + 2 else i + 1
  }

  // Runs the scope at path p from instruction i on. An `else` that is reached
  // runs its body: an `if` whose body ran skips it.
  function Eval<S(!new)>(I: Interp<S>, p: Path, sc: Scope, i: nat, inLoop: bool, s: S, fuel: nat): (r: Outcome<S>)
    requires i <= |sc.instrs|
    ensures r.Fell? || r.Broke? || r.Returned? ==> r.fuel <= fuel
    ensures r.Broke? ==> inLoop
    decreases fuel, sc, |sc.instrs| - i, 1
  {
    if i == |sc.instrs| then Fell(Unwind(I, p, sc, i, s), fuel)
    else match sc.instrs[i]
      case Declare(ty) => Eval(I, p, sc, i + 1, inLoop, I.declare(Variable(p + [i], ty), s), fuel)
      case Effect(op) =>
        (match I.exec(op, s)
         case None => Stuck
         case Some(s') => Eval(I, p, sc, i + 1, inLoop, s', fuel))
      case Return(None) => Returned(Unwind(I, p, sc, i, s), fuel)
      case Return(Some(v)) =>
        (match I.store(v, s)
         case None => Stuck
         case Some(s') => Returned(Unwind(I, p, sc, i, s'), fuel))
      case Break =>
        if inLoop then Broke(Unwind(I, p, sc, i, s), fuel)
        else Eval(I, p, sc, i + 1, inLoop, s, fuel)
      case Nested(b) => Continue(I, p, sc, i, i + 1, inLoop, Eval(I, p + [i], b, 0, inLoop, s, fuel), fuel)
      case Branch(Else, b) => Continue(I, p, sc, i, i + 1, inLoop, Eval(I, p + [i], b, 0, inLoop, s, fuel), fuel)
      case Branch(If(c), b) =>
        (match I.test(c, s)
         case None => Stuck
         case Some((true, s')) =>
           Continue(I, p, sc, i, AfterIf(sc, i), inLoop, Eval(I, p + [i], b, 0, inLoop, s', fuel), fuel)
         case Some((false, s')) => Eval(I, p, sc, i + 1, inLoop, s', fuel))
      case Branch(While(c), b) => Continue(I, p, sc, i, i + 1, inLoop, Loop(I, p + [i], c, b, s, fuel), fuel)
      case PrimitiveConvert => Stuck
  }

  // What follows a body opened at instruction `at`.
  function Continue<S(!new)>(I: Interp<S>, p: Path, sc: Scope, at: nat, next: nat, inLoop: bool, r: Outcome<S>,
                             fuel: nat): (r': Outcome<S>)
    requires at < next <= |sc.instrs|
    requires r.Fell? || r.Broke? || r.Returned? ==> r.fuel <= fuel
    requires r.Broke? ==> inLoop
    ensures r'.Fell? || r'.Broke? || r'.Returned? ==> r'.fuel <= fuel
    ensures r'.Broke? ==> inLoop
    decreases fuel, sc, |sc.instrs| - at, 0
  {
    if r.Fell? then Eval(I, p, sc, next, inLoop, r.s, r.fuel) else Left(I, p, sc, at, r)
  }

  function Loop<S(!new)>(I: Interp<S>, site: Path, c: Expr, b: Scope, s: S, fuel: nat): (r: Outcome<S>)
    ensures r.Fell? || r.Returned? ==> r.fuel <= fuel
    ensures !r.Broke?
    decreases fuel, b, |b.instrs| + 1, 0
  {
    match I.test(c, s)
    case None => Stuck
    case Some((false, s')) => Fell(s', fuel)
    case Some((true, s')) =>
      if fuel == 0 then Timeout
      else
        match Eval(I, site, b, 0, true, s', fuel - 1)
        case Fell(s'', f) => Loop(I, site, c, b, s'', f)
        case Broke(s'', f) => Fell(s'', f)
        case r => r
  }

  function RunMain<S(!new)>(I: Interp<S>, main: Scope, s: S, fuel: nat): Outcome<S> {
    Eval(I, [], main, 0, false, s, fuel)
  }
}
