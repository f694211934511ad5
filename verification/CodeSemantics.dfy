// What the compiled code of a structured program does, told on the program: for
// every program that links, whether or not it does what the program means.
module CodeSemantics {
  import opened Program
  import opened Machine
  import opened Semantics

  // Leaving a scope at index `at` destroys its constructed variables.
  function Destroyed<S(!new)>(I: Interp<S>, p: Path, sc: Scope, at: nat, s: S): S {
    DestroyVars(I, Dying(p, sc, at), s)
  }

  // A `break` passes through the scopes between it and the loop; only a `return`
  // destroys what they hold.
  function LeftCode<S(!new)>(I: Interp<S>, p: Path, sc: Scope, at: nat, r: Outcome<S>): Outcome<S> {
    match r
    case Returned(s, f) => Returned(Destroyed(I, p, sc, at, s), f)
    case _ => r
  }

  // A loop whose body has a direct `return` is stepped over. Nothing is emitted
  // for a declaration, nor for a primitive conversion.
  function EvalCode<S(!new)>(I: Interp<S>, p: Path, sc: Scope, i: nat, inLoop: bool, s: S, fuel: nat): (r: Outcome<S>)
    requires i <= |sc.instrs|
    ensures r.Fell? || r.Broke? || r.Returned? ==> r.fuel <= fuel
    ensures r.Broke? ==> inLoop
    decreases fuel, sc, |sc.instrs| - i, 1
  {
    if i == |sc.instrs| then Fell(Destroyed(I, p, sc, i, s), fuel)
    else match sc.instrs[i]
      case Declare(_) => EvalCode(I, p, sc, i + 1, inLoop, s, fuel)
      case Effect(op) =>
        (match I.exec(op, s)
         case None => Stuck
         case Some(s') => EvalCode(I, p, sc, i + 1, inLoop, s', fuel))
      case Return(None) => Returned(Destroyed(I, p, sc, i, s), fuel)
      case Return(Some(v)) =>
        (match I.store(v, s)
         case None => Stuck
         case Some(s') => Returned(Destroyed(I, p, sc, i, s'), fuel))
      case Break =>
        if inLoop then Broke(Destroyed(I, p, sc, i, s), fuel)
        else EvalCode(I, p, sc, i + 1, inLoop, s, fuel)
      case Nested(b) => ContinueCode(I, p, sc, i, i + 1, inLoop, EvalCode(I, p + [i], b, 0, inLoop, s, fuel), fuel)
      case Branch(Else, b) =>
        ContinueCode(I, p, sc, i, i + 1, inLoop, EvalCode(I, p + [i], b, 0, inLoop, s, fuel), fuel)
      case Branch(If(c), b) =>
        (match I.test(c, s)
         case None => Stuck
         case Some((true, s')) =>
           ContinueCode(I, p, sc, i, AfterIf(sc, i), inLoop, EvalCode(I, p + [i], b, 0, inLoop, s', fuel), fuel)
         case Some((false, s')) => EvalCode(I, p, sc, i + 1, inLoop, s', fuel))
      case Branch(While(c), b) =>
        if ReturnsFrom(b, 0) then EvalCode(I, p, sc, i + 1, inLoop, s, fuel)
        else ContinueCode(I, p, sc, i, i + 1, inLoop, LoopCode(I, p + [i], c, b, s, fuel), fuel)
      case PrimitiveConvert => EvalCode(I, p, sc, i + 1, inLoop, s, fuel)
  }

  function ContinueCode<S(!new)>(I: Interp<S>, p: Path, sc: Scope, at: nat, next: nat, inLoop: bool, r: Outcome<S>,
                                 fuel: nat): (r': Outcome<S>)
    requires at < next <= |sc.instrs|
    requires r.Fell? || r.Broke? || r.Returned? ==> r.fuel <= fuel
    requires r.Broke? ==> inLoop
    ensures r'.Fell? || r'.Broke? || r'.Returned? ==> r'.fuel <= fuel
    ensures r'.Broke? ==> inLoop
    decreases fuel, sc, |sc.instrs| - at, 0
  {
    if r.Fell? then EvalCode(I, p, sc, next, inLoop, r.s, r.fuel) else LeftCode(I, p, sc, at, r)
  }

  function LoopCode<S(!new)>(I: Interp<S>, site: Path, c: Expr, b: Scope, s: S, fuel: nat): (r: Outcome<S>)
    ensures r.Fell? || r.Returned? ==> r.fuel <= fuel
    ensures !r.Broke?
    decreases fuel, b, |b.instrs| + 1, 0
  {
    match I.test(c, s)
    case None => Stuck
    case Some((false, s')) => Fell(s', fuel)
    case Some((true, s')) =>
      if fuel == 0 then Timeout
      else
        match EvalCode(I, site, b, 0, true, s', fuel - 1)
        case Fell(s'', f) => LoopCode(I, site, c, b, s'', f)
        case Broke(s'', f) => Fell(s'', f)
        case r => r
  }

  function RunCode<S(!new)>(I: Interp<S>, main: Scope, s: S, fuel: nat): Outcome<S> {
    EvalCode(I, [], main, 0, false, s, fuel)
  }
}
