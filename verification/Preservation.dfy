// For which programs the compiled code does what the structured program means.
module Preservation {
  import opened Program
  import opened Emission
  import opened Machine
  import opened Semantics
  import opened CodeSemantics
  import opened Labels
  import opened Simulation

  // No code is emitted for declaring a variable or leaving a scope, so neither
  // may mean anything to the states the machine runs on.
  ghost predicate Erasing<S(!new)>(I: Interp<S>) {
    && (forall v, s :: I.declare(v, s) == s)
    && (forall p, s :: I.leave(p, s) == s)
  }

  // No variable declared before index n needs destroying.
  predicate QuietBefore(sc: Scope, n: nat)
    requires n <= |sc.instrs|
  {
    n == 0 || (QuietBefore(sc, n - 1) && (sc.instrs[n - 1].Declare? ==> sc.instrs[n - 1].ty.primitive))
  }

  // Whether control can reach the end of the scope from instruction i, if every
  // condition may come out either way.
  predicate MayFall(sc: Scope, i: nat, inLoop: bool)
    decreases sc, |sc.instrs| - i
  {
    i >= |sc.instrs| ||
    match sc.instrs[i]
    case Return(_) => false
    case Break => !inLoop && MayFall(sc, i + 1, inLoop)
    case Nested(b) => MayFall(b, 0, inLoop) && MayFall(sc, i + 1, inLoop)
    case Branch(Else, b) => MayFall(b, 0, inLoop) && MayFall(sc, i + 1, inLoop)
    case Branch(If(_), b) =>
      (MayFall(b, 0, inLoop) && MayFall(sc, AfterIf(sc, i), inLoop)) || MayFall(sc, i + 1, inLoop)
    case PrimitiveConvert => false
    case _ => MayFall(sc, i + 1, inLoop)
  }

  // Whether control can reach a `break`, in a loop, that leaves the scope.
  predicate MayBreak(sc: Scope, i: nat)
    decreases sc, |sc.instrs| - i
  {
    i < |sc.instrs| &&
    match sc.instrs[i]
    case Return(_) => false
    case Break => true
    case Nested(b) => MayBreak(b, 0) || (MayFall(b, 0, true) && MayBreak(sc, i + 1))
    case Branch(Else, b) => MayBreak(b, 0) || (MayFall(b, 0, true) && MayBreak(sc, i + 1))
    case Branch(If(_), b) =>
      MayBreak(b, 0) || (MayFall(b, 0, true) && MayBreak(sc, AfterIf(sc, i))) || MayBreak(sc, i + 1)
    case PrimitiveConvert => false
    case _ => MayBreak(sc, i + 1)
  }

  // From instruction i on, control reaches no loop that has a `return` directly
  // in its body, no primitive conversion, and no `break` that passes through a
  // scope which has declared more than primitive variables so far.
  predicate FaithfulFrom(sc: Scope, i: nat, inLoop: bool)
    decreases sc, |sc.instrs| - i
  {
    i >= |sc.instrs| ||
    match sc.instrs[i]
    case Return(_) => true
    case Break => inLoop || FaithfulFrom(sc, i + 1, inLoop)
    case Nested(b) =>
      BodyFaithful(sc, i, b, inLoop) && (MayFall(b, 0, inLoop) ==> FaithfulFrom(sc, i + 1, inLoop))
    case Branch(Else, b) =>
      BodyFaithful(sc, i, b, inLoop) && (MayFall(b, 0, inLoop) ==> FaithfulFrom(sc, i + 1, inLoop))
    case Branch(If(_), b) =>
      BodyFaithful(sc, i, b, inLoop) && (MayFall(b, 0, inLoop) ==> FaithfulFrom(sc, AfterIf(sc, i), inLoop)) &&
      FaithfulFrom(sc, i + 1, inLoop)
    case Branch(While(_), b) => !ReturnsFrom(b, 0) && FaithfulFrom(b, 0, true) && FaithfulFrom(sc, i + 1, inLoop)
    case PrimitiveConvert => false
    case _ => FaithfulFrom(sc, i + 1, inLoop)
  }

  predicate BodyFaithful(sc: Scope, i: nat, b: Scope, inLoop: bool)
    requires i < |sc.instrs| && b < sc
    decreases sc, |sc.instrs| - i, 0
  {
    FaithfulFrom(b, 0, inLoop) && (inLoop && MayBreak(b, 0) ==> QuietBefore(sc, i))
  }

  // The programs the compiled code is faithful to: those that link and in which
  // control reaches nothing that is compiled to something else.
  predicate Faithful(main: Scope) { Linkable(main, 0) && FaithfulFrom(main, 0, false) }

  lemma {:induction false} QuietDiesSilently(p: Path, sc: Scope, n: nat)
    requires n <= |sc.instrs|
    ensures QuietBefore(sc, n) <==> DyingBefore(p, sc, n) == []
  {
    if n > 0 { QuietDiesSilently(p, sc, n - 1); }
  }

  // ---------- The program and its code go the same way ----------

  lemma {:induction false} SameUnwind<S(!new)>(I: Interp<S>, p: Path, sc: Scope, at: nat, s: S)
    requires Erasing(I)
    ensures Unwind(I, p, sc, at, s) == Destroyed(I, p, sc, at, s)
  {
  }

  lemma {:induction false} QuietUnwinds<S(!new)>(I: Interp<S>, p: Path, sc: Scope, at: nat, s: S)
    requires Erasing(I) && at < |sc.instrs| && !sc.instrs[at].Declare? && QuietBefore(sc, at)
    ensures Unwind(I, p, sc, at, s) == s
  {
    QuietDiesSilently(p, sc, at + 1);
  }

  // From a point after which control reaches nothing compiled otherwise, the
  // program runs as its code does, and leaves the scope in a way it may.
  lemma {:induction false} SameFrom<S(!new)>(I: Interp<S>, p: Path, sc: Scope, i: nat, inLoop: bool, s: S, fuel: nat)
    requires Erasing(I) && i <= |sc.instrs| && FaithfulFrom(sc, i, inLoop)
    ensures var r := Eval(I, p, sc, i, inLoop, s, fuel);
            && r == EvalCode(I, p, sc, i, inLoop, s, fuel)
            && (r.Fell? ==> MayFall(sc, i, inLoop)) && (r.Broke? ==> MayBreak(sc, i))
    decreases fuel, sc, |sc.instrs| - i, 1
  {
    hide Continue, ContinueCode, Loop, LoopCode, Unwind, Destroyed, QuietBefore;
    if i == |sc.instrs| {
      SameUnwind(I, p, sc, i, s);
      return;
    }
    match sc.instrs[i] {
      case Effect(op) =>
        if I.exec(op, s).Some? { SameFrom(I, p, sc, i + 1, inLoop, I.exec(op, s).value, fuel); }
      case Return(v) =>
        SameUnwind(I, p, sc, i, s);
        if v.Some? && I.store(v.value, s).Some? { SameUnwind(I, p, sc, i, I.store(v.value, s).value); }
      case Break =>
        SameUnwind(I, p, sc, i, s);
        if !inLoop { SameFrom(I, p, sc, i + 1, inLoop, s, fuel); }
      case Nested(b) =>
        SameFrom(I, p + [i], b, 0, inLoop, s, fuel);
        SameContinue(I, p, sc, i, i + 1, inLoop, Eval(I, p + [i], b, 0, inLoop, s, fuel), fuel);
      case Branch(Else, b) =>
        SameFrom(I, p + [i], b, 0, inLoop, s, fuel);
        SameContinue(I, p, sc, i, i + 1, inLoop, Eval(I, p + [i], b, 0, inLoop, s, fuel), fuel);
      case Branch(If(c), b) =>
        if I.test(c, s).Some? {
          var (taken, s') := I.test(c, s).value;
          if taken {
            SameFrom(I, p + [i], b, 0, inLoop, s', fuel);
            SameContinue(I, p, sc, i, AfterIf(sc, i), inLoop, Eval(I, p + [i], b, 0, inLoop, s', fuel), fuel);
          } else {
            SameFrom(I, p, sc, i + 1, inLoop, s', fuel);
          }
        }
      case Branch(While(c), b) =>
        SameLoop(I, p + [i], c, b, s, fuel);
        SameContinue(I, p, sc, i, i + 1, inLoop, Loop(I, p + [i], c, b, s, fuel), fuel);
      case Declare(_) => SameFrom(I, p, sc, i + 1, inLoop, s, fuel);
      case PrimitiveConvert =>
    }
  }

  lemma {:induction false} SameContinue<S(!new)>(I: Interp<S>, p: Path, sc: Scope, at: nat, next: nat, inLoop: bool,
                                                 r: Outcome<S>, fuel: nat)
    requires Erasing(I) && at < next <= |sc.instrs| && !sc.instrs[at].Declare?
    requires r.Fell? || r.Broke? || r.Returned? ==> r.fuel <= fuel
    requires r.Broke? ==> inLoop && QuietBefore(sc, at)
    requires r.Fell? ==> FaithfulFrom(sc, next, inLoop)
    ensures var r' := Continue(I, p, sc, at, next, inLoop, r, fuel);
            && r' == ContinueCode(I, p, sc, at, next, inLoop, r, fuel)
            && (r.Fell? ==> (r'.Fell? ==> MayFall(sc, next, inLoop)) && (r'.Broke? ==> MayBreak(sc, next)))
            && (!r.Fell? ==> !r'.Fell? && r'.Broke? == r.Broke?)
    decreases fuel, sc, |sc.instrs| - at, 0
  {
    hide Eval, EvalCode, Unwind, Destroyed, FaithfulFrom, MayFall, MayBreak, QuietBefore;
    match r {
      case Fell(s, f) => SameFrom(I, p, sc, next, inLoop, s, f);
      case Broke(s, _) => QuietUnwinds(I, p, sc, at, s);
      case Returned(s, _) => SameUnwind(I, p, sc, at, s);
      case _ =>
    }
  }

  lemma {:induction false} SameLoop<S(!new)>(I: Interp<S>, site: Path, c: Expr, b: Scope, s: S, fuel: nat)
    requires Erasing(I) && FaithfulFrom(b, 0, true)
    ensures Loop(I, site, c, b, s, fuel) == LoopCode(I, site, c, b, s, fuel)
    decreases fuel, b, |b.instrs| + 1, 0
  {
    hide Eval, EvalCode, FaithfulFrom, MayFall, MayBreak;
    if I.test(c, s).Some? && I.test(c, s).value.0 && fuel > 0 {
      var s' := I.test(c, s).value.1;
      SameFrom(I, site, b, 0, true, s', fuel - 1);
      var r := Eval(I, site, b, 0, true, s', fuel - 1);
      if r.Fell? { SameLoop(I, site, c, b, r.s, r.fuel); }
    }
  }

  // ---------- Whole programs ----------

  ghost predicate ProgramHalts<S(!new)>(I: Interp<S>, main: Scope, s: S, s': S) {
    exists fuel: nat :: (var r := RunMain(I, main, s, fuel); (r.Fell? || r.Returned?) && r.s == s')
  }

  ghost predicate ProgramSticks<S(!new)>(I: Interp<S>, main: Scope, s: S) {
    exists fuel: nat :: RunMain(I, main, s, fuel).Stuck?
  }

  // Halting in the same states, and getting stuck alike.
  ghost predicate Preserves<S(!new)>(I: Interp<S>, main: Scope, s: S) {
    && (forall s' :: MachineHalts(I, main, s, s') <==> ProgramHalts(I, main, s, s'))
    && (MachineFaults(I, main, s) <==> ProgramSticks(I, main, s))
  }

  // Semantic preservation: the compiled function halts exactly when the
  // structured program does, in the same state, and faults exactly when the
  // program gets stuck. Hence it also diverges exactly when the program does.
  lemma {:induction false} PreservesMeaning<S(!new)>(I: Interp<S>, main: Scope, s: S)
    requires Erasing(I) && Faithful(main)
    ensures forall s' :: MachineHalts(I, main, s, s') <==> ProgramHalts(I, main, s, s')
    ensures MachineFaults(I, main, s) <==> ProgramSticks(I, main, s)
  {
    hide Erasing, Linkable, FaithfulFrom, MachineHalts, MachineFaults, Eval, EvalCode;
    CodeMeans(I, main, s);
    forall fuel: nat
      ensures RunMain(I, main, s, fuel) == RunCode(I, main, s, fuel)
    {
      SameFrom(I, [], main, 0, false, s, fuel);
    }
  }

  // A body with a direct `return` never falls off its end.
  lemma {:induction false} ReturningNeverFalls<S(!new)>(I: Interp<S>, p: Path, sc: Scope, i: nat, inLoop: bool, s: S,
                                                        fuel: nat)
    requires i <= |sc.instrs| && ReturnsFrom(sc, i)
    ensures !Eval(I, p, sc, i, inLoop, s, fuel).Fell?
    decreases fuel, |sc.instrs| - i
  {
    match sc.instrs[i] {
      case Declare(ty) =>
        ReturningNeverFalls(I, p, sc, i + 1, inLoop, I.declare(Variable(p + [i], ty), s), fuel);
      case Effect(op) =>
        if I.exec(op, s).Some? { ReturningNeverFalls(I, p, sc, i + 1, inLoop, I.exec(op, s).value, fuel); }
      case Break =>
        if !inLoop { ReturningNeverFalls(I, p, sc, i + 1, inLoop, s, fuel); }
      case Nested(b) =>
        var r := Eval(I, p + [i], b, 0, inLoop, s, fuel);
        if r.Fell? { ReturningNeverFalls(I, p, sc, i + 1, inLoop, r.s, r.fuel); }
      case Branch(Else, b) =>
        var r := Eval(I, p + [i], b, 0, inLoop, s, fuel);
        if r.Fell? { ReturningNeverFalls(I, p, sc, i + 1, inLoop, r.s, r.fuel); }
      case Branch(If(c), b) =>
        assert ReturnsFrom(sc, i + 1) && ReturnsFrom(sc, AfterIf(sc, i));
        if I.test(c, s).Some? {
          var (taken, s') := I.test(c, s).value;
          var r := Eval(I, p + [i], b, 0, inLoop, s', fuel);
          if taken && r.Fell? { ReturningNeverFalls(I, p, sc, AfterIf(sc, i), inLoop, r.s, r.fuel); }
          ReturningNeverFalls(I, p, sc, i + 1, inLoop, s', fuel);
        }
      case Branch(While(c), b) =>
        var r := Loop(I, p + [i], c, b, s, fuel);
        if r.Fell? { ReturningNeverFalls(I, p, sc, i + 1, inLoop, r.s, r.fuel); }
      case _ =>
    }
  }

  // A body that contains no `break` of its own is not left by one.
  lemma {:induction false} NoBreakNeverBreaks<S(!new)>(I: Interp<S>, p: Path, sc: Scope, i: nat, inLoop: bool, s: S,
                                                       fuel: nat)
    requires i <= |sc.instrs| && !BreaksFrom(sc, i)
    ensures !Eval(I, p, sc, i, inLoop, s, fuel).Broke?
    decreases fuel, sc, |sc.instrs| - i
  {
    if i < |sc.instrs| {
      match sc.instrs[i] {
        case Declare(ty) =>
          NoBreakNeverBreaks(I, p, sc, i + 1, inLoop, I.declare(Variable(p + [i], ty), s), fuel);
        case Effect(op) =>
          if I.exec(op, s).Some? { NoBreakNeverBreaks(I, p, sc, i + 1, inLoop, I.exec(op, s).value, fuel); }
        case Nested(b) =>
          NoBreakNeverBreaks(I, p + [i], b, 0, inLoop, s, fuel);
          var r := Eval(I, p + [i], b, 0, inLoop, s, fuel);
          if r.Fell? { NoBreakNeverBreaks(I, p, sc, i + 1, inLoop, r.s, r.fuel); }
        case Branch(Else, b) =>
          NoBreakNeverBreaks(I, p + [i], b, 0, inLoop, s, fuel);
          var r := Eval(I, p + [i], b, 0, inLoop, s, fuel);
          if r.Fell? { NoBreakNeverBreaks(I, p, sc, i + 1, inLoop, r.s, r.fuel); }
        case Branch(If(c), b) =>
          assert !BreaksFrom(sc, i + 1);
          assert ElseFollows(sc, i) ==> !BreaksFrom(sc, i + 2);
          if I.test(c, s).Some? {
            var s' := I.test(c, s).value.1;
            NoBreakNeverBreaks(I, p + [i], b, 0, inLoop, s', fuel);
            var r := Eval(I, p + [i], b, 0, inLoop, s', fuel);
            if r.Fell? { NoBreakNeverBreaks(I, p, sc, AfterIf(sc, i), inLoop, r.s, r.fuel); }
            NoBreakNeverBreaks(I, p, sc, i + 1, inLoop, s', fuel);
          }
        case Branch(While(c), b) =>
          var r := Loop(I, p + [i], c, b, s, fuel);
          if r.Fell? { NoBreakNeverBreaks(I, p, sc, i + 1, inLoop, r.s, r.fuel); }
        case _ =>
      }
    }
  }

  // Where preservation fails. The code of a loop with a `return` directly in
  // its body binds the loop's end label without the condition, so the loop is
  // stepped over: exactly the loops whose condition is false on entry are
  // compiled faithfully.
  lemma {:induction false} LoopWithReturnIsSkipped<S(!new)>(I: Interp<S>, code: seq<Flat>, below: seq<Frame>,
                                                            f: Frame, pc: nat, s: S,
                                                            al: bool, zf: bool, fuel: nat)
    requires f.Valid() && f.at < |f.scope.instrs| && f.scope.instrs[f.at].Branch? && f.scope.instrs[f.at].kind.While?
    requires ReturnsFrom(f.scope.instrs[f.at].scope, 0) && !BreaksFrom(f.scope.instrs[f.at].scope, 0)
    requires UniqueBinds(code) && CodeAt(code, pc, Piece(below, f))
    ensures Run(I, code, Running(pc, s, al, zf), 2) == Running(pc + |Piece(below, f)|, s, al, zf)
    ensures var e, b := f.scope.instrs[f.at].kind.cond, f.scope.instrs[f.at].scope;
            var r := Loop(I, f.path + [f.at], e, b, s, fuel);
            (r.Fell? && r.s == s <==> I.test(e, s) == Some((false, s)))
  {
    hide CodeAt, UniqueBinds, Run, Piece, Eval;
    var q := f.path + [f.at];
    var e, b := f.scope.instrs[f.at].kind.cond, f.scope.instrs[f.at].scope;
    SkipLoop(I, code, below, f, pc, s, al, zf);
    if I.test(e, s).Some? && I.test(e, s).value.0 && fuel > 0 {
      ReturningNeverFalls(I, q, b, 0, true, I.test(e, s).value.1, fuel - 1);
      NoBreakNeverBreaks(I, q, b, 0, true, I.test(e, s).value.1, fuel - 1);
    }
  }

  // What leaving every scope up to the innermost loop has to destroy.
  function UnwindToLoop(frames: seq<Frame>): seq<Flat>
    requires InLoop(frames)
  {
    var f := frames[|frames| - 1];
    Destroys(f) + if f.kind.OfWhile? then [] else UnwindToLoop(frames[..|frames| - 1])
  }

  // No open scope up to the innermost loop holds anything to destroy.
  predicate QuietToLoop(frames: seq<Frame>)
    requires InLoop(frames) && forall k :: 0 <= k < |frames| ==> frames[k].at < |frames[k].scope.instrs|
  {
    var f := frames[|frames| - 1];
    QuietBefore(f.scope, f.at + 1) && (f.kind.OfWhile? || QuietToLoop(frames[..|frames| - 1]))
  }

  lemma {:induction false} QuietIffNothing(frames: seq<Frame>)
    requires InLoop(frames) && forall k :: 0 <= k < |frames| ==> frames[k].at < |frames[k].scope.instrs|
    ensures QuietToLoop(frames) <==> UnwindToLoop(frames) == []
    decreases |frames|
  {
    var f := frames[|frames| - 1];
    QuietDiesSilently(f.path, f.scope, f.at + 1);
    if !f.kind.OfWhile? { QuietIffNothing(frames[..|frames| - 1]); }
  }

  // A `break` destroys its own scope only. That is all it has to destroy
  // exactly when it sits directly in the loop body, or the scopes between hold
  // nothing but primitives so far.
  lemma {:induction false} BreakDestroysEnough(below: seq<Frame>, f: Frame)
    requires InLoop(below + [f])
    requires forall k :: 0 <= k < |below| ==> below[k].at < |below[k].scope.instrs|
    ensures BreakCode(below, f) == UnwindToLoop(below + [f]) + [Jmp(LoopEnd(InnermostLoop(below + [f]).value))]
            <==> f.kind.OfWhile? || (InLoop(below) && QuietToLoop(below))
  {
    assert (below + [f])[..|below|] == below;
    if !f.kind.OfWhile? {
      QuietIffNothing(below);
      var jump := [Jmp(LoopEnd(InnermostLoop(below + [f]).value))];
      assert |BreakCode(below, f)| == |Destroys(f)| + 1;
      assert |UnwindToLoop(below + [f]) + jump| == |Destroys(f)| + |UnwindToLoop(below)| + 1;
    }
  }
}
