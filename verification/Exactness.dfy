// No program but the faithful ones is preserved: whatever control can reach that
// is compiled to something else shows, for some meaning of the operations.
module Exactness {
  import opened Program
  import Emission
  import opened Machine
  import opened Semantics
  import opened CodeSemantics
  import opened Labels
  import opened Simulation
  import opened Preservation

  // ---------- A program's outcome does not depend on its fuel ----------

  function Refuelled<S>(r: Outcome<S>, more: nat): Outcome<S> {
    match r
    case Fell(s, f) => Fell(s, f + more)
    case Broke(s, f) => Broke(s, f + more)
    case Returned(s, f) => Returned(s, f + more)
    case _ => r
  }

  lemma {:induction false} MoreFuel<S(!new)>(I: Interp<S>, p: Path, sc: Scope, i: nat, inLoop: bool, s: S, fuel: nat,
                                             more: nat)
    requires i <= |sc.instrs|
    ensures var r := Eval(I, p, sc, i, inLoop, s, fuel);
            !r.Timeout? ==> Eval(I, p, sc, i, inLoop, s, fuel + more) == Refuelled(r, more)
    decreases fuel, sc, |sc.instrs| - i, 1
  {
    hide Continue, Loop, Unwind;
    if i < |sc.instrs| {
      match sc.instrs[i] {
        case Declare(ty) => MoreFuel(I, p, sc, i + 1, inLoop, I.declare(Variable(p + [i], ty), s), fuel, more);
        case Effect(op) =>
          if I.exec(op, s).Some? { MoreFuel(I, p, sc, i + 1, inLoop, I.exec(op, s).value, fuel, more); }
        case Break =>
          if !inLoop { MoreFuel(I, p, sc, i + 1, inLoop, s, fuel, more); }
        case Nested(b) =>
          MoreFuel(I, p + [i], b, 0, inLoop, s, fuel, more);
          MoreAfter(I, p, sc, i, i + 1, inLoop, Eval(I, p + [i], b, 0, inLoop, s, fuel), fuel, more);
        case Branch(Else, b) =>
          MoreFuel(I, p + [i], b, 0, inLoop, s, fuel, more);
          MoreAfter(I, p, sc, i, i + 1, inLoop, Eval(I, p + [i], b, 0, inLoop, s, fuel), fuel, more);
        case Branch(If(c), b) =>
          if I.test(c, s).Some? {
            var (taken, s') := I.test(c, s).value;
            if taken {
              MoreFuel(I, p + [i], b, 0, inLoop, s', fuel, more);
              MoreAfter(I, p, sc, i, AfterIf(sc, i), inLoop, Eval(I, p + [i], b, 0, inLoop, s', fuel), fuel, more);
            } else {
              MoreFuel(I, p, sc, i + 1, inLoop, s', fuel, more);
            }
          }
        case Branch(While(c), b) =>
          MoreTurns(I, p + [i], c, b, s, fuel, more);
          MoreAfter(I, p, sc, i, i + 1, inLoop, Loop(I, p + [i], c, b, s, fuel), fuel, more);
        case _ =>
      }
    }
  }

  lemma {:induction false} MoreAfter<S(!new)>(I: Interp<S>, p: Path, sc: Scope, at: nat, next: nat, inLoop: bool,
                                              r: Outcome<S>, fuel: nat, more: nat)
    requires at < next <= |sc.instrs| && (r.Broke? ==> inLoop)
    requires r.Fell? || r.Broke? || r.Returned? ==> r.fuel <= fuel
    ensures var r' := Continue(I, p, sc, at, next, inLoop, r, fuel);
            && (r.Timeout? ==> r'.Timeout?)
            && (!r'.Timeout? ==>
              Continue(I, p, sc, at, next, inLoop, Refuelled(r, more), fuel + more) == Refuelled(r', more))
    decreases fuel, sc, |sc.instrs| - at, 0
  {
    hide Eval, Unwind;
    if r.Fell? { MoreFuel(I, p, sc, next, inLoop, r.s, r.fuel, more); }
  }

  lemma {:induction false} MoreTurns<S(!new)>(I: Interp<S>, site: Path, c: Expr, b: Scope, s: S, fuel: nat, more: nat)
    ensures var r := Loop(I, site, c, b, s, fuel);
            !r.Timeout? ==> Loop(I, site, c, b, s, fuel + more) == Refuelled(r, more)
    decreases fuel, b, |b.instrs| + 1, 0
  {
    hide Eval;
    if I.test(c, s).Some? && I.test(c, s).value.0 && fuel > 0 {
      var s' := I.test(c, s).value.1;
      MoreFuel(I, site, b, 0, true, s', fuel - 1, more);
      var r := Eval(I, site, b, 0, true, s', fuel - 1);
      if r.Fell? { MoreTurns(I, site, c, b, r.s, r.fuel, more); }
    }
  }

  lemma {:induction false} ProgramHaltsOnce<S(!new)>(I: Interp<S>, main: Scope, s: S, fuel: nat, s': S)
    requires var r := RunMain(I, main, s, fuel); r.Fell? || r.Returned?
    requires ProgramHalts(I, main, s, s')
    ensures s' == RunMain(I, main, s, fuel).s
  {
    hide Eval;
    var f: nat :| var r := RunMain(I, main, s, f); (r.Fell? || r.Returned?) && r.s == s';
    if f <= fuel {
      MoreFuel(I, [], main, 0, false, s, f, fuel - f);
    } else {
      MoreFuel(I, [], main, 0, false, s, fuel, f - fuel);
    }
  }

  // ---------- Conditions that follow a script ----------

  // How the conditions to come turn out, and how much has happened so far.
  datatype Trail = Trail(script: seq<bool>, count: nat)

  // Conditions follow the script, and are false when it has ended. Tests and
  // destructor calls are counted.
  function Scripted(): Interp<Trail> {
    Interp(
      (op: Op, t: Trail) => Some(t),
      (e: Expr, t: Trail) => Some(Tested(t)),
      (v: Variable, t: Trail) => Some(t),
      (v: Variable, t: Trail) => t.(count := t.count + 1),
      (v: Variable, t: Trail) => t,
      (p: Path, t: Trail) => t)
  }

  function Tested(t: Trail): (bool, Trail) {
    if t.script == [] then (false, t.(count := t.count + 1)) else (t.script[0], Trail(t.script[1..], t.count + 1))
  }

  lemma {:induction false} ScriptErases()
    ensures Erasing(Scripted())
  {
  }

  lemma {:induction false} DestroysCount(vs: seq<Variable>, t: Trail)
    ensures DestroyVars(Scripted(), vs, t) == t.(count := t.count + |vs|)
    decreases |vs|
  {
    if vs != [] { DestroysCount(vs[1..], Scripted().destroy(vs[0], t)); }
  }

  lemma {:induction false} UnwindCounts(p: Path, sc: Scope, at: nat, t: Trail)
    ensures Destroyed(Scripted(), p, sc, at, t) == t.(count := t.count + |Dying(p, sc, at)|)
    ensures Unwind(Scripted(), p, sc, at, t) == t.(count := t.count + |Dying(p, sc, at)|)
  {
    hide Dying;
    DestroysCount(Dying(p, sc, at), t);
  }

  lemma {:induction false} TestedNext(e: Expr, x: bool, v: seq<bool>, n: nat)
    ensures Scripted().test(e, Trail([x] + v, n)) == Some((x, Trail(v, n + 1)))
  {
    assert ([x] + v)[1..] == v;
  }

  // ---------- The script has ended ----------

  // Left in some way, with the script at its end and no turn taken.
  predicate Ended(q: Outcome<Trail>, fuel: nat) {
    (q.Fell? || q.Broke? || q.Returned?) && q.s.script == [] && q.fuel <= fuel
  }

  // The program gets stuck, or leaves in the same way with more counted.
  predicate Behind(r: Outcome<Trail>, q: Outcome<Trail>, d: nat) {
    r.Stuck? ||
    (match r
     case Fell(s, f) => q.Fell? && s.script == [] && f == q.fuel && q.s.count + d <= s.count
     case Broke(s, f) => q.Broke? && s.script == [] && f == q.fuel && q.s.count + d <= s.count
     case Returned(s, f) => q.Returned? && s.script == [] && f == q.fuel && q.s.count + d <= s.count
     case _ => false)
  }

  // With all conditions false the code never gets stuck and takes no turns.
  lemma {:induction false} CodeEnds(p: Path, sc: Scope, i: nat, inLoop: bool, m: nat, fuel: nat)
    requires i <= |sc.instrs|
    ensures Ended(EvalCode(Scripted(), p, sc, i, inLoop, Trail([], m), fuel), fuel)
    decreases sc, |sc.instrs| - i, 1
  {
    hide ContinueCode, Destroyed;
    var I := Scripted();
    UnwindCounts(p, sc, i, Trail([], m));
    if i < |sc.instrs| {
      match sc.instrs[i] {
        case Return(_) =>
        case Break =>
          if !inLoop { CodeEnds(p, sc, i + 1, inLoop, m, fuel); }
        case Nested(b) =>
          CodeEnds(p + [i], b, 0, inLoop, m, fuel);
          CodeEndsAfter(p, sc, i, i + 1, inLoop, EvalCode(I, p + [i], b, 0, inLoop, Trail([], m), fuel), fuel);
        case Branch(Else, b) =>
          CodeEnds(p + [i], b, 0, inLoop, m, fuel);
          CodeEndsAfter(p, sc, i, i + 1, inLoop, EvalCode(I, p + [i], b, 0, inLoop, Trail([], m), fuel), fuel);
        case Branch(If(_), _) => CodeEnds(p, sc, i + 1, inLoop, m + 1, fuel);
        case Branch(While(c), b) =>
          if ReturnsFrom(b, 0) {
            CodeEnds(p, sc, i + 1, inLoop, m, fuel);
          } else {
            assert LoopCode(I, p + [i], c, b, Trail([], m), fuel) == Fell(Trail([], m + 1), fuel);
            CodeEndsAfter(p, sc, i, i + 1, inLoop, Fell(Trail([], m + 1), fuel), fuel);
          }
        case _ => CodeEnds(p, sc, i + 1, inLoop, m, fuel);
      }
    }
  }

  lemma {:induction false} CodeEndsAfter(p: Path, sc: Scope, at: nat, next: nat, inLoop: bool, q: Outcome<Trail>,
                                         fuel: nat)
    requires at < next <= |sc.instrs| && Ended(q, fuel) && (q.Broke? ==> inLoop)
    ensures Ended(ContinueCode(Scripted(), p, sc, at, next, inLoop, q, fuel), fuel)
    decreases sc, |sc.instrs| - at, 0
  {
    hide EvalCode, Destroyed;
    UnwindCounts(p, sc, at, q.s);
    if q.Fell? { CodeEnds(p, sc, next, inLoop, q.s.count, q.fuel); }
  }

  // With all conditions false the program goes the way of the code and counts at
  // least as much.
  lemma {:induction false} StaysBehind(p: Path, sc: Scope, i: nat, inLoop: bool, n: nat, m: nat, fuel: nat)
    requires i <= |sc.instrs| && m <= n
    ensures Behind(Eval(Scripted(), p, sc, i, inLoop, Trail([], n), fuel),
                   EvalCode(Scripted(), p, sc, i, inLoop, Trail([], m), fuel), n - m)
    decreases sc, |sc.instrs| - i, 1
  {
    hide Continue, ContinueCode, Destroyed, Unwind;
    var I := Scripted();
    UnwindCounts(p, sc, i, Trail([], m));
    UnwindCounts(p, sc, i, Trail([], n));
    if i < |sc.instrs| {
      match sc.instrs[i] {
        case Declare(_) => StaysBehind(p, sc, i + 1, inLoop, n, m, fuel);
        case Effect(_) => StaysBehind(p, sc, i + 1, inLoop, n, m, fuel);
        case Return(_) =>
        case Break =>
          if !inLoop { StaysBehind(p, sc, i + 1, inLoop, n, m, fuel); }
        case Nested(b) => BodyBehind(p, sc, i, b, inLoop, n, m, fuel);
        case Branch(Else, b) => BodyBehind(p, sc, i, b, inLoop, n, m, fuel);
        case Branch(If(_), _) => StaysBehind(p, sc, i + 1, inLoop, n + 1, m + 1, fuel);
        case Branch(While(c), b) => LoopBehind(p, sc, i, inLoop, n, m, fuel);
        case PrimitiveConvert =>
      }
    }
  }

  lemma {:induction false} BodyBehind(p: Path, sc: Scope, i: nat, b: Scope, inLoop: bool, n: nat, m: nat, fuel: nat)
    requires i < |sc.instrs| && m <= n && b < sc
    ensures Behind(Continue(Scripted(), p, sc, i, i + 1, inLoop,
                            Eval(Scripted(), p + [i], b, 0, inLoop, Trail([], n), fuel), fuel),
                   ContinueCode(Scripted(), p, sc, i, i + 1, inLoop,
                                EvalCode(Scripted(), p + [i], b, 0, inLoop, Trail([], m), fuel), fuel), n - m)
    decreases sc, |sc.instrs| - i, 0, 1
  {
    hide Eval, EvalCode, Continue, ContinueCode;
    StaysBehind(p + [i], b, 0, inLoop, n, m, fuel);
    CodeEnds(p + [i], b, 0, inLoop, m, fuel);
    BehindAfter(p, sc, i, i + 1, inLoop, Eval(Scripted(), p + [i], b, 0, inLoop, Trail([], n), fuel),
                EvalCode(Scripted(), p + [i], b, 0, inLoop, Trail([], m), fuel), n - m, fuel);
  }

  // A loop: the program tests its condition, and the code does unless it steps
  // over the loop.
  lemma {:induction false} LoopBehind(p: Path, sc: Scope, i: nat, inLoop: bool, n: nat, m: nat, fuel: nat)
    requires i < |sc.instrs| && sc.instrs[i].Branch? && sc.instrs[i].kind.While? && m <= n
    ensures var r := Eval(Scripted(), p, sc, i, inLoop, Trail([], n), fuel);
            var q := EvalCode(Scripted(), p, sc, i, inLoop, Trail([], m), fuel);
            Behind(r, q, n - m) && (ReturnsFrom(sc.instrs[i].scope, 0) ==> Behind(r, q, n + 1 - m))
    decreases sc, |sc.instrs| - i, 0, 1
  {
    hide Destroyed, Unwind;
    var I, c, b := Scripted(), sc.instrs[i].kind.cond, sc.instrs[i].scope;
    assert Loop(I, p + [i], c, b, Trail([], n), fuel) == Fell(Trail([], n + 1), fuel);
    if ReturnsFrom(b, 0) {
      StaysBehind(p, sc, i + 1, inLoop, n + 1, m, fuel);
    } else {
      assert LoopCode(I, p + [i], c, b, Trail([], m), fuel) == Fell(Trail([], m + 1), fuel);
      StaysBehind(p, sc, i + 1, inLoop, n + 1, m + 1, fuel);
    }
  }

  // After a body the program left behind the code, it stays behind.
  lemma {:induction false} BehindAfter(p: Path, sc: Scope, at: nat, next: nat, inLoop: bool, r: Outcome<Trail>,
                                       q: Outcome<Trail>, d: nat, fuel: nat)
    requires at < next <= |sc.instrs| && Behind(r, q, d) && (r.Broke? || q.Broke? ==> inLoop)
    requires r.Fell? || r.Broke? || r.Returned? ==> r.fuel <= fuel
    requires q.Fell? || q.Broke? || q.Returned? ==> q.fuel <= fuel && q.s.script == []
    ensures Behind(Continue(Scripted(), p, sc, at, next, inLoop, r, fuel),
                   ContinueCode(Scripted(), p, sc, at, next, inLoop, q, fuel), d)
    decreases sc, |sc.instrs| - at, 0, 0
  {
    hide Eval, EvalCode, Destroyed, Unwind;
    if !r.Stuck? {
      UnwindCounts(p, sc, at, r.s);
      UnwindCounts(p, sc, at, q.s);
      if r.Fell? { StaysBehindBy(p, sc, next, inLoop, r.s.count, q.s.count, d, r.fuel); }
    }
  }

  lemma {:induction false} StaysBehindBy(p: Path, sc: Scope, i: nat, inLoop: bool, n: nat, m: nat, d: nat, fuel: nat)
    requires i <= |sc.instrs| && m + d <= n
    ensures Behind(Eval(Scripted(), p, sc, i, inLoop, Trail([], n), fuel),
                   EvalCode(Scripted(), p, sc, i, inLoop, Trail([], m), fuel), d)
    decreases sc, |sc.instrs| - i, 2
  {
    hide Eval, EvalCode;
    StaysBehind(p, sc, i, inLoop, n, m, fuel);
  }

  // ---------- Scripts that lead somewhere ----------

  function WayOut(sc: Scope, i: nat, inLoop: bool): seq<bool>
    requires MayFall(sc, i, inLoop)
    decreases sc, |sc.instrs| - i
  {
    if i >= |sc.instrs| then []
    else match sc.instrs[i]
      case Nested(b) => WayOut(b, 0, inLoop) + WayOut(sc, i + 1, inLoop)
      case Branch(Else, b) => WayOut(b, 0, inLoop) + WayOut(sc, i + 1, inLoop)
      case Branch(If(_), b) =>
        if MayFall(sc, i + 1, inLoop) then [false] + WayOut(sc, i + 1, inLoop)
        else [true] + (WayOut(b, 0, inLoop) + WayOut(sc, AfterIf(sc, i), inLoop))
      case Branch(While(_), _) => [false] + WayOut(sc, i + 1, inLoop)
      case _ => WayOut(sc, i + 1, inLoop)
  }

  function WayToBreak(sc: Scope, i: nat): seq<bool>
    requires MayBreak(sc, i)
    decreases sc, |sc.instrs| - i, 1
  {
    match sc.instrs[i]
    case Break => []
    case Nested(b) => BodyWayToBreak(sc, i, b, i + 1)
    case Branch(Else, b) => BodyWayToBreak(sc, i, b, i + 1)
    case Branch(If(_), b) =>
      if !MayBreak(b, 0) && MayBreak(sc, i + 1) then [false] + WayToBreak(sc, i + 1)
      else [true] + BodyWayToBreak(sc, i, b, AfterIf(sc, i))
    case Branch(While(_), _) => [false] + WayToBreak(sc, i + 1)
    case _ => WayToBreak(sc, i + 1)
  }

  function BodyWayToBreak(sc: Scope, i: nat, b: Scope, next: nat): seq<bool>
    requires i < |sc.instrs| && b < sc && i < next
    requires MayBreak(b, 0) || (MayFall(b, 0, true) && MayBreak(sc, next))
    decreases sc, |sc.instrs| - i, 0
  {
    if MayBreak(b, 0) then WayToBreak(b, 0) else WayOut(b, 0, true) + WayToBreak(sc, next)
  }

  // To what is compiled to something else: through the bodies that are faithful
  // themselves to the first that is not, and into it.
  function WayApart(sc: Scope, i: nat, inLoop: bool): seq<bool>
    requires !FaithfulFrom(sc, i, inLoop)
    decreases sc, |sc.instrs| - i, 1
  {
    match sc.instrs[i]
    case Nested(b) => BodyWayApart(sc, i, b, inLoop, i + 1)
    case Branch(Else, b) => BodyWayApart(sc, i, b, inLoop, i + 1)
    case Branch(If(_), b) =>
      if BodyFaithful(sc, i, b, inLoop) && !FaithfulFrom(sc, i + 1, inLoop) then [false] + WayApart(sc, i + 1, inLoop)
      else [true] + BodyWayApart(sc, i, b, inLoop, AfterIf(sc, i))
    case Branch(While(_), b) =>
      if ReturnsFrom(b, 0) then []
      else if !FaithfulFrom(b, 0, true) then [true] + WayApart(b, 0, true)
      else [false] + WayApart(sc, i + 1, inLoop)
    case PrimitiveConvert => []
    case _ => WayApart(sc, i + 1, inLoop)
  }

  function BodyWayApart(sc: Scope, i: nat, b: Scope, inLoop: bool, next: nat): seq<bool>
    requires i < |sc.instrs| && b < sc && i < next
    requires BodyFaithful(sc, i, b, inLoop) ==> MayFall(b, 0, inLoop) && !FaithfulFrom(sc, next, inLoop)
    decreases sc, |sc.instrs| - i, 0
  {
    if !FaithfulFrom(b, 0, inLoop) then WayApart(b, 0, inLoop)
    else if !BodyFaithful(sc, i, b, inLoop) then WayToBreak(b, 0)
    else WayOut(b, 0, inLoop) + WayApart(sc, next, inLoop)
  }

  // How many loops that way enters.
  function Turns(sc: Scope, i: nat, inLoop: bool): nat
    requires !FaithfulFrom(sc, i, inLoop)
    decreases sc, |sc.instrs| - i, 1
  {
    match sc.instrs[i]
    case Nested(b) => BodyTurns(sc, i, b, inLoop, i + 1)
    case Branch(Else, b) => BodyTurns(sc, i, b, inLoop, i + 1)
    case Branch(If(_), b) =>
      if BodyFaithful(sc, i, b, inLoop) && !FaithfulFrom(sc, i + 1, inLoop) then Turns(sc, i + 1, inLoop)
      else BodyTurns(sc, i, b, inLoop, AfterIf(sc, i))
    case Branch(While(_), b) =>
      if ReturnsFrom(b, 0) then 0
      else if !FaithfulFrom(b, 0, true) then 1 + Turns(b, 0, true)
      else Turns(sc, i + 1, inLoop)
    case PrimitiveConvert => 0
    case _ => Turns(sc, i + 1, inLoop)
  }

  function BodyTurns(sc: Scope, i: nat, b: Scope, inLoop: bool, next: nat): nat
    requires i < |sc.instrs| && b < sc && i < next
    requires BodyFaithful(sc, i, b, inLoop) ==> MayFall(b, 0, inLoop) && !FaithfulFrom(sc, next, inLoop)
    decreases sc, |sc.instrs| - i, 0
  {
    if !FaithfulFrom(b, 0, inLoop) then Turns(b, 0, inLoop)
    else if !BodyFaithful(sc, i, b, inLoop) then 0
    else Turns(sc, next, inLoop)
  }

  // Fell off the end, or broke out, with the rest of the script still to come.
  predicate FellTo(r: Outcome<Trail>, v: seq<bool>, fuel: nat) { r.Fell? && r.s.script == v && r.fuel == fuel }

  predicate BrokeTo(r: Outcome<Trail>, v: seq<bool>, fuel: nat) { r.Broke? && r.s.script == v && r.fuel == fuel }

  lemma {:induction false} GoesOut(p: Path, sc: Scope, i: nat, inLoop: bool, v: seq<bool>, n: nat, fuel: nat)
    requires i <= |sc.instrs| && MayFall(sc, i, inLoop)
    ensures FellTo(Eval(Scripted(), p, sc, i, inLoop, Trail(WayOut(sc, i, inLoop) + v, n), fuel), v, fuel)
    decreases sc, |sc.instrs| - i, 1
  {
    hide Continue, Unwind, MayBreak;
    var I := Scripted();
    if i == |sc.instrs| {
      assert [] + v == v;
      UnwindCounts(p, sc, i, Trail(v, n));
    } else {
      match sc.instrs[i] {
        case Nested(b) => BodyGoesOut(p, sc, i, b, i + 1, inLoop, v, n, fuel);
        case Branch(Else, b) => BodyGoesOut(p, sc, i, b, i + 1, inLoop, v, n, fuel);
        case Branch(If(c), b) =>
          if MayFall(sc, i + 1, inLoop) {
            SplitFirst(c, false, WayOut(sc, i + 1, inLoop), v, n);
            GoesOut(p, sc, i + 1, inLoop, v, n + 1, fuel);
          } else {
            SplitFirst(c, true, WayOut(b, 0, inLoop) + WayOut(sc, AfterIf(sc, i), inLoop), v, n);
            BodyGoesOut(p, sc, i, b, AfterIf(sc, i), inLoop, v, n + 1, fuel);
          }
        case Branch(While(c), b) =>
          var rest := WayOut(sc, i + 1, inLoop) + v;
          SplitFirst(c, false, WayOut(sc, i + 1, inLoop), v, n);
          assert Loop(I, p + [i], c, b, Trail([false] + rest, n), fuel) == Fell(Trail(rest, n + 1), fuel);
          GoesOn(p, sc, i, inLoop, Fell(Trail(rest, n + 1), fuel), fuel);
          GoesOut(p, sc, i + 1, inLoop, v, n + 1, fuel);
        case Declare(_) => GoesOut(p, sc, i + 1, inLoop, v, n, fuel);
        case Effect(_) => GoesOut(p, sc, i + 1, inLoop, v, n, fuel);
        case Break => GoesOut(p, sc, i + 1, inLoop, v, n, fuel);
        case Return(_) =>
        case PrimitiveConvert =>
      }
    }
  }

  lemma {:induction false} GoesOn(p: Path, sc: Scope, i: nat, inLoop: bool, r: Outcome<Trail>, fuel: nat)
    requires i < |sc.instrs| && r.Fell? && r.fuel <= fuel
    ensures Continue(Scripted(), p, sc, i, i + 1, inLoop, r, fuel)
            == Eval(Scripted(), p, sc, i + 1, inLoop, r.s, r.fuel)
  {
  }

  lemma {:induction false} SplitFirst(c: Expr, x: bool, w: seq<bool>, v: seq<bool>, n: nat)
    ensures ([x] + w) + v == [x] + (w + v)
    ensures Scripted().test(c, Trail(([x] + w) + v, n)) == Some((x, Trail(w + v, n + 1)))
  {
    assert ([x] + w) + v == [x] + (w + v);
    TestedNext(c, x, w + v, n);
  }

  // Through a body and the rest of its scope.
  lemma {:induction false} BodyGoesOut(p: Path, sc: Scope, i: nat, b: Scope, next: nat, inLoop: bool, v: seq<bool>,
                                       n: nat, fuel: nat)
    requires i < |sc.instrs| && b < sc && i < next <= |sc.instrs|
    requires MayFall(b, 0, inLoop) && MayFall(sc, next, inLoop)
    ensures var w := (WayOut(b, 0, inLoop) + WayOut(sc, next, inLoop)) + v;
            var r := Eval(Scripted(), p + [i], b, 0, inLoop, Trail(w, n), fuel);
            FellTo(Continue(Scripted(), p, sc, i, next, inLoop, r, fuel), v, fuel)
    decreases sc, |sc.instrs| - i, 0
  {
    hide Eval, WayOut, MayFall;
    var rest := WayOut(sc, next, inLoop) + v;
    assert (WayOut(b, 0, inLoop) + WayOut(sc, next, inLoop)) + v == WayOut(b, 0, inLoop) + rest;
    GoesOut(p + [i], b, 0, inLoop, rest, n, fuel);
    var r := Eval(Scripted(), p + [i], b, 0, inLoop, Trail(WayOut(b, 0, inLoop) + rest, n), fuel);
    GoesOut(p, sc, next, inLoop, v, r.s.count, fuel);
  }

  lemma {:induction false} BreaksOut(p: Path, sc: Scope, i: nat, n: nat, fuel: nat)
    requires i <= |sc.instrs| && MayBreak(sc, i)
    ensures BrokeTo(Eval(Scripted(), p, sc, i, true, Trail(WayToBreak(sc, i), n), fuel), [], fuel)
    decreases sc, |sc.instrs| - i, 1
  {
    hide Continue, Unwind;
    var I := Scripted();
    UnwindCounts(p, sc, i, Trail([], n));
    match sc.instrs[i] {
      case Nested(b) => BodyBreaksOut(p, sc, i, b, i + 1, n, fuel);
      case Branch(Else, b) => BodyBreaksOut(p, sc, i, b, i + 1, n, fuel);
      case Branch(If(c), b) =>
        if !MayBreak(b, 0) && MayBreak(sc, i + 1) {
          TestedNext(c, false, WayToBreak(sc, i + 1), n);
          BreaksOut(p, sc, i + 1, n + 1, fuel);
        } else {
          TestedNext(c, true, BodyWayToBreak(sc, i, b, AfterIf(sc, i)), n);
          BodyBreaksOut(p, sc, i, b, AfterIf(sc, i), n + 1, fuel);
        }
      case Branch(While(c), b) =>
        var rest := WayToBreak(sc, i + 1);
        TestedNext(c, false, rest, n);
        assert Loop(I, p + [i], c, b, Trail([false] + rest, n), fuel) == Fell(Trail(rest, n + 1), fuel);
        GoesOn(p, sc, i, true, Fell(Trail(rest, n + 1), fuel), fuel);
        BreaksOut(p, sc, i + 1, n + 1, fuel);
      case Declare(_) => BreaksOut(p, sc, i + 1, n, fuel);
      case Effect(_) => BreaksOut(p, sc, i + 1, n, fuel);
      case Break =>
      case Return(_) =>
      case PrimitiveConvert =>
    }
  }

  lemma {:induction false} BodyBreaksOut(p: Path, sc: Scope, i: nat, b: Scope, next: nat, n: nat, fuel: nat)
    requires i < |sc.instrs| && b < sc && i < next <= |sc.instrs|
    requires MayBreak(b, 0) || (MayFall(b, 0, true) && MayBreak(sc, next))
    ensures var r := Eval(Scripted(), p + [i], b, 0, true, Trail(BodyWayToBreak(sc, i, b, next), n), fuel);
            BrokeTo(Continue(Scripted(), p, sc, i, next, true, r, fuel), [], fuel)
    decreases sc, |sc.instrs| - i, 0
  {
    hide Eval, WayOut, WayToBreak, MayFall, MayBreak, Unwind;
    var r := Eval(Scripted(), p + [i], b, 0, true, Trail(BodyWayToBreak(sc, i, b, next), n), fuel);
    if MayBreak(b, 0) {
      BreaksOut(p + [i], b, 0, n, fuel);
      UnwindCounts(p, sc, i, r.s);
    } else {
      GoesOut(p + [i], b, 0, true, WayToBreak(sc, next), n, fuel);
      BreaksOut(p, sc, next, r.s.count, fuel);
    }
  }

  // ---------- Apart ----------

  // The code has left in some way; the program is stuck or has counted more.
  predicate Apart(r: Outcome<Trail>, q: Outcome<Trail>, fuel: nat) { Ended(q, fuel) && Behind(r, q, 1) }

  lemma {:induction false} ApartAfter(p: Path, sc: Scope, at: nat, next: nat, inLoop: bool, r: Outcome<Trail>,
                                      q: Outcome<Trail>, fuel: nat)
    requires at < next <= |sc.instrs| && Apart(r, q, fuel) && (r.Broke? || q.Broke? ==> inLoop)
    requires r.Fell? || r.Broke? || r.Returned? ==> r.fuel <= fuel
    ensures Apart(Continue(Scripted(), p, sc, at, next, inLoop, r, fuel),
                  ContinueCode(Scripted(), p, sc, at, next, inLoop, q, fuel), fuel)
  {
    hide Continue, ContinueCode;
    CodeEndsAfter(p, sc, at, next, inLoop, q, fuel);
    BehindAfter(p, sc, at, next, inLoop, r, q, 1, fuel);
  }

  // From here the program, on the script that leads there, comes apart from its
  // code.
  lemma {:induction false} ComesApart(p: Path, sc: Scope, i: nat, inLoop: bool, n: nat, fuel: nat)
    requires i <= |sc.instrs| && !FaithfulFrom(sc, i, inLoop) && Turns(sc, i, inLoop) <= fuel
    ensures var t := Trail(WayApart(sc, i, inLoop), n);
            Apart(Eval(Scripted(), p, sc, i, inLoop, t, fuel), EvalCode(Scripted(), p, sc, i, inLoop, t, fuel), fuel)
    decreases sc, |sc.instrs| - i, 1
  {
    hide Continue, ContinueCode, Loop, LoopCode, Unwind, Destroyed, MayFall, MayBreak, BodyFaithful;
    match sc.instrs[i] {
      case Nested(b) => BodyComesApart(p, sc, i, b, i + 1, inLoop, n, fuel);
      case Branch(Else, b) => BodyComesApart(p, sc, i, b, i + 1, inLoop, n, fuel);
      case Branch(If(c), b) =>
        if BodyFaithful(sc, i, b, inLoop) && !FaithfulFrom(sc, i + 1, inLoop) {
          TestedNext(c, false, WayApart(sc, i + 1, inLoop), n);
          ComesApart(p, sc, i + 1, inLoop, n + 1, fuel);
        } else {
          TestedNext(c, true, BodyWayApart(sc, i, b, inLoop, AfterIf(sc, i)), n);
          BodyComesApart(p, sc, i, b, AfterIf(sc, i), inLoop, n + 1, fuel);
        }
      case Branch(While(c), b) => LoopComesApart(p, sc, i, inLoop, n, fuel);
      case Declare(_) => ComesApart(p, sc, i + 1, inLoop, n, fuel);
      case Effect(_) => ComesApart(p, sc, i + 1, inLoop, n, fuel);
      case Break => ComesApart(p, sc, i + 1, inLoop, n, fuel);
      case PrimitiveConvert => CodeEnds(p, sc, i, inLoop, n, fuel);
      case Return(_) =>
    }
  }

  lemma {:induction false} BodyComesApart(p: Path, sc: Scope, i: nat, b: Scope, next: nat, inLoop: bool, n: nat,
                                          fuel: nat)
    requires i < |sc.instrs| && b < sc && i < next <= |sc.instrs| && !sc.instrs[i].Declare?
    requires BodyFaithful(sc, i, b, inLoop) ==> MayFall(b, 0, inLoop) && !FaithfulFrom(sc, next, inLoop)
    requires BodyTurns(sc, i, b, inLoop, next) <= fuel
    ensures var I, t := Scripted(), Trail(BodyWayApart(sc, i, b, inLoop, next), n);
            Apart(Continue(I, p, sc, i, next, inLoop, Eval(I, p + [i], b, 0, inLoop, t, fuel), fuel),
                  ContinueCode(I, p, sc, i, next, inLoop, EvalCode(I, p + [i], b, 0, inLoop, t, fuel), fuel), fuel)
    decreases sc, |sc.instrs| - i, 0
  {
    hide Eval, EvalCode, Unwind, Destroyed, MayFall, MayBreak, FaithfulFrom, QuietBefore, WayApart, Turns, WayOut;
    hide WayToBreak, DyingBefore;
    var I, t := Scripted(), Trail(BodyWayApart(sc, i, b, inLoop, next), n);
    var r, q := Eval(I, p + [i], b, 0, inLoop, t, fuel), EvalCode(I, p + [i], b, 0, inLoop, t, fuel);
    if !FaithfulFrom(b, 0, inLoop) {
      ComesApart(p + [i], b, 0, inLoop, n, fuel);
      ApartAfter(p, sc, i, next, inLoop, r, q, fuel);
    } else {
      SameFrom(I, p + [i], b, 0, inLoop, t, fuel);
      if !BodyFaithful(sc, i, b, inLoop) {
        BreaksOut(p + [i], b, 0, n, fuel);
        UnwindCounts(p, sc, i, r.s);
        LoudUnwind(p, sc, i);
      } else {
        GoesOut(p + [i], b, 0, inLoop, WayApart(sc, next, inLoop), n, fuel);
        ComesApart(p, sc, next, inLoop, r.s.count, fuel);
      }
    }
  }

  lemma {:induction false} LoudUnwind(p: Path, sc: Scope, i: nat)
    requires i < |sc.instrs| && !sc.instrs[i].Declare? && !QuietBefore(sc, i)
    ensures |Dying(p, sc, i)| > 0
  {
    QuietDiesSilently(p, sc, i);
  }

  lemma {:induction false} LoopComesApart(p: Path, sc: Scope, i: nat, inLoop: bool, n: nat, fuel: nat)
    requires i < |sc.instrs| && sc.instrs[i].Branch? && sc.instrs[i].kind.While?
    requires !FaithfulFrom(sc, i, inLoop) && Turns(sc, i, inLoop) <= fuel
    ensures var t := Trail(WayApart(sc, i, inLoop), n);
            Apart(Eval(Scripted(), p, sc, i, inLoop, t, fuel), EvalCode(Scripted(), p, sc, i, inLoop, t, fuel), fuel)
    decreases sc, |sc.instrs| - i, 0
  {
    hide Continue, ContinueCode, Unwind, Destroyed, MayFall, MayBreak, BodyFaithful;
    var I, c, b := Scripted(), sc.instrs[i].kind.cond, sc.instrs[i].scope;
    if ReturnsFrom(b, 0) {
      LoopBehind(p, sc, i, inLoop, n, n, fuel);
      CodeEnds(p, sc, i, inLoop, n, fuel);
    } else if !FaithfulFrom(b, 0, true) {
      EnteredApart(p + [i], c, b, n, fuel);
      var t := Trail([true] + WayApart(b, 0, true), n);
      ApartAfter(p, sc, i, i + 1, inLoop, Loop(I, p + [i], c, b, t, fuel), LoopCode(I, p + [i], c, b, t, fuel), fuel);
    } else {
      var rest := WayApart(sc, i + 1, inLoop);
      TestedNext(c, false, rest, n);
      ComesApart(p, sc, i + 1, inLoop, n + 1, fuel);
      GoesOn(p, sc, i, inLoop, Fell(Trail(rest, n + 1), fuel), fuel);
      CodeGoesOn(p, sc, i, inLoop, Fell(Trail(rest, n + 1), fuel), fuel);
    }
  }

  lemma {:induction false} CodeGoesOn(p: Path, sc: Scope, i: nat, inLoop: bool, q: Outcome<Trail>, fuel: nat)
    requires i < |sc.instrs| && q.Fell? && q.fuel <= fuel
    ensures ContinueCode(Scripted(), p, sc, i, i + 1, inLoop, q, fuel)
            == EvalCode(Scripted(), p, sc, i + 1, inLoop, q.s, q.fuel)
  {
  }

  // One turn of a loop whose body comes apart, after which its condition is false.
  lemma {:induction false} EnteredApart(site: Path, c: Expr, b: Scope, n: nat, fuel: nat)
    requires !FaithfulFrom(b, 0, true) && Turns(b, 0, true) < fuel
    ensures var t := Trail([true] + WayApart(b, 0, true), n);
            Apart(Loop(Scripted(), site, c, b, t, fuel), LoopCode(Scripted(), site, c, b, t, fuel), fuel)
    decreases b, |b.instrs|, 2
  {
    hide Eval, EvalCode, FaithfulFrom, WayApart, Turns;
    var w := WayApart(b, 0, true);
    TestedNext(c, true, w, n);
    ComesApart(site, b, 0, true, n + 1, fuel - 1);
  }

  // ---------- Whole programs ----------

  // An unfaithful program that links is not preserved, on the script that leads
  // to what is compiled otherwise.
  lemma {:induction false} UnfaithfulShows(main: Scope)
    requires Linkable(main, 0) && !FaithfulFrom(main, 0, false)
    ensures !Preserves(Scripted(), main, Trail(WayApart(main, 0, false), 0))
  {
    hide Eval, EvalCode, Linkable, FaithfulFrom, WayApart, Turns, MachineHalts, MachineFaults;
    var I, s, fuel := Scripted(), Trail(WayApart(main, 0, false), 0), Turns(main, 0, false);
    ComesApart([], main, 0, false, 0, fuel);
    CodeMeans(I, main, s);
    var r, q := RunMain(I, main, s, fuel), RunCode(I, main, s, fuel);
    assert CodeHalts(I, main, s, q.s);
    if r.Stuck? {
      HaltsDontFault(I, main, s, q.s);
    } else if ProgramHalts(I, main, s, q.s) {
      ProgramHaltsOnce(I, main, s, fuel, q.s);
    }
  }

  lemma {:induction false} HaltsDontFault<S(!new)>(I: Interp<S>, main: Scope, s: S, s': S)
    requires MachineHalts(I, main, s, s')
    ensures !MachineFaults(I, main, s)
  {
    hide Run;
    var code, start := Emission.Compile(main), Running(0, s, false, false);
    var m :| Run(I, code, start, m) == Halted(s');
    if n :| Run(I, code, start, n) == Fault { RunDeterministic(I, code, start, m, n); }
  }

  // Of the programs that link, the compiled code preserves exactly the faithful
  // ones: those in which control reaches nothing that is compiled otherwise.
  lemma {:induction false} PreservedExactly(main: Scope)
    requires Linkable(main, 0)
    ensures Faithful(main) <==>
            forall I: Interp<Trail>, s: Trail :: Erasing(I) ==> Preserves(I, main, s)
  {
    hide Erasing, FaithfulFrom, Linkable;
    if Faithful(main) {
      forall I: Interp<Trail>, s: Trail | Erasing(I) ensures Preserves(I, main, s) {
        PreservesMeaning(I, main, s);
      }
    } else {
      UnfaithfulShows(main);
      ScriptErases();
    }
  }
}
