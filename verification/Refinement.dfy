// Two interpretations of one program, kept in step.
module Refinement {
  import opened Program
  import opened Machine
  import opened Semantics

  // A relation between states of two interpretations at a point of the tree.
  // The point is where the run is: the site of the next instruction.
  type Relation<!S, !T> = (Path, S, T) -> bool

  ghost predicate KeepsOps<S(!new), T(!new)>(I: Interp<S>, J: Interp<T>, R: Relation<S, T>) {
    && (forall p: Path, op, s, t :: R(p, s, t) && I.exec(op, s).Some? ==>
          J.exec(op, t).Some? && R(p, I.exec(op, s).value, J.exec(op, t).value))
    && (forall p: Path, e, s, t :: R(p, s, t) && I.test(e, s).Some? ==>
          J.test(e, t).Some? && J.test(e, t).value.0 == I.test(e, s).value.0 &&
          R(p, I.test(e, s).value.1, J.test(e, t).value.1))
    && (forall p: Path, v, s, t :: R(p, s, t) && I.store(v, s).Some? ==>
          J.store(v, t).Some? && R(p, I.store(v, s).value, J.store(v, t).value))
    && (forall p: Path, v, s, t :: R(p, s, t) ==> R(p, I.destroy(v, s), J.destroy(v, t)))
  }

  // Declaring the variable at the point, going on past any other instruction,
  // entering a body and leaving a scope.
  ghost predicate KeepsMoves<S(!new), T(!new)>(I: Interp<S>, J: Interp<T>, R: Relation<S, T>, main: Scope) {
    && (forall p: Path, i: nat, s, t :: Declares(main, p, i) && R(p + [i], s, t) ==>
          R(p + [i + 1], I.declare(DeclaredAt(main, p, i), s), J.declare(DeclaredAt(main, p, i), t)))
    && (forall p: Path, i: nat, j: nat, s, t ::
          j == i + 1 && !Declares(main, p, i) && R(p + [i], s, t) ==> R(p + [j], s, t))
    && (forall p: Path, s, t :: R(p, s, t) ==> R(p + [0], s, t))
    && (forall p: Path, i: nat, s, t :: R(p + [i], s, t) ==> R(p, I.leave(p, s), J.leave(p, t)))
  }

  predicate Declares(main: Scope, p: Path, i: nat) {
    IsScope(main, p) && i < |ScopeAt(main, p).instrs| && ScopeAt(main, p).instrs[i].Declare?
  }

  function DeclaredAt(main: Scope, p: Path, i: nat): Variable
    requires Declares(main, p, i)
  {
    Variable(p + [i], ScopeAt(main, p).instrs[i].ty)
  }

  predicate DeclaredIn(main: Scope, v: Variable) {
    v.site != [] && Declares(main, v.site[..|v.site| - 1], v.site[|v.site| - 1]) &&
    DeclaredAt(main, v.site[..|v.site| - 1], v.site[|v.site| - 1]) == v
  }

  ghost predicate Simulates<S(!new), T(!new)>(I: Interp<S>, J: Interp<T>, R: Relation<S, T>, main: Scope) {
    KeepsOps(I, J, R) && KeepsMoves(I, J, R, main)
  }

  // Same way out, related states, same fuel. A stuck run promises nothing.
  ghost predicate Matches<S(!new), T(!new)>(R: Relation<S, T>, p: Path, r: Outcome<S>, q: Outcome<T>) {
    match r
    case Fell(s, f) => q.Fell? && q.fuel == f && R(p, s, q.s)
    case Broke(s, f) => q.Broke? && q.fuel == f && R(p, s, q.s)
    case Returned(s, f) => q.Returned? && q.fuel == f && R(p, s, q.s)
    case Timeout => q.Timeout?
    case Stuck => true
  }

  lemma {:induction false} SimDestroys<S(!new), T(!new)>(I: Interp<S>, J: Interp<T>, R: Relation<S, T>, p: Path,
                                                        vs: seq<Variable>, s: S, t: T)
    requires KeepsOps(I, J, R) && R(p, s, t)
    ensures R(p, DestroyVars(I, vs, s), DestroyVars(J, vs, t))
  {
    if vs != [] { SimDestroys(I, J, R, p, vs[1..], I.destroy(vs[0], s), J.destroy(vs[0], t)); }
  }

  lemma {:induction false} SimUnwind<S(!new), T(!new)>(I: Interp<S>, J: Interp<T>, R: Relation<S, T>, main: Scope,
                                                       p: Path, sc: Scope,
                                    i: nat, at: nat, s: S, t: T)
    requires Simulates(I, J, R, main) && R(p + [i], s, t)
    ensures R(p, Unwind(I, p, sc, at, s), Unwind(J, p, sc, at, t))
  {
    SimDestroys(I, J, R, p + [i], Dying(p, sc, at), s, t);
  }

  lemma {:induction false} SimEval<S(!new), T(!new)>(I: Interp<S>, J: Interp<T>, R: Relation<S, T>, main: Scope,
                                 p: Path, sc: Scope, i: nat, inLoop: bool, s: S, t: T, fuel: nat)
    requires Simulates(I, J, R, main)
    requires IsScope(main, p) && ScopeAt(main, p) == sc && i <= |sc.instrs|
    requires R(p + [i], s, t)
    ensures Matches(R, p, Eval(I, p, sc, i, inLoop, s, fuel), Eval(J, p, sc, i, inLoop, t, fuel))
    decreases fuel, sc, |sc.instrs| - i, 2
  {
    hide IsScope, ScopeAt, Continue, Loop, Unwind;
    if i == |sc.instrs| {
      SimUnwind(I, J, R, main, p, sc, i, i, s, t);
      return;
    }
    ScopeSnoc(main, p, i);
    assert Declares(main, p, i) <==> sc.instrs[i].Declare?;
    match sc.instrs[i] {
      case Declare(ty) =>
        var v := Variable(p + [i], ty);
        assert Declares(main, p, i) && DeclaredAt(main, p, i) == v;
        SimEval(I, J, R, main, p, sc, i + 1, inLoop, I.declare(v, s), J.declare(v, t), fuel);
      case Effect(op) =>
        if I.exec(op, s).Some? {
          assert R(p + [i], I.exec(op, s).value, J.exec(op, t).value);
          assert R(p + [i + 1], I.exec(op, s).value, J.exec(op, t).value);
          SimEval(I, J, R, main, p, sc, i + 1, inLoop, I.exec(op, s).value, J.exec(op, t).value, fuel);
        }
      case Return(None) =>
        SimUnwind(I, J, R, main, p, sc, i, i, s, t);
      case Return(Some(v)) =>
        if I.store(v, s).Some? {
          SimUnwind(I, J, R, main, p, sc, i, i, I.store(v, s).value, J.store(v, t).value);
        }
      case Break =>
        if inLoop { SimUnwind(I, J, R, main, p, sc, i, i, s, t); }
        else {
          assert R(p + [i + 1], s, t);
          SimEval(I, J, R, main, p, sc, i + 1, inLoop, s, t, fuel);
        }
      case Nested(b) =>
        SimEval(I, J, R, main, p + [i], b, 0, inLoop, s, t, fuel);
        SimContinue(I, J, R, main, p, sc, i, i + 1, inLoop,
                    Eval(I, p + [i], b, 0, inLoop, s, fuel), Eval(J, p + [i], b, 0, inLoop, t, fuel), fuel);
      case Branch(Else, b) =>
        SimEval(I, J, R, main, p + [i], b, 0, inLoop, s, t, fuel);
        SimContinue(I, J, R, main, p, sc, i, i + 1, inLoop,
                    Eval(I, p + [i], b, 0, inLoop, s, fuel), Eval(J, p + [i], b, 0, inLoop, t, fuel), fuel);
      case Branch(If(_), _) =>
        SimIf(I, J, R, main, p, sc, i, inLoop, s, t, fuel);
      case Branch(While(c), b) =>
        SimLoop(I, J, R, main, p + [i], c, b, s, t, fuel);
        SimContinue(I, J, R, main, p, sc, i, i + 1, inLoop,
                    Loop(I, p + [i], c, b, s, fuel), Loop(J, p + [i], c, b, t, fuel), fuel);
      case PrimitiveConvert =>
    }
  }

  lemma {:induction false} SimIf<S(!new), T(!new)>(I: Interp<S>, J: Interp<T>, R: Relation<S, T>, main: Scope,
                               p: Path, sc: Scope, i: nat, inLoop: bool, s: S, t: T, fuel: nat)
    requires Simulates(I, J, R, main)
    requires IsScope(main, p) && ScopeAt(main, p) == sc && i < |sc.instrs|
    requires sc.instrs[i].Branch? && sc.instrs[i].kind.If? && R(p + [i], s, t)
    ensures Matches(R, p, Eval(I, p, sc, i, inLoop, s, fuel), Eval(J, p, sc, i, inLoop, t, fuel))
    decreases fuel, sc, |sc.instrs| - i, 1
  {
    hide IsScope, ScopeAt, Continue, Loop, Unwind;
    ScopeSnoc(main, p, i);
    assert !Declares(main, p, i);
    var c, b := sc.instrs[i].kind.cond, sc.instrs[i].scope;
    if I.test(c, s).Some? {
      var s', t' := I.test(c, s).value.1, J.test(c, t).value.1;
      assert R(p + [i], s', t') && R(p + [i + 1], s', t');
      if I.test(c, s).value.0 {
        SimEval(I, J, R, main, p + [i], b, 0, inLoop, s', t', fuel);
        SimContinue(I, J, R, main, p, sc, i, AfterIf(sc, i), inLoop,
                    Eval(I, p + [i], b, 0, inLoop, s', fuel), Eval(J, p + [i], b, 0, inLoop, t', fuel), fuel);
      } else {
        SimEval(I, J, R, main, p, sc, i + 1, inLoop, s', t', fuel);
      }
    }
  }

  lemma {:induction false} SimContinue<S(!new), T(!new)>(I: Interp<S>, J: Interp<T>, R: Relation<S, T>, main: Scope,
                                     p: Path, sc: Scope, at: nat, next: nat, inLoop: bool,
                                     r: Outcome<S>, q: Outcome<T>, fuel: nat)
    requires Simulates(I, J, R, main)
    requires IsScope(main, p) && ScopeAt(main, p) == sc && at < next <= |sc.instrs|
    requires forall k :: at <= k < next ==> !sc.instrs[k].Declare?
    requires r.Fell? || r.Broke? || r.Returned? ==> r.fuel <= fuel
    requires q.Fell? || q.Broke? || q.Returned? ==> q.fuel <= fuel
    requires (r.Broke? ==> inLoop) && (q.Broke? ==> inLoop)
    requires Matches(R, p + [at], r, q)
    ensures Matches(R, p, Continue(I, p, sc, at, next, inLoop, r, fuel), Continue(J, p, sc, at, next, inLoop, q, fuel))
    decreases fuel, sc, |sc.instrs| - at, 0
  {
    hide IsScope, ScopeAt, Unwind, Eval;
    match r {
      case Fell(s, f) =>
        SimPast(I, J, R, main, p, at, next, s, q.s);
        SimEval(I, J, R, main, p, sc, next, inLoop, s, q.s, f);
      case Broke(s, _) => SimUnwind(I, J, R, main, p, sc, at, at, s, q.s);
      case Returned(s, _) => SimUnwind(I, J, R, main, p, sc, at, at, s, q.s);
      case _ =>
    }
  }

  // Going on past instructions that declare nothing.
  lemma {:induction false} SimPast<S(!new), T(!new)>(I: Interp<S>, J: Interp<T>, R: Relation<S, T>, main: Scope,
                                                     p: Path, i: nat, j: nat, s: S, t: T)
    requires KeepsMoves(I, J, R, main) && R(p + [i], s, t)
    requires i <= j && forall k: nat :: i <= k < j ==> !Declares(main, p, k)
    ensures R(p + [j], s, t)
    decreases j - i
  {
    if i < j {
      assert R(p + [i + 1], s, t);
      SimPast(I, J, R, main, p, i + 1, j, s, t);
    }
  }

  lemma {:induction false} SimLoop<S(!new), T(!new)>(I: Interp<S>, J: Interp<T>, R: Relation<S, T>, main: Scope,
                                 site: Path, c: Expr, b: Scope, s: S, t: T, fuel: nat)
    requires Simulates(I, J, R, main)
    requires IsScope(main, site) && ScopeAt(main, site) == b
    requires R(site, s, t)
    ensures Matches(R, site, Loop(I, site, c, b, s, fuel), Loop(J, site, c, b, t, fuel))
    decreases fuel, b, |b.instrs| + 1, 0
  {
    hide IsScope, ScopeAt, Eval;
    if I.test(c, s).Some? && I.test(c, s).value.0 && fuel > 0 {
      var s', t' := I.test(c, s).value.1, J.test(c, t).value.1;
      SimEval(I, J, R, main, site, b, 0, true, s', t', fuel - 1);
      var r, q := Eval(I, site, b, 0, true, s', fuel - 1), Eval(J, site, b, 0, true, t', fuel - 1);
      if r.Fell? { SimLoop(I, J, R, main, site, c, b, r.s, q.s, r.fuel); }
    }
  }

  // Refinement of whole runs.
  lemma {:induction false} SimMain<S(!new), T(!new)>(I: Interp<S>, J: Interp<T>, R: Relation<S, T>, main: Scope, s: S,
                                                     t: T, fuel: nat)
    requires Simulates(I, J, R, main) && R([], s, t)
    ensures Matches(R, [], RunMain(I, main, s, fuel), RunMain(J, main, t, fuel))
  {
    assert [] + [0] == [0];
    SimEval(I, J, R, main, [], main, 0, false, s, t, fuel);
  }
}
