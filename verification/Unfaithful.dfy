// Whole programs, all of their labels bound, that compiled code does not preserve.
module Unfaithful {
  import opened Program
  import opened Machine
  import opened Semantics
  import opened CodeSemantics
  import opened Exactness
  import opened Labels
  import opened Preservation
  import opened Simulation

  // Every condition holds; operations and destructor calls are counted.
  function Counting(): Interp<int> {
    Interp(
      (op: Op, n: int) => Some(n + 1),
      (e: Expr, n: int) => Some((true, n)),
      (v: Variable, n: int) => Some(n),
      (v: Variable, n: int) => n + 1,
      (v: Variable, n: int) => n,
      (p: Path, n: int) => n)
  }

  // The code and the program halt in different states, each in no other.
  ghost predicate Differs(main: Scope, machine: int, program: int) {
    && Erasing(Counting()) && Linkable(main, 0) && machine != program
    && MachineHalts(Counting(), main, 0, machine) && ProgramHalts(Counting(), main, 0, program)
    && !ProgramHalts(Counting(), main, 0, machine) && !MachineHalts(Counting(), main, 0, program)
  }

  lemma {:induction false} HaltApart(main: Scope, fuel: nat, machine: int, program: int)
    requires Linkable(main, 0) && machine != program
    requires var q := RunCode(Counting(), main, 0, fuel); (q.Fell? || q.Returned?) && q.s == machine
    requires var r := RunMain(Counting(), main, 0, fuel); (r.Fell? || r.Returned?) && r.s == program
    ensures Differs(main, machine, program)
  {
    hide RunCode, RunMain, Linkable, MachineHalts;
    var I := Counting();
    CodeMeans(I, main, 0);
    if MachineHalts(I, main, 0, program) { MachineHaltsOnce(I, main, 0, machine, program); }
    if ProgramHalts(I, main, 0, machine) { ProgramHaltsOnce(I, main, 0, fuel, machine); }
  }

  lemma {:induction false} NoneDying(p: Path, sc: Scope, n: nat)
    requires n <= |sc.instrs| && forall i :: 0 <= i < |sc.instrs| ==> !sc.instrs[i].Declare?
    ensures DyingBefore(p, sc, n) == []
  {
    if n > 0 { NoneDying(p, sc, n - 1); }
  }

  // ---------- A loop with a return, and something to do after it ----------

  function ReturningLoop(c: Expr, op: Op): Scope {
    Scope([Branch(While(c), Scope([Return(None)])), Effect(op)])
  }

  // The program returns from the loop at once; the code steps over the loop and
  // does the operation after it.
  lemma {:induction false} ReturningLoopDiffers(c: Expr, op: Op)
    ensures Differs(ReturningLoop(c, op), 1, 0)
  {
    var I, main, body := Counting(), ReturningLoop(c, op), Scope([Return(None)]);
    NoneDying([0], body, 1);
    NoneDying([], main, 1);
    NoneDying([], main, 2);
    assert [] + [0] == [0];
    assert ReturnsFrom(body, 0) && !BreaksFrom(body, 0);
    assert Linkable(main, 2) && Linkable(main, 1) && Linkable(body, 0);
    assert EvalCode(I, [], main, 1, false, 0, 1) == EvalCode(I, [], main, 2, false, 1, 1) == Fell(1, 1);
    var r := Loop(I, [0], c, body, 0, 1);
    assert Eval(I, [0], body, 0, true, 0, 0) == Returned(0, 0);
    assert RunMain(I, main, 0, 1) == Continue(I, [], main, 0, 1, false, r, 1) == Left(I, [], main, 0, r);
    HaltApart(main, 1, 1, 0);
  }

  // ---------- A break that leaves more than its own scope ----------

  function BreakingLoop(c: Expr, d: Expr, ty: Type): Scope {
    Scope([Branch(While(c), BreakingBody(d, ty))])
  }

  function BreakingBody(d: Expr, ty: Type): Scope {
    Scope([Declare(ty), Branch(If(d), Scope([Break]))])
  }

  lemma {:induction false} BodyDies(d: Expr, ty: Type)
    requires !ty.primitive
    ensures DyingBefore([0], BreakingBody(d, ty), 2) == [Variable([0, 0], ty)]
  {
    var b := BreakingBody(d, ty);
    assert [0] + [0] == [0, 0];
    assert DyingBefore([0], b, 0) == [];
    assert DyingBefore([0], b, 1) == [Variable([0, 0], ty)];
  }

  lemma {:induction false} InnerBreaks(fuel: nat)
    ensures Eval(Counting(), [0, 1], Scope([Break]), 0, true, 0, fuel) == Broke(0, fuel)
    ensures EvalCode(Counting(), [0, 1], Scope([Break]), 0, true, 0, fuel) == Broke(0, fuel)
  {
    NoneDying([0, 1], Scope([Break]), 1);
  }

  lemma {:induction false} BodyUnwinds(d: Expr, ty: Type)
    requires !ty.primitive
    ensures Unwind(Counting(), [0], BreakingBody(d, ty), 1, 0) == 1
  {
    var I, v := Counting(), Variable([0, 0], ty);
    BodyDies(d, ty);
    assert [v][1..] == [];
    assert DestroyVars(I, [v], 0) == DestroyVars(I, [v][1..], 1);
  }

  // The program destroys the body's object on its way out, the code does not.
  lemma {:induction false} BodyBreaks(d: Expr, ty: Type, fuel: nat)
    requires !ty.primitive
    ensures Eval(Counting(), [0], BreakingBody(d, ty), 0, true, 0, fuel) == Broke(1, fuel)
    ensures EvalCode(Counting(), [0], BreakingBody(d, ty), 0, true, 0, fuel) == Broke(0, fuel)
  {
    hide Unwind;
    var I, body := Counting(), BreakingBody(d, ty);
    InnerBreaks(fuel);
    BodyUnwinds(d, ty);
    assert [0] + [1] == [0, 1];
    assert Eval(I, [0], body, 1, true, 0, fuel) == Left(I, [0], body, 1, Broke(0, fuel));
    assert EvalCode(I, [0], body, 1, true, 0, fuel) == LeftCode(I, [0], body, 1, Broke(0, fuel));
  }

  lemma {:induction false} BreakingLoopDiffers(c: Expr, d: Expr, ty: Type)
    requires !ty.primitive
    ensures Differs(BreakingLoop(c, d, ty), 0, 1)
  {
    var I, main, body := Counting(), BreakingLoop(c, d, ty), BreakingBody(d, ty);
    BreakingLoopLinks(c, d, ty);
    NoneDying([], main, 1);
    assert [] + [0] == [0];
    BodyBreaks(d, ty, 0);
    hide BreakingBody, Linkable;
    assert Loop(I, [0], c, body, 0, 1) == Fell(1, 0);
    assert LoopCode(I, [0], c, body, 0, 1) == Fell(0, 0);
    assert main.instrs[0] == Branch(While(c), body);
    assert RunMain(I, main, 0, 1) == Continue(I, [], main, 0, 1, false, Fell(1, 0), 1);
    assert RunCode(I, main, 0, 1) == ContinueCode(I, [], main, 0, 1, false, Fell(0, 0), 1);
    HaltApart(main, 1, 0, 1);
  }

  lemma {:induction false} BreakingLoopLinks(c: Expr, d: Expr, ty: Type)
    ensures Linkable(BreakingLoop(c, d, ty), 0) && !ReturnsFrom(BreakingBody(d, ty), 0)
  {
    var main, body, inner := BreakingLoop(c, d, ty), BreakingBody(d, ty), Scope([Break]);
    assert Linkable(inner, 1) && Linkable(inner, 0);
    assert Linkable(body, 2) && Linkable(body, 1) && Linkable(body, 0);
    assert Linkable(main, 1);
    assert !ReturnsFrom(body, 2) && !ReturnsFrom(body, 1);
  }
}
