// Whole programs that never get stuck, and what their compiled code computes.
module CheckedPrograms {
  import opened Program
  import opened Integers
  import opened ArgBlock
  import opened Machine
  import opened Semantics
  import opened Refinement
  import opened Asm
  import opened Codegen
  import opened Named
  import opened Bytes
  import opened EndToEnd
  import opened Linked
  import opened Progress
  import Exactness
  import Preservation
  import Simulation

  // What is known where nothing in particular is.
  ghost predicate Starts(x: Signature, s: Store) {
    s.vars.Keys == {} && SizesOf(s.args) == x.argSizes && s.retSize == x.retSize
  }

  lemma {:induction false} StartsGood(x: Signature, s: Store)
    requires Starts(x, s)
    ensures Good(x, [0], {}, s)
  {
    NothingInScope(x.main, s);
    EnterKeeps(x.main, [], s);
    assert [] + [0] == [0];
  }

  // Progress, for every interpretation that performs what the check accepts.
  lemma {:induction false} NeverStuck(x: Signature, env: Env, I: Interp<Store>, inv: Invariant, s: Store)
    requires Performs(x, env, I, inv) && ObjectsFit(env) && Checked(x)
    requires Starts(x, s) && inv([0], s)
    ensures !Preservation.ProgramSticks(I, x.main, s)
  {
    hide Performs, Good, Check, Eval;
    StartsGood(x, s);
    assert [] + [0] == [0];
    forall fuel: nat ensures !RunMain(I, x.main, s, fuel).Stuck? {
      Proceeds(x, env, I, inv, [], x.main, 0, false, {}, s, fuel);
    }
  }

  // The calls a program makes return values of their declared size.
  ghost predicate CallsFit(x: Signature, env: Env) {
    forall p: Path, i: nat, op :: Performed(x.main, p, i, op) ==> CallFits(env, op)
  }

  // An invariant of the program's runs under which every quotient is served.
  ghost predicate Divides(x: Signature, env: Env, inv: Invariant) {
    && Simulates(Meaning(env), Meaning(env), Same(inv), x.main)
    && forall p: Path, i: nat, op, s :: Performed(x.main, p, i, op) && inv(p + [i], s) ==> ServedOp(s, op)
  }

  lemma {:induction false} MeaningPerforms(x: Signature, env: Env, inv: Invariant)
    requires ObjectsFit(env) && CallsFit(x, env) && Divides(x, env, inv)
    ensures Performs(x, env, Meaning(env), inv)
  {
    hide Good, ReadyOp, ExecOp, ServedOp, CallFits, Simulates, Performed;
    forall p: Path, i: nat, op, given, s |
      Performed(x.main, p, i, op) && At(x, inv, p + [i], given, s) && ReadyOp(x, p + [i], given, op)
      ensures ExecOp(env, s, op).Some? && Good(x, p + [i], given + Gives(op), ExecOp(env, s, op).value)
    {
      OpExact(x, p + [i], given, env, s, op);
    }
  }

  // A checked program never gets stuck, from any arguments of the sizes it
  // declares, when an invariant of its runs rules out zero divisors and negative
  // dividends where it divides.
  lemma {:induction false} CheckedProceeds(x: Signature, env: Env, inv: Invariant, s: Store)
    requires Checked(x) && ObjectsFit(env) && CallsFit(x, env)
    requires Divides(x, env, inv) && Starts(x, s) && inv([0], s)
    ensures !Preservation.ProgramSticks(Meaning(env), x.main, s)
  {
    hide *;
    MeaningPerforms(x, env, inv);
    NeverStuck(x, env, Meaning(env), inv, s);
  }

  // Quotients that are served whatever the variables hold.
  predicate Safe(e: Expr) {
    e.op in {Div, Mod} ==>
      && e.right.Imm? && e.ty.size == |e.right.bytes| && Decode(e.right.bytes) != 0
      && (!e.ty.signed || (e.left.Imm? && Value(Decode(e.left.bytes), e.ty.size, true) >= 0))
  }

  predicate SafeOp(op: Op) {
    match op
    case CopyConstruct(_, FromExpr(e)) => Safe(e)
    case Assign(_, FromExpr(e)) => Safe(e)
    case _ => true
  }

  lemma {:induction false} SafeServed(s: Store, e: Expr)
    requires Safe(e)
    ensures Served(s, e)
  {
    hide Decode, Pow256;
    if e.op in {Div, Mod} { DecodeBound(e.right.bytes); }
  }

  predicate AllSafe(sc: Scope) {
    forall i :: 0 <= i < |sc.instrs| ==>
      match sc.instrs[i]
      case Effect(op) => SafeOp(op)
      case Nested(b) => AllSafe(b)
      case Branch(_, b) => AllSafe(b)
      case _ => true
  }

  lemma {:induction false} AllSafeAt(sc: Scope, p: Path, i: nat, op: Op)
    requires AllSafe(sc) && Performed(sc, p, i, op)
    ensures SafeOp(op)
    decreases p
  {
    if p != [] { AllSafeAt(sc.instrs[p[0]].scope, p[1..], i, op); }
  }

  lemma {:induction false} SafeDivides(x: Signature, env: Env)
    requires AllSafe(x.main)
    ensures Divides(x, env, Everywhere((s: Store) => true))
  {
    hide Performed, Simulates, ServedOp, SafeOp;
    KeptEverywhere(Meaning(env), (s: Store) => true, x.main);
    forall p: Path, i: nat, op, s | Performed(x.main, p, i, op) ensures ServedOp(s, op) {
      AllSafeAt(x.main, p, i, op);
      SafeOpServed(s, op);
    }
  }

  lemma {:induction false} SafeOpServed(s: Store, op: Op)
    requires SafeOp(op)
    ensures ServedOp(s, op)
  {
    hide Safe, Served;
    match op {
      case CopyConstruct(_, FromExpr(e)) => SafeServed(s, e);
      case Assign(_, FromExpr(e)) => SafeServed(s, e);
      case _ =>
    }
  }

  // A checked program whose divisors are constants, and whose dividends are
  // unsigned or constants, never gets stuck at all.
  lemma {:induction false} SafeProceeds(x: Signature, env: Env, s: Store)
    requires Checked(x) && ObjectsFit(env) && CallsFit(x, env)
    requires AllSafe(x.main) && Starts(x, s)
    ensures !Preservation.ProgramSticks(Meaning(env), x.main, s)
  {
    hide Divides, Checked, ObjectsFit, CallsFit, AllSafe, Starts, Preservation.ProgramSticks;
    var inv := Everywhere((s: Store) => true);
    SafeDivides(x, env);
    assert inv([0], s);
    CheckedProceeds(x, env, inv, s);
  }

  lemma {:induction false} EnteredStarts(x: Signature, t: Target, s: Store, c: Cpu)
    requires Entered(t, s, c) && x.main == t.main && x.argSizes == t.argSizes && x.retSize == t.retSize
    ensures Starts(x, s)
  {
    assert |SizesOf(s.args)| == |t.argSizes|;
    assert forall i :: 0 <= i < |s.args| ==> SizesOf(s.args)[i] == t.argSizes[i];
  }

  // The compiled function of such a program never faults, halts exactly when the
  // program does, and then with the program's answer.
  lemma {:induction false} CheckedComputes(x: Signature, t: Target, inv: Invariant, s: Store, c: Cpu)
    requires TargetOk(t) && Preservation.Faithful(t.main) && Entered(t, s, c)
    requires x == Signature(t.main, t.argSizes, t.retSize)
    requires Checked(x) && ObjectsFit(t.env) && CallsFit(x, t.env) && Divides(x, t.env, inv) && inv([0], s)
    ensures !Simulation.MachineFaults(OnCpu(t), t.main, c)
    ensures forall s' :: Preservation.ProgramHalts(Meaning(t.env), t.main, s, s') ==>
              exists c' :: Simulation.MachineHalts(OnCpu(t), t.main, c, c') && Answers(t, s', c'.mem)
    ensures forall c' :: Simulation.MachineHalts(OnCpu(t), t.main, c, c') ==>
              exists s' :: Preservation.ProgramHalts(Meaning(t.env), t.main, s, s') && Answers(t, s', c'.mem)
  {
    hide *;
    EnteredStarts(x, t, s, c);
    CheckedProceeds(x, t.env, inv, s);
    CompiledOnlyComputes(t, s, c, c);
    forall s' | Preservation.ProgramHalts(Meaning(t.env), t.main, s, s')
      ensures exists c' :: Simulation.MachineHalts(OnCpu(t), t.main, c, c') && Answers(t, s', c'.mem)
    {
      CompiledComputes(t, s, c, s');
    }
    forall c' | Simulation.MachineHalts(OnCpu(t), t.main, c, c')
      ensures exists s' :: Preservation.ProgramHalts(Meaning(t.env), t.main, s, s') && Answers(t, s', c'.mem)
    {
      CompiledOnlyComputes(t, s, c, c');
    }
  }

  // ---------- Linked programs ----------

  // A call, at most n deep, is answered: its operands have the callee's sizes, and
  // the callee's program halts on their values having returned what it declares.
  ghost predicate CallAnswered(link: Linkage, n: nat, s: Store, op: Op) {
    op.Invoke? ==>
      && n > 0 && OperandSizes(op.args) == link.functions(op.callee).argSizes
      && RetSize(op.retType) == link.functions(op.callee).retSize
      && match ArgumentValues(s, op.args)
         case None => true
         case Some(vs) => HasAnswer(link, n - 1, link.functions(op.callee), vs)
  }

  ghost predicate HasAnswer(link: Linkage, n: nat, f: Function, vs: seq<seq<Byte>>) {
    exists s' :: Answered(link, n, f, vs, s')
  }

  // What is returned has the declared size.
  predicate ResultFits(size: nat, s: Store) {
    s.retSize == size && (s.ret.Some? ==> |s.ret.value| == size)
  }

  lemma {:induction false} ResultKept(link: Linkage, env: Env, n: nat, size: nat, main: Scope)
    ensures var I := LinkedMeaning(link, env, n);
            Simulates(I, I, Same(Everywhere((s: Store) => ResultFits(size, s))), main)
  {
    hide LinkedExec, StoreVar, TestCond, Simulates;
    var I := LinkedMeaning(link, env, n);
    forall op, s | ResultFits(size, s) && I.exec(op, s).Some? ensures ResultFits(size, I.exec(op, s).value) {
      OpReturnsNothing(link, env, n, s, op);
    }
    forall v, s | ResultFits(size, s) && I.store(v, s).Some? ensures ResultFits(size, I.store(v, s).value) {
      StoreFits(env, size, s, v);
    }
    KeptEverywhere(I, (s: Store) => ResultFits(size, s), main);
  }

  lemma {:induction false} OpReturnsNothing(link: Linkage, env: Env, n: nat, s: Store, op: Op)
    requires LinkedExec(link, env, n, s, op).Some?
    ensures LinkedExec(link, env, n, s, op).value == s.(vars := LinkedExec(link, env, n, s, op).value.vars)
  {
    hide Supported, SourceValue, ArgumentValues, Answer;
  }

  lemma {:induction false} StoreFits(env: Env, size: nat, s: Store, v: Variable)
    requires StoreVar(env, s, v).Some? && ResultFits(size, s)
    ensures ResultFits(size, StoreVar(env, s, v).value)
  {
  }

  // An answer is what the callee's program returns, and has the declared size.
  lemma {:induction false} AnswerIs(link: Linkage, n: nat, f: Function, vs: seq<seq<Byte>>, s': Store)
    requires Answered(link, n, f, vs, s')
    ensures Answer(link, n, f, vs) == Some(if s'.ret.Some? then s'.ret.value else [])
    ensures |Answer(link, n, f, vs).value| == f.retSize
  {
    hide LinkedMeaning, Eval, Simulates;
    var I, s := LinkedMeaning(link, f.env, n), Store(map[], vs, None, f.retSize);
    var s'' := AnswerState(link, n, f, vs);
    var fuel: nat :| var r := RunMain(I, f.main, s, fuel); (r.Fell? || r.Returned?) && r.s == s';
    Exactness.ProgramHaltsOnce(I, f.main, s, fuel, s'');
    var inv := Everywhere((s: Store) => ResultFits(f.retSize, s));
    ResultKept(link, f.env, n, f.retSize, f.main);
    assert Same(inv)([], s, s);
    SimMain(I, I, Same(inv), f.main, s, s, fuel);
    assert Same(inv)([], s', s');
  }

  // An invariant under which every quotient is served and every call answered.
  ghost predicate AllAnswered(x: Signature, link: Linkage, env: Env, n: nat, inv: Invariant) {
    && Simulates(LinkedMeaning(link, env, n), LinkedMeaning(link, env, n), Same(inv), x.main)
    && (forall p: Path, i: nat, op, s :: Performed(x.main, p, i, op) && inv(p + [i], s) ==>
          ServedOp(s, op) && CallAnswered(link, n, s, op))
    && (forall p: Path, i: nat, op :: Performed(x.main, p, i, op) && !op.Invoke? ==> CallFits(env, op))
  }

  lemma {:induction false} LinkedOpTotal(x: Signature, p: Path, given: set<Variable>, link: Linkage, env: Env, n: nat,
                                         s: Store, op: Op)
    requires Good(x, p, given, s) && ReadyOp(x, p, given, op) && ObjectsFit(env)
    requires ServedOp(s, op) && CallAnswered(link, n, s, op) && (!op.Invoke? ==> CallFits(env, op))
    ensures var r := LinkedExec(link, env, n, s, op);
            r.Some? && Good(x, p, given + Gives(op), r.value)
  {
    hide Good, ExecOp, ServedOp, Answered, Answer, Accept, Gives;
    if op.Invoke? {
      ReadySupported(x, p, given, op);
      ArgumentsRead(x, p, given, s, op.args);
      var vs := ArgumentValues(s, op.args).value;
      var f := link.functions(op.callee);
      var s' :| Answered(link, n - 1, f, vs, s');
      AnswerIs(link, n - 1, f, vs, s');
      AcceptGood(x, p, given, s, op, Answer(link, n - 1, f, vs).value);
    } else {
      OpExact(x, p, given, env, s, op);
    }
  }

  // A checked program whose calls are answered by the programs it calls never gets
  // stuck either.
  lemma {:induction false} LinkedProceeds(x: Signature, link: Linkage, env: Env, n: nat, inv: Invariant, s: Store)
    requires Checked(x) && ObjectsFit(env) && AllAnswered(x, link, env, n, inv)
    requires Starts(x, s) && inv([0], s)
    ensures !Preservation.ProgramSticks(LinkedMeaning(link, env, n), x.main, s)
  {
    hide Good, ReadyOp, LinkedExec, ServedOp, CallAnswered, CallFits, Simulates, Performed, Checked, Starts;
    hide Preservation.ProgramSticks;
    var I := LinkedMeaning(link, env, n);
    forall p: Path, i: nat, op, given, s |
      Performed(x.main, p, i, op) && At(x, inv, p + [i], given, s) && ReadyOp(x, p + [i], given, op)
      ensures I.exec(op, s).Some? && Good(x, p + [i], given + Gives(op), I.exec(op, s).value)
    {
      LinkedOpTotal(x, p + [i], given, link, env, n, s, op);
    }
    NeverStuck(x, env, I, inv, s);
  }

  // ---------- A checked program ----------

  const U32 := Type(4, false, true)

  const Whole := Variable([0], U32)

  const Part := Variable([2, 0], U32)

  const Stopping := Branch(If(Expr(Eq, U32, Var(Part), Var(Whole))), Scope([Break]))

  const Going := Branch(Else, Scope([Effect(Assign(Whole, FromVar(Part)))]))

  // One turn: stops when halving changes nothing, otherwise goes on with the half.
  const Turn := Scope([
    Declare(U32),
    Effect(CopyConstruct(Part, FromExpr(Expr(Div, U32, Var(Whole), Imm([2, 0, 0, 0]))))),
    Stopping,
    Going])

  // Halves its argument while more than one is left of it.
  const Halving := Scope([
    Declare(U32),
    Effect(CopyConstruct(Whole, FromArg(0))),
    Branch(While(Expr(Gt, U32, Var(Whole), Imm([1, 0, 0, 0]))), Turn),
    Nested(Scope([])),
    Return(Some(Whole))])

  // It is checked: what is declared outside keeps its value through the bodies of
  // the loop and of the condition, and through the nested scope.
  lemma {:induction false} HalvingChecked()
    ensures Checked(Signature(Halving, [4], 4)) && AllSafe(Halving)
  {
    hide Writable, Turn;
    var x := Signature(Halving, [4], 4);
    TurnChecked(x);
    WholeWritable(x, [1]);
    WholeWritable(x, [2]);
    WholeWritable(x, [4]);
    assert [] + [1] == [1] && [] + [2] == [2] && [] + [3] == [3] && [] + [4] == [4];
    assert Check(x, [], Halving, 4, false, {Whole}) == Leaves;
    assert Check(x, [3], Scope([]), 0, false, {Whole}) == Falls({Whole});
    assert Check(x, [], Halving, 3, false, {Whole}) == Leaves;
    assert Check(x, [], Halving, 2, false, {Whole}) == Leaves;
    var none: set<Variable> := {};
    assert none + {Whole} == {Whole};
    assert ReadyOp(x, [1], none, Halving.instrs[1].op);
    assert Check(x, [], Halving, 1, false, none) == Leaves;
    assert [] + [0] == [0] && none - {Whole} == none;
    assert Check(x, [], Halving, 0, false, none) == Leaves;
    TurnSafe();
  }

  lemma {:induction false} TurnSafe()
    ensures AllSafe(Turn)
  {
    assert AllSafe(Scope([Break]));
    assert AllSafe(Scope([Effect(Assign(Whole, FromVar(Part)))]));
  }

  lemma {:induction false} WholeWritable(x: Signature, p: Path)
    requires x.main == Halving && p != [] && p[0] > 0
    ensures Writable(x, p, Whole)
  {
  }

  lemma {:induction false} PartWritable(x: Signature, p: Path)
    requires x.main == Halving && |p| > 1 && p[0] == 2 && p[1] > 0
    ensures Writable(x, p, Part)
  {
    assert Halving.instrs[2].scope == Turn;
    assert [2][1..] == [];
    assert IsScope(Halving, [2]) && ScopeAt(Halving, [2]) == Turn;
    assert [2, 0][..1] == [2] == p[..1] && [2] + [0] == [2, 0];
    assert Declares(Halving, [2], 0) && DeclaredAt(Halving, [2], 0) == Part;
  }

  lemma {:induction false} TurnChecked(x: Signature)
    requires x.main == Halving
    ensures Check(x, [2], Turn, 0, true, {Whole}).Falls?
  {
    hide Writable;
    WholeWritable(x, [2, 1]);
    WholeWritable(x, [2, 2]);
    WholeWritable(x, [2, 3, 0]);
    PartWritable(x, [2, 1]);
    PartWritable(x, [2, 2]);
    PartWritable(x, [2, 3, 0]);
    assert [2] + [1] == [2, 1] && [2] + [2] == [2, 2] && [2] + [3] == [2, 3] && [2, 3] + [0] == [2, 3, 0];
    var both := {Whole, Part};
    assert both + {Whole} == both;
    assert Check(x, [2, 3], Going.scope, 1, true, both) == Falls(both);
    assert Check(x, [2, 3], Going.scope, 0, true, both) == Falls(both);
    assert Check(x, [2], Turn, 4, true, both) == Falls(both);
    assert Check(x, [2], Turn, 3, true, both) == Falls(both);
    assert Check(x, [2, 2], Stopping.scope, 0, true, both) == Leaves;
    assert Check(x, [2], Turn, 2, true, both) == Falls(both);
    assert {Whole} + {Part} == both;
    assert Check(x, [2], Turn, 1, true, {Whole}) == Falls(both);
    assert [2] + [0] == [2, 0] && {Whole} - {Part} == {Whole};
  }
}
