// Destructor calls as events: every object is destroyed exactly once.
module Destruction {
  import opened Program
  import opened Machine
  import opened Semantics
  import opened Refinement
  import opened Preservation
  import opened Simulation

  datatype Event = Declared(v: Variable) | Destroyed(v: Variable)

  // An interpretation that also logs. The full log shows where the declaration
  // of a non-primitive variable is passed; compiled code, which has no
  // instruction for it, keeps the log of destructor calls only.
  function Logged<S(!new)>(I: Interp<S>, full: bool): Interp<(S, seq<Event>)> {
    Interp(
      (op: Op, x: (S, seq<Event>)) => (match I.exec(op, x.0) case None => None case Some(s) => Some((s, x.1))),
      (e: Expr, x: (S, seq<Event>)) =>
        (match I.test(e, x.0) case None => None case Some((b, s)) => Some((b, (s, x.1)))),
      (v: Variable, x: (S, seq<Event>)) => (match I.store(v, x.0) case None => None case Some(s) => Some((s, x.1))),
      (v: Variable, x: (S, seq<Event>)) => (I.destroy(v, x.0), x.1 + [Destroyed(v)]),
      (v: Variable, x: (S, seq<Event>)) =>
        (I.declare(v, x.0), if full && !v.ty.primitive then x.1 + [Declared(v)] else x.1),
      (p: Path, x: (S, seq<Event>)) => (I.leave(p, x.0), x.1))
  }

  // The destructor calls of a log.
  function Calls(log: seq<Event>): seq<Event> {
    if log == [] then []
    else Calls(log[..|log| - 1]) + if log[|log| - 1].Destroyed? then [log[|log| - 1]] else []
  }

  // The objects alive after a log; none if an object was destroyed that was not
  // alive, or declared again while it was.
  function Alive(log: seq<Event>): Option<set<Variable>> {
    if log == [] then Some({})
    else
      match Alive(log[..|log| - 1])
      case None => None
      case Some(live) =>
        match log[|log| - 1]
        case Declared(v) => if v in live then None else Some(live + {v})
        case Destroyed(v) => if v in live then Some(live - {v}) else None
  }

  lemma {:induction false} AliveSnoc(log: seq<Event>, e: Event)
    ensures Calls(log + [e]) == Calls(log) + if e.Destroyed? then [e] else []
    ensures Alive(log + [e]) ==
            match Alive(log)
            case None => None
            case Some(live) =>
              match e
              case Declared(v) => if v in live then None else Some(live + {v})
              case Destroyed(v) => if v in live then Some(live - {v}) else None
  {
    assert (log + [e])[..|log|] == log;
  }

  function AsSet(vs: seq<Variable>): set<Variable> { set v | v in vs }

  // Sites of the scope at p, and of the bodies inside it.
  predicate Inside(p: Path, v: Variable) { |v.site| > |p| && v.site[..|p|] == p }

  lemma {:induction false} DyingInside(p: Path, sc: Scope, n: nat)
    requires n <= |sc.instrs|
    ensures forall v :: v in DyingBefore(p, sc, n) ==>
              Inside(p, v) && |v.site| == |p| + 1 && v.site[|p|] < n && !v.ty.primitive
    ensures forall i, j :: 0 <= i < j < |DyingBefore(p, sc, n)| ==> DyingBefore(p, sc, n)[i] != DyingBefore(p, sc, n)[j]
  {
    if n > 0 {
      DyingInside(p, sc, n - 1);
      assert (p + [n - 1])[..|p|] == p && (p + [n - 1])[|p|] == n - 1;
    }
  }

  // Destroying a list of distinct live objects removes exactly them.
  lemma {:induction false} DestroyLogged<S(!new)>(I: Interp<S>, vs: seq<Variable>, x: (S, seq<Event>),
                                                  base: set<Variable>)
    requires Alive(x.1) == Some(base + AsSet(vs)) && base !! AsSet(vs)
    requires forall i, j :: 0 <= i < j < |vs| ==> vs[i] != vs[j]
    ensures Alive(DestroyVars(Logged(I, true), vs, x).1) == Some(base)
    decreases |vs|
  {
    if vs == [] {
      assert base + AsSet(vs) == base;
    } else {
      AliveSnoc(x.1, Destroyed(vs[0]));
      assert vs[0] in AsSet(vs);
      assert (base + AsSet(vs)) - {vs[0]} == base + AsSet(vs[1..]);
      DestroyLogged(I, vs[1..], Logged(I, true).destroy(vs[0], x), base);
    }
  }

  // What is alive at instruction i of the scope at p: what was alive on entry,
  // and the scope's own objects declared so far.
  ghost predicate Holds(p: Path, sc: Scope, i: nat, log: seq<Event>, base: set<Variable>)
    requires i <= |sc.instrs|
  {
    && Alive(log) == Some(base + AsSet(DyingBefore(p, sc, i)))
    && forall v :: v in base ==> !Inside(p, v)
  }

  ghost predicate Restored<S>(r: Outcome<(S, seq<Event>)>, base: set<Variable>) {
    r.Fell? || r.Broke? || r.Returned? ==> Alive(r.s.1) == Some(base)
  }

  lemma {:induction false} UnwindRestores<S(!new)>(I: Interp<S>, p: Path, sc: Scope, at: nat, x: (S, seq<Event>),
                                                   base: set<Variable>)
    requires at <= |sc.instrs| && Holds(p, sc, at, x.1, base)
    requires at < |sc.instrs| ==> !sc.instrs[at].Declare?
    ensures Alive(Unwind(Logged(I, true), p, sc, at, x).1) == Some(base)
  {
    var vs := Dying(p, sc, at);
    assert vs == DyingBefore(p, sc, at);
    DyingInside(p, sc, at);
    DestroyLogged(I, vs, x, base);
  }

  lemma {:induction false} HoldsNext(p: Path, sc: Scope, i: nat, next: nat, log: seq<Event>, base: set<Variable>)
    requires i <= next <= |sc.instrs| && Holds(p, sc, i, log, base)
    requires forall k :: i <= k < next ==> !sc.instrs[k].Declare?
    ensures Holds(p, sc, next, log, base)
    decreases next - i
  {
    if i < next {
      assert DyingBefore(p, sc, i + 1) == DyingBefore(p, sc, i);
      HoldsNext(p, sc, i + 1, next, log, base);
    }
  }

  lemma {:induction false} HoldsDeclare(p: Path, sc: Scope, i: nat, log: seq<Event>, base: set<Variable>)
    requires i < |sc.instrs| && sc.instrs[i].Declare? && Holds(p, sc, i, log, base)
    ensures var v := Variable(p + [i], sc.instrs[i].ty);
            Holds(p, sc, i + 1, if v.ty.primitive then log else log + [Declared(v)], base)
  {
    var v := Variable(p + [i], sc.instrs[i].ty);
    if v.ty.primitive {
      assert DyingBefore(p, sc, i + 1) == DyingBefore(p, sc, i);
    } else {
      DyingInside(p, sc, i);
      assert v.site[..|p|] == p && v.site[|p|] == i;
      AliveSnoc(log, Declared(v));
      assert base + AsSet(DyingBefore(p, sc, i)) + {v} == base + AsSet(DyingBefore(p, sc, i + 1));
    }
  }

  lemma {:induction false} HoldsEnter(p: Path, sc: Scope, i: nat, b: Scope, log: seq<Event>, base: set<Variable>)
    requires i < |sc.instrs| && Holds(p, sc, i, log, base)
    ensures Holds(p + [i], b, 0, log, base + AsSet(DyingBefore(p, sc, i)))
  {
    var q := p + [i];
    DyingInside(p, sc, i);
    var now := base + AsSet(DyingBefore(p, sc, i));
    assert now + AsSet(DyingBefore(q, b, 0)) == now;
    forall v | v in now ensures !Inside(q, v) { InsideUp(p, i, v); }
  }

  lemma {:induction false} InsideUp(p: Path, i: nat, v: Variable)
    ensures Inside(p + [i], v) ==> Inside(p, v) && v.site[|p|] == i
  {
    var q := p + [i];
    if Inside(q, v) {
      assert q[..|p|] == p && q[|p|] == i;
      assert v.site[..|p|] == v.site[..|q|][..|p|] && v.site[|p|] == v.site[..|q|][|p|];
    }
  }

  // However a scope is left, what is alive is what was alive on entry.
  lemma {:induction false} EvalRestores<S(!new)>(I: Interp<S>, p: Path, sc: Scope, i: nat, inLoop: bool,
                                                 x: (S, seq<Event>), fuel: nat, base: set<Variable>)
    requires i <= |sc.instrs| && Holds(p, sc, i, x.1, base)
    ensures Restored(Eval(Logged(I, true), p, sc, i, inLoop, x, fuel), base)
    decreases fuel, sc, |sc.instrs| - i, 1
  {
    hide Continue, Loop, Unwind, Holds, Alive;
    var L := Logged(I, true);
    if i == |sc.instrs| {
      UnwindRestores(I, p, sc, i, x, base);
      return;
    }
    var now := base + AsSet(DyingBefore(p, sc, i));
    match sc.instrs[i] {
      case Declare(ty) =>
        HoldsDeclare(p, sc, i, x.1, base);
        EvalRestores(I, p, sc, i + 1, inLoop, L.declare(Variable(p + [i], ty), x), fuel, base);
      case Effect(op) =>
        if I.exec(op, x.0).Some? {
          HoldsNext(p, sc, i, i + 1, x.1, base);
          EvalRestores(I, p, sc, i + 1, inLoop, L.exec(op, x).value, fuel, base);
        }
      case Return(v) =>
        if v == None { UnwindRestores(I, p, sc, i, x, base); }
        else if I.store(v.value, x.0).Some? { UnwindRestores(I, p, sc, i, L.store(v.value, x).value, base); }
      case Break =>
        if inLoop { UnwindRestores(I, p, sc, i, x, base); }
        else {
          HoldsNext(p, sc, i, i + 1, x.1, base);
          EvalRestores(I, p, sc, i + 1, inLoop, x, fuel, base);
        }
      case Nested(b) =>
        HoldsEnter(p, sc, i, b, x.1, base);
        EvalRestores(I, p + [i], b, 0, inLoop, x, fuel, now);
        ContinueRestores(I, p, sc, i, i + 1, inLoop, Eval(L, p + [i], b, 0, inLoop, x, fuel), x.1, fuel, base);
      case Branch(Else, b) =>
        HoldsEnter(p, sc, i, b, x.1, base);
        EvalRestores(I, p + [i], b, 0, inLoop, x, fuel, now);
        ContinueRestores(I, p, sc, i, i + 1, inLoop, Eval(L, p + [i], b, 0, inLoop, x, fuel), x.1, fuel, base);
      case Branch(If(c), b) =>
        if L.test(c, x).Some? {
          var (taken, y) := L.test(c, x).value;
          if taken {
            HoldsEnter(p, sc, i, b, x.1, base);
            EvalRestores(I, p + [i], b, 0, inLoop, y, fuel, now);
            ContinueRestores(I, p, sc, i, AfterIf(sc, i), inLoop, Eval(L, p + [i], b, 0, inLoop, y, fuel), x.1, fuel,
                             base);
          } else {
            HoldsNext(p, sc, i, i + 1, x.1, base);
            EvalRestores(I, p, sc, i + 1, inLoop, y, fuel, base);
          }
        }
      case Branch(While(c), b) =>
        HoldsEnter(p, sc, i, b, x.1, base);
        LoopRestores(I, p + [i], c, b, x, fuel, now);
        ContinueRestores(I, p, sc, i, i + 1, inLoop, Loop(L, p + [i], c, b, x, fuel), x.1, fuel, base);
      case PrimitiveConvert =>
    }
  }

  lemma {:induction false} ContinueRestores<S(!new)>(I: Interp<S>, p: Path, sc: Scope, at: nat, next: nat, inLoop: bool,
                                                     r: Outcome<(S, seq<Event>)>, log: seq<Event>, fuel: nat,
                                                     base: set<Variable>)
    requires at < next <= |sc.instrs| && Holds(p, sc, at, log, base)
    requires forall k :: at <= k < next ==> !sc.instrs[k].Declare?
    requires r.Fell? || r.Broke? || r.Returned? ==> r.fuel <= fuel
    requires r.Broke? ==> inLoop
    requires Restored(r, base + AsSet(DyingBefore(p, sc, at)))
    ensures Restored(Continue(Logged(I, true), p, sc, at, next, inLoop, r, fuel), base)
    decreases fuel, sc, |sc.instrs| - at, 0
  {
    hide Unwind, Alive, Eval;
    if r.Fell? || r.Broke? || r.Returned? {
      assert Holds(p, sc, at, r.s.1, base);
      if r.Fell? {
        HoldsNext(p, sc, at, next, r.s.1, base);
        EvalRestores(I, p, sc, next, inLoop, r.s, r.fuel, base);
      } else {
        UnwindRestores(I, p, sc, at, r.s, base);
      }
    }
  }

  lemma {:induction false} LoopRestores<S(!new)>(I: Interp<S>, site: Path, c: Expr, b: Scope, x: (S, seq<Event>),
                                                 fuel: nat, base: set<Variable>)
    requires Holds(site, b, 0, x.1, base)
    ensures Restored(Loop(Logged(I, true), site, c, b, x, fuel), base)
    decreases fuel, b, |b.instrs| + 1, 0
  {
    hide Eval, Alive;
    assert base + AsSet(DyingBefore(site, b, 0)) == base;
    var tested := Logged(I, true).test(c, x);
    if tested.Some? && tested.value.0 && fuel > 0 {
      var y := tested.value.1;
      EvalRestores(I, site, b, 0, true, y, fuel - 1, base);
      var r := Eval(Logged(I, true), site, b, 0, true, y, fuel - 1);
      if r.Fell? {
        assert Holds(site, b, 0, r.s.1, base);
        LoopRestores(I, site, c, b, r.s, r.fuel, base);
      }
    }
  }

  // The log of destructor calls is the full log without the declarations.
  ghost function SameCalls<S(!new)>(): Relation<(S, seq<Event>), (S, seq<Event>)> {
    (p: Path, x: (S, seq<Event>), y: (S, seq<Event>)) => x.0 == y.0 && Calls(x.1) == y.1
  }

  ghost function SameState<S(!new)>(): Relation<(S, seq<Event>), (S, seq<Event>)> {
    (p: Path, x: (S, seq<Event>), y: (S, seq<Event>)) => x.0 == y.0
  }

  lemma {:induction false} CallsSimulate<S(!new)>(I: Interp<S>, main: Scope)
    ensures KeepsOps(Logged(I, true), Logged(I, false), SameCalls<S>())
    ensures KeepsMoves(Logged(I, true), Logged(I, false), SameCalls<S>(), main)
  {
    var F, E, R := Logged(I, true), Logged(I, false), SameCalls<S>();
    forall p, v, x, y | R(p, x, y) ensures R(p, F.destroy(v, x), E.destroy(v, y)) {
      AliveSnoc(x.1, Destroyed(v));
    }
    forall p: Path, i: nat, x: (S, seq<Event>), y: (S, seq<Event>) | Declares(main, p, i) && R(p + [i], x, y)
      ensures R(p + [i + 1], F.declare(DeclaredAt(main, p, i), x), E.declare(DeclaredAt(main, p, i), y))
    {
      DeclareKeepsCalls(I, DeclaredAt(main, p, i), p + [i], p + [i + 1], x, y);
    }
  }

  lemma {:induction false} DeclareKeepsCalls<S(!new)>(I: Interp<S>, v: Variable, p: Path, q: Path, x: (S, seq<Event>),
                                                      y: (S, seq<Event>))
    requires SameCalls<S>()(p, x, y)
    ensures SameCalls<S>()(q, Logged(I, true).declare(v, x), Logged(I, false).declare(v, y))
  {
    AliveSnoc(x.1, Declared(v));
  }

  lemma {:induction false} StatesSimulate<S(!new)>(I: Interp<S>, a: bool, b: bool, main: Scope)
    ensures KeepsOps(Logged(I, a), Logged(I, b), SameState<S>())
    ensures KeepsMoves(Logged(I, a), Logged(I, b), SameState<S>(), main)
  {
  }

  lemma {:induction false} CallsErasing<S(!new)>(I: Interp<S>)
    requires Erasing(I)
    ensures Erasing(Logged(I, false))
  {
    var E := Logged(I, false);
    forall v, x ensures E.declare(v, x) == x {}
    forall p, x ensures E.leave(p, x) == x {}
  }

  // Destruction balance. Whenever the compiled function halts, its destructor
  // calls are those of a run of the program in which every object was destroyed
  // exactly once for each time its declaration was passed, and never otherwise.
  lemma {:induction false} DestructionBalance<S(!new)>(I: Interp<S>, main: Scope, s: S, s': S, calls: seq<Event>)
    returns (log: seq<Event>)
    requires Erasing(I) && Faithful(main)
    requires MachineHalts(Logged(I, false), main, (s, []), (s', calls))
    ensures Calls(log) == calls && Alive(log) == Some({})
    ensures ProgramHalts(Logged(I, true), main, (s, []), (s', log))
  {
    hide KeepsOps, KeepsMoves, Faithful, Eval;
    var F, E, R := Logged(I, true), Logged(I, false), SameCalls<S>();
    CallsSimulate(I, main);
    CallsErasing(I);
    assert Holds([], main, 0, [], {}) by { assert {} + AsSet(DyingBefore([], main, 0)) == {}; }
    PreservesMeaning(E, main, (s, []));
    var fuel: nat :| (var r := RunMain(E, main, (s, []), fuel); (r.Fell? || r.Returned?) && r.s == (s', calls));
    assert Calls([]) == [];
    assert R([], (s, []), (s, []));
    Refinement.SimMain(F, E, R, main, (s, []), (s, []), fuel);
    EvalRestores(I, [], main, 0, false, (s, []), fuel, {});
    SticksTheSame(I, main, s, fuel);
    log := RunMain(F, main, (s, []), fuel).s.1;
  }

  // What is logged makes no difference to whether a run gets stuck.
  lemma {:induction false} SticksTheSame<S(!new)>(I: Interp<S>, main: Scope, s: S, fuel: nat)
    ensures RunMain(Logged(I, false), main, (s, []), fuel).Stuck? <==>
            RunMain(Logged(I, true), main, (s, []), fuel).Stuck?
  {
    hide Eval, KeepsOps, KeepsMoves;
    var F, E, R := Logged(I, true), Logged(I, false), SameState<S>();
    StatesSimulate(I, false, true, main);
    StatesSimulate(I, true, false, main);
    Refinement.SimMain(E, F, R, main, (s, []), (s, []), fuel);
    Refinement.SimMain(F, E, R, main, (s, []), (s, []), fuel);
  }
}
