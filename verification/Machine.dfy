// The label machine that runs flat code.
//
// What the straight-line operations do to the state is a parameter, an
// `Interp`, so that every theorem about control flow holds for all of them.
module Machine {
  import opened Program
  import opened Emission

  // An interpretation of the operations over states S. `exec`, `test` and
  // `store` may fail (a hardware fault, or a read the program may not make), and
  // `test` may change the state (it uses registers).
  // `declare` and `leave` say what declaring a variable and leaving a scope mean
  // to the state; no code is emitted for either.
  datatype Interp<!S(!new)> = Interp(
    exec: (Op, S) -> Option<S>,
    test: (Expr, S) -> Option<(bool, S)>,
    store: (Variable, S) -> Option<S>,
    destroy: (Variable, S) -> S,
    declare: (Variable, S) -> S,
    leave: (Path, S) -> S)

  // `al` is whether the low byte of rax is non-zero, `zf` the zero flag.
  datatype Config<S> =
    | Running(pc: nat, s: S, al: bool, zf: bool)
    | Halted(s: S)
    | Fault

  // Where a label is bound; none if it is not.
  function Position(code: seq<Flat>, l: Label): Option<nat> {
    PositionFrom(code, l, 0)
  }

  function PositionFrom(code: seq<Flat>, l: Label, i: nat): Option<nat>
    decreases |code| - i
  {
    if i >= |code| then None
    else if code[i] == Bind(l) then Some(i)
    else PositionFrom(code, l, i + 1)
  }

  function Goto<S>(code: seq<Flat>, l: Label, s: S, al: bool, zf: bool): Config<S> {
    match Position(code, l)
    case None => Fault
    case Some(p) => Running(p, s, al, zf)
  }

  function Step<S(!new)>(I: Interp<S>, code: seq<Flat>, c: Config<S>): Config<S> {
    match c
    case Halted(_) => c
    case Fault => c
    case Running(pc, s, al, zf) =>
      if pc >= |code| then Fault
      else match code[pc]
        case Do(op) =>
          (match I.exec(op, s) case None => Fault case Some(s') => Running(pc + 1, s', al, zf))
        case Store(v) =>
          (match I.store(v, s) case None => Fault case Some(s') => Running(pc + 1, s', al, zf))
        case Destroy(v) => Running(pc + 1, I.destroy(v, s), al, zf)
        case Test(e) =>
          (match I.test(e, s) case None => Fault case Some((b, s')) => Running(pc + 1, s', b, zf))
        case CmpAl => Running(pc + 1, s, al, !al)
        case Jmp(l) => Goto(code, l, s, al, zf)
        case Je(l) => if zf then Goto(code, l, s, al, zf) else Running(pc + 1, s, al, zf)
        case Jne(l) => if zf then Running(pc + 1, s, al, zf) else Goto(code, l, s, al, zf)
        case Bind(_) => Running(pc + 1, s, al, zf)
        case Leave => Halted(s)
  }

  function Run<S(!new)>(I: Interp<S>, code: seq<Flat>, c: Config<S>, n: nat): Config<S>
    decreases n
  {
    if n == 0 then c else Run(I, code, Step(I, code, c), n - 1)
  }

  lemma {:induction false} RunAdd<S(!new)>(I: Interp<S>, code: seq<Flat>, c: Config<S>, m: nat, n: nat)
    ensures Run(I, code, c, m + n) == Run(I, code, Run(I, code, c, m), n)
    decreases m
  {
    if m > 0 { RunAdd(I, code, Step(I, code, c), m - 1, n); }
  }

  lemma {:induction false} RunStopped<S(!new)>(I: Interp<S>, code: seq<Flat>, c: Config<S>, n: nat)
    requires !c.Running?
    ensures Run(I, code, c, n) == c
  {
    if n > 0 { RunStopped(I, code, c, n - 1); }
  }

  // Each label is bound at most once.
  ghost predicate UniqueBinds(code: seq<Flat>) {
    forall i, j :: 0 <= i < |code| && 0 <= j < |code| && code[i].Bind? && code[i] == code[j] ==> i == j
  }

  lemma {:induction false} PositionIs(code: seq<Flat>, l: Label, i: nat, k: nat)
    requires UniqueBinds(code) && i <= k < |code| && code[k] == Bind(l)
    ensures PositionFrom(code, l, i) == Some(k)
    decreases k - i
  {
    if i < k { PositionIs(code, l, i + 1, k); }
  }

  // The fragment occupies the code from pc on.
  predicate CodeAt(code: seq<Flat>, pc: nat, frag: seq<Flat>) {
    pc + |frag| <= |code| && code[pc..pc + |frag|] == frag
  }

  lemma {:induction false} CodeAtSplit(code: seq<Flat>, pc: nat, a: seq<Flat>, b: seq<Flat>)
    requires CodeAt(code, pc, a + b)
    ensures CodeAt(code, pc, a) && CodeAt(code, pc + |a|, b)
  {
    var whole := code[pc..pc + |a + b|];
    assert whole[..|a|] == a && whole[|a|..] == b;
    assert code[pc..pc + |a|] == whole[..|a|];
    assert code[pc + |a|..pc + |a| + |b|] == whole[|a|..];
  }

  lemma {:induction false} CodeAtIndex(code: seq<Flat>, pc: nat, frag: seq<Flat>, k: nat)
    requires CodeAt(code, pc, frag) && k < |frag|
    ensures pc + k < |code| && code[pc + k] == frag[k]
  {
    assert code[pc..pc + |frag|][k] == code[pc + k];
  }
}
