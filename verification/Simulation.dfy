// The machine runs the code of every program that links the way `CodeSemantics`
// tells it.
module Simulation {
  import opened Program
  import opened Emission
  import opened Machine
  import opened Semantics
  import opened CodeSemantics
  import opened Labels

  predicate InLoop(frames: seq<Frame>) { InnermostLoop(frames).Some? }

  function UnwindFrames<S(!new)>(I: Interp<S>, frames: seq<Frame>, s: S): S {
    if frames == [] then s
    else
      var f := frames[|frames| - 1];
      UnwindFrames(I, frames[..|frames| - 1], DestroyVars(I, Dying(f.path, f.scope, f.at), s))
  }

  // The labels the current code may jump out to: the function's exit at ex,
  // and the end of the innermost loop at brk.
  ghost predicate Exits(code: seq<Flat>, frames: seq<Frame>, brk: nat, ex: nat) {
    && UniqueBinds(code)
    && ex < |code| && code[ex] == Bind(Exit)
    && (InLoop(frames) ==> brk < |code| && code[brk] == Bind(LoopEnd(InnermostLoop(frames).value)))
  }

  // Where the machine is after n steps when a scope ends with outcome r: at
  // `fin` if it fell off its end, past the loop if it broke out, at the exit
  // with every scope below unwound if it returned.
  ghost predicate Lands<S(!new)>(I: Interp<S>, below: seq<Frame>, brk: nat, ex: nat, fin: int,
                                 fuel: nat, r: Outcome<S>, n: nat, c: Config<S>)
  {
    match r
    case Fell(s, f) => c.Running? && c.pc == fin && c.s == s && n + f >= fuel
    case Broke(s, f) => c.Running? && c.pc == brk && c.s == s && n + f >= fuel
    case Returned(s, f) => c.Running? && c.pc == ex && c.s == UnwindFrames(I, below, s) && n + f >= fuel
    case Stuck => c.Fault?
    case Timeout => c.Running? && n >= fuel
  }

  lemma {:induction false} RunDestroys<S(!new)>(I: Interp<S>, code: seq<Flat>, vs: seq<Variable>, pc: nat, s: S,
                                                al: bool, zf: bool)
    requires CodeAt(code, pc, DestroyAll(vs))
    ensures Run(I, code, Running(pc, s, al, zf), |vs|) == Running(pc + |vs|, DestroyVars(I, vs, s), al, zf)
    decreases |vs|
  {
    if vs != [] {
      assert DestroyAll(vs) == [Destroy(vs[0])] + DestroyAll(vs[1..]);
      CodeAtSplit(code, pc, [Destroy(vs[0])], DestroyAll(vs[1..]));
      CodeAtIndex(code, pc, DestroyAll(vs), 0);
      RunDestroys(I, code, vs[1..], pc + 1, I.destroy(vs[0], s), al, zf);
    }
  }

  lemma {:induction false} RunUnwind<S(!new)>(I: Interp<S>, code: seq<Flat>, frames: seq<Frame>, pc: nat, s: S,
                                              al: bool, zf: bool)
    requires CodeAt(code, pc, UnwindCode(frames))
    ensures Run(I, code, Running(pc, s, al, zf), |UnwindCode(frames)|) ==
            Running(pc + |UnwindCode(frames)|, UnwindFrames(I, frames, s), al, zf)
    decreases |frames|
  {
    hide CodeAt, Run, Dying, DestroyVars;
    if frames == [] {
      RunZero(I, code, Running(pc, s, al, zf));
    } else {
      var f, rest := frames[|frames| - 1], frames[..|frames| - 1];
      var vs := Dying(f.path, f.scope, f.at);
      CodeAtSplit(code, pc, Destroys(f), UnwindCode(rest));
      RunDestroys(I, code, vs, pc, s, al, zf);
      RunUnwind(I, code, rest, pc + |vs|, DestroyVars(I, vs, s), al, zf);
      RunAdd(I, code, Running(pc, s, al, zf), |vs|, |UnwindCode(rest)|);
    }
  }

  lemma {:induction false} UnwindPush<S(!new)>(I: Interp<S>, below: seq<Frame>, f: Frame, s: S)
    ensures UnwindFrames(I, below + [f], s) ==
            UnwindFrames(I, below, DestroyVars(I, Dying(f.path, f.scope, f.at), s))
  {
    assert (below + [f])[..|below|] == below;
  }

  // The last k elements.
  function Suffix<T>(s: seq<T>, k: nat): seq<T>
    requires k <= |s|
  {
    s[|s| - k..]
  }

  lemma {:induction false} SuffixIndex<T>(s: seq<T>, k: nat, i: nat)
    requires i < k <= |s|
    ensures s[|s| - k + i] == Suffix(s, k)[i]
  {
  }

  lemma {:induction false} SuffixConcat<T>(a: seq<T>, b: seq<T>, k: nat)
    requires k <= |b|
    ensures Suffix(a + b, k) == Suffix(b, k)
    ensures k == |b| ==> Suffix(a + b, k) == b
  {
  }

  // A body that was not cut short ends with its closing code, and a cut one
  // with its end label.
  lemma {:induction false} EmitEnds(below: seq<Frame>, f: Frame)
    requires f.Valid()
    ensures !ReturnsFrom(f.scope, f.at) ==>
              |Closing(f)| <= |Emit(below, f)| && Suffix(Emit(below, f), |Closing(f)|) == Closing(f)
    ensures ReturnsFrom(f.scope, f.at) ==>
              |EndBind(f)| <= |Emit(below, f)| && Suffix(Emit(below, f), |EndBind(f)|) == EndBind(f)
    decreases |f.scope.instrs| - f.at
  {
    hide Closing, EndBind, Suffix, Piece, Opening, UnwindCode, Destroys;
    if f.at == |f.scope.instrs| {
      SuffixConcat(Destroys(f), Closing(f), |Closing(f)|);
    } else if f.scope.instrs[f.at].Return? {
      var v := f.scope.instrs[f.at].v;
      var body := StoreCode(v) + UnwindCode(below + [f]) + [Jmp(Exit)];
      SuffixConcat(body, EndBind(f), |EndBind(f)|);
      SuffixConcat(Opening(f), body + EndBind(f), |EndBind(f)|);
    } else {
      EmitEnds(below, f.Next());
      NextCloses(f);
      var head := Opening(f) + Piece(below, f);
      if ReturnsFrom(f.scope, f.at) {
        SuffixConcat(head, Emit(below, f.Next()), |EndBind(f)|);
      } else {
        SuffixConcat(head, Emit(below, f.Next()), |Closing(f)|);
      }
    }
  }

  lemma {:induction false} NextCloses(f: Frame)
    requires f.Valid()
    ensures f.Next().Valid() ==> Closing(f.Next()) == Closing(f) && EndBind(f.Next()) == EndBind(f)
  {
  }

  // One step when the next instruction is known.
  lemma {:induction false} Step1<S(!new)>(I: Interp<S>, code: seq<Flat>, c: Config<S>)
    ensures Run(I, code, c, 1) == Step(I, code, c)
  {
    assert Run(I, code, Step(I, code, c), 0) == Step(I, code, c);
  }

  lemma {:induction false} RunZero<S(!new)>(I: Interp<S>, code: seq<Flat>, c: Config<S>)
    ensures Run(I, code, c, 0) == c
  {
  }

  // Appending a run of m steps to one of n.
  lemma {:induction false} Then<S(!new)>(I: Interp<S>, code: seq<Flat>, start: Config<S>, n: nat, mid: Config<S>,
                                         m: nat, end: Config<S>)
    requires mid == Run(I, code, start, n) && end == Run(I, code, mid, m)
    ensures end == Run(I, code, start, n + m)
  {
    RunAdd(I, code, start, n, m);
  }

  lemma {:induction false} StepThen<S(!new)>(I: Interp<S>, code: seq<Flat>, start: Config<S>, n: nat, mid: Config<S>,
                                             end: Config<S>)
    requires mid == Run(I, code, start, n) && end == Step(I, code, mid)
    ensures end == Run(I, code, start, n + 1)
  {
    Step1(I, code, mid);
    RunAdd(I, code, start, n, 1);
  }

  lemma {:induction false} JumpTo<S(!new)>(code: seq<Flat>, l: Label, k: nat, s: S, al: bool, zf: bool)
    requires UniqueBinds(code) && k < |code| && code[k] == Bind(l)
    ensures Goto(code, l, s, al, zf) == Running(k, s, al, zf)
  {
    PositionIs(code, l, 0, k);
  }

  // A `return`: the value is stored, every open scope destroyed, the exit reached.
  lemma {:induction false} SimReturn<S(!new)>(I: Interp<S>, code: seq<Flat>, below: seq<Frame>, f: Frame, ex: nat,
                           pc: nat, s: S, al: bool, zf: bool) returns (n: nat, c: Config<S>)
    requires f.Valid() && f.at < |f.scope.instrs| && f.scope.instrs[f.at].Return?
    requires UniqueBinds(code) && ex < |code| && code[ex] == Bind(Exit)
    requires CodeAt(code, pc, ReturnCode(below, f, f.scope.instrs[f.at].v))
    ensures c == Run(I, code, Running(pc, s, al, zf), n)
    ensures var v := f.scope.instrs[f.at].v;
            var stored := if v == None then Some(s) else I.store(v.value, s);
            if stored == None then c.Fault?
            else c.Running? && c.pc == ex &&
                 c.s == UnwindFrames(I, below, Destroyed(I, f.path, f.scope, f.at, stored.value))
  {
    hide CodeAt, UniqueBinds, Run, Step, UnwindFrames, UnwindCode, StoreCode, EndBind, DestroyVars, Dying;
    var v := f.scope.instrs[f.at].v;
    var start := Running(pc, s, al, zf);
    var store, unwind := StoreCode(v), UnwindCode(below + [f]);
    assert ReturnCode(below, f, v) == store + (unwind + ([Jmp(Exit)] + EndBind(f)));
    CodeAtSplit(code, pc, store, unwind + ([Jmp(Exit)] + EndBind(f)));
    CodeAtSplit(code, pc + |store|, unwind, [Jmp(Exit)] + EndBind(f));
    CodeAtIndex(code, pc + |store| + |unwind|, [Jmp(Exit)] + EndBind(f), 0);
    n, c := StepStore(I, code, pc, v, s, al, zf);
    if c.Fault? { return; }
    var s' := c.s;
    RunUnwind(I, code, below + [f], pc + |store|, s', al, zf);
    UnwindPush(I, below, f, s');
    var mid := Running(pc + |store| + |unwind|, UnwindFrames(I, below + [f], s'), al, zf);
    Then(I, code, start, n, c, |unwind|, mid);
    c := Running(ex, mid.s, al, zf);
    StepJump(I, code, mid.pc, Exit, ex, mid.s, al, zf);
    Then(I, code, start, n + |unwind|, mid, 1, c);
    n := n + |unwind| + 1;
  }

  lemma {:induction false} StepJump<S(!new)>(I: Interp<S>, code: seq<Flat>, pc: nat, l: Label, at: nat, s: S,
                                             al: bool, zf: bool)
    requires UniqueBinds(code) && pc < |code| && code[pc] == Jmp(l) && at < |code| && code[at] == Bind(l)
    ensures Run(I, code, Running(pc, s, al, zf), 1) == Running(at, s, al, zf)
  {
    hide UniqueBinds, Run, Position;
    JumpTo(code, l, at, s, al, zf);
    Step1(I, code, Running(pc, s, al, zf));
  }

  lemma {:induction false} StepStore<S(!new)>(I: Interp<S>, code: seq<Flat>, pc: nat, v: Option<Variable>, s: S,
                                              al: bool, zf: bool)
    returns (n: nat, c: Config<S>)
    requires CodeAt(code, pc, StoreCode(v))
    ensures c == Run(I, code, Running(pc, s, al, zf), n)
    ensures c == match if v == None then Some(s) else I.store(v.value, s)
                 case Some(s') => Running(pc + |StoreCode(v)|, s', al, zf)
                 case None => Fault
  {
    hide CodeAt, Run;
    var start := Running(pc, s, al, zf);
    n, c := 0, start;
    if v.Some? {
      CodeAtIndex(code, pc, StoreCode(v), 0);
      Step1(I, code, start);
      n, c := 1, Step(I, code, start);
    } else {
      RunZero(I, code, start);
    }
  }

  // A `break` in a loop: the scope is destroyed and the loop's end reached.
  lemma {:induction false} SimBreak<S(!new)>(I: Interp<S>, code: seq<Flat>, below: seq<Frame>, f: Frame,
                                             brk: nat, ex: nat, pc: nat, s: S, al: bool, zf: bool)
    returns (n: nat, c: Config<S>)
    requires Exits(code, below + [f], brk, ex) && InLoop(below + [f])
    requires CodeAt(code, pc, BreakCode(below, f))
    ensures c == Run(I, code, Running(pc, s, al, zf), n)
    ensures c == Running(brk, Destroyed(I, f.path, f.scope, f.at, s), al, zf)
  {
    hide CodeAt, UniqueBinds, Run, Position, UnwindFrames, InnermostLoop, DestroyVars, Dying, UnwindCode;
    var vs := Dying(f.path, f.scope, f.at);
    var l := LoopEnd(InnermostLoop(below + [f]).value);
    var start := Running(pc, s, al, zf);
    CodeAtSplit(code, pc, Destroys(f), [Jmp(l)]);
    CodeAtIndex(code, pc + |vs|, [Jmp(l)], 0);
    RunDestroys(I, code, vs, pc, s, al, zf);
    var mid := Running(pc + |vs|, DestroyVars(I, vs, s), al, zf);
    JumpTo(code, l, brk, mid.s, al, zf);
    c := Step(I, code, mid);
    StepThen(I, code, start, |vs|, mid, c);
    n := |vs| + 1;
  }

  // Testing a condition and comparing al with zero.
  lemma {:induction false} SimTest<S(!new)>(I: Interp<S>, code: seq<Flat>, pc: nat, e: Expr, rest: seq<Flat>, s: S,
                                            al: bool, zf: bool)
    returns (c: Config<S>)
    requires CodeAt(code, pc, [Test(e), CmpAl] + rest)
    ensures I.test(e, s) == None ==> c == Fault && c == Run(I, code, Running(pc, s, al, zf), 1)
    ensures I.test(e, s).Some? ==>
              c == Running(pc + 2, I.test(e, s).value.1, I.test(e, s).value.0, !I.test(e, s).value.0) &&
              c == Run(I, code, Running(pc, s, al, zf), 2)
  {
    var start := Running(pc, s, al, zf);
    CodeAtIndex(code, pc, [Test(e), CmpAl] + rest, 0);
    CodeAtIndex(code, pc, [Test(e), CmpAl] + rest, 1);
    var mid := Step(I, code, start);
    Step1(I, code, start);
    c := mid;
    if I.test(e, s).Some? {
      c := Step(I, code, mid);
      StepThen(I, code, start, 1, mid, c);
    }
  }

  // The code of a scope, from instruction f.at on, goes the way `EvalCode` tells.
  lemma {:induction false} SimFrom<S(!new)>(I: Interp<S>, code: seq<Flat>, below: seq<Frame>, f: Frame,
                                            brk: nat, ex: nat, pc: nat, s: S, al: bool, zf: bool, fuel: nat)
    returns (n: nat, c: Config<S>)
    requires f.Valid() && Exits(code, below + [f], brk, ex)
    requires Linkable(f.scope, f.at)
    requires CodeAt(code, pc, Emit(below, f))
    ensures c == Run(I, code, Running(pc, s, al, zf), n)
    ensures var r := EvalCode(I, f.path, f.scope, f.at, InLoop(below + [f]), s, fuel);
            && Lands(I, below, brk, ex, pc + |Emit(below, f)| - |Closing(f)|, fuel, r, n, c)
            && (r.Fell? ==> !ReturnsFrom(f.scope, f.at))
    decreases fuel, f.scope, |f.scope.instrs| - f.at, 6
  {
    hide CodeAt, UniqueBinds, Run, Position, UnwindFrames, InnermostLoop, DestroyVars, Dying, UnwindCode;
    hide Linkable, Piece, ReturnCode, ContinueCode, LoopCode, Emit, Opening, Closing;
    var start := Running(pc, s, al, zf);
    if f.at == |f.scope.instrs| {
      n := SimEnd(I, code, below, f, pc, s, al, zf);
      c := Running(pc + n, Destroyed(I, f.path, f.scope, f.at, s), al, zf);
      return;
    }
    var open := |Opening(f)|;
    var pc0 := pc + open;
    var mid := Running(pc0, s, al, zf);
    assert mid == Run(I, code, start, open) by {
      SimOpening(I, code, below, f, pc, s, al, zf);
    }
    if f.scope.instrs[f.at].Return? {
      ReturnAt(code, below, f, pc);
      n, c := SimReturn(I, code, below, f, ex, pc0, s, al, zf);
    } else {
      InstrAt(code, below, f, pc);
      n, c := SimInstr(I, code, below, f, brk, ex, pc0, s, al, zf, fuel);
    }
    Then(I, code, start, open, mid, n, c);
    n := n + open;
  }

  lemma {:induction false} ReturnAt(code: seq<Flat>, below: seq<Frame>, f: Frame, pc: nat)
    requires f.Valid() && f.at < |f.scope.instrs| && f.scope.instrs[f.at].Return? && CodeAt(code, pc, Emit(below, f))
    ensures CodeAt(code, pc + |Opening(f)|, ReturnCode(below, f, f.scope.instrs[f.at].v))
  {
    hide CodeAt, ReturnCode, Opening;
    CodeAtSplit(code, pc, Opening(f), ReturnCode(below, f, f.scope.instrs[f.at].v));
  }

  lemma {:induction false} InstrAt(code: seq<Flat>, below: seq<Frame>, f: Frame, pc: nat)
    requires f.Valid() && f.at < |f.scope.instrs| && !f.scope.instrs[f.at].Return? && CodeAt(code, pc, Emit(below, f))
    ensures var pc0 := pc + |Opening(f)|;
            && CodeAt(code, pc0, Piece(below, f)) && CodeAt(code, pc0 + |Piece(below, f)|, Emit(below, f.Next()))
            && pc + |Emit(below, f)| == pc0 + |Piece(below, f)| + |Emit(below, f.Next())|
  {
    EmitParts(below, f);
    hide *;
    CodeAtParts(code, pc, Opening(f), Piece(below, f), Emit(below, f.Next()));
  }

  lemma {:induction false} EmitParts(below: seq<Frame>, f: Frame)
    requires f.Valid() && f.at < |f.scope.instrs| && !f.scope.instrs[f.at].Return?
    ensures Emit(below, f) == Opening(f) + Piece(below, f) + Emit(below, f.Next())
  {
    hide Piece, Opening;
  }

  lemma {:induction false} CodeAtParts(code: seq<Flat>, pc: nat, a: seq<Flat>, b: seq<Flat>, c: seq<Flat>)
    requires CodeAt(code, pc, a + b + c)
    ensures CodeAt(code, pc, a) && CodeAt(code, pc + |a|, b) && CodeAt(code, pc + |a| + |b|, c)
  {
    hide CodeAt;
    CodeAtSplit(code, pc, a + b, c);
    CodeAtSplit(code, pc, a, b);
  }

  // The end of a scope destroys what it has constructed.
  lemma {:induction false} SimEnd<S(!new)>(I: Interp<S>, code: seq<Flat>, below: seq<Frame>, f: Frame,
                                           pc: nat, s: S, al: bool, zf: bool)
    returns (n: nat)
    requires f.Valid() && f.at == |f.scope.instrs| && CodeAt(code, pc, Emit(below, f))
    ensures n == |Emit(below, f)| - |Closing(f)|
    ensures Run(I, code, Running(pc, s, al, zf), n) ==
            Running(pc + n, Destroyed(I, f.path, f.scope, f.at, s), al, zf)
  {
    hide CodeAt, Run, DestroyVars, Dying, Closing;
    CodeAtSplit(code, pc, Destroys(f), Closing(f));
    var vs := Dying(f.path, f.scope, f.at);
    RunDestroys(I, code, vs, pc, s, al, zf);
    n := |vs|;
  }

  lemma {:induction false} SimOpening<S(!new)>(I: Interp<S>, code: seq<Flat>, below: seq<Frame>, f: Frame, pc: nat,
                                               s: S, al: bool, zf: bool)
    requires f.Valid() && f.at < |f.scope.instrs| && CodeAt(code, pc, Emit(below, f))
    ensures Run(I, code, Running(pc, s, al, zf), |Opening(f)|) == Running(pc + |Opening(f)|, s, al, zf)
  {
    if Opening(f) != [] {
      CodeAtIndex(code, pc, Emit(below, f), 0);
      Step1(I, code, Running(pc, s, al, zf));
    }
  }

  lemma {:induction false} StepDo<S(!new)>(I: Interp<S>, code: seq<Flat>, pc: nat, op: Op, s: S, al: bool, zf: bool)
    requires CodeAt(code, pc, [Do(op)])
    ensures Run(I, code, Running(pc, s, al, zf), 1) ==
            match I.exec(op, s) case Some(s') => Running(pc + 1, s', al, zf) case None => Fault
  {
    CodeAtIndex(code, pc, [Do(op)], 0);
    Step1(I, code, Running(pc, s, al, zf));
  }

  // One instruction that is not a `return`, and the rest of its scope.
  lemma {:induction false} SimInstr<S(!new)>(I: Interp<S>, code: seq<Flat>, below: seq<Frame>, f: Frame,
                                             brk: nat, ex: nat, pc: nat, s: S, al: bool, zf: bool, fuel: nat)
    returns (n: nat, c: Config<S>)
    requires f.Valid() && Exits(code, below + [f], brk, ex)
    requires f.at < |f.scope.instrs| && !f.scope.instrs[f.at].Return?
    requires Linkable(f.scope, f.at)
    requires CodeAt(code, pc, Piece(below, f)) && CodeAt(code, pc + |Piece(below, f)|, Emit(below, f.Next()))
    ensures c == Run(I, code, Running(pc, s, al, zf), n)
    ensures var r := EvalCode(I, f.path, f.scope, f.at, InLoop(below + [f]), s, fuel);
            var fin := pc + |Piece(below, f)| + |Emit(below, f.Next())| - |Closing(f)|;
            && Lands(I, below, brk, ex, fin, fuel, r, n, c)
            && (r.Fell? ==> !ReturnsFrom(f.scope, f.at))
    decreases fuel, f.scope, |f.scope.instrs| - f.at, 5
  {
    hide CodeAt, UniqueBinds, Run, Position, UnwindFrames, InnermostLoop, DestroyVars, Dying, UnwindCode;
    hide ContinueCode, LoopCode, Opening, Closing, Destroys, ReturnCode;
    var start := Running(pc, s, al, zf);
    var pc1 := pc + |Piece(below, f)|;
    LoopNext(below, f, f.at + 1);
    NextCloses(f);
    match f.scope.instrs[f.at] {
      case Declare(_) =>
        n, c := SimFrom(I, code, below, f.Next(), brk, ex, pc1, s, al, zf, fuel);
      case Effect(op) =>
        assert Piece(below, f) == [Do(op)];
        StepDo(I, code, pc, op, s, al, zf);
        if I.exec(op, s) == None { n, c := 1, Fault; return; }
        var mid := Running(pc1, I.exec(op, s).value, al, zf);
        n, c := SimFrom(I, code, below, f.Next(), brk, ex, pc1, mid.s, al, zf, fuel);
        Then(I, code, start, 1, mid, n, c);
        n := n + 1;
      case Break =>
        if InLoop(below + [f]) {
          n, c := SimBreak(I, code, below, f, brk, ex, pc, s, al, zf);
        } else {
          n, c := SimFrom(I, code, below, f.Next(), brk, ex, pc1, s, al, zf, fuel);
        }
      case Nested(_) =>
        n, c := SimBody(I, code, below, f, brk, ex, pc, s, al, zf, fuel);
      case Branch(_, _) =>
        n, c := SimBranch(I, code, below, f, brk, ex, pc, s, al, zf, fuel);
      case PrimitiveConvert =>
        n, c := SimFrom(I, code, below, f.Next(), brk, ex, pc1, s, al, zf, fuel);
    }
  }

  lemma {:induction false} SimBranch<S(!new)>(I: Interp<S>, code: seq<Flat>, below: seq<Frame>, f: Frame,
                                              brk: nat, ex: nat, pc: nat, s: S, al: bool, zf: bool, fuel: nat)
    returns (n: nat, c: Config<S>)
    requires f.Valid() && Exits(code, below + [f], brk, ex)
    requires f.at < |f.scope.instrs| && f.scope.instrs[f.at].Branch?
    requires Linkable(f.scope, f.at)
    requires CodeAt(code, pc, Piece(below, f)) && CodeAt(code, pc + |Piece(below, f)|, Emit(below, f.Next()))
    ensures c == Run(I, code, Running(pc, s, al, zf), n)
    ensures var r := EvalCode(I, f.path, f.scope, f.at, InLoop(below + [f]), s, fuel);
            var fin := pc + |Piece(below, f)| + |Emit(below, f.Next())| - |Closing(f)|;
            && Lands(I, below, brk, ex, fin, fuel, r, n, c)
            && (r.Fell? ==> !ReturnsFrom(f.scope, f.at))
    decreases fuel, f.scope, |f.scope.instrs| - f.at, 4
  {
    hide CodeAt, UniqueBinds, Run, Position, UnwindFrames, InnermostLoop, DestroyVars, Dying, UnwindCode;
    hide ContinueCode, LoopCode, Opening, Closing, Destroys, ReturnCode, Piece, Emit, Lands;
    var b := f.scope.instrs[f.at].scope;
    match f.scope.instrs[f.at].kind {
      case If(_) => n, c := SimIf(I, code, below, f, brk, ex, pc, s, al, zf, fuel);
      case Else => n, c := SimBody(I, code, below, f, brk, ex, pc, s, al, zf, fuel);
      case While(_) =>
        if ReturnsFrom(b, 0) {
          n, c := SimSkip(I, code, below, f, brk, ex, pc, s, al, zf, fuel);
        } else {
          n, c := SimWhile(I, code, below, f, brk, ex, pc, s, al, zf, fuel);
        }
    }
  }

  // A loop that is stepped over, and the rest of its scope.
  lemma {:induction false} SimSkip<S(!new)>(I: Interp<S>, code: seq<Flat>, below: seq<Frame>, f: Frame,
                                            brk: nat, ex: nat, pc: nat, s: S, al: bool, zf: bool, fuel: nat)
    returns (n: nat, c: Config<S>)
    requires f.Valid() && Exits(code, below + [f], brk, ex)
    requires f.at < |f.scope.instrs| && f.scope.instrs[f.at].Branch? && f.scope.instrs[f.at].kind.While?
    requires Linkable(f.scope, f.at) && ReturnsFrom(f.scope.instrs[f.at].scope, 0)
    requires CodeAt(code, pc, Piece(below, f)) && CodeAt(code, pc + |Piece(below, f)|, Emit(below, f.Next()))
    ensures c == Run(I, code, Running(pc, s, al, zf), n)
    ensures var r := EvalCode(I, f.path, f.scope, f.at, InLoop(below + [f]), s, fuel);
            var fin := pc + |Piece(below, f)| + |Emit(below, f.Next())| - |Closing(f)|;
            && Lands(I, below, brk, ex, fin, fuel, r, n, c)
            && (r.Fell? ==> !ReturnsFrom(f.scope, f.at))
    decreases fuel, f.scope, |f.scope.instrs| - f.at, 3
  {
    hide CodeAt, UniqueBinds, Run, Position, UnwindFrames, InnermostLoop, DestroyVars, Dying, UnwindCode;
    hide ContinueCode, LoopCode, Opening, Closing, Destroys, ReturnCode, Piece, Emit;
    var start := Running(pc, s, al, zf);
    var pc1 := pc + |Piece(below, f)|;
    LoopNext(below, f, f.at + 1);
    NextCloses(f);
    SkipLoop(I, code, below, f, pc, s, al, zf);
    n, c := SimFrom(I, code, below, f.Next(), brk, ex, pc1, s, al, zf, fuel);
    Then(I, code, start, 2, Running(pc1, s, al, zf), n, c);
    n := n + 2;
  }

  // After a body opened at f.at ended with outcome r, the scope goes on at
  // index `next` or is left in its turn.
  lemma {:induction false} SimContinue<S(!new)>(I: Interp<S>, code: seq<Flat>, below: seq<Frame>, f: Frame, next: nat,
                             brk: nat, ex: nat, pc: nat, start: Config<S>, n0: nat, c0: Config<S>,
                             r: Outcome<S>, fuel: nat) returns (n: nat, c: Config<S>)
    requires f.Valid() && Exits(code, below + [f], brk, ex)
    requires f.at < next <= |f.scope.instrs| && !f.scope.instrs[f.at].Declare?
    requires Linkable(f.scope, next)
    requires r.Fell? || r.Broke? || r.Returned? ==> r.fuel <= fuel
    requires r.Broke? ==> InLoop(below + [f])
    requires ReturnsFrom(f.scope, f.at) ==> ReturnsFrom(f.scope, next)
    requires CodeAt(code, pc, Emit(below, f.(at := next)))
    requires c0 == Run(I, code, start, n0) && Lands(I, below + [f], brk, ex, pc, fuel, r, n0, c0)
    ensures c == Run(I, code, start, n)
    ensures var r' := ContinueCode(I, f.path, f.scope, f.at, next, InLoop(below + [f]), r, fuel);
            && Lands(I, below, brk, ex, pc + |Emit(below, f.(at := next))| - |Closing(f)|, fuel, r', n, c)
            && (r'.Fell? ==> !ReturnsFrom(f.scope, f.at))
    decreases fuel, f.scope, |f.scope.instrs| - f.at, 0
  {
    hide CodeAt, UniqueBinds, Run, InnermostLoop, Emit, EvalCode, Opening, Destroys, Piece, Linkable, ReturnsFrom;
    hide UnwindFrames, DestroyVars, Dying;
    n, c := n0, c0;
    match r {
      case Fell(s, left) =>
        LoopNext(below, f, next);
        n, c := SimFrom(I, code, below, f.(at := next), brk, ex, pc, s, c0.al, c0.zf, left);
        Then(I, code, start, n0, c0, n, c);
        n := n0 + n;
      case Returned(s, _) =>
        UnwindPush(I, below, f, s);
      case _ =>
    }
  }

  // Falling off the end of an `else` body, or of an `if` body with no `else`.
  lemma {:induction false} PastEnd<S(!new)>(I: Interp<S>, code: seq<Flat>, below: seq<Frame>, f: Frame, pc: nat,
                         start: Config<S>, n0: nat, c0: Config<S>) returns (n: nat, c: Config<S>)
    requires f.Valid() && f.at < |f.scope.instrs| && f.scope.instrs[f.at].Branch?
    requires Closing(f.Sub()) == [Bind(End(f.path + [f.at]))]
    requires CodeAt(code, pc, Emit(below + [f], f.Sub())) && !ReturnsFrom(f.Sub().scope, 0)
    requires c0 == Run(I, code, start, n0)
    requires c0.Running? && c0.pc == pc + |Emit(below + [f], f.Sub())| - |Closing(f.Sub())|
    ensures c == Run(I, code, start, n) && n > n0
    ensures c == c0.(pc := pc + |Emit(below + [f], f.Sub())|)
  {
    hide CodeAt, UniqueBinds, Run, Position, UnwindFrames, InnermostLoop, DestroyVars, Dying, UnwindCode, Emit;
    var body := Emit(below + [f], f.Sub());
    EmitEnds(below + [f], f.Sub());
    assert body[|body| - 1] == Suffix(body, 1)[0];
    CodeAtIndex(code, pc, body, |body| - 1);
    c := Step(I, code, c0);
    StepThen(I, code, start, n0, c0, c);
    n := n0 + 1;
  }

  // The end label of a branch body whose closing code binds it last.
  lemma {:induction false} EndIsLast(below: seq<Frame>, f: Frame)
    requires f.Valid() && f.at < |f.scope.instrs| && f.scope.instrs[f.at].Branch?
    requires Closing(f.Sub()) == [Bind(End(f.path + [f.at]))]
    ensures var body := Emit(below + [f], f.Sub());
            body != [] && body[|body| - 1] == Bind(End(f.path + [f.at]))
  {
    hide Emit;
    var body := Emit(below + [f], f.Sub());
    EmitEnds(below + [f], f.Sub());
    assert body[|body| - 1] == Suffix(body, 1)[0];
  }

  // A branch body that is not empty starts with its begin label.
  lemma {:induction false} BeginIsFirst(below: seq<Frame>, f: Frame)
    requires f.Valid() && f.at < |f.scope.instrs| && f.scope.instrs[f.at].Branch?
    requires f.scope.instrs[f.at].scope.instrs != []
    ensures var body := Emit(below + [f], f.Sub());
            body != [] && body[0] == Bind(Begin(f.path + [f.at]))
  {
  }

  lemma {:induction false} NestedCloses(f: Frame)
    requires f.at < |f.scope.instrs| && f.scope.instrs[f.at].Nested?
    ensures Closing(f.Sub()) == []
  {
  }

  // An instruction after the first, and what follows it.
  lemma {:induction false} EmitOne(below: seq<Frame>, f: Frame)
    requires f.Valid() && 0 < f.at < |f.scope.instrs| && !f.scope.instrs[f.at].Return?
    ensures Emit(below, f) == Piece(below, f) + Emit(below, f.Next())
  {
  }

  lemma {:induction false} ElseBegins(below: seq<Frame>, f: Frame)
    requires f.Valid() && 0 < f.at < |f.scope.instrs| && f.scope.instrs[f.at].Branch? && f.scope.instrs[f.at].kind.Else?
    requires f.scope.instrs[f.at].scope.instrs != []
    ensures Emit(below, f) != [] && Emit(below, f)[0] == Bind(Begin(f.path + [f.at]))
  {
    BeginIsFirst(below, f);
    EmitOne(below, f);
    assert Piece(below, f) == Emit(below + [f], f.Sub());
  }

  // The closing code of the body opened at f.at.
  lemma {:induction false} SubCloses(f: Frame)
    requires f.at < |f.scope.instrs| && f.scope.instrs[f.at].Branch?
    ensures f.Sub().Valid()
    ensures var q := f.path + [f.at];
            Closing(f.Sub()) ==
            match f.scope.instrs[f.at].kind
            case Else => [Bind(End(q))]
            case If(_) =>
              if ElseFollows(f.scope, f.at) then [Bind(End(q)), Jmp(End(f.path + [f.at + 1]))] else [Bind(End(q))]
            case While(e) => [Bind(End(q)), Test(e), CmpAl, Jne(Begin(q)), Bind(LoopEnd(q))]
  {
    assert (f.path + [f.at])[..|f.path|] == f.path;
  }

  // A nested scope, or an `else` body, and the rest of the scope.
  lemma {:induction false} SimBody<S(!new)>(I: Interp<S>, code: seq<Flat>, below: seq<Frame>, f: Frame,
                                            brk: nat, ex: nat, pc: nat, s: S, al: bool, zf: bool, fuel: nat)
    returns (n: nat, c: Config<S>)
    requires f.Valid() && Exits(code, below + [f], brk, ex)
    requires f.at < |f.scope.instrs| &&
             (f.scope.instrs[f.at].Nested? || (f.scope.instrs[f.at].Branch? && f.scope.instrs[f.at].kind.Else?))
    requires Linkable(f.scope, f.at)
    requires CodeAt(code, pc, Piece(below, f)) && CodeAt(code, pc + |Piece(below, f)|, Emit(below, f.Next()))
    ensures c == Run(I, code, Running(pc, s, al, zf), n)
    ensures var r := EvalCode(I, f.path, f.scope, f.at, InLoop(below + [f]), s, fuel);
            var fin := pc + |Piece(below, f)| + |Emit(below, f.Next())| - |Closing(f)|;
            && Lands(I, below, brk, ex, fin, fuel, r, n, c)
            && (r.Fell? ==> !ReturnsFrom(f.scope, f.at))
    decreases fuel, f.scope, |f.scope.instrs| - f.at, 3
  {
    hide CodeAt, UniqueBinds, Run, UnwindFrames, InnermostLoop, DestroyVars, Dying, UnwindCode, ContinueCode, LoopCode;
    hide Opening, Closing, Destroys, Emit;
    var start := Running(pc, s, al, zf);
    var b := f.scope.instrs[f.at].scope;
    LoopPush(below, f, f.Sub());
    assert Piece(below, f) == Emit(below + [f], f.Sub());
    n, c := SimFrom(I, code, below + [f], f.Sub(), brk, ex, pc, s, al, zf, fuel);
    var r := EvalCode(I, f.path + [f.at], b, 0, InLoop(below + [f]), s, fuel);
    if f.scope.instrs[f.at].Nested? {
      NestedCloses(f);
    } else {
      SubCloses(f);
      if r.Fell? { n, c := PastEnd(I, code, below, f, pc, start, n, c); }
    }
    n, c := SimContinue(I, code, below, f, f.at + 1, brk, ex, pc + |Piece(below, f)|, start, n, c, r, fuel);
  }

  // An `if`, with or without an `else`, and the rest of its scope.
  lemma {:induction false} SimIf<S(!new)>(I: Interp<S>, code: seq<Flat>, below: seq<Frame>, f: Frame, brk: nat, ex: nat,
                       pc: nat, s: S, al: bool, zf: bool, fuel: nat) returns (n: nat, c: Config<S>)
    requires f.Valid() && Exits(code, below + [f], brk, ex)
    requires f.at < |f.scope.instrs| && f.scope.instrs[f.at].Branch? && f.scope.instrs[f.at].kind.If?
    requires Linkable(f.scope, f.at)
    requires CodeAt(code, pc, Piece(below, f)) && CodeAt(code, pc + |Piece(below, f)|, Emit(below, f.Next()))
    ensures c == Run(I, code, Running(pc, s, al, zf), n)
    ensures var r := EvalCode(I, f.path, f.scope, f.at, InLoop(below + [f]), s, fuel);
            var fin := pc + |Piece(below, f)| + |Emit(below, f.Next())| - |Closing(f)|;
            && Lands(I, below, brk, ex, fin, fuel, r, n, c)
            && (r.Fell? ==> !ReturnsFrom(f.scope, f.at))
    decreases fuel, f.scope, |f.scope.instrs| - f.at, 3
  {
    hide CodeAt, UniqueBinds, Run, Position, UnwindFrames, InnermostLoop, DestroyVars, Dying, UnwindCode, Emit;
    hide LoopCode, Opening, Closing, Destroys, ReturnCode, Linkable, ContinueCode;
    var e, b := f.scope.instrs[f.at].kind.cond, f.scope.instrs[f.at].scope;
    var start := Running(pc, s, al, zf);
    var target := IfTarget(f);
    var body := Emit(below + [f], f.Sub());
    assert Head(f) == [Test(e), CmpAl] + [Je(target)];
    CodeAtSplit(code, pc, Head(f), body);
    CodeAtIndex(code, pc, Head(f), 2);
    c := SimTest(I, code, pc, e, [Je(target)], s, al, zf);
    if c.Fault? { n := 1; return; }
    var mid := c;
    c := Step(I, code, mid);
    StepThen(I, code, start, 2, mid, c);
    if mid.al {
      n, c := SimIfTaken(I, code, below, f, brk, ex, pc + 3, start, c, fuel);
    } else {
      n, c := SimIfNot(I, code, below, f, brk, ex, pc + 3, start, c, fuel);
    }
  }

  // Where an `if` jumps when its condition is false.
  function IfTarget(f: Frame): Label {
    if ElseFollows(f.scope, f.at) then Begin(f.path + [f.at + 1]) else End(f.path + [f.at])
  }

  lemma {:induction false} SimIfTaken<S(!new)>(I: Interp<S>, code: seq<Flat>, below: seq<Frame>, f: Frame,
                                               brk: nat, ex: nat, pc: nat, start: Config<S>, c0: Config<S>, fuel: nat)
    returns (n: nat, c: Config<S>)
    requires f.Valid() && Exits(code, below + [f], brk, ex)
    requires f.at < |f.scope.instrs| && f.scope.instrs[f.at].Branch? && f.scope.instrs[f.at].kind.If?
    requires Linkable(f.scope, f.at)
    requires var body := Emit(below + [f], f.Sub());
             CodeAt(code, pc, body) && CodeAt(code, pc + |body|, Emit(below, f.Next()))
    requires c0.Running? && c0.pc == pc && c0 == Run(I, code, start, 3)
    ensures c == Run(I, code, start, n)
    ensures var r := EvalCode(I, f.path + [f.at], f.scope.instrs[f.at].scope, 0, InLoop(below + [f]), c0.s, fuel);
            var r' := ContinueCode(I, f.path, f.scope, f.at, AfterIf(f.scope, f.at), InLoop(below + [f]), r, fuel);
            var fin := pc + |Emit(below + [f], f.Sub())| + |Emit(below, f.Next())| - |Closing(f)|;
            && Lands(I, below, brk, ex, fin, fuel, r', n, c)
            && (r'.Fell? ==> !ReturnsFrom(f.scope, f.at))
    decreases fuel, f.scope, |f.scope.instrs| - f.at, 2
  {
    hide CodeAt, UniqueBinds, Run, Position, UnwindFrames, InnermostLoop, DestroyVars, Dying, UnwindCode, Emit;
    hide LoopCode, Opening, Closing, Destroys, ReturnCode, ContinueCode, EvalCode;
    var pc1 := pc + |Emit(below + [f], f.Sub())|;
    LoopPush(below, f, f.Sub());
    SubCloses(f);
    n, c := SimFrom(I, code, below + [f], f.Sub(), brk, ex, pc, c0.s, c0.al, c0.zf, fuel);
    Then(I, code, start, 3, c0, n, c);
    n := n + 3;
    var r := EvalCode(I, f.path + [f.at], f.scope.instrs[f.at].scope, 0, InLoop(below + [f]), c0.s, fuel);
    if ElseFollows(f.scope, f.at) {
      n, c := SimSkipElse(I, code, below, f, brk, ex, pc1, start, n, c, r, fuel);
    } else {
      if r.Fell? { n, c := PastEnd(I, code, below, f, pc, start, n, c); }
      n, c := SimContinue(I, code, below, f, f.at + 1, brk, ex, pc1, start, n, c, r, fuel);
    }
  }

  lemma {:induction false} SimIfNot<S(!new)>(I: Interp<S>, code: seq<Flat>, below: seq<Frame>, f: Frame,
                                             brk: nat, ex: nat, pc: nat, start: Config<S>, c0: Config<S>, fuel: nat)
    returns (n: nat, c: Config<S>)
    requires f.Valid() && Exits(code, below + [f], brk, ex)
    requires f.at < |f.scope.instrs| && f.scope.instrs[f.at].Branch? && f.scope.instrs[f.at].kind.If?
    requires Linkable(f.scope, f.at)
    requires var body := Emit(below + [f], f.Sub());
             CodeAt(code, pc, body) && CodeAt(code, pc + |body|, Emit(below, f.Next()))
    requires exists s, al, zf :: c0 == Goto(code, IfTarget(f), s, al, zf)
    requires c0 == Run(I, code, start, 3)
    ensures c0.Running? && c == Run(I, code, start, n)
    ensures var r := EvalCode(I, f.path, f.scope, f.at + 1, InLoop(below + [f]), c0.s, fuel);
            var fin := pc + |Emit(below + [f], f.Sub())| + |Emit(below, f.Next())| - |Closing(f)|;
            && Lands(I, below, brk, ex, fin, fuel, r, n, c)
            && (r.Fell? ==> !ReturnsFrom(f.scope, f.at))
    decreases fuel, f.scope, |f.scope.instrs| - f.at, 2
  {
    hide CodeAt, UniqueBinds, Run, Position, UnwindFrames, InnermostLoop, DestroyVars, Dying, UnwindCode, Emit;
    hide LoopCode, Opening, Closing, Destroys, ReturnCode, ContinueCode, EvalCode, Goto;
    var s, al, zf :| c0 == Goto(code, IfTarget(f), s, al, zf);
    var body := Emit(below + [f], f.Sub());
    var pc1 := pc + |body|;
    LoopNext(below, f, f.at + 1);
    NextCloses(f);
    SubCloses(f);
    n, c := 3, c0;
    if ElseFollows(f.scope, f.at) {
      ElseBegins(below, f.Next());
      CodeAtIndex(code, pc1, Emit(below, f.Next()), 0);
      JumpTo(code, IfTarget(f), pc1, s, al, zf);
    } else {
      EndIsLast(below, f);
      CodeAtIndex(code, pc, body, |body| - 1);
      JumpTo(code, IfTarget(f), pc1 - 1, s, al, zf);
      c := Step(I, code, c0);
      StepThen(I, code, start, 3, c0, c);
      n := 4;
    }
    var inner, m := c, n;
    m, c := SimFrom(I, code, below, f.Next(), brk, ex, pc1, inner.s, inner.al, inner.zf, fuel);
    Then(I, code, start, n, inner, m, c);
    n := n + m;
  }

  // After an `if` body whose `else` must be skipped.
  lemma {:induction false} SimSkipElse<S(!new)>(I: Interp<S>, code: seq<Flat>, below: seq<Frame>, f: Frame, brk: nat,
                                                ex: nat,
                             pc1: nat, start: Config<S>, n0: nat, c0: Config<S>, r: Outcome<S>, fuel: nat)
    returns (n: nat, c: Config<S>)
    requires f.Valid() && Exits(code, below + [f], brk, ex)
    requires f.at < |f.scope.instrs| && f.scope.instrs[f.at].Branch? && f.scope.instrs[f.at].kind.If?
    requires ElseFollows(f.scope, f.at) && Linkable(f.scope, f.at)
    requires r.Fell? || r.Broke? || r.Returned? ==> r.fuel <= fuel
    requires r.Broke? ==> InLoop(below + [f])
    requires r.Fell? ==> !ReturnsFrom(f.scope.instrs[f.at].scope, 0)
    requires var body := Emit(below + [f], f.Sub());
             && |body| <= pc1 && CodeAt(code, pc1 - |body|, body) && CodeAt(code, pc1, Emit(below, f.Next()))
             && c0 == Run(I, code, start, n0)
             && Lands(I, below + [f], brk, ex, pc1 - |Closing(f.Sub())|, fuel, r, n0, c0)
    ensures c == Run(I, code, start, n)
    ensures var r' := ContinueCode(I, f.path, f.scope, f.at, f.at + 2, InLoop(below + [f]), r, fuel);
            && Lands(I, below, brk, ex, pc1 + |Emit(below, f.Next())| - |Closing(f)|, fuel, r', n, c)
            && (r'.Fell? ==> !ReturnsFrom(f.scope, f.at))
    decreases fuel, f.scope, |f.scope.instrs| - f.at, 1
  {
    hide CodeAt, UniqueBinds, Run, Position, UnwindFrames, InnermostLoop, DestroyVars, Dying, UnwindCode, Emit;
    hide LoopCode, Opening, Closing, Destroys, ReturnCode, ContinueCode, EvalCode, Piece;
    var g := f.Next();
    var pc2 := pc1 + |Piece(below, g)|;
    EmitOne(below, g);
    assert ReturnsFrom(f.scope, f.at) == ReturnsFrom(f.scope, f.at + 1) == ReturnsFrom(f.scope, f.at + 2);
    assert Linkable(f.scope, f.at + 1);
    CodeAtSplit(code, pc1, Piece(below, g), Emit(below, f.(at := f.at + 2)));
    n, c := n0, c0;
    if r.Fell? {
      n, c := SkipElse(I, code, below, f, pc1, start, n0, c0);
    }
    n, c := SimContinue(I, code, below, f, f.at + 2, brk, ex, pc2, start, n, c, r, fuel);
  }

  // The last two instructions of an `if` body with an `else`, and the last of the `else`.
  lemma {:induction false} ElseLabels(code: seq<Flat>, below: seq<Frame>, f: Frame, pc1: nat)
    requires f.Valid() && f.at < |f.scope.instrs| && f.scope.instrs[f.at].Branch? && f.scope.instrs[f.at].kind.If?
    requires ElseFollows(f.scope, f.at) && !ReturnsFrom(f.scope.instrs[f.at].scope, 0)
    requires var body := Emit(below + [f], f.Sub());
             |body| <= pc1 && CodeAt(code, pc1 - |body|, body) && CodeAt(code, pc1, Piece(below, f.Next()))
    ensures var pc2 := pc1 + |Piece(below, f.Next())|;
            && 2 <= pc1 < pc2 <= |code|
            && code[pc1 - 2] == Bind(End(f.path + [f.at])) && code[pc1 - 1] == Jmp(End(f.path + [f.at + 1]))
            && code[pc2 - 1] == Bind(End(f.path + [f.at + 1]))
  {
    hide CodeAt, Emit, Piece, Opening, Closing;
    BodyThenJump(below, f);
    var body := Emit(below + [f], f.Sub());
    CodeAtIndex(code, pc1 - |body|, body, |body| - 2);
    CodeAtIndex(code, pc1 - |body|, body, |body| - 1);
    ElsePiece(below, f.Next());
    var skipped := Piece(below, f.Next());
    CodeAtIndex(code, pc1, skipped, |skipped| - 1);
  }

  lemma {:induction false} BodyThenJump(below: seq<Frame>, f: Frame)
    requires f.Valid() && f.at < |f.scope.instrs| && f.scope.instrs[f.at].Branch? && f.scope.instrs[f.at].kind.If?
    requires ElseFollows(f.scope, f.at) && !ReturnsFrom(f.scope.instrs[f.at].scope, 0)
    ensures var body := Emit(below + [f], f.Sub());
            && 2 <= |body| && body[|body| - 2] == Bind(End(f.path + [f.at]))
            && body[|body| - 1] == Jmp(End(f.path + [f.at + 1]))
  {
    hide Emit, Opening;
    var body := Emit(below + [f], f.Sub());
    EmitEnds(below + [f], f.Sub());
    SubCloses(f);
    SuffixIndex(body, 2, 0);
    SuffixIndex(body, 2, 1);
  }

  lemma {:induction false} ElsePiece(below: seq<Frame>, g: Frame)
    requires g.Valid() && g.at < |g.scope.instrs| && g.scope.instrs[g.at].Branch? && g.scope.instrs[g.at].kind.Else?
    ensures Piece(below, g) != [] && Piece(below, g)[|Piece(below, g)| - 1] == Bind(End(g.path + [g.at]))
  {
    hide Emit;
    SubCloses(g);
    EndIsLast(below, g);
    assert Head(g) == [];
    assert Piece(below, g) == Emit(below + [g], g.Sub());
  }

  // From the end of an `if` body over its `else`.
  lemma {:induction false} SkipElse<S(!new)>(I: Interp<S>, code: seq<Flat>, below: seq<Frame>, f: Frame,
                          pc1: nat, start: Config<S>, n0: nat, c0: Config<S>) returns (n: nat, c: Config<S>)
    requires f.Valid() && UniqueBinds(code)
    requires f.at < |f.scope.instrs| && f.scope.instrs[f.at].Branch? && f.scope.instrs[f.at].kind.If?
    requires ElseFollows(f.scope, f.at) && !ReturnsFrom(f.scope.instrs[f.at].scope, 0)
    requires var body := Emit(below + [f], f.Sub());
             |body| <= pc1 && CodeAt(code, pc1 - |body|, body) && CodeAt(code, pc1, Piece(below, f.Next()))
    requires c0 == Run(I, code, start, n0) && c0.Running? && c0.pc + |Closing(f.Sub())| == pc1
    ensures c == Run(I, code, start, n) && n > n0
    ensures c == c0.(pc := pc1 + |Piece(below, f.Next())|)
  {
    hide CodeAt, UniqueBinds, Run, Position, Emit, Piece, Opening;
    ElseLabels(code, below, f, pc1);
    assert |Closing(f.Sub())| == 2;
    var pc2 := pc1 + |Piece(below, f.Next())|;
    var c1 := Step(I, code, c0);
    StepThen(I, code, start, n0, c0, c1);
    JumpTo(code, End(f.path + [f.at + 1]), pc2 - 1, c1.s, c1.al, c1.zf);
    var c2 := Step(I, code, c1);
    StepThen(I, code, start, n0 + 1, c1, c2);
    c := Step(I, code, c2);
    StepThen(I, code, start, n0 + 2, c2, c);
    n := n0 + 3;
  }

  // The code of a loop with a `return` directly in its body binds the loop's end
  // label without the condition, so the loop is stepped over.
  lemma {:induction false} SkipLoop<S(!new)>(I: Interp<S>, code: seq<Flat>, below: seq<Frame>, f: Frame, pc: nat, s: S,
                                             al: bool, zf: bool)
    requires f.Valid() && f.at < |f.scope.instrs| && f.scope.instrs[f.at].Branch? && f.scope.instrs[f.at].kind.While?
    requires ReturnsFrom(f.scope.instrs[f.at].scope, 0) && UniqueBinds(code) && CodeAt(code, pc, Piece(below, f))
    ensures Run(I, code, Running(pc, s, al, zf), 2) == Running(pc + |Piece(below, f)|, s, al, zf)
  {
    hide CodeAt, UniqueBinds, Run, Position, Emit, Opening, Closing;
    var q := f.path + [f.at];
    var body := Emit(below + [f], f.Sub());
    EmitEnds(below + [f], f.Sub());
    assert EndBind(f.Sub()) == [Bind(End(q))];
    SuffixIndex(body, 1, 0);
    CodeAtSplit(code, pc, [Jmp(End(q))], body);
    CodeAtIndex(code, pc, [Jmp(End(q))], 0);
    CodeAtIndex(code, pc + 1, body, |body| - 1);
    var start := Running(pc, s, al, zf);
    JumpTo(code, End(q), pc + |body|, s, al, zf);
    var mid := Step(I, code, start);
    Step1(I, code, start);
    StepThen(I, code, start, 1, mid, Step(I, code, mid));
  }

  // A `while` and the rest of its scope.
  lemma {:induction false} SimWhile<S(!new)>(I: Interp<S>, code: seq<Flat>, below: seq<Frame>, f: Frame,
                                             brk: nat, ex: nat, pc: nat, s: S, al: bool, zf: bool, fuel: nat)
    returns (n: nat, c: Config<S>)
    requires f.Valid() && Exits(code, below + [f], brk, ex)
    requires f.at < |f.scope.instrs| && f.scope.instrs[f.at].Branch? && f.scope.instrs[f.at].kind.While?
    requires Linkable(f.scope, f.at) && !ReturnsFrom(f.scope.instrs[f.at].scope, 0)
    requires CodeAt(code, pc, Piece(below, f)) && CodeAt(code, pc + |Piece(below, f)|, Emit(below, f.Next()))
    ensures c == Run(I, code, Running(pc, s, al, zf), n)
    ensures var r := EvalCode(I, f.path, f.scope, f.at, InLoop(below + [f]), s, fuel);
            var fin := pc + |Piece(below, f)| + |Emit(below, f.Next())| - |Closing(f)|;
            && Lands(I, below, brk, ex, fin, fuel, r, n, c)
            && (r.Fell? ==> !ReturnsFrom(f.scope, f.at))
    decreases fuel, f.scope, |f.scope.instrs| - f.at, 3
  {
    hide CodeAt, UniqueBinds, Run, Position, UnwindFrames, InnermostLoop, DestroyVars, Dying, UnwindCode, Emit;
    hide ContinueCode, LoopCode, Opening, Closing, Destroys, ReturnCode;
    var start := Running(pc, s, al, zf);
    var q := f.path + [f.at];
    var e, b := f.scope.instrs[f.at].kind.cond, f.scope.instrs[f.at].scope;
    var body := Emit(below + [f], f.Sub());
    CodeAtSplit(code, pc, [Jmp(End(q))], body);
    StepToCondition(I, code, below, f, pc, s, al, zf);
    var mid := Running(pc + 1 + |body| - 5, s, al, zf);
    n, c := SimLoop(I, code, below, f, brk, ex, pc + 1, s, al, zf, fuel);
    Then(I, code, start, 1, mid, n, c);
    n := n + 1;
    var r := LoopCode(I, q, e, b, s, fuel);
    n, c := SimContinue(I, code, below, f, f.at + 1, brk, ex, pc + 1 + |body|, start, n, c, r, fuel);
  }

  // The last five instructions of a loop's code, and its first.
  lemma {:induction false} LoopLabels(code: seq<Flat>, below: seq<Frame>, f: Frame, pc: nat)
    requires f.Valid() && f.at < |f.scope.instrs| && f.scope.instrs[f.at].Branch? && f.scope.instrs[f.at].kind.While?
    requires f.scope.instrs[f.at].scope.instrs != [] && !ReturnsFrom(f.scope.instrs[f.at].scope, 0)
    requires CodeAt(code, pc, Emit(below + [f], f.Sub()))
    ensures var q := f.path + [f.at];
            var top := pc + |Emit(below + [f], f.Sub())|;
            && pc + 5 <= top <= |code|
            && code[pc] == Bind(Begin(q)) && code[top - 5] == Bind(End(q))
            && code[top - 4] == Test(f.scope.instrs[f.at].kind.cond) && code[top - 3] == CmpAl
            && code[top - 2] == Jne(Begin(q)) && code[top - 1] == Bind(LoopEnd(q))
  {
    hide CodeAt, Emit, Closing, Opening;
    SubCloses(f);
    var body := Emit(below + [f], f.Sub());
    BeginIsFirst(below, f);
    EmitEnds(below + [f], f.Sub());
    CodeAtIndex(code, pc, body, 0);
    SuffixIndex(body, 5, 0); CodeAtIndex(code, pc, body, |body| - 5);
    SuffixIndex(body, 5, 1); CodeAtIndex(code, pc, body, |body| - 4);
    SuffixIndex(body, 5, 2); CodeAtIndex(code, pc, body, |body| - 3);
    SuffixIndex(body, 5, 3); CodeAtIndex(code, pc, body, |body| - 2);
    SuffixIndex(body, 5, 4); CodeAtIndex(code, pc, body, |body| - 1);
  }

  lemma {:induction false} StepToCondition<S(!new)>(I: Interp<S>, code: seq<Flat>, below: seq<Frame>, f: Frame,
                                pc: nat, s: S, al: bool, zf: bool)
    requires UniqueBinds(code)
    requires f.Valid() && f.at < |f.scope.instrs| && f.scope.instrs[f.at].Branch? && f.scope.instrs[f.at].kind.While?
    requires f.scope.instrs[f.at].scope.instrs != [] && !ReturnsFrom(f.scope.instrs[f.at].scope, 0)
    requires CodeAt(code, pc, [Jmp(End(f.path + [f.at]))]) && CodeAt(code, pc + 1, Emit(below + [f], f.Sub()))
    ensures |Emit(below + [f], f.Sub())| >= 5
    ensures Run(I, code, Running(pc, s, al, zf), 1) ==
            Running(pc + 1 + |Emit(below + [f], f.Sub())| - 5, s, al, zf)
  {
    hide CodeAt, UniqueBinds, Position, Emit;
    var q := f.path + [f.at];
    CodeAtIndex(code, pc, [Jmp(End(q))], 0);
    LoopLabels(code, below, f, pc + 1);
    JumpTo(code, End(q), pc + 1 + |Emit(below + [f], f.Sub())| - 5, s, al, zf);
    Step1(I, code, Running(pc, s, al, zf));
  }

  // From a loop's end label through its condition: past the loop, or back at its
  // first instruction.
  lemma {:induction false} LoopTest<S(!new)>(I: Interp<S>, code: seq<Flat>, below: seq<Frame>, f: Frame,
                         pc: nat, s: S, al: bool, zf: bool) returns (n: nat, c: Config<S>)
    requires UniqueBinds(code)
    requires f.Valid() && f.at < |f.scope.instrs| && f.scope.instrs[f.at].Branch? && f.scope.instrs[f.at].kind.While?
    requires f.scope.instrs[f.at].scope.instrs != [] && !ReturnsFrom(f.scope.instrs[f.at].scope, 0)
    requires CodeAt(code, pc, Emit(below + [f], f.Sub()))
    ensures var top := pc + |Emit(below + [f], f.Sub())|;
            && top - 5 >= pc && c == Run(I, code, Running(top - 5, s, al, zf), n)
            && (match I.test(f.scope.instrs[f.at].kind.cond, s)
                case None => c == Fault
                case Some((b, s')) => n >= 4 && c.Running? && c.pc == (if b then pc else top) && c.s == s')
  {
    hide CodeAt, UniqueBinds, Run, Position, Emit;
    var q, e := f.path + [f.at], f.scope.instrs[f.at].kind.cond;
    var top := pc + |Emit(below + [f], f.Sub())|;
    LoopLabels(code, below, f, pc);
    var start := Running(top - 5, s, al, zf);
    var c1 := Step(I, code, start);
    Step1(I, code, start);
    var c2 := Step(I, code, c1);
    StepThen(I, code, start, 1, c1, c2);
    n, c := 2, c2;
    if c2.Fault? { return; }
    var c3 := Step(I, code, c2);
    StepThen(I, code, start, 2, c2, c3);
    JumpTo(code, Begin(q), pc, c3.s, c3.al, c3.zf);
    c := Step(I, code, c3);
    StepThen(I, code, start, 3, c3, c);
    n := 4;
    if !c2.al {
      var c5 := Step(I, code, c);
      StepThen(I, code, start, 4, c, c5);
      n, c := 5, c5;
    }
  }

  // From a loop's end label: the condition, and as many turns as it grants.
  lemma {:induction false} SimLoop<S(!new)>(I: Interp<S>, code: seq<Flat>, below: seq<Frame>, f: Frame,
                                            brk: nat, ex: nat, pc: nat, s: S, al: bool, zf: bool, fuel: nat)
    returns (n: nat, c: Config<S>)
    requires f.Valid() && Exits(code, below + [f], brk, ex)
    requires f.at < |f.scope.instrs| && f.scope.instrs[f.at].Branch? && f.scope.instrs[f.at].kind.While?
    requires f.scope.instrs[f.at].scope.instrs != [] && !ReturnsFrom(f.scope.instrs[f.at].scope, 0)
    requires Linkable(f.scope.instrs[f.at].scope, 0)
    requires CodeAt(code, pc, Emit(below + [f], f.Sub()))
    ensures var body := Emit(below + [f], f.Sub());
            |body| >= 5 && c == Run(I, code, Running(pc + |body| - 5, s, al, zf), n)
    ensures var r := LoopCode(I, f.path + [f.at], f.scope.instrs[f.at].kind.cond, f.scope.instrs[f.at].scope, s, fuel);
            Lands(I, below + [f], brk, ex, pc + |Emit(below + [f], f.Sub())|, fuel, r, n, c)
    decreases fuel, f.scope, |f.scope.instrs| - f.at, 1
  {
    hide CodeAt, UniqueBinds, Run, Position, UnwindFrames, InnermostLoop, DestroyVars, Dying, UnwindCode, Emit;
    hide ContinueCode, Opening, Closing, Destroys, ReturnCode, EvalCode;
    var q := f.path + [f.at];
    var e, b := f.scope.instrs[f.at].kind.cond, f.scope.instrs[f.at].scope;
    var top := pc + |Emit(below + [f], f.Sub())|;
    SubCloses(f);
    LoopLabels(code, below, f, pc);
    var start := Running(top - 5, s, al, zf);
    n, c := LoopTest(I, code, below, f, pc, s, al, zf);
    if I.test(e, s).Some? && I.test(e, s).value.0 && fuel > 0 {
      var c4 := c;
      LoopPush(below, f, f.Sub());
      var m, c5 := SimFrom(I, code, below + [f], f.Sub(), top - 1, ex, pc, c4.s, c4.al, c4.zf, fuel - 1);
      Then(I, code, start, n, c4, m, c5);
      n, c := n + m, c5;
      match EvalCode(I, q, b, 0, true, c4.s, fuel - 1) {
        case Fell(s', left) =>
          m, c := SimLoop(I, code, below, f, brk, ex, pc, s', c5.al, c5.zf, left);
          Then(I, code, start, n, c5, m, c);
          n := n + m;
        case Broke(s', _) =>
          c := Step(I, code, c5);
          StepThen(I, code, start, n, c5, c);
          n := n + 1;
        case _ =>
      }
    }
  }

  // The whole function: falling off the end and returning both reach the
  // epilogue, with all scopes unwound.
  lemma {:induction false} SimMain<S(!new)>(I: Interp<S>, main: Scope, s: S, al: bool, zf: bool, fuel: nat)
    returns (n: nat, c: Config<S>)
    requires Linkable(main, 0)
    ensures c == Run(I, Compile(main), Running(0, s, al, zf), n)
    ensures match RunCode(I, main, s, fuel)
            case Fell(s', _) => c == Halted(s')
            case Returned(s', _) => c == Halted(s')
            case Stuck => c == Fault
            case Timeout => c.Running? && n >= fuel
            case Broke(_, _) => false
  {
    hide Emit, Run, CodeAt, UniqueBinds, EvalCode, Linkable;
    var code, f := Compile(main), MainFrame(main);
    var body := Emit([], f);
    var ex := |body|;
    var start := Running(0, s, al, zf);
    CompileUnique(main);
    MainFrameExits(main);
    n, c := SimFrom(I, code, [], f, 0, ex, 0, s, al, zf, fuel);
    var r := RunCode(I, main, s, fuel);
    if r.Fell? || r.Returned? {
      var c1 := Step(I, code, c);
      StepThen(I, code, start, n, c, c1);
      var c2 := Step(I, code, c1);
      StepThen(I, code, start, n + 1, c1, c2);
      n, c := n + 2, c2;
    }
  }

  lemma {:induction false} MainFrameExits(main: Scope)
    ensures var code := Compile(main);
            var ex := |Emit([], MainFrame(main))|;
            && CodeAt(code, 0, Emit([], MainFrame(main)))
            && ex + 2 == |code| && code[ex] == Bind(Exit) && code[ex + 1] == Leave
            && InnermostLoop([] + [MainFrame(main)]) == None
  {
    hide Emit;
    assert ([] + [MainFrame(main)])[..0] == [];
  }

  ghost predicate MachineHalts<S(!new)>(I: Interp<S>, main: Scope, s: S, s': S) {
    exists n :: Run(I, Compile(main), Running(0, s, false, false), n) == Halted(s')
  }

  ghost predicate MachineFaults<S(!new)>(I: Interp<S>, main: Scope, s: S) {
    exists n :: Run(I, Compile(main), Running(0, s, false, false), n) == Fault
  }

  lemma {:induction false} RunDeterministic<S(!new)>(I: Interp<S>, code: seq<Flat>, c: Config<S>, m: nat, n: nat)
    requires !Run(I, code, c, m).Running?
    ensures !Run(I, code, c, n).Running? ==> Run(I, code, c, m) == Run(I, code, c, n)
    ensures Run(I, code, c, n).Running? ==> n < m
  {
    if m <= n {
      RunAdd(I, code, c, m, n - m);
      RunStopped(I, code, Run(I, code, c, m), n - m);
    } else if !Run(I, code, c, n).Running? {
      RunDeterministic(I, code, c, n, m);
    }
  }


  // The machine halts in one state at most.
  lemma {:induction false} MachineHaltsOnce<S(!new)>(I: Interp<S>, main: Scope, s: S, a: S, b: S)
    requires MachineHalts(I, main, s, a) && MachineHalts(I, main, s, b)
    ensures a == b
  {
    hide Run, Compile;
    var start := Running(0, s, false, false);
    var m :| Run(I, Compile(main), start, m) == Halted(a);
    var n :| Run(I, Compile(main), start, n) == Halted(b);
    RunDeterministic(I, Compile(main), start, m, n);
  }

  ghost predicate CodeHalts<S(!new)>(I: Interp<S>, main: Scope, s: S, s': S) {
    exists fuel: nat :: (var r := RunCode(I, main, s, fuel); (r.Fell? || r.Returned?) && r.s == s')
  }

  ghost predicate CodeSticks<S(!new)>(I: Interp<S>, main: Scope, s: S) {
    exists fuel: nat :: RunCode(I, main, s, fuel).Stuck?
  }

  // The code of any program that links does what `CodeSemantics` says: it halts
  // in the same states, faults when that gets stuck, and else runs for ever.
  lemma {:induction false} CodeMeans<S(!new)>(I: Interp<S>, main: Scope, s: S)
    requires Linkable(main, 0)
    ensures forall s' :: MachineHalts(I, main, s, s') <==> CodeHalts(I, main, s, s')
    ensures MachineFaults(I, main, s) <==> CodeSticks(I, main, s)
  {
    hide Run, Compile, EvalCode, Linkable, RunCode;
    var code, start := Compile(main), Running(0, s, false, false);
    forall fuel: nat
      ensures var r := RunCode(I, main, s, fuel);
              && (r.Fell? || r.Returned? ==> MachineHalts(I, main, s, r.s))
              && (r.Stuck? ==> MachineFaults(I, main, s))
    {
      var n, c := SimMain(I, main, s, false, false, fuel);
    }
    forall m: nat | !Run(I, code, start, m).Running?
      ensures var end := Run(I, code, start, m);
              && (end.Halted? ==> CodeHalts(I, main, s, end.s))
              && (end.Fault? ==> CodeSticks(I, main, s))
    {
      var n, c := SimMain(I, main, s, false, false, m + 1);
      RunDeterministic(I, code, start, m, n);
      var r := RunCode(I, main, s, m + 1);
    }
  }
}
