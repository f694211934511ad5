// Code generation as it is written: no recursion, but a stack of open scopes
// with the index reached in each, and a separate stack of the enclosing loops.
module Worklist {
  import opened Program
  import opened Emission
  import opened Branches

  // `branch` is the branch the scope is the body of, none for the main scope
  // and for plain nested scopes. `iterating` starts at -1.
  datatype ScopeInfo = ScopeInfo(path: Path, scope: Scope, iterating: int, branch: Option<BranchKind>,
                                 registeredBegin: bool)

  // When generation goes through: every branch it meets is in the branch
  // report, that is, under branch bodies only (`through`), and it meets no
  // primitive conversion and nothing of an unsupported width. Instructions
  // after a `return` of the same scope are not met, nor is the condition of the
  // loop whose body returns.
  predicate EmittableFrom(s: Scope, i: nat, through: bool, branch: Option<BranchKind>)
    requires i <= |s.instrs|
    decreases s, |s.instrs| - i
  {
    if i == |s.instrs| then branch.Some? && branch.value.While? ==> SupportedExpr(branch.value.cond)
    else
      match s.instrs[i]
      case Return(v) => v.Some? ==> Movable(v.value.ty)
      case Effect(op) => Supported(op) && EmittableFrom(s, i + 1, through, branch)
      case Nested(b) => EmittableFrom(b, 0, false, None) && EmittableFrom(s, i + 1, through, branch)
      case Branch(k, b) =>
        through && (k.If? ==> SupportedExpr(k.cond)) &&
        EmittableFrom(b, 0, through, Some(k)) && EmittableFrom(s, i + 1, through, branch)
      case PrimitiveConvert => false
      case _ => EmittableFrom(s, i + 1, through, branch)
  }

  predicate Emittable(main: Scope) { EmittableFrom(main, 0, true, None) }

  function KindOf(main: Scope, p: Path, branch: Option<BranchKind>): Kind {
    match branch
    case None => Plain
    case Some(If(_)) => OfIf(p != [] && HasElse(main, p))
    case Some(Else) => OfElse
    case Some(While(c)) => OfWhile(c)
  }

  // The frame of an open scope at index `at`.
  function FrameOf(main: Scope, x: ScopeInfo, at: nat): Frame {
    Frame(x.path, x.scope, at, KindOf(main, x.path, x.branch))
  }

  // An open scope is a scope of the tree, opened by the instruction at its path.
  predicate Opened(main: Scope, p: Path, s: Scope, branch: Option<BranchKind>) {
    && IsScope(main, p) && ScopeAt(main, p) == s
    && (branch.Some? ==> ThroughBranches(main, p))
    && (p == [] ==> branch == None)
    && (p != [] ==>
          IsScope(main, Up(p)) &&
          Last(p) < |ScopeAt(main, Up(p)).instrs| &&
          match ScopeAt(main, Up(p)).instrs[Last(p)]
          case Nested(_) => branch == None
          case Branch(k, _) => branch == Some(k)
          case _ => false)
  }

  predicate InfoOk(main: Scope, x: ScopeInfo) {
    && Opened(main, x.path, x.scope, x.branch)
    && -1 <= x.iterating < |x.scope.instrs|
    && x.registeredBegin == (x.branch.Some? && 0 <= x.iterating)
  }

  // The scope being worked on, at the head of the inner loop.
  predicate CurrentOk(main: Scope, x: ScopeInfo) {
    && Opened(main, x.path, x.scope, x.branch)
    && 0 <= x.iterating <= |x.scope.instrs|
    && x.registeredBegin == (x.branch.Some? && 0 < x.iterating)
  }

  // All open scopes; every scope but the innermost has started.
  predicate StackOk(main: Scope, stack: seq<ScopeInfo>) {
    forall k :: 0 <= k < |stack| ==>
      InfoOk(main, stack[k]) && |stack[k].path| == k && (k < |stack| - 1 ==> 0 <= stack[k].iterating)
  }

  predicate AllStarted(stack: seq<ScopeInfo>) {
    forall k :: 0 <= k < |stack| ==> 0 <= stack[k].iterating
  }

  function Suspended(main: Scope, stack: seq<ScopeInfo>): seq<Frame>
    requires AllStarted(stack)
  {
    seq(|stack|, k requires 0 <= k < |stack| => FrameOf(main, stack[k], stack[k].iterating))
  }

  function Resumed(main: Scope, x: ScopeInfo): Frame
    requires InfoOk(main, x)
  {
    FrameOf(main, x, x.iterating + 1)
  }

  // The code still to come for a stack of open scopes.
  function Rest(main: Scope, stack: seq<ScopeInfo>): seq<Flat>
    requires StackOk(main, stack)
  {
    if stack == [] then []
    else
      var below := stack[..|stack| - 1];
      Emit(Suspended(main, below), Resumed(main, stack[|stack| - 1])) + Rest(main, below)
  }

  predicate RestEmittable(main: Scope, stack: seq<ScopeInfo>)
    requires StackOk(main, stack)
  {
    stack == [] ||
    (var x := stack[|stack| - 1];
     EmittableFrom(x.scope, x.iterating + 1, ThroughBranches(main, x.path), x.branch) &&
     RestEmittable(main, stack[..|stack| - 1]))
  }

  // The `while` bodies among the open scopes, innermost last.
  function Loops(stack: seq<ScopeInfo>): seq<Path> {
    if stack == [] then []
    else
      var x := stack[|stack| - 1];
      Loops(stack[..|stack| - 1]) + (if x.branch.Some? && x.branch.value.While? then [x.path] else [])
  }

  // Instructions still to be visited, over the whole subtree of each.
  function SizeFrom(s: Scope, i: nat): nat
    decreases s, |s.instrs| - i
  {
    if i >= |s.instrs| then 1
    else
      1 + SizeFrom(s, i + 1) +
      (match s.instrs[i]
       case Nested(b) => SizeFrom(b, 0)
       case Branch(_, b) => SizeFrom(b, 0)
       case _ => 0)
  }

  function StackSize(stack: seq<ScopeInfo>): nat {
    if stack == [] then 0
    else
      var x := stack[|stack| - 1];
      StackSize(stack[..|stack| - 1]) + if x.iterating < -1 then 0 else SizeFrom(x.scope, x.iterating + 1)
  }

  lemma {:induction false} LoopsAreInnermost(main: Scope, stack: seq<ScopeInfo>)
    requires AllStarted(stack)
    ensures InnermostLoop(Suspended(main, stack)) ==
            if Loops(stack) == [] then None else Some(Loops(stack)[|Loops(stack)| - 1])
  {
    if stack != [] {
      var below := stack[..|stack| - 1];
      LoopsAreInnermost(main, below);
      assert Suspended(main, stack)[..|stack| - 1] == Suspended(main, below);
    }
  }

  lemma {:induction false} LoopsAreShallow(main: Scope, stack: seq<ScopeInfo>)
    requires StackOk(main, stack)
    ensures forall k :: 0 <= k < |Loops(stack)| ==> |Loops(stack)[k]| < |stack|
  {
    if stack != [] {
      var below := stack[..|stack| - 1];
      assert forall k :: 0 <= k < |below| ==> stack[k] == below[k];
      LoopsAreShallow(main, below);
    }
  }

  // The variables of the first n instructions: `get_variables()` for n = all.
  function VariablesBefore(p: Path, s: Scope, n: nat): seq<Variable>
    requires n <= |s.instrs|
  {
    if n == 0 then []
    else
      VariablesBefore(p, s, n - 1) +
      (match s.instrs[n - 1] case Declare(ty) => [Variable(p + [n - 1], ty)] case _ => [])
  }

  function NonPrimitive(vs: seq<Variable>): seq<Variable> {
    if vs == [] then []
    else NonPrimitive(vs[..|vs| - 1]) + if vs[|vs| - 1].ty.primitive then [] else [vs[|vs| - 1]]
  }

  lemma {:induction false} NonPrimitiveVariables(p: Path, s: Scope, n: nat)
    requires n <= |s.instrs|
    ensures NonPrimitive(VariablesBefore(p, s, n)) == DyingBefore(p, s, n)
  {
    if n > 0 {
      NonPrimitiveVariables(p, s, n - 1);
      match s.instrs[n - 1] {
        case Declare(ty) =>
          assert VariablesBefore(p, s, n)[..|VariablesBefore(p, s, n)| - 1] == VariablesBefore(p, s, n - 1);
        case _ =>
          assert VariablesBefore(p, s, n) == VariablesBefore(p, s, n - 1);
      }
    }
  }

  lemma {:induction false} VariablesSplit(p: Path, s: Scope, m: nat, n: nat)
    requires m <= n <= |s.instrs|
    ensures |VariablesBefore(p, s, m)| <= |VariablesBefore(p, s, n)|
    ensures VariablesBefore(p, s, n)[..|VariablesBefore(p, s, m)|] == VariablesBefore(p, s, m)
    ensures forall k :: 0 <= k < |VariablesBefore(p, s, n)| ==>
              VariablesBefore(p, s, n)[k].site != [] &&
              (Last(VariablesBefore(p, s, n)[k].site) < m <==> k < |VariablesBefore(p, s, m)|)
    decreases n
  {
    if n > 0 {
      if m < n {
        VariablesSplit(p, s, m, n - 1);
      } else {
        VariablesSplit(p, s, n - 1, n - 1);
        VariablesUpTo(p, s, n - 1);
      }
    }
  }

  lemma {:induction false} VariablesUpTo(p: Path, s: Scope, n: nat)
    requires n <= |s.instrs|
    ensures forall k :: 0 <= k < |VariablesBefore(p, s, n)| ==>
              VariablesBefore(p, s, n)[k].site != [] && Last(VariablesBefore(p, s, n)[k].site) < n
  {
    if n > 0 { VariablesUpTo(p, s, n - 1); }
  }

  lemma {:induction false} NonPrimitiveSkip(vs: seq<Variable>, k: nat, j: nat)
    requires k <= j <= |vs|
    requires forall l :: k <= l < j ==> vs[l].ty.primitive
    ensures NonPrimitive(vs[..j]) == NonPrimitive(vs[..k])
    decreases j
  {
    if k < j {
      assert vs[..j][..j - 1] == vs[..j - 1];
      NonPrimitiveSkip(vs, k, j - 1);
    }
  }

  lemma {:induction false} DestroySnoc(vs: seq<Variable>, j: nat)
    requires j < |vs|
    ensures DestroyAll(NonPrimitive(vs[..j + 1])) ==
            DestroyAll(NonPrimitive(vs[..j])) + if vs[j].ty.primitive then [] else [Destroy(vs[j])]
  {
    assert vs[..j + 1][..j] == vs[..j];
  }

  // Destroys what a scope left at index `iterating` has constructed.
  method SingleScopeDestructorCall(path: Path, scope: Scope, iterating: nat) returns (code: seq<Flat>)
    requires iterating <= |scope.instrs|
    ensures code == DestroyAll(Dying(path, scope, iterating))
  {
    hide VariablesBefore, DyingBefore;
    code := [];
    var variables := VariablesBefore(path, scope, |scope.instrs|);
    ghost var n := if iterating < |scope.instrs| then iterating + 1 else |scope.instrs|;
    ghost var k := |VariablesBefore(path, scope, n)|;
    VariablesSplit(path, scope, n, |scope.instrs|);
    VariablesUpTo(path, scope, |scope.instrs|);
    var j := 0;
    assert DestroyAll(NonPrimitive(variables[..j])) == [];
    hide NonPrimitive, DestroyAll;
    while j < |variables|
      invariant 0 <= j <= |variables|
      invariant code == DestroyAll(NonPrimitive(variables[..j]))
      invariant forall l :: k <= l < j ==> variables[l].ty.primitive
    {
      var v := variables[j];
      DestroySnoc(variables, j);
      if !v.ty.primitive {
        if Last(v.site) > iterating { break; }
        code := code + [Destroy(v)];
      }
      j := j + 1;
    }
    NonPrimitiveSkip(variables, k, j);
    NonPrimitiveVariables(path, scope, n);
  }

  // Destroys what every open scope has constructed, innermost scope first.
  method IterativeDestructorCall(ghost main: Scope, scopeStack: seq<ScopeInfo>) returns (code: seq<Flat>)
    requires StackOk(main, scopeStack) && AllStarted(scopeStack)
    ensures code == UnwindCode(Suspended(main, scopeStack))
  {
    hide Opened, Dying, DestroyAll;
    var stack := scopeStack;
    code := [];
    while stack != []
      invariant stack <= scopeStack
      invariant code + UnwindCode(Suspended(main, stack)) == UnwindCode(Suspended(main, scopeStack))
      decreases |stack|
    {
      var current := stack[|stack| - 1];
      assert Suspended(main, stack)[..|stack| - 1] == Suspended(main, stack[..|stack| - 1]);
      ghost var was := stack;
      assert InfoOk(main, scopeStack[|stack| - 1]);
      stack := stack[..|stack| - 1];
      var calls := SingleScopeDestructorCall(current.path, current.scope, current.iterating);
      code := code + calls;
    }
  }

  lemma {:induction false} StackBelow(main: Scope, stack: seq<ScopeInfo>, x: ScopeInfo)
    requires StackOk(main, stack) && AllStarted(stack)
    requires InfoOk(main, x) && |x.path| == |stack|
    ensures StackOk(main, stack + [x]) && (0 <= x.iterating ==> AllStarted(stack + [x]))
    ensures (stack + [x])[..|stack|] == stack
    ensures Rest(main, stack + [x]) == Emit(Suspended(main, stack), Resumed(main, x)) + Rest(main, stack)
    ensures RestEmittable(main, stack + [x]) <==>
            EmittableFrom(x.scope, x.iterating + 1, ThroughBranches(main, x.path), x.branch) &&
            RestEmittable(main, stack)
    ensures Loops(stack + [x]) == Loops(stack) + if x.branch.Some? && x.branch.value.While? then [x.path] else []
    ensures StackSize(stack + [x]) == StackSize(stack) + SizeFrom(x.scope, x.iterating + 1)
  {
    hide Opened, Emit, EmittableFrom, SizeFrom, Suspended, ThroughBranches;
    assert (stack + [x])[..|stack|] == stack;
  }

  lemma {:induction false} SuspendedSnoc(main: Scope, stack: seq<ScopeInfo>, x: ScopeInfo)
    requires AllStarted(stack) && 0 <= x.iterating
    ensures AllStarted(stack + [x])
    ensures Suspended(main, stack + [x]) == Suspended(main, stack) + [FrameOf(main, x, x.iterating)]
  {
  }

  lemma {:induction false} StackTop(main: Scope, stack: seq<ScopeInfo>)
    requires StackOk(main, stack) && stack != []
    ensures StackOk(main, stack[..|stack| - 1]) && AllStarted(stack[..|stack| - 1])
    ensures InfoOk(main, stack[|stack| - 1]) && |stack[|stack| - 1].path| == |stack| - 1
  {
  }

  // The body opened by the instruction at `iterating`.
  function Child(x: ScopeInfo): ScopeInfo
    requires 0 <= x.iterating < |x.scope.instrs|
    requires var ins := x.scope.instrs[x.iterating]; ins.Nested? || ins.Branch?
  {
    var ins := x.scope.instrs[x.iterating];
    ScopeInfo(x.path + [x.iterating], ins.scope, -1, if ins.Branch? then Some(ins.kind) else None, false)
  }

  lemma {:induction false} ChildOk(main: Scope, x: ScopeInfo)
    requires Opened(main, x.path, x.scope, x.branch)
    requires 0 <= x.iterating < |x.scope.instrs|
    requires var ins := x.scope.instrs[x.iterating]; ins.Nested? || ins.Branch?
    ensures x.scope.instrs[x.iterating].Nested? || ThroughBranches(main, x.path) ==> InfoOk(main, Child(x))
    ensures InfoOk(main, Child(x)) ==> Resumed(main, Child(x)) == FrameOf(main, x, x.iterating).Sub()
    ensures ThroughBranches(main, Child(x).path) <==>
            ThroughBranches(main, x.path) && x.scope.instrs[x.iterating].Branch?
    ensures x.path + [x.iterating] != []
    ensures HasElse(main, x.path + [x.iterating]) == ElseFollows(x.scope, x.iterating)
  {
    hide ThroughBranches, IsScope, ScopeAt;
    ScopeSnoc(main, x.path, x.iterating);
    SiteParts(x.path, x.iterating);
  }

  // Suspending the current scope and opening the body at its index accounts for
  // exactly the code of that body and of the rest of the scope.
  lemma {:induction false} Push(main: Scope, below: seq<ScopeInfo>, x: ScopeInfo)
    requires StackOk(main, below) && AllStarted(below) && |x.path| == |below|
    requires InfoOk(main, x) && 0 <= x.iterating
    requires var ins := x.scope.instrs[x.iterating];
             ins.Nested? || (ins.Branch? && ThroughBranches(main, x.path))
    ensures InfoOk(main, Child(x))
    ensures var f := FrameOf(main, x, x.iterating);
            var stack := below + [x] + [Child(x)];
            var through := ThroughBranches(main, x.path);
            && StackOk(main, stack)
            && Rest(main, stack) ==
               Emit(Suspended(main, below) + [f], f.Sub()) + Emit(Suspended(main, below), f.Next()) + Rest(main, below)
            && (RestEmittable(main, stack) <==>
                EmittableFrom(Child(x).scope, 0, through && x.scope.instrs[x.iterating].Branch?, Child(x).branch) &&
                EmittableFrom(x.scope, x.iterating + 1, through, x.branch) && RestEmittable(main, below))
            && Loops(stack) == Loops(below + [x]) +
                               (if Child(x).branch.Some? && Child(x).branch.value.While? then [Child(x).path] else [])
            && StackSize(stack) < StackSize(below) + SizeFrom(x.scope, x.iterating)
  {
    hide ThroughBranches, IsScope, ScopeAt, EmittableFrom, Rest, RestEmittable, Loops, StackSize, Emit, StackOk;
    ChildOk(main, x);
    StackBelow(main, below, x);
    StackBelow(main, below + [x], Child(x));
    assert Suspended(main, below + [x]) == Suspended(main, below) + [FrameOf(main, x, x.iterating)];
  }

  lemma {:induction false} PathDepth(main: Scope, below: seq<ScopeInfo>, x: ScopeInfo)
    requires StackOk(main, below) && |x.path| == |below|
    ensures Loops(below + [x]) == Loops(below) + if x.branch.Some? && x.branch.value.While? then [x.path] else []
    ensures forall k :: 0 <= k < |Loops(below)| ==> Loops(below)[k] != x.path
  {
    assert (below + [x])[..|below|] == below;
    LoopsAreShallow(main, below);
  }

  lemma {:induction false} EmitReturn(main: Scope, below: seq<Frame>, x: ScopeInfo)
    requires CurrentOk(main, x) && x.iterating < |x.scope.instrs|
    requires x.scope.instrs[x.iterating].Return?
    ensures var f := FrameOf(main, x, x.iterating);
            Emit(below, f) == Opening(f) + ReturnCode(below, f, x.scope.instrs[x.iterating].v)
    ensures 0 < SizeFrom(x.scope, x.iterating)
  {
  }

  // Emission, its feasibility and its size at one instruction that opens a body.
  lemma {:induction false} Unfold(main: Scope, below: seq<Frame>, x: ScopeInfo, head: seq<Flat>, rest: seq<Flat>)
    requires CurrentOk(main, x) && x.iterating < |x.scope.instrs|
    requires var ins := x.scope.instrs[x.iterating]; ins.Nested? || ins.Branch?
    requires x.scope.instrs[x.iterating].Branch? ==> head == Head(FrameOf(main, x, x.iterating))
    requires x.scope.instrs[x.iterating].Nested? ==> head == []
    ensures var f := FrameOf(main, x, x.iterating);
            Emit(below, f) + rest ==
            (Opening(f) + head) + (Emit(below + [f], f.Sub()) + Emit(below, f.Next()) + rest)
  {
    hide ThroughBranches, IsScope, ScopeAt, HasElse, Suspended;
    var f := FrameOf(main, x, x.iterating);
    Regroup(Opening(f), head, Emit(below + [f], f.Sub()), Emit(below, f.Next()), rest);
  }

  lemma {:induction false} Regroup<T>(a: seq<T>, b: seq<T>, c: seq<T>, d: seq<T>, e: seq<T>)
    ensures a + (b + c) + d + e == (a + b) + (c + d + e)
    ensures b == [] ==> a + c + d + e == (a + b) + (c + d + e)
  {
    assert a + (b + c) + d + e == (a + b) + (c + d + e);
    if b == [] { assert b + c == c; }
  }

  // The rest of a scope at an instruction it is not left at.
  ghost predicate Stayed(main: Scope, below: seq<Frame>, x: ScopeInfo, code: seq<Flat>)
    requires CurrentOk(main, x) && x.iterating < |x.scope.instrs|
  {
    var f := FrameOf(main, x, x.iterating);
    var through := ThroughBranches(main, x.path);
    && Emit(below, f) == code + Emit(below, f.Next())
    && (EmittableFrom(x.scope, x.iterating, through, x.branch) <==>
        EmittableFrom(x.scope, x.iterating + 1, through, x.branch))
    && SizeFrom(x.scope, x.iterating + 1) < SizeFrom(x.scope, x.iterating)
  }

  // An instruction that opens no body and does not leave the scope.
  lemma {:induction false} Steps(main: Scope, below: seq<Frame>, x: ScopeInfo, piece: seq<Flat>)
    requires CurrentOk(main, x) && x.iterating < |x.scope.instrs|
    requires match x.scope.instrs[x.iterating]
             case Declare(_) => true
             case Effect(op) => Supported(op)
             case Break => true
             case _ => false
    requires piece == Piece(below, FrameOf(main, x, x.iterating))
    ensures Stayed(main, below, x, Opening(FrameOf(main, x, x.iterating)) + piece)
  {
    hide ThroughBranches, IsScope, ScopeAt, Opening, Supported;
  }

  // What is left to do after the current scope was left at an instruction.
  ghost predicate Left(main: Scope, below: seq<ScopeInfo>, x: ScopeInfo, code: seq<Flat>,
                       scopeStack: seq<ScopeInfo>, loopStack: seq<Path>)
    requires CurrentOk(main, x) && x.iterating < |x.scope.instrs|
    requires StackOk(main, below) && AllStarted(below)
  {
    && StackOk(main, scopeStack) && loopStack == Loops(scopeStack)
    && Emit(Suspended(main, below), FrameOf(main, x, x.iterating)) + Rest(main, below) == code + Rest(main, scopeStack)
    && (EmittableFrom(x.scope, x.iterating, ThroughBranches(main, x.path), x.branch) && RestEmittable(main, below) <==>
        RestEmittable(main, scopeStack))
    && StackSize(scopeStack) < SizeFrom(x.scope, x.iterating) + StackSize(below)
  }

  lemma {:induction false} ReturnLeaves(main: Scope, below: seq<ScopeInfo>, x: ScopeInfo, code: seq<Flat>)
    requires StackOk(main, below) && AllStarted(below)
    requires CurrentOk(main, x) && x.iterating < |x.scope.instrs| && x.scope.instrs[x.iterating].Return?
    requires var f := FrameOf(main, x, x.iterating);
             code == Opening(f) + ReturnCode(Suspended(main, below), f, x.scope.instrs[x.iterating].v)
    requires EmittableFrom(x.scope, x.iterating, ThroughBranches(main, x.path), x.branch)
    ensures Left(main, below, x, code, below, Loops(below))
  {
    hide ThroughBranches, IsScope, ScopeAt, StackOk, Rest, RestEmittable, Loops, StackSize, Suspended, Opened;
    hide EmittableFrom;
    EmitReturn(main, Suspended(main, below), x);
  }

  // A scope being worked on, the open scopes around it, and the loops among them.
  predicate OpenStacks(main: Scope, below: seq<ScopeInfo>, loops: seq<Path>, x: ScopeInfo) {
    StackOk(main, below) && AllStarted(below) && |x.path| == |below| && CurrentOk(main, x) &&
      loops == Loops(below + [x])
  }

  predicate CanEmitFrom(main: Scope, x: ScopeInfo)
    requires CurrentOk(main, x)
  {
    EmittableFrom(x.scope, x.iterating, ThroughBranches(main, x.path), x.branch)
  }

  method VisitReturn(main: Scope, below: seq<ScopeInfo>, loops: seq<Path>, x: ScopeInfo, opening: seq<Flat>)
    returns (ok: bool, code: seq<Flat>, loopStack: seq<Path>)
    requires OpenStacks(main, below, loops, x) && x.iterating < |x.scope.instrs| && x.scope.instrs[x.iterating].Return?
    requires opening == Opening(FrameOf(main, x, x.iterating))
    ensures !ok ==> !CanEmitFrom(main, x)
    ensures ok ==> Left(main, below, x, code, below, loopStack)
  {
    hide ThroughBranches, IsScope, ScopeAt, StackOk, Rest, RestEmittable, Loops, StackSize, Emit, Suspended;
    hide SizeFrom, Left, UnwindCode;
    ok, code, loopStack := true, opening, loops;
    var v := x.scope.instrs[x.iterating].v;
    if v.Some? && !Movable(v.value.ty) { ok := false; return; }
    if v.Some? { code := code + [Store(v.value)]; }
    var current := x.(registeredBegin := x.branch.Some?);
    var scopeStack := below + [current];
    StackBelow(main, below, current);
    SuspendedSnoc(main, below, current);
    var calls := IterativeDestructorCall(main, scopeStack);
    code := code + calls + [Jmp(Exit)];
    if current.branch.Some? { code := code + [Bind(End(current.path))]; }
    ghost var f := FrameOf(main, x, x.iterating);
    assert StoreCode(v) + UnwindCode(Suspended(main, below) + [f]) + [Jmp(Exit)] + EndBind(f)
           == ReturnCode(Suspended(main, below), f, v);
    assert code == opening + (StoreCode(v) + UnwindCode(Suspended(main, below) + [f]) + [Jmp(Exit)] + EndBind(f));
    ReturnLeaves(main, below, x, code);
    PathDepth(main, below, x);
    if loopStack != [] && current.branch.Some? && loopStack[|loopStack| - 1] == current.path {
      assert loops == Loops(below) + [current.path];
      loopStack := loopStack[..|loopStack| - 1];
    }
    assert loopStack == Loops(below);
  }

  // A branch that code generation knows, with a condition it can test.
  predicate HeadOk(main: Scope, x: ScopeInfo)
    requires CurrentOk(main, x) && x.iterating < |x.scope.instrs|
  {
    match x.scope.instrs[x.iterating]
    case Branch(k, _) => ThroughBranches(main, x.path) && (k.If? ==> SupportedExpr(k.cond))
    case _ => true
  }

  // The loop entered by opening the body at the index reached, if it is one.
  function LoopOpened(x: ScopeInfo): seq<Path>
    requires 0 <= x.iterating < |x.scope.instrs|
  {
    match x.scope.instrs[x.iterating]
    case Branch(While(_), _) => [x.path + [x.iterating]]
    case _ => []
  }

  lemma {:induction false} BodyLeaves(main: Scope, below: seq<ScopeInfo>, x: ScopeInfo, code: seq<Flat>)
    requires StackOk(main, below) && AllStarted(below) && |x.path| == |below|
    requires CurrentOk(main, x) && x.iterating < |x.scope.instrs| && HeadOk(main, x)
    requires x.scope.instrs[x.iterating].Nested? || x.scope.instrs[x.iterating].Branch?
    requires var f := FrameOf(main, x, x.iterating);
             code == Opening(f) + if x.scope.instrs[x.iterating].Branch? then Head(f) else []
    ensures var current := x.(registeredBegin := x.branch.Some?);
            Left(main, below, x, code, below + [current] + [Child(current)], Loops(below + [current]) + LoopOpened(x))
  {
    hide ThroughBranches, IsScope, ScopeAt, StackOk, Rest, RestEmittable, Loops, StackSize, Emit, Suspended, SizeFrom;
    var current := x.(registeredBegin := x.branch.Some?);
    var f := FrameOf(main, x, x.iterating);
    ChildOk(main, current);
    Push(main, below, current);
    var head := if x.scope.instrs[x.iterating].Branch? then Head(f) else [];
    Unfold(main, Suspended(main, below), x, head, Rest(main, below));
  }

  method VisitBody(main: Scope, report: map<Path, Option<Path>>, below: seq<ScopeInfo>, loops: seq<Path>,
                   x: ScopeInfo, opening: seq<Flat>)
    returns (ok: bool, code: seq<Flat>, scopeStack: seq<ScopeInfo>, loopStack: seq<Path>)
    requires IsReport(main, report)
    requires OpenStacks(main, below, loops, x) && x.iterating < |x.scope.instrs|
    requires x.scope.instrs[x.iterating].Nested? || x.scope.instrs[x.iterating].Branch?
    requires opening == Opening(FrameOf(main, x, x.iterating))
    ensures !ok ==> !CanEmitFrom(main, x)
    ensures ok ==> Left(main, below, x, code, scopeStack, loopStack)
  {
    hide ThroughBranches, IsScope, ScopeAt, StackOk, Rest, RestEmittable, Loops, StackSize, Emit, Suspended, SizeFrom;
    ok, code, scopeStack, loopStack := true, opening, below, loops;
    var current := x.(registeredBegin := x.branch.Some?);
    PathDepth(main, below, x);
    PathDepth(main, below, current);
    var ins := current.scope.instrs[current.iterating];
    if ins.Branch? {
      var head;
      ok, head, loopStack := VisitHead(main, report, loops, x);
      if !ok { return; }
      code := code + head;
    }
    scopeStack := below + [current] + [Child(current)];
    BodyLeaves(main, below, x, code);
  }

  // What precedes the body of a branch: the test of an `if` and the jump past
  // it, or a loop's jump to its condition.
  method VisitHead(main: Scope, report: map<Path, Option<Path>>, loops: seq<Path>, current: ScopeInfo)
    returns (ok: bool, head: seq<Flat>, loopStack: seq<Path>)
    requires IsReport(main, report) && CurrentOk(main, current) && current.iterating < |current.scope.instrs|
    requires current.scope.instrs[current.iterating].Branch?
    ensures !ok ==> !CanEmitFrom(main, current)
    ensures ok ==> HeadOk(main, current) && head == Head(FrameOf(main, current, current.iterating))
    ensures ok ==> loopStack == loops + LoopOpened(current)
  {
    hide ThroughBranches, IsScope, ScopeAt;
    ok, head, loopStack := true, [], loops;
    var site := current.path + [current.iterating];
    ChildOk(main, current);
    if site !in report { ok := false; return; }
    match current.scope.instrs[current.iterating].kind {
      case If(cond) =>
        if !SupportedExpr(cond) { ok := false; return; }
        var elseBranch := report[site];
        head := head + [Test(cond), CmpAl];
        SiteParts(current.path, current.iterating);
        if elseBranch.Some? {
          head := head + [Je(Begin(elseBranch.value))];
        } else {
          head := head + [Je(End(site))];
        }
      case Else =>
      case While(_) =>
        head := head + [Jmp(End(site))];
        loopStack := loopStack + [site];
    }
  }

  // A `break` destroys the objects of the scope it stands in only, and leaves
  // the innermost loop, if there is one.
  method VisitBreak(ghost main: Scope, ghost below: seq<ScopeInfo>, loops: seq<Path>, x: ScopeInfo)
    returns (piece: seq<Flat>)
    requires OpenStacks(main, below, loops, x) && x.iterating < |x.scope.instrs| && x.scope.instrs[x.iterating].Break?
    ensures piece == BreakCode(Suspended(main, below), FrameOf(main, x, x.iterating))
  {
    hide ThroughBranches, IsScope, ScopeAt, StackOk, Rest, RestEmittable, Loops, StackSize, Emit, Suspended;
    piece := [];
    ghost var current := x.(registeredBegin := x.branch.Some?);
    StackBelow(main, below, current);
    LoopsAreInnermost(main, below + [current]);
    SuspendedSnoc(main, below, current);
    PathDepth(main, below, x);
    PathDepth(main, below, current);
    if loops != [] {
      var calls := SingleScopeDestructorCall(x.path, x.scope, x.iterating);
      piece := calls + [Jmp(LoopEnd(loops[|loops| - 1]))];
    }
  }

  // One instruction of the current scope. `left` says that the scope was left
  // for a body it opens, or for good at a `return`.
  method Visit(main: Scope, report: map<Path, Option<Path>>, below: seq<ScopeInfo>, loops: seq<Path>, x: ScopeInfo)
    returns (ok: bool, code: seq<Flat>, scopeStack: seq<ScopeInfo>, loopStack: seq<Path>, current: ScopeInfo,
             left: bool)
    requires IsReport(main, report)
    requires OpenStacks(main, below, loops, x) && x.iterating < |x.scope.instrs|
    ensures !ok ==> !CanEmitFrom(main, x)
    ensures ok && !left ==>
              && scopeStack == below && loopStack == loops
              && current == x.(registeredBegin := x.branch.Some?)
              && Stayed(main, Suspended(main, below), x, code)
    ensures ok ==> current.scope == x.scope
    ensures ok && left ==> current.iterating != |x.scope.instrs| && Left(main, below, x, code, scopeStack, loopStack)
  {
    hide ThroughBranches, IsScope, ScopeAt, StackOk, Rest, RestEmittable, Loops, StackSize, Emit, Suspended;
    hide SizeFrom, Left, Stayed;
    ok, code, scopeStack, loopStack, current, left := true, [], below, loops, x, false;
    var ins := current.scope.instrs[current.iterating];
    if current.branch.Some? && !current.registeredBegin {
      code := code + [Bind(Begin(current.path))];
      current := current.(registeredBegin := true);
    }
    ghost var f := FrameOf(main, x, x.iterating);
    assert code == Opening(f);
    match ins {
      case Declare(_) =>
        Steps(main, Suspended(main, below), x, []);
        assert code == Opening(f) + [];
      case Effect(op) =>
        if !Supported(op) { ok := false; return; }
        code := code + [Do(op)];
        Steps(main, Suspended(main, below), x, [Do(op)]);
      case Return(_) =>
        left := true;
        ok, code, loopStack := VisitReturn(main, below, loops, x, code);
        current := current.(iterating := -1);
      case Nested(_) =>
        left := true;
        ok, code, scopeStack, loopStack := VisitBody(main, report, below, loops, x, code);
      case Branch(_, _) =>
        left := true;
        ok, code, scopeStack, loopStack := VisitBody(main, report, below, loops, x, code);
      case Break =>
        var piece := VisitBreak(main, below, loops, x);
        code := code + piece;
        Steps(main, Suspended(main, below), x, piece);
      case PrimitiveConvert =>
        ok := false;
    }
  }

  lemma {:induction false} EmitAtEnd(below: seq<Frame>, f: Frame)
    requires f.Valid() && f.at == |f.scope.instrs|
    ensures Emit(below, f) == DestroyAll(Dying(f.path, f.scope, f.at)) + Closing(f)
  {
  }

  // The closing code of a scope whose instructions are exhausted. A loop's
  // condition is looked at only here.
  method Close(main: Scope, report: map<Path, Option<Path>>, below: seq<ScopeInfo>, loops: seq<Path>, x: ScopeInfo)
    returns (ok: bool, code: seq<Flat>, loopStack: seq<Path>)
    requires IsReport(main, report)
    requires OpenStacks(main, below, loops, x) && x.iterating == |x.scope.instrs|
    ensures ok <==> CanEmitFrom(main, x)
    ensures ok ==> code == Emit(Suspended(main, below), FrameOf(main, x, x.iterating)) && loopStack == Loops(below)
    ensures 0 < SizeFrom(x.scope, x.iterating)
  {
    hide ThroughBranches, IsScope, ScopeAt, StackOk, Rest, RestEmittable, Loops, StackSize, Suspended;
    hide Emit, Dying, DestroyAll;
    PathDepth(main, below, x);
    EmitAtEnd(Suspended(main, below), FrameOf(main, x, x.iterating));
    ok, loopStack := true, loops;
    code := SingleScopeDestructorCall(x.path, x.scope, x.iterating);
    if x.branch.Some? {
      code := code + [Bind(End(x.path))];
      match x.branch.value {
        case If(_) =>
          if report[x.path].Some? {
            code := code + [Jmp(End(report[x.path].value))];
          }
        case While(cond) =>
          if !SupportedExpr(cond) { ok := false; return; }
          code := code + [Test(cond), CmpAl, Jne(Begin(x.path)), Bind(LoopEnd(x.path))];
          loopStack := loopStack[..|loopStack| - 1];
        case Else =>
      }
    }
  }

  // Where the inner loop is: still in the current scope, or out of it.
  predicate Working(main: Scope, below: seq<ScopeInfo>, loops: seq<Path>, x: ScopeInfo, left: bool) {
    && StackOk(main, below)
    && if left then loops == Loops(below) && x.iterating != |x.scope.instrs|
       else AllStarted(below) && CurrentOk(main, x) && |x.path| == |below| && loops == Loops(below + [x])
  }

  ghost function ToEmit(main: Scope, below: seq<ScopeInfo>, loops: seq<Path>, x: ScopeInfo, left: bool): seq<Flat>
    requires Working(main, below, loops, x, left)
  {
    if left then Rest(main, below)
    else Emit(Suspended(main, below), FrameOf(main, x, x.iterating)) + Rest(main, below)
  }

  ghost predicate CanEmit(main: Scope, below: seq<ScopeInfo>, loops: seq<Path>, x: ScopeInfo, left: bool)
    requires Working(main, below, loops, x, left)
  {
    RestEmittable(main, below) && (left || EmittableFrom(x.scope, x.iterating, ThroughBranches(main, x.path), x.branch))
  }

  ghost function ToVisit(below: seq<ScopeInfo>, x: ScopeInfo, left: bool): nat
    requires !left ==> 0 <= x.iterating
  {
    StackSize(below) + if left then 1 else SizeFrom(x.scope, x.iterating)
  }

  lemma {:induction false} Pop(main: Scope, stack: seq<ScopeInfo>)
    requires StackOk(main, stack) && stack != []
    ensures var below, top := stack[..|stack| - 1], stack[|stack| - 1];
            var x := top.(iterating := top.iterating + 1);
            && Working(main, below, Loops(stack), x, false)
            && Rest(main, stack) == ToEmit(main, below, Loops(stack), x, false)
            && (RestEmittable(main, stack) <==> CanEmit(main, below, Loops(stack), x, false))
            && StackSize(stack) == ToVisit(below, x, false)
  {
    hide IsScope, ScopeAt, Emit, EmittableFrom, Suspended, SizeFrom, Rest, RestEmittable, Loops, StackSize;
    hide StackOk, AllStarted, Opened, ThroughBranches, KindOf;
    var below, top := stack[..|stack| - 1], stack[|stack| - 1];
    var x := top.(iterating := top.iterating + 1);
    StackTop(main, stack);
    assert stack == below + [top];
    StackBelow(main, below, top);
    PathDepth(main, below, x);
  }

  // The loop stack is, at every step, exactly the enclosing `while` bodies.
  method CompileInternal(main: Scope) returns (r: Option<seq<Flat>>)
    requires ElsesFollowBranches(main)
    ensures r.Some? <==> Emittable(main)
    ensures r.Some? ==> r.value == Compile(main)
  {
    hide ThroughBranches, IsScope, ScopeAt, Emit, EmittableFrom, StackOk, Opened, Suspended, SizeFrom, IsReport;
    hide Rest, Loops, StackSize, RestEmittable;
    var report := CreateBranchesReport(main);
    var code: seq<Flat> := [];
    var scopeStack := [ScopeInfo([], main, -1, None, false)];
    var loopStack: seq<Path> := [];
    StartStack(main);
    while scopeStack != []
      invariant StackOk(main, scopeStack)
      invariant loopStack == Loops(scopeStack)
      invariant code + Rest(main, scopeStack) == Emit([], MainFrame(main))
      invariant RestEmittable(main, scopeStack) <==> Emittable(main)
      decreases StackSize(scopeStack)
    {
      ghost var size, done := StackSize(scopeStack), code + Rest(main, scopeStack);
      Pop(main, scopeStack);
      var current := scopeStack[|scopeStack| - 1];
      current := current.(iterating := current.iterating + 1);
      scopeStack := scopeStack[..|scopeStack| - 1];
      var left := false;
      while current.iterating < |current.scope.instrs| && !left
        invariant Working(main, scopeStack, loopStack, current, left)
        invariant done == code + ToEmit(main, scopeStack, loopStack, current, left)
        invariant Emittable(main) <==> CanEmit(main, scopeStack, loopStack, current, left)
        invariant ToVisit(scopeStack, current, left) <= size
        decreases !left, |current.scope.instrs| - current.iterating
      {
        var ok, emitted;
        PathDepth(main, scopeStack, current);
        ok, emitted, scopeStack, loopStack, current, left := Visit(main, report, scopeStack, loopStack, current);
        if !ok { return None; }
        code := code + emitted;
        if !left {
          current := current.(iterating := current.iterating + 1);
          PathDepth(main, scopeStack, current);
        }
      }
      if current.iterating == |current.scope.instrs| {
        var ok, emitted;
        ok, emitted, loopStack := Close(main, report, scopeStack, loopStack, current);
        if !ok { return None; }
        code := code + emitted;
      }
    }
    NothingLeft(main);
    r := Some(code + [Bind(Exit), Leave]);
  }

  lemma {:induction false} NothingLeft(main: Scope)
    ensures Rest(main, []) == [] && RestEmittable(main, [])
  {
  }

  lemma {:induction false} StartStack(main: Scope)
    ensures var stack := [ScopeInfo([], main, -1, None, false)];
            && StackOk(main, stack) && Loops(stack) == []
            && Rest(main, stack) == Emit([], MainFrame(main))
            && (RestEmittable(main, stack) <==> Emittable(main))
  {
    var stack := [ScopeInfo([], main, -1, None, false)];
    assert stack[..0] == [];
    assert InfoOk(main, stack[0]);
    assert Suspended(main, stack[..0]) == [];
    assert Resumed(main, stack[0]) == MainFrame(main);
  }
}
