// The stack frame: where each variable lives below the base pointer.
module FrameLayout {
  import opened Program
  import opened ArgBlock
  import opened Refinement

  // Eight bytes under the base pointer keep the argument block's address.
  const STACK_RESERVE: nat := 8

  // How much of the frame is in use once a variable has been added.
  function Reserve(current: nat, size: nat): nat {
    if size >= 16 then current + (size + (Align16(current + size) - current)) else current + size
  }

  function Larger(a: nat, b: nat): nat { if a > b then a else b }

  // What is in use after the first n instructions of a scope, which does not
  // count what its bodies use: they give it back.
  function SizeUpTo(s: Scope, n: nat, current: nat): nat
    requires n <= |s.instrs|
  {
    if n == 0 then current
    else
      var before := SizeUpTo(s, n - 1, current);
      match s.instrs[n - 1] case Declare(ty) => Reserve(before, ty.size) case _ => before
  }

  // What is in use when instruction i of the scope at p is reached.
  function SizeAt(main: Scope, p: Path, i: nat): nat
    requires IsScope(main, p) && i <= |ScopeAt(main, p).instrs|
    decreases |p|, 1
  {
    SizeUpTo(ScopeAt(main, p), i, EntrySize(main, p))
  }

  function EntrySize(main: Scope, p: Path): nat
    requires IsScope(main, p)
    decreases |p|, 0
  {
    if p == [] then STACK_RESERVE
    else
      PrefixIsScope(main, p);
      SizeAt(main, p[..|p| - 1], p[|p| - 1])
  }

  lemma {:induction false} PrefixIsScope(main: Scope, p: Path)
    requires IsScope(main, p) && p != []
    ensures IsScope(main, p[..|p| - 1]) && p[|p| - 1] < |ScopeAt(main, p[..|p| - 1]).instrs|
  {
    assert p == p[..|p| - 1] + [p[|p| - 1]];
    IsScopePrefix(main, p[..|p| - 1], p[|p| - 1]);
  }

  lemma {:induction false} IsScopePrefix(s: Scope, p: Path, i: nat)
    requires IsScope(s, p + [i])
    ensures IsScope(s, p) && i < |ScopeAt(s, p).instrs|
    decreases p
  {
    if p == [] {
      assert (p + [i])[0] == i;
    } else {
      assert (p + [i])[1..] == p[1..] + [i];
      IsScopePrefix(s.instrs[p[0]].scope, p[1..], i);
    }
  }

  // The offset of the variable declared at instruction i of the scope at p.
  function Offset(main: Scope, p: Path, i: nat): int
    requires Declares(main, p, i)
  {
    -(Reserve(SizeAt(main, p, i), DeclaredAt(main, p, i).ty.size) as int)
  }

  // ---------- The layout, by recursion over the tree ----------

  // One assigned variable: its site, the frame in use and the number of objects
  // alive once it is added.
  datatype Entry = Entry(site: Path, inUse: nat, objects: nat)

  function Layout(p: Path, s: Scope, i: nat, current: nat, objects: nat): seq<Entry>
    requires i <= |s.instrs|
    decreases s, |s.instrs| - i
  {
    if i == |s.instrs| then []
    else match s.instrs[i]
      case Declare(ty) =>
        var now := Reserve(current, ty.size);
        [Entry(p + [i], now, objects + 1)] + Layout(p, s, i + 1, now, objects + 1)
      case Nested(b) => Layout(p + [i], b, 0, current, objects) + Layout(p, s, i + 1, current, objects)
      case Branch(_, b) => Layout(p + [i], b, 0, current, objects) + Layout(p, s, i + 1, current, objects)
      case _ => Layout(p, s, i + 1, current, objects)
  }

  function MaxInUse(log: seq<Entry>): nat {
    if log == [] then 0 else Larger(MaxInUse(log[..|log| - 1]), log[|log| - 1].inUse)
  }

  function MaxObjects(log: seq<Entry>): nat {
    if log == [] then 0 else Larger(MaxObjects(log[..|log| - 1]), log[|log| - 1].objects)
  }

  // ---------- The walk, with an explicit stack ----------

  datatype ScopeReport = ScopeReport(path: Path, scope: Scope, currentSize: nat, currentObjectCount: nat,
                                     iterating: nat)

  predicate ReportsOk(stack: seq<ScopeReport>) {
    forall k :: 0 <= k < |stack| ==> stack[k].iterating <= |stack[k].scope.instrs|
  }

  // What the scopes still on the stack will assign.
  function Remaining(stack: seq<ScopeReport>): seq<Entry>
    requires ReportsOk(stack)
  {
    if stack == [] then []
    else
      var x := stack[|stack| - 1];
      Layout(x.path, x.scope, x.iterating, x.currentSize, x.currentObjectCount) + Remaining(stack[..|stack| - 1])
  }

  function Work(s: Scope, i: nat): nat
    decreases s, |s.instrs| - i
  {
    if i >= |s.instrs| then 1
    else
      1 + Work(s, i + 1) +
      (match s.instrs[i]
       case Nested(b) => Work(b, 0)
       case Branch(_, b) => Work(b, 0)
       case _ => 0)
  }

  function StackWork(stack: seq<ScopeReport>): nat {
    if stack == [] then 0
    else StackWork(stack[..|stack| - 1]) + Work(stack[|stack| - 1].scope, stack[|stack| - 1].iterating)
  }

  lemma {:induction false} RemainingPush(stack: seq<ScopeReport>, x: ScopeReport)
    requires ReportsOk(stack) && x.iterating <= |x.scope.instrs|
    ensures ReportsOk(stack + [x])
    ensures Remaining(stack + [x]) ==
            Layout(x.path, x.scope, x.iterating, x.currentSize, x.currentObjectCount) + Remaining(stack)
    ensures StackWork(stack + [x]) == StackWork(stack) + Work(x.scope, x.iterating)
  {
    assert (stack + [x])[..|stack|] == stack;
  }

  // The map a log stands for.
  ghost predicate MapOf(log: seq<Entry>, variables: map<Path, int>) {
    && (forall q :: q in variables <==> exists k :: 0 <= k < |log| && log[k].site == q)
    && (forall k :: 0 <= k < |log| ==> variables[log[k].site] == -(log[k].inUse as int))
  }

  ghost predicate NoneTwice(log: seq<Entry>) {
    forall k, l :: 0 <= k < l < |log| ==> log[k].site != log[l].site
  }

  lemma {:induction false} NewEntry(log: seq<Entry>, e: Entry, rest: seq<Entry>, variables: map<Path, int>)
    requires NoneTwice(log + ([e] + rest)) && MapOf(log, variables)
    ensures e.site !in variables && MapOf(log + [e], variables[e.site := -(e.inUse as int)])
    ensures MaxInUse(log + [e]) == Larger(MaxInUse(log), e.inUse)
    ensures MaxObjects(log + [e]) == Larger(MaxObjects(log), e.objects)
  {
    var whole := log + ([e] + rest);
    var now := log + [e];
    assert now[..|log|] == log;
    forall k | 0 <= k < |log| ensures log[k].site != e.site {
      assert whole[k] == log[k] && whole[|log|] == e;
    }
    var variables' := variables[e.site := -(e.inUse as int)];
    forall q | q in variables' ensures exists k :: 0 <= k < |now| && now[k].site == q {
      if q in variables {
        var k :| 0 <= k < |log| && log[k].site == q;
        assert now[k].site == q;
      } else {
        assert now[|log|].site == q;
      }
    }
    forall k | 0 <= k < |now| ensures now[k].site in variables' && variables'[now[k].site] == -(now[k].inUse as int) {
      if k < |log| { assert now[k] == log[k]; }
    }
  }

  // Whether the report is that of the variables assigned so far.
  ghost predicate Reports(log: seq<Entry>, variables: map<Path, int>, maxFrameSize: nat, maxObjectAllocation: nat) {
    MapOf(log, variables) && maxFrameSize == MaxInUse(log) && maxObjectAllocation == MaxObjects(log)
  }

  // What the walk will still assign, in or out of the current scope.
  function Pending(stack: seq<ScopeReport>, x: ScopeReport, left: bool): seq<Entry>
    requires ReportsOk(stack) && x.iterating <= |x.scope.instrs|
  {
    if left then Remaining(stack)
    else Layout(x.path, x.scope, x.iterating, x.currentSize, x.currentObjectCount) + Remaining(stack)
  }

  function ToDo(stack: seq<ScopeReport>, x: ScopeReport, left: bool): nat {
    StackWork(stack) + if left then 1 else Work(x.scope, x.iterating)
  }

  // The current scope past a declaration.
  function PastDeclare(x: ScopeReport): ScopeReport
    requires x.iterating < |x.scope.instrs| && x.scope.instrs[x.iterating].Declare?
  {
    x.(currentSize := Reserve(x.currentSize, x.scope.instrs[x.iterating].ty.size),
       currentObjectCount := x.currentObjectCount + 1, iterating := x.iterating + 1)
  }

  lemma {:induction false} StepDeclare(stack: seq<ScopeReport>, x: ScopeReport)
    requires ReportsOk(stack) && x.iterating < |x.scope.instrs| && x.scope.instrs[x.iterating].Declare?
    ensures var y := PastDeclare(x);
            && Pending(stack, x, false) ==
               [Entry(x.path + [x.iterating], y.currentSize, y.currentObjectCount)] + Pending(stack, y, false)
            && ToDo(stack, y, false) < ToDo(stack, x, false)
  {
    var y := PastDeclare(x);
    var e := Entry(x.path + [x.iterating], y.currentSize, y.currentObjectCount);
    var rest := Layout(y.path, y.scope, y.iterating, y.currentSize, y.currentObjectCount);
    assert [e] + rest + Remaining(stack) == [e] + (rest + Remaining(stack));
  }

  lemma {:induction false} StepOther(stack: seq<ScopeReport>, x: ScopeReport)
    requires ReportsOk(stack) && x.iterating < |x.scope.instrs|
    requires var ins := x.scope.instrs[x.iterating]; !ins.Declare? && !ins.Nested? && !ins.Branch?
    ensures var y := x.(iterating := x.iterating + 1);
            Pending(stack, x, false) == Pending(stack, y, false) && ToDo(stack, y, false) < ToDo(stack, x, false)
  {
  }

  lemma {:induction false} StepBody(stack: seq<ScopeReport>, x: ScopeReport)
    requires ReportsOk(stack) && x.iterating < |x.scope.instrs|
    requires var ins := x.scope.instrs[x.iterating]; ins.Nested? || ins.Branch?
    ensures var y := x.(iterating := x.iterating + 1);
            var r := PushBoth(stack, y, x.scope.instrs[x.iterating].scope);
            Pending(stack, x, false) == Pending(r, y, true) && ToDo(r, y, true) <= ToDo(stack, x, false)
  {
    var b := x.scope.instrs[x.iterating].scope;
    var inner := Layout(x.path + [x.iterating], b, 0, x.currentSize, x.currentObjectCount);
    var outer := Layout(x.path, x.scope, x.iterating + 1, x.currentSize, x.currentObjectCount);
    assert inner + outer + Remaining(stack) == inner + (outer + Remaining(stack));
  }

  // A declaration: the variable is placed below everything in use.
  method AddVariable(x: ScopeReport, variables: map<Path, int>, maxFrame: nat, maxObjects: nat,
                     ghost log: seq<Entry>, ghost rest: seq<Entry>)
    returns (current: ScopeReport, variableMap: map<Path, int>, maxFrameSize: nat, maxObjectAllocation: nat)
    requires x.iterating < |x.scope.instrs| && x.scope.instrs[x.iterating].Declare?
    requires Reports(log, variables, maxFrame, maxObjects)
    requires var y := PastDeclare(x);
             NoneTwice(log + ([Entry(x.path + [x.iterating], y.currentSize, y.currentObjectCount)] + rest))
    ensures current == PastDeclare(x)
    ensures Reports(log + [Entry(x.path + [x.iterating], current.currentSize, current.currentObjectCount)],
                    variableMap, maxFrameSize, maxObjectAllocation)
  {
    hide MapOf, NoneTwice, MaxInUse, MaxObjects;
    var size := x.scope.instrs[x.iterating].ty.size;
    var alignedSize: nat := size;
    if alignedSize >= 16 {
      AlignBounds(x.currentSize + alignedSize);
      alignedSize := alignedSize + (Align16(x.currentSize + alignedSize) - x.currentSize);
    }
    ReserveIs(x.currentSize, size, alignedSize);
    current := x.(currentSize := x.currentSize + alignedSize, currentObjectCount := x.currentObjectCount + 1);
    maxFrameSize := Larger(maxFrame, current.currentSize);
    maxObjectAllocation := Larger(maxObjects, current.currentObjectCount);
    variableMap := variables[x.path + [x.iterating] := -(current.currentSize as int)];
    NewEntry(log, Entry(x.path + [x.iterating], current.currentSize, current.currentObjectCount), rest, variables);
    current := current.(iterating := x.iterating + 1);
  }

  // Lays the frame out, one scope at a time.
  method CreateFrameReport(main: Scope)
    returns (variableMap: map<Path, int>, maxFrameSize: nat, maxObjectAllocation: nat)
    ensures IsFrame(main, variableMap, maxFrameSize)
    ensures maxObjectAllocation == MaxObjects(Layout([], main, 0, STACK_RESERVE, 0))
  {
    hide MapOf, NoneTwice, Layout, IsFrame, Remaining, StackWork, Work, MaxInUse, MaxObjects, Reserve, Align16;
    variableMap, maxFrameSize, maxObjectAllocation := map[], 0, 0;
    var stack := [ScopeReport([], main, STACK_RESERVE, 0, 0)];
    ghost var total := Layout([], main, 0, STACK_RESERVE, 0);
    ghost var log: seq<Entry> := [];
    StartWalk(main);
    LayoutOnce([], main, 0, STACK_RESERVE, 0);
    while stack != []
      invariant ReportsOk(stack) && log + Remaining(stack) == total
      invariant Reports(log, variableMap, maxFrameSize, maxObjectAllocation)
      decreases StackWork(stack)
    {
      var current := stack[|stack| - 1];
      ghost var size := StackWork(stack);
      PopReport(stack);
      stack := stack[..|stack| - 1];
      var breakLoop := false;
      while current.iterating < |current.scope.instrs| && !breakLoop
        invariant current.iterating <= |current.scope.instrs| && ReportsOk(stack)
        invariant log + Pending(stack, current, breakLoop) == total
        invariant ToDo(stack, current, breakLoop) <= size
        invariant Reports(log, variableMap, maxFrameSize, maxObjectAllocation)
        decreases !breakLoop, |current.scope.instrs| - current.iterating
      {
        hide Reports, Pending, ToDo;
        match current.scope.instrs[current.iterating] {
          case Declare(ty) =>
            StepDeclare(stack, current);
            ghost var y := PastDeclare(current);
            ghost var e := Entry(current.path + [current.iterating], y.currentSize, y.currentObjectCount);
            ghost var rest := Pending(stack, y, false);
            current, variableMap, maxFrameSize, maxObjectAllocation :=
              AddVariable(current, variableMap, maxFrameSize, maxObjectAllocation, log, rest);
            assert log + ([e] + rest) == log + [e] + rest;
            log := log + [e];
          case Nested(b) =>
            StepBody(stack, current);
            current := current.(iterating := current.iterating + 1);
            stack := PushBoth(stack, current, b);
            breakLoop := true;
          case Branch(_, b) =>
            StepBody(stack, current);
            current := current.(iterating := current.iterating + 1);
            stack := PushBoth(stack, current, b);
            breakLoop := true;
          case _ =>
            StepOther(stack, current);
            current := current.(iterating := current.iterating + 1);
        }
      }
      ScopeDone(stack, current, breakLoop);
    }
    NothingPending();
    assert log == total;
    LayoutIsFrame(main, variableMap);
    maxFrameSize := Align16(maxFrameSize);
  }

  lemma {:induction false} StartWalk(main: Scope)
    ensures var stack := [ScopeReport([], main, STACK_RESERVE, 0, 0)];
            ReportsOk(stack) && Remaining(stack) == Layout([], main, 0, STACK_RESERVE, 0)
    ensures Reports([], map[], 0, 0)
  {
    var x := ScopeReport([], main, STACK_RESERVE, 0, 0);
    RemainingPush([], x);
    assert [] + [x] == [x];
  }

  lemma {:induction false} PopReport(stack: seq<ScopeReport>)
    requires ReportsOk(stack) && stack != []
    ensures var below, x := stack[..|stack| - 1], stack[|stack| - 1];
            Remaining(stack) == Pending(below, x, false) && StackWork(stack) == ToDo(below, x, false)
  {
  }

  lemma {:induction false} ScopeDone(stack: seq<ScopeReport>, x: ScopeReport, left: bool)
    requires ReportsOk(stack) && x.iterating <= |x.scope.instrs|
    requires left || x.iterating == |x.scope.instrs|
    ensures Pending(stack, x, left) == Remaining(stack) && StackWork(stack) < ToDo(stack, x, left)
  {
  }

  lemma {:induction false} NothingPending()
    ensures Remaining([]) == []
  {
  }

  lemma {:induction false} ReserveIs(current: nat, size: nat, aligned: nat)
    requires aligned == if size >= 16 then size + (Align16(current + size) - current) else size
    ensures Reserve(current, size) == current + aligned
  {
  }

  // Suspends a scope and opens one of its bodies.
  function PushBoth(stack: seq<ScopeReport>, x: ScopeReport, b: Scope): (r: seq<ScopeReport>)
    requires ReportsOk(stack) && 0 < x.iterating <= |x.scope.instrs|
    ensures ReportsOk(r)
    ensures Remaining(r) ==
            Layout(x.path + [x.iterating - 1], b, 0, x.currentSize, x.currentObjectCount) +
            (Layout(x.path, x.scope, x.iterating, x.currentSize, x.currentObjectCount) + Remaining(stack))
    ensures StackWork(r) == StackWork(stack) + Work(x.scope, x.iterating) + Work(b, 0)
  {
    var y := ScopeReport(x.path + [x.iterating - 1], b, x.currentSize, x.currentObjectCount, 0);
    RemainingPush(stack, x);
    RemainingPush(stack + [x], y);
    stack + [x] + [y]
  }

  // ---------- The layout assigns every declaration, once ----------

  predicate AtOrAfter(p: Path, i: nat, q: Path) {
    |q| > |p| && q[..|p|] == p && i <= q[|p|]
  }

  lemma {:induction false} LayoutOnce(p: Path, s: Scope, i: nat, current: nat, objects: nat)
    requires i <= |s.instrs|
    ensures forall k :: 0 <= k < |Layout(p, s, i, current, objects)| ==>
              AtOrAfter(p, i, Layout(p, s, i, current, objects)[k].site)
    ensures NoneTwice(Layout(p, s, i, current, objects))
    decreases s, |s.instrs| - i
  {
    if i < |s.instrs| {
      assert (p + [i])[..|p|] == p && (p + [i])[|p|] == i;
      match s.instrs[i] {
        case Declare(ty) =>
          LayoutOnce(p, s, i + 1, Reserve(current, ty.size), objects + 1);
        case Nested(b) => BodyOnce(p, s, i, b, current, objects);
        case Branch(_, b) => BodyOnce(p, s, i, b, current, objects);
        case _ => LayoutOnce(p, s, i + 1, current, objects);
      }
    }
  }

  lemma {:induction false} BodyOnce(p: Path, s: Scope, i: nat, b: Scope, current: nat, objects: nat)
    requires i < |s.instrs|
    requires s.instrs[i] == Nested(b) || (s.instrs[i].Branch? && s.instrs[i].scope == b)
    ensures forall k :: 0 <= k < |Layout(p, s, i, current, objects)| ==>
              AtOrAfter(p, i, Layout(p, s, i, current, objects)[k].site)
    ensures NoneTwice(Layout(p, s, i, current, objects))
    decreases s, |s.instrs| - i, 0
  {
    var inner, outer := Layout(p + [i], b, 0, current, objects), Layout(p, s, i + 1, current, objects);
    LayoutOnce(p + [i], b, 0, current, objects);
    LayoutOnce(p, s, i + 1, current, objects);
    forall k | 0 <= k < |inner|
      ensures AtOrAfter(p, i, inner[k].site) && inner[k].site[|p|] == i
    {
      var q := inner[k].site;
      assert (p + [i])[..|p|] == p && (p + [i])[|p|] == i;
      assert q[..|p| + 1][..|p|] == q[..|p|] && q[..|p| + 1][|p|] == q[|p|];
    }
    assert Layout(p, s, i, current, objects) == inner + outer;
  }

  predicate Assigned(main: Scope, e: Entry) {
    && e.site != []
    && Declares(main, e.site[..|e.site| - 1], e.site[|e.site| - 1])
    && -(e.inUse as int) == Offset(main, e.site[..|e.site| - 1], e.site[|e.site| - 1])
  }

  // Every entry is a declaration of the tree, at its offset.
  lemma {:induction false} LayoutSound(main: Scope, p: Path, s: Scope, i: nat, objects: nat)
    requires IsScope(main, p) && ScopeAt(main, p) == s && i <= |s.instrs|
    ensures forall k :: 0 <= k < |Layout(p, s, i, SizeAt(main, p, i), objects)| ==>
              Assigned(main, Layout(p, s, i, SizeAt(main, p, i), objects)[k])
    decreases s, |s.instrs| - i
  {
    hide IsScope, ScopeAt, Assigned, Reserve;
    var current := SizeAt(main, p, i);
    if i < |s.instrs| {
      ScopeSnoc(main, p, i);
      assert !s.instrs[i].Declare? ==> SizeAt(main, p, i + 1) == current;
      match s.instrs[i] {
        case Declare(ty) =>
          assert SizeAt(main, p, i + 1) == Reserve(current, ty.size);
          LayoutSound(main, p, s, i + 1, objects + 1);
          EntryAssigned(main, p, i, objects + 1);
        case Nested(b) =>
          EntrySizeOf(main, p, i);
          LayoutSound(main, p + [i], b, 0, objects);
          LayoutSound(main, p, s, i + 1, objects);
        case Branch(_, b) =>
          EntrySizeOf(main, p, i);
          LayoutSound(main, p + [i], b, 0, objects);
          LayoutSound(main, p, s, i + 1, objects);
        case _ =>
          LayoutSound(main, p, s, i + 1, objects);
      }
    }
  }

  lemma {:induction false} EntryAssigned(main: Scope, p: Path, i: nat, objects: nat)
    requires Declares(main, p, i)
    ensures Assigned(main, Entry(p + [i], Reserve(SizeAt(main, p, i), DeclaredAt(main, p, i).ty.size), objects))
  {
    hide IsScope, ScopeAt, Reserve, SizeAt;
    assert (p + [i])[..|p + [i]| - 1] == p;
  }

  lemma {:induction false} EntrySizeOf(main: Scope, p: Path, i: nat)
    requires IsScope(main, p) && i < |ScopeAt(main, p).instrs| && IsScope(main, p + [i])
    ensures EntrySize(main, p + [i]) == SizeAt(main, p, i) && SizeAt(main, p + [i], 0) == SizeAt(main, p, i)
  {
    hide IsScope, ScopeAt;
    assert (p + [i])[..|p + [i]| - 1] == p;
  }

  lemma {:induction false} PrefixOfScope(main: Scope, p: Path, q: Path)
    requires IsScope(main, q) && p <= q
    ensures IsScope(main, p)
    ensures |p| < |q| ==> q[|p|] < |ScopeAt(main, p).instrs| && IsScope(main, p + [q[|p|]])
    decreases |q| - |p|
  {
    hide IsScope, ScopeAt;
    if |p| < |q| {
      PrefixOfScope(main, p + [q[|p|]], q);
      PrefixIsScope(main, p + [q[|p|]]);
      assert (p + [q[|p|]])[..|p|] == p;
    } else {
      assert p == q;
    }
  }

  // Every declaration of the tree has an entry.
  // A declaration at or after a point of the scope at p is made by an
  // instruction of that scope, or inside one.
  lemma {:induction false} DeclaredBelow(main: Scope, p: Path, i: nat, q: Path, j: nat)
    requires IsScope(main, p) && Declares(main, q, j) && AtOrAfter(p, i, q + [j])
    ensures p <= q && i <= (q + [j])[|p|] < |ScopeAt(main, p).instrs|
    ensures p == q ==> (q + [j])[|p|] == j && ScopeAt(main, p).instrs[j].Declare?
    ensures p != q ==> q[|p|] == (q + [j])[|p|] && IsScope(main, p + [q[|p|]])
  {
    hide IsScope, ScopeAt;
    var site := q + [j];
    assert p <= q by { assert site[..|p|] == q[..|p|]; }
    PrefixOfScope(main, p, q);
    if p == q { assert site[|p|] == j; } else { assert site[|p|] == q[|p|]; }
  }

  lemma {:induction false} LayoutComplete(main: Scope, p: Path, s: Scope, i: nat, current: nat, objects: nat, q: Path,
                                          j: nat)
    returns (k: nat)
    requires IsScope(main, p) && ScopeAt(main, p) == s && i <= |s.instrs|
    requires Declares(main, q, j) && AtOrAfter(p, i, q + [j])
    ensures k < |Layout(p, s, i, current, objects)| && Layout(p, s, i, current, objects)[k].site == q + [j]
    decreases s, |s.instrs| - i
  {
    hide IsScope, ScopeAt, Reserve, SizeAt;
    var site := q + [j];
    DeclaredBelow(main, p, i, q, j);
    ScopeSnoc(main, p, i);
    if site[|p|] == i && |q| > |p| {
      assert p + [i] <= q;
      var b := s.instrs[i].scope;
      assert AtOrAfter(p + [i], 0, site) by { assert site[..|p| + 1] == q[..|p| + 1]; }
      k := LayoutComplete(main, p + [i], b, 0, current, objects, q, j);
      assert Layout(p, s, i, current, objects)[k] == Layout(p + [i], b, 0, current, objects)[k];
    } else if site[|p|] == i {
      k := 0;
    } else {
      match s.instrs[i] {
        case Declare(ty) =>
          k := LayoutComplete(main, p, s, i + 1, Reserve(current, ty.size), objects + 1, q, j);
          k := k + 1;
        case Nested(b) =>
          k := LayoutComplete(main, p, s, i + 1, current, objects, q, j);
          k := k + |Layout(p + [i], b, 0, current, objects)|;
        case Branch(_, b) =>
          k := LayoutComplete(main, p, s, i + 1, current, objects, q, j);
          k := k + |Layout(p + [i], b, 0, current, objects)|;
        case _ =>
          k := LayoutComplete(main, p, s, i + 1, current, objects, q, j);
      }
    }
  }

  lemma {:induction false} MaxBounds(log: seq<Entry>)
    ensures forall k :: 0 <= k < |log| ==> log[k].inUse <= MaxInUse(log)
    ensures log != [] ==> exists k :: 0 <= k < |log| && log[k].inUse == MaxInUse(log)
  {
    if log != [] {
      var most := log[..|log| - 1];
      MaxBounds(most);
      if most != [] && MaxInUse(log) != log[|log| - 1].inUse {
        var k :| 0 <= k < |most| && most[k].inUse == MaxInUse(most);
        assert log[k].inUse == MaxInUse(log);
      } else {
        assert log[|log| - 1].inUse == MaxInUse(log);
      }
    }
  }

  // What a frame report must say: each declaration of the tree, and nothing
  // else, has an offset; the frame size is the least multiple of 16 that is
  // enough for all of them.
  ghost predicate IsFrame(main: Scope, variables: map<Path, int>, maxFrameSize: nat) {
    && (forall q :: q in variables ==> q != [] && Declares(main, q[..|q| - 1], q[|q| - 1]))
    && (forall p: Path, i: nat :: Declares(main, p, i) ==>
          p + [i] in variables && variables[p + [i]] == Offset(main, p, i) &&
            -(maxFrameSize as int) <= Offset(main, p, i))
    && maxFrameSize % 16 == 0
    && (maxFrameSize == 0 || exists p: Path, i: nat :: Declares(main, p, i) && -Offset(main, p, i) > maxFrameSize - 16)
  }

  lemma {:induction false} LayoutIsFrame(main: Scope, variables: map<Path, int>)
    requires MapOf(Layout([], main, 0, STACK_RESERVE, 0), variables)
    ensures IsFrame(main, variables, Align16(MaxInUse(Layout([], main, 0, STACK_RESERVE, 0))))
  {
    hide Declares, Layout, Offset, MaxInUse, Align16, MapOf, Assigned;
    var log := Layout([], main, 0, STACK_RESERVE, 0);
    forall q | q in variables
      ensures q != [] && Declares(main, q[..|q| - 1], q[|q| - 1])
    {
      KeyDeclared(main, variables, q);
    }
    forall p: Path, i: nat | Declares(main, p, i)
      ensures p + [i] in variables && variables[p + [i]] == Offset(main, p, i)
      ensures -(Align16(MaxInUse(log)) as int) <= Offset(main, p, i)
    {
      DeclaredMapped(main, variables, p, i);
    }
    AlignBounds(MaxInUse(log));
    if log == [] {
      NothingInUse();
    } else {
      MaxBounds(log);
      LayoutSoundMain(main);
      var k :| 0 <= k < |log| && log[k].inUse == MaxInUse(log);
      AssignedParts(main, log[k]);
    }
  }

  lemma {:induction false} AssignedParts(main: Scope, e: Entry)
    requires Assigned(main, e)
    ensures e.site != []
    ensures var p, i := e.site[..|e.site| - 1], e.site[|e.site| - 1];
            e.site == p + [i] && Declares(main, p, i) && -(e.inUse as int) == Offset(main, p, i)
  {
    hide Declares, Offset;
  }

  lemma {:induction false} KeyDeclared(main: Scope, variables: map<Path, int>, q: Path)
    requires MapOf(Layout([], main, 0, STACK_RESERVE, 0), variables) && q in variables
    ensures q != [] && Declares(main, q[..|q| - 1], q[|q| - 1])
  {
    hide Declares, Layout, Offset, Assigned;
    var log := Layout([], main, 0, STACK_RESERVE, 0);
    var k :| 0 <= k < |log| && log[k].site == q;
    LayoutSoundMain(main);
    AssignedParts(main, log[k]);
  }

  lemma {:induction false} DeclaredMapped(main: Scope, variables: map<Path, int>, p: Path, i: nat)
    requires MapOf(Layout([], main, 0, STACK_RESERVE, 0), variables) && Declares(main, p, i)
    ensures p + [i] in variables && variables[p + [i]] == Offset(main, p, i)
    ensures -(Align16(MaxInUse(Layout([], main, 0, STACK_RESERVE, 0))) as int) <= Offset(main, p, i)
  {
    hide Declares, Layout, Offset, MaxInUse, Align16, Assigned;
    var log := Layout([], main, 0, STACK_RESERVE, 0);
    LayoutSoundMain(main);
    MaxBounds(log);
    AlignBounds(MaxInUse(log));
    var k := LayoutCompleteMain(main, p, i);
    AssignedParts(main, log[k]);
    assert (p + [i])[..|p + [i]| - 1] == p;
    assert variables[log[k].site] == -(log[k].inUse as int);
  }

  lemma {:induction false} NothingInUse()
    ensures MaxInUse([]) == 0 && Align16(0) == 0
  {
  }

  lemma {:induction false} LayoutSoundMain(main: Scope)
    ensures var log := Layout([], main, 0, STACK_RESERVE, 0);
            forall k :: 0 <= k < |log| ==> Assigned(main, log[k])
  {
    hide Assigned, Layout;
    LayoutSound(main, [], main, 0, 0);
    assert SizeAt(main, [], 0) == STACK_RESERVE;
  }

  lemma {:induction false} LayoutCompleteMain(main: Scope, q: Path, j: nat) returns (k: nat)
    requires Declares(main, q, j)
    ensures var log := Layout([], main, 0, STACK_RESERVE, 0); k < |log| && log[k].site == q + [j]
  {
    hide Layout;
    assert AtOrAfter([], 0, q + [j]);
    k := LayoutComplete(main, [], main, 0, STACK_RESERVE, 0, q, j);
  }

  // ---------- Disjointness ----------

  // A small variable takes its own size. One of 16 bytes or more takes twice its
  // size, rounded up; the rounding aligns its upper end, so that its address is
  // a multiple of 16 exactly when its size is.
  lemma {:induction false} ReserveExact(current: nat, size: nat)
    ensures size < 16 ==> Reserve(current, size) == current + size
    ensures size >= 16 ==> current + 2 * size <= Reserve(current, size) < current + 2 * size + 16
    ensures size >= 16 ==> (Reserve(current, size) - size) % 16 == 0
    ensures size >= 16 ==> (Reserve(current, size) % 16 == 0 <==> size % 16 == 0)
  {
    hide Align16;
    AlignBounds(current + size);
    SumOfMultiple(Align16(current + size), size);
  }

  lemma {:induction false} SumOfMultiple(m: nat, size: nat)
    requires m % 16 == 0
    ensures (m + size) % 16 == size % 16
  {
    QuotientAndRest(m / 16 + size / 16, size % 16);
  }

  lemma {:induction false} QuotientAndRest(q: nat, r: nat)
    requires r < 16
    ensures (16 * q + r) % 16 == r
  {
    if q > 0 { QuotientAndRest(q - 1, r); }
  }

  lemma {:induction false} ReserveGrows(current: nat, size: nat)
    ensures current + size <= Reserve(current, size)
  {
    AlignBounds(current + size);
  }

  lemma {:induction false} SizeGrows(s: Scope, m: nat, n: nat, current: nat)
    requires m <= n <= |s.instrs|
    ensures current <= SizeUpTo(s, m, current) <= SizeUpTo(s, n, current)
    decreases n
  {
    if n > 0 {
      SizeGrows(s, if m < n then m else n - 1, n - 1, current);
      if s.instrs[n - 1].Declare? { ReserveGrows(SizeUpTo(s, n - 1, current), s.instrs[n - 1].ty.size); }
    }
  }

  // A variable visible at a point is above everything used from there on.
  lemma {:induction false} VisibleIsAbove(main: Scope, p: Path, i: nat, q: Path, j: nat)
    requires Declares(main, p, i) && IsScope(main, q) && j <= |ScopeAt(main, q).instrs|
    requires Visible(p + [i], q + [j])
    ensures -Offset(main, p, i) <= SizeAt(main, q, j)
    decreases |q|
  {
    hide IsScope, ScopeAt, Reserve;
    var v, point := p + [i], q + [j];
    assert v[..|v| - 1] == p && v[|v| - 1] == i;
    if |p| == |q| {
      assert point[..|p|] == q && point[|p|] == j;
      SizeGrows(ScopeAt(main, q), i + 1, j, EntrySize(main, q));
    } else {
      PrefixIsScope(main, q);
      var up, h := q[..|q| - 1], q[|q| - 1];
      assert up + [h] == q;
      assert point[..|p|] == q[..|p|] && point[|p|] == q[|p|];
      VisibleIsAbove(main, p, i, up, h);
      SizeGrows(ScopeAt(main, q), 0, j, EntrySize(main, q));
    }
  }

  // Two variables of which one is visible where the other is declared never
  // overlap; every variable is below the reserved bytes.
  lemma {:induction false} FrameDisjoint(main: Scope, p: Path, i: nat, q: Path, j: nat)
    requires Declares(main, p, i) && Declares(main, q, j) && Visible(p + [i], q + [j])
    ensures Offset(main, q, j) + DeclaredAt(main, q, j).ty.size <= Offset(main, p, i)
  {
    VisibleIsAbove(main, p, i, q, j);
    ReserveGrows(SizeAt(main, q, j), DeclaredAt(main, q, j).ty.size);
  }

  lemma {:induction false} EntryAboveReserve(main: Scope, p: Path)
    requires IsScope(main, p)
    ensures STACK_RESERVE <= EntrySize(main, p)
    decreases |p|
  {
    if p != [] {
      PrefixIsScope(main, p);
      EntryAboveReserve(main, p[..|p| - 1]);
      SizeGrows(ScopeAt(main, p[..|p| - 1]), 0, p[|p| - 1], EntrySize(main, p[..|p| - 1]));
    }
  }

  lemma {:induction false} BelowReserve(main: Scope, p: Path, i: nat)
    requires Declares(main, p, i)
    ensures Offset(main, p, i) + DeclaredAt(main, p, i).ty.size <= -(STACK_RESERVE as int)
  {
    EntryAboveReserve(main, p);
    SizeGrows(ScopeAt(main, p), 0, i, EntrySize(main, p));
    ReserveGrows(SizeAt(main, p, i), DeclaredAt(main, p, i).ty.size);
  }

  // The frame covers the saved argument pointer exactly when the function
  // declares a variable at all; a function without variables has an empty frame.
  lemma {:induction false} FrameCoversReserve(main: Scope, variables: map<Path, int>, maxFrameSize: nat)
    requires IsFrame(main, variables, maxFrameSize)
    ensures STACK_RESERVE <= maxFrameSize <==> variables.Keys != {}
    ensures variables.Keys == {} <==> maxFrameSize == 0
  {
    hide Offset, Declares;
    if q :| q in variables.Keys {
      var p, i := q[..|q| - 1], q[|q| - 1];
      assert Declares(main, p, i);
      BelowReserve(main, p, i);
    }
  }
}
