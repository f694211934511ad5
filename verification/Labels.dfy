// Label discipline of the emitted code: what is bound, and how often.
module Labels {
  import opened Program
  import opened Emission
  import opened Machine

  // The labels a fragment may bind: its own branch's, and those of branches at
  // or after its index.
  predicate Owns(f: Frame, l: Label) {
    !l.Exit? &&
    if |l.site| <= |f.path| then l.site == f.path && !f.kind.Plain? && (l.Begin? ==> f.at == 0)
    else l.site[..|f.path|] == f.path && f.at <= l.site[|f.path|]
  }

  // The labels of the branch at index `at` and of everything inside it.
  predicate OwnsBody(f: Frame, l: Label) {
    !l.Exit? && |l.site| > |f.path| && l.site[..|f.path|] == f.path && l.site[|f.path|] == f.at
  }

  lemma {:induction false} SubOwns(f: Frame, l: Label)
    requires f.at < |f.scope.instrs| && (f.scope.instrs[f.at].Nested? || f.scope.instrs[f.at].Branch?)
    requires Owns(f.Sub(), l)
    ensures OwnsBody(f, l)
  {
    var q := f.path + [f.at];
    if |l.site| > |q| {
      assert l.site[..|f.path|] == l.site[..|q|][..|f.path|];
      assert q[..|f.path|] == f.path && l.site[|f.path|] == l.site[..|q|][|f.path|];
    }
  }

  // Fragments that bind nothing.
  predicate NoBinds(code: seq<Flat>) {
    forall i :: 0 <= i < |code| ==> !code[i].Bind?
  }

  lemma {:induction false} NoBindsInUnwind(frames: seq<Frame>)
    ensures NoBinds(UnwindCode(frames))
  {
    if frames != [] { NoBindsInUnwind(frames[..|frames| - 1]); }
  }

  lemma {:induction false} PieceBinds(below: seq<Frame>, f: Frame, l: Label)
    requires f.Valid() && f.at < |f.scope.instrs| && Bind(l) in Piece(below, f)
    ensures OwnsBody(f, l)
    decreases f.scope, |f.scope.instrs| - f.at, 0
  {
    match f.scope.instrs[f.at] {
      case Nested(_) =>
        EmitBinds(below + [f], f.Sub(), l);
        SubOwns(f, l);
      case Branch(_, _) =>
        EmitBinds(below + [f], f.Sub(), l);
        SubOwns(f, l);
      case _ =>
    }
  }

  lemma {:induction false} EmitBinds(below: seq<Frame>, f: Frame, l: Label)
    requires f.Valid() && Bind(l) in Emit(below, f)
    ensures Owns(f, l)
    decreases f.scope, |f.scope.instrs| - f.at, 1
  {
    hide Piece, UnwindCode, Dying;
    if f.at == |f.scope.instrs| {
    } else if f.scope.instrs[f.at].Return? {
      NoBindsInUnwind(below + [f]);
    } else if Bind(l) in Piece(below, f) {
      PieceBinds(below, f, l);
    } else if Bind(l) in Emit(below, f.Next()) {
      EmitBinds(below, f.Next(), l);
    }
  }

  lemma {:induction false} UniqueConcat(a: seq<Flat>, b: seq<Flat>)
    requires UniqueBinds(a) && UniqueBinds(b)
    requires forall l :: Bind(l) in a ==> Bind(l) !in b
    ensures UniqueBinds(a + b)
  {
    forall i, j | 0 <= i < |a + b| && 0 <= j < |a + b| && (a + b)[i].Bind? && (a + b)[i] == (a + b)[j]
      ensures i == j
    {
      var l := (a + b)[i].l;
      if i < |a| { assert a[i] == Bind(l); }
      if j < |a| { assert a[j] == Bind(l); }
      if i >= |a| { assert b[i - |a|] == Bind(l); }
      if j >= |a| { assert b[j - |a|] == Bind(l); }
    }
  }

  lemma {:induction false} PieceUnique(below: seq<Frame>, f: Frame)
    requires f.Valid() && f.at < |f.scope.instrs|
    ensures UniqueBinds(Piece(below, f))
    decreases f.scope, |f.scope.instrs| - f.at, 0
  {
    match f.scope.instrs[f.at] {
      case Nested(_) =>
        EmitUnique(below + [f], f.Sub());
      case Branch(_, _) =>
        EmitUnique(below + [f], f.Sub());
        UniqueConcat(Head(f), Emit(below + [f], f.Sub()));
      case _ =>
    }
  }

  // No label is bound twice, whatever the program.
  lemma {:induction false} EmitUnique(below: seq<Frame>, f: Frame)
    requires f.Valid()
    ensures UniqueBinds(Emit(below, f))
    decreases f.scope, |f.scope.instrs| - f.at, 1
  {
    if f.at == |f.scope.instrs| {
      UniqueConcat(Destroys(f), Closing(f));
    } else if f.scope.instrs[f.at].Return? {
      var v := f.scope.instrs[f.at].v;
      var unwind := StoreCode(v) + UnwindCode(below + [f]) + [Jmp(Exit)];
      NoBindsInUnwind(below + [f]);
      UniqueConcat(unwind, EndBind(f));
      UniqueConcat(Opening(f), ReturnCode(below, f, v));
    } else {
      PieceUnique(below, f);
      EmitUnique(below, f.Next());
      forall l | Bind(l) in Opening(f) ensures Bind(l) !in Piece(below, f) {
        if Bind(l) in Piece(below, f) { PieceBinds(below, f, l); }
      }
      UniqueConcat(Opening(f), Piece(below, f));
      forall l | Bind(l) in Opening(f) + Piece(below, f) ensures Bind(l) !in Emit(below, f.Next()) {
        if Bind(l) in Emit(below, f.Next()) {
          EmitBinds(below, f.Next(), l);
          if Bind(l) in Piece(below, f) { PieceBinds(below, f, l); }
        }
      }
      UniqueConcat(Opening(f) + Piece(below, f), Emit(below, f.Next()));
    }
  }

  // For every program, no label of its code is bound twice.
  lemma {:induction false} CompileUnique(main: Scope)
    ensures UniqueBinds(Compile(main))
  {
    var code := Emit([], MainFrame(main));
    EmitUnique([], MainFrame(main));
    forall l | Bind(l) in code ensures Bind(l) !in [Bind(Exit), Leave] {
      EmitBinds([], MainFrame(main), l);
    }
    UniqueConcat(code, [Bind(Exit), Leave]);
  }

  // ---------- Every jump has a target ----------

  predicate IsJump(x: Flat) { x.Jmp? || x.Je? || x.Jne? }

  // Every label some jump goes to is bound, so the code can be assembled.
  ghost predicate Resolved(code: seq<Flat>) {
    forall x :: x in code && IsJump(x) ==> Bind(x.l) in code
  }

  // The programs whose code resolves. A loop body is not empty, it does not
  // have both a `return` directly in it and a `break` before that, and the
  // `else` of an `if` is not empty.
  predicate Linkable(sc: Scope, i: nat)
    decreases sc, |sc.instrs| - i
  {
    i >= |sc.instrs| ||
    match sc.instrs[i]
    case Return(_) => true
    case Nested(b) => Linkable(b, 0) && Linkable(sc, i + 1)
    case Branch(While(_), b) =>
      b.instrs != [] && !(ReturnsFrom(b, 0) && BreaksFrom(b, 0)) && Linkable(b, 0) && Linkable(sc, i + 1)
    case Branch(If(_), b) =>
      (ElseFollows(sc, i) ==> sc.instrs[i + 1].scope.instrs != []) && Linkable(b, 0) && Linkable(sc, i + 1)
    case Branch(Else, b) => Linkable(b, 0) && Linkable(sc, i + 1)
    case _ => Linkable(sc, i + 1)
  }

  // The labels a fragment may leave for the code around it to bind.
  predicate LeftOpen(below: seq<Frame>, f: Frame, l: Label) {
    || l == Exit
    || (f.kind.OfWhile? && l == Begin(f.path))
    || (f.kind == OfIf(true) && f.path != [] && l == End(Sibling(f.path)))
    || (l.LoopEnd? && BreaksFrom(f.scope, f.at) && InnermostLoop(below + [f]) == Some(l.site) &&
        (f.kind.OfWhile? ==> ReturnsFrom(f.scope, f.at)))
  }

  lemma {:induction false} NoJumpsInDestroys(f: Frame, x: Flat)
    requires x in Destroys(f)
    ensures !IsJump(x)
  {
  }

  lemma {:induction false} NoJumpsInUnwind(frames: seq<Frame>, x: Flat)
    requires x in UnwindCode(frames)
    ensures !IsJump(x)
  {
    if x in Destroys(frames[|frames| - 1]) {
      NoJumpsInDestroys(frames[|frames| - 1], x);
    } else {
      NoJumpsInUnwind(frames[..|frames| - 1], x);
    }
  }

  // A branch body always binds its end label, and its begin label if not empty.
  lemma {:induction false} BodyBinds(below: seq<Frame>, f: Frame)
    requires f.Valid() && !f.kind.Plain?
    ensures Bind(End(f.path)) in Emit(below, f)
    ensures f.at == 0 && f.scope.instrs != [] ==> Bind(Begin(f.path)) in Emit(below, f)
    ensures f.kind.OfWhile? && !ReturnsFrom(f.scope, f.at) ==> Bind(LoopEnd(f.path)) in Emit(below, f)
    decreases |f.scope.instrs| - f.at
  {
    hide Piece, Destroys, UnwindCode, SubKind, Sibling;
    if f.at == |f.scope.instrs| {
    } else if f.scope.instrs[f.at].Return? {
      assert Bind(End(f.path)) in ReturnCode(below, f, f.scope.instrs[f.at].v);
    } else {
      BodyBinds(below, f.Next());
    }
  }

  lemma {:induction false} LoopPush(below: seq<Frame>, f: Frame, g: Frame)
    ensures InnermostLoop(below + [f] + [g]) ==
            if g.kind.OfWhile? then Some(g.path) else InnermostLoop(below + [f])
  {
    assert (below + [f] + [g])[..|below| + 1] == below + [f];
  }

  lemma {:induction false} LoopNext(below: seq<Frame>, f: Frame, at: nat)
    ensures InnermostLoop(below + [f.(at := at)]) == InnermostLoop(below + [f])
  {
    assert (below + [f])[..|below|] == below;
    assert (below + [f.(at := at)])[..|below|] == below;
  }

  lemma {:induction false} LoopTop(below: seq<Frame>, f: Frame)
    requires f.kind.OfWhile?
    ensures InnermostLoop(below + [f]) == Some(f.path)
  {
  }

  lemma {:induction false} SubPath(f: Frame)
    ensures Sibling(f.path + [f.at]) == f.path + [f.at + 1]
  {
    assert (f.path + [f.at])[..|f.path|] == f.path;
  }

  lemma {:induction false} JumpsResolve(below: seq<Frame>, f: Frame, x: Flat)
    requires f.Valid() && Linkable(f.scope, f.at) && x in Emit(below, f) && IsJump(x)
    ensures Bind(x.l) in Emit(below, f) || LeftOpen(below, f, x.l)
    decreases f.scope, |f.scope.instrs| - f.at, 1
  {
    hide InnermostLoop, Piece, UnwindCode, Destroys;
    if f.at == |f.scope.instrs| {
      if x in Destroys(f) { NoJumpsInDestroys(f, x); }
    } else if f.scope.instrs[f.at].Return? {
      if x in UnwindCode(below + [f]) { NoJumpsInUnwind(below + [f], x); }
    } else if x in Piece(below, f) {
      PieceResolves(below, f, x);
    } else {
      LoopNext(below, f, f.at + 1);
      JumpsResolve(below, f.Next(), x);
    }
  }

  lemma {:induction false} PieceResolves(below: seq<Frame>, f: Frame, x: Flat)
    requires f.Valid() && f.at < |f.scope.instrs| && !f.scope.instrs[f.at].Return?
    requires Linkable(f.scope, f.at) && x in Piece(below, f) && IsJump(x)
    ensures Bind(x.l) in Piece(below, f) || Bind(x.l) in Emit(below, f.Next()) || LeftOpen(below, f, x.l)
    decreases f.scope, |f.scope.instrs| - f.at, 0
  {
    hide InnermostLoop, Emit, Closing, Opening;
    if f.kind.OfWhile? && !ReturnsFrom(f.scope, f.at) {
      LoopTop(below, f);
      BodyBinds(below, f.Next());
    }
    match f.scope.instrs[f.at] {
      case Nested(_) =>
        LoopPush(below, f, f.Sub());
        JumpsResolve(below + [f], f.Sub(), x);
      case Branch(_, _) =>
        if x in Emit(below + [f], f.Sub()) { JumpsResolve(below + [f], f.Sub(), x); }
        BranchResolves(below, f, x);
      case Break =>
        if x in Destroys(f) { NoJumpsInDestroys(f, x); }
      case _ =>
    }
  }

  // Jumps of a branch's head, and jumps its body leaves open.
  lemma {:induction false} BranchResolves(below: seq<Frame>, f: Frame, x: Flat)
    requires f.Valid() && f.at < |f.scope.instrs| && f.scope.instrs[f.at].Branch?
    requires Linkable(f.scope, f.at) && x in Piece(below, f) && IsJump(x)
    requires x in Emit(below + [f], f.Sub()) ==>
               Bind(x.l) in Emit(below + [f], f.Sub()) || LeftOpen(below + [f], f.Sub(), x.l)
    ensures Bind(x.l) in Piece(below, f) || Bind(x.l) in Emit(below, f.Next()) || LeftOpen(below, f, x.l)
  {
    hide InnermostLoop, Emit, Closing, Opening;
    if f.kind.OfWhile? && !ReturnsFrom(f.scope, f.at) {
      LoopTop(below, f);
      BodyBinds(below, f.Next());
    }
    LoopPush(below, f, f.Sub());
    SubPath(f);
    BodyBinds(below + [f], f.Sub());
    if f.scope.instrs[f.at].kind.If? && ElseFollows(f.scope, f.at) { ElseBinds(below, f.Next()); }
  }

  lemma {:induction false} ElseBinds(below: seq<Frame>, f: Frame)
    requires f.Valid() && f.at < |f.scope.instrs| && f.scope.instrs[f.at].Branch? && f.scope.instrs[f.at].kind.Else?
    ensures Bind(End(f.path + [f.at])) in Emit(below, f)
    ensures f.scope.instrs[f.at].scope.instrs != [] ==> Bind(Begin(f.path + [f.at])) in Emit(below, f)
  {
    BodyBinds(below + [f], f.Sub());
    assert Piece(below, f) == Head(f) + Emit(below + [f], f.Sub());
  }

  // The jump a `break` emits.
  lemma {:induction false} BreakJumps(below: seq<Frame>, f: Frame)
    requires f.Valid() && BreaksFrom(f.scope, f.at) && InnermostLoop(below + [f]).Some?
    ensures Jmp(LoopEnd(InnermostLoop(below + [f]).value)) in Emit(below, f)
    decreases f.scope, |f.scope.instrs| - f.at
  {
    hide InnermostLoop;
    match f.scope.instrs[f.at] {
      case Break =>
      case Nested(b) =>
        LoopPush(below, f, f.Sub());
        if BreaksFrom(b, 0) { BreakJumps(below + [f], f.Sub()); }
        else { LoopNext(below, f, f.at + 1); BreakJumps(below, f.Next()); }
      case Branch(k, b) =>
        LoopPush(below, f, f.Sub());
        if !k.While? && BreaksFrom(b, 0) { BreakJumps(below + [f], f.Sub()); }
        else { LoopNext(below, f, f.at + 1); BreakJumps(below, f.Next()); }
      case Return(_) =>
      case _ =>
        LoopNext(below, f, f.at + 1);
        BreakJumps(below, f.Next());
    }
  }

  // A body cut short by a `return` does not bind its loop's exit, and an empty
  // one does not bind its begin label.
  lemma {:induction false} BodyMisses(below: seq<Frame>, f: Frame)
    requires f.Valid()
    ensures ReturnsFrom(f.scope, f.at) ==> Bind(LoopEnd(f.path)) !in Emit(below, f)
    ensures f.scope.instrs == [] ==> Bind(Begin(f.path)) !in Emit(below, f)
    decreases |f.scope.instrs| - f.at
  {
    if f.at < |f.scope.instrs| {
      if f.scope.instrs[f.at].Return? {
        NoBindsInUnwind(below + [f]);
      } else {
        BodyMisses(below, f.Next());
        if Bind(LoopEnd(f.path)) in Piece(below, f) { PieceBinds(below, f, LoopEnd(f.path)); }
      }
    }
  }

  // A jump to a label below f that no code binds.
  ghost predicate Dangling(below: seq<Frame>, f: Frame, x: Flat)
    requires f.Valid()
  {
    && x in Emit(below, f) && IsJump(x) && Bind(x.l) !in Emit(below, f)
    && !x.l.Exit? && |x.l.site| > |f.path| && x.l.site[..|f.path|] == f.path && f.at <= x.l.site[|f.path|]
  }

  lemma {:induction false} Dangles(below: seq<Frame>, f: Frame) returns (x: Flat)
    requires f.Valid() && !Linkable(f.scope, f.at)
    ensures Dangling(below, f, x)
    decreases f.scope, |f.scope.instrs| - f.at
  {
    hide InnermostLoop;
    var ins := f.scope.instrs[f.at];
    if (ins.Nested? || ins.Branch?) && !Linkable(ins.scope, 0) {
      x := Dangles(below + [f], f.Sub());
      assert OwnsBody(f, x.l) by { assert Owns(f.Sub(), x.l); SubOwns(f, x.l); }
      DanglesInPiece(below, f, x);
    } else if !Linkable(f.scope, f.at + 1) {
      x := Dangles(below, f.Next());
      if Bind(x.l) in Piece(below, f) { PieceBinds(below, f, x.l); }
    } else {
      x := DanglesHere(below, f);
    }
  }

  lemma {:induction false} DanglesInPiece(below: seq<Frame>, f: Frame, x: Flat)
    requires f.Valid() && f.at < |f.scope.instrs| && !f.scope.instrs[f.at].Return?
    requires x in Piece(below, f) && IsJump(x) && OwnsBody(f, x.l) && Bind(x.l) !in Piece(below, f)
    ensures Dangling(below, f, x)
  {
    if Bind(x.l) in Emit(below, f.Next()) { EmitBinds(below, f.Next(), x.l); }
  }

  // The instruction at f.at itself is what does not link.
  lemma {:induction false} DanglesHere(below: seq<Frame>, f: Frame) returns (x: Flat)
    requires f.Valid() && !Linkable(f.scope, f.at) && Linkable(f.scope, f.at + 1)
    requires var ins := f.scope.instrs[f.at]; ins.Nested? || ins.Branch? ==> Linkable(ins.scope, 0)
    ensures Dangling(below, f, x)
  {
    hide InnermostLoop;
    var q, b := f.path + [f.at], f.scope.instrs[f.at].scope;
    assert q[..|f.path|] == f.path && q[|f.path|] == f.at;
    BodyMisses(below + [f], f.Sub());
    if f.scope.instrs[f.at].kind.While? {
      LoopPush(below, f, f.Sub());
      if b.instrs == [] {
        x := Jne(Begin(q));
        assert x in Closing(f.Sub());
      } else {
        x := Jmp(LoopEnd(q));
        BreakJumps(below + [f], f.Sub());
      }
      DanglesInPiece(below, f, x);
    } else {
      var g := f.Next();
      var q' := f.path + [f.at + 1];
      assert q'[..|f.path|] == f.path && q'[|f.path|] == f.at + 1;
      x := Je(Begin(q'));
      assert x in Head(f);
      BodyMisses(below + [g], g.Sub());
      if Bind(x.l) in Piece(below, f) { PieceBinds(below, f, x.l); }
      if Bind(x.l) in Emit(below, g) {
        assert Bind(x.l) !in Piece(below, g);
        EmitBinds(below, g.Next(), x.l);
      }
    }
  }

  lemma {:induction false} MainLoop(main: Scope)
    ensures InnermostLoop([] + [MainFrame(main)]) == None
  {
    assert ([] + [MainFrame(main)])[..0] == [];
  }

  // The code of a program can be assembled exactly when the program links.
  lemma {:induction false} CompileResolves(main: Scope)
    ensures Resolved(Compile(main)) <==> Linkable(main, 0)
  {
    hide Emit, Linkable, InnermostLoop;
    var f := MainFrame(main);
    var body := Emit([], f);
    MainLoop(main);
    if Linkable(main, 0) {
      forall x | x in Compile(main) && IsJump(x)
        ensures Bind(x.l) in Compile(main)
      {
        assert x in body;
        JumpsResolve([], f, x);
      }
    } else {
      var x := Dangles([], f);
      assert x in Compile(main) && Bind(x.l) !in Compile(main);
    }
  }
}
