// The builder: scopes under construction, which refer to their parent and to
// their children, and can go on growing after their children exist.
module Builder {
  import opened Program
  import opened ArgBlock
  import opened Branches

  datatype Error =
    NotOwned | NoBranch | NotAdjacent | NotMyChild | ReturnMismatch | CountMismatch | TypeMismatch | ExpressionArgument

  datatype Result<+T> = Ok(value: T) | Err(error: Error)

  // An instruction as the builder stores it: a scope or a branch holds the
  // object of its body.
  datatype Item =
    | Plain(ins: Instr)
    | Child(scope: RectifiedScope)
    | Choice(kind: BranchKind, scope: RectifiedScope)

  // A variable is known by the scope that declared it and its offset there.
  datatype VariableRef = VariableRef(owner: RectifiedScope, offset: nat, ty: Type)

  class RectifiedScope {
    const parent: RectifiedScope?
    ghost const depth: nat
    var instructions: seq<Item>
    var branches: seq<nat>      // the offsets of the branches pushed
    var currentScopeOffset: nat

    // The offsets recorded are those of the branches, in order; an `else` comes
    // right after a branch.
    ghost predicate Valid()
      reads this
    {
      && currentScopeOffset == |instructions|
      && branches == BranchOffsets(instructions, |instructions|)
      && (forall i: nat :: i < |instructions| && IsElseItem(instructions[i]) ==> 0 < i && instructions[i - 1].Choice?)
      && (forall i: nat :: i < |instructions| && instructions[i].Plain? ==>
            !instructions[i].ins.Nested? && !instructions[i].ins.Branch?)
      && Chained()
    }

    constructor (parent: RectifiedScope?)
      requires parent != null ==> parent.Chained()
      ensures Valid() && instructions == [] && this.parent == parent
    {
      this.parent := parent;
      depth := if parent == null then 0 else parent.depth + 1;
      instructions, branches, currentScopeOffset := [], [], 0;
    }

    method PushInstruction(item: Item)
      requires Valid() && !item.Choice?
      requires item.Plain? ==> !item.ins.Nested? && !item.ins.Branch?
      modifies this
      ensures Valid() && instructions == old(instructions) + [item]
    {
      BranchOffsetsPush(instructions, item);
      instructions := instructions + [item];
      currentScopeOffset := currentScopeOffset + 1;
    }

    method PushBranch(kind: BranchKind, child: RectifiedScope)
      requires Valid() && (kind.Else? ==> instructions != [] && instructions[|instructions| - 1].Choice?)
      modifies this
      ensures Valid() && instructions == old(instructions) + [Choice(kind, child)]
    {
      BranchOffsetsPush(instructions, Choice(kind, child));
      branches := branches + [currentScopeOffset];
      instructions := instructions + [Choice(kind, child)];
      currentScopeOffset := currentScopeOffset + 1;
    }

    // The condition must have been parsed for this scope; whose child the body is
    // is not looked at.
    method IfBranch(host: RectifiedScope, cond: Expr, child: RectifiedScope) returns (r: Result<()>)
      requires Valid()
      modifies this
      ensures Valid() && (r.Ok? <==> host == this)
      ensures instructions == old(instructions) + if r.Ok? then [Choice(If(cond), child)] else []
    {
      if host != this { return Err(NotOwned); }
      PushBranch(If(cond), child);
      r := Ok(());
    }

    method WhileBranch(host: RectifiedScope, cond: Expr, child: RectifiedScope) returns (r: Result<()>)
      requires Valid()
      modifies this
      ensures Valid() && (r.Ok? <==> host == this)
      ensures instructions == old(instructions) + if r.Ok? then [Choice(While(cond), child)] else []
    {
      if host != this { return Err(NotOwned); }
      PushBranch(While(cond), child);
      r := Ok(());
    }

    method CreateVariable(ty: Type) returns (v: VariableRef)
      requires Valid()
      modifies this
      ensures Valid() && instructions == old(instructions) + [Plain(Declare(ty))]
      ensures v == VariableRef(this, |old(instructions)|, ty)
    {
      v := VariableRef(this, currentScopeOffset, ty);
      PushInstruction(Plain(Declare(ty)));
    }

    method CreateScope(child: RectifiedScope) returns (r: Result<()>)
      requires Valid()
      modifies this
      ensures Valid() && (r.Ok? <==> child.parent == this)
      ensures instructions == old(instructions) + if r.Ok? then [Child(child)] else []
    {
      if child.parent != this { return Err(NotMyChild); }
      PushInstruction(Child(child));
      r := Ok(());
    }

    // The check goes by the offset of the last branch pushed; it accepts exactly
    // when the last instruction is a branch, of whatever kind.
    method ElseBranch(child: RectifiedScope) returns (r: Result<()>)
      requires Valid()
      modifies this
      ensures Valid()
      ensures r.Ok? <==> old(instructions) != [] && old(instructions)[|old(instructions)| - 1].Choice?
      ensures instructions == old(instructions) + if r.Ok? then [Choice(Else, child)] else []
    {
      LastOffset(instructions);
      if branches == [] { return Err(NoBranch); }
      if branches[|branches| - 1] != currentScopeOffset - 1 { return Err(NotAdjacent); }
      PushBranch(Else, child);
      r := Ok(());
    }

    function HasVariable(v: VariableRef): bool
      reads this
    {
      v.owner == this && v.offset <= currentScopeOffset
    }

    // Walks up until a scope claims the variable or there is no parent left.
    predicate HasVariableInAllScope(v: VariableRef)
      requires Chained()
      reads Chain()
      decreases depth
    {
      HasVariable(v) || (parent != null && parent.HasVariableInAllScope(v))
    }

    ghost function Chain(): set<object>
      decreases depth
    {
      {this} + if parent != null && parent.depth < depth then parent.Chain() else {}
    }

    ghost predicate Chained()
      decreases depth
    {
      parent != null ==> parent.depth < depth && parent.Chained()
    }

    // Whoever holds a body is its parent.
    ghost predicate OwnsChildren()
      reads this
    {
      forall i: nat :: i < |instructions| && !instructions[i].Plain? ==> instructions[i].scope.parent == this
    }

    // What the front end does: it makes each body itself, with this as its parent.
    method OpenScope() returns (child: RectifiedScope)
      requires Valid() && OwnsChildren()
      modifies this
      ensures Valid() && OwnsChildren() && instructions == old(instructions) + [Child(child)]
      ensures fresh(child) && child.Valid() && child.OwnsChildren() && child.instructions == [] && child.parent == this
    {
      child := new RectifiedScope(this);
      var r := CreateScope(child);
    }

    method OpenIf(cond: Expr) returns (child: RectifiedScope)
      requires Valid() && OwnsChildren()
      modifies this
      ensures Valid() && OwnsChildren() && instructions == old(instructions) + [Choice(If(cond), child)]
      ensures fresh(child) && child.Valid() && child.OwnsChildren() && child.instructions == [] && child.parent == this
    {
      child := new RectifiedScope(this);
      var r := IfBranch(this, cond, child);
    }

    method OpenWhile(cond: Expr) returns (child: RectifiedScope)
      requires Valid() && OwnsChildren()
      modifies this
      ensures Valid() && OwnsChildren() && instructions == old(instructions) + [Choice(While(cond), child)]
      ensures fresh(child) && child.Valid() && child.OwnsChildren() && child.instructions == [] && child.parent == this
    {
      child := new RectifiedScope(this);
      var r := WhileBranch(this, cond, child);
    }

    method OpenElse() returns (child: RectifiedScope, r: Result<()>)
      requires Valid() && OwnsChildren()
      modifies this
      ensures Valid() && OwnsChildren()
      ensures instructions == old(instructions) + if r.Ok? then [Choice(Else, child)] else []
      ensures r.Ok? <==> old(instructions) != [] && old(instructions)[|old(instructions)| - 1].Choice?
      ensures fresh(child) && child.Valid() && child.OwnsChildren() && child.instructions == [] && child.parent == this
    {
      child := new RectifiedScope(this);
      r := ElseBranch(child);
    }
  }

  predicate IsElseItem(item: Item) { item.Choice? && item.kind.Else? }

  function BranchOffsets(items: seq<Item>, n: nat): seq<nat>
    requires n <= |items|
  {
    if n == 0 then [] else BranchOffsets(items, n - 1) + if items[n - 1].Choice? then [n - 1] else []
  }

  lemma {:induction false} BranchOffsetsPrefix(items: seq<Item>, item: Item, n: nat)
    requires n <= |items|
    ensures BranchOffsets(items + [item], n) == BranchOffsets(items, n)
  {
    if n > 0 { BranchOffsetsPrefix(items, item, n - 1); }
  }

  lemma {:induction false} BranchOffsetsPush(items: seq<Item>, item: Item)
    ensures BranchOffsets(items + [item], |items| + 1) ==
            BranchOffsets(items, |items|) + if item.Choice? then [|items|] else []
  {
    BranchOffsetsPrefix(items, item, |items|);
  }

  lemma {:induction false} OffsetsBelow(items: seq<Item>, n: nat)
    requires n <= |items|
    ensures forall k :: 0 <= k < |BranchOffsets(items, n)| ==> BranchOffsets(items, n)[k] < n
  {
    if n > 0 { OffsetsBelow(items, n - 1); }
  }

  // The last recorded offset is the last instruction's exactly when that is a branch.
  lemma {:induction false} LastOffset(items: seq<Item>)
    ensures var b := BranchOffsets(items, |items|);
            (b != [] && b[|b| - 1] == |items| - 1) <==> (items != [] && items[|items| - 1].Choice?)
  {
    if items != [] { OffsetsBelow(items, |items| - 1); }
  }

  // ---------- What has been built ----------

  // The tree that a scope object and the objects under it stand for.
  ghost predicate Built(b: RectifiedScope, s: Scope)
    reads *
    decreases s
  {
    b.Valid() && |b.instructions| == |s.instrs| &&
    forall i: nat :: i < |s.instrs| ==>
      match b.instructions[i]
      case Plain(ins) => s.instrs[i] == ins
      case Child(c) => s.instrs[i].Nested? && Built(c, s.instrs[i].scope)
      case Choice(k, c) => s.instrs[i].Branch? && s.instrs[i].kind == k && Built(c, s.instrs[i].scope)
  }

  // The object that stands for the scope at path p.
  ghost function ObjectAt(b: RectifiedScope, s: Scope, p: Path): (c: RectifiedScope)
    requires Built(b, s) && IsScope(s, p)
    reads *
    ensures Built(c, ScopeAt(s, p)) && c.Chained()
    decreases |p|
  {
    if p == [] then b
    else
      assert s.instrs[p[0]].Nested? || s.instrs[p[0]].Branch?;
      ObjectAt(b.instructions[p[0]].scope, s.instrs[p[0]].scope, p[1..])
  }

  // Every built program meets the guard of the branch report: the pairing of
  // each `else` is decided before code generation.
  lemma {:induction false} BuiltElsesFollowBranches(b: RectifiedScope, s: Scope)
    requires Built(b, s)
    ensures ElsesFollowBranches(s)
  {
    hide IsScope, ScopeAt;
    forall p: Path, i: nat | IsScope(s, p) && IsElse(ScopeAt(s, p), i)
      ensures 0 < i && ScopeAt(s, p).instrs[i - 1].Branch?
    {
      var c := ObjectAt(b, s, p);
      assert IsElseItem(c.instructions[i]);
    }
  }

  // ---------- Ownership and position ----------

  // The body at p + [i] is the one the object at p holds there.
  lemma {:induction false} ObjectBelow(b: RectifiedScope, s: Scope, p: Path, i: nat)
    requires Built(b, s) && IsScope(s, p) && IsScope(s, p + [i])
    ensures i < |ObjectAt(b, s, p).instructions| && !ObjectAt(b, s, p).instructions[i].Plain?
    ensures ObjectAt(b, s, p + [i]) == ObjectAt(b, s, p).instructions[i].scope
    decreases |p|
  {
    if p == [] {
      assert (p + [i])[1..] == [];
      assert s.instrs[i].Nested? || s.instrs[i].Branch?;
    } else {
      assert (p + [i])[1..] == p[1..] + [i];
      ObjectBelow(b.instructions[p[0]].scope, s.instrs[p[0]].scope, p[1..], i);
    }
  }

  // Each object of the tree is the parent of the bodies it holds, and the object
  // of the main scope has none.
  ghost predicate Attached(b: RectifiedScope, s: Scope)
    requires Built(b, s)
    reads *
  {
    b.parent == null && forall p: Path :: IsScope(s, p) ==> ObjectAt(b, s, p).OwnsChildren()
  }

  // An enclosing scope: the object at a prefix of the path.
  ghost predicate Encloses(b: RectifiedScope, s: Scope, p: Path, n: nat, o: RectifiedScope)
    requires Built(b, s) && IsScope(s, p)
    reads *
  {
    n <= |p| && IsScope(s, p[..n]) && ObjectAt(b, s, p[..n]) == o
  }

  lemma {:induction false} ScopeAbove(s: Scope, p: Path)
    requires IsScope(s, p) && p != []
    ensures IsScope(s, p[..|p| - 1])
    decreases |p|
  {
    if |p| > 1 {
      ScopeAbove(s.instrs[p[0]].scope, p[1..]);
      assert p[..|p| - 1][1..] == p[1..][..|p| - 2];
    }
  }

  lemma {:induction false} ParentAt(b: RectifiedScope, s: Scope, p: Path)
    requires Built(b, s) && Attached(b, s) && IsScope(s, p) && p != []
    ensures IsScope(s, p[..|p| - 1]) && ObjectAt(b, s, p).parent == ObjectAt(b, s, p[..|p| - 1])
  {
    hide Built, IsScope;
    ScopeAbove(s, p);
    var up, i := p[..|p| - 1], p[|p| - 1];
    assert p == up + [i];
    ObjectBelow(b, s, up, i);
  }

  // In an attached tree the objects on a path are ever deeper, so that no object
  // encloses itself.
  lemma {:induction false} DeeperBelow(b: RectifiedScope, s: Scope, p: Path, n: nat)
    requires Built(b, s) && Attached(b, s) && IsScope(s, p) && n < |p|
    ensures IsScope(s, p[..n]) && ObjectAt(b, s, p[..n]).depth < ObjectAt(b, s, p).depth
    decreases |p|
  {
    hide IsScope;
    ParentAt(b, s, p);
    var up := p[..|p| - 1];
    if n < |up| {
      assert up[..n] == p[..n];
      DeeperBelow(b, s, up, n);
    }
  }

  // One of the scopes around p, the scope at p included.
  ghost predicate Enclosed(b: RectifiedScope, s: Scope, p: Path, o: RectifiedScope)
    requires Built(b, s) && IsScope(s, p)
    reads *
  {
    exists n: nat :: Encloses(b, s, p, n, o)
  }

  // A variable its owner has declared.
  ghost predicate Issued(v: VariableRef)
    reads v.owner
  {
    v.offset < |v.owner.instructions| && v.owner.instructions[v.offset] == Plain(Declare(v.ty))
  }

  // The builder accepts a use at p exactly when the variable's owner is the scope
  // at p or one that encloses it, wherever in that scope the declaration is.
  lemma {:induction false} AcceptedWhenEnclosed(b: RectifiedScope, s: Scope, p: Path, v: VariableRef)
    requires Built(b, s) && Attached(b, s) && IsScope(s, p) && v.offset <= v.owner.currentScopeOffset
    ensures ObjectAt(b, s, p).HasVariableInAllScope(v) <==> Enclosed(b, s, p, v.owner)
    decreases |p|
  {
    hide IsScope;
    var o := ObjectAt(b, s, p);
    assert p[..|p|] == p;
    if p == [] {
      if n: nat :| Encloses(b, s, p, n, v.owner) { assert p[..n] == p; }
      assert Encloses(b, s, p, 0, o);
    } else {
      ParentAt(b, s, p);
      AcceptedWhenEnclosed(b, s, p[..|p| - 1], v);
      assert Encloses(b, s, p, |p|, o);
      EnclosedUp(b, s, p, v.owner);
    }
  }

  // What encloses a body is itself or encloses the scope that holds it.
  lemma {:induction false} EnclosedUp(b: RectifiedScope, s: Scope, p: Path, o: RectifiedScope)
    requires Built(b, s) && IsScope(s, p) && p != [] && IsScope(s, p[..|p| - 1])
    ensures Enclosed(b, s, p, o) <==>
            ObjectAt(b, s, p) == o || Enclosed(b, s, p[..|p| - 1], o)
  {
    hide IsScope, Built;
    var up := p[..|p| - 1];
    assert p[..|p|] == p;
    if n: nat :| Encloses(b, s, up, n, o) {
      assert up[..n] == p[..n];
      assert Encloses(b, s, p, n, o);
    }
    if ObjectAt(b, s, p) == o { assert Encloses(b, s, p, |p|, o); }
    if n: nat :| Encloses(b, s, p, n, o) && n < |p| {
      assert up[..n] == p[..n];
      assert Encloses(b, s, up, n, o);
    }
  }

  // Of an accepted use, the enclosing scope that owns the variable is one, the
  // tree declares the variable there, and the use at index i comes after the
  // declaration exactly when the declaration's offset is smaller than the use's
  // own index, or than that of the body that leads to it.
  lemma {:induction false} AcceptedIsVisible(b: RectifiedScope, s: Scope, p: Path, i: nat, v: VariableRef)
    returns (n: nat)
    requires Built(b, s) && Attached(b, s) && IsScope(s, p)
    requires v.owner.Valid() && Issued(v) && ObjectAt(b, s, p).HasVariableInAllScope(v)
    ensures Encloses(b, s, p, n, v.owner) && forall m: nat :: Encloses(b, s, p, m, v.owner) ==> m == n
    ensures v.offset < |ScopeAt(s, p[..n]).instrs| && ScopeAt(s, p[..n]).instrs[v.offset] == Declare(v.ty)
    ensures Visible(p[..n] + [v.offset], p + [i]) <==> v.offset < (p + [i])[n]
  {
    hide IsScope, ScopeAt;
    AcceptedWhenEnclosed(b, s, p, v);
    n :| Encloses(b, s, p, n, v.owner);
    forall m: nat | Encloses(b, s, p, m, v.owner) ensures m == n {
      if m < n { EnclosingDeeper(b, s, p, m, n); }
      if n < m { EnclosingDeeper(b, s, p, n, m); }
    }
    var site := p[..n] + [v.offset];
    assert site[..|site| - 1] == p[..n] == (p + [i])[..n];
  }

  lemma {:induction false} EnclosingDeeper(b: RectifiedScope, s: Scope, p: Path, m: nat, n: nat)
    requires Built(b, s) && Attached(b, s) && m < n <= |p| && IsScope(s, p[..n])
    ensures IsScope(s, p[..m]) && ObjectAt(b, s, p[..m]) != ObjectAt(b, s, p[..n])
  {
    hide Built, IsScope;
    assert p[..n][..m] == p[..m];
    DeeperBelow(b, s, p[..n], m);
  }

  lemma {:induction false} ParentHas(b: RectifiedScope, v: VariableRef)
    requires b.Chained() && b.parent == v.owner && v.offset <= v.owner.currentScopeOffset
    ensures b.HasVariableInAllScope(v)
  {
    assert b.parent.HasVariable(v);
  }

  // Such a use behind the declaration is left to the caller to avoid: a parent
  // extended after its child was attached hands the child variables that are
  // declared behind it.
  method DeclareBehind(ty: Type)
    returns (main: RectifiedScope, body: RectifiedScope, v: VariableRef, accepted: bool)
    ensures var tree := BehindTree(ty);
            && Built(main, tree) && Attached(main, tree)
            && IsScope(tree, [0]) && ObjectAt(main, tree, [0]) == body
            && v.owner == main && Issued(v) && accepted && accepted == body.HasVariableInAllScope(v)
    ensures !Visible([v.offset], [0, 0])
  {
    hide Built, Attached, IsScope, Visible;
    main := new RectifiedScope(null);
    body := main.OpenScope();
    v := main.CreateVariable(ty);
    accepted := body.HasVariableInAllScope(v);
    BehindIsBuilt(main, body, ty);
    ParentHas(body, v);
    VisibleSelfOnly();
  }

  function BehindTree(ty: Type): Scope { Scope([Nested(Scope([])), Declare(ty)]) }

  lemma {:induction false} VisibleSelfOnly()
    ensures !Visible([1], [0, 0])
  {
  }

  lemma {:induction false} BehindIsBuilt(main: RectifiedScope, body: RectifiedScope, ty: Type)
    requires main.Valid() && main.instructions == [Child(body), Plain(Declare(ty))] && main.parent == null
    requires body.Valid() && body.instructions == [] && body.parent == main
    ensures var tree := BehindTree(ty);
            Built(main, tree) && Attached(main, tree) && IsScope(tree, [0]) && ObjectAt(main, tree, [0]) == body
  {
    assert Built(body, Scope([]));
    OneBody(BehindTree(ty));
  }

  // ---------- Bodies with another parent ----------

  // A scope object stands for one tree.
  lemma {:induction false} BuiltOnce(b: RectifiedScope, s: Scope, s': Scope)
    requires Built(b, s) && Built(b, s')
    ensures s == s'
    decreases s
  {
    forall i: nat | i < |s.instrs| ensures s.instrs[i] == s'.instrs[i] {
      match b.instructions[i] {
        case Plain(_) =>
        case Child(c) => BuiltOnce(c, s.instrs[i].scope, s'.instrs[i].scope);
        case Choice(_, c) => BuiltOnce(c, s.instrs[i].scope, s'.instrs[i].scope);
      }
    }
    assert s.instrs == s'.instrs;
  }

  // The owner of an accepted variable is the scope or a shallower one.
  lemma {:induction false} AcceptedShallower(b: RectifiedScope, v: VariableRef)
    requires b.Chained() && b.HasVariableInAllScope(v)
    ensures v.owner == b || v.owner.depth < b.depth
    decreases b.depth
  {
    if !b.HasVariable(v) { AcceptedShallower(b.parent, v); }
  }

  lemma {:induction false} NestedElsewhere(b: RectifiedScope, s: Scope, p: Path, i: nat)
    requires Built(b, s) && IsScope(s, p) && IsScope(s, p + [i])
    ensures ObjectAt(b, s, p + [i]) != ObjectAt(b, s, p)
  {
    hide IsScope, ScopeAt;
    ScopeSnoc(s, p, i);
    if ObjectAt(b, s, p + [i]) == ObjectAt(b, s, p) {
      BuiltOnce(ObjectAt(b, s, p), ScopeAt(s, p), ScopeAt(s, p).instrs[i].scope);
    }
  }

  // One link, from what is accepted at its two ends.
  lemma {:induction false} LinkFromAcceptance(b: RectifiedScope, s: Scope, p: Path, i: nat)
    requires Built(b, s) && IsScope(s, p) && IsScope(s, p + [i])
    requires forall q: Path, v: VariableRef :: IsScope(s, q) && v.offset <= v.owner.currentScopeOffset ==>
               (ObjectAt(b, s, q).HasVariableInAllScope(v) <==> Enclosed(b, s, q, v.owner))
    ensures ObjectAt(b, s, p + [i]).parent == ObjectAt(b, s, p)
  {
    hide IsScope;
    var o, c := ObjectAt(b, s, p), ObjectAt(b, s, p + [i]);
    var ty := Type(1, false, true);
    var v := VariableRef(o, 0, ty);
    NestedElsewhere(b, s, p, i);
    assert (p + [i])[..|p + [i]| - 1] == p && p[..|p|] == p;
    assert Encloses(b, s, p, |p|, o);
    EnclosedUp(b, s, p + [i], o);
    assert c.HasVariableInAllScope(v);
    assert c.parent.HasVariableInAllScope(v);
    AcceptedShallower(c.parent, v);
    var w := VariableRef(c.parent, 0, ty);
    assert c.parent.HasVariable(w);
    assert c.HasVariableInAllScope(w);
    EnclosedUp(b, s, p + [i], c.parent);
    assert o.HasVariableInAllScope(w);
    AcceptedShallower(o, w);
  }

  lemma {:induction false} UnattachedDisagrees(b: RectifiedScope, s: Scope)
    requires Built(b, s) && b.parent == null && !Attached(b, s)
    ensures exists p: Path, v: VariableRef :: IsScope(s, p) && v.offset <= v.owner.currentScopeOffset &&
              (ObjectAt(b, s, p).HasVariableInAllScope(v) <==> !Enclosed(b, s, p, v.owner))
  {
    hide IsScope, Enclosed, Built;
    var p: Path :| IsScope(s, p) && !ObjectAt(b, s, p).OwnsChildren();
    var o := ObjectAt(b, s, p);
    var i: nat :| i < |o.instructions| && !o.instructions[i].Plain? && o.instructions[i].scope.parent != o;
    BodyIsScope(b, s, p, i);
    ObjectBelow(b, s, p, i);
    if forall q: Path, v: VariableRef :: IsScope(s, q) && v.offset <= v.owner.currentScopeOffset ==>
             (ObjectAt(b, s, q).HasVariableInAllScope(v) <==> Enclosed(b, s, q, v.owner)) {
      LinkFromAcceptance(b, s, p, i);
    }
  }

  // `if_branch`, `else_branch` and `while_branch` do not check that the body they
  // are given is this scope's. Acceptance follows the nesting of the tree exactly
  // when every body was given to its own parent.
  lemma {:induction false} AttachedDecides(b: RectifiedScope, s: Scope)
    requires Built(b, s) && b.parent == null
    ensures Attached(b, s) <==>
            forall p: Path, v: VariableRef :: IsScope(s, p) && v.offset <= v.owner.currentScopeOffset ==>
              (ObjectAt(b, s, p).HasVariableInAllScope(v) <==> Enclosed(b, s, p, v.owner))
  {
    hide IsScope, Enclosed, Built, Attached;
    if Attached(b, s) {
      forall p: Path, v: VariableRef | IsScope(s, p) && v.offset <= v.owner.currentScopeOffset
        ensures ObjectAt(b, s, p).HasVariableInAllScope(v) <==> Enclosed(b, s, p, v.owner)
      {
        AcceptedWhenEnclosed(b, s, p, v);
      }
    } else {
      UnattachedDisagrees(b, s);
    }
  }

  lemma {:induction false} BodyIsScope(b: RectifiedScope, s: Scope, p: Path, i: nat)
    requires Built(b, s) && IsScope(s, p)
    requires i < |ObjectAt(b, s, p).instructions| && !ObjectAt(b, s, p).instructions[i].Plain?
    ensures IsScope(s, p + [i])
  {
    hide IsScope, ScopeAt;
    ScopeSnoc(s, p, i);
    assert Built(ObjectAt(b, s, p), ScopeAt(s, p));
  }

  // A body of a given to y as a loop body: it accepts a variable that is nowhere
  // in y's tree.
  method BorrowBody(cond: Expr, ty: Type)
    returns (a: RectifiedScope, y: RectifiedScope, body: RectifiedScope, v: VariableRef, accepted: bool)
    ensures v.owner == a && Issued(v) && body.Chained() && accepted && accepted == body.HasVariableInAllScope(v)
    ensures var tree := OneLoop(cond);
            && Built(y, tree) && y.parent == null && !Attached(y, tree)
            && IsScope(tree, [0]) && ObjectAt(y, tree, [0]) == body
            && forall p: Path :: IsScope(tree, p) ==> ObjectAt(y, tree, p) != a
  {
    hide Built, Attached, IsScope;
    a := new RectifiedScope(null);
    v := a.CreateVariable(ty);
    body := new RectifiedScope(a);
    y := new RectifiedScope(null);
    var r := y.WhileBranch(y, cond, body);
    accepted := body.HasVariableInAllScope(v);
    BorrowedTree(a, y, body, cond);
    ParentHas(body, v);
  }

  function OneLoop(cond: Expr): Scope { Scope([Branch(While(cond), Scope([]))]) }

  lemma {:induction false} BorrowedTree(a: RectifiedScope, y: RectifiedScope, body: RectifiedScope, cond: Expr)
    requires y.Valid() && y.instructions == [Choice(While(cond), body)]
    requires body.Valid() && body.instructions == [] && body.parent == a && a != y && a != body
    ensures var tree := OneLoop(cond);
            && Built(y, tree) && !Attached(y, tree)
            && IsScope(tree, [0]) && ObjectAt(y, tree, [0]) == body
            && forall p: Path :: IsScope(tree, p) ==> ObjectAt(y, tree, p) != a
  {
    var tree := OneLoop(cond);
    assert Built(body, Scope([]));
    OneBody(tree);
    assert ObjectAt(y, tree, []) == y && !y.OwnsChildren();
  }

  // A tree with one empty body has two scopes.
  lemma {:induction false} OneBody(tree: Scope)
    requires tree.instrs != [] && (tree.instrs[0].Nested? || tree.instrs[0].Branch?) &&
             tree.instrs[0].scope.instrs == []
    requires forall i :: 0 < i < |tree.instrs| ==> !tree.instrs[i].Nested? && !tree.instrs[i].Branch?
    ensures forall p: Path :: IsScope(tree, p) <==> p == [] || p == [0]
  {
    forall p: Path ensures IsScope(tree, p) <==> p == [] || p == [0] {
      if p != [] && p[0] == 0 && |p| > 1 { assert !IsScope(tree.instrs[0].scope, p[1..]); }
      if |p| == 1 { assert p[1..] == [] && p == [p[0]]; }
    }
  }

  // ---------- Invocations ----------

  datatype ArgumentValue = Immediate(ty: Type) | Argument(index: nat) | Stored(ty: Type) | Expression

  // The type of a value passed on, given the types of the caller's own arguments.
  function PassedType(own: seq<Type>, x: ArgumentValue): Option<Type>
    requires x.Argument? ==> x.index < |own|
  {
    match x
    case Immediate(ty) => Some(ty)
    case Argument(i) => Some(own[i])
    case Stored(ty) => Some(ty)
    case Expression => None
  }

  function SizesOfTypes(types: seq<Type>): seq<nat> {
    seq(|types|, i requires 0 <= i < |types| => types[i].size as nat)
  }

  // The check of a call, and the size of its arguments: the callee's own total,
  // so that caller and callee lay out the same block. It asks the caller to have
  // as many arguments as the callee, too.
  method CreateInvocation(own: seq<Type>, callee: seq<Type>, retType: Type, args: seq<ArgumentValue>,
                          ret: Option<VariableRef>)
    returns (r: Result<nat>)
    requires forall i :: 0 <= i < |args| && args[i].Argument? ==> args[i].index < |own|
    ensures r.Ok? <==>
            && (ret.Some? ==> ret.value.ty == retType)
            && |own| == |callee| == |args|
            && (forall i :: 0 <= i < |args| ==> PassedType(own, args[i]) == Some(callee[i]))
    ensures r.Ok? ==> r.value == Total(SizesOfTypes(callee))
  {
    if ret.Some? && ret.value.ty != retType { return Err(ReturnMismatch); }
    if |own| != |callee| || |callee| != |args| { return Err(CountMismatch); }
    var totalSize := 0;
    var sizes := SizesOfTypes(callee);
    var i := 0;
    while i < |callee|
      invariant 0 <= i <= |callee| && totalSize == Prefix(sizes, i)
      invariant forall k :: 0 <= k < i ==> PassedType(own, args[k]) == Some(callee[k])
    {
      match args[i] {
        case Immediate(ty) =>
          if ty != callee[i] { return Err(TypeMismatch); }
          totalSize := totalSize + ty.size;
        case Argument(index) =>
          if own[index] != callee[i] { return Err(TypeMismatch); }
          totalSize := totalSize + own[index].size;
        case Stored(ty) =>
          if ty != callee[i] { return Err(TypeMismatch); }
          totalSize := totalSize + ty.size;
        case Expression => return Err(ExpressionArgument);
      }
      i := i + 1;
    }
    r := Ok(totalSize);
  }
}
