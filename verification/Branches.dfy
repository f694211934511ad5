// The branch report: a breadth-first walk over the branches of a function that
// gives each one its labels and tells every `if` where its `else` is.
module Branches {
  import opened Program
  import opened Emission

  // What the builder checks when an `else` is added: the instruction before it
  // is a branch.
  ghost predicate ElsesFollowBranches(main: Scope) {
    forall p, i {:trigger ScopeAt(main, p).instrs[i]} ::
      IsScope(main, p) && 0 <= i < |ScopeAt(main, p).instrs| && IsElse(ScopeAt(main, p), i)
      ==> 0 < i && ScopeAt(main, p).instrs[i - 1].Branch?
  }

  predicate IsElse(s: Scope, i: nat) {
    i < |s.instrs| && s.instrs[i].Branch? && s.instrs[i].kind.Else?
  }

  // A branch instruction as the queue holds it.
  datatype Item = Item(site: Path, kind: BranchKind, scope: Scope)

  // `get_branches()`: the branches of the scope at p, in order.
  function BranchesOf(p: Path, s: Scope): seq<Item> {
    FirstBranches(p, s, |s.instrs|)
  }

  function FirstBranches(p: Path, s: Scope, n: nat): seq<Item>
    requires n <= |s.instrs|
  {
    if n == 0 then []
    else
      FirstBranches(p, s, n - 1) +
      (match s.instrs[n - 1]
       case Branch(k, b) => [Item(p + [n - 1], k, b)]
       case _ => [])
  }

  // Whether the branch at a non-empty path is followed by an `else`.
  predicate HasElse(main: Scope, q: Path)
    requires q != []
  {
    IsScope(main, q[..|q| - 1]) && ElseFollows(ScopeAt(main, q[..|q| - 1]), q[|q| - 1])
  }

  function Pairing(main: Scope, q: Path): Option<Path>
    requires q != []
  {
    if HasElse(main, q) then Some(Sibling(q)) else None
  }

  // The report the walk must produce: exactly the branches reached through
  // branch bodies, each with the `else` that follows it, if one does.
  ghost predicate IsReport(main: Scope, report: map<Path, Option<Path>>) {
    && (forall q :: q in report <==> q != [] && ThroughBranches(main, q))
    && (forall q :: q in report ==> q != [] && report[q] == Pairing(main, q))
  }

  // The instruction a site stands for, and the parts of a site.
  function Up(q: Path): Path
    requires q != []
  {
    q[..|q| - 1]
  }

  function Last(q: Path): nat
    requires q != []
  {
    q[|q| - 1]
  }

  lemma {:induction false} SiteParts(p: Path, i: nat)
    ensures p + [i] != [] && Up(p + [i]) == p && Last(p + [i]) == i && Sibling(p + [i]) == p + [i + 1]
  {
    assert (p + [i])[..|p|] == p;
  }

  predicate OnTree(main: Scope, x: Item) {
    && x.site != []
    && IsScope(main, Up(x.site))
    && ThroughBranches(main, x.site)
    && IsScope(main, x.site)
    && ScopeAt(main, x.site) == x.scope
    && Last(x.site) < |ScopeAt(main, Up(x.site)).instrs|
    && ScopeAt(main, Up(x.site)).instrs[Last(x.site)] == Branch(x.kind, x.scope)
  }

  lemma {:induction false} OnTreeSnoc(main: Scope, p: Path, i: nat)
    requires ThroughBranches(main, p) && IsScope(main, p)
    requires i < |ScopeAt(main, p).instrs| && ScopeAt(main, p).instrs[i].Branch?
    ensures var b := ScopeAt(main, p).instrs[i]; OnTree(main, Item(p + [i], b.kind, b.scope))
  {
    SiteParts(p, i);
    ScopeSnoc(main, p, i);
  }

  lemma {:induction false} OnTreeParts(main: Scope, x: Item)
    requires OnTree(main, x)
    ensures x.site != [] && x.site == Up(x.site) + [Last(x.site)]
    ensures IsScope(main, Up(x.site)) && IsScope(main, x.site) && ThroughBranches(main, x.site)
    ensures ScopeAt(main, x.site) == x.scope
    ensures IsElse(ScopeAt(main, Up(x.site)), Last(x.site)) == x.kind.Else?
  {
    hide ThroughBranches, IsScope, ScopeAt;
  }

  // A branch of the tree among the first n instructions of the scope at p.
  predicate BranchIn(main: Scope, p: Path, n: nat, x: Item) {
    OnTree(main, x) && Up(x.site) == p && Last(x.site) < n
  }

  lemma {:induction false} BranchInNext(main: Scope, p: Path, n: nat, x: Item)
    requires BranchIn(main, p, n, x)
    ensures BranchIn(main, p, n + 1, x) && x.site != p + [n]
  {
    hide OnTree;
    SiteParts(p, n);
  }

  lemma {:induction false} FirstBranchesAt(main: Scope, p: Path, s: Scope, n: nat)
    requires ThroughBranches(main, p) && IsScope(main, p) && ScopeAt(main, p) == s && n <= |s.instrs|
    ensures forall k :: 0 <= k < |FirstBranches(p, s, n)| ==> BranchIn(main, p, n, FirstBranches(p, s, n)[k])
    ensures forall k, l :: 0 <= k < l < |FirstBranches(p, s, n)| ==>
              FirstBranches(p, s, n)[k].site != FirstBranches(p, s, n)[l].site
    ensures 0 < n && s.instrs[n - 1].Branch? ==>
              FirstBranches(p, s, n) != [] &&
              FirstBranches(p, s, n)[|FirstBranches(p, s, n)| - 1].site == p + [n - 1]
  {
    hide BranchIn, ThroughBranches, IsScope, ScopeAt;
    if n > 0 {
      var was := FirstBranches(p, s, n - 1);
      FirstBranchesAt(main, p, s, n - 1);
      forall k | 0 <= k < |was|
        ensures BranchIn(main, p, n, was[k]) && was[k].site != p + [n - 1]
      {
        BranchInNext(main, p, n - 1, was[k]);
      }
      if s.instrs[n - 1].Branch? { LastBranchIn(main, p, s, n); }
    }
  }

  lemma {:induction false} LastBranchIn(main: Scope, p: Path, s: Scope, n: nat)
    requires ThroughBranches(main, p) && IsScope(main, p) && ScopeAt(main, p) == s
    requires 0 < n <= |s.instrs| && s.instrs[n - 1].Branch?
    ensures BranchIn(main, p, n, Item(p + [n - 1], s.instrs[n - 1].kind, s.instrs[n - 1].scope))
  {
    OnTreeSnoc(main, p, n - 1);
    SiteParts(p, n - 1);
  }

  lemma {:induction false} FirstBranchesAll(p: Path, s: Scope, n: nat, i: nat) returns (k: nat)
    requires i < n <= |s.instrs| && s.instrs[i].Branch?
    ensures k < |FirstBranches(p, s, n)| && FirstBranches(p, s, n)[k].site == p + [i]
  {
    if i < n - 1 {
      k := FirstBranchesAll(p, s, n - 1, i);
    } else {
      k := |FirstBranches(p, s, n)| - 1;
    }
  }

  // In the order branches are taken, every `else` comes right after its `if`.
  predicate Chained(order: seq<Item>) {
    forall k {:trigger order[k]} :: 0 <= k < |order| && order[k].kind.Else? ==>
      0 < k && order[k - 1].site != [] && Sibling(order[k - 1].site) == order[k].site
  }

  lemma {:induction false} ElseHasBranch(main: Scope, p: Path, i: nat)
    requires ElsesFollowBranches(main) && IsScope(main, p) && IsElse(ScopeAt(main, p), i)
    ensures 0 < i && ScopeAt(main, p).instrs[i - 1].Branch?
  {
    hide IsScope, ScopeAt;
    assert ScopeAt(main, p).instrs[i].Branch?;
  }

  lemma {:induction false} BranchesChained(main: Scope, p: Path, s: Scope, n: nat)
    requires ElsesFollowBranches(main)
    requires ThroughBranches(main, p) && IsScope(main, p) && ScopeAt(main, p) == s && n <= |s.instrs|
    ensures Chained(FirstBranches(p, s, n))
  {
    hide ThroughBranches, IsScope, OnTree, ElsesFollowBranches, Sibling;
    if n > 0 {
      BranchesChained(main, p, s, n - 1);
      if s.instrs[n - 1].Branch? {
        var was := FirstBranches(p, s, n - 1);
        var x := Item(p + [n - 1], s.instrs[n - 1].kind, s.instrs[n - 1].scope);
        if x.kind.Else? { ElseIsChained(main, p, s, n); }
        ChainedSnoc(was, x);
        assert FirstBranches(p, s, n) == was + [x];
      }
    }
  }

  lemma {:induction false} ElseIsChained(main: Scope, p: Path, s: Scope, n: nat)
    requires ElsesFollowBranches(main) && ThroughBranches(main, p) && IsScope(main, p) && ScopeAt(main, p) == s
    requires 0 < n <= |s.instrs| && IsElse(s, n - 1)
    ensures var was := FirstBranches(p, s, n - 1);
            was != [] && was[|was| - 1].site != [] && Sibling(was[|was| - 1].site) == p + [n - 1]
  {
    hide ThroughBranches, IsScope, OnTree, ElsesFollowBranches, Sibling, ScopeAt, FirstBranches;
    ElseHasBranch(main, p, n - 1);
    FirstBranchesAt(main, p, s, n - 1);
    SiteParts(p, n - 2);
  }

  lemma {:induction false} ChainedSnoc(order: seq<Item>, x: Item)
    requires Chained(order)
    requires x.kind.Else? ==>
               order != [] && order[|order| - 1].site != [] && Sibling(order[|order| - 1].site) == x.site
    ensures Chained(order + [x])
  {
    hide Sibling;
    var now := order + [x];
    forall k | 0 <= k < |now| && now[k].kind.Else?
      ensures 0 < k && now[k - 1].site != [] && Sibling(now[k - 1].site) == now[k].site
    {
      if k < |order| { assert now[k] == order[k]; }
    }
  }

  // How many branches can still be reached; the walk's termination measure.
  function Reach(s: Scope, n: nat): nat
    requires n <= |s.instrs|
    decreases s, n
  {
    if n == 0 then 0
    else
      Reach(s, n - 1) +
      (match s.instrs[n - 1]
       case Branch(_, b) => 1 + Reach(b, |b.instrs|)
       case _ => 0)
  }

  function Weight(queue: seq<Item>): nat {
    if queue == [] then 0
    else 1 + Reach(queue[0].scope, |queue[0].scope.instrs|) + Weight(queue[1..])
  }

  lemma {:induction false} WeightConcat(a: seq<Item>, b: seq<Item>)
    ensures Weight(a + b) == Weight(a) + Weight(b)
  {
    if a == [] {
      assert a + b == b;
    } else {
      assert (a + b)[1..] == a[1..] + b;
      WeightConcat(a[1..], b);
    }
  }

  lemma {:induction false} WeightOfBranches(p: Path, s: Scope, n: nat)
    requires n <= |s.instrs|
    ensures Weight(FirstBranches(p, s, n)) == Reach(s, n)
  {
    if n > 0 {
      WeightOfBranches(p, s, n - 1);
      match s.instrs[n - 1] {
        case Branch(k, b) =>
          var x := Item(p + [n - 1], k, b);
          WeightConcat(FirstBranches(p, s, n - 1), [x]);
          assert [x][1..] == [];
        case _ =>
          assert FirstBranches(p, s, n) == FirstBranches(p, s, n - 1);
      }
    }
  }

  predicate Has(order: seq<Item>, n: nat, q: Path)
    requires n <= |order|
  {
    exists k :: 0 <= k < n && order[k].site == q
  }

  predicate Rooted(order: seq<Item>, n: nat, q: Path)
    requires n <= |order|
  {
    q != [] && (|q| == 1 || Has(order, n, Up(q)))
  }

  // The branches met so far, of which the first n have been taken from the
  // queue: no branch occurs twice, and below a taken branch none is missing.
  ghost predicate Walk(main: Scope, order: seq<Item>, n: nat) {
    && n <= |order|
    && (forall k :: 0 <= k < |order| ==> OnTree(main, order[k]) && Rooted(order, n, order[k].site))
    && (forall k, l :: 0 <= k < l < |order| ==> order[k].site != order[l].site)
    && (forall q :: ThroughBranches(main, q) && Rooted(order, n, q) ==> Has(order, |order|, q))
    && Chained(order)
  }

  // The `else` that comes right after the branch at k, among the first n.
  function ElseAt(order: seq<Item>, n: nat, k: nat): Option<Path>
    requires k < n <= |order|
  {
    if k + 1 < n && order[k + 1].kind.Else? then Some(order[k + 1].site) else None
  }

  // The report after the first n branches of the order.
  predicate Reported(order: seq<Item>, n: nat, report: map<Path, Option<Path>>) {
    && n <= |order|
    && (forall k :: 0 <= k < n ==> order[k].site in report)
    && (forall q :: q in report ==> Has(order, n, q))
    && (forall k :: 0 <= k < n ==> report[order[k].site] == ElseAt(order, n, k))
  }

  method CreateBranchesReport(main: Scope) returns (report: map<Path, Option<Path>>)
    requires ElsesFollowBranches(main)
    ensures IsReport(main, report)
  {
    hide Walk, Reported, IsReport, ElsesFollowBranches, FirstBranches, Weight;
    report := map[];
    var queue := BranchesOf([], main);
    var last: Option<Path> := None;
    ghost var order, n := queue, 0;
    StartWalk(main);
    assert order[0..] == order;
    while queue != []
      invariant Walk(main, order, n) && n <= |order| && queue == order[n..]
      invariant Reported(order, n, report)
      invariant last == if n == 0 then None else Some(order[n - 1].site)
      decreases Weight(queue)
    {
      var current := queue[0];
      ghost var was := report;
      ElseNotFirst(main, order, n);
      if current.kind.Else? {
        report := report[last.value := Some(current.site)];
      }
      report := report[current.site := None];
      last := Some(current.site);
      queue := queue[1..] + BranchesOf(current.site, current.scope);
      ReportStep(main, order, n, was, report);
      WalkStep(main, order, n);
      WeightStep(order[n..]);
      order, n := order + BranchesOf(current.site, current.scope), n + 1;
      assert queue == order[n..];
    }
    WalkDone(main, order, report);
  }

  lemma {:induction false} ElseNotFirst(main: Scope, order: seq<Item>, n: nat)
    requires Walk(main, order, n) && n < |order|
    ensures order[n].kind.Else? ==> 0 < n
  {
    hide OnTree, ThroughBranches, Rooted;
  }

  lemma {:induction false} StartWalk(main: Scope)
    requires ElsesFollowBranches(main)
    ensures Walk(main, BranchesOf([], main), 0) && Reported(BranchesOf([], main), 0, map[])
  {
    var order := BranchesOf([], main);
    FirstBranchesAt(main, [], main, |main.instrs|);
    BranchesChained(main, [], main, |main.instrs|);
    forall k | 0 <= k < |order|
      ensures Rooted(order, 0, order[k].site)
    {
      assert OnTree(main, order[k]) && Up(order[k].site) == [];
    }
    forall q | ThroughBranches(main, q) && Rooted(order, 0, q)
      ensures Has(order, |order|, q)
    {
      assert q == [] + [q[0]];
      var k := FirstBranchesAll([], main, |main.instrs|, q[0]);
    }
  }

  lemma {:induction false} RootedStep(order: seq<Item>, subs: seq<Item>, n: nat, q: Path)
    requires n < |order| && Rooted(order, n, q)
    ensures Rooted(order + subs, n + 1, q)
  {
    if |q| > 1 {
      var k :| 0 <= k < n && order[k].site == Up(q);
      assert (order + subs)[k].site == Up(q);
    }
  }

  // Taking one more branch and queueing the branches of its body.
  lemma {:induction false} WalkStep(main: Scope, order: seq<Item>, n: nat)
    requires ElsesFollowBranches(main)
    requires Walk(main, order, n) && n < |order|
    ensures Walk(main, order + BranchesOf(order[n].site, order[n].scope), n + 1)
  {
    hide OnTree, ThroughBranches, IsScope, ElsesFollowBranches, ScopeAt, FirstBranches, Rooted, Chained;
    var c := order[n];
    var now := order + BranchesOf(c.site, c.scope);
    forall k | 0 <= k < |now|
      ensures OnTree(main, now[k]) && Rooted(now, n + 1, now[k].site)
    {
      WalkStepTree(main, order, n, k);
    }
    forall k, l | 0 <= k < l < |now|
      ensures now[k].site != now[l].site
    {
      WalkStepDistinct(main, order, n, k, l);
    }
    forall q | ThroughBranches(main, q) && Rooted(now, n + 1, q)
      ensures Has(now, |now|, q)
    {
      WalkStepFinds(main, order, n, q);
    }
    WalkStepChained(main, order, n);
  }

  lemma {:induction false} WalkStepTree(main: Scope, order: seq<Item>, n: nat, k: nat)
    requires Walk(main, order, n) && n < |order|
    requires k < |order + BranchesOf(order[n].site, order[n].scope)|
    ensures var now := order + BranchesOf(order[n].site, order[n].scope);
            OnTree(main, now[k]) && Rooted(now, n + 1, now[k].site)
  {
    hide Walk, OnTree, ThroughBranches, IsScope, ElsesFollowBranches, ScopeAt, FirstBranches;
    var c := order[n];
    var subs := BranchesOf(c.site, c.scope);
    var now := order + subs;
    WalkAt(main, order, n, n);
    OnTreeParts(main, c);
    if k < |order| {
      WalkAt(main, order, n, k);
      RootedStep(order, subs, n, order[k].site);
    } else {
      FirstBranchesAt(main, c.site, c.scope, |c.scope.instrs|);
      assert now[k] == subs[k - |order|] && now[n] == c;
      OnTreeParts(main, now[k]);
    }
  }

  lemma {:induction false} WalkStepDistinct(main: Scope, order: seq<Item>, n: nat, k: nat, l: nat)
    requires Walk(main, order, n) && n < |order|
    requires k < l < |order + BranchesOf(order[n].site, order[n].scope)|
    ensures var now := order + BranchesOf(order[n].site, order[n].scope); now[k].site != now[l].site
  {
    hide Walk, OnTree, ThroughBranches, IsScope, ElsesFollowBranches, ScopeAt, FirstBranches;
    var c := order[n];
    var subs := BranchesOf(c.site, c.scope);
    WalkAt(main, order, n, n);
    OnTreeParts(main, c);
    FirstBranchesAt(main, c.site, c.scope, |c.scope.instrs|);
    if l < |order| {
      WalkAt(main, order, n, k);
    } else if k < |order| {
      OnTreeParts(main, subs[l - |order|]);
      NotQueuedTwice(main, order, n, k, subs[l - |order|].site);
    }
  }

  lemma {:induction false} WalkStepChained(main: Scope, order: seq<Item>, n: nat)
    requires ElsesFollowBranches(main)
    requires Walk(main, order, n) && n < |order|
    ensures Chained(order + BranchesOf(order[n].site, order[n].scope))
  {
    hide Walk, OnTree, ThroughBranches, IsScope, ElsesFollowBranches, ScopeAt, FirstBranches;
    var c := order[n];
    var subs := BranchesOf(c.site, c.scope);
    var now := order + subs;
    WalkAt(main, order, n, n);
    OnTreeParts(main, c);
    BranchesChained(main, c.site, c.scope, |c.scope.instrs|);
    forall k | 0 <= k < |now| && now[k].kind.Else?
      ensures 0 < k && now[k - 1].site != [] && Sibling(now[k - 1].site) == now[k].site
    {
      if k < |order| {
        WalkAt(main, order, n, k);
      } else {
        assert now[k] == subs[k - |order|] && now[k - 1] == subs[k - |order| - 1];
      }
    }
  }

  lemma {:induction false} NotQueuedTwice(main: Scope, order: seq<Item>, n: nat, k: nat, q: Path)
    requires Walk(main, order, n) && n < |order| && k < |order|
    requires q != [] && Up(q) == order[n].site
    ensures order[k].site != q
  {
    hide Walk, OnTree, ThroughBranches;
    WalkAt(main, order, n, n);
    WalkAt(main, order, n, k);
    OnTreeParts(main, order[n]);
  }

  // A branch in the body of an item is among the branches queued for it.
  lemma {:induction false} BranchOfItem(main: Scope, c: Item, q: Path) returns (k: nat)
    requires OnTree(main, c) && q != [] && ThroughBranches(main, q) && Up(q) == c.site
    ensures k < |BranchesOf(c.site, c.scope)| && BranchesOf(c.site, c.scope)[k].site == q
  {
    hide ThroughBranches, OnTree, IsScope, ScopeAt, FirstBranches;
    assert q == c.site + [Last(q)];
    OnTreeParts(main, c);
    ScopeSnoc(main, c.site, Last(q));
    k := FirstBranchesAll(c.site, c.scope, |c.scope.instrs|, Last(q));
  }

  lemma {:induction false} WalkStepFinds(main: Scope, order: seq<Item>, n: nat, q: Path)
    requires Walk(main, order, n) && n < |order|
    requires var now := order + BranchesOf(order[n].site, order[n].scope);
             ThroughBranches(main, q) && Rooted(now, n + 1, q)
    ensures var now := order + BranchesOf(order[n].site, order[n].scope);
            Has(now, |now|, q)
  {
    hide ThroughBranches, OnTree, IsScope, ScopeAt, FirstBranches;
    var c := order[n];
    var subs := BranchesOf(c.site, c.scope);
    var now := order + subs;
    if |q| > 1 && Up(q) == c.site {
      var k := BranchOfItem(main, c, q);
      assert now[|order| + k].site == q;
    } else {
      if |q| > 1 {
        var k :| 0 <= k < n + 1 && now[k].site == Up(q);
        assert order[k].site == Up(q);
      }
      assert Rooted(order, n, q);
      var k :| 0 <= k < |order| && order[k].site == q;
      assert now[k].site == q;
    }
  }

  lemma {:induction false} WeightStep(queue: seq<Item>)
    requires queue != []
    ensures Weight(queue[1..] + BranchesOf(queue[0].site, queue[0].scope)) < Weight(queue)
  {
    WeightConcat(queue[1..], BranchesOf(queue[0].site, queue[0].scope));
    WeightOfBranches(queue[0].site, queue[0].scope, |queue[0].scope.instrs|);
  }

  lemma {:induction false} ReportStep(main: Scope, order: seq<Item>, n: nat,
                   was: map<Path, Option<Path>>, report: map<Path, Option<Path>>)
    requires Walk(main, order, n) && n < |order| && Reported(order, n, was)
    requires order[n].kind.Else? ==> 0 < n
    requires report ==
             (if order[n].kind.Else? then was[order[n - 1].site := Some(order[n].site)] else was)
             [order[n].site := None]
    ensures Reported(order + BranchesOf(order[n].site, order[n].scope), n + 1, report)
  {
    hide Walk, FirstBranches, OnTree, Rooted, Sibling, Reported;
    var now := order + BranchesOf(order[n].site, order[n].scope);
    forall k | 0 <= k < n + 1
      ensures now[k].site in report && report[now[k].site] == ElseAt(now, n + 1, k)
    {
      assert now[k] == order[k];
      ReportStepAt(main, order, n, was, report, k);
      if k < n { assert now[k + 1] == order[k + 1]; }
    }
    forall q | q in report
      ensures Has(now, n + 1, q)
    {
      if q in was {
        ReportedHas(order, n, was, q);
        var k :| 0 <= k < n && order[k].site == q;
        assert now[k].site == q;
      } else {
        WalkAt(main, order, n, n);
        if 0 < n { ReportedAt(order, n, was, n - 1); }
        assert now[n].site == q;
      }
    }
    ReportedIntro(now, n + 1, report);
  }

  lemma {:induction false} ReportStepAt(main: Scope, order: seq<Item>, n: nat,
                     was: map<Path, Option<Path>>, report: map<Path, Option<Path>>, k: nat)
    requires Walk(main, order, n) && n < |order| && Reported(order, n, was)
    requires order[n].kind.Else? ==> 0 < n
    requires report ==
             (if order[n].kind.Else? then was[order[n - 1].site := Some(order[n].site)] else was)
             [order[n].site := None]
    requires k <= n
    ensures order[k].site in report && report[order[k].site] == ElseAt(order, n + 1, k)
  {
    hide Walk, FirstBranches, OnTree, Rooted, Sibling, Reported;
    WalkAt(main, order, n, k);
    if k < n {
      ReportedAt(order, n, was, k);
      assert order[k].site != order[n].site;
      if k < n - 1 { assert order[k].site != order[n - 1].site; }
    }
  }

  lemma {:induction false} ReportedHas(order: seq<Item>, n: nat, report: map<Path, Option<Path>>, q: Path)
    requires Reported(order, n, report) && q in report
    ensures Has(order, n, q)
  {
  }

  lemma {:induction false} ReportedIntro(order: seq<Item>, n: nat, report: map<Path, Option<Path>>)
    requires n <= |order|
    requires forall k :: 0 <= k < n ==> order[k].site in report && report[order[k].site] == ElseAt(order, n, k)
    requires forall q :: q in report ==> Has(order, n, q)
    ensures Reported(order, n, report)
  {
  }

  lemma {:induction false} WalkComplete(main: Scope, order: seq<Item>, q: Path)
    requires Walk(main, order, |order|)
    requires q != [] && ThroughBranches(main, q)
    ensures Has(order, |order|, q)
    decreases |q|
  {
    assert q == Up(q) + [Last(q)];
    if |q| > 1 {
      ThroughPrefix(main, Up(q), Last(q));
      WalkComplete(main, order, Up(q));
    }
    assert Rooted(order, |order|, q);
  }

  lemma {:induction false} ThroughPrefix(s: Scope, p: Path, i: nat)
    requires ThroughBranches(s, p + [i])
    ensures ThroughBranches(s, p)
    decreases p
  {
    if p != [] {
      assert (p + [i])[1..] == p[1..] + [i];
      ThroughPrefix(s.instrs[p[0]].scope, p[1..], i);
    }
  }

  lemma {:induction false} SiblingInjective(a: Path, b: Path)
    requires a != [] && b != [] && Sibling(a) == Sibling(b)
    ensures a == b
  {
    assert a == Up(a) + [Last(a)] && b == Up(b) + [Last(b)];
    SiteParts(Up(a), Last(a) + 1);
    SiteParts(Up(b), Last(b) + 1);
  }

  lemma {:induction false} WalkDone(main: Scope, order: seq<Item>, report: map<Path, Option<Path>>)
    requires Walk(main, order, |order|) && Reported(order, |order|, report)
    ensures IsReport(main, report)
  {
    hide Walk, OnTree, ThroughBranches, Pairing;
    forall q | q != [] && ThroughBranches(main, q)
      ensures q in report
    {
      WalkComplete(main, order, q);
    }
    forall q | q in report
      ensures q != [] && ThroughBranches(main, q) && report[q] == Pairing(main, q)
    {
      var k :| 0 <= k < |order| && order[k].site == q;
      WalkAt(main, order, |order|, k);
      OnTreeParts(main, order[k]);
      PairingAt(main, order, k);
      ReportedAt(order, |order|, report, k);
    }
  }

  lemma {:induction false} ReportedAt(order: seq<Item>, n: nat, report: map<Path, Option<Path>>, k: nat)
    requires Reported(order, n, report) && k < n
    ensures order[k].site in report
    ensures report[order[k].site] == ElseAt(order, n, k)
  {
  }

  lemma {:induction false} WalkAt(main: Scope, order: seq<Item>, n: nat, k: nat)
    requires Walk(main, order, n) && k < |order|
    ensures n <= |order| && OnTree(main, order[k]) && Rooted(order, n, order[k].site)
    ensures order[k].kind.Else? ==> 0 < k && order[k - 1].site != [] && Sibling(order[k - 1].site) == order[k].site
    ensures forall l :: 0 <= l < |order| && order[l].site == order[k].site ==> l == k
  {
    hide OnTree, ThroughBranches;
  }

  lemma {:induction false} PairingAt(main: Scope, order: seq<Item>, k: nat)
    requires Walk(main, order, |order|) && k < |order|
    ensures order[k].site != []
    ensures Pairing(main, order[k].site) == ElseAt(order, |order|, k)
  {
    hide Walk, OnTree, ThroughBranches, IsScope, ScopeAt, Chained, Rooted, Up, Last, Sibling;
    WalkAt(main, order, |order|, k);
    OnTreeParts(main, order[k]);
    var q := order[k].site;
    var p, i := Up(q), Last(q);
    SiteParts(p, i);
    SiteParts(p, i + 1);
    if k + 1 < |order| && order[k + 1].kind.Else? {
      WalkAt(main, order, |order|, k + 1);
      OnTreeParts(main, order[k + 1]);
    } else if HasElse(main, q) {
      PairIsReached(main, order, k);
    }
  }

  lemma {:induction false} PairIsReached(main: Scope, order: seq<Item>, k: nat)
    requires Walk(main, order, |order|) && k < |order|
    requires order[k].site != [] && HasElse(main, order[k].site)
    ensures k + 1 < |order| && order[k + 1].kind.Else?
  {
    hide Walk, OnTree, ThroughBranches, IsScope, ScopeAt, Chained;
    WalkAt(main, order, |order|, k);
    OnTreeParts(main, order[k]);
    var q := order[k].site;
    var p, i := Up(q), Last(q);
    SiteParts(p, i);
    SiteParts(p, i + 1);
    {
      ThroughPrefix(main, p, i);
      ScopeSnoc(main, p, i + 1);
      WalkComplete(main, order, Sibling(q));
      var m :| 0 <= m < |order| && order[m].site == Sibling(q);
      WalkAt(main, order, |order|, m);
      OnTreeParts(main, order[m]);
      SiblingInjective(order[m - 1].site, q);
      WalkAt(main, order, |order|, m - 1);
    }
  }
}
