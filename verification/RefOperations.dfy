// What the handle operations come to, over runs in which other handles' steps
// come in between: where a copy points in the end, and what it did to which
// count on the way.
module RefOperations {
  import opened Program
  import opened RefCount

  // What one step did to an object: its count went up by one, or down by one to
  // what is left, or to something else; it was deleted.
  datatype Mark = Up | Down(left: nat) | Odd | Delete

  function Marks(s: State, s': State, o: Object): seq<Mark> {
    (if o in s.count && o in s'.count && s.count[o] != s'.count[o] then
       [if s'.count[o] == s.count[o] + 1 then Up
        else if s'.count[o] + 1 == s.count[o] then Down(s'.count[o])
        else Odd]
     else []) +
    (if s'.freed == s.freed + [o] then [Delete] else [])
  }

  // What handle h did to an object between states i and j of a run.
  function Line(run: seq<State>, moves: seq<Action>, h: Handle, o: Object, i: nat, j: nat): seq<Mark>
    requires i <= j < |run| && |run| == |moves| + 1
  {
    if i == j then []
    else Line(run, moves, h, o, i, j - 1) + if moves[j - 1].h == h then Marks(run[j - 1], run[j], o) else []
  }

  // From the move at i that h makes to the first state in which it is idle again.
  ghost predicate Operation(run: seq<State>, moves: seq<Action>, h: Handle, i: nat, j: nat) {
    && IsRun(run, moves) && run[0] == Init()
    && (forall k :: 0 <= k < |run| ==> |run[k].at| < COUNT_LIMIT)
    && i < j <= |moves| && moves[i].h == h
    && (forall k :: i < k < j ==> h in run[k].at && !Idle(run[k].at[h]))
    && h in run[j].at && Idle(run[j].at[h])
  }

  // Letting go of what a handle held: one decrement, and the deletion if nothing
  // is left.
  function Released(was: Place, left: nat, o: Object): seq<Mark> {
    if was == Holds(o) then [Down(left)] + (if left == 0 then [Delete] else []) else []
  }

  function Taken(now: Place, o: Object): seq<Mark> { if now == Holds(o) then [Up] else [] }

  // How far an operation has got, and what it has done to o so far.
  predicate Stage(p: Place, was: Place, now: Place, after: After, left: nat, o: Object, line: seq<Mark>) {
    match p
    case Releasing(x, a) => a == after && was == Holds(x) && line == []
    case Freeing(x, a) => a == after && was == Holds(x) && left == 0 && line == if o == x then [Down(0)] else []
    case Reading(src) => after == Takes(src) && line == Released(was, left, o)
    case Loading(src, y) => after == Takes(src) && now == Holds(y) && line == Released(was, left, o)
    case Swapping(src, y, _) => after == Takes(src) && now == Holds(y) && line == Released(was, left, o)
    case _ => p == now && line == Released(was, left, o) + Taken(now, o)
  }

  // The source, if there is one, stays where it was.
  predicate Pinned(s: State, now: Place, after: After) {
    match after case Drops => now == Null case Takes(src) => src in s.at && s.at[src] == now
  }

  function LeftAfter(s: State, s': State, h: Handle, left: nat): nat
    requires h in s.at
  {
    match s.at[h] case Releasing(x, _) => (if x in s'.count then s'.count[x] else left) case _ => left
  }

  // One step of h inside an operation.
  lemma {:induction false} StageStep(s: State, h: Handle, spurious: bool, s': State, was: Place, now: Place,
                                     after: After, left: nat, o: Object, line: seq<Mark>)
    requires Placed(s) && Counted(s) && |s.at| < COUNT_LIMIT && Next(s, Proceed(h, spurious)) == Some(s')
    requires Pinned(s, now, after) && Idle(now) && Stage(s.at[h], was, now, after, left, o, line)
    ensures h in s'.at
    ensures Stage(s'.at[h], was, now, after, LeftAfter(s, s', h, left), o, line + Marks(s, s', o))
  {
    hide Holders, Counted;
    assert PlaceOk(s, h);
    assert line + [] == line;
    match s.at[h] {
      case Releasing(x, _) =>
        HolderCounts(s, h, x);
        CountOnce(s, h, x);
      case Loading(src, x) => HolderCounts(s, src, x);
      case Swapping(_, _, _) => SwapStage(s, h, spurious, s', was, now, after, left, o, line);
      case Reading(_) =>
        assert Marks(s, s', o) == [];
        assert s'.at[h].Null? ==> Released(was, left, o) + Taken(Null, o) == Released(was, left, o);
      case Freeing(x, _) =>
        assert (s.freed + [o])[|s.freed|] == o && s'.freed[|s.freed|] == x;
        assert Marks(s, s', o) == if o == x then [Delete] else [];
        assert s'.at[h].Null? ==> Released(was, left, o) + Taken(Null, o) == Released(was, left, o);
      case _ =>
    }
  }

  // The swap, which counts the copy or sends it back to loading.
  lemma {:induction false} SwapStage(s: State, h: Handle, spurious: bool, s': State, was: Place, now: Place,
                                     after: After, left: nat, o: Object, line: seq<Mark>)
    requires Placed(s) && Counted(s) && |s.at| < COUNT_LIMIT && Next(s, Proceed(h, spurious)) == Some(s')
    requires s.at[h].Swapping?
    requires Pinned(s, now, after) && Idle(now) && Stage(s.at[h], was, now, after, left, o, line)
    ensures Stage(s'.at[h], was, now, after, LeftAfter(s, s', h, left), o, line + Marks(s, s', o))
  {
    hide Holders, Counted;
    var Swapping(src, x, c) := s.at[h];
    assert PlaceOk(s, h) && PlaceOk(s, src) && !Counts(s.at[h], x);
    assert line + [] == line;
    CountOnce(s, src, x);
    if s.count[x] == c && !spurious {
      assert s'.count[x] == s.count[x] + 1;
      assert Marks(s, s', o) == Taken(now, o);
      assert s'.at[h] == Holds(x);
    } else {
      assert Marks(s, s', o) == [];
    }
  }

  lemma {:induction false} CountOnce(s: State, h: Handle, o: Object)
    requires Counted(s) && |s.at| < COUNT_LIMIT && h in s.at && Counts(s.at[h], o) && o in s.count
    ensures 0 < s.count[o] < COUNT_LIMIT
    ensures (s.count[o] - 1) % COUNT_LIMIT == s.count[o] - 1
    ensures forall k :: k in s.at && !Counts(s.at[k], o) ==> (s.count[o] + 1) % COUNT_LIMIT == s.count[o] + 1
  {
    hide Holders, Counts;
    HolderCounts(s, h, o);
    HoldersBound(s.at, o);
    assert s.count[o] == |Holders(s.at, o)|;
    SmallMod(s.count[o] - 1);
    if s.count[o] < |s.at| { SmallMod(s.count[o] + 1); }
  }

  // A step of another handle leaves the place and the source alone.
  lemma {:induction false} StageKept(s: State, a: Action, s': State, h: Handle, now: Place, after: After)
    requires Placed(s) && Next(s, a) == Some(s') && h in s.at && !Idle(s.at[h]) && Pinned(s, now, after)
    requires a.h != h && (after.Takes? ==> ReadsFrom(s.at[h], after.src))
    ensures h in s'.at && s'.at[h] == s.at[h] && Pinned(s', now, after)
  {
    assert PlaceOk(s, h);
    PlaceKept(s, a, s', h);
    if after.Takes? { SourceKept(s, a, s', h, after.src); }
  }

  // How an operation starts.
  predicate Starts(s: State, a: Action, after: After) {
    match a
    case Drop(h) => after == Drops && h in s.at && !s.at[h].Null?
    case Copy(h, src) => after == Takes(src) && h in s.at && src in s.at && s.at[h] != s.at[src]
    case _ => false
  }

  function Target(s: State, after: After): Place
    requires after.Takes? ==> after.src in s.at
  {
    match after case Drops => Null case Takes(src) => s.at[src]
  }

  lemma {:induction false} FirstStage(s: State, a: Action, s': State, after: After, o: Object)
    requires Starts(s, a, after) && Next(s, a) == Some(s')
    ensures a.h in s.at && a.h in s'.at && Idle(Target(s, after)) && Pinned(s', Target(s, after), after)
    ensures !Idle(s'.at[a.h]) && Marks(s, s', o) == []
    ensures forall left :: Stage(s'.at[a.h], s.at[a.h], Target(s, after), after, left, o, [])
    ensures after.Takes? ==> ReadsFrom(s'.at[a.h], after.src)
  {
  }

  lemma {:induction false} StageReads(p: Place, was: Place, now: Place, after: After, left: nat, o: Object,
                                      line: seq<Mark>)
    requires Stage(p, was, now, after, left, o, line) && !Idle(p)
    ensures after.Takes? ==> ReadsFrom(p, after.src)
  {
  }

  // How far the operation has got in each state up to its end.
  lemma {:induction false} StageAt(run: seq<State>, moves: seq<Action>, h: Handle, i: nat, j: nat, k: nat,
                                   after: After)
    returns (left: nat)
    requires Operation(run, moves, h, i, j) && Starts(run[i], moves[i], after) && i < k <= j
    ensures h in run[i].at && h in run[k].at && Pinned(run[k], Target(run[i], after), after)
    ensures forall o :: Stage(run[k].at[h], run[i].at[h], Target(run[i], after), after, left, o,
                              Line(run, moves, h, o, i, k))
    decreases k
  {
    hide Next, Placed, Counted, Marks, Stage, Pinned, FreedOnce;
    assert Some(run[i + 1]) == Next(run[i], moves[i]);
    FirstStage(run[i], moves[i], run[i + 1], after, 0);
    var s, s', a := run[k - 1], run[k], moves[k - 1];
    assert Some(s') == Next(s, a);
    if k == i + 1 {
      left := 0;
      forall o ensures Line(run, moves, h, o, i, k) == []
               ensures Stage(s'.at[h], s.at[h], Target(s, after), after, left, o, []) {
        FirstStage(s, a, s', after, o);
        assert Line(run, moves, h, o, i, i) == [];
      }
    } else {
      left := StageAt(run, moves, h, i, j, k - 1, after);
      RefInvariant(run, moves, k - 1);
      assert |s.at| < COUNT_LIMIT;
      var was, now := run[i].at[h], Target(run[i], after);
      StageReads(s.at[h], was, now, after, left, 0, Line(run, moves, h, 0, i, k - 1));
      if a.h == h {
        OnlyProceeds(s, a, s');
        var before := left;
        left := LeftAfter(s, s', h, before);
        forall o
          ensures Stage(s'.at[h], was, now, after, left, o, Line(run, moves, h, o, i, k))
        {
          StageStep(s, h, a.spurious, s', was, now, after, before, o, Line(run, moves, h, o, i, k - 1));
        }
        OwnStepPins(s, a, s', now, after);
      } else {
        StageKept(s, a, s', h, now, after);
        forall o ensures Line(run, moves, h, o, i, k) == Line(run, moves, h, o, i, k - 1) {}
      }
    }
  }

  lemma {:induction false} OnlyProceeds(s: State, a: Action, s': State)
    requires Next(s, a) == Some(s') && a.h in s.at && !Idle(s.at[a.h])
    ensures a.Proceed?
  {
  }

  lemma {:induction false} OwnStepPins(s: State, a: Action, s': State, now: Place, after: After)
    requires Placed(s) && Next(s, a) == Some(s') && a.Proceed? && a.h in s.at && Pinned(s, now, after)
    requires after.Takes? ==> ReadsFrom(s.at[a.h], after.src)
    ensures a.h in s'.at && Pinned(s', now, after)
  {
    assert PlaceOk(s, a.h);
  }

  predicate EndsAt(p: Place, was: Place, now: Place, left: nat, o: Object, line: seq<Mark>) {
    p == now && line == Released(was, left, o) + Taken(now, o)
  }

  // A copy that has something to do, whatever comes in between: the handle ends
  // up where the source is and was all along. It let go once of the object it
  // held, and deleted it exactly if nothing was left, and after that counted
  // itself once on the source's object; it touched no other object.
  lemma {:induction false} CopyEnds(run: seq<State>, moves: seq<Action>, h: Handle, src: Handle, i: nat, j: nat)
    returns (left: nat)
    requires Operation(run, moves, h, i, j) && moves[i] == Copy(h, src)
    ensures h in run[i].at && src in run[i].at && src in run[j].at
    ensures run[j].at[h] == run[i].at[src] == run[j].at[src]
    ensures run[i].at[h] == run[i].at[src] ==> forall o :: Line(run, moves, h, o, i, j) == []
    ensures run[i].at[h] != run[i].at[src] ==>
              forall o :: Line(run, moves, h, o, i, j) ==
                          Released(run[i].at[h], left, o) + Taken(run[i].at[src], o)
  {
    hide Placed, Counted, FreedOnce;
    assert Some(run[i + 1]) == Next(run[i], Copy(h, src));
    if run[i].at[h] == run[i].at[src] {
      left := 0;
      assert j == i + 1;
      forall o ensures Line(run, moves, h, o, i, j) == [] { assert Line(run, moves, h, o, i, i) == []; }
    } else {
      left := StageAt(run, moves, h, i, j, j, Takes(src));
      forall o ensures EndsAt(run[j].at[h], run[i].at[h], run[i].at[src], left, o, Line(run, moves, h, o, i, j)) {}
      assert EndsAt(run[j].at[h], run[i].at[h], run[i].at[src], left, 0, Line(run, moves, h, 0, i, j));
    }
  }

  // Dropping a handle leaves it null, having let go once of what it held.
  lemma {:induction false} DropEnds(run: seq<State>, moves: seq<Action>, h: Handle, i: nat, j: nat)
    returns (left: nat)
    requires Operation(run, moves, h, i, j) && moves[i] == Drop(h)
    ensures h in run[i].at && run[j].at[h] == Null
    ensures forall o :: Line(run, moves, h, o, i, j) == Released(run[i].at[h], left, o)
  {
    hide Placed, Counted, FreedOnce;
    assert Some(run[i + 1]) == Next(run[i], Drop(h));
    if run[i].at[h].Null? {
      left := 0;
      assert j == i + 1;
      forall o ensures Line(run, moves, h, o, i, j) == [] { assert Line(run, moves, h, o, i, i) == []; }
    } else {
      left := StageAt(run, moves, h, i, j, j, Drops);
      forall o ensures EndsAt(run[j].at[h], run[i].at[h], Null, left, o, Line(run, moves, h, o, i, j)) {}
      assert EndsAt(run[j].at[h], run[i].at[h], Null, left, 0, Line(run, moves, h, 0, i, j));
    }
  }

  // A new handle given a new object: one count.
  lemma {:induction false} MakeGives(s: State, h: Handle, o: Object)
    requires Placed(s) && h !in s.at && o !in s.count
    ensures Next(s, New(h)).Some?
    ensures Next(Next(s, New(h)).value, Make(h, o)) ==
            Some(s.(at := s.at[h := Holds(o)], count := s.count[o := 1]))
  {
    forall k | k in s.at ensures !ReadsFrom(s.at[k], h) { assert PlaceOk(s, k); }
    assert s.at[h := Null][h := Holds(o)] == s.at[h := Holds(o)];
  }

  // ---------- Operations can be finished ----------

  // How many steps of its own an operation may still need.
  function ToGo(s: State, h: Handle): nat
    requires h in s.at
  {
    match s.at[h]
    case Releasing(_, _) => 5
    case Freeing(_, _) => 4
    case Reading(_) => 3
    case Swapping(_, o, c) => if o in s.count && s.count[o] == c then 1 else 3
    case Loading(_, _) => 2
    case _ => 0
  }

  lemma {:induction false} StepsOn(s: State, h: Handle) returns (s': State)
    requires Placed(s) && Counted(s) && h in s.at && !Idle(s.at[h])
    ensures Next(s, Proceed(h, false)) == Some(s') && h in s'.at && ToGo(s', h) < ToGo(s, h)
    ensures s'.at.Keys == s.at.Keys
  {
    hide Holders, Counted;
    assert PlaceOk(s, h);
    s' := Next(s, Proceed(h, false)).value;
    match s.at[h] {
      case Loading(src, o) => HolderCounts(s, src, o);
      case _ =>
    }
  }

  // Left alone, with no spurious failure, any operation under way ends within
  // five steps.
  lemma {:induction false} FinishesAlone(s: State, h: Handle) returns (run: seq<State>, moves: seq<Action>)
    requires Placed(s) && Counted(s) && |s.at| < COUNT_LIMIT && h in s.at
    ensures IsRun(run, moves) && run[0] == s && |moves| <= ToGo(s, h)
    ensures forall k :: 0 <= k < |moves| ==> moves[k] == Proceed(h, false)
    ensures h in run[|moves|].at && Idle(run[|moves|].at[h])
    ensures forall k :: 0 <= k < |moves| ==> h in run[k].at && !Idle(run[k].at[h])
    ensures forall k :: 0 <= k < |run| ==> run[k].at.Keys == s.at.Keys
    decreases ToGo(s, h)
  {
    hide Next, Placed, Counted;
    if Idle(s.at[h]) {
      run, moves := [s], [];
    } else {
      var s' := StepsOn(s, h);
      PlacedStep(s, Proceed(h, false), s');
      CountedStep(s, Proceed(h, false), s');
      assert |s'.at| == |s'.at.Keys| == |s.at.Keys| == |s.at|;
      var rest, later := FinishesAlone(s', h);
      run, moves := [s] + rest, [Proceed(h, false)] + later;
      forall k | 0 <= k < |moves| ensures Some(run[k + 1]) == Next(run[k], moves[k]) {
        if k > 0 { assert run[k] == rest[k - 1] && moves[k] == later[k - 1]; }
      }
    }
  }

  // Between operations: nobody is reading the handle, and the source is there.
  predicate MayStart(s: State, a: Action) {
    match a
    case Drop(h) => h in s.at && Idle(s.at[h]) && Unpinned(s, h)
    case Copy(h, src) => h in s.at && src in s.at && Idle(s.at[h]) && Idle(s.at[src]) && Unpinned(s, h)
    case _ => false
  }

  // Any copy or drop can then be made, and left alone it is finished.
  lemma {:induction false} Completes(s: State, a: Action) returns (run: seq<State>, moves: seq<Action>)
    requires Placed(s) && Counted(s) && |s.at| < COUNT_LIMIT && MayStart(s, a)
    ensures IsRun(run, moves) && run[0] == s && 0 < |moves| <= 6 && moves[0] == a
    ensures forall k :: 0 < k < |moves| ==> moves[k] == Proceed(a.h, false)
    ensures a.h in run[|moves|].at && Idle(run[|moves|].at[a.h])
    ensures forall k :: 0 < k < |moves| ==> a.h in run[k].at && !Idle(run[k].at[a.h])
  {
    hide Placed, Counted, ToGo;
    var s' := Next(s, a).value;
    PlacedStep(s, a, s');
    CountedStep(s, a, s');
    assert s'.at.Keys == s.at.Keys;
    assert |s'.at| == |s'.at.Keys| == |s.at.Keys| == |s.at|;
    var rest, later := FinishesAlone(s', a.h);
    AtMostFive(s', a.h);
    run, moves := [s] + rest, [a] + later;
    forall k | 0 <= k < |moves| ensures Some(run[k + 1]) == Next(run[k], moves[k]) {
      if k > 0 { assert run[k] == rest[k - 1] && moves[k] == later[k - 1]; }
    }
  }

  lemma {:induction false} AtMostFive(s: State, h: Handle)
    requires h in s.at
    ensures ToGo(s, h) <= 5
  {
  }
}
