// Reference-counted handles: the atomic counter with its compare-and-swap loop,
// and the `Ref` operations that use it, as steps of any number of handles used
// from any number of threads.
module RefCount {
  import opened Program

  type Handle = nat
  type Object = nat

  const COUNT_LIMIT: nat := 0x1_0000_0000

  // What a handle does once it has let go of its object.
  datatype After = Drops | Takes(src: Handle)

  // Where a handle is. `Holds` and `Null` are between operations.
  datatype Place =
    | Null
    | Holds(o: Object)
    | Releasing(o: Object, after: After)      // about to decrement
    | Freeing(o: Object, after: After)        // decremented to zero, about to delete
    | Reading(src: Handle)                    // about to take the source's pointer
    | Loading(src: Handle, o: Object)         // pointer taken, about to load the count
    | Swapping(src: Handle, o: Object, c: nat)  // loaded c, about to compare and swap

  datatype State = State(at: map<Handle, Place>, count: map<Object, nat>, freed: seq<Object>)

  datatype Action =
    | New(h: Handle)
    | Make(h: Handle, o: Object)
    | Drop(h: Handle)
    | Copy(h: Handle, src: Handle)
    | Proceed(h: Handle, spurious: bool)

  predicate Idle(p: Place) { p.Null? || p.Holds? }

  // The handle a copy under way reads from.
  predicate ReadsFrom(p: Place, src: Handle) {
    match p
    case Releasing(_, after) => after == Takes(src)
    case Freeing(_, after) => after == Takes(src)
    case Reading(s) => s == src
    case Loading(s, _) => s == src
    case Swapping(s, _, _) => s == src
    case _ => false
  }

  // No copy from the handle is under way: its owner may change it.
  predicate Unpinned(s: State, src: Handle) {
    forall h :: h in s.at ==> !ReadsFrom(s.at[h], src)
  }

  function Go(s: State, h: Handle, p: Place): State { s.(at := s.at[h := p]) }

  function Let(after: After): Place {
    match after case Drops => Null case Takes(src) => Reading(src)
  }

  // One atomic step; none when it cannot be taken. An operation starts on an
  // idle handle that no copy is reading.
  function Next(s: State, a: Action): Option<State> {
    match a
    case New(h) => if h in s.at then None else Some(Go(s, h, Null))
    case Make(h, o) =>
      if h !in s.at || s.at[h] != Null || o in s.count || !Unpinned(s, h) then None
      else Some(Go(s.(count := s.count[o := 1]), h, Holds(o)))
    case Drop(h) =>
      if h !in s.at || !Idle(s.at[h]) || !Unpinned(s, h) then None
      else Some(if s.at[h].Null? then s else Go(s, h, Releasing(s.at[h].o, Drops)))
    case Copy(h, src) =>
      if h !in s.at || src !in s.at || !Idle(s.at[h]) || !Idle(s.at[src]) || !Unpinned(s, h) then None
      else if s.at[h] == s.at[src] then Some(s)
      else Some(Go(s, h, if s.at[h].Null? then Reading(src) else Releasing(s.at[h].o, Takes(src))))
    case Proceed(h, spurious) =>
      if h !in s.at then None
      else
        match s.at[h]
        case Releasing(o, after) =>
          if o !in s.count then None
          else
            var c := (s.count[o] - 1) % COUNT_LIMIT;
            Some(Go(s.(count := s.count[o := c]), h, if c == 0 then Freeing(o, after) else Let(after)))
        case Freeing(o, after) => Some(Go(s.(freed := s.freed + [o]), h, Let(after)))
        case Reading(src) =>
          if src !in s.at then None
          else if s.at[src].Holds? then Some(Go(s, h, Loading(src, s.at[src].o)))
          else if s.at[src].Null? then Some(Go(s, h, Null))
          else None
        case Loading(src, o) =>
          if o !in s.count then None
          else Some(Go(s, h, if s.count[o] == 0 then Holds(o) else Swapping(src, o, s.count[o])))
        case Swapping(src, o, c) =>
          if o !in s.count then None
          else if s.count[o] == c && !spurious then
            Some(Go(s.(count := s.count[o := (c + 1) % COUNT_LIMIT]), h, Holds(o)))
          else Some(Go(s, h, Loading(src, o)))
        case _ => None
  }

  function Init(): State { State(map[], map[], []) }

  ghost predicate IsRun(run: seq<State>, moves: seq<Action>) {
    |run| == |moves| + 1 && forall i :: 0 <= i < |moves| ==> Some(run[i + 1]) == Next(run[i], moves[i])
  }

  // A handle counts for its object from the increment to the decrement.
  predicate Counts(p: Place, o: Object) { p == Holds(o) || (p.Releasing? && p.o == o) }

  function Holders(at: map<Handle, Place>, o: Object): set<Handle> {
    set h | h in at && Counts(at[h], o)
  }

  predicate Frees(p: Place, o: Object) { p.Freeing? && p.o == o }

  // Handles point at counted objects; a copy's source stays what it was.
  predicate PlaceOk(s: State, h: Handle)
    requires h in s.at
  {
    match s.at[h]
    case Null => true
    case Holds(o) => o in s.count
    case Releasing(o, after) => o in s.count && (after.Takes? ==> SourceOk(s, h, after.src))
    case Freeing(o, after) => o in s.count && (after.Takes? ==> SourceOk(s, h, after.src))
    case Reading(src) => SourceOk(s, h, src)
    case Loading(src, o) => SourceOk(s, h, src) && s.at[src] == Holds(o)
    case Swapping(src, o, c) => SourceOk(s, h, src) && s.at[src] == Holds(o) && c > 0
  }

  predicate SourceOk(s: State, h: Handle, src: Handle) { src != h && src in s.at && Idle(s.at[src]) }

  ghost predicate Placed(s: State) { forall h :: h in s.at ==> PlaceOk(s, h) }

  // The count is the number of handles that count.
  ghost predicate Counted(s: State) {
    forall o :: o in s.count ==> s.count[o] == |Holders(s.at, o)|
  }

  // Zero means freed, or about to be, by one handle and once.
  ghost predicate FreedOnce(s: State) {
    && (forall o :: o in s.freed ==> o in s.count && s.count[o] == 0)
    && (forall h, o :: h in s.at && Frees(s.at[h], o) ==> o in s.count && s.count[o] == 0 && o !in s.freed)
    && (forall h, k, o :: h in s.at && k in s.at && Frees(s.at[h], o) && Frees(s.at[k], o) ==> h == k)
    && (forall i, j :: 0 <= i < j < |s.freed| ==> s.freed[i] != s.freed[j])
    && (forall o :: o in s.count && s.count[o] == 0 && o !in s.freed ==> exists h :: h in s.at && Frees(s.at[h], o))
  }

  lemma {:induction false} Without(a: set<Handle>, h: Handle)
    ensures |a - {h}| == |a| - if h in a then 1 else 0
  {
    if h !in a { assert a - {h} == a; }
  }

  // Moving one handle changes an object's holders by that handle.
  lemma {:induction false} HoldersMove(at: map<Handle, Place>, h: Handle, p: Place, o: Object)
    ensures |Holders(at[h := p], o)| ==
            |Holders(at, o)| + (if Counts(p, o) then 1 else 0) - (if h in at && Counts(at[h], o) then 1 else 0)
  {
    var was, now := Holders(at, o), Holders(at[h := p], o);
    OthersStay(at, h, p, o);
    Without(was, h);
    Without(now, h);
  }

  lemma {:induction false} OthersStay(at: map<Handle, Place>, h: Handle, p: Place, o: Object)
    ensures Holders(at, o) - {h} == Holders(at[h := p], o) - {h}
  {
    hide Counts;
    forall k ensures k in Holders(at, o) - {h} <==> k in Holders(at[h := p], o) - {h} {}
  }

  lemma {:induction false} Subset(a: set<Handle>, b: set<Handle>)
    requires a <= b
    ensures |a| <= |b|
  {
    if a != {} {
      var x :| x in a;
      Subset(a - {x}, b - {x});
    }
  }

  lemma {:induction false} HoldersBound(at: map<Handle, Place>, o: Object)
    ensures |Holders(at, o)| <= |at|
    ensures forall h :: h in at && !Counts(at[h], o) ==> |Holders(at, o)| < |at|
  {
    Subset(Holders(at, o), at.Keys);
    forall h | h in at && !Counts(at[h], o) ensures |Holders(at, o)| < |at| {
      Subset(Holders(at, o), at.Keys - {h});
      Without(at.Keys, h);
    }
  }

  // A handle that counts for an object keeps its count above zero.
  lemma {:induction false} HolderCounts(s: State, h: Handle, o: Object)
    requires Counted(s) && h in s.at && Counts(s.at[h], o) && o in s.count
    ensures s.count[o] > 0
  {
    assert h in Holders(s.at, o);
  }

  // What another handle does leaves a handle's place in order.
  lemma {:induction false} PlaceKept(s: State, a: Action, s': State, k: Handle)
    requires Placed(s) && Next(s, a) == Some(s') && k in s.at && k != a.h
    ensures k in s'.at && s'.at[k] == s.at[k] && PlaceOk(s', k)
  {
    assert PlaceOk(s, k);
    forall src | SourceOk(s, k, src) && ReadsFrom(s.at[k], src)
      ensures SourceOk(s', k, src) && s'.at[src] == s.at[src]
    {
      SourceKept(s, a, s', k, src);
    }
    CountsKept(s, a, s');
  }

  lemma {:induction false} CountsKept(s: State, a: Action, s': State)
    requires Next(s, a) == Some(s')
    ensures s.count.Keys <= s'.count.Keys && s.at.Keys <= s'.at.Keys
  {
  }

  lemma {:induction false} SourceKept(s: State, a: Action, s': State, k: Handle, src: Handle)
    requires Next(s, a) == Some(s') && k in s.at && SourceOk(s, k, src) && ReadsFrom(s.at[k], src)
    ensures src in s'.at && s'.at[src] == s.at[src]
  {
  }

  lemma {:induction false} PlaceMoved(s: State, a: Action, s': State)
    requires Placed(s) && Counted(s) && Next(s, a) == Some(s')
    ensures a.h in s'.at && PlaceOk(s', a.h)
  {
    hide Holders;
    match a {
      case Proceed(h, _) =>
        assert PlaceOk(s, h);
        match s.at[h] {
          case Loading(src, o) => HolderCounts(s, src, o);
          case Reading(src) => assert PlaceOk(s, src);
          case _ =>
        }
      case Drop(h) => assert PlaceOk(s, h);
      case Copy(h, _) => assert PlaceOk(s, h);
      case _ =>
    }
  }

  lemma {:induction false} PlacedStep(s: State, a: Action, s': State)
    requires Placed(s) && Counted(s) && Next(s, a) == Some(s')
    ensures Placed(s')
  {
    hide PlaceOk, Next;
    forall k | k in s'.at
      ensures PlaceOk(s', k)
    {
      if k == a.h { PlaceMoved(s, a, s'); } else { OldHandle(s, a, s', k); PlaceKept(s, a, s', k); }
    }
  }

  lemma {:induction false} OldHandle(s: State, a: Action, s': State, k: Handle)
    requires Next(s, a) == Some(s') && k in s'.at && k != a.h
    ensures k in s.at
  {
  }

  lemma {:induction false} CountedStep(s: State, a: Action, s': State)
    requires Placed(s) && Counted(s) && |s.at| < COUNT_LIMIT && Next(s, a) == Some(s')
    ensures Counted(s')
  {
    hide Holders;
    forall o | o in s'.count
      ensures s'.count[o] == |Holders(s'.at, o)|
    {
      CountStep(s, a, s', o);
    }
  }

  lemma {:induction false} Uncounted(s: State, o: Object)
    requires Placed(s) && o !in s.count
    ensures Holders(s.at, o) == {}
  {
    forall h | h in s.at ensures !Counts(s.at[h], o) { assert PlaceOk(s, h); }
  }

  lemma {:induction false} CountStep(s: State, a: Action, s': State, o: Object)
    requires Placed(s) && Counted(s) && |s.at| < COUNT_LIMIT && Next(s, a) == Some(s') && o in s'.count
    ensures s'.count[o] == |Holders(s'.at, o)|
    ensures o in s.count && s'.count[o] > s.count[o] ==> s.count[o] > 0 && s'.count[o] == s.count[o] + 1
  {
    hide Holders, Unpinned;
    if s' != s {
      assert s'.at == s.at[a.h := s'.at[a.h]];
      HoldersMove(s.at, a.h, s'.at[a.h], o);
      if a.Make? { Uncounted(s, a.o); }
      if a.Proceed? { CountProceed(s, a.h, a.spurious, s', o); }
    }
  }

  lemma {:induction false} CountProceed(s: State, h: Handle, spurious: bool, s': State, o: Object)
    requires Placed(s) && Counted(s) && |s.at| < COUNT_LIMIT && Next(s, Proceed(h, spurious)) == Some(s') &&
             o in s'.count
    ensures o in s.count
    ensures s'.count[o] as int ==
            s.count[o] as int + (if Counts(s'.at[h], o) then 1 else 0) - (if Counts(s.at[h], o) then 1 else 0)
    ensures s'.count[o] > s.count[o] ==> s.count[o] > 0
  {
    hide Holders;
    assert PlaceOk(s, h);
    match s.at[h] {
      case Loading(src, x) => HolderCounts(s, src, x);
      case Releasing(x, _) =>
        HolderCounts(s, h, x);
        HoldersBound(s.at, x);
        SmallMod(s.count[x] - 1);
      case Swapping(_, x, c) =>
        HoldersBound(s.at, x);
        if s.count[x] == c { SmallMod(c + 1); }
      case _ =>
    }
  }

  lemma {:induction false} SmallMod(n: nat)
    requires n < COUNT_LIMIT
    ensures n % COUNT_LIMIT == n
  {
  }

  // The step that takes a count to zero.
  predicate Zeroes(s: State, a: Action, o: Object) {
    a.Proceed? && a.h in s.at && s.at[a.h].Releasing? && s.at[a.h].o == o && o in s.count && s.count[o] == 1
  }

  lemma {:induction false} FreesAfter(s: State, a: Action, s': State, k: Handle, o: Object)
    requires Placed(s) && Counted(s) && |s.at| < COUNT_LIMIT && Next(s, a) == Some(s')
    requires k in s'.at && Frees(s'.at[k], o)
    ensures (k in s.at && Frees(s.at[k], o) && s'.at[k] == s.at[k]) ||
            (k == a.h && Zeroes(s, a, o) && s'.freed == s.freed && s'.count[o] == 0)
  {
    hide Holders;
    if k == a.h && a.Proceed? {
      assert PlaceOk(s, k);
      if s.at[k].Releasing? {
        HolderCounts(s, k, o);
        HoldersBound(s.at, o);
        SmallMod(s.count[o] - 1);
      }
    }
  }

  lemma {:induction false} FreedAfter(s: State, a: Action, s': State)
    requires Next(s, a) == Some(s')
    ensures s'.freed == s.freed ||
            (a.Proceed? && a.h in s.at && s.at[a.h].Freeing? && s'.freed == s.freed + [s.at[a.h].o] &&
                                    !s'.at[a.h].Freeing? && s'.count == s.count)
  {
  }

  lemma {:induction false} FreedStep(s: State, a: Action, s': State)
    requires Placed(s) && Counted(s) && FreedOnce(s) && |s.at| < COUNT_LIMIT && Next(s, a) == Some(s')
    ensures FreedOnce(s')
  {
    hide Holders, Next, Placed, Counted, Zeroes;
    FreedAfter(s, a, s');
    forall o | o in s'.freed ensures o in s'.count && s'.count[o] == 0 {
      if o in s.freed {
        ZeroStays(s, a, s', o);
      } else {
        assert Frees(s.at[a.h], o);
      }
    }
    forall k, o | k in s'.at && Frees(s'.at[k], o)
      ensures o in s'.count && s'.count[o] == 0 && o !in s'.freed
    {
      FreesStep(s, a, s', k, o);
    }
    forall k, l, o | k in s'.at && l in s'.at && Frees(s'.at[k], o) && Frees(s'.at[l], o)
      ensures k == l
    {
      OneFrees(s, a, s', k, l, o);
    }
    forall i, j | 0 <= i < j < |s'.freed|
      ensures s'.freed[i] != s'.freed[j]
    {
      assert s'.freed[i] == s.freed[i];
      if j < |s.freed| {
        assert s'.freed[j] == s.freed[j];
      } else {
        assert Frees(s.at[a.h], s'.freed[j]);
        assert s.freed[i] in s.freed;
      }
    }
    forall o | o in s'.count && s'.count[o] == 0 && o !in s'.freed
      ensures exists h :: h in s'.at && Frees(s'.at[h], o)
    {
      var h := SomeFrees(s, a, s', o);
    }
  }

  lemma {:induction false} FreesStep(s: State, a: Action, s': State, k: Handle, o: Object)
    requires Placed(s) && Counted(s) && FreedOnce(s) && |s.at| < COUNT_LIMIT && Next(s, a) == Some(s')
    requires k in s'.at && Frees(s'.at[k], o)
    ensures o in s'.count && s'.count[o] == 0 && o !in s'.freed
  {
    hide Holders, Next, Placed, Counted;
    FreesAfter(s, a, s', k, o);
    FreedAfter(s, a, s');
    CountsKept(s, a, s');
    if k in s.at && Frees(s.at[k], o) { ZeroStays(s, a, s', o); }
  }

  lemma {:induction false} OneFrees(s: State, a: Action, s': State, k: Handle, l: Handle, o: Object)
    requires Placed(s) && Counted(s) && FreedOnce(s) && |s.at| < COUNT_LIMIT && Next(s, a) == Some(s')
    requires k in s'.at && l in s'.at && Frees(s'.at[k], o) && Frees(s'.at[l], o)
    ensures k == l
  {
    hide Holders, Next, Placed, Counted;
    FreesAfter(s, a, s', k, o);
    FreesAfter(s, a, s', l, o);
  }

  lemma {:induction false} SomeFrees(s: State, a: Action, s': State, o: Object) returns (h: Handle)
    requires Placed(s) && Counted(s) && FreedOnce(s) && |s.at| < COUNT_LIMIT && Next(s, a) == Some(s')
    requires o in s'.count && s'.count[o] == 0 && o !in s'.freed
    ensures h in s'.at && Frees(s'.at[h], o)
  {
    hide Holders, Next, Placed, Counted;
    if o in s.count && s.count[o] == 0 {
      assert o !in s.freed by { FreedAfter(s, a, s'); }
      h :| h in s.at && Frees(s.at[h], o);
      FreesStays(s, a, s', h, o);
    } else {
      h := a.h;
      ZeroReached(s, a, s', o);
    }
  }

  lemma {:induction false} FreesStays(s: State, a: Action, s': State, h: Handle, o: Object)
    requires Next(s, a) == Some(s') && h in s.at && Frees(s.at[h], o) && o !in s'.freed
    ensures h in s'.at && s'.at[h] == s.at[h]
  {
  }

  lemma {:induction false} ZeroReached(s: State, a: Action, s': State, o: Object)
    requires Placed(s) && Counted(s) && |s.at| < COUNT_LIMIT && Next(s, a) == Some(s')
    requires o in s'.count && s'.count[o] == 0 && (o in s.count ==> s.count[o] > 0)
    ensures a.h in s'.at && Frees(s'.at[a.h], o)
  {
    hide Holders;
    if a.Proceed? {
      assert PlaceOk(s, a.h);
      if s.at[a.h].Swapping? {
        HoldersBound(s.at, s.at[a.h].o);
        if s.count[s.at[a.h].o] == s.at[a.h].c { SmallMod(s.at[a.h].c + 1); }
      }
    }
  }

  // A count of zero is final.
  lemma {:induction false} ZeroStays(s: State, a: Action, s': State, o: Object)
    requires Placed(s) && Counted(s) && |s.at| < COUNT_LIMIT && Next(s, a) == Some(s')
    requires o in s.count && s.count[o] == 0
    ensures o in s'.count && s'.count[o] == 0
  {
    hide Placed, Counted, Holders;
    CountsKept(s, a, s');
    CountStep(s, a, s', o);
  }

  // In every reachable state of any number of handles and threads, whatever
  // copies, assignments and drops are under way: an object's count is the number
  // of handles that have incremented it and not yet decremented it, and it is
  // freed once, by the handle that took the count to zero.
  lemma {:induction false} RefInvariant(run: seq<State>, moves: seq<Action>, i: nat)
    requires IsRun(run, moves) && run[0] == Init() && i < |run|
    requires forall k :: 0 <= k < |run| ==> |run[k].at| < COUNT_LIMIT
    ensures Placed(run[i]) && Counted(run[i]) && FreedOnce(run[i])
  {
    hide Next, Placed, Counted, FreedOnce;
    if i == 0 {
      InitGood();
    } else {
      RefInvariant(run, moves, i - 1);
      var s, a := run[i - 1], moves[i - 1];
      assert |s.at| < COUNT_LIMIT;
      assert Some(run[i]) == Next(s, a);
      PlacedStep(s, a, run[i]);
      CountedStep(s, a, run[i]);
      FreedStep(s, a, run[i]);
    }
  }

  lemma {:induction false} InitGood()
    ensures Placed(Init()) && Counted(Init()) && FreedOnce(Init())
  {
  }

  // No increment succeeds after zero, and none touches a freed object.
  lemma {:induction false} NoRevival(run: seq<State>, moves: seq<Action>, i: nat, o: Object)
    requires IsRun(run, moves) && run[0] == Init() && i < |moves|
    requires forall k :: 0 <= k < |run| ==> |run[k].at| < COUNT_LIMIT
    requires o in run[i].count
    ensures o in run[i + 1].count
    ensures run[i + 1].count[o] > run[i].count[o] ==> run[i].count[o] > 0 && o !in run[i].freed
    ensures run[i].count[o] == 0 ==> run[i + 1].count[o] == 0
  {
    hide Next, Placed, Counted;
    RefInvariant(run, moves, i);
    var s, a := run[i], moves[i];
    assert |s.at| < COUNT_LIMIT && Some(run[i + 1]) == Next(s, a);
    CountsKept(s, a, run[i + 1]);
    CountStep(s, a, run[i + 1], o);
  }

  // When no operation is under way, an object has been freed exactly when no
  // handle refers to it any more.
  lemma {:induction false} FreedWhenLastGoes(run: seq<State>, moves: seq<Action>, i: nat, o: Object)
    requires IsRun(run, moves) && run[0] == Init() && i < |run|
    requires forall k :: 0 <= k < |run| ==> |run[k].at| < COUNT_LIMIT
    requires o in run[i].count && forall h :: h in run[i].at ==> Idle(run[i].at[h])
    ensures o in run[i].freed <==> forall h :: h in run[i].at ==> run[i].at[h] != Holds(o)
  {
    hide Next;
    RefInvariant(run, moves, i);
    var s := run[i];
    if h :| h in s.at && s.at[h] == Holds(o) {
      HolderCounts(s, h, o);
    } else {
      assert Holders(s.at, o) == {};
    }
  }

  // Without a live source the loop's early exit would leave the handle pointing
  // at an object it does not count for: `ref` ignores the failure. The handle
  // ends up counting exactly when the count it loads is not zero.
  lemma {:induction false} LoadDecides(s: State, h: Handle, src: Handle, o: Object)
    requires h in s.at && s.at[h] == Loading(src, o) && o in s.count && Counted(s)
    ensures var s' := Next(s, Proceed(h, false)).value;
            (s.count[o] == 0 ==> s'.at[h] == Holds(o) && !Counted(s')) &&
            (s.count[o] > 0 ==> s'.at[h] == Swapping(src, o, s.count[o]) && Counted(s'))
  {
    var s' := Next(s, Proceed(h, false)).value;
    forall x ensures |Holders(s'.at, x)| == |Holders(s.at, x)| + if Counts(s'.at[h], x) then 1 else 0 {
      HoldersMove(s.at, h, s'.at[h], x);
    }
  }
}
