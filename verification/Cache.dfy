// The compilation cache shared by the pool's workers: a map from hosts to
// compiled code behind a write lock, in which a null entry stands for a
// compilation under way. Any number of threads, any number of hosts; between
// two lock operations of one thread, others interleave.
module Cache {
  import opened Program

  type Thread = nat
  type Host = nat
  type Pointer = nat

  // Where a thread is. The locked places are those between `write_lock` and
  // `write_unlock`.
  datatype Place =
    | Idle
    | Seeking(h: Host)                              // at the top of the loop
    | Looking(h: Host)                              // locked
    | Found(h: Host, entry: Option<Pointer>)        // locked
    | Checking(h: Host, entry: Option<Pointer>)
    | Missing(h: Host)                              // locked
    | Placed(h: Host)                               // locked
    | Compiling(h: Host)
    | Compiled(h: Host, p: Pointer)
    | Publishing(h: Host, p: Pointer)               // locked
    | Published(h: Host, p: Pointer)                // locked
    | Returned(h: Host, r: Option<Pointer>)
    | Removing(h: Host)
    | Searching(h: Host)                            // locked
    | Erasing(h: Host)                              // locked
    | Leaving(h: Host, found: bool)                     // locked
    | Removed(h: Host, found: bool)

  predicate Locked(p: Place) {
    p.Looking? || p.Found? || p.Missing? || p.Placed? || p.Publishing? || p.Published? || p.Searching? ||
      p.Erasing? || p.Leaving?
  }

  // Inside the compilation of h: from the placeholder to the stored result.
  predicate Builds(p: Place, h: Host) {
    (p.Placed? || p.Compiling? || p.Compiled? || p.Publishing?) && p.h == h
  }

  predicate Erases(p: Place, h: Host) {
    (p.Removing? || p.Searching? || p.Erasing?) && p.h == h
  }

  // What the compiler produced, and for whom.
  datatype Compilation = Compilation(h: Host, thread: Thread, result: Option<Pointer>)

  datatype State = State(lock: Option<Thread>, functions: map<Host, Option<Pointer>>, at: Thread -> Place,
                         log: seq<Compilation>)
  {
    function Go(t: Thread, p: Place): State { this.(at := (u: Thread) => if u == t then p else at(u)) }
  }

  function Init(): State { State(None, map[], (t: Thread) => Idle, []) }

  datatype Action =
    | CallGet(h: Host)
    | CallRecompile(h: Host)
    | CallRemove(h: Host)
    | Compile(result: Option<Pointer>)
    | Proceed

  // One step of thread t; none when it cannot take it.
  function Step(s: State, t: Thread, a: Action): Option<State> {
    var p := s.at(t);
    match a
    case CallGet(h) => if p.Idle? || p.Returned? || p.Removed? then Some(s.Go(t, Seeking(h))) else None
    case CallRecompile(h) => if p.Idle? || p.Returned? || p.Removed? then Some(s.Go(t, Compiling(h))) else None
    case CallRemove(h) => if p.Idle? || p.Returned? || p.Removed? then Some(s.Go(t, Removing(h))) else None
    case Compile(r) =>
      if !p.Compiling? then None
      else
        var next := if r == None then Returned(p.h, None) else Compiled(p.h, r.value);
        Some(s.(log := s.log + [Compilation(p.h, t, r)]).Go(t, next))
    case Proceed =>
      match p
      case Seeking(h) => Acquire(s, t, Looking(h))
      case Looking(h) => Some(s.Go(t, if h in s.functions then Found(h, s.functions[h]) else Missing(h)))
      case Found(h, e) => Some(s.(lock := None).Go(t, Checking(h, e)))
      case Checking(h, e) => Some(s.Go(t, if e == None then Seeking(h) else Returned(h, e)))
      case Missing(h) => Some(s.(functions := s.functions[h := None]).Go(t, Placed(h)))
      case Placed(h) => Some(s.(lock := None).Go(t, Compiling(h)))
      case Compiled(h, q) => Acquire(s, t, Publishing(h, q))
      case Publishing(h, q) => Some(s.(functions := s.functions[h := Some(q)]).Go(t, Published(h, q)))
      case Published(h, q) => Some(s.(lock := None).Go(t, Returned(h, Some(q))))
      case Removing(h) => Acquire(s, t, Searching(h))
      case Searching(h) => Some(s.Go(t, if h in s.functions then Erasing(h) else Leaving(h, false)))
      case Erasing(h) => Some(s.(functions := s.functions - {h}).Go(t, Leaving(h, true)))
      case Leaving(h, r) => Some(s.(lock := None).Go(t, Removed(h, r)))
      case _ => None
  }

  function Acquire(s: State, t: Thread, p: Place): Option<State> {
    if s.lock == None then Some(s.(lock := Some(t)).Go(t, p)) else None
  }

  datatype Move = Move(t: Thread, a: Action)

  // A run is a sequence of moves from a state.
  ghost predicate IsRun(run: seq<State>, moves: seq<Move>) {
    |run| == |moves| + 1 &&
    forall i :: 0 <= i < |moves| ==> Some(run[i + 1]) == Step(run[i], moves[i].t, moves[i].a)
  }

  // ---------- Every run ----------

  predicate Came(log: seq<Compilation>, h: Host, p: Pointer) {
    exists k :: 0 <= k < |log| && log[k].h == h && log[k].result == Some(p)
  }

  predicate Failed(log: seq<Compilation>, h: Host) {
    exists k :: 0 <= k < |log| && log[k].h == h && log[k].result == None
  }

  // The pointer a thread is holding for a host.
  predicate Carries(at: Place, h: Host, p: Pointer) {
    match at
    case Found(g, e) => g == h && e == Some(p)
    case Checking(g, e) => g == h && e == Some(p)
    case Compiled(g, q) => g == h && q == p
    case Publishing(g, q) => g == h && q == p
    case Published(g, q) => g == h && q == p
    case Returned(g, r) => g == h && r == Some(p)
    case _ => false
  }

  ghost predicate LockHeld(s: State) {
    forall t: Thread :: Locked(s.at(t)) <==> s.lock == Some(t)
  }

  ghost predicate Sound(s: State) {
    && (forall h: Host, p: Pointer :: h in s.functions && s.functions[h] == Some(p) ==> Came(s.log, h, p))
    && (forall t: Thread, h: Host, p: Pointer :: Carries(s.at(t), h, p) ==> Came(s.log, h, p))
  }

  predicate IsNull(s: State, h: Host) { h in s.functions && s.functions[h] == None }

  ghost predicate Justified(s: State) {
    forall h: Host :: IsNull(s, h) && !Failed(s.log, h) ==> exists t: Thread :: Builds(s.at(t), h)
  }

  lemma {:induction false} LogGrows(log: seq<Compilation>, c: Compilation, h: Host)
    ensures forall p: Pointer :: Came(log, h, p) ==> Came(log + [c], h, p)
    ensures Failed(log + [c], h) <==> Failed(log, h) || (c.h == h && c.result == None)
    ensures c.h == h && c.result.Some? ==> Came(log + [c], h, c.result.value)
  {
    forall p: Pointer | Came(log, h, p) ensures Came(log + [c], h, p) {
      var k :| 0 <= k < |log| && log[k].h == h && log[k].result == Some(p);
      assert (log + [c])[k] == log[k];
    }
    if Failed(log, h) {
      var k :| 0 <= k < |log| && log[k].h == h && log[k].result == None;
      assert (log + [c])[k] == log[k];
    }
    assert (log + [c])[|log|] == c;
  }

  // The write lock is held exactly by the thread that is between its two lock
  // operations: each acquisition is released once, by its owner, on every path.
  lemma {:induction false} LockDiscipline(s: State, t: Thread, a: Action, s': State)
    requires LockHeld(s) && Step(s, t, a) == Some(s')
    ensures LockHeld(s')
    ensures s'.lock != s.lock ==> (s.lock == None && s'.lock == Some(t)) || (s.lock == Some(t) && s'.lock == None)
    ensures s'.functions != s.functions ==> s.lock == Some(t)
  {
  }

  lemma {:induction false} SoundStep(s: State, t: Thread, a: Action, s': State)
    requires Sound(s) && Step(s, t, a) == Some(s')
    ensures Sound(s')
  {
    hide Came, Carries;
    forall h: Host, p: Pointer | h in s'.functions && s'.functions[h] == Some(p)
      ensures Came(s'.log, h, p)
    {
      CameKept(s, t, a, s', h, p);
      if !(h in s.functions && s.functions[h] == Some(p)) { CarriedBy(s.at(t), h, p); }
    }
    forall u: Thread, h: Host, p: Pointer | Carries(s'.at(u), h, p)
      ensures Came(s'.log, h, p)
    {
      CameKept(s, t, a, s', h, p);
      if u == t { CarriedAfter(s, t, a, s', h, p); } else { assert s'.at(u) == s.at(u); }
    }
  }

  lemma {:induction false} CameKept(s: State, t: Thread, a: Action, s': State, h: Host, p: Pointer)
    requires Step(s, t, a) == Some(s')
    ensures Came(s.log, h, p) ==> Came(s'.log, h, p)
  {
    hide Came;
    if a.Compile? { LogGrows(s.log, Compilation(s.at(t).h, t, a.result), h); }
  }

  lemma {:induction false} CarriedBy(at: Place, h: Host, p: Pointer)
    ensures at == Publishing(h, p) ==> Carries(at, h, p)
  {
  }

  // A pointer the moving thread holds it held before, read from the map, or
  // has just compiled.
  lemma {:induction false} CarriedAfter(s: State, t: Thread, a: Action, s': State, h: Host, p: Pointer)
    requires Step(s, t, a) == Some(s') && Carries(s'.at(t), h, p)
    ensures Carries(s.at(t), h, p) || (h in s.functions && s.functions[h] == Some(p)) || Came(s'.log, h, p)
  {
    hide Came;
    if a.Compile? { LogGrows(s.log, Compilation(s.at(t).h, t, a.result), h); }
  }

  lemma {:induction false} JustifiedStep(s: State, t: Thread, a: Action, s': State)
    requires Justified(s) && Step(s, t, a) == Some(s')
    ensures Justified(s')
  {
    hide Failed, Builds;
    forall h: Host | IsNull(s', h) && !Failed(s'.log, h)
      ensures exists u: Thread :: Builds(s'.at(u), h)
    {
      if a.Compile? { LogGrows(s.log, Compilation(s.at(t).h, t, a.result), h); }
      if IsNull(s, h) {
        var u: Thread :| Builds(s.at(u), h);
        if u == t { BuilderGoesOn(s, t, a, s', h); } else { assert s'.at(u) == s.at(u); }
      } else {
        BuilderStarts(h);
        assert s'.at(t) == Placed(h);
      }
    }
  }

  lemma {:induction false} BuilderStarts(h: Host)
    ensures Builds(Placed(h), h)
  {
  }

  lemma {:induction false} BuilderGoesOn(s: State, t: Thread, a: Action, s': State, h: Host)
    requires Step(s, t, a) == Some(s') && Builds(s.at(t), h) && IsNull(s', h) && !Failed(s'.log, h)
    ensures Builds(s'.at(t), h)
  {
    if a.Compile? { LogGrows(s.log, Compilation(h, t, a.result), h); }
  }

  // In every reachable state of any number of threads, with recompilation,
  // removal and failures interleaved: the lock discipline holds, every pointer
  // in the map or in a thread's hands for a host came from compiling that host,
  // and a null entry stands for a compilation of that host that is under way or
  // has failed.
  lemma {:induction false} CacheInvariant(run: seq<State>, moves: seq<Move>, i: nat)
    requires IsRun(run, moves) && run[0] == Init() && i < |run|
    ensures LockHeld(run[i]) && Sound(run[i]) && Justified(run[i])
  {
    hide LockHeld, Sound, Justified, Step;
    if i == 0 {
      InitGood();
    } else {
      CacheInvariant(run, moves, i - 1);
      var Move(t, a) := moves[i - 1];
      assert Some(run[i]) == Step(run[i - 1], t, a);
      LockDiscipline(run[i - 1], t, a, run[i]);
      SoundStep(run[i - 1], t, a, run[i]);
      JustifiedStep(run[i - 1], t, a, run[i]);
    }
  }

  lemma {:induction false} InitGood()
    ensures LockHeld(Init()) && Sound(Init()) && Justified(Init())
  {
  }

  // Hence a thread that goes round the loop for h saw, under the lock, a null
  // entry that another thread is compiling, or whose compilation has failed.
  lemma {:induction false} SpinJustified(run: seq<State>, moves: seq<Move>, i: nat, t: Thread, h: Host)
    requires IsRun(run, moves) && run[0] == Init() && i < |moves| && moves[i] == Move(t, Proceed)
    requires run[i].at(t) == Looking(h) && run[i + 1].at(t) == Found(h, None)
    ensures Failed(run[i].log, h) || exists u: Thread :: u != t && Builds(run[i].at(u), h)
  {
    CacheInvariant(run, moves, i);
    assert Some(run[i + 1]) == Step(run[i], t, Proceed);
    assert IsNull(run[i], h);
    if !Failed(run[i].log, h) {
      var u: Thread :| Builds(run[i].at(u), h);
      assert u != t;
    }
  }

  // ---------- Runs of get_or_create with successful compilations ----------

  predicate GetOnly(a: Action) { a.CallGet? || a.Proceed? || (a.Compile? && a.result.Some?) }

  // Where such a run can be.
  predicate Getting(p: Place) {
    !p.Removing? && !p.Searching? && !p.Erasing? && !p.Leaving? && !p.Removed? && !(p.Returned? && p.r == None)
  }

  // A host's entry is null while one thread, and only one, is compiling it.
  ghost predicate Exclusive(s: State) {
    && (forall t: Thread :: Getting(s.at(t)))
    && (forall t: Thread :: s.at(t).Missing? ==> s.at(t).h !in s.functions)
    && (forall t: Thread, h: Host :: Builds(s.at(t), h) ==> IsNull(s, h))
    && (forall t: Thread, u: Thread, h: Host :: Builds(s.at(t), h) && Builds(s.at(u), h) ==> t == u)
  }

  predicate HasResult(p: Place, h: Host, q: Pointer) { p == Compiled(h, q) || p == Publishing(h, q) }

  // Each host was compiled at most once; what came out is in the map, or in the
  // hands of the thread about to put it there.
  predicate Recorded(s: State, c: Compilation) {
    c.result.Some? && c.h in s.functions &&
    (s.functions[c.h] == c.result || (IsNull(s, c.h) && HasResult(s.at(c.thread), c.h, c.result.value)))
  }

  ghost predicate Once(s: State) {
    && (forall k: nat :: k < |s.log| ==> Recorded(s, s.log[k]))
    && (forall j: nat, k: nat :: j < k < |s.log| ==> s.log[j].h != s.log[k].h)
    && (forall t: Thread, h: Host, p: Pointer :: Settled(s.at(t), h, p) ==> InMap(s, h, p))
  }

  // Has read the pointer from the map, or has stored it there.
  predicate Settled(at: Place, h: Host, p: Pointer) { Carries(at, h, p) && !Builds(at, h) }

  predicate InMap(s: State, h: Host, p: Pointer) { h in s.functions && s.functions[h] == Some(p) }

  lemma {:induction false} BuilderSeesNull(s: State, t: Thread, h: Host)
    requires Exclusive(s) && Builds(s.at(t), h)
    ensures IsNull(s, h)
    ensures forall u: Thread :: Builds(s.at(u), h) ==> u == t
  {
    hide Builds, IsNull;
  }

  lemma {:induction false} ExclusiveStep(s: State, t: Thread, a: Action, s': State)
    requires LockHeld(s) && Exclusive(s) && GetOnly(a) && Step(s, t, a) == Some(s')
    ensures Exclusive(s')
  {
    hide LockHeld, Step, Builds, IsNull;
    GettingStep(s, t, a, s');
    forall u: Thread, h: Host | Builds(s'.at(u), h) ensures IsNull(s', h) { NullStep(s, t, a, s', u, h); }
    forall u: Thread, w: Thread, h: Host | Builds(s'.at(u), h) && Builds(s'.at(w), h)
      ensures u == w
    {
      OneStep(s, t, a, s', u, w, h);
    }
    forall u: Thread | s'.at(u).Missing? ensures s'.at(u).h !in s'.functions { MissingStep(s, t, a, s', u); }
  }

  lemma {:induction false} GettingStep(s: State, t: Thread, a: Action, s': State)
    requires Exclusive(s) && GetOnly(a) && Step(s, t, a) == Some(s')
    ensures forall u: Thread :: Getting(s'.at(u))
  {
    hide Builds, IsNull;
    assert Getting(s.at(t));
    forall u: Thread ensures Getting(s'.at(u)) {
      if u != t { assert s'.at(u) == s.at(u); }
    }
  }

  lemma {:induction false} NullStep(s: State, t: Thread, a: Action, s': State, u: Thread, h: Host)
    requires Exclusive(s) && GetOnly(a) && Step(s, t, a) == Some(s') && Builds(s'.at(u), h)
    ensures IsNull(s', h)
  {
    assert Getting(s.at(t));
    if u != t { assert s'.at(u) == s.at(u); }
    if Builds(s.at(u), h) {
      BuilderSeesNull(s, u, h);
      if s.at(t).Publishing? && s.at(t).h == h { assert Builds(s.at(t), h); }
    } else {
      assert u == t && s.at(t) == Missing(h);
    }
  }

  lemma {:induction false} OneStep(s: State, t: Thread, a: Action, s': State, u: Thread, w: Thread, h: Host)
    requires Exclusive(s) && GetOnly(a) && Step(s, t, a) == Some(s')
    requires Builds(s'.at(u), h) && Builds(s'.at(w), h)
    ensures u == w
  {
    assert Getting(s.at(t));
    if u != t { assert s'.at(u) == s.at(u); BuilderSeesNull(s, u, h); }
    if w != t { assert s'.at(w) == s.at(w); BuilderSeesNull(s, w, h); }
  }

  lemma {:induction false} MissingStep(s: State, t: Thread, a: Action, s': State, u: Thread)
    requires LockHeld(s) && Exclusive(s) && GetOnly(a) && Step(s, t, a) == Some(s') && s'.at(u).Missing?
    ensures s'.at(u).h !in s'.functions
  {
    hide Builds, IsNull;
    if u != t {
      assert s'.at(u) == s.at(u);
      assert Locked(s.at(u)) && s.lock == Some(u);
      LockDiscipline(s, t, a, s');
    }
  }

  // A recorded result whose host is still being compiled is in the hands of the
  // thread that compiles it.
  lemma {:induction false} InHand(s: State, t: Thread, c: Compilation)
    requires Exclusive(s) && Recorded(s, c) && Builds(s.at(t), c.h)
    ensures c.thread == t && HasResult(s.at(t), c.h, c.result.value)
  {
    BuilderSeesNull(s, t, c.h);
    assert HasResult(s.at(c.thread), c.h, c.result.value);
    assert Builds(s.at(c.thread), c.h);
  }

  // The compiling thread's host has not been compiled before.
  lemma {:induction false} FirstCompilation(s: State, t: Thread, k: nat)
    requires Exclusive(s) && Once(s) && s.at(t).Compiling? && k < |s.log|
    ensures s.log[k].h != s.at(t).h
  {
    hide Exclusive, Recorded;
    if s.log[k].h == s.at(t).h { InHand(s, t, s.log[k]); }
  }

  lemma {:induction false} RecordedStep(s: State, t: Thread, a: Action, s': State, c: Compilation)
    requires Exclusive(s) && GetOnly(a) && Step(s, t, a) == Some(s')
    requires Recorded(s, c) && (a.Compile? ==> s.at(t).h != c.h)
    ensures Recorded(s', c)
  {
    assert Getting(s.at(t));
    if c.thread != t { assert s'.at(c.thread) == s.at(c.thread); }
    if Builds(s.at(t), c.h) {
      InHand(s, t, c);
      var q := c.result.value;
      if s.at(t) == Publishing(c.h, q) { assert s'.functions[c.h] == Some(q); }
      else { assert HasResult(s'.at(t), c.h, q); }
    } else {
      assert s'.functions[c.h] == s.functions[c.h];
      if IsNull(s, c.h) { assert c.thread != t; assert HasResult(s'.at(c.thread), c.h, c.result.value); }
    }
  }

  lemma {:induction false} OnceStep(s: State, t: Thread, a: Action, s': State)
    requires Exclusive(s) && Once(s) && GetOnly(a) && Step(s, t, a) == Some(s')
    ensures Once(s')
  {
    hide Recorded, Exclusive, Settled, InMap;
    forall k: nat | k < |s'.log|
      ensures Recorded(s', s'.log[k])
    {
      if k < |s.log| {
        if a.Compile? { FirstCompilation(s, t, k); }
        RecordedStep(s, t, a, s', s.log[k]);
      } else {
        NowRecorded(s, t, a, s');
      }
    }
    forall j: nat, k: nat | j < k < |s'.log|
      ensures s'.log[j].h != s'.log[k].h
    {
      if k == |s.log| { FirstCompilation(s, t, j); }
    }
    forall u: Thread, h: Host, p: Pointer | Settled(s'.at(u), h, p)
      ensures InMap(s', h, p)
    {
      SettledStep(s, t, a, s', u, h, p);
    }
  }

  lemma {:induction false} SettledStep(s: State, t: Thread, a: Action, s': State, u: Thread, h: Host, p: Pointer)
    requires Exclusive(s) && Once(s) && GetOnly(a) && Step(s, t, a) == Some(s')
    requires Settled(s'.at(u), h, p)
    ensures InMap(s', h, p)
  {
    hide Recorded, Exclusive;
    if u != t {
      assert s'.at(u) == s.at(u);
      InMapKept(s, t, a, s', h, p);
    } else if Settled(s.at(t), h, p) {
      assert InMap(s, h, p);
    }
  }

  lemma {:induction false} InMapKept(s: State, t: Thread, a: Action, s': State, h: Host, p: Pointer)
    requires Exclusive(s) && GetOnly(a) && Step(s, t, a) == Some(s') && InMap(s, h, p)
    ensures InMap(s', h, p)
  {
    assert Getting(s.at(t));
    assert !Builds(s.at(t), h) by { if Builds(s.at(t), h) { BuilderSeesNull(s, t, h); } }
  }

  lemma {:induction false} NowRecorded(s: State, t: Thread, a: Action, s': State)
    requires Exclusive(s) && a.Compile? && GetOnly(a) && Step(s, t, a) == Some(s')
    ensures Recorded(s', Compilation(s.at(t).h, t, a.result))
  {
    BuilderSeesNull(s, t, s.at(t).h);
  }

  lemma {:induction false} SingleInvariant(run: seq<State>, moves: seq<Move>, i: nat)
    requires IsRun(run, moves) && run[0] == Init() && i < |run|
    requires forall k :: 0 <= k < |moves| ==> GetOnly(moves[k].a)
    ensures Exclusive(run[i]) && Once(run[i])
  {
    hide Exclusive, Once, Step;
    if i == 0 {
      InitSingle();
    } else {
      SingleInvariant(run, moves, i - 1);
      CacheInvariant(run, moves, i - 1);
      var Move(t, a) := moves[i - 1];
      assert Some(run[i]) == Step(run[i - 1], t, a);
      ExclusiveStep(run[i - 1], t, a, run[i]);
      OnceStep(run[i - 1], t, a, run[i]);
    }
  }

  lemma {:induction false} InitSingle()
    ensures Exclusive(Init()) && Once(Init())
  {
    forall t: Thread, h: Host, p: Pointer ensures !Settled(Init().at(t), h, p) && !Builds(Init().at(t), h) {
      assert Init().at(t) == Idle;
    }
  }

  // No host is compiled twice, and its entry is null exactly while one thread
  // is compiling it.
  lemma {:induction false} SingleCompilation(run: seq<State>, moves: seq<Move>, i: nat)
    requires IsRun(run, moves) && run[0] == Init() && i < |run|
    requires forall k :: 0 <= k < |moves| ==> GetOnly(moves[k].a)
    ensures forall j, k :: 0 <= j < k < |run[i].log| ==> run[i].log[j].h != run[i].log[k].h
    ensures forall h: Host :: IsNull(run[i], h) <==> exists t: Thread :: Builds(run[i].at(t), h)
    ensures forall t: Thread, u: Thread, h: Host :: Builds(run[i].at(t), h) && Builds(run[i].at(u), h) ==> t == u
  {
    hide Step, Builds;
    SingleInvariant(run, moves, i);
    CacheInvariant(run, moves, i);
    forall h: Host ensures !Failed(run[i].log, h) {
      assert forall k: nat :: k < |run[i].log| ==> Recorded(run[i], run[i].log[k]);
    }
  }

  lemma {:induction false} LogOnlyGrows(run: seq<State>, moves: seq<Move>, i: nat, j: nat)
    requires IsRun(run, moves) && i <= j < |run|
    ensures run[i].log <= run[j].log
    decreases j - i
  {
    if i < j {
      LogOnlyGrows(run, moves, i, j - 1);
      assert Some(run[j]) == Step(run[j - 1], moves[j - 1].t, moves[j - 1].a);
    }
  }

  lemma {:induction false} ReturnedCame(s: State, t: Thread, h: Host, r: Option<Pointer>)
    requires Sound(s) && Exclusive(s) && s.at(t) == Returned(h, r)
    ensures r.Some? && Came(s.log, h, r.value)
  {
    hide Came;
    assert Getting(s.at(t));
    assert Carries(s.at(t), h, r.value);
  }

  // All calls for a host return the same pointer, whichever threads make them
  // and whenever they return.
  lemma {:induction false} CallsAgree(run: seq<State>, moves: seq<Move>, i: nat, j: nat, t: Thread, u: Thread,
                                      h: Host, r: Option<Pointer>, r': Option<Pointer>)
    requires IsRun(run, moves) && run[0] == Init() && i <= j < |run|
    requires forall k :: 0 <= k < |moves| ==> GetOnly(moves[k].a)
    requires run[i].at(t) == Returned(h, r) && run[j].at(u) == Returned(h, r')
    ensures r == r' && r.Some?
  {
    hide IsRun, Step, Sound, Exclusive, LockHeld, Justified, Recorded, Carries, Builds;
    SingleInvariant(run, moves, i);
    SingleInvariant(run, moves, j);
    CacheInvariant(run, moves, i);
    CacheInvariant(run, moves, j);
    ReturnedCame(run[i], t, h, r);
    ReturnedCame(run[j], u, h, r');
    LogOnlyGrows(run, moves, i, j);
    var k :| 0 <= k < |run[i].log| && run[i].log[k].h == h && run[i].log[k].result == r;
    var l :| 0 <= l < |run[j].log| && run[j].log[l].h == h && run[j].log[l].result == r';
    assert run[j].log[k] == run[i].log[k];
  }

  // ---------- What a failure or a removal does ----------

  // Nobody is going to replace or erase the null entry of h.
  ghost predicate Abandoned(s: State, h: Host) {
    IsNull(s, h) && forall t: Thread :: !Builds(s.at(t), h) && !Erases(s.at(t), h) && s.at(t) != Missing(h)
  }

  // A failed compilation leaves its placeholder behind: the entry is abandoned
  // by the compiling thread exactly when the compiler reports an error.
  lemma {:induction false} FailureAbandons(s: State, t: Thread, h: Host, r: Option<Pointer>)
    requires IsNull(s, h) && s.at(t) == Compiling(h)
    requires forall u: Thread :: u != t ==> !Builds(s.at(u), h) && !Erases(s.at(u), h) && s.at(u) != Missing(h)
    ensures Step(s, t, Compile(r)).Some?
    ensures Abandoned(Step(s, t, Compile(r)).value, h) <==> r == None
  {
    var s' := Step(s, t, Compile(r)).value;
    if r == None {
      forall u: Thread ensures !Builds(s'.at(u), h) && !Erases(s'.at(u), h) && s'.at(u) != Missing(h) {
        if u != t { assert s'.at(u) == s.at(u); }
      }
    } else {
      assert Builds(s'.at(t), h);
    }
  }

  predicate Waiting(p: Place, h: Host) {
    p == Seeking(h) || p == Looking(h) || p == Found(h, None) || p == Checking(h, None)
  }

  // From then on, unless somebody recompiles or removes h, the entry stays null
  // and every thread that asks for h goes round the loop for ever.
  lemma {:induction false} AbandonedForever(run: seq<State>, moves: seq<Move>, h: Host, i: nat)
    requires IsRun(run, moves) && Abandoned(run[0], h) && i < |run|
    requires forall k :: 0 <= k < |moves| ==> moves[k].a != CallRecompile(h) && moves[k].a != CallRemove(h)
    ensures Abandoned(run[i], h)
    ensures forall t: Thread :: Waiting(run[0].at(t), h) ==> Waiting(run[i].at(t), h)
  {
    hide Step, Waiting, Abandoned;
    if i > 0 {
      AbandonedForever(run, moves, h, i - 1);
      assert Some(run[i]) == Step(run[i - 1], moves[i - 1].t, moves[i - 1].a);
      AbandonedStep(run[i - 1], moves[i - 1].t, moves[i - 1].a, run[i], h);
    }
  }

  lemma {:induction false} AbandonedStep(s: State, t: Thread, a: Action, s': State, h: Host)
    requires Abandoned(s, h) && Step(s, t, a) == Some(s') && a != CallRecompile(h) && a != CallRemove(h)
    ensures Abandoned(s', h)
    ensures forall u: Thread :: Waiting(s.at(u), h) ==> Waiting(s'.at(u), h)
  {
    assert !Builds(s.at(t), h) && !Erases(s.at(t), h) && s.at(t) != Missing(h);
    forall u: Thread ensures !Builds(s'.at(u), h) && !Erases(s'.at(u), h) && s'.at(u) != Missing(h) {
      if u != t { assert s'.at(u) == s.at(u); }
    }
  }
}
