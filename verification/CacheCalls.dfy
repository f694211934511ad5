// What the locked sections and the calls of the compilation cache come to, over
// runs in which any other threads' steps come in between.
module CacheCalls {
  import opened Program
  import opened Cache

  // Thread t takes the lock at i and releases it at j.
  ghost predicate Section(run: seq<State>, moves: seq<Move>, t: Thread, i: nat, j: nat) {
    && IsRun(run, moves) && run[0] == Init() && i < j < |moves|
    && run[i].lock == None && run[j + 1].lock == None
    && forall k :: i < k <= j ==> run[k].lock == Some(t)
  }

  // How far a section that began in s has got.
  predicate Within(s: State, now: State, t: Thread) {
    match now.at(t)
    case Looking(h) => s.at(t) == Seeking(h) && now.functions == s.functions
    case Found(h, e) => s.at(t) == Seeking(h) && now.functions == s.functions && h in s.functions && s.functions[h] == e
    case Missing(h) => s.at(t) == Seeking(h) && now.functions == s.functions && h !in s.functions
    case Placed(h) => s.at(t) == Seeking(h) && now.functions == s.functions[h := None] && h !in s.functions
    case Publishing(h, q) => s.at(t) == Compiled(h, q) && now.functions == s.functions
    case Published(h, q) => s.at(t) == Compiled(h, q) && now.functions == s.functions[h := Some(q)]
    case Searching(h) => s.at(t) == Removing(h) && now.functions == s.functions
    case Erasing(h) => s.at(t) == Removing(h) && now.functions == s.functions && h in s.functions
    case Leaving(h, found) =>
      s.at(t) == Removing(h) && now.functions == s.functions - {h} && (found <==> h in s.functions)
    case _ => false
  }

  lemma {:induction false} SectionStep(s: State, now: State, t: Thread, u: Thread, a: Action, next: State)
    requires LockHeld(now) && now.lock == Some(t) && next.lock == Some(t) && Within(s, now, t)
    requires Step(now, u, a) == Some(next)
    ensures Within(s, next, t)
  {
    assert s.functions - {} == s.functions;
    if u != t {
      LockDiscipline(now, u, a, next);
      assert next.at(t) == now.at(t);
    } else {
      match now.at(t) {
        case Searching(h) => if h !in s.functions { assert s.functions - {h} == s.functions; }
        case _ =>
      }
    }
  }

  lemma {:induction false} SectionStarts(s: State, t: Thread, u: Thread, a: Action, next: State)
    requires LockHeld(s) && Step(s, u, a) == Some(next) && s.lock == None && next.lock == Some(t)
    ensures u == t && Within(s, next, t)
  {
    LockDiscipline(s, u, a, next);
  }

  lemma {:induction false} WithinAt(run: seq<State>, moves: seq<Move>, t: Thread, i: nat, j: nat, k: nat)
    requires Section(run, moves, t, i, j) && i < k <= j
    ensures Within(run[i], run[k], t)
    decreases k
  {
    hide Step, Within, LockHeld, Sound, Justified;
    CacheInvariant(run, moves, k - 1);
    assert Some(run[k]) == Step(run[k - 1], moves[k - 1].t, moves[k - 1].a);
    if k == i + 1 {
      SectionStarts(run[i], t, moves[i].t, moves[i].a, run[k]);
    } else {
      WithinAt(run, moves, t, i, j, k - 1);
      SectionStep(run[i], run[k - 1], t, moves[k - 1].t, moves[k - 1].a, run[k]);
    }
  }

  // What a section has done when it ends: nothing to the map if it found an
  // entry, which it reports; a null entry for a host that had none; the compiled
  // pointer for its host, whatever was there before; or no entry for the host
  // removed, reporting whether there was one. Entries of other hosts stay.
  predicate Did(s: State, now: State, t: Thread) {
    match now.at(t)
    case Checking(h, e) =>
      s.at(t) == Seeking(h) && h in s.functions && s.functions[h] == e && now.functions == s.functions
    case Compiling(h) => s.at(t) == Seeking(h) && h !in s.functions && now.functions == s.functions[h := None]
    case Returned(h, r) => r.Some? && s.at(t) == Compiled(h, r.value) && now.functions == s.functions[h := r]
    case Removed(h, found) =>
      s.at(t) == Removing(h) && (found <==> h in s.functions) && now.functions == s.functions - {h}
    case _ => false
  }

  lemma {:induction false} SectionDid(run: seq<State>, moves: seq<Move>, t: Thread, i: nat, j: nat)
    requires Section(run, moves, t, i, j)
    ensures Did(run[i], run[j + 1], t)
  {
    hide Within, Sound, Justified, LockHeld;
    WithinAt(run, moves, t, i, j, j);
    CacheInvariant(run, moves, j);
    SectionEnds(run[i], run[j], t, moves[j].t, moves[j].a, run[j + 1]);
  }

  lemma {:induction false} SectionEnds(s: State, now: State, t: Thread, u: Thread, a: Action, next: State)
    requires LockHeld(now) && now.lock == Some(t) && next.lock == None && Within(s, now, t)
    requires Step(now, u, a) == Some(next)
    ensures Did(s, next, t)
  {
    LockDiscipline(now, u, a, next);
  }

  // ---------- Calls ----------

  predicate Finished(p: Place) { p.Idle? || p.Returned? || p.Removed? }

  predicate IsCall(a: Action) { a.CallGet? || a.CallRecompile? || a.CallRemove? }

  // A call of thread t from the move at i to the first state in which it is
  // finished.
  ghost predicate Call(run: seq<State>, moves: seq<Move>, t: Thread, i: nat, j: nat) {
    && IsRun(run, moves) && run[0] == Init() && i < j <= |moves|
    && moves[i].t == t && IsCall(moves[i].a)
    && (forall k :: i < k < j ==> !Finished(run[k].at(t)))
    && Finished(run[j].at(t))
  }

  // What the compiler gave thread t between moves i and j.
  function CompiledBy(moves: seq<Move>, t: Thread, i: nat, j: nat): seq<Option<Pointer>>
    requires i <= j <= |moves|
  {
    if i == j then []
    else CompiledBy(moves, t, i, j - 1) +
         if moves[j - 1].t == t && moves[j - 1].a.Compile? then [moves[j - 1].a.result] else []
  }

  // The entry was there at some time during the call.
  predicate Was(run: seq<State>, h: Host, e: Option<Pointer>, i: nat, j: nat)
    requires j < |run|
  {
    exists k :: i < k <= j && h in run[k].functions && run[k].functions[h] == e
  }

  // How far a call for h has got, with what it has had compiled.
  predicate Along(a: Action, run: seq<State>, t: Thread, i: nat, k: nat, out: seq<Option<Pointer>>)
    requires k < |run| && IsCall(a)
  {
    var h := a.h;
    match run[k].at(t)
    case Seeking(g) => a.CallGet? && g == h && out == []
    case Looking(g) => a.CallGet? && g == h && out == []
    case Found(g, e) => a.CallGet? && g == h && out == [] && Was(run, h, e, i, k)
    case Checking(g, e) => a.CallGet? && g == h && out == [] && Was(run, h, e, i, k)
    case Missing(g) => a.CallGet? && g == h && out == []
    case Placed(g) => a.CallGet? && g == h && out == []
    case Compiling(g) => !a.CallRemove? && g == h && out == []
    case Compiled(g, q) => !a.CallRemove? && g == h && out == [Some(q)]
    case Publishing(g, q) => !a.CallRemove? && g == h && out == [Some(q)]
    case Published(g, q) => !a.CallRemove? && g == h && out == [Some(q)] && InMap(run[k], h, q)
    case Returned(g, r) =>
      g == h &&
      ((!a.CallRemove? && out == [r] && (r.Some? ==> InMap(run[k], h, r.value))) ||
       (a.CallGet? && out == [] && r.Some? && Was(run, h, r, i, k)))
    case Removing(g) => a.CallRemove? && g == h && out == []
    case Searching(g) => a.CallRemove? && g == h && out == []
    case Erasing(g) => a.CallRemove? && g == h && out == []
    case Leaving(g, _) => a.CallRemove? && g == h && out == [] && h !in run[k].functions
    case Removed(g, _) => a.CallRemove? && g == h && out == [] && h !in run[k].functions
    case Idle => false
  }

  lemma {:induction false} WasLater(run: seq<State>, h: Host, e: Option<Pointer>, i: nat, k: nat)
    requires k + 1 < |run| && Was(run, h, e, i, k)
    ensures Was(run, h, e, i, k + 1)
  {
    var m :| i < m <= k && h in run[m].functions && run[m].functions[h] == e;
  }

  lemma {:induction false} AlongOther(a: Action, run: seq<State>, t: Thread, i: nat, k: nat, out: seq<Option<Pointer>>,
                                      u: Thread, b: Action)
    requires IsCall(a) && k + 1 < |run| && Along(a, run, t, i, k, out) && !Finished(run[k].at(t))
    requires LockHeld(run[k]) && Step(run[k], u, b) == Some(run[k + 1]) && u != t
    ensures Along(a, run, t, i, k + 1, out)
  {
    hide Was, Step;
    KeptByOther(run[k], u, b, run[k + 1], t);
    match run[k].at(t) {
      case Found(_, e) => WasLater(run, a.h, e, i, k);
      case Checking(_, e) => WasLater(run, a.h, e, i, k);
      case _ =>
    }
  }

  lemma {:induction false} KeptByOther(s: State, u: Thread, b: Action, s': State, t: Thread)
    requires LockHeld(s) && Step(s, u, b) == Some(s') && u != t
    ensures s'.at(t) == s.at(t) && (Locked(s.at(t)) ==> s'.functions == s.functions)
  {
    LockDiscipline(s, u, b, s');
  }

  lemma {:induction false} AlongOwn(a: Action, run: seq<State>, t: Thread, i: nat, k: nat, out: seq<Option<Pointer>>,
                                    b: Action)
    requires IsCall(a) && i < k && k + 1 < |run| && Along(a, run, t, i, k, out) && !Finished(run[k].at(t))
    requires Step(run[k], t, b) == Some(run[k + 1])
    ensures Along(a, run, t, i, k + 1, out + if b.Compile? then [b.result] else [])
  {
    hide Was;
    assert out + [] == out;
    match run[k].at(t) {
      case Looking(h) =>
        if h in run[k].functions { assert Was(run, h, run[k].functions[h], i, k + 1) by { WasNow(run, h, i, k); } }
      case Found(h, e) => WasLater(run, h, e, i, k);
      case Checking(h, e) => WasLater(run, h, e, i, k);
      case _ =>
    }
  }

  lemma {:induction false} WasNow(run: seq<State>, h: Host, i: nat, k: nat)
    requires i < k && k + 1 < |run| && h in run[k].functions
    ensures Was(run, h, run[k].functions[h], i, k + 1)
  {
  }

  lemma {:induction false} AlongAt(run: seq<State>, moves: seq<Move>, t: Thread, i: nat, j: nat, k: nat)
    requires Call(run, moves, t, i, j) && i < k <= j
    ensures Along(moves[i].a, run, t, i, k, CompiledBy(moves, t, i, k))
    decreases k
  {
    hide Along, LockHeld, Sound, Justified, Step, Finished, IsCall, Init;
    var Move(u, b) := moves[k - 1];
    assert Some(run[k]) == Step(run[k - 1], u, b);
    if k == i + 1 {
      CallStarts(run, moves, t, i);
    } else {
      AlongAt(run, moves, t, i, j, k - 1);
      CacheInvariant(run, moves, k - 1);
      var out := CompiledBy(moves, t, i, k - 1);
      if u == t {
        AlongOwn(moves[i].a, run, t, i, k - 1, out, b);
        assert CompiledBy(moves, t, i, k) == out + if b.Compile? then [b.result] else [];
      } else {
        AlongOther(moves[i].a, run, t, i, k - 1, out, u, b);
        assert CompiledBy(moves, t, i, k) == out;
      }
    }
  }

  lemma {:induction false} CallStarts(run: seq<State>, moves: seq<Move>, t: Thread, i: nat)
    requires IsRun(run, moves) && i < |moves| && moves[i].t == t && IsCall(moves[i].a)
    ensures Along(moves[i].a, run, t, i, i + 1, CompiledBy(moves, t, i, i + 1))
  {
    assert Some(run[i + 1]) == Step(run[i], t, moves[i].a);
    assert CompiledBy(moves, t, i, i) == [];
  }

  // What a call gives back, whatever happens in between. A removal: that it has
  // removed h, with no entry left when it releases the lock. A recompilation: what
  // the compiler gave it, once, and a pointer is h's entry when it releases the
  // lock. A get: the same if it compiled, which it does once at most; otherwise a
  // pointer that was h's entry during the call.
  lemma {:induction false} CallGives(run: seq<State>, moves: seq<Move>, t: Thread, i: nat, j: nat)
    requires Call(run, moves, t, i, j)
    ensures var a, end, out := moves[i].a, run[j].at(t), CompiledBy(moves, t, i, j);
            && end.h == a.h
            && (a.CallRemove? ==> end.Removed? && out == [] && a.h !in run[j].functions)
            && (!a.CallRemove? ==> end.Returned?)
            && (a.CallRecompile? ==> out == [end.r])
            && (a.CallGet? && out != [] ==> out == [end.r])
            && (!a.CallRemove? && out != [] && end.r.Some? ==> InMap(run[j], a.h, end.r.value))
            && (a.CallGet? && out == [] ==> end.r.Some? && Was(run, a.h, end.r, i, j))
  {
    hide Was, InMap, Along, CompiledBy, Step;
    AlongAt(run, moves, t, i, j, j);
    AlongEnds(moves[i].a, run, t, i, j, CompiledBy(moves, t, i, j));
  }

  lemma {:induction false} AlongEnds(a: Action, run: seq<State>, t: Thread, i: nat, j: nat, out: seq<Option<Pointer>>)
    requires j < |run| && IsCall(a) && Along(a, run, t, i, j, out) && Finished(run[j].at(t))
    ensures var end := run[j].at(t);
            && !end.Idle? && end.h == a.h
            && (a.CallRemove? ==> end.Removed? && out == [] && a.h !in run[j].functions)
            && (!a.CallRemove? ==> end.Returned?)
            && (a.CallRecompile? ==> out == [end.r])
            && (a.CallGet? && out != [] ==> out == [end.r])
            && (!a.CallRemove? && out != [] && end.r.Some? ==> InMap(run[j], a.h, end.r.value))
            && (a.CallGet? && out == [] ==> end.r.Some? && Was(run, a.h, end.r, i, j))
  {
    hide Was, InMap;
  }

  // ---------- Nobody is ever stuck ----------

  // A finished thread may make any call; one in a call can step on, or the thread
  // that has the lock can.
  lemma {:induction false} NeverStuck(s: State, t: Thread, r: Option<Pointer>) returns (u: Thread, a: Action)
    requires LockHeld(s) && !Finished(s.at(t))
    ensures a == Proceed || a == Compile(r)
    ensures u == t || s.lock == Some(u)
    ensures Step(s, u, a).Some?
  {
    u := t;
    if (s.at(t).Seeking? || s.at(t).Compiled? || s.at(t).Removing?) && s.lock.Some? {
      u := s.lock.value;
      assert Locked(s.at(u));
    }
    a := if s.at(u).Compiling? then Compile(r) else Proceed;
  }

  // While nobody has the lock, a thread can have a host removed by itself, which
  // clears an abandoned entry too.
  lemma {:induction false} RemovesAlone(s: State, t: Thread, h: Host) returns (run: seq<State>, moves: seq<Move>)
    requires s.lock == None && Finished(s.at(t))
    ensures IsRun(run, moves) && run[0] == s && moves != [] && moves[0] == Move(t, CallRemove(h))
    ensures forall k :: 0 < k < |moves| ==> moves[k] == Move(t, Proceed)
    ensures var s' := run[|moves|];
            s'.at(t) == Removed(h, h in s.functions) && s'.functions == s.functions - {h} && s'.lock == None
  {
    hide LockHeld, Sound, Justified;
    var s1 := Step(s, t, CallRemove(h)).value;
    var s2 := Step(s1, t, Proceed).value;
    var s3 := Step(s2, t, Proceed).value;
    var s4 := Step(s3, t, Proceed).value;
    var on := Move(t, Proceed);
    if h in s.functions {
      var s5 := Step(s4, t, Proceed).value;
      run, moves := [s, s1, s2, s3, s4, s5], [Move(t, CallRemove(h)), on, on, on, on];
    } else {
      run, moves := [s, s1, s2, s3, s4], [Move(t, CallRemove(h)), on, on, on];
      assert s.functions - {h} == s.functions;
    }
  }
}
