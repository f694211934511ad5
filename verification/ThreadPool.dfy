// The worker pool: workers come and go under one lock, in which termination
// tickets are counted in a byte, and tasks wait in the priority queue.
module ThreadPools {
  import opened Program
  import opened PriorityQueues

  type Worker = nat
  type Task = nat

  // Where `terminate_all_workers` has got to. Cleaning up lasts from its first
  // step to its last; the steps after the first are outside the lock.
  datatype Phase = Normal | Draining | Emptied | FlagReset

  // `busy` are the tasks being run; `submitted` and `done` are history, and so
  // are the terminations asked for one by one, and the workers gone, since the
  // last clean-up.
  datatype Pool = Pool(threads: set<Worker>, flag: Byte, phase: Phase, queue: seq<Node<Task>>,
                       busy: map<Worker, Task>, done: set<Task>, submitted: set<Task>, asked: nat, gone: nat)

  datatype Action =
    | Allocate(w: Worker)
    | Terminate
    | Submit(t: Task, priority: Byte)
    | Turn(w: Worker)
    | Finish(w: Worker)
    | BeginCleanup
    | SeeEmpty
    | ResetFlag
    | EndCleanup

  // Lower numbers are better.
  function Lower(a: Byte, b: Byte): bool { a < b }

  lemma {:induction false} LowerIsStrict()
    ensures IsStrictOrder(Lower)
  {
  }

  function Init(): Pool { Pool({}, 0, Normal, [], map[], {}, {}, 0, 0) }

  function Increment(b: Byte): Byte { (b + 1) % 256 }

  // One atomic step; none when it cannot be taken. A new worker's id is one no
  // live worker has; a submitted task is a new one.
  function Next(p: Pool, a: Action): Option<Pool> {
    match a
    case Allocate(w) =>
      if w in p.threads || w in p.busy then None
      else if p.phase != Normal then Some(p)
      else Some(p.(threads := p.threads + {w}))
    case Terminate =>
      if |p.threads| <= p.flag then Some(p)
      else Some(p.(flag := Increment(p.flag), asked := p.asked + 1))
    case Submit(t, priority) =>
      if t in p.submitted then None
      else Some(p.(queue := Pushed(Lower, p.queue, Node(t, priority)), submitted := p.submitted + {t}))
    case Turn(w) =>
      if w !in p.threads || w in p.busy || (p.queue == [] && p.flag == 0) then None
      else if p.flag > 0 then
        Some(p.(flag := p.flag - 1, threads := p.threads - {w}, gone := p.gone + 1))
      else Some(p.(queue := Popped(Lower, p.queue), busy := p.busy[w := p.queue[0].data]))
    case Finish(w) =>
      if w !in p.busy then None
      else Some(p.(busy := p.busy - {w}, done := p.done + {p.busy[w]}))
    case BeginCleanup =>
      if p.phase != Normal || p.threads == {} then Some(p)
      else Some(p.(phase := Draining, flag := 255))
    case SeeEmpty => if p.phase == Draining && p.threads == {} then Some(p.(phase := Emptied)) else None
    case ResetFlag => if p.phase == Emptied then Some(p.(phase := FlagReset, flag := 0)) else None
    case EndCleanup => if p.phase == FlagReset then Some(p.(phase := Normal, asked := 0, gone := 0)) else None
  }

  ghost predicate IsRun(run: seq<Pool>, moves: seq<Action>) {
    |run| == |moves| + 1 && forall i :: 0 <= i < |moves| ==> Some(run[i + 1]) == Next(run[i], moves[i])
  }

  // ---------- Tickets ----------

  // Outside a clean-up there are never more tickets than workers, and they are
  // the terminations asked for and not yet carried out. While draining there are
  // never fewer tickets than workers.
  predicate Accounted(p: Pool) {
    match p.phase
    case Normal => p.flag <= |p.threads| && p.asked == p.gone + p.flag
    case Draining => |p.threads| <= p.flag
    case Emptied => p.threads == {}
    case FlagReset => p.threads == {} && p.flag == 0
  }

  lemma {:induction false} AccountedStep(p: Pool, a: Action, p': Pool)
    requires Accounted(p) && |p.threads| <= 255 && Next(p, a) == Some(p')
    ensures Accounted(p')
    ensures a == Terminate ==> p'.flag == p.flag || p'.flag == p.flag + 1
    ensures a.Turn? && p'.threads != p.threads ==> p'.flag == p.flag - 1 && |p'.threads| == |p.threads| - 1
  {
  }

  // With at most 255 workers, over every interleaving: tickets and workers stay
  // in step, and no ticket is lost to the byte's range.
  lemma {:induction false} TicketsAccounted(run: seq<Pool>, moves: seq<Action>, i: nat)
    requires IsRun(run, moves) && run[0] == Init() && i < |run|
    requires forall k :: 0 <= k < |run| ==> |run[k].threads| <= 255
    ensures Accounted(run[i])
    ensures i < |moves| && moves[i] == Terminate ==>
              run[i + 1].flag == run[i].flag || run[i + 1].flag == run[i].flag + 1
  {
    hide Next, Accounted;
    if i == 0 {
      assert Accounted(Init()) by { InitAccounted(); }
    } else {
      TicketsAccounted(run, moves, i - 1);
      AccountedStep(run[i - 1], moves[i - 1], run[i]);
    }
    if i < |moves| { AccountedStep(run[i], moves[i], run[i + 1]); }
  }

  lemma {:induction false} InitAccounted()
    ensures Accounted(Init())
  {
  }

  // Asking for single terminations never removes more workers than were asked for.
  lemma {:induction false} NoExcessTermination(run: seq<Pool>, moves: seq<Action>, i: nat)
    requires IsRun(run, moves) && run[0] == Init() && i < |run| && run[i].phase == Normal
    requires forall k :: 0 <= k < |run| ==> |run[k].threads| <= 255
    ensures run[i].gone <= run[i].asked <= run[i].gone + |run[i].threads|
  {
    TicketsAccounted(run, moves, i);
  }

  // The pool after k single terminations in a row.
  function Terminated(p: Pool, k: nat): Pool {
    if k == 0 then p else Next(Terminated(p, k - 1), Terminate).value
  }

  // They issue k tickets but never more than there are workers, unless there are
  // more workers than a byte can count: then the byte wraps.
  lemma {:induction false} TerminatedExactly(p: Pool, k: nat)
    ensures var p' := Terminated(p, k);
            && p' == p.(flag := p'.flag, asked := p'.asked)
            && (|p.threads| > 255 ==> p'.flag == (p.flag + k) % 256 && p'.asked == p.asked + k)
            && (|p.threads| <= 255 ==>
                  p'.flag == (if p.flag >= |p.threads| then p.flag
                              else if p.flag + k <= |p.threads| then p.flag + k
                              else |p.threads|) &&
                  p'.asked == p.asked + p'.flag - p.flag)
  {
    hide Next, Increment;
    if k > 0 {
      TerminatedExactly(p, k - 1);
      TerminatedOnce(Terminated(p, k - 1));
      NextByte(p.flag + k - 1);
    }
  }

  lemma {:induction false} TerminatedOnce(p: Pool)
    ensures Next(p, Terminate) == Some(if |p.threads| <= p.flag then p
                                       else p.(flag := Increment(p.flag), asked := p.asked + 1))
    ensures Increment(p.flag) as int == if p.flag == 255 then 0 else p.flag + 1
  {
  }

  lemma {:induction false} NextByte(n: nat)
    ensures (n + 1) % 256 == if n % 256 == 255 then 0 else n % 256 + 1
  {
  }

  function FirstWorkers(n: nat): (ws: set<Worker>)
    ensures forall w :: w in ws ==> w < n
  {
    if n == 0 then {} else FirstWorkers(n - 1) + {n - 1}
  }

  lemma {:induction false} CountWorkers(n: nat)
    ensures |FirstWorkers(n)| == n
  {
    if n > 0 { CountWorkers(n - 1); }
  }

  // The pool after n allocations and k terminations asked for.
  function Grown(n: nat, k: Byte): Pool { Pool(FirstWorkers(n), k, Normal, [], map[], {}, {}, k, 0) }

  // n allocations and then k terminations, from the initial pool.
  function GrowthMoves(n: nat, k: nat): (moves: seq<Action>)
    ensures |moves| == n + k
  {
    seq(n + k, i requires 0 <= i < n + k => if i < n then Allocate(i) else Terminate)
  }

  function Growth(n: nat, k: Byte): (run: seq<Pool>)
    ensures |run| == n + k + 1
  {
    seq(n + k + 1, i requires 0 <= i <= n + k => if i <= n then Grown(i, 0) else Grown(n, i - n))
  }

  lemma {:induction false} GrowthMove(n: nat, k: Byte, i: nat)
    requires k <= n && i < n + k
    ensures Some(Growth(n, k)[i + 1]) == Next(Growth(n, k)[i], GrowthMoves(n, k)[i])
  {
    hide Next, Grown;
    if i < n {
      assert GrowthMoves(n, k)[i] == Allocate(i) && Growth(n, k)[i] == Grown(i, 0) &&
        Growth(n, k)[i + 1] == Grown(i + 1, 0);
      GrowStep(i);
    } else {
      assert GrowthMoves(n, k)[i] == Terminate;
      assert Growth(n, k)[i] == Grown(n, i - n) && Growth(n, k)[i + 1] == Grown(n, i - n + 1);
      AskStep(n, i - n);
    }
  }

  lemma {:induction false} GrowthEnds(n: nat, k: Byte)
    ensures Growth(n, k)[0] == Init() && Growth(n, k)[n + k] == Grown(n, k)
  {
    assert FirstWorkers(0) == {} && Grown(0, 0) == Init();
    assert Growth(n, k)[0] == Grown(0, 0);
    var last := n + k;
    assert Growth(n, k)[last] == if last <= n then Grown(last, 0) else Grown(n, last - n);
  }

  lemma {:induction false} GrowthSize(n: nat, k: Byte, i: nat)
    requires i <= n + k
    ensures |Growth(n, k)[i].threads| <= n
  {
    assert Growth(n, k)[i] == if i <= n then Grown(i, 0) else Grown(n, i - n);
    CountWorkers(if i <= n then i else n);
  }

  lemma {:induction false} GrowthIsRun(n: nat, k: Byte)
    requires k <= n
    ensures IsRun(Growth(n, k), GrowthMoves(n, k)) && Growth(n, k)[0] == Init() && Growth(n, k)[n + k] == Grown(n, k)
    ensures NeverMoreThan(Growth(n, k), n)
  {
    hide Next, Growth, GrowthMoves, Grown;
    var run, moves := Growth(n, k), GrowthMoves(n, k);
    GrowthEnds(n, k);
    forall i | 0 <= i < |moves| ensures Some(run[i + 1]) == Next(run[i], moves[i]) { GrowthMove(n, k, i); }
    forall i | 0 <= i < |run| ensures |run[i].threads| <= n { GrowthSize(n, k, i); }
  }

  lemma {:induction false} GrowStep(n: nat)
    ensures Next(Grown(n, 0), Allocate(n)) == Some(Grown(n + 1, 0))
  {
  }

  lemma {:induction false} AskStep(n: nat, k: Byte)
    requires k < n && k < 255
    ensures Next(Grown(n, k), Terminate) == Some(Grown(n, k + 1))
  {
    CountWorkers(n);
  }

  // Asked 256 times in a pool of 256 workers, the byte says that nobody is to go.
  lemma {:induction false} WrapReached()
    ensures IsRun(Growth(256, 255), GrowthMoves(256, 255)) && Growth(256, 255)[0] == Init()
    ensures var p := Growth(256, 255)[511];
            p.flag == 255 && |p.threads| == 256 && Next(p, Terminate).Some? && Next(p, Terminate).value.flag == 0
  {
    GrowthIsRun(256, 255);
    CountWorkers(256);
  }

  lemma {:induction false} TerminateKeepsWorkers(p: Pool)
    ensures Next(p, Terminate).Some? && Next(p, Terminate).value.threads == p.threads
  {
  }

  // A single termination that takes tickets back.
  ghost predicate Wraps(run: seq<Pool>, moves: seq<Action>, i: nat) {
    && IsRun(run, moves) && run[0] == Init() && i < |moves|
    && moves[i] == Terminate && run[i + 1].flag < run[i].flag
  }

  ghost predicate NeverMoreThan(run: seq<Pool>, most: nat) {
    forall k :: 0 <= k < |run| ==> |run[k].threads| <= most
  }

  // Pools that never have more than `most` workers can lose tickets to the byte
  // exactly when `most` is above 255.
  lemma {:induction false} WrapsExactly(most: nat)
    ensures (exists run, moves, i :: Wraps(run, moves, i) && NeverMoreThan(run, most)) <==> most > 255
  {
    hide Next, Growth, GrowthMoves, Grown;
    if most > 255 {
      var run, moves := Growth(256, 255), GrowthMoves(256, 255);
      GrowthIsRun(256, 255);
      WrapReached();
      var last := Next(run[511], Terminate).value;
      TerminateKeepsWorkers(run[511]);
      RunSnoc(run, moves, Terminate, last);
      assert Wraps(run + [last], moves + [Terminate], 511) && NeverMoreThan(run + [last], most);
    }
    if run, moves, i: nat :| Wraps(run, moves, i) && NeverMoreThan(run, most) {
      if most <= 255 { TicketsAccounted(run, moves, i); }
    }
  }

  lemma {:induction false} RunSnoc(run: seq<Pool>, moves: seq<Action>, a: Action, last: Pool)
    requires IsRun(run, moves) && Next(run[|moves|], a) == Some(last)
    ensures IsRun(run + [last], moves + [a])
  {
    hide Next;
    var run', moves' := run + [last], moves + [a];
    forall i | 0 <= i < |moves'| ensures Some(run'[i + 1]) == Next(run'[i], moves'[i]) {
      if i < |moves| { assert run'[i + 1] == run[i + 1] && run'[i] == run[i] && moves'[i] == moves[i]; }
    }
  }

  // While draining without single terminations, each worker gone takes a ticket.
  lemma {:induction false} DrainKeepsDifference(run: seq<Pool>, moves: seq<Action>, i: nat)
    requires IsRun(run, moves) && i < |run|
    requires forall k :: 0 <= k < |run| ==> run[k].phase == Draining
    requires forall k :: 0 <= k < |moves| ==> moves[k] != Terminate
    ensures |run[i].threads| - run[i].flag == |run[0].threads| - run[0].flag
  {
    if i > 0 {
      DrainKeepsDifference(run, moves, i - 1);
      var a := moves[i - 1];
      assert Some(run[i]) == Next(run[i - 1], a);
    }
  }

  // A worker that is not running a task leaves on its turn.
  lemma {:induction false} DrainTurn(p: Pool, w: Worker)
    requires p.phase == Draining && p.flag > 0 && w in p.threads && w !in p.busy
    ensures Next(p, Turn(w)) == Some(p.(flag := p.flag - 1, threads := p.threads - {w}, gone := p.gone + 1))
    ensures |p.threads - {w}| == |p.threads| - 1
  {
  }

  // Draining can be completed: here is how.
  lemma {:induction false} CanDrain(p: Pool) returns (run: seq<Pool>, moves: seq<Action>)
    requires p.phase == Draining && |p.threads| <= p.flag
    ensures IsRun(run, moves) && run[0] == p && run[|moves|].threads == {}
    ensures forall k :: 0 <= k < |run| ==> run[k].phase == Draining
    ensures forall k :: 0 <= k < |moves| ==> moves[k].Turn? || moves[k].Finish?
    decreases |p.threads|, |p.busy|
  {
    hide Next;
    if p.threads == {} {
      run, moves := [p], [];
    } else {
      var w :| w in p.threads;
      var a := if w in p.busy then Finish(w) else Turn(w);
      DrainMove(p, w);
      var p' := Next(p, a).value;
      var rest, later := CanDrain(p');
      run, moves := [p] + rest, [a] + later;
      RunCons(p, a, rest, later);
    }
  }

  lemma {:induction false} DrainMove(p: Pool, w: Worker)
    requires p.phase == Draining && |p.threads| <= p.flag && w in p.threads
    ensures var a := if w in p.busy then Finish(w) else Turn(w);
            Next(p, a).Some? && (var p' := Next(p, a).value;
            p'.phase == Draining && |p'.threads| <= p'.flag &&
            (|p'.threads| < |p.threads| || (|p'.threads| == |p.threads| && |p'.busy| < |p.busy|)))
  {
    assert |p.threads| > 0;
    if w in p.busy {
      var b := p.busy - {w};
      assert b.Keys == p.busy.Keys - {w};
      assert |b.Keys| == |p.busy.Keys| - 1;
      assert |b| == |b.Keys| && |p.busy| == |p.busy.Keys|;
    } else {
      DrainTurn(p, w);
    }
  }

  lemma {:induction false} RunCons(p: Pool, a: Action, rest: seq<Pool>, later: seq<Action>)
    requires IsRun(rest, later) && Next(p, a) == Some(rest[0])
    ensures IsRun([p] + rest, [a] + later)
  {
    hide Next;
    var run, moves := [p] + rest, [a] + later;
    forall i | 0 <= i < |moves| ensures Some(run[i + 1]) == Next(run[i], moves[i]) {
      if i > 0 {
        assert run[i] == rest[i - 1] && run[i + 1] == rest[i] && moves[i] == later[i - 1];
      }
    }
  }

  // Exactly the pools of at most 255 workers can be drained by the 255 tickets
  // that `terminate_all_workers` issues.
  lemma {:induction false} DrainsExactly(p: Pool)
    requires p.phase == Normal && p.threads != {}
    ensures (exists run, moves :: DrainRun(Next(p, BeginCleanup).value, run, moves)) <==> |p.threads| <= 255
  {
    var p' := Next(p, BeginCleanup).value;
    if |p.threads| <= 255 {
      var run, moves := CanDrain(p');
      assert DrainRun(p', run, moves);
    }
    if run, moves :| DrainRun(p', run, moves) {
      DrainKeepsDifference(run, moves, |moves|);
    }
  }

  ghost predicate DrainRun(p: Pool, run: seq<Pool>, moves: seq<Action>) {
    && IsRun(run, moves) && run[0] == p && run[|moves|].threads == {}
    && (forall k :: 0 <= k < |run| ==> run[k].phase == Draining)
    && (forall k :: 0 <= k < |moves| ==> moves[k] != Terminate)
  }

  // ---------- Tasks ----------

  predicate Queued(p: Pool, t: Task) { exists n :: n in multiset(p.queue) && n.data == t }

  predicate Busy(p: Pool, t: Task) { exists w :: w in p.busy && p.busy[w] == t }

  // The nodes of a queue have different tasks, and none twice.
  ghost predicate Distinct(q: multiset<Node<Task>>) {
    && (forall n :: n in q ==> q[n] == 1)
    && (forall m, n :: m in q && n in q && m.data == n.data ==> m == n)
  }

  // Every submitted task is waiting, being run by one worker, or done: one of
  // the three, and once.
  ghost predicate Conserved(p: Pool) {
    && IsHeap(Lower, p.queue) && p.busy.Keys <= p.threads
    && (forall t: Task :: t in p.submitted <==> Queued(p, t) || Busy(p, t) || t in p.done)
    && (forall t: Task :: Queued(p, t) ==> !Busy(p, t) && t !in p.done)
    && (forall t: Task :: Busy(p, t) ==> t !in p.done)
    && Distinct(multiset(p.queue))
    && (forall v, w :: v in p.busy && w in p.busy && p.busy[v] == p.busy[w] ==> v == w)
  }

  lemma {:induction false} SubmitConserves(p: Pool, t: Task, priority: Byte, p': Pool)
    requires Conserved(p) && Next(p, Submit(t, priority)) == Some(p')
    ensures Conserved(p')
  {
    hide IsHeap, Pushed;
    var n := Node(t, priority);
    LowerIsStrict();
    PushedIsHeap(Lower, p.queue, n);
    assert multiset(p'.queue) == multiset(p.queue) + multiset{n};
    assert forall m :: m in multiset(p'.queue) <==> m in multiset(p.queue) || m == n;
    assert !Queued(p, t) && !Busy(p, t) && t !in p.done;
    forall u: Task ensures Queued(p', u) <==> Queued(p, u) || u == t {
      if u == t { assert n in multiset(p'.queue); }
      if Queued(p, u) {
        var m :| m in multiset(p.queue) && m.data == u;
        assert m in multiset(p'.queue);
      }
    }
    assert forall u: Task :: Busy(p', u) <==> Busy(p, u);
  }

  lemma {:induction false} Dequeued(p: Pool, p': Pool, n: Node<Task>)
    requires Distinct(multiset(p.queue)) && n in multiset(p.queue)
    requires multiset(p'.queue) == multiset(p.queue) - multiset{n}
    ensures Distinct(multiset(p'.queue))
    ensures forall u: Task :: Queued(p', u) <==> Queued(p, u) && u != n.data
  {
    var q, q' := multiset(p.queue), multiset(p'.queue);
    assert forall m :: m in q' <==> m in q && m != n;
    forall u: Task | Queued(p, u) && u != n.data ensures Queued(p', u) {
      var m :| m in q && m.data == u;
      assert m in q';
    }
  }

  lemma {:induction false} Started(p: Pool, p': Pool, w: Worker, t: Task)
    requires w !in p.busy && p'.busy == p.busy[w := t]
    ensures forall u: Task :: Busy(p', u) <==> Busy(p, u) || u == t
  {
    forall u: Task ensures Busy(p', u) <==> Busy(p, u) || u == t {
      if u == t { assert p'.busy[w] == u; }
      if Busy(p, u) {
        var v :| v in p.busy && p.busy[v] == u;
        assert v in p'.busy && p'.busy[v] == u;
      }
    }
  }

  lemma {:induction false} OnlyOneRuns(p: Pool, p': Pool, w: Worker, t: Task)
    requires w !in p.busy && p'.busy == p.busy[w := t] && !Busy(p, t)
    requires forall v, x :: v in p.busy && x in p.busy && p.busy[v] == p.busy[x] ==> v == x
    ensures forall v, x :: v in p'.busy && x in p'.busy && p'.busy[v] == p'.busy[x] ==> v == x
  {
  }

  lemma {:induction false} DequeueConserves(p: Pool, w: Worker, p': Pool)
    requires Conserved(p) && Next(p, Turn(w)) == Some(p') && p.flag == 0
    ensures Conserved(p')
  {
    hide IsHeap, Popped, Busy, Distinct;
    var n := p.queue[0];
    LowerIsStrict();
    PoppedIsHeap(Lower, p.queue);
    PoppedContents(Lower, p.queue);
    assert n in multiset(p.queue);
    assert Queued(p, n.data);
    Dequeued(p, p', n);
    Started(p, p', w, n.data);
    OnlyOneRuns(p, p', w, n.data);
  }

  lemma {:induction false} FinishConserves(p: Pool, w: Worker, p': Pool)
    requires Conserved(p) && Next(p, Finish(w)) == Some(p')
    ensures Conserved(p')
  {
    hide IsHeap;
    var t := p.busy[w];
    assert Busy(p, t);
    forall u: Task ensures Busy(p', u) <==> Busy(p, u) && u != t {
      if Busy(p, u) && u != t {
        var v :| v in p.busy && p.busy[v] == u;
        assert v in p'.busy && p'.busy[v] == u;
      }
    }
    assert forall u: Task :: Queued(p', u) <==> Queued(p, u);
  }

  // Neither allocation, termination nor a clean-up touches a task.
  lemma {:induction false} ConservedStep(p: Pool, a: Action, p': Pool)
    requires Conserved(p) && Next(p, a) == Some(p')
    ensures Conserved(p')
  {
    match a {
      case Submit(t, priority) => SubmitConserves(p, t, priority, p');
      case Turn(w) => if p.flag == 0 { DequeueConserves(p, w, p'); } else { SameTasks(p, p'); }
      case Finish(w) => FinishConserves(p, w, p');
      case _ => SameTasks(p, p');
    }
  }

  lemma {:induction false} SameTasks(p: Pool, p': Pool)
    requires Conserved(p) && p'.queue == p.queue && p'.busy == p.busy && p'.done == p.done &&
             p'.submitted == p.submitted
    requires p.busy.Keys <= p'.threads
    ensures Conserved(p')
  {
    hide IsHeap;
    assert forall t: Task :: Queued(p', t) <==> Queued(p, t);
    assert forall t: Task :: Busy(p', t) <==> Busy(p, t);
  }

  lemma {:induction false} InitConserved()
    ensures Conserved(Init())
  {
  }

  // In every reachable state of any number of workers, each task is in exactly
  // one place.
  lemma {:induction false} TasksConserved(run: seq<Pool>, moves: seq<Action>, i: nat)
    requires IsRun(run, moves) && run[0] == Init() && i < |run|
    ensures Conserved(run[i])
  {
    hide Next, Conserved;
    if i == 0 {
      InitConserved();
    } else {
      TasksConserved(run, moves, i - 1);
      ConservedStep(run[i - 1], moves[i - 1], run[i]);
    }
  }

  // A worker that starts a task passes over no better one.
  lemma {:induction false} BestFirst(run: seq<Pool>, moves: seq<Action>, i: nat, w: Worker)
    requires IsRun(run, moves) && run[0] == Init() && i < |moves| && moves[i] == Turn(w)
    requires w !in run[i].busy && w in run[i + 1].busy
    ensures exists n :: n in run[i].queue && n.data == run[i + 1].busy[w] &&
                        forall m :: m in run[i].queue ==> n.priority <= m.priority
  {
    TasksConserved(run, moves, i);
    LowerIsStrict();
    var p := run[i];
    assert Some(run[i + 1]) == Next(p, Turn(w));
    assert p.flag == 0;
    forall m | m in p.queue ensures p.queue[0].priority <= m.priority {
      MemberNotBetter(Lower, p.queue, m);
    }
    assert p.queue[0] in p.queue;
  }

  // A task that has been submitted stays so.
  lemma {:induction false} SubmittedStays(run: seq<Pool>, moves: seq<Action>, i: nat, j: nat, t: Task)
    requires IsRun(run, moves) && i <= j < |run| && t in run[i].submitted
    ensures t in run[j].submitted
    decreases j - i
  {
    if i < j {
      SubmittedStays(run, moves, i, j - 1, t);
      assert Some(run[j]) == Next(run[j - 1], moves[j - 1]);
    }
  }

  // No task is submitted twice, whatever the priorities.
  lemma {:induction false} SubmittedOnce(run: seq<Pool>, moves: seq<Action>, j: nat, k: nat)
    requires IsRun(run, moves) && j < |moves| && k < |moves|
    requires moves[j].Submit? && moves[k].Submit? && moves[j].t == moves[k].t
    ensures j == k
  {
    var first, later := if j < k then j else k, if j < k then k else j;
    if first < later {
      assert Some(run[later + 1]) == Next(run[later], moves[later]);
      assert Some(run[first + 1]) == Next(run[first], moves[first]);
      SubmittedStays(run, moves, first + 1, later, moves[first].t);
    }
  }

  // A waiting node is what a move submitted, task and priority.
  lemma {:induction false} QueuedAsSubmitted(run: seq<Pool>, moves: seq<Action>, i: nat, n: Node<Task>) returns (j: nat)
    requires IsRun(run, moves) && run[0] == Init() && i < |run| && n in multiset(run[i].queue)
    ensures j < i && moves[j] == Submit(n.data, n.priority)
  {
    hide Next, Conserved;
    assert run[0].queue == [];
    assert Some(run[i]) == Next(run[i - 1], moves[i - 1]);
    TasksConserved(run, moves, i - 1);
    QueueGains(run[i - 1], moves[i - 1], run[i], n);
    if n in multiset(run[i - 1].queue) {
      j := QueuedAsSubmitted(run, moves, i - 1, n);
    } else {
      j := i - 1;
    }
  }

  lemma {:induction false} QueueGains(p: Pool, a: Action, p': Pool, n: Node<Task>)
    requires Conserved(p) && Next(p, a) == Some(p') && n in multiset(p'.queue)
    ensures n in multiset(p.queue) || a == Submit(n.data, n.priority)
  {
    hide Pushed, Popped, IsHeap, Distinct, Busy, Queued;
    LowerIsStrict();
    match a {
      case Submit(t, priority) => PushedIsHeap(Lower, p.queue, Node(t, priority));
      case Turn(_) => if p.queue != [] { PoppedContents(Lower, p.queue); }
      case _ =>
    }
  }

  // The priority a task was submitted with is the one it is queued under.
  lemma {:induction false} SubmittedAs(run: seq<Pool>, moves: seq<Action>, i: nat, n: Node<Task>, j: nat, a: Byte)
    requires IsRun(run, moves) && run[0] == Init() && i < |run| && n in multiset(run[i].queue)
    requires j < |moves| && moves[j] == Submit(n.data, a)
    ensures n.priority == a
  {
    hide Next;
    var k := QueuedAsSubmitted(run, moves, i, n);
    SubmittedOnce(run, moves, j, k);
  }

  // A task that has been submitted and is neither being run nor done is waiting.
  lemma {:induction false} Waits(run: seq<Pool>, moves: seq<Action>, i: nat, k: nat, u: Task)
    requires IsRun(run, moves) && run[0] == Init() && k < i < |run| && moves[k].Submit? && moves[k].t == u
    requires u !in run[i].busy.Values && u !in run[i].done
    ensures exists n :: n in multiset(run[i].queue) && n.data == u
  {
    TasksConserved(run, moves, i);
    assert Some(run[k + 1]) == Next(run[k], moves[k]);
    SubmittedStays(run, moves, k + 1, i, u);
    assert !Busy(run[i], u);
    assert Queued(run[i], u);
  }

  // When a worker starts a task, no task that was submitted with a better
  // priority is still waiting.
  lemma {:induction false} BestSubmittedFirst(run: seq<Pool>, moves: seq<Action>, i: nat, w: Worker,
                                              j: nat, t: Task, a: Byte, k: nat, u: Task, b: Byte)
    requires IsRun(run, moves) && run[0] == Init() && i < |moves| && moves[i] == Turn(w)
    requires w !in run[i].busy && w in run[i + 1].busy && run[i + 1].busy[w] == t
    requires j < i && moves[j] == Submit(t, a)
    requires k < i && moves[k] == Submit(u, b) && u !in run[i].busy.Values && u !in run[i].done
    ensures a <= b
  {
    hide Next;
    BestFirst(run, moves, i, w);
    var n :| n in run[i].queue && n.data == t && forall m :: m in run[i].queue ==> n.priority <= m.priority;
    Waits(run, moves, i, k, u);
    var m :| m in multiset(run[i].queue) && m.data == u;
    assert m in run[i].queue && n in multiset(run[i].queue);
    SubmittedAs(run, moves, i, n, j, a);
    SubmittedAs(run, moves, i, m, k, b);
  }

  // ---------- The pool object ----------

  datatype Outcome = Left | Runs(t: Task)

  // One method for each section of the program that runs under the pool's lock,
  // and for each of the unlocked steps of `terminate_all_workers`. `model` is
  // the state these sections are steps of.
  class ThreadPool {
    var threads: set<Worker>
    var terminationFlag: Byte
    var isCleaningUp: bool
    const taskQueue: PriorityQueue<Task>
    ghost var model: Pool

    ghost predicate Valid()
      reads this, taskQueue
    {
      && taskQueue.Valid() && taskQueue.better == Lower
      && model.threads == threads && model.flag == terminationFlag && model.queue == taskQueue.heap
      && (isCleaningUp <==> model.phase != Normal)
    }

    constructor ()
      ensures Valid() && model == Init() && fresh(taskQueue)
    {
      LowerIsStrict();
      threads, terminationFlag, isCleaningUp := {}, 0, false;
      taskQueue := new PriorityQueue(Lower);
      model := Init();
    }

    method AllocateWorker(id: Worker) returns (r: Option<Worker>)
      requires Valid() && id !in threads && id !in model.busy
      modifies this
      ensures Valid() && Some(model) == Next(old(model), Allocate(id))
      ensures threads == old(threads) + if old(isCleaningUp) then {} else {id}
      ensures terminationFlag == old(terminationFlag) && isCleaningUp == old(isCleaningUp)
      ensures r == if old(isCleaningUp) then None else Some(id)
    {
      if isCleaningUp { return None; }
      threads := threads + {id};
      model := Next(model, Allocate(id)).value;
      r := Some(id);
    }

    method TerminateWorker()
      requires Valid()
      modifies this
      ensures Valid() && Some(model) == Next(old(model), Terminate)
      ensures threads == old(threads) && isCleaningUp == old(isCleaningUp)
      ensures terminationFlag as int ==
              if |threads| <= old(terminationFlag) then old(terminationFlag) else (old(terminationFlag) + 1) % 256
    {
      model := Next(model, Terminate).value;
      if |threads| <= terminationFlag { return; }
      terminationFlag := Increment(terminationFlag);
    }

    // As many tickets as asked for, but never more than there are workers; in a
    // pool of more than 255 workers the byte may wrap.
    method BatchTerminateWorkers(count: Byte)
      requires Valid()
      modifies this
      ensures Valid() && threads == old(threads) && model == Terminated(old(model), count)
      ensures |threads| > 255 ==> terminationFlag as int == (old(terminationFlag) + count) % 256
      ensures |threads| <= 255 ==>
                terminationFlag as int ==
                if old(terminationFlag) >= |threads| then old(terminationFlag)
                else if old(terminationFlag) + count <= |threads| then old(terminationFlag) + count
                else |threads|
    {
      var i := 0;
      while i < count
        invariant 0 <= i <= count && Valid() && model == Terminated(old(model), i)
      {
        TerminateWorker();
        i := i + 1;
      }
      TerminatedExactly(old(model), count);
    }

    method QueueTask(t: Task, priority: Byte)
      requires Valid() && t !in model.submitted
      modifies this, taskQueue
      ensures Valid() && Some(model) == Next(old(model), Submit(t, priority))
      ensures multiset(taskQueue.heap) == multiset(old(taskQueue.heap)) + multiset{Node(t, priority)}
      ensures threads == old(threads) && terminationFlag == old(terminationFlag) && isCleaningUp == old(isCleaningUp)
    {
      taskQueue.Push(t, priority);
      model := Next(model, Submit(t, priority)).value;
    }

    // A worker that has been woken: a ticket takes precedence over any task.
    method WorkerTurn(w: Worker) returns (outcome: Outcome)
      requires Valid() && w in threads && w !in model.busy && (taskQueue.heap != [] || terminationFlag > 0)
      modifies this, taskQueue
      ensures Valid() && Some(model) == Next(old(model), Turn(w))
      ensures old(terminationFlag) > 0 ==>
                outcome == Left && terminationFlag == old(terminationFlag) - 1 && threads == old(threads) - {w} &&
                taskQueue.heap == old(taskQueue.heap) && model.busy == old(model.busy)
      ensures old(terminationFlag) == 0 ==>
                terminationFlag == 0 && threads == old(threads) &&
                exists n :: n in old(taskQueue.heap) && outcome == Runs(n.data) &&
                            multiset(taskQueue.heap) == multiset(old(taskQueue.heap)) - multiset{n} &&
                            model.busy == old(model.busy)[w := n.data] &&
                            forall m :: m in old(taskQueue.heap) ==> n.priority <= m.priority
    {
      ghost var next := Next(model, Turn(w)).value;
      if terminationFlag > 0 {
        terminationFlag := terminationFlag - 1;
        threads := threads - {w};
        outcome := Left;
      } else {
        ghost var n := taskQueue.heap[0];
        ghost var waiting := taskQueue.heap;
        var dequeued, t := taskQueue.TryPop();
        outcome := Runs(t.value);
        assert n in waiting && n.data == t.value;
      }
      model := next;
    }

    // The first, locked, step of `terminate_all_workers`.
    method BeginTerminateAll() returns (started: bool)
      requires Valid()
      modifies this
      ensures Valid() && Some(model) == Next(old(model), BeginCleanup)
      ensures started <==> !old(isCleaningUp) && threads != {}
      ensures threads == old(threads)
      ensures if started then isCleaningUp && terminationFlag == 255
              else isCleaningUp == old(isCleaningUp) && terminationFlag == old(terminationFlag)
    {
      model := Next(model, BeginCleanup).value;
      if isCleaningUp || threads == {} { return false; }
      isCleaningUp := true;
      terminationFlag := 255;
      started := true;
    }

    // Its last two, once it has seen the pool empty.
    method EndTerminateAll()
      requires Valid() && model.phase == Emptied
      modifies this
      ensures Valid() && model.phase == Normal && terminationFlag == 0 && !isCleaningUp
      ensures Accounted(old(model)) ==> Accounted(model)
      ensures threads == old(threads) && taskQueue.heap == old(taskQueue.heap)
    {
      terminationFlag := 0;
      model := Next(model, ResetFlag).value;
      isCleaningUp := false;
      model := Next(model, EndCleanup).value;
    }
  }
}
