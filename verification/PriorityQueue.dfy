// The binary heap behind the thread pool's task queue.
module PriorityQueues {
  import opened Program

  datatype Node<+T> = Node(data: T, priority: Byte)

  // `better` is the comparator: any strict order of priorities, ties allowed.
  type Order = (Byte, Byte) -> bool

  ghost predicate IsStrictOrder(better: Order) {
    && (forall a: Byte :: !better(a, a))
    && (forall a: Byte, b: Byte, c: Byte :: better(a, b) && better(b, c) ==> better(a, c))
    && (forall a: Byte, b: Byte, c: Byte :: !better(a, b) && !better(b, c) ==> !better(a, c))
  }

  function Parent(i: nat): nat
    requires 0 < i
  {
    (i - 1) / 2
  }

  function Swap<T>(h: seq<Node<T>>, i: nat, j: nat): seq<Node<T>>
    requires i < |h| && j < |h|
  {
    h[i := h[j]][j := h[i]]
  }

  // ---------- What the two loops compute ----------

  function SiftUp<T>(better: Order, h: seq<Node<T>>, idx: nat): (r: seq<Node<T>>)
    requires idx < |h|
    ensures |r| == |h|
    decreases idx
  {
    if idx > 0 && better(h[idx].priority, h[Parent(idx)].priority) then
      SiftUp(better, Swap(h, idx, Parent(idx)), Parent(idx))
    else h
  }

  // The best of a node and its two children, the left one first on ties.
  function Largest<T>(better: Order, h: seq<Node<T>>, idx: nat): (r: nat)
    requires idx < |h|
    ensures r == idx || (r in {2 * idx + 1, 2 * idx + 2} && r < |h|)
  {
    var left, right := 2 * idx + 1, 2 * idx + 2;
    var l := if left < |h| && better(h[left].priority, h[idx].priority) then left else idx;
    if right < |h| && better(h[right].priority, h[l].priority) then right else l
  }

  function SiftDown<T>(better: Order, h: seq<Node<T>>, idx: nat): (r: seq<Node<T>>)
    ensures |r| == |h|
    decreases |h| - idx
  {
    if idx >= |h| || Largest(better, h, idx) == idx then h
    else SiftDown(better, Swap(h, idx, Largest(better, h, idx)), Largest(better, h, idx))
  }

  // Swapping loses and invents nothing.
  lemma {:induction false} SiftUpContents<T>(better: Order, h: seq<Node<T>>, idx: nat)
    requires idx < |h|
    ensures multiset(SiftUp(better, h, idx)) == multiset(h)
    decreases idx
  {
    if idx > 0 && better(h[idx].priority, h[Parent(idx)].priority) {
      SiftUpContents(better, Swap(h, idx, Parent(idx)), Parent(idx));
    }
  }

  lemma {:induction false} SiftDownContents<T>(better: Order, h: seq<Node<T>>, idx: nat)
    ensures multiset(SiftDown(better, h, idx)) == multiset(h)
    decreases |h| - idx
  {
    if idx < |h| && Largest(better, h, idx) != idx {
      SiftDownContents(better, Swap(h, idx, Largest(better, h, idx)), Largest(better, h, idx));
    }
  }

  function Pushed<T>(better: Order, h: seq<Node<T>>, n: Node<T>): seq<Node<T>> {
    SiftUp(better, h + [n], |h|)
  }

  function Popped<T>(better: Order, h: seq<Node<T>>): (r: seq<Node<T>>)
    requires h != []
    ensures |r| == |h| - 1
  {
    SiftDown(better, Swap(h, 0, |h| - 1)[..|h| - 1], 0)
  }

  function Drained<T>(better: Order, h: seq<Node<T>>): seq<Node<T>>
    decreases |h|
  {
    if h == [] then [] else [h[0]] + Drained(better, Popped(better, h))
  }

  // ---------- Heap order ----------

  predicate OrderedAt<T>(better: Order, h: seq<Node<T>>, i: nat)
    requires i < |h|
  {
    i == 0 || !better(h[i].priority, h[Parent(i)].priority)
  }

  ghost predicate IsHeap<T>(better: Order, h: seq<Node<T>>) {
    forall i: nat :: i < |h| ==> OrderedAt(better, h, i)
  }

  // Children of a hole are no better than the node above the hole.
  predicate SkipsHole<T>(better: Order, h: seq<Node<T>>, idx: nat, c: nat)
    requires idx < |h| && c < |h|
  {
    0 < idx && 0 < c && Parent(c) == idx ==> !better(h[c].priority, h[Parent(idx)].priority)
  }

  // A heap but for one node that may be better than those above it.
  ghost predicate RisingAt<T>(better: Order, h: seq<Node<T>>, idx: nat)
    requires idx < |h|
  {
    forall i: nat :: i < |h| ==> (i != idx ==> OrderedAt(better, h, i)) && SkipsHole(better, h, idx, i)
  }

  // A heap but for one node that may be worse than those below it.
  ghost predicate SinkingAt<T>(better: Order, h: seq<Node<T>>, idx: nat)
    requires idx < |h|
  {
    forall i: nat :: i < |h| ==>
      ((0 < i ==> Parent(i) != idx) ==> OrderedAt(better, h, i)) && SkipsHole(better, h, idx, i)
  }

  lemma {:induction false} RiseStep<T>(better: Order, h: seq<Node<T>>, idx: nat)
    requires IsStrictOrder(better) && idx < |h| && RisingAt(better, h, idx)
    requires idx > 0 && better(h[idx].priority, h[Parent(idx)].priority)
    ensures RisingAt(better, Swap(h, idx, Parent(idx)), Parent(idx))
  {
    var up, h' := Parent(idx), Swap(h, idx, Parent(idx));
    forall i: nat | i < |h'|
      ensures i != up ==> OrderedAt(better, h', i)
      ensures SkipsHole(better, h', up, i)
    {
      assert OrderedAt(better, h, up) || up == idx;
      assert i != idx ==> OrderedAt(better, h, i);
      assert SkipsHole(better, h, idx, i);
    }
  }

  lemma {:induction false} SiftUpHeap<T>(better: Order, h: seq<Node<T>>, idx: nat)
    requires IsStrictOrder(better) && idx < |h| && RisingAt(better, h, idx)
    ensures IsHeap(better, SiftUp(better, h, idx))
    decreases idx
  {
    hide RisingAt;
    if idx > 0 && better(h[idx].priority, h[Parent(idx)].priority) {
      RiseStep(better, h, idx);
      SiftUpHeap(better, Swap(h, idx, Parent(idx)), Parent(idx));
    } else {
      RisenIsHeap(better, h, idx);
    }
  }

  lemma {:induction false} RisenIsHeap<T>(better: Order, h: seq<Node<T>>, idx: nat)
    requires idx < |h| && RisingAt(better, h, idx) && OrderedAt(better, h, idx)
    ensures IsHeap(better, h)
  {
  }

  lemma {:induction false} LargestIsBest<T>(better: Order, h: seq<Node<T>>, idx: nat, c: nat)
    requires IsStrictOrder(better) && idx < |h| && c < |h| && (c == idx || (0 < c && Parent(c) == idx))
    ensures !better(h[c].priority, h[Largest(better, h, idx)].priority)
  {
    if c != idx { assert c == 2 * idx + 1 || c == 2 * idx + 2; }
  }

  lemma {:induction false} SinkStep<T>(better: Order, h: seq<Node<T>>, idx: nat)
    requires IsStrictOrder(better) && idx < |h| && SinkingAt(better, h, idx)
    requires Largest(better, h, idx) != idx
    ensures var l := Largest(better, h, idx); SinkingAt(better, Swap(h, idx, l), l)
  {
    var l := Largest(better, h, idx);
    var h' := Swap(h, idx, l);
    assert 0 < l && Parent(l) == idx;
    assert SkipsHole(better, h, idx, l);
    forall i: nat | i < |h'|
      ensures (0 < i ==> Parent(i) != l) ==> OrderedAt(better, h', i)
      ensures SkipsHole(better, h', l, i)
    {
      if 0 < i && Parent(i) == idx { LargestIsBest(better, h, idx, i); }
      LargestIsBest(better, h, idx, idx);
      assert (0 < i ==> Parent(i) != idx) ==> OrderedAt(better, h, i);
      assert SkipsHole(better, h, idx, i);
    }
  }

  lemma {:induction false} SiftDownHeap<T>(better: Order, h: seq<Node<T>>, idx: nat)
    requires IsStrictOrder(better) && (idx < |h| ==> SinkingAt(better, h, idx)) && (idx >= |h| ==> h == [])
    ensures IsHeap(better, SiftDown(better, h, idx))
    decreases |h| - idx
  {
    if idx < |h| {
      if Largest(better, h, idx) == idx {
        forall i: nat | i < |h| ensures OrderedAt(better, h, i) {
          if 0 < i && Parent(i) == idx { LargestIsBest(better, h, idx, i); }
        }
      } else {
        SinkStep(better, h, idx);
        SiftDownHeap(better, Swap(h, idx, Largest(better, h, idx)), Largest(better, h, idx));
      }
    }
  }

  lemma {:induction false} PushedIsHeap<T>(better: Order, h: seq<Node<T>>, n: Node<T>)
    requires IsStrictOrder(better) && IsHeap(better, h)
    ensures IsHeap(better, Pushed(better, h, n))
    ensures multiset(Pushed(better, h, n)) == multiset(h) + multiset{n}
  {
    forall i: nat | i < |h + [n]|
      ensures i != |h| ==> OrderedAt(better, h + [n], i)
      ensures SkipsHole(better, h + [n], |h|, i)
    {
      if i < |h| { assert OrderedAt(better, h, i); }
    }
    SiftUpHeap(better, h + [n], |h|);
    SiftUpContents(better, h + [n], |h|);
  }

  lemma {:induction false} SwapContents<T>(h: seq<Node<T>>, i: nat, j: nat)
    requires i < |h| && j < |h|
    ensures multiset(Swap(h, i, j)) == multiset(h)
  {
  }

  lemma {:induction false} PoppedContents<T>(better: Order, h: seq<Node<T>>)
    requires h != []
    ensures multiset(Popped(better, h)) == multiset(h) - multiset{h[0]}
  {
    hide SiftDown;
    var n := |h| - 1;
    SwapContents(h, 0, n);
    SiftDownContents(better, Swap(h, 0, n)[..n], 0);
    LastOut(Swap(h, 0, n));
  }

  lemma {:induction false} LastOut<T>(s: seq<Node<T>>)
    requires s != []
    ensures multiset(s[..|s| - 1]) == multiset(s) - multiset{s[|s| - 1]}
  {
    assert s == s[..|s| - 1] + [s[|s| - 1]];
  }

  lemma {:induction false} LastSinks<T>(better: Order, h: seq<Node<T>>)
    requires IsHeap(better, h) && 1 < |h|
    ensures SinkingAt(better, Swap(h, 0, |h| - 1)[..|h| - 1], 0)
  {
    var s := Swap(h, 0, |h| - 1)[..|h| - 1];
    forall i: nat | i < |s|
      ensures (0 < i ==> Parent(i) != 0) ==> OrderedAt(better, s, i)
      ensures SkipsHole(better, s, 0, i)
    {
      assert OrderedAt(better, h, i);
    }
  }

  lemma {:induction false} PoppedIsHeap<T>(better: Order, h: seq<Node<T>>)
    requires IsStrictOrder(better) && IsHeap(better, h) && h != []
    ensures IsHeap(better, Popped(better, h))
  {
    hide IsStrictOrder, IsHeap, SinkingAt, SiftDown;
    if 1 < |h| { LastSinks(better, h); }
    SiftDownHeap(better, Swap(h, 0, |h| - 1)[..|h| - 1], 0);
  }

  // The node on top is as good as any.
  lemma {:induction false} TopIsBest<T>(better: Order, h: seq<Node<T>>, i: nat)
    requires IsStrictOrder(better) && IsHeap(better, h) && i < |h|
    ensures !better(h[i].priority, h[0].priority)
  {
    if i > 0 {
      assert OrderedAt(better, h, i);
      TopIsBest(better, h, Parent(i));
    }
  }

  ghost predicate Sorted<T>(better: Order, s: seq<Node<T>>) {
    forall i, j :: 0 <= i < j < |s| ==> !better(s[j].priority, s[i].priority)
  }

  lemma {:induction false} DrainContents<T>(better: Order, h: seq<Node<T>>)
    ensures multiset(Drained(better, h)) == multiset(h)
    decreases |h|
  {
    hide Popped;
    if h != [] {
      PoppedContents(better, h);
      DrainContents(better, Popped(better, h));
    }
  }

  // Taking everything out yields all the nodes, best first.
  lemma {:induction false} DrainSorts<T>(better: Order, h: seq<Node<T>>)
    requires IsStrictOrder(better) && IsHeap(better, h)
    ensures multiset(Drained(better, h)) == multiset(h)
    ensures Sorted(better, Drained(better, h))
    decreases |h|
  {
    hide IsStrictOrder, IsHeap, Popped;
    DrainContents(better, h);
    if h != [] {
      PoppedIsHeap(better, h);
      DrainSorts(better, Popped(better, h));
      var all, d := Drained(better, h), Drained(better, Popped(better, h));
      forall i, j | 0 <= i < j < |all| ensures !better(all[j].priority, all[i].priority) {
        if i == 0 {
          assert all[j] in multiset(all);
          MemberNotBetter(better, h, all[j]);
        } else {
          assert all[i] == d[i - 1] && all[j] == d[j - 1];
        }
      }
    }
  }

  lemma {:induction false} MemberNotBetter<T>(better: Order, h: seq<Node<T>>, n: Node<T>)
    requires IsStrictOrder(better) && IsHeap(better, h) && n in multiset(h)
    ensures !better(n.priority, h[0].priority)
  {
    var k: nat :| k < |h| && h[k] == n;
    TopIsBest(better, h, k);
  }

  // ---------- The queue ----------

  class PriorityQueue<T> {
    var heap: seq<Node<T>>
    const better: Order

    ghost predicate Valid()
      reads this
    {
      IsStrictOrder(better) && IsHeap(better, heap)
    }

    constructor (better: Order)
      requires IsStrictOrder(better)
      ensures Valid() && heap == [] && this.better == better
    {
      heap := [];
      this.better := better;
    }

    method HeapifyUp(i: nat)
      requires i < |heap|
      modifies this`heap
      ensures heap == SiftUp(better, old(heap), i)
    {
      var idx: nat := i;
      while idx > 0 && better(heap[idx].priority, heap[Parent(idx)].priority)
        invariant idx < |heap|
        invariant SiftUp(better, heap, idx) == SiftUp(better, old(heap), i)
      {
        var parent := Parent(idx);
        heap := heap[idx := heap[parent]][parent := heap[idx]];
        idx := parent;
      }
    }

    method HeapifyDown(i: nat)
      modifies this`heap
      ensures heap == SiftDown(better, old(heap), i)
    {
      var idx: nat := i;
      while true
        invariant SiftDown(better, heap, idx) == SiftDown(better, old(heap), i)
        decreases |heap| - idx
      {
        var left, right, largest := 2 * idx + 1, 2 * idx + 2, idx;
        if left < |heap| && better(heap[left].priority, heap[largest].priority) { largest := left; }
        if right < |heap| && better(heap[right].priority, heap[largest].priority) { largest := right; }
        assert idx < |heap| ==> largest == Largest(better, heap, idx);
        if largest == idx { break; }
        heap := heap[idx := heap[largest]][largest := heap[idx]];
        idx := largest;
      }
    }

    // The queue holds what it held, and the new node.
    method Push(value: T, priority: Byte)
      requires Valid()
      modifies this`heap
      ensures Valid() && heap == Pushed(better, old(heap), Node(value, priority))
      ensures multiset(heap) == multiset(old(heap)) + multiset{Node(value, priority)}
    {
      hide IsStrictOrder, IsHeap, SiftUp;
      PushedIsHeap(better, heap, Node(value, priority));
      heap := heap + [Node(value, priority)];
      HeapifyUp(|heap| - 1);
    }

    // None, where the program throws, exactly when the queue is empty. Otherwise
    // one node goes, and no node in the queue was better.
    method Pop() returns (r: Option<T>)
      requires Valid()
      modifies this`heap
      ensures Valid()
      ensures old(heap) == [] ==> r == None && heap == []
      ensures old(heap) != [] ==> heap == Popped(better, old(heap)) && r == Some(old(heap)[0].data)
      ensures old(heap) != [] ==> multiset(heap) == multiset(old(heap)) - multiset{old(heap)[0]}
      ensures forall n :: n in old(heap) ==> !better(n.priority, old(heap)[0].priority)
    {
      hide IsStrictOrder, IsHeap, SiftDown;
      if heap == [] { return None; }
      PoppedIsHeap(better, heap);
      PoppedContents(better, heap);
      forall n | n in heap ensures !better(n.priority, heap[0].priority) { MemberNotBetter(better, heap, n); }
      r := Some(heap[0].data);
      heap := heap[0 := heap[|heap| - 1]][|heap| - 1 := heap[0]];
      heap := heap[..|heap| - 1];
      HeapifyDown(0);
    }

    method TryPop() returns (ok: bool, r: Option<T>)
      requires Valid()
      modifies this`heap
      ensures Valid() && ok == (old(heap) != [])
      ensures ok ==> heap == Popped(better, old(heap)) && r == Some(old(heap)[0].data)
      ensures ok ==> multiset(heap) == multiset(old(heap)) - multiset{old(heap)[0]}
      ensures ok ==> forall n :: n in old(heap) ==> !better(n.priority, old(heap)[0].priority)
      ensures !ok ==> heap == [] && r == None
    {
      if |heap| == 0 { return false, None; }
      r := Pop();
      ok := true;
    }
  }
}
