// The argument block: one contiguous area that holds the return value at its
// floor and the arguments at its ceiling, first argument highest.
//
// Its layout is computed independently by the C++ caller, the native trampoline
// (in either argument evaluation order), the declaration's offset table and
// the compiled callee. All addresses here are relative to the block's floor.
module ArgBlock {
  import opened Program

  function Align16(n: nat): nat { ((n + 15) / 16) * 16 }

  // Sum of the first n sizes.
  function Prefix(sizes: seq<nat>, n: nat): nat
    requires n <= |sizes|
  {
    if n == 0 then 0 else Prefix(sizes, n - 1) + sizes[n - 1]
  }

  function Total(sizes: seq<nat>): nat { Prefix(sizes, |sizes|) }

  function BlockSize(ret: nat, sizes: seq<nat>): nat { Align16(ret + Total(sizes)) }

  // Where argument i lies.
  function Slot(ret: nat, sizes: seq<nat>, i: nat): int
    requires i < |sizes|
  {
    BlockSize(ret, sizes) - Prefix(sizes, i + 1)
  }

  lemma {:induction false} AlignBounds(n: nat)
    ensures n <= Align16(n) < n + 16 && Align16(n) % 16 == 0
  {
  }

  lemma {:induction false} PrefixMonotone(sizes: seq<nat>, m: nat, n: nat)
    requires m <= n <= |sizes|
    ensures Prefix(sizes, m) <= Prefix(sizes, n)
    decreases n - m
  {
    if m < n { PrefixMonotone(sizes, m, n - 1); }
  }

  // Slots are pairwise disjoint, lie inside the block, and are clear of the
  // return slot at the floor.
  lemma {:induction false} SlotsDisjoint(ret: nat, sizes: seq<nat>, i: nat, j: nat)
    requires i < j < |sizes|
    ensures ret <= Slot(ret, sizes, j)
    ensures Slot(ret, sizes, j) + sizes[j] <= Slot(ret, sizes, i)
    ensures Slot(ret, sizes, i) + sizes[i] <= BlockSize(ret, sizes)
  {
    PrefixMonotone(sizes, i + 1, j);
    PrefixMonotone(sizes, j + 1, |sizes|);
    AlignBounds(ret + Total(sizes));
  }

  lemma {:induction false} SlotInBlock(ret: nat, sizes: seq<nat>, i: nat)
    requires i < |sizes|
    ensures ret <= BlockSize(ret, sizes) - Total(sizes) <= Slot(ret, sizes, i)
    ensures Slot(ret, sizes, i) + sizes[i] <= BlockSize(ret, sizes)
  {
    PrefixMonotone(sizes, i + 1, |sizes|);
    AlignBounds(ret + Total(sizes));
  }

  // The declaration's table: argument i is preceded, going up from the last
  // one, by all the arguments after it.
  method CreateIndexes(sizes: seq<nat>) returns (offsets: seq<nat>)
    ensures |offsets| == |sizes|
    ensures forall i :: 0 <= i < |sizes| ==> offsets[i] == Total(sizes) - Prefix(sizes, i + 1)
  {
    offsets := seq(|sizes|, _ => 0);
    var currentOffset := 0;
    var i := |sizes| - 1;
    while i >= 0
      invariant -1 <= i < |sizes| && |offsets| == |sizes|
      invariant currentOffset == Total(sizes) - Prefix(sizes, i + 1)
      invariant forall k :: i < k < |sizes| ==> offsets[k] == Total(sizes) - Prefix(sizes, k + 1)
    {
      offsets := offsets[i := currentOffset];
      currentOffset := currentOffset + sizes[i];
      i := i - 1;
    }
  }

  // The compiled callee's table.
  method CreateArgsMap(ret: nat, sizes: seq<nat>) returns (argsMap: map<nat, nat>)
    ensures forall i :: i in argsMap <==> 0 <= i < |sizes|
    ensures forall i :: 0 <= i < |sizes| ==> argsMap[i] == Slot(ret, sizes, i)
  {
    argsMap := map[];
    var argsCombinedSize := ret;
    var k := 0;
    while k < |sizes|
      invariant 0 <= k <= |sizes| && argsCombinedSize == ret + Prefix(sizes, k)
    {
      argsCombinedSize := argsCombinedSize + sizes[k];
      k := k + 1;
    }
    AlignBounds(argsCombinedSize);
    argsCombinedSize := Align16(argsCombinedSize);
    var i := 0;
    while i < |sizes|
      invariant 0 <= i <= |sizes| && argsCombinedSize == BlockSize(ret, sizes) - Prefix(sizes, i)
      invariant forall j :: j in argsMap <==> 0 <= j < i
      invariant forall j :: 0 <= j < i ==> argsMap[j] == Slot(ret, sizes, j)
    {
      SlotInBlock(ret, sizes, i);
      argsCombinedSize := argsCombinedSize - sizes[i];
      argsMap := argsMap[i := argsCombinedSize];
      i := i + 1;
    }
  }

  // The two tables agree up to the padding above the return slot.
  lemma {:induction false} TablesAgree(ret: nat, sizes: seq<nat>) returns (pad: nat)
    ensures pad < 16
    ensures forall i :: 0 <= i < |sizes| ==> Slot(ret, sizes, i) == ret + (Total(sizes) - Prefix(sizes, i + 1)) + pad
  {
    AlignBounds(ret + Total(sizes));
    pad := BlockSize(ret, sizes) - (ret + Total(sizes));
  }

  function SizesOf(args: seq<seq<Byte>>): seq<nat> {
    seq(|args|, i requires 0 <= i < |args| => |args[i]|)
  }

  // `move_argument`: one argument, moved below what is already there.
  method MoveArgument(block: array<Byte>, p: nat, arg: seq<Byte>) returns (newAddr: nat)
    requires |arg| <= p <= block.Length
    modifies block
    ensures newAddr == p - |arg|
    ensures block[..] == old(block[..])[..newAddr] + arg + old(block[..])[p..]
  {
    newAddr := p - |arg|;
    forall k | newAddr <= k < p {
      block[k] := arg[k - newAddr];
    }
  }

  // The C++ caller: the arguments, left to right, from the ceiling down. What
  // is below them, the return slot and the padding, is not touched.
  method PushArguments(block: array<Byte>, ret: nat, args: seq<seq<Byte>>)
    requires block.Length == BlockSize(ret, SizesOf(args))
    modifies block
    ensures Holds(block[..], ret, args)
    ensures block[..block.Length - Total(SizesOf(args))] == old(block[..block.Length - Total(SizesOf(args))])
  {
    var sizes := SizesOf(args);
    var p := block.Length;
    AlignBounds(ret + Total(sizes));
    var i := 0;
    while i < |args|
      invariant 0 <= i <= |args| && p == block.Length - Prefix(sizes, i) && Total(sizes) <= block.Length
      invariant forall j :: 0 <= j < i ==> SlotHolds(block[..], ret, args, j)
      invariant forall k :: 0 <= k < p ==> block[k] == old(block[k])
    {
      SlotInBlock(ret, sizes, i);
      ghost var before := block[..];
      p := MoveArgument(block, p, args[i]);
      PushedStep(before, block[..], ret, args, i);
      i := i + 1;
    }
    forall j | 0 <= j < |args| ensures SlotHolds(block[..], ret, args, j) {}
    assert forall k :: 0 <= k < block.Length - Total(sizes) ==> block[k] == old(block[k]);
  }

  ghost predicate SlotHolds(block: seq<Byte>, ret: nat, args: seq<seq<Byte>>, j: nat)
    requires j < |args|
  {
    var at := Slot(ret, SizesOf(args), j);
    0 <= at && at + |args[j]| <= |block| && block[at..at + |args[j]|] == args[j]
  }

  // Every argument lies in its slot.
  ghost predicate Holds(block: seq<Byte>, ret: nat, args: seq<seq<Byte>>) {
    forall j :: 0 <= j < |args| ==> SlotHolds(block, ret, args, j)
  }

  // The native trampoline where arguments are evaluated left to right: down
  // from the ceiling, the cursor reset to the floor after the last one.
  method PassLeftToRight(block: array<Byte>, ret: nat, sizes: seq<nat>) returns (args: seq<seq<Byte>>, cursor: nat)
    requires block.Length == BlockSize(ret, sizes)
    ensures SizesOf(args) == sizes && Holds(block[..], ret, args)
    ensures sizes != [] ==> cursor == 0
  {
    args := [];
    cursor := block.Length;
    AlignBounds(ret + Total(sizes));
    var argc := 0;
    var i := 0;
    while i < |sizes|
      invariant 0 <= i <= |sizes| && |args| == i
      invariant i < |sizes| ==> argc == i && cursor == block.Length - Prefix(sizes, i)
      invariant i == |sizes| && 0 < i ==> cursor == 0
      invariant forall j :: 0 <= j < i ==> |args[j]| == sizes[j] && InSlot(block[..], ret, sizes, j, args[j])
    {
      SlotInBlock(ret, sizes, i);
      var newOffset := cursor - sizes[i];
      cursor := newOffset;
      if argc == |sizes| - 1 {
        cursor := 0;
      } else {
        argc := argc + 1;
      }
      args := args + [block[newOffset..newOffset + sizes[i]]];
      assert block[..][newOffset..newOffset + sizes[i]] == block[newOffset..newOffset + sizes[i]];
      i := i + 1;
    }
    InSlots(block[..], ret, sizes, args);
  }

  // The native trampoline where arguments are evaluated right to left: up from
  // just above the padding.
  method PassRightToLeft(block: array<Byte>, ret: nat, sizes: seq<nat>) returns (args: seq<seq<Byte>>, cursor: nat)
    requires block.Length == BlockSize(ret, sizes)
    ensures SizesOf(args) == sizes && Holds(block[..], ret, args)
    ensures sizes != [] ==> cursor == 0
  {
    args := seq(|sizes|, _ => []);
    AlignBounds(ret + Total(sizes));
    cursor := block.Length - Total(sizes);
    ghost var whole := block[..];
    var argc := 0;
    var i := |sizes|;
    while i > 0
      invariant 0 <= i <= |sizes| && |args| == |sizes|
      invariant 0 < i ==> argc == |sizes| - i && cursor == block.Length - Prefix(sizes, i)
      invariant i == 0 && sizes != [] ==> cursor == 0
      invariant forall j :: i <= j < |sizes| ==> |args[j]| == sizes[j] && InSlot(whole, ret, sizes, j, args[j])
    {
      hide InSlot;
      i := i - 1;
      SlotInBlock(ret, sizes, i);
      var arg := block[cursor..cursor + sizes[i]];
      ReadSlot(block, ret, sizes, i, cursor);
      args := args[i := arg];
      if argc == |sizes| - 1 {
        cursor := 0;
      } else {
        cursor := cursor + sizes[i];
        argc := argc + 1;
      }
    }
    InSlots(block[..], ret, sizes, args);
  }

  lemma {:induction false} ReadSlot(block: array<Byte>, ret: nat, sizes: seq<nat>, i: nat, at: nat)
    requires i < |sizes| && at == Slot(ret, sizes, i) && at + sizes[i] <= block.Length
    ensures InSlot(block[..], ret, sizes, i, block[at..at + sizes[i]])
  {
    assert block[..][at..at + sizes[i]] == block[at..at + sizes[i]];
  }

  ghost predicate InSlot(block: seq<Byte>, ret: nat, sizes: seq<nat>, j: nat, arg: seq<Byte>)
    requires j < |sizes|
  {
    var at := Slot(ret, sizes, j);
    0 <= at && at + sizes[j] <= |block| && block[at..at + sizes[j]] == arg
  }

  lemma {:induction false} InSlots(block: seq<Byte>, ret: nat, sizes: seq<nat>, args: seq<seq<Byte>>)
    requires |args| == |sizes|
    requires forall j :: 0 <= j < |sizes| ==> |args[j]| == sizes[j] && InSlot(block, ret, sizes, j, args[j])
    ensures SizesOf(args) == sizes && Holds(block, ret, args)
  {
    assert SizesOf(args) == sizes;
    forall j | 0 <= j < |args| ensures SlotHolds(block, ret, args, j) {
      assert InSlot(block, ret, sizes, j, args[j]);
    }
  }

  // A block determines the arguments it holds, so whichever side wrote them and
  // in whichever order the other side reads them, the same values arrive.
  lemma {:induction false} HoldsUnique(block: seq<Byte>, ret: nat, a: seq<seq<Byte>>, b: seq<seq<Byte>>)
    requires SizesOf(a) == SizesOf(b) && Holds(block, ret, a) && Holds(block, ret, b)
    ensures a == b
  {
    assert |a| == |SizesOf(a)| == |b|;
    forall j | 0 <= j < |a| ensures a[j] == b[j] {
      assert SizesOf(a)[j] == |a[j]| && SizesOf(b)[j] == |b[j]|;
      assert SlotHolds(block, ret, a, j) && SlotHolds(block, ret, b, j);
    }
  }

  // A native call: the arguments go in, the result is written to the floor, and
  // nothing else changes. A function without arguments is called, but its result
  // is dropped; only the left-to-right build has one, since the other sums no
  // sizes and does not compile.
  method CallNative(block: array<Byte>, ret: nat, args: seq<seq<Byte>>, leftToRight: bool,
                    f: seq<seq<Byte>> -> seq<Byte>)
    returns (passed: seq<seq<Byte>>)
    requires block.Length == BlockSize(ret, SizesOf(args)) && |f(args)| == ret
    modifies block
    ensures passed == args
    ensures args != [] ==> block[..ret] == f(args) && Holds(block[..], ret, args)
    ensures args == [] ==> block[..] == old(block[..])
  {
    PushArguments(block, ret, args);
    var sizes := SizesOf(args);
    var cursor;
    if |sizes| == 0 { return []; }
    if leftToRight {
      passed, cursor := PassLeftToRight(block, ret, sizes);
    } else {
      passed, cursor := PassRightToLeft(block, ret, sizes);
    }
    HoldsUnique(block[..], ret, passed, args);
    var re := f(passed);
    AlignBounds(ret + Total(sizes));
    ghost var before := block[..];
    forall k | 0 <= k < ret {
      block[k] := re[k];
    }
    assert block[..][ret..] == before[ret..];
    HoldsAbove(before, block[..], ret, args);
  }

  // What is written below the padding leaves the arguments alone.
  lemma {:induction false} HoldsAbove(before: seq<Byte>, after: seq<Byte>, ret: nat, args: seq<seq<Byte>>)
    requires |before| == |after| == BlockSize(ret, SizesOf(args)) && ret <= |before|
    requires after[ret..] == before[ret..] && Holds(before, ret, args)
    ensures Holds(after, ret, args)
  {
    forall j | 0 <= j < |args|
      ensures SlotHolds(after, ret, args, j)
    {
      SlotInBlock(ret, SizesOf(args), j);
      SlotKept(before, after, ret, ret, args, j);
    }
  }

  // One more argument, moved right below the others.
  lemma {:induction false} PushedStep(before: seq<Byte>, now: seq<Byte>, ret: nat, args: seq<seq<Byte>>, i: nat)
    requires i < |args| && |before| == BlockSize(ret, SizesOf(args))
    requires forall j :: 0 <= j < i ==> SlotHolds(before, ret, args, j)
    requires var at := Slot(ret, SizesOf(args), i);
             0 <= at && at + |args[i]| <= |before| && now == before[..at] + args[i] + before[at + |args[i]|..]
    ensures forall j :: 0 <= j <= i ==> SlotHolds(now, ret, args, j)
  {
    hide BlockSize, Slot;
    var at := Slot(ret, SizesOf(args), i);
    assert now[at + |args[i]|..] == before[at + |args[i]|..];
    forall j | 0 <= j < i
      ensures SlotHolds(now, ret, args, j)
    {
      SlotsDisjoint(ret, SizesOf(args), j, i);
      SlotKept(before, now, at + |args[i]|, ret, args, j);
    }
    assert now[at..at + |args[i]|] == args[i];
  }

  lemma {:induction false} SlotKept(before: seq<Byte>, after: seq<Byte>, p: nat, ret: nat, args: seq<seq<Byte>>, j: nat)
    requires |before| == |after| && p <= |before| && after[p..] == before[p..]
    requires j < |args| && SlotHolds(before, ret, args, j) && p <= Slot(ret, SizesOf(args), j)
    ensures SlotHolds(after, ret, args, j)
  {
    var at := Slot(ret, SizesOf(args), j);
    SliceOfDrop(before, p, at, at + |args[j]|);
    SliceOfDrop(after, p, at, at + |args[j]|);
  }

  lemma {:induction false} SliceOfDrop<T>(s: seq<T>, p: nat, lo: nat, hi: nat)
    requires p <= lo <= hi <= |s|
    ensures s[lo..hi] == s[p..][lo - p..hi - p]
  {
  }
}
