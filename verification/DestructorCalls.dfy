// What the emitted destructor calls are called on.
module DestructorCalls {
  import opened Program
  import opened Integers
  import opened Refinement
  import opened Asm
  import opened Codegen
  import opened Named
  import opened Bytes
  import opened EndToEnd

  // The call is given the first eight bytes of the variable's slot, where
  // constructors are given its address. The two agree exactly when those bytes
  // happen to be that address.
  lemma {:induction false} DestructorArgument(t: Target, s: Store, c: Cpu, v: Variable)
    requires TargetOk(t) && Stands(t, s, c) && 0 <= t.Addr(v) < Pow256(8)
    ensures var c' := OnCpu(t).destroy(v, c);
            && c'.mem == c.mem
            && c'.destroyed == c.destroyed + [(v.ty, Decode(Read(c.mem, t.Addr(v), 8)))]
            && (c'.destroyed == c.destroyed + [(v.ty, t.Addr(v))] <==>
                Read(c.mem, t.Addr(v), 8) == Encode(t.Addr(v), 8))
  {
    hide TargetOk, Represents, RunAsm, EmitDestroy, Decode, Encode, Read, Pow256;
    var bs := Read(c.mem, t.Addr(v), 8);
    BottomAligned(t);
    var c' := DestroyRuns(t, c, v);
    EncodeDecode(bs);
    DecodeEncode(t.Addr(v), 8);
    assert c'.destroyed[|c.destroyed|] == (v.ty, Decode(bs));
  }

  // Bytes for a value of the given size whose first is not the address's.
  function Elsewhere(a: int, size: Size): (bs: seq<Byte>)
    ensures |bs| == size
  {
    [if a % 256 == 0 then 1 else 0] + seq(size - 1, _ => 0)
  }

  // Every object can hold a value on which the call goes wrong, in every state in
  // which it is in scope.
  lemma {:induction false} DestructorMisses(t: Target, p: Path, s: Store, c: Cpu, v: Variable)
    returns (s': Store, c': Cpu)
    requires TargetOk(t) && InScope(t.main, p, s) && Stands(t, s, c) && v in s.vars
    ensures Put(s, v, Elsewhere(t.Addr(v), v.ty.size)) == Some(s')
    ensures InScope(t.main, p, s') && Stands(t, s', c')
    ensures OnCpu(t).destroy(v, c').destroyed != c'.destroyed + [(v.ty, t.Addr(v))]
  {
    hide TargetOk, InScope, Represents, RunAsm, EmitDestroy, Decode, Read, Write, Elsewhere;
    var bs := Elsewhere(t.Addr(v), v.ty.size);
    s' := Put(s, v, bs).value;
    PutRefines(t, p, s, c.mem, v, bs);
    c' := c.(mem := Write(c.mem, t.Addr(v), bs));
    BottomAligned(t);
    var d := DestroyRuns(t, c', v);
    ElsewhereIs(c.mem, t.Addr(v), v.ty.size);
    assert d.destroyed[|c'.destroyed|] == (v.ty, Decode(Read(c'.mem, t.Addr(v), 8)));
  }

  // The first byte alone tells the number read from the address.
  lemma {:induction false} ElsewhereIs(m: Mem, a: int, size: Size)
    ensures Decode(Read(Write(m, a, Elsewhere(a, size)), a, 8)) != a
  {
    hide Decode;
    var bs := Read(Write(m, a, Elsewhere(a, size)), a, 8);
    assert bs[0] == Elsewhere(a, size)[0];
    LowestByte(bs);
  }

  lemma {:induction false} LowestByte(bs: seq<Byte>)
    requires bs != []
    ensures Decode(bs) % 256 == bs[0]
  {
  }

  // One such state, of a function whose only instruction declares an object.
  method ShowDestructorMiss(env: Env, size: Size)
    returns (t: Target, v: Variable, s: Store, ghost c: Cpu)
    ensures TargetOk(t) && v in s.vars && !v.ty.primitive && Stands(t, s, c)
    ensures OnCpu(t).destroy(v, c).destroyed != c.destroyed + [(v.ty, t.Addr(v))]
  {
    hide TargetOk, InScope, RunAsm, Represents, Decode, Encode, Read, Write, Prologue, OnCpu;
    var ty := Type(size, false, false);
    var main := Scope([Declare(ty)]);
    v := Variable([0], ty);
    var report, frameSize := PrepareReport(main, 0, []);
    t := Target(main, report, frameSize, 1024, 1024, 0, [], env, (a: int) => 0);
    assert Pow256(8) > 1024;
    assert Targets(t, main, 0, [], report, frameSize);
    s := Store(map[v := Some(Elsewhere(t.Addr(v), size))], [], None, 0);
    ghost var start := Cpu((r: Reg) => 1024, Flags(false, false, false, false), t.outside, []);
    ghost var entered := PrologueEnters(t, start, []);
    ghost var before := Store(map[], [], None, 0);
    assert Declares(main, [], 0) && DeclaredAt(main, [], 0) == v;
    assert InScope(t.main, [] + [0], before) by {
      NothingInScope(main, before);
      EnterKeeps(main, [], before);
    }
    DeclareKeeps(t, [], 0, before, entered.mem);
    ghost var s';
    s', c := DestructorMisses(t, [] + [1], before.(vars := map[v := None]), entered, v);
    assert s'.vars == s.vars;
  }
}
