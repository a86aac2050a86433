/** Building a new program's stack: strings, then pointer vectors, then the argument registers. */
module ProgramArgs {
  import opened Sectors
  import opened StackImages

  /** The addresses of strings that stand in memory at or above sp. */
  ghost predicate Placed(mem: seq<byte>, sp: nat, addrs: seq<nat>, strs: seq<Text>) {
    |addrs| == |strs| && forall i :: 0 <= i < |strs| ==> sp <= addrs[i] && StringAt(mem, addrs[i], strs[i])
  }

  /** The words of a vector stand in memory from p on. */
  ghost predicate Longs(mem: seq<byte>, p: nat, vals: seq<nat>) {
    p + 8 * |vals| <= |mem| && forall i :: 0 <= i < |vals| ==> Long(mem, p + 8 * i) == vals[i]
  }

  lemma PlacedKept(m: seq<byte>, n: seq<byte>, from: nat, sp: nat, addrs: seq<nat>, strs: seq<Text>)
    requires Placed(m, from, addrs, strs) && Same(m, n, from) && sp <= from
    ensures Placed(n, sp, addrs, strs)
  {
    forall i | 0 <= i < |strs| ensures StringAt(n, addrs[i], strs[i]) {
      StringKept(m, n, from, addrs[i], strs[i]);
    }
  }

  lemma LongsKept(m: seq<byte>, n: seq<byte>, from: nat, p: nat, vals: seq<nat>)
    requires Longs(m, p, vals) && Same(m, n, from) && from <= p
    ensures Longs(n, p, vals)
  {
    hide Long;
    forall i | 0 <= i < |vals| ensures Long(n, p + 8 * i) == vals[i] {
      LongKept(m, n, from, p + 8 * i);
    }
  }

  /** One more word below a vector. */
  lemma LongsGrow(m: seq<byte>, n: seq<byte>, p: nat, vals: seq<nat>, v: nat)
    requires Longs(m, p + 8, vals) && Same(m, n, p + 8) && p + 8 <= |n| && Long(n, p) == v
    ensures Longs(n, p, [v] + vals)
  {
    hide Long;
    LongsKept(m, n, p + 8, p + 8, vals);
    forall i | 0 <= i < |vals| + 1 ensures Long(n, p + 8 * i) == ([v] + vals)[i] {
      if i > 0 {
        assert p + 8 * i == p + 8 + 8 * (i - 1);
      }
    }
  }

  lemma SameChain(l: seq<byte>, m: seq<byte>, n: seq<byte>, a: nat, b: nat)
    requires Same(l, m, a) && Same(m, n, b) && b <= a
    ensures Same(l, n, a)
  {
  }

  lemma VectorMade(mem: seq<byte>, p: nat, addrs: seq<nat>, strs: seq<Text>, more: seq<nat>, sp: nat)
    requires Longs(mem, p, addrs + more) && Placed(mem, sp, addrs, strs) && sp > 0
    ensures Vector(mem, p, strs)
  {
    hide Long;
    forall i | 0 <= i < |strs| ensures PointsTo(mem, p, i, strs[i]) {
      assert (addrs + more)[i] == addrs[i];
    }
  }

  lemma NoFootprints()
    ensures Footprints([]) == 0
  {
  }

  lemma FootprintsStep(strs: seq<Text>, i: nat)
    requires i < |strs|
    ensures Footprints(strs[i..]) == Footprint(strs[i]) + Footprints(strs[i + 1..])
    ensures Footprints(strs[i..]) <= Footprints(strs)
  {
    assert strs[i..][1..] == strs[i + 1..];
    FootprintsTail(strs, i);
  }

  lemma {:induction false} FootprintsTail(strs: seq<Text>, i: nat)
    requires i <= |strs|
    ensures Footprints(strs[i..]) <= Footprints(strs)
  {
    if i == 0 {
      assert strs[0..] == strs;
    } else {
      FootprintsTail(strs[1..], i - 1);
      assert strs[1..][i - 1..] == strs[i..];
    }
  }

  /** The registers and the stack of a process; memory is indexed by address. */
  class Context {
    const mem: array<byte>
    var stackPointer: nat
    var x0: nat
    var x1: nat
    var x2: nat

    constructor (mem: array<byte>, sp: nat)
      ensures this.mem == mem && stackPointer == sp && x0 == 0 && x1 == 1 && x2 == 2
    {
      this.mem, stackPointer, x0, x1, x2 := mem, sp, 0, 1, 2;
    }

    method PushLong(v: nat)
      requires 8 <= stackPointer <= mem.Length && v < 0x1_0000_0000_0000_0000
      modifies this`stackPointer, mem
      ensures stackPointer == old(stackPointer) - 8 && Long(mem[..], stackPointer) == v
      ensures Same(old(mem[..]), mem[..], old(stackPointer))
    {
      hide Long, LongByte;
      var sp := stackPointer - 8;
      forall k | sp <= k < sp + 8 {
        mem[k] := LongByte(v, k - sp);
      }
      stackPointer := sp;
      LongReads(mem[..], sp, v);
    }

    method PushString(str: Text)
      requires Footprint(str) <= stackPointer <= mem.Length
      modifies this`stackPointer, mem
      ensures stackPointer == old(stackPointer) - Footprint(str) && StringAt(mem[..], stackPointer, str)
      ensures Same(old(mem[..]), mem[..], old(stackPointer))
    {
      FootprintHolds(str);
      var len := |str| + 1;
      len := len + 15;
      len := len - len % 16;
      stackPointer := stackPointer - len;
      var i := 0;
      while i < |str|
        modifies mem
        invariant 0 <= i <= |str|
        invariant forall k :: stackPointer <= k < stackPointer + i ==> mem[k] == str[k - stackPointer]
        invariant forall k :: stackPointer + len <= k < mem.Length ==> mem[k] == old(mem[k])
      {
        mem[stackPointer + i] := str[i];
        i := i + 1;
      }
      mem[stackPointer + i] := 0;
    }

    /** Pushes the strings from the last to the first and records where each one stands. */
    method PushStrings(strs: seq<Text>) returns (addrs: seq<nat>)
      requires Footprints(strs) < stackPointer <= mem.Length && stackPointer % 16 == 0
      modifies this`stackPointer, mem
      ensures stackPointer == old(stackPointer) - Footprints(strs) && stackPointer % 16 == 0
      ensures Placed(mem[..], stackPointer, addrs, strs)
      ensures Same(old(mem[..]), mem[..], old(stackPointer))
      ensures forall i :: 0 <= i < |addrs| ==> addrs[i] < old(stackPointer)
    {
      hide StringAt, Footprint, Footprints, Same, Placed;
      addrs := [];
      ghost var start, m0 := stackPointer, mem[..];
      var i := |strs|;
      SameRefl(m0, start);
      NonePlaced(m0, start);
      assert strs[i..] == [];
      NoFootprints();
      while i > 0
        invariant 0 <= i <= |strs| && stackPointer == start - Footprints(strs[i..]) && stackPointer % 16 == 0
        invariant Placed(mem[..], stackPointer, addrs, strs[i..]) && Same(m0, mem[..], start)
        invariant forall k :: 0 <= k < |addrs| ==> addrs[k] < start
      {
        i := i - 1;
        ghost var m1, sp1 := mem[..], stackPointer;
        FootprintsStep(strs, i);
        FootprintHolds(strs[i]);
        PushString(strs[i]);
        PlacedOne(m1, mem[..], sp1, stackPointer, addrs, strs, i);
        SameChain(m0, m1, mem[..], start, sp1);
        addrs := [stackPointer] + addrs;
      }
      assert strs[0..] == strs;
    }

    /** Pushes the words from the last to the first. */
    method PushLongs(vals: seq<nat>)
      requires 8 * |vals| <= stackPointer <= mem.Length
      requires forall i :: 0 <= i < |vals| ==> vals[i] < 0x1_0000_0000_0000_0000
      modifies this`stackPointer, mem
      ensures stackPointer == old(stackPointer) - 8 * |vals| && Longs(mem[..], stackPointer, vals)
      ensures Same(old(mem[..]), mem[..], old(stackPointer))
    {
      hide Long, Same;
      ghost var start, m0 := stackPointer, mem[..];
      var i := |vals|;
      SameRefl(m0, start);
      while i > 0
        invariant 0 <= i <= |vals| && stackPointer == start - 8 * (|vals| - i)
        invariant Longs(mem[..], stackPointer, vals[i..]) && Same(m0, mem[..], start)
      {
        i := i - 1;
        ghost var m1, sp1 := mem[..], stackPointer;
        PushLong(vals[i]);
        LongsGrow(m1, mem[..], stackPointer, vals[i + 1..], vals[i]);
        assert [vals[i]] + vals[i + 1..] == vals[i..];
        SameChain(m0, m1, mem[..], start, sp1);
      }
      assert vals[0..] == vals;
    }

    /** Pads to keep the pointer sixteen-aligned, then pushes a vector. */
    method PushVector(vals: seq<nat>)
      requires 8 * (|vals| + |vals| % 2) <= stackPointer <= mem.Length && stackPointer % 16 == 0
      requires forall i :: 0 <= i < |vals| ==> vals[i] < 0x1_0000_0000_0000_0000
      modifies this`stackPointer, mem
      ensures stackPointer == old(stackPointer) - 8 * (|vals| + |vals| % 2) && stackPointer % 16 == 0
      ensures Longs(mem[..], stackPointer, vals) && Same(old(mem[..]), mem[..], old(stackPointer))
    {
      hide Long, Same, Longs;
      ghost var start, m0 := stackPointer, mem[..];
      SameRefl(m0, start);
      if |vals| % 2 == 1 {
        PushLong(0);
      }
      ghost var m1, sp1 := mem[..], stackPointer;
      PushLongs(vals);
      SameChain(m0, m1, mem[..], start, sp1);
    }

    /** Pushes the argument strings and then the environment strings. */
    method PushTexts(argv: seq<Text>, envp: seq<Text>) returns (argArray: seq<nat>, envArray: seq<nat>)
      requires Footprints(argv) + Footprints(envp) < stackPointer <= mem.Length && stackPointer % 16 == 0
      modifies this`stackPointer, mem
      ensures stackPointer == old(stackPointer) - Footprints(argv) - Footprints(envp) && stackPointer % 16 == 0
      ensures Placed(mem[..], stackPointer, argArray, argv) && Placed(mem[..], stackPointer, envArray, envp)
      ensures Same(old(mem[..]), mem[..], old(stackPointer)) && |argArray| == |argv| && |envArray| == |envp|
      ensures forall i :: 0 <= i < |argArray| ==> argArray[i] < old(stackPointer)
      ensures forall i :: 0 <= i < |envArray| ==> envArray[i] < old(stackPointer)
    {
      hide Same, Placed, Footprints;
      ghost var start, m0 := stackPointer, mem[..];
      argArray := PushStrings(argv);
      ghost var m1, s1 := mem[..], stackPointer;
      envArray := PushStrings(envp);
      PlacedKept(m1, mem[..], s1, stackPointer, argArray, argv);
      SameChain(m0, m1, mem[..], start, s1);
      PlacedSize(mem[..], stackPointer, argArray, argv);
      PlacedSize(mem[..], stackPointer, envArray, envp);
    }

    /** Lays out the arguments and the environment for a new program: reading through x0, x1 and x2 gives them back,
    the stack pointer stays sixteen-aligned, and nothing above the old stack pointer changes. */
    method StoreProgramArgs(argv: seq<Text>, envp: seq<Text>)
      requires stackPointer % 16 == 0 && Needed(argv, envp) < stackPointer <= mem.Length <= 0x1_0000_0000_0000_0000
      modifies this, mem
      ensures stackPointer % 16 == 0 && stackPointer == x2 == old(stackPointer) - Needed(argv, envp)
      ensures Same(old(mem[..]), mem[..], old(stackPointer))
      ensures x0 == |argv| && Vector(mem[..], x1, argv)
      ensures Vector(mem[..], x2, envp) && x2 + 8 * |envp| + 8 <= mem.Length && Long(mem[..], x2 + 8 * |envp|) == 0
      ensures AllNulFree(argv) ==> x1 + 8 * x0 <= mem.Length && ReadVector(mem[..], x1, x0) == argv
      ensures AllNulFree(envp) ==> ReadUntilNull(mem[..], x2) == envp
    {
      hide Long, Same, Longs, Placed, Vector, Footprints, ReadVector, ReadUntilNull, AllNulFree;
      ghost var start, m0 := stackPointer, mem[..];
      var argArray, envArray := PushTexts(argv, envp);
      ghost var m2, s2 := mem[..], stackPointer;
      PushVector(argArray);
      var argPtr := stackPointer;
      ghost var m3 := mem[..];
      SameChain(m0, m2, m3, start, s2);
      PlacedKept(m2, m3, s2, argPtr, argArray, argv);
      PlacedKept(m2, m3, s2, argPtr, envArray, envp);
      PushVector(envArray + [0]);
      ghost var m4, s4 := mem[..], stackPointer;
      SameChain(m0, m3, m4, start, argPtr);
      PlacedKept(m3, m4, argPtr, s4, argArray, argv);
      PlacedKept(m3, m4, argPtr, s4, envArray, envp);
      LongsKept(m3, m4, argPtr, argPtr, argArray);
      x0, x1, x2 := |argv|, argPtr, stackPointer;
      assert argArray + [] == argArray;
      VectorMade(m4, argPtr, argArray, argv, [], s4);
      VectorMade(m4, s4, envArray, envp, [0], s4);
      LongsLast(m4, s4, envArray, 0);
      if AllNulFree(argv) {
        VectorFits(m4, argPtr, argv);
        VectorReadsBack(m4, argPtr, argv);
      }
      if AllNulFree(envp) {
        NullVectorReadsBack(m4, s4, envp);
      }
    }
  }

  lemma VectorFits(m: seq<byte>, p: nat, strs: seq<Text>)
    requires Vector(m, p, strs)
    ensures p + 8 * |strs| <= |m|
  {
  }

  lemma SameRefl(m: seq<byte>, from: nat)
    ensures Same(m, m, from)
  {
  }

  lemma NonePlaced(m: seq<byte>, sp: nat)
    ensures Placed(m, sp, [], [])
  {
  }

  lemma PlacedSize(m: seq<byte>, sp: nat, addrs: seq<nat>, strs: seq<Text>)
    requires Placed(m, sp, addrs, strs)
    ensures |addrs| == |strs|
  {
  }

  lemma PlacedOne(m: seq<byte>, n: seq<byte>, from: nat, sp: nat, addrs: seq<nat>, strs: seq<Text>, i: nat)
    requires i < |strs| && Placed(m, from, addrs, strs[i + 1..]) && Same(m, n, from) && sp <= from
    requires StringAt(n, sp, strs[i])
    ensures Placed(n, sp, [sp] + addrs, strs[i..])
  {
    hide StringAt;
    PlacedKept(m, n, from, sp, addrs, strs[i + 1..]);
    forall k | 0 <= k < |strs| - i ensures StringAt(n, ([sp] + addrs)[k], strs[i..][k]) && sp <= ([sp] + addrs)[k] {
      if k > 0 {
        assert strs[i..][k] == strs[i + 1..][k - 1];
      }
    }
  }

  lemma LongsLast(m: seq<byte>, p: nat, vals: seq<nat>, v: nat)
    requires Longs(m, p, vals + [v])
    ensures p + 8 * |vals| + 8 <= |m| && Long(m, p + 8 * |vals|) == v
  {
    hide Long;
    assert (vals + [v])[|vals|] == v;
  }
}
