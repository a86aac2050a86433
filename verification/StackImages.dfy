/** Strings and 64-bit words in a byte memory, and how a program reads its argument vectors. */
module StackImages {
  import opened Sectors

  type Text = seq<byte>

  /** The 64-bit little-endian word at an address. */
  function Long(mem: seq<byte>, a: nat): (v: nat)
    requires a + 8 <= |mem|
  {
    Word(mem, a) + 0x1_0000_0000 * Word(mem, a + 4)
  }

  function LongByte(v: nat, k: nat): byte
    requires k < 8
  {
    if k < 4 then ByteOf(v % 0x1_0000_0000, k) else ByteOf(v / 0x1_0000_0000, k - 4)
  }

  lemma LongReads(mem: seq<byte>, a: nat, v: nat)
    requires a + 8 <= |mem| && v < 0x1_0000_0000_0000_0000
    requires forall k :: a <= k < a + 8 ==> mem[k] == LongByte(v, k - a)
    ensures Long(mem, a) == v
  {
    hide ByteOf;
    var lo, hi := v % 0x1_0000_0000, v / 0x1_0000_0000;
    BytesMakeWord(lo);
    BytesMakeWord(hi);
    assert mem[a] == ByteOf(lo, 0) && mem[a + 1] == ByteOf(lo, 1) && mem[a + 2] == ByteOf(lo, 2)
        && mem[a + 3] == ByteOf(lo, 3);
    assert mem[a + 4] == ByteOf(hi, 0) && mem[a + 5] == ByteOf(hi, 1) && mem[a + 6] == ByteOf(hi, 2)
        && mem[a + 7] == ByteOf(hi, 3);
  }

  /** The zero-terminated string s stands at address a. */
  ghost predicate StringAt(mem: seq<byte>, a: nat, s: Text) {
    a + |s| < |mem| && (forall k :: a <= k < a + |s| ==> mem[k] == s[k - a]) && mem[a + |s|] == 0
  }

  /** The string a program reads at an address, up to the first zero byte. */
  function ReadString(mem: seq<byte>, a: nat): Text
    decreases |mem| - a
  {
    if a >= |mem| || mem[a] == 0 then [] else [mem[a]] + ReadString(mem, a + 1)
  }

  lemma {:induction false} ReadsBack(mem: seq<byte>, a: nat, s: Text)
    requires StringAt(mem, a, s) && NulFree(s)
    ensures ReadString(mem, a) == s
    decreases |s|
  {
    if s != [] {
      assert mem[a] == s[0];
      ReadsBack(mem, a + 1, s[1..]);
    }
  }

  /** The pointers at p lead to the given strings. */
  ghost predicate Vector(mem: seq<byte>, p: nat, strs: seq<Text>) {
    && p + 8 * |strs| <= |mem|
    && forall i :: 0 <= i < |strs| ==> PointsTo(mem, p, i, strs[i])
  }

  ghost predicate PointsTo(mem: seq<byte>, p: nat, i: nat, s: Text) {
    p + 8 * i + 8 <= |mem| && Long(mem, p + 8 * i) != 0 && StringAt(mem, Long(mem, p + 8 * i), s)
  }

  /** What a program reads through a vector of n pointers. */
  function ReadVector(mem: seq<byte>, p: nat, n: nat): seq<Text>
    requires p + 8 * n <= |mem|
    decreases n
  {
    if n == 0 then [] else [ReadString(mem, Long(mem, p))] + ReadVector(mem, p + 8, n - 1)
  }

  /** What a program reads through a vector closed by a null pointer. */
  function ReadUntilNull(mem: seq<byte>, p: nat): seq<Text>
    decreases |mem| - p
  {
    if p + 8 > |mem| || Long(mem, p) == 0 then [] else [ReadString(mem, Long(mem, p))] + ReadUntilNull(mem, p + 8)
  }

  ghost predicate AllNulFree(strs: seq<Text>) {
    forall i :: 0 <= i < |strs| ==> NulFree(strs[i])
  }

  lemma VectorTail(mem: seq<byte>, p: nat, strs: seq<Text>)
    requires Vector(mem, p, strs) && strs != []
    ensures Vector(mem, p + 8, strs[1..]) && PointsTo(mem, p, 0, strs[0])
  {
    forall i | 0 <= i < |strs| - 1 ensures PointsTo(mem, p + 8, i, strs[1..][i]) {
      assert PointsTo(mem, p, i + 1, strs[i + 1]);
      assert p + 8 * (i + 1) == p + 8 + 8 * i;
    }
  }

  lemma PointerReadsBack(mem: seq<byte>, p: nat, s: Text)
    requires PointsTo(mem, p, 0, s) && NulFree(s)
    ensures p + 8 <= |mem| && Long(mem, p) != 0 && ReadString(mem, Long(mem, p)) == s
  {
    hide Long;
    ReadsBack(mem, Long(mem, p), s);
  }

  /** A program that reads argc pointers gets exactly the strings stored. */
  lemma {:induction false} VectorReadsBack(mem: seq<byte>, p: nat, strs: seq<Text>)
    requires Vector(mem, p, strs) && AllNulFree(strs)
    ensures ReadVector(mem, p, |strs|) == strs
    decreases |strs|
  {
    hide Long, NulFree, ReadString;
    if strs != [] {
      VectorTail(mem, p, strs);
      VectorReadsBack(mem, p + 8, strs[1..]);
      PointerReadsBack(mem, p, strs[0]);
    }
  }

  /** A program that reads up to the null pointer gets exactly the strings stored. */
  lemma {:induction false} NullVectorReadsBack(mem: seq<byte>, p: nat, strs: seq<Text>)
    requires Vector(mem, p, strs) && AllNulFree(strs) && p + 8 * |strs| + 8 <= |mem| && Long(mem, p + 8 * |strs|) == 0
    ensures ReadUntilNull(mem, p) == strs
    decreases |strs|
  {
    hide Long, NulFree, ReadString;
    if strs != [] {
      VectorTail(mem, p, strs);
      assert p + 8 * |strs| == (p + 8) + 8 * |strs[1..]|;
      NullVectorReadsBack(mem, p + 8, strs[1..]);
      PointerReadsBack(mem, p, strs[0]);
    }
  }

  /** The bytes a string takes on the stack: its terminator included, rounded up to sixteen. */
  function Footprint(s: Text): nat {
    var len := |s| + 1 + 15;
    len - len % 16
  }

  lemma FootprintHolds(s: Text)
    ensures |s| + 1 <= Footprint(s) < |s| + 17 && Footprint(s) % 16 == 0
  {
  }

  function Footprints(strs: seq<Text>): nat {
    if strs == [] then 0 else Footprint(strs[0]) + Footprints(strs[1..])
  }

  /** All of the stack that the arguments and the environment need. */
  function Needed(argv: seq<Text>, envp: seq<Text>): nat {
    Footprints(argv) + Footprints(envp) + 8 * (|argv| + |argv| % 2) + 8 * (|envp| + 1 + (|envp| + 1) % 2)
  }

  /** Two memories agree from an address on. */
  ghost predicate Same(m: seq<byte>, n: seq<byte>, from: nat) {
    |m| == |n| && forall k :: from <= k < |m| ==> m[k] == n[k]
  }

  lemma StringKept(m: seq<byte>, n: seq<byte>, from: nat, a: nat, s: Text)
    requires Same(m, n, from) && from <= a && StringAt(m, a, s)
    ensures StringAt(n, a, s)
  {
  }

  lemma LongKept(m: seq<byte>, n: seq<byte>, from: nat, a: nat)
    requires Same(m, n, from) && from <= a && a + 8 <= |m|
    ensures Long(n, a) == Long(m, a)
  {
  }
}
