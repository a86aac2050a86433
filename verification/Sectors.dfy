/** Bytes, little-endian words and sectors of a disk image. */
module Sectors {

  newtype byte = x: int | 0 <= x < 256

  ghost predicate NulFree(s: seq<byte>) {
    forall i :: 0 <= i < |s| ==> s[i] != 0
  }

  /** The little-endian word at index i. */
  function Word(bytes: seq<byte>, i: nat): (v: nat)
    requires i + 4 <= |bytes|
    ensures v < 0x1_0000_0000
  {
    bytes[i] as nat + 0x100 * (bytes[i + 1] as nat) + 0x1_0000 * (bytes[i + 2] as nat) + 0x100_0000 * (bytes[i + 3] as nat)
  }

  /** The k-th byte of a word, by shifting and masking. */
  function ByteOf(v: nat, k: nat): byte
    requires k < 4
  {
    var shift := if k == 0 then 1 else if k == 1 then 0x100 else if k == 2 then 0x1_0000 else 0x100_0000;
    (v / shift % 0x100) as byte
  }

  /** bytes with the word at i overwritten. */
  function PutWord(bytes: seq<byte>, i: nat, v: nat): (r: seq<byte>)
    requires i + 4 <= |bytes|
    ensures |r| == |bytes|
  {
    bytes[..i] + [ByteOf(v, 0), ByteOf(v, 1), ByteOf(v, 2), ByteOf(v, 3)] + bytes[i + 4..]
  }

  lemma BytesMakeWord(v: nat)
    requires v < 0x1_0000_0000
    ensures v == ByteOf(v, 0) as nat + 0x100 * (ByteOf(v, 1) as nat) + 0x1_0000 * (ByteOf(v,
      2) as nat) + 0x100_0000 * (ByteOf(v, 3) as nat)
  {
    var a := v / 0x100;
    var b := a / 0x100;
    assert v / 0x1_0000 == b;
    assert v / 0x100_0000 == b / 0x100;
  }

  /** A word reads back as written, and words beside it are not disturbed. */
  lemma WordRoundTrip(bytes: seq<byte>, i: nat, v: nat, j: nat)
    requires i + 4 <= |bytes| && j + 4 <= |bytes| && v < 0x1_0000_0000
    ensures Word(PutWord(bytes, i, v), i) == v
    ensures j + 4 <= i || i + 4 <= j ==> Word(PutWord(bytes, i, v), j) == Word(bytes, j)
  {
    hide ByteOf;
    BytesMakeWord(v);
    var r := PutWord(bytes, i, v);
    assert r[i] == ByteOf(v, 0) && r[i + 1] == ByteOf(v, 1) && r[i + 2] == ByteOf(v, 2) && r[i + 3] == ByteOf(v, 3);
    assert forall k :: 0 <= k < i ==> r[k] == bytes[k];
    assert forall k :: i + 4 <= k < |r| ==> r[k] == bytes[k];
  }

  /** Where a sector starts. */
  function SectorStart(size: nat, s: nat): nat {
    size * s
  }

  lemma SectorStep(size: nat, s: nat, t: nat)
    requires s < t
    ensures SectorStart(size, s) + size <= SectorStart(size, t)
  {
    assert size * t == size * s + size * (t - s);
    assert size * (t - s) >= size by {
      assert size * (t - s) == size + size * (t - s - 1);
    }
  }

  lemma ApartByFactor(b: nat, q: nat, k: nat)
    requires q < k
    ensures b * k >= b * q + b
  {
    SectorStep(b, q, k);
  }

  lemma DivUnique(n: nat, b: nat, q: nat, m: nat)
    requires b > 0 && n == b * q + m && m < b
    ensures n / b == q && n % b == m
  {
    var k := n / b;
    var p, r := b * k, n % b;
    assert n == p + r && r < b;
    if k < q {
      ApartByFactor(b, k, q);
    } else if k > q {
      ApartByFactor(b, q, k);
    }
  }

  /** An offset counted from a sector boundary splits as from zero. */
  lemma SplitOffset(size: nat, r: nat, x: nat)
    requires size > 0
    ensures (SectorStart(size, r) + x) / size == r + x / size && (SectorStart(size, r) + x) % size == x % size
    ensures SectorStart(size, r + x / size) + x % size == SectorStart(size, r) + x
  {
    var q, m := x / size, x % size;
    assert x == size * q + m;
    assert size * (r + q) == size * r + size * q;
    DivUnique(size * r + x, size, r + q, m);
  }
}
