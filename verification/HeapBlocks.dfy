/** Boundary-tag blocks tiling a word array: a header of size, next pointer and flag, the payload, and a footer that
repeats size and flag. */
module HeapBlocks {

  const OVERHEAD := 5

  datatype Blk = Blk(size: nat, used: bool) {
    function Flag(): nat {
      if used then 1 else 0
    }
  }

  function Total(bs: seq<Blk>): nat {
    if bs == [] then 0 else bs[0].size + OVERHEAD + Total(bs[1..])
  }

  /** Where block k starts when the tiling starts at lo. */
  function At(lo: nat, bs: seq<Blk>, k: nat): nat
    requires k <= |bs|
  {
    lo + Total(bs[..k])
  }

  /** Header and footer of the block at b agree with blk. Any flag other than zero marks a used block. */
  ghost predicate BlockOk(w: seq<nat>, b: nat, blk: Blk) {
    && b + blk.size + OVERHEAD <= |w|
    && w[b] == blk.size && (w[b + 2] != 0 <==> blk.used)
    && w[b + blk.size + 3] == blk.size && (w[b + blk.size + 4] != 0 <==> blk.used)
  }

  ghost predicate Tiled(w: seq<nat>, lo: nat, hi: nat, bs: seq<Blk>) {
    && At(lo, bs, |bs|) == hi <= |w|
    && forall k :: 0 <= k < |bs| ==> BlockOk(w, At(lo, bs, k), bs[k])
  }

  lemma {:induction false} TotalConcat(a: seq<Blk>, b: seq<Blk>)
    ensures Total(a + b) == Total(a) + Total(b)
  {
    if a == [] {
      assert a + b == b;
    } else {
      TotalConcat(a[1..], b);
      assert (a + b)[1..] == a[1..] + b;
    }
  }

  lemma AtStep(lo: nat, bs: seq<Blk>, k: nat)
    requires k < |bs|
    ensures At(lo, bs, k + 1) == At(lo, bs, k) + bs[k].size + OVERHEAD
  {
    TotalConcat(bs[..k], [bs[k]]);
    assert bs[..k + 1] == bs[..k] + [bs[k]];
    assert Total([bs[k]]) == bs[k].size + OVERHEAD;
  }

  /** Blocks do not overlap: a block ends at or before every later one. */
  lemma {:induction false} AtMono(lo: nat, bs: seq<Blk>, j: nat, k: nat)
    requires j < k <= |bs|
    ensures At(lo, bs, j) + bs[j].size + OVERHEAD <= At(lo, bs, k)
    decreases k
  {
    AtStep(lo, bs, k - 1);
    if j < k - 1 {
      AtMono(lo, bs, j, k - 1);
    }
  }

  /** The tiling with the run of c blocks at k replaced. */
  function Replace(bs: seq<Blk>, k: nat, c: nat, mid: seq<Blk>): (r: seq<Blk>)
    requires k + c <= |bs|
    ensures |r| == |bs| - c + |mid|
  {
    bs[..k] + mid + bs[k + c..]
  }

  lemma AtReplaceFront(lo: nat, bs: seq<Blk>, k: nat, c: nat, mid: seq<Blk>, j: nat)
    requires k + c <= |bs| && j <= k
    ensures At(lo, Replace(bs, k, c, mid), j) == At(lo, bs, j)
  {
    assert Replace(bs, k, c, mid)[..j] == bs[..j];
  }

  lemma TotalThree(a: seq<Blk>, b: seq<Blk>, c: seq<Blk>)
    ensures Total(a + b + c) == Total(a) + Total(b) + Total(c)
  {
    TotalConcat(a + b, c);
    TotalConcat(a, b);
  }

  lemma ReplacePrefix(bs: seq<Blk>, k: nat, c: nat, mid: seq<Blk>, j: nat)
    requires k + c <= j <= |bs|
    ensures Replace(bs, k, c, mid)[..j - c + |mid|] == bs[..k] + mid + bs[k + c..j]
    ensures bs[..j] == bs[..k] + bs[k..k + c] + bs[k + c..j]
  {
  }

  lemma AtReplaceBack(lo: nat, bs: seq<Blk>, k: nat, c: nat, mid: seq<Blk>, j: nat)
    requires k + c <= j <= |bs| && Total(mid) == Total(bs[k..k + c])
    ensures At(lo, Replace(bs, k, c, mid), j - c + |mid|) == At(lo, bs, j)
  {
    hide Total, Replace;
    ReplacePrefix(bs, k, c, mid, j);
    TotalThree(bs[..k], mid, bs[k + c..j]);
    TotalThree(bs[..k], bs[k..k + c], bs[k + c..j]);
  }

  /** Nothing in the block at b changed except perhaps its next pointer. */
  ghost predicate SameBlock(w: seq<nat>, v: seq<nat>, b: nat, blk: Blk) {
    && |v| == |w|
    && forall x :: b <= x < b + blk.size + OVERHEAD && x < |w| && x != b + 1 ==> v[x] == w[x]
  }

  /** Rewriting a run of blocks into others of the same total keeps the heap exactly tiled. */
  lemma ReplaceTiled(w: seq<nat>, v: seq<nat>, lo: nat, hi: nat, bs: seq<Blk>, k: nat, c: nat, mid: seq<Blk>)
    requires Tiled(w, lo, hi, bs) && |v| == |w| && k + c <= |bs| && Total(mid) == Total(bs[k..k + c])
    requires forall j :: (0 <= j < k || k + c <= j < |bs|) ==> SameBlock(w, v, At(lo, bs, j), bs[j])
    requires forall i :: 0 <= i < |mid| ==> BlockOk(v, At(At(lo, bs, k), mid, i), mid[i])
    ensures Tiled(v, lo, hi, Replace(bs, k, c, mid))
  {
    hide Total, At, BlockOk, SameBlock, Replace;
    var r := Replace(bs, k, c, mid);
    AtReplaceBack(lo, bs, k, c, mid, |bs|);
    forall n | 0 <= n < |r| ensures BlockOk(v, At(lo, r, n), r[n]) {
      ReplacedOk(w, v, lo, hi, bs, k, c, mid, n);
    }
  }

  lemma ReplacedOk(w: seq<nat>, v: seq<nat>, lo: nat, hi: nat, bs: seq<Blk>, k: nat, c: nat, mid: seq<Blk>, n: nat)
    requires Tiled(w, lo, hi, bs) && |v| == |w| && k + c <= |bs| && Total(mid) == Total(bs[k..k + c])
    requires forall j :: (0 <= j < k || k + c <= j < |bs|) ==> SameBlock(w, v, At(lo, bs, j), bs[j])
    requires forall i :: 0 <= i < |mid| ==> BlockOk(v, At(At(lo, bs, k), mid, i), mid[i])
    requires n < |Replace(bs, k, c, mid)|
    ensures BlockOk(v, At(lo, Replace(bs, k, c, mid), n), Replace(bs, k, c, mid)[n])
  {
    hide Total, At, BlockOk, SameBlock;
    var r := Replace(bs, k, c, mid);
    if n < k {
      AtReplaceFront(lo, bs, k, c, mid, n);
      SameBlockOk(w, v, At(lo, bs, n), bs[n]);
    } else if n < k + |mid| {
      AtMiddle(lo, bs, k, c, mid, n - k);
      assert r[n] == mid[n - k];
    } else {
      var j := n - |mid| + c;
      AtReplaceBack(lo, bs, k, c, mid, j);
      assert r[n] == bs[j];
      SameBlockOk(w, v, At(lo, bs, j), bs[j]);
    }
  }

  lemma SameBlockOk(w: seq<nat>, v: seq<nat>, b: nat, blk: Blk)
    requires SameBlock(w, v, b, blk) && BlockOk(w, b, blk)
    ensures BlockOk(v, b, blk)
  {
  }

  lemma AtMiddle(lo: nat, bs: seq<Blk>, k: nat, c: nat, mid: seq<Blk>, i: nat)
    requires k + c <= |bs| && i <= |mid|
    ensures At(lo, Replace(bs, k, c, mid), k + i) == At(At(lo, bs, k), mid, i)
  {
    hide Total;
    assert Replace(bs, k, c, mid)[..k + i] == bs[..k] + mid[..i];
    TotalConcat(bs[..k], mid[..i]);
  }

  lemma RangesApart(lo: nat, bs: seq<Blk>, i: nat, j: nat)
    requires i < |bs| && j < |bs| && i != j
    ensures At(lo, bs, i) + bs[i].size + OVERHEAD <= At(lo, bs, j) || At(lo, bs, j) + bs[j].size + OVERHEAD <= At(lo,
      bs, i)
  {
    if i < j {
      AtMono(lo, bs, i, j);
    } else {
      AtMono(lo, bs, j, i);
    }
  }

  /** No two neighbouring blocks are both free. */
  ghost predicate NoAdjacentFree(bs: seq<Blk>) {
    forall j :: 0 <= j < |bs| - 1 ==> bs[j].used || bs[j + 1].used
  }

  /** An address where some block starts. */
  ghost predicate IsStart(lo: nat, bs: seq<Blk>, b: nat) {
    exists j :: 0 <= j < |bs| && At(lo, bs, j) == b
  }

  /** Payloads of two blocks never share a word, and each lies inside the heap. */
  lemma PayloadsDisjoint(w: seq<nat>, lo: nat, hi: nat, bs: seq<Blk>, i: nat, j: nat, x: nat)
    requires Tiled(w, lo, hi, bs) && i < |bs| && j < |bs|
    requires At(lo, bs, i) + 3 <= x < At(lo, bs, i) + 3 + bs[i].size
    requires At(lo, bs, j) + 3 <= x < At(lo, bs, j) + 3 + bs[j].size
    ensures i == j && lo <= x < hi
  {
    if i != j {
      RangesApart(lo, bs, i, j);
    }
    AtMono(lo, bs, i, |bs|);
  }

  /** Joining two neighbouring blocks. */
  function Join(a: Blk, b: Blk): Blk {
    Blk(a.size + b.size + OVERHEAD, false)
  }

  lemma TotalPair(a: Blk, b: Blk)
    ensures Total([a]) == a.size + OVERHEAD && Total([a, b]) == a.size + b.size + 2 * OVERHEAD
    ensures [a, b][..1] == [a] && Total([]) == 0
  {
    assert [a, b][1..] == [b] && [a][1..] == [] && [b][1..] == [];
  }

  /** Outside the words from b up to e, only the next pointer of one header may differ. */
  ghost predicate OnlyWithin(w: seq<nat>, v: seq<nat>, b: nat, e: nat, prev: nat) {
    |v| == |w| && forall x :: 0 <= x < |w| && !(b <= x < e) && !(prev != 0 && x == prev + 1) ==> v[x] == w[x]
  }

  /** Writes inside a run of blocks, and to one header's next pointer, leave the other blocks alone. */
  lemma OthersSame(w: seq<nat>, v: seq<nat>, lo: nat, hi: nat, bs: seq<Blk>, k: nat, c: nat, prev: nat)
    requires Tiled(w, lo, hi, bs) && k + c <= |bs| && (prev == 0 || IsStart(lo, bs, prev))
    requires OnlyWithin(w, v, At(lo, bs, k), At(lo, bs, k + c), prev)
    ensures forall j :: (0 <= j < k || k + c <= j < |bs|) ==> SameBlock(w, v, At(lo, bs, j), bs[j])
  {
    hide Total, At, BlockOk;
    forall j | 0 <= j < k || k + c <= j < |bs| ensures SameBlock(w, v, At(lo, bs, j), bs[j]) {
      OtherSame(w, v, lo, hi, bs, k, c, prev, j);
    }
  }

  lemma OtherSame(w: seq<nat>, v: seq<nat>, lo: nat, hi: nat, bs: seq<Blk>, k: nat, c: nat, prev: nat, j: nat)
    requires Tiled(w, lo, hi, bs) && k + c <= |bs| && (prev == 0 || IsStart(lo, bs, prev))
    requires OnlyWithin(w, v, At(lo, bs, k), At(lo, bs, k + c), prev)
    requires 0 <= j < k || k + c <= j < |bs|
    ensures SameBlock(w, v, At(lo, bs, j), bs[j])
  {
    hide Total, BlockOk;
    if j < k {
      AtMono(lo, bs, j, k);
    } else if k + c < j {
      AtMono(lo, bs, k + c, j);
    }
    if prev != 0 {
      var p :| 0 <= p < |bs| && At(lo, bs, p) == prev;
      if p != j {
        RangesApart(lo, bs, p, j);
      }
    }
    AtMono(lo, bs, j, |bs|);
  }

  /** The payload of a used block survives such writes. */
  lemma PayloadSame(w: seq<nat>, v: seq<nat>, lo: nat, hi: nat, bs: seq<Blk>, k: nat, c: nat, prev: nat, j: nat)
    requires Tiled(w, lo, hi, bs) && k + c <= |bs| && (prev == 0 || IsStart(lo, bs, prev))
    requires OnlyWithin(w, v, At(lo, bs, k), At(lo, bs, k + c), prev)
    requires 0 <= j < k || k + c <= j < |bs|
    ensures forall x :: At(lo, bs, j) + 3 <= x < At(lo, bs, j) + 3 + bs[j].size && x < |w| ==> v[x] == w[x]
  {
    OtherSame(w, v, lo, hi, bs, k, c, prev, j);
  }

  /** Writing a block's header and footer. */
  function Tagged(w: seq<nat>, b: nat, blk: Blk, next: nat): (v: seq<nat>)
    requires b + blk.size + OVERHEAD <= |w|
    ensures |v| == |w| && BlockOk(v, b, blk)
    ensures forall x :: 0 <= x < |w| && !(b <= x < b + 3) && x != b + blk.size + 3 && x != b + blk.size + 4 ==>
        v[x] == w[x]
  {
    w[b := blk.size][b + 1 := next][b + 2 := blk.Flag()][b + blk.size + 3 := blk.size][b + blk.size + 4 := blk.Flag()]
  }

  lemma SplitWrites(w: seq<nat>, b: nat, s: nat, n: nat, prev: nat, next: nat, linked: bool)
    requires n + OVERHEAD <= s && b + s + OVERHEAD <= |w|
    requires linked ==> prev != 0 && prev + 1 < |w| && (prev == b || prev + 1 < b || prev >= b + s + OVERHEAD)
    ensures var u := Tagged(w, b + n + OVERHEAD, Blk(s - n - OVERHEAD, false), next);
      var t := if linked then u[prev + 1 := b + n + OVERHEAD] else u;
      SplitWrote(w, Tagged(t, b, Blk(n, true), 0), b, s, n, prev)
  {
    hide Tagged;
  }

  /** The words a split leaves in a free block of s words that gives n words away. */
  ghost predicate SplitWrote(w: seq<nat>, v: seq<nat>, b: nat, s: nat, n: nat, prev: nat)
    requires n + OVERHEAD <= s && b + s + OVERHEAD <= |w|
  {
    && OnlyWithin(w, v, b, b + s + OVERHEAD, prev)
    && BlockOk(v, b, Blk(n, true)) && BlockOk(v, b + n + OVERHEAD, Blk(s - n - OVERHEAD, false))
  }

  lemma SplitTiled(w: seq<nat>, v: seq<nat>, lo: nat, hi: nat, bs: seq<Blk>, k: nat, n: nat, prev: nat)
    requires Tiled(w, lo, hi, bs) && k < |bs| && n + OVERHEAD <= bs[k].size && (prev == 0 || IsStart(lo, bs, prev))
    requires At(lo, bs, k) + bs[k].size + OVERHEAD <= |w| && SplitWrote(w, v, At(lo, bs, k), bs[k].size, n, prev)
    ensures Tiled(v, lo, hi, Replace(bs, k, 1, [Blk(n, true), Blk(bs[k].size - n - OVERHEAD, false)]))
  {
    hide Total, BlockOk, IsStart;
    AtStep(lo, bs, k);
    OthersSame(w, v, lo, hi, bs, k, 1, prev);
    var mid := [Blk(n, true), Blk(bs[k].size - n - OVERHEAD, false)];
    TotalPair(mid[0], mid[1]);
    TotalPair(bs[k], bs[k]);
    assert bs[k..k + 1] == [bs[k]] && mid[..0] == [];
    ReplaceTiled(w, v, lo, hi, bs, k, 1, mid);
  }

  /** The heap is exactly tiled, no two free blocks are adjacent, and the list starts at the highest block, which is
  free. */
  ghost predicate HeapOk(w: seq<nat>, lo: nat, hi: nat, bs: seq<Blk>, first: nat) {
    Loose(w, lo, hi, bs, first) && NoAdjacentFree(bs)
  }

  /** The same, while free neighbours wait to be merged. */
  ghost predicate Loose(w: seq<nat>, lo: nat, hi: nat, bs: seq<Blk>, first: nat) {
    && lo > 0 && Tiled(w, lo, hi, bs)
    && |bs| > 0 && !bs[|bs| - 1].used && first == At(lo, bs, |bs| - 1)
  }

  /** A cursor is null or a real block header. */
  ghost predicate Cursor(lo: nat, bs: seq<Blk>, b: nat) {
    b == 0 || IsStart(lo, bs, b)
  }

  /** Every used block outside the run of c blocks at k keeps its payload. */
  ghost predicate PayloadsKept(w: seq<nat>, v: seq<nat>, lo: nat, bs: seq<Blk>, k: nat, c: nat) {
    && |v| == |w|
    && forall j, x: nat :: (0 <= j < |bs| && bs[j].used && !(k <= j < k + c) && InPayload(lo, bs, j, x) && x < |w|) ==> v[x] == w[x]
  }

  ghost predicate InPayload(lo: nat, bs: seq<Blk>, j: nat, x: nat)
    requires j < |bs|
  {
    At(lo, bs, j) + 3 <= x < At(lo, bs, j) + 3 + bs[j].size
  }

  lemma PayloadsSame(w: seq<nat>, v: seq<nat>, lo: nat, hi: nat, bs: seq<Blk>, k: nat, c: nat, prev: nat)
    requires Tiled(w, lo, hi, bs) && k + c <= |bs| && Cursor(lo, bs, prev)
    requires OnlyWithin(w, v, At(lo, bs, k), At(lo, bs, k + c), prev)
    ensures PayloadsKept(w, v, lo, bs, k, c)
  {
    hide Total, Tiled, IsStart;
    forall j, x: nat | 0 <= j < |bs| && bs[j].used && !(k <= j < k + c) && InPayload(lo, bs, j, x) && x < |w|
      ensures v[x] == w[x]
    {
      PayloadSame(w, v, lo, hi, bs, k, c, prev, j);
    }
  }

  function SplitInto(blk: Blk, n: nat): seq<Blk>
    requires n + OVERHEAD <= blk.size
  {
    [Blk(n, true), Blk(blk.size - n - OVERHEAD, false)]
  }

  lemma StartKept(lo: nat, bs: seq<Blk>, k: nat, c: nat, mid: seq<Blk>, j: nat)
    requires k + c <= |bs| && Total(mid) == Total(bs[k..k + c]) && (j < k || k + c <= j < |bs|)
    ensures IsStart(lo, Replace(bs, k, c, mid), At(lo, bs, j))
  {
    hide Total, At;
    if j < k {
      AtReplaceFront(lo, bs, k, c, mid, j);
    } else {
      AtReplaceBack(lo, bs, k, c, mid, j);
      assert At(lo, Replace(bs, k, c, mid), j - c + |mid|) == At(lo, bs, j);
    }
  }

  /** What a split does to the whole heap. */
  lemma SplitKeeps(w: seq<nat>, v: seq<nat>, lo: nat, hi: nat, bs: seq<Blk>, first: nat, k: nat, n: nat, prev: nat)
    requires HeapOk(w, lo, hi, bs, first) && k < |bs| && !bs[k].used && n + OVERHEAD <= bs[k].size
    requires Cursor(lo, bs, prev)
    requires At(lo, bs, k) + bs[k].size + OVERHEAD <= |w| && SplitWrote(w, v, At(lo, bs, k), bs[k].size, n, prev)
    ensures var b := At(lo, bs, k);
      var split := b + n + OVERHEAD;
      var r := Replace(bs, k, 1, SplitInto(bs[k], n));
      && HeapOk(v, lo, hi, r, if b == first then split else first)
      && Cursor(lo, r, if prev == b then split else prev)
      && PayloadsKept(w, v, lo, bs, k, 1)
  {
    hide Total, Tiled, BlockOk;
    var b, mid := At(lo, bs, k), SplitInto(bs[k], n);
    var r := Replace(bs, k, 1, mid);
    SplitTiled(w, v, lo, hi, bs, k, n, prev);
    TotalPair(mid[0], mid[1]);
    TotalPair(bs[k], bs[k]);
    assert bs[k..k + 1] == [bs[k]];
    AtMiddle(lo, bs, k, 1, mid, 1);
    AtStep(lo, bs, k);
    if k == |bs| - 1 {
      assert At(lo, r, |r| - 1) == b + n + OVERHEAD;
    } else {
      AtReplaceBack(lo, bs, k, 1, mid, |bs| - 1);
      AtMono(lo, bs, k, |bs| - 1);
    }
    assert NoAdjacentFree(r) by {
      forall j | 0 <= j < |r| - 1 ensures r[j].used || r[j + 1].used {
        assert r[j] == (if j < k then bs[j] else if j < k + 2 then mid[j - k] else bs[j - 1]);
        assert j == k + 1 && k + 1 < |bs| ==> bs[k + 1].used;
      }
    }
    if prev == b {
      assert At(lo, r, k + 1) == b + n + OVERHEAD;
    } else if prev != 0 {
      var p :| 0 <= p < |bs| && At(lo, bs, p) == prev;
      StartKept(lo, bs, k, 1, mid, p);
    }
    PayloadsSame(w, v, lo, hi, bs, k, 1, prev);
  }

  /** The words after joining the block of s words at b with the next one of r words. */
  function JoinedWords(w: seq<nat>, b: nat, s: nat, r: nat): (v: seq<nat>)
    requires b + s + r + 2 * OVERHEAD <= |w|
    ensures |v| == |w|
  {
    w[b := s + r + OVERHEAD][b + s + OVERHEAD + 1 := 0][b + s + r + OVERHEAD + 3 := s + r + OVERHEAD]
  }

  lemma JoinBounds(w: seq<nat>, lo: nat, hi: nat, bs: seq<Blk>, k: nat)
    requires Tiled(w, lo, hi, bs) && k + 1 < |bs|
    ensures At(lo, bs, k + 1) == At(lo, bs, k) + bs[k].size + OVERHEAD
    ensures At(lo, bs, k + 2) == At(lo, bs, k + 1) + bs[k + 1].size + OVERHEAD <= hi <= |w|
    ensures BlockOk(w, At(lo, bs, k), bs[k]) && BlockOk(w, At(lo, bs, k + 1), bs[k + 1])
  {
    hide Total;
    AtStep(lo, bs, k);
    AtStep(lo, bs, k + 1);
    AtMono(lo, bs, k + 1, |bs|);
  }

  lemma JoinTiled(w: seq<nat>, lo: nat, hi: nat, bs: seq<Blk>, k: nat)
    requires Tiled(w, lo, hi, bs) && k + 1 < |bs| && !bs[k].used && !bs[k + 1].used
    requires At(lo, bs, k) + bs[k].size + bs[k + 1].size + 2 * OVERHEAD <= |w|
    ensures var v := JoinedWords(w, At(lo, bs, k), bs[k].size, bs[k + 1].size);
      && Tiled(v, lo, hi, Replace(bs, k, 2, [Join(bs[k], bs[k + 1])]))
      && PayloadsKept(w, v, lo, bs, k, 2)
  {
    hide Total, Replace;
    var b, mid := At(lo, bs, k), [Join(bs[k], bs[k + 1])];
    var v := JoinedWords(w, b, bs[k].size, bs[k + 1].size);
    JoinBounds(w, lo, hi, bs, k);
    assert OnlyWithin(w, v, b, At(lo, bs, k + 2), 0);
    assert BlockOk(v, b, mid[0]);
    OthersSame(w, v, lo, hi, bs, k, 2, 0);
    TotalPair(bs[k], bs[k + 1]);
    TotalPair(mid[0], mid[0]);
    assert bs[k..k + 2] == [bs[k], bs[k + 1]] && mid[..0] == [];
    ReplaceTiled(w, v, lo, hi, bs, k, 2, mid);
    PayloadsSame(w, v, lo, hi, bs, k, 2, 0);
  }

  /** Joining two free neighbours keeps the tiling and the highest block. */
  lemma JoinKeeps(w: seq<nat>, lo: nat, hi: nat, bs: seq<Blk>, first: nat, k: nat)
    requires Loose(w, lo, hi, bs, first) && k + 1 < |bs| && !bs[k].used && !bs[k + 1].used
    ensures At(lo, bs, k) + bs[k].size + bs[k + 1].size + 2 * OVERHEAD <= hi <= |w|
    ensures var v := JoinedWords(w, At(lo, bs, k), bs[k].size, bs[k + 1].size);
      var r := Replace(bs, k, 2, [Join(bs[k], bs[k + 1])]);
      && Loose(v, lo, hi, r, if At(lo, bs, k + 1) == first then At(lo, bs, k) else first)
      && At(lo, r, k) == At(lo, bs, k) && PayloadsKept(w, v, lo, bs, k, 2)
  {
    hide Total, Tiled;
    JoinBounds(w, lo, hi, bs, k);
    JoinTiled(w, lo, hi, bs, k);
    var mid := [Join(bs[k], bs[k + 1])];
    var r := Replace(bs, k, 2, mid);
    TotalPair(bs[k], bs[k + 1]);
    TotalPair(mid[0], mid[0]);
    assert bs[k..k + 2] == [bs[k], bs[k + 1]];
    AtReplaceFront(lo, bs, k, 2, mid, k);
    if k + 2 < |bs| {
      AtReplaceBack(lo, bs, k, 2, mid, |bs| - 1);
      AtMono(lo, bs, k + 1, |bs| - 1);
    }
  }

  /** Clearing a used block's flags, and any writes to its own and one header's next pointer. */
  lemma FreeKeeps(w: seq<nat>, v: seq<nat>, lo: nat, hi: nat, bs: seq<Blk>, first: nat, k: nat, prev: nat)
    requires Loose(w, lo, hi, bs, first) && k < |bs| && bs[k].used && Cursor(lo, bs, prev)
    requires OnlyWithin(w, v, At(lo, bs, k), At(lo, bs, k + 1), prev)
    requires BlockOk(v, At(lo, bs, k), Blk(bs[k].size, false))
    ensures Loose(v, lo, hi, bs[k := Blk(bs[k].size, false)], first)
    ensures At(lo, bs[k := Blk(bs[k].size, false)], k) == At(lo, bs, k)
    ensures PayloadsKept(w, v, lo, bs, k, 1)
  {
    hide Total, Tiled, BlockOk;
    var mid := [Blk(bs[k].size, false)];
    OthersSame(w, v, lo, hi, bs, k, 1, prev);
    TotalPair(mid[0], mid[0]);
    TotalPair(bs[k], bs[k]);
    assert bs[k..k + 1] == [bs[k]] && mid[..0] == [];
    ReplaceTiled(w, v, lo, hi, bs, k, 1, mid);
    assert Replace(bs, k, 1, mid) == bs[k := mid[0]];
    AtReplaceFront(lo, bs, k, 1, mid, k);
    AtReplaceBack(lo, bs, k, 1, mid, |bs| - 1);
    PayloadsSame(w, v, lo, hi, bs, k, 1, prev);
  }

  /** Starts of the free blocks among the first n, in address order. */
  function FreeStarts(lo: nat, bs: seq<Blk>, n: nat): seq<nat>
    requires n <= |bs|
  {
    if n == 0 then []
    else FreeStarts(lo, bs, n - 1) + (if bs[n - 1].used then [] else [At(lo, bs, n - 1)])
  }

  /** Exactly the free blocks, in strictly ascending order, each below the end of the nth block. */
  lemma {:induction false} FreeStartsExact(lo: nat, bs: seq<Blk>, n: nat)
    requires n <= |bs|
    ensures forall b :: b in FreeStarts(lo, bs, n) <==> exists j :: 0 <= j < n && !bs[j].used && At(lo, bs, j) == b
    ensures forall i, j :: 0 <= i < j < |FreeStarts(lo, bs, n)| ==> FreeStarts(lo, bs, n)[i] < FreeStarts(lo, bs, n)[j]
    ensures forall i :: 0 <= i < |FreeStarts(lo, bs, n)| ==> FreeStarts(lo, bs, n)[i] < At(lo, bs, n)
  {
    hide Total, At;
    if n > 0 {
      FreeStartsExact(lo, bs, n - 1);
      AtMono(lo, bs, n - 1, n);
    }
  }

  /** Consecutive elements of v are linked by the next pointers. */
  ghost predicate Linked(w: seq<nat>, v: seq<nat>) {
    && (forall i :: 0 <= i < |v| ==> v[i] + 1 < |w|)
    && forall i :: 0 <= i < |v| - 1 ==> w[v[i] + 1] == v[i + 1]
  }

  /** The visiting order of the free list: the highest block first, then the others by address. */
  ghost function Visits(lo: nat, bs: seq<Blk>, n: nat): seq<nat>
    requires n < |bs|
  {
    [At(lo, bs, |bs| - 1)] + FreeStarts(lo, bs, n)
  }

  lemma VisitsFacts(w: seq<nat>, lo: nat, hi: nat, bs: seq<Blk>, n: nat)
    requires Tiled(w, lo, hi, bs) && n < |bs|
    ensures var v := Visits(lo, bs, n);
      && (forall i :: 0 <= i < |v| ==> IsStart(lo, bs, v[i]) && v[i] + 1 < |w|)
      && (forall i, j :: 0 <= i < j < |v| ==> v[i] != v[j])
  {
    hide Total, BlockOk;
    FreeStartsExact(lo, bs, n);
    AtMono(lo, bs, |bs| - 1, |bs|);
    if n < |bs| - 1 {
      AtMono(lo, bs, n, |bs| - 1);
    }
    var v := Visits(lo, bs, n);
    forall i | 0 <= i < |v| ensures IsStart(lo, bs, v[i]) && v[i] + 1 < |w| && (i > 0 ==> v[i] < v[0]) {
      if i > 0 {
        assert v[i] == FreeStarts(lo, bs, n)[i - 1];
        assert v[i] in FreeStarts(lo, bs, n);
      }
    }
    forall i, j | 0 <= i < j < |v| ensures v[i] != v[j] {
      assert i > 0 ==> v[i] == FreeStarts(lo, bs, n)[i - 1] && v[j] == FreeStarts(lo, bs, n)[j - 1];
    }
  }

  /** Only next pointers of block headers differ. */
  ghost predicate OnlyLinks(w: seq<nat>, v: seq<nat>, lo: nat, bs: seq<Blk>) {
    |v| == |w| && forall x :: 0 <= x < |w| && v[x] != w[x] ==> x >= 1 && IsStart(lo, bs, x - 1)
  }

  lemma LinksKeepHeap(w: seq<nat>, v: seq<nat>, lo: nat, hi: nat, bs: seq<Blk>)
    requires Tiled(w, lo, hi, bs) && OnlyLinks(w, v, lo, bs)
    ensures Tiled(v, lo, hi, bs) && PayloadsKept(w, v, lo, bs, 0, 0)
  {
    hide Total;
    forall j, x | 0 <= j < |bs| && At(lo, bs, j) <= x < At(lo, bs, j) + bs[j].size + OVERHEAD && x != At(lo, bs, j) + 1
      && x < |w|
      ensures v[x] == w[x]
    {
      if v[x] != w[x] {
        var p :| 0 <= p < |bs| && At(lo, bs, p) == x - 1;
        if p != j {
          RangesApart(lo, bs, p, j);
        }
      }
    }
    forall k | 0 <= k < |bs| ensures BlockOk(v, At(lo, bs, k), bs[k]) {
      assert BlockOk(w, At(lo, bs, k), bs[k]);
    }
  }

  /** One round of the rebuild: linking the next free block behind the last one visited. */
  lemma LinkNext(w: seq<nat>, lo: nat, hi: nat, bs: seq<Blk>, n: nat)
    requires Tiled(w, lo, hi, bs) && n < |bs| - 1 && !bs[n].used && Linked(w, Visits(lo, bs, n))
    ensures var v := Visits(lo, bs, n);
      var last := v[|v| - 1];
      && last + 1 < |w| && IsStart(lo, bs, last)
      && Linked(w[last + 1 := At(lo, bs, n)], Visits(lo, bs, n + 1))
      && Visits(lo, bs, n + 1) == v + [At(lo, bs, n)]
  {
    VisitsFacts(w, lo, hi, bs, n);
    VisitsFacts(w, lo, hi, bs, n + 1);
    var v, x := Visits(lo, bs, n), At(lo, bs, n);
    assert Visits(lo, bs, n + 1) == v + [x];
    LinkLast(w, v, x);
  }

  lemma LinkLast(w: seq<nat>, v: seq<nat>, x: nat)
    requires |v| > 0 && Linked(w, v) && x + 1 < |w| && forall i, j :: 0 <= i < j < |v| ==> v[i] != v[j]
    ensures Linked(w[v[|v| - 1] + 1 := x], v + [x])
  {
    var u, t := w[v[|v| - 1] + 1 := x], v + [x];
    forall i | 0 <= i < |t| - 1 ensures u[t[i] + 1] == t[i + 1] {
      if i < |v| - 1 {
        assert v[i] != v[|v| - 1] && t[i] == v[i] && t[i + 1] == v[i + 1];
      }
    }
  }

  lemma EndChain(w: seq<nat>, v: seq<nat>)
    requires |v| > 0 && Linked(w, v) && forall i, j :: 0 <= i < j < |v| ==> v[i] != v[j]
    ensures Linked(w[v[|v| - 1] + 1 := 0], v)
  {
    var u := w[v[|v| - 1] + 1 := 0];
    forall i | 0 <= i < |v| - 1 ensures u[v[i] + 1] == v[i + 1] {
      assert v[i] != v[|v| - 1];
    }
  }

  /** The chain from the list start visits every free block once, the head first and the others by address, and ends
  in null. */
  ghost predicate ListOk(w: seq<nat>, lo: nat, bs: seq<Blk>)
    requires |bs| > 0
  {
    var v := Visits(lo, bs, |bs| - 1);
    Linked(w, v) && v[|v| - 1] + 1 < |w| && w[v[|v| - 1] + 1] == 0
  }

  /** Exactly the free blocks are visited, each once. */
  lemma VisitsExact(w: seq<nat>, lo: nat, hi: nat, bs: seq<Blk>, first: nat)
    requires Loose(w, lo, hi, bs, first)
    ensures var v := Visits(lo, bs, |bs| - 1);
      && v[0] == first
      && (forall b :: b in v <==> exists j :: 0 <= j < |bs| && !bs[j].used && At(lo, bs, j) == b)
      && (forall i, j :: 0 <= i < j < |v| ==> v[i] != v[j])
      && (forall i, j :: 1 <= i < j < |v| ==> v[i] < v[j])
  {
    hide Total, BlockOk;
    var n := |bs| - 1;
    VisitsFacts(w, lo, hi, bs, n);
    FreeStartsExact(lo, bs, n);
    var v, f := Visits(lo, bs, n), FreeStarts(lo, bs, n);
    forall b ensures b in v <==> exists j :: 0 <= j < |bs| && !bs[j].used && At(lo, bs, j) == b {
      assert b in v <==> b == v[0] || b in f;
      if j :| 0 <= j < |bs| && !bs[j].used && At(lo, bs, j) == b {
        assert j < n ==> b in f;
      }
    }
    forall i, j | 1 <= i < j < |v| ensures v[i] < v[j] {
      assert v[i] == f[i - 1] && v[j] == f[j - 1];
    }
  }

  /** The rebuild has threaded the free blocks among the first n and stands at block n. */
  ghost predicate Rebuilding(w: seq<nat>, v: seq<nat>, lo: nat, hi: nat, bs: seq<Blk>, first: nat, n: nat, cur: nat,
      prev: nat) {
    && Loose(v, lo, hi, bs, first) && OnlyLinks(w, v, lo, bs) && n < |bs| && cur == At(lo, bs, n)
    && Linked(v, Visits(lo, bs, n)) && prev == Visits(lo, bs, n)[|Visits(lo, bs, n)| - 1]
  }

  lemma RebuildStart(w: seq<nat>, lo: nat, hi: nat, bs: seq<Blk>, first: nat)
    requires Loose(w, lo, hi, bs, first)
    ensures Rebuilding(w, w, lo, hi, bs, first, 0, lo, first)
  {
    hide BlockOk;
    VisitsFacts(w, lo, hi, bs, 0);
  }

  lemma RebuildRead(w: seq<nat>, v: seq<nat>, lo: nat, hi: nat, bs: seq<Blk>, first: nat, n: nat, cur: nat, prev: nat)
    requires Rebuilding(w, v, lo, hi, bs, first, n, cur, prev)
    ensures cur + OVERHEAD <= hi <= |v| && v[cur] == bs[n].size && (v[cur + 2] != 0 <==> bs[n].used)
    ensures cur == first <==> n == |bs| - 1
    ensures prev + 1 < |v| && n < |bs|
  {
    hide Total;
    assert BlockOk(v, At(lo, bs, n), bs[n]);
    AtMono(lo, bs, n, |bs|);
    if n < |bs| - 1 {
      AtMono(lo, bs, n, |bs| - 1);
    }
    VisitsFacts(v, lo, hi, bs, n);
  }

  lemma RebuildSkip(w: seq<nat>, v: seq<nat>, lo: nat, hi: nat, bs: seq<Blk>, first: nat, n: nat, cur: nat, prev: nat)
    requires Rebuilding(w, v, lo, hi, bs, first, n, cur, prev) && bs[n].used
    ensures n + 1 < |bs| && Rebuilding(w, v, lo, hi, bs, first, n + 1, cur + bs[n].size + OVERHEAD, prev)
  {
    hide Total, BlockOk, Tiled, OnlyLinks;
    AtStep(lo, bs, n);
    assert Visits(lo, bs, n + 1) == Visits(lo, bs, n);
  }

  lemma RebuildLink(w: seq<nat>, v: seq<nat>, lo: nat, hi: nat, bs: seq<Blk>, first: nat, n: nat, cur: nat, prev: nat)
    requires Rebuilding(w, v, lo, hi, bs, first, n, cur, prev) && !bs[n].used && n < |bs| - 1
    ensures prev + 1 < |v|
    ensures Rebuilding(w, v[prev + 1 := cur], lo, hi, bs, first, n + 1, cur + bs[n].size + OVERHEAD, cur)
    ensures cur < |v| && v[prev + 1 := cur][cur] == bs[n].size
  {
    hide Total, BlockOk, Linked, FreeStarts;
    AtStep(lo, bs, n);
    LinkNext(v, lo, hi, bs, n);
    LinkWrite(w, v, lo, hi, bs, prev, cur);
    HeaderSize(v[prev + 1 := cur], lo, hi, bs, n);
  }

  lemma HeaderSize(v: seq<nat>, lo: nat, hi: nat, bs: seq<Blk>, n: nat)
    requires Tiled(v, lo, hi, bs) && n < |bs|
    ensures At(lo, bs, n) < |v| && v[At(lo, bs, n)] == bs[n].size
  {
    assert BlockOk(v, At(lo, bs, n), bs[n]);
  }

  lemma LinkWrite(w: seq<nat>, v: seq<nat>, lo: nat, hi: nat, bs: seq<Blk>, b: nat, x: nat)
    requires Tiled(v, lo, hi, bs) && OnlyLinks(w, v, lo, bs) && IsStart(lo, bs, b) && b + 1 < |v|
    ensures Tiled(v[b + 1 := x], lo, hi, bs) && OnlyLinks(w, v[b + 1 := x], lo, bs)
  {
    hide Total, BlockOk, IsStart;
    assert OnlyLinks(v, v[b + 1 := x], lo, bs);
    LinksKeepHeap(v, v[b + 1 := x], lo, hi, bs);
  }

  lemma RebuildEnd(w: seq<nat>, v: seq<nat>, lo: nat, hi: nat, bs: seq<Blk>, first: nat, n: nat, cur: nat, prev: nat)
    requires Rebuilding(w, v, lo, hi, bs, first, n, cur, prev) && n == |bs| - 1
    ensures prev + 1 < |v|
    ensures var u := v[prev + 1 := 0];
      Loose(u, lo, hi, bs, first) && ListOk(u, lo, bs) && OnlyLinks(w, u, lo, bs)
  {
    hide Total, BlockOk, FreeStarts;
    VisitsFacts(v, lo, hi, bs, n);
    EndChain(v, Visits(lo, bs, n));
    LinkWrite(w, v, lo, hi, bs, prev, 0);
  }

  /** The blocks in use, as pairs of start and size. */
  ghost function Live(lo: nat, bs: seq<Blk>): set<(nat, nat)> {
    set j | 0 <= j < |bs| && bs[j].used :: (At(lo, bs, j), bs[j].size)
  }

  /** The payload words of these blocks are unchanged. */
  ghost predicate Kept(live: set<(nat, nat)>, w: seq<nat>, v: seq<nat>) {
    |v| == |w| && forall p, x :: p in live && p.0 + 3 <= x < p.0 + 3 + p.1 && x < |w| ==> v[x] == w[x]
  }

  /** Freeing block k takes it, and only it, out of the live blocks. */
  lemma KeptWithout(w: seq<nat>, v: seq<nat>, lo: nat, bs: seq<Blk>, k: nat)
    requires k < |bs| && bs[k].used && PayloadsKept(w, v, lo, bs, k, 1)
    ensures var r := bs[k := Blk(bs[k].size, false)];
      Live(lo, r) == Live(lo, bs) - {(At(lo, bs, k), bs[k].size)} && Kept(Live(lo, r), w, v)
  {
    hide Total, At;
    var r := bs[k := Blk(bs[k].size, false)];
    forall j | 0 <= j < |bs| ensures At(lo, r, j) == At(lo, bs, j) {
      AtFlag(lo, bs, k, j);
    }
    forall j | 0 <= j < |bs| && j != k ensures At(lo, bs, j) != At(lo, bs, k) {
      RangesApart(lo, bs, j, k);
    }
    forall p, x | p in Live(lo, r) && p.0 + 3 <= x < p.0 + 3 + p.1 && x < |w| ensures v[x] == w[x] {
      var j :| 0 <= j < |r| && r[j].used && p == (At(lo, r, j), r[j].size);
      assert InPayload(lo, bs, j, x);
    }
    forall p | p in Live(lo, bs) && p != (At(lo, bs, k), bs[k].size) ensures p in Live(lo, r) {
      var j :| 0 <= j < |bs| && bs[j].used && p == (At(lo, bs, j), bs[j].size);
      assert r[j] == bs[j];
    }
  }

  lemma AtFlag(lo: nat, bs: seq<Blk>, k: nat, j: nat)
    requires k < |bs| && j <= |bs|
    ensures At(lo, bs[k := Blk(bs[k].size, false)], j) == At(lo, bs, j)
  {
    var mid := [Blk(bs[k].size, false)];
    TotalPair(mid[0], mid[0]);
    TotalPair(bs[k], bs[k]);
    assert bs[k..k + 1] == [bs[k]];
    assert Replace(bs, k, 1, mid) == bs[k := mid[0]];
    if j <= k {
      AtReplaceFront(lo, bs, k, 1, mid, j);
    } else {
      AtReplaceBack(lo, bs, k, 1, mid, j);
    }
  }

  /** Writes inside a run of free blocks disturb no payload. */
  lemma KeptAround(w: seq<nat>, v: seq<nat>, lo: nat, bs: seq<Blk>, k: nat, c: nat)
    requires PayloadsKept(w, v, lo, bs, k, c) && k + c <= |bs| && forall j :: k <= j < k + c ==> !bs[j].used
    ensures Kept(Live(lo, bs), w, v)
  {
    forall p, x | p in Live(lo, bs) && p.0 + 3 <= x < p.0 + 3 + p.1 && x < |w| ensures v[x] == w[x] {
      var j :| 0 <= j < |bs| && bs[j].used && p == (At(lo, bs, j), bs[j].size);
      assert InPayload(lo, bs, j, x);
    }
  }

  /** Replacing a run changes the live blocks only by those of the run. */
  lemma LiveReplace(lo: nat, bs: seq<Blk>, k: nat, c: nat, mid: seq<Blk>)
    requires k + c <= |bs| && Total(mid) == Total(bs[k..k + c])
    requires forall j :: k <= j < k + c ==> !bs[j].used
    ensures Live(lo, Replace(bs, k, c, mid)) == Live(lo, bs) + Live(At(lo, bs, k), mid)
  {
    hide Total, At, Replace;
    var r := Replace(bs, k, c, mid);
    forall j | 0 <= j < |bs| && bs[j].used ensures (At(lo, bs, j), bs[j].size) in Live(lo, r) {
      OldLive(lo, bs, k, c, mid, j);
    }
    forall i | 0 <= i < |mid| && mid[i].used ensures (At(At(lo, bs, k), mid, i), mid[i].size) in Live(lo, r) {
      MidLive(lo, bs, k, c, mid, i);
    }
    forall n | 0 <= n < |r| && r[n].used ensures (At(lo, r, n), r[n].size) in Live(lo, bs) + Live(At(lo, bs, k), mid) {
      NewLive(lo, bs, k, c, mid, n);
    }
  }

  lemma OldLive(lo: nat, bs: seq<Blk>, k: nat, c: nat, mid: seq<Blk>, j: nat)
    requires k + c <= |bs| && Total(mid) == Total(bs[k..k + c]) && j < |bs| && bs[j].used && !(k <= j < k + c)
    ensures (At(lo, bs, j), bs[j].size) in Live(lo, Replace(bs, k, c, mid))
  {
    hide Total, At;
    var r := Replace(bs, k, c, mid);
    if j < k {
      AtReplaceFront(lo, bs, k, c, mid, j);
      assert r[j] == bs[j];
    } else {
      AtReplaceBack(lo, bs, k, c, mid, j);
      assert r[j - c + |mid|] == bs[j];
    }
  }

  lemma MidLive(lo: nat, bs: seq<Blk>, k: nat, c: nat, mid: seq<Blk>, i: nat)
    requires k + c <= |bs| && i < |mid| && mid[i].used
    ensures (At(At(lo, bs, k), mid, i), mid[i].size) in Live(lo, Replace(bs, k, c, mid))
  {
    hide Total, At;
    AtMiddle(lo, bs, k, c, mid, i);
    assert Replace(bs, k, c, mid)[k + i] == mid[i];
  }

  lemma NewLive(lo: nat, bs: seq<Blk>, k: nat, c: nat, mid: seq<Blk>, n: nat)
    requires k + c <= |bs| && Total(mid) == Total(bs[k..k + c])
    requires n < |Replace(bs, k, c, mid)| && Replace(bs, k, c, mid)[n].used
    ensures (At(lo, Replace(bs, k, c, mid), n), Replace(bs, k, c, mid)[n].size) in Live(lo, bs) + Live(At(lo, bs, k),
      mid)
  {
    hide Total, At;
    var r := Replace(bs, k, c, mid);
    if n < k {
      AtReplaceFront(lo, bs, k, c, mid, n);
      assert r[n] == bs[n];
    } else if n < k + |mid| {
      AtMiddle(lo, bs, k, c, mid, n - k);
      assert r[n] == mid[n - k];
    } else {
      AtReplaceBack(lo, bs, k, c, mid, n - |mid| + c);
      assert r[n] == bs[n - |mid| + c];
    }
  }

  /** The tiling after freeing block k: it is joined with a free block before it and one behind it. */
  function Coalesce(bs: seq<Blk>, k: nat): seq<Blk>
    requires k < |bs|
  {
    if k > 0 && !bs[k - 1].used then JoinNext(Replace(bs, k - 1, 2, [Join(bs[k - 1], bs[k])]), k - 1)
    else JoinNext(bs, k)
  }

  function JoinNext(bs: seq<Blk>, k: nat): seq<Blk>
    requires k < |bs|
  {
    if k + 1 < |bs| && !bs[k + 1].used then Replace(bs, k, 2, [Join(bs[k], bs[k + 1])]) else bs
  }

  /** Apart from block k, no two neighbours are both free. */
  ghost predicate NoAdjacentBut(bs: seq<Blk>, k: nat) {
    forall j :: 0 <= j < |bs| - 1 && j != k && j + 1 != k ==> bs[j].used || bs[j + 1].used
  }

  lemma CoalesceClean(bs: seq<Blk>, k: nat)
    requires k < |bs| && NoAdjacentBut(bs, k)
    ensures NoAdjacentFree(Coalesce(bs, k))
  {
    if k > 0 && !bs[k - 1].used {
      var r := Replace(bs, k - 1, 2, [Join(bs[k - 1], bs[k])]);
      var i := k - 2;
      if i >= 0 {
        assert bs[i + 1].used || bs[i].used;
      }
      assert forall j :: 0 <= j < k - 1 ==> r[j] == bs[j];
      assert forall j :: k <= j < |r| ==> r[j] == bs[j + 1];
      assert NoAdjacentBut(r, k - 1);
      JoinNextClean(r, k - 1);
    } else {
      JoinNextClean(bs, k);
    }
  }

  lemma JoinNextClean(bs: seq<Blk>, k: nat)
    requires k < |bs| && NoAdjacentBut(bs, k) && (k > 0 ==> bs[k - 1].used)
    ensures NoAdjacentFree(JoinNext(bs, k))
  {
    if k + 1 < |bs| && !bs[k + 1].used {
      var r := Replace(bs, k, 2, [Join(bs[k], bs[k + 1])]);
      forall j | 0 <= j < |r| - 1 ensures r[j].used || r[j + 1].used {
        if j < k - 1 {
          assert r[j] == bs[j] && r[j + 1] == bs[j + 1];
        } else if j == k - 1 {
          assert r[j] == bs[k - 1];
        } else if j == k {
          assert r[j + 1] == bs[k + 2] && (bs[k + 1].used || bs[k + 1 + 1].used);
        } else {
          assert r[j] == bs[j + 1] && r[j + 1] == bs[j + 2] && (bs[j + 1].used || bs[j + 1 + 1].used);
        }
      }
    }
  }

  /** Joining free neighbours changes no live block and no payload. */
  lemma JoinLive(w: seq<nat>, lo: nat, hi: nat, bs: seq<Blk>, first: nat, k: nat)
    requires Loose(w, lo, hi, bs, first) && k + 1 < |bs| && !bs[k].used && !bs[k + 1].used
    requires At(lo, bs, k) + bs[k].size + bs[k + 1].size + 2 * OVERHEAD <= |w|
    ensures var v := JoinedWords(w, At(lo, bs, k), bs[k].size, bs[k + 1].size);
      Live(lo, Replace(bs, k, 2, [Join(bs[k], bs[k + 1])])) == Live(lo, bs) && Kept(Live(lo, bs), w, v)
  {
    hide Total, At, Tiled;
    var mid := [Join(bs[k], bs[k + 1])];
    JoinKeeps(w, lo, hi, bs, first, k);
    KeptAround(w, JoinedWords(w, At(lo, bs, k), bs[k].size, bs[k + 1].size), lo, bs, k, 2);
    TotalPair(bs[k], bs[k + 1]);
    TotalPair(mid[0], mid[0]);
    assert bs[k..k + 2] == [bs[k], bs[k + 1]];
    LiveReplace(lo, bs, k, 2, mid);
    assert Live(At(lo, bs, k), mid) == {};
  }

  /** A split adds the lower part to the live blocks and disturbs no payload. */
  lemma SplitLive(w: seq<nat>, v: seq<nat>, lo: nat, bs: seq<Blk>, k: nat, n: nat)
    requires k < |bs| && !bs[k].used && n + OVERHEAD <= bs[k].size && PayloadsKept(w, v, lo, bs, k, 1)
    ensures Live(lo, Replace(bs, k, 1, SplitInto(bs[k], n))) == Live(lo, bs) + {(At(lo, bs, k), n)}
    ensures Kept(Live(lo, bs), w, v)
  {
    hide Total;
    var mid := SplitInto(bs[k], n);
    KeptAround(w, v, lo, bs, k, 1);
    TotalPair(mid[0], mid[1]);
    TotalPair(bs[k], bs[k]);
    assert bs[k..k + 1] == [bs[k]] && mid[..0] == [];
    LiveReplace(lo, bs, k, 1, mid);
    var b := At(lo, bs, k);
    assert At(b, mid, 0) == b && mid[0].used;
    assert Live(b, mid) == {(b, n)};
  }

  lemma LinksLive(w: seq<nat>, v: seq<nat>, lo: nat, hi: nat, bs: seq<Blk>)
    requires Tiled(w, lo, hi, bs) && OnlyLinks(w, v, lo, bs)
    ensures Kept(Live(lo, bs), w, v)
  {
    LinksKeepHeap(w, v, lo, hi, bs);
    KeptAround(w, v, lo, bs, 0, 0);
  }

  lemma JoinSizes(w: seq<nat>, lo: nat, hi: nat, bs: seq<Blk>, first: nat, k: nat)
    requires Loose(w, lo, hi, bs, first) && k + 1 < |bs|
    ensures At(lo, bs, k + 1) == At(lo, bs, k) + bs[k].size + OVERHEAD
    ensures At(lo, bs, k + 1) + bs[k + 1].size + OVERHEAD <= hi <= |w|
    ensures w[At(lo, bs, k)] == bs[k].size && w[At(lo, bs, k + 1)] == bs[k + 1].size
  {
    JoinBounds(w, lo, hi, bs, k);
  }

  /** What the freed block's neighbours look like in memory. */
  lemma NeighbourTags(w: seq<nat>, lo: nat, hi: nat, bs: seq<Blk>, first: nat, k: nat)
    requires Loose(w, lo, hi, bs, first) && k + 1 < |bs|
    ensures var b, c := At(lo, bs, k), At(lo, bs, k + 1);
      && lo <= b && (b == lo <==> k == 0)
      && b < |w| && w[b] == bs[k].size && c == b + w[b] + OVERHEAD && c + 2 < hi <= |w|
      && (w[c + 2] == 0 <==> !bs[k + 1].used)
      && (k > 0 ==> b >= 2 && (w[b - 1] == 0 <==> !bs[k - 1].used) && b == At(lo, bs, k - 1) + w[b - 2] + OVERHEAD
                    && At(lo, bs, k - 1) > 0)
  {
    hide Total;
    JoinBounds(w, lo, hi, bs, k);
    if k > 0 {
      JoinBounds(w, lo, hi, bs, k - 1);
      AtMono(lo, bs, 0, k);
    }
    assert At(lo, bs, 0) == lo by { FirstAt(lo, bs); }
  }

  lemma FirstAt(lo: nat, bs: seq<Blk>)
    ensures At(lo, bs, 0) == lo
  {
  }

  lemma KeptRefl(live: set<(nat, nat)>, w: seq<nat>)
    ensures Kept(live, w, w)
  {
  }

  lemma KeptTrans(live: set<(nat, nat)>, w: seq<nat>, u: seq<nat>, v: seq<nat>)
    requires Kept(live, w, u) && Kept(live, u, v)
    ensures Kept(live, w, v)
  {
  }

  /** After joining with the block before it, the joined block is followed by the same block as before. */
  lemma JoinedFollower(lo: nat, bs: seq<Blk>, k: nat)
    requires 0 < k < |bs| - 1 && !bs[k - 1].used
    ensures var r := Replace(bs, k - 1, 2, [Join(bs[k - 1], bs[k])]);
      && |r| == |bs| - 1 && r[k] == bs[k + 1] && !r[k - 1].used && At(lo, r, k) == At(lo, bs, k + 1)
  {
    hide Total;
    var mid := [Join(bs[k - 1], bs[k])];
    TotalPair(bs[k - 1], bs[k]);
    TotalPair(mid[0], mid[0]);
    assert bs[k - 1..k - 1 + 2] == [bs[k - 1], bs[k]];
    AtReplaceBack(lo, bs, k - 1, 2, mid, k + 1);
  }

  lemma LinksLiveLoose(w: seq<nat>, v: seq<nat>, lo: nat, hi: nat, bs: seq<Blk>, first: nat)
    requires Loose(w, lo, hi, bs, first) && OnlyLinks(w, v, lo, bs)
    ensures Kept(Live(lo, bs), w, v)
  {
    LinksLive(w, v, lo, hi, bs);
  }

  /** The words after clearing the flags of the block at b and linking it behind a header. */
  function FreedWords(w: seq<nat>, b: nat, s: nat, prev: nat, next: nat): (v: seq<nat>)
    requires b + s + OVERHEAD <= |w| && prev + 1 < |w|
    ensures |v| == |w|
  {
    w[b + 2 := 0][b + s + 4 := 0][b + 1 := next][prev + 1 := b]
  }

  lemma FreedWrites(w: seq<nat>, lo: nat, hi: nat, bs: seq<Blk>, first: nat, k: nat, prev: nat, next: nat)
    requires HeapOk(w, lo, hi, bs, first) && k < |bs| && bs[k].used && prev != 0 && Cursor(lo, bs, prev)
    ensures var b, s := At(lo, bs, k), bs[k].size;
      && b + s + OVERHEAD <= hi <= |w| && prev + 1 < |w| && w[b] == s && k + 1 < |bs| && lo <= b
      && (var v := FreedWords(w, b, s, prev, next); var r := bs[k := Blk(s, false)];
          && Loose(v, lo, hi, r, first) && At(lo, r, k) == b && NoAdjacentBut(r, k)
          && Live(lo, r) == Live(lo, bs) - {(b, s)} && Kept(Live(lo, r), w, v))
  {
    hide Total;
    AtStep(lo, bs, k);
    AtMono(lo, bs, k, |bs|);
    var b, s := At(lo, bs, k), bs[k].size;
    assert BlockOk(w, b, bs[k]);
    var p :| 0 <= p < |bs| && At(lo, bs, p) == prev;
    AtMono(lo, bs, p, |bs|);
    if p != k {
      RangesApart(lo, bs, p, k);
    }
    var v := FreedWords(w, b, s, prev, next);
    FreeKeeps(w, v, lo, hi, bs, first, k, prev);
    KeptWithout(w, v, lo, bs, k);
  }

  lemma LastIsStart(w: seq<nat>, lo: nat, hi: nat, bs: seq<Blk>, first: nat)
    requires HeapOk(w, lo, hi, bs, first)
    ensures first > 0 && Cursor(lo, bs, first)
  {
  }

  /** Every block before the last is in use. */
  ghost predicate OnlyTopFree(bs: seq<Blk>) {
    forall j :: 0 <= j < |bs| - 1 ==> bs[j].used
  }

  lemma StartsApart(lo: nat, bs: seq<Blk>, i: nat, j: nat)
    requires i < |bs| && j < |bs|
    ensures At(lo, bs, i) == At(lo, bs, j) <==> i == j
  {
    hide Total;
    if i < j {
      AtMono(lo, bs, i, j);
    } else if j < i {
      AtMono(lo, bs, j, i);
    }
  }

  /** The last block visited is a block start; the head points on as soon as a free block was found. */
  lemma RebuildHead(w: seq<nat>, v: seq<nat>, lo: nat, hi: nat, bs: seq<Blk>, first: nat, n: nat, cur: nat, prev: nat)
    requires Rebuilding(w, v, lo, hi, bs, first, n, cur, prev)
    ensures IsStart(lo, bs, prev) && IsStart(lo, bs, first) && first + 1 < |v| && prev + 1 < |v|
    ensures FreeStarts(lo, bs, n) == [] ==> prev == first
    ensures FreeStarts(lo, bs, n) != [] ==> prev != first && v[first + 1] == FreeStarts(lo, bs, n)[0] != 0
  {
    hide BlockOk, Total;
    VisitsFacts(v, lo, hi, bs, n);
    var s := Visits(lo, bs, n);
    if FreeStarts(lo, bs, n) != [] {
      assert s[1] == FreeStarts(lo, bs, n)[0] && v[s[0] + 1] == s[1];
      assert IsStart(lo, bs, s[1]);
    }
  }

  lemma {:induction false} NoFreeStarts(lo: nat, bs: seq<Blk>, n: nat)
    requires n <= |bs|
    ensures FreeStarts(lo, bs, n) == [] <==> forall j :: 0 <= j < n ==> bs[j].used
  {
    if n > 0 {
      NoFreeStarts(lo, bs, n - 1);
    }
  }

  /** Where the rebuild has left the cursor after n blocks: behind the block it looks for, once that was found below
  the head. */
  ghost predicate CursorRebuilt(lo: nat, bs: seq<Blk>, n: nat, k: nat, before: nat, now: nat) {
    if k < n && k < |bs| - 1 then IsStart(lo, bs, now) else now == before
  }

  /** Where the rebuild for block k leaves the search position. With the head it moves on to the next free block, or,
  when there is none, to whatever the head linked to before. */
  ghost function NextCurrent(lo: nat, bs: seq<Blk>, k: nat, link: nat, before: nat): nat
    requires k < |bs|
  {
    var free := FreeStarts(lo, bs, |bs| - 1);
    if k < |bs| - 1 then At(lo, bs, k) else if free != [] then free[0] else if link != 0 then link else before
  }

  /** The search position after n blocks of the rebuild. */
  ghost predicate CurrentRebuilt(lo: nat, bs: seq<Blk>, n: nat, k: nat, before: nat, now: nat)
    requires k < |bs|
  {
    now == if k < n && k < |bs| - 1 then At(lo, bs, k) else before
  }

  /** The freed block k and its free neighbours become the only free block, the joined header ends the list, and the
  cursor is null, the old top block, or the freed block behind a free one: then the cursor points into the joined
  block. */
  ghost predicate CursorLost(w: seq<nat>, lo: nat, bs: seq<Blk>, k: nat, prev: nat)
    requires k + 1 < |bs|
  {
    var b, top := At(lo, bs, k), At(lo, bs, |bs| - 1);
    && k + 2 == |bs| && (forall j :: 0 <= j < k - 1 ==> bs[j].used)
    && (if k > 0 && !bs[k - 1].used
        then At(lo, bs, k - 1) + 1 < |w| && w[At(lo, bs, k - 1) + 1] == 0 && (prev == 0 || prev == top || prev == b)
        else (prev == 0 && b + 1 < |w| && w[b + 1] == 0) || (prev == top && top + 1 < |w| && w[top + 1] == 0))
  }
}
