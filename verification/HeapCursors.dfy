/** What freeing does to the heap's search cursor: when it stays on a block header and when it is left inside a block.
*/
module HeapCursors {
  import opened HeapBlocks

  lemma JoinTotal(bs: seq<Blk>, i: nat)
    requires i + 1 < |bs|
    ensures Total([Join(bs[i], bs[i + 1])]) == Total(bs[i..i + 2])
  {
    TotalPair(bs[i], bs[i + 1]);
    TotalPair(Join(bs[i], bs[i + 1]), bs[i]);
    assert bs[i..i + 2] == [bs[i], bs[i + 1]];
  }

  /** Joining a block with the next one takes the header of the next one, and no other, out of the block starts. */
  lemma JoinStarts(lo: nat, bs: seq<Blk>, i: nat, j: nat)
    requires i + 1 < |bs| && j < |bs|
    ensures IsStart(lo, Replace(bs, i, 2, [Join(bs[i], bs[i + 1])]), At(lo, bs, j)) <==> j != i + 1
  {
    hide Total, At;
    var mid := [Join(bs[i], bs[i + 1])];
    var r := Replace(bs, i, 2, mid);
    JoinTotal(bs, i);
    if j < i || i + 2 <= j {
      StartKept(lo, bs, i, 2, mid, j);
    } else if j == i {
      AtReplaceFront(lo, bs, i, 2, mid, i);
      assert At(lo, r, i) == At(lo, bs, i);
    } else {
      forall n | 0 <= n < |r| ensures At(lo, r, n) != At(lo, bs, i + 1) {
        JoinedStart(lo, bs, i, n);
      }
    }
  }

  lemma JoinedStart(lo: nat, bs: seq<Blk>, i: nat, n: nat)
    requires i + 1 < |bs| && n + 1 < |bs|
    ensures At(lo, Replace(bs, i, 2, [Join(bs[i], bs[i + 1])]), n) != At(lo, bs, i + 1)
  {
    hide Total, At;
    var mid := [Join(bs[i], bs[i + 1])];
    JoinTotal(bs, i);
    if n <= i {
      AtReplaceFront(lo, bs, i, 2, mid, n);
      StartsApart(lo, bs, n, i + 1);
    } else {
      AtReplaceBack(lo, bs, i, 2, mid, n + 1);
      StartsApart(lo, bs, n + 1, i + 1);
    }
  }

  /** The number of the block that the freed block k becomes part of. */
  function Host(bs: seq<Blk>, k: nat): nat
    requires k < |bs|
  {
    if k > 0 && !bs[k - 1].used then k - 1 else k
  }

  /** Block j loses its header when block k is merged. */
  predicate Absorbed(bs: seq<Blk>, k: nat, j: nat)
    requires k + 1 < |bs|
  {
    (j == k && Host(bs, k) != k) || (j == k + 1 && !bs[k + 1].used)
  }

  /** Merging takes exactly the absorbed headers out of the block starts. */
  lemma CoalesceStarts(lo: nat, bs: seq<Blk>, k: nat, j: nat)
    requires k + 1 < |bs| && !bs[k].used && j < |bs|
    ensures IsStart(lo, Coalesce(bs, k), At(lo, bs, j)) <==> !Absorbed(bs, k, j)
  {
    hide Total, At, IsStart;
    if Host(bs, k) != k {
      var mid := [Join(bs[k - 1], bs[k])];
      var r := Replace(bs, k - 1, 2, mid);
      JoinTotal(bs, k - 1);
      JoinStarts(lo, bs, k - 1, j);
      assert r[k] == bs[k + 1];
      if j < k {
        AtReplaceFront(lo, bs, k - 1, 2, mid, j);
        NextStarts(lo, r, k - 1, j);
      } else if j > k {
        AtReplaceBack(lo, bs, k - 1, 2, mid, j);
        NextStarts(lo, r, k - 1, j - 1);
      } else {
        GoneStays(lo, bs, k);
      }
    } else {
      NextStarts(lo, bs, k, j);
    }
  }

  lemma NextStarts(lo: nat, bs: seq<Blk>, k: nat, j: nat)
    requires k + 1 < |bs| && j < |bs|
    ensures IsStart(lo, JoinNext(bs, k), At(lo, bs, j)) <==> !(j == k + 1 && !bs[k + 1].used)
  {
    if !bs[k + 1].used {
      JoinStarts(lo, bs, k, j);
    }
  }

  /** The header of the freed block is inside the joined block, whether or not the next block joins too. */
  lemma GoneStays(lo: nat, bs: seq<Blk>, k: nat)
    requires 0 < k && k + 1 < |bs|
    ensures !IsStart(lo, JoinNext(Replace(bs, k - 1, 2, [Join(bs[k - 1], bs[k])]), k - 1), At(lo, bs, k))
  {
    hide Total, At;
    var r := Replace(bs, k - 1, 2, [Join(bs[k - 1], bs[k])]);
    var t := JoinNext(r, k - 1);
    forall n | 0 <= n < |t| ensures At(lo, t, n) != At(lo, bs, k) {
      if t == r {
        JoinedStart(lo, bs, k - 1, n);
      } else {
        JoinTotal(r, k - 1);
        if n <= k - 1 {
          AtReplaceFront(lo, r, k - 1, 2, [Join(r[k - 1], r[k])], n);
          JoinedStart(lo, bs, k - 1, n);
        } else {
          AtReplaceBack(lo, r, k - 1, 2, [Join(r[k - 1], r[k])], n + 1);
          JoinedStart(lo, bs, k - 1, n + 1);
        }
      }
    }
  }

  /** The merged block is the only free one left and its header ends the list: the rebuild then leaves the cursor
  alone. */
  ghost predicate CursorStays(w: seq<nat>, lo: nat, bs: seq<Blk>, k: nat)
    requires k + 1 < |bs|
  {
    && k + 2 == |bs| && (forall j :: 0 <= j < Host(bs, k) ==> bs[j].used)
    && At(lo, bs, Host(bs, k)) + 1 < |w| && w[At(lo, bs, Host(bs, k)) + 1] == 0
  }

  /** What merging means for the numbers: the host is the last block, or the only free one, exactly in these cases. */
  lemma HostIsTop(bs: seq<Blk>, k: nat)
    requires k + 1 < |bs| && !bs[k].used && !bs[|bs| - 1].used && |Coalesce(bs, k)| < |bs|
    ensures var r, i := Coalesce(bs, k), Host(bs, k);
      && i < |r| && !r[i].used && (i == |r| - 1 <==> k + 2 == |bs|)
      && (i == |r| - 1 ==> (OnlyTopFree(r) <==> forall j :: 0 <= j < i ==> bs[j].used))
  {
    var r, i := Coalesce(bs, k), Host(bs, k);
    assert forall j :: 0 <= j < i ==> r[j] == bs[j];
  }

  /** The next pointer of a header after the freed block b was put behind the cursor. */
  lemma FreedLink(w: seq<nat>, lo: nat, hi: nat, bs: seq<Blk>, k: nat, p: nat, next: nat, j: nat)
    requires Tiled(w, lo, hi, bs) && k < |bs| && p < |bs| && j < |bs|
    ensures var b, s, prev := At(lo, bs, k), bs[k].size, At(lo, bs, p);
      && b + s + OVERHEAD <= |w| && prev + 1 < |w| && At(lo, bs, j) + 1 < |w|
      && FreedWords(w, b, s, prev, next)[At(lo, bs, j) + 1] == if j == p then b else if j == k then next
          else w[At(lo, bs, j) + 1]
  {
    hide Total;
    assert BlockOk(w, At(lo, bs, k), bs[k]) && BlockOk(w, At(lo, bs, p), bs[p]) && BlockOk(w, At(lo, bs, j), bs[j]);
    StartsApart(lo, bs, j, p);
    if j != k {
      RangesApart(lo, bs, j, k);
    }
  }

  /** The cursor is lost exactly when the rebuild leaves it alone on a header that is absorbed. */
  lemma LostIff(w: seq<nat>, lo: nat, hi: nat, bs: seq<Blk>, first: nat, k: nat, before: nat, p: nat)
    requires HeapOk(w, lo, hi, bs, first) && k + 1 < |bs| && bs[k].used && p < |bs|
    requires Cursor(lo, bs, before) && At(lo, bs, p) == (if before != 0 then before else first)
    ensures var b, s, prev := At(lo, bs, k), bs[k].size, At(lo, bs, p);
      && b + s + OVERHEAD <= |w| && prev + 1 < |w| && b + 1 < |w|
      && (var next := if before != 0 then w[prev + 1] else w[b + 1];
          CursorLost(w, lo, bs, k, before) <==>
            CursorStays(FreedWords(w, b, s, prev, next), lo, bs[k := Blk(s, false)], k) && Absorbed(bs[k := Blk(s,
                false)], k, p))
  {
    hide Total, At, FreedWords, BlockOk;
    var b, prev, r := At(lo, bs, k), At(lo, bs, p), bs[k := Blk(bs[k].size, false)];
    FreedLink(w, lo, hi, bs, k, p, 0, k);
    var next := if before != 0 then w[prev + 1] else w[b + 1];
    var i := Host(r, k);
    FreedLink(w, lo, hi, bs, k, p, next, i);
    AtFlag(lo, bs, k, i);
    StartsApart(lo, bs, p, k);
    StartsApart(lo, bs, p, |bs| - 1);
    StartPositive(lo, bs, k);
    StartPositive(lo, bs, p);
    forall j | 0 <= j < i ensures r[j] == bs[j] {
    }
  }

  lemma StartPositive(lo: nat, bs: seq<Blk>, k: nat)
    requires lo > 0 && k <= |bs|
    ensures At(lo, bs, k) > 0
  {
  }

  /** The cursor after a free, from where the merge leaves it. */
  lemma CursorAfterFree(w: seq<nat>, lo: nat, hi: nat, bs: seq<Blk>, first: nat, k: nat, before: nat, prev: nat,
      now: nat)
    requires HeapOk(w, lo, hi, bs, first) && k + 1 < |bs| && bs[k].used && Cursor(lo, bs, before)
    requires prev == (if before != 0 then before else first)
    requires At(lo, bs, k) + bs[k].size + OVERHEAD <= |w| && prev + 1 < |w|
    requires var b, s, r := At(lo, bs, k), bs[k].size, bs[k := Blk(bs[k].size, false)];
      var v := FreedWords(w, b, s, prev, if before != 0 then w[prev + 1] else w[b + 1]);
      if Coalesce(r, k) == r || CursorStays(v, lo, r, k) then now == prev else IsStart(lo, Coalesce(r, k), now)
    ensures var r := bs[k := Blk(bs[k].size, false)];
      && (Cursor(lo, Coalesce(r, k), now) <==> !CursorLost(w, lo, bs, k, before))
      && (!Cursor(lo, Coalesce(r, k), now) ==>
            now == prev && exists j :: 0 <= j < |r| && Absorbed(r, k, j) && At(lo, r, j) == now)
  {
    hide Total, At, FreedWords, BlockOk, CursorStays, CursorLost, Coalesce;
    var r := bs[k := Blk(bs[k].size, false)];
    assert IsStart(lo, bs, prev);
    var p: nat :| p < |bs| && At(lo, bs, p) == prev;
    LostIff(w, lo, hi, bs, first, k, before, p);
    AtFlag(lo, bs, k, p);
    CoalesceStarts(lo, r, k, p);
    StartPositive(lo, r, p);
    if Coalesce(r, k) == r {
      assert IsStart(lo, r, prev);
      assert !Absorbed(r, k, p);
    }
  }

  // Writing a single word of the heap, as a lost cursor makes the code do.

  /** The word x is a size of block j, in its header or its footer. */
  ghost predicate SizeAt(lo: nat, bs: seq<Blk>, j: nat, x: nat) {
    j < |bs| && var b, s := At(lo, bs, j), bs[j].size; x == b || x == b + s + 3
  }

  ghost predicate FlagAt(lo: nat, bs: seq<Blk>, j: nat, x: nat) {
    j < |bs| && var b, s := At(lo, bs, j), bs[j].size; x == b + 2 || x == b + s + 4
  }

  /** The value c at x contradicts a tag of block j: another size, or the wrong flag. */
  ghost predicate Spoils(lo: nat, bs: seq<Blk>, j: nat, x: nat, c: nat) {
    (SizeAt(lo, bs, j, x) && bs[j].size != c) || (FlagAt(lo, bs, j, x) && (bs[j].used <==> c == 0))
  }

  /** Writing c at x spoils a tag. */
  ghost predicate Harms(lo: nat, bs: seq<Blk>, x: nat, c: nat) {
    exists j: nat :: j < |bs| && Spoils(lo, bs, j, x, c)
  }

  lemma TagHolds(w: seq<nat>, lo: nat, hi: nat, bs: seq<Blk>, j: nat, x: nat)
    requires Tiled(w, lo, hi, bs) && j < |bs|
    ensures SizeAt(lo, bs, j, x) || FlagAt(lo, bs, j, x) ==> x < |w| && !Spoils(lo, bs, j, x, w[x])
  {
    assert BlockOk(w, At(lo, bs, j), bs[j]);
  }

  /** One word written leaves the heap tiled exactly unless it spoils a tag. */
  lemma PokeTiled(w: seq<nat>, lo: nat, hi: nat, bs: seq<Blk>, x: nat, c: nat)
    requires Tiled(w, lo, hi, bs) && x < |w|
    ensures Tiled(w[x := c], lo, hi, bs) <==> !Harms(lo, bs, x, c)
  {
    hide At, Total;
    if Harms(lo, bs, x, c) {
      var j: nat :| j < |bs| && Spoils(lo, bs, j, x, c);
      if Tiled(w[x := c], lo, hi, bs) {
        TagHolds(w[x := c], lo, hi, bs, j, x);
      }
    } else {
      forall j | 0 <= j < |bs| ensures BlockOk(w[x := c], At(lo, bs, j), bs[j]) {
        assert BlockOk(w, At(lo, bs, j), bs[j]) && !Spoils(lo, bs, j, x, c);
      }
    }
  }

  /** The word x belongs to the payload of one of these blocks. */
  ghost predicate InLive(live: set<(nat, nat)>, x: nat) {
    exists p :: p in live && p.0 + 3 <= x < p.0 + 3 + p.1
  }

  /** ...and leaves the payloads as they were in w exactly unless it lies in one and held something else. */
  lemma PokeKept(live: set<(nat, nat)>, w: seq<nat>, v: seq<nat>, x: nat, c: nat)
    requires Kept(live, w, v) && x < |w|
    ensures Kept(live, w, v[x := c]) <==> !(InLive(live, x) && w[x] != c)
  {
  }

  /** The link word of a header is no tag and in no payload. */
  lemma LinkIsSafe(w: seq<nat>, lo: nat, hi: nat, bs: seq<Blk>, p: nat, c: nat)
    requires Tiled(w, lo, hi, bs) && p < |bs|
    ensures !Harms(lo, bs, At(lo, bs, p) + 1, c) && !InLive(Live(lo, bs), At(lo, bs, p) + 1) && At(lo, bs, p) + 1 < |w|
  {
    hide Total, At;
    var x := At(lo, bs, p) + 1;
    assert BlockOk(w, At(lo, bs, p), bs[p]);
    forall j | 0 <= j < |bs| && j != p ensures !(At(lo, bs, j) <= x < At(lo, bs, j) + bs[j].size + OVERHEAD) {
      RangesApart(lo, bs, j, p);
    }
    forall q | q in Live(lo, bs) ensures !(q.0 + 3 <= x < q.0 + 3 + q.1) {
      var j :| 0 <= j < |bs| && bs[j].used && q == (At(lo, bs, j), bs[j].size);
    }
  }

  /** The five words a split writes for the block it gives away. */
  predicate OwnWord(b: nat, n: nat, x: nat) {
    b <= x < b + 3 || x == b + n + 3 || x == b + n + 4
  }

  /** The link write of a split through the cursor word x spoils a tag: a size of a block other than the one given
  away that is neither null nor the address written. Flags are safe: a null one is not overwritten, and any other
  stays set. */
  ghost predicate SplitHarms(lo: nat, bs: seq<Blk>, k: nat, x: nat, c: nat) {
    exists j: nat :: j != k && SizeAt(lo, bs, j, x) && bs[j].size !in {0, c}
  }

  /** Between the two tag writes of a split the link word is read and overwritten; only the words not tagged again
  after it keep the link. */
  lemma LinkBetween(u: seq<nat>, b: nat, n: nat, x: nat, c: nat)
    requires b + n + OVERHEAD <= |u| && x < |u|
    ensures var v := Tagged(u, b, Blk(n, true), 0);
      Tagged(if u[x] != 0 then u[x := c] else u, b, Blk(n, true), 0)
      == if OwnWord(b, n, x) || v[x] == 0 then v else v[x := c]
  {
  }

  /** The heap after a split is valid exactly unless the link write harms it. */
  lemma SplitLinked(w: seq<nat>, lo: nat, hi: nat, bs: seq<Blk>, first: nat, k: nat, x: nat, c: nat)
    requires HeapOk(w, lo, hi, bs, first) && k < |bs| && x < |w| && c > 0
    ensures var v := if OwnWord(At(lo, bs, k), bs[k].size, x) || w[x] == 0 then w else w[x := c];
      HeapOk(v, lo, hi, bs, first) <==> !SplitHarms(lo, bs, k, x, c)
  {
    hide Total, At;
    PokeTiled(w, lo, hi, bs, x, c);
    forall j: nat | j < |bs|
      ensures SizeAt(lo, bs, j, x) || FlagAt(lo, bs, j, x) ==> !Spoils(lo, bs, j, x, w[x])
    {
      TagHolds(w, lo, hi, bs, j, x);
    }
    if OwnWord(At(lo, bs, k), bs[k].size, x) {
      forall j: nat | j < |bs| && j != k ensures !SizeAt(lo, bs, j, x) {
        RangesApart(lo, bs, j, k);
      }
    }
  }

  /** With a null word behind the cursor only the tags of the new free block can be hit: its header size and its
  footer size. */
  lemma ClearedHarm(w: seq<nat>, lo: nat, hi: nat, bs: seq<Blk>, k: nat, n: nat, x: nat)
    requires Tiled(w, lo, hi, bs) && k < |bs| && n + OVERHEAD < bs[k].size && x < |w| && w[x] == 0
    ensures var split, rest := At(lo, bs, k) + n + OVERHEAD, bs[k].size - n - OVERHEAD;
      var r := Replace(bs, k, 1, SplitInto(bs[k], n));
      SplitHarms(lo, r, k, x, split) <==> (x == split || x == split + rest + 3) && split != rest
  {
    hide Total, At;
    var mid := SplitInto(bs[k], n);
    var split, rest, r := At(lo, bs, k) + n + OVERHEAD, bs[k].size - n - OVERHEAD, Replace(bs, k, 1, mid);
    SplitStarts(lo, bs, k, n);
    forall j: nat | j < |r| && j != k && j != k + 1 && SizeAt(lo, r, j, x) ensures r[j].size == 0 {
      var i := if j < k then j else j - 1;
      SplitOther(lo, bs, k, n, j);
      TagHolds(w, lo, hi, bs, i, x);
    }
    if (x == split || x == split + rest + 3) && split != rest {
      assert SizeAt(lo, r, k + 1, x) && r[k + 1].size == rest;
    }
  }

  lemma SplitTotal(bs: seq<Blk>, k: nat, n: nat)
    requires k < |bs| && n + OVERHEAD <= bs[k].size
    ensures Total(SplitInto(bs[k], n)) == Total(bs[k..k + 1])
  {
    var mid := SplitInto(bs[k], n);
    TotalPair(mid[0], mid[1]);
    TotalPair(bs[k], bs[k]);
    assert bs[k..k + 1] == [bs[k]];
  }

  lemma SplitStarts(lo: nat, bs: seq<Blk>, k: nat, n: nat)
    requires k < |bs| && n + OVERHEAD <= bs[k].size
    ensures var r := Replace(bs, k, 1, SplitInto(bs[k], n));
      && |r| == |bs| + 1 && At(lo, r, k) == At(lo, bs, k) && At(lo, r, k + 1) == At(lo, bs, k) + n + OVERHEAD
      && r[k] == Blk(n, true) && r[k + 1] == Blk(bs[k].size - n - OVERHEAD, false)
  {
    hide Total;
    var mid := SplitInto(bs[k], n);
    AtReplaceFront(lo, bs, k, 1, mid, k);
    AtStep(lo, Replace(bs, k, 1, mid), k);
  }

  lemma SplitOther(lo: nat, bs: seq<Blk>, k: nat, n: nat, j: nat)
    requires k < |bs| && n + OVERHEAD <= bs[k].size && j <= |bs| && j != k && j != k + 1
    ensures var r, i := Replace(bs, k, 1, SplitInto(bs[k], n)), if j < k then j else j - 1;
      r[j] == bs[i] && At(lo, r, j) == At(lo, bs, i)
  {
    hide Total, At;
    var mid := SplitInto(bs[k], n);
    SplitTotal(bs, k, n);
    if j < k {
      AtReplaceFront(lo, bs, k, 1, mid, j);
    } else {
      AtReplaceBack(lo, bs, k, 1, mid, j - 1);
    }
  }

  /** A cursor on a header never harms a split, and never reaches a payload. */
  lemma StartNeverHarms(w: seq<nat>, v: seq<nat>, lo: nat, hi: nat, bs: seq<Blk>, k: nat, n: nat, prev: nat, c: nat)
    requires Tiled(w, lo, hi, bs) && k < |bs| && n + OVERHEAD <= bs[k].size && IsStart(lo, bs, prev)
    requires Tiled(v, lo, hi, Replace(bs, k, 1, SplitInto(bs[k], n)))
    ensures !SplitHarms(lo, Replace(bs, k, 1, SplitInto(bs[k], n)), k, prev + 1, c)
    ensures !InLive(Live(lo, bs), prev + 1) && prev + 1 < |w|
  {
    hide Total, At, Tiled;
    var r := Replace(bs, k, 1, SplitInto(bs[k], n));
    var p: nat :| p < |bs| && At(lo, bs, p) == prev;
    LinkIsSafe(w, lo, hi, bs, p, c);
    if p == k {
      SplitStarts(lo, bs, k, n);
      LinkIsSafe(v, lo, hi, r, k, c);
      HarmsMore(lo, r, k, prev + 1, c);
    } else {
      var j := if p < k then p else p + 1;
      SplitOther(lo, bs, k, n, j);
      LinkIsSafe(v, lo, hi, r, j, c);
      HarmsMore(lo, r, k, prev + 1, c);
    }
  }

  lemma HarmsMore(lo: nat, bs: seq<Blk>, k: nat, x: nat, c: nat)
    requires !Harms(lo, bs, x, c)
    ensures !SplitHarms(lo, bs, k, x, c)
  {
    if SplitHarms(lo, bs, k, x, c) {
      var j: nat :| j != k && SizeAt(lo, bs, j, x) && bs[j].size !in {0, c};
      assert Spoils(lo, bs, j, x, c);
    }
  }

  // Freeing through a lost cursor.

  /** The words of a free before the link behind the cursor is written. */
  function Unlinked(w: seq<nat>, b: nat, s: nat, next: nat): (v: seq<nat>)
    requires b + s + OVERHEAD <= |w|
    ensures |v| == |w|
  {
    w[b + 2 := 0][b + s + 4 := 0][b + 1 := next]
  }

  lemma FreedByLink(w: seq<nat>, b: nat, s: nat, prev: nat, next: nat)
    requires b + s + OVERHEAD <= |w| && prev + 1 < |w|
    ensures Unlinked(w, b, s, next)[prev + 1 := b] == FreedWords(w, b, s, prev, next)
  {
  }

  lemma UnlinkedKeeps(w: seq<nat>, lo: nat, hi: nat, bs: seq<Blk>, first: nat, k: nat, next: nat)
    requires HeapOk(w, lo, hi, bs, first) && k < |bs| && bs[k].used
    ensures var b, s, r := At(lo, bs, k), bs[k].size, bs[k := Blk(bs[k].size, false)];
      && b + s + OVERHEAD <= hi <= |w| && w[b] == s && k + 1 < |bs|
      && Loose(Unlinked(w, b, s, next), lo, hi, r, first) && At(lo, r, k) == b && NoAdjacentBut(r, k)
      && Live(lo, r) == Live(lo, bs) - {(b, s)} && Kept(Live(lo, r), w, Unlinked(w, b, s, next))
  {
    hide Total;
    AtStep(lo, bs, k);
    AtMono(lo, bs, k, |bs|);
    var b, s := At(lo, bs, k), bs[k].size;
    assert BlockOk(w, b, bs[k]);
    var v := Unlinked(w, b, s, next);
    FreeKeeps(w, v, lo, hi, bs, first, k, 0);
    KeptWithout(w, v, lo, bs, k);
  }

  /** A cursor on a header never harms a free. */
  lemma FreeNeverHarms(w: seq<nat>, lo: nat, hi: nat, bs: seq<Blk>, first: nat, k: nat, prev: nat, c: nat)
    requires HeapOk(w, lo, hi, bs, first) && k < |bs| && bs[k].used && IsStart(lo, bs, prev)
    ensures var r := bs[k := Blk(bs[k].size, false)];
      !Harms(lo, r, prev + 1, c) && !InLive(Live(lo, r), prev + 1) && prev + 1 < |w| && IsStart(lo, r, prev)
  {
    hide Total, At, Harms, InLive, Live;
    var r := bs[k := Blk(bs[k].size, false)];
    UnlinkedKeeps(w, lo, hi, bs, first, k, 0);
    var p: nat :| p < |bs| && At(lo, bs, p) == prev;
    AtFlag(lo, bs, k, p);
    LinkIsSafe(Unlinked(w, At(lo, bs, k), bs[k].size, 0), lo, hi, r, p, c);
  }

  /** The heap and the payloads after the link of a free is written. */
  lemma FreeLinked(w: seq<nat>, lo: nat, hi: nat, bs: seq<Blk>, first: nat, k: nat, next: nat, x: nat)
    requires HeapOk(w, lo, hi, bs, first) && k < |bs| && bs[k].used && x < |w|
    ensures var b, s, r := At(lo, bs, k), bs[k].size, bs[k := Blk(bs[k].size, false)];
      && b + s + OVERHEAD <= |w|
      && (Loose(Unlinked(w, b, s, next)[x := b], lo, hi, r, first) <==> !Harms(lo, r, x, b))
      && (Kept(Live(lo, r), w, Unlinked(w, b, s, next)[x := b]) <==> !(InLive(Live(lo, r), x) && w[x] != b))
  {
    hide Total, At, Harms, InLive, Live, Kept, Unlinked;
    UnlinkedKeeps(w, lo, hi, bs, first, k, next);
    var b, s, r := At(lo, bs, k), bs[k].size, bs[k := Blk(bs[k].size, false)];
    PokeTiled(Unlinked(w, b, s, next), lo, hi, r, x, b);
    PokeKept(Live(lo, r), w, Unlinked(w, b, s, next), x, b);
  }

  lemma JoinedFrom(lo: nat, bs: seq<Blk>, i: nat, x: nat)
    requires i + 1 < |bs| && IsStart(lo, Replace(bs, i, 2, [Join(bs[i], bs[i + 1])]), x)
    ensures IsStart(lo, bs, x)
  {
    hide Total, At;
    var mid := [Join(bs[i], bs[i + 1])];
    var r := Replace(bs, i, 2, mid);
    var n: nat :| n < |r| && At(lo, r, n) == x;
    JoinTotal(bs, i);
    if n <= i {
      AtReplaceFront(lo, bs, i, 2, mid, n);
    } else {
      AtReplaceBack(lo, bs, i, 2, mid, n + 1);
    }
  }

  /** Merging makes no new block starts. */
  lemma CoalesceFrom(lo: nat, bs: seq<Blk>, k: nat, x: nat)
    requires k + 1 < |bs| && IsStart(lo, Coalesce(bs, k), x)
    ensures IsStart(lo, bs, x)
  {
    hide IsStart;
    if Host(bs, k) != k {
      var r := Replace(bs, k - 1, 2, [Join(bs[k - 1], bs[k])]);
      if !r[k].used {
        JoinedFrom(lo, r, k - 1, x);
      }
      JoinedFrom(lo, bs, k - 1, x);
    } else if !bs[k + 1].used {
      JoinedFrom(lo, bs, k, x);
    }
  }

  /** A lost cursor stays lost: the freed block and its free neighbours become the only free block, and the joined
  header, which takes over the word behind the cursor when it is the freed block's own, ends the list. */
  ghost predicate StaysLost(w: seq<nat>, lo: nat, bs: seq<Blk>, k: nat, x: nat)
    requires k + 1 < |bs| && x < |w|
  {
    && k + 2 == |bs| && (forall j :: 0 <= j < k - 1 ==> bs[j].used)
    && (if k > 0 && !bs[k - 1].used then At(lo, bs, k - 1) + 1 < |w| && w[At(lo, bs, k - 1) + 1] == 0 else w[x] == 0)
  }

  /** The cursor after a free through a lost one: it is on a header again exactly when something was joined and the
  rebuild did not leave it alone. */
  lemma LostAfterFree(w: seq<nat>, lo: nat, hi: nat, bs: seq<Blk>, first: nat, k: nat, sp: nat, now: nat)
    requires HeapOk(w, lo, hi, bs, first) && k + 1 < |bs| && bs[k].used && !Cursor(lo, bs, sp) && sp + 1 < |w|
    requires At(lo, bs, k) + bs[k].size + OVERHEAD <= |w| && sp + 1 != At(lo, bs, k) + 2
    requires sp + 1 != At(lo, bs, k) + bs[k].size + 4
    requires var b, s, r := At(lo, bs, k), bs[k].size, bs[k := Blk(bs[k].size, false)];
      var v := FreedWords(w, b, s, sp, w[sp + 1]);
      if Coalesce(r, k) == r || CursorStays(v, lo, r, k) then now == sp else IsStart(lo, Coalesce(r, k), now)
    ensures var r := bs[k := Blk(bs[k].size, false)];
      Cursor(lo, Coalesce(r, k), now) <==> !(Coalesce(r, k) == r || StaysLost(w, lo, bs, k, sp + 1))
  {
    hide Total, At, Coalesce, IsStart, FreedWords;
    var b, s, r := At(lo, bs, k), bs[k].size, bs[k := Blk(bs[k].size, false)];
    LostFlag(lo, bs, k, sp);
    if IsStart(lo, Coalesce(r, k), sp) {
      CoalesceFrom(lo, r, k, sp);
    }
    LostStays(w, lo, hi, bs, first, k, sp);
  }

  lemma LostFlag(lo: nat, bs: seq<Blk>, k: nat, sp: nat)
    requires k < |bs| && !Cursor(lo, bs, sp)
    ensures sp != 0 && !IsStart(lo, bs[k := Blk(bs[k].size, false)], sp) && sp != At(lo, bs, k)
  {
    hide Total, At;
    var r := bs[k := Blk(bs[k].size, false)];
    forall p | 0 <= p < |r| ensures At(lo, r, p) != sp {
      AtFlag(lo, bs, k, p);
      assert At(lo, bs, p) == sp ==> IsStart(lo, bs, sp);
    }
    assert sp == At(lo, bs, k) ==> IsStart(lo, bs, sp);
  }

  lemma LostStays(w: seq<nat>, lo: nat, hi: nat, bs: seq<Blk>, first: nat, k: nat, sp: nat)
    requires HeapOk(w, lo, hi, bs, first) && k + 1 < |bs| && bs[k].used && !Cursor(lo, bs, sp) && sp + 1 < |w|
    requires At(lo, bs, k) + bs[k].size + OVERHEAD <= |w|
    ensures var b, s, r := At(lo, bs, k), bs[k].size, bs[k := Blk(bs[k].size, false)];
      CursorStays(FreedWords(w, b, s, sp, w[sp + 1]), lo, r, k) <==> StaysLost(w, lo, bs, k, sp + 1)
  {
    hide Total, At;
    var b, s, r := At(lo, bs, k), bs[k].size, bs[k := Blk(bs[k].size, false)];
    var i := Host(r, k);
    AtFlag(lo, bs, k, i);
    assert BlockOk(w, At(lo, bs, i), bs[i]) && BlockOk(w, b, bs[k]);
    assert IsStart(lo, bs, At(lo, bs, i));
    if i != k {
      RangesApart(lo, bs, i, k);
    }
    forall j | 0 <= j < i ensures r[j] == bs[j] {
    }
  }

  // The search position after a free.

  /** What the header of the joined block links to once the freed block k was put behind the cursor, or behind the
  head when the cursor is null. */
  ghost function HostLink(w: seq<nat>, lo: nat, bs: seq<Blk>, first: nat, k: nat, before: nat): nat
    requires k < |bs| && bs[k].used
  {
    var i, prev := Host(bs, k), if before != 0 then before else first;
    if At(lo, bs, i) == prev then At(lo, bs, k)
    else
      var from := if i != k then At(lo, bs, i) else if before != 0 then before else At(lo, bs, k);
      if from + 1 < |w| then w[from + 1] else 0
  }

  lemma HostLinkHolds(w: seq<nat>, lo: nat, hi: nat, bs: seq<Blk>, first: nat, k: nat, before: nat)
    requires HeapOk(w, lo, hi, bs, first) && k < |bs| && bs[k].used && (if before != 0 then before else first) + 1 < |w|
    ensures var b, s, i, prev := At(lo, bs, k), bs[k].size, Host(bs, k), if before != 0 then before else first;
      && b + s + OVERHEAD <= |w| && At(lo, bs, i) + 1 < |w|
      && FreedWords(w, b, s, prev, if before != 0 then w[prev + 1] else w[b + 1])[At(lo, bs, i) + 1]
        == HostLink(w, lo, bs, first, k, before)
  {
    hide Total, At;
    var i := Host(bs, k);
    assert BlockOk(w, At(lo, bs, k), bs[k]) && BlockOk(w, At(lo, bs, i), bs[i]);
    if i != k {
      RangesApart(lo, bs, i, k);
    }
  }

  /** The header of a free block. */
  ghost predicate IsFree(lo: nat, bs: seq<Blk>, b: nat) {
    exists j :: 0 <= j < |bs| && !bs[j].used && At(lo, bs, j) == b
  }

  /** After a rebuild for the free block k the search goes on at a free block, exactly unless k is the only one and
  its header linked to something else. */
  lemma CurrentExact(lo: nat, bs: seq<Blk>, k: nat, link: nat)
    requires k < |bs| && !bs[k].used
    ensures IsFree(lo, bs, NextCurrent(lo, bs, k, link, At(lo, bs, k))) <==>
      !(k == |bs| - 1 && OnlyTopFree(bs) && link != 0 && link != At(lo, bs, k))
  {
    hide Total, At, FreeStarts;
    NoFreeStarts(lo, bs, |bs| - 1);
    FreeStartsExact(lo, bs, |bs| - 1);
    assert IsFree(lo, bs, At(lo, bs, k));
    var free := FreeStarts(lo, bs, |bs| - 1);
    if free != [] {
      assert free[0] in free && IsFree(lo, bs, free[0]);
    }
  }
}
