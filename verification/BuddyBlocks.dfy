/** The arithmetic of buddy blocks, independent of how the allocator stores them. A family of blocks maps the first
page of each block to its order. */
module BuddyBlocks {
  import opened Powers

  type Blocks = map<nat, nat>

  /** The low k bits of i are clear. */
  predicate Aligned(i: nat, k: nat)
    decreases k
  {
    k == 0 || (i % 2 == 0 && Aligned(i / 2, k - 1))
  }

  predicate InBlock(p: nat, i: nat, k: nat) {
    i <= p < i + Pow2(k)
  }

  ghost predicate Covers(m: Blocks, p: nat) {
    exists i :: i in m && InBlock(p, i, m[i])
  }

  ghost predicate Apart(i: nat, j: nat, k: nat, l: nat) {
    i + Pow2(k) <= j || j + Pow2(l) <= i
  }

  ghost predicate Disjoint(m: Blocks) {
    forall i, j :: i in m && j in m && i != j ==> Apart(i, j, m[i], m[j])
  }

  ghost predicate Fits(i: nat, k: nat, top: nat) {
    k <= top && Aligned(i, k) && i + Pow2(k) <= Pow2(top)
  }

  ghost predicate WellPlaced(m: Blocks, top: nat) {
    forall i :: i in m ==> Fits(i, m[i], top)
  }

  /** `index ^ (1 << k)`: bit k of the index is flipped and every other bit kept. */
  function Buddy(i: nat, k: nat): (b: nat)
    ensures b == i + Pow2(k) || b == i - Pow2(k)
    decreases k
  {
    if k > 0 then 2 * Buddy(i / 2, k - 1) + i % 2
    else if i % 2 == 0 then i + 1
    else i - 1
  }

  /** No block below the top order has its buddy in the family with the same order. */
  ghost predicate Coalesced(m: Blocks, top: nat) {
    forall i :: i in m && m[i] < top ==> !(Buddy(i, m[i]) in m && m[Buddy(i, m[i])] == m[i])
  }

  ghost predicate Canonical(m: Blocks, top: nat) {
    WellPlaced(m, top) && Disjoint(m) && Coalesced(m, top)
  }

  lemma {:induction false} AlignedIsMultiple(i: nat, k: nat)
    requires Aligned(i, k)
    ensures exists q: nat :: i == q * Pow2(k)
    decreases k
  {
    if k == 0 {
      assert i == i * Pow2(0);
    } else {
      AlignedIsMultiple(i / 2, k - 1);
      var q: nat :| i / 2 == q * Pow2(k - 1);
      assert i == q * Pow2(k);
    }
  }

  lemma {:induction false} AlignedApart(a: nat, b: nat, k: nat)
    requires Aligned(a, k) && Aligned(b, k) && a < b
    ensures a + Pow2(k) <= b
    decreases k
  {
    if k > 0 {
      AlignedApart(a / 2, b / 2, k - 1);
    }
  }

  lemma {:induction false} AlignedWeaken(i: nat, j: nat, k: nat)
    requires j <= k && Aligned(i, k)
    ensures Aligned(i, j)
    decreases k
  {
    if j > 0 {
      AlignedWeaken(i / 2, j - 1, k - 1);
    }
  }

  lemma {:induction false} EndAligned(b: nat, j: nat, k: nat)
    requires j <= k && Aligned(b, j)
    ensures Aligned(b + Pow2(k), j)
    decreases k
  {
    if j > 0 {
      EndAligned(b / 2, j - 1, k - 1);
      assert (b + Pow2(k)) / 2 == b / 2 + Pow2(k - 1);
    }
  }

  lemma {:induction false} ZeroAligned(k: nat)
    ensures Aligned(0, k)
    decreases k
  {
    if k > 0 {
      ZeroAligned(k - 1);
    }
  }

  /** Two aligned blocks that share a page are nested. */
  lemma Nested(a: nat, j: nat, b: nat, k: nat)
    requires j <= k && Aligned(a, j) && Aligned(b, k)
    requires !Apart(a, b, j, k)
    ensures b <= a && a + Pow2(j) <= b + Pow2(k)
  {
    hide Aligned, Pow2;
    AlignedWeaken(b, j, k);
    if a < b {
      AlignedApart(a, b, j);
    }
    EndAligned(b, j, k);
    if a + Pow2(j) > b + Pow2(k) {
      AlignedApart(a, b + Pow2(k), j);
    }
  }

  lemma {:induction false} BuddyFacts(i: nat, k: nat)
    requires Aligned(i, k)
    ensures Aligned(Buddy(i, k), k) && Buddy(Buddy(i, k), k) == i
    ensures Aligned(if Buddy(i, k) < i then Buddy(i, k) else i, k + 1)
    decreases k
  {
    if k > 0 {
      BuddyFacts(i / 2, k - 1);
      assert Buddy(i, k) / 2 == Buddy(i / 2, k - 1);
    } else {
      ZeroAligned(0);
    }
  }

  /** Below the top order the merged pair of a fitting block fits too, so its buddy index stays in the block map. */
  lemma BuddyFits(i: nat, k: nat, top: nat)
    requires Fits(i, k, top) && k < top
    ensures Fits(Buddy(i, k), k, top)
    ensures Fits(if Buddy(i, k) < i then Buddy(i, k) else i, k + 1, top)
  {
    BuddyFacts(i, k);
    var lo := if Buddy(i, k) < i then Buddy(i, k) else i;
    ZeroAligned(k + 1);
    EndAligned(0, k + 1, top);
    AlignedApart(lo, Pow2(top), k + 1);
  }

  lemma {:induction false} HalvesAligned(b: nat, k: nat)
    requires k > 0 && Aligned(b, k)
    ensures Aligned(b, k - 1) && Aligned(b + Pow2(k - 1), k - 1)
    ensures Buddy(b, k - 1) == b + Pow2(k - 1)
    decreases k
  {
    if k > 1 {
      HalvesAligned(b / 2, k - 1);
      assert (b + Pow2(k - 1)) / 2 == b / 2 + Pow2(k - 2);
    }
  }

  /** In a coalesced family every aligned run of covered pages lies inside a single block. */
  lemma {:induction false} EnclosingBlock(m: Blocks, top: nat, b: nat, k: nat) returns (i: nat)
    requires Canonical(m, top) && Fits(b, k, top)
    requires AllCovered(m, b, k)
    ensures i in m && m[i] >= k && i <= b && b + Pow2(k) <= i + Pow2(m[i])
    decreases k
  {
    if k == 0 {
      assert InBlock(b, b, 0);
      i :| i in m && InBlock(b, i, m[i]);
    } else {
      var h := Pow2(k - 1);
      HalvesAligned(b, k);
      var x := EnclosingHalf(m, top, b, k, b);
      if m[x] >= k {
        i := x;
      } else {
        var y := EnclosingHalf(m, top, b, k, b + h);
        if m[y] >= k {
          i := y;
        } else {
          assert false;
        }
      }
    }
  }

  lemma {:induction false} EnclosingHalf(m: Blocks, top: nat, b: nat, k: nat, half: nat) returns (i: nat)
    requires Canonical(m, top) && Fits(b, k, top) && k > 0
    requires half == b || half == b + Pow2(k - 1)
    requires Fits(half, k - 1, top)
    requires AllCovered(m, b, k)
    ensures i in m && m[i] >= k - 1
    ensures if m[i] >= k then i <= b && b + Pow2(k) <= i + Pow2(m[i]) else i == half
    decreases k, 0
  {
    forall p | InBlock(p, half, k - 1)
      ensures Covers(m, p)
    {
      assert InBlock(p, b, k);
    }
    i := EnclosingBlock(m, top, half, k - 1);
    assert Fits(i, m[i], top);
    if m[i] >= k {
      Nested(b, k, i, m[i]);
    }
  }

  /** The block and its buddy together. */
  lemma WidenInside(m: Blocks, top: nat, i: nat, k: nat, j: nat)
    requires WellPlaced(m, top) && Fits(i, k, top) && j in m && m[j] > k
    requires !Apart(i, j, k, m[j]) || !Apart(Buddy(i, k), j, k, m[j])
    ensures j <= i && i + Pow2(k) <= j + Pow2(m[j])
    ensures j <= Buddy(i, k) && Buddy(i, k) + Pow2(k) <= j + Pow2(m[j])
  {
    BuddyFacts(i, k);
    assert Fits(j, m[j], top);
    PairTogether(i, Buddy(i, k), k, j, m[j]);
    hide Apart;
    Nested(if Buddy(i, k) < i then Buddy(i, k) else i, k + 1, j, m[j]);
  }

  /** A block that meets one of two neighbours meets the pair. */
  lemma PairTogether(i: nat, b: nat, k: nat, j: nat, l: nat)
    requires (b == i + Pow2(k) || i == b + Pow2(k)) && (!Apart(i, j, k, l) || !Apart(b, j, k, l))
    ensures Pow2(k + 1) == 2 * Pow2(k) && !Apart(if b < i then b else i, j, k + 1, l)
  {
  }

  ghost predicate AllCovered(m: Blocks, i: nat, k: nat) {
    forall p :: InBlock(p, i, k) ==> Covers(m, p)
  }

  /** A block and its buddy of the same order are never both inside blocks of a canonical family. */
  lemma BuddyNotEnclosed(m: Blocks, top: nat, i: nat, j: nat)
    requires Canonical(m, top) && i in m && m[i] < top && j in m && m[j] >= m[i]
    ensures !(j <= Buddy(i, m[i]) && Buddy(i, m[i]) + Pow2(m[i]) <= j + Pow2(m[j]))
  {
    var k := m[i];
    if j <= Buddy(i, k) && Buddy(i, k) + Pow2(k) <= j + Pow2(m[j]) {
      assert i == j || Apart(i, j, m[i], m[j]);
      assert Fits(i, k, top);
      if m[j] > k {
        WidenInside(m, top, i, k, j);
        assert false;
      }
      assert false;
    }
  }

  lemma MemberIsMaximal(m: Blocks, top: nat, i: nat)
    requires Canonical(m, top) && i in m && m[i] < top
    ensures !AllCovered(m, Buddy(i, m[i]), m[i])
  {
    if AllCovered(m, Buddy(i, m[i]), m[i]) {
      assert Fits(i, m[i], top);
      BuddyFits(i, m[i], top);
      var j := EnclosingBlock(m, top, Buddy(i, m[i]), m[i]);
      BuddyNotEnclosed(m, top, i, j);
      assert false;
    }
  }

  lemma MaximalIsMember(m: Blocks, top: nat, i: nat, k: nat)
    requires Canonical(m, top) && Fits(i, k, top)
    requires AllCovered(m, i, k) && (k < top ==> !AllCovered(m, Buddy(i, k), k))
    ensures i in m && m[i] == k
  {
    hide Canonical, Fits, AllCovered;
    var j := EnclosingBlock(m, top, i, k);
    if m[j] > k {
      Widened(m, top, i, k, j);
    }
  }

  /** A block inside a larger member is covered together with its buddy. */
  lemma Widened(m: Blocks, top: nat, i: nat, k: nat, j: nat)
    requires Canonical(m, top) && Fits(i, k, top) && j in m && m[j] > k && j <= i && i + Pow2(k) <= j + Pow2(m[j])
    ensures k < top && AllCovered(m, Buddy(i, k), k)
  {
    assert Fits(j, m[j], top);
    WidenInside(m, top, i, k, j);
  }

  /** Which blocks are free follows from which pages are free: a block belongs to a canonical family exactly when all
  its pages are covered and it cannot be widened to the next order. */
  lemma CanonicalMembership(m: Blocks, top: nat, i: nat, k: nat)
    requires Canonical(m, top) && Fits(i, k, top)
    ensures (i in m && m[i] == k) <==> (AllCovered(m, i, k) && (k < top ==> !AllCovered(m, Buddy(i, k), k)))
  {
    if i in m && m[i] == k {
      if k < top {
        MemberIsMaximal(m, top, i);
      }
      forall p | InBlock(p, i, k) ensures Covers(m, p) {}
    } else if AllCovered(m, i, k) && (k < top ==> !AllCovered(m, Buddy(i, k), k)) {
      MaximalIsMember(m, top, i, k);
    }
  }

  /** Two canonical families over the same pages are the same family. */
  lemma CanonicalUnique(m: Blocks, n: Blocks, top: nat)
    requires Canonical(m, top) && Canonical(n, top)
    requires forall p :: Covers(m, p) <==> Covers(n, p)
    ensures m == n
  {
    forall i | i in m ensures i in n && n[i] == m[i] {
      CanonicalMembership(m, top, i, m[i]);
      CanonicalMembership(n, top, i, m[i]);
    }
    forall i | i in n ensures i in m && m[i] == n[i] {
      CanonicalMembership(m, top, i, n[i]);
      CanonicalMembership(n, top, i, n[i]);
    }
    assert m.Keys == n.Keys;
  }

  /** Taking a block out uncovers exactly its pages. */
  lemma RemoveCovers(m: Blocks, i: nat)
    requires Disjoint(m) && i in m
    ensures forall p :: Covers(m - {i}, p) <==> Covers(m, p) && !InBlock(p, i, m[i])
  {
    var n := m - {i};
    forall p | Covers(m, p) && !InBlock(p, i, m[i]) ensures Covers(n, p) {
      var j :| j in m && InBlock(p, j, m[j]);
      assert j in n;
    }
    forall p | Covers(n, p) ensures !InBlock(p, i, m[i]) {
      var j :| j in n && InBlock(p, j, n[j]);
      assert Apart(i, j, m[i], m[j]);
    }
  }

  ghost predicate Uncovered(m: Blocks, i: nat, k: nat) {
    forall p :: InBlock(p, i, k) ==> !Covers(m, p)
  }

  lemma UncoveredIsApart(m: Blocks, i: nat, k: nat, j: nat)
    requires Uncovered(m, i, k) && j in m
    ensures i != j && Apart(i, j, k, m[j]) && Apart(j, i, m[j], k)
  {
    var p := if i < j then j else i;
    assert InBlock(p, j, m[j]) ==> Covers(m, p);
    assert InBlock(p, i, k) ==> !Covers(m, p);
  }

  lemma AddCovers(m: Blocks, i: nat, k: nat)
    requires i !in m
    ensures forall p :: Covers(m[i := k], p) <==> Covers(m, p) || InBlock(p, i, k)
  {
    var n := m[i := k];
    forall p | Covers(m, p) ensures Covers(n, p) {
      var j :| j in m && InBlock(p, j, m[j]);
      assert j in n && InBlock(p, j, n[j]);
    }
    forall p | InBlock(p, i, k) ensures Covers(n, p) {
      assert i in n;
    }
  }

  lemma AddDisjoint(m: Blocks, i: nat, k: nat)
    requires Disjoint(m) && Uncovered(m, i, k)
    ensures i !in m && Disjoint(m[i := k])
    ensures forall p :: Covers(m[i := k], p) <==> Covers(m, p) || InBlock(p, i, k)
  {
    var n := m[i := k];
    if i in m {
      UncoveredIsApart(m, i, k, i);
    }
    AddCovers(m, i, k);
    forall x, y | x in n && y in n && x != y ensures Apart(x, y, n[x], n[y]) {
      if x == i {
        UncoveredIsApart(m, i, k, y);
      } else if y == i {
        UncoveredIsApart(m, i, k, x);
      }
    }
  }

  /** A new block whose buddy is not in the family at the same order leaves it coalesced. */
  lemma AddCoalesced(m: Blocks, top: nat, i: nat, k: nat)
    requires WellPlaced(m, top) && Coalesced(m, top) && Aligned(i, k) && i !in m
    requires k < top ==> !(Buddy(i, k) in m && m[Buddy(i, k)] == k)
    ensures Coalesced(m[i := k], top)
  {
    var n := m[i := k];
    forall j | j in n && n[j] < top ensures !(Buddy(j, n[j]) in n && n[Buddy(j, n[j])] == n[j]) {
      assert j != i ==> Fits(j, m[j], top);
      BuddyFacts(j, n[j]);
    }
  }

  ghost function PageSet(m: Blocks, top: nat): set<nat> {
    set p: nat | p < Pow2(top) && Covers(m, p)
  }

  ghost function BlockPages(i: nat, k: nat): set<nat> {
    RangeSet(i, Pow2(k))
  }

  ghost predicate InRange(p: nat, i: nat, n: nat) {
    i <= p < i + n
  }

  ghost function RangeSet(i: nat, n: nat): set<nat> {
    set p: nat | p < i + n && InRange(p, i, n)
  }

  lemma {:induction false} RangeSize(i: nat, n: nat)
    ensures |RangeSet(i, n)| == n
  {
    if n > 0 {
      RangeSize(i, n - 1);
      forall p | p in RangeSet(i, n) ensures p in RangeSet(i, n - 1) + {i + n - 1} {
        assert p == i + n - 1 || InRange(p, i, n - 1);
      }
      assert InRange(i + n - 1, i, n);
      assert RangeSet(i, n) == RangeSet(i, n - 1) + {i + n - 1};
    } else {
      assert RangeSet(i, n) == {};
    }
  }

  lemma FirstPage(i: nat, k: nat)
    ensures i in BlockPages(i, k)
    ensures i + Pow2(k) in BlockPages(i, k + 1)
  {
    assert InRange(i, i, Pow2(k));
    assert Pow2(k + 1) == 2 * Pow2(k);
    assert InRange(i + Pow2(k), i, Pow2(k + 1));
  }

  lemma CoversInRange(m: Blocks, top: nat, p: nat)
    requires WellPlaced(m, top) && Covers(m, p)
    ensures p in PageSet(m, top)
  {
    var i :| i in m && InBlock(p, i, m[i]);
    assert Fits(i, m[i], top);
  }

  lemma UncoveredIffDisjoint(m: Blocks, top: nat, i: nat, k: nat)
    requires WellPlaced(m, top)
    ensures Uncovered(m, i, k) <==> PageSet(m, top) !! BlockPages(i, k)
  {
    if PageSet(m, top) !! BlockPages(i, k) {
      forall p | InBlock(p, i, k) ensures !Covers(m, p) {
        assert InRange(p, i, Pow2(k)) && p in BlockPages(i, k);
        if Covers(m, p) {
          CoversInRange(m, top, p);
        }
      }
    } else {
      var p :| p in PageSet(m, top) && p in BlockPages(i, k);
      assert InBlock(p, i, k);
    }
  }

  lemma InBlockIffPage(i: nat, k: nat)
    ensures forall p :: InBlock(p, i, k) <==> p in BlockPages(i, k)
  {
    forall p ensures InBlock(p, i, k) <==> p in BlockPages(i, k) {
      assert InBlock(p, i, k) <==> InRange(p, i, Pow2(k));
    }
  }

  ghost predicate Separate(m: Blocks, top: nat) {
    WellPlaced(m, top) && Disjoint(m)
  }

  lemma RemoveSeparate(m: Blocks, top: nat, i: nat)
    requires Separate(m, top) && i in m
    ensures Fits(i, m[i], top) && Separate(m - {i}, top)
    ensures PageSet(m - {i}, top) !! BlockPages(i, m[i])
    ensures PageSet(m - {i}, top) + BlockPages(i, m[i]) == PageSet(m, top)
  {
    RemoveCovers(m, i);
    assert Fits(i, m[i], top);
    InBlockIffPage(i, m[i]);
    forall p | p in BlockPages(i, m[i]) ensures p in PageSet(m, top) {
      assert InBlock(p, i, m[i]);
    }
  }

  lemma AddSeparate(m: Blocks, top: nat, i: nat, k: nat)
    requires Separate(m, top) && Fits(i, k, top) && PageSet(m, top) !! BlockPages(i, k)
    ensures i !in m && Separate(m[i := k], top)
    ensures PageSet(m[i := k], top) == PageSet(m, top) + BlockPages(i, k)
  {
    UncoveredIffDisjoint(m, top, i, k);
    AddDisjoint(m, i, k);
    InBlockIffPage(i, k);
  }

  lemma MembersCovered(m: Blocks, top: nat)
    requires Separate(m, top)
    ensures forall i :: i in m ==> i in PageSet(m, top)
  {
    forall i | i in m ensures i in PageSet(m, top) {
      assert InBlock(i, i, m[i]);
      CoversInRange(m, top, i);
    }
  }

  /** A block taken out of the free pages joins the live ones. */
  lemma TakenJoinsLive(live: Blocks, top: nat, before: set<nat>, now: set<nat>, i: nat, k: nat)
    requires Separate(live, top) && before !! PageSet(live, top) && Fits(i, k, top)
    requires now !! BlockPages(i, k) && now + BlockPages(i, k) == before
    ensures i !in live && Separate(live[i := k], top) && now !! PageSet(live[i := k], top)
    ensures BlockPages(i, k) <= before && now == before - BlockPages(i, k) && |now| + Pow2(k) == |before|
  {
    hide Separate, Fits, PageSet, BlockPages;
    AddSeparate(live, top, i, k);
    CountBlock(now, i, k);
  }

  /** A freed block leaves the live ones and shares no page with the free ones. */
  lemma FreedLeavesLive(live: Blocks, top: nat, free: set<nat>, i: nat)
    requires Separate(live, top) && free !! PageSet(live, top) && i in live
    ensures Fits(i, live[i], top) && Separate(live - {i}, top)
    ensures free !! BlockPages(i, live[i]) && free + BlockPages(i, live[i]) !! PageSet(live - {i}, top)
    ensures BlockPages(i, live[i]) <= PageSet(live, top)
    ensures PageSet(live - {i}, top) == PageSet(live, top) - BlockPages(i, live[i])
  {
    hide Separate, Fits, PageSet, BlockPages;
    RemoveSeparate(live, top, i);
  }

  lemma RemovePages(m: Blocks, top: nat, i: nat)
    requires Canonical(m, top) && i in m
    ensures Fits(i, m[i], top) && Canonical(m - {i}, top)
    ensures PageSet(m - {i}, top) !! BlockPages(i, m[i])
    ensures PageSet(m - {i}, top) + BlockPages(i, m[i]) == PageSet(m, top)
  {
    RemoveSeparate(m, top, i);
  }

  lemma AddPages(m: Blocks, top: nat, i: nat, k: nat)
    requires Canonical(m, top) && Fits(i, k, top) && PageSet(m, top) !! BlockPages(i, k)
    requires k < top ==> !(Buddy(i, k) in m && m[Buddy(i, k)] == k)
    ensures i !in m && Canonical(m[i := k], top)
    ensures PageSet(m[i := k], top) == PageSet(m, top) + BlockPages(i, k)
  {
    AddSeparate(m, top, i, k);
    AddCoalesced(m, top, i, k);
  }

  /** A block holds 2^k pages. */
  lemma CountBlock(pages: set<nat>, i: nat, k: nat)
    requires pages !! BlockPages(i, k)
    ensures |pages + BlockPages(i, k)| == |pages| + Pow2(k)
  {
    RangeSize(i, Pow2(k));
  }

  lemma PairPages(i: nat, k: nat)
    ensures var lo := if Buddy(i, k) < i then Buddy(i, k) else i;
            BlockPages(lo, k + 1) == BlockPages(i, k) + BlockPages(Buddy(i, k), k)
    ensures BlockPages(i, k) !! BlockPages(Buddy(i, k), k)
  {
    var lo := if Buddy(i, k) < i then Buddy(i, k) else i;
    var h := Pow2(k);
    assert Pow2(k + 1) == 2 * h;
    forall p ensures InRange(p, lo, 2 * h) <==> InRange(p, i, h) || InRange(p, Buddy(i, k), h) {}
  }

  lemma MergeSets(free: set<nat>, buddy: set<nat>, block: set<nat>, pair: set<nat>, rest: set<nat>)
    requires rest !! buddy && rest + buddy == free && free !! block && pair == block + buddy
    ensures rest !! pair && rest + pair == free + block
  {
  }

  lemma SplitSets(free: set<nat>, lower: set<nat>, upper: set<nat>, pair: set<nat>, more: set<nat>)
    requires pair == lower + upper && lower !! upper && free !! pair && more == free + upper
    ensures more !! lower && more + lower == free + pair
  {
  }

  /** One merge on the way up: the freed block and its free buddy become one block of the next order. */
  lemma MergeStep(m: Blocks, top: nat, i: nat, k: nat)
    requires Canonical(m, top) && Fits(i, k, top) && k < top && PageSet(m, top) !! BlockPages(i, k)
    requires Buddy(i, k) in m && m[Buddy(i, k)] == k
    ensures var lo := if Buddy(i, k) < i then Buddy(i, k) else i;
      var n := m - {Buddy(i, k)};
      && Canonical(n, top) && Fits(lo, k + 1, top)
      && PageSet(n, top) !! BlockPages(lo, k + 1)
      && PageSet(n, top) + BlockPages(lo, k + 1) == PageSet(m, top) + BlockPages(i, k)
  {
    BuddyFits(i, k, top);
    RemovePages(m, top, Buddy(i, k));
    PairPages(i, k);
    var lo := if Buddy(i, k) < i then Buddy(i, k) else i;
    MergeSets(PageSet(m, top), BlockPages(Buddy(i, k), k), BlockPages(i, k), BlockPages(lo, k + 1),
      PageSet(m - {Buddy(i, k)}, top));
  }

  lemma HalvesFit(x: nat, j: nat, top: nat)
    requires Fits(x, j + 1, top)
    ensures Fits(x, j, top) && Fits(x + Pow2(j), j, top)
    ensures Buddy(x, j) == x + Pow2(j) && Buddy(x + Pow2(j), j) == x
  {
    HalvesAligned(x, j + 1);
    assert Pow2(j + 1) == 2 * Pow2(j);
    BuddyFacts(x, j);
  }

  lemma DisjointNotMember(m: Blocks, top: nat, i: nat, k: nat)
    requires Canonical(m, top) && PageSet(m, top) !! BlockPages(i, k)
    ensures i !in m
  {
    UncoveredIffDisjoint(m, top, i, k);
    if i in m {
      UncoveredIsApart(m, i, k, i);
    }
  }

  lemma DisjointPart(free: set<nat>, part: set<nat>, whole: set<nat>)
    requires free !! whole && part <= whole
    ensures free !! part
  {
  }

  /** One split on the way down: the upper half of a reserved block becomes free. */
  lemma SplitStep(m: Blocks, top: nat, x: nat, j: nat)
    requires Canonical(m, top) && Fits(x, j + 1, top) && PageSet(m, top) !! BlockPages(x, j + 1)
    ensures Fits(x, j, top) && Fits(x + Pow2(j), j, top) && x + Pow2(j) !in m && x !in m
    ensures var n := m[x + Pow2(j) := j];
      && Canonical(n, top)
      && PageSet(n, top) !! BlockPages(x, j)
      && PageSet(n, top) + BlockPages(x, j) == PageSet(m, top) + BlockPages(x, j + 1)
  {
    hide *;
    DisjointNotMember(m, top, x, j + 1);
    HalvesFit(x, j, top);
    PairPages(x, j);
    var y := x + Pow2(j);
    assert PageSet(m, top) !! BlockPages(y, j) by {
      DisjointPart(PageSet(m, top), BlockPages(y, j), BlockPages(x, j + 1));
    }
    AddPages(m, top, y, j);
    SplitSets(PageSet(m, top), BlockPages(x, j), BlockPages(y, j), BlockPages(x, j + 1), PageSet(m[y := j], top));
  }

  /** Two canonical families over the same pages are the same family. */
  lemma SamePagesSameBlocks(m: Blocks, n: Blocks, top: nat)
    requires Canonical(m, top) && Canonical(n, top)
    requires PageSet(m, top) == PageSet(n, top)
    ensures m == n
  {
    forall p | Covers(m, p) ensures Covers(n, p) {
      CoversInRange(m, top, p);
      assert p in PageSet(n, top);
    }
    forall p | Covers(n, p) ensures Covers(m, p) {
      CoversInRange(n, top, p);
      assert p in PageSet(m, top);
    }
    CanonicalUnique(m, n, top);
  }

  /** A free block of order at least k exists exactly when some aligned run of 2^k pages is free. */
  lemma BlockIffRun(m: Blocks, top: nat, k: nat)
    requires Canonical(m, top)
    ensures (exists i :: i in m && m[i] >= k) <==> (exists b :: Fits(b, k, top) && BlockPages(b, k) <= PageSet(m, top))
  {
    if i :| i in m && m[i] >= k {
      assert Fits(i, m[i], top);
      AlignedWeaken(i, k, m[i]);
      Pow2Monotone(k, m[i]);
      RemovePages(m, top, i);
      forall p | p in BlockPages(i, k) ensures p in PageSet(m, top) {
        assert InRange(p, i, Pow2(m[i]));
      }
      assert Fits(i, k, top);
    }
    if b :| Fits(b, k, top) && BlockPages(b, k) <= PageSet(m, top) {
      forall p | InBlock(p, b, k) ensures Covers(m, p) {
        assert InRange(p, b, Pow2(k));
        assert p in BlockPages(b, k);
      }
      var i := EnclosingBlock(m, top, b, k);
    }
  }
}
