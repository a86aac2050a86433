/** The memory map: a fixed array of regions edited in place. */
module MemoryMaps {
  import opened MemoryRegions
  import opened RegionOverlay
  import opened RegionPasses

  const CAPACITY := 16
  const WORD := 0x1_0000_0000_0000_0000

  /** No region that r overlaps outranks it. */
  ghost predicate MayOverlay(m: seq<Region>, r: Region) {
    forall i :: 0 <= i < |m| && m[i].Overlaps(r) ==> !Outranks(m[i], r)
  }

  /** Two touching regions outrank r, r reaches past them into a third, and r is cut where they touch: the first of
  them is not greater than r, or r was already split around a region touching it. */
  ghost predicate SkipsAt(m: seq<Region>, r: Region, a: nat) {
    && a + 2 < |m| && Outranks(m[a], r) && Outranks(m[a + 1], r) && m[a].Overlaps(r) && m[a].End() == m[a + 1].location
    && m[a + 1].End() < r.End() && m[a + 2].location < r.End()
    && (!r.Less(m[a]) || (a > 0 && Outranks(m[a - 1], r) && m[a - 1].Overlaps(r) && m[a - 1].End() == m[a].location))
  }

  ghost predicate Skips(m: seq<Region>, r: Region) {
    exists a: nat :: SkipsAt(m, r, a)
  }

  /** The clash of the pass, from the place where r is inserted. */
  ghost predicate ClashFrom(m: seq<Region>, r: Region, p: nat)
    requires p <= |m|
  {
    if p == 0 then Clash(r, m) else ClashUnder(m[p - 1], r, m[p..])
  }

  ghost predicate Placed(m: seq<Region>, r: Region, p: nat) {
    && Clean(m) && r.size > 0 && p <= |m|
    && (forall a :: 0 <= a < p ==> !r.Less(m[a])) && (p < |m| ==> r.Less(m[p]))
  }

  /** Where r is inserted: before the first greater region. */
  function PlaceOf(m: seq<Region>, r: Region): (p: nat)
    ensures p <= |m|
  {
    if m == [] || r.Less(m[0]) then 0 else 1 + PlaceOf(m[1..], r)
  }

  lemma {:induction false} PlaceOfIs(m: seq<Region>, r: Region)
    ensures forall a :: 0 <= a < PlaceOf(m, r) ==> !r.Less(m[a])
    ensures PlaceOf(m, r) < |m| ==> r.Less(m[PlaceOf(m, r)])
  {
    if m != [] && !r.Less(m[0]) {
      PlaceOfIs(m[1..], r);
      forall a | 0 <= a < PlaceOf(m, r) ensures !r.Less(m[a]) {
        assert a > 0 ==> m[a] == m[1..][a - 1];
      }
    }
  }

  lemma FirstGreater(m: seq<Region>, r: Region)
    requires Clean(m) && r.size > 0
    ensures var p := PlaceOf(m, r); Placed(m, r, p) && Insert(m, r) == m[..p] + [r] + m[p..] && Clean(m[p..])
    ensures forall a :: 0 <= a < PlaceOf(m, r) ==>
      m[a].location < r.location || (m[a].location == r.location && m[a].size <= r.size)
    ensures PlaceOf(m, r) < |m| ==>
      var b := m[PlaceOf(m, r)]; b.location > r.location || (b.location == r.location && b.size > r.size)
  {
    PlaceOfIs(m, r);
    InsertPlaces(m, r, PlaceOf(m, r));
  }

  /** How many slots the map needs beyond the one for r while r is placed. */
  ghost function Spare(m: seq<Region>, r: Region): nat {
    SpareAt(m, r, PlaceOf(m, r))
  }

  ghost function SpareAt(m: seq<Region>, r: Region, p: nat): nat
    requires p <= |m|
  {
    if p == 0 then Extra(r, m) else ExtraAfter(m[..p], r, m[p..])
  }

  lemma SpareBound(m: seq<Region>, r: Region, p: nat)
    requires Placed(m, r, p)
    ensures SpareAt(m, r, p) <= Max(1, Holes(r, m))
  {
    hide Extra, ExtraAfter, Holes;
    HolesBehind(r, m, p);
    if p == 0 {
      ExtraBound(r, m);
    } else {
      assert m[..p] + m[p..] == m;
      AfterBound(m[..p], r, m[p..]);
    }
  }

  lemma {:induction false} ChainedWhere(r: Region, t: seq<Region>, k: nat)
    requires k + 3 < |t| && Trio(r, t[k], t[k + 1], t[k + 2], t[k + 3])
    ensures Chained(r, t)
  {
    if k > 0 {
      ChainedWhere(r, t[1..], k - 1);
    }
  }

  lemma {:induction false} ChainedFind(r: Region, t: seq<Region>) returns (k: nat)
    requires Chained(r, t)
    ensures k + 3 < |t| && Trio(r, t[k], t[k + 1], t[k + 2], t[k + 3])
  {
    if Trio(r, t[0], t[1], t[2], t[3]) {
      k := 0;
    } else {
      k := ChainedFind(r, t[1..]);
      k := k + 1;
    }
  }

  /** Regions behind the place of r begin no earlier than r and those before it no later. */
  lemma PlacedFacts(m: seq<Region>, r: Region, p: nat, a: nat)
    requires Placed(m, r, p) && a < |m|
    ensures a < p ==> m[a].location <= r.location
    ensures p <= a ==> r.location <= m[a].location && r.Less(m[a])
    ensures a + 1 < p ==> !m[a].Overlaps(r)
    ensures a + 1 < |m| ==> m[a].End() <= m[a + 1].location
  {
    if p < a {
      assert m[p].End() <= m[a].location;
    }
    if a + 1 < p {
      assert m[a].End() <= m[p - 1].location;
    }
  }

  lemma SkipsClashes(m: seq<Region>, r: Region, p: nat, a: nat)
    requires Placed(m, r, p) && SkipsAt(m, r, a)
    ensures ClashFrom(m, r, p)
  {
    var t := m[p..];
    assert forall k :: 0 <= k < |t| ==> t[k] == m[p + k];
    PlacedFacts(m, r, p, a);
    PlacedFacts(m, r, p, a + 1);
    if a > p || (a == p && p == 0) {
      SkipsChain(m, r, p, a);
    } else {
      var l := m[p - 1];
      PlacedFacts(m, r, p, p - 1);
      PlacedFacts(m, r, p, p);
      assert Flush(From(r, l.End()), t);
    }
  }

  lemma SkipsChain(m: seq<Region>, r: Region, p: nat, a: nat)
    requires Placed(m, r, p) && SkipsAt(m, r, a) && a > p
    ensures ClashFrom(m, r, p)
  {
    hide Chained;
    SkipsTrio(m, r, p, a);
    var t := m[p..];
    if p == 0 {
      assert t == m;
    } else {
      SkipsInside(m, r, p, a);
      if m[p - 1].End() > r.location {
        ChainedSame(r, From(r, m[p - 1].End()), t);
      }
    }
  }

  lemma SkipsTrio(m: seq<Region>, r: Region, p: nat, a: nat)
    requires Placed(m, r, p) && SkipsAt(m, r, a) && a > p
    ensures Chained(r, m[p..])
  {
    var t, k := m[p..], a - 1 - p;
    PlacedFacts(m, r, p, a);
    assert t[k] == m[a - 1] && t[k + 1] == m[a] && t[k + 2] == m[a + 1] && t[k + 3] == m[a + 2];
    ChainedWhere(r, t, k);
  }

  lemma SkipsInside(m: seq<Region>, r: Region, p: nat, a: nat)
    requires Placed(m, r, p) && SkipsAt(m, r, a) && a > p > 0
    ensures m[p - 1].End() < r.End()
  {
    assert m[p - 1].End() <= m[a].location;
  }

  lemma ClashSkips(m: seq<Region>, r: Region, p: nat)
    requires Placed(m, r, p) && ClashFrom(m, r, p)
    ensures Skips(m, r)
  {
    hide Chained;
    var t := m[p..];
    if p == 0 {
      assert t == m;
      ChainSkips(m, r, p);
    } else if Chained(r, t) {
      ChainSkips(m, r, p);
    } else {
      ChainedSame(r, From(r, m[p - 1].End()), t);
      PlacedFacts(m, r, p, p - 1);
      assert t[0] == m[p] && t[1] == m[p + 1];
      assert SkipsAt(m, r, p - 1);
    }
  }

  lemma ChainSkips(m: seq<Region>, r: Region, p: nat)
    requires Placed(m, r, p) && Chained(r, m[p..])
    ensures Skips(m, r)
  {
    var t := m[p..];
    var k := ChainedFind(r, t);
    assert t[k] == m[p + k] && t[k + 1] == m[p + k + 1] && t[k + 2] == m[p + k + 2] && t[k + 3] == m[p + k + 3];
    PlacedFacts(m, r, p, p + k);
    PlacedFacts(m, r, p, p + k + 1);
    assert SkipsAt(m, r, p + k + 1);
  }

  lemma {:induction false} HolesBehind(r: Region, m: seq<Region>, p: nat)
    requires p <= |m|
    ensures Holes(r, m[p..]) <= Holes(r, m)
  {
    if p == 0 {
      assert m[0..] == m;
    } else {
      HolesBehind(r, m[1..], p - 1);
      assert m[1..][p - 1..] == m[p..];
    }
  }

  /** Placing a region of any rank over a sorted, disjoint map. The list comes out disjoint exactly when no touching
  pair is skipped, and then every address has the higher-ranked of its old type and r's. Meanwhile the list grows by
  exactly one for r and its spare slots, of which there are no more than higher-ranked regions strictly inside r, or
  one for a split around r. */
  lemma PlaceExact(m: seq<Region>, r: Region)
    requires Clean(m) && r.size > 0
    ensures var n := TrimAll(Insert(m, r), 0);
      && NonEmpty(n) && (SortedDisjoint(n) <==> !Skips(m, r))
      && (!Skips(m, r) ==> forall x :: At(n, x) == Laid(r, m, x))
    ensures Peak(Insert(m, r), 0) == |m| + 1 + Spare(m, r) && Spare(m, r) <= Max(1, Holes(r, m))
  {
    hide TrimAll, Peak, Insert, Laid, At, ClashFrom, Placed, Skips, Holes, SpareAt, PlaceOf;
    FirstGreater(m, r);
    var p := PlaceOf(m, r);
    var n := PlacedRun(m, r, p);
    if ClashFrom(m, r, p) {
      ClashSkips(m, r, p);
    }
    if Skips(m, r) {
      SkipsFound(m, r, p);
    }
    SpareBound(m, r, p);
    OutcomeSays(n, r, m, ClashFrom(m, r, p));
  }

  lemma SkipsFound(m: seq<Region>, r: Region, p: nat)
    requires Placed(m, r, p) && Skips(m, r)
    ensures ClashFrom(m, r, p)
  {
    var a: nat :| SkipsAt(m, r, a);
    SkipsClashes(m, r, p, a);
  }

  ghost predicate Ends(n: seq<Region>, r: Region, m: seq<Region>, clash: bool) {
    exists lo :: Outcome(n, lo, r, m, clash)
  }

  lemma OutcomeSays(n: seq<Region>, r: Region, m: seq<Region>, clash: bool)
    requires Ends(n, r, m, clash)
    ensures NonEmpty(n) && (SortedDisjoint(n) <==> !clash) && (!clash ==> forall x :: At(n, x) == Laid(r, m, x))
  {
  }

  lemma PlacedRun(m: seq<Region>, r: Region, p: nat) returns (n: seq<Region>)
    requires Placed(m, r, p) && Insert(m, r) == m[..p] + [r] + m[p..]
    ensures n == TrimAll(Insert(m, r), 0) && Ends(n, r, m, ClashFrom(m, r, p))
    ensures Peak(Insert(m, r), 0) == |m| + 1 + SpareAt(m, r, p)
  {
    hide TrimAll, Peak, Insert, Outcome, Laid, At, Placed, ClashFrom, Extra, ExtraAfter;
    if p == 0 {
      n := FrontRun(m, r);
      assert m[p..] == m && m[..p] + [r] + m[p..] == [r] + m;
    } else {
      n := MiddleRun(m, r, p);
    }
  }

  lemma FrontRun(m: seq<Region>, r: Region) returns (n: seq<Region>)
    requires Placed(m, r, 0)
    ensures n == TrimAll([r] + m, 0) && Ends(n, r, m, ClashFrom(m, r, 0))
    ensures Peak([r] + m, 0) == |m| + 1 + Extra(r, m)
  {
    hide TrimAll, Peak, Outcome, Laid, At, Clash, Extra;
    n := OverRun([], r, m);
    assert Outcome(n, r.location, r, m, ClashFrom(m, r, 0));
    assert [] + ([r] + m) == [r] + m && [] + n == n;
  }

  lemma MiddleRun(m: seq<Region>, r: Region, p: nat) returns (n: seq<Region>)
    requires Placed(m, r, p) && p > 0
    ensures n == TrimAll(m[..p] + [r] + m[p..], 0) && Ends(n, r, m, ClashFrom(m, r, p))
    ensures Peak(m[..p] + [r] + m[p..], 0) == |m| + 1 + ExtraAfter(m[..p], r, m[p..])
  {
    hide TrimAll, Peak, Outcome, Laid, At, ClashUnder, ExtraAfter;
    var head, t := m[..p], m[p..];
    assert head + t == m && head[p - 1] == m[p - 1] && head[0] == m[0];
    n := OldRun([], head, r, t);
    assert Outcome(n, m[0].location, r, m, ClashFrom(m, r, p));
    assert [] + (head + [r] + t) == head + [r] + t && [] + n == n;
  }

  /** Placing a region that nothing it overlaps outranks: the array stays sorted and disjoint, the address-to-type
  function changes exactly on the region's range, and the list grows by at most two on the way. */
  lemma PlaceRefines(m: seq<Region>, r: Region)
    requires Clean(m) && r.size > 0 && MayOverlay(m, r)
    ensures !Skips(m, r) && Holes(r, m) == 0
    ensures var n := TrimAll(Insert(m, r), 0);
      && Clean(n) && forall x :: At(n, x) == if r.Holds(x) then Just(r.kind) else At(m, x)
    ensures Peak(Insert(m, r), 0) <= |m| + 2
  {
    hide TrimAll, Peak, Insert, MayOverlay, Skips, Holes, SortedDisjoint, NonEmpty, Clean, Spare;
    CleanParts(m);
    NoSkips(m, r);
    NoHoles(m, r);
    PlaceExact(m, r);
    CleanParts(TrimAll(Insert(m, r), 0));
    forall x ensures Laid(r, m, x) == if r.Holds(x) then Just(r.kind) else At(m, x) {
      if r.Holds(x) {
        NotOutranked(m, r, x);
      }
    }
  }

  lemma CleanParts(m: seq<Region>)
    ensures Clean(m) <==> NonEmpty(m) && SortedDisjoint(m)
  {
  }

  lemma NoSkips(m: seq<Region>, r: Region)
    requires MayOverlay(m, r)
    ensures !Skips(m, r)
  {
    forall a: nat ensures !SkipsAt(m, r, a) {
      assert a < |m| && m[a].Overlaps(r) ==> !Outranks(m[a], r);
    }
  }

  lemma {:induction false} NoHoles(m: seq<Region>, r: Region)
    requires MayOverlay(m, r) && NonEmpty(m)
    ensures Holes(r, m) == 0
  {
    if m != [] {
      assert !(m[0].Overlaps(r) && Outranks(m[0], r));
      forall i | 0 <= i < |m| - 1 && m[1..][i].Overlaps(r) ensures !Outranks(m[1..][i], r) {
        assert m[1..][i] == m[i + 1];
      }
      NoHoles(m[1..], r);
    }
  }

  lemma {:induction false} NotOutranked(m: seq<Region>, r: Region, x: nat)
    requires MayOverlay(m, r) && r.Holds(x)
    ensures At(m, x).Just? ==> At(m, x).kind.Rank() <= r.kind.Rank()
  {
    if m != [] {
      assert m[0].Holds(x) ==> m[0].Overlaps(r);
      forall i | 0 <= i < |m| - 1 && m[1..][i].Overlaps(r) ensures !Outranks(m[1..][i], r) {
        assert m[1..][i] == m[i + 1];
      }
      NotOutranked(m[1..], r, x);
    }
  }

  const LOW := Region(Available, 0, 100)
  const HIGHER := [Region(Mmio, 0, 10), Region(Defective, 10, 10), Region(Mmio, 20, 10)]

  /** A lower-ranked region laid over three touching higher-ranked ones: the first cuts it flush with the second, and
  the part left behind the second is stepped over although it overlaps the third. */
  lemma LowerRankCanOverlap()
    ensures Clean(HIGHER) && Skips(HIGHER, LOW) && !SortedDisjoint(TrimAll(Insert(HIGHER, LOW), 0))
  {
    assert Clean(HIGHER);
    assert SkipsAt(HIGHER, LOW, 0);
    hide TrimAll, Insert;
    PlaceExact(HIGHER, LOW);
  }

  /** Higher-ranked regions strictly inside r, no two of them touching. */
  ghost predicate Comb(r: Region, t: seq<Region>) {
    && Over(r, t) && (t != [] ==> r.location < t[0].location && t[|t| - 1].End() < r.End())
    && (forall a :: 0 <= a < |t| ==> Outranks(t[a], r))
    && (forall a :: 0 <= a < |t| - 1 ==> t[a].End() < t[a + 1].location)
  }

  lemma CombTail(r: Region, t: seq<Region>)
    requires Comb(r, t) && t != []
    ensures t[0].size > 0 && t[0].End() < r.End() && Clean(t[1..]) && t == [t[0]] + t[1..]
    ensures Comb(From(r, t[0].End()), t[1..]) && (t[1..] != [] ==> From(r, t[0].End()).Less(t[1..][0]))
  {
    CleanTail(t);
    assert t[0].End() <= t[|t| - 1].End();
  }

  /** Each of them splits r, so the list grows by one for each. */
  lemma {:induction false} CombExtra(r: Region, t: seq<Region>)
    requires Comb(r, t)
    ensures Extra(r, t) == |t|
    decreases |t|
  {
    hide Comb;
    if t != [] {
      CombTail(r, t);
      CombSplits(r, t);
      CombExtra(From(r, t[0].End()), t[1..]);
    }
  }

  lemma CombSplits(r: Region, t: seq<Region>)
    requires Comb(r, t) && t != []
    ensures r.size > 0 && r.location < t[0].location && Outranks(t[0], r) && r.Less(t[0]) && Clean(t)
  {
  }

  /** Over such a map the guard of the insertion is enough exactly when it holds at most seven regions. */
  lemma GuardNeedsRoom(m: seq<Region>, r: Region)
    requires Comb(r, m) && |m| <= CAPACITY - 2
    ensures Spare(m, r) == |m| && Peak(Insert(m, r), 0) == 2 * |m| + 1
    ensures HasRoom(m, r) <==> |m| <= 7
  {
    hide Peak, Insert, Extra, Skips;
    CombExtra(r, m);
    if m != [] {
      CombSplits(r, m);
    }
    assert PlaceOf(m, r) == 0;
    PlaceExact(m, r);
  }

  /** Fourteen one-byte regions with gaps. */
  function Teeth(): (m: seq<Region>)
    ensures |m| == 14 && forall i :: 0 <= i < 14 ==> m[i] == Region(Mmio, 2 * i + 1, 1)
  {
    seq(14, i requires 0 <= i < 14 => Region(Mmio, 2 * i + 1, 1))
  }

  /** The guard admits a lower-ranked region over fourteen separate ones, but the list then grows to 29 entries in 16
  slots. */
  lemma GuardTooSmall()
    ensures var m, r := Teeth(), Region(Available, 0, 30);
      Clean(m) && |m| <= CAPACITY - 2 && !HasRoom(m, r) && Peak(Insert(m, r), 0) == 29 > CAPACITY
  {
    hide Peak, Insert, Teeth;
    var m, r := Teeth(), Region(Available, 0, 30);
    assert Comb(r, m);
    GuardNeedsRoom(m, r);
  }

  /** One round of the insertion loop. */
  lemma InsertStep(done: seq<Region>, tail: seq<Region>, r: Region)
    ensures tail == [] ==> done + Insert(tail, r) == done + [r]
    ensures tail != [] && r.Less(tail[0]) ==> done + Insert(tail, r) == (done + [r]) + Insert(tail[1..], tail[0])
    ensures tail != [] && !r.Less(tail[0]) ==> done + Insert(tail, r) == (done + [tail[0]]) + Insert(tail[1..], r)
  {
  }

  class MemoryMap {
    const regions: array<Region>
    var mapSize: nat

    ghost predicate Valid()
      reads this, regions
    {
      regions.Length == CAPACITY && mapSize <= CAPACITY
    }

    ghost function Contents(): seq<Region>
      reads this, regions
      requires Valid()
    {
      regions[..mapSize]
    }

    constructor ()
      ensures Valid() && Contents() == [] && fresh(regions)
    {
      regions := new Region[CAPACITY](_ => Region(Unavailable, 0, 0));
      mapSize := 0;
    }

    /** The exchange loop that carries the greater region on. */
    method InsertRegion(kind: MemoryType, location: nat, size: nat)
      requires Valid() && mapSize < CAPACITY
      modifies this`mapSize, regions
      ensures Valid() && Contents() == Insert(old(Contents()), Region(kind, location, size))
    {
      hide Insert;
      var newRegion := Region(kind, location, size);
      ghost var before := Contents();
      ghost var goal := Insert(before, newRegion);
      var i := 0;
      while i < mapSize
        invariant 0 <= i <= mapSize == |before|
        invariant regions[i..mapSize] == before[i..]
        invariant regions[..i] + Insert(before[i..], newRegion) == goal
      {
        InsertStep(regions[..i], before[i..], newRegion);
        assert before[i..][0] == regions[i] && before[i..][1..] == before[i + 1..];
        ghost var done := regions[..i];
        if newRegion.Less(regions[i]) {
          var buffer := newRegion;
          newRegion := regions[i];
          regions[i] := buffer;
        }
        i := i + 1;
        assert regions[..i] == done + [regions[i - 1]];
      }
      InsertStep(regions[..i], [], newRegion);
      regions[i] := newRegion;
      mapSize := mapSize + 1;
    }

    /** Shifts the later entries back by one. */
    method Remove(index: nat)
      requires Valid() && index < mapSize
      modifies this`mapSize, regions
      ensures Valid() && Contents() == RemoveAt(old(Contents()), index)
    {
      for i := index to mapSize - 1
        invariant mapSize == old(mapSize)
        invariant regions[..i] + regions[i + 1..mapSize] == RemoveAt(old(Contents()), index)
      {
        ghost var head, moved, tail := regions[..i], regions[i + 1], regions[i + 2..mapSize];
        assert regions[i + 1..mapSize] == [moved] + tail;
        regions[i] := regions[i + 1];
        assert regions[..i + 1] == head + [moved] && regions[i + 2..mapSize] == tail;
        assert head + [moved] + tail == head + ([moved] + tail);
      }
      mapSize := mapSize - 1;
    }

    /** Resolves the pair at `index` and says where to go on. */
    method TrimPairAt(index: nat) returns (next: int)
      requires Valid() && |Trim(Contents(), index).0| <= CAPACITY
      modifies this`mapSize, regions
      ensures Valid() && (Contents(), next) == Trim(old(Contents()), index)
    {
      hide Insert, Trim, Region.Overlaps, Region.Contains, MemoryType.Rank;
      ghost var m := Contents();
      TrimEdits(m, index);
      if index + 1 >= mapSize {
        return -1;
      }
      var left, right := regions[index], regions[index + 1];
      if left.Overlaps(right) && left.kind == right.kind {
        regions[index] := left.(size := Max(right.End(), left.End()) - left.location);
        assert Contents() == m[index := Union(left, right)];
        Remove(index + 1);
        return index;
      } else if left.Overlaps(right) && left.kind.Rank() < right.kind.Rank() && right.Contains(left) {
        Remove(index);
        return index;
      } else if left.Overlaps(right) && left.kind.Rank() < right.kind.Rank() && left.End() <= right.End() {
        regions[index] := left.(size := Gap(left, right));
        assert Contents() == m[index := left.(size := Gap(left, right))];
        return index + 1;
      } else if left.Overlaps(right) && left.kind.Rank() < right.kind.Rank() {
        regions[index] := left.(size := Gap(left, right));
        assert Contents() == m[index := left.(size := Gap(left, right))];
        if regions[index].size == 0 {
          assert RemoveAt(Contents(), index) == RemoveAt(m, index);
          Remove(index);
        }
        InsertRegion(left.kind, right.End(), left.End() - right.End());
        return index + 2;
      } else if left.Overlaps(right) && left.Contains(right) {
        Remove(index + 1);
        return index;
      } else if left.Overlaps(right) {
        regions[index + 1] := Region(right.kind, left.End(), Sub(right.End(), left.End()));
        assert Contents() == m[index + 1 := regions[index + 1]];
        return index + 1;
      } else if left.End() == right.location && left.kind == right.kind {
        regions[index] := left.(size := right.End() - left.location);
        assert Contents() == m[index := left.(size := right.End() - left.location)];
        Remove(index + 1);
        return index;
      } else {
        assert m[index := left] == m;
        return index + 1;
      }
    }

    /** Places a region of any type over the map, unless fewer than two slots are left. The map stays disjoint exactly
    when no touching pair is skipped, and then its meaning is the higher-ranked type at every address. */
    method Place(kind: MemoryType, location: nat, size: nat) returns (status: int)
      requires Valid() && Clean(Contents()) && size > 0 && location + size < WORD
      requires mapSize <= CAPACITY - 2 ==> HasRoom(Contents(), Region(kind, location, size))
      modifies this`mapSize, regions
      ensures Valid() && NonEmpty(Contents())
      ensures status == (if old(mapSize) <= CAPACITY - 2 then 0 else -1)
      ensures status != 0 ==> Contents() == old(Contents())
      ensures var r := Region(kind, location, size);
        status == 0 ==> && (SortedDisjoint(Contents()) <==> !Skips(old(Contents()), r))
                        && (!Skips(old(Contents()), r) ==> forall x :: At(Contents(), x) == Laid(r, old(Contents()), x))
      ensures status == 0 && !Skips(old(Contents()), Region(kind, location, size)) ==>
        forall x: nat :: At(Contents(), x) == Overlaid(kind, location, size, old(Contents()), x)
      ensures status == 0 ==> Contents() == TrimAll(Insert(old(Contents()), Region(kind, location, size)), 0)
    {
      hide Trim, TrimAll, Peak, Insert, NonEmpty, SortedDisjoint, At, Laid, Skips, Holes, Spare, Overlaid;
      if mapSize <= CAPACITY - 2 {
        forall x: nat ensures
          Laid(Region(kind, location, size), Contents(), x) == Overlaid(kind, location, size, Contents(), x)
        {
          LaidWins(kind, location, size, Contents(), x);
        }
        ghost var r := Region(kind, location, size);
        PlaceExact(Contents(), r);
        InsertRegion(kind, location, size);
        ghost var goal := TrimAll(Contents(), 0);
        var i := 0;
        while i >= 0
          invariant Valid() && -1 <= i <= mapSize
          invariant if i < 0 then Contents() == goal
            else TrimAll(Contents(), i) == goal && Peak(Contents(), i) <= CAPACITY
          decreases if i < 0 then 0 else mapSize - i + 1
        {
          PassStep(Contents(), i);
          i := TrimPairAt(i);
        }
        return 0;
      } else {
        return -1;
      }
    }
  }

  /** The map fits into its slots all the while r is placed. */
  ghost predicate HasRoom(m: seq<Region>, r: Region) {
    |m| + 1 + Spare(m, r) <= CAPACITY
  }

  lemma PassStep(m: seq<Region>, i: nat)
    ensures var (n, next) := Trim(m, i);
      && |n| <= Peak(m, i) && next >= -1
      && (if next < 0 then TrimAll(m, i) == n
          else TrimAll(m, i) == TrimAll(n, next) && Peak(n, next) <= Peak(m, i) && |n| - next < |m| - i && next <= |n|)
  {
    hide Trim;
    TrimEnds(m, i);
  }

  lemma TrimEnds(m: seq<Region>, i: nat)
    ensures Trim(m, i).1 >= -1 && (Trim(m, i).1 < 0 ==> Trim(m, i).0 == m)
  {
  }

  /** What a trim does to the list, by what its pair resolves to. */
  lemma TrimEdits(m: seq<Region>, i: nat)
    ensures i + 1 >= |m| ==> Trim(m, i) == (m, -1)
    ensures i + 1 < |m| ==> var p := Resolve(m[i], m[i + 1]);
      && Trim(m, i).1 == i + p.step
      && (|p.mid| == 1 && p.rest == [] ==> Trim(m, i).0 == RemoveAt(m[i := p.mid[0]], i + 1))
      && (|p.mid| == 1 && p.rest == [] && p.mid[0] == m[i + 1] ==> Trim(m, i).0 == RemoveAt(m, i))
      && (|p.mid| == 1 && p.rest == [] && p.mid[0] == m[i] ==> Trim(m, i).0 == RemoveAt(m, i + 1))
      && (|p.mid| == 2 && p.rest == [] && p.mid[1] == m[i + 1] ==> Trim(m, i).0 == m[i := p.mid[0]])
      && (|p.mid| == 2 && p.rest == [] && p.mid[0] == m[i] ==> Trim(m, i).0 == m[i + 1 := p.mid[1]])
      && (|p.mid| == 2 && p.rest != [] && p.mid[1] == m[i + 1] ==> Trim(m, i).0 == Insert(m[i := p.mid[0]], p.rest[0]))
      && (|p.mid| == 1 && p.rest != [] && p.mid[0] == m[i + 1] ==> Trim(m, i).0 == Insert(RemoveAt(m, i), p.rest[0]))
  {
    hide Resolve, Insert;
    if i + 1 < |m| {
      var p := Resolve(m[i], m[i + 1]);
      if |p.mid| == 1 {
        OneForTwo(m, i, p.mid);
      } else {
        TwoForTwo(m, i, p.mid);
      }
    }
  }

  lemma OneForTwo(m: seq<Region>, i: nat, mid: seq<Region>)
    requires i + 1 < |m| && |mid| == 1
    ensures m[..i] + mid + m[i + 2..] == RemoveAt(m[i := mid[0]], i + 1)
    ensures mid[0] == m[i + 1] ==> m[..i] + mid + m[i + 2..] == RemoveAt(m, i)
    ensures mid[0] == m[i] ==> m[..i] + mid + m[i + 2..] == RemoveAt(m, i + 1)
  {
  }

  lemma TwoForTwo(m: seq<Region>, i: nat, mid: seq<Region>)
    requires i + 1 < |m| && |mid| == 2
    ensures mid[1] == m[i + 1] ==> m[..i] + mid + m[i + 2..] == m[i := mid[0]]
    ensures mid[0] == m[i] ==> m[..i] + mid + m[i + 2..] == m[i + 1 := mid[1]]
  {
  }
}
