/** The memory map and the page allocator as the kernel builds them at boot. */
module BootMemory {
  import opened Powers
  import opened MemoryRegions
  import opened RegionOverlay
  import opened RegionPasses
  import opened MemoryMaps
  import PageAllocators

  const RAM_END := 0x2000_0000
  const MAP_BYTES := 0x40_0000

  /** What is at an address after boot, for a kernel of this size whose image ends at `end`. */
  function BootType(x: nat, kernelSize: nat, end: nat): Maybe {
    if 0x3F00_0000 <= x < 0x4000_0000 then Just(Mmio)
    else if x < kernelSize || end <= x < end + 0x40_0000 || 0x800_0000 <= x < 0xC00_0000 then Just(Unavailable)
    else if x < 0x2000_0000 then Just(Available)
    else Nothing
  }

  // The slots the placements need.

  lemma {:induction false} HolesAtMost(r: Region, t: seq<Region>)
    ensures Holes(r, t) <= |t|
  {
    if t != [] {
      HolesAtMost(r, t[1..]);
    }
  }

  lemma {:induction false} EndsWithinPeak(m: seq<Region>, i: nat)
    ensures |TrimAll(m, i)| <= Peak(m, i)
    decreases |m| - i
  {
    hide Trim;
    TrimEnds(m, i);
    var (n, next) := Trim(m, i);
    if next >= 0 {
      EndsWithinPeak(n, next);
    }
  }

  /** Twice its regions and one more are always slots enough. */
  lemma RoomForAll(m: seq<Region>, r: Region)
    requires Clean(m) && r.size > 0 && |m| >= 1
    ensures Spare(m, r) <= |m| && |TrimAll(Insert(m, r), 0)| <= 2 * |m| + 1
  {
    hide TrimAll, Peak, Insert, Skips, Holes, Spare;
    PlaceExact(m, r);
    HolesAtMost(r, m);
    EndsWithinPeak(Insert(m, r), 0);
  }

  /** Fewer than two higher-ranked regions make no touching pair. */
  lemma NoPairSkipped(m: seq<Region>, r: Region)
    requires forall i, j :: 0 <= i < j < |m| ==> !(Outranks(m[i], r) && Outranks(m[j], r))
    ensures !Skips(m, r)
  {
  }

  // Regions and addresses.

  lemma {:induction false} AtRegion(m: seq<Region>, i: nat, x: nat)
    requires Clean(m) && i < |m| && m[i].Holds(x)
    ensures At(m, x) == Just(m[i].kind)
  {
    CleanTail(m);
    if i > 0 {
      assert m[0].End() <= m[i].location;
      AtRegion(m[1..], i - 1, x);
    }
  }

  lemma {:induction false} RegionAt(m: seq<Region>, x: nat) returns (i: nat)
    requires At(m, x).Just?
    ensures i < |m| && m[i].Holds(x) && At(m, x) == Just(m[i].kind)
  {
    if m[0].Holds(x) {
      i := 0;
    } else {
      i := RegionAt(m[1..], x);
      i := i + 1;
    }
  }

  /** The last available region ends where the available addresses do. */
  lemma LastEnds(m: seq<Region>, e: nat)
    requires Clean(m) && e > 0 && At(m, e - 1) == Just(Available)
    requires forall x: nat :: e <= x ==> At(m, x) != Just(Available)
    ensures exists n: nat :: PageAllocators.LastAvailable(m, n)
    ensures forall n: nat :: PageAllocators.LastAvailable(m, n) ==> m[n].End() == e
  {
    var i := RegionAt(m, e - 1);
    AtRegion(m, i, m[i].End() - 1);
    forall j | i < j < |m| ensures m[j].kind != Available {
      AtRegion(m, j, m[j].location);
    }
    assert PageAllocators.LastAvailable(m, i);
  }

  lemma MapBytesOfRam()
    ensures PageAllocators.MapBytes(RAM_END, 0x1000) == MAP_BYTES
    ensures LLog2(MAP_BYTES / PageAllocators.BLOCK_BYTES) == 17
  {
    assert 32 * RAM_END / 0x1000 == 0x40_0000;
    Pow2Sum(11, 11);
    assert Pow2(11) == 0x800 && Pow2(22) == 0x40_0000;
    Pow2Sum(8, 9);
    assert Pow2(8) == 0x100 && Pow2(9) == 0x200 && Pow2(17) == 0x2_0000;
    LLog2OfPow2(22);
    LLog2OfPow2(17);
  }

  // The placements, region by region.

  ghost function Ram(kernelSize: nat): Region
    requires kernelSize <= RAM_END
  {
    Region(Available, kernelSize, RAM_END - kernelSize)
  }

  ghost function Devices(): Region {
    Region(Mmio, 0x3F00_0000, 0x100_0000)
  }

  /** A clean list without touching regions of one type stays as it is. */
  ghost predicate Settled(t: seq<Region>) {
    Clean(t) && forall i :: 0 <= i < |t| - 1 ==> t[i].kind != t[i + 1].kind || t[i].End() < t[i + 1].location
  }

  lemma {:induction false} SettledRun(pre: seq<Region>, t: seq<Region>)
    requires Settled(t)
    ensures Passes(pre, t, t, |t|)
    decreases |t|
  {
    hide Passes, Resolve;
    if |t| <= 1 {
      PassEnd(pre, t);
    } else {
      var a, b, u := t[0], t[1], t[2..];
      CleanTail(t);
      assert t == [a, b] + u && t[1..] == [b] + u && t == [a] + ([b] + u);
      forall i | 0 <= i < |t| - 2
        ensures t[1..][i].kind != t[1..][i + 1].kind || t[1..][i].End() < t[1..][i + 1].location
      {
        assert t[1..][i] == t[i + 1] && t[1..][i + 1] == t[i + 2];
      }
      DoneStep(a, b);
      SettledRun(pre + [a], [b] + u);
      PassAdvance(pre, a, b, u, a, b, [b] + u, 1 + |u|);
    }
  }

  lemma PassedFromStart(s: seq<Region>, n: seq<Region>, k: nat)
    requires Passes([], s, n, k)
    ensures TrimAll(s, 0) == n
  {
    assert [] + s == s && [] + n == n;
  }

  lemma SettledStays(t: seq<Region>)
    requires Settled(t)
    ensures TrimAll(t, 0) == t
  {
    SettledRun([], t);
    PassedFromStart(t, t, |t|);
  }

  /** A pair at the front that becomes one region. */
  lemma FirstMerges(a: Region, b: Region, t: seq<Region>, u: Region)
    requires Resolve(a, b) == Resolution([u], [], 0)
    ensures TrimAll([a, b] + t, 0) == TrimAll([u] + t, 0)
  {
    hide Resolve, TrimAll;
    StepMerge([], a, b, t, u);
    assert [] + [a, b] + t == [a, b] + t && [] + [u] + t == [u] + t;
  }

  /** A pair at the front that becomes one, with the rest behind it settled. */
  lemma FirstAdvances(a: Region, b: Region, t: seq<Region>, c: Region, d: Region)
    requires Resolve(a, b) == Resolution([c, d], [], 1) && Settled([d] + t)
    ensures TrimAll([a, b] + t, 0) == [c, d] + t
  {
    hide Resolve, TrimAll, Passes, Settled;
    assert [] + [c] == [c] && [c] + ([d] + t) == [c, d] + t;
    SettledRun([c], [d] + t);
    PassAdvance([], a, b, t, c, d, [d] + t, 1 + |t|);
    PassedFromStart([a, b] + t, [c, d] + t, 2 + |t|);
  }

  lemma PlacedRam()
    ensures TrimAll(Insert([], Ram(0)), 0) == [Ram(0)]
  {
    SettledStays([Ram(0)]);
  }

  lemma PlacedDevices()
    ensures TrimAll(Insert([Ram(0)], Devices()), 0) == [Ram(0), Devices()]
  {
    InsertPlaces([Ram(0)], Devices(), 1);
    SettledStays([Ram(0), Devices()]);
  }

  lemma PlacedKernel(kernelSize: nat)
    requires 0 < kernelSize < RAM_END
    ensures var k := Region(Unavailable, 0, kernelSize);
      TrimAll(Insert([Ram(0), Devices()], k), 0) == [k, Ram(kernelSize), Devices()]
  {
    hide Resolve, Insert, TrimAll;
    var k, r := Region(Unavailable, 0, kernelSize), Ram(kernelSize);
    InsertFront([Ram(0), Devices()], k);
    assert [k] + [Ram(0), Devices()] == [k, Ram(0)] + [Devices()];
    ResolveCases(k, Ram(0));
    assert [r] + [Devices()] == [r, Devices()];
    FirstAdvances(k, Ram(0), [Devices()], k, r);
  }

  /** The first three placements. */
  method PlaceKernel(kernelSize: nat) returns (m: MemoryMap)
    requires 0 < kernelSize < RAM_END
    ensures fresh(m) && fresh(m.regions) && m.Valid()
    ensures m.Contents() == [Region(Unavailable, 0, kernelSize), Ram(kernelSize), Devices()]
  {
    hide TrimAll, Insert, Skips, Spare, At, Laid, Overlaid;
    m := new MemoryMap();
    PlacedRam();
    NoSpare(Ram(0));
    var _ := m.Place(Available, 0, 0x2000_0000);
    PlacedDevices();
    RoomForAll([Ram(0)], Devices());
    var _ := m.Place(Mmio, 0x3F00_0000, 0x100_0000);
    PlacedKernel(kernelSize);
    RoomForAll([Ram(0), Devices()], Region(Unavailable, 0, kernelSize));
    var _ := m.Place(Unavailable, 0, kernelSize);
  }

  lemma NoSpare(r: Region)
    ensures Spare([], r) == 0
  {
  }

  ghost function KernelMap(kernelSize: nat): seq<Region>
    requires kernelSize <= RAM_END
  {
    [Region(Unavailable, 0, kernelSize), Ram(kernelSize), Devices()]
  }

  lemma KernelTypes(kernelSize: nat, x: nat)
    requires 0 < kernelSize < RAM_END
    ensures Clean(KernelMap(kernelSize))
    ensures At(KernelMap(kernelSize), x) ==
      if x < kernelSize then Just(Unavailable) else if x < 0x2000_0000 then Just(Available)
      else if 0x3F00_0000 <= x < 0x4000_0000 then Just(Mmio) else Nothing
  {
    var m := KernelMap(kernelSize);
    assert m == [m[0]] + ([m[1]] + ([m[2]] + []));
    AtCons(m[0], [m[1]] + ([m[2]] + []), x);
    AtCons(m[1], [m[2]] + [], x);
    AtCons(m[2], [], x);
  }

  /** A region over addresses that nothing higher-ranked holds. */
  lemma NothingHigher(m: seq<Region>, r: Region)
    requires Clean(m) && r.size > 0
    requires forall x: nat :: r.Holds(x) && At(m, x).Just? ==> At(m, x).kind.Rank() <= r.kind.Rank()
    ensures MayOverlay(m, r)
  {
    forall i | 0 <= i < |m| && m[i].Overlaps(r) ensures !Outranks(m[i], r) {
      var x := if m[i].location < r.location then r.location else m[i].location;
      AtRegion(m, i, x);
    }
  }

  /** The whole boot map: the type of every address. The block map is sized by the map before it is placed. */
  method PlaceAll(kernelSize: nat, end: nat) returns (m: MemoryMap)
    requires 0 < kernelSize < RAM_END && end + MAP_BYTES < 0x1_0000_0000_0000_0000
    ensures fresh(m) && fresh(m.regions) && m.Valid() && Clean(m.Contents())
    ensures forall x: nat :: At(m.Contents(), x) == BootType(x, kernelSize, end)
    ensures end + MAP_BYTES <= kernelSize ==> m.Contents() == BootRegions(kernelSize)
  {
    hide TrimAll, Insert, Skips, Spare, At, Laid, MayOverlay, PageAllocators.MapBytes, LLog2;
    m := PlaceKernel(kernelSize);
    ghost var m3 := m.Contents();
    SizedByRam(kernelSize);
    var bytes := PageAllocators.MapSize(m.regions[..m.mapSize], 0x1000);
    ghost var r := Region(Unavailable, end, bytes);
    RoomForAll(m3, r);
    NoPairSkipped(m3, r);
    var _ := m.Place(Unavailable, end, bytes);
    ghost var m4 := m.Contents();
    SecondTypes(m4, kernelSize, end);
    RoomForAll(m4, RamDisk());
    NoSkips(m4, RamDisk());
    var _ := m.Place(Unavailable, 0x800_0000, 0x400_0000);
    FinalTypes(m4, m.Contents(), kernelSize, end);
    if end + MAP_BYTES <= kernelSize {
      PlacedInside(kernelSize, end);
      PlacedDisk(kernelSize);
    }
  }

  ghost function RamDisk(): Region {
    Region(Unavailable, 0x800_0000, 0x400_0000)
  }

  lemma SizedByRam(kernelSize: nat)
    requires 0 < kernelSize < RAM_END
    ensures var m := KernelMap(kernelSize);
      && Clean(m) && (exists n: nat :: PageAllocators.LastAvailable(m, n))
      && forall n: nat :: PageAllocators.LastAvailable(m, n) ==>
        PageAllocators.MapBytes(m[n].End(), 0x1000) == MAP_BYTES
  {
    hide PageAllocators.MapBytes, At;
    forall x: nat ensures RAM_END <= x ==> At(KernelMap(kernelSize), x) != Just(Available) {
      KernelTypes(kernelSize, x);
    }
    KernelTypes(kernelSize, RAM_END - 1);
    LastEnds(KernelMap(kernelSize), RAM_END);
    MapBytesOfRam();
  }

  /** The types once the block map is placed, which leave the RAM disk no higher-ranked region. */
  lemma SecondTypes(m: seq<Region>, kernelSize: nat, end: nat)
    requires 0 < kernelSize < RAM_END && Clean(m)
    requires forall x: nat :: At(m, x) == Overlaid(Unavailable, end, MAP_BYTES, KernelMap(kernelSize), x)
    ensures MayOverlay(m, RamDisk()) && m != []
  {
    hide At, MayOverlay;
    forall x: nat ensures RamDisk().Holds(x) && At(m, x).Just? ==> At(m, x).kind.Rank() <= Unavailable.Rank() {
      KernelTypes(kernelSize, x);
    }
    NothingHigher(m, RamDisk());
    KernelTypes(kernelSize, 0);
    NotEmpty(m);
  }

  lemma NotEmpty(m: seq<Region>)
    requires At(m, 0) != Nothing
    ensures m != []
  {
  }

  lemma FinalTypes(m: seq<Region>, n: seq<Region>, kernelSize: nat, end: nat)
    requires 0 < kernelSize < RAM_END
    requires forall x: nat :: At(m, x) == Overlaid(Unavailable, end, MAP_BYTES, KernelMap(kernelSize), x)
    requires forall x: nat :: At(n, x) == Overlaid(Unavailable, 0x800_0000, 0x400_0000, m, x)
    ensures forall x: nat :: At(n, x) == BootType(x, kernelSize, end)
  {
    hide At;
    forall x: nat ensures At(n, x) == BootType(x, kernelSize, end) {
      KernelTypes(kernelSize, x);
    }
  }

  /** The boot map when the image and the block map lie inside the kernel's memory. */
  ghost function BootRegions(kernelSize: nat): seq<Region>
    requires kernelSize < RAM_END
  {
    var k := Region(Unavailable, 0, kernelSize);
    if kernelSize < 0x800_0000 then
      [k, Region(Available, kernelSize, 0x800_0000 - kernelSize), RamDisk(), Ram(0xC00_0000), Devices()]
    else [Region(Unavailable, 0, Used(kernelSize)), Ram(Used(kernelSize)), Devices()]
  }

  /** The end of a kernel that reaches the RAM disk, and of the disk. */
  function Used(kernelSize: nat): nat {
    if kernelSize <= 0xC00_0000 then 0xC00_0000 else kernelSize
  }

  /** The block map inside the kernel's memory adds nothing. */
  lemma PlacedInside(kernelSize: nat, end: nat)
    requires end + MAP_BYTES <= kernelSize < RAM_END
    ensures TrimAll(Insert(KernelMap(kernelSize), Region(Unavailable, end, MAP_BYTES)), 0) == KernelMap(kernelSize)
  {
    hide Resolve, Insert, TrimAll;
    var m, r := KernelMap(kernelSize), Region(Unavailable, end, MAP_BYTES);
    var k, t := m[0], m[1..];
    KernelSettled(kernelSize);
    SettledStays(m);
    assert m == [k] + t;
    if r.Less(k) {
      InsertFront(m, r);
      assert [r] + m == [r, k] + t;
      ResolveCases(r, k);
      FirstMerges(r, k, t, k);
    } else {
      InsertPlaces(m, r, 1);
      assert m[..1] + [r] + m[1..] == [k, r] + t;
      ResolveCases(k, r);
      FirstMerges(k, r, t, k);
    }
  }

  lemma PlacedDisk(kernelSize: nat)
    requires 0 < kernelSize < RAM_END
    ensures TrimAll(Insert(KernelMap(kernelSize), RamDisk()), 0) == BootRegions(kernelSize)
  {
    if kernelSize < 0x800_0000 {
      DiskApart(kernelSize);
    } else {
      DiskJoins(kernelSize);
    }
  }

  /** The RAM disk splits the available memory behind the kernel. */
  lemma DiskApart(kernelSize: nat)
    requires 0 < kernelSize < 0x800_0000
    ensures TrimAll(Insert(KernelMap(kernelSize), RamDisk()), 0) == BootRegions(kernelSize)
  {
    hide Passes, Resolve, Insert, TrimAll;
    var m, r, d := KernelMap(kernelSize), RamDisk(), Devices();
    var k, a := m[0], m[1];
    KernelTypes(kernelSize, 0);
    InsertPlaces(m, r, 2);
    assert m[..2] + [r] + m[2..] == [k, a] + [r, d];
    var c, rest := Region(Available, kernelSize, 0x800_0000 - kernelSize), Ram(0xC00_0000);
    ResolveCases(a, r);
    InsertFront([d], rest);
    assert [rest] + [d] == [rest, d];
    SettledRun([k] + [c, r], [rest, d]);
    PassSplit([k], a, r, [d], [c, r], rest, c, r, [rest, d], [rest, d], 2);
    assert [a, r] + [d] == [a] + [r, d] && [c, r] + [rest, d] == [c, r, rest, d] && [] + [k] == [k];
    ResolveCases(k, a);
    PassAdvance([], k, a, [r, d], k, a, [c, r, rest, d], 4);
    assert [k] + [c, r, rest, d] == BootRegions(kernelSize);
    PassedFromStart([k, a] + [r, d], BootRegions(kernelSize), 5);
  }

  lemma KernelSettled(kernelSize: nat)
    requires 0 < kernelSize < RAM_END
    ensures Settled(KernelMap(kernelSize))
  {
  }

  lemma DiskUnion(kernelSize: nat)
    requires 0x800_0000 <= kernelSize < RAM_END
    ensures Resolve(Region(Unavailable, 0, kernelSize), RamDisk())
      == Resolution([Region(Unavailable, 0, Used(kernelSize))], [], 0)
  {
    hide Resolve;
    ResolveCases(Region(Unavailable, 0, kernelSize), RamDisk());
  }

  lemma DiskCuts(kernelSize: nat)
    requires 0x800_0000 <= kernelSize < RAM_END
    ensures var u := Region(Unavailable, 0, Used(kernelSize));
      Resolve(u, Ram(kernelSize)) == Resolution([u, Ram(Used(kernelSize))], [], 1)
  {
    hide Resolve;
    ResolveCases(Region(Unavailable, 0, Used(kernelSize)), Ram(kernelSize));
  }

  /** The RAM disk touches the kernel or lies inside it: both become one region. */
  lemma DiskJoins(kernelSize: nat)
    requires 0x800_0000 <= kernelSize < RAM_END
    ensures TrimAll(Insert(KernelMap(kernelSize), RamDisk()), 0) == BootRegions(kernelSize)
  {
    hide Resolve, Insert, TrimAll;
    var m, r, d := KernelMap(kernelSize), RamDisk(), Devices();
    var k, a, u, v := m[0], m[1], Region(Unavailable, 0, Used(kernelSize)), Ram(Used(kernelSize));
    KernelSettled(kernelSize);
    InsertPlaces(m, r, 1);
    assert m[..1] + [r] + m[1..] == [k, r] + [a, d];
    DiskUnion(kernelSize);
    DiskCuts(kernelSize);
    FirstMerges(k, r, [a, d], u);
    assert [u] + [a, d] == [u, a] + [d] && [v] + [d] == [v, d];
    FirstAdvances(u, a, [d], u, v);
    assert BootRegions(kernelSize) == [u, v] + [d];
  }

  // The pages the allocator starts with.

  /** Page p lies in the memory that is neither the kernel's nor the RAM disk's. */
  ghost predicate FreeAtBoot(p: nat, kernelSize: nat) {
    && kernelSize <= p * 0x1000 && p * 0x1000 + 0x1000 <= 0x2000_0000
    && (p * 0x1000 + 0x1000 <= 0x800_0000 || 0xC00_0000 <= p * 0x1000)
  }

  lemma SuppliedAtBoot(kernelSize: nat, p: nat)
    requires 0 < kernelSize < RAM_END
    ensures PageAllocators.Supplied(BootRegions(kernelSize), p, 0x1000) <==> FreeAtBoot(p, kernelSize)
  {
    var m := BootRegions(kernelSize);
    if kernelSize < 0x800_0000 {
      SuppliedBy(m, p, 1, 3);
    } else {
      SuppliedBy(m, p, 1, 1);
    }
  }

  lemma SuppliedBy(m: seq<Region>, p: nat, i: nat, j: nat)
    requires i < |m| && j < |m| && forall n :: 0 <= n < |m| ==> (m[n].kind == Available <==> n == i || n == j)
    ensures PageAllocators.Supplied(m, p, 0x1000) <==>
      PageAllocators.PageWithin(m[i], p, 0x1000) || PageAllocators.PageWithin(m[j], p, 0x1000)
  {
  }

  lemma BootSized(m: seq<Region>, kernelSize: nat, end: nat)
    requires end + MAP_BYTES <= kernelSize < RAM_END && Clean(m)
    requires forall x: nat :: At(m, x) == BootType(x, kernelSize, end)
    ensures exists n: nat :: PageAllocators.LastAvailable(m, n)
    ensures forall n: nat :: PageAllocators.LastAvailable(m, n) ==>
      LLog2(PageAllocators.MapBytes(m[n].End(), 0x1000) / PageAllocators.BLOCK_BYTES) < PageAllocators.AVAIL_LIST_SIZE
  {
    hide At, LLog2, PageAllocators.MapBytes;
    assert At(m, RAM_END - 1) == Just(Available);
    LastEnds(m, RAM_END);
    MapBytesOfRam();
  }

  /** Boot as far as the page allocator: it starts with exactly the whole pages of RAM outside the kernel's memory and
  the RAM disk. The block map lies inside the kernel's memory. */
  method InitMemory(kernelSize: nat, end: nat) returns (m: MemoryMap, a: PageAllocators.PageAllocator)
    requires end + MAP_BYTES <= kernelSize < RAM_END
    ensures fresh(m) && fresh(a) && m.Valid()
    ensures a.Valid() && a.blockSize == 0x1000 && a.live == map[]
    ensures forall p: nat :: p in a.FreePages() <==> FreeAtBoot(p, kernelSize)
    ensures a.freeBlockCount == 2 * |a.FreePages()|
  {
    hide At, LLog2, PageAllocators.MapBytes, PageAllocators.Supplied, FreeAtBoot, BootRegions;
    m := PlaceAll(kernelSize, end);
    ghost var regions := m.Contents();
    BootSized(regions, kernelSize, end);
    a := new PageAllocators.PageAllocator(m.regions[..m.mapSize], 0x1000);
    forall p: nat ensures p in a.FreePages() <==> FreeAtBoot(p, kernelSize) {
      SuppliedAtBoot(kernelSize, p);
    }
  }
}
