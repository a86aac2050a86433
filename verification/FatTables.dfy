/** Where FAT entries lie on the disk image, and the table as a sequence of entry values. */
module FatTables {
  import opened Sectors
  import opened FatChains

  /** The fields of the boot sector that locate the table. */
  datatype Geometry = Geometry(sectorSize: nat, sectorsPerCluster: nat, sectorsPerFat: nat, reservedSectors: nat,
      totalSectors: nat)

  function Clusters(g: Geometry): nat
    requires g.sectorsPerCluster > 0
  {
    g.totalSectors / g.sectorsPerCluster
  }

  /** The bound of the search for a free cluster. */
  function SearchLimit(g: Geometry): nat
    requires g.sectorsPerCluster > 0
  {
    g.sectorsPerFat / g.sectorsPerCluster
  }

  /** How many entries the table has room for. */
  function Capacity(g: Geometry): nat {
    SectorStart(g.sectorSize / 4, g.sectorsPerFat)
  }

  function FatEnd(g: Geometry): nat {
    SectorStart(g.sectorSize, g.reservedSectors + g.sectorsPerFat)
  }

  /** A volume whose table has an entry for every cluster and lies on the disk. */
  predicate Mounted(g: Geometry, diskSize: nat) {
    && g.sectorSize >= 512 && g.sectorSize % 4 == 0 && g.sectorsPerCluster > 0 && g.sectorsPerFat > 0
    && g.sectorsPerFat <= g.totalSectors && Clusters(g) <= Capacity(g) && Clusters(g) <= 0x1000_0000 - 16
    && FatEnd(g) <= diskSize < 0x8000_0000
  }

  function EntryByte(g: Geometry, i: nat): nat {
    SectorStart(g.sectorSize, g.reservedSectors) + i * 4
  }

  function EntrySector(g: Geometry, i: nat): nat
    requires g.sectorSize > 0
  {
    EntryByte(g, i) / g.sectorSize
  }

  function EntryOffset(g: Geometry, i: nat): nat
    requires g.sectorSize > 0
  {
    EntryByte(g, i) % g.sectorSize
  }

  lemma MultipleOfFour(x: nat, size: nat)
    requires size > 0 && size % 4 == 0 && x % 4 == 0
    ensures x % size % 4 == 0
  {
    var q, m, h := x / size, x % size, size / 4;
    assert x == size * q + m;
    assert size * q == 4 * (h * q) by {
      assert size == 4 * h;
    }
  }

  lemma FourTimes(size: nat, spf: nat)
    requires size % 4 == 0
    ensures 4 * SectorStart(size / 4, spf) == SectorStart(size, spf)
  {
    var h := size / 4;
    assert size == 4 * h;
    assert (4 * h) * spf == 4 * (h * spf);
  }

  lemma SectorBelow(size: nat, spf: nat, x: nat)
    requires size > 0 && x < SectorStart(size, spf)
    ensures x / size < spf
  {
    var q := x / size;
    assert x == size * q + x % size;
    if q >= spf {
      if q > spf {
        SectorStep(size, spf, q);
      }
    }
  }

  /** An entry lies whole in one sector of the table; both ways the code finds that sector agree. */
  lemma EntryPlace(g: Geometry, i: nat)
    requires g.sectorSize > 0 && g.sectorSize % 4 == 0 && i < Capacity(g)
    ensures EntrySector(g, i) == g.reservedSectors + i * 4 / g.sectorSize && EntryOffset(g, i) == i * 4 % g.sectorSize
    ensures EntryOffset(g, i) % 4 == 0 && EntryOffset(g, i) + 4 <= g.sectorSize
    ensures SectorStart(g.sectorSize, EntrySector(g, i)) + EntryOffset(g, i) == EntryByte(g, i)
    ensures SectorStart(g.sectorSize, EntrySector(g, i)) + g.sectorSize <= FatEnd(g)
  {
    hide SectorStart;
    SplitOffset(g.sectorSize, g.reservedSectors, i * 4);
    MultipleOfFour(i * 4, g.sectorSize);
    FourTimes(g.sectorSize, g.sectorsPerFat);
    SectorBelow(g.sectorSize, g.sectorsPerFat, i * 4);
    SectorStep(g.sectorSize, EntrySector(g, i), g.reservedSectors + g.sectorsPerFat);
  }

  lemma EntryByteInside(g: Geometry, i: nat)
    requires g.sectorSize > 0 && g.sectorSize % 4 == 0 && i < Capacity(g)
    ensures EntryByte(g, i) + 4 <= FatEnd(g)
  {
    EntryPlace(g, i);
    hide SectorStart;
  }

  function EntryAt(g: Geometry, bytes: seq<byte>, i: nat): (v: nat)
    requires g.sectorSize > 0 && g.sectorSize % 4 == 0 && FatEnd(g) <= |bytes| && i < Capacity(g)
  {
    EntryByteInside(g, i);
    Word(bytes, EntryByte(g, i))
  }

  /** The table as the sequence of its entry values. */
  ghost function Fat(g: Geometry, bytes: seq<byte>): (fat: seq<nat>)
    requires g.sectorSize > 0 && g.sectorSize % 4 == 0 && FatEnd(g) <= |bytes|
    ensures |fat| == Capacity(g) && forall i :: 0 <= i < |fat| ==> fat[i] == EntryAt(g, bytes, i)
  {
    seq(Capacity(g), i requires 0 <= i < Capacity(g) => EntryAt(g, bytes, i))
  }

  function Sector(bytes: seq<byte>, size: nat, s: nat): (r: seq<byte>)
    requires SectorStart(size, s) + size <= |bytes|
    ensures |r| == size
  {
    bytes[SectorStart(size, s)..SectorStart(size, s) + size]
  }

  function PutSector(bytes: seq<byte>, size: nat, s: nat, buffer: seq<byte>): (r: seq<byte>)
    requires SectorStart(size, s) + size <= |bytes| && |buffer| == size
    ensures |r| == |bytes|
  {
    bytes[..SectorStart(size, s)] + buffer + bytes[SectorStart(size, s) + size..]
  }

  /** Reading an entry through its sector's buffer. */
  lemma BufferedEntry(g: Geometry, bytes: seq<byte>, i: nat)
    requires Mounted(g, |bytes|) && i < Capacity(g)
    ensures SectorStart(g.sectorSize, EntrySector(g, i)) + g.sectorSize <= |bytes|
    ensures EntryOffset(g, i) + 4 <= g.sectorSize
    ensures Word(Sector(bytes, g.sectorSize, EntrySector(g, i)), EntryOffset(g, i)) == Fat(g, bytes)[i]
  {
    hide SectorStart, Clusters, Capacity;
    EntryPlace(g, i);
  }

  lemma PatchIsPut(bytes: seq<byte>, size: nat, s: nat, w: nat, v: nat)
    requires SectorStart(size, s) + size <= |bytes| && w + 4 <= size
    ensures PutSector(bytes, size, s, PutWord(Sector(bytes, size, s), w, v)) == PutWord(bytes, SectorStart(size,
      s) + w, v)
  {
    hide ByteOf, SectorStart;
  }

  /** Reading a sector, changing one entry in the buffer and writing the sector back changes that entry alone. */
  lemma PatchEntry(g: Geometry, bytes: seq<byte>, i: nat, v: nat)
    requires Mounted(g, |bytes|) && i < Capacity(g) && v < 0x1_0000_0000
    ensures SectorStart(g.sectorSize, EntrySector(g, i)) + g.sectorSize <= |bytes|
    ensures EntryOffset(g, i) + 4 <= g.sectorSize
    ensures EntryByte(g, i) + 4 <= |bytes|
    ensures var s := EntrySector(g, i);
      var r := PutSector(bytes, g.sectorSize, s, PutWord(Sector(bytes, g.sectorSize, s), EntryOffset(g, i), v));
      r == PutWord(bytes, EntryByte(g, i), v) && Fat(g, r) == Fat(g, bytes)[i := v]
  {
    hide SectorStart, Clusters, Capacity, PutWord, Word, Sector, PutSector;
    EntryPlace(g, i);
    PatchIsPut(bytes, g.sectorSize, EntrySector(g, i), EntryOffset(g, i), v);
    var r := PutWord(bytes, EntryByte(g, i), v);
    forall j | 0 <= j < Capacity(g) ensures EntryAt(g, r, j) == if j == i then v else EntryAt(g, bytes, j) {
      EntryByteInside(g, j);
      WordRoundTrip(bytes, EntryByte(g, i), v, EntryByte(g, j));
    }
    assert Fat(g, r) == Fat(g, bytes)[i := v];
  }

  /** The search bound and the cluster count of a mounted volume fit the table. */
  lemma MountedSearchable(g: Geometry, bytes: seq<byte>)
    requires Mounted(g, |bytes|)
    ensures g.sectorsPerCluster > 0
    ensures Searchable(Fat(g, bytes), Clusters(g), SearchLimit(g)) && SearchLimit(g) < Capacity(g) && 2 < Capacity(g)
  {
    QuotientMonotone(g.sectorsPerFat, g.totalSectors, g.sectorsPerCluster);
    ManyEntries(g.sectorSize / 4, g.sectorsPerFat);
    QuotientBelow(g.sectorsPerFat, g.sectorsPerCluster);
  }

  /** Entry i is free and the search for a free cluster reaches it. */
  ghost predicate Givable(g: Geometry, fat: seq<nat>, i: nat) {
    2 <= i < |fat| && (i + 1) * g.sectorsPerCluster <= g.sectorsPerFat && fat[i] % 0x1000_0000 == 0
  }

  lemma QuotientAbove(i: nat, x: nat, b: nat)
    requires b > 0
    ensures (i + 1) * b <= x <==> i < x / b
  {
    var q := x / b;
    assert x == b * q + x % b;
    if i < q {
      SectorStep(b, i, q);
      assert (i + 1) * b == b * i + b;
    } else {
      assert (i + 1) * b == b * i + b;
      if q < i {
        SectorStep(b, q, i);
      }
    }
  }

  lemma GivableIff(g: Geometry, fat: seq<nat>, i: nat)
    requires g.sectorsPerCluster > 0 && SearchLimit(g) <= |fat|
    ensures Givable(g, fat, i) <==> 2 <= i < SearchLimit(g) && TypeOf(fat[i], Clusters(g)) == Free
  {
    hide Clusters;
    QuotientAbove(i, g.sectorsPerFat, g.sectorsPerCluster);
  }

  /** The search gives the least entry it can give, or 0 exactly when there is none. */
  lemma FirstGivable(g: Geometry, fat: seq<nat>)
    requires g.sectorsPerCluster > 0 && SearchLimit(g) <= |fat|
    ensures var f := FirstFree(fat, Clusters(g), SearchLimit(g));
      && (f == 0 <==> forall i: nat :: !Givable(g, fat, i))
      && (f != 0 ==> Givable(g, fat, f) && forall i: nat :: Givable(g, fat, i) ==> f <= i)
  {
    hide Clusters, SearchLimit, Givable, FirstFreeFrom;
    forall i: nat ensures Givable(g, fat, i) <==> 2 <= i < SearchLimit(g) && TypeOf(fat[i], Clusters(g)) == Free {
      GivableIff(g, fat, i);
    }
  }

  /** The volume counts as full although an entry is free exactly when all free entries lie past the bound of the
  search. */
  lemma FullThoughFree(g: Geometry, fat: seq<nat>)
    requires g.sectorsPerCluster > 0 && SearchLimit(g) <= |fat|
    ensures FirstFree(fat, Clusters(g), SearchLimit(g)) == 0 <==>
      forall i: nat :: 2 <= i < |fat| && fat[i] % 0x1000_0000 == 0 ==> g.sectorsPerFat < (i + 1) * g.sectorsPerCluster
  {
    hide Clusters, SearchLimit, FirstFree;
    FirstGivable(g, fat);
    forall i: nat
      ensures !Givable(g, fat, i) <==>
        !(2 <= i < |fat| && fat[i] % 0x1000_0000 == 0) || g.sectorsPerFat < (i + 1) * g.sectorsPerCluster
    {
    }
  }

  /** A volume of 1024 clusters whose table has 1024 entries: after the first eight are used, the other 1016 are never
  given out. */
  lemma MostNeverGiven()
    ensures var g := Geometry(512, 1, 8, 32, 1024); var fat := seq(1024, i => if i < 8 then EndMark else 0);
      && Mounted(g, 1024 * 512) && |fat| == Capacity(g) && SearchLimit(g) <= |fat|
      && (forall i :: 8 <= i < 1024 ==> fat[i] == 0) && FirstFree(fat, Clusters(g), SearchLimit(g)) == 0
  {
    hide FirstFree;
    var g, fat := Geometry(512, 1, 8, 32, 1024), seq(1024, i => if i < 8 then EndMark else 0);
    FullThoughFree(g, fat);
  }

  lemma QuotientBelow(x: nat, b: nat)
    requires b > 0
    ensures x / b <= x
  {
    var q := x / b;
    if q > x {
      TimesAtLeast(b, q);
    }
  }

  lemma TimesAtLeast(b: nat, q: nat)
    requires b > 0
    ensures b * q >= q
  {
    assert b * q == q + (b - 1) * q;
  }

  lemma ManyEntries(h: nat, spf: nat)
    requires h >= 128 && spf > 0
    ensures SectorStart(h, spf) >= 128 * spf
  {
    assert h * spf == 128 * spf + (h - 128) * spf;
  }

  lemma QuotientMonotone(x: nat, y: nat, b: nat)
    requires b > 0 && x <= y
    ensures x / b <= y / b
  {
    var q, r := x / b, y / b;
    assert x == b * q + x % b && y == b * r + y % b;
    if r < q {
      SectorStep(b, r, q);
    }
  }

  function FatStart(g: Geometry): nat {
    SectorStart(g.sectorSize, g.reservedSectors)
  }

  /** The four bytes before the table, where entry -1 would be: the end of the sector before it. */
  lemma PatchBefore(g: Geometry, bytes: seq<byte>, v: nat)
    requires Mounted(g, |bytes|) && g.reservedSectors > 0 && v < 0x1_0000_0000
    ensures 4 <= FatStart(g) <= |bytes|
    ensures FatStart(g) - 4 == SectorStart(g.sectorSize, g.reservedSectors - 1) + (g.sectorSize - 4)
    ensures (FatStart(g) - 4) / g.sectorSize == g.reservedSectors - 1
    ensures (FatStart(g) - 4) % g.sectorSize == g.sectorSize - 4
    ensures SectorStart(g.sectorSize, g.reservedSectors - 1) + g.sectorSize <= |bytes|
    ensures var s := g.reservedSectors - 1;
      var r := PutSector(bytes, g.sectorSize, s, PutWord(Sector(bytes, g.sectorSize, s), g.sectorSize - 4, v));
      r == PutWord(bytes, FatStart(g) - 4, v) && Fat(g, r) == Fat(g, bytes) && Word(r, FatStart(g) - 4) == v
  {
    hide SectorStart, Clusters, Capacity, PutWord, Word, Sector, PutSector;
    var s, size := g.reservedSectors - 1, g.sectorSize;
    SectorStep(size, s, s + 1);
    StartNext(size, s);
    SplitOffset(size, s, size - 4);
    TailOfSector(size);
    SectorStep(size, g.reservedSectors, g.reservedSectors + g.sectorsPerFat);
    PatchIsPut(bytes, size, s, size - 4, v);
    var r := PutWord(bytes, FatStart(g) - 4, v);
    WordRoundTrip(bytes, FatStart(g) - 4, v, 0);
    forall j | 0 <= j < Capacity(g) ensures EntryAt(g, r, j) == EntryAt(g, bytes, j) {
      EntryByteInside(g, j);
      WordRoundTrip(bytes, FatStart(g) - 4, v, EntryByte(g, j));
    }
    assert Fat(g, r) == Fat(g, bytes);
  }

  lemma StartNext(size: nat, s: nat)
    ensures SectorStart(size, s + 1) == SectorStart(size, s) + size
  {
  }

  lemma TailOfSector(size: nat)
    requires size >= 4
    ensures (size - 4) / size == 0 && (size - 4) % size == size - 4
  {
  }

  /** Entry numbers are far below the end value. */
  lemma CapacityBelowEnd(g: Geometry, diskSize: nat)
    requires Mounted(g, diskSize)
    ensures Capacity(g) <= EndMark
  {
    hide SectorStart;
    FourTimes(g.sectorSize, g.sectorsPerFat);
    SumOfStarts(g.sectorSize, g.reservedSectors, g.sectorsPerFat);
  }

  lemma SumOfStarts(size: nat, a: nat, b: nat)
    ensures SectorStart(size, a + b) == SectorStart(size, a) + SectorStart(size, b)
  {
  }
}
