/** The sector device and the cluster bookkeeping of a directory entry. */
module Fat32 {
  import opened Sectors
  import opened FatChains
  import opened FatTables

  /** The disk image and its sector size. */
  class Disk {
    const bytes: array<byte>
    const sectorSize: nat

    constructor (bytes: array<byte>, sectorSize: nat)
      ensures this.bytes == bytes && this.sectorSize == sectorSize
    {
      this.bytes := bytes;
      this.sectorSize := sectorSize;
    }

    /** A copy of one sector. */
    method Read(s: nat) returns (buffer: array<byte>)
      requires SectorStart(sectorSize, s) + sectorSize <= bytes.Length
      ensures fresh(buffer) && buffer[..] == Sector(bytes[..], sectorSize, s)
    {
      hide SectorStart;
      buffer := new byte[sectorSize];
      var offset := SectorStart(sectorSize, s);
      for i := 0 to sectorSize
        invariant forall k :: 0 <= k < i ==> buffer[k] == bytes[offset + k]
      {
        buffer[i] := bytes[i + offset];
      }
    }

    method Write(s: nat, buffer: array<byte>)
      requires SectorStart(sectorSize, s) + sectorSize <= bytes.Length && buffer.Length == sectorSize && buffer != bytes
      modifies bytes
      ensures bytes[..] == PutSector(old(bytes[..]), sectorSize, s, buffer[..])
    {
      hide SectorStart;
      var offset := SectorStart(sectorSize, s);
      for i := 0 to sectorSize
        invariant forall k :: 0 <= k < i ==> bytes[offset + k] == buffer[k]
        invariant forall k :: 0 <= k < bytes.Length && (k < offset || k >= offset + i) ==> bytes[k] == old(bytes[k])
      {
        bytes[i + offset] := buffer[i];
      }
      ghost var r := PutSector(old(bytes[..]), sectorSize, s, buffer[..]);
      forall k | 0 <= k < |r| ensures r[k] == bytes[k] {
        if offset <= k < offset + sectorSize {
          assert bytes[offset + (k - offset)] == buffer[k - offset];
        }
      }
    }
  }

  method IntToBytes(num: nat, buffer: array<byte>, offset: nat)
    requires offset + 4 <= buffer.Length
    modifies buffer
    ensures buffer[..] == PutWord(old(buffer[..]), offset, num)
  {
    hide ByteOf;
    for i := 0 to 4
      invariant forall k :: 0 <= k < i ==> buffer[offset + k] == ByteOf(num, k)
      invariant forall k :: 0 <= k < buffer.Length && (k < offset || k >= offset + i) ==> buffer[k] == old(buffer[k])
    {
      buffer[i + offset] := ByteOf(num, i);
    }
    ghost var r := PutWord(old(buffer[..]), offset, num);
    forall k | 0 <= k < |r| ensures r[k] == buffer[k] {
      if offset <= k < offset + 4 {
        assert buffer[offset + (k - offset)] == ByteOf(num, k - offset);
      }
    }
  }

  method BytesToInt(buffer: array<byte>, index: nat) returns (v: nat)
    requires index + 4 <= buffer.Length
    ensures v == Word(buffer[..], index)
  {
    var temp: seq<byte> := [];
    for i := 0 to 4
      invariant |temp| == i && forall k :: 0 <= k < i ==> temp[k] == buffer[index + k]
    {
      temp := temp + [buffer[i + index]];
    }
    v := Word(temp, 0);
  }

  /** The clusters allocated to a file on a mounted volume. */
  class Entry {
    const fs: Geometry
    const disk: Disk
    var allocations: seq<nat>

    constructor (fs: Geometry, disk: Disk)
      ensures this.fs == fs && this.disk == disk && allocations == []
    {
      this.fs, this.disk := fs, disk;
      allocations := [];
    }

    ghost predicate Ready()
      reads this, disk
    {
      Mounted(fs, disk.bytes.Length) && disk.sectorSize == fs.sectorSize
    }

    ghost function Table(): seq<nat>
      requires Ready()
      reads this, disk, disk.bytes
    {
      Fat(fs, disk.bytes[..])
    }

    /** The sector that holds entry i. */
    method ReadEntrySector(i: nat) returns (buffer: array<byte>)
      requires Ready() && i < Capacity(fs)
      ensures fresh(buffer) && buffer.Length == fs.sectorSize && EntryOffset(fs, i) + 4 <= fs.sectorSize
      ensures SectorStart(fs.sectorSize, EntrySector(fs, i)) + fs.sectorSize <= disk.bytes.Length
      ensures buffer[..] == Sector(disk.bytes[..], fs.sectorSize, EntrySector(fs, i))
    {
      hide SectorStart, Clusters, Capacity;
      BufferedEntry(fs, disk.bytes[..], i);
      buffer := disk.Read(EntrySector(fs, i));
    }

    /** Puts v into entry i in the buffer of its sector and writes the sector. */
    method WriteEntry(i: nat, v: nat, buffer: array<byte>)
      requires Ready() && i < Capacity(fs) && v < 0x1_0000_0000 && buffer != disk.bytes
      requires SectorStart(fs.sectorSize, EntrySector(fs, i)) + fs.sectorSize <= disk.bytes.Length
      requires buffer[..] == Sector(disk.bytes[..], fs.sectorSize, EntrySector(fs, i))
      modifies buffer, disk.bytes
      ensures Table() == old(Table())[i := v]
      ensures EntryByte(fs, i) + 4 <= disk.bytes.Length
      ensures disk.bytes[..] == PutWord(old(disk.bytes[..]), EntryByte(fs, i), v)
    {
      hide SectorStart, Clusters, Capacity, PutWord, PutSector, Sector;
      PatchEntry(fs, disk.bytes[..], i, v);
      assert |buffer[..]| == fs.sectorSize;
      IntToBytes(v, buffer, EntryOffset(fs, i));
      disk.Write(EntrySector(fs, i), buffer);
    }

    /** Scans the table for the first free entry through one buffered sector at a time. */
    method FindFreeCluster() returns (r: nat)
      requires Ready()
      ensures SearchLimit(fs) <= |Table()| && r == FirstFree(Table(), Clusters(fs), SearchLimit(fs))
      ensures r == 0 <==> forall i: nat :: !Givable(fs, Table(), i)
      ensures r != 0 ==> Givable(fs, Table(), r) && forall i: nat :: Givable(fs, Table(), i) ==> r <= i
    {
      hide SectorStart, Capacity, Sector, Clusters, SearchLimit, Word, FirstFree, Givable;
      ghost var fat, bytes := Table(), disk.bytes[..];
      MountedSearchable(fs, bytes);
      FirstGivable(fs, fat);
      var limit, current := SearchLimit(fs), 2;
      var buffer := ReadEntrySector(current);
      FirstFreeStarts(fat, Clusters(fs), limit);
      while current < limit
        invariant 2 <= current && (current <= limit || current == 2) && current < Capacity(fs)
        invariant disk.bytes[..] == bytes && buffer != disk.bytes && buffer.Length == fs.sectorSize
        invariant SectorStart(fs.sectorSize, EntrySector(fs, current)) + fs.sectorSize <= |bytes|
        invariant buffer[..] == Sector(bytes, fs.sectorSize, EntrySector(fs, current))
        invariant FirstFree(fat, Clusters(fs), limit) == FirstFreeFrom(fat, Clusters(fs), limit, current)
        decreases limit - current
      {
        BufferedEntry(fs, bytes, current);
        var val := BytesToInt(buffer, EntryOffset(fs, current));
        if TypeOf(val, Clusters(fs)) == Free {
          return current;
        }
        var next := current + 1;
        if EntrySector(fs, next) != EntrySector(fs, current) {
          buffer := ReadEntrySector(next);
        }
        current := next;
      }
      return 0;
    }

    /** Allocates the first cluster of a file that has none. */
    method InitialCluster() returns (ok: bool)
      requires Ready() && allocations == []
      modifies this`allocations, disk.bytes
      ensures SearchLimit(fs) <= |old(Table())|
      ensures var f := FirstFree(old(Table()), Clusters(fs), SearchLimit(fs));
        && ok == (f != 0)
        && (if ok then Table() == old(Table())[f := EndMark] && allocations == [f]
            else Table() == old(Table()) && allocations == [])
      ensures ok <==> exists i: nat :: Givable(fs, old(Table()), i)
      ensures ok ==> Givable(fs, old(Table()), allocations[0]) && Table()[allocations[0]] == 0xFFFF_FFFF
    {
      hide SectorStart, Capacity, Sector, Clusters, SearchLimit, FirstFreeFrom, Mounted;
      MountedSearchable(fs, disk.bytes[..]);
      var current := FindFreeCluster();
      if current == 0 {
        return false;
      }
      var buffer := ReadEntrySector(current);
      WriteEntry(current, EndMark, buffer);
      allocations := allocations + [current];
      return true;
    }

    /** A list that can be grown: empty, or ending in a table entry or in the end value, which the code reads as -1. */
    ghost predicate Growable()
      reads this
    {
      allocations != [] ==> var last := allocations[|allocations| - 1];
        last < Capacity(fs) || (last == EndMark && fs.reservedSectors > 0)
    }

    /** Appends clusters to the file's list, one table sector at a time. Behind an end value the first link goes into
    the four bytes before the table. */
    method AllocateMoreClusters(count: int) returns (ok: bool)
      requires Ready() && Growable()
      modifies this`allocations, disk.bytes
      ensures SearchLimit(fs) <= |old(Table())|
      ensures count <= 0 ==> !ok && Table() == old(Table()) && allocations == old(allocations)
      ensures count > 0 && (old(allocations) == [] || old(allocations)[|old(allocations)| - 1] < Capacity(fs)) ==>
        Growth(Table(), allocations, ok) == Allocate(old(Table()), Clusters(fs), SearchLimit(fs), old(allocations),
            count)
      ensures count > 0 && old(allocations) != [] && old(allocations)[|old(allocations)| - 1] >= Capacity(fs) ==>
        && Growth(Table(), allocations, ok) == AllocateBehindEnd(old(Table()), Clusters(fs), SearchLimit(fs),
            old(allocations), count)
        && 4 <= FatStart(fs) <= disk.bytes.Length
        && Word(disk.bytes[..], FatStart(fs) - 4) ==
           (var f := FirstFree(old(Table()), Clusters(fs), SearchLimit(fs)); if f == 0 then EndMark else f)
      ensures count > 0 && (forall i: nat :: !Givable(fs, old(Table()), i)) ==> !ok && allocations == old(allocations)
      ensures count == 1 ==>
        && (ok <==> exists i: nat :: Givable(fs, old(Table()), i))
        && (ok ==> |allocations| == |old(allocations)| + 1
                   && Givable(fs, old(Table()), allocations[|old(allocations)|]))
    {
      hide SectorStart, Capacity, Sector, Clusters, SearchLimit, FirstFree, Mounted, Word, FatStart, Rounds, Givable;
      ghost var before, list := Table(), allocations;
      MountedSearchable(fs, disk.bytes[..]);
      FirstGivable(fs, before);
      FirstRound(before, Clusters(fs), SearchLimit(fs), list, count);
      CapacityBelowEnd(fs, disk.bytes.Length);
      if count <= 0 {
        return false;
      }
      var remaining: nat := count;
      if allocations == [] {
        var first := InitialCluster();
        if !first {
          return false;
        }
        remaining := remaining - 1;
      }
      if allocations[|allocations| - 1] == EndMark {
        ok := AppendBehindEnd(remaining);
      } else {
        ok := AppendRounds(remaining);
      }
    }

    /** The rounds from the last cluster of the list. */
    method AppendRounds(count: nat) returns (ok: bool)
      requires Ready() && allocations != [] && allocations[|allocations| - 1] < Capacity(fs)
      modifies this`allocations, disk.bytes
      ensures SearchLimit(fs) <= |old(Table())|
      ensures Growth(Table(), allocations, ok) ==
        Rounds(old(Table()), Clusters(fs), SearchLimit(fs), old(allocations)[|old(allocations)| - 1],
            old(allocations), count)
    {
      hide SectorStart, Capacity, Sector, Clusters, SearchLimit, Rounds;
      MountedSearchable(fs, disk.bytes[..]);
      var buffer := ReadEntrySector(allocations[|allocations| - 1]);
      ok := RoundsFrom(allocations[|allocations| - 1], buffer, count);
    }

    /** The first round behind an end value: entry -1 is the end of the sector before the table. */
    method AppendBehindEnd(count: nat) returns (ok: bool)
      requires Ready() && count > 0 && fs.reservedSectors > 0
      modifies this`allocations, disk.bytes
      ensures SearchLimit(fs) <= |old(Table())|
      ensures Growth(Table(), allocations, ok) ==
        AllocateBehindEnd(old(Table()), Clusters(fs), SearchLimit(fs), old(allocations), count)
      ensures 4 <= FatStart(fs) <= disk.bytes.Length
      ensures Word(disk.bytes[..], FatStart(fs) - 4) ==
        (var f := FirstFree(old(Table()), Clusters(fs), SearchLimit(fs)); if f == 0 then EndMark else f)
    {
      hide SectorStart, Capacity, Sector, PutSector, PutWord, Clusters, SearchLimit, FirstFreeFrom, FirstFree,
          Rounds, Word, FatStart;
      ghost var bytes := disk.bytes[..];
      MountedSearchable(fs, bytes);
      PatchBefore(fs, bytes, EndMark);
      var offset := FatStart(fs) - 4;
      var buffer := disk.Read(offset / fs.sectorSize);
      assert buffer.Length == |buffer[..]| == fs.sectorSize;
      var next := FindFreeCluster();
      if next == 0 {
        IntToBytes(EndMark, buffer, offset % fs.sectorSize);
        disk.Write(offset / fs.sectorSize, buffer);
        return false;
      }
      PatchBefore(fs, bytes, next);
      IntToBytes(next, buffer, offset % fs.sectorSize);
      disk.Write(offset / fs.sectorSize, buffer);
      allocations := allocations + [next];
      ghost var u := disk.bytes[..];
      buffer := ReadEntrySector(next);
      ok := RoundsFrom(next, buffer, count - 1);
      WordBefore(u, disk.bytes[..], FatStart(fs));
    }

    /** The loop of cluster allocation from the entry whose sector is buffered, and the closing end mark. */
    method RoundsFrom(first: nat, buffer: array<byte>, count: nat) returns (ok: bool)
      requires Ready() && first < Capacity(fs) && buffer != disk.bytes
      requires SectorStart(fs.sectorSize, EntrySector(fs, first)) + fs.sectorSize <= disk.bytes.Length
      requires buffer[..] == Sector(disk.bytes[..], fs.sectorSize, EntrySector(fs, first))
      modifies this`allocations, disk.bytes, buffer
      ensures SearchLimit(fs) <= |old(Table())|
      ensures Growth(Table(), allocations, ok) ==
        Rounds(old(Table()), Clusters(fs), SearchLimit(fs), first, old(allocations), count)
      ensures FatStart(fs) <= disk.bytes.Length && disk.bytes[..FatStart(fs)] == old(disk.bytes[..])[..FatStart(fs)]
    {
      hide SectorStart, Capacity, Sector, Clusters, SearchLimit, FirstFreeFrom, FirstFree, PutWord, FatStart,
          EntryByte, Rounds;
      ghost var clusters, limit, bytes := Clusters(fs), SearchLimit(fs), disk.bytes[..];
      MountedSearchable(fs, bytes);
      StartInside(fs, |bytes|);
      var current: nat, buf := first, buffer;
      ghost var goal := Rounds(Table(), clusters, limit, current, allocations, count);
      ok := true;
      var i: nat := 0;
      while i < count
        invariant i <= count && Ready() && current < Capacity(fs) && ok
        invariant (buf == buffer || fresh(buf)) && buf != disk.bytes
        invariant SectorStart(fs.sectorSize, EntrySector(fs, current)) + fs.sectorSize <= disk.bytes.Length
        invariant buf[..] == Sector(disk.bytes[..], fs.sectorSize, EntrySector(fs, current))
        invariant goal == Rounds(Table(), clusters, limit, current, allocations, count - i)
        invariant SameBefore(bytes, disk.bytes[..], FatStart(fs))
      {
        MountedSearchable(fs, disk.bytes[..]);
        RoundsUnfold(Table(), clusters, limit, current, allocations, count - i);
        var next := FindFreeCluster();
        if next == 0 {
          ok := false;
          break;
        }
        WriteEntryAfter(current, next, buf, bytes);
        buf := ReadEntrySector(next);
        current := next;
        allocations := allocations + [current];
        i := i + 1;
      }
      MountedSearchable(fs, disk.bytes[..]);
      RoundsUnfold(Table(), clusters, limit, current, allocations, count - i);
      WriteEntryAfter(current, EndMark, buf, bytes);
    }

    /** Writing an entry leaves everything before the table alone. */
    method WriteEntryAfter(i: nat, v: nat, buffer: array<byte>, ghost before: seq<byte>)
      requires Ready() && i < Capacity(fs) && v < 0x1_0000_0000 && buffer != disk.bytes
      requires SectorStart(fs.sectorSize, EntrySector(fs, i)) + fs.sectorSize <= disk.bytes.Length
      requires buffer[..] == Sector(disk.bytes[..], fs.sectorSize, EntrySector(fs, i))
      requires SameBefore(before, disk.bytes[..], FatStart(fs))
      modifies buffer, disk.bytes
      ensures Table() == old(Table())[i := v] && SameBefore(before, disk.bytes[..], FatStart(fs))
    {
      hide SectorStart, Capacity, Sector, Clusters;
      WriteEntry(i, v, buffer);
      PutWordAfter(old(disk.bytes[..]), EntryByte(fs, i), v, FatStart(fs));
    }

    /** Collects the clusters that start at the given one; two or more are followed by the value that ended the walk.
    So the list of a file just opened is its chain exactly when the file has one cluster. */
    method FindClusterAllocations(first: nat, ghost cs: seq<nat>)
      requires Ready() && (first != 0 ==> Path(Table(), Clusters(fs), cs) && cs[0] == first)
      modifies this`allocations
      ensures first == 0 ==> allocations == old(allocations)
      ensures first != 0 ==> allocations == old(allocations) + cs + (if |cs| > 1 then [Table()[cs[|cs| - 1]]] else [])
      ensures first != 0 && old(allocations) == [] && Chain(Table(), Clusters(fs), cs) ==>
        (Chain(Table(), Clusters(fs), allocations) <==> |cs| == 1)
    {
      hide SectorStart, Capacity, Sector, Clusters, Word, Chain;
      if first == 0 {
        return;
      }
      ghost var fat, bytes, before := Table(), disk.bytes[..], allocations;
      ghost var k := 0;
      BufferedEntry(fs, bytes, first);
      var current: nat := first;
      EntryPlace(fs, first);
      var sector := fs.reservedSectors + current * 4 / fs.sectorSize;
      var buffer := disk.Read(sector);
      var value := BytesToInt(buffer, EntryOffset(fs, current));
      var kind := TypeOf(value, Clusters(fs));
      assert |cs| > 1 ==> fat[cs[0]] == cs[1];
      while kind == Allocated
        invariant Walking(fat, Clusters(fs), cs, k, current, kind)
        invariant allocations == before + cs[..k] && fresh(buffer) && disk.bytes[..] == bytes
        invariant k < |cs| ==> buffer.Length == fs.sectorSize && SectorStart(fs.sectorSize, EntrySector(fs, current)) + fs.sectorSize <= |bytes|
        invariant k < |cs| ==> sector == EntrySector(fs, current) && buffer[..] == Sector(bytes, fs.sectorSize, sector)
        decreases |cs| - k
      {
        WalkStep(fat, Clusters(fs), cs, k, current, kind);
        BufferedEntry(fs, bytes, current);
        allocations := allocations + [current];
        var next := BytesToInt(buffer, EntryOffset(fs, current));
        var nextSector := fs.reservedSectors + next * 4 / fs.sectorSize;
        if TypeOf(next, Clusters(fs)) == Allocated {
          EntryPlace(fs, next);
          BufferedEntry(fs, bytes, next);
          if nextSector != sector {
            buffer := disk.Read(nextSector);
          }
        }
        current := next;
        sector := nextSector;
        kind := TypeOf(current, Clusters(fs));
        k := k + 1;
      }
      WalkEnd(fat, Clusters(fs), cs, k, current, kind);
      allocations := allocations + [current];
      OpenedList(fat, Clusters(fs), cs, before, allocations);
    }
  }

  lemma FirstFreeStarts(fat: seq<nat>, clusters: nat, limit: nat)
    requires limit <= |fat|
    ensures FirstFree(fat, clusters, limit) == FirstFreeFrom(fat, clusters, limit, 2)
  {
  }

  /** The walk stands at place k of the chain, or past its end on the end value. */
  ghost predicate Walking(fat: seq<nat>, clusters: nat, cs: seq<nat>, k: nat, current: nat, kind: EntryType) {
    && k <= |cs| && Path(fat, clusters, cs) && (k == |cs| ==> k > 1)
    && current == (if k < |cs| then cs[k] else fat[cs[|cs| - 1]])
    && (kind == Allocated <==> k < |cs| && |cs| > 1)
  }

  lemma WalkStep(fat: seq<nat>, clusters: nat, cs: seq<nat>, k: nat, current: nat, kind: EntryType)
    requires Walking(fat, clusters, cs, k, current, kind) && kind == Allocated
    ensures k < |cs| && current == cs[k] < |fat|
    ensures Walking(fat, clusters, cs, k + 1, fat[current], TypeOf(fat[current], clusters))
    ensures k + 1 < |cs| ==> fat[current] == cs[k + 1] < |fat|
    ensures cs[..k + 1] == cs[..k] + [cs[k]] && (TypeOf(fat[current], clusters) == Allocated <==> k + 1 < |cs|)
  {
  }

  lemma WalkEnd(fat: seq<nat>, clusters: nat, cs: seq<nat>, k: nat, current: nat, kind: EntryType)
    requires Walking(fat, clusters, cs, k, current, kind) && kind != Allocated
    ensures cs[..k] + [current] == cs + if |cs| > 1 then [fat[cs[|cs| - 1]]] else []
  {
    if |cs| > 1 {
      assert k == |cs| && cs[..k] == cs;
    } else {
      assert k == 0 && cs == [current];
    }
  }

  lemma OpenedList(fat: seq<nat>, clusters: nat, cs: seq<nat>, before: seq<nat>, list: seq<nat>)
    requires Path(fat, clusters, cs) && list == before + (cs + if |cs| > 1 then [fat[cs[|cs| - 1]]] else [])
    ensures list == before + cs + (if |cs| > 1 then [fat[cs[|cs| - 1]]] else [])
    ensures before == [] && Chain(fat, clusters, cs) ==> (Chain(fat, clusters, list) <==> |cs| == 1)
  {
    if before == [] && Chain(fat, clusters, cs) {
      EndValueSpoils(fat, clusters, cs);
      assert |cs| == 1 ==> list == cs;
      assert |cs| > 1 ==> list == cs + [fat[cs[|cs| - 1]]];
    }
  }

  ghost predicate SameBefore(a: seq<byte>, b: seq<byte>, start: nat) {
    |a| == |b| && start <= |a| && a[..start] == b[..start]
  }

  lemma PutWordAfter(bytes: seq<byte>, at: nat, v: nat, start: nat)
    requires start <= at && at + 4 <= |bytes|
    ensures SameBefore(bytes, PutWord(bytes, at, v), start)
  {
  }

  lemma WordBefore(a: seq<byte>, b: seq<byte>, start: nat)
    requires |a| == |b| && 4 <= start <= |a| && b[..start] == a[..start]
    ensures Word(b, start - 4) == Word(a, start - 4)
  {
    assert forall x :: 0 <= x < start ==> b[x] == b[..start][x] == a[..start][x] == a[x];
  }

  lemma StartInside(g: Geometry, diskSize: nat)
    requires Mounted(g, diskSize)
    ensures FatStart(g) <= diskSize
  {
    hide SectorStart;
    SectorStep(g.sectorSize, g.reservedSectors, g.reservedSectors + g.sectorsPerFat);
  }

  lemma RoundsUnfold(fat: seq<nat>, clusters: nat, limit: nat, cur: nat, list: seq<nat>, n: nat)
    requires limit <= |fat| && cur < |fat|
    ensures var f := FirstFree(fat, clusters, limit);
      Rounds(fat, clusters, limit, cur, list, n) ==
        if n == 0 then Growth(fat[cur := EndMark], list, true)
        else if f == 0 then Growth(fat[cur := EndMark], list, false)
        else Rounds(fat[cur := f], clusters, limit, f, list + [f], n - 1)
  {
  }
}
