/** Long-name slots on the sector device: writing, parsing and scanning through one sector buffer. */
module NameSlots {
  import opened Sectors
  import opened FatTables
  import opened LongNames
  import opened Fat32

  ghost predicate Sectored(disk: Disk)
    reads disk
  {
    disk.sectorSize > 0 && disk.sectorSize % 32 == 0 && disk.bytes.Length % disk.sectorSize == 0
  }

  lemma SlotOffset(x: nat, size: nat, q: nat, m: nat)
    requires size % 32 == 0 && x % 32 == 0 && x == SectorStart(size, q) + m
    ensures m % 32 == 0
  {
    hide SectorStart;
    SectorMultiple(size, q);
    SumMultiple(x, SectorStart(size, q), m);
  }

  lemma ZeroStart(size: nat)
    ensures SectorStart(size, 0) == 0
  {
  }

  lemma {:induction false} SectorMultiple(size: nat, q: nat)
    requires size % 32 == 0
    ensures SectorStart(size, q) % 32 == 0
  {
    hide SectorStart;
    if q == 0 {
      ZeroStart(size);
    } else {
      SectorMultiple(size, q - 1);
      SectorNext(size, q - 1);
    }
  }

  lemma SectorNext(size: nat, q: nat)
    ensures SectorStart(size, q + 1) == SectorStart(size, q) + size
  {
  }

  lemma SumMultiple(x: nat, z: nat, m: nat)
    requires x % 32 == 0 && z % 32 == 0 && x == z + m
    ensures m % 32 == 0
  {
  }

  lemma WholeSectors(length: nat, size: nat)
    requires size > 0 && length % size == 0
    ensures length == SectorStart(size, length / size)
  {
  }

  /** A slot lies whole in one sector of the disk. */
  lemma SlotInSector(size: nat, at: nat, length: nat)
    requires size > 0 && size % 32 == 0 && at % 32 == 0 && at + 32 <= length && length % size == 0
    ensures at % size + 32 <= size && SectorStart(size, at / size) + at % size == at
    ensures SectorStart(size, at / size) + size <= length
  {
    hide SectorStart;
    SplitOffset(size, 0, at);
    ZeroStart(size);
    SlotOffset(at, size, at / size, at % size);
    WholeSectors(length, size);
    SectorBelow(size, length / size, at);
    SectorStep(size, at / size, length / size);
  }

  /** An empty slot. */
  function Blank(): (slot: seq<byte>)
    ensures |slot| == SlotSize && forall j :: 0 <= j < SlotSize ==> slot[j] == 0
  {
    seq(SlotSize, j => 0)
  }

  lemma PatchSlot(bytes: seq<byte>, size: nat, at: nat, slot: seq<byte>)
    requires size > 0 && size % 32 == 0 && at % 32 == 0 && at + 32 <= |bytes| && |bytes| % size == 0
    requires |slot| == SlotSize
    ensures at % size + 32 <= size && SectorStart(size, at / size) + size <= |bytes|
    ensures PutSector(bytes, size, at / size, PutSlot(Sector(bytes, size, at / size), at % size,
      slot)) == PutSlot(bytes, at, slot)
    ensures SlotAt(Sector(bytes, size, at / size), at % size) == SlotAt(bytes, at)
  {
    hide SectorStart, PutSector, PutSlot, Sector, SlotAt;
    SlotInSector(size, at, |bytes|);
    PatchInSector(bytes, size, at / size, at % size, slot);
  }

  lemma PatchInSector(bytes: seq<byte>, size: nat, s: nat, w: nat, slot: seq<byte>)
    requires SectorStart(size, s) + size <= |bytes| && w + 32 <= size && |slot| == SlotSize
    ensures PutSector(bytes, size, s, PutSlot(Sector(bytes, size, s), w, slot)) == PutSlot(bytes, SectorStart(size,
      s) + w, slot)
    ensures SlotAt(Sector(bytes, size, s), w) == SlotAt(bytes, SectorStart(size, s) + w)
  {
    hide SectorStart;
    SliceOfSlice(bytes, SectorStart(size, s), size, w);
    PatchOfSlice(bytes, SectorStart(size, s), size, w, slot);
  }

  lemma SliceOfSlice(bytes: seq<byte>, start: nat, size: nat, w: nat)
    requires start + size <= |bytes| && w + 32 <= size
    ensures bytes[start..start + size][w..w + 32] == bytes[start + w..start + w + 32]
  {
    var sector := bytes[start..start + size];
    var a, b := sector[w..w + 32], bytes[start + w..start + w + 32];
    forall i | 0 <= i < 32 ensures a[i] == b[i] {
      assert a[i] == sector[w + i] == bytes[start + (w + i)];
    }
  }

  lemma PatchOfSlice(bytes: seq<byte>, start: nat, size: nat, w: nat, slot: seq<byte>)
    requires start + size <= |bytes| && w + 32 <= size && |slot| == 32
    ensures var sector := bytes[start..start + size];
      bytes[..start] + (sector[..w] + slot + sector[w + 32..]) + bytes[start + size..]
        == bytes[..start + w] + slot + bytes[start + w + 32..]
  {
  }

  method ClearEntry(disk: Disk, at: nat)
    requires Sectored(disk) && at % 32 == 0 && at + 32 <= disk.bytes.Length
    modifies disk.bytes
    ensures disk.bytes[..] == PutSlot(old(disk.bytes[..]), at, Blank())
  {
    hide SectorStart, Sector, PutSector, SlotAt;
    var size := disk.sectorSize;
    SlotInSector(size, at, disk.bytes.Length);
    PatchSlot(disk.bytes[..], size, at, Blank());
    var buffer := disk.Read(at / size);
    ghost var before := buffer[..];
    var w := at % size;
    assert |before| == buffer.Length == size;
    for i := 0 to 32
      modifies buffer
      invariant forall k :: w <= k < w + i ==> buffer[k] == 0
      invariant forall k :: 0 <= k < size && (k < w || k >= w + i) ==> buffer[k] == before[k]
    {
      buffer[i + w] := 0;
    }
    ghost var r := PutSlot(before, w, Blank());
    assert buffer[..] == r;
    assert disk.bytes[..] == old(disk.bytes[..]);
    assert before == Sector(old(disk.bytes[..]), size, at / size);
    disk.Write(at / size, buffer);
    assert disk.bytes[..] == PutSector(old(disk.bytes[..]), size, at / size, r);
  }

  /** Writes one field's units; the high bytes of characters rely on the slot being cleared before. */
  method FillField(buffer: array<byte>, w: nat, field: nat, part: seq<byte>)
    requires field < 3 && w + 32 <= buffer.Length
    requires forall j :: w + FieldStart(field) <= j < w + FieldStart(field) + 2 * FieldLength(field) ==> buffer[j] == 0
    modifies buffer
    ensures forall j :: w + FieldStart(field) <= j < w + FieldStart(field) + 2 * FieldLength(field) ==>
      buffer[j] == UnitByte(part, j - w - FieldStart(field))
    ensures forall j :: 0 <= j < w + FieldStart(field) ==> buffer[j] == old(buffer[j])
    ensures forall j :: w + FieldStart(field) + 2 * FieldLength(field) <= j < buffer.Length ==> buffer[j] == old(buffer[j])
  {
    hide UnitByte;
    var at, n := w + FieldStart(field), FieldLength(field);
    for i := 0 to n
      invariant forall j :: at <= j < at + 2 * i ==> buffer[j] == UnitByte(part, j - at)
      invariant forall j :: at + 2 * i <= j < at + 2 * n ==> buffer[j] == 0
      invariant forall j :: 0 <= j < buffer.Length && (j < at || j >= at + 2 * n) ==> buffer[j] == old(buffer[j])
    {
      UnitBytes(part, i);
      if i == |part| {
        buffer[at + i * 2] := 0;
      } else if i > |part| {
        buffer[at + i * 2] := 0xFF;
        buffer[at + i * 2 + 1] := 0xFF;
      } else {
        buffer[at + i * 2] := part[i];
      }
    }
  }

  lemma UnitBytes(part: seq<byte>, i: nat)
    ensures UnitByte(part, 2 * i) == Low(part, i) && UnitByte(part, 2 * i + 1) == High(part, i)
  {
  }

  /** Writes a piece of the name into its slot. */
  method WriteLongNameEntry(disk: Disk, at: nat, piece: seq<byte>, order: nat, last: bool, checksum: byte)
    requires Sectored(disk) && at % 32 == 0 && at + 32 <= disk.bytes.Length
    modifies disk.bytes
    ensures disk.bytes[..] == PutSlot(old(disk.bytes[..]), at, Slot(piece, order, last, checksum))
  {
    hide SectorStart, Part, UnitByte, OrderByte, Sector, PutSector, SlotAt;
    var size := disk.sectorSize;
    ClearEntry(disk, at);
    ghost var zero := Blank();
    ghost var cleared := disk.bytes[..];
    SlotInSector(size, at, disk.bytes.Length);
    PatchSlot(cleared, size, at, Slot(piece, order, last, checksum));
    var buffer := disk.Read(at / size);
    PutSlotAt(old(disk.bytes[..]), at, zero, at);
    ghost var before := buffer[..];
    var w := at % size;
    SlotBytes(before, w);
    FillSlot(buffer, w, piece, order, last, checksum);
    disk.Write(at / size, buffer);
    PutTwice(old(disk.bytes[..]), at, zero, Slot(piece, order, last, checksum));
  }

  lemma SlotBytes(s: seq<byte>, w: nat)
    requires w + 32 <= |s|
    ensures forall k :: w <= k < w + 32 ==> s[k] == SlotAt(s, w)[k - w]
  {
  }

  lemma PutTwice(s: seq<byte>, at: nat, a: seq<byte>, b: seq<byte>)
    requires at + SlotSize <= |s| && |a| == |b| == SlotSize
    ensures PutSlot(PutSlot(s, at, a), at, b) == PutSlot(s, at, b)
  {
  }

  method FillSlot(buffer: array<byte>, w: nat, piece: seq<byte>, order: nat, last: bool, checksum: byte)
    requires w + 32 <= buffer.Length && forall k :: w <= k < w + 32 ==> buffer[k] == 0
    modifies buffer
    ensures buffer[..] == PutSlot(old(buffer[..]), w, Slot(piece, order, last, checksum))
  {
    hide Part, UnitByte, OrderByte;
    ghost var before := buffer[..];
    buffer[w] := OrderByte(order, last);
    FillField(buffer, w, 0, Part(piece, 0));
    FillField(buffer, w, 1, Part(piece, 1));
    FillField(buffer, w, 2, Part(piece, 2));
    buffer[w + 11] := LongNameAttribute;
    buffer[w + 13] := checksum;
    ghost var slot := Slot(piece, order, last, checksum);
    forall k | w <= k < w + 32 ensures buffer[k] == slot[k - w] {
      assert slot[k - w] == SlotByte(piece, order, last, checksum, k - w);
    }
    ghost var r := PutSlot(before, w, slot);
    forall k | 0 <= k < |r| ensures r[k] == buffer[k] {
    }
  }

  /** Reads one field of a slot into the name, up to the first filler unit. */
  method ReadField(buffer: array<byte>, w: nat, field: nat, name: seq<byte>) returns (r: seq<byte>)
    requires field < 3 && w + 32 <= buffer.Length
    ensures r == ParseField(SlotAt(buffer[..], w), field, 0, name)
  {
    hide SlotAt, ParseField;
    r := name;
    ghost var slot := SlotAt(buffer[..], w);
    SlotBytes(buffer[..], w);
    var i := 0;
    while i < FieldLength(field)
      invariant 0 <= i <= FieldLength(field)
      invariant ParseField(slot, field, 0, name) == ParseField(slot, field, i, r)
    {
      var at := 2 * i + FieldStart(field);
      var first := buffer[at + w];
      var second := buffer[at + 1 + w];
      assert first == slot[at] && second == slot[at + 1];
      ParseStep(slot, field, i, r);
      if first == 0xFF && second == 0xFF {
        break;
      }
      r := Append(r, first);
      i := i + 1;
    }
    ParseStep(slot, field, i, r);
  }

  lemma ParseStep(slot: seq<byte>, field: nat, i: nat, name: seq<byte>)
    requires |slot| == SlotSize
    ensures i >= FieldLength(field) ==> ParseField(slot, field, i, name) == name
    ensures i < FieldLength(field) ==>
      var first, second := slot[FieldStart(field) + 2 * i], slot[FieldStart(field) + 2 * i + 1];
      ParseField(slot, field, i, name) == if first == 0xFF && second == 0xFF then name
          else ParseField(slot, field, i + 1, Append(name, first))
  {
  }

  /** Parses the slot at a byte offset. */
  method ParseLongName(disk: Disk, at: nat) returns (order: nat, name: seq<byte>)
    requires Sectored(disk) && at % 32 == 0 && at + 32 <= disk.bytes.Length
    ensures order == disk.bytes[at] as nat % 32
    ensures name == ParsePiece(SlotAt(disk.bytes[..], at))
  {
    hide SectorStart, Sector, ParseField;
    var size := disk.sectorSize;
    SlotInSector(size, at, disk.bytes.Length);
    PatchSlot(disk.bytes[..], size, at, Blank());
    var buffer := disk.Read(at / size);
    var w := at % size;
    SlotBytes(buffer[..], w);
    order := buffer[w] as nat % 32;
    assert buffer[w] == SlotAt(disk.bytes[..], at)[0];
    name := ReadField(buffer, w, 0, []);
    name := ReadField(buffer, w, 1, name);
    name := ReadField(buffer, w, 2, name);
  }

  /** Whether the slot at a byte offset carries the long-name attribute. */
  method HasLongNameAttribute(disk: Disk, at: nat) returns (yes: bool)
    requires Sectored(disk) && at % 32 == 0 && at + 32 <= disk.bytes.Length
    ensures yes == IsLongName(disk.bytes[..], at) && (yes <==> disk.bytes[at + 11] as nat % 0x40 == 0x0F)
  {
    hide SectorStart, Sector;
    var size := disk.sectorSize;
    SlotInSector(size, at, disk.bytes.Length);
    PatchSlot(disk.bytes[..], size, at, Blank());
    var buffer := disk.Read(at / size);
    SlotBytes(buffer[..], at % size);
    LongNameBySlot(disk.bytes[..], at);
    yes := buffer[11 + at % size] % 64 == LongNameAttribute;
  }

  /** Collects the long-name slots before an entry, nearest first, and joins their pieces. */
  method FindLongNameEntries(disk: Disk, byteOffset: nat, bytesPerCluster: nat,
      short: seq<byte>) returns (name: seq<byte>)
    requires Sectored(disk) && byteOffset % 32 == 0 && byteOffset <= disk.bytes.Length && bytesPerCluster > 0
    ensures name == FoundName(disk.bytes[..], byteOffset, bytesPerCluster, short)
  {
    hide Scan, Joined;
    var bound := byteOffset / bytesPerCluster;
    var pieces := ScanSlots(disk, byteOffset, bound);
    name := short;
    if pieces != [] {
      name := JoinPieces(pieces);
    }
  }

  /** The backward scan of the slots before an entry. */
  method ScanSlots(disk: Disk, byteOffset: nat, bound: nat) returns (pieces: seq<seq<byte>>)
    requires Sectored(disk) && byteOffset % 32 == 0 && byteOffset <= disk.bytes.Length
    ensures pieces == Scan(disk.bytes[..], byteOffset - 32, bound)
  {
    hide ParsePiece, SlotAt, IsLongName;
    ghost var bytes := disk.bytes[..];
    var at: int := byteOffset - 32;
    pieces := [];
    ghost var found := Scan(bytes, at, bound);
    assert [] + found == found;
    while at >= bound
      invariant at + 32 <= disk.bytes.Length && at % 32 == 0 && at >= -32 && bytes == disk.bytes[..]
      invariant pieces + Scan(bytes, at, bound) == found
      decreases at
    {
      var long := HasLongNameAttribute(disk, at);
      if !long {
        break;
      }
      var _, piece := ParseLongName(disk, at);
      ScanStep(bytes, at, bound, pieces);
      pieces := pieces + [piece];
      at := at - 32;
    }
    assert Scan(bytes, at, bound) == [];
    assert pieces == found;
  }

  lemma ScanStep(bytes: seq<byte>, at: int, bound: nat, pieces: seq<seq<byte>>)
    requires bound <= at && at + SlotSize <= |bytes| && IsLongName(bytes, at)
    ensures pieces + Scan(bytes, at, bound) == pieces + [ParsePiece(SlotAt(bytes, at))] + Scan(bytes, at - 32, bound)
  {
  }

  /** Appends the pieces one after another. */
  method JoinPieces(pieces: seq<seq<byte>>) returns (name: seq<byte>)
    ensures name == Joined(pieces)
  {
    name := [];
    assert pieces[0..] == pieces;
    for i := 0 to |pieces|
      invariant name + Joined(pieces[i..]) == Joined(pieces)
    {
      assert pieces[i..][1..] == pieces[i + 1..];
      name := name + pieces[i];
    }
  }

  /** Cuts a name into pieces and writes each into its slot before the entry. */
  method WriteName(disk: Disk, first: nat, name: seq<byte>, checksum: byte)
    requires Sectored(disk) && first % 32 == 0 && first + PieceCount(|name|) * 32 <= disk.bytes.Length
    modifies disk.bytes
    ensures disk.bytes[..] == Written(old(disk.bytes[..]), first, name, checksum, 0)
  {
    hide Slot, PutSlot, Cut;
    var count := |name| / 13 + 1;
    if |name| % 13 == 0 {
      count := count - 1;
    }
    ghost var bytes := disk.bytes[..];
    for i := 0 to count
      invariant Written(bytes, first, name, checksum, 0) == Written(disk.bytes[..], first, name, checksum, i)
    {
      var piece := Cut(name, i * 13, i * 13 + 13);
      WriteLongNameEntry(disk, first + (count - i - 1) * 32, piece, i + 1, i + 1 == count, checksum);
    }
  }
}
