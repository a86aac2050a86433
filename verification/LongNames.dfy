/** Long file names: pieces of at most 13 bytes printed into 32-byte slots and parsed back. */
module LongNames {
  import opened Sectors

  const PieceSize: nat := 13
  const SlotSize: nat := 32
  const LongNameAttribute: byte := 0x0F

  /** The string from start on; out of range it is empty. */
  function Tail(s: seq<byte>, start: nat): seq<byte> {
    if start >= |s| then [] else s[start..]
  }

  /** The string from start up to end; empty for invalid bounds. */
  function Substr(s: seq<byte>, start: nat, end: nat): seq<byte> {
    if start >= |s| || end <= start || end > |s| then [] else s[start..end]
  }

  /** A cut of the piece for one field: the rest when the field is the last one needed. */
  function Cut(s: seq<byte>, start: nat, end: nat): seq<byte> {
    if end >= |s| then Tail(s, start) else Substr(s, start, end)
  }

  /** The three field texts of a piece; once a field took the rest, later fields are empty. */
  function Part(piece: seq<byte>, field: nat): seq<byte> {
    if field == 0 then Cut(piece, 0, 5)
    else if field == 1 then (if 5 >= |piece| then [] else Cut(piece, 5, 11))
    else if 5 >= |piece| || 11 >= |piece| then [] else Cut(piece, 11, 13)
  }

  function FieldStart(field: nat): nat {
    if field == 0 then 1 else if field == 1 then 14 else 28
  }

  function FieldLength(field: nat): nat {
    if field == 0 then 5 else if field == 1 then 6 else 2
  }

  /** A two-byte unit of a field: a character, the closing zero, or filler. */
  function Low(part: seq<byte>, i: nat): byte {
    if i < |part| then part[i] else if i == |part| then 0 else 0xFF
  }

  function High(part: seq<byte>, i: nat): byte {
    if i <= |part| then 0 else 0xFF
  }

  function UnitByte(part: seq<byte>, k: nat): byte {
    if k % 2 == 0 then Low(part, k / 2) else High(part, k / 2)
  }

  /** The order byte, with bit 6 set on the last piece. */
  function OrderByte(order: nat, last: bool): byte {
    var b := order % 256;
    if last && b / 64 % 2 == 0 then (b + 64) as byte else b as byte
  }

  function SlotByte(piece: seq<byte>, order: nat, last: bool, checksum: byte, j: nat): byte {
    if j == 0 then OrderByte(order, last)
    else if j < 11 then UnitByte(Part(piece, 0), j - 1)
    else if j == 11 then LongNameAttribute
    else if j == 12 then 0
    else if j == 13 then checksum
    else if j < 26 then UnitByte(Part(piece, 1), j - 14)
    else if j < 28 then 0
    else UnitByte(Part(piece, 2), j - 28)
  }

  /** A slot as it is written to disk. */
  function Slot(piece: seq<byte>, order: nat, last: bool, checksum: byte): (slot: seq<byte>)
    ensures |slot| == SlotSize
  {
    seq(SlotSize, j requires 0 <= j < SlotSize => SlotByte(piece, order, last, checksum, j))
  }

  /** Where character i of a piece stands in its slot. */
  function CharPlace(i: nat): nat {
    if i < 5 then 1 + 2 * i else if i < 11 then 4 + 2 * i else 6 + 2 * i
  }

  /** A slot on disk: the order with 0x40 on the last piece, the attribute 0x0F, and every character as a two-byte
  unit. The unit behind the text is zero, units further on in the same field are 0xFFFF, but each later field starts
  with a zero unit again. */
  lemma SlotLayout(piece: seq<byte>, order: nat, last: bool, checksum: byte)
    requires 1 <= order < 64 && |piece| <= PieceSize
    ensures var slot := Slot(piece, order, last, checksum);
      && slot[0] as nat == order + (if last then 0x40 else 0)
      && slot[11] == 0x0F && slot[12] == 0 && slot[13] == checksum && slot[26] == 0 && slot[27] == 0
      && (forall i :: 0 <= i < |piece| ==> slot[CharPlace(i)] == piece[i] && slot[CharPlace(i) + 1] == 0)
      && (forall i :: |piece| <= i < 13 ==>
            var fill: byte := if i == |piece| || i == 5 || i == 11 then 0 else 0xFF;
            slot[CharPlace(i)] == fill && slot[CharPlace(i) + 1] == fill)
  {
    hide Slot, Part, Low, High, OrderByte;
    OrderBits(order, last);
    HeaderBytes(piece, order, last, checksum);
    forall i | 0 <= i < 13
      ensures var slot := Slot(piece, order, last, checksum);
        slot[CharPlace(i)] == (if i < |piece| then piece[i] else if i == |piece| || i == 5 || i == 11 then 0 else 0xFF)
        && slot[CharPlace(i) + 1] == (if i < |piece| || i == |piece| || i == 5 || i == 11 then 0 else 0xFF)
    {
      var field := if i < 5 then 0 else if i < 11 then 1 else 2;
      var j := if i < 5 then i else if i < 11 then i - 5 else i - 11;
      FieldUnits(piece, order, last, checksum, field, j);
      UnitOf(piece, i, field, j);
    }
  }

  lemma OrderBits(order: nat, last: bool)
    requires order < 64
    ensures OrderByte(order, last) as nat == order + (if last then 0x40 else 0)
  {
  }

  lemma HeaderBytes(piece: seq<byte>, order: nat, last: bool, checksum: byte)
    ensures var slot := Slot(piece, order, last, checksum);
      slot[0] == OrderByte(order, last) && slot[11] == 0x0F && slot[12] == 0 && slot[13] == checksum
      && slot[26] == 0 && slot[27] == 0
  {
    hide OrderByte, Part;
  }

  lemma UnitOf(piece: seq<byte>, i: nat, field: nat, j: nat)
    requires |piece| <= PieceSize && i < 13 && field == (if i < 5 then 0 else if i < 11 then 1 else 2)
    requires j == if i < 5 then i else if i < 11 then i - 5 else i - 11
    ensures Low(Part(piece, field), j) ==
      if i < |piece| then piece[i] else if i == |piece| || i == 5 || i == 11 then 0 else 0xFF
    ensures High(Part(piece, field), j) == if i <= |piece| || i == 5 || i == 11 then 0 else 0xFF
  {
  }

  /** The order reads back, without the mark of the last piece, exactly up to 31. */
  lemma OrderReadsBack(piece: seq<byte>, order: nat, last: bool, checksum: byte)
    requires 1 <= order < 64
    ensures Slot(piece, order, last, checksum)[0] as nat % 32 == order <==> order < 32
  {
    hide Slot, OrderByte;
    OrderBits(order, last);
    HeaderBytes(piece, order, last, checksum);
  }

  /** Appending a byte to a C string: a zero byte appends nothing. */
  function Append(s: seq<byte>, c: byte): seq<byte> {
    if c == 0 then s else s + [c]
  }

  /** The characters of a field from unit i on, up to the first filler. */
  function ParseField(slot: seq<byte>, field: nat, i: nat, name: seq<byte>): seq<byte>
    requires |slot| == SlotSize
    decreases FieldLength(field) - i
  {
    if i >= FieldLength(field) then name
    else
      var first, second := slot[FieldStart(field) + 2 * i], slot[FieldStart(field) + 2 * i + 1];
      if first == 0xFF && second == 0xFF then name
      else ParseField(slot, field, i + 1, Append(name, first))
  }

  function ParsePiece(slot: seq<byte>): seq<byte>
    requires |slot| == SlotSize
  {
    ParseField(slot, 2, 0, ParseField(slot, 1, 0, ParseField(slot, 0, 0, [])))
  }

  /** The units of a field hold its part. */
  lemma FieldUnits(piece: seq<byte>, order: nat, last: bool, checksum: byte, field: nat, i: nat)
    requires field < 3 && i < FieldLength(field)
    ensures var slot, at := Slot(piece, order, last, checksum), FieldStart(field) + 2 * i;
      slot[at] == Low(Part(piece, field), i) && slot[at + 1] == High(Part(piece, field), i)
  {
    hide Part, Low, High;
    assert 2 * i / 2 == i && (2 * i + 1) / 2 == i;
  }

  /** Parsing a printed field yields its part, wherever the part ends in the field. */
  lemma {:induction false} FieldRoundTrip(piece: seq<byte>, order: nat, last: bool, checksum: byte, field: nat,
      i: nat, name: seq<byte>)
    requires field < 3 && NulFree(Part(piece, field)) && i <= |Part(piece, field)| <= FieldLength(field)
    ensures ParseField(Slot(piece, order, last, checksum), field, i, name) == name + Part(piece, field)[i..]
    decreases FieldLength(field) - i
  {
    hide Part, Slot;
    var part, slot := Part(piece, field), Slot(piece, order, last, checksum);
    if i < FieldLength(field) {
      FieldUnits(piece, order, last, checksum, field, i);
      if i < |part| {
        FieldRoundTrip(piece, order, last, checksum, field, i + 1, name + [part[i]]);
        assert name + [part[i]] + part[i + 1..] == name + part[i..];
      } else if i + 1 < FieldLength(field) {
        FieldUnits(piece, order, last, checksum, field, i + 1);
        assert ParseField(slot, field, i + 1, name) == name;
      }
    }
  }

  lemma PartsMakePiece(piece: seq<byte>)
    requires |piece| <= PieceSize
    ensures piece == Part(piece, 0) + Part(piece, 1) + Part(piece, 2)
    ensures |Part(piece, 0)| <= 5 && |Part(piece, 1)| <= 6 && |Part(piece, 2)| <= 2
  {
  }

  /** A piece of a name reads back as it was written. */
  lemma PieceRoundTrip(piece: seq<byte>, order: nat, last: bool, checksum: byte)
    requires |piece| <= PieceSize && NulFree(piece)
    ensures ParsePiece(Slot(piece, order, last, checksum)) == piece
  {
    hide Part, Slot, ParseField, NulFree;
    PartsMakePiece(piece);
    PartsNulFree(piece);
    var p0, p1 := Part(piece, 0), Part(piece, 1);
    assert [] + p0[0..] == p0 && p1[0..] == p1 && Part(piece, 2)[0..] == Part(piece, 2);
    FieldRoundTrip(piece, order, last, checksum, 0, 0, []);
    FieldRoundTrip(piece, order, last, checksum, 1, 0, p0);
    FieldRoundTrip(piece, order, last, checksum, 2, 0, p0 + p1);
  }

  lemma PartsNulFree(piece: seq<byte>)
    requires NulFree(piece)
    ensures NulFree(Part(piece, 0)) && NulFree(Part(piece, 1)) && NulFree(Part(piece, 2))
  {
  }

  /** How many pieces a name of this length needs; a name that fills its last piece needs no closing one. */
  function PieceCount(n: nat): nat {
    if n % PieceSize == 0 then n / PieceSize else n / PieceSize + 1
  }

  function Piece(name: seq<byte>, i: nat): seq<byte> {
    Cut(name, i * 13, i * 13 + 13)
  }

  /** The pieces from i on. */
  function Pieces(name: seq<byte>, i: nat): seq<seq<byte>>
    decreases PieceCount(|name|) - i
  {
    if i >= PieceCount(|name|) then [] else [Piece(name, i)] + Pieces(name, i + 1)
  }

  function Joined(pieces: seq<seq<byte>>): seq<byte> {
    if pieces == [] then [] else pieces[0] + Joined(pieces[1..])
  }

  lemma PieceIs(name: seq<byte>, i: nat)
    requires i < PieceCount(|name|)
    ensures i * 13 < |name| && (i + 1 < PieceCount(|name|) ==> i * 13 + 13 < |name|)
    ensures (i + 1 == PieceCount(|name|) ==> |name| <= i * 13 + 13)
    ensures Piece(name, i) == name[i * 13..if i + 1 < PieceCount(|name|) then i * 13 + 13 else |name|]
    ensures 0 < |Piece(name, i)| <= PieceSize
    ensures NulFree(name) ==> NulFree(Piece(name, i))
  {
  }

  /** The pieces cover the name without gap or overlap. */
  lemma {:induction false} PiecesJoin(name: seq<byte>, i: nat)
    requires i < PieceCount(|name|)
    ensures i * 13 <= |name| && Joined(Pieces(name, i)) == name[i * 13..]
    decreases PieceCount(|name|) - i
  {
    PieceIs(name, i);
    if i + 1 < PieceCount(|name|) {
      PiecesJoin(name, i + 1);
    }
    assert Pieces(name, i)[1..] == Pieces(name, i + 1);
  }

  function SlotAt(bytes: seq<byte>, at: nat): (slot: seq<byte>)
    requires at + SlotSize <= |bytes|
    ensures |slot| == SlotSize
  {
    bytes[at..at + SlotSize]
  }

  function PutSlot(bytes: seq<byte>, at: nat, slot: seq<byte>): (r: seq<byte>)
    requires at + SlotSize <= |bytes| && |slot| == SlotSize
    ensures |r| == |bytes|
  {
    bytes[..at] + slot + bytes[at + SlotSize..]
  }

  predicate IsLongName(bytes: seq<byte>, at: nat)
    requires at + SlotSize <= |bytes|
  {
    bytes[at + 11] % 64 == LongNameAttribute
  }

  lemma PutSlotAt(bytes: seq<byte>, at: nat, slot: seq<byte>, b: nat)
    requires at + SlotSize <= |bytes| && |slot| == SlotSize && b + SlotSize <= |bytes|
    ensures SlotAt(PutSlot(bytes, at, slot), at) == slot
    ensures b + SlotSize <= at || at + SlotSize <= b ==> SlotAt(PutSlot(bytes, at, slot), b) == SlotAt(bytes, b)
  {
  }

  lemma LongNameBySlot(bytes: seq<byte>, at: nat)
    requires at + SlotSize <= |bytes|
    ensures IsLongName(bytes, at) <==> SlotAt(bytes, at)[11] % 64 == LongNameAttribute
  {
  }

  /** Where piece i of n goes: the first piece nearest to the entry, the last one first on disk. */
  function SlotPlace(first: nat, n: nat, i: nat): nat
    requires i < n
  {
    first + (n - i - 1) * 32
  }

  /** The disk after the pieces from i on are written. */
  function Written(bytes: seq<byte>, first: nat, name: seq<byte>, checksum: byte, i: nat): (r: seq<byte>)
    requires first + PieceCount(|name|) * 32 <= |bytes|
    ensures |r| == |bytes|
    decreases PieceCount(|name|) - i
  {
    var n := PieceCount(|name|);
    if i >= n then bytes
    else Written(PutSlot(bytes, SlotPlace(first, n, i), Slot(Piece(name, i), i + 1, i + 1 == n, checksum)), first, name, checksum, i + 1)
  }

  /** Slots outside the places still to be written are kept. */
  lemma {:induction false} WrittenElsewhere(bytes: seq<byte>, first: nat, name: seq<byte>, checksum: byte, i: nat,
      b: nat)
    requires first + PieceCount(|name|) * 32 <= |bytes| && b + SlotSize <= |bytes| && i <= PieceCount(|name|)
    requires b + SlotSize <= first || first + (PieceCount(|name|) - i) * 32 <= b
    ensures SlotAt(Written(bytes, first, name, checksum, i), b) == SlotAt(bytes, b)
    decreases PieceCount(|name|) - i
  {
    hide PutSlot, SlotAt, Slot, PieceCount, Piece;
    var n := PieceCount(|name|);
    if i < n {
      var slot := Slot(Piece(name, i), i + 1, i + 1 == n, checksum);
      PutSlotAt(bytes, SlotPlace(first, n, i), slot, b);
      WrittenElsewhere(PutSlot(bytes, SlotPlace(first, n, i), slot), first, name, checksum, i + 1, b);
    }
  }

  /** Every piece ends up in its slot. */
  lemma {:induction false} WrittenAt(bytes: seq<byte>, first: nat, name: seq<byte>, checksum: byte, i: nat, k: nat)
    requires first + PieceCount(|name|) * 32 <= |bytes| && i <= k < PieceCount(|name|)
    ensures var n := PieceCount(|name|);
      SlotAt(Written(bytes, first, name, checksum, i), SlotPlace(first, n, k)) == Slot(Piece(name, k), k + 1,
          k + 1 == n, checksum)
    decreases PieceCount(|name|) - i
  {
    hide PutSlot, SlotAt, Slot, PieceCount, Piece;
    var n := PieceCount(|name|);
    var slot := Slot(Piece(name, i), i + 1, i + 1 == n, checksum);
    var after := PutSlot(bytes, SlotPlace(first, n, i), slot);
    if i < k {
      WrittenAt(after, first, name, checksum, i + 1, k);
    } else {
      PutSlotAt(bytes, SlotPlace(first, n, i), slot, first);
      WrittenElsewhere(after, first, name, checksum, i + 1, SlotPlace(first, n, k));
    }
  }

  /** The pieces found scanning backwards from a slot down to the bound. */
  function Scan(bytes: seq<byte>, at: int, bound: nat): (pieces: seq<seq<byte>>)
    requires at + SlotSize <= |bytes|
    decreases at
  {
    if at < bound || !IsLongName(bytes, at) then []
    else [ParsePiece(SlotAt(bytes, at))] + Scan(bytes, at - SlotSize, bound)
  }

  /** A written slot is recognised and parsed. */
  lemma WrittenParses(bytes: seq<byte>, first: nat, name: seq<byte>, checksum: byte, k: nat)
    requires first + PieceCount(|name|) * 32 <= |bytes| && k < PieceCount(|name|) && NulFree(name)
    ensures var r, at := Written(bytes, first, name, checksum, 0), SlotPlace(first, PieceCount(|name|), k);
      IsLongName(r, at) && ParsePiece(SlotAt(r, at)) == Piece(name, k)
  {
    hide Written, PieceCount, Piece, ParsePiece, Part, IsLongName, SlotAt, PutSlot;
    var r, at := Written(bytes, first, name, checksum, 0), SlotPlace(first, PieceCount(|name|), k);
    WrittenAt(bytes, first, name, checksum, 0, k);
    LongNameBySlot(r, at);
    PieceIs(name, k);
    PieceRoundTrip(Piece(name, k), k + 1, k + 1 == PieceCount(|name|), checksum);
  }

  /** Below the slots written the scan sees the old disk. */
  lemma {:induction false} ScanBelow(bytes: seq<byte>, first: nat, name: seq<byte>, checksum: byte, at: int, bound: nat)
    requires first + PieceCount(|name|) * 32 <= |bytes| && at + 32 <= first
    ensures Scan(Written(bytes, first, name, checksum, 0), at, bound) == Scan(bytes, at, bound)
    decreases at
  {
    hide Written, PieceCount, ParsePiece, IsLongName, SlotAt, PutSlot;
    var r := Written(bytes, first, name, checksum, 0);
    if at >= bound {
      WrittenElsewhere(bytes, first, name, checksum, 0, at);
      LongNameBySlot(bytes, at);
      LongNameBySlot(r, at);
      ScanBelow(bytes, first, name, checksum, at - 32, bound);
    }
  }

  /** The scan starts at piece k and the bound admits the first slot on disk: it finds all pieces from k on, and then
  goes on through whatever long-name slots stand before them. */
  lemma {:induction false} ScanFinds(bytes: seq<byte>, first: nat, name: seq<byte>, checksum: byte, bound: nat, k: nat)
    requires first + PieceCount(|name|) * 32 <= |bytes| && k <= PieceCount(|name|) && NulFree(name) && bound <= first
    ensures Scan(Written(bytes, first, name, checksum, 0), first + (PieceCount(|name|) - k - 1) * 32, bound)
      == Pieces(name, k) + Scan(bytes, first - 32, bound)
    decreases PieceCount(|name|) - k
  {
    hide Written, PieceCount, Piece, ParsePiece, IsLongName, SlotAt, PutSlot;
    var n := PieceCount(|name|);
    if k < n {
      WrittenParses(bytes, first, name, checksum, k);
      ScanFinds(bytes, first, name, checksum, bound, k + 1);
      FrontOf(Piece(name, k), Pieces(name, k + 1), Scan(bytes, first - 32, bound));
    } else {
      ScanBelow(bytes, first, name, checksum, first - 32, bound);
    }
  }

  lemma FrontOf(p: seq<byte>, a: seq<seq<byte>>, b: seq<seq<byte>>)
    ensures [p] + (a + b) == ([p] + a) + b
  {
  }

  lemma Regroup(a: seq<byte>, b: seq<byte>, c: seq<byte>)
    ensures a + (b + c) == (a + b) + c
  {
  }

  lemma {:induction false} JoinedSum(a: seq<seq<byte>>, b: seq<seq<byte>>)
    ensures Joined(a + b) == Joined(a) + Joined(b)
  {
    if a == [] {
      assert a + b == b;
    } else {
      JoinedSum(a[1..], b);
      assert (a + b)[0] == a[0] && (a + b)[1..] == a[1..] + b;
      Regroup(a[0], Joined(a[1..]), Joined(b));
    }
  }

  /** A bound past the first slot on disk cuts the scan short. */
  lemma {:induction false} ScanFallsShort(bytes: seq<byte>, first: nat, name: seq<byte>, checksum: byte, bound: nat,
      k: nat)
    requires first + PieceCount(|name|) * 32 <= |bytes| && k < PieceCount(|name|) && NulFree(name) && first < bound
    ensures |Joined(Scan(Written(bytes, first, name, checksum, 0), SlotPlace(first, PieceCount(|name|), k),
      bound))| < |Joined(Pieces(name, k))|
    decreases PieceCount(|name|) - k
  {
    hide Written, PieceCount, Piece, ParsePiece, IsLongName, SlotAt, PutSlot;
    var n, r := PieceCount(|name|), Written(bytes, first, name, checksum, 0);
    var at := SlotPlace(first, n, k);
    PieceIs(name, k);
    assert Pieces(name, k)[1..] == Pieces(name, k + 1);
    if at >= bound {
      WrittenParses(bytes, first, name, checksum, k);
      ScanFallsShort(bytes, first, name, checksum, bound, k + 1);
      assert Scan(r, at, bound)[1..] == Scan(r, at - SlotSize, bound);
    }
  }

  /** The name of the entry at byteOffset: its short name, unless long-name slots stand before it. */
  function FoundName(bytes: seq<byte>, byteOffset: nat, bytesPerCluster: nat, short: seq<byte>): seq<byte>
    requires byteOffset <= |bytes| && bytesPerCluster > 0
  {
    var pieces := Scan(bytes, byteOffset - SlotSize, byteOffset / bytesPerCluster);
    if pieces == [] then short else Joined(pieces)
  }

  /** A name written piece by piece before its entry is found again exactly when the scan's bound, which is the number
  of the entry's cluster and not the offset where it starts, does not lie past the first slot, and no text stands in
  long-name slots right before it down to that bound. */
  lemma NameRoundTrip(bytes: seq<byte>, first: nat, name: seq<byte>, checksum: byte, bytesPerCluster: nat,
      short: seq<byte>)
    requires name != [] && NulFree(name) && bytesPerCluster >= 64
    requires first + PieceCount(|name|) * 32 <= |bytes|
    ensures var byteOffset := first + PieceCount(|name|) * 32;
      var bound := byteOffset / bytesPerCluster;
      FoundName(Written(bytes, first, name, checksum, 0), byteOffset, bytesPerCluster, short) == name
      <==> bound <= first && Joined(Scan(bytes, first - 32, bound)) == []
  {
    hide Written, PieceCount, Piece, IsLongName, ParsePiece, SlotAt, Scan, Joined;
    PieceCountPositive(|name|);
    var byteOffset := first + PieceCount(|name|) * 32;
    BoundBelowEntry(byteOffset, bytesPerCluster);
    ScanNonEmpty(bytes, first, name, checksum, byteOffset / bytesPerCluster);
    ScanExact(bytes, first, name, checksum, byteOffset / bytesPerCluster);
  }

  lemma PieceCountPositive(n: nat)
    requires n > 0
    ensures PieceCount(n) > 0
  {
  }

  lemma ScanNonEmpty(bytes: seq<byte>, first: nat, name: seq<byte>, checksum: byte, bound: nat)
    requires name != [] && NulFree(name) && first + PieceCount(|name|) * 32 <= |bytes| && PieceCount(|name|) > 0
    requires bound <= first + PieceCount(|name|) * 32 - 32
    ensures Scan(Written(bytes, first, name, checksum, 0), first + PieceCount(|name|) * 32 - SlotSize, bound) != []
  {
    hide Written, PieceCount, Piece, IsLongName, ParsePiece, SlotAt;
    WrittenParses(bytes, first, name, checksum, 0);
  }

  lemma ScanExact(bytes: seq<byte>, first: nat, name: seq<byte>, checksum: byte, bound: nat)
    requires NulFree(name) && first + PieceCount(|name|) * 32 <= |bytes| && PieceCount(|name|) > 0
    ensures var at := first + PieceCount(|name|) * 32 - SlotSize;
      Joined(Scan(Written(bytes, first, name, checksum, 0), at, bound)) == name
      <==> bound <= first && Joined(Scan(bytes, first - 32, bound)) == []
  {
    hide Written, PieceCount, Piece, IsLongName, ParsePiece, SlotAt, Scan, Joined, Pieces;
    PiecesJoin(name, 0);
    assert name[0..] == name;
    if bound <= first {
      ScanFinds(bytes, first, name, checksum, bound, 0);
      JoinedSum(Pieces(name, 0), Scan(bytes, first - 32, bound));
    } else {
      ScanFallsShort(bytes, first, name, checksum, bound, 0);
    }
  }

  /** Two clusters of 64 bytes, the first one ending in a long-name slot that holds "B". */
  function TwoClusters(): (bytes: seq<byte>)
    ensures |bytes| == 128
  {
    PutSlot(seq(128, i => 0), 32, Slot([66], 1, true, 0))
  }

  /** The name "A" whose slot starts the second cluster: the scan does not stop at the cluster's start and finds "AB".
  */
  lemma ScanRunsOn()
    ensures FoundName(Written(TwoClusters(), 64, [65], 0, 0), 96, 64, []) == [65, 66]
  {
    hide Slot, PutSlot, Written, ParsePiece;
    var bytes: seq<byte>, name: seq<byte> := TwoClusters(), [65];
    assert PieceCount(|name|) == 1 && Piece(name, 0) == name && Pieces(name, 0) == [name] + Pieces(name, 1);
    BeforeCluster();
    ScanFinds(bytes, 64, name, 0, 1, 0);
    JoinedTwo([65], [66]);
  }

  lemma BeforeCluster()
    ensures Scan(TwoClusters(), 32, 1) == [[66]]
  {
    hide PutSlot, ParsePiece;
    var slot := Slot([66], 1, true, 0);
    PutSlotAt(seq(128, i => 0), 32, slot, 32);
    LongNameBySlot(TwoClusters(), 32);
    PieceRoundTrip([66], 1, true, 0);
  }

  lemma JoinedTwo(a: seq<byte>, b: seq<byte>)
    ensures Joined([a] + [b]) == a + b
  {
    JoinedSum([a], [b]);
    assert Joined([a]) == a + Joined([a][1..]) && Joined([b]) == b + Joined([b][1..]);
  }

  /** The bound never excludes the slot right before the entry. */
  lemma BoundBelowEntry(byteOffset: nat, bytesPerCluster: nat)
    requires bytesPerCluster >= 64 && byteOffset >= 32
    ensures byteOffset / bytesPerCluster <= byteOffset - 32
  {
    var q := byteOffset / bytesPerCluster;
    assert byteOffset == bytesPerCluster * q + byteOffset % bytesPerCluster;
    assert bytesPerCluster * q == 64 * q + (bytesPerCluster - 64) * q;
  }

  /** The bound is met by every name of at most as many pieces as bytes before its slots. */
  lemma BoundAdmits(first: nat, n: nat, bytesPerCluster: nat)
    requires bytesPerCluster >= 64 && n <= first
    ensures (first + n * 32) / bytesPerCluster <= first
  {
    var byteOffset := first + n * 32;
    var q := byteOffset / bytesPerCluster;
    assert byteOffset == bytesPerCluster * q + byteOffset % bytesPerCluster;
    assert bytesPerCluster * q == 64 * q + (bytesPerCluster - 64) * q;
  }
}
