/** The buddy page allocator: splits on reserve, merges with the buddy on free. */
module PageAllocators {
  import opened Powers
  import opened Sequences
  import opened BuddyBlocks
  import opened FreeLists
  import opened BlockPools
  import opened MemoryRegions

  const WORD := 0x1_0000_0000_0000_0000
  const NOMEM := WORD - 1
  const AVAIL_LIST_SIZE := 32
  /** sizeof(Block): two pointers and two words. */
  const BLOCK_BYTES := 32

  /** The family of free blocks that the tags and orders of the block map describe. */
  ghost function FreeBlocks(s: Store): Blocks {
    map i: nat | i < |s.cells| && s.cells[i].tag == FREE :: s.cells[i].kval
  }

  lemma FreeBlocksAfterUnlink(s: Store, x: nat)
    requires x < |s.cells| && s.cells[x].tag == FREE && s.Has(s.cells[x].linkf) && s.Has(s.cells[x].linkb)
    ensures FreeBlocks(Unlink(s, x)) == FreeBlocks(s) - {x}
  {
  }

  lemma FreeBlocksAfterPush(s: Store, k: nat, x: nat)
    requires k < |s.heads| && x < |s.cells| && s.Has(s.heads[k].linkf)
    ensures FreeBlocks(PushFront(s, k, x)) == FreeBlocks(s)[x := k]
  {
  }

  /** A reserved cell is on no list, so its order may be overwritten. */
  lemma ReservedUpdate(s: Store, lists: seq<seq<nat>>, x: nat, b: Block)
    requires Lists(s, lists) && x < |s.cells| && s.cells[x].tag == RESERVED && b.tag == RESERVED
    ensures Lists(s.Put(Cell(x), b), lists)
    ensures FreeBlocks(s.Put(Cell(x), b)) == FreeBlocks(s)
  {
    var t := s.Put(Cell(x), b);
    forall k | 0 <= k < |lists| ensures Holds(t, k, lists[k]) && Ring(t, k, lists[k]) {
      assert Holds(s, k, lists[k]) && Ring(s, k, lists[k]);
      assert forall i :: IsFree(t, i, k) <==> IsFree(s, i, k);
      forall i | -1 <= i < |lists[k]| ensures NodeLinked(t, k, lists[k], i) {
        assert NodeLinked(s, k, lists[k], i);
        assert i >= 0 ==> lists[k][i] in lists[k];
      }
    }
  }

  lemma FreeCellIsFreePage(s: Store, top: nat, c: nat)
    requires WellPlaced(FreeBlocks(s), top) && c < |s.cells| && s.cells[c].tag == FREE
    ensures c in PageSet(FreeBlocks(s), top)
  {
    var m := FreeBlocks(s);
    assert Covers(m, c) by { assert c in m && InBlock(c, c, m[c]); }
    CoversInRange(m, top, c);
  }

  /** Bytes of the block map for memory ending at `end`, rounded up to a power of two. */
  function MapBytes(end: nat, blockSize: nat): nat
    requires blockSize > 0
  {
    Pow2(LLog2(BLOCK_BYTES * end / blockSize))
  }

  /** Blocks of order k hold `bytes` bytes, and no smaller blocks do. */
  ghost predicate LeastOrder(k: nat, bytes: nat, blockSize: nat) {
    bytes <= Pow2(k) * blockSize && (k == 0 || Pow2(k - 1) * blockSize < bytes)
  }

  /** The pages that `bytes` bytes take, rounded up, fit into a block exactly when the bytes do. */
  lemma PagesHoldBytes(bytes: nat, blockSize: nat, k: nat)
    requires bytes > 0 && blockSize > 0
    ensures bytes <= Pow2(k) * blockSize <==> (bytes - 1) / blockSize + 1 <= Pow2(k)
  {
    hide Pow2;
    var q, p := (bytes - 1) / blockSize, Pow2(k);
    assert bytes - 1 == q * blockSize + (bytes - 1) % blockSize;
    if q + 1 <= p {
      TimesMonotone(q + 1, p, blockSize);
    } else {
      TimesMonotone(p, q, blockSize);
    }
  }

  lemma TimesMonotone(a: nat, b: nat, c: nat)
    requires a <= b
    ensures a * c <= b * c
  {
  }

  lemma BytesMonotone(j: nat, k: nat, blockSize: nat)
    requires j <= k
    ensures Pow2(j) * blockSize <= Pow2(k) * blockSize
  {
    hide Pow2;
    Pow2Monotone(j, k);
  }

  /** The order computed for a request is the least one whose blocks hold it. */
  lemma OrderIsLeast(bytes: nat, blockSize: nat, k: nat)
    requires bytes > 0 && blockSize > 0
    ensures LeastOrder(k, bytes, blockSize) <==> k == LLog2((bytes - 1) / blockSize + 1)
    ensures bytes <= Pow2(k) * blockSize <==> LLog2((bytes - 1) / blockSize + 1) <= k
  {
    hide LLog2, Pow2;
    var pages := (bytes - 1) / blockSize + 1;
    PagesHoldBytes(bytes, blockSize, k);
    LLog2IsCeiling(pages, k);
    if k > 0 {
      PagesHoldBytes(bytes, blockSize, k - 1);
      LLog2IsCeiling(pages, k - 1);
    }
  }

  ghost predicate LastAvailable(regions: seq<Region>, n: nat) {
    && n < |regions| && regions[n].kind == Available
    && forall j :: n < j < |regions| ==> regions[j].kind != Available
  }

  /** The size of the block map, taken from the last available region. */
  method MapSize(regions: seq<Region>, blockSize: nat) returns (bytes: nat)
    requires blockSize > 0 && exists n: nat :: LastAvailable(regions, n)
    ensures forall n: nat :: LastAvailable(regions, n) ==> bytes == MapBytes(regions[n].End(), blockSize)
    ensures forall n: nat :: LastAvailable(regions, n) ==>
      exists k: nat :: bytes == Pow2(k) && LeastOrder(k, BLOCK_BYTES * regions[n].End() / blockSize, 1)
  {
    var index := |regions| - 1;
    ghost var n: nat :| LastAvailable(regions, n);
    while regions[index].kind != Available
      invariant n <= index < |regions|
      decreases index
    {
      index := index - 1;
    }
    bytes := MapBytes(regions[index].End(), blockSize);
    RoundedUp(BLOCK_BYTES * regions[index].End() / blockSize);
  }

  lemma RoundedUp(x: nat)
    ensures LeastOrder(LLog2(x), x, 1)
  {
    hide LLog2, Pow2;
    LLog2IsCeiling(x, LLog2(x));
    if LLog2(x) > 0 {
      LLog2IsCeiling(x, LLog2(x) - 1);
    }
  }

  function PageAddress(p: nat, blockSize: nat): nat {
    p * blockSize
  }

  lemma PageAddressFacts(p: nat, blockSize: nat)
    requires blockSize > 0
    ensures PageAddress(p, blockSize) / blockSize == p
    ensures PageAddress(p + 1, blockSize) == PageAddress(p, blockSize) + blockSize
  {
    Quotient(p, blockSize);
  }

  /** Page p lies wholly inside region r. */
  ghost predicate PageWithin(r: Region, p: nat, blockSize: nat) {
    r.location <= PageAddress(p, blockSize) && PageAddress(p, blockSize) + blockSize <= r.End()
  }

  ghost predicate Supplied(regions: seq<Region>, p: nat, blockSize: nat) {
    exists n :: 0 <= n < |regions| && regions[n].kind == Available && PageWithin(regions[n], p, blockSize)
  }

  /** The block map has room for every page below `end`, and its size is a power of two or zero. */
  lemma CellCount(end: nat, blockSize: nat)
    requires blockSize > 0
    ensures var cells := MapBytes(end, blockSize) / BLOCK_BYTES;
      && (cells == Pow2(LLog2(cells)) || cells == LLog2(cells) == 0)
      && (forall p: nat :: PageAddress(p, blockSize) + blockSize <= end ==> p < cells == Pow2(LLog2(cells)))
  {
    hide PageAddress;
    var x := BLOCK_BYTES * end / blockSize;
    CellsArePower(x);
    forall p: nat | PageAddress(p, blockSize) + blockSize <= end ensures x >= BLOCK_BYTES * (p + 1) {
      PageNeedsCell(end, blockSize, p);
    }
  }

  lemma PageNeedsCell(end: nat, blockSize: nat, p: nat)
    requires blockSize > 0 && PageAddress(p, blockSize) + blockSize <= end
    ensures BLOCK_BYTES * end / blockSize >= BLOCK_BYTES * (p + 1)
  {
    assert (BLOCK_BYTES * (p + 1)) * blockSize <= BLOCK_BYTES * end;
    FloorAtLeast(BLOCK_BYTES * (p + 1), blockSize, BLOCK_BYTES * end);
  }

  /** Rounding a byte count up to a power of two gives a power of two of cells, enough for the bytes asked for. */
  lemma CellsArePower(x: nat)
    ensures var cells := Pow2(LLog2(x)) / BLOCK_BYTES;
      && (cells == Pow2(LLog2(cells)) || cells == LLog2(cells) == 0)
      && (x >= BLOCK_BYTES ==> x <= BLOCK_BYTES * cells && cells == Pow2(LLog2(cells)))
  {
    hide LLog2;
    var t := LLog2(x);
    LLog2IsCeiling(x, t);
    if t >= 5 {
      ThirtyTwoth(t);
      LLog2OfPow2(t - 5);
    } else {
      Pow2Monotone(t, 4);
      assert Pow2(4) == 16;
      assert Pow2(t) / BLOCK_BYTES == 0;
      LLog2OfZero();
    }
  }

  lemma ThirtyTwoth(t: nat)
    requires t >= 5
    ensures Pow2(t) == 32 * Pow2(t - 5) && Pow2(t) / BLOCK_BYTES == Pow2(t - 5)
  {
    Pow2Sum(5, t - 5);
    assert Pow2(5) == 32;
  }

  lemma LLog2OfZero()
    ensures LLog2(0) == 0
  {
  }

  lemma FloorAtLeast(q: nat, d: nat, n: nat)
    requires d > 0 && q * d <= n
    ensures q <= n / d
  {
    var x := n / d;
    assert n == x * d + n % d;
    assert x < q ==> (x + 1) * d <= q * d;
  }

  class PageAllocator {
    const availList: array<Block>
    const blockMap: array<Block>
    const maxKVal: nat
    const blockSize: nat
    var freeBlockCount: nat
    ghost var lists: seq<seq<nat>>
    /** Blocks handed out and not yet freed. */
    ghost var live: Blocks
    /** How far the counter runs ahead of the number of free pages. */
    ghost var surplus: nat

    ghost function Cells(): Store
      reads availList, blockMap
    {
      Store(availList[..], blockMap[..])
    }

    ghost function FreeMap(): Blocks
      reads availList, blockMap
    {
      FreeBlocks(Cells())
    }

    ghost predicate Shape() {
      && availList != blockMap && availList.Length == AVAIL_LIST_SIZE && maxKVal < AVAIL_LIST_SIZE
      && (blockMap.Length == Pow2(maxKVal) || (blockMap.Length == 0 && maxKVal == 0))
      && blockSize > 0
    }

    ghost predicate Linked()
      reads this, availList, blockMap
    {
      Shape() && |lists| == maxKVal + 1 && Lists(Cells(), lists)
    }

    /** The free lists, the block map and the counter agree. */
    ghost predicate Sound()
      reads this, availList, blockMap
    {
      && Settled()
      && freeBlockCount == surplus + |PageSet(FreeMap(), maxKVal)|
    }

    /** Builds the allocator over a sorted map of disjoint regions: the free pages are exactly the whole pages inside
    available regions, nothing is reserved, and the counter holds each page twice. */
    constructor (regions: seq<Region>, blockSize: nat)
      requires blockSize > 0 && SortedDisjoint(regions)
      requires exists n: nat :: LastAvailable(regions, n)
      requires forall n: nat :: LastAvailable(regions, n) ==>
        LLog2(MapBytes(regions[n].End(), blockSize) / BLOCK_BYTES) < AVAIL_LIST_SIZE
      ensures Valid() && this.blockSize == blockSize && live == map[]
      ensures forall p: nat :: p in FreePages() <==> Supplied(regions, p, blockSize)
      ensures freeBlockCount == 2 * |FreePages()|
    {
      hide Settled, PageSet, SuppliedFrom, Supplied, LLog2, MapBytes, PageAddress, Healthy;
      ghost var last: nat :| LastAvailable(regions, last);
      CellCount(regions[last].End(), blockSize);
      var bytes := MapSize(regions, blockSize);
      var cells := bytes / BLOCK_BYTES;
      this.blockSize := blockSize;
      maxKVal := LLog2(cells);
      freeBlockCount := 0;
      live := map[];
      surplus := 0;
      lists := seq(LLog2(cells) + 1, _ => []);
      availList := new Block[AVAIL_LIST_SIZE](_ => Block(Null, Null, 0, RESERVED));
      blockMap := new Block[cells](_ => Block(Null, Null, 0, RESERVED));
      new;
      for i := 0 to maxKVal + 1
        invariant forall k :: 0 <= k < i ==> availList[k].linkf == availList[k].linkb == Head(k)
        modifies availList
      {
        availList[i] := availList[i].(linkf := Head(i), linkb := Head(i));
      }
      EmptyIsSound();
      SuppliedNone(regions, blockSize);
      for n := 0 to |regions|
        invariant Sound() && live == map[] && surplus == |FreePages()|
        invariant SuppliedFrom(FreePages(), regions, n, 0, blockSize)
      {
        if regions[n].kind == Available {
          SupplyRegion(regions, n, last);
        } else {
          SuppliedSkip(FreePages(), regions, n, blockSize);
        }
      }
      NothingLive();
      SuppliedAll(FreePages(), regions, blockSize);
    }

    lemma NothingLive()
      requires Sound() && live == map[]
      ensures Valid()
    {
      assert PageSet(live, maxKVal) == {};
    }

    lemma EmptyIsSound()
      requires Shape() && lists == seq(maxKVal + 1, _ => [])
      requires forall k :: 0 <= k <= maxKVal ==> availList[k].linkf == availList[k].linkb == Head(k)
      requires forall c :: 0 <= c < blockMap.Length ==> blockMap[c].tag == RESERVED
      ensures Settled() && FreePages() == {}
    {
      forall k | 0 <= k < |lists| ensures Ring(Cells(), k, lists[k]) {
        assert NodeLinked(Cells(), k, lists[k], -1);
      }
      assert FreeMap() == map[];
    }

    /** Inserts one page; both `insert` and the constructor's own loop count it. */
    method SupplyPage(q: nat)
      requires Sound() && surplus == |FreePages()|
      requires q < blockMap.Length == Pow2(maxKVal) && q !in FreePages()
      modifies this`freeBlockCount, this`lists, this`surplus, availList, blockMap
      ensures Sound() && surplus == |FreePages()|
      ensures FreePages() == old(FreePages()) + {q}
    {
      hide Canonical, PageSet, Lists;
      SinglePage(q);
      CountBlock(FreePages(), q, 0);
      Insert(q, 0);
      freeBlockCount := freeBlockCount + 1;
      surplus := surplus + 1;
    }

    /** Inserts every whole page of the available region n. */
    method SupplyRegion(regions: seq<Region>, n: nat, ghost last: nat)
      requires Sound() && blockSize > 0 && SortedDisjoint(regions) && LastAvailable(regions, last)
      requires blockMap.Length == MapBytes(regions[last].End(), blockSize) / BLOCK_BYTES
      requires maxKVal == LLog2(blockMap.Length)
      requires n < |regions| && regions[n].kind == Available
      requires surplus == |FreePages()| && SuppliedFrom(FreePages(), regions, n, 0, blockSize)
      modifies this`freeBlockCount, this`lists, this`surplus, availList, blockMap
      ensures Sound() && surplus == |FreePages()| && SuppliedFrom(FreePages(), regions, n + 1, 0, blockSize)
    {
      hide Settled, PageSet, SuppliedFrom, LLog2, MapBytes, PageAddress;
      var location := regions[n].location + blockSize - 1;
      location := location - location % blockSize;
      ghost var q: nat := SuppliedFirst(FreePages(), regions, n, blockSize);
      SupplyFrom(regions, n, last, location, q);
    }

    /** Inserts the whole pages of region n from page `first` on, which begins at `start`. */
    method SupplyFrom(regions: seq<Region>, n: nat, ghost last: nat, start: nat, ghost first: nat)
      requires Sound() && blockSize > 0 && SortedDisjoint(regions) && LastAvailable(regions, last)
      requires blockMap.Length == MapBytes(regions[last].End(), blockSize) / BLOCK_BYTES
      requires maxKVal == LLog2(blockMap.Length)
      requires n < |regions| && regions[n].kind == Available
      requires start == PageAddress(first, blockSize) && regions[n].location <= start
      requires surplus == |FreePages()| && SuppliedFrom(FreePages(), regions, n, first, blockSize)
      modifies this`freeBlockCount, this`lists, this`surplus, availList, blockMap
      ensures Sound() && surplus == |FreePages()| && SuppliedFrom(FreePages(), regions, n + 1, 0, blockSize)
    {
      hide Settled, PageSet, SuppliedFrom, LLog2, MapBytes, PageAddress;
      var location := start;
      ghost var q: nat := first;
      CellCount(regions[last].End(), blockSize);
      assert regions[n].End() <= regions[last].End();
      while location + blockSize <= regions[n].End()
        invariant location == PageAddress(q, blockSize) && regions[n].location <= location
        invariant Sound() && surplus == |FreePages()| && SuppliedFrom(FreePages(), regions, n, q, blockSize)
        decreases regions[n].End() - location
      {
        PageAddressFacts(q, blockSize);
        SuppliedStep(FreePages(), regions, n, q, blockSize);
        SupplyPage(location / blockSize);
        location := location + blockSize;
        q := q + 1;
      }
      SuppliedLast(FreePages(), regions, n, q, blockSize);
    }

    method StoreLinkf(p: Ptr, q: Ptr)
      requires Shape() && Cells().Has(p)
      modifies availList, blockMap
      ensures Cells() == old(Cells()).PutLinkf(p, q)
    {
      match p
      case Head(k) => availList[k] := availList[k].(linkf := q);
      case Cell(i) => blockMap[i] := blockMap[i].(linkf := q);
    }

    method StoreLinkb(p: Ptr, q: Ptr)
      requires Shape() && Cells().Has(p)
      modifies availList, blockMap
      ensures Cells() == old(Cells()).PutLinkb(p, q)
    {
      match p
      case Head(k) => availList[k] := availList[k].(linkb := q);
      case Cell(i) => blockMap[i] := blockMap[i].(linkb := q);
    }

    /** Takes the free cell x out of list k. */
    method Detach(x: nat, ghost k: nat)
      requires Linked() && IsFree(Cells(), x, k)
      modifies availList, blockMap, this`lists
      ensures Linked()
      ensures FreeMap() == old(FreeMap()) - {x}
      ensures forall i :: 0 <= i < blockMap.Length && old(blockMap[i]).tag == RESERVED ==>
          blockMap[i] == old(blockMap[i])
      ensures blockMap[x].tag == RESERVED && blockMap[x].kval == k
      ensures forall l :: 0 <= l < |lists| && l != k ==> lists[l] == old(lists[l])
    {
      ghost var s := Cells();
      assert Holds(s, k, lists[k]);
      ghost var j :| 0 <= j < |lists[k]| && lists[k][j] == x;
      UnlinkKeepsLists(s, lists, k, j);
      Neighbours(s, k, lists[k], j);
      FreeBlocksAfterUnlink(s, x);
      StoreLinkf(blockMap[x].linkb, blockMap[x].linkf);
      StoreLinkb(blockMap[x].linkf, blockMap[x].linkb);
      blockMap[x] := blockMap[x].(tag := RESERVED);
      assert Cells() == Unlink(s, x);
      lists := lists[k := Without(lists[k], j)];
    }

    /** Links the reserved cell x as the first element of list k and tags it free with that order. */
    method Attach(x: nat, k: nat)
      requires Linked() && k <= maxKVal && x < blockMap.Length && blockMap[x].tag == RESERVED
      modifies availList, blockMap, this`lists
      ensures Linked()
      ensures FreeMap() == old(FreeMap())[x := k] && lists[k] == [x] + old(lists[k])
      ensures forall i :: 0 <= i < blockMap.Length && i != x && old(blockMap[i]).tag == RESERVED ==>
          blockMap[i] == old(blockMap[i])
      ensures forall l :: 0 <= l < |lists| && l != k ==> lists[l] == old(lists[l])
    {
      ghost var s := Cells();
      PushKeepsLists(s, lists, k, x);
      FreeBlocksAfterPush(s, k, x);
      var p := availList[k].linkf;
      blockMap[x] := Block(p, Head(k), k, FREE);
      StoreLinkb(p, Cell(x));
      StoreLinkf(Head(k), Cell(x));
      assert Cells() == PushFront(s, k, x);
      lists := lists[k := [x] + lists[k]];
    }

    ghost function FreePages(): set<nat>
      reads availList, blockMap
    {
      PageSet(FreeMap(), maxKVal)
    }

    ghost predicate UnchangedOutside(before: seq<Block>, pages: set<nat>)
      reads blockMap
    {
      && |before| == blockMap.Length
      && forall c :: 0 <= c < |before| && c !in pages ==> blockMap[c] == before[c]
    }

    /** Every cell outside the free pages is reserved. */
    lemma FreeCells()
      requires Linked() && Canonical(FreeMap(), maxKVal)
      ensures forall c :: 0 <= c < blockMap.Length && blockMap[c].tag == FREE ==> c in FreePages()
    {
      forall c | 0 <= c < blockMap.Length && blockMap[c].tag == FREE ensures c in FreePages() {
        FreeCellIsFreePage(Cells(), maxKVal, c);
      }
    }

    /** The lists are sound and describe a canonical family. */
    ghost predicate Settled()
      reads this, availList, blockMap
    {
      Linked() && Canonical(FreeMap(), maxKVal)
    }

    /** A block that is in no list and shares no page with a free one. */
    ghost predicate Pending(i: nat, k: nat)
      reads availList, blockMap
    {
      Fits(i, k, maxKVal) && FreePages() !! BlockPages(i, k)
    }

    /** The free pages together with those of a pending block. */
    ghost function Pages(i: nat, k: nat): set<nat>
      reads availList, blockMap
    {
      FreePages() + BlockPages(i, k)
    }

    /** One round of the merge loop: the pending block absorbs its free buddy. */
    method Absorb(i: nat, k: nat) returns (lo: nat)
      requires Settled() && Pending(i, k) && k < maxKVal && blockMap.Length == Pow2(maxKVal)
      requires Buddy(i, k) < blockMap.Length && blockMap[Buddy(i, k)].tag == FREE && blockMap[Buddy(i, k)].kval == k
      modifies this`lists, availList, blockMap
      ensures Settled() && Pending(lo, k + 1) && Pages(lo, k + 1) == old(Pages(i, k))
      ensures UnchangedOutside(old(blockMap[..]), old(FreePages()))
    {
      hide Canonical, Aligned, PageSet, BlockPages, Lists;
      var buddyIndex := Buddy(i, k);
      MergeStep(FreeMap(), maxKVal, i, k);
      FreeCells();
      Detach(buddyIndex, k);
      lo := if buddyIndex < i then buddyIndex else i;
    }

    /** Frees the block of order k at `index`, merging it with free buddies on the way up: the free pages grow by
    exactly its pages, the free blocks stay canonical and no cell elsewhere changes. */
    method Insert(index: nat, k: nat)
      requires Sound() && Pending(index, k) && blockMap.Length == Pow2(maxKVal)
      modifies this`freeBlockCount, this`lists, availList, blockMap
      ensures Sound()
      ensures FreePages() == old(Pages(index, k))
      ensures freeBlockCount == old(freeBlockCount) + Pow2(k)
      ensures UnchangedOutside(old(blockMap[..]), FreePages())
    {
      hide Canonical, Aligned, PageSet, BlockPages, Lists;
      CountBlock(FreePages(), index, k);
      freeBlockCount := freeBlockCount + Pow2(k);
      var i, o := MergeUp(index, k);
      AddPages(FreeMap(), maxKVal, i, o);
      FreeCells();
      FirstPage(i, o);
      Attach(i, o);
    }

    /** The merge loop: the pending block grows until its buddy is not free. */
    method MergeUp(index: nat, k: nat) returns (i: nat, o: nat)
      requires Settled() && Pending(index, k) && blockMap.Length == Pow2(maxKVal)
      modifies this`lists, availList, blockMap
      ensures Settled() && Pending(i, o) && Pages(i, o) == old(Pages(index, k))
      ensures UnchangedOutside(old(blockMap[..]), old(Pages(index, k)))
      ensures o < maxKVal ==> Buddy(i, o) < blockMap.Length && (blockMap[Buddy(i, o)].tag != FREE || blockMap[Buddy(i, o)].kval != o)
    {
      hide Canonical, Aligned, PageSet, BlockPages, Lists;
      i, o := index, k;
      while o < maxKVal
        invariant Settled() && Pending(i, o) && Pages(i, o) == old(Pages(index, k))
        invariant UnchangedOutside(old(blockMap[..]), old(Pages(index, k)))
      {
        BuddyFits(i, o, maxKVal);
        if blockMap[Buddy(i, o)].tag != FREE || blockMap[Buddy(i, o)].kval != o {
          break;
        }
        i := Absorb(i, o);
        o := o + 1;
      }
    }

    /** Free and reserved blocks are disjoint, aligned, and every live reservation keeps its order in its cell. */
    ghost predicate Valid()
      reads this, availList, blockMap
    {
      && Sound()
      && Healthy(maxKVal, View())
      && (forall i :: i in live ==> i < blockMap.Length && blockMap[i].tag == RESERVED && blockMap[i].kval == live[i])
    }

    /** The order of the smallest block of at least `size` bytes; `size - 1` wraps in 64 bits. */
    function OrderFor(size: nat): nat
      requires blockSize > 0
    {
      LLog2((if size == 0 then WORD - 1 else size - 1) / blockSize + 1)
    }

    /** Unlinks the last block of the non-empty list `top`. */
    method PopLast(top: nat) returns (x: nat)
      requires Linked() && top <= maxKVal && lists[top] != []
      modifies availList, blockMap, this`lists
      ensures Linked()
      ensures x in old(FreeMap()) && old(FreeMap())[x] == top && FreeMap() == old(FreeMap()) - {x}
      ensures old(lists[top]) == lists[top] + [x]
      ensures forall i :: 0 <= i < blockMap.Length && old(blockMap[i]).tag == RESERVED ==>
          blockMap[i] == old(blockMap[i])
      ensures x < blockMap.Length && blockMap[x].tag == RESERVED && blockMap[x].kval == top
      ensures forall l :: 0 <= l < |lists| && l != top ==> lists[l] == old(lists[l])
    {
      ghost var s, list := Cells(), lists[top];
      ghost var j := |list| - 1;
      assert Holds(s, top, list) && Ring(s, top, list);
      assert NodeLinked(s, top, list, -1);
      assert IsFree(s, list[j], top) by { assert list[j] in list; }
      assert Without(list, j) + [list[j]] == list;
      hide Without;
      UnlinkKeepsLists(s, lists, top, j);
      Neighbours(s, top, list, j);
      x := availList[top].linkb.index;
      FreeBlocksAfterUnlink(s, x);
      StoreLinkb(Head(top), blockMap[x].linkb);
      StoreLinkf(availList[top].linkb, Head(top));
      blockMap[x] := blockMap[x].(tag := RESERVED);
      assert Cells() == Unlink(s, x);
      lists := lists[top := Without(list, j)];
    }

    /** One split: the upper half of the reserved block of order j + 1 at x becomes a free block of order j on its own
    list, which is empty beforehand, so overwriting both links of the head loses nothing. */
    method SplitUpper(x: nat, j: nat)
      requires Linked() && j <= maxKVal && x + Pow2(j) < blockMap.Length && lists[j] == []
      requires blockMap[x].tag == RESERVED && blockMap[x + Pow2(j)].tag == RESERVED
      modifies availList, blockMap, this`lists
      ensures Linked()
      ensures FreeMap() == old(FreeMap())[x + Pow2(j) := j]
      ensures forall i :: 0 <= i < blockMap.Length && i != x && i != x + Pow2(j) && old(blockMap[i]).tag == RESERVED
                ==> blockMap[i] == old(blockMap[i])
      ensures blockMap[x].tag == RESERVED && blockMap[x].kval == j
      ensures forall l :: 0 <= l < |lists| && l != j ==> lists[l] == old(lists[l])
    {
      ghost var s := Cells();
      assert Holds(s, j, lists[j]) && Ring(s, j, lists[j]);
      assert NodeLinked(s, j, lists[j], -1);
      var buddy := x + Pow2(j);
      PushKeepsLists(s, lists, j, buddy);
      FreeBlocksAfterPush(s, j, buddy);
      ghost var t := PushFront(s, j, buddy);
      ReservedUpdate(t, lists[j := [buddy] + lists[j]], x, t.cells[x].(kval := j));
      blockMap[buddy] := Block(Head(j), Head(j), j, FREE);
      blockMap[x] := blockMap[x].(kval := j);
      availList[j] := availList[j].(linkb := Cell(buddy));
      availList[j] := availList[j].(linkf := Cell(buddy));
      assert Cells() == t.Put(Cell(x), t.cells[x].(kval := j));
      lists := lists[j := [buddy] + lists[j]];
    }

    ghost function View(): Pool
      reads this, availList, blockMap
    {
      Pool(FreeMap(), live, freeBlockCount)
    }

    /** One round of the split loop: the reserved block at x keeps its lower half. */
    method Halve(x: nat, j: nat)
      requires Settled() && Pending(x, j + 1) && lists[j] == []
      requires x + Pow2(j) < blockMap.Length && blockMap[x].tag == RESERVED
      modifies this`lists, availList, blockMap
      ensures Settled() && Pending(x, j) && Pages(x, j) == old(Pages(x, j + 1))
      ensures UnchangedOutside(old(blockMap[..]), old(Pages(x, j + 1)))
      ensures blockMap[x].tag == RESERVED && blockMap[x].kval == j
      ensures forall l :: 0 <= l < |lists| && l != j ==> lists[l] == old(lists[l])
    {
      hide Canonical, Aligned, PageSet, BlockPages, Lists;
      SplitStep(FreeMap(), maxKVal, x, j);
      FreeCells();
      FirstPage(x, j);
      FirstPage(x, j + 1);
      FirstPage(x + Pow2(j), j);
      SplitUpper(x, j);
    }

    /** Takes the last block of the non-empty list `top` and splits it down to order k. Every list the split writes to
    is empty beforehand. */
    method TakeFrom(top: nat, k: nat) returns (x: nat)
      requires Settled() && k <= top <= maxKVal && lists[top] != []
      requires forall l :: k <= l < top ==> lists[l] == []
      modifies this`lists, availList, blockMap
      ensures Settled() && Pending(x, k) && Pages(x, k) == old(FreePages())
      ensures x < blockMap.Length && blockMap[x].tag == RESERVED && blockMap[x].kval == k
      ensures UnchangedOutside(old(blockMap[..]), old(FreePages()))
    {
      hide Canonical, Aligned, PageSet, BlockPages, Lists;
      RemovePagesOf(FreeMap());
      FreeCells();
      x := PopLast(top);
      var j := top;
      while j > k
        invariant k <= j <= top
        invariant Settled() && Pending(x, j) && Pages(x, j) == old(FreePages())
        invariant x < blockMap.Length && blockMap[x].tag == RESERVED && blockMap[x].kval == j
        invariant forall l :: k <= l < j ==> lists[l] == []
        invariant UnchangedOutside(old(blockMap[..]), old(FreePages()))
      {
        j := j - 1;
        Halve(x, j);
      }
    }

    lemma RemovePagesOf(m: Blocks)
      requires Canonical(m, maxKVal)
      ensures forall x :: x in m ==>
        && Fits(x, m[x], maxKVal)
        && Canonical(m - {x}, maxKVal)
        && PageSet(m - {x}, maxKVal) !! BlockPages(x, m[x])
        && PageSet(m - {x}, maxKVal) + BlockPages(x, m[x]) == PageSet(m, maxKVal)
    {
      forall x | x in m ensures
        && Fits(x, m[x], maxKVal)
        && Canonical(m - {x}, maxKVal)
        && PageSet(m - {x}, maxKVal) !! BlockPages(x, m[x])
        && PageSet(m - {x}, maxKVal) + BlockPages(x, m[x]) == PageSet(m, maxKVal)
      {
        RemovePages(m, maxKVal, x);
      }
    }

    /** Whether no free block is large enough for order k. */
    ghost predicate Exhausted(k: nat)
      reads availList, blockMap
    {
      forall i :: i in FreeMap() ==> FreeMap()[i] < k
    }

    /** An empty list head points to itself, and then no free block has that order. */
    lemma EmptyList(j: nat)
      requires Linked() && j <= maxKVal
      ensures availList[j].linkf == Head(j) <==> lists[j] == []
      ensures lists[j] == [] <==> forall i :: i in FreeMap() ==> FreeMap()[i] != j
    {
      assert Holds(Cells(), j, lists[j]) && Ring(Cells(), j, lists[j]);
      assert NodeLinked(Cells(), j, lists[j], -1);
      if lists[j] == [] {
        forall i | i in FreeMap() ensures FreeMap()[i] != j {
          assert !IsFree(Cells(), i, j);
        }
      } else {
        assert lists[j][0] in lists[j];
        assert IsFree(Cells(), lists[j][0], j);
        assert lists[j][0] in FreeMap();
      }
    }

    lemma OrdersBounded()
      requires Linked()
      ensures forall i :: i in FreeMap() ==> FreeMap()[i] <= maxKVal
    {
    }

    /** Finds the first non-empty list from order k up. */
    method FirstList(k: nat) returns (j: nat)
      requires Settled()
      ensures k <= j && (forall l :: k <= l < j && l <= maxKVal ==> lists[l] == [])
      ensures j <= maxKVal ==> lists[j] != [] && !Exhausted(k)
      ensures j > maxKVal ==> Exhausted(k)
    {
      hide Canonical, Lists;
      j := k;
      OrdersBounded();
      while j <= maxKVal
        invariant k <= j
        invariant forall l :: k <= l < j && l <= maxKVal ==> lists[l] == []
        invariant forall i :: i in FreeMap() ==> !(k <= FreeMap()[i] < j)
      {
        EmptyList(j);
        if availList[j].linkf != Head(j) {
          return;
        }
        j := j + 1;
      }
    }

    /** Takes a block of order k out of the non-empty list j and records it as reserved. */
    method Take(j: nat, k: nat) returns (index: nat)
      requires Valid() && k <= j <= maxKVal && lists[j] != []
      requires forall l :: k <= l < j ==> lists[l] == []
      modifies this`freeBlockCount, this`lists, this`live, availList, blockMap
      ensures Valid()
      ensures Next(maxKVal, old(View()), Grant(index, k), View())
    {
      hide Canonical, Aligned, PageSet, BlockPages, Lists, Separate;
      ghost var before := FreePages();
      index := TakeFrom(j, k);
      TakenJoinsLive(live, maxKVal, before, FreePages(), index, k);
      MembersCovered(live, maxKVal);
      freeBlockCount := freeBlockCount - Pow2(k);
      live := live[index := k];
    }

    /** The bytes a request asks for: `size - 1` wraps in 64 bits, so a request for none asks for the whole space. */
    function Asked(size: nat): nat {
      if size == 0 then WORD else size
    }

    /** Some free block holds the bytes. */
    ghost predicate Offers(bytes: nat)
      reads this, availList, blockMap
    {
      exists i :: i in FreeMap() && bytes <= Pow2(FreeMap()[i]) * blockSize
    }

    lemma OffersIff(size: nat)
      requires blockSize > 0
      ensures Asked(size) > 0 && LeastOrder(OrderFor(size), Asked(size), blockSize)
      ensures Offers(Asked(size)) <==> !Exhausted(OrderFor(size))
    {
      hide Pow2, LLog2;
      forall k: nat ensures Asked(size) <= Pow2(k) * blockSize <==> OrderFor(size) <= k {
        OrderIsLeast(Asked(size), blockSize, k);
      }
      OrderIsLeast(Asked(size), blockSize, OrderFor(size));
    }

    /** When no free block holds the bytes, no aligned run of free pages does. */
    lemma NoRun(bytes: nat)
      requires Settled() && !Offers(bytes)
      ensures forall b, k: nat :: Fits(b, k, maxKVal) && bytes <= Pow2(k) * blockSize ==>
        !(BlockPages(b, k) <= FreePages())
    {
      hide Pow2, Lists, Canonical, PageSet, BlockPages, Fits;
      forall b, k: nat | Fits(b, k, maxKVal) && bytes <= Pow2(k) * blockSize ensures !(BlockPages(b, k) <= FreePages()) {
        BlockIffRun(FreeMap(), maxKVal, k);
        forall i | i in FreeMap() ensures FreeMap()[i] < k {
          if FreeMap()[i] >= k {
            BytesMonotone(k, FreeMap()[i], blockSize);
          }
        }
      }
    }

    /** Reserves the smallest block that holds the bytes asked for. It fails exactly when no free block holds them,
    which is when no aligned run of free pages does, and then changes nothing. Otherwise it takes an aligned run of
    free pages, which leave the free set together and become a live reservation. */
    method Reserve(size: nat) returns (location: nat)
      requires Valid()
      modifies this`freeBlockCount, this`lists, this`live, availList, blockMap
      ensures Valid()
      ensures old(Exhausted(OrderFor(size))) ==>
        && location == NOMEM && Cells() == old(Cells()) && lists == old(lists)
        && Next(maxKVal, old(View()), Refuse(OrderFor(size)), View())
      ensures !old(Exhausted(OrderFor(size))) ==>
        && location == location / blockSize * blockSize && (blockSize % 2 == 0 ==> location != NOMEM)
        && Next(maxKVal, old(View()), Grant(location / blockSize, OrderFor(size)), View())
      ensures old(Offers(Asked(size))) <==> !old(Exhausted(OrderFor(size)))
      ensures old(Offers(Asked(size))) ==>
        location / blockSize in live && LeastOrder(live[location / blockSize], Asked(size), blockSize)
      ensures !old(Offers(Asked(size))) ==>
        forall b, k: nat :: Fits(b, k, maxKVal) && Asked(size) <= Pow2(k) * blockSize ==>
          !(BlockPages(b, k) <= old(FreePages()))
    {
      hide Canonical, Aligned, PageSet, BlockPages, Lists, Separate;
      OffersIff(size);
      if !Offers(Asked(size)) {
        NoRun(Asked(size));
      }
      var k := OrderFor(size);
      var j := FirstList(k);
      if j > maxKVal {
        return NOMEM;
      }
      var index := Take(j, k);
      Quotient(index, blockSize);
      if blockSize % 2 == 0 {
        EvenMultiple(index, blockSize);
      }
      return index * blockSize;
    }

    /** Frees a live reservation, given any address in its first page. Its pages join the free ones and the result is
    the size of the freed block in bytes. */
    method Free(location: nat) returns (bytes: nat)
      requires Valid() && location / blockSize in live
      modifies this`freeBlockCount, this`lists, this`live, availList, blockMap
      ensures Valid()
      ensures Next(maxKVal, old(View()), Release(location / blockSize), View())
      ensures bytes == Pow2(old(live)[location / blockSize]) * blockSize
    {
      hide Canonical, Aligned, PageSet, BlockPages, Lists, Separate;
      var index := location / blockSize;
      var k := blockMap[index].kval;
      FreedLeavesLive(live, maxKVal, FreePages(), index);
      MembersCovered(live, maxKVal);
      MembersCovered(live - {index}, maxKVal);
      Insert(index, k);
      live := live - {index};
      bytes := Pow2(k) * blockSize;
    }

    /** Serves a sequence of requests: each asks for memory, or gives back one of the reservations still held. The
    states and events form a run. */
    method Serve(requests: seq<Request>) returns (ghost states: seq<Pool>, ghost events: seq<Event>)
      requires Valid() && blockSize > 0 && blockSize % 2 == 0
      modifies this`freeBlockCount, this`lists, this`live, availList, blockMap
      ensures Valid() && Run(maxKVal, states, events)
      ensures states[0] == old(View()) && states[|states| - 1] == View()
    {
      hide Next, Healthy, Sound, Held;
      states, events := [View()], [];
      ViewHealthy();
      var held: seq<nat> := [];
      NothingHeld(live, blockSize);
      for n := 0 to |requests|
        invariant Valid() && Run(maxKVal, states, events) && states[0] == old(View()) && states[|states| - 1] == View()
        invariant Held(held, live, blockSize)
      {
        ghost var e;
        match requests[n] {
          case Ask(size) =>
            held, e := ServeAsk(size, held);
          case Give(i) =>
            if i >= |held| {
              continue;
            }
            held, e := ServeGive(i, held);
        }
        ViewHealthy();
        RunExtends(maxKVal, states, events, e, View());
        states, events := states + [View()], events + [e];
      }
    }

    method ServeAsk(size: nat, held: seq<nat>) returns (more: seq<nat>, ghost e: Event)
      requires Valid() && blockSize > 0 && blockSize % 2 == 0 && Held(held, live, blockSize)
      modifies this`freeBlockCount, this`lists, this`live, availList, blockMap
      ensures Valid() && Next(maxKVal, old(View()), e, View()) && Held(more, live, blockSize)
    {
      hide Next, Healthy, Sound, Held;
      ghost var before := View();
      e := Refuse(OrderFor(size));
      more := held;
      var location := Reserve(size);
      if location != NOMEM {
        e := Grant(location / blockSize, OrderFor(size));
        HeldMore(held, before, e, View(), maxKVal, location, blockSize);
        more := held + [location];
      } else {
        HeldSame(before, e, View(), maxKVal);
      }
    }

    method ServeGive(i: nat, held: seq<nat>) returns (less: seq<nat>, ghost e: Event)
      requires Valid() && blockSize > 0 && i < |held| && Held(held, live, blockSize)
      modifies this`freeBlockCount, this`lists, this`live, availList, blockMap
      ensures Valid() && Next(maxKVal, old(View()), e, View()) && Held(less, live, blockSize)
    {
      hide Next, Healthy, Sound, Held;
      ghost var before := View();
      e := Release(held[i] / blockSize);
      HeldOne(held, live, blockSize, i);
      var _ := Free(held[i]);
      HeldLess(held, before, e, View(), maxKVal, i, blockSize);
      less := held[..i] + held[i + 1..];
    }

    lemma ViewHealthy()
      requires Valid()
      ensures Healthy(maxKVal, View()) && View().live == live
    {
    }
  }

  datatype Request = Ask(size: nat) | Give(i: nat)

  /** The locations held are live reservations, each once. */
  ghost predicate Held(held: seq<nat>, live: Blocks, blockSize: nat)
    requires blockSize > 0
  {
    && (forall i :: 0 <= i < |held| ==> held[i] / blockSize in live)
    && (forall i, j :: 0 <= i < j < |held| ==> held[i] / blockSize != held[j] / blockSize)
  }

  lemma NothingHeld(live: Blocks, blockSize: nat)
    requires blockSize > 0
    ensures Held([], live, blockSize)
  {
  }

  lemma HeldOne(held: seq<nat>, live: Blocks, blockSize: nat, i: nat)
    requires blockSize > 0 && Held(held, live, blockSize) && i < |held|
    ensures held[i] / blockSize in live
  {
  }

  lemma HeldMore(held: seq<nat>, s: Pool, e: Event, t: Pool, top: nat, location: nat, blockSize: nat)
    requires blockSize > 0 && Held(held, s.live, blockSize) && e.Grant? && e.index == location / blockSize
    requires Next(top, s, e, t)
    ensures Held(held + [location], t.live, blockSize)
  {
  }

  lemma HeldSame(s: Pool, e: Event, t: Pool, top: nat)
    requires Next(top, s, e, t) && e.Refuse?
    ensures t == s
  {
  }

  lemma HeldLess(held: seq<nat>, s: Pool, e: Event, t: Pool, top: nat, i: nat, blockSize: nat)
    requires blockSize > 0 && Held(held, s.live, blockSize) && i < |held| && e == Release(held[i] / blockSize)
    requires Next(top, s, e, t)
    ensures Held(held[..i] + held[i + 1..], t.live, blockSize)
  {
    var rest := held[..i] + held[i + 1..];
    assert forall j :: 0 <= j < |rest| ==> rest[j] == held[if j < i then j else j + 1];
  }

  lemma RunExtends(top: nat, states: seq<Pool>, events: seq<Event>, e: Event, t: Pool)
    requires Run(top, states, events) && Healthy(top, t) && Next(top, states[|states| - 1], e, t)
    ensures Run(top, states + [t], events + [e])
  {
    hide Healthy, Next;
    var ss, es := states + [t], events + [e];
    forall n | 0 <= n < |es| ensures Next(top, ss[n], es[n], ss[n + 1]) {
      if n < |events| {
        assert events[n] == es[n];
      }
    }
  }

  lemma EvenMultiple(index: nat, blockSize: nat)
    requires blockSize % 2 == 0
    ensures index * blockSize != NOMEM
  {
    var h := blockSize / 2;
    assert index * blockSize == 2 * (index * h) by {
      assert blockSize == 2 * h;
    }
  }

  lemma Quotient(q: nat, d: nat)
    requires d > 0
    ensures (q * d) / d == q
  {
    var x := q * d / d;
    assert q * d == x * d + (q * d) % d;
    assert x < q ==> (x + 1) * d <= q * d;
    assert x > q ==> (q + 1) * d <= x * d;
  }

  /** Rounding an address up to a page boundary. */
  lemma RoundUp(location: nat, d: nat) returns (q: nat)
    requires d > 0
    ensures var x := location + d - 1; x - x % d == q * d
    ensures q * d >= location
    ensures forall p: nat :: p * d >= location ==> p >= q
  {
    var x := location + d - 1;
    q := x / d;
    assert x == q * d + x % d;
    forall p: nat | p * d >= location ensures p >= q {
      assert p < q ==> (p + 1) * d <= q * d;
    }
  }

  lemma SinglePage(q: nat)
    ensures BlockPages(q, 0) == {q} && Pow2(0) == 1 && Aligned(q, 0)
  {
    assert forall p :: InRange(p, q, 1) <==> p == q;
  }

  /** The pages supplied by the first n regions and by region n below page q. */
  ghost predicate SuppliedFrom(pages: set<nat>, regions: seq<Region>, n: nat, q: nat, blockSize: nat) {
    && n <= |regions|
    && forall p: nat :: p in pages <==> Supplied(regions[..n], p, blockSize) || WithinBelow(regions, n, p, q, blockSize)
  }

  ghost predicate WithinBelow(regions: seq<Region>, n: nat, p: nat, q: nat, blockSize: nat) {
    p < q && n < |regions| && PageWithin(regions[n], p, blockSize)
  }

  lemma SuppliedFirst(pages: set<nat>, regions: seq<Region>, n: nat, blockSize: nat) returns (q: nat)
    requires blockSize > 0 && n < |regions| && SuppliedFrom(pages, regions, n, 0, blockSize)
    ensures var x := regions[n].location + blockSize - 1; x - x % blockSize == PageAddress(q, blockSize)
    ensures PageAddress(q, blockSize) >= regions[n].location
    ensures SuppliedFrom(pages, regions, n, q, blockSize)
  {
    q := RoundUp(regions[n].location, blockSize);
  }

  lemma SuppliedStep(pages: set<nat>, regions: seq<Region>, n: nat, q: nat, blockSize: nat)
    requires blockSize > 0 && SortedDisjoint(regions) && n < |regions|
    requires SuppliedFrom(pages, regions, n, q, blockSize) && PageWithin(regions[n], q, blockSize)
    ensures q !in pages && SuppliedFrom(pages + {q}, regions, n, q + 1, blockSize)
  {
    assert !Supplied(regions[..n], q, blockSize);
    assert q !in pages;
    forall p: nat
      ensures WithinBelow(regions, n, p, q + 1, blockSize) <==> WithinBelow(regions, n, p, q, blockSize) || p == q
    {
    }
  }

  lemma SuppliedLast(pages: set<nat>, regions: seq<Region>, n: nat, q: nat, blockSize: nat)
    requires blockSize > 0 && n < |regions| && regions[n].kind == Available
    requires PageAddress(q, blockSize) + blockSize > regions[n].End()
    requires SuppliedFrom(pages, regions, n, q, blockSize)
    ensures SuppliedFrom(pages, regions, n + 1, 0, blockSize)
  {
    forall p: nat
      ensures Supplied(regions[..n + 1], p, blockSize) <==>
        Supplied(regions[..n], p, blockSize) || WithinBelow(regions, n, p, q, blockSize)
    {
      assert p >= q ==> p * blockSize >= q * blockSize;
      SuppliedPrefix(regions, n, p, blockSize);
    }
  }

  lemma SuppliedSkip(pages: set<nat>, regions: seq<Region>, n: nat, blockSize: nat)
    requires n < |regions| && regions[n].kind != Available && SuppliedFrom(pages, regions, n, 0, blockSize)
    ensures SuppliedFrom(pages, regions, n + 1, 0, blockSize)
  {
    forall p: nat ensures Supplied(regions[..n + 1], p, blockSize) <==> Supplied(regions[..n], p, blockSize) {
      SuppliedPrefix(regions, n, p, blockSize);
    }
  }

  lemma SuppliedNone(regions: seq<Region>, blockSize: nat)
    ensures SuppliedFrom({}, regions, 0, 0, blockSize)
  {
  }

  lemma SuppliedAll(pages: set<nat>, regions: seq<Region>, blockSize: nat)
    requires SuppliedFrom(pages, regions, |regions|, 0, blockSize)
    ensures forall p: nat :: p in pages <==> Supplied(regions, p, blockSize)
  {
    assert regions[..|regions|] == regions;
  }

  lemma SuppliedPrefix(regions: seq<Region>, n: nat, p: nat, blockSize: nat)
    requires n < |regions|
    ensures Supplied(regions[..n + 1], p, blockSize) <==>
      Supplied(regions[..n], p, blockSize) || (regions[n].kind == Available && PageWithin(regions[n], p, blockSize))
  {
    var short, long := regions[..n], regions[..n + 1];
    assert forall m :: 0 <= m < n ==> long[m] == short[m];
    assert long[n] == regions[n];
    if Supplied(short, p, blockSize) {
      var m :| 0 <= m < |short| && short[m].kind == Available && PageWithin(short[m], p, blockSize);
      assert long[m] == short[m];
    }
  }
}
