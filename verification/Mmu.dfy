/** Page-table updates through the recursive window, and the fault handler that builds missing tables. */
module Mmus {
  import opened PageTables

  ghost predicate Canonical(va: nat) {
    va < HALF || HIGH_MEM <= va < HIGH_MEM + HALF
  }

  function HalfOf(va: nat): Half {
    if va >= HIGH_MEM then Kernel else User
  }

  lemma LinearAddress(va: nat)
    requires Canonical(va)
    ensures va % HALF == (if va >= HIGH_MEM then va - HIGH_MEM else va)
    ensures PageNumber(va) < PAGES
  {
    if va >= HIGH_MEM {
      HalfOffset(Kernel, va - HIGH_MEM, va);
    }
  }

  /** The window address of a page's entry at table level t is canonical and in the page's own half. */
  lemma EntryAddressHalf(h: Half, t: nat, p: nat)
    requires t <= 2 && p < PAGES
    ensures Canonical(EntryAddress(h, t, p / Span(t))) && HalfOf(EntryAddress(h, t, p / Span(t))) == h
  {
  }

  class Mmu {
    var mem: Memory
    const user: nat
    const kernel: nat
    /** Frames the page allocator will hand out next, as physical addresses. */
    var pool: seq<nat>
    /** The role of every table frame. */
    ghost var owner: map<nat, Role>

    ghost function Tables(): Space
      reads this
    {
      Space(mem, user, kernel)
    }

    ghost predicate Valid()
      reads this
    {
      Unshared(Tables(), owner) && Fresh(pool, owner)
    }

    /** A load of a descriptor through its virtual address. */
    method Load(va: nat) returns (e: Entry)
      requires Translate(Tables(), HalfOf(va), PageNumber(va)).Page?
      ensures e == Tables().Read(Translate(Tables(), HalfOf(va), PageNumber(va)).out, WordIndex(va))
    {
      var s := Space(mem, user, kernel);
      e := s.Read(Translate(s, HalfOf(va), PageNumber(va)).out, WordIndex(va));
    }

    /** A store of a descriptor through its virtual address. */
    method Store(va: nat, e: Entry)
      requires Translate(Tables(), HalfOf(va), PageNumber(va)).Page?
      modifies this`mem
      ensures Tables() == old(Tables()).Write(Translate(old(Tables()), HalfOf(va), PageNumber(va)).out,
        WordIndex(va), e)
    {
      var s := Space(mem, user, kernel);
      mem := s.Write(Translate(s, HalfOf(va), PageNumber(va)).out, WordIndex(va), e).mem;
    }

    /** The frame of a page read through the window. The comparison with the start of the kernel half is strict, so
    the very first kernel address is looked up in the user tables. */
    method GetPageFrame(page: nat) returns (frame: nat)
      requires Canonical(page) && SelfMapped(Tables(), User) && SelfMapped(Tables(), Kernel)
      ensures frame == Lookup(Tables(), page)
    {
      var h := if page > HIGH_MEM then Kernel else User;
      LinearAddress(page);
      var p := PageNumber(page);
      for i := 0 to 2
        invariant i >= 1 ==> IsTable(E1(Tables(), h, p))
        invariant i == 2 ==> IsTable(E2(Tables(), h, p))
      {
        WindowAgrees(Tables(), h, i, p);
        EntryAddressHalf(h, i, p);
        var e := Load(EntryAddress(h, i, p / Span(i)));
        if !e.present {
          return 0;
        } else if !e.table {
          return Physical(e);
        }
      }
      WindowAgrees(Tables(), h, 2, p);
      EntryAddressHalf(h, 2, p);
      var e := Load(EntryAddress(h, 2, p));
      if !e.present {
        return 0;
      }
      return Physical(e);
    }

    /** Stores a table descriptor into page p's entry at table level i through the window. */
    method LinkLevel(h: Half, i: nat, tableIndex: nat, ghost p: nat, frame: nat)
      requires i <= 1 && Outside(p) && IsEntryIndex(tableIndex, i, p) && SelfMapped(Tables(), h)
      requires i == 1 ==> IsTable(E1(Tables(), h, p))
      modifies this`mem
      ensures Tables() == Linked(old(Tables()), h, p, i, frame)
      ensures var slot := PathSlot(old(Tables()), h, p, i); Refers(Tables().Read(slot.frame, slot.index), frame)
    {
      WindowAgrees(Tables(), h, i, p);
      EntryAddressHalf(h, i, p);
      Store(EntryAddress(h, i, tableIndex), TableDescriptor(frame));
    }

    /** Links freshly reserved tables into the path of page p, from the level that the fault at table level t reports
    down to t. Halts when the page allocator is out of memory. */
    method FillTranslationTable(faultLevel: nat, t: nat, far: nat, ghost p: nat) returns (halted: bool)
      requires Valid() && 1 <= t <= 2 && Outside(p) && far == EntryAddress(HalfOf(far), t, p / Span(t))
      requires Translate(Tables(), HalfOf(far), PageNumber(far)) == Fault(faultLevel)
      modifies this`mem, this`pool
      ensures var h, i := HalfOf(far), FirstMissing(t, faultLevel);
        && 0 <= i < t && t - i == 4 - faultLevel
        && (halted <==> |old(pool)| < t - i)
        && (!halted ==> pool == old(pool)[t - i..] && Tables() == Fill(old(Tables()), h, p, i, t, old(pool)))
    {
      var h := HalfOf(far);
      WindowAgrees(Tables(), h, t, p);
      FaultNamesMissing(Tables(), h, t, p);
      FreshFits(Tables(), pool, owner, h, p);
      halted := FillLevels(h, t + faultLevel - 4, t, far - WindowBase(h, t), p);
    }

    /** The handler's loop over the table levels. */
    method FillLevels(h: Half, first: nat, t: nat, farOffset: nat, ghost p: nat) returns (halted: bool)
      requires first < t <= 2 && IsOffset(farOffset, t, p) && PathReady(Tables(), h, p, first, pool)
      modifies this`mem, this`pool
      ensures halted <==> |old(pool)| < t - first
      ensures !halted ==> pool == old(pool)[t - first..] && Tables() == Fill(old(Tables()), h, p, first, t, old(pool))
    {
      hide PathReady, Fill, IsOffset, Space.Root;
      var i := first;
      ghost var frames, enough := pool, |pool| >= t - first;
      ghost var goal := if enough then Fill(Tables(), h, p, first, t, pool) else Tables();
      while i < t
        invariant first <= i <= t && PathReady(Tables(), h, p, i, pool)
        invariant i - first <= |frames| && pool == frames[i - first..]
        invariant enough ==> Fill(Tables(), h, p, i, t, pool) == goal
      {
        halted := FillOne(h, i, t, farOffset, p);
        if halted {
          return;
        }
        i := i + 1;
      }
      halted := false;
      FillDone(Tables(), h, p, t, pool);
    }

    /** One round of that loop: reserve a frame and link it, or halt. */
    method FillOne(h: Half, i: nat, t: nat, farOffset: nat, ghost p: nat) returns (halted: bool)
      requires i < t <= 2 && IsOffset(farOffset, t, p) && PathReady(Tables(), h, p, i, pool)
      modifies this`mem, this`pool
      ensures halted <==> old(pool) == []
      ensures !halted ==> pool == old(pool)[1..] && PathReady(Tables(), h, p, i + 1, pool)
      ensures !halted && |old(pool)| >= t - i ==>
        Fill(Tables(), h, p, i + 1, t, pool) == Fill(old(Tables()), h, p, i, t, old(pool))
    {
      var tableIndex := TableIndex(farOffset, t - i);
      TableIndexOfPage(farOffset, t, i, p);
      if pool == [] {
        return true;
      }
      var frame := pool[0];
      LinkStep(Tables(), h, p, i, t, pool);
      pool := pool[1..];
      LinkLevel(h, i, tableIndex, p, frame);
      halted := false;
    }

    /** A translation fault on a write inside the table window is repaired; anything else is a panic. */
    method HandlePageFault(level: nat, wnr: bool, far: nat, ghost p: nat, ghost t: nat) returns (halted: bool)
      requires Valid() && 1 <= t <= 2 && Outside(p) && far == EntryAddress(HalfOf(far), t, p / Span(t))
      requires Translate(Tables(), HalfOf(far), PageNumber(far)) == Fault(level)
      modifies this`mem, this`pool
      ensures var h, i := HalfOf(far), FirstMissing(t, level);
        && 0 <= i < t && t - i == 4 - level
        && (halted <==> !wnr || |old(pool)| < t - i)
        && (!wnr ==> Tables() == old(Tables()))
        && (!halted ==> pool == old(pool)[t - i..] && Tables() == Fill(old(Tables()), h, p, i, t, old(pool)))
    {
      TargetOfWindow(HalfOf(far), t, p);
      WindowAgrees(Tables(), HalfOf(far), t, p);
      FaultNamesMissing(Tables(), HalfOf(far), t, p);
      if !wnr {
        return true;
      }
      halted := FillTranslationTable(level, FaultTarget(far), far, p);
    }

    /** A store to page p's entry at table level t through the window, retried after a handled fault. */
    method StoreEntry(h: Half, t: nat, p: nat, e: Entry) returns (halted: bool)
      requires Valid() && t <= 2 && Outside(p) && NoBlockAbove(Tables(), h, p, t)
      modifies this`mem, this`pool
      ensures var n := Missing(old(Tables()), h, p, t);
        && (halted <==> |old(pool)| < n)
        && (!halted ==> pool == old(pool)[n..] && Tables() == Stored(old(Tables()), h, p, t, old(pool), e))
    {
      var va := EntryAddress(h, t, p / Span(t));
      EntryAddressHalf(h, t, p);
      BeforeStore(Tables(), owner, h, t, p, pool);
      hide Unshared, Fresh, E1, E2, Fill, Translate, PathSlot, Outside, EntryAddress, PageNumber, WordIndex, Missing;
      var walk := Translate(Space(mem, user, kernel), h, PageNumber(va));
      if walk.Fault? {
        halted := HandlePageFault(walk.level, true, va, p, t);
        if halted {
          return;
        }
        AfterFill(old(Tables()), owner, h, t, p, old(pool));
      }
      halted := false;
      Store(va, e);
    }

    /** Maps a page (level 0) or a block. Missing tables are built on the way; the page then has its tables and its
    entry is the new descriptor, and every other page that had tables keeps all its entries. */
    method SetPageEntry(level: nat, page: nat, frame: nat, flags: nat) returns (halted: bool)
      requires Valid() && level <= 2 && Canonical(page) && Outside(PageNumber(page))
      requires NoBlockAbove(Tables(), HalfOf(page), PageNumber(page), 2 - level)
      modifies this`mem, this`pool
      ensures var h, p, t := HalfOf(page), PageNumber(page), 2 - level;
        var e := if level == 0 then PageDescriptor(frame, flags) else BlockDescriptor(frame, flags);
        var n := Missing(old(Tables()), h, p, t);
        && (halted <==> |old(pool)| < n)
        && (!halted ==> pool == old(pool)[n..] && Tables() == Stored(old(Tables()), h, p, t, old(pool), e))
      ensures !halted ==>
        Maps(EntryAt(Tables(), HalfOf(page), PageNumber(page), 2 - level), level == 0, frame, flags)
        && TablesAbove(Tables(), HalfOf(page), PageNumber(page), 2 - level)
        && OthersKept(old(Tables()), Tables(), HalfOf(page), PageNumber(page), 2 - level)
    {
      hide Unshared, Fresh, Maps, Stored, NoBlockAbove, PageDescriptor, BlockDescriptor, Outside, Missing, EntryAt,
        TablesAbove, OthersKept;
      DescriptorsMap(frame, flags);
      StoredFits(Tables(), owner, HalfOf(page), PageNumber(page), 2 - level, pool,
                 if level == 0 then PageDescriptor(frame, flags) else BlockDescriptor(frame, flags));
      LinearAddress(page);
      if level == 0 {
        halted := StoreEntry(HalfOf(page), 2, PageNumber(page), PageDescriptor(frame, flags));
      } else {
        halted := StoreEntry(HalfOf(page), 2 - level, PageNumber(page), BlockDescriptor(frame, flags));
      }
    }

    /** Zeroes a page's entry. */
    method ClearEntry(level: nat, page: nat) returns (halted: bool)
      requires Valid() && level <= 2 && Canonical(page) && Outside(PageNumber(page))
      requires NoBlockAbove(Tables(), HalfOf(page), PageNumber(page), 2 - level)
      modifies this`mem, this`pool
      ensures var h, p, t := HalfOf(page), PageNumber(page), 2 - level;
        var n := Missing(old(Tables()), h, p, t);
        && (halted <==> |old(pool)| < n)
        && (!halted ==> pool == old(pool)[n..] && Tables() == Stored(old(Tables()), h, p, t, old(pool), ZERO))
    {
      LinearAddress(page);
      halted := StoreEntry(HalfOf(page), 2 - level, PageNumber(page), ZERO);
    }

    /** Maps a region page by page: each page of the region gives its own frame, every other page of either half is
    unchanged, and no table is built. */
    method MapRegion(addr: nat, size: nat, frame: nat, flags: nat)
      requires Valid() && Canonical(addr) && Mappable(Tables(), HalfOf(addr), PageNumber(addr), PageCount(size))
      modifies this`mem, this`pool
      ensures Valid() && pool == old(pool)
      ensures RegionSet(old(Tables()), Tables(), HalfOf(addr), PageNumber(addr), FramesFrom(frame, PageCount(size)))
      ensures forall k: nat :: k * PAGE < size ==>
        && HasTables(Tables(), HalfOf(addr), PageNumber(addr) + k)
        && Maps(E3(Tables(), HalfOf(addr), PageNumber(addr) + k), true, frame + k * PAGE, flags)
      ensures ElsewhereKept(old(Tables()), Tables(), HalfOf(addr), PageNumber(addr), PageCount(size))
    {
      hide Unshared, FrameOf, HasTables, PageNumber, OutField, E3, Entries, Maps, ElsewhereKept;
      ghost var n, want := PageCount(size), FramesFrom(frame, PageCount(size));
      ghost var leaves := PagesFrom(frame, flags, n);
      LeavesNone(Tables(), HalfOf(addr), PageNumber(addr));
      var p := 0;
      ghost var k: nat := 0;
      while p < size
        invariant p == k * PAGE && k <= n && pool == old(pool)
        invariant Valid() && Mappable(Tables(), HalfOf(addr), PageNumber(addr), n)
        invariant RegionSet(old(Tables()), Tables(), HalfOf(addr), PageNumber(addr), want[..k])
        invariant LeavesSet(old(Tables()), Tables(), HalfOf(addr), PageNumber(addr), leaves[..k])
      {
        RegionPage(addr, k, Tables(), n);
        RegionStep(old(Tables()), Tables(), owner, HalfOf(addr), PageNumber(addr), want, k, pool,
            PageDescriptor(frame + p, flags));
        LeavesStep(old(Tables()), Tables(), owner, HalfOf(addr), PageNumber(addr), leaves, k, pool);
        var halted := SetPageEntry(0, addr + p, frame + p, flags);
        p := p + PAGE;
        k := k + 1;
      }
      assert want[..k] == want && leaves[..k] == leaves;
      forall k: nat | k * PAGE < size
        ensures
          && HasTables(Tables(), HalfOf(addr), PageNumber(addr) + k)
          && Maps(E3(Tables(), HalfOf(addr), PageNumber(addr) + k), true, frame + k * PAGE, flags)
      {
        CountCovers(size, k);
        assert leaves[k] == PageDescriptor(frame + k * PAGE, flags);
        DescriptorsMap(frame + k * PAGE, flags);
      }
    }

    /** Unmaps a region page by page: each of its pages then has no frame and every other page is unchanged. */
    method UnmapRegion(addr: nat, size: nat)
      requires Valid() && Canonical(addr) && Mappable(Tables(), HalfOf(addr), PageNumber(addr), PageCount(size))
      modifies this`mem, this`pool
      ensures Valid() && pool == old(pool)
      ensures RegionSet(old(Tables()), Tables(), HalfOf(addr), PageNumber(addr), seq(PageCount(size), _ => 0))
      ensures forall k: nat :: k * PAGE < size ==>
        && HasTables(Tables(), HalfOf(addr), PageNumber(addr) + k)
        && E3(Tables(), HalfOf(addr), PageNumber(addr) + k) == Entry(false, false, false, false, false, false, 0)
      ensures ElsewhereKept(old(Tables()), Tables(), HalfOf(addr), PageNumber(addr), PageCount(size))
    {
      hide Unshared, FrameOf, HasTables, PageNumber, OutField, E3, Entries, ElsewhereKept;
      ghost var n, want := PageCount(size), seq(PageCount(size), _ => 0);
      ghost var leaves := seq(n, _ => ZERO);
      LeavesNone(Tables(), HalfOf(addr), PageNumber(addr));
      var p := 0;
      ghost var k: nat := 0;
      while p < size
        invariant p == k * PAGE && k <= n && pool == old(pool)
        invariant Valid() && Mappable(Tables(), HalfOf(addr), PageNumber(addr), n)
        invariant RegionSet(old(Tables()), Tables(), HalfOf(addr), PageNumber(addr), want[..k])
        invariant LeavesSet(old(Tables()), Tables(), HalfOf(addr), PageNumber(addr), leaves[..k])
      {
        RegionPage(addr, k, Tables(), n);
        RegionStep(old(Tables()), Tables(), owner, HalfOf(addr), PageNumber(addr), want, k, pool, ZERO);
        LeavesStep(old(Tables()), Tables(), owner, HalfOf(addr), PageNumber(addr), leaves, k, pool);
        var halted := ClearEntry(0, addr + p);
        p := p + PAGE;
        k := k + 1;
      }
      assert want[..k] == want && leaves[..k] == leaves;
      forall k: nat | k * PAGE < size
        ensures
          && HasTables(Tables(), HalfOf(addr), PageNumber(addr) + k)
          && E3(Tables(), HalfOf(addr), PageNumber(addr) + k) == Entry(false, false, false, false, false, false, 0)
      {
        CountCovers(size, k);
        assert leaves[k] == ZERO;
      }
    }

    /** Builds an empty top table in a frame that holds no table, through the scratch page: all its entries are zero
    but the last, which refers to the table itself. Only the scratch page changes its mapping. */
    method InitializeTopTable(frame: nat)
      requires Valid() && HasTables(Tables(), Kernel, PageNumber(SCRATCH))
      requires frame % PAGE == 0 && frame / PAGE < OUT_LIMIT && frame / PAGE !in owner
      modifies this`mem, this`pool
      ensures Valid()
      ensures ZeroBelow(Tables(), frame / PAGE, SLOTS - 1)
      ensures SelfMapped(Space(mem, frame / PAGE, kernel), User)
      ensures Refers(Tables().Read(frame / PAGE, SLOTS - 1), frame)
      ensures SameFramesBut(old(Tables()), Tables(), PageNumber(SCRATCH))
      ensures FrameOf(Tables(), Kernel, PageNumber(SCRATCH)) ==
        OutField(FrameOf(old(Tables()), Kernel, PageNumber(SCRATCH))) * PAGE
      ensures Maps(E3(Tables(), Kernel, PageNumber(SCRATCH)), true,
                   FrameOf(old(Tables()), Kernel, PageNumber(SCRATCH)), 1)
    {
      ScratchOutside();
      SelfMapsOf(Tables(), owner);
      TopRefers(frame);
      hide Unshared, FrameOf, PageNumber, Translate, WordIndex, E1, E2, E3, HasTables, Maps, SameFramesBut, OutField,
        Fresh, ZeroBelow, TableDescriptor, Refers;
      var buffer := GetPageFrame(SCRATCH);
      DescriptorsMap(buffer, 1);
      MapScratch(frame);
      ghost var mapped := Tables();
      WriteTopTable(frame);
      ghost var written := Tables();
      MapScratch(buffer);
      SameFramesTrans(old(Tables()), mapped, written, PageNumber(SCRATCH));
      SameFramesTrans(old(Tables()), written, Tables(), PageNumber(SCRATCH));
      ZeroKept(written, Tables(), frame / PAGE, SLOTS - 1);
    }

    /** Writes an empty top table through the scratch page. */
    method WriteTopTable(frame: nat)
      requires Valid() && frame % PAGE == 0 && frame / PAGE < OUT_LIMIT && frame / PAGE !in owner
      requires HasTables(Tables(), Kernel, PageNumber(SCRATCH))
      requires E3(Tables(), Kernel, PageNumber(SCRATCH)) == PageDescriptor(frame, 1)
      modifies this`mem
      ensures Valid() && HasTables(Tables(), Kernel, PageNumber(SCRATCH))
      ensures ZeroBelow(Tables(), frame / PAGE, SLOTS - 1)
      ensures Tables().Read(frame / PAGE, SLOTS - 1) == TableDescriptor(frame)
      ensures SameFramesBut(old(Tables()), Tables(), PageNumber(SCRATCH))
    {
      ghost var p, f := PageNumber(SCRATCH), frame / PAGE;
      assert OutField(frame) == f;
      hide Unshared, Fresh, FrameOf, PageNumber, Translate, WordIndex, E1, E2, E3, ZeroBelow, SameFramesBut;
      SameFramesRefl(Tables(), p);
      ZeroNone(Tables(), f);
      var i := 0;
      while i < 511
        invariant 0 <= i <= 511 && Valid() && pool == old(pool)
        invariant HasTables(Tables(), Kernel, p) && E3(Tables(), Kernel, p).out == f && IsTable(E3(Tables(), Kernel, p))
        invariant ZeroBelow(Tables(), f, i)
        invariant SameFramesBut(old(Tables()), Tables(), p)
      {
        ScratchOutside();
        ScratchWord(Tables(), f, i);
        ForeignTables(Tables(), owner, f, i, ZERO, p);
        SameFramesWrite(old(Tables()), Tables(), owner, p, f, i, ZERO);
        ZeroStep(Tables(), f, i, ZERO);
        Store(SCRATCH + 8 * i, ZERO);
        i := i + 1;
      }
      ScratchOutside();
      ScratchWord(Tables(), f, 511);
      ForeignTables(Tables(), owner, f, 511, TableDescriptor(frame), p);
      SameFramesWrite(old(Tables()), Tables(), owner, p, f, 511, TableDescriptor(frame));
      ZeroStep(Tables(), f, 511, TableDescriptor(frame));
      Store(SCRATCH + 8 * 511, TableDescriptor(frame));
    }

    /** Points the scratch page at a frame. */
    method MapScratch(frame: nat)
      requires Valid() && HasTables(Tables(), Kernel, PageNumber(SCRATCH))
      modifies this`mem, this`pool
      ensures Valid() && pool == old(pool) && HasTables(Tables(), Kernel, PageNumber(SCRATCH))
      ensures E3(Tables(), Kernel, PageNumber(SCRATCH)) == PageDescriptor(frame, 1)
      ensures FrameOf(Tables(), Kernel, PageNumber(SCRATCH)) == OutField(frame) * PAGE
      ensures SameFramesBut(old(Tables()), Tables(), PageNumber(SCRATCH))
      ensures forall f, i :: f !in owner ==> Tables().Read(f, i) == old(Tables()).Read(f, i)
    {
      ghost var p, s := PageNumber(SCRATCH), Tables();
      ScratchOutside();
      LeafWriteKeeps(s, owner, Kernel, p, PageDescriptor(frame, 1));
      LeafWrite(s, owner, Kernel, p, PageDescriptor(frame, 1), Kernel, p);
      FillDone(s, Kernel, p, 2, pool);
      assert E2(s, Kernel, p).out in owner;
      forall g, q: nat | Outside(q) && (g != Kernel || q != p) && HasTables(s, g, q)
        ensures E3(s.Write(E2(s, Kernel, p).out, I3(p), PageDescriptor(frame, 1)), g, q) == E3(s, g, q)
      {
        LeafWrite(s, owner, Kernel, p, PageDescriptor(frame, 1), g, q);
      }
      hide Unshared, FrameOf, PageNumber;
      var halted := SetPageEntry(0, SCRATCH, frame, 1);
      assert old(pool)[0..] == old(pool);
    }
  }

  const SCRATCH := 0xFFFF_FFFF_BFFF_F000

  ghost predicate ZeroBelow(s: Space, f: nat, n: nat) {
    forall j :: 0 <= j < n ==> s.Read(f, j) == ZERO
  }

  lemma ZeroNone(s: Space, f: nat)
    ensures ZeroBelow(s, f, 0)
  {
  }

  lemma ZeroStep(s: Space, f: nat, i: nat, e: Entry)
    requires ZeroBelow(s, f, i)
    ensures ZeroBelow(s.Write(f, i, e), f, if e == ZERO then i + 1 else i)
    ensures s.Write(f, i, e).Read(f, i) == e
  {
    var t := s.Write(f, i, e);
    forall j | 0 <= j < i ensures t.Read(f, j) == ZERO {
      assert s.Read(f, j) == ZERO;
    }
  }

  lemma TopRefers(frame: nat)
    requires frame / PAGE < OUT_LIMIT
    ensures Refers(TableDescriptor(frame), frame) && IsTable(TableDescriptor(frame))
    ensures TableDescriptor(frame).out == frame / PAGE
  {
  }

  lemma ZeroKept(s: Space, t: Space, f: nat, n: nat)
    requires ZeroBelow(s, f, n) && forall i :: t.Read(f, i) == s.Read(f, i)
    ensures ZeroBelow(t, f, n)
  {
  }

  lemma SameFramesTrans(s: Space, t: Space, u: Space, p: nat)
    requires SameFramesBut(s, t, p) && SameFramesBut(t, u, p)
    ensures SameFramesBut(s, u, p)
  {
    hide FrameOf, HasTables, E3;
  }

  lemma SameFramesRefl(s: Space, p: nat)
    ensures SameFramesBut(s, s, p)
  {
  }

  /** A write to a frame that is not a table keeps the comparison. */
  lemma SameFramesWrite(s: Space, t: Space, owner: map<nat, Role>, p: nat, f: nat, i: nat, e: Entry)
    requires Unshared(t, owner) && f !in owner && SameFramesBut(s, t, p)
    ensures SameFramesBut(s, t.Write(f, i, e), p)
  {
    ForeignWrite(t, owner, f, i, e);
  }

  /** Every page but the kernel's page p keeps its frame, and its leaf entry if it has tables. */
  ghost predicate SameFramesBut(s: Space, t: Space, p: nat) {
    forall g, q: nat :: Outside(q) && (g != Kernel || q != p) ==>
      FrameOf(t, g, q) == FrameOf(s, g, q)
      && (HasTables(s, g, q) ==> HasTables(t, g, q) && E3(t, g, q) == E3(s, g, q))
  }

  lemma ScratchOutside()
    ensures Canonical(SCRATCH) && HalfOf(SCRATCH) == Kernel && Outside(PageNumber(SCRATCH))
  {
    HalfOffset(Kernel, SCRATCH - HIGH_MEM, SCRATCH);
  }

  lemma SelfMapsOf(s: Space, owner: map<nat, Role>)
    requires Unshared(s, owner)
    ensures SelfMapped(s, User) && SelfMapped(s, Kernel)
  {
  }

  lemma ScratchWord(s: Space, f: nat, i: nat)
    requires i < SLOTS && HasTables(s, Kernel, PageNumber(SCRATCH))
    requires IsTable(E3(s, Kernel, PageNumber(SCRATCH))) && E3(s, Kernel, PageNumber(SCRATCH)).out == f
    ensures var va := SCRATCH + 8 * i;
      HalfOf(va) == Kernel && Translate(s, Kernel, PageNumber(va)) == Page(f) && WordIndex(va) == i
  {
    HalfOffset(Kernel, SCRATCH - HIGH_MEM, SCRATCH);
    HalfOffset(Kernel, SCRATCH - HIGH_MEM + 8 * i, SCRATCH + 8 * i);
    assert SCRATCH - HIGH_MEM == 0x7FB_FFFF * PAGE;
    assert (0x7FB_FFFF * PAGE + 8 * i) / PAGE == 0x7FB_FFFF;
    assert (0x7FB_FFFF * PAGE + 8 * i) % PAGE == 8 * i;
    assert PageNumber(SCRATCH + 8 * i) == PageNumber(SCRATCH);
  }

  /** A write to a frame that is not a table changes no page's entries. */
  lemma ForeignWrite(s: Space, owner: map<nat, Role>, f: nat, i: nat, e: Entry)
    requires Unshared(s, owner) && f !in owner
    ensures var t := s.Write(f, i, e);
      && Unshared(t, owner)
      && (forall g, q :: Outside(q) ==>
            && (HasTables(t, g, q) <==> HasTables(s, g, q))
            && (HasTables(s, g, q) ==> E3(t, g, q) == E3(s, g, q))
            && FrameOf(t, g, q) == FrameOf(s, g, q))
  {
    var t := s.Write(f, i, e);
    forall g, q | Outside(q)
      ensures E1(t, g, q) == E1(s, g, q)
      ensures IsTable(E1(s, g, q)) ==> E2(t, g, q) == E2(s, g, q)
      ensures HasTables(t, g, q) <==> HasTables(s, g, q)
      ensures HasTables(s, g, q) ==> E3(t, g, q) == E3(s, g, q)
    {
      assert SelfMapped(s, g);
    }
    forall g ensures SelfMapped(t, g) && t.Root(g) in owner && owner[t.Root(g)] == Top(g) {
      assert SelfMapped(s, g);
    }
  }

  function PageCount(size: nat): nat {
    (size + PAGE - 1) / PAGE
  }

  ghost function FramesFrom(frame: nat, n: nat): seq<nat> {
    seq(n, (k: nat) => OutField(frame + k * PAGE) * PAGE)
  }

  /** The n pages from `first` lie outside the window and have their tables. */
  ghost predicate Mappable(s: Space, h: Half, first: nat, n: nat) {
    forall p :: first <= p < first + n ==> Outside(p) && HasTables(s, h, p)
  }

  /** The pages from `first` on give the wanted frames and every other page of either half is as in s. */
  ghost predicate RegionSet(s: Space, t: Space, h: Half, first: nat, want: seq<nat>) {
    && (forall k :: 0 <= k < |want| ==> FrameOf(t, h, first + k) == want[k])
    && (forall g, q: nat :: Outside(q) && (g != h || !(first <= q < first + |want|)) ==>
          FrameOf(t, g, q) == FrameOf(s, g, q))
  }

  ghost function PagesFrom(frame: nat, flags: nat, n: nat): seq<Entry> {
    seq(n, (k: nat) => PageDescriptor(frame + k * PAGE, flags))
  }

  /** The pages from `first` on have these leaf entries, and every other page with tables has its entries of s. */
  ghost predicate LeavesSet(s: Space, t: Space, h: Half, first: nat, leaves: seq<Entry>) {
    && (forall k :: 0 <= k < |leaves| ==> E3(t, h, first + k) == leaves[k])
    && ElsewhereKept(s, t, h, first, |leaves|)
  }

  /** Every page with tables but the n from `first` on keeps its three entries. */
  ghost predicate ElsewhereKept(s: Space, t: Space, h: Half, first: nat, n: nat) {
    forall g, q: nat :: Outside(q) && HasTables(s, g, q) && (g != h || !(first <= q < first + n)) ==>
      Entries(t, g, q) == Entries(s, g, q)
  }

  lemma CountCovers(size: nat, k: nat)
    ensures k * PAGE < size <==> k < PageCount(size)
  {
  }

  lemma LeavesNone(s: Space, h: Half, first: nat)
    ensures LeavesSet(s, s, h, first, [])
  {
  }

  lemma LeavesStep(s: Space, t: Space, owner: map<nat, Role>, h: Half, first: nat, leaves: seq<Entry>, k: nat,
                   frames: seq<nat>)
    requires Unshared(t, owner) && k < |leaves| && Mappable(t, h, first, |leaves|)
    requires LeavesSet(s, t, h, first, leaves[..k])
    ensures Missing(t, h, first + k, 2) == 0
    ensures LeavesSet(s, Stored(t, h, first + k, 2, frames, leaves[k]), h, first, leaves[..k + 1])
  {
    var p, e := first + k, leaves[k];
    assert Outside(p) && HasTables(t, h, p);
    StoredDirect(t, owner, h, p, frames, e);
    var u := Stored(t, h, p, 2, frames, e);
    hide Stored, Unshared, E1, E2, E3;
    forall j | 0 <= j < k ensures E3(u, h, first + j) == leaves[j] {
      assert Outside(first + j) && HasTables(t, h, first + j) && E3(t, h, first + j) == leaves[..k][j];
      assert Entries(u, h, first + j) == Entries(t, h, first + j);
    }
    forall g, q: nat | Outside(q) && HasTables(s, g, q) && (g != h || !(first <= q < first + k + 1))
      ensures Entries(u, g, q) == Entries(s, g, q)
    {
      assert Entries(t, g, q) == Entries(s, g, q);
    }
  }

  lemma RegionPage(addr: nat, k: nat, s: Space, n: nat)
    requires Canonical(addr) && k < n && Mappable(s, HalfOf(addr), PageNumber(addr), n)
    ensures var va := addr + k * PAGE;
      Canonical(va) && HalfOf(va) == HalfOf(addr) && PageNumber(va) == PageNumber(addr) + k
  {
    var va := addr + k * PAGE;
    var p := PageNumber(addr);
    assert Outside(p + k);
    var low := addr % HALF;
    LinearAddress(addr);
    assert (low + k * PAGE) / PAGE == low / PAGE + k;
    assert low + k * PAGE < HALF;
    HalfOffset(HalfOf(addr), low + k * PAGE, va);
  }

  /** One page of a region written: the wanted prefix grows by that page. */
  lemma RegionStep(s: Space, t: Space, owner: map<nat, Role>, h: Half, first: nat, want: seq<nat>, k: nat,
                   frames: seq<nat>, e: Entry)
    requires Unshared(t, owner) && k < |want| && Mappable(t, h, first, |want|)
    requires RegionSet(s, t, h, first, want[..k]) && want[k] == (if e.present then Physical(e) else 0)
    ensures Missing(t, h, first + k, 2) == 0 && NoBlockAbove(t, h, first + k, 2) && Outside(first + k)
    ensures var u := Stored(t, h, first + k, 2, frames, e);
      Unshared(u, owner) && Mappable(u, h, first, |want|) && RegionSet(s, u, h, first, want[..k + 1])
  {
    var p := first + k;
    assert Outside(p) && HasTables(t, h, p);
    LeafWriteKeeps(t, owner, h, p, e);
    FillDone(t, h, p, 2, frames);
    var u := Stored(t, h, p, 2, frames, e);
    hide Unshared, Stored, HasTables, FrameOf, Outside, Physical;
    forall j | 0 <= j < k + 1 ensures FrameOf(u, h, first + j) == want[j] {
      assert j < k ==> FrameOf(t, h, first + j) == want[..k][j];
    }
  }

  lemma BeforeStore(s: Space, owner: map<nat, Role>, h: Half, t: nat, p: nat, frames: seq<nat>)
    requires Unshared(s, owner) && Outside(p) && t <= 2 && NoBlockAbove(s, h, p, t)
    ensures var va := EntryAddress(h, t, p / Span(t));
      var walk := Translate(s, h, PageNumber(va));
      var n := Missing(s, h, p, t);
      if walk.Fault? then t >= 1 && n >= 1 && walk.level == 4 - n
      else
        && walk.Page? && n == 0 && PathSlot(s, h, p, t) == Slot(walk.out, WordIndex(va))
        && Fill(s, h, p, t, t, frames) == s
  {
    assert SelfMapped(s, h);
    WindowAgrees(s, h, t, p);
  }

  /** A page entry stored after building missing tables: the page has its tables and its entry, and every other page
  that had its tables keeps its three entries. */
  lemma StoredLeaf(s: Space, owner: map<nat, Role>, h: Half, p: nat, frames: seq<nat>, e: Entry)
    requires Unshared(s, owner) && Fresh(frames, owner) && Outside(p) && |frames| >= Missing(s, h, p, 2)
    ensures var u := Stored(s, h, p, 2, frames, e);
      && HasTables(u, h, p) && E3(u, h, p) == e
      && forall g, q :: Outside(q) && (g != h || q != p) && HasTables(s, g, q) ==> Entries(u, g, q) == Entries(s, g, q)
  {
    if Missing(s, h, p, 2) == 0 {
      StoredDirect(s, owner, h, p, frames, e);
    } else {
      StoredFilled(s, owner, h, p, frames, e);
    }
  }

  /** The entry of page p at table level t. */
  ghost function EntryAt(s: Space, h: Half, p: nat, t: nat): Entry {
    if t == 0 then E1(s, h, p) else if t == 1 then E2(s, h, p) else E3(s, h, p)
  }

  ghost predicate TablesAbove(s: Space, h: Half, p: nat, t: nat) {
    (t >= 1 ==> IsTable(E1(s, h, p))) && (t >= 2 ==> IsTable(E2(s, h, p)))
  }

  /** Every page with tables whose path does not go through page p's entry at level t keeps its three entries. */
  ghost predicate OthersKept(s: Space, u: Space, h: Half, p: nat, t: nat) {
    forall g, q: nat :: Outside(q) && HasTables(s, g, q) && (g != h || q / Span(t) != p / Span(t)) ==>
      Entries(u, g, q) == Entries(s, g, q)
  }

  /** A stored entry reads back at its own place below its tables, and no other path is touched. */
  lemma StoredReads(s: Space, owner: map<nat, Role>, h: Half, p: nat, t: nat, frames: seq<nat>, e: Entry)
    requires Unshared(s, owner) && Fresh(frames, owner) && Outside(p) && t <= 2 && |frames| >= Missing(s, h, p, t)
    ensures var u := Stored(s, h, p, t, frames, e);
      EntryAt(u, h, p, t) == e && TablesAbove(u, h, p, t) && OthersKept(s, u, h, p, t)
  {
    if t == 2 {
      StoredLeaf(s, owner, h, p, frames, e);
    } else if t == 1 {
      StoredMiddle(s, owner, h, p, frames, e);
    } else {
      StoredTop(s, owner, h, p, frames, e);
    }
  }

  /** ...when there are frames enough. */
  lemma StoredFits(s: Space, owner: map<nat, Role>, h: Half, p: nat, t: nat, frames: seq<nat>, e: Entry)
    requires Unshared(s, owner) && Fresh(frames, owner) && Outside(p) && t <= 2
    ensures |frames| >= Missing(s, h, p, t) ==> var u := Stored(s, h, p, t, frames, e);
      EntryAt(u, h, p, t) == e && TablesAbove(u, h, p, t) && OthersKept(s, u, h, p, t)
  {
    if |frames| >= Missing(s, h, p, t) {
      StoredReads(s, owner, h, p, t, frames, e);
    }
  }

  lemma StoredTop(s: Space, owner: map<nat, Role>, h: Half, p: nat, frames: seq<nat>, e: Entry)
    requires Unshared(s, owner) && Outside(p)
    ensures var u := Stored(s, h, p, 0, frames, e);
      E1(u, h, p) == e && OthersKept(s, u, h, p, 0)
  {
    FillDone(s, h, p, 0, frames);
    var u := Stored(s, h, p, 0, frames, e);
    forall g, q: nat | Outside(q) && HasTables(s, g, q) && (g != h || q / Span(0) != p / Span(0))
      ensures Entries(u, g, q) == Entries(s, g, q)
    {
      assert SelfMapped(s, g) && SelfMapped(s, h);
    }
  }

  lemma StoredMiddle(s: Space, owner: map<nat, Role>, h: Half, p: nat, frames: seq<nat>, e: Entry)
    requires Unshared(s, owner) && Fresh(frames, owner) && Outside(p) && |frames| >= Missing(s, h, p, 1)
    ensures var u := Stored(s, h, p, 1, frames, e);
      E2(u, h, p) == e && IsTable(E1(u, h, p)) && OthersKept(s, u, h, p, 1)
  {
    var n := Missing(s, h, p, 1);
    var v := Fill(s, h, p, 1 - n, 1, frames);
    MiddleReady(s, owner, h, p, frames);
    var f, u := E1(v, h, p).out, Stored(s, h, p, 1, frames, e);
    hide I1, I2, I3, Fill, Unshared, Fresh, Outside;
    forall g, q: nat | Outside(q) && HasTables(s, g, q) && (g != h || q / Span(1) != p / Span(1))
      ensures Entries(u, g, q) == Entries(s, g, q)
    {
      MiddleApart(s, owner, h, p, g, q);
      MiddleAvoids(v, f, p, e, g, q);
    }
  }

  lemma MiddleAvoids(s: Space, f: nat, p: nat, e: Entry, g: Half, q: nat)
    requires f != s.Root(g) && f != E2(s, g, q).out && (f == E1(s, g, q).out ==> I2(p) != I2(q))
    ensures Entries(s.Write(f, I2(p), e), g, q) == Entries(s, g, q)
  {
    hide I1, I2, I3;
  }

  /** The middle table of page p once it is there: other paths keep their entries. */
  lemma MiddleReady(s: Space, owner: map<nat, Role>, h: Half, p: nat, frames: seq<nat>)
    requires Unshared(s, owner) && Fresh(frames, owner) && Outside(p) && |frames| >= Missing(s, h, p, 1)
    ensures var n := Missing(s, h, p, 1); var v := Fill(s, h, p, 1 - n, 1, frames); var f := E1(v, h, p).out;
      && IsTable(E1(v, h, p)) && f != v.Root(h)
      && (if n == 0 then v == s else f !in owner)
      && (forall g :: v.Root(g) == s.Root(g))
      && (forall g, q: nat :: Outside(q) && HasTables(s, g, q) ==> Entries(v, g, q) == Entries(s, g, q))
  {
    assert SelfMapped(s, h);
    if Missing(s, h, p, 1) == 0 {
      FillDone(s, h, p, 1, frames);
    } else {
      FillReachesTarget(s, owner, h, p, 0, 1, frames);
      assert OutField(frames[0]) == frames[0] / PAGE;
      FillDone(Linked(s, h, p, 0, frames[0]), h, p, 1, frames[1..]);
    }
  }

  lemma SameMiddle(p: nat, q: nat)
    requires I1(p) == I1(q) && I2(p) == I2(q)
    ensures p / SLOTS == q / SLOTS
  {
    assert p / SLOTS == p / SLOTS / SLOTS * SLOTS + p / SLOTS % SLOTS;
    assert q / SLOTS == q / SLOTS / SLOTS * SLOTS + q / SLOTS % SLOTS;
  }

  lemma MiddleApart(s: Space, owner: map<nat, Role>, h: Half, p: nat, g: Half, q: nat)
    requires Unshared(s, owner) && Outside(p) && Outside(q) && HasTables(s, g, q)
    requires g != h || q / SLOTS != p / SLOTS
    ensures s.Root(g) in owner && E1(s, g, q).out in owner && E2(s, g, q).out in owner
    ensures IsTable(E1(s, h, p)) ==>
      && E1(s, h, p).out != s.Root(g) && E1(s, h, p).out != E2(s, g, q).out
      && (E1(s, h, p).out == E1(s, g, q).out ==> I2(p) != I2(q))
  {
    hide I1, I2, I3, E1, E2, Outside;
    assert SelfMapped(s, g);
    if I1(p) == I1(q) && I2(p) == I2(q) {
      SameMiddle(p, q);
    }
  }

  lemma StoredDirect(s: Space, owner: map<nat, Role>, h: Half, p: nat, frames: seq<nat>, e: Entry)
    requires Unshared(s, owner) && Outside(p) && HasTables(s, h, p)
    ensures var u := Stored(s, h, p, 2, frames, e);
      && HasTables(u, h, p) && E3(u, h, p) == e
      && forall g, q :: Outside(q) && (g != h || q != p) && HasTables(s, g, q) ==> Entries(u, g, q) == Entries(s, g, q)
  {
    FillDone(s, h, p, 2, frames);
    LeafWrite(s, owner, h, p, e, h, p);
    forall g, q | Outside(q) && (g != h || q != p) && HasTables(s, g, q)
      ensures Entries(Stored(s, h, p, 2, frames, e), g, q) == Entries(s, g, q)
    {
      LeafWrite(s, owner, h, p, e, g, q);
    }
  }

  lemma StoredFilled(s: Space, owner: map<nat, Role>, h: Half, p: nat, frames: seq<nat>, e: Entry)
    requires Unshared(s, owner) && Fresh(frames, owner) && Outside(p) && |frames| >= Missing(s, h, p, 2) > 0
    ensures var u := Stored(s, h, p, 2, frames, e);
      && HasTables(u, h, p) && E3(u, h, p) == e
      && forall g, q :: Outside(q) && (g != h || q != p) && HasTables(s, g, q) ==> Entries(u, g, q) == Entries(s, g, q)
  {
    var n := Missing(s, h, p, 2);
    FillReachesTarget(s, owner, h, p, 2 - n, 2, frames);
    FilledPath(s, owner, h, p, frames);
    var v := Fill(s, h, p, 2 - n, 2, frames);
    var f := frames[n - 1] / PAGE;
    assert f !in owner;
    hide Fill;
    forall g, q | Outside(q) && HasTables(s, g, q)
      ensures Entries(Stored(s, h, p, 2, frames, e), g, q) == Entries(s, g, q)
    {
      assert E1(s, g, q).out in owner && E2(s, g, q).out in owner;
      assert SelfMapped(s, g);
      EntriesAvoid(v, f, I3(p), e, g, q);
    }
  }

  lemma EntriesAvoid(s: Space, f: nat, i: nat, e: Entry, g: Half, q: nat)
    requires f != s.Root(g) && f != E1(s, g, q).out && f != E2(s, g, q).out
    ensures Entries(s.Write(f, i, e), g, q) == Entries(s, g, q)
  {
  }

  lemma FilledPath(s: Space, owner: map<nat, Role>, h: Half, p: nat, frames: seq<nat>)
    requires Unshared(s, owner) && Fresh(frames, owner) && Outside(p) && |frames| >= Missing(s, h, p, 2) > 0
    ensures var n := Missing(s, h, p, 2);
      var v := Fill(s, h, p, 2 - n, 2, frames);
      && HasTables(v, h, p) && E2(v, h, p).out == frames[n - 1] / PAGE
      && E1(v, h, p).out != frames[n - 1] / PAGE && v.Root(h) == s.Root(h) != frames[n - 1] / PAGE
      && v.Root(User) == s.Root(User) && v.Root(Kernel) == s.Root(Kernel)
  {
    var n := Missing(s, h, p, 2);
    assert SelfMapped(s, h) && s.Root(h) in owner;
    assert frames[n - 1] / PAGE !in owner && frames[0] / PAGE !in owner;
    assert OutField(frames[0]) == frames[0] / PAGE && OutField(frames[n - 1]) == frames[n - 1] / PAGE;
    var u := Linked(s, h, p, 2 - n, frames[0]);
    if n == 1 {
      assert Fill(s, h, p, 1, 2, frames) == Fill(u, h, p, 2, 2, frames[1..]) == u;
    } else {
      var w := Linked(u, h, p, 1, frames[1]);
      assert Fill(s, h, p, 0, 2, frames) == Fill(u, h, p, 1, 2, frames[1..]) == Fill(w, h, p, 2, 2,
          frames[1..][1..]) == w;
      assert frames[0] != frames[1];
      assert frames[0] / PAGE != frames[1] / PAGE;
    }
  }

  lemma AfterFill(s: Space, owner: map<nat, Role>, h: Half, t: nat, p: nat, frames: seq<nat>)
    requires Unshared(s, owner) && Fresh(frames, owner) && Outside(p) && 1 <= t <= 2
    requires |frames| >= Missing(s, h, p, t) > 0
    ensures var va := EntryAddress(h, t, p / Span(t));
      var u := Fill(s, h, p, t - Missing(s, h, p, t), t, frames);
      var walk := Translate(u, h, PageNumber(va));
      walk.Page? && PathSlot(u, h, p, t) == Slot(walk.out, WordIndex(va))
  {
    FillReachesTarget(s, owner, h, p, t - Missing(s, h, p, t), t, frames);
    WindowAgrees(Fill(s, h, p, t - Missing(s, h, p, t), t, frames), h, t, p);
  }

  /** Which table level the fault handler fills down to for an address, if any. */
  function FaultTarget(far: nat): nat {
    if far >= WindowBase(Kernel, 0) then 0
    else if far >= WindowBase(Kernel, 1) then 1
    else if far >= WindowBase(Kernel, 2) then 2
    else if far >= WindowBase(User, 0) then 0
    else if far >= WindowBase(User, 1) then 1
    else if far >= WindowBase(User, 2) then 2
    else 0
  }

  lemma TargetOfWindow(h: Half, t: nat, p: nat)
    requires 1 <= t <= 2 && Outside(p)
    ensures FaultTarget(EntryAddress(h, t, p / Span(t))) == t
  {
  }

  /** No upper-level entry on the path of page p is a block. */
  ghost predicate NoBlockAbove(s: Space, h: Half, p: nat, t: nat) {
    && (t >= 1 ==> !E1(s, h, p).present || E1(s, h, p).table)
    && (t == 2 && IsTable(E1(s, h, p)) ==> !E2(s, h, p).present || E2(s, h, p).table)
  }

  /** How many tables are missing above page p's entry at table level t. */
  ghost function Missing(s: Space, h: Half, p: nat, t: nat): nat
    requires t <= 2
  {
    if t == 0 then 0
    else if !IsTable(E1(s, h, p)) then t
    else if t == 2 && !IsTable(E2(s, h, p)) then 1
    else 0
  }

  ghost function Entries(s: Space, h: Half, p: nat): (Entry, Entry, Entry) {
    (E1(s, h, p), E2(s, h, p), E3(s, h, p))
  }

  /** The space after building what is missing and then storing e as page p's entry at level t. */
  ghost function Stored(s: Space, h: Half, p: nat, t: nat, frames: seq<nat>, e: Entry): Space
    requires t <= 2 && |frames| >= Missing(s, h, p, t)
  {
    var u := Fill(s, h, p, t - Missing(s, h, p, t), t, frames);
    u.Write(PathSlot(u, h, p, t).frame, PathSlot(u, h, p, t).index, e)
  }

  function Linked(s: Space, h: Half, p: nat, i: nat, frame: nat): Space {
    s.Write(PathSlot(s, h, p, i).frame, PathSlot(s, h, p, i).index, TableDescriptor(frame))
  }

  lemma FreshFits(s: Space, frames: seq<nat>, owner: map<nat, Role>, h: Half, p: nat)
    requires Unshared(s, owner) && Fresh(frames, owner) && Outside(p)
    ensures SelfMapped(s, h)
    ensures forall k :: 0 <= k < |frames| ==> OutField(frames[k]) != s.Root(h)
    ensures IsTable(E1(s, h, p)) ==> E1(s, h, p).out != s.Root(h)
  {
    assert SelfMapped(s, h);
    forall k | 0 <= k < |frames| ensures OutField(frames[k]) != s.Root(h) {
      assert OutField(frames[k]) == frames[k] / PAGE;
    }
  }

  /** The path of page p is built down to table level i and the frames do not clash with its top table. */
  ghost predicate PathReady(s: Space, h: Half, p: nat, i: nat, frames: seq<nat>) {
    && Outside(p) && SelfMapped(s, h)
    && (i >= 1 ==> IsTable(E1(s, h, p)) && E1(s, h, p).out != s.Root(h))
    && (forall k :: 0 <= k < |frames| ==> OutField(frames[k]) != s.Root(h))
  }

  lemma LinkStep(s: Space, h: Half, p: nat, i: nat, t: nat, frames: seq<nat>)
    requires i < t <= 2 && |frames| >= 1 && PathReady(s, h, p, i, frames)
    ensures var u := Linked(s, h, p, i, frames[0]);
      && PathReady(u, h, p, i + 1, frames[1..])
      && (|frames| >= t - i ==> Fill(s, h, p, i, t, frames) == Fill(u, h, p, i + 1, t, frames[1..]))
  {
  }

  lemma FillDone(s: Space, h: Half, p: nat, t: nat, frames: seq<nat>)
    ensures Fill(s, h, p, t, t, frames) == s
  {
  }

  ghost predicate IsOffset(farOffset: nat, t: nat, p: nat) {
    farOffset == 8 * (p / Span(t))
  }

  ghost predicate IsEntryIndex(tableIndex: nat, i: nat, p: nat) {
    tableIndex == p / Span(i)
  }

  /** `farOffset >> (12 + 9 * (n - 1))` for the entry n levels above the target. */
  function TableIndex(farOffset: nat, n: nat): nat {
    farOffset / (PAGE * (if n <= 1 then 1 else SLOTS))
  }

  /** The index that the handler derives from the faulting address is that of page p's entry. */
  lemma TableIndexOfPage(farOffset: nat, t: nat, i: nat, p: nat)
    requires i < t <= 2 && p < PAGES && IsOffset(farOffset, t, p)
    ensures IsEntryIndex(TableIndex(farOffset, t - i), i, p)
  {
  }


  lemma ForeignTables(s: Space, owner: map<nat, Role>, f: nat, i: nat, e: Entry, p: nat)
    requires Unshared(s, owner) && f !in owner && Outside(p) && HasTables(s, Kernel, p)
    ensures var t := s.Write(f, i, e);
      Unshared(t, owner) && HasTables(t, Kernel, p) && E3(t, Kernel, p) == E3(s, Kernel, p)
  {
    ForeignWrite(s, owner, f, i, e);
  }

  /** Which entry a handled fault replaces: an absent one, exactly when no block sits above the target. */
  lemma FaultReplacesAbsent(s: Space, h: Half, t: nat, p: nat)
    requires 1 <= t <= 2 && p < PAGES && SelfMapped(s, h) && WindowWalk(s, h, t, p).Fault?
    ensures var i := FirstMissing(t, WindowWalk(s, h, t, p).level);
      var slot := PathSlot(s, h, p, i);
      !s.Read(slot.frame, slot.index).present <==> NoBlockAbove(s, h, p, t)
  {
    FaultNamesMissing(s, h, t, p);
  }

  /** A 2 MiB block above a page: storing that page's entry faults at level 3 although the block is present. */
  lemma BlockIsReplaced(s: Space, p: nat)
    requires s == Space(map[
      Slot(1, 511) := TableDescriptor(1 * PAGE), Slot(2, 511) := TableDescriptor(2 * PAGE),
      Slot(1, 0) := TableDescriptor(3 * PAGE), Slot(3, 0) := BlockDescriptor(0x20_0000, 1)], 1, 2)
    requires p == 5
    ensures SelfMapped(s, User) && WindowWalk(s, User, 2, p) == Fault(3)
    ensures PathSlot(s, User, p, FirstMissing(2, 3)) == Slot(3, 0) && s.Read(3, 0).present
  {
    assert TableDescriptor(1 * PAGE).out == 1 && TableDescriptor(3 * PAGE).out == 3;
  }

  /** The half whose tables the lookup reads; it tests strictly, where the writers do not. */
  function LookupHalf(page: nat): Half {
    if page > HIGH_MEM then Kernel else User
  }

  /** What looking an address up gives. */
  function Lookup(s: Space, page: nat): nat {
    FrameOf(s, LookupHalf(page), PageNumber(page))
  }

  /** The lookup reads the tables that the writers write, except at exactly the start of high memory. */
  lemma LookupAgrees(page: nat)
    requires Canonical(page)
    ensures LookupHalf(page) == HalfOf(page) <==> page != HIGH_MEM
  {
  }

  /** After a region is set, looking its pages up gives the wanted frames; at exactly the start of high memory the
  lookup gives the first user page instead, which a kernel region leaves as it was. */
  lemma RegionLookup(s: Space, t: Space, addr: nat, want: seq<nat>, k: nat)
    requires Canonical(addr) && Mappable(s, HalfOf(addr), PageNumber(addr), |want|) && k < |want|
    requires RegionSet(s, t, HalfOf(addr), PageNumber(addr), want)
    ensures var va := addr + k * PAGE;
      && (va != HIGH_MEM ==> Lookup(t, va) == want[k])
      && (va == HIGH_MEM ==> HalfOf(va) == Kernel && Lookup(t, va) == FrameOf(t, User, PageNumber(va)) == FrameOf(s, User, PageNumber(va)))
  {
    var va := addr + k * PAGE;
    RegionPage(addr, k, s, |want|);
    LookupAgrees(va);
    assert Outside(PageNumber(addr) + k);
  }

  /** Every other address looks up as before, save that the start of high memory follows the first user page. */
  lemma RegionLookupElsewhere(s: Space, t: Space, addr: nat, want: seq<nat>, va: nat)
    requires Canonical(addr) && Canonical(va) && Outside(PageNumber(va))
    requires RegionSet(s, t, HalfOf(addr), PageNumber(addr), want)
    requires LookupHalf(va) != HalfOf(addr) || !(PageNumber(addr) <= PageNumber(va) < PageNumber(addr) + |want|)
    ensures Lookup(t, va) == Lookup(s, va)
  {
  }
}
