/** The kernel heap: splitting, freeing, merging and rebuilding the free list in place. Addresses are word indices and
0 is the null pointer. */
module Heaps {
  import opened HeapBlocks
  import opened HeapCursors

  const WORD_SIZE := 8

  function Align(size: nat): nat {
    (size + WORD_SIZE - 1) / WORD_SIZE * WORD_SIZE
  }

  class Heap {
    const mem: array<nat>
    const heap: nat
    const heapEnd: nat
    var linkedListStart: nat
    var searchPrevious: nat
    var searchCurrent: nat
    ghost var blocks: seq<Blk>

    /** Where block k starts. */
    ghost function Start(k: nat): nat
      reads this
      requires k <= |blocks|
    {
      At(heap, blocks, k)
    }

    ghost predicate Valid()
      reads this, mem
    {
      heapEnd <= mem.Length && HeapOk(mem[..], heap, heapEnd, blocks, linkedListStart)
    }

    ghost predicate CursorOk()
      reads this
    {
      Cursor(heap, blocks, searchPrevious)
    }

    /** One free block over the whole heap. */
    constructor (words: array<nat>, base: nat, bytes: nat)
      requires base > 0 && OVERHEAD * WORD_SIZE <= bytes < 0x8000_0000 && base + bytes / WORD_SIZE <= words.Length
      modifies words
      ensures Valid() && CursorOk() && mem == words && heap == base && searchPrevious == 0
      ensures blocks == [Blk(bytes / WORD_SIZE - OVERHEAD, false)]
    {
      mem := words;
      heap := base;
      heapEnd := base + bytes / WORD_SIZE;
      linkedListStart := base;
      searchPrevious := 0;
      searchCurrent := base;
      blocks := [Blk(bytes / WORD_SIZE - OVERHEAD, false)];
      new;
      var overheadAdjSize := bytes - WORD_SIZE * OVERHEAD;
      mem[heap] := overheadAdjSize / WORD_SIZE;
      mem[heap + 1] := 0;
      mem[heap + 2] := 0;
      mem[heap + bytes / WORD_SIZE - 2] := mem[heap];
      mem[heap + bytes / WORD_SIZE - 1] := mem[heap + 1];
      TotalPair(blocks[0], blocks[0]);
      assert blocks[..1] == blocks && blocks[..0] == [];
    }

    /** Writes a block's size, next pointer and flag, and repeats size and flag in its footer. */
    method WriteTags(b: nat, size: nat, next: nat, used: bool)
      requires b + size + OVERHEAD <= mem.Length
      modifies mem
      ensures mem[..] == Tagged(old(mem[..]), b, Blk(size, used), next) && mem[b + 1] == next
    {
      mem[b] := size;
      mem[b + 1] := next;
      mem[b + 2] := if used then 1 else 0;
      mem[b + mem[b] + OVERHEAD - 2] := mem[b];
      mem[b + mem[b] + OVERHEAD - 1] := if used then 1 else 0;
    }

    /** Splits a free block: its lower part becomes a used block of size / 8 words, the rest stays free. The link
    behind the cursor is read and written after the tags of the rest: with a cursor on a header that is harmless, and
    with a lost one the heap stays valid exactly unless the word behind the cursor is a tag that gets spoiled. */
    method SplitBlk(size: nat, blk: nat, ghost k: nat) returns (payload: nat)
      requires Valid() && (CursorOk() || searchPrevious + 1 < mem.Length) && k < |blocks| && blk == Start(k)
      requires !blocks[k].used && mem[blk] * WORD_SIZE > Align(size + (OVERHEAD + 1) * WORD_SIZE * 2)
      modifies this, mem
      ensures payload == blk + 3 && size / WORD_SIZE + OVERHEAD < old(blocks)[k].size
      ensures blocks == Replace(old(blocks), k, 1, SplitInto(old(blocks)[k], size / WORD_SIZE))
      ensures Live(heap, blocks) == Live(heap, old(blocks)) + {(blk, size / WORD_SIZE)}
      ensures var x, split := old(searchPrevious) + 1, blk + size / WORD_SIZE + OVERHEAD;
        && (Valid() <==> old(searchPrevious) == 0 || !SplitHarms(heap, blocks, k, x, split))
        && (Kept(Live(heap, old(blocks)), old(mem[..]), mem[..]) <==>
              old(searchPrevious) == 0 || !(InLive(Live(heap, old(blocks)), x) && old(mem[x]) !in {0, split}))
      ensures old(CursorOk()) ==> Valid() && CursorOk() && Kept(Live(heap, old(blocks)), old(mem[..]), mem[..])
      ensures Cleared(mem[..], blk)
      ensures searchPrevious == if old(searchPrevious) == blk then blk + size / WORD_SIZE + OVERHEAD
        else old(searchPrevious)
      ensures linkedListStart == if blk == old(linkedListStart) then blk + size / WORD_SIZE + OVERHEAD
        else old(linkedListStart)
      ensures searchCurrent == if blk == old(searchCurrent) then blk + size / WORD_SIZE + OVERHEAD
        else old(searchCurrent)
    {
      hide HeapOk, At, Total, BlockOk, SplitWrote, Tagged, Cursor, PayloadsKept, Align, Live, Kept, Replace, SplitInto,
        SplitHarms, InLive;
      ghost var w, bs, first, sp := mem[..], blocks, linkedListStart, searchPrevious;
      var n := size / WORD_SIZE;
      var split := blk + n + OVERHEAD;
      ghost var prev := if CursorOk() then sp else 0;
      CursorFacts(heap, bs, sp, k);
      BlockBounds(w, heap, heapEnd, bs, first, k, prev);
      GuardLeavesRoom(size, mem[blk]);
      SplitWrites(w, blk, bs[k].size, n, prev, mem[blk + 1], false);
      ghost var u := WriteRest(blk, split, n);
      MovePointers(blk, split);
      WriteTags(blk, n, 0, true);
      payload := blk + 3;
      blocks := Replace(bs, k, 1, SplitInto(bs[k], n));
      SplitResult(w, u, mem[..], heap, heapEnd, bs, first, k, n, sp, prev);
    }

    /** Writes the tags of the block that a split leaves, and then the link behind the cursor if there is one. */
    method WriteRest(blk: nat, split: nat, n: nat) returns (ghost u: seq<nat>)
      requires blk + 1 < mem.Length && n + OVERHEAD <= mem[blk] && split == blk + n + OVERHEAD
      requires blk + mem[blk] + OVERHEAD <= mem.Length && (searchPrevious != 0 ==> searchPrevious + 1 < mem.Length)
      modifies mem
      ensures u == Tagged(old(mem[..]), split, Blk(old(mem[blk]) - n - OVERHEAD, false), old(mem[blk + 1]))
      ensures var x := searchPrevious + 1;
        mem[..] == if searchPrevious != 0 && u[x] != 0 then u[x := split] else u
    {
      hide Tagged;
      WriteTags(split, mem[blk] - n - OVERHEAD, mem[blk + 1], false);
      u := mem[..];
      if searchPrevious != 0 && mem[searchPrevious + 1] != 0 {
        mem[searchPrevious + 1] := split;
      }
    }

    /** The pointers that named the block split now name the rest. */
    method MovePointers(blk: nat, split: nat)
      modifies this`linkedListStart, this`searchPrevious, this`searchCurrent
      ensures linkedListStart == if blk == old(linkedListStart) then split else old(linkedListStart)
      ensures searchPrevious == if blk == old(searchPrevious) then split else old(searchPrevious)
      ensures searchCurrent == if blk == old(searchCurrent) then split else old(searchCurrent)
    {
      if blk == linkedListStart {
        linkedListStart := split;
      }
      if blk == searchPrevious {
        searchPrevious := split;
      }
      if blk == searchCurrent {
        searchCurrent := split;
      }
    }

    /** Threads the free list through the tiling. It stops at the list start, and the chain from there then visits
    every free block once. Only next pointers are written. The cursor ends on a block start, unless `current` is the
    only free block and its next pointer is null: then it stays. */
    method RebuildList(current: nat, ghost k: nat)
      requires heapEnd <= mem.Length && Loose(mem[..], heap, heapEnd, blocks, linkedListStart)
      requires k < |blocks| && !blocks[k].used && current == Start(k)
      modifies this`searchPrevious, this`searchCurrent, mem
      ensures Loose(mem[..], heap, heapEnd, blocks, linkedListStart) && ListOk(mem[..], heap, blocks)
      ensures OnlyLinks(old(mem[..]), mem[..], heap, blocks) && linkedListStart + 1 < mem.Length
      ensures if current == linkedListStart && OnlyTopFree(blocks) && old(mem[linkedListStart + 1]) == 0
              then searchPrevious == old(searchPrevious) else IsStart(heap, blocks, searchPrevious)
      ensures searchCurrent == NextCurrent(heap, blocks, k, old(mem[linkedListStart + 1]), old(searchCurrent))
    {
      hide Loose, Rebuilding, ListOk, OnlyLinks, At, FreeStarts, IsStart;
      ghost var w, first := mem[..], linkedListStart;
      ghost var n: nat := 0;
      var prev: nat := linkedListStart;
      var cur: nat := heap;
      RebuildStart(w, heap, heapEnd, blocks, first);
      NoFreeStarts(heap, blocks, 0);
      while cur < heapEnd
        invariant 0 <= n && Rebuilding(w, mem[..], heap, heapEnd, blocks, first, n, cur, prev)
        invariant n < |blocks| && CursorRebuilt(heap, blocks, n, k, old(searchPrevious), searchPrevious)
        invariant CurrentRebuilt(heap, blocks, n, k, old(searchCurrent), searchCurrent)
        invariant FreeStarts(heap, blocks, n) == [] && first + 1 < mem.Length ==> mem[first + 1] == w[first + 1]
        decreases |blocks| - n
      {
        RebuildRead(w, mem[..], heap, heapEnd, blocks, first, n, cur, prev);
        while mem[cur + 2] != 0
          invariant 0 <= n < |blocks| && cur + OVERHEAD <= mem.Length
          invariant Rebuilding(w, mem[..], heap, heapEnd, blocks, first, n, cur, prev)
          invariant CursorRebuilt(heap, blocks, n, k, old(searchPrevious), searchPrevious)
          invariant CurrentRebuilt(heap, blocks, n, k, old(searchCurrent), searchCurrent)
          invariant FreeStarts(heap, blocks, n) == [] && first + 1 < mem.Length ==> mem[first + 1] == w[first + 1]
          decreases |blocks| - n
        {
          RebuildRead(w, mem[..], heap, heapEnd, blocks, first, n, cur, prev);
          RebuildSkip(w, mem[..], heap, heapEnd, blocks, first, n, cur, prev);
          SkipStarts(heap, blocks, n);
          cur := cur + mem[cur] + OVERHEAD;
          n := n + 1;
          RebuildRead(w, mem[..], heap, heapEnd, blocks, first, n, cur, prev);
        }
        RebuildRead(w, mem[..], heap, heapEnd, blocks, first, n, cur, prev);
        RebuildAt(w, mem[..], heap, heapEnd, blocks, first, n, cur, prev, k);
        if cur != linkedListStart {
          if cur == current {
            searchPrevious := prev;
            searchCurrent := cur;
          }
          RebuildHead(w, mem[..], heap, heapEnd, blocks, first, n, cur, prev);
          RebuildLink(w, mem[..], heap, heapEnd, blocks, first, n, cur, prev);
          LinkStarts(heap, blocks, n);
          ghost var v := mem[..];
          mem[prev + 1] := cur;
          assert mem[..] == v[prev + 1 := cur];
          prev := cur;
          cur := cur + mem[cur] + OVERHEAD;
          n := n + 1;
        } else {
          break;
        }
      }
      RebuildRead(w, mem[..], heap, heapEnd, blocks, first, n, cur, prev);
      RebuildHead(w, mem[..], heap, heapEnd, blocks, first, n, cur, prev);
      RebuildAt(w, mem[..], heap, heapEnd, blocks, first, n, cur, prev, k);
      NoFreeStarts(heap, blocks, n);
      if current == linkedListStart && mem[linkedListStart + 1] != 0 {
        searchPrevious := linkedListStart;
        searchCurrent := mem[linkedListStart + 1];
      }
      RebuildEnd(w, mem[..], heap, heapEnd, blocks, first, n, cur, prev);
      ghost var v := mem[..];
      mem[prev + 1] := 0;
      assert mem[..] == v[prev + 1 := 0];
    }

    /** Joins the free block k at b with the free block behind it. */
    method JoinBlocks(b: nat, behind: nat, ghost k: nat)
      requires heapEnd <= mem.Length && Loose(mem[..], heap, heapEnd, blocks, linkedListStart)
      requires k + 1 < |blocks| && !blocks[k].used && !blocks[k + 1].used && b == Start(k) && behind == Start(k + 1)
      modifies this`linkedListStart, this`searchCurrent, this`blocks, mem
      ensures Loose(mem[..], heap, heapEnd, blocks, linkedListStart)
      ensures blocks == Replace(old(blocks), k, 2, [Join(old(blocks)[k], old(blocks)[k + 1])]) && Start(k) == b
      ensures Live(heap, blocks) == Live(heap, old(blocks)) && Kept(Live(heap, blocks), old(mem[..]), mem[..])
      ensures b < b + 1 < behind + 1 < mem.Length && Cleared(mem[..], behind)
      ensures forall x :: b < x <= behind ==> mem[x] == old(mem[x])
      ensures searchCurrent == if old(searchCurrent) == behind then b else old(searchCurrent)
    {
      hide Loose, At, Total, Live, Kept, Replace, Join;
      ghost var w, bs, first := mem[..], blocks, linkedListStart;
      JoinSizes(w, heap, heapEnd, bs, first, k);
      JoinKeeps(w, heap, heapEnd, bs, first, k);
      JoinLive(w, heap, heapEnd, bs, first, k);
      mem[b] := mem[b] + mem[behind] + OVERHEAD;
      mem[behind + 1] := 0;
      if behind == linkedListStart {
        linkedListStart := b;
      }
      if behind == searchCurrent {
        searchCurrent := b;
      }
      mem[b + mem[b] + OVERHEAD - 2] := mem[b];
      assert mem[..] == JoinedWords(w, b, bs[k].size, bs[k + 1].size);
      blocks := Replace(bs, k, 2, [Join(bs[k], bs[k + 1])]);
    }

    /** The joins of a merge: the free block k with a free block before it and one behind it. */
    method JoinAround(current: nat, ghost k: nat) returns (cur: nat, joined: bool)
      requires heapEnd <= mem.Length && Loose(mem[..], heap, heapEnd, blocks, linkedListStart)
      requires k < |blocks| && !blocks[k].used && k + 1 < |blocks| && current == Start(k)
      modifies this`linkedListStart, this`searchCurrent, this`blocks, mem
      ensures Loose(mem[..], heap, heapEnd, blocks, linkedListStart) && blocks == Coalesce(old(blocks), k)
      ensures Live(heap, blocks) == Live(heap, old(blocks)) && Kept(Live(heap, blocks), old(mem[..]), mem[..])
      ensures joined <==> |blocks| < |old(blocks)|
      ensures !joined ==> blocks == old(blocks)
      ensures cur == At(heap, old(blocks), Host(old(blocks), k)) && Host(old(blocks), k) < |blocks|
      ensures cur == Start(Host(old(blocks), k))
      ensures cur + 1 < mem.Length && mem[cur + 1] == old(mem[cur + 1])
      ensures old(searchCurrent) == current ==> searchCurrent == cur
      ensures forall j :: 0 <= j < |old(blocks)| && Absorbed(old(blocks), k, j) ==>
          Cleared(mem[..], At(heap, old(blocks), j))
    {
      hide Loose, At, Total, Live, Kept, Replace;
      cur := current;
      var previous: nat, next: nat := 0, 0;
      ghost var w, bs, i := mem[..], blocks, k;
      NeighbourTags(w, heap, heapEnd, bs, linkedListStart, k);
      KeptRefl(Live(heap, bs), w);
      if cur != heap {
        if mem[cur - 1] == 0 {
          previous := cur - (mem[cur - 2] + OVERHEAD);
        }
      }
      if mem[cur + mem[cur] + OVERHEAD + 2] == 0 && cur + mem[cur] + OVERHEAD + 2 < heapEnd {
        next := cur + mem[cur] + OVERHEAD;
      }
      joined := previous != 0 || next != 0;
      if previous != 0 {
        JoinBlocks(previous, cur, k - 1);
        cur := previous;
        i := k - 1;
        JoinedFollower(heap, bs, k);
      }
      ghost var u := mem[..];
      if next != 0 {
        JoinBlocks(cur, next, i);
        KeptTrans(Live(heap, bs), w, u, mem[..]);
        HostKept(heap, blocks, bs, k);
      }
    }

    /** Joins the free block at `current` with free neighbours, and then rebuilds the list. The cursor stays where it
    was when nothing is joined or the joined block is the only free one and ends the list; otherwise it ends on a
    header. */
    method Merge(current: nat, ghost k: nat)
      requires heapEnd <= mem.Length && Loose(mem[..], heap, heapEnd, blocks, linkedListStart)
      requires k < |blocks| && !blocks[k].used && k + 1 < |blocks| && current == Start(k) && NoAdjacentBut(blocks, k)
      modifies this, mem
      ensures Valid() && blocks == Coalesce(old(blocks), k)
      ensures Live(heap, blocks) == Live(heap, old(blocks)) && Kept(Live(heap, blocks), old(mem[..]), mem[..])
      ensures blocks != old(blocks) ==> ListOk(mem[..], heap, blocks)
      ensures if blocks == old(blocks) || CursorStays(old(mem[..]), heap, old(blocks), k)
              then searchPrevious == old(searchPrevious) else IsStart(heap, blocks, searchPrevious)
      ensures var i := Host(old(blocks), k); var host := At(heap, old(blocks), i);
        && i < |blocks| && !blocks[i].used && Start(i) == host && host + 1 < mem.Length
        && (old(searchCurrent) == current ==>
              searchCurrent == NextCurrent(heap, blocks, i, old(mem[..])[host + 1], host))
      ensures forall j :: 0 <= j < |old(blocks)| && Absorbed(old(blocks), k, j) ==>
          Cleared(mem[..], At(heap, old(blocks), j))
    {
      hide Loose, At, Total, Live, Kept, ListOk, OnlyLinks, Coalesce, IsStart, Absorbed, Cleared;
      ghost var w, bs := mem[..], blocks;
      CoalesceClean(bs, k);
      LooseTop(w, heap, heapEnd, bs, linkedListStart);
      var cur, joined := JoinAround(current, k);
      LooseTop(mem[..], heap, heapEnd, blocks, linkedListStart);
      if joined {
        ghost var v := mem[..];
        HostIsTop(bs, k);
        StartsApart(heap, blocks, Host(bs, k), |blocks| - 1);
        RebuildList(cur, Host(bs, k));
        LinksLiveLoose(v, mem[..], heap, heapEnd, blocks, linkedListStart);
        KeptTrans(Live(heap, bs), w, v, mem[..]);
        forall j | 0 <= j < |bs| && Absorbed(bs, k, j) ensures Cleared(mem[..], At(heap, bs, j)) {
          CoalesceStarts(heap, bs, k, j);
          ClearedKept(v, mem[..], heap, blocks, At(heap, bs, j));
        }
      } else {
        SameLength(bs, k);
      }
    }

    /** Frees the used block k by its payload address: it leaves the live blocks and is joined with its free
    neighbours. With a cursor on a header no other payload changes, and the cursor stays on a header unless it is lost
    inside the joined block. With a lost cursor the word behind it is overwritten, which may be a payload word but no
    tag, and the cursor comes back exactly when a rebuild moves it. The search goes on at a free block exactly unless
    the joined block is the only free one and its header links elsewhere. */
    method Rfree(ptr: nat, ghost k: nat)
      requires Valid() && k < |blocks| && blocks[k].used && ptr == Start(k) + 3
      requires CursorOk() || (searchPrevious + 1 < mem.Length
        && !Harms(heap, blocks[k := Blk(blocks[k].size, false)], searchPrevious + 1, ptr - 3))
      modifies this, mem
      ensures Valid() && k + 1 < |old(blocks)|
      ensures blocks == Coalesce(old(blocks)[k := Blk(old(blocks)[k].size, false)], k)
      ensures Live(heap, blocks) == Live(heap, old(blocks)) - {(ptr - 3, old(blocks)[k].size)}
      ensures Kept(Live(heap, blocks), old(mem[..]), mem[..]) <==>
        old(CursorOk())
        || !(InLive(Live(heap, blocks), old(searchPrevious) + 1) && old(mem[searchPrevious + 1]) != ptr - 3)
      ensures |blocks| < |old(blocks)| ==> ListOk(mem[..], heap, blocks)
      ensures old(CursorOk()) ==> (CursorOk() <==> !CursorLost(old(mem[..]), heap, old(blocks), k, old(searchPrevious)))
      ensures old(CursorOk()) && !CursorOk() ==>
        && Cleared(mem[..], searchPrevious)
        && searchPrevious == (if old(searchPrevious) != 0 then old(searchPrevious) else old(linkedListStart))
      ensures !old(CursorOk()) ==>
        (CursorOk() <==>
          |blocks| < |old(blocks)| && !StaysLost(old(mem[..]), heap, old(blocks), k, old(searchPrevious) + 1))
      ensures var i := Host(old(blocks), k);
        var link := HostLink(old(mem[..]), heap, old(blocks), old(linkedListStart), k, old(searchPrevious));
        && i < |blocks| && searchCurrent == NextCurrent(heap, blocks, i, link, Start(i))
        && (IsFree(heap, blocks, searchCurrent) <==>
              !(i == |blocks| - 1 && OnlyTopFree(blocks) && link != 0 && link != Start(i)))
    {
      hide HeapOk, Loose, At, Total, Live, Kept, Cursor, ListOk, Coalesce, NoAdjacentBut, CursorLost, CursorStays,
        Cleared, Absorbed, IsStart, FreedWords, Harms, InLive, StaysLost, Unlinked;
      var blk := ptr - 3;
      ghost var w, bs := mem[..], blocks;
      CursorFacts(heap, bs, searchPrevious, k);
      PutBehindCursor(blk, k);
      searchCurrent := blk;
      ghost var v, sp := mem[..], searchPrevious;
      ghost var r := bs[k := Blk(bs[k].size, false)];
      blocks := r;
      Merge(blk, k);
      CoalesceLength(r, k);
      HostLinkHolds(w, heap, heapEnd, bs, old(linkedListStart), k, old(searchPrevious));
      AtFlag(heap, bs, k, Host(bs, k));
      CurrentExact(heap, blocks, Host(bs, k),
                   HostLink(w, heap, bs, old(linkedListStart), k, old(searchPrevious)));
      KeptThrough(Live(heap, blocks), w, v, mem[..], sp + 1);
      if old(CursorOk()) {
        CursorAfterFree(w, heap, heapEnd, bs, old(linkedListStart), k, old(searchPrevious), sp, searchPrevious);
      } else {
        LostAfterFree(w, heap, heapEnd, bs, old(linkedListStart), k, sp, searchPrevious);
      }
    }

    /** Clears the flags of block k and links it behind the cursor, or behind the list start when there is no cursor.
    The heap stays tiled exactly unless the word behind the cursor is a tag that gets spoiled. */
    method PutBehindCursor(blk: nat, ghost k: nat)
      requires Valid() && (CursorOk() || searchPrevious + 1 < mem.Length)
      requires k < |blocks| && blocks[k].used && blk == Start(k)
      modifies this`searchPrevious, mem
      ensures var w, bs, s := old(mem[..]), blocks, blocks[k].size; var r := bs[k := Blk(s, false)];
        && searchPrevious == (if old(searchPrevious) != 0 then old(searchPrevious) else linkedListStart)
        && blk + s + OVERHEAD <= |w| && searchPrevious + 1 < |w| && blk + 1 < |w| && k + 1 < |bs|
        && (Loose(mem[..], heap, heapEnd, r, linkedListStart) <==> !Harms(heap, r, searchPrevious + 1, blk))
        && (Kept(Live(heap, r), w, mem[..]) <==>
              !(InLive(Live(heap, r), searchPrevious + 1) && w[searchPrevious + 1] != blk))
        && At(heap, r, k) == blk && NoAdjacentBut(r, k) && Live(heap, r) == Live(heap, bs) - {(blk, s)}
        && mem[searchPrevious + 1] == blk
        && (old(CursorOk()) ==> !Harms(heap, r, searchPrevious + 1, blk) && !InLive(Live(heap, r), searchPrevious + 1))
        && (!Harms(heap, r, searchPrevious + 1, blk) ==>
              && searchPrevious + 1 != blk + 2 && searchPrevious + 1 != blk + s + 4
              && mem[..] == FreedWords(w, blk, s, searchPrevious,
                                       if old(searchPrevious) != 0 then w[searchPrevious + 1] else w[blk + 1]))
    {
      hide HeapOk, Loose, At, Total, Live, Kept, Cursor, NoAdjacentBut, FreedWords, Harms, InLive, Unlinked;
      ghost var w, bs, sp := mem[..], blocks, searchPrevious;
      ghost var r := bs[k := Blk(bs[k].size, false)];
      LastIsStart(w, heap, heapEnd, bs, linkedListStart);
      UnlinkedKeeps(w, heap, heapEnd, bs, linkedListStart, k, 0);
      CursorFacts(heap, bs, searchPrevious, k);
      BlockBounds(w, heap, heapEnd, bs, linkedListStart, k,
                  if Cursor(heap, bs, sp) && sp != 0 then sp else linkedListStart);
      var inList := searchPrevious != 0;
      if !inList {
        searchPrevious := linkedListStart;
      }
      ghost var next := LinkFreed(blk, searchPrevious, inList);
      FreeLinked(w, heap, heapEnd, bs, linkedListStart, k, next, searchPrevious + 1);
      FreedByLink(w, blk, bs[k].size, searchPrevious, next);
      if Cursor(heap, bs, sp) {
        HeaderCursor(w, heap, heapEnd, bs, linkedListStart, k, searchPrevious, blk, next);
      } else {
        FlagsHarm(w, heap, heapEnd, bs, linkedListStart, k, searchPrevious + 1);
      }
    }

    /** The writes of a free: both flags, and the link behind prev, with or without taking over prev's own link. */
    method LinkFreed(blk: nat, prev: nat, inList: bool) returns (ghost next: nat)
      requires blk + 2 < mem.Length && blk + mem[blk] + OVERHEAD <= mem.Length && prev + 1 < mem.Length
      modifies mem
      ensures mem[..] == Unlinked(old(mem[..]), blk, old(mem[blk]), next)[prev + 1 := blk] && mem[prev + 1] == blk
      ensures next == if !inList then old(mem[blk + 1])
        else if prev + 1 == blk + 2 || prev + 1 == blk + old(mem[blk]) + 4 then 0 else old(mem[prev + 1])
    {
      mem[blk + 2] := 0;
      mem[blk + mem[blk] + OVERHEAD - 1] := 0;
      if inList {
        mem[blk + 1] := mem[prev + 1];
      }
      next := mem[blk + 1];
      mem[prev + 1] := blk;
    }
  }

  lemma CoalesceLength(bs: seq<Blk>, k: nat)
    requires k + 1 < |bs|
    ensures |Coalesce(bs, k)| <= |bs| && (Coalesce(bs, k) == bs <==> |Coalesce(bs, k)| == |bs|)
  {
  }

  /** Payloads kept from v to t are kept from w to t exactly when they are kept from w to v. */
  lemma KeptThrough(live: set<(nat, nat)>, w: seq<nat>, v: seq<nat>, t: seq<nat>, x: nat)
    requires |v| == |w| && Kept(live, v, t)
    ensures Kept(live, w, t) <==> Kept(live, w, v)
  {
  }

  lemma HeaderCursor(w: seq<nat>, lo: nat, hi: nat, bs: seq<Blk>, first: nat, k: nat, prev: nat, b: nat, next: nat)
    requires HeapOk(w, lo, hi, bs, first) && k < |bs| && bs[k].used && prev != 0 && Cursor(lo, bs, prev)
    requires b == At(lo, bs, k)
    ensures var r := bs[k := Blk(bs[k].size, false)];
      && !Harms(lo, r, prev + 1, b) && !InLive(Live(lo, r), prev + 1)
      && prev + 1 < |w| && b + bs[k].size + OVERHEAD <= |w|
      && prev + 1 != b + 2 && prev + 1 != b + bs[k].size + 4
  {
    hide Total, At, Live, Harms, InLive;
    FreeNeverHarms(w, lo, hi, bs, first, k, prev, b);
    FreedCell(w, lo, hi, bs, first, k, prev);
  }

  /** Writing a block's address over one of its own flags spoils it. */
  lemma FlagsHarm(w: seq<nat>, lo: nat, hi: nat, bs: seq<Blk>, first: nat, k: nat, x: nat)
    requires HeapOk(w, lo, hi, bs, first) && k < |bs|
    ensures var b, r := At(lo, bs, k), bs[k := Blk(bs[k].size, false)];
      x == b + 2 || x == b + bs[k].size + 4 ==> Harms(lo, r, x, b)
  {
    hide Total;
    var b, r := At(lo, bs, k), bs[k := Blk(bs[k].size, false)];
    AtFlag(lo, bs, k, k);
    if x == b + 2 || x == b + bs[k].size + 4 {
      assert Spoils(lo, r, k, x, b);
    }
  }

  lemma FreedCell(w: seq<nat>, lo: nat, hi: nat, bs: seq<Blk>, first: nat, k: nat, prev: nat)
    requires HeapOk(w, lo, hi, bs, first) && k < |bs| && bs[k].used && prev != 0 && Cursor(lo, bs, prev)
    ensures At(lo, bs, k) + bs[k].size + OVERHEAD <= hi <= |w| && w[At(lo, bs, k)] == bs[k].size && prev + 1 < |w|
    ensures prev + 1 != At(lo, bs, k) + 2 && prev + 1 != At(lo, bs, k) + bs[k].size + 4
  {
    hide Total;
    FreedWrites(w, lo, hi, bs, first, k, prev, 0);
    var p: nat :| p < |bs| && At(lo, bs, p) == prev;
    if p != k {
      RangesApart(lo, bs, p, k);
    }
  }

  /** The size guard of the search, on an aligned request: both parts of the split get their tags, and the rest has
  more than seven words. */
  lemma GuardMeans(size: nat, words: nat)
    requires size % 8 == 0
    ensures words * WORD_SIZE > Align(size + (OVERHEAD + 1) * WORD_SIZE * 2) <==> words - size / 8 - 5 > 7
  {
  }

  lemma GuardLeavesRoom(size: nat, words: nat)
    requires words * WORD_SIZE > Align(size + (OVERHEAD + 1) * WORD_SIZE * 2)
    ensures size / WORD_SIZE + OVERHEAD < words
  {
  }

  lemma BlockBounds(w: seq<nat>, lo: nat, hi: nat, bs: seq<Blk>, first: nat, k: nat, prev: nat)
    requires HeapOk(w, lo, hi, bs, first) && k < |bs| && Cursor(lo, bs, prev)
    ensures var b := At(lo, bs, k);
      && lo <= b && b + bs[k].size + OVERHEAD <= hi <= |w| && w[b] == bs[k].size
      && (prev != 0 ==> prev + 1 < |w| && (prev == b || prev + 1 < b || prev >= b + bs[k].size + OVERHEAD))
  {
    hide Total;
    AtMono(lo, bs, k, |bs|);
    assert BlockOk(w, At(lo, bs, k), bs[k]);
    if prev != 0 {
      var p :| 0 <= p < |bs| && At(lo, bs, p) == prev;
      AtMono(lo, bs, p, |bs|);
      if p != k {
        RangesApart(lo, bs, p, k);
      }
    }
  }

  /** The walk stands at block n, which is the block looked for exactly when their numbers are the same. */
  lemma RebuildAt(w: seq<nat>, v: seq<nat>, lo: nat, hi: nat, bs: seq<Blk>, first: nat, n: nat, cur: nat, prev: nat,
      k: nat)
    requires Rebuilding(w, v, lo, hi, bs, first, n, cur, prev) && k < |bs|
    ensures n < |bs| && (cur == At(lo, bs, k) <==> n == k) && (first == At(lo, bs, k) <==> k == |bs| - 1)
    ensures IsStart(lo, bs, first)
  {
    StartsApart(lo, bs, n, k);
    StartsApart(lo, bs, |bs| - 1, k);
  }

  lemma SkipStarts(lo: nat, bs: seq<Blk>, n: nat)
    requires n < |bs| && bs[n].used
    ensures FreeStarts(lo, bs, n + 1) == FreeStarts(lo, bs, n)
  {
  }

  lemma LinkStarts(lo: nat, bs: seq<Blk>, n: nat)
    requires n < |bs| && !bs[n].used
    ensures FreeStarts(lo, bs, n + 1) != []
  {
  }

  /** The next word of a header that is gone. */
  ghost predicate Cleared(w: seq<nat>, b: nat) {
    b + 1 < |w| && w[b + 1] == 0
  }

  lemma ClearedKept(w: seq<nat>, v: seq<nat>, lo: nat, bs: seq<Blk>, b: nat)
    requires Cleared(w, b) && OnlyLinks(w, v, lo, bs) && !IsStart(lo, bs, b)
    ensures Cleared(v, b)
  {
  }

  lemma LooseTop(w: seq<nat>, lo: nat, hi: nat, bs: seq<Blk>, first: nat)
    requires Loose(w, lo, hi, bs, first)
    ensures |bs| > 0 && !bs[|bs| - 1].used && first == At(lo, bs, |bs| - 1)
  {
  }

  lemma SameLength(bs: seq<Blk>, k: nat)
    requires k + 1 < |bs| && |Coalesce(bs, k)| == |bs|
    ensures Coalesce(bs, k) == bs && bs[k + 1].used && forall j :: 0 <= j < |bs| ==> !Absorbed(bs, k, j)
  {
  }

  lemma HostKept(lo: nat, r: seq<Blk>, bs: seq<Blk>, k: nat)
    requires k + 1 < |bs| && !bs[k].used && r == Coalesce(bs, k)
    ensures Host(bs, k) < |r| && At(lo, r, Host(bs, k)) == At(lo, bs, Host(bs, k))
  {
    var i := Host(bs, k);
    assert r[..i] == bs[..i];
  }

  /** Null is a cursor, and a word that is none is not a block start either. */
  lemma CursorFacts(lo: nat, bs: seq<Blk>, prev: nat, k: nat)
    requires k < |bs|
    ensures Cursor(lo, bs, 0) && (!Cursor(lo, bs, prev) ==> prev != 0 && prev != At(lo, bs, k))
  {
  }

  /** The shortest run there is: a fresh heap, one split and one free. The cursor was null, becomes the top block, and
  the top block is absorbed. */
  method FirstFreeLosesCursor(words: array<nat>) returns (h: Heap)
    requires words.Length > 100
    modifies words
    ensures fresh(h) && h.mem == words && h.heap == 1 && h.blocks == [Blk(95, false)] && h.searchPrevious == 8
    ensures h.Valid() && !h.CursorOk() && Cleared(h.mem[..], 8)
  {
    hide Live, Kept, Total, HeapOk;
    h := new Heap(words, 1, 800);
    HeapHead(h.mem[..], h.heap, h.heapEnd, h.blocks, h.linkedListStart);
    var p := h.SplitBlk(16, 1, 0);
    SplitTwo(95, 2);
    HeapHead(h.mem[..], h.heap, h.heapEnd, h.blocks, h.linkedListStart);
    TopOfTwo(h.mem[..], h.heap, h.heapEnd, h.blocks, h.linkedListStart);
    h.Rfree(p, 0);
    MergeTwo(2, 88);
  }

  /** One more allocation, of 24 bytes: the split puts the new header size in the word behind the lost cursor, finds
  that word set and overwrites it with the address of the new block, so header and footer disagree. */
  method LostCursorSpoilsSplit(words: array<nat>) returns (h: Heap)
    requires words.Length > 100
    modifies words
    ensures fresh(h) && !h.Valid() && h.blocks == [Blk(3, true), Blk(87, false)]
  {
    hide Live, Kept, Total, HeapOk, InLive;
    h := FirstFreeLosesCursor(words);
    HeapHead(h.mem[..], h.heap, h.heapEnd, h.blocks, h.linkedListStart);
    ghost var w := h.mem[..];
    ClearedHarmHere(w, h.heap, h.heapEnd, h.blocks, h.linkedListStart, 3);
    var _ := h.SplitBlk(24, 1, 0);
    SplitTwo(95, 3);
  }

  /** With 40 bytes instead that split is harmless, but the word behind the lost cursor is then the footer size of the
  block given out. */
  method LostCursorOnFooter(words: array<nat>) returns (h: Heap)
    requires words.Length > 100
    modifies words
    ensures fresh(h) && h.mem == words && h.Valid() && h.heap == 1 && h.searchPrevious == 8
    ensures h.blocks == [Blk(5, true), Blk(85, false)]
  {
    hide Live, Kept, Total, HeapOk, InLive, SplitHarms;
    h := FirstFreeLosesCursor(words);
    HeapHead(h.mem[..], h.heap, h.heapEnd, h.blocks, h.linkedListStart);
    ClearedHarmHere(h.mem[..], h.heap, h.heapEnd, h.blocks, h.linkedListStart, 5);
    var _ := h.SplitBlk(40, 1, 0);
    SplitTwo(95, 5);
  }

  /** The next allocation then overwrites that footer. */
  method LostCursorSpoilsFooter(words: array<nat>) returns (h: Heap)
    requires words.Length > 100
    modifies words
    ensures fresh(h) && !h.Valid() && h.blocks == [Blk(5, true), Blk(2, true), Blk(78, false)]
  {
    hide Live, Kept, Total, HeapOk, InLive, At, SplitHarms, Replace, SplitInto, Cursor, Cleared;
    h := LostCursorOnFooter(words);
    TopOfTwo(h.mem[..], h.heap, h.heapEnd, h.blocks, h.linkedListStart);
    var _ := h.SplitBlk(16, 11, 1);
    FooterHit();
  }

  lemma FooterHit()
    ensures var r := Replace([Blk(5, true), Blk(85, false)], 1, 1, SplitInto(Blk(85, false), 2));
      r == [Blk(5, true), Blk(2, true), Blk(78, false)] && SplitHarms(1, r, 1, 9, 18)
  {
    var r := [Blk(5, true), Blk(2, true), Blk(78, false)];
    assert r[..0] == [];
    assert SizeAt(1, r, 0, 9) && r[0].size == 5;
  }

  lemma ClearedHarmHere(w: seq<nat>, lo: nat, hi: nat, bs: seq<Blk>, first: nat, n: nat)
    requires HeapOk(w, lo, hi, bs, first) && lo == 1 && bs == [Blk(95, false)] && n < 90 && Cleared(w, 8)
    ensures SplitHarms(lo, Replace(bs, 0, 1, SplitInto(bs[0], n)), 0, 9, 6 + n) <==> n == 3
  {
    hide Total;
    ClearedHarm(w, lo, hi, bs, 0, n, 9);
    HeapHead(w, lo, hi, bs, first);
  }

  lemma TopOfTwo(w: seq<nat>, lo: nat, hi: nat, bs: seq<Blk>, first: nat)
    requires HeapOk(w, lo, hi, bs, first) && |bs| == 2
    ensures first == At(lo, bs, 1) == lo + bs[0].size + OVERHEAD < |w| && w[first] == bs[1].size
  {
    hide Total;
    HeapHead(w, lo, hi, bs, first);
    AtStep(lo, bs, 0);
    assert BlockOk(w, At(lo, bs, 1), bs[1]);
  }

  lemma MergeTwo(s: nat, t: nat)
    ensures Coalesce([Blk(s, true), Blk(t, false)][0 := Blk(s, false)], 0) == [Blk(s + t + OVERHEAD, false)]
  {
  }

  lemma HeapHead(w: seq<nat>, lo: nat, hi: nat, bs: seq<Blk>, first: nat)
    requires HeapOk(w, lo, hi, bs, first)
    ensures |bs| > 0 && At(lo, bs, 0) == lo < |w| && w[lo] == bs[0].size
  {
    assert BlockOk(w, At(lo, bs, 0), bs[0]);
  }

  lemma SplitTwo(s: nat, n: nat)
    requires n + OVERHEAD <= s
    ensures Replace([Blk(s, false)], 0, 1, SplitInto(Blk(s, false), n)) == [Blk(n, true), Blk(s - n - OVERHEAD, false)]
  {
  }

  /** The heap after a split, from the words before the link was written. */
  lemma SplitResult(w: seq<nat>, u: seq<nat>, v: seq<nat>, lo: nat, hi: nat, bs: seq<Blk>, first: nat, k: nat, n: nat,
                    sp: nat, prev: nat)
    requires HeapOk(w, lo, hi, bs, first) && k < |bs| && !bs[k].used && n + OVERHEAD < bs[k].size && |u| == |w|
    requires prev == (if Cursor(lo, bs, sp) then sp else 0) && Cursor(lo, bs, prev) && (sp != 0 ==> sp + 1 < |w|)
    requires At(lo, bs, k) + bs[k].size + OVERHEAD <= |w|
    requires var b := At(lo, bs, k);
      && SplitWrote(w, Tagged(u, b, Blk(n, true), 0), b, bs[k].size, n, prev)
      && v == Tagged(if sp != 0 && u[sp + 1] != 0 then u[sp + 1 := b + n + OVERHEAD] else u, b, Blk(n, true), 0)
    ensures var b, r := At(lo, bs, k), Replace(bs, k, 1, SplitInto(bs[k], n));
      var split, top := b + n + OVERHEAD, if b == first then b + n + OVERHEAD else first;
      && Live(lo, r) == Live(lo, bs) + {(b, n)}
      && (HeapOk(v, lo, hi, r, top) <==> sp == 0 || !SplitHarms(lo, r, k, sp + 1, split))
      && (Kept(Live(lo, bs), w, v) <==>
            sp == 0 || !(InLive(Live(lo, bs), sp + 1) && w[sp + 1] != 0 && w[sp + 1] != split))
      && (Cursor(lo, bs, sp) ==>
            HeapOk(v, lo, hi, r, top) && Kept(Live(lo, bs), w, v) && Cursor(lo, r, if sp == b then split else sp))
  {
    hide HeapOk, At, Total, BlockOk, SplitWrote, Tagged, PayloadsKept, Live, Kept, Replace, SplitInto, SplitHarms,
      InLive;
    var b, r, c := At(lo, bs, k), Replace(bs, k, 1, SplitInto(bs[k], n)), At(lo, bs, k) + n + OVERHEAD;
    var clean := Tagged(u, b, Blk(n, true), 0);
    SplitKeeps(w, clean, lo, hi, bs, first, k, n, prev);
    SplitLive(w, clean, lo, bs, k, n);
    if sp != 0 {
      LinkBetween(u, b, n, sp + 1, c);
      SplitStarts(lo, bs, k, n);
      SplitLinked(clean, lo, hi, r, if b == first then c else first, k, sp + 1, c);
      LinkedKept(w, clean, lo, hi, bs, first, k, n, sp + 1, c);
      if Cursor(lo, bs, sp) {
        CursorSafe(w, clean, lo, hi, bs, first, k, n, sp, c);
      }
    }
  }

  lemma CursorSafe(w: seq<nat>, v: seq<nat>, lo: nat, hi: nat, bs: seq<Blk>, first: nat, k: nat, n: nat, sp: nat,
                   c: nat)
    requires HeapOk(w, lo, hi, bs, first) && k < |bs| && n + OVERHEAD <= bs[k].size && sp != 0 && Cursor(lo, bs, sp)
    requires HeapOk(v, lo, hi, Replace(bs, k, 1, SplitInto(bs[k], n)),
                    if At(lo, bs, k) == first then At(lo, bs, k) + n + OVERHEAD else first)
    ensures !SplitHarms(lo, Replace(bs, k, 1, SplitInto(bs[k], n)), k, sp + 1, c)
    ensures !InLive(Live(lo, bs), sp + 1)
  {
    hide Total, At, Tiled, SplitHarms, InLive, Live;
    StartNeverHarms(w, v, lo, hi, bs, k, n, sp, c);
  }

  /** The payloads after the link write of a split. */
  lemma LinkedKept(w: seq<nat>, v: seq<nat>, lo: nat, hi: nat, bs: seq<Blk>, first: nat, k: nat, n: nat, x: nat, c: nat)
    requires HeapOk(w, lo, hi, bs, first) && k < |bs| && !bs[k].used && n + OVERHEAD <= bs[k].size && x < |w|
    requires Kept(Live(lo, bs), w, v)
    ensures Kept(Live(lo, bs), w, if OwnWord(At(lo, bs, k), n, x) || v[x] == 0 then v else v[x := c])
      <==> !(InLive(Live(lo, bs), x) && w[x] != 0 && w[x] != c)
  {
    hide Total, At, Tiled;
    PokeKept(Live(lo, bs), w, v, x, c);
    if InLive(Live(lo, bs), x) {
      LiveApart(lo, bs, k, n, x);
      assert v[x] == w[x];
    }
  }

  lemma LiveApart(lo: nat, bs: seq<Blk>, k: nat, n: nat, x: nat)
    requires k < |bs| && !bs[k].used && n + OVERHEAD <= bs[k].size && InLive(Live(lo, bs), x)
    ensures !OwnWord(At(lo, bs, k), n, x)
  {
    hide Total, At;
    var p :| p in Live(lo, bs) && p.0 + 3 <= x < p.0 + 3 + p.1;
    var j :| 0 <= j < |bs| && bs[j].used && p == (At(lo, bs, j), bs[j].size);
    RangesApart(lo, bs, j, k);
  }
}
