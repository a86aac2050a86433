/** Circular doubly linked free lists threaded through one block map, one list head per order. */
module FreeLists {
  import opened Sequences

  /** An address of a block record: a list head in `availList` or a cell of the block map. */
  datatype Ptr = Null | Head(order: nat) | Cell(index: nat)

  datatype Tag = RESERVED | FREE

  datatype Block = Block(linkf: Ptr, linkb: Ptr, kval: nat, tag: Tag)

  /** The contents of `availList` and of the block map. */
  datatype Store = Store(heads: seq<Block>, cells: seq<Block>) {
    predicate Has(p: Ptr) {
      match p
      case Null => false
      case Head(k) => k < |heads|
      case Cell(i) => i < |cells|
    }

    function Get(p: Ptr): Block
      requires Has(p)
    {
      match p
      case Head(k) => heads[k]
      case Cell(i) => cells[i]
    }

    function Put(p: Ptr, b: Block): Store
      requires Has(p)
    {
      match p
      case Head(k) => this.(heads := heads[k := b])
      case Cell(i) => this.(cells := cells[i := b])
    }

    function PutLinkf(p: Ptr, q: Ptr): Store
      requires Has(p)
    {
      Put(p, Get(p).(linkf := q))
    }

    function PutLinkb(p: Ptr, q: Ptr): Store
      requires Has(p)
    {
      Put(p, Get(p).(linkb := q))
    }
  }

  /** The node at position i of list k; the position before the first and after the last is the head. */
  function Node(k: nat, list: seq<nat>, i: int): Ptr {
    if 0 <= i < |list| then Cell(list[i]) else Head(k)
  }

  ghost predicate NodeLinked(s: Store, k: nat, list: seq<nat>, i: int) {
    && s.Has(Node(k, list, i))
    && s.Get(Node(k, list, i)).linkf == Node(k, list, i + 1)
    && s.Get(Node(k, list, i)).linkb == Node(k, list, if i == -1 then |list| - 1 else i - 1)
  }

  ghost predicate IsFree(s: Store, i: nat, k: nat) {
    i < |s.cells| && s.cells[i].tag == FREE && s.cells[i].kval == k
  }

  /** List k holds exactly the cells tagged Free with order k, each once. */
  ghost predicate Holds(s: Store, k: nat, list: seq<nat>) {
    && Distinct(list)
    && (forall i :: i in list <==> IsFree(s, i, k))
  }

  /** The links of the head (position -1) and of every cell of the list run around the circle both ways. */
  ghost predicate Ring(s: Store, k: nat, list: seq<nat>) {
    && k < |s.heads|
    && (forall i {:trigger NodeLinked(s, k, list, i)} :: -1 <= i < |list| ==> NodeLinked(s, k, list, i))
  }

  ghost predicate Lists(s: Store, lists: seq<seq<nat>>) {
    && |lists| <= |s.heads|
    && (forall k :: 0 <= k < |lists| ==> Holds(s, k, lists[k]) && Ring(s, k, lists[k]))
    && (forall i :: 0 <= i < |s.cells| && s.cells[i].tag == FREE ==> s.cells[i].kval < |lists|)
  }

  ghost predicate SameBlocks(s: Store, t: Store) {
    && |t.heads| == |s.heads| && |t.cells| == |s.cells|
    && (forall i :: 0 <= i < |s.cells| ==> t.cells[i].tag == s.cells[i].tag && t.cells[i].kval == s.cells[i].kval)
  }

  /** What unlinking a free cell from its neighbours writes. */
  function Unlink(s: Store, x: nat): Store
    requires x < |s.cells| && s.Has(s.cells[x].linkf) && s.Has(s.cells[x].linkb)
  {
    var b := s.cells[x];
    var t := s.PutLinkf(b.linkb, b.linkf).PutLinkb(b.linkf, b.linkb);
    t.Put(Cell(x), t.Get(Cell(x)).(tag := RESERVED))
  }

  lemma UnlinkRing(s: Store, k: nat, list: seq<nat>, j: nat, i: int)
    requires Ring(s, k, list) && Distinct(list) && j < |list| && -1 <= i < |list| - 1
    requires NodeLinked(s, k, list, j) && NodeLinked(s, k, list, j - 1)
    requires j + 1 < |list| ==> NodeLinked(s, k, list, j + 1)
    ensures NodeLinked(Unlink(s, list[j]), k, Without(list, j), i)
  {
    assert NodeLinked(s, k, list, -1);
    var o := if i < j then i else i + 1;
    assert NodeLinked(s, k, list, o);
    assert Node(k, Without(list, j), i) == Node(k, list, o);
  }

  /** Every cell outside list k, and every head but that of list k, is left alone. */
  ghost predicate OnlyList(s: Store, t: Store, k: nat) {
    && |t.heads| == |s.heads| && |t.cells| == |s.cells|
    && (forall l :: 0 <= l < |s.heads| && l != k ==> t.heads[l] == s.heads[l])
    && (forall i :: 0 <= i < |s.cells| && !IsFree(s, i, k) && !IsFree(t, i, k) ==> t.cells[i] == s.cells[i])
    && (forall i, l :: l != k ==> (IsFree(s, i, l) <==> IsFree(t, i, l)))
  }

  lemma OtherRing(s: Store, t: Store, k: nat, l: nat, list: seq<nat>)
    requires OnlyList(s, t, k) && l != k && Holds(s, l, list) && Ring(s, l, list)
    ensures Holds(t, l, list) && Ring(t, l, list)
  {
    forall i | -1 <= i < |list| ensures NodeLinked(t, l, list, i) {
      assert NodeLinked(s, l, list, i);
      if i >= 0 {
        assert list[i] in list;
        assert IsFree(s, list[i], l);
        assert IsFree(t, list[i], l);
        assert !IsFree(s, list[i], k) && !IsFree(t, list[i], k);
      }
    }
  }

  lemma ListsAfter(s: Store, t: Store, lists: seq<seq<nat>>, k: nat, list: seq<nat>)
    requires Lists(s, lists) && k < |lists| && OnlyList(s, t, k)
    requires Holds(t, k, list) && Ring(t, k, list)
    ensures Lists(t, lists[k := list])
  {
    var after := lists[k := list];
    forall l | 0 <= l < |after|
      ensures Holds(t, l, after[l]) && Ring(t, l, after[l])
    {
      if l != k {
        OtherRing(s, t, k, l, lists[l]);
      }
    }
    forall i | 0 <= i < |t.cells| && t.cells[i].tag == FREE ensures t.cells[i].kval < |lists| {
      assert IsFree(t, i, t.cells[i].kval);
      if t.cells[i].kval != k {
        assert IsFree(s, i, t.cells[i].kval);
      }
    }
  }

  lemma Neighbours(s: Store, k: nat, list: seq<nat>, j: nat)
    requires Ring(s, k, list) && Holds(s, k, list) && j < |list|
    ensures list[j] < |s.cells|
    ensures s.cells[list[j]].linkf == Node(k, list, j + 1) && s.Has(Node(k, list, j + 1))
    ensures s.cells[list[j]].linkb == Node(k, list, j - 1) && s.Has(Node(k, list, j - 1))
    ensures Node(k, list, j + 1) != Cell(list[j]) && Node(k, list, j - 1) != Cell(list[j])
  {
    assert NodeLinked(s, k, list, j);
    assert NodeLinked(s, k, list, -1);
    assert NodeLinked(s, k, list, j - 1);
    if j + 1 < |list| {
      assert NodeLinked(s, k, list, j + 1);
    }
  }

  lemma UnlinkHolds(s: Store, k: nat, list: seq<nat>, j: nat)
    requires Ring(s, k, list) && Holds(s, k, list) && j < |list|
    requires list[j] < |s.cells| && s.Has(s.cells[list[j]].linkf) && s.Has(s.cells[list[j]].linkb)
    ensures Holds(Unlink(s, list[j]), k, Without(list, j))
  {
    var t, l := Unlink(s, list[j]), Without(list, j);
    forall i ensures i in l <==> IsFree(t, i, k) {
      if i in l {
        var o :| 0 <= o < |l| && l[o] == i;
        assert i == list[if o < j then o else o + 1];
        assert i in list;
      }
      if IsFree(t, i, k) {
        assert IsFree(s, i, k) && i != list[j];
        var o :| 0 <= o < |list| && list[o] == i;
        assert l[if o < j then o else o - 1] == i;
      }
    }
  }

  /** Unlinking the cell at position j of list k keeps every list well formed, drops that cell from its list, and
  touches no cell that is reserved. */
  lemma UnlinkKeepsLists(s: Store, lists: seq<seq<nat>>, k: nat, j: nat)
    requires Lists(s, lists) && k < |lists| && j < |lists[k]|
    ensures var x := lists[k][j];
            && x < |s.cells| && s.Has(s.cells[x].linkf) && s.Has(s.cells[x].linkb)
            && Lists(Unlink(s, x), lists[k := Without(lists[k], j)])
            && SameBlocks(s.(cells := s.cells[x := s.cells[x].(tag := RESERVED)]), Unlink(s, x))
            && (forall i :: 0 <= i < |s.cells| && s.cells[i].tag == RESERVED ==> Unlink(s, x).cells[i] == s.cells[i])
  {
    var list := lists[k];
    var x := list[j];
    Neighbours(s, k, list, j);
    UnlinkHolds(s, k, list, j);
    var t := Unlink(s, x);
    forall i | -1 <= i < |list| - 1 ensures NodeLinked(t, k, Without(list, j), i) {
      UnlinkRing(s, k, list, j, i);
    }
    assert IsFree(s, x, k) by { assert x in list; }
    assert j > 0 ==> list[j - 1] in list;
    assert j + 1 < |list| ==> list[j + 1] in list;
    assert OnlyList(s, t, k);
    ListsAfter(s, t, lists, k, Without(list, j));
  }

  /** What linking cell x as the first element of list k writes. */
  function PushFront(s: Store, k: nat, x: nat): Store
    requires k < |s.heads| && x < |s.cells| && s.Has(s.heads[k].linkf)
  {
    var p := s.heads[k].linkf;
    s.Put(Cell(x), Block(p, Head(k), k, FREE)).PutLinkb(p, Cell(x)).PutLinkf(Head(k), Cell(x))
  }

  lemma PushRing(s: Store, k: nat, list: seq<nat>, x: nat, i: int)
    requires Ring(s, k, list) && Distinct(list) && x !in list && x < |s.cells| && -1 <= i <= |list|
    requires s.Has(s.heads[k].linkf)
    ensures NodeLinked(PushFront(s, k, x), k, [x] + list, i)
  {
    assert NodeLinked(s, k, list, -1);
    if i > 0 {
      assert NodeLinked(s, k, list, i - 1);
    }
    if list != [] {
      assert NodeLinked(s, k, list, 0);
    }
  }

  lemma PushHolds(s: Store, k: nat, list: seq<nat>, x: nat)
    requires Ring(s, k, list) && Holds(s, k, list) && x < |s.cells| && s.cells[x].tag == RESERVED
    requires s.Has(s.heads[k].linkf)
    ensures Holds(PushFront(s, k, x), k, [x] + list)
  {
    var t := PushFront(s, k, x);
    assert NodeLinked(s, k, list, -1);
    assert !IsFree(s, x, k) && x !in list;
    forall i ensures i in [x] + list <==> IsFree(t, i, k) {
      assert i in [x] + list <==> i == x || i in list;
    }
  }

  /** Linking a reserved cell at the front of list k keeps every list well formed, adds that cell to its list, and
  touches no other reserved cell. */
  lemma PushKeepsLists(s: Store, lists: seq<seq<nat>>, k: nat, x: nat)
    requires Lists(s, lists) && k < |lists| && x < |s.cells| && s.cells[x].tag == RESERVED
    ensures s.Has(s.heads[k].linkf)
    ensures Lists(PushFront(s, k, x), lists[k := [x] + lists[k]])
    ensures SameBlocks(s.(cells := s.cells[x := Block(Null, Null, k, FREE)]), PushFront(s, k, x))
    ensures forall i :: 0 <= i < |s.cells| && i != x && s.cells[i].tag == RESERVED ==>
        PushFront(s, k, x).cells[i] == s.cells[i]
  {
    var list := lists[k];
    assert Holds(s, k, list) && Ring(s, k, list);
    assert NodeLinked(s, k, list, -1);
    if list != [] {
      assert NodeLinked(s, k, list, 0);
      assert list[0] in list;
    }
    var t := PushFront(s, k, x);
    PushHolds(s, k, list, x);
    forall i | -1 <= i < |list| + 1 ensures NodeLinked(t, k, [x] + list, i) {
      PushRing(s, k, list, x, i);
    }
    assert OnlyList(s, t, k);
    ListsAfter(s, t, lists, k, [x] + list);
  }
}
