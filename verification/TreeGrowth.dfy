/** Hanging a new leaf below a node and cutting a leaf off, with their effect on the in-order sequence. */
module TreeGrowth {
  import opened TreeLinks
  import opened AvlBalance

  /** The span of a node after an id was inserted at k as a left (or right) leaf. */
  function Spread(g: Span, k: nat, onLeft: bool): Span {
    Span(if g.lo > k || (g.lo == k && !onLeft) then g.lo + 1 else g.lo,
         if g.pos >= k then g.pos + 1 else g.pos,
         if g.hi > k || (g.hi == k && !onLeft) then g.hi + 1 else g.hi)
  }

  /** The span of a node after the id at k was deleted. */
  function Shrink(g: Span, k: nat): Span {
    Span(if g.lo > k then g.lo - 1 else g.lo, if g.pos > k then g.pos - 1 else g.pos, if g.hi > k then g.hi - 1
        else g.hi)
  }

  /** Where a leaf hung below y lands in the sequence. */
  ghost function LeafPlace(o: Order, y: nat, onLeft: bool): nat
    requires y in o.spans
  {
    if onLeft then o.spans[y].pos else o.spans[y].pos + 1
  }

  ghost predicate CanHang(s: Store, o: Order, y: nat, onLeft: bool, id: nat) {
    && Linked(s, o) && y in s.nodes && id !in s.nodes && id != 0
    && (if onLeft then s.nodes[y].left == 0 else s.nodes[y].right == 0)
  }

  function HangStore(s: Store, y: nat, onLeft: bool, id: nat, key: int, val: int): Store
    requires y in s.nodes
  {
    var n := if onLeft then s.nodes[y].(left := id) else s.nodes[y].(right := id);
    s.(nodes := s.nodes[y := n][id := Rec(key, val, y, 0, 0, 1)])
  }

  ghost function HangOrder(o: Order, k: nat, onLeft: bool, id: nat): Order
    requires k <= |o.ids|
  {
    Order(o.ids[..k] + [id] + o.ids[k..], (map x | x in o.spans :: Spread(o.spans[x], k, onLeft))[id := Span(k, k,
        k + 1)])
  }

  lemma HangSpanned(s: Store, o: Order, y: nat, onLeft: bool, id: nat, key: int, val: int, x: nat)
    requires CanHang(s, o, y, onLeft, id) && x in s.nodes
    requires y in o.spans && LeafPlace(o, y, onLeft) <= |o.ids|
    ensures var k := LeafPlace(o, y, onLeft); var t, u := HangStore(s, y, onLeft, id, key, val), HangOrder(o, k,
      onLeft, id);
      x in t.nodes && x in u.spans && Spanned(t, u, x) && ParentOk(t, x) && t.nodes[x].height >= 1
  {
    assert NodeOk(s, o, x) && NodeOk(s, o, y);
    hide LeftOk, RightOk, NodeOk;
    var k := LeafPlace(o, y, onLeft);
    var u := HangOrder(o, k, onLeft, id);
    assert u.ids[u.spans[x].pos] == x;
  }

  lemma HangLeftOk(s: Store, o: Order, y: nat, onLeft: bool, id: nat, key: int, val: int, x: nat)
    requires CanHang(s, o, y, onLeft, id) && x in s.nodes
    requires y in o.spans && LeafPlace(o, y, onLeft) <= |o.ids|
    ensures var k := LeafPlace(o, y, onLeft); var t, u := HangStore(s, y, onLeft, id, key, val), HangOrder(o, k,
      onLeft, id);
      x in t.nodes && x in u.spans && LeftOk(t, u, x)
  {
    assert NodeOk(s, o, x) && NodeOk(s, o, y);
    hide RightOk, NodeOk, ParentOk;
    assert x != y ==> o.spans[x].pos != o.spans[y].pos;
  }

  lemma HangRightOk(s: Store, o: Order, y: nat, onLeft: bool, id: nat, key: int, val: int, x: nat)
    requires CanHang(s, o, y, onLeft, id) && x in s.nodes
    requires y in o.spans && LeafPlace(o, y, onLeft) <= |o.ids|
    ensures var k := LeafPlace(o, y, onLeft); var t, u := HangStore(s, y, onLeft, id, key, val), HangOrder(o, k,
      onLeft, id);
      x in t.nodes && x in u.spans && RightOk(t, u, x)
  {
    assert NodeOk(s, o, x) && NodeOk(s, o, y);
    hide LeftOk, NodeOk, ParentOk;
    assert x != y ==> o.spans[x].pos != o.spans[y].pos;
  }

  lemma HangNode(s: Store, o: Order, y: nat, onLeft: bool, id: nat, key: int, val: int, x: nat)
    requires CanHang(s, o, y, onLeft, id) && x in s.nodes
    requires y in o.spans && LeafPlace(o, y, onLeft) <= |o.ids|
    ensures var k := LeafPlace(o, y, onLeft); var t, u := HangStore(s, y, onLeft, id, key, val), HangOrder(o, k,
      onLeft, id);
      x in t.nodes && x in u.spans && NodeOk(t, u, x)
  {
    hide Linked, Spanned, LeftOk, RightOk, ParentOk, HangStore, HangOrder;
    HangSpanned(s, o, y, onLeft, id, key, val, x);
    HangLeftOk(s, o, y, onLeft, id, key, val, x);
    HangRightOk(s, o, y, onLeft, id, key, val, x);
  }

  lemma HangIndex(s: Store, o: Order, y: nat, onLeft: bool, id: nat, key: int, val: int, i: nat)
    requires CanHang(s, o, y, onLeft, id) && y in o.spans && LeafPlace(o, y, onLeft) <= |o.ids| && i <= |o.ids|
    ensures var k := LeafPlace(o, y, onLeft); var t, u := HangStore(s, y, onLeft, id, key, val), HangOrder(o, k,
      onLeft, id);
      |u.ids| == |o.ids| + 1 && u.ids[i] in t.nodes && u.ids[i] in u.spans && u.spans[u.ids[i]].pos == i
  {
    var k := LeafPlace(o, y, onLeft);
    var u := HangOrder(o, k, onLeft, id);
    assert u.ids[i] == if i < k then o.ids[i] else if i == k then id else o.ids[i - 1];
  }

  /** Hanging a leaf keeps the tree well linked, with the new id at its place in the sequence. */
  lemma HangLinked(s: Store, o: Order, y: nat, onLeft: bool, id: nat, key: int, val: int)
    requires CanHang(s, o, y, onLeft, id)
    ensures y in o.spans && LeafPlace(o, y, onLeft) <= |o.ids|
    ensures Linked(HangStore(s, y, onLeft, id, key, val), HangOrder(o, LeafPlace(o, y, onLeft), onLeft, id))
  {
    hide NodeOk;
    LeafPlaceOk(s, o, y, onLeft);
    var k := LeafPlace(o, y, onLeft);
    var t, u := HangStore(s, y, onLeft, id, key, val), HangOrder(o, k, onLeft, id);
    forall x | x in t.nodes ensures NodeOk(t, u, x) {
      if x != id {
        HangNode(s, o, y, onLeft, id, key, val, x);
      } else {
        NewLeafOk(s, o, y, onLeft, id, key, val);
      }
    }
    forall i | 0 <= i < |u.ids| ensures u.ids[i] in t.nodes && u.spans[u.ids[i]].pos == i {
      HangIndex(s, o, y, onLeft, id, key, val, i);
    }
  }

  lemma LeafPlaceOk(s: Store, o: Order, y: nat, onLeft: bool)
    requires Linked(s, o) && y in s.nodes
    ensures y in o.spans && LeafPlace(o, y, onLeft) <= |o.ids| && In(o, y, y) && o.spans[y].pos < |o.ids|
  {
    assert NodeOk(s, o, y);
  }

  lemma NewLeafOk(s: Store, o: Order, y: nat, onLeft: bool, id: nat, key: int, val: int)
    requires CanHang(s, o, y, onLeft, id) && y in o.spans && LeafPlace(o, y, onLeft) <= |o.ids|
    ensures NodeOk(HangStore(s, y, onLeft, id, key, val), HangOrder(o, LeafPlace(o, y, onLeft), onLeft, id), id)
  {
    var u := HangOrder(o, LeafPlace(o, y, onLeft), onLeft, id);
    assert u.ids[LeafPlace(o, y, onLeft)] == id;
  }

  ghost predicate IsLeaf(s: Store, d: nat) {
    d in s.nodes && s.nodes[d].left == 0 && s.nodes[d].right == 0
  }

  /** The leaf d is unlinked from its parent and deleted. */
  function PruneStore(s: Store, d: nat): Store
    requires d in s.nodes
  {
    var q := s.nodes[d].parent;
    var m := if q in s.nodes then s.nodes[q := SlotTo(s.nodes[q], d, 0)] else s.nodes;
    Store(m - {d}, if s.root == d then 0 else s.root)
  }

  ghost function PruneOrder(o: Order, d: nat): Order
    requires d in o.spans && o.spans[d].pos < |o.ids|
  {
    var k := o.spans[d].pos;
    Order(o.ids[..k] + o.ids[k + 1..], map x | x in o.spans && x != d :: Shrink(o.spans[x], k))
  }

  lemma PruneSpanned(s: Store, o: Order, d: nat, x: nat)
    requires Linked(s, o) && IsLeaf(s, d) && x in s.nodes && x != d && d in o.spans && o.spans[d].pos < |o.ids|
    ensures x in PruneStore(s, d).nodes && x in PruneOrder(o, d).spans
    ensures Spanned(PruneStore(s, d), PruneOrder(o, d), x) && s.nodes[x].height == PruneStore(s, d).nodes[x].height >= 1
  {
    assert NodeOk(s, o, x) && NodeOk(s, o, d);
    hide LeftOk, RightOk, NodeOk, ParentOk;
    assert o.spans[x].pos != o.spans[d].pos;
    var u := PruneOrder(o, d);
    assert u.ids[u.spans[x].pos] == x;
  }

  lemma PruneParentOk(s: Store, o: Order, d: nat, x: nat)
    requires Linked(s, o) && IsLeaf(s, d) && x in s.nodes && x != d && d in o.spans && o.spans[d].pos < |o.ids|
    ensures x in PruneStore(s, d).nodes && x in PruneOrder(o, d).spans && ParentOk(PruneStore(s, d), x)
  {
    assert NodeOk(s, o, x) && NodeOk(s, o, d);
    hide LeftOk, RightOk, NodeOk, Spanned;
    var q := s.nodes[x].parent;
    if s.nodes[d].parent != 0 {
      BothSides(s, o, d);
    }
    LeafChildless(s, o, d, x);
  }

  lemma LeafChildless(s: Store, o: Order, d: nat, x: nat)
    requires Linked(s, o) && IsLeaf(s, d) && x in s.nodes
    ensures s.nodes[x].parent != d && (s.nodes[x].left == d || s.nodes[x].right == d ==> s.nodes[d].parent == x)
  {
    assert NodeOk(s, o, x);
  }

  lemma PruneLeftOk(s: Store, o: Order, d: nat, x: nat)
    requires Linked(s, o) && IsLeaf(s, d) && x in s.nodes && x != d && d in o.spans && o.spans[d].pos < |o.ids|
    ensures x in PruneStore(s, d).nodes && x in PruneOrder(o, d).spans && LeftOk(PruneStore(s, d), PruneOrder(o, d), x)
  {
    assert NodeOk(s, o, x) && NodeOk(s, o, d);
    hide RightOk, NodeOk;
    assert o.spans[x].pos != o.spans[d].pos;
    LeafChildless(s, o, d, x);
    if s.nodes[d].parent != 0 {
      BothSides(s, o, d);
    }
    var l := s.nodes[x].left;
    if l == d {
      LeafSpan(s, o, d);
    }
  }

  lemma LeafSpan(s: Store, o: Order, d: nat)
    requires Linked(s, o) && IsLeaf(s, d)
    ensures d in o.spans && o.spans[d] == Span(o.spans[d].pos, o.spans[d].pos, o.spans[d].pos + 1)
  {
    assert NodeOk(s, o, d);
  }

  lemma PruneRightOk(s: Store, o: Order, d: nat, x: nat)
    requires Linked(s, o) && IsLeaf(s, d) && x in s.nodes && x != d && d in o.spans && o.spans[d].pos < |o.ids|
    ensures x in PruneStore(s, d).nodes && x in PruneOrder(o, d).spans && RightOk(PruneStore(s, d), PruneOrder(o, d), x)
  {
    assert NodeOk(s, o, x) && NodeOk(s, o, d);
    hide LeftOk, NodeOk;
    assert o.spans[x].pos != o.spans[d].pos;
    LeafChildless(s, o, d, x);
    if s.nodes[d].parent != 0 {
      BothSides(s, o, d);
    }
    var r := s.nodes[x].right;
    if r == d {
      LeafSpan(s, o, d);
    }
  }

  lemma PruneNode(s: Store, o: Order, d: nat, x: nat)
    requires Linked(s, o) && IsLeaf(s, d) && x in s.nodes && x != d && d in o.spans && o.spans[d].pos < |o.ids|
    ensures x in PruneStore(s, d).nodes && x in PruneOrder(o, d).spans && NodeOk(PruneStore(s, d), PruneOrder(o, d), x)
  {
    hide Linked, Spanned, LeftOk, RightOk, ParentOk, PruneStore, PruneOrder;
    PruneSpanned(s, o, d, x);
    PruneParentOk(s, o, d, x);
    PruneLeftOk(s, o, d, x);
    PruneRightOk(s, o, d, x);
  }

  lemma PruneIndex(s: Store, o: Order, d: nat, i: nat)
    requires Linked(s, o) && IsLeaf(s, d) && d in o.spans && o.spans[d].pos < |o.ids| && i + 1 < |o.ids|
    ensures var t, u := PruneStore(s, d), PruneOrder(o, d);
      |u.ids| + 1 == |o.ids| && u.ids[i] in t.nodes && u.ids[i] in u.spans && u.spans[u.ids[i]].pos == i
  {
    var k := o.spans[d].pos;
    var u := PruneOrder(o, d);
    assert u.ids[i] == if i < k then o.ids[i] else o.ids[i + 1];
  }

  lemma RootLeaf(s: Store, o: Order, d: nat)
    requires Linked(s, o) && IsLeaf(s, d)
    ensures d in o.spans && o.spans[d].pos < |o.ids|
    ensures d == s.root ==> s.nodes.Keys == {d} && o.ids == [d]
  {
    assert NodeOk(s, o, d);
    if d == s.root {
      forall x | x in s.nodes ensures x == d {
        assert NodeOk(s, o, x);
      }
    }
  }

  /** Deleting a leaf keeps the tree well linked and deletes its id from the sequence. */
  lemma PruneLinked(s: Store, o: Order, d: nat)
    requires Linked(s, o) && IsLeaf(s, d)
    ensures d in o.spans && o.spans[d].pos < |o.ids|
    ensures Linked(PruneStore(s, d), PruneOrder(o, d))
  {
    hide NodeOk;
    RootLeaf(s, o, d);
    var t, u := PruneStore(s, d), PruneOrder(o, d);
    forall x | x in t.nodes ensures NodeOk(t, u, x) {
      PruneNode(s, o, d, x);
    }
    forall i | 0 <= i < |u.ids| ensures u.ids[i] in t.nodes && u.spans[u.ids[i]].pos == i {
      PruneIndex(s, o, d, i);
    }
    if t.root != 0 {
      RootOnly(s, o, d);
      NotLowest(s, o, d);
    }
  }

  lemma NotLowest(s: Store, o: Order, d: nat)
    requires Linked(s, o) && IsLeaf(s, d) && d != s.root
    ensures s.root in s.nodes && d in o.spans && o.spans[d].pos < |o.ids| && s.nodes[d].parent != 0
  {
    assert NodeOk(s, o, d);
  }

  function Key(s: Store, x: nat): int {
    if x in s.nodes then s.nodes[x].key else 0
  }

  /** Keys do not decrease along the sequence. */
  ghost predicate Sorted(s: Store, ids: seq<nat>) {
    forall i, j :: 0 <= i < j < |ids| ==> Key(s, ids[i]) <= Key(s, ids[j])
  }

  /** Keys before lo are at most key, keys from hi on are greater. */
  ghost predicate Bracket(s: Store, ids: seq<nat>, lo: nat, hi: nat, key: int) {
    && (forall i :: 0 <= i < lo && i < |ids| ==> Key(s, ids[i]) <= key)
    && (forall i :: hi <= i < |ids| ==> Key(s, ids[i]) > key)
  }

  /** Comparing with a node's key narrows the bracket to one side. */
  lemma Descend(s: Store, o: Order, x: nat, key: int)
    requires Linked(s, o) && x in s.nodes && Sorted(s, o.ids) && Bracket(s, o.ids, o.spans[x].lo, o.spans[x].hi, key)
    ensures o.spans[x].lo <= o.spans[x].pos < o.spans[x].hi
    ensures var g, n := o.spans[x], s.nodes[x];
      if n.key > key then
        Bracket(s, o.ids, g.lo, g.pos, key) && (n.left == 0 ==> g.lo == g.pos)
        && (n.left != 0 ==> n.left in s.nodes && s.nodes[n.left].parent == x && o.spans[n.left].lo == g.lo && o.spans[n.left].hi == g.pos < g.hi)
      else
        Bracket(s, o.ids, g.pos + 1, g.hi, key) && (n.right == 0 ==> g.pos + 1 == g.hi)
        && (n.right != 0 ==> n.right in s.nodes && s.nodes[n.right].parent == x && o.spans[n.right].lo == g.pos + 1 > g.lo && o.spans[n.right].hi == g.hi)
  {
    assert NodeOk(s, o, x);
  }

  /** The tree t is s with a new leaf below y at its upper bound, rearranged below cur under a new root c. */
  ghost predicate Grew(s: Store, o: Order, t: Store, u: Order, cur: nat, c: nat, y: nat, onLeft: bool, id: nat,
      key: int, val: int)
  {
    && CanHang(s, o, y, onLeft, id) && In(o, cur, y) && LeafPlace(o, y, onLeft) <= |o.ids|
    && cur in s.nodes && c in t.nodes
    && Bracket(s, o.ids, LeafPlace(o, y, onLeft), LeafPlace(o, y, onLeft), key)
    && Moved(HangStore(s, y, onLeft, id, key, val), HangOrder(o, LeafPlace(o, y, onLeft), onLeft, id), t, u, cur, c)
    && (AvlBut(s, 0, 0) ==>
          AvlBut(t, s.nodes[cur].parent, s.nodes[cur].parent) && HeightOf(s, cur) <= HeightOf(t, c) <= HeightOf(s,
              cur) + 1)
  }

  /** A new leaf disturbs the balance of its parent alone, and by at most one. */
  lemma HangAvl(s: Store, o: Order, y: nat, onLeft: bool, id: nat, key: int, val: int)
    requires CanHang(s, o, y, onLeft, id) && AvlBut(s, 0, 0)
    ensures var t := HangStore(s, y, onLeft, id, key, val);
      && AvlBut(t, y, s.nodes[y].parent) && -1 <= Balance(t, y) <= 1 && t.nodes[y].parent == s.nodes[y].parent
      && HeightOf(s, y) <= UpdatedHeight(t, y) <= HeightOf(s, y) + 1
  {
    hide Linked, NodeOk;
    var t := HangStore(s, y, onLeft, id, key, val);
    LinkedKeys(s, o);
    SideChildren(s, o, y);
    assert AvlAt(s, y);
    HeightsPositive(s, o, s.nodes[y].left);
    HeightsPositive(s, o, s.nodes[y].right);
    forall x | x in t.nodes && x != y && x != s.nodes[y].parent ensures AvlAt(t, x) {
      if x != id {
        assert AvlAt(s, x);
        SideChildren(s, o, x);
      }
    }
  }

  /** After the leaf is hung below cur itself and cur is rebalanced. */
  lemma GrewBase(s: Store, o: Order, t: Store, u: Order, c: nat, y: nat, onLeft: bool, id: nat, key: int, val: int)
    requires CanHang(s, o, y, onLeft, id)
    requires y in o.spans && LeafPlace(o, y, onLeft) <= |o.ids|
    requires Bracket(s, o.ids, LeafPlace(o, y, onLeft), LeafPlace(o, y, onLeft), key)
    requires Moved(HangStore(s, y, onLeft, id, key, val), HangOrder(o, LeafPlace(o, y, onLeft), onLeft, id), t, u, y, c)
    requires AvlBut(s, 0, 0) ==> AvlBut(t, s.nodes[y].parent, s.nodes[y].parent)
    requires AvlBut(s, 0, 0) ==> HeightOf(t, c) == UpdatedHeight(HangStore(s, y, onLeft, id, key, val), y)
    ensures Grew(s, o, t, u, y, c, y, onLeft, id, key, val)
  {
    hide Linked, NodeOk, Bracket, HangStore, HangOrder, AvlBut, UpdatedHeight;
    if AvlBut(s, 0, 0) {
      HangAvl(s, o, y, onLeft, id, key, val);
    }
    LeafPlaceOk(s, o, y, onLeft);
  }

  /** A node's record and span before, when a leaf was hung outside of it. */
  lemma HungElsewhere(s: Store, o: Order, t: Store, u: Order, cur: nat, c: nat, y: nat, onLeft: bool, id: nat,
      key: int, val: int, x: nat)
    requires Grew(s, o, t, u, cur, c, y, onLeft, id, key, val) && x in s.nodes && !In(o, cur, x)
    ensures x in t.nodes && t.nodes[x] == if x == s.nodes[cur].parent then SlotTo(s.nodes[x], cur, c) else s.nodes[x]
  {
    hide NodeOk;
    var t0, u0 := HangStore(s, y, onLeft, id, key, val), HangOrder(o, LeafPlace(o, y, onLeft), onLeft, id);
    assert NodeOk(s, o, cur);
    assert t0.nodes[x] == s.nodes[x] && t0.nodes[cur].parent == s.nodes[cur].parent;
    SpreadIn(s, o, y, onLeft, id, key, val, cur, x);
    assert !In(u0, cur, x);
  }

  /** Hanging a leaf inside cur moves no other node in or out of cur. */
  lemma SpreadIn(s: Store, o: Order, y: nat, onLeft: bool, id: nat, key: int, val: int, cur: nat, x: nat)
    requires CanHang(s, o, y, onLeft, id) && y in o.spans && LeafPlace(o, y, onLeft) <= |o.ids|
    requires In(o, cur, y) && x in s.nodes && cur in s.nodes
    ensures In(o, cur, x) <==> In(HangOrder(o, LeafPlace(o, y, onLeft), onLeft, id), cur, x)
  {
    assert NodeOk(s, o, cur) && NodeOk(s, o, x) && NodeOk(s, o, y);
    hide NodeOk, Linked;
  }

  lemma Sibling(s: Store, o: Order, p: nat, l: nat, r: nat)
    requires Linked(s, o) && p in s.nodes && l != 0 && r != 0
    requires (s.nodes[p].left == l && s.nodes[p].right == r) || (s.nodes[p].left == r && s.nodes[p].right == l)
    ensures l in s.nodes && r in s.nodes && !In(o, l, r) && r != p
  {
    assert NodeOk(s, o, p);
    assert NodeOk(s, o, r);
    assert NodeOk(s, o, l);
  }

  /** Growth below one child puts a balanced parent at most one further out of balance. */
  lemma GrewReady(s: Store, o: Order, t: Store, u: Order, cur: nat, c: nat, y: nat, onLeft: bool, id: nat, key: int,
      val: int)
    requires Grew(s, o, t, u, cur, c, y, onLeft, id, key, val) && AvlBut(s, 0, 0) && s.nodes[cur].parent != 0
    ensures var p := s.nodes[cur].parent;
      && p in s.nodes && p in t.nodes && t.nodes[p].parent == s.nodes[p].parent
      && -2 <= Balance(t, p) <= 2
      && HeightOf(s, p) <= UpdatedHeight(t, p) <= HeightOf(s, p) + 1
      && (Balance(t, p) < -1 || Balance(t, p) > 1 ==> UpdatedHeight(t, p) == HeightOf(s, p) + 1)
      && AvlBut(t, p, s.nodes[p].parent)
  {
    hide Linked, NodeOk, HangStore, HangOrder, Moved, Bracket, In;
    var p := s.nodes[cur].parent;
    BothSides(s, o, cur);
    LinkedKeys(s, o);
    HungElsewhere(s, o, t, u, cur, c, y, onLeft, id, key, val, p);
    assert AvlAt(s, p);
    var sib := if s.nodes[p].left == cur then s.nodes[p].right else s.nodes[p].left;
    if sib != 0 {
      Sibling(s, o, p, cur, sib);
      HungElsewhere(s, o, t, u, cur, c, y, onLeft, id, key, val, sib);
    } else {
      GrewNull(s, o, t, u, cur, c, y, onLeft, id, key, val);
    }
  }

  lemma GrewNull(s: Store, o: Order, t: Store, u: Order, cur: nat, c: nat, y: nat, onLeft: bool, id: nat, key: int,
      val: int)
    requires Grew(s, o, t, u, cur, c, y, onLeft, id, key, val)
    ensures 0 !in s.nodes && 0 !in t.nodes
  {
  }

  /** Growth below a child, then rebalancing the parent, is growth below the parent. */
  lemma GrewStep(s: Store, o: Order, t: Store, u: Order, w: Store, v: Order, cur: nat, c: nat, e: nat, y: nat,
      onLeft: bool, id: nat, key: int, val: int)
    requires Grew(s, o, t, u, cur, c, y, onLeft, id, key, val) && s.nodes[cur].parent in s.nodes
    requires Moved(t, u, w, v, s.nodes[cur].parent, e)
    requires AvlBut(s, 0, 0) ==> var p := s.nodes[cur].parent;
      AvlBut(w, s.nodes[p].parent, s.nodes[p].parent) && HeightOf(s, p) <= HeightOf(w, e) <= HeightOf(s, p) + 1
    ensures Grew(s, o, w, v, s.nodes[cur].parent, e, y, onLeft, id, key, val)
  {
    hide Linked, NodeOk, HangOrder, Moved, Bracket, AvlBut, In;
    var p := s.nodes[cur].parent;
    LeafPlaceOk(s, o, y, onLeft);
    var t0, u0 := HangStore(s, y, onLeft, id, key, val), HangOrder(o, LeafPlace(o, y, onLeft), onLeft, id);
    assert t0.nodes[cur].parent == p;
    LinkedKeys(s, o);
    MovedTwice(t0, u0, t, u, w, v, cur, c, p, e);
    InParent(s, o, cur, y);
    MovedKeys(t, u, w, v, p, e);
  }

  lemma InParent(s: Store, o: Order, cur: nat, y: nat)
    requires Linked(s, o) && cur in s.nodes && s.nodes[cur].parent != 0 && In(o, cur, y)
    ensures In(o, s.nodes[cur].parent, y)
  {
    ChildInside(s, o, cur);
  }

  lemma MovedKeys(s: Store, o: Order, t: Store, u: Order, p: nat, c: nat)
    requires Moved(s, o, t, u, p, c)
    ensures c in t.nodes && t.nodes.Keys == s.nodes.Keys && u.ids == o.ids && SameEntries(s, t) && Linked(s, o)
    ensures Linked(t, u)
  {
  }

  datatype Pair = Pair(key: int, val: int)

  function EntryOf(s: Store, x: nat): Pair {
    if x in s.nodes then Pair(s.nodes[x].key, s.nodes[x].val) else Pair(0, 0)
  }

  /** The key-value pairs along a sequence of nodes. */
  ghost function Entries(s: Store, ids: seq<nat>): (es: seq<Pair>)
    ensures |es| == |ids| && forall i :: 0 <= i < |ids| ==> es[i] == EntryOf(s, ids[i])
  {
    seq(|ids|, i requires 0 <= i < |ids| => EntryOf(s, ids[i]))
  }

  ghost predicate SortedPairs(es: seq<Pair>) {
    forall i, j :: 0 <= i < j < |es| ==> es[i].key <= es[j].key
  }

  lemma SortedMeans(s: Store, ids: seq<nat>)
    ensures Sorted(s, ids) <==> SortedPairs(Entries(s, ids))
  {
    var es := Entries(s, ids);
    assert forall i :: 0 <= i < |ids| ==> es[i].key == Key(s, ids[i]);
    if SortedPairs(es) {
      forall i, j | 0 <= i < j < |ids| ensures Key(s, ids[i]) <= Key(s, ids[j]) {
        assert es[i].key <= es[j].key;
      }
    }
  }

  lemma SameEntriesSame(s: Store, t: Store, ids: seq<nat>)
    requires SameEntries(s, t)
    ensures Entries(t, ids) == Entries(s, ids)
  {
  }

  /** The new pair goes after every pair with a key no greater: the upper bound of its key. */
  ghost predicate UpperBound(es: seq<Pair>, k: nat, key: int) {
    k <= |es| && (forall i :: 0 <= i < k ==> es[i].key <= key) && (forall i :: k <= i < |es| ==> es[i].key > key)
  }

  lemma HangEntries(s: Store, o: Order, y: nat, onLeft: bool, id: nat, key: int, val: int)
    requires CanHang(s, o, y, onLeft, id) && y in o.spans && LeafPlace(o, y, onLeft) <= |o.ids|
    ensures var k := LeafPlace(o, y, onLeft); var u := HangOrder(o, k, onLeft, id); var es := Entries(s, o.ids);
      Entries(HangStore(s, y, onLeft, id, key, val), u.ids) == es[..k] + [Pair(key, val)] + es[k..]
  {
    var k := LeafPlace(o, y, onLeft);
    var t, u := HangStore(s, y, onLeft, id, key, val), HangOrder(o, k, onLeft, id);
    var es, fs := Entries(s, o.ids), Entries(t, u.ids);
    forall i | 0 <= i < |fs| ensures fs[i] == (es[..k] + [Pair(key, val)] + es[k..])[i] {
      assert u.ids[i] == if i < k then o.ids[i] else if i == k then id else o.ids[i - 1];
    }
  }

  /** Inserting at the upper bound keeps the pairs sorted. */
  lemma UpperBoundSorted(es: seq<Pair>, k: nat, key: int, val: int)
    requires SortedPairs(es) && UpperBound(es, k, key)
    ensures SortedPairs(es[..k] + [Pair(key, val)] + es[k..])
  {
    var fs := es[..k] + [Pair(key, val)] + es[k..];
    forall i, j | 0 <= i < j < |fs| ensures fs[i].key <= fs[j].key {
      assert fs[i] == if i < k then es[i] else if i == k then Pair(key, val) else es[i - 1];
      assert fs[j] == if j < k then es[j] else if j == k then Pair(key, val) else es[j - 1];
    }
  }

  /** Growth of the whole tree adds exactly the new pair, at its upper bound. */
  lemma GrewEntries(s: Store, o: Order, t: Store, u: Order, cur: nat, c: nat, y: nat, onLeft: bool, id: nat,
      key: int, val: int)
    requires Grew(s, o, t, u, cur, c, y, onLeft, id, key, val)
    ensures y in o.spans
    ensures var k, es := LeafPlace(o, y, onLeft), Entries(s, o.ids);
      UpperBound(es, k, key) && Entries(t, u.ids) == es[..k] + [Pair(key, val)] + es[k..]
  {
    hide Linked, NodeOk, HangOrder, HangStore, AvlBut;
    HangEntries(s, o, y, onLeft, id, key, val);
    var k, es := LeafPlace(o, y, onLeft), Entries(s, o.ids);
    forall i | 0 <= i < |es| ensures es[i].key == Key(s, o.ids[i]) {
    }
    SameEntriesSame(HangStore(s, y, onLeft, id, key, val), t, u.ids);
  }

  /** The tree of one node. */
  lemma SingleLinked(id: nat, key: int, val: int)
    requires id != 0
    ensures var s, o := Store(map[id := Rec(key, val, 0, 0, 0, 1)], id), Order([id], map[id := Span(0, 0, 1)]);
      Linked(s, o) && Entries(s, o.ids) == [Pair(key, val)] && AvlBut(s, 0, 0)
  {
  }

  lemma SingleBalance(s: Store, id: nat)
    requires id in s.nodes && id != 0 && s.nodes[id] == Rec(s.nodes[id].key, s.nodes[id].val, 0, 0, 0, 1)
    requires 0 !in s.nodes
    requires AvlBut(s, 0, 0)
    ensures AvlBut(s, id, s.nodes[id].parent) && Balance(s, id) == 0
  {
  }

  lemma EmptyEntries(s: Store, o: Order)
    requires Linked(s, o)
    ensures s.root == 0 ==> o.ids == [] && Entries(s, o.ids) == []
    ensures s.root != 0 ==> s.root in s.nodes && s.root in o.spans && s.nodes[s.root].parent == 0
    ensures s.root != 0 ==> o.spans[s.root].lo == 0 && o.spans[s.root].hi == |o.ids|
  {
  }

  lemma GrewWhole(s: Store, o: Order, t: Store, u: Order, cur: nat, c: nat, y: nat, onLeft: bool, id: nat, key: int,
      val: int)
    requires Grew(s, o, t, u, cur, c, y, onLeft, id, key, val) && s.nodes[cur].parent == 0
    ensures (AvlBut(s, 0, 0) ==> AvlBut(t, 0, 0)) && |u.ids| == |o.ids| + 1
  {
    hide Linked, NodeOk, In, Bracket;
  }
}
