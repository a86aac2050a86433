/** Rebalancing: stored heights are exact and balances stay within one, as conditions on each node. */
module AvlBalance {
  import opened TreeLinks

  /** The node's stored height is exact for its children's and its balance is in -1..1. */
  ghost predicate AvlAt(s: Store, x: nat) {
    x in s.nodes && s.nodes[x].height == UpdatedHeight(s, x) && -1 <= Balance(s, x) <= 1
  }

  ghost predicate AvlBut(s: Store, p: nat, q: nat) {
    forall x {:trigger AvlAt(s, x)} :: x in s.nodes && x != p && x != q ==> AvlAt(s, x)
  }

  /** A right rotation with its height updates, record by record. */
  lemma RotateRightRec(s: Store, o: Order, p: nat, x: nat)
    requires Linked(s, o) && p in s.nodes && s.nodes[p].left != 0 && x in s.nodes
    ensures s.nodes[p].left in s.nodes
    ensures var l := s.nodes[p].left; var t := RotateRight(s, p);
      && x in t.nodes
      && (x != p && x != l ==> t.nodes[x] == RightRec(s, p, x))
      && (x == p ==> t.nodes[p] == RightRec(s, p, p).(height := 1 + Max(HeightOf(s, s.nodes[l].right), HeightOf(s, s.nodes[p].right))))
      && (x == l ==> t.nodes[l] == RightRec(s, p, l).(height := 1 + Max(HeightOf(s, s.nodes[l].left), t.nodes[p].height)))
  {
    hide NodeOk, TurnRight;
    RightParts(s, o, p);
    TurnRightIs(s, o, p);
    var t, l, r := TurnRight(s, p), s.nodes[p].left, s.nodes[p].right;
    assert t.nodes[p] == RightRec(s, p, p) && t.nodes[l] == RightRec(s, p, l) && t.nodes[x] == RightRec(s, p, x);
    var lr, ll := s.nodes[l].right, s.nodes[l].left;
    SideChildren(s, o, p);
    SideChildren(s, o, l);
    KeepsHeight(s, t, p, lr);
    KeepsHeight(s, t, p, ll);
    KeepsHeight(s, t, p, r);
  }

  lemma KeepsHeight(s: Store, t: Store, p: nat, c: nat)
    requires TurnedRight(s, t, p)
    ensures HeightOf(t, c) == HeightOf(s, c)
  {
    if c in s.nodes {
      assert t.nodes[c] == RightRec(s, p, c);
    }
  }

  /** A node's children are different nodes below it. */
  lemma SideChildren(s: Store, o: Order, p: nat)
    requires Linked(s, o) && p in s.nodes
    ensures var l, r, q := s.nodes[p].left, s.nodes[p].right, s.nodes[p].parent;
      && (l != 0 ==> l in s.nodes && s.nodes[l].parent == p && l != p && l != q && l != r)
      && (r != 0 ==> r in s.nodes && s.nodes[r].parent == p && r != p && r != q)
      && 0 !in s.nodes && p != q
  {
    assert NodeOk(s, o, p);
    var l, r, q := s.nodes[p].left, s.nodes[p].right, s.nodes[p].parent;
    if l != 0 {
      assert NodeOk(s, o, l);
    }
    if r != 0 {
      assert NodeOk(s, o, r);
    }
    if q != 0 {
      assert NodeOk(s, o, q);
    }
  }

  /** Away from the rotated pair and the parent, nothing about heights changes. */
  lemma RightOthers(s: Store, o: Order, p: nat, x: nat)
    requires Linked(s, o) && p in s.nodes && s.nodes[p].left != 0 && x in s.nodes
    requires x != p && x != s.nodes[p].left
    ensures s.nodes[p].left in s.nodes && HeightOf(RotateRight(s, p), x) == HeightOf(s, x)
    ensures x != s.nodes[p].parent && AvlAt(s, x) ==> AvlAt(RotateRight(s, p), x)
  {
    hide NodeOk, RotateRight, Linked;
    RotateRightRec(s, o, p, x);
    SideChildren(s, o, x);
    SideChildren(s, o, p);
    var l, r := s.nodes[x].left, s.nodes[x].right;
    if x != s.nodes[p].parent {
      if l != 0 {
        RotateRightRec(s, o, p, l);
      }
      if r != 0 {
        RotateRightRec(s, o, p, r);
      }
      RotateRightKeys(s, o, p);
    }
  }

  lemma RotateRightKeys(s: Store, o: Order, p: nat)
    requires Linked(s, o) && p in s.nodes && s.nodes[p].left != 0
    ensures s.nodes[p].left in s.nodes && RotateRight(s, p).nodes.Keys == s.nodes.Keys && 0 !in s.nodes
  {
    RotateRightLinked(s, o, p);
  }

  /** The heights of the rotated pair. */
  lemma RightPair(s: Store, o: Order, p: nat)
    requires Linked(s, o) && p in s.nodes && s.nodes[p].left != 0
    ensures s.nodes[p].left in s.nodes
    ensures var l, r := s.nodes[p].left, s.nodes[p].right;
      var ll, lr, t := s.nodes[l].left, s.nodes[l].right, RotateRight(s, p);
      var hp := 1 + Max(HeightOf(s, lr), HeightOf(s, r));
      && p in t.nodes && l in t.nodes && t.nodes[l].left == ll && t.nodes[l].right == p
      && t.nodes[p].left == lr && t.nodes[p].right == r
      && t.nodes[p].height == hp == UpdatedHeight(t, p) && Balance(t, p) == HeightOf(s, lr) - HeightOf(s, r)
      && t.nodes[l].height == 1 + Max(HeightOf(s, ll), hp) == UpdatedHeight(t, l) && Balance(t, l) == HeightOf(s,
          ll) - hp
  {
    hide NodeOk, RotateRight;
    RotateRightRec(s, o, p, p);
    var l, r := s.nodes[p].left, s.nodes[p].right;
    RotateRightRec(s, o, p, l);
    SideChildren(s, o, p);
    SideChildren(s, o, l);
    var ll, lr := s.nodes[l].left, s.nodes[l].right;
    if r != 0 {
      RightOthers(s, o, p, r);
    }
    if ll != 0 {
      RightOthers(s, o, p, ll);
    }
    if lr != 0 {
      RightOthers(s, o, p, lr);
    }
    RotateRightKeys(s, o, p);
  }

  lemma MirrorAvl(s: Store, x: nat)
    ensures HeightOf(Mirror(s), x) == HeightOf(s, x)
    ensures AvlAt(Mirror(s), x) <==> AvlAt(s, x)
    ensures x in s.nodes ==> x in Mirror(s).nodes && Mirror(s).nodes[x] == Flip(s.nodes[x])
  {
    if x in s.nodes {
      MirrorHeights(s, x);
    }
  }

  lemma LeftOthers(s: Store, o: Order, p: nat, x: nat)
    requires Linked(s, o) && p in s.nodes && s.nodes[p].right != 0 && x in s.nodes
    requires x != p && x != s.nodes[p].right
    ensures s.nodes[p].right in s.nodes && HeightOf(RotateLeft(s, p), x) == HeightOf(s, x)
    ensures x != s.nodes[p].parent && AvlAt(s, x) ==> AvlAt(RotateLeft(s, p), x)
  {
    hide Linked, NodeOk, RotateRight, RotateLeft, AvlAt, HeightOf, MirrorOrder, Mirror;
    var m, n := Mirror(s), MirrorOf(s, o);
    MirrorAvl(s, x);
    MirrorAvl(s, p);
    RotateLeftMirrors(s, o, p);
    RightOthers(m, n, p, x);
    MirrorAvl(RotateRight(m, p), x);
  }

  /** The mirrored order of a well-linked tree. */
  ghost function MirrorOf(s: Store, o: Order): (n: Order)
    requires Linked(s, o)
    ensures Linked(Mirror(s), n)
  {
    MirrorLinked(s, o);
    MirrorOrder(o)
  }

  lemma LeftPair(s: Store, o: Order, p: nat)
    requires Linked(s, o) && p in s.nodes && s.nodes[p].right != 0
    ensures s.nodes[p].right in s.nodes
    ensures var l, r := s.nodes[p].left, s.nodes[p].right;
      var rl, rr, t := s.nodes[r].left, s.nodes[r].right, RotateLeft(s, p);
      var hp := 1 + Max(HeightOf(s, l), HeightOf(s, rl));
      && p in t.nodes && r in t.nodes && t.nodes[r].left == p && t.nodes[r].right == rr
      && t.nodes[p].left == l && t.nodes[p].right == rl
      && t.nodes[p].height == hp == UpdatedHeight(t, p) && Balance(t, p) == HeightOf(s, l) - HeightOf(s, rl)
      && t.nodes[r].height == 1 + Max(hp, HeightOf(s, rr)) == UpdatedHeight(t, r) && Balance(t,
          r) == hp - HeightOf(s, rr)
  {
    hide Linked, NodeOk, RotateRight, RotateLeft, HeightOf, MirrorOrder, Mirror, UpdatedHeight, Balance;
    var m, n := Mirror(s), MirrorOf(s, o);
    SideChildren(s, o, p);
    var l, r := s.nodes[p].left, s.nodes[p].right;
    MirrorAvl(s, p);
    MirrorAvl(s, r);
    MirrorAvl(s, l);
    MirrorAvl(s, s.nodes[r].left);
    MirrorAvl(s, s.nodes[r].right);
    RotateLeftMirrors(s, o, p);
    RightPair(m, n, p);
    var t := RotateRight(m, p);
    MirrorAvl(t, p);
    MirrorAvl(t, r);
    MirrorHeights(t, p);
    MirrorHeights(t, r);
  }

  /** Single rotation on the left-heavy side. */
  lemma SingleRight(s: Store, o: Order, p: nat)
    requires Linked(s, o) && p in s.nodes && AvlBut(s, p, s.nodes[p].parent) && Balance(s, p) == 2
    requires s.nodes[p].left != 0
    requires s.nodes[p].left in s.nodes && Balance(s, s.nodes[p].left) >= 0
    ensures var l := s.nodes[p].left; var t := RotateRight(s, p);
      && AvlBut(t, s.nodes[p].parent, s.nodes[p].parent)
      && HeightOf(s, l) <= HeightOf(t, l) <= HeightOf(s, l) + 1
  {
    hide Linked, NodeOk, RotateRight;
    var l := s.nodes[p].left;
    var t := RotateRight(s, p);
    SideChildren(s, o, p);
    RightPair(s, o, p);
    RotateRightKeys(s, o, p);
    assert AvlAt(s, l);
    forall x | x in t.nodes && x != s.nodes[p].parent ensures AvlAt(t, x) {
      if x != p && x != l {
        assert AvlAt(s, x);
        RightOthers(s, o, p, x);
      }
    }
  }

  lemma HeightsPositive(s: Store, o: Order, x: nat)
    requires Linked(s, o)
    ensures HeightOf(s, x) >= 0 && (x in s.nodes ==> HeightOf(s, x) >= 1) && 0 !in s.nodes
  {
    if x in s.nodes {
      assert NodeOk(s, o, x);
    }
  }

  lemma InnerGrandchild(s: Store, o: Order, p: nat)
    requires Linked(s, o) && p in s.nodes && s.nodes[p].left in s.nodes && s.nodes[s.nodes[p].left].right in s.nodes
    ensures var m := s.nodes[s.nodes[p].left].right; m != p && m != s.nodes[p].parent
  {
    RightParts(s, o, p);
  }

  lemma DoubleInner(s: Store, o: Order, p: nat)
    requires Linked(s, o) && p in s.nodes && AvlBut(s, p, s.nodes[p].parent) && Balance(s, p) == 2
    requires s.nodes[p].left != 0
    requires s.nodes[p].left in s.nodes && Balance(s, s.nodes[p].left) < 0
    ensures var l := s.nodes[p].left;
      && s.nodes[l].right != 0 && s.nodes[l].right in s.nodes
      && (var m, t := s.nodes[l].right, RotateLeft(s, l);
          && Linked(t, OrderLeft(s, o, l)) && t.nodes.Keys == s.nodes.Keys
          && t.nodes[p] == s.nodes[p].(left := m) && m != p && m != l && l != p
          && t.nodes[m].left == l && t.nodes[m].right == s.nodes[m].right
          && AvlBut3(t, p, m, s.nodes[p].parent) && AvlAt(t, l)
          && HeightOf(t, l) == HeightOf(s, l) - 1 && HeightOf(t, s.nodes[m].right) == HeightOf(s, s.nodes[m].right)
          && HeightOf(t, s.nodes[p].right) == HeightOf(s, s.nodes[p].right) == HeightOf(s, l) - 2
          && HeightOf(s, l) - 3 <= HeightOf(s, s.nodes[m].right) <= HeightOf(s, l) - 2)
  {
    hide Linked, NodeOk, RotateLeft, In;
    var l := s.nodes[p].left;
    SideChildren(s, o, p);
    SideChildren(s, o, l);
    assert AvlAt(s, l);
    var m := s.nodes[l].right;
    HeightsPositive(s, o, s.nodes[l].left);
    HeightsPositive(s, o, m);
    InnerGrandchild(s, o, p);
    SideChildren(s, o, m);
    assert AvlAt(s, m);
    RotateLeftMoved(s, o, l);
    BothSides(s, o, l);
    LeftPair(s, o, l);
    var t := RotateLeft(s, l);
    assert !In(o, l, p);
    forall x | x in t.nodes && x != p && x != m && x != s.nodes[p].parent ensures AvlAt(t, x) {
      assert AvlAt(s, x);
      if x != l {
        LeftOthers(s, o, l, x);
      }
    }
    if s.nodes[m].right != 0 {
      LeftOthers(s, o, l, s.nodes[m].right);
    }
    if s.nodes[p].right != 0 {
      LeftOthers(s, o, l, s.nodes[p].right);
    }
  }

  ghost predicate AvlBut3(s: Store, p: nat, m: nat, q: nat) {
    forall x {:trigger AvlAt(s, x)} :: x in s.nodes && x != p && x != m && x != q ==> AvlAt(s, x)
  }

  /** Double rotation on the left-heavy side. */
  lemma DoubleRight(s: Store, o: Order, p: nat)
    requires Linked(s, o) && p in s.nodes && AvlBut(s, p, s.nodes[p].parent) && Balance(s, p) == 2
    requires s.nodes[p].left != 0
    requires s.nodes[p].left in s.nodes && Balance(s, s.nodes[p].left) < 0 && s.nodes[s.nodes[p].left].right in s.nodes
    ensures var l := s.nodes[p].left; var m := s.nodes[l].right; var u := RotateLeft(s, l);
      && p in u.nodes && u.nodes[p].left == m && m in u.nodes
      && AvlBut(RotateRight(u, p), s.nodes[p].parent, s.nodes[p].parent)
      && HeightOf(RotateRight(u, p), m) == HeightOf(s, l)
  {
    hide Linked, NodeOk, RotateLeft, RotateRight;
    var l := s.nodes[p].left;
    DoubleInner(s, o, p);
    var m, u := s.nodes[l].right, RotateLeft(s, l);
    var n := OrderLeft(s, o, l);
    SideChildren(u, n, p);
    RightPair(u, n, p);
    RotateRightKeys(u, n, p);
    var t := RotateRight(u, p);
    forall x | x in t.nodes && x != s.nodes[p].parent ensures AvlAt(t, x) {
      if x != p && x != m {
        assert AvlAt(u, x);
        RightOthers(u, n, p, x);
      }
    }
  }

  lemma MirrorAvlBut(s: Store, p: nat, q: nat)
    requires AvlBut(s, p, q)
    ensures AvlBut(Mirror(s), p, q)
  {
    forall x | x in Mirror(s).nodes && x != p && x != q ensures AvlAt(Mirror(s), x) {
      MirrorAvl(s, x);
      assert AvlAt(s, x);
    }
  }

  /** Single rotation on the right-heavy side. */
  lemma SingleLeft(s: Store, o: Order, p: nat)
    requires Linked(s, o) && p in s.nodes && AvlBut(s, p, s.nodes[p].parent) && Balance(s, p) == -2
    requires s.nodes[p].right != 0
    requires s.nodes[p].right in s.nodes && Balance(s, s.nodes[p].right) <= 0
    ensures var r := s.nodes[p].right; var t := RotateLeft(s, p);
      && AvlBut(t, s.nodes[p].parent, s.nodes[p].parent)
      && HeightOf(s, r) <= HeightOf(t, r) <= HeightOf(s, r) + 1
  {
    hide Linked, NodeOk, RotateLeft, RotateRight, AvlBut, Mirror, HeightOf, Balance;
    var m, n, r := Mirror(s), MirrorOf(s, o), s.nodes[p].right;
    MirrorAvlBut(s, p, s.nodes[p].parent);
    MirrorHeights(s, p);
    MirrorHeights(s, r);
    MirrorAvl(s, p);
    MirrorAvl(s, r);
    RotateLeftMirrors(s, o, p);
    SingleRight(m, n, p);
    MirrorAvlBut(RotateRight(m, p), s.nodes[p].parent, s.nodes[p].parent);
    MirrorAvl(RotateRight(m, p), r);
  }

  /** Double rotation on the right-heavy side. */
  lemma DoubleLeft(s: Store, o: Order, p: nat)
    requires Linked(s, o) && p in s.nodes && AvlBut(s, p, s.nodes[p].parent) && Balance(s, p) == -2
    requires s.nodes[p].right != 0
    requires s.nodes[p].right in s.nodes && Balance(s, s.nodes[p].right) > 0
    requires s.nodes[s.nodes[p].right].left in s.nodes
    ensures var r := s.nodes[p].right; var c := s.nodes[r].left; var u := RotateRight(s, r);
      && p in u.nodes && u.nodes[p].right == c && c in u.nodes
      && AvlBut(RotateLeft(u, p), s.nodes[p].parent, s.nodes[p].parent)
      && HeightOf(RotateLeft(u, p), c) == HeightOf(s, r)
  {
    hide Linked, NodeOk, RotateLeft, RotateRight, AvlBut, Mirror, HeightOf, Balance;
    var m, n, r := Mirror(s), MirrorOf(s, o), s.nodes[p].right;
    var c := s.nodes[r].left;
    SideChildren(s, o, r);
    MirrorAvlBut(s, p, s.nodes[p].parent);
    MirrorHeights(s, p);
    MirrorHeights(s, r);
    MirrorAvl(s, p);
    MirrorAvl(s, r);
    MirrorAvl(s, c);
    DoubleRight(m, n, p);
    RotateLeftMirrors(m, n, r);
    MirrorMirror(s);
    RotateRightLinked(s, o, r);
    var u := RotateRight(s, r);
    assert RotateLeft(m, r) == Mirror(u);
    MirrorAvl(u, p);
    MirrorAvl(u, c);
    RotateRightKeys(s, o, r);
    SideChildren(u, OrderRight(s, o, r), p);
    RotateLeftMirrors(u, OrderRight(s, o, r), p);
    MirrorAvlBut(RotateRight(Mirror(u), p), s.nodes[p].parent, s.nodes[p].parent);
    MirrorAvl(RotateRight(Mirror(u), p), c);
  }

  lemma UpdateHeightMoved(s: Store, o: Order, p: nat)
    requires Linked(s, o) && p in s.nodes
    ensures Moved(s, o, UpdateHeight(s, p), o, p, p)
  {
    hide Linked, NodeOk;
    UpdateHeightLinked(s, o, p);
    LinkedKeys(s, o);
    SelfIn(s, o, p);
    if s.nodes[p].parent != 0 {
      BothSides(s, o, p);
    }
  }

  lemma SelfIn(s: Store, o: Order, p: nat)
    requires Linked(s, o) && p in s.nodes
    ensures In(o, p, p) && (s.nodes[p].parent == 0 <==> p == s.root)
  {
    assert NodeOk(s, o, p);
  }

  lemma UpdateHeightAvl(s: Store, o: Order, p: nat)
    requires Linked(s, o) && p in s.nodes && AvlBut(s, p, s.nodes[p].parent)
    ensures AvlBut(UpdateHeight(s, p), p, s.nodes[p].parent)
    ensures Balance(UpdateHeight(s, p), p) == Balance(s, p)
  {
    hide Linked, NodeOk;
    var t := UpdateHeight(s, p);
    SideChildren(s, o, p);
    forall x | x in t.nodes && x != p && x != s.nodes[p].parent ensures AvlAt(t, x) {
      assert AvlAt(s, x);
      SideChildren(s, o, x);
    }
  }

  /** Two rearrangements of the same subtree make one. */
  lemma MovedChain(s: Store, o: Order, t: Store, u: Order, w: Store, v: Order, p: nat, b: nat, c: nat)
    requires Moved(s, o, t, u, p, b) && Moved(t, u, w, v, b, c)
    ensures Moved(s, o, w, v, p, c)
  {
    hide Linked, NodeOk;
    LinkedKeys(s, o);
    LinkedKeys(t, u);
    LinkedKeys(w, v);
    var q := s.nodes[p].parent;
    forall x | x in s.nodes && !In(o, p, x)
      ensures v.spans[x] == o.spans[x]
      ensures w.nodes[x] == if x == q then SlotTo(s.nodes[x], p, c) else s.nodes[x]
    {
      assert !In(u, b, x);
      if x == q {
        BothSides(s, o, p);
        BothSides(t, u, b);
      }
    }
  }
}
