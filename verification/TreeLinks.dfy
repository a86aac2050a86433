/** Binary search tree nodes with parent pointers in one store. Well-linkedness is stated node by node: every node
covers an interval of the in-order sequence, and its children cover the parts left and right of it. */
module TreeLinks {

  /** A node record; 0 is the null pointer. */
  datatype Rec = Rec(key: int, val: int, parent: nat, left: nat, right: nat, height: int)

  datatype Store = Store(nodes: map<nat, Rec>, root: nat)

  datatype Span = Span(lo: nat, pos: nat, hi: nat)

  /** The in-order sequence of node ids, and the interval of it below each node. */
  datatype Order = Order(ids: seq<nat>, spans: map<nat, Span>)

  function HeightOf(s: Store, p: nat): int {
    if p in s.nodes then s.nodes[p].height else 0
  }

  ghost predicate Spanned(s: Store, o: Order, p: nat)
    requires p in s.nodes && p in o.spans
  {
    var g := o.spans[p];
    g.lo <= g.pos < g.hi <= |o.ids| && o.ids[g.pos] == p
  }

  ghost predicate LeftOk(s: Store, o: Order, p: nat)
    requires p in s.nodes && p in o.spans
  {
    var l, g := s.nodes[p].left, o.spans[p];
    if l == 0 then g.lo == g.pos
    else l in s.nodes && l in o.spans && s.nodes[l].parent == p && o.spans[l].lo == g.lo && o.spans[l].hi == g.pos
  }

  ghost predicate RightOk(s: Store, o: Order, p: nat)
    requires p in s.nodes && p in o.spans
  {
    var r, g := s.nodes[p].right, o.spans[p];
    if r == 0 then g.pos + 1 == g.hi
    else r in s.nodes && r in o.spans && s.nodes[r].parent == p && o.spans[r].lo == g.pos + 1 && o.spans[r].hi == g.hi
  }

  ghost predicate ParentOk(s: Store, p: nat)
    requires p in s.nodes
  {
    var q := s.nodes[p].parent;
    if q == 0 then p == s.root
    else q in s.nodes && (s.nodes[q].left == p || s.nodes[q].right == p)
  }

  ghost predicate NodeOk(s: Store, o: Order, p: nat)
    requires p in s.nodes && p in o.spans
  {
    Spanned(s, o, p) && LeftOk(s, o, p) && RightOk(s, o, p) && ParentOk(s, p) && s.nodes[p].height >= 1
  }

  /** Parent links are inverse to child links and the tree's in-order sequence is `o.ids`. */
  ghost predicate Linked(s: Store, o: Order) {
    && 0 !in s.nodes && s.nodes.Keys == o.spans.Keys
    && (forall p {:trigger NodeOk(s, o, p)} :: p in s.nodes ==> NodeOk(s, o, p))
    && (forall i :: 0 <= i < |o.ids| ==> o.ids[i] in s.nodes && o.spans[o.ids[i]].pos == i)
    && (if s.root == 0 then s.nodes == map[] && o.ids == []
        else s.root in s.nodes && s.nodes[s.root].parent == 0
             && o.spans[s.root].lo == 0 && o.spans[s.root].hi == |o.ids|)
  }

  function Max(a: int, b: int): int {
    if a > b then a else b
  }

  function UpdatedHeight(s: Store, p: nat): int
    requires p in s.nodes
  {
    1 + Max(HeightOf(s, s.nodes[p].left), HeightOf(s, s.nodes[p].right))
  }

  function Balance(s: Store, p: nat): int
    requires p in s.nodes
  {
    HeightOf(s, s.nodes[p].left) - HeightOf(s, s.nodes[p].right)
  }

  function UpdateHeight(s: Store, p: nat): Store
    requires p in s.nodes
  {
    s.(nodes := s.nodes[p := s.nodes[p].(height := UpdatedHeight(s, p))])
  }

  /** Hangs `c` where `p` hung below `q`, or at the root. */
  function Rehang(s: Store, q: nat, p: nat, c: nat): Store {
    if q in s.nodes then
      if s.nodes[q].left == p then s.(nodes := s.nodes[q := s.nodes[q].(left := c)])
      else s.(nodes := s.nodes[q := s.nodes[q].(right := c)])
    else s.(root := c)
  }

  /** The pointer writes of a right rotation, before heights are updated. */
  function TurnRight(s: Store, p: nat): Store
    requires p in s.nodes && s.nodes[p].left in s.nodes
  {
    var q, l := s.nodes[p].parent, s.nodes[p].left;
    var lr := s.nodes[l].right;
    var s1 := s.(nodes := s.nodes[l := s.nodes[l].(right := p, parent := q)]);
    var s2 := s1.(nodes := s1.nodes[p := s.nodes[p].(left := lr, parent := l)]);
    var s3 := if lr in s2.nodes then s2.(nodes := s2.nodes[lr := s2.nodes[lr].(parent := p)]) else s2;
    Rehang(s3, q, p, l)
  }

  /** The intervals after a right rotation. */
  ghost function OrderRight(s: Store, o: Order, p: nat): Order
    requires p in s.nodes && s.nodes[p].left in s.nodes && p in o.spans && s.nodes[p].left in o.spans
  {
    var l := s.nodes[p].left;
    var g, h := o.spans[p], o.spans[l];
    o.(spans := o.spans[p := Span(h.pos + 1, g.pos, g.hi)][l := Span(g.lo, h.pos, g.hi)])
  }

  /** The four nodes a right rotation touches are different. */
  lemma RightParts(s: Store, o: Order, p: nat)
    requires Linked(s, o) && p in s.nodes && s.nodes[p].left != 0
    ensures var q, l := s.nodes[p].parent, s.nodes[p].left;
      && l in s.nodes && l in o.spans && l != p && l != q && p != q && s.nodes[l].parent == p
      && o.spans[l].lo == o.spans[p].lo && o.spans[l].hi == o.spans[p].pos
      && (s.nodes[l].right != 0 ==>
            s.nodes[l].right in s.nodes && s.nodes[l].right !in {p, q, l} && s.nodes[s.nodes[l].right].parent == l)
      && (q != 0 ==> q in s.nodes && (s.nodes[q].left == p <==> s.nodes[q].right != p))
  {
    assert NodeOk(s, o, p);
    var q, l := s.nodes[p].parent, s.nodes[p].left;
    assert NodeOk(s, o, l);
    if q != 0 {
      assert NodeOk(s, o, q);
    }
    var lr := s.nodes[l].right;
    if lr != 0 {
      assert NodeOk(s, o, lr);
    }
  }

  /** A right rotation, record by record. */
  lemma TurnRightAt(s: Store, o: Order, p: nat, x: nat)
    requires Linked(s, o) && p in s.nodes && s.nodes[p].left != 0 && x in s.nodes
    ensures s.nodes[p].left in s.nodes
    ensures var q, l := s.nodes[p].parent, s.nodes[p].left;
      var lr, n := s.nodes[l].right, s.nodes[x];
      TurnRight(s, p).nodes.Keys == s.nodes.Keys && TurnRight(s, p).nodes[x] ==
        if x == l then n.(right := p, parent := q)
        else if x == p then n.(left := lr, parent := l)
        else if x == lr then n.(parent := p)
        else if x == q then (if n.left == p then n.(left := l) else n.(right := l))
        else n
  {
    RightParts(s, o, p);
  }

  ghost function RightRec(s: Store, p: nat, y: nat): Rec
    requires y in s.nodes && p in s.nodes && s.nodes[p].left in s.nodes
  {
    var q, l := s.nodes[p].parent, s.nodes[p].left;
    var lr, n := s.nodes[l].right, s.nodes[y];
    if y == l then n.(right := p, parent := q)
    else if y == p then n.(left := lr, parent := l)
    else if y == lr then n.(parent := p)
    else if y == q then (if n.left == p then n.(left := l) else n.(right := l))
    else n
  }

  /** t is s with p rotated to the right, heights aside. */
  ghost predicate TurnedRight(s: Store, t: Store, p: nat) {
    && p in s.nodes && s.nodes[p].left in s.nodes && t.nodes.Keys == s.nodes.Keys
    && (forall y {:trigger RightRec(s, p, y)} :: y in s.nodes ==> t.nodes[y] == RightRec(s, p, y))
    && t.root == (if s.nodes[p].parent == 0 then s.nodes[p].left else s.root)
  }

  lemma TurnRightIs(s: Store, o: Order, p: nat)
    requires Linked(s, o) && p in s.nodes && s.nodes[p].left != 0
    ensures s.nodes[p].left in s.nodes && TurnedRight(s, TurnRight(s, p), p)
  {
    RightParts(s, o, p);
    forall y | y in s.nodes ensures TurnRight(s, p).nodes[y] == RightRec(s, p, y) {
      TurnRightAt(s, o, p, y);
    }
    TurnRightAt(s, o, p, p);
  }

  lemma RightLeftOk(s: Store, t: Store, o: Order, p: nat, x: nat)
    requires Linked(s, o) && s.nodes.Keys == o.spans.Keys && TurnedRight(s, t, p) && x in s.nodes
    ensures LeftOk(t, OrderRight(s, o, p), x)
  {
    RightParts(s, o, p);
    var l := s.nodes[p].left;
    assert NodeOk(s, o, x) && NodeOk(s, o, p) && NodeOk(s, o, l);
    var c := t.nodes[x].left;
    assert t.nodes[x] == RightRec(s, p, x);
    if c != 0 {
      assert c in s.nodes ==> t.nodes[c] == RightRec(s, p, c);
    }
  }

  lemma RightRightOk(s: Store, t: Store, o: Order, p: nat, x: nat)
    requires Linked(s, o) && s.nodes.Keys == o.spans.Keys && TurnedRight(s, t, p) && x in s.nodes
    ensures RightOk(t, OrderRight(s, o, p), x)
  {
    RightParts(s, o, p);
    var l := s.nodes[p].left;
    assert NodeOk(s, o, x) && NodeOk(s, o, p) && NodeOk(s, o, l);
    var c := t.nodes[x].right;
    assert t.nodes[x] == RightRec(s, p, x);
    if c != 0 {
      assert c in s.nodes ==> t.nodes[c] == RightRec(s, p, c);
    }
  }

  lemma RightParentOk(s: Store, t: Store, o: Order, p: nat, x: nat)
    requires Linked(s, o) && TurnedRight(s, t, p) && x in s.nodes
    ensures ParentOk(t, x)
  {
    RightParts(s, o, p);
    var l := s.nodes[p].left;
    assert NodeOk(s, o, x) && NodeOk(s, o, p) && NodeOk(s, o, l);
    var c := t.nodes[x].parent;
    assert t.nodes[x] == RightRec(s, p, x);
    if c != 0 {
      assert c in s.nodes ==> t.nodes[c] == RightRec(s, p, c);
    }
  }

  lemma RightNodeOk(s: Store, t: Store, o: Order, p: nat, x: nat)
    requires Linked(s, o) && TurnedRight(s, t, p) && x in s.nodes
    ensures x in t.nodes && x in OrderRight(s, o, p).spans && NodeOk(t, OrderRight(s, o, p), x)
  {
    RightParts(s, o, p);
    assert NodeOk(s, o, x) && NodeOk(s, o, p) && NodeOk(s, o, s.nodes[p].left);
    assert t.nodes[x] == RightRec(s, p, x);
    RightLeftOk(s, t, o, p, x);
    RightRightOk(s, t, o, p, x);
    RightParentOk(s, t, o, p, x);
    hide LeftOk, RightOk, ParentOk;
  }

  /** A right rotation keeps the tree well linked over the same in-order sequence. */
  lemma TurnRightLinked(s: Store, t: Store, o: Order, p: nat)
    requires Linked(s, o) && TurnedRight(s, t, p)
    ensures Linked(t, OrderRight(s, o, p)) && OrderRight(s, o, p).ids == o.ids
  {
    hide NodeOk;
    RightParts(s, o, p);
    RootOnly(s, o, p);
    var l := s.nodes[p].left;
    var u := OrderRight(s, o, p);
    forall x | x in t.nodes ensures NodeOk(t, u, x) {
      RightNodeOk(s, t, o, p, x);
    }
    assert t.nodes[l] == RightRec(s, p, l);
    if t.root != 0 {
      assert t.nodes[t.root] == RightRec(s, p, t.root);
    }
  }

  lemma RootOnly(s: Store, o: Order, p: nat)
    requires Linked(s, o) && p in s.nodes
    ensures s.nodes[p].parent == 0 <==> p == s.root
  {
    assert NodeOk(s, o, p);
  }

  function Flip(n: Rec): Rec {
    n.(left := n.right, right := n.left)
  }

  /** The store with left and right exchanged everywhere. */
  function Mirror(s: Store): Store {
    Store(map p | p in s.nodes :: Flip(s.nodes[p]), s.root)
  }

  ghost function Reverse(ids: seq<nat>): (r: seq<nat>)
    ensures |r| == |ids| && forall i :: 0 <= i < |r| ==> r[i] == ids[|ids| - 1 - i]
  {
    seq(|ids|, i requires 0 <= i < |ids| => ids[|ids| - 1 - i])
  }

  ghost predicate Bounded(o: Order) {
    forall p :: p in o.spans ==> o.spans[p].lo <= o.spans[p].pos < o.spans[p].hi <= |o.ids|
  }

  ghost function MirrorOrder(o: Order): Order
    requires Bounded(o)
  {
    var n := |o.ids|;
    Order(Reverse(o.ids), map p | p in o.spans :: Span(n - o.spans[p].hi, n - 1 - o.spans[p].pos, n - o.spans[p].lo))
  }

  lemma LinkedBounded(s: Store, o: Order)
    requires Linked(s, o)
    ensures Bounded(o)
  {
    forall p | p in o.spans ensures o.spans[p].lo <= o.spans[p].pos < o.spans[p].hi <= |o.ids| {
      assert NodeOk(s, o, p);
    }
  }

  /** Exchanging left and right throughout turns a well-linked tree into one with the reversed sequence. */
  lemma MirrorLinked(s: Store, o: Order)
    requires Linked(s, o)
    ensures Bounded(o) && Linked(Mirror(s), MirrorOrder(o))
  {
    hide NodeOk;
    LinkedBounded(s, o);
    var t, u := Mirror(s), MirrorOrder(o);
    forall p | p in t.nodes ensures NodeOk(t, u, p) {
      MirrorNode(s, o, p);
    }
  }

  lemma MirrorNode(s: Store, o: Order, p: nat)
    requires Linked(s, o) && Bounded(o) && p in s.nodes
    ensures p in Mirror(s).nodes && p in MirrorOrder(o).spans && NodeOk(Mirror(s), MirrorOrder(o), p)
  {
    assert NodeOk(s, o, p);
    var l, r := s.nodes[p].left, s.nodes[p].right;
    if l != 0 {
      assert NodeOk(s, o, l);
    }
    if r != 0 {
      assert NodeOk(s, o, r);
    }
  }

  lemma MirrorTwice(s: Store, o: Order)
    requires Linked(s, o)
    ensures Mirror(Mirror(s)) == s
    ensures Bounded(o) && Bounded(MirrorOrder(o)) && MirrorOrder(MirrorOrder(o)) == o
  {
    LinkedBounded(s, o);
    MirrorLinked(s, o);
    LinkedBounded(Mirror(s), MirrorOrder(o));
    assert Reverse(Reverse(o.ids)) == o.ids;
    assert MirrorOrder(MirrorOrder(o)).spans == o.spans;
  }

  /** The pointer writes of a left rotation, before heights are updated. */
  function TurnLeft(s: Store, p: nat): Store
    requires p in s.nodes && s.nodes[p].right in s.nodes
  {
    var q, r := s.nodes[p].parent, s.nodes[p].right;
    var rl := s.nodes[r].left;
    var s1 := s.(nodes := s.nodes[r := s.nodes[r].(left := p, parent := q)]);
    var s2 := s1.(nodes := s1.nodes[p := s.nodes[p].(right := rl, parent := r)]);
    var s3 := if rl in s2.nodes then s2.(nodes := s2.nodes[rl := s2.nodes[rl].(parent := p)]) else s2;
    Rehang(s3, q, p, r)
  }

  /** A left rotation is a right rotation seen in the mirror. */
  lemma TurnLeftMirrors(s: Store, o: Order, p: nat)
    requires Linked(s, o) && p in s.nodes && s.nodes[p].right != 0
    ensures s.nodes[p].right in s.nodes
    ensures p in Mirror(s).nodes && Mirror(s).nodes[p].left in Mirror(s).nodes
    ensures TurnLeft(s, p) == Mirror(TurnRight(Mirror(s), p))
  {
    hide Linked, NodeOk;
    MirrorLinked(s, o);
    LinkedKeys(s, o);
    var t := Mirror(s);
    assert t.nodes[p] == Flip(s.nodes[p]);
    RightParts(t, MirrorOrder(o), p);
    TurnRightIs(t, MirrorOrder(o), p);
    var a, w := TurnLeft(s, p), TurnRight(t, p);
    TurnLeftIs(s, p, w);
    assert Mirror(w).nodes.Keys == a.nodes.Keys;
  }

  lemma TurnLeftIs(s: Store, p: nat, w: Store)
    requires p in s.nodes && s.nodes[p].right in s.nodes && 0 !in s.nodes && p in Mirror(s).nodes
    requires var q, r := s.nodes[p].parent, s.nodes[p].right;
      r != p && r != q && p != q && s.nodes[r].left !in {p, q, r} - {0} && (q != 0 ==> q in s.nodes)
      && (s.nodes[r].left != 0 ==> s.nodes[r].left in s.nodes)
      && (q != 0 ==> (s.nodes[q].left == p <==> s.nodes[q].right != p))
    requires TurnedRight(Mirror(s), w, p)
    ensures TurnLeft(s, p).root == w.root && TurnLeft(s, p).nodes.Keys == w.nodes.Keys
    ensures forall x :: x in w.nodes ==> TurnLeft(s, p).nodes[x] == Flip(w.nodes[x])
  {
    forall x | x in w.nodes ensures TurnLeft(s, p).nodes[x] == Flip(w.nodes[x]) {
      assert w.nodes[x] == RightRec(Mirror(s), p, x);
    }
  }

  function RotateRight(s: Store, p: nat): Store
    requires p in s.nodes && s.nodes[p].left in s.nodes
  {
    UpdateHeight(UpdateHeight(TurnRight(s, p), p), s.nodes[p].left)
  }

  function RotateLeft(s: Store, p: nat): Store
    requires p in s.nodes && s.nodes[p].right in s.nodes
  {
    UpdateHeight(UpdateHeight(TurnLeft(s, p), p), s.nodes[p].right)
  }

  /** The same nodes carry the same keys and values. */
  ghost predicate SameEntries(s: Store, t: Store) {
    t.nodes.Keys == s.nodes.Keys
    && forall x :: x in s.nodes ==> t.nodes[x].key == s.nodes[x].key && t.nodes[x].val == s.nodes[x].val
  }

  lemma UpdateHeightLinked(s: Store, o: Order, p: nat)
    requires Linked(s, o) && p in s.nodes
    ensures Linked(UpdateHeight(s, p), o) && SameEntries(s, UpdateHeight(s, p))
  {
    hide NodeOk;
    var t := UpdateHeight(s, p);
    forall x | x in t.nodes ensures NodeOk(t, o, x) {
      UpdateHeightOk(s, o, p, x);
    }
  }

  lemma UpdateHeightOk(s: Store, o: Order, p: nat, x: nat)
    requires Linked(s, o) && p in s.nodes && x in s.nodes && x in o.spans
    ensures x in UpdateHeight(s, p).nodes && NodeOk(UpdateHeight(s, p), o, x)
  {
    assert NodeOk(s, o, x) && NodeOk(s, o, p);
    var l := s.nodes[p].left;
    if l != 0 {
      assert NodeOk(s, o, l);
    }
  }

  lemma RotateRightLinked(s: Store, o: Order, p: nat)
    requires Linked(s, o) && p in s.nodes && s.nodes[p].left != 0
    ensures s.nodes[p].left in s.nodes && p in o.spans && s.nodes[p].left in o.spans
    ensures Linked(RotateRight(s, p), OrderRight(s, o, p)) && SameEntries(s, RotateRight(s, p))
  {
    hide NodeOk, TurnRight;
    RightParts(s, o, p);
    TurnRightIs(s, o, p);
    var t, u := TurnRight(s, p), OrderRight(s, o, p);
    TurnRightLinked(s, t, o, p);
    UpdateHeightLinked(t, u, p);
    UpdateHeightLinked(UpdateHeight(t, p), u, s.nodes[p].left);
    forall x | x in s.nodes ensures t.nodes[x].key == s.nodes[x].key && t.nodes[x].val == s.nodes[x].val {
      assert t.nodes[x] == RightRec(s, p, x);
    }
  }

  lemma MirrorHeights(s: Store, p: nat)
    requires p in s.nodes
    ensures p in Mirror(s).nodes && UpdateHeight(Mirror(s), p) == Mirror(UpdateHeight(s, p))
    ensures Balance(Mirror(s), p) == -Balance(s, p) && UpdatedHeight(Mirror(s), p) == UpdatedHeight(s, p)
  {
    assert UpdateHeight(Mirror(s), p).nodes == Mirror(UpdateHeight(s, p)).nodes;
  }

  lemma RotateLeftMirrors(s: Store, o: Order, p: nat)
    requires Linked(s, o) && p in s.nodes && s.nodes[p].right != 0
    ensures s.nodes[p].right in s.nodes
    ensures p in Mirror(s).nodes && Mirror(s).nodes[p].left in Mirror(s).nodes
    ensures RotateLeft(s, p) == Mirror(RotateRight(Mirror(s), p))
  {
    hide NodeOk;
    TurnLeftMirrors(s, o, p);
    var m := Mirror(s);
    var t, r := TurnRight(m, p), s.nodes[p].right;
    TurnRightKeys(m, p);
    hide TurnRight, TurnLeft;
    MirrorHeights(t, p);
    MirrorHeights(UpdateHeight(t, p), r);
    MirrorMirror(UpdateHeight(UpdateHeight(t, p), r));
  }

  lemma TurnRightKeys(s: Store, p: nat)
    requires p in s.nodes && s.nodes[p].left in s.nodes
    ensures TurnRight(s, p).nodes.Keys == s.nodes.Keys
  {
  }

  lemma MirrorMirror(s: Store)
    ensures Mirror(Mirror(s)) == s
  {
  }

  /** The order after a left rotation, through the mirror. */
  ghost function OrderLeft(s: Store, o: Order, p: nat): Order
    requires Linked(s, o) && p in s.nodes && s.nodes[p].right != 0
  {
    MirrorLinked(s, o);
    var m, n := Mirror(s), MirrorOrder(o);
    RotateRightLinked(m, n, p);
    LinkedBounded(RotateRight(m, p), OrderRight(m, n, p));
    MirrorOrder(OrderRight(m, n, p))
  }

  lemma RotateLeftLinked(s: Store, o: Order, p: nat)
    requires Linked(s, o) && p in s.nodes && s.nodes[p].right != 0
    ensures s.nodes[p].right in s.nodes
    ensures Linked(RotateLeft(s, p), OrderLeft(s, o, p)) && SameEntries(s, RotateLeft(s, p))
    ensures OrderLeft(s, o, p).ids == o.ids
  {
    hide NodeOk, RotateRight, RotateLeft;
    MirrorLinked(s, o);
    var m, n := Mirror(s), MirrorOrder(o);
    RotateLeftMirrors(s, o, p);
    RotateRightLinked(m, n, p);
    MirrorLinked(RotateRight(m, p), OrderRight(m, n, p));
    assert Reverse(Reverse(o.ids)) == o.ids;
  }

  /** x lies in the subtree of p. */
  ghost predicate In(o: Order, p: nat, x: nat) {
    p in o.spans && x in o.spans && o.spans[p].lo <= o.spans[x].pos < o.spans[p].hi
  }

  function SlotTo(n: Rec, p: nat, c: nat): Rec {
    if n.left == p then n.(left := c) else n.(right := c)
  }

  /** The subtree of p was rearranged under a new root c; nothing else changed but the pointer down to it. */
  ghost predicate Moved(s: Store, o: Order, t: Store, u: Order, p: nat, c: nat) {
    && Linked(s, o) && Linked(t, u) && SameEntries(s, t) && u.ids == o.ids && p in s.nodes && c in t.nodes
    && t.nodes[c].parent == s.nodes[p].parent && t.root == (if s.nodes[p].parent == 0 then c else s.root)
    && u.spans[c].lo == o.spans[p].lo && u.spans[c].hi == o.spans[p].hi
    && (forall x {:trigger In(o, p, x)} :: x in s.nodes && !In(o, p, x) ==>
          u.spans[x] == o.spans[x] && t.nodes[x] == if x == s.nodes[p].parent then SlotTo(s.nodes[x], p, c)
              else s.nodes[x])
  }

  lemma RotateRightMoved(s: Store, o: Order, p: nat)
    requires Linked(s, o) && p in s.nodes && s.nodes[p].left != 0
    ensures s.nodes[p].left in s.nodes && p in o.spans && s.nodes[p].left in o.spans
    ensures Moved(s, o, RotateRight(s, p), OrderRight(s, o, p), p, s.nodes[p].left)
  {
    hide NodeOk, TurnRight;
    RightParts(s, o, p);
    RotateRightLinked(s, o, p);
    TurnRightIs(s, o, p);
    var q, l := s.nodes[p].parent, s.nodes[p].left;
    var t, u := RotateRight(s, p), OrderRight(s, o, p);
    assert TurnRight(s, p).nodes[l] == RightRec(s, p, l);
    RootOnly(s, o, p);
    forall x | x in s.nodes && !In(o, p, x)
      ensures u.spans[x] == o.spans[x] && t.nodes[x] == if x == q then SlotTo(s.nodes[x], p, l) else s.nodes[x]
    {
      RightOutside(s, o, p, x);
      assert TurnRight(s, p).nodes[x] == RightRec(s, p, x);
    }
  }

  lemma RightOutside(s: Store, o: Order, p: nat, x: nat)
    requires Linked(s, o) && p in s.nodes && s.nodes[p].left != 0 && x in s.nodes && !In(o, p, x)
    ensures var l := s.nodes[p].left; l in s.nodes && x != p && x != l && x != s.nodes[l].right
  {
    RightParts(s, o, p);
    var l := s.nodes[p].left;
    assert NodeOk(s, o, p) && NodeOk(s, o, l);
    var lr := s.nodes[l].right;
    if lr != 0 {
      assert NodeOk(s, o, lr);
    }
  }

  lemma MirrorMoved(s: Store, o: Order, t: Store, u: Order, p: nat, c: nat)
    requires Moved(s, o, t, u, p, c)
    ensures Bounded(o) && Bounded(u) && Moved(Mirror(s), MirrorOrder(o), Mirror(t), MirrorOrder(u), p, c)
  {
    hide Linked, NodeOk, Mirror, MirrorOrder, In;
    MirrorLinked(s, o);
    MirrorLinked(t, u);
    LinkedKeys(s, o);
    LinkedKeys(t, u);
    MirrorAt(s, o, p, p);
    MirrorAt(t, u, c, c);
    forall x | x in s.nodes ensures x in t.nodes && Mirror(t).nodes[x] == Flip(t.nodes[x])
        && Mirror(s).nodes[x] == Flip(s.nodes[x]) {
      MirrorAt(s, o, p, x);
      MirrorAt(t, u, c, x);
    }
    forall x | x in s.nodes && !In(MirrorOrder(o), p, x)
      ensures MirrorOrder(u).spans[x] == MirrorOrder(o).spans[x]
      ensures Mirror(t).nodes[x] == if x == s.nodes[p].parent then SlotTo(Mirror(s).nodes[x], p, c)
        else Mirror(s).nodes[x]
    {
      MirrorAt(s, o, p, x);
      MirrorAt(t, u, c, x);
      assert !In(o, p, x);
      if x == s.nodes[p].parent {
        BothSides(s, o, p);
      }
    }
  }

  /** The mirror, node by node. */
  lemma MirrorAt(s: Store, o: Order, p: nat, x: nat)
    requires Linked(s, o) && Bounded(o) && p in s.nodes && x in s.nodes
    ensures var n, m := |o.ids|, MirrorOrder(o);
      && Mirror(s).nodes.Keys == s.nodes.Keys && Mirror(s).root == s.root && Mirror(s).nodes[x] == Flip(s.nodes[x])
      && |m.ids| == n && m.spans.Keys == o.spans.Keys && m.ids == Reverse(o.ids)
      && m.spans[x] == Span(n - o.spans[x].hi, n - 1 - o.spans[x].pos, n - o.spans[x].lo)
      && (In(m, p, x) <==> In(o, p, x))
  {
  }

  lemma LinkedKeys(s: Store, o: Order)
    requires Linked(s, o)
    ensures s.nodes.Keys == o.spans.Keys && 0 !in s.nodes
  {
  }

  lemma BothSides(s: Store, o: Order, p: nat)
    requires Linked(s, o) && p in s.nodes && s.nodes[p].parent != 0
    ensures var q := s.nodes[p].parent; q in s.nodes && (s.nodes[q].left == p <==> s.nodes[q].right != p) && !In(o,
      p, q)
  {
    assert NodeOk(s, o, p);
    var q := s.nodes[p].parent;
    assert NodeOk(s, o, q);
  }

  lemma RotateLeftMoved(s: Store, o: Order, p: nat)
    requires Linked(s, o) && p in s.nodes && s.nodes[p].right != 0
    ensures s.nodes[p].right in s.nodes
    ensures Moved(s, o, RotateLeft(s, p), OrderLeft(s, o, p), p, s.nodes[p].right)
  {
    hide NodeOk, RotateRight, RotateLeft, Moved;
    MirrorLinked(s, o);
    var m, n := Mirror(s), MirrorOrder(o);
    RotateLeftMirrors(s, o, p);
    RotateRightMoved(m, n, p);
    MirrorMoved(m, n, RotateRight(m, p), OrderRight(m, n, p), p, s.nodes[p].right);
    MirrorTwice(s, o);
  }

  /** Rearranging a child's subtree and then the node's own is one rearrangement of the node's subtree. */
  lemma MovedTwice(s: Store, o: Order, t: Store, u: Order, w: Store, v: Order, l: nat, m: nat, p: nat, c: nat)
    requires Moved(s, o, t, u, l, m) && Moved(t, u, w, v, p, c) && s.nodes[l].parent == p && p != 0
    ensures Moved(s, o, w, v, p, c)
  {
    hide NodeOk;
    BothSides(s, o, l);
    ChildInside(s, o, l);
    assert !In(o, l, p) && u.spans[p] == o.spans[p];
    if s.nodes[p].parent != 0 {
      BothSides(s, o, p);
    }
    forall x | x in s.nodes && !In(o, p, x)
      ensures v.spans[x] == o.spans[x]
      ensures w.nodes[x] == if x == s.nodes[p].parent then SlotTo(s.nodes[x], p, c) else s.nodes[x]
    {
      assert !In(o, l, x);
      assert u.spans[x] == o.spans[x];
      assert !In(u, p, x);
    }
  }

  lemma ChildInside(s: Store, o: Order, l: nat)
    requires Linked(s, o) && l in s.nodes && s.nodes[l].parent != 0
    ensures var p := s.nodes[l].parent;
      p in s.nodes && o.spans[p].lo <= o.spans[l].lo && o.spans[l].hi <= o.spans[p].hi && p != l && In(o, p, p)
  {
    assert NodeOk(s, o, l);
    assert NodeOk(s, o, s.nodes[l].parent);
  }
}
