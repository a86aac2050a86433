/** Reading a well-linked tree: neighbours in the sequence, the way up, and how tall a balanced tree can be. */
module TreeShapes {
  import opened Powers
  import opened Sequences
  import opened TreeLinks
  import opened AvlBalance
  import opened TreeGrowth

  /** A node's spans against its children's and its parent's, unpacked. */
  lemma SpanFacts(s: Store, o: Order, x: nat)
    requires Linked(s, o) && x in s.nodes
    ensures x in o.spans
    ensures var n, g := s.nodes[x], o.spans[x];
      && g.lo <= g.pos < g.hi <= |o.ids| && o.ids[g.pos] == x
      && (if n.left == 0 then g.lo == g.pos
          else n.left in s.nodes && o.spans[n.left].lo == g.lo && o.spans[n.left].hi == g.pos && s.nodes[n.left].parent == x)
      && (if n.right == 0 then g.hi == g.pos + 1
          else n.right in s.nodes && o.spans[n.right].lo == g.pos + 1 && o.spans[n.right].hi == g.hi && s.nodes[n.right].parent == x)
  {
    assert NodeOk(s, o, x);
  }

  /** The step from a node to its parent. */
  lemma ParentSpan(s: Store, o: Order, x: nat)
    requires Linked(s, o) && x in s.nodes
    ensures var q := s.nodes[x].parent;
      if q == 0 then x in o.spans && o.spans[x].lo == 0 && o.spans[x].hi == |o.ids|
      else && q in s.nodes && x in o.spans && q in o.spans && o.spans[q].lo <= o.spans[x].lo && o.spans[x].hi <= o.spans[q].hi
           && (if s.nodes[q].left == x then o.spans[x].hi == o.spans[q].pos
               else o.spans[x].hi == o.spans[q].hi && o.spans[q].pos < o.spans[x].lo)
  {
    assert NodeOk(s, o, x);
    if s.nodes[x].parent != 0 {
      assert NodeOk(s, o, s.nodes[x].parent);
    }
  }

  /** How many nodes the subtree of x has. */
  ghost function Width(o: Order, x: nat): int {
    if x in o.spans then o.spans[x].hi - o.spans[x].lo else 0
  }

  lemma ChildWidths(s: Store, o: Order, x: nat)
    requires Linked(s, o) && x in s.nodes
    ensures var l, r := s.nodes[x].left, s.nodes[x].right;
      && (l != 0 ==> l in s.nodes) && (r != 0 ==> r in s.nodes)
      && 0 <= Width(o, l) && 0 <= Width(o, r) && Width(o, x) == 1 + Width(o, l) + Width(o, r) && x != 0
  {
    hide Linked, NodeOk;
    LinkedKeys(s, o);
    SpanFacts(s, o, x);
    var l, r := s.nodes[x].left, s.nodes[x].right;
    if l != 0 {
      SpanFacts(s, o, l);
    }
    if r != 0 {
      SpanFacts(s, o, r);
    }
  }

  lemma NullWidth(o: Order, s: Store)
    requires Linked(s, o)
    ensures Width(o, 0) == 0
  {
    LinkedKeys(s, o);
  }

  /** The number of levels at and below x. */
  ghost function Levels(s: Store, o: Order, x: nat): nat
    requires Linked(s, o) && (x != 0 ==> x in s.nodes)
    decreases Width(o, x)
  {
    if x == 0 then 0
    else
      ChildWidths(s, o, x);
      1 + Max(Levels(s, o, s.nodes[x].left), Levels(s, o, s.nodes[x].right))
  }

  /** In a balanced tree the stored heights are the true ones. */
  lemma {:induction false} HeightsExact(s: Store, o: Order, x: nat)
    requires Linked(s, o) && AvlBut(s, 0, 0) && (x != 0 ==> x in s.nodes)
    ensures HeightOf(s, x) == Levels(s, o, x)
    decreases Width(o, x)
  {
    hide Linked, NodeOk, Width;
    LinkedKeys(s, o);
    if x != 0 {
      ChildWidths(s, o, x);
      HeightsExact(s, o, s.nodes[x].left);
      HeightsExact(s, o, s.nodes[x].right);
      assert AvlAt(s, x);
    }
  }

  /** A balanced tree of h levels has at least 2^ceil(h/2) - 1 nodes, so its height is logarithmic in its size. */
  lemma {:induction false} LevelsLogarithmic(s: Store, o: Order, x: nat)
    requires Linked(s, o) && AvlBut(s, 0, 0) && (x != 0 ==> x in s.nodes)
    ensures Pow2((Levels(s, o, x) + 1) / 2) <= Width(o, x) + 1
    decreases Width(o, x)
  {
    hide Linked, NodeOk, Width;
    LinkedKeys(s, o);
    if x == 0 {
      NullWidth(o, s);
    } else {
      ChildWidths(s, o, x);
      var l, r := s.nodes[x].left, s.nodes[x].right;
      LevelsLogarithmic(s, o, l);
      LevelsLogarithmic(s, o, r);
      HeightsExact(s, o, l);
      HeightsExact(s, o, r);
      assert AvlAt(s, x);
      var m := Max(Levels(s, o, l), Levels(s, o, r));
      var a, b := Levels(s, o, l), Levels(s, o, r);
      Pow2Monotone(m / 2, (a + 1) / 2);
      Pow2Monotone(m / 2, (b + 1) / 2);
      assert (m + 2) / 2 == m / 2 + 1;
    }
  }

  /** The same for the whole tree. */
  lemma WholeHeight(s: Store, o: Order)
    requires Linked(s, o) && AvlBut(s, 0, 0)
    ensures s.root != 0 ==> s.root in s.nodes
    ensures HeightOf(s, s.root) == Levels(s, o, s.root) && Pow2((Levels(s, o, s.root) + 1) / 2) <= |o.ids| + 1
  {
    hide NodeOk, AvlBut;
    HeightsExact(s, o, s.root);
    LevelsLogarithmic(s, o, s.root);
  }

  /** Overwriting an element with its neighbour and deleting the neighbour deletes the element. */
  lemma CloseGap<T>(es: seq<T>, k: nat, j: nat)
    requires k < |es| && j < |es| && (j == k + 1 || k == j + 1)
    ensures Without(es[k := es[j]], j) == Without(es, k)
  {
  }

  /** The node a neighbour lies below: the node's own position is outside the neighbour's span. */
  ghost predicate Neighbour(o: Order, p: nat, r: nat) {
    && p in o.spans && r in o.spans && r != p
    && (o.spans[r].pos == o.spans[p].pos + 1 || o.spans[p].pos == o.spans[r].pos + 1)
    && o.spans[p].lo <= o.spans[r].lo && o.spans[r].hi <= o.spans[p].hi
    && (o.spans[r].hi <= o.spans[p].pos || o.spans[p].pos < o.spans[r].lo)
  }

  /** Copying a pair into node p changes one element of the pair sequence. */
  lemma CopyEntry(s: Store, o: Order, p: nat, key: int, val: int)
    requires Linked(s, o) && p in s.nodes
    ensures var t := s.(nodes := s.nodes[p := s.nodes[p].(key := key, val := val)]);
      && Linked(t, o) && p in o.spans && o.spans[p].pos < |o.ids|
      && Entries(t, o.ids) == Entries(s, o.ids)[o.spans[p].pos := Pair(key, val)]
  {
    hide NodeOk;
    SpanFacts(s, o, p);
    var t := s.(nodes := s.nodes[p := s.nodes[p].(key := key, val := val)]);
    forall x | x in t.nodes ensures NodeOk(t, o, x) {
      CopyOk(s, o, p, key, val, x);
    }
  }

  lemma CopyOk(s: Store, o: Order, p: nat, key: int, val: int, x: nat)
    requires Linked(s, o) && p in s.nodes && x in s.nodes && x in o.spans
    ensures NodeOk(s.(nodes := s.nodes[p := s.nodes[p].(key := key, val := val)]), o, x)
  {
    assert NodeOk(s, o, x);
  }

  /** Deleting a leaf deletes its pair from the pair sequence. */
  lemma PruneEntries(s: Store, o: Order, d: nat)
    requires Linked(s, o) && IsLeaf(s, d)
    ensures d in o.spans && o.spans[d].pos < |o.ids|
    ensures PruneOrder(o, d).ids == Without(o.ids, o.spans[d].pos)
    ensures Entries(PruneStore(s, d), PruneOrder(o, d).ids) == Without(Entries(s, o.ids), o.spans[d].pos)
  {
    hide NodeOk;
    RootLeaf(s, o, d);
    var t, u, k := PruneStore(s, d), PruneOrder(o, d), o.spans[d].pos;
    var es, fs := Entries(s, o.ids), Entries(t, u.ids);
    forall i | 0 <= i < |fs| ensures fs[i] == Without(es, k)[i] {
      PruneIndex(s, o, d, i);
      assert u.ids[i] == if i < k then o.ids[i] else o.ids[i + 1];
    }
  }

  /** A node whose subtree misses some node has a parent, outside its subtree. */
  lemma NotWhole(s: Store, o: Order, r: nat, p: nat)
    requires Linked(s, o) && r in s.nodes && p in s.nodes && !In(o, r, p)
    ensures s.nodes[r].parent != 0 && s.nodes[r].parent in s.nodes && s.nodes[r].parent != r
    ensures !In(o, r, s.nodes[r].parent)
  {
    ParentSpan(s, o, r);
    SpanFacts(s, o, p);
    BothSides(s, o, r);
    SideChildren(s, o, r);
  }

  /** No pair outside lo..hi has the key. */
  ghost predicate OnlyWithin(es: seq<Pair>, lo: nat, hi: nat, key: int) {
    forall i :: 0 <= i < |es| && es[i].key == key ==> lo <= i < hi
  }

  /** Going left at a greater key, or right at a smaller one, loses no pair with the key. */
  lemma Narrow(s: Store, o: Order, x: nat, key: int)
    requires Linked(s, o) && x in s.nodes && SortedPairs(Entries(s, o.ids)) && x in o.spans
    requires OnlyWithin(Entries(s, o.ids), o.spans[x].lo, o.spans[x].hi, key)
    ensures var n, g := s.nodes[x], o.spans[x]; var es := Entries(s, o.ids);
      && g.pos < |es| && es[g.pos] == Pair(n.key, n.val)
      && (n.key > key ==> OnlyWithin(es, g.lo, g.pos, key)) && (n.key < key ==> OnlyWithin(es, g.pos + 1, g.hi, key))
  {
    hide Linked, NodeOk;
    SpanFacts(s, o, x);
    var es := Entries(s, o.ids);
    assert es[o.spans[x].pos] == EntryOf(s, x);
    forall i | 0 <= i < |es| && es[i].key == key
      ensures s.nodes[x].key > key ==> o.spans[x].lo <= i < o.spans[x].pos
      ensures s.nodes[x].key < key ==> o.spans[x].pos + 1 <= i < o.spans[x].hi
    {
    }
  }

  /** Deleting one element of a sorted sequence leaves it sorted. */
  lemma WithoutSorted(es: seq<Pair>, k: nat)
    requires k < |es| && SortedPairs(es)
    ensures SortedPairs(Without(es, k)) && multiset(es) == multiset(Without(es, k)) + multiset{es[k]}
  {
    hide Without;
    var fs := Without(es, k);
    WithoutAt(es, k);
    WithoutCounts(es, k);
    forall i, j | 0 <= i < j < |fs| ensures fs[i].key <= fs[j].key {
    }
  }

  lemma WithoutAt<T>(es: seq<T>, k: nat)
    requires k < |es|
    ensures |Without(es, k)| == |es| - 1
    ensures forall i :: 0 <= i < |es| - 1 ==> Without(es, k)[i] == es[if i < k then i else i + 1]
  {
  }

  lemma WithoutCounts<T>(es: seq<T>, k: nat)
    requires k < |es|
    ensures multiset(es) == multiset(Without(es, k)) + multiset{es[k]}
  {
    assert es == es[..k] + [es[k]] + es[k + 1..];
  }

  /** One pair with the key left the sequence, or none had it and nothing changed. */
  ghost predicate Removed(es: seq<Pair>, fs: seq<Pair>, key: int, found: bool) {
    if found then exists k: nat :: k < |es| && es[k].key == key && fs == Without(es, k)
    else fs == es && forall i :: 0 <= i < |es| ==> es[i].key != key
  }

  lemma RemovedAt(es: seq<Pair>, k: nat, key: int)
    requires k < |es| && es[k].key == key
    ensures Removed(es, Without(es, k), key, true)
  {
  }
}
