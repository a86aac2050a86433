/** The kernel's search tree: a height-balanced tree with parent pointers, edited in place. */
module SearchTrees {
  import opened TreeLinks
  import opened AvlBalance
  import opened TreeGrowth
  import opened TreeShapes
  import opened Sequences

  class SearchTree {
    var nodes: map<nat, Rec>
    var root: nat
    var size: nat
    var nextId: nat
    /** The in-order sequence of nodes and the interval below each. */
    ghost var order: Order

    ghost function Tree(): Store
      reads this
    {
      Store(nodes, root)
    }

    ghost predicate WellLinked()
      reads this
    {
      && Linked(Tree(), order)
      && nextId > 0 && (forall p :: p in nodes ==> p < nextId)
    }

    method UpdateHeightOf(p: nat)
      requires WellLinked() && p in nodes
      modifies this`nodes
      ensures WellLinked() && Tree() == UpdateHeight(old(Tree()), p)
    {
      UpdateHeightLinked(Tree(), order, p);
      nodes := nodes[p := nodes[p].(height := UpdatedHeight(Store(nodes, root), p))];
    }

    /** The pointer writes of a right rotation. */
    method RelinkRight(p: nat) returns (left: nat)
      requires p in nodes && nodes[p].left in nodes && 0 !in nodes && p != nodes[p].left && p != nodes[p].parent
      requires nodes[p].parent != 0 ==> nodes[p].parent in nodes && nodes[p].parent != nodes[p].left
      requires var r := nodes[nodes[p].left].right;
        r != 0 ==> r in nodes && r != p && r != nodes[p].left && r != nodes[p].parent
      modifies this`nodes, this`root
      ensures left == old(nodes)[p].left && Tree() == TurnRight(old(Tree()), p)
    {
      hide Rehang;
      ghost var s := Tree();
      var parent := nodes[p].parent;
      left := nodes[p].left;
      var leftRight := nodes[left].right;
      nodes := nodes[left := nodes[left].(right := p)];
      nodes := nodes[p := nodes[p].(left := leftRight)];
      nodes := nodes[left := nodes[left].(parent := parent)];
      nodes := nodes[p := nodes[p].(parent := left)];
      assert nodes == s.nodes[left := s.nodes[left].(right := p,
          parent := parent)][p := s.nodes[p].(left := leftRight, parent := left)];
      if leftRight != 0 {
        nodes := nodes[leftRight := nodes[leftRight].(parent := p)];
      }
      RehangAt(parent, p, left);
    }

    /** Relinks p below its left child and updates both heights. */
    method RotateNodeRight(p: nat)
      requires WellLinked() && p in nodes && nodes[p].left != 0
      modifies this`nodes, this`root, this`order
      ensures WellLinked()
      ensures old(nodes)[p].left in old(nodes) && Tree() == RotateRight(old(Tree()), p)
      ensures Moved(old(Tree()), old(order), Tree(), order, p, old(nodes)[p].left)
      ensures order == OrderRight(old(Tree()), old(order), p)
    {
      hide Linked, RotateRight, Moved, NodeOk, OrderRight, TurnRight;
      ghost var s, o := Tree(), order;
      RotateRightMoved(s, o, p);
      RightParts(s, o, p);
      TurnRightKeys(s, p);
      RotateRightKeys(s, o, p);
      order := OrderRight(s, o, p);
      var left := RelinkRight(p);
      nodes := nodes[p := nodes[p].(height := UpdatedHeight(Store(nodes, root), p))];
      nodes := nodes[left := nodes[left].(height := UpdatedHeight(Store(nodes, root), left))];
      RotateRightUnfold(s, p);
      MovedLinked(s, o, Tree(), order, p, left);
    }

    /** The pointer writes of a left rotation. */
    method RelinkLeft(p: nat) returns (right: nat)
      requires p in nodes && nodes[p].right in nodes && 0 !in nodes && p != nodes[p].right && p != nodes[p].parent
      requires nodes[p].parent != 0 ==> nodes[p].parent in nodes && nodes[p].parent != nodes[p].right
      requires var l := nodes[nodes[p].right].left;
        l != 0 ==> l in nodes && l != p && l != nodes[p].right && l != nodes[p].parent
      modifies this`nodes, this`root
      ensures right == old(nodes)[p].right && Tree() == TurnLeft(old(Tree()), p)
    {
      hide Rehang;
      ghost var s := Tree();
      var parent := nodes[p].parent;
      right := nodes[p].right;
      var rightLeft := nodes[right].left;
      nodes := nodes[right := nodes[right].(left := p)];
      nodes := nodes[p := nodes[p].(right := rightLeft)];
      nodes := nodes[right := nodes[right].(parent := parent)];
      nodes := nodes[p := nodes[p].(parent := right)];
      assert nodes == s.nodes[right := s.nodes[right].(left := p,
          parent := parent)][p := s.nodes[p].(right := rightLeft, parent := right)];
      if rightLeft != 0 {
        nodes := nodes[rightLeft := nodes[rightLeft].(parent := p)];
      }
      RehangAt(parent, p, right);
    }

    /** Hangs c where p hung. */
    method RehangAt(parent: nat, p: nat, c: nat)
      requires 0 !in nodes && (parent != 0 ==> parent in nodes)
      modifies this`nodes, this`root
      ensures Tree() == Rehang(old(Tree()), parent, p, c)
    {
      if parent != 0 {
        if nodes[parent].left == p {
          nodes := nodes[parent := nodes[parent].(left := c)];
        } else {
          nodes := nodes[parent := nodes[parent].(right := c)];
        }
      } else {
        root := c;
      }
    }

    /** Relinks p below its right child and updates both heights. */
    method RotateNodeLeft(p: nat)
      requires WellLinked() && p in nodes && nodes[p].right != 0
      modifies this`nodes, this`root, this`order
      ensures WellLinked()
      ensures old(nodes)[p].right in old(nodes) && Tree() == RotateLeft(old(Tree()), p)
      ensures Moved(old(Tree()), old(order), Tree(), order, p, old(nodes)[p].right)
      ensures order == OrderLeft(old(Tree()), old(order), p)
    {
      hide Linked, RotateLeft, Moved, NodeOk, OrderLeft, TurnLeft, Mirror, MirrorOrder;
      ghost var s, o := Tree(), order;
      RotateLeftMoved(s, o, p);
      LeftParts(s, o, p);
      TurnLeftKeys(s, p);
      order := OrderLeft(s, o, p);
      var right := RelinkLeft(p);
      nodes := nodes[p := nodes[p].(height := UpdatedHeight(Store(nodes, root), p))];
      nodes := nodes[right := nodes[right].(height := UpdatedHeight(Store(nodes, root), right))];
      RotateLeftUnfold(s, p);
      MovedLinked(s, o, Tree(), order, p, right);
    }

    /** The left-heavy half of rebalancing: a single or a double rotation. */
    method LowerLeft(p: nat) returns (ghost c: nat)
      requires WellLinked() && p in nodes && Balance(Tree(), p) > 1
      modifies this`nodes, this`root, this`order
      ensures WellLinked() && Moved(old(Tree()), old(order), Tree(), order, p, c)
      ensures AvlBut(old(Tree()), p, old(nodes)[p].parent) && Balance(old(Tree()), p) == 2 ==>
        && AvlBut(Tree(), old(nodes)[p].parent, old(nodes)[p].parent)
        && HeightOf(old(Tree()), old(nodes)[p].left) <= HeightOf(Tree(), c) <= HeightOf(old(Tree()),
            old(nodes)[p].left) + 1
    {
      hide Linked, RotateLeft, RotateRight, Moved, NodeOk, AvlBut;
      ghost var s, o := Tree(), order;
      LeftHeavy(s, o, p);
      var l := nodes[p].left;
      if Balance(Store(nodes, root), l) < 0 {
        LeftInnerHeavy(s, o, p);
        c := nodes[l].right;
        RotateNodeLeft(l);
        ghost var t, u := Tree(), order;
        MovedParent(s, o, t, u, l, c);
        RotateNodeRight(p);
        MovedTwice(s, o, t, u, Tree(), order, l, c, p, c);
        if AvlBut(s, p, s.nodes[p].parent) && Balance(s, p) == 2 {
          DoubleRight(s, o, p);
        }
      } else {
        c := l;
        RotateNodeRight(p);
        if AvlBut(s, p, s.nodes[p].parent) && Balance(s, p) == 2 {
          SingleRight(s, o, p);
        }
      }
    }

    /** The right-heavy half of rebalancing. */
    method LowerRight(p: nat) returns (ghost c: nat)
      requires WellLinked() && p in nodes && Balance(Tree(), p) < -1
      modifies this`nodes, this`root, this`order
      ensures WellLinked() && Moved(old(Tree()), old(order), Tree(), order, p, c)
      ensures AvlBut(old(Tree()), p, old(nodes)[p].parent) && Balance(old(Tree()), p) == -2 ==>
        && AvlBut(Tree(), old(nodes)[p].parent, old(nodes)[p].parent)
        && HeightOf(old(Tree()), old(nodes)[p].right) <= HeightOf(Tree(), c) <= HeightOf(old(Tree()),
            old(nodes)[p].right) + 1
    {
      hide Linked, RotateLeft, RotateRight, Moved, NodeOk, AvlBut;
      ghost var s, o := Tree(), order;
      RightHeavy(s, o, p);
      var r := nodes[p].right;
      if Balance(Store(nodes, root), r) > 0 {
        RightInnerHeavy(s, o, p);
        c := nodes[r].left;
        RotateNodeRight(r);
        ghost var t, u := Tree(), order;
        MovedParent(s, o, t, u, r, c);
        RotateNodeLeft(p);
        MovedTwice(s, o, t, u, Tree(), order, r, c, p, c);
        if AvlBut(s, p, s.nodes[p].parent) && Balance(s, p) == -2 {
          DoubleLeft(s, o, p);
        }
      } else {
        c := r;
        RotateNodeLeft(p);
        if AvlBut(s, p, s.nodes[p].parent) && Balance(s, p) == -2 {
          SingleLeft(s, o, p);
        }
      }
    }

    /** Updates p's height and rotates when its balance leaves -1..1. Whatever heights are stored, the in-order
    sequence is kept and no rotation goes through a null child; when p alone is out of balance by two, balance is
    restored below p's parent. */
    method Rebalance(p: nat) returns (ghost c: nat)
      requires WellLinked() && p in nodes
      modifies this`nodes, this`root, this`order
      ensures WellLinked() && Moved(old(Tree()), old(order), Tree(), order, p, c)
      ensures AvlBut(old(Tree()), p, old(nodes)[p].parent) && -2 <= Balance(old(Tree()), p) <= 2 ==>
        && AvlBut(Tree(), old(nodes)[p].parent, old(nodes)[p].parent)
        && UpdatedHeight(old(Tree()), p) - 1 <= HeightOf(Tree(), c) <= UpdatedHeight(old(Tree()), p)
        && (-1 <= Balance(old(Tree()), p) <= 1 ==> HeightOf(Tree(), c) == UpdatedHeight(old(Tree()), p))
    {
      hide Linked, Moved, NodeOk;
      ghost var s, o := Tree(), order;
      UpdateHeightMoved(s, o, p);
      UpdateHeightOf(p);
      ghost var t := Tree();
      SideChildren(s, o, p);
      ghost var bad := AvlBut(s, p, s.nodes[p].parent);
      if bad {
        UpdateHeightAvl(s, o, p);
      }
      var bal := Balance(Store(nodes, root), p);
      if bal > 1 {
        c := LowerLeft(p);
        MovedChain(s, o, t, o, Tree(), order, p, p, c);
      } else if bal < -1 {
        c := LowerRight(p);
        MovedChain(s, o, t, o, Tree(), order, p, p, c);
      } else {
        c := p;
      }
    }

    /** The new node hung below y. */
    method HangNode(y: nat, onLeft: bool, key: int, val: int)
      requires WellLinked() && CanHang(Tree(), order, y, onLeft, nextId)
      modifies this
      ensures WellLinked() && size == old(size) + 1 && nextId == old(nextId) + 1
      ensures Tree() == HangStore(old(Tree()), y, onLeft, old(nextId), key, val)
      ensures y in old(order).spans && LeafPlace(old(order), y, onLeft) <= |old(order).ids|
      ensures order == HangOrder(old(order), LeafPlace(old(order), y, onLeft), onLeft, old(nextId))
    {
      hide Linked, NodeOk, HangOrder;
      HangLinked(Tree(), order, y, onLeft, nextId, key, val);
      order := HangOrder(order, LeafPlace(order, y, onLeft), onLeft, nextId);
      size := size + 1;
      var id := nextId;
      if onLeft {
        nodes := nodes[y := nodes[y].(left := id)];
      } else {
        nodes := nodes[y := nodes[y].(right := id)];
      }
      nodes := nodes[id := Rec(key, val, y, 0, 0, 1)];
      nextId := nextId + 1;
    }

    /** The new node becomes a leaf of cur, and cur is rebalanced. */
    method AddLeaf(cur: nat, onLeft: bool, key: int, val: int) returns (ghost c: nat)
      requires WellLinked() && CanHang(Tree(), order, cur, onLeft, nextId)
      requires cur in order.spans
      requires Bracket(Tree(), order.ids, LeafPlace(order, cur, onLeft), LeafPlace(order, cur, onLeft), key)
      modifies this
      ensures WellLinked() && size == old(size) + 1 && nextId == old(nextId) + 1
      ensures Grew(old(Tree()), old(order), Tree(), order, cur, c, cur, onLeft, old(nextId), key, val)
    {
      hide Linked, NodeOk, HangOrder, Moved, AvlBut, Grew, Balance, UpdatedHeight, Bracket, In;
      ghost var s, o, id := Tree(), order, nextId;
      if AvlBut(s, 0, 0) {
        HangAvl(s, o, cur, onLeft, id, key, val);
      }
      HangNode(cur, onLeft, key, val);
      c := Rebalance(cur);
      GrewBase(s, o, Tree(), order, c, cur, onLeft, id, key, val);
    }

    /** Descends to the null slot for the key, equal keys to the right, hangs the pair there and rebalances on the way
    back. */
    method AddRec(cur: nat, key: int, val: int) returns (ghost c: nat, ghost y: nat, ghost onLeft: bool)
      requires WellLinked() && cur in nodes && Sorted(Tree(), order.ids)
      requires cur in order.spans && Bracket(Tree(), order.ids, order.spans[cur].lo, order.spans[cur].hi, key)
      modifies this
      ensures WellLinked() && size == old(size) + 1 && nextId == old(nextId) + 1
      ensures Grew(old(Tree()), old(order), Tree(), order, cur, c, y, onLeft, old(nextId), key, val)
      decreases order.spans[cur].hi - order.spans[cur].lo
    {
      hide Linked, NodeOk, Moved, AvlBut, Grew, Balance, UpdatedHeight, Bracket, In, Sorted;
      ghost var s, o, id := Tree(), order, nextId;
      LinkedKeys(s, o);
      Descend(s, o, cur, key);
      var child := if nodes[cur].key > key then nodes[cur].left else nodes[cur].right;
      if child == 0 {
        c := AddLeaf(cur, nodes[cur].key > key, key, val);
        y, onLeft := cur, s.nodes[cur].key > key;
      } else {
        ghost var b;
        b, y, onLeft := AddRec(child, key, val);
        ghost var t, u := Tree(), order;
        GrewStays(s, o, t, u, child, b, y, onLeft, id, key, val);
        if AvlBut(s, 0, 0) {
          GrewReady(s, o, t, u, child, b, y, onLeft, id, key, val);
        }
        c := Rebalance(cur);
        GrewStep(s, o, t, u, Tree(), order, child, b, c, y, onLeft, id, key, val);
      }
    }

    /** The pairs of the tree in key order. */
    ghost function Contents(): seq<Pair>
      reads this
    {
      Entries(Tree(), order.ids)
    }

    ghost predicate Valid()
      reads this
    {
      WellLinked() && SortedPairs(Contents()) && size == |order.ids|
    }

    /** Stored heights are exact and every balance is in -1..1. */
    ghost predicate Balanced()
      reads this
    {
      AvlBut(Tree(), 0, 0)
    }

    constructor ()
      ensures Valid() && Balanced() && Contents() == []
    {
      nodes, root, size, nextId := map[], 0, 0, 1;
      order := Order([], map[]);
    }

    /** The first node becomes the root. */
    method AddFirst(key: int, val: int)
      requires WellLinked() && root == 0
      modifies this
      ensures WellLinked() && Balanced() && size == old(size) + 1 && |order.ids| == 1 && Contents() == [Pair(key, val)]
    {
      hide Linked, NodeOk, AvlBut, Moved, Balance, Entries;
      ghost var id := nextId;
      SingleLinked(id, key, val);
      size := size + 1;
      root := nextId;
      nodes := map[nextId := Rec(key, val, 0, 0, 0, 1)];
      order := Order([id], map[id := Span(0, 0, 1)]);
      nextId := nextId + 1;
      ghost var s := Tree();
      SingleBalance(s, id);
      ghost var c := Rebalance(root);
      MovedKeys(s, Order([id], map[id := Span(0, 0, 1)]), Tree(), order, id, c);
      SameEntriesSame(s, Tree(), [id]);
    }

    /** Adds exactly the new pair, after every pair with a key no greater, and keeps a balanced tree balanced. */
    method Insert(key: int, val: int) returns (ghost k: nat)
      requires Valid()
      modifies this
      ensures Valid() && (old(Balanced()) ==> Balanced())
      ensures UpperBound(old(Contents()), k, key)
      ensures Contents() == old(Contents())[..k] + [Pair(key, val)] + old(Contents())[k..]
    {
      hide Linked, NodeOk, AvlBut, Sorted, Grew, Moved, SortedPairs, UpperBound, Balance, Bracket;
      ghost var s, o, id := Tree(), order, nextId;
      EmptyEntries(s, o);
      if root == 0 {
        k := 0;
        FirstPair(key, val);
        AddFirst(key, val);
      } else {
        SortedMeans(s, o.ids);
        WholeBracket(s, o, key);
        ghost var c, y, onLeft := AddRec(root, key, val);
        GrewEntries(s, o, Tree(), order, s.root, c, y, onLeft, id, key, val);
        k := LeafPlace(o, y, onLeft);
        GrewWhole(s, o, Tree(), order, s.root, c, y, onLeft, id, key, val);
        UpperBoundSorted(Entries(s, o.ids), k, key, val);
      }
    }

    /** Follows left (or right) links to the first (or last) node below p. */
    method Leftmost(p: nat) returns (r: nat)
      requires WellLinked() && p in nodes
      ensures r in nodes && r in order.spans && p in order.spans
      ensures order.spans[r].lo == order.spans[r].pos == order.spans[p].lo && order.spans[r].hi <= order.spans[p].hi
    {
      hide Linked, NodeOk;
      r := p;
      SpanFacts(Tree(), order, r);
      while nodes[r].left != 0
        invariant r in nodes && r in order.spans && p in order.spans
        invariant order.spans[r].lo == order.spans[p].lo && order.spans[r].hi <= order.spans[p].hi
        decreases order.spans[r].hi
      {
        SpanFacts(Tree(), order, r);
        r := nodes[r].left;
        SpanFacts(Tree(), order, r);
      }
      SpanFacts(Tree(), order, r);
    }

    method Rightmost(p: nat) returns (r: nat)
      requires WellLinked() && p in nodes
      ensures r in nodes && r in order.spans && p in order.spans
      ensures order.spans[r].hi == order.spans[r].pos + 1 == order.spans[p].hi && order.spans[r].lo >= order.spans[p].lo
    {
      hide Linked, NodeOk;
      r := p;
      SpanFacts(Tree(), order, r);
      while nodes[r].right != 0
        invariant r in nodes && r in order.spans && p in order.spans
        invariant order.spans[r].hi == order.spans[p].hi && order.spans[r].lo >= order.spans[p].lo
        decreases order.spans[r].hi - order.spans[r].lo
      {
        SpanFacts(Tree(), order, r);
        r := nodes[r].right;
        SpanFacts(Tree(), order, r);
      }
      SpanFacts(Tree(), order, r);
    }

    /** A neighbour in the sequence from p's own subtree: the next node, else the previous one, else null. */
    method Successor(p: nat) returns (r: nat)
      requires WellLinked() && p in nodes
      ensures r == 0 ==> IsLeaf(Tree(), p)
      ensures r != 0 ==> r in nodes && Neighbour(order, p, r)
    {
      hide Linked, NodeOk;
      LinkedKeys(Tree(), order);
      SpanFacts(Tree(), order, p);
      if nodes[p].right != 0 {
        r := Leftmost(nodes[p].right);
      } else if nodes[p].left != 0 {
        r := Rightmost(nodes[p].left);
      } else {
        r := 0;
      }
    }

    /** The leaf d leaves the tree. */
    method DeleteLeaf(d: nat)
      requires WellLinked() && IsLeaf(Tree(), d)
      modifies this`nodes, this`root, this`order
      ensures WellLinked() && nodes.Keys == old(nodes).Keys - {d}
      ensures d in old(order).spans && old(order).spans[d].pos < |old(order).ids|
      ensures Contents() == Without(old(Contents()), old(order).spans[d].pos) && |order.ids| == |old(order).ids| - 1
    {
      hide Linked, NodeOk;
      ghost var s, o := Tree(), order;
      PruneLinked(s, o, d);
      PruneEntries(s, o, d);
      LinkedKeys(s, o);
      if nodes[d].parent != 0 {
        BothSides(s, o, d);
      }
      var parent := nodes[d].parent;
      if root == d {
        root := 0;
      }
      if parent != 0 {
        if nodes[parent].left == d {
          nodes := nodes[parent := nodes[parent].(left := 0)];
        } else {
          nodes := nodes[parent := nodes[parent].(right := 0)];
        }
      }
      nodes := nodes - {d};
      order := PruneOrder(o, d);
      assert Tree() == PruneStore(s, d);
    }

    /** Rebalancing p keeps the pairs. */
    method RebalanceAt(p: nat)
      requires WellLinked() && p in nodes
      modifies this`nodes, this`root, this`order
      ensures WellLinked() && nodes.Keys == old(nodes).Keys && order.ids == old(order).ids
      ensures Contents() == old(Contents())
    {
      hide Linked, NodeOk, Moved, AvlBut, Balance, UpdatedHeight;
      ghost var s, o := Tree(), order;
      ghost var c := Rebalance(p);
      MovedKeys(s, o, Tree(), order, p, c);
      SameEntriesSame(s, Tree(), o.ids);
    }

    /** Copies the pair of r into p and deletes r's pair below r. */
    method Replace(p: nat, r: nat) returns (ghost d: nat)
      requires WellLinked() && p in nodes && r in nodes && !In(order, r, p)
      modifies this`nodes, this`root, this`order
      ensures WellLinked() && In(old(order), r, d) && nodes.Keys == old(nodes).Keys - {d}
      ensures p in old(order).spans && r in old(order).spans && old(order).spans[p].pos < |old(order).ids|
      ensures old(order).spans[r].pos < |old(order).ids|
      ensures Contents() == Without(old(Contents())[old(order).spans[p].pos := old(Contents())[old(order).spans[r].pos]], old(order).spans[r].pos)
      ensures |order.ids| == |old(order).ids| - 1
      decreases Width(order, r)
    {
      hide Linked, NodeOk, IsLeaf, In, Neighbour, Without;
      ghost var s, o := Tree(), order;
      NotWhole(s, o, r, p);
      SpanFacts(s, o, r);
      SpanFacts(s, o, p);
      CopyEntry(s, o, p, nodes[r].key, nodes[r].val);
      nodes := nodes[p := nodes[p].(key := nodes[r].key, val := nodes[r].val)];
      ghost var es := Contents();
      var succ := Successor(r);
      if succ == 0 {
        var parent := nodes[r].parent;
        DeleteLeaf(r);
        d := r;
        RebalanceAt(parent);
        SelfIn(s, o, r);
      } else {
        NeighbourBelow(Tree(), o, r, succ);
        NotWhole(Tree(), o, succ, r);
        var succParent := nodes[succ].parent;
        d := Replace(r, succ);
        RebalanceAt(succParent);
        CloseGap(es, o.spans[r].pos, o.spans[succ].pos);
        NeighbourIn(o, r, succ, d);
      }
    }

    /** Deletes cur's own pair: cur itself when it is a leaf, else through its successor. */
    method RemoveHere(cur: nat) returns (ghost d: nat)
      requires WellLinked() && cur in nodes && size > 0
      modifies this
      ensures WellLinked() && In(old(order), cur, d) && nodes.Keys == old(nodes).Keys - {d} && size == old(size) - 1
      ensures |order.ids| == |old(order).ids| - 1 && nextId == old(nextId)
      ensures cur in old(order).spans && old(order).spans[cur].pos < |old(order).ids|
      ensures Contents() == Without(old(Contents()), old(order).spans[cur].pos)
    {
      hide Linked, NodeOk, IsLeaf, In, Neighbour, Without;
      ghost var s, o, es := Tree(), order, Contents();
      SpanFacts(s, o, cur);
      var succ := Successor(cur);
      if succ == 0 {
        var parent := nodes[cur].parent;
        SelfIn(s, o, cur);
        ParentLives(s, o, cur);
        DeleteLeaf(cur);
        d := cur;
        if parent != 0 {
          RebalanceAt(parent);
        }
        size := size - 1;
      } else {
        NeighbourBelow(s, o, cur, succ);
        NotWhole(s, o, succ, cur);
        var succParent := nodes[succ].parent;
        d := Replace(cur, succ);
        RebalanceAt(succParent);
        CloseGap(es, o.spans[cur].pos, o.spans[succ].pos);
        NeighbourIn(o, cur, succ, d);
        size := size - 1;
        RebalanceAt(cur);
      }
    }

    /** Searches below cur, which covers lo..hi of the sequence, and rebalances on the way back. */
    method RemoveRec(cur: nat, key: int, ghost lo: nat, ghost hi: nat) returns (ghost d: nat, ghost found: bool)
      requires WellLinked() && SortedPairs(Contents()) && size == |order.ids|
      requires if cur == 0 then lo == hi
        else cur in nodes && cur in order.spans && order.spans[cur].lo == lo && order.spans[cur].hi == hi
      requires OnlyWithin(Contents(), lo, hi, key)
      modifies this
      ensures WellLinked() && size == |order.ids| && Removed(old(Contents()), Contents(), key, found)
      ensures if found then In(old(order), cur, d) && nodes.Keys == old(nodes).Keys - {d} && size == old(size) - 1
              else nodes.Keys == old(nodes).Keys && size == old(size)
      decreases hi - lo
    {
      hide Linked, NodeOk, In, Without, SortedPairs, Removed, Entries, OnlyWithin;
      ghost var s, o, es := Tree(), order, Contents();
      d, found := 0, false;
      if cur == 0 {
        NotFound(es, lo, key);
        return;
      }
      LinkedKeys(s, o);
      SpanFacts(s, o, cur);
      Narrow(s, o, cur, key);
      if nodes[cur].key > key {
        ghost var l := nodes[cur].left;
        d, found := RemoveRec(nodes[cur].left, key, lo, o.spans[cur].pos);
        if found {
          ChildNotAbove(s, o, cur, l, d);
        }
        RebalanceAt(cur);
      } else if nodes[cur].key < key {
        ghost var r := nodes[cur].right;
        d, found := RemoveRec(nodes[cur].right, key, o.spans[cur].pos + 1, hi);
        if found {
          ChildNotAbove(s, o, cur, r, d);
        }
        RebalanceAt(cur);
      } else {
        d := RemoveHere(cur);
        found := true;
        RemovedAt(es, o.spans[cur].pos, key);
      }
    }

    /** Deletes exactly one pair with the key when there is one; otherwise the pairs stay as they are. */
    method Remove(key: int) returns (ghost found: bool)
      requires Valid()
      modifies this
      ensures Valid() && Removed(old(Contents()), Contents(), key, found)
      ensures found <==> exists i :: 0 <= i < |old(Contents())| && old(Contents())[i].key == key
    {
      hide Linked, NodeOk, In, SortedPairs, Entries, OnlyWithin;
      ghost var s, o, es := Tree(), order, Contents();
      EmptyEntries(s, o);
      WholeWithin(s, o, key);
      ghost var d;
      d, found := RemoveRec(root, key, 0, |order.ids|);
      RemovedSorted(es, Contents(), key, found);
    }

    /** The first node of the sequence, or null. */
    method Begin() returns (p: nat)
      requires WellLinked()
      ensures p == if order.ids == [] then 0 else order.ids[0]
    {
      hide Linked, NodeOk;
      EmptyEntries(Tree(), order);
      if root == 0 {
        return 0;
      }
      p := Leftmost(root);
      SpanFacts(Tree(), order, p);
    }

    /** The node after p in the sequence, or null after the last. */
    method Next(p: nat) returns (r: nat)
      requires WellLinked() && p in nodes
      ensures p in order.spans && order.spans[p].pos < |order.ids|
      ensures r == if order.spans[p].pos + 1 < |order.ids| then order.ids[order.spans[p].pos + 1] else 0
    {
      hide Linked, NodeOk;
      SpanFacts(Tree(), order, p);
      if nodes[p].right != 0 {
        r := Leftmost(nodes[p].right);
        SpanFacts(Tree(), order, r);
      } else {
        r := p;
        ParentSpan(Tree(), order, r);
        while nodes[r].parent != 0 && nodes[nodes[r].parent].left != r
          invariant r in nodes && r in order.spans && order.spans[r].hi == order.spans[p].pos + 1
          invariant nodes[r].parent != 0 ==> nodes[r].parent in nodes
          decreases order.spans[r].lo
        {
          ParentSpan(Tree(), order, r);
          r := nodes[r].parent;
          ParentSpan(Tree(), order, r);
          SpanFacts(Tree(), order, r);
        }
        ParentSpan(Tree(), order, r);
        if nodes[r].parent != 0 {
          SpanFacts(Tree(), order, nodes[r].parent);
        }
        r := nodes[r].parent;
      }
    }

    /** Iterating from begin to end visits every key once, in order. */
    method Visit() returns (keys: seq<int>)
      requires WellLinked()
      ensures |keys| == |Contents()| && forall i :: 0 <= i < |keys| ==> keys[i] == Contents()[i].key
    {
      hide Linked, NodeOk;
      keys := [];
      var it := Begin();
      IdsLive(Tree(), order);
      while it != 0
        invariant |keys| <= |order.ids|
        invariant it == if |keys| < |order.ids| then order.ids[|keys|] else 0
        invariant forall i :: 0 <= i < |keys| ==> keys[i] == Contents()[i].key
        decreases |order.ids| - |keys|
      {
        var next := Next(it);
        keys := keys + [nodes[it].key];
        it := next;
      }
    }

    /** Whether some pair has the key. */
    method Contains(key: int) returns (found: bool)
      requires Valid()
      ensures found <==> exists i :: 0 <= i < |Contents()| && Contents()[i].key == key
    {
      hide Linked, NodeOk, SortedPairs, Entries, OnlyWithin;
      var node := SearchRec(key);
      ghost var es := Contents();
      if node == 0 || nodes[node].key != key {
        found := false;
      } else {
        found := true;
        SpanFacts(Tree(), order, node);
        assert es[order.spans[node].pos].key == key;
      }
    }

    /** A node with the key if there is one, else the last node compared. */
    method SearchRec(key: int) returns (cur: nat)
      requires Valid()
      ensures cur == 0 <==> root == 0
      ensures cur != 0 ==> cur in nodes
      ensures (cur == 0 || nodes[cur].key != key) ==> forall i :: 0 <= i < |Contents()| ==> Contents()[i].key != key
      ensures cur != 0 && nodes[cur].key == key ==>
        cur in order.spans && order.spans[cur].pos < |order.ids| && Contents()[order.spans[cur].pos].key == key
    {
      hide Linked, NodeOk, SortedPairs, Entries, OnlyWithin;
      cur := root;
      ghost var es := Contents();
      EmptyEntries(Tree(), order);
      LinkedKeys(Tree(), order);
      WholeWithin(Tree(), order, key);
      while cur != 0
        invariant if cur == 0 then root == 0 else
          cur in nodes && cur in order.spans && OnlyWithin(es, order.spans[cur].lo, order.spans[cur].hi, key)
        decreases Width(order, cur)
      {
        Narrow(Tree(), order, cur, key);
        SpanFacts(Tree(), order, cur);
        ChildWidths(Tree(), order, cur);
        if nodes[cur].key > key {
          if nodes[cur].left == 0 {
            NotFound(es, order.spans[cur].pos, key);
            return;
          }
          cur := nodes[cur].left;
        } else if nodes[cur].key < key {
          if nodes[cur].right == 0 {
            NotFound(es, order.spans[cur].hi, key);
            return;
          }
          cur := nodes[cur].right;
        } else {
          return;
        }
      }
    }
  }

  lemma RotateRightUnfold(s: Store, p: nat)
    requires p in s.nodes && s.nodes[p].left in s.nodes
    ensures RotateRight(s, p) == UpdateHeight(UpdateHeight(TurnRight(s, p), p), s.nodes[p].left)
  {
  }

  lemma MovedLinked(s: Store, o: Order, t: Store, u: Order, p: nat, c: nat)
    requires Moved(s, o, t, u, p, c)
    ensures Linked(t, u) && u.ids == o.ids && t.nodes.Keys == s.nodes.Keys && SameEntries(s, t)
  {
  }

  lemma TurnLeftKeys(s: Store, p: nat)
    requires p in s.nodes && s.nodes[p].right in s.nodes
    ensures TurnLeft(s, p).nodes.Keys == s.nodes.Keys
  {
  }

  lemma RotateLeftUnfold(s: Store, p: nat)
    requires p in s.nodes && s.nodes[p].right in s.nodes
    ensures RotateLeft(s, p) == UpdateHeight(UpdateHeight(TurnLeft(s, p), p), s.nodes[p].right)
  {
  }

  /** The four nodes a left rotation touches are different. */
  lemma LeftParts(s: Store, o: Order, p: nat)
    requires Linked(s, o) && p in s.nodes && s.nodes[p].right != 0
    ensures var q, r := s.nodes[p].parent, s.nodes[p].right;
      && r in s.nodes && r != p && r != q && p != q
      && (s.nodes[r].left != 0 ==> s.nodes[r].left in s.nodes && s.nodes[r].left !in {p, q, r})
      && (q != 0 ==> q in s.nodes) && 0 !in s.nodes
  {
    hide NodeOk, Linked, Mirror, MirrorOrder;
    MirrorAvl(s, p);
    RightParts(Mirror(s), MirrorOf(s, o), p);
    SideChildren(s, o, p);
    MirrorAvl(s, s.nodes[p].right);
    if s.nodes[p].parent != 0 {
      BothSides(s, o, p);
    }
    SideChildren(s, o, s.nodes[p].right);
  }

  /** A node heavier on the left has a left child. */
  lemma LeftHeavy(s: Store, o: Order, p: nat)
    requires Linked(s, o) && p in s.nodes && Balance(s, p) > 0
    ensures s.nodes[p].left != 0 && s.nodes[p].left in s.nodes && s.nodes[s.nodes[p].left].parent == p && p != 0
  {
    hide Linked, NodeOk;
    HeightsPositive(s, o, s.nodes[p].right);
    SideChildren(s, o, p);
  }

  lemma RightHeavy(s: Store, o: Order, p: nat)
    requires Linked(s, o) && p in s.nodes && Balance(s, p) < 0
    ensures s.nodes[p].right != 0 && s.nodes[p].right in s.nodes && s.nodes[s.nodes[p].right].parent == p && p != 0
  {
    hide Linked, NodeOk;
    HeightsPositive(s, o, s.nodes[p].left);
    SideChildren(s, o, p);
  }

  lemma LeftInnerHeavy(s: Store, o: Order, p: nat)
    requires Linked(s, o) && p in s.nodes && s.nodes[p].left in s.nodes && Balance(s, s.nodes[p].left) < 0
    ensures var l := s.nodes[p].left; s.nodes[l].right != 0 && s.nodes[l].right in s.nodes
  {
    RightHeavy(s, o, s.nodes[p].left);
  }

  lemma RightInnerHeavy(s: Store, o: Order, p: nat)
    requires Linked(s, o) && p in s.nodes && s.nodes[p].right in s.nodes && Balance(s, s.nodes[p].right) > 0
    ensures var r := s.nodes[p].right; s.nodes[r].left != 0 && s.nodes[r].left in s.nodes
  {
    LeftHeavy(s, o, s.nodes[p].right);
  }

  /** Rearranging below l leaves its parent's record alone but for the slot. */
  lemma MovedParent(s: Store, o: Order, t: Store, u: Order, l: nat, c: nat)
    requires Moved(s, o, t, u, l, c) && s.nodes[l].parent != 0
    ensures var p := s.nodes[l].parent;
      && p in s.nodes && p in t.nodes && t.nodes[p] == SlotTo(s.nodes[p], l, c) && c != 0
      && (s.nodes[p].left == l <==> s.nodes[p].right != l)
  {
    hide NodeOk;
    BothSides(s, o, l);
    assert !In(o, l, s.nodes[l].parent);
  }

  lemma FirstPair(key: int, val: int)
    ensures UpperBound([], 0, key) && SortedPairs([Pair(key, val)])
  {
  }

  lemma WholeBracket(s: Store, o: Order, key: int)
    requires Linked(s, o) && s.root in o.spans
    ensures s.root != 0 ==> Bracket(s, o.ids, o.spans[s.root].lo, o.spans[s.root].hi, key)
  {
  }

  lemma NeighbourBelow(s: Store, o: Order, p: nat, r: nat)
    requires Linked(s, o) && p in s.nodes && r in s.nodes && Neighbour(o, p, r)
    ensures !In(o, r, p) && Width(o, r) < Width(o, p) && 0 <= Width(o, r)
    ensures p in o.spans && r in o.spans
    ensures (o.spans[r].pos == o.spans[p].pos + 1 || o.spans[p].pos == o.spans[r].pos + 1)
  {
    SpanFacts(s, o, p);
    SpanFacts(s, o, r);
  }

  lemma NeighbourIn(o: Order, p: nat, r: nat, d: nat)
    requires Neighbour(o, p, r) && In(o, r, d)
    ensures In(o, p, d) && (p in o.spans && o.spans[p].lo <= o.spans[p].pos < o.spans[p].hi ==> d != p)
  {
  }

  lemma ParentLives(s: Store, o: Order, x: nat)
    requires Linked(s, o) && x in s.nodes
    ensures s.nodes[x].parent != 0 ==> s.nodes[x].parent in s.nodes && s.nodes[x].parent != x
  {
    SideChildren(s, o, x);
    ParentSpan(s, o, x);
  }

  lemma NotFound(es: seq<Pair>, k: nat, key: int)
    requires OnlyWithin(es, k, k, key)
    ensures Removed(es, es, key, false) && forall i :: 0 <= i < |es| ==> es[i].key != key
  {
  }

  lemma ChildNotAbove(s: Store, o: Order, p: nat, c: nat, d: nat)
    requires Linked(s, o) && p in s.nodes && (c == s.nodes[p].left || c == s.nodes[p].right) && In(o, c, d)
    ensures d != p && In(o, p, d)
  {
    LinkedKeys(s, o);
    SpanFacts(s, o, p);
    SpanFacts(s, o, d);
  }

  lemma WholeWithin(s: Store, o: Order, key: int)
    ensures OnlyWithin(Entries(s, o.ids), 0, |o.ids|, key)
  {
  }

  lemma RemovedSorted(es: seq<Pair>, fs: seq<Pair>, key: int, found: bool)
    requires SortedPairs(es) && Removed(es, fs, key, found)
    ensures SortedPairs(fs) && (found <==> exists i :: 0 <= i < |es| && es[i].key == key)
  {
    if found {
      var k: nat :| k < |es| && es[k].key == key && fs == Without(es, k);
      WithoutSorted(es, k);
    }
  }

  lemma IdsLive(s: Store, o: Order)
    requires Linked(s, o)
    ensures forall i :: 0 <= i < |o.ids| ==>
        o.ids[i] in s.nodes && o.ids[i] in o.spans && o.spans[o.ids[i]].pos == i && o.ids[i] != 0
  {
  }

  /** The parent of a subtree that grew is still there. */
  lemma GrewStays(s: Store, o: Order, t: Store, u: Order, cur: nat, c: nat, y: nat, onLeft: bool, id: nat, key: int,
      val: int)
    requires Grew(s, o, t, u, cur, c, y, onLeft, id, key, val) && s.nodes[cur].parent != 0
    ensures s.nodes[cur].parent in s.nodes && s.nodes[cur].parent in t.nodes
  {
    hide Linked, NodeOk, Moved, Bracket, AvlBut, HangStore, HangOrder, In;
    BothSides(s, o, cur);
    HungElsewhere(s, o, t, u, cur, c, y, onLeft, id, key, val, s.nodes[cur].parent);
  }
}
