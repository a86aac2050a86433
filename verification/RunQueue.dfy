/** The scheduler's queue: doubly linked nodes between a front and a back pointer, and the current process. */
module RunQueues {

  /** A node; 0 is the null pointer. */
  datatype QNode = QNode(value: nat, prev: nat, next: nat)

  /** The chain from front to back visits exactly ids; back pointers are right from the second node on. */
  ghost predicate Linked(nodes: map<nat, QNode>, front: nat, back: nat, ids: seq<nat>) {
    && 0 !in nodes
    && (forall i :: 0 <= i < |ids| ==> ids[i] in nodes)
    && (forall i {:trigger NodeOk(nodes, ids, i)} :: 0 <= i < |ids| ==> NodeOk(nodes, ids, i))
    && (forall i, j :: 0 <= i < j < |ids| ==> ids[i] != ids[j])
    && (if ids == [] then front == 0 && back == 0 else front == ids[0] && back == ids[|ids| - 1])
  }

  ghost predicate NodeOk(nodes: map<nat, QNode>, ids: seq<nat>, i: nat)
    requires i < |ids| && ids[i] in nodes
  {
    && nodes[ids[i]].next == (if i + 1 < |ids| then ids[i + 1] else 0)
    && (i > 0 ==> nodes[ids[i]].prev == ids[i - 1])
  }

  function ValueOf(nodes: map<nat, QNode>, x: nat): nat {
    if x in nodes then nodes[x].value else 0
  }

  ghost function Values(nodes: map<nat, QNode>, ids: seq<nat>): (vs: seq<nat>)
    ensures |vs| == |ids| && forall i :: 0 <= i < |ids| ==> vs[i] == ValueOf(nodes, ids[i])
  {
    seq(|ids|, i requires 0 <= i < |ids| => ValueOf(nodes, ids[i]))
  }

  /** The nodes with one more behind the last. */
  ghost function Appended(nodes: map<nat, QNode>, back: nat, ids: seq<nat>, id: nat, v: nat): map<nat, QNode>
    requires ids != [] ==> back in nodes
  {
    (if ids == [] then nodes else nodes[back := nodes[back].(next := id)])[id := QNode(v, back, 0)]
  }

  lemma AppendNode(nodes: map<nat, QNode>, front: nat, back: nat, ids: seq<nat>, id: nat, v: nat, i: nat)
    requires Linked(nodes, front, back, ids) && id !in nodes && id != 0 && i <= |ids|
    ensures ids != [] ==> back in nodes
    ensures var after, js := Appended(nodes, back, ids, id, v), ids + [id];
      js[i] in after && NodeOk(after, js, i) && ValueOf(after, js[i]) == if i < |ids| then ValueOf(nodes, ids[i]) else v
  {
    if i < |ids| {
      assert NodeOk(nodes, ids, i);
    }
  }

  lemma AppendLinked(nodes: map<nat, QNode>, front: nat, back: nat, ids: seq<nat>, id: nat, v: nat)
    requires Linked(nodes, front, back, ids) && id !in nodes && id != 0
    ensures ids != [] ==> back in nodes
    ensures var after := Appended(nodes, back, ids, id, v);
      && Linked(after, if ids == [] then id else front, id, ids + [id])
      && Values(after, ids + [id]) == Values(nodes, ids) + [v]
  {
    hide NodeOk, ValueOf;
    AppendNode(nodes, front, back, ids, id, v, |ids|);
    var after, js := Appended(nodes, back, ids, id, v), ids + [id];
    forall i | 0 <= i < |js| ensures js[i] in after && NodeOk(after, js, i)
      && ValueOf(after, js[i]) == if i < |ids| then ValueOf(nodes, ids[i]) else v
    {
      AppendNode(nodes, front, back, ids, id, v, i);
    }
  }

  lemma DropLinked(nodes: map<nat, QNode>, front: nat, back: nat, ids: seq<nat>)
    requires Linked(nodes, front, back, ids) && ids != []
    ensures front in nodes && front != 0 && nodes[front].next == (if |ids| > 1 then ids[1] else 0)
    ensures nodes[front].value == Values(nodes, ids)[0]
    ensures Linked(nodes - {front}, nodes[front].next, if back == front then 0 else back, ids[1..])
    ensures Values(nodes - {front}, ids[1..]) == Values(nodes, ids)[1..]
  {
    hide NodeOk;
    var after, js := nodes - {front}, ids[1..];
    FrontNode(nodes, front, back, ids);
    forall i | 0 <= i < |js| ensures js[i] in after && NodeOk(after, js, i) {
      DropNode(nodes, front, back, ids, i);
    }
    assert forall i :: 0 <= i < |js| ==> js[i] == ids[i + 1];
  }

  lemma FrontNode(nodes: map<nat, QNode>, front: nat, back: nat, ids: seq<nat>)
    requires Linked(nodes, front, back, ids) && ids != []
    ensures front in nodes && front != 0 && nodes[front].next == (if |ids| > 1 then ids[1] else 0)
  {
    assert NodeOk(nodes, ids, 0);
  }

  lemma DropNode(nodes: map<nat, QNode>, front: nat, back: nat, ids: seq<nat>, i: nat)
    requires Linked(nodes, front, back, ids) && i + 1 < |ids|
    ensures ids[1..][i] in nodes - {front} && NodeOk(nodes - {front}, ids[1..], i)
  {
    assert NodeOk(nodes, ids, i + 1);
    assert ids[i + 1] != front;
  }

  class RunQueue {
    var nodes: map<nat, QNode>
    var front: nat
    var back: nat
    var size: nat
    var current: nat
    var nextId: nat
    ghost var ids: seq<nat>

    ghost predicate Valid()
      reads this
    {
      Linked(nodes, front, back, ids) && size == |ids| && nextId > 0 && forall x :: x in nodes ==> x < nextId
    }

    /** The queued processes, front first. */
    ghost function Contents(): seq<nat>
      reads this
    {
      Values(nodes, ids)
    }

    constructor ()
      ensures Valid() && Contents() == [] && current == 0
    {
      nodes, front, back, size, current, nextId, ids := map[], 0, 0, 0, 0, 1, [];
    }

    method Enqueue(p: nat)
      requires Valid()
      modifies this
      ensures Valid() && Contents() == old(Contents()) + [p] && current == old(current)
    {
      hide NodeOk;
      AppendLinked(nodes, front, back, ids, nextId, p);
      var id := nextId;
      nextId := nextId + 1;
      if size == 0 {
        nodes := nodes[id := QNode(p, 0, 0)];
        front := id;
      } else {
        var last := back;
        nodes := nodes[last := nodes[last].(next := id)];
        nodes := nodes[id := QNode(p, last, 0)];
      }
      back := id;
      size := size + 1;
      ids := ids + [id];
    }

    /** Takes the process at the front, or gives null. */
    method Dequeue() returns (p: nat)
      requires Valid()
      modifies this
      ensures Valid() && current == old(current)
      ensures old(Contents()) == [] ==> p == 0 && Contents() == []
      ensures old(Contents()) != [] ==> p == old(Contents())[0] && Contents() == old(Contents())[1..]
    {
      hide NodeOk;
      if size == 0 {
        return 0;
      }
      DropLinked(nodes, front, back, ids);
      var node := front;
      front := nodes[front].next;
      if back == node {
        back := 0;
      }
      p := nodes[node].value;
      nodes := nodes - {node};
      size := size - 1;
      ids := ids[1..];
    }

    /** Round robin: the current process goes to the back and the front becomes current; with nobody at all to run the
    current process stays null. */
    method SchedNext()
      requires Valid()
      modifies this
      ensures Valid()
      ensures var q := if old(current) != 0 then old(Contents()) + [old(current)] else old(Contents());
        if q == [] then current == 0 && Contents() == [] else current == q[0] && Contents() == q[1..]
    {
      hide Linked;
      if current != 0 {
        Enqueue(current);
      }
      if size != 0 {
        current := Dequeue();
      }
    }

    method SetCurrent(p: nat)
      requires Valid()
      modifies this`current
      ensures Valid() && current == p && Contents() == old(Contents())
    {
      current := p;
    }
  }
}
