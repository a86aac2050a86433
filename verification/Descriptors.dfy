/** Descriptor tables, reference-counted file contexts and the pipes behind them, as one world of live objects. */
module Descriptors {

  /** What a file context is: a plain file, or an end of a pipe. */
  datatype Kind = Plain | Reader(pipe: nat) | Writer(pipe: nat)

  datatype Context = Context(kind: Kind, count: int)

  datatype Ends = Ends(readers: int, writers: int)

  /** A descriptor table: which context each descriptor names. */
  type Table = map<int, nat>

  function With(t: Table, fd: int, c: nat): Table {
    map f | f in t.Keys + {fd} :: if f == fd then c else t[f]
  }

  datatype Slot = Slot(pid: nat, fd: int)

  /** The descriptor tables of all process objects, the live contexts, the live pipes, and the pipes deleted so far. */
  datatype World = World(
    procs: map<nat, Table>, ctxs: map<nat, Context>, pipes: map<nat, Ends>, freed: seq<nat>, nextCtx: nat,
        nextPipe: nat)

  /** The descriptor slots that name a context. */
  ghost function Named(procs: map<nat, Table>, c: nat): set<Slot> {
    set p, fd | p in procs && fd in procs[p] && procs[p][fd] == c :: Slot(p, fd)
  }

  /** The live contexts of a kind. */
  ghost function EndsOf(ctxs: map<nat, Context>, k: Kind): set<nat> {
    set c | c in ctxs && ctxs[c].kind == k
  }

  ghost function CountEnds(ctxs: map<nat, Context>, q: nat): Ends {
    Ends(|EndsOf(ctxs, Reader(q))|, |EndsOf(ctxs, Writer(q))|)
  }

  function Store(w: World, p: nat, fd: int, c: nat): (t: World)
    requires p in w.procs && c in w.ctxs
    ensures t.procs.Keys == w.procs.Keys && t.ctxs.Keys == w.ctxs.Keys
  {
    w.(procs := w.procs[p := With(w.procs[p], fd, c)], ctxs := w.ctxs[c := w.ctxs[c].(count := w.ctxs[c].count + 1)])
  }

  /** Deleting a context: an end leaves its pipe, and the last end deletes the pipe. */
  function Destroy(w: World, c: nat): World
    requires c in w.ctxs
  {
    var k, rest := w.ctxs[c].kind, w.(ctxs := w.ctxs - {c});
    if k.Plain? || k.pipe !in w.pipes then rest
    else
      var e := w.pipes[k.pipe];
      var left := if k.Reader? then e.(readers := e.readers - 1) else e.(writers := e.writers - 1);
      if left == Ends(0, 0) then rest.(pipes := w.pipes - {k.pipe}, freed := w.freed + [k.pipe])
      else rest.(pipes := w.pipes[k.pipe := left])
  }

  /** The slot is emptied and its context loses a reference. */
  function Drop(w: World, p: nat, fd: int): World
    requires p in w.procs && fd in w.procs[p] && w.procs[p][fd] in w.ctxs
  {
    var c := w.procs[p][fd];
    w.(procs := w.procs[p := w.procs[p] - {fd}], ctxs := w.ctxs[c := w.ctxs[c].(count := w.ctxs[c].count - 1)])
  }

  function Close(w: World, p: nat, fd: int): World
    requires p in w.procs && fd in w.procs[p] && w.procs[p][fd] in w.ctxs
  {
    var c, d := w.procs[p][fd], Drop(w, p, fd);
    if d.ctxs[c].count <= 0 then Destroy(d, c) else d
  }

  /** A fresh context without references; a new end is counted at its pipe. */
  function NewContext(w: World, k: Kind): World
    requires k.Plain? || k.pipe in w.pipes
  {
    var next := w.(ctxs := w.ctxs[w.nextCtx := Context(k, 0)], nextCtx := w.nextCtx + 1);
    match k
    case Plain => next
    case Reader(q) => next.(pipes := w.pipes[q := w.pipes[q].(readers := w.pipes[q].readers + 1)])
    case Writer(q) => next.(pipes := w.pipes[q := w.pipes[q].(writers := w.pipes[q].writers + 1)])
  }

  /** Every slot names a live context, and a context's count is the number of slots naming it. */
  ghost predicate SlotsOk(w: World) {
    && (forall p, fd :: p in w.procs && fd in w.procs[p] ==> w.procs[p][fd] in w.ctxs)
    && (forall c :: c in w.ctxs ==> w.ctxs[c].count == |Named(w.procs, c)| && c < w.nextCtx)
  }

  /** A context is live only while some slot names it, apart from those about to be stored. */
  ghost predicate LiveOk(w: World, pending: set<nat>) {
    forall c :: c in w.ctxs && c !in pending ==> w.ctxs[c].count >= 1
  }

  predicate OnLivePipe(w: World, c: nat)
    requires c in w.ctxs
  {
    w.ctxs[c].kind.Plain? || w.ctxs[c].kind.pipe in w.pipes
  }

  /** Every live end has a live pipe, whose counts are the numbers of its live ends; a pipe without ends is gone. */
  ghost predicate EndsOk(w: World) {
    && (forall c :: c in w.ctxs ==> OnLivePipe(w, c))
    && (forall q :: q in w.pipes ==> w.pipes[q] == CountEnds(w.ctxs, q) && w.pipes[q] != Ends(0, 0))
  }

  /** Every pipe ever created is either live or was deleted once. */
  ghost predicate PipesOk(w: World) {
    && (forall q :: q in w.pipes ==> q < w.nextPipe)
    && (forall i :: 0 <= i < |w.freed| ==> w.freed[i] < w.nextPipe && w.freed[i] !in w.pipes)
    && (forall i, j :: 0 <= i < j < |w.freed| ==> w.freed[i] != w.freed[j])
    && (forall q :: 0 <= q < w.nextPipe ==> q in w.pipes || q in w.freed)
  }

  ghost predicate Inv(w: World, pending: set<nat>) {
    SlotsOk(w) && LiveOk(w, pending) && EndsOk(w) && PipesOk(w)
  }

  lemma NamedStore(procs: map<nat, Table>, p: nat, fd: int, c: nat, d: nat)
    requires p in procs && fd !in procs[p]
    ensures var after := procs[p := With(procs[p], fd, c)];
      Named(after, d) == Named(procs, d) + (if c == d then {Slot(p, fd)} else {}) && Slot(p, fd) !in Named(procs, d)
  {
    var after := procs[p := With(procs[p], fd, c)];
    forall s ensures s in Named(after, d) <==> s in Named(procs, d) || (c == d && s == Slot(p, fd)) {
      if s == Slot(p, fd) {
        assert after[p][fd] == c;
      }
    }
  }

  lemma NamedDrop(procs: map<nat, Table>, p: nat, fd: int, d: nat)
    requires p in procs && fd in procs[p]
    ensures var after := procs[p := procs[p] - {fd}];
      Named(after, d) == Named(procs, d) - {Slot(p, fd)} && (Slot(p, fd) in Named(procs, d) <==> procs[p][fd] == d)
  {
    var after := procs[p := procs[p] - {fd}];
    forall s ensures s in Named(after, d) <==> s in Named(procs, d) && s != Slot(p, fd) {
    }
  }

  /** Changing reference counts does not change who is an end of what. */
  lemma EndsRecount(ctxs: map<nat, Context>, c: nat, n: int, q: nat)
    requires c in ctxs
    ensures CountEnds(ctxs[c := ctxs[c].(count := n)], q) == CountEnds(ctxs, q)
  {
    var after := ctxs[c := ctxs[c].(count := n)];
    assert EndsOf(after, Reader(q)) == EndsOf(ctxs, Reader(q));
    assert EndsOf(after, Writer(q)) == EndsOf(ctxs, Writer(q));
  }

  lemma StoreCount(procs: map<nat, Table>, p: nat, fd: int, c: nat, d: nat)
    requires p in procs && fd !in procs[p]
    ensures |Named(procs[p := With(procs[p], fd, c)], d)| == |Named(procs, d)| + if c == d then 1 else 0
  {
    hide Named;
    NamedStore(procs, p, fd, c, d);
  }

  lemma StoreSlots(w: World, p: nat, fd: int, c: nat)
    requires SlotsOk(w) && p in w.procs && fd !in w.procs[p] && c in w.ctxs
    ensures SlotsOk(Store(w, p, fd, c))
  {
    hide Named;
    var t := Store(w, p, fd, c);
    forall d | d in t.ctxs ensures t.ctxs[d].count == |Named(t.procs, d)| {
      StoreCount(w.procs, p, fd, c, d);
    }
  }

  /** Storing a context in an unused descriptor keeps all counts right. */
  lemma StoreKeeps(w: World, p: nat, fd: int, c: nat, pending: set<nat>)
    requires Inv(w, pending) && p in w.procs && fd !in w.procs[p] && c in w.ctxs
    ensures Inv(Store(w, p, fd, c), pending - {c})
  {
    hide SlotsOk, CountEnds;
    var t := Store(w, p, fd, c);
    StoreSlots(w, p, fd, c);
    CountHolds(w, c);
    forall q | q in t.pipes ensures t.pipes[q] == CountEnds(t.ctxs, q) {
      EndsRecount(w.ctxs, c, w.ctxs[c].count + 1, q);
    }
    forall d | d in t.ctxs ensures OnLivePipe(t, d) {
      assert OnLivePipe(w, d);
    }
  }

  lemma CountHolds(w: World, c: nat)
    requires SlotsOk(w) && c in w.ctxs
    ensures w.ctxs[c].count == |Named(w.procs, c)| >= 0 && c < w.nextCtx
  {
  }

  lemma DropSlots(w: World, p: nat, fd: int)
    requires SlotsOk(w) && p in w.procs && fd in w.procs[p]
    ensures w.procs[p][fd] in w.ctxs && SlotsOk(Drop(w, p, fd))
  {
    var t, c := Drop(w, p, fd), w.procs[p][fd];
    hide Named;
    forall d | d in t.ctxs ensures t.ctxs[d].count == |Named(t.procs, d)| {
      NamedDrop(w.procs, p, fd, d);
      if d != c {
        assert Named(w.procs, d) - {Slot(p, fd)} == Named(w.procs, d);
      }
    }
  }

  lemma DropKeeps(w: World, p: nat, fd: int, pending: set<nat>)
    requires Inv(w, pending) && p in w.procs && fd in w.procs[p]
    ensures w.procs[p][fd] in w.ctxs && Inv(Drop(w, p, fd), pending + {w.procs[p][fd]})
  {
    hide SlotsOk, CountEnds;
    DropSlots(w, p, fd);
    var t, c := Drop(w, p, fd), w.procs[p][fd];
    forall q | q in t.pipes ensures t.pipes[q] == CountEnds(t.ctxs, q) {
      EndsRecount(w.ctxs, c, w.ctxs[c].count - 1, q);
    }
    forall d | d in t.ctxs ensures OnLivePipe(t, d) {
      assert OnLivePipe(w, d);
    }
  }

  lemma EndsRemove(ctxs: map<nat, Context>, c: nat, q: nat)
    requires c in ctxs
    ensures var k, e := ctxs[c].kind, CountEnds(ctxs, q);
      CountEnds(ctxs - {c}, q) == if k == Reader(q) then e.(readers := e.readers - 1)
          else if k == Writer(q) then e.(writers := e.writers - 1) else e
  {
    assert EndsOf(ctxs - {c}, Reader(q)) == EndsOf(ctxs, Reader(q)) - {c};
    assert EndsOf(ctxs - {c}, Writer(q)) == EndsOf(ctxs, Writer(q)) - {c};
  }

  lemma NoEndsLeft(ctxs: map<nat, Context>, q: nat, d: nat)
    requires CountEnds(ctxs, q) == Ends(0, 0) && d in ctxs
    ensures ctxs[d].kind != Reader(q) && ctxs[d].kind != Writer(q)
  {
    assert d !in EndsOf(ctxs, Reader(q)) && d !in EndsOf(ctxs, Writer(q));
  }

  lemma DestroySlots(w: World, c: nat)
    requires SlotsOk(w) && c in w.ctxs && w.ctxs[c].count == 0
    ensures SlotsOk(Destroy(w, c))
  {
    var t := Destroy(w, c);
    assert Named(w.procs, c) == {};
    forall p, fd | p in t.procs && fd in t.procs[p] ensures t.procs[p][fd] in t.ctxs {
      assert Slot(p, fd) in Named(w.procs, c) <==> w.procs[p][fd] == c;
    }
  }

  lemma DestroyEnds(w: World, c: nat)
    requires EndsOk(w) && c in w.ctxs
    ensures EndsOk(Destroy(w, c))
  {
    hide CountEnds;
    var t, k := Destroy(w, c), w.ctxs[c].kind;
    assert OnLivePipe(w, c);
    forall q | q in t.pipes ensures t.pipes[q] == CountEnds(t.ctxs, q) && t.pipes[q] != Ends(0, 0) {
      EndsRemove(w.ctxs, c, q);
    }
    forall d | d in t.ctxs ensures OnLivePipe(t, d) {
      assert OnLivePipe(w, d);
      if !k.Plain? {
        EndsRemove(w.ctxs, c, k.pipe);
        if k.pipe !in t.pipes {
          NoEndsLeft(t.ctxs, k.pipe, d);
        }
      }
    }
  }

  lemma DestroyPipes(w: World, c: nat)
    requires PipesOk(w) && c in w.ctxs
    ensures PipesOk(Destroy(w, c))
  {
    var t, k := Destroy(w, c), w.ctxs[c].kind;
    if t.freed != w.freed {
      assert t.freed[|w.freed|] == k.pipe;
      assert forall q :: q in w.freed ==> q in t.freed;
    }
  }

  /** Closing a descriptor destroys its context exactly when that was the last slot naming it. */
  lemma CloseKeeps(w: World, p: nat, fd: int, pending: set<nat>)
    requires Inv(w, pending) && p in w.procs && fd in w.procs[p] && w.procs[p][fd] !in pending
    ensures w.procs[p][fd] in w.ctxs && Inv(Close(w, p, fd), pending)
    ensures var c, t := w.procs[p][fd], Close(w, p, fd); c !in t.ctxs <==> Named(t.procs, c) == {}
  {
    hide SlotsOk, EndsOk, PipesOk, Named;
    DropKeeps(w, p, fd, pending);
    var c, d := w.procs[p][fd], Drop(w, p, fd);
    CountHolds(d, c);
    if d.ctxs[c].count <= 0 {
      DestroySlots(d, c);
      DestroyEnds(d, c);
      DestroyPipes(d, c);
    }
  }

  lemma EndsInsert(ctxs: map<nat, Context>, c: nat, k: Kind, q: nat)
    requires c !in ctxs
    ensures var e := CountEnds(ctxs, q);
      CountEnds(ctxs[c := Context(k, 0)], q) == if k == Reader(q) then e.(readers := e.readers + 1)
          else if k == Writer(q) then e.(writers := e.writers + 1) else e
  {
    hide EndsOf;
    EndsInsertOne(ctxs, c, k, Reader(q));
    EndsInsertOne(ctxs, c, k, Writer(q));
  }

  lemma EndsInsertOne(ctxs: map<nat, Context>, c: nat, k: Kind, j: Kind)
    requires c !in ctxs
    ensures |EndsOf(ctxs[c := Context(k, 0)], j)| == |EndsOf(ctxs, j)| + if k == j then 1 else 0
  {
    var after := ctxs[c := Context(k, 0)];
    if k == j {
      assert EndsOf(after, j) == EndsOf(ctxs, j) + {c};
    } else {
      assert EndsOf(after, j) == EndsOf(ctxs, j);
    }
  }

  lemma NewSlots(w: World, k: Kind)
    requires SlotsOk(w) && (k.Plain? || k.pipe in w.pipes)
    ensures SlotsOk(NewContext(w, k)) && w.nextCtx !in w.ctxs
  {
    assert Named(w.procs, w.nextCtx) == {};
  }

  /** A new context is pending until it is stored. */
  lemma NewContextKeeps(w: World, k: Kind, pending: set<nat>)
    requires Inv(w, pending) && (k.Plain? || k.pipe in w.pipes)
    ensures Inv(NewContext(w, k), pending + {w.nextCtx}) && w.nextCtx !in w.ctxs
  {
    hide SlotsOk, CountEnds;
    NewSlots(w, k);
    var t := NewContext(w, k);
    forall q | q in t.pipes ensures t.pipes[q] == CountEnds(t.ctxs, q) && t.pipes[q] != Ends(0, 0) {
      EndsInsert(w.ctxs, w.nextCtx, k, q);
      EndCountsNatural(w.ctxs, q);
    }
    forall d | d in t.ctxs ensures OnLivePipe(t, d) {
      if d != w.nextCtx {
        assert OnLivePipe(w, d);
      }
    }
  }

  lemma EndCountsNatural(ctxs: map<nat, Context>, q: nat)
    ensures CountEnds(ctxs, q).readers >= 0 && CountEnds(ctxs, q).writers >= 0
  {
  }

  /** Storing a context that may already be gone: the slot is written all the same. */
  function StoreAny(w: World, p: nat, fd: int, c: nat): World
    requires p in w.procs
  {
    if c in w.ctxs then Store(w, p, fd, c) else w.(procs := w.procs[p := With(w.procs[p], fd, c)])
  }

  /** Duplicating a descriptor: the new one is closed first when it is in use. */
  function Dup(w: World, p: nat, oldFd: int, newFd: int): World
    requires p in w.procs && (newFd in w.procs[p] ==> w.procs[p][newFd] in w.ctxs)
  {
    if oldFd !in w.procs[p] then w
    else
      var c := w.procs[p][oldFd];
      var freed := if newFd in w.procs[p] then Close(w, p, newFd) else w;
      StoreAny(freed, p, newFd, c)
  }

  lemma CloseTable(w: World, p: nat, fd: int)
    requires p in w.procs && fd in w.procs[p] && w.procs[p][fd] in w.ctxs
    ensures Close(w, p, fd).procs == w.procs[p := w.procs[p] - {fd}] && Close(w, p, fd).nextCtx == w.nextCtx
    ensures forall d :: d in w.ctxs && d != w.procs[p][fd] ==> d in Close(w, p, fd).ctxs
    ensures w.procs[p][fd] in Close(w, p, fd).ctxs <==> w.ctxs[w.procs[p][fd]].count > 1
  {
  }

  lemma TwoSlots(w: World, p: nat, a: int, b: int)
    requires SlotsOk(w) && p in w.procs && a in w.procs[p] && b in w.procs[p] && a != b
    requires w.procs[p][a] == w.procs[p][b]
    ensures w.procs[p][a] in w.ctxs && w.ctxs[w.procs[p][a]].count > 1
  {
    var c := w.procs[p][a];
    assert {Slot(p, a), Slot(p, b)} <= Named(w.procs, c);
    SubsetSize({Slot(p, a), Slot(p, b)}, Named(w.procs, c));
  }

  lemma {:induction false} SubsetSize(a: set<Slot>, b: set<Slot>)
    requires a <= b
    ensures |a| <= |b|
  {
    if a != {} {
      var x :| x in a;
      SubsetSize(a - {x}, b - {x});
    }
  }

  /** Duplication keeps every count right exactly when it does not close the only slot of the very context it is about
  to store, that is unless both descriptors are the same and nobody else names the context. */
  lemma DupExact(w: World, p: nat, oldFd: int, newFd: int)
    requires Inv(w, {}) && p in w.procs
    ensures newFd in w.procs[p] ==> w.procs[p][newFd] in w.ctxs
    ensures Inv(Dup(w, p, oldFd, newFd), {}) <==>
      !(oldFd == newFd && oldFd in w.procs[p] && w.procs[p][oldFd] in w.ctxs && w.ctxs[w.procs[p][oldFd]].count == 1)
  {
    hide EndsOk, PipesOk, Named, Close;
    SlotLive(w, p, newFd);
    SlotLive(w, p, oldFd);
    if oldFd in w.procs[p] {
      var c := w.procs[p][oldFd];
      if newFd in w.procs[p] {
        CloseKeeps(w, p, newFd, {});
        CloseTable(w, p, newFd);
        if oldFd != newFd && w.procs[p][newFd] == c {
          TwoSlots(w, p, oldFd, newFd);
        }
      }
      var freed := if newFd in w.procs[p] then Close(w, p, newFd) else w;
      assert newFd !in freed.procs[p];
      if c in freed.ctxs {
        StoreKeeps(freed, p, newFd, c, {});
        assert {} - {c} == {};
      } else {
        Dangling(freed, p, newFd, c);
      }
    }
  }

  lemma SlotLive(w: World, p: nat, fd: int)
    requires Inv(w, {}) && p in w.procs
    ensures fd in w.procs[p] ==> w.procs[p][fd] in w.ctxs && w.ctxs[w.procs[p][fd]].count >= 1
    ensures fd in w.procs[p] ==> OnLivePipe(w, w.procs[p][fd]) && w.procs[p][fd] < w.nextCtx
  {
    if fd in w.procs[p] {
      assert w.procs[p][fd] in w.ctxs;
      assert OnLivePipe(w, w.procs[p][fd]);
    }
  }

  lemma Dangling(w: World, p: nat, fd: int, c: nat)
    requires p in w.procs && c !in w.ctxs
    ensures !SlotsOk(StoreAny(w, p, fd, c))
  {
    assert StoreAny(w, p, fd, c).procs[p][fd] == c;
  }

  /** One process with one descriptor, which alone names its context. */
  function OneSlot(): World {
    World(map[1 := map[0 := 0]], map[0 := Context(Plain, 1)], map[], [], 1, 0)
  }

  lemma OneSlotHolds()
    ensures Inv(OneSlot(), {})
  {
    var w := OneSlot();
    assert w.procs[1][0] == 0;
    assert Named(w.procs, 0) == {Slot(1, 0)};
  }

  /** Duplicating that descriptor onto itself destroys the context and then stores it. */
  lemma DupOntoItself()
    ensures 1 in OneSlot().procs && Inv(OneSlot(), {}) && !Inv(Dup(OneSlot(), 1, 0, 0), {})
    ensures Dup(OneSlot(), 1, 0, 0).procs[1][0] !in Dup(OneSlot(), 1, 0, 0).ctxs
  {
    OneSlotHolds();
    DupExact(OneSlot(), 1, 0, 0);
    CloseTable(OneSlot(), 1, 0);
  }
}
