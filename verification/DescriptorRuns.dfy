/** Runs of opening, piping, closing, duplicating and cloning descriptors. */
module DescriptorRuns {
  import opened Descriptors

  /** Storing under the lowest-looking number: the size of the table. */
  function Chosen(w: World, p: nat): nat
    requires p in w.procs
  {
    |w.procs[p]|
  }

  function Open(w: World, p: nat): World
    requires p in w.procs
  {
    Store(NewContext(w, Plain), p, Chosen(w, p), w.nextCtx)
  }

  /** A new pipe with one end of each kind, not yet stored. */
  function NewPipe(w: World): (t: World)
    ensures t.procs == w.procs && w.nextCtx in t.ctxs && w.nextCtx + 1 in t.ctxs
  {
    var q, r := w.nextPipe, w.nextCtx;
    w.(pipes := w.pipes[q := Ends(1, 1)], nextPipe := q + 1,
       ctxs := w.ctxs[r := Context(Reader(q), 0)][r + 1 := Context(Writer(q), 0)], nextCtx := r + 2)
  }

  function CreatePipe(w: World, p: nat): World
    requires p in w.procs
  {
    var w1 := NewPipe(w);
    var w2 := Store(w1, p, Chosen(w1, p), w.nextCtx);
    Store(w2, p, Chosen(w2, p), w.nextCtx + 1)
  }

  lemma PipeSlots(w: World)
    requires SlotsOk(w)
    ensures SlotsOk(NewPipe(w))
  {
    assert Named(w.procs, w.nextCtx) == {} && Named(w.procs, w.nextCtx + 1) == {};
  }

  lemma NewPipeEnds(w: World, q: nat)
    requires SlotsOk(w) && EndsOk(w) && PipesOk(w) && q in NewPipe(w).pipes
    ensures NewPipe(w).pipes[q] == CountEnds(NewPipe(w).ctxs, q)
  {
    hide EndsOf, CountEnds;
    var n := w.nextPipe;
    var one := w.ctxs[w.nextCtx := Context(Reader(n), 0)];
    EndsInsert(w.ctxs, w.nextCtx, Reader(n), q);
    EndsInsert(one, w.nextCtx + 1, Writer(n), q);
    if q == n {
      NoneYet(w, n);
    }
  }

  lemma NoneYet(w: World, q: nat)
    requires EndsOk(w) && q !in w.pipes
    ensures CountEnds(w.ctxs, q) == Ends(0, 0)
  {
    forall c | c in w.ctxs ensures w.ctxs[c].kind != Reader(q) && w.ctxs[c].kind != Writer(q) {
      assert OnLivePipe(w, c);
    }
    assert EndsOf(w.ctxs, Reader(q)) == {} && EndsOf(w.ctxs, Writer(q)) == {};
  }

  lemma NewPipeKeeps(w: World)
    requires Inv(w, {})
    ensures Inv(NewPipe(w), {w.nextCtx, w.nextCtx + 1})
  {
    hide SlotsOk, CountEnds;
    PipeSlots(w);
    var t := NewPipe(w);
    forall q | q in t.pipes ensures t.pipes[q] == CountEnds(t.ctxs, q) && t.pipes[q] != Ends(0, 0) {
      NewPipeEnds(w, q);
    }
    forall d | d in t.ctxs ensures OnLivePipe(t, d) {
      if d in w.ctxs {
        assert OnLivePipe(w, d);
      }
    }
  }

  lemma OpenKeeps(w: World, p: nat)
    requires Inv(w, {}) && p in w.procs && Chosen(w, p) !in w.procs[p]
    ensures Inv(Open(w, p), {})
  {
    CloneOneKeeps(w, Plain, p, Chosen(w, p));
  }

  lemma CreatePipeKeeps(w: World, p: nat)
    requires Inv(w, {}) && p in w.procs && Chosen(w, p) !in w.procs[p] && Chosen(w, p) + 1 !in w.procs[p]
    ensures Inv(CreatePipe(w, p), {})
  {
    hide Inv, NewPipe, With, Store;
    NewPipeKeeps(w);
    var w1, r := NewPipe(w), w.nextCtx;
    var w2 := Store(w1, p, Chosen(w1, p), r);
    StoreKeeps(w1, p, Chosen(w1, p), r, {r, r + 1});
    SecondUnused(w1, p, r);
    PendingLess(r);
    StoreKeeps(w2, p, Chosen(w2, p), r + 1, {r + 1});
  }

  lemma PendingLess(r: nat)
    ensures {r, r + 1} - {r} == {r + 1} && {r + 1} - {r + 1} == {}
  {
  }

  /** Storing under the table's size makes the next number the table's size. */
  lemma SecondUnused(w: World, p: nat, c: nat)
    requires p in w.procs && c in w.ctxs && Chosen(w, p) !in w.procs[p]
    ensures var t := Store(w, p, Chosen(w, p), c);
      Chosen(t, p) == Chosen(w, p) + 1 && (Chosen(w, p) + 1 !in w.procs[p] ==> Chosen(t, p) !in t.procs[p])
  {
    hide With;
    TableGrows(w.procs[p], Chosen(w, p), c);
  }

  lemma TableGrows(t: Table, fd: int, c: nat)
    requires fd !in t
    ensures |With(t, fd, c)| == |t| + 1 && With(t, fd, c).Keys == t.Keys + {fd}
  {
    assert With(t, fd, c).Keys == t.Keys + {fd};
    assert |With(t, fd, c)| == |With(t, fd, c).Keys|;
  }

  /** One descriptor of a clone: a copy of the context, stored under the same number. */
  function CloneFd(w: World, from: nat, to: nat, fd: int): World
    requires from in w.procs && to in w.procs && fd in w.procs[from]
    requires w.procs[from][fd] in w.ctxs && OnLivePipe(w, w.procs[from][fd])
  {
    Store(NewContext(w, w.ctxs[w.procs[from][fd]].kind), to, fd, w.nextCtx)
  }

  /** The table is ready to receive these descriptors of another. */
  ghost predicate Receives(w: World, from: nat, to: nat, fds: seq<int>) {
    && from in w.procs && to in w.procs && from != to
    && (forall i :: 0 <= i < |fds| ==> fds[i] in w.procs[from] && fds[i] !in w.procs[to])
    && (forall i, j :: 0 <= i < j < |fds| ==> fds[i] != fds[j])
  }

  lemma CloneFdKeeps(w: World, from: nat, to: nat, fds: seq<int>)
    requires Inv(w, {}) && Receives(w, from, to, fds) && fds != []
    ensures w.procs[from][fds[0]] in w.ctxs && OnLivePipe(w, w.procs[from][fds[0]])
    ensures Inv(CloneFd(w, from, to, fds[0]), {})
    ensures CloneFd(w, from, to, fds[0]).procs == w.procs[to := With(w.procs[to], fds[0], w.nextCtx)]
    ensures Receives(CloneFd(w, from, to, fds[0]), from, to, fds[1..])
  {
    hide Inv, With;
    SlotLive(w, from, fds[0]);
    var fd, c := fds[0], w.procs[from][fds[0]];
    CloneOneKeeps(w, w.ctxs[c].kind, to, fd);
    ReceivesRest(w, CloneFd(w, from, to, fd), from, to, fds, w.nextCtx);
  }

  lemma ReceivesRest(w: World, t: World, from: nat, to: nat, fds: seq<int>, c: nat)
    requires Receives(w, from, to, fds) && fds != [] && t.procs == w.procs[to := With(w.procs[to], fds[0], c)]
    ensures Receives(t, from, to, fds[1..])
  {
  }

  lemma CloneOneKeeps(w: World, k: Kind, to: nat, fd: int)
    requires Inv(w, {}) && (k.Plain? || k.pipe in w.pipes) && to in w.procs && fd !in w.procs[to]
    ensures Inv(Store(NewContext(w, k), to, fd, w.nextCtx), {})
  {
    hide Inv;
    NewContextKeeps(w, k, {});
    StoreKeeps(NewContext(w, k), to, fd, w.nextCtx, {} + {w.nextCtx});
    assert {} + {w.nextCtx} - {w.nextCtx} == {};
  }

  /** Every descriptor of a process cloned into another. */
  ghost function CloneFds(w: World, from: nat, to: nat, fds: seq<int>): (t: World)
    requires Inv(w, {}) && Receives(w, from, to, fds)
    ensures Inv(t, {})
    decreases |fds|
  {
    if fds == [] then w
    else
      CloneFdKeeps(w, from, to, fds);
      CloneFds(CloneFd(w, from, to, fds[0]), from, to, fds[1..])
  }

  /** A context that exists stays as it is while others are cloned, but for what names it. */
  lemma CloneFdOld(w: World, from: nat, to: nat, fds: seq<int>, c: nat)
    requires Inv(w, {}) && Receives(w, from, to, fds) && fds != [] && c in w.ctxs
    ensures w.procs[from][fds[0]] in w.ctxs && OnLivePipe(w, w.procs[from][fds[0]])
    ensures var t := CloneFd(w, from, to, fds[0]);
      c != w.nextCtx && c in t.ctxs && t.ctxs[c] == w.ctxs[c] && w.nextCtx in t.ctxs
      && t.ctxs[w.nextCtx] == Context(w.ctxs[w.procs[from][fds[0]]].kind, 1) && t.nextCtx == w.nextCtx + 1
  {
    SlotLive(w, from, fds[0]);
  }

  /** Cloning gives each descriptor a context of its own, of the same kind and named once, and leaves the old ones
  alone. */
  lemma {:induction false} CloneIsFresh(w: World, from: nat, to: nat, fds: seq<int>, c: nat)
    requires Inv(w, {}) && Receives(w, from, to, fds) && c in w.ctxs
    ensures var t := CloneFds(w, from, to, fds);
      && c in t.ctxs && t.ctxs[c] == w.ctxs[c] && from in t.procs && t.procs[from] == w.procs[from] && to in t.procs
      && (forall fd :: fd in w.procs[to] ==> fd in t.procs[to] && t.procs[to][fd] == w.procs[to][fd])
      && (forall i :: 0 <= i < |fds| ==> ClonedAt(w, t, from, to, fds[i]))
    decreases |fds|
  {
    hide Inv, CloneFd;
    if fds != [] {
      CloneFdKeeps(w, from, to, fds);
      CloneFdOld(w, from, to, fds, c);
      var v := CloneFd(w, from, to, fds[0]);
      CloneIsFresh(v, from, to, fds[1..], c);
      CloneIsFresh(v, from, to, fds[1..], w.nextCtx);
      forall i | 1 <= i < |fds| ensures ClonedAt(w, CloneFds(w, from, to, fds), from, to, fds[i]) {
        assert ClonedAt(v, CloneFds(v, from, to, fds[1..]), from, to, fds[1..][i - 1]);
        SlotLive(w, from, fds[i]);
        CloneFdOld(w, from, to, fds, w.procs[from][fds[i]]);
      }
    }
  }

  ghost predicate ClonedAt(w: World, t: World, from: nat, to: nat, fd: int)
    requires from in w.procs && to in t.procs && fd in w.procs[from]
  {
    && fd in t.procs[to] && t.procs[to][fd] >= w.nextCtx && t.procs[to][fd] in t.ctxs
    && w.procs[from][fd] in w.ctxs && t.ctxs[t.procs[to][fd]] == Context(w.ctxs[w.procs[from][fd]].kind, 1)
  }

  /** One descriptor of a copied process object: the same context, referenced once more. */
  function ShareFd(w: World, from: nat, to: nat, fd: int): World
    requires from in w.procs && to in w.procs && fd in w.procs[from] && w.procs[from][fd] in w.ctxs
  {
    Store(w, to, fd, w.procs[from][fd])
  }

  lemma ShareFdKeeps(w: World, from: nat, to: nat, fds: seq<int>)
    requires Inv(w, {}) && Receives(w, from, to, fds) && fds != []
    ensures w.procs[from][fds[0]] in w.ctxs && Inv(ShareFd(w, from, to, fds[0]), {})
    ensures Receives(ShareFd(w, from, to, fds[0]), from, to, fds[1..])
  {
    hide Inv, With;
    SlotLive(w, from, fds[0]);
    var c := w.procs[from][fds[0]];
    StoreKeeps(w, to, fds[0], c, {});
    assert {} - {c} == {};
    ReceivesRest(w, ShareFd(w, from, to, fds[0]), from, to, fds, c);
  }

  ghost function ShareFds(w: World, from: nat, to: nat, fds: seq<int>): (t: World)
    requires Inv(w, {}) && Receives(w, from, to, fds)
    ensures Inv(t, {})
    decreases |fds|
  {
    if fds == [] then w
    else
      ShareFdKeeps(w, from, to, fds);
      ShareFds(ShareFd(w, from, to, fds[0]), from, to, fds[1..])
  }

  /** A process object with an empty table. */
  function NewProcess(w: World, p: nat): World {
    w.(procs := w.procs[p := map[]])
  }

  /** The descriptors of a table, each once. */
  ghost predicate Lists(t: Table, fds: seq<int>) {
    && (forall i :: 0 <= i < |fds| ==> fds[i] in t)
    && (forall i, j :: 0 <= i < j < |fds| ==> fds[i] != fds[j])
    && (forall fd :: fd in t ==> fd in fds)
  }

  lemma NewProcessKeeps(w: World, from: nat, to: nat, fds: seq<int>)
    requires Inv(w, {}) && to !in w.procs
    ensures Inv(NewProcess(w, to), {})
    ensures from in w.procs && Lists(w.procs[from], fds) ==> Receives(NewProcess(w, to), from, to, fds)
  {
    hide CountEnds;
    var t := NewProcess(w, to);
    forall c ensures Named(t.procs, c) == Named(w.procs, c) {
    }
    forall c | c in t.ctxs ensures OnLivePipe(t, c) {
      assert OnLivePipe(w, c);
    }
  }

  datatype Step =
    | OpenStep(p: nat)
    | PipeStep(p: nat)
    | CloseStep(p: nat, fd: int)
    | DupStep(p: nat, oldFd: int, newFd: int)
    | CloneStep(p: nat, to: nat, fds: seq<int>)
    | CopyStep(p: nat, to: nat, fds: seq<int>)

  /** A step the run may take: a chosen descriptor is unused, and a descriptor is not duplicated onto itself. */
  ghost predicate Enabled(w: World, e: Step) {
    && e.p in w.procs
    && (e.OpenStep? ==> Chosen(w, e.p) !in w.procs[e.p])
    && (e.PipeStep? ==> Chosen(w, e.p) !in w.procs[e.p] && Chosen(w, e.p) + 1 !in w.procs[e.p])
    && (e.DupStep? ==> e.oldFd != e.newFd)
    && (e.CloneStep? ==> e.to !in w.procs && Lists(w.procs[e.p], e.fds))
    && (e.CopyStep? ==> e.to !in w.procs && Lists(w.procs[e.p], e.fds))
  }

  /** Every enabled step keeps every count. */
  ghost function Apply(w: World, e: Step): (t: World)
    requires Inv(w, {}) && Enabled(w, e)
    ensures Inv(t, {})
  {
    match e
    case OpenStep(p) => OpenKeeps(w, p); Open(w, p)
    case PipeStep(p) => CreatePipeKeeps(w, p); CreatePipe(w, p)
    case CloseStep(p, fd) => SlotLive(w, p, fd); if fd !in w.procs[p] then w
        else CloseKeeps(w, p, fd, {}); Close(w, p, fd)
    case DupStep(p, oldFd, newFd) => DupExact(w, p, oldFd, newFd); Dup(w, p, oldFd, newFd)
    case CloneStep(p, to, fds) => NewProcessKeeps(w, p, to, fds); CloneFds(NewProcess(w, to), p, to, fds)
    case CopyStep(p, to, fds) => NewProcessKeeps(w, p, to, fds); ShareFds(NewProcess(w, to), p, to, fds)
  }

  ghost predicate EnabledRun(w: World, es: seq<Step>)
    requires Inv(w, {})
    decreases |es|
  {
    es == [] || (Enabled(w, es[0]) && EnabledRun(Apply(w, es[0]), es[1..]))
  }

  ghost function Run(w: World, es: seq<Step>): World
    requires Inv(w, {}) && EnabledRun(w, es)
    decreases |es|
  {
    if es == [] then w else Run(Apply(w, es[0]), es[1..])
  }

  lemma {:induction false} RunInv(w: World, es: seq<Step>)
    requires Inv(w, {}) && EnabledRun(w, es)
    ensures Inv(Run(w, es), {})
    decreases |es|
  {
    hide Inv, Enabled;
    if es != [] {
      RunInv(Apply(w, es[0]), es[1..]);
    }
  }

  /** Over every run, a context's count is the number of slots naming it, and it lives exactly as long as there is
  one. */
  lemma ContextsCounted(w: World, es: seq<Step>, c: nat)
    requires Inv(w, {}) && EnabledRun(w, es)
    ensures var t := Run(w, es);
      && (c in t.ctxs <==> Named(t.procs, c) != {})
      && (c in t.ctxs ==> t.ctxs[c].count == |Named(t.procs, c)|)
  {
    hide Run, EnabledRun;
    RunInv(w, es);
    var t := Run(w, es);
    if Named(t.procs, c) != {} {
      var s :| s in Named(t.procs, c);
      assert t.procs[s.pid][s.fd] == c;
    }
  }

  ghost function Times(s: seq<nat>, q: nat): nat {
    multiset(s)[q]
  }

  /** Over every run, a pipe is live exactly as long as it has a live end, its end counts are right, and a pipe that
  is not live any more was deleted exactly once. */
  lemma PipesDeletedOnce(w: World, es: seq<Step>, q: nat)
    requires Inv(w, {}) && EnabledRun(w, es)
    ensures var t := Run(w, es);
      && (q in t.pipes <==> exists c :: c in t.ctxs && (t.ctxs[c].kind == Reader(q) || t.ctxs[c].kind == Writer(q)))
      && (q in t.pipes ==> t.pipes[q] == CountEnds(t.ctxs, q))
      && Times(t.freed, q) == if q < t.nextPipe && q !in t.pipes then 1 else 0
  {
    hide Run, EnabledRun, SlotsOk;
    RunInv(w, es);
    var t := Run(w, es);
    PipeHasEnd(t, q);
    FreedOnce(t.freed, q);
    if q in t.freed {
      var i :| 0 <= i < |t.freed| && t.freed[i] == q;
    }
  }

  lemma PipeHasEnd(t: World, q: nat)
    requires EndsOk(t)
    ensures q in t.pipes <==> exists c :: c in t.ctxs && (t.ctxs[c].kind == Reader(q) || t.ctxs[c].kind == Writer(q))
  {
    if q in t.pipes {
      if EndsOf(t.ctxs, Reader(q)) != {} {
        var c :| c in EndsOf(t.ctxs, Reader(q));
      } else {
        var c :| c in EndsOf(t.ctxs, Writer(q));
      }
    } else {
      forall c | c in t.ctxs ensures t.ctxs[c].kind != Reader(q) && t.ctxs[c].kind != Writer(q) {
        assert OnLivePipe(t, c);
      }
    }
  }

  lemma {:induction false} FreedOnce(s: seq<nat>, q: nat)
    requires forall i, j :: 0 <= i < j < |s| ==> s[i] != s[j]
    ensures Times(s, q) == if q in s then 1 else 0
    decreases |s|
  {
    if s != [] {
      FreedOnce(s[1..], q);
      assert s == [s[0]] + s[1..];
      assert multiset(s) == multiset{s[0]} + multiset(s[1..]);
      if q == s[0] {
        assert q !in s[1..];
      }
    }
  }
}
