/** The descriptor calls of the process layer, in place over tables, contexts and pipes. */
module FileTables {
  import opened Descriptors
  import opened DescriptorRuns

  const None: int := 0
  const Unknown: int := -1
  const NoFile: int := -4
  const Exists: int := -8

  class Files {
    var procs: map<nat, Table>
    var ctxs: map<nat, Context>
    var pipes: map<nat, Ends>
    var nextCtx: nat
    var nextPipe: nat
    /** The pipes deleted so far, in order. */
    ghost var freed: seq<nat>

    ghost function View(): World
      reads this
    {
      World(procs, ctxs, pipes, freed, nextCtx, nextPipe)
    }

    constructor ()
      ensures View() == World(map[], map[], map[], [], 0, 0) && Inv(View(), {})
    {
      procs, ctxs, pipes, nextCtx, nextPipe, freed := map[], map[], map[], 0, 0, [];
    }

    /** A process object with an empty table. */
    method AddProcess(p: nat)
      requires Inv(View(), {}) && p !in procs
      modifies this
      ensures Inv(View(), {}) && View() == NewProcess(old(View()), p)
    {
      NewProcessKeeps(View(), p, p, []);
      procs := procs[p := map[]];
    }

    /** A new file context; an end announces itself at its pipe. */
    method NewFileContext(k: Kind) returns (c: nat)
      requires k.Plain? || k.pipe in pipes
      modifies this
      ensures c == old(nextCtx) && View() == NewContext(old(View()), k)
    {
      c := nextCtx;
      ctxs := ctxs[c := Context(k, 0)];
      nextCtx := nextCtx + 1;
      match k
      case Plain =>
      case Reader(q) => pipes := pipes[q := pipes[q].(readers := pipes[q].readers + 1)];
      case Writer(q) => pipes := pipes[q := pipes[q].(writers := pipes[q].writers + 1)];
    }

    /** The destructor of a context; the last end of a pipe deletes the pipe. */
    method DeleteFileContext(c: nat)
      requires c in ctxs && OnLivePipe(View(), c)
      modifies this
      ensures View() == Destroy(old(View()), c)
    {
      var k := ctxs[c].kind;
      ctxs := ctxs - {c};
      if !k.Plain? {
        var q := k.pipe;
        if k.Reader? {
          pipes := pipes[q := pipes[q].(readers := pipes[q].readers - 1)];
        } else {
          pipes := pipes[q := pipes[q].(writers := pipes[q].writers - 1)];
        }
        if pipes[q].readers == 0 && pipes[q].writers == 0 {
          assert pipes - {q} == old(pipes) - {q};
          pipes := pipes - {q};
          freed := freed + [q];
        }
      }
    }

    /** Stores a context under the number the table size suggests, which must be unused. */
    method StoreFileContext(p: nat, c: nat) returns (fd: nat)
      requires p in procs && c in ctxs && Chosen(View(), p) !in procs[p]
      modifies this
      ensures fd == Chosen(old(View()), p) && View() == Store(old(View()), p, fd, c)
    {
      fd := |procs[p]|;
      procs := procs[p := With(procs[p], fd, c)];
      ctxs := ctxs[c := ctxs[c].(count := ctxs[c].count + 1)];
    }

    /** Stores a context under a given number, unless that is taken. */
    method StoreFileContextAt(p: nat, c: nat, fd: int) returns (status: int)
      requires p in procs && c in ctxs
      modifies this
      ensures fd in old(procs)[p] ==> status == -8 && View() == old(View())
      ensures fd !in old(procs)[p] ==> status == 0 && View() == Store(old(View()), p, fd, c)
    {
      if fd in procs[p] {
        return Exists;
      }
      procs := procs[p := With(procs[p], fd, c)];
      ctxs := ctxs[c := ctxs[c].(count := ctxs[c].count + 1)];
      return None;
    }

    /** Closes a descriptor; the context goes when its last reference does. */
    method CloseFileContext(p: nat, fd: int) returns (status: int)
      requires Inv(View(), {}) && p in procs
      modifies this
      ensures Inv(View(), {}) && procs.Keys == old(procs).Keys
      ensures fd !in old(procs)[p] ==> status == -4 && View() == old(View())
      ensures fd in old(procs)[p] ==>
          old(procs)[p][fd] in old(ctxs) && status == 0 && View() == Close(old(View()), p, fd)
    {
      hide Inv, SlotsOk;
      if fd !in procs[p] {
        return NoFile;
      }
      SlotLive(View(), p, fd);
      CloseKeeps(View(), p, fd, {});
      var c := procs[p][fd];
      procs := procs[p := procs[p] - {fd}];
      ctxs := ctxs[c := ctxs[c].(count := ctxs[c].count - 1)];
      if ctxs[c].count <= 0 {
        DeleteFileContext(c);
      }
      return None;
    }

    /** Makes newFd an alias of oldFd, closing what newFd named before. */
    method Fddup(p: nat, oldFd: int, newFd: int) returns (status: int)
      requires Inv(View(), {}) && p in procs && oldFd != newFd
      modifies this
      ensures Inv(View(), {}) && (newFd in old(procs)[p] ==> old(procs)[p][newFd] in old(ctxs))
      ensures View() == Dup(old(View()), p, oldFd, newFd)
      ensures status == if oldFd in old(procs)[p] then 0 else -4
    {
      hide Inv, Close;
      ghost var w := View();
      DupExact(w, p, oldFd, newFd);
      if oldFd !in procs[p] {
        return NoFile;
      }
      var c := procs[p][oldFd];
      SlotLive(w, p, oldFd);
      if newFd in procs[p] {
        CloseTable(w, p, newFd);
        SharedStays(w, p, oldFd, newFd);
        status := CloseFileContext(p, newFd);
        if status != 0 {
          return Unknown;
        }
      }
      status := StoreFileContextAt(p, c, newFd);
      if status != None {
        return Unknown;
      }
    }

    /** A new pipe whose two ends are stored in the process's table. */
    method SyscallCreatePipe(p: nat) returns (reader: nat, writer: nat)
      requires Inv(View(), {}) && p in procs && Chosen(View(), p) !in procs[p] && Chosen(View(), p) + 1 !in procs[p]
      modifies this
      ensures Inv(View(), {}) && View() == CreatePipe(old(View()), p)
      ensures reader == Chosen(old(View()), p) && writer == reader + 1
    {
      hide Inv, NewPipe, With;
      CreatePipeKeeps(View(), p);
      var r, s := MakePipe();
      TableGrows(procs[p], Chosen(View(), p), r);
      reader := StoreFileContext(p, r);
      writer := StoreFileContext(p, s);
    }

    /** A new pipe and one end of each kind. */
    method MakePipe() returns (r: nat, s: nat)
      modifies this
      ensures r == old(nextCtx) && s == r + 1 && View() == NewPipe(old(View()))
    {
      var q := nextPipe;
      nextPipe := nextPipe + 1;
      pipes := pipes[q := Ends(0, 0)];
      r := NewFileContext(Reader(q));
      s := NewFileContext(Writer(q));
      assert pipes == old(pipes)[q := Ends(1, 1)];
    }

    method SyscallOpen(p: nat) returns (fd: nat)
      requires Inv(View(), {}) && p in procs && Chosen(View(), p) !in procs[p]
      modifies this
      ensures Inv(View(), {}) && View() == Open(old(View()), p) && fd == Chosen(old(View()), p)
    {
      hide Inv;
      OpenKeeps(View(), p);
      var c := NewFileContext(Plain);
      fd := StoreFileContext(p, c);
    }

    /** Clones the descriptors of a process, in table order, into a new process object. */
    method CloneFiles(p: nat, to: nat, fds: seq<int>)
      requires Inv(View(), {}) && Enabled(View(), CloneStep(p, to, fds))
      modifies this
      ensures Inv(View(), {}) && View() == Apply(old(View()), CloneStep(p, to, fds))
    {
      hide Inv, CloneFd;
      NewProcessKeeps(View(), p, to, fds);
      procs := procs[to := map[]];
      ghost var goal := CloneFds(View(), p, to, fds);
      assert fds[0..] == fds;
      for i := 0 to |fds|
        invariant Inv(View(), {}) && Receives(View(), p, to, fds[i..]) && goal == CloneFds(View(), p, to, fds[i..])
      {
        CloneOne(p, to, fds[i..], fds[i]);
        assert fds[i..][1..] == fds[i + 1..];
      }
    }

    method CloneOne(p: nat, to: nat, ghost fds: seq<int>, fd: int)
      requires Inv(View(), {}) && Receives(View(), p, to, fds) && fds != [] && fd == fds[0]
      modifies this
      ensures old(procs)[p][fd] in old(ctxs) && OnLivePipe(old(View()), old(procs)[p][fd])
      ensures View() == CloneFd(old(View()), p, to, fd)
      ensures Inv(View(), {}) && Receives(View(), p, to, fds[1..])
      ensures CloneFds(old(View()), p, to, fds) == CloneFds(View(), p, to, fds[1..])
    {
      hide Inv;
      CloneFdKeeps(View(), p, to, fds);
      var c := NewFileContext(ctxs[procs[p][fd]].kind);
      var _ := StoreFileContextAt(to, c, fd);
    }

    /** Copies a process object: the copy's descriptors name the same contexts. */
    method CopyFiles(p: nat, to: nat, fds: seq<int>)
      requires Inv(View(), {}) && Enabled(View(), CopyStep(p, to, fds))
      modifies this
      ensures Inv(View(), {}) && View() == Apply(old(View()), CopyStep(p, to, fds))
    {
      hide Inv;
      NewProcessKeeps(View(), p, to, fds);
      procs := procs[to := map[]];
      ghost var goal := ShareFds(View(), p, to, fds);
      assert fds[0..] == fds;
      for i := 0 to |fds|
        invariant Inv(View(), {}) && Receives(View(), p, to, fds[i..]) && goal == ShareFds(View(), p, to, fds[i..])
      {
        ShareFdKeeps(View(), p, to, fds[i..]);
        var _ := StoreFileContextAt(to, procs[p][fds[i]], fds[i]);
        assert fds[i..][1..] == fds[i + 1..];
      }
    }
  }

  /** Closing one of two descriptors leaves the other's context alive. */
  lemma SharedStays(w: World, p: nat, oldFd: int, newFd: int)
    requires Inv(w, {}) && p in w.procs && oldFd in w.procs[p] && newFd in w.procs[p] && oldFd != newFd
    ensures w.procs[p][newFd] in w.ctxs && w.procs[p][oldFd] in Close(w, p, newFd).ctxs
  {
    SlotLive(w, p, newFd);
    SlotLive(w, p, oldFd);
    hide Close;
    CloseTable(w, p, newFd);
    if w.procs[p][oldFd] == w.procs[p][newFd] {
      TwoSlots(w, p, oldFd, newFd);
    }
  }
}
