/** Processes and the kernel's scheduling calls, in place over a run queue and a process table. */
module Kernels {
  import opened Scheduling
  import opened RunQueues

  class Process {
    var parent: nat
    var state: State
    var ctx: Ctx
    var backup: Option<Ctx>
    var actions: seq<Action>

    function View(): Proc
      reads this
    {
      Proc(parent, state, ctx, backup, actions)
    }

    constructor (parent: nat, ctx: Ctx)
      ensures View() == NewProc(parent, ctx)
    {
      this.parent, state, this.ctx, backup := parent, Active, ctx, None;
      actions := [];
      new;
      for i := 0 to MaxSignal
        invariant actions == seq(i, k => NoAction)
        invariant this.parent == parent && state == Active && this.ctx == ctx && backup == None
      {
        actions := actions + [NoAction];
      }
    }

    method StoreContext(newCtx: Ctx)
      modifies this`ctx
      ensures View() == old(View()).(ctx := newCtx)
    {
      ctx := newCtx;
    }

    method SetReturnValue(v: int)
      modifies this`ctx
      ensures View() == old(View()).(ctx := old(ctx).(x0 := v))
    {
      ctx := ctx.(x0 := v);
    }

    /** Installs a handler, or none for a null one; out of range nothing happens. */
    method SetSignalAction(sig: int, handler: int, trampoline: int, userdata: int)
      requires |actions| == MaxSignal
      modifies this`actions
      ensures View() == WithAction(old(View()), sig, handler, trampoline, userdata)
    {
      if sig < 0 || sig >= MaxSignal {
        return;
      }
      if handler == 0 {
        actions := actions[sig := NoAction];
      } else {
        actions := actions[sig := Handle(handler, trampoline, userdata)];
      }
    }

    /** Puts the context by and enters the handler, unless one is already running. */
    method SignalTrigger(sig: int) returns (status: int)
      requires |actions| == MaxSignal
      modifies this
      ensures (View(), status) == Triggered(old(View()), sig)
      ensures 0 <= sig < MaxSignal && old(actions)[sig].Handle? && old(state) != InSignal ==>
        && status == 0 && state == InSignal && backup == Some(old(ctx))
        && ctx.pc == actions[sig].handler && ctx.lr == actions[sig].trampoline && ctx.x0 == actions[sig].userdata
        && ctx.sp == old(ctx).sp && ctx.rest == old(ctx).rest
      ensures parent == old(parent) && actions == old(actions)
    {
      if sig < 0 || sig >= MaxSignal {
        return 0;
      }
      match actions[sig]
      case NoAction =>
        return 0;
      case Handle(handler, trampoline, userdata) =>
        if state == InSignal {
          return -1;
        }
        backup := Some(ctx);
        ctx := FunctionCall(ctx, handler, trampoline, userdata);
        state := InSignal;
        return 0;
      case Kill =>
        return 1;
    }

    /** Restores the context put by. */
    method SignalReturn()
      requires state == InSignal ==> backup.Some?
      modifies this
      ensures View() == Returned(old(View()))
    {
      if state != InSignal {
        return;
      }
      ctx := backup.value;
      backup := None;
      state := Active;
    }
  }

  class Kernel {
    const scheduler: RunQueue
    var processTable: map<nat, Process>
    var currPid: nat

    ghost predicate Valid()
      reads this, scheduler
    {
      && scheduler.Valid()
      && (forall p, q :: p in processTable && q in processTable && p != q ==> processTable[p] != processTable[q])
    }

    ghost function Procs(): map<nat, Proc>
      reads this, processTable.Values
    {
      map pid | pid in processTable :: processTable[pid].View()
    }

    ghost function View(): Sys
      reads this, scheduler, processTable.Values
    {
      Sys(scheduler.current, scheduler.Contents(), Procs(), currPid)
    }

    constructor ()
      ensures Valid() && fresh(scheduler) && View() == Sys(0, [], map[], 1)
    {
      scheduler := new RunQueue();
      processTable, currPid := map[], 1;
    }

    method SwitchTask()
      requires Valid() && (scheduler.current != 0 || scheduler.Contents() != [])
      modifies scheduler
      ensures Valid() && View() == Switch(old(View()))
    {
      scheduler.SchedNext();
      assert Procs() == old(Procs());
    }

    method SetCallerReturn(v: int)
      requires Valid() && scheduler.current in processTable
      modifies processTable[scheduler.current]
      ensures Valid() && View() == WithReturn(old(View()), v)
    {
      var p := processTable[scheduler.current];
      p.SetReturnValue(v);
      assert Procs() == old(Procs())[scheduler.current := p.View()];
    }

    method AddProcess(pid: nat, p: Process)
      requires Valid() && pid !in processTable && p !in processTable.Values
      modifies this`processTable, scheduler
      ensures Valid() && View() == Scheduling.AddProcess(old(View()), pid, p.View())
      ensures processTable == old(processTable)[pid := p]
    {
      processTable := processTable[pid := p];
      assert Procs() == old(Procs())[pid := p.View()];
      if p.state == Active {
        scheduler.Enqueue(pid);
      }
    }

    /** The first half of every system call and interrupt. */
    method StoreCallerContext(ctx: Ctx)
      requires Valid() && scheduler.current in processTable
      modifies processTable[scheduler.current]
      ensures Valid() && View() == Apply(old(View()), Trap(ctx))
    {
      var p := processTable[scheduler.current];
      p.StoreContext(ctx);
      assert Procs() == old(Procs())[scheduler.current := p.View()];
    }

    method SyscallClone(fn: int, stack: int, userdata: int)
      requires Valid() && scheduler.current in processTable && currPid !in processTable
      modifies this, scheduler, processTable[scheduler.current]
      ensures Valid() && View() == Apply(old(View()), Clone(fn, stack, userdata))
    {
      ghost var before := View();
      var pid := currPid;
      currPid := currPid + 1;
      var child := new Process(scheduler.current, FunctionCall(Ctx(fn, stack, 30, 0, 0), fn, 0, userdata));
      assert Procs() == old(Procs());
      AddProcess(pid, child);
      SetCallerReturn(0);
    }

    method SyscallYield()
      requires Valid() && scheduler.current in processTable && scheduler.current != 0
      modifies scheduler, processTable[scheduler.current]
      ensures Valid() && View() == Apply(old(View()), Yield)
    {
      SetCallerReturn(0);
      SwitchTask();
    }

    method TimerTick()
      requires Valid() && scheduler.current in processTable && scheduler.current != 0
      modifies scheduler
      ensures Valid() && View() == Apply(old(View()), Timer)
    {
      SwitchTask();
    }

    /** The current process stops being scheduled and nobody is current. */
    method Suspend()
      requires Valid() && scheduler.current in processTable
      modifies scheduler`current, processTable[scheduler.current]
      ensures Valid() && scheduler.Contents() == old(scheduler.Contents())
      ensures var s := old(View()); View() == s.(procs := s.procs[s.current := s.procs[s.current].(state := SigWait)], current := 0)
    {
      hide Linked;
      var p := processTable[scheduler.current];
      p.state := SigWait;
      assert Procs() == old(Procs())[scheduler.current := p.View()];
      scheduler.SetCurrent(0);
    }

    method SyscallSigwait()
      requires Valid() && scheduler.current in processTable && scheduler.Contents() != []
      modifies scheduler, processTable[scheduler.current]
      ensures Valid() && View() == Apply(old(View()), Sigwait)
    {
      hide Linked, Switch;
      Suspend();
      SwitchTask();
    }

    /** Raises a signal on a process; with no KILL action installed the status is never positive, so nobody is killed.
    */
    method RaiseSignal(pid: nat, sig: int) returns (status: int)
      requires Valid() && Base(View())
      modifies scheduler, processTable.Values
      ensures Valid() && (View(), status) == Raise(old(View()), pid, sig) && status <= 0
    {
      hide Linked;
      if pid !in processTable {
        return -1;
      }
      var p := processTable[pid];
      assert View().procs[pid] == p.View() && Sound(p.View());
      if p.state != Active && p.state != SigWait {
        return -1;
      }
      var schedule := p.state == SigWait;
      TriggeredSound(p.View(), sig);
      status := p.SignalTrigger(sig);
      assert Procs() == old(Procs())[pid := p.View()];
      if status == 0 && schedule {
        scheduler.Enqueue(pid);
      }
    }

    method SyscallSigraise(pid: nat, sig: int)
      requires Valid() && Base(View()) && scheduler.current in processTable
      modifies scheduler, processTable.Values
      ensures Valid() && View() == Apply(old(View()), Sigraise(pid, sig))
    {
      hide Linked, Raise;
      ghost var cur := scheduler.current;
      RaiseKeepsTable(View(), pid, sig);
      var status := RaiseSignal(pid, sig);
      assert scheduler.current == View().current == cur;
      if status <= 0 {
        SetCallerReturn(status);
      }
    }

    method SyscallSigret()
      requires Valid() && Base(View()) && scheduler.current in processTable
      modifies processTable.Values
      ensures Valid() && View() == Apply(old(View()), Sigret)
    {
      hide Linked;
      assert Sound(View().procs[scheduler.current]);
      var p := processTable[scheduler.current];
      p.SignalReturn();
      assert Procs() == old(Procs())[scheduler.current := p.View()];
    }

    method SyscallSigaction(sig: int, handler: int, trampoline: int, userdata: int)
      requires Valid() && Base(View()) && scheduler.current in processTable
      modifies processTable.Values
      ensures Valid() && View() == Apply(old(View()), Sigaction(sig, handler, trampoline, userdata))
    {
      hide Linked;
      assert Sound(View().procs[scheduler.current]);
      var p := processTable[scheduler.current];
      p.SetSignalAction(sig, handler, trampoline, userdata);
      assert Procs() == old(Procs())[scheduler.current := p.View()];
      SetCallerReturn(0);
    }
  }

  lemma RaiseKeepsTable(s: Sys, pid: nat, sig: int)
    ensures Raise(s, pid, sig).0.current == s.current
  {
  }
}
