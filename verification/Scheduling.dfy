/** The process layer as a state machine: run queue, process states, signals, and runs of kernel steps. */
module Scheduling {
  import opened Sequences

  /** The registers a signal or a system call touches; `rest` stands for all the others. */
  datatype Ctx = Ctx(pc: int, sp: int, lr: int, x0: int, rest: int)

  datatype State = Active | InSignal | SigWait

  datatype Action = NoAction | Handle(handler: int, trampoline: int, userdata: int) | Kill

  datatype Option<T> = None | Some(value: T)

  const MaxSignal: nat := 64

  datatype Proc = Proc(parent: nat, state: State, ctx: Ctx, backup: Option<Ctx>, actions: seq<Action>)

  function FunctionCall(c: Ctx, fn: int, returnTo: int, arg: int): Ctx {
    c.(pc := fn, lr := returnTo, x0 := arg)
  }

  /** A process as the constructor leaves it: active, no backup, no signal actions. */
  function NewProc(parent: nat, ctx: Ctx): Proc {
    Proc(parent, Active, ctx, None, seq(MaxSignal, i => NoAction))
  }

  function ActionFor(p: Proc, sig: int): Action {
    if 0 <= sig < MaxSignal && sig < |p.actions| then p.actions[sig] else NoAction
  }

  function WithAction(p: Proc, sig: int, handler: int, trampoline: int, userdata: int): Proc {
    if sig < 0 || sig >= MaxSignal || sig >= |p.actions| then p
    else p.(actions := p.actions[sig := if handler == 0 then NoAction else Handle(handler, trampoline, userdata)])
  }

  /** The process after a signal, and the status of the trigger. */
  function Triggered(p: Proc, sig: int): (Proc, int) {
    match ActionFor(p, sig)
    case NoAction => (p, 0)
    case Handle(h, t, u) =>
      if p.state == InSignal then (p, -1)
      else (p.(backup := Some(p.ctx), ctx := FunctionCall(p.ctx, h, t, u), state := InSignal), 0)
    case Kill => (p, 1)
  }

  function Returned(p: Proc): Proc {
    if p.state != InSignal || p.backup == None then p
    else p.(ctx := p.backup.value, backup := None, state := Active)
  }

  /** The kernel: the current process (0 for none), the run queue front first, the process table and the pid counter. */
  datatype Sys = Sys(current: nat, queue: seq<nat>, procs: map<nat, Proc>, nextPid: nat)

  datatype Step =
    | Trap(ctx: Ctx)
    | Clone(fn: int, stack: int, userdata: int)
    | Yield
    | Timer
    | Sigwait
    | Sigraise(pid: nat, sig: int)
    | Sigret
    | Sigaction(sig: int, handler: int, trampoline: int, userdata: int)

  function WithReturn(s: Sys, v: int): Sys {
    if s.current in s.procs
    then s.(procs := s.procs[s.current := s.procs[s.current].(ctx := s.procs[s.current].ctx.(x0 := v))])
    else s
  }

  /** Round robin: the current process, if any, goes to the back and the front becomes current. */
  function Switch(s: Sys): Sys {
    var q := if s.current != 0 then s.queue + [s.current] else s.queue;
    if q == [] then s else s.(current := q[0], queue := q[1..])
  }

  function AddProcess(s: Sys, pid: nat, p: Proc): Sys {
    s.(procs := s.procs[pid := p], queue := if p.state == Active then s.queue + [pid] else s.queue)
  }

  /** Raising a signal; a target waiting for one goes back on the queue when the trigger returns 0. */
  function Raise(s: Sys, pid: nat, sig: int): (Sys, int) {
    if pid !in s.procs then (s, -1)
    else
      var p := s.procs[pid];
      if p.state != Active && p.state != SigWait then (s, -1)
      else
        var (q, status) := Triggered(p, sig);
        var t := s.(procs := s.procs[pid := q]);
        (if status == 0 && p.state == SigWait then t.(queue := t.queue + [pid]) else t, status)
  }

  function Apply(s: Sys, e: Step): Sys {
    if s.current !in s.procs then s
    else
      var me := s.procs[s.current];
      match e
      case Trap(c) => s.(procs := s.procs[s.current := me.(ctx := c)])
      case Clone(fn, stack, userdata) =>
        var child := NewProc(s.current, FunctionCall(Ctx(fn, stack, 30, 0, 0), fn, 0, userdata));
        WithReturn(AddProcess(s.(nextPid := s.nextPid + 1), s.nextPid, child), 0)
      case Yield => Switch(WithReturn(s, 0))
      case Timer => Switch(s)
      case Sigwait => Switch(s.(procs := s.procs[s.current := me.(state := SigWait)], current := 0))
      case Sigraise(pid, sig) =>
        var (t, status) := Raise(s, pid, sig);
        if status <= 0 then WithReturn(t, status) else t
      case Sigret => s.(procs := s.procs[s.current := Returned(me)])
      case Sigaction(sig, h, t, u) => WithReturn(s.(procs := s.procs[s.current := WithAction(me, sig, h, t, u)]), 0)
  }

  ghost predicate HasHandler(p: Proc, sig: int) {
    ActionFor(p, sig).Handle?
  }

  /** A step the run may take: sigwait leaves somebody to run, and a sleeper is only woken by a signal it handles. */
  ghost predicate Enabled(s: Sys, e: Step) {
    && (e.Sigwait? ==> s.queue != [])
    && (e.Sigraise? && e.pid in s.procs && s.procs[e.pid].state == SigWait ==> HasHandler(s.procs[e.pid], e.sig))
  }

  /** The process is current, in the queue, or asleep, and only one of these. */
  ghost predicate InOnePlace(s: Sys, pid: nat)
    requires pid in s.procs
  {
    if s.procs[pid].state == SigWait then pid != s.current && pid !in s.queue
    else (pid == s.current) != (pid in s.queue)
  }

  ghost predicate Places(s: Sys) {
    && s.current in s.procs && 0 !in s.procs
    && Distinct(s.queue)
    && (forall i :: 0 <= i < |s.queue| ==> s.queue[i] in s.procs)
    && (forall pid {:trigger s.procs[pid]} :: pid in s.procs ==> InOnePlace(s, pid))
  }

  /** No action is KILL, tables are full size, and a process in a handler has a backup. */
  ghost predicate Sound(p: Proc) {
    && |p.actions| == MaxSignal
    && (forall i :: 0 <= i < MaxSignal ==> p.actions[i] != Kill)
    && (p.state == InSignal ==> p.backup.Some?)
  }

  /** Every process is sound and the pid counter is past every pid in use. */
  ghost predicate Base(s: Sys) {
    forall pid :: pid in s.procs ==> Sound(s.procs[pid]) && pid < s.nextPid
  }

  ghost predicate Inv(s: Sys) {
    Places(s) && Base(s)
  }

  /** Changing one process without putting it to sleep or waking it keeps every place. */
  lemma UpdateKeeps(s: Sys, pid: nat, p: Proc)
    requires Inv(s) && pid in s.procs && Sound(p) && (p.state == SigWait <==> s.procs[pid].state == SigWait)
    ensures Inv(s.(procs := s.procs[pid := p]))
  {
    var t := s.(procs := s.procs[pid := p]);
    forall x | x in t.procs ensures InOnePlace(t, x) {
      assert InOnePlace(s, x);
    }
  }

  lemma ReturnKeeps(s: Sys, v: int)
    requires Inv(s)
    ensures Inv(WithReturn(s, v))
  {
    hide Inv;
    Holds(s, s.current);
    UpdateKeeps(s, s.current, s.procs[s.current].(ctx := s.procs[s.current].ctx.(x0 := v)));
  }

  lemma Holds(s: Sys, pid: nat)
    requires Inv(s)
    ensures s.current in s.procs && s.current != 0
    ensures pid in s.procs ==> Sound(s.procs[pid]) && pid < s.nextPid && InOnePlace(s, pid) && pid != 0
  {
  }

  /** A switch keeps every place when the current process stays runnable. */
  lemma SwitchKeeps(s: Sys)
    requires Inv(s)
    ensures Inv(Switch(s))
  {
    var q := s.queue + [s.current];
    var t := Switch(s);
    assert InOnePlace(s, s.current);
    assert Distinct(q);
    assert t.current == q[0] && t.queue == q[1..];
    assert forall x :: x in q <==> x in s.queue || x == s.current;
    assert q == [q[0]] + q[1..];
    forall x | x in t.procs ensures InOnePlace(t, x) {
      assert InOnePlace(s, x);
    }
  }

  /** Going to sleep with somebody left to run keeps every place. */
  lemma SleepKeeps(s: Sys)
    requires Inv(s) && s.queue != []
    ensures Inv(Apply(s, Sigwait))
  {
    var me := s.procs[s.current].(state := SigWait);
    var t := Apply(s, Sigwait);
    assert t == Sys(s.queue[0], s.queue[1..], s.procs[s.current := me], s.nextPid);
    SleepPlaces(s, me);
  }

  lemma SleepPlaces(s: Sys, me: Proc)
    requires Inv(s) && s.queue != [] && me.state == SigWait && Sound(me)
    ensures Inv(Sys(s.queue[0], s.queue[1..], s.procs[s.current := me], s.nextPid))
  {
    hide Sound;
    var q := s.queue;
    var t := Sys(q[0], q[1..], s.procs[s.current := me], s.nextPid);
    assert InOnePlace(s, s.current);
    assert forall x :: x in q <==> x in q[1..] || x == q[0];
    forall x | x in t.procs ensures InOnePlace(t, x) {
      assert InOnePlace(s, x);
    }
  }

  lemma CloneKeeps(s: Sys, fn: int, stack: int, userdata: int)
    requires Inv(s)
    ensures Inv(Apply(s, Clone(fn, stack, userdata)))
  {
    Holds(s, s.current);
    var child := NewProc(s.current, FunctionCall(Ctx(fn, stack, 30, 0, 0), fn, 0, userdata));
    var t := AddProcess(s.(nextPid := s.nextPid + 1), s.nextPid, child);
    AddKeeps(s, child);
    ReturnKeeps(t, 0);
  }

  lemma AddKeeps(s: Sys, child: Proc)
    requires Inv(s) && child.state == Active && Sound(child)
    ensures Inv(AddProcess(s.(nextPid := s.nextPid + 1), s.nextPid, child))
  {
    Holds(s, s.current);
    var t := AddProcess(s.(nextPid := s.nextPid + 1), s.nextPid, child);
    assert s.nextPid !in s.procs;
    assert forall x :: x in t.queue <==> x in s.queue || x == s.nextPid;
    assert forall i :: 0 <= i < |s.queue| ==> s.queue[i] in s.procs;
    forall x | x in t.procs ensures InOnePlace(t, x) {
      if x != s.nextPid {
        assert InOnePlace(s, x);
      }
    }
  }

  lemma TriggeredSound(p: Proc, sig: int)
    requires Sound(p)
    ensures Sound(Triggered(p, sig).0) && Triggered(p, sig).1 <= 0
    ensures HasHandler(p, sig) && p.state != InSignal ==>
        Triggered(p, sig).0.state == InSignal && Triggered(p, sig).1 == 0
    ensures !HasHandler(p, sig) ==> Triggered(p, sig) == (p, 0)
  {
  }

  /** Waking a sleeper puts it in the queue and nowhere else. */
  lemma WakeKeeps(s: Sys, pid: nat, p: Proc)
    requires Inv(s) && pid in s.procs && s.procs[pid].state == SigWait && p.state == InSignal && Sound(p)
    ensures Inv(s.(procs := s.procs[pid := p], queue := s.queue + [pid]))
  {
    Holds(s, pid);
    var t := s.(procs := s.procs[pid := p], queue := s.queue + [pid]);
    assert forall x :: x in t.queue <==> x in s.queue || x == pid;
    forall x | x in t.procs ensures InOnePlace(t, x) {
      assert InOnePlace(s, x);
    }
  }

  lemma RaiseKeeps(s: Sys, pid: nat, sig: int)
    requires Inv(s) && Enabled(s, Sigraise(pid, sig))
    ensures Inv(Raise(s, pid, sig).0) && Raise(s, pid, sig).1 <= 0
  {
    hide Inv, Sound, Triggered, HasHandler;
    Holds(s, pid);
    if pid in s.procs {
      var p := s.procs[pid];
      TriggeredSound(p, sig);
      if p.state == SigWait {
        WakeKeeps(s, pid, Triggered(p, sig).0);
      } else if p.state == Active {
        UnsleptTrigger(p, sig);
        UpdateKeeps(s, pid, Triggered(p, sig).0);
      }
    }
  }

  lemma UnsleptTrigger(p: Proc, sig: int)
    requires p.state == Active
    ensures Triggered(p, sig).0.state != SigWait
  {
  }

  /** Every enabled step keeps the invariant. */
  lemma StepKeeps(s: Sys, e: Step)
    requires Inv(s) && Enabled(s, e)
    ensures Inv(Apply(s, e))
  {
    hide Inv, Switch;
    Holds(s, s.current);
    var me := s.procs[s.current];
    match e
    case Trap(c) => UpdateKeeps(s, s.current, me.(ctx := c));
    case Clone(fn, stack, userdata) => CloneKeeps(s, fn, stack, userdata);
    case Yield => ReturnKeeps(s, 0); SwitchKeeps(WithReturn(s, 0));
    case Timer => SwitchKeeps(s);
    case Sigwait => SleepKeeps(s);
    case Sigraise(pid, sig) => RaiseKeeps(s, pid, sig); ReturnKeeps(Raise(s, pid, sig).0, Raise(s, pid, sig).1);
    case Sigret => UpdateKeeps(s, s.current, Returned(me));
    case Sigaction(sig, h, t, u) =>
      UpdateKeeps(s, s.current, WithAction(me, sig, h, t, u));
      ReturnKeeps(s.(procs := s.procs[s.current := WithAction(me, sig, h, t, u)]), 0);
  }

  function Run(s: Sys, es: seq<Step>): Sys
    decreases |es|
  {
    if es == [] then s else Run(Apply(s, es[0]), es[1..])
  }

  ghost predicate EnabledRun(s: Sys, es: seq<Step>)
    decreases |es|
  {
    es == [] || (Enabled(s, es[0]) && EnabledRun(Apply(s, es[0]), es[1..]))
  }

  /** Over every run each process is in exactly one place and no action is ever KILL. */
  lemma {:induction false} RunKeeps(s: Sys, es: seq<Step>)
    requires Inv(s) && EnabledRun(s, es)
    ensures Inv(Run(s, es))
    decreases |es|
  {
    hide Inv, Apply, Enabled;
    if es != [] {
      StepKeeps(s, es[0]);
      RunKeeps(Apply(s, es[0]), es[1..]);
    }
  }

  /** The kernel after boot: one process, current. */
  lemma BootHolds(ctx: Ctx)
    ensures Inv(Sys(1, [], map[1 := NewProc(0, ctx)], 2))
  {
  }

  /** Raising a signal on a sleeper keeps every process in one place exactly when the sleeper handles that signal: an
  ignored signal queues it while it still counts as waiting. */
  lemma RaiseExact(s: Sys, pid: nat, sig: int)
    requires Inv(s) && pid in s.procs && s.procs[pid].state == SigWait
    ensures Places(Raise(s, pid, sig).0) <==> HasHandler(s.procs[pid], sig)
  {
    if HasHandler(s.procs[pid], sig) {
      RaiseKeeps(s, pid, sig);
    } else {
      var t := Raise(s, pid, sig).0;
      assert t.queue[|s.queue|] == pid;
      assert t.procs[pid].state == SigWait;
      assert !InOnePlace(t, pid);
    }
  }

  /** Any step at all keeps every process sound. */
  lemma AnyStepSound(s: Sys, e: Step)
    requires Base(s)
    ensures Base(Apply(s, e))
  {
    hide Triggered, Switch;
    if s.current in s.procs {
      var me := s.procs[s.current];
      assert Sound(me);
      match e
      case Trap(c) =>
      case Clone(fn, stack, userdata) =>
      case Yield => SwitchProcs(WithReturn(s, 0));
      case Timer => SwitchProcs(s);
      case Sigwait => SwitchProcs(s.(procs := s.procs[s.current := me.(state := SigWait)], current := 0));
      case Sigraise(pid, sig) => RaiseSound(s, pid, sig);
      case Sigret =>
      case Sigaction(sig, h, t, u) =>
    }
  }

  lemma SwitchProcs(s: Sys)
    ensures Switch(s).procs == s.procs && Switch(s).nextPid == s.nextPid
  {
  }

  lemma RaiseSound(s: Sys, pid: nat, sig: int)
    requires Base(s)
    ensures Base(Raise(s, pid, sig).0) && Raise(s, pid, sig).1 <= 0
  {
    hide Triggered;
    if pid in s.procs {
      TriggeredSound(s.procs[pid], sig);
    }
  }

  /** In every state that any run reaches no action is KILL, so raising a signal never returns a positive status. */
  lemma {:induction false} RaiseNeverKills(s: Sys, es: seq<Step>, pid: nat, sig: int)
    requires Base(s)
    ensures Base(Run(s, es)) && Raise(Run(s, es), pid, sig).1 <= 0
    decreases |es|
  {
    hide Apply, Raise, Base;
    if es == [] {
      RaiseSound(s, pid, sig);
    } else {
      AnyStepSound(s, es[0]);
      RaiseNeverKills(Apply(s, es[0]), es[1..], pid, sig);
    }
  }

  ghost predicate Switches(e: Step) {
    e.Yield? || e.Timer? || e.Sigwait?
  }

  /** How many times a run passes through the scheduler. */
  ghost function SwitchCount(es: seq<Step>): nat
    decreases |es|
  {
    if es == [] then 0 else (if Switches(es[0]) then 1 else 0) + SwitchCount(es[1..])
  }

  /** What one step does to the waiting line: a switch serves its front, anything else only appends. */
  lemma LineStep(s: Sys, e: Step)
    requires Inv(s) && Enabled(s, e)
    ensures !Switches(e) ==> s.queue <= Apply(s, e).queue
    ensures Switches(e) && s.queue != [] ==> Apply(s, e).current == s.queue[0] && s.queue[1..] <= Apply(s, e).queue
  {
    hide Inv;
    Holds(s, s.current);
    if Switches(e) && s.queue != [] && !e.Sigwait? {
      assert (s.queue + [s.current])[1..] == s.queue[1..] + [s.current];
    }
  }

  /** A process at place i of the queue stays in line through i scheduler passes, moving up one place each time. */
  lemma {:induction false} LineMoves(s: Sys, es: seq<Step>, i: nat)
    requires Inv(s) && EnabledRun(s, es) && i < |s.queue| && SwitchCount(es) <= i
    ensures i - SwitchCount(es) < |Run(s, es).queue| && Run(s, es).queue[i - SwitchCount(es)] == s.queue[i]
    decreases |es|
  {
    hide Inv, Apply, Enabled, Switches;
    if es != [] {
      StepKeeps(s, es[0]);
      LineStep(s, es[0]);
      var t := Apply(s, es[0]);
      if Switches(es[0]) {
        assert s.queue[1..][i - 1] == s.queue[i] && t.queue[i - 1] == s.queue[i];
        LineMoves(t, es[1..], i - 1);
      } else {
        assert t.queue[i] == s.queue[i];
        LineMoves(t, es[1..], i);
      }
    }
  }

  /** ...and becomes current at exactly the next pass, the (i+1)-th, whoever was queued or put to sleep meanwhile. */
  lemma TurnComes(s: Sys, es: seq<Step>, e: Step, i: nat)
    requires Inv(s) && EnabledRun(s, es) && i < |s.queue| && SwitchCount(es) == i
    requires Switches(e) && Enabled(Run(s, es), e)
    ensures Apply(Run(s, es), e).current == s.queue[i]
    ensures forall k :: 0 <= k <= |es| ==> Run(s, es[..k]).current != s.queue[i]
  {
    hide Inv, Apply, Enabled, Switches;
    RunKeeps(s, es);
    LineMoves(s, es, i);
    LineStep(Run(s, es), e);
    forall k | 0 <= k <= |es| ensures Run(s, es[..k]).current != s.queue[i] {
      PrefixRun(s, es, k);
      NotYet(s, es[..k], i);
    }
  }

  lemma {:induction false} PrefixRun(s: Sys, es: seq<Step>, k: nat)
    requires EnabledRun(s, es) && k <= |es|
    ensures EnabledRun(s, es[..k]) && SwitchCount(es[..k]) <= SwitchCount(es)
    decreases |es|
  {
    hide Apply, Enabled, Switches;
    if k > 0 {
      PrefixRun(Apply(s, es[0]), es[1..], k - 1);
      assert es[..k][1..] == es[1..][..k - 1];
    }
  }

  lemma NotYet(s: Sys, es: seq<Step>, i: nat)
    requires Inv(s) && EnabledRun(s, es) && i < |s.queue| && SwitchCount(es) <= i
    ensures Run(s, es).current != s.queue[i]
  {
    RunKeeps(s, es);
    LineMoves(s, es, i);
    var t := Run(s, es);
    assert InOnePlace(t, t.current);
  }

  /** The step is this process ending its handler or going to sleep. */
  ghost predicate Leaves(s: Sys, e: Step, pid: nat) {
    s.current == pid && (e.Sigret? || e.Sigwait?)
  }

  /** A process in a signal handler with this context put by. */
  ghost predicate Handling(s: Sys, pid: nat, c: Ctx) {
    pid in s.procs && s.procs[pid].state == InSignal && s.procs[pid].backup == Some(c)
  }

  lemma HandlingStep(s: Sys, e: Step, pid: nat, c: Ctx)
    requires Base(s) && Handling(s, pid, c) && !Leaves(s, e, pid)
    ensures Handling(Apply(s, e), pid, c)
  {
    assert pid < s.nextPid;
    hide Base;
    if e.Sigraise? && e.pid == pid {
      assert Raise(s, e.pid, e.sig) == (s, -1);
    }
  }

  ghost predicate Stays(s: Sys, es: seq<Step>, pid: nat)
    decreases |es|
  {
    es == [] || (!Leaves(s, es[0], pid) && Stays(Apply(s, es[0]), es[1..], pid))
  }

  /** Until the process returns from its handler or sleeps, no step touches the context put by. */
  lemma {:induction false} BackupKept(s: Sys, es: seq<Step>, pid: nat, c: Ctx)
    requires Base(s) && Handling(s, pid, c) && Stays(s, es, pid)
    ensures Handling(Run(s, es), pid, c)
    decreases |es|
  {
    hide Base, Apply, Handling, Leaves;
    if es != [] {
      AnyStepSound(s, es[0]);
      HandlingStep(s, es[0], pid, c);
      BackupKept(Apply(s, es[0]), es[1..], pid, c);
    }
  }

  /** From a handled signal to the process's next sigret, through context stores, return values and further signals,
  the context restored is the one at the trigger. */
  lemma SignalRoundTrip(s: Sys, pid: nat, sig: int, es: seq<Step>)
    requires Base(s) && s.current in s.procs && pid in s.procs && s.procs[pid].state != InSignal
    requires HasHandler(s.procs[pid], sig)
    requires var t := Apply(s, Sigraise(pid, sig)); Stays(t, es, pid) && Run(t, es).current == pid
    ensures var r := Apply(Run(Apply(s, Sigraise(pid, sig)), es), Sigret);
      pid in r.procs && r.procs[pid].ctx == s.procs[pid].ctx && r.procs[pid].state == Active
          && r.procs[pid].backup == None
  {
    hide Base, Stays;
    var t := Apply(s, Sigraise(pid, sig));
    AnyStepSound(s, Sigraise(pid, sig));
    assert Handling(t, pid, s.procs[pid].ctx);
    BackupKept(t, es, pid, s.procs[pid].ctx);
  }

  // What a signal and a clone set up.

  /** A handled signal puts the context by and resumes at the handler, which returns to the trampoline and gets the
  user data as its argument, on the same stack; every other signal changes nothing. */
  lemma TriggerExact(p: Proc, sig: int)
    ensures var a, (q, status) := ActionFor(p, sig), Triggered(p, sig);
      if a.Handle? && p.state != InSignal then
        && status == 0
        && q == Proc(p.parent, InSignal, Ctx(a.handler, p.ctx.sp, a.trampoline, a.userdata, p.ctx.rest), Some(p.ctx),
                     p.actions)
      else q == p && status == if a.Handle? then -1 else if a.Kill? then 1 else 0
  {
  }

  /** A process that handles the signal resumes at its handler. The handler gets the user data exactly unless the
  process raised the signal itself: then the return value of the call overwrites it. */
  lemma RaiseDelivers(s: Sys, pid: nat, sig: int)
    requires s.current in s.procs && pid in s.procs && s.procs[pid].state in {Active, SigWait}
    requires HasHandler(s.procs[pid], sig)
    ensures var p, a, t := s.procs[pid], ActionFor(s.procs[pid], sig), Apply(s, Sigraise(pid, sig));
      && pid in t.procs && t.procs[pid].backup == Some(p.ctx) && t.procs[pid].state == InSignal
      && t.procs[pid].ctx == Ctx(a.handler, p.ctx.sp, a.trampoline, if pid == s.current then 0 else a.userdata,
                                 p.ctx.rest)
      && t.queue == (if p.state == SigWait then s.queue + [pid] else s.queue)
      && (forall x :: x in s.procs && x != pid && x != s.current ==> x in t.procs && t.procs[x] == s.procs[x])
  {
    TriggerExact(s.procs[pid], sig);
  }

  /** A signal to nobody, or to a process in a handler, only gives the caller -1. */
  lemma RaiseRefuses(s: Sys, pid: nat, sig: int)
    requires s.current in s.procs && (pid !in s.procs || s.procs[pid].state == InSignal)
    ensures var t, me := Apply(s, Sigraise(pid, sig)), s.procs[s.current];
      && t.current == s.current && t.queue == s.queue && t.nextPid == s.nextPid
      && t.procs == s.procs[s.current := me.(ctx := Ctx(me.ctx.pc, me.ctx.sp, me.ctx.lr, -1, me.ctx.rest))]
  {
  }

  /** A yield gives the caller 0 and sends it to the back of the line; the timer does the same and gives it nothing. */
  lemma YieldExact(s: Sys)
    requires s.current in s.procs && s.current != 0
    ensures var q, me := s.queue + [s.current], s.procs[s.current];
      && Apply(s, Timer) == Sys(q[0], q[1..], s.procs, s.nextPid)
      && Apply(s, Yield) == Sys(q[0], q[1..],
           s.procs[s.current := me.(ctx := Ctx(me.ctx.pc, me.ctx.sp, me.ctx.lr, 0, me.ctx.rest))], s.nextPid)
  {
  }

  /** A sigwait puts the caller to sleep with its registers as they are, and the front of the line runs. */
  lemma SigwaitExact(s: Sys)
    requires s.current in s.procs && s.queue != []
    ensures var me := s.procs[s.current];
      Apply(s, Sigwait) == Sys(s.queue[0], s.queue[1..],
        s.procs[s.current := Proc(me.parent, SigWait, me.ctx, me.backup, me.actions)], s.nextPid)
  {
  }

  /** A sigaction sets the caller's action for a signal from 0 to 63, or none for a null handler, and gives it 0. */
  lemma SigactionExact(s: Sys, sig: int, handler: int, trampoline: int, userdata: int)
    requires s.current in s.procs && |s.procs[s.current].actions| == 64
    ensures var t, me := Apply(s, Sigaction(sig, handler, trampoline, userdata)), s.procs[s.current];
      && t.current == s.current && t.queue == s.queue && t.nextPid == s.nextPid
      && t.procs == s.procs[s.current := Proc(me.parent, me.state,
           Ctx(me.ctx.pc, me.ctx.sp, me.ctx.lr, 0, me.ctx.rest), me.backup, t.procs[s.current].actions)]
      && |t.procs[s.current].actions| == 64
      && forall i :: 0 <= i < 64 ==>
           t.procs[s.current].actions[i] ==
             if i != sig then me.actions[i] else if handler == 0 then NoAction
             else Handle(handler, trampoline, userdata)
  {
  }

  /** What the last sigaction of the process for this signal installed in the run, or else what was there before. */
  ghost function LastAction(s: Sys, es: seq<Step>, pid: nat, sig: int): Action
    decreases |es|
  {
    if es == [] then if pid in s.procs then ActionFor(s.procs[pid], sig) else NoAction
    else
      var n := |es| - 1;
      var t, e := Run(s, es[..n]), es[n];
      if t.current == pid && pid in t.procs && e.Sigaction? && e.sig == sig then
        if e.handler == 0 then NoAction else Handle(e.handler, e.trampoline, e.userdata)
      else LastAction(s, es[..n], pid, sig)
  }

  lemma {:induction false} RunLast(s: Sys, es: seq<Step>)
    requires es != []
    ensures Run(s, es) == Apply(Run(s, es[..|es| - 1]), es[|es| - 1])
    decreases |es|
  {
    if |es| == 1 {
      assert es[1..] == [] && es[..0] == [];
    } else {
      RunLast(Apply(s, es[0]), es[1..]);
      assert es[1..][..|es| - 2] == es[..|es| - 1][1..];
    }
  }

  /** One step changes a process's action for a signal only by its own sigaction. */
  lemma ActionStep(s: Sys, e: Step, pid: nat, sig: int)
    requires Base(s) && 0 <= sig < MaxSignal
    ensures var t := Apply(s, e);
      && (pid in s.procs ==> pid in t.procs)
      && (pid in t.procs ==>
            if s.current == pid && pid in s.procs && e.Sigaction? && e.sig == sig then
              ActionFor(t.procs[pid], sig) ==
                if e.handler == 0 then NoAction else Handle(e.handler, e.trampoline, e.userdata)
            else ActionFor(t.procs[pid], sig) == if pid in s.procs then ActionFor(s.procs[pid], sig) else NoAction)
  {
    hide Switch;
    if s.current in s.procs {
      assert Sound(s.procs[s.current]);
      var me := s.procs[s.current];
      SwitchProcs(WithReturn(s, 0));
      SwitchProcs(s);
      SwitchProcs(s.(procs := s.procs[s.current := me.(state := SigWait)], current := 0));
    }
  }

  /** Over every run the action in force is the one installed last. */
  lemma {:induction false} ActionsAreLast(s: Sys, es: seq<Step>, pid: nat, sig: int)
    requires Base(s) && 0 <= sig < MaxSignal
    ensures pid in Run(s, es).procs ==> ActionFor(Run(s, es).procs[pid], sig) == LastAction(s, es, pid, sig)
    ensures pid !in Run(s, es).procs ==> LastAction(s, es, pid, sig) == NoAction
    decreases |es|
  {
    hide Apply, Base, ActionFor;
    if es != [] {
      var n := |es| - 1;
      ActionsAreLast(s, es[..n], pid, sig);
      RaiseNeverKills(s, es[..n], pid, sig);
      RunLast(s, es);
      ActionStep(Run(s, es[..n]), es[n], pid, sig);
    }
  }

  /** After any run, a process that another one sends a handled signal resumes at the handler it installed last, with
  the trampoline and the user data of that sigaction. */
  lemma LastHandlerRuns(s: Sys, es: seq<Step>, pid: nat, sig: int)
    requires Base(s) && 0 <= sig < MaxSignal && LastAction(s, es, pid, sig).Handle?
    requires var t := Run(s, es); t.current in t.procs && pid in t.procs && t.procs[pid].state in {Active, SigWait}
    ensures var t, a := Run(s, es), LastAction(s, es, pid, sig);
      var u := Apply(t, Sigraise(pid, sig));
      && pid in u.procs && u.procs[pid].state == InSignal
      && u.procs[pid].ctx == Ctx(a.handler, t.procs[pid].ctx.sp, a.trampoline, if pid == t.current then 0 else a.userdata,
                                 t.procs[pid].ctx.rest)
  {
    hide Run, LastAction, Apply, Base;
    ActionsAreLast(s, es, pid, sig);
    RaiseDelivers(Run(s, es), pid, sig);
  }

  /** A run from boot in which a process sends itself a signal: its handler gets 0 and not the user data. */
  lemma SelfSignalLosesArgument(ctx: Ctx)
    ensures var s := Run(Sys(1, [], map[1 := NewProc(0, ctx)], 2), [Sigaction(5, 0x1000, 0x2000, 7), Sigraise(1, 5)]);
      1 in s.procs && s.procs[1].state == InSignal && s.procs[1].ctx == Ctx(0x1000, ctx.sp, 0x2000, 0, ctx.rest)
  {
    var boot, a, b := Sys(1, [], map[1 := NewProc(0, ctx)], 2), Sigaction(5, 0x1000, 0x2000, 7), Sigraise(1, 5);
    var t := Apply(boot, a);
    assert t.current == 1 && t.procs[1].state == Active && ActionFor(t.procs[1], 5) == Handle(0x1000, 0x2000, 7);
    RaiseDelivers(t, 1, 5);
    assert Run(boot, [a, b]) == Apply(t, b) by {
      assert [a, b][1..] == [b] && [b][1..] == [];
      assert Run(t, [b]) == Run(Apply(t, b), []);
    }
  }

  /** A clone queues one new process at the back, which starts at its function with its own stack, no return address
  and the user data, without handlers; the caller gets 0 and nothing else changes. */
  lemma CloneExact(s: Sys, fn: int, stack: int, userdata: int)
    requires Inv(s)
    ensures var t, me := Apply(s, Clone(fn, stack, userdata)), s.procs[s.current];
      && s.nextPid !in s.procs && t.current == s.current && t.nextPid == s.nextPid + 1
      && t.queue == s.queue + [s.nextPid]
      && t.procs.Keys == s.procs.Keys + {s.nextPid}
      && t.procs[s.nextPid].parent == s.current && t.procs[s.nextPid].state == Active
      && t.procs[s.nextPid].ctx == Ctx(fn, stack, 0, userdata, 0) && t.procs[s.nextPid].backup == None
      && |t.procs[s.nextPid].actions| == 64 && (forall i :: 0 <= i < 64 ==> t.procs[s.nextPid].actions[i] == NoAction)
      && t.procs[s.current] == me.(ctx := Ctx(me.ctx.pc, me.ctx.sp, me.ctx.lr, 0, me.ctx.rest))
      && (forall x :: x in s.procs && x != s.current ==> t.procs[x] == s.procs[x])
  {
    Holds(s, s.current);
    Holds(s, s.nextPid);
  }

  /** A run from boot: process 1 starts process 2 and waits. A signal that process 1 does not handle then queues it
  while it still counts as waiting. */
  lemma IgnoredSignalQueues(ctx: Ctx)
    ensures var s := Run(Sys(1, [], map[1 := NewProc(0, ctx)], 2), [Clone(0, 0, 0), Sigwait]);
      && Inv(s) && 1 in s.procs && s.procs[1].state == SigWait && !HasHandler(s.procs[1], 5)
      && Raise(s, 1, 5).0.queue == [1] && Raise(s, 1, 5).0.procs[1].state == SigWait && !Places(Raise(s, 1, 5).0)
  {
    var boot, a, b := Sys(1, [], map[1 := NewProc(0, ctx)], 2), Clone(0, 0, 0), Sigwait;
    BootHolds(ctx);
    StepKeeps(boot, a);
    var t := Apply(boot, a);
    assert t.current == 1 && t.queue == [2] && t.procs[1].state == Active;
    StepKeeps(t, b);
    var s := Apply(t, b);
    assert Run(boot, [a, b]) == s by {
      assert [a, b][1..] == [b] && [b][1..] == [];
      assert Run(t, [b]) == Run(s, []);
    }
    assert s.queue == [] && s.procs[1].state == SigWait;
    assert s.procs[1].actions == NewProc(0, ctx).actions;
    RaiseExact(s, 1, 5);
  }
}
