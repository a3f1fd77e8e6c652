/** The cooperative thread scheduler on top of the kernel's thread table. */
module Scheduler {
  import opened Basics
  import opened Kernel

  const MAIN_THREAD: uint32 := 0xffff_fffe
  const MAIN_PROCESS: uint32 := 0xffff_ffff

  // `cpu` stands for the registers; `main` is the parked context of the main thread.
  datatype Sched = Sched(
    kernel: State, active: uint32, last: uint32, main: Context, cpu: Context, nextHandle: nat)

  // What one call sees of the message queue, of guest memory and of the pending host calls.
  datatype Env = Env(probes: Probes, owner: Option<uint32>, readable: uint32 -> bool, blockingPending: bool)

  predicate Eligible(t: GuestThread) {
    t.state == Runnable && t.context.valid
  }

  function Find(threads: seq<GuestThread>, handle: uint32): (r: Option<nat>)
    ensures r.Some? ==> r.value < |threads| && threads[r.value].handle == handle
    ensures r.None? ==> forall i | 0 <= i < |threads| :: threads[i].handle != handle
  {
    if threads == [] then None
    else if threads[0].handle == handle then Some(0)
    else
      var r := Find(threads[1..], handle);
      if r.Some? then Some(r.value + 1) else None
  }

  /** The position of the first thread whose handle is above `handle`. */
  function UpperBound(threads: seq<GuestThread>, handle: uint32): (r: nat)
    ensures r <= |threads| && forall i | 0 <= i < r :: threads[i].handle <= handle
    ensures r < |threads| ==> threads[r].handle > handle
  {
    if threads == [] || threads[0].handle > handle then 0 else 1 + UpperBound(threads[1..], handle)
  }

  function PickFrom(threads: seq<GuestThread>, lo: nat, hi: nat): (r: Option<nat>)
    requires lo <= hi <= |threads|
    ensures r.Some? ==> lo <= r.value < hi && Eligible(threads[r.value]) && forall i | lo <= i < r.value :: !Eligible(threads[i])
    ensures r.None? ==> forall i | lo <= i < hi :: !Eligible(threads[i])
    decreases hi - lo
  {
    if lo == hi then None else if Eligible(threads[lo]) then Some(lo) else PickFrom(threads, lo + 1, hi)
  }

  function FirstToTry(threads: seq<GuestThread>, last: uint32): (r: nat)
    ensures r <= |threads|
  {
    if last != 0 then UpperBound(threads, last) else 0
  }

  function RoundRobin(threads: seq<GuestThread>, last: uint32): (r: Option<nat>)
    ensures r.Some? ==> r.value < |threads| && Eligible(threads[r.value])
    ensures r.None? ==> forall i | 0 <= i < |threads| :: !Eligible(threads[i])
  {
    var first := FirstToTry(threads, last);
    var r := PickFrom(threads, first, |threads|);
    if r.Some? then r else PickFrom(threads, 0, first)
  }

  function Captured(s: Sched, returnAddress: uint32): Context {
    s.cpu.(valid := true, pc := if returnAddress != 0 then returnAddress else s.cpu.pc)
  }

  function Parked(t: GuestThread, context: Context): GuestThread {
    t.(context := context, state := if t.state == Running then Runnable else t.state)
  }

  function SaveActive(s: Sched, returnAddress: uint32): Sched {
    var at := Find(s.kernel.threads, s.active);
    if at.None? then s
    else
      s.(kernel := s.kernel.(threads :=
         s.kernel.threads[at.value := Parked(s.kernel.threads[at.value], Captured(s, returnAddress))]))
  }

  predicate PcReadable(pc: uint32, env: Env) {
    pc != 0 && env.readable(pc)
  }

  function SaveMain(s: Sched, env: Env, returnAddress: uint32): Sched {
    var c := Captured(s, returnAddress);
    if PcReadable(c.pc, env) || !s.main.valid then s.(main := c) else s
  }

  function SwitchTo(s: Sched, i: nat, env: Env, returnAddress: uint32): Sched
    requires i < |s.kernel.threads|
  {
    var saved := if s.active != 0 then SaveActive(s, returnAddress) else SaveMain(s, env, returnAddress);
    var t := saved.kernel.threads[i];
    saved.(kernel := saved.kernel.(threads := saved.kernel.threads[i := t.(state := Running)]),
           active := t.handle, last := t.handle,
           cpu := if t.context.valid then t.context else saved.cpu)
  }

  predicate MainRunnable(s: Sched, env: Env) {
    s.main.valid && PcReadable(s.main.pc, env)
  }

  /** Loads the parked main context, or discards one that cannot run. */
  function RestoreMain(s: Sched, env: Env): Sched {
    if MainRunnable(s, env) then s.(cpu := s.main)
    else s.(main := s.main.(valid := false))
  }

  /** The owner of the oldest queued message, when it is a thread that can run. */
  function OwnerIndex(s: Sched, env: Env): (r: Option<nat>)
    ensures r.Some? ==> r.value < |s.kernel.threads| && Eligible(s.kernel.threads[r.value])
  {
    if env.owner.None? || env.owner.value == MAIN_THREAD then None
    else
      var at := Find(s.kernel.threads, env.owner.value);
      if at.Some? && Eligible(s.kernel.threads[at.value]) then at else None
  }

  predicate MainOwns(env: Env) {
    env.owner == Some(MAIN_THREAD) && !env.blockingPending
  }

  /** Whether control goes back to the main thread because the oldest message is its own. */
  predicate ReturnsToMain(s: Sched, env: Env) {
    MainOwns(env) &&
    if s.active != 0 then PcReadable(s.main.pc, env) else !PcReadable(s.cpu.pc, env) && MainRunnable(s, env)
  }

  function PreferredIndex(s: Sched, preferred: uint32): (r: Option<nat>)
    ensures r.Some? ==> r.value < |s.kernel.threads| && Eligible(s.kernel.threads[r.value])
  {
    if preferred == 0 then None
    else
      var at := Find(s.kernel.threads, preferred);
      if at.Some? && Eligible(s.kernel.threads[at.value]) then at else None
  }

  function Choice(s: Sched, env: Env, preferred: uint32): (r: Option<nat>)
    ensures r.Some? ==> r.value < |s.kernel.threads| && Eligible(s.kernel.threads[r.value])
  {
    var owner := OwnerIndex(s, env);
    if owner.Some? then owner
    else
      var p := PreferredIndex(s, preferred);
      if p.Some? then p else RoundRobin(s.kernel.threads, s.last)
  }

  function Refreshed(s: Sched, env: Env): Sched {
    s.(kernel := Refresh(s.kernel, env.probes))
  }

  /** Gives the processor back to the main thread, parking the active one. */
  function BackToMain(s: Sched, env: Env, returnAddress: uint32): Sched {
    RestoreMain(if s.active != 0 then SaveActive(s, returnAddress).(active := 0) else s, env)
  }

  /** A main thread that owns the oldest message but cannot run loses its parked context. */
  function MainTried(s: Sched, env: Env): Sched {
    if MainOwns(env) && s.active == 0 && !PcReadable(s.cpu.pc, env) then RestoreMain(s, env) else s
  }

  function Switch(s: Sched, env: Env, returnAddress: uint32, preferred: uint32): (Sched, bool) {
    var r := Refreshed(s, env);
    if ReturnsToMain(r, env) then (BackToMain(r, env, returnAddress), true)
    else
      var tried := MainTried(r, env);
      var choice := Choice(tried, env, preferred);
      if choice.Some? then (SwitchTo(tried, choice.value, env, returnAddress), true) else (tried, false)
  }

  /** A yield saves a running thread with its resume address before it switches. */
  function YieldStart(s: Sched, returnAddress: uint32): Sched {
    var at := Find(s.kernel.threads, s.active);
    if at.Some? && s.kernel.threads[at.value].state == Running then SaveActive(s, returnAddress) else s
  }

  function Yield(s: Sched, env: Env, returnAddress: uint32): (Sched, bool) {
    if s.active == 0 then Switch(s, env, returnAddress, 0)
    else Switch(YieldStart(s, returnAddress), env, 0, 0)
  }

  function Exited(s: Sched, exitCode: uint32): Sched {
    var at := Find(s.kernel.threads, s.active);
    var k := if at.None? then s.kernel
             else s.kernel.(threads := s.kernel.threads[at.value :=
                    s.kernel.threads[at.value].(exitCode := exitCode, state := Terminated, context := Captured(s, 0))]);
    s.(kernel := k, last := if s.last == s.active then 0 else s.last, active := 0)
  }

  function Finish(s: Sched, env: Env, exitCode: uint32): (Sched, bool) {
    if s.active == 0 then (s, false)
    else
      var e := Exited(s, exitCode);
      if env.blockingPending then Switch(e, env, 0, 0)
      else if MainRunnable(e, env) then (RestoreMain(e, env), true)
      else Switch(RestoreMain(e, env), env, 0, 0)
  }

  // Where a blocked call comes back: a message or send wait only sets the address, the
  // others also load the global pointer of the code there and a provisional result.
  datatype Landing = AtPc(pc: uint32) | Returning(pc: uint32, gp: uint32, result: uint32)

  function LandingContext(s: Sched, landing: Landing): Context {
    match landing
    case AtPc(pc) => s.cpu.(valid := true, pc := pc)
    case Returning(pc, gp, result) => s.cpu.(valid := true, pc := pc, gp := gp, result := result)
  }

  /** The state a blocking call leaves its thread in; a sleep of no time leaves it runnable. */
  predicate Leaves(state: RunState) {
    || state == Runnable || state == Waiting
    || state == WaitingForMessage || state == WaitingForSendMessage || state == WaitingForSerialRead
  }

  /** A sender is parked only while it is running. */
  predicate CanPark(t: GuestThread, state: RunState) {
    state == WaitingForSendMessage ==> t.state == Running
  }

  /** A blocking call parks the active thread with the wait fields of `wait`, and nobody is active. */
  function Block(s: Sched, wait: GuestThread, landing: Landing): Sched {
    if s.active == 0 || !Leaves(wait.state) then s
    else
      var at := Find(s.kernel.threads, s.active);
      if at.None? || !CanPark(s.kernel.threads[at.value], wait.state) then s.(active := 0)
      else
        var t := s.kernel.threads[at.value];
        var parked := wait.(handle := t.handle, processHandle := t.processHandle, suspendCount := t.suspendCount,
                            exitCode := t.exitCode, context := LandingContext(s, landing));
        s.(kernel := s.kernel.(threads := s.kernel.threads[at.value := parked]), active := 0)
  }

  /** The receiver of a sent message has answered: the sender gets the result and can run. */
  function Reply(s: Sched, handle: uint32, result: uint32): Sched {
    var at := Find(s.kernel.threads, handle);
    if at.None? || s.kernel.threads[at.value].state != WaitingForSendMessage then s
    else
      var t := s.kernel.threads[at.value];
      s.(kernel := s.kernel.(threads := s.kernel.threads[at.value :=
         t.(state := Runnable, context := t.context.(result := result))]))
  }

  function Wake(s: Sched, env: Env): Sched {
    s.(kernel := WakeForMessages(Refresh(s.kernel, env.probes), env.probes))
  }

  function ResumedThread(t: GuestThread): GuestThread {
    var left := if t.suspendCount > 0 then t.suspendCount - 1 else 0;
    t.(suspendCount := left, state := if left == 0 && t.state == Suspended then Runnable else t.state)
  }

  function Resume(s: Sched, handle: uint32): Sched {
    var at := Find(s.kernel.threads, handle);
    if !NamesThread(s.kernel, handle) || at.None? || s.kernel.threads[at.value].state == Terminated then s
    else s.(kernel := s.kernel.(threads := s.kernel.threads[at.value := ResumedThread(s.kernel.threads[at.value])]))
  }

  /** Handles are handed out in increasing order, so a new thread goes to the end of the table. */
  function Create(s: Sched, suspended: bool, context: Context): Sched {
    if 0x1_0000_0000 <= s.nextHandle then s
    else
      var at := Find(s.kernel.threads, s.active);
      var process := if s.active != 0 && at.Some? then s.kernel.threads[at.value].processHandle else MAIN_PROCESS;
      var t := GuestThread(s.nextHandle, process, if suspended then 1 else 0, 0, if suspended then Suspended else Runnable,
                           0, [], false, false, 0, 0, 0, context.(valid := true));
      s.(kernel := State(s.kernel.handles[t.handle := GuestHandle(GuestThreadHandle, 0, false, false)], s.kernel.threads + [t]),
         nextHandle := s.nextHandle + 1)
  }

  /** The first thread of another process, which gets a handle of its own first. */
  function StartProcess(s: Sched, context: Context): Sched {
    if 0x1_0000_0000 <= s.nextHandle + 1 then s
    else
      var process: uint32, thread: uint32 := s.nextHandle, s.nextHandle + 1;
      var t := GuestThread(thread, process, 0, 0, Runnable, 0, [], false, false, 0, 0, 0, context.(valid := true));
      var handles := s.kernel.handles[process := GuestHandle(GuestProcess, 0, false, false)];
      s.(kernel := State(handles[thread := GuestHandle(GuestThreadHandle, 0, false, false)], s.kernel.threads + [t]),
         nextHandle := s.nextHandle + 2)
  }

  function Terminate(s: Sched, exitCode: uint32): Sched {
    s.(kernel := s.kernel.(threads := seq(|s.kernel.threads|, i requires 0 <= i < |s.kernel.threads| =>
         var t := s.kernel.threads[i];
         if t.processHandle == MAIN_PROCESS then t.(exitCode := exitCode, state := Terminated) else t)),
       active := 0, last := 0)
  }

  // ---- The class ----

  class GuestScheduler {
    const kernel: CeKernel
    var active: uint32
    var last: uint32
    var main: Context
    var cpu: Context
    var nextHandle: nat

    constructor (kernel: CeKernel, cpu: Context)
      ensures this.kernel == kernel && active == last == 0 && this.cpu == cpu && !main.valid && nextHandle == 0x10000
    {
      this.kernel := kernel;
      this.cpu := cpu;
      active, last, nextHandle := 0, 0, 0x10000;
      main := cpu.(valid := false);
    }

    function AsSched(): Sched
      reads this, kernel
    {
      Sched(kernel.AsState(), active, last, main, cpu, nextHandle)
    }

    method ParkActive(returnAddress: uint32)
      modifies kernel`threads
      ensures AsSched() == SaveActive(old(AsSched()), returnAddress)
    {
      var at := Find(kernel.threads, active);
      if at.Some? {
        var t := kernel.threads[at.value];
        var context := cpu.(valid := true);
        if returnAddress != 0 {
          context := context.(pc := returnAddress);
        }
        t := t.(context := context);
        if t.state == Running {
          t := t.(state := Runnable);
        }
        kernel.threads := kernel.threads[at.value := t];
      }
    }

    method SwitchToThread(i: nat, env: Env, returnAddress: uint32)
      requires i < |kernel.threads|
      modifies this, kernel`threads
      ensures AsSched() == SwitchTo(old(AsSched()), i, env, returnAddress)
    {
      if active != 0 {
        ParkActive(returnAddress);
      } else {
        var captured := cpu.(valid := true);
        if returnAddress != 0 {
          captured := captured.(pc := returnAddress);
        }
        if (captured.pc != 0 && env.readable(captured.pc)) || !main.valid {
          main := captured;
        }
      }
      var thread := kernel.threads[i];
      kernel.threads := kernel.threads[i := thread.(state := Running)];
      active := thread.handle;
      last := thread.handle;
      if thread.context.valid {
        cpu := thread.context;
      }
    }

    method RestoreMainThreadContextIfRunnable(env: Env) returns (ok: bool)
      modifies this`main, this`cpu
      ensures ok == MainRunnable(old(AsSched()), env) && AsSched() == RestoreMain(old(AsSched()), env)
      ensures ok <==> old(main.valid) && old(main.pc) != 0 && env.readable(old(main.pc))
      ensures if ok then cpu == main == old(main) else cpu == old(cpu) && main == old(main).(valid := false)
    {
      if !main.valid {
        return false;
      }
      if main.pc != 0 && env.readable(main.pc) {
        cpu := main;
        return true;
      }
      main := main.(valid := false);
      return false;
    }

    /** The owner of the oldest queued message goes first, if it can run. */
    method SwitchByOwner(env: Env, returnAddress: uint32) returns (done: bool)
      modifies this, kernel`threads
      ensures var r := old(AsSched());
              && done == (ReturnsToMain(r, env) || OwnerIndex(r, env).Some?)
              && AsSched() == (if ReturnsToMain(r, env) then BackToMain(r, env, returnAddress)
                               else if OwnerIndex(r, env).Some? then SwitchTo(r, OwnerIndex(r, env).value, env, returnAddress)
                               else MainTried(r, env))
    {
      if env.owner.Some? {
        if env.owner.value == MAIN_THREAD {
          if !env.blockingPending {
            if active != 0 {
              if main.pc != 0 && env.readable(main.pc) {
                ParkActive(returnAddress);
                active := 0;
                var _ := RestoreMainThreadContextIfRunnable(env);
                return true;
              }
            } else if cpu.pc == 0 || !env.readable(cpu.pc) {
              var restored := RestoreMainThreadContextIfRunnable(env);
              if restored {
                return true;
              }
            }
          }
        } else {
          var at := Find(kernel.threads, env.owner.value);
          if at.Some? && kernel.threads[at.value].state == Runnable && kernel.threads[at.value].context.valid {
            SwitchToThread(at.value, env, returnAddress);
            return true;
          }
        }
      }
      return false;
    }

    method SwitchToRunnableGuestThread(env: Env, returnAddress: uint32, preferred: uint32) returns (ok: bool)
      modifies this, kernel
      ensures (AsSched(), ok) == Switch(old(AsSched()), env, returnAddress, preferred)
    {
      var _ := kernel.RefreshSignaledWaits(env.probes);
      assert AsSched() == Refreshed(old(AsSched()), env);
      ok := SwitchByOwner(env, returnAddress);
      if ok {
        return;
      }
      if preferred != 0 {
        var at := Find(kernel.threads, preferred);
        if at.Some? && kernel.threads[at.value].state == Runnable && kernel.threads[at.value].context.valid {
          SwitchToThread(at.value, env, returnAddress);
          return true;
        }
      }
      ok := SwitchRoundRobin(env, returnAddress);
    }

    method SwitchRoundRobin(env: Env, returnAddress: uint32) returns (ok: bool)
      modifies this, kernel`threads
      ensures var s := old(AsSched()); var choice := RoundRobin(s.kernel.threads, s.last);
              && ok == choice.Some?
              && AsSched() == if choice.Some? then SwitchTo(s, choice.value, env, returnAddress) else s
    {
      ghost var s := AsSched();
      var first := if last != 0 then UpperBound(kernel.threads, last) else 0;
      var it := first;
      while it < |kernel.threads|
        invariant first <= it <= |kernel.threads| && AsSched() == s
        invariant PickFrom(kernel.threads, first, |kernel.threads|) == PickFrom(kernel.threads, it, |kernel.threads|)
      {
        if kernel.threads[it].state == Runnable && kernel.threads[it].context.valid {
          SwitchToThread(it, env, returnAddress);
          return true;
        }
        it := it + 1;
      }
      it := 0;
      while it < first
        invariant it <= first && AsSched() == s
        invariant PickFrom(kernel.threads, 0, first) == PickFrom(kernel.threads, it, first)
      {
        if kernel.threads[it].state == Runnable && kernel.threads[it].context.valid {
          SwitchToThread(it, env, returnAddress);
          return true;
        }
        it := it + 1;
      }
      return false;
    }

    method YieldActiveGuestThread(env: Env, returnAddress: uint32) returns (ok: bool)
      modifies this, kernel
      ensures (AsSched(), ok) == Yield(old(AsSched()), env, returnAddress)
    {
      if active == 0 {
        ok := SwitchToRunnableGuestThread(env, returnAddress, 0);
        return;
      }
      var at := Find(kernel.threads, active);
      if at.Some? && kernel.threads[at.value].state == Running {
        ParkActive(returnAddress);
      }
      ok := SwitchToRunnableGuestThread(env, 0, 0);
    }

    method FinishActiveGuestThread(env: Env, exitCode: uint32) returns (ok: bool)
      modifies this, kernel
      ensures (AsSched(), ok) == Finish(old(AsSched()), env, exitCode)
    {
      if active == 0 {
        return false;
      }
      var at := Find(kernel.threads, active);
      if at.Some? {
        kernel.threads := kernel.threads[at.value :=
          kernel.threads[at.value].(exitCode := exitCode, state := Terminated, context := cpu.(valid := true))];
      }
      if last == active {
        last := 0;
      }
      active := 0;
      if !env.blockingPending {
        var restored := RestoreMainThreadContextIfRunnable(env);
        if restored {
          return true;
        }
      }
      ok := SwitchToRunnableGuestThread(env, 0, 0);
    }

    /** `failed` says that the handle is not a thread's; otherwise `previous` is the count before the call. */
    method ResumeGuestThread(handle: uint32) returns (previous: nat, failed: bool)
      modifies kernel`threads
      ensures AsSched() == Resume(old(AsSched()), handle)
      ensures failed == !NamesThread(old(kernel.AsState()), handle)
      ensures var at := Find(old(kernel.threads), handle);
              previous == if failed then 0xffff_ffff else if at.None? then 1
                          else if old(kernel.threads)[at.value].state == Terminated then 0
                          else old(kernel.threads)[at.value].suspendCount
    {
      if handle !in kernel.handles || kernel.handles[handle].kind != GuestThreadHandle {
        return 0xffff_ffff, true;
      }
      failed := false;
      var at := Find(kernel.threads, handle);
      if at.None? {
        return 1, false;
      }
      var thread := kernel.threads[at.value];
      if thread.state == Terminated {
        return 0, false;
      }
      previous := thread.suspendCount;
      if thread.suspendCount > 0 {
        thread := thread.(suspendCount := thread.suspendCount - 1);
      }
      if thread.suspendCount == 0 && thread.state == Suspended {
        thread := thread.(state := Runnable);
      }
      kernel.threads := kernel.threads[at.value := thread];
    }

    method MakeHandle(h: GuestHandle) returns (handle: uint32)
      requires nextHandle < 0x1_0000_0000
      modifies this`nextHandle, kernel`handles
      ensures handle == old(nextHandle) && nextHandle == old(nextHandle) + 1 && kernel.handles == old(kernel.handles)[handle := h]
    {
      handle := nextHandle;
      nextHandle := nextHandle + 1;
      kernel.handles := kernel.handles[handle := h];
    }

    method CreateGuestThread(suspended: bool, context: Context) returns (handle: uint32)
      requires nextHandle < 0x1_0000_0000
      modifies this`nextHandle, kernel
      ensures AsSched() == Create(old(AsSched()), suspended, context) && handle == old(nextHandle)
      ensures |kernel.threads| == |old(kernel.threads)| + 1 && kernel.threads[..|old(kernel.threads)|] == old(kernel.threads)
      ensures var t := kernel.threads[|old(kernel.threads)|];
              && t.handle == handle && t.context == context.(valid := true)
              && t.state == (if suspended then Suspended else Runnable) && t.suspendCount == (if suspended then 1 else 0)
    {
      handle := MakeHandle(GuestHandle(GuestThreadHandle, 0, false, false));
      var process := MAIN_PROCESS;
      if active != 0 {
        var at := Find(kernel.threads, active);
        if at.Some? {
          process := kernel.threads[at.value].processHandle;
        }
      }
      var state := if suspended then Suspended else Runnable;
      kernel.threads := kernel.threads +
        [GuestThread(handle, process, if suspended then 1 else 0, 0, state, 0, [], false, false, 0, 0, 0, context.(valid := true))];
    }

    method StartGuestProcessImage(context: Context) returns (processHandle: uint32, threadHandle: uint32)
      requires nextHandle + 1 < 0x1_0000_0000
      modifies this`nextHandle, kernel
      ensures AsSched() == StartProcess(old(AsSched()), context)
      ensures processHandle == old(nextHandle) && threadHandle == old(nextHandle) + 1
    {
      processHandle := MakeHandle(GuestHandle(GuestProcess, 0, false, false));
      threadHandle := MakeHandle(GuestHandle(GuestThreadHandle, 0, false, false));
      kernel.threads := kernel.threads +
        [GuestThread(threadHandle, processHandle, 0, 0, Runnable, 0, [], false, false, 0, 0, 0, context.(valid := true))];
    }

    /** What every blocking call does first; it then goes back to the main context or switches. */
    method BlockActiveGuestThread(wait: GuestThread, landing: Landing)
      requires active != 0 && Leaves(wait.state)
      modifies this`active, kernel`threads
      ensures AsSched() == Block(old(AsSched()), wait, landing)
    {
      var at := Find(kernel.threads, active);
      if at.Some? {
        var t := kernel.threads[at.value];
        if wait.state != WaitingForSendMessage || t.state == Running {
          var context := cpu.(valid := true);
          context := context.(pc := landing.pc);
          if landing.Returning? {
            context := context.(gp := landing.gp, result := landing.result);
          }
          kernel.threads := kernel.threads[at.value :=
            wait.(handle := t.handle, processHandle := t.processHandle, suspendCount := t.suspendCount,
                  exitCode := t.exitCode, context := context)];
        }
      }
      active := 0;
    }

    method CompleteSender(handle: uint32, result: uint32)
      modifies kernel`threads
      ensures AsSched() == Reply(old(AsSched()), handle, result)
    {
      var at := Find(kernel.threads, handle);
      if at.Some? && kernel.threads[at.value].state == WaitingForSendMessage {
        var sender := kernel.threads[at.value];
        sender := sender.(context := sender.context.(result := result));
        kernel.threads := kernel.threads[at.value := sender.(state := Runnable)];
      }
    }

    method WakeGuestThreadsWaitingForMessage(env: Env)
      modifies kernel
      ensures AsSched() == Wake(old(AsSched()), env)
    {
      var _ := kernel.RefreshSignaledWaits(env.probes);
      var _ := kernel.WakeThreadsWaitingForMessage(env.probes);
    }

    method TerminateCurrentProcess(exitCode: uint32)
      modifies this, kernel`threads
      ensures AsSched() == Terminate(old(AsSched()), exitCode)
      ensures active == last == 0 && |kernel.threads| == |old(kernel.threads)|
      ensures forall i | 0 <= i < |kernel.threads| ::
                var t := old(kernel.threads)[i];
                kernel.threads[i] == if t.processHandle == MAIN_PROCESS then t.(exitCode := exitCode, state := Terminated) else t
    {
      ghost var before := kernel.threads;
      var i := 0;
      while i < |kernel.threads|
        invariant i <= |kernel.threads| == |before|
        invariant active == old(active) && last == old(last) && cpu == old(cpu) && main == old(main) && nextHandle == old(nextHandle)
        invariant forall j | 0 <= j < |before| ::
                    kernel.threads[j] == if j < i && before[j].processHandle == MAIN_PROCESS
                                         then before[j].(exitCode := exitCode, state := Terminated) else before[j]
      {
        if kernel.threads[i].processHandle == MAIN_PROCESS {
          kernel.threads := kernel.threads[i := kernel.threads[i].(exitCode := exitCode, state := Terminated)];
        }
        i := i + 1;
      }
      active := 0;
      last := 0;
    }
  }

  // ---- Safety over any run ----

  datatype Action =
    | DoCreate(suspended: bool, context: Context)
    | DoResume(handle: uint32)
    | DoRefresh(env: Env)
    | DoSwitch(env: Env, returnAddress: uint32, preferred: uint32)
    | DoYield(env: Env, returnAddress: uint32)
    | DoFinish(env: Env, exitCode: uint32)
    | DoStartProcess(context: Context)
    | DoBlock(wait: GuestThread, landing: Landing)
    | DoRestoreMain(env: Env)
    | DoWake(env: Env)
    | DoReply(handle: uint32, result: uint32)
    | DoExecute(cpu: Context)

  function Step(s: Sched, a: Action): Sched {
    match a
    case DoCreate(suspended, context) => Create(s, suspended, context)
    case DoResume(handle) => Resume(s, handle)
    case DoRefresh(env) => Refreshed(s, env)
    case DoSwitch(env, returnAddress, preferred) => Switch(s, env, returnAddress, preferred).0
    case DoYield(env, returnAddress) => Yield(s, env, returnAddress).0
    case DoFinish(env, exitCode) => Finish(s, env, exitCode).0
    case DoStartProcess(context) => StartProcess(s, context)
    case DoBlock(wait, landing) => Block(s, wait, landing)
    case DoRestoreMain(env) => if s.active == 0 then RestoreMain(s, env) else s
    case DoWake(env) => Wake(s, env)
    case DoReply(handle, result) => Reply(s, handle, result)
    case DoExecute(cpu) => s.(cpu := cpu)
  }

  function Run(s: Sched, actions: seq<Action>): Sched
    decreases |actions|
  {
    if actions == [] then s else Run(Step(s, actions[0]), actions[1..])
  }

  ghost predicate Safe(s: Sched) {
    && Sorted(s.kernel.threads)
    && (forall i | 0 <= i < |s.kernel.threads| :: 0 < s.kernel.threads[i].handle < s.nextHandle)
    && 0 < s.nextHandle
    && (forall i | 0 <= i < |s.kernel.threads| ::
          s.kernel.threads[i].state == Running ==> s.kernel.threads[i].handle == s.active)
  }

  lemma RefreshedSafe(s: Sched, env: Env)
    requires Safe(s)
    ensures Safe(Refreshed(s, env))
  {
    RefreshSettles(s.kernel, 0, env.probes);
  }

  lemma SwitchToSafe(s: Sched, i: nat, env: Env, returnAddress: uint32)
    requires Safe(s) && i < |s.kernel.threads|
    ensures Safe(SwitchTo(s, i, env, returnAddress))
  {
    SaveSafe(s, returnAddress);
  }

  lemma BackToMainSafe(s: Sched, env: Env, returnAddress: uint32)
    requires Safe(s)
    ensures Safe(BackToMain(s, env, returnAddress))
  {
    SaveSafe(s, returnAddress);
  }

  lemma SwitchSafe(s: Sched, env: Env, returnAddress: uint32, preferred: uint32)
    requires Safe(s)
    ensures Safe(Switch(s, env, returnAddress, preferred).0)
  {
    RefreshedSafe(s, env);
    var r := Refreshed(s, env);
    BackToMainSafe(r, env, returnAddress);
    var tried := MainTried(r, env);
    assert Safe(tried);
    var choice := Choice(tried, env, preferred);
    if choice.Some? {
      SwitchToSafe(tried, choice.value, env, returnAddress);
    }
  }

  lemma ResumeSafe(s: Sched, handle: uint32)
    requires Safe(s)
    ensures Safe(Resume(s, handle))
  {
  }

  lemma CreateSafe(s: Sched, suspended: bool, context: Context)
    requires Safe(s)
    ensures Safe(Create(s, suspended, context))
  {
  }

  lemma StartProcessSafe(s: Sched, context: Context)
    requires Safe(s)
    ensures Safe(StartProcess(s, context))
  {
  }

  lemma BlockSafe(s: Sched, wait: GuestThread, landing: Landing)
    requires Safe(s)
    ensures Safe(Block(s, wait, landing))
  {
    assert forall i, j | 0 <= i < j < |s.kernel.threads| :: s.kernel.threads[i].handle != s.kernel.threads[j].handle;
  }

  lemma ReplySafe(s: Sched, handle: uint32, result: uint32)
    requires Safe(s)
    ensures Safe(Reply(s, handle, result))
  {
  }

  lemma WakeSafe(s: Sched, env: Env)
    requires Safe(s)
    ensures Safe(Wake(s, env))
  {
    RefreshedSafe(s, env);
  }

  lemma SaveSafe(s: Sched, returnAddress: uint32)
    requires Safe(s)
    ensures Safe(SaveActive(s, returnAddress))
  {
  }

  lemma ExitSafe(s: Sched, exitCode: uint32)
    requires Safe(s)
    ensures Safe(Exited(s, exitCode))
  {
  }

  lemma YieldSafe(s: Sched, env: Env, returnAddress: uint32)
    requires Safe(s)
    ensures Safe(Yield(s, env, returnAddress).0)
  {
    SwitchSafe(s, env, returnAddress, 0);
    SaveSafe(s, returnAddress);
    SwitchSafe(YieldStart(s, returnAddress), env, 0, 0);
  }

  lemma FinishSafe(s: Sched, env: Env, exitCode: uint32)
    requires Safe(s)
    ensures Safe(Finish(s, env, exitCode).0)
  {
    var e := Exited(s, exitCode);
    ExitSafe(s, exitCode);
    SwitchSafe(e, env, 0, 0);
    SwitchSafe(RestoreMain(e, env), env, 0, 0);
  }

  lemma StepSafe(s: Sched, a: Action)
    requires Safe(s)
    ensures Safe(Step(s, a))
  {
    match a
    case DoCreate(suspended, context) => CreateSafe(s, suspended, context);
    case DoResume(handle) => ResumeSafe(s, handle);
    case DoRefresh(env) => RefreshedSafe(s, env);
    case DoSwitch(env, returnAddress, preferred) => SwitchSafe(s, env, returnAddress, preferred);
    case DoYield(env, returnAddress) => YieldSafe(s, env, returnAddress);
    case DoFinish(env, exitCode) => FinishSafe(s, env, exitCode);
    case DoStartProcess(context) => StartProcessSafe(s, context);
    case DoBlock(wait, landing) => BlockSafe(s, wait, landing);
    case DoRestoreMain(env) =>
    case DoWake(env) => WakeSafe(s, env);
    case DoReply(handle, result) => ReplySafe(s, handle, result);
    case DoExecute(cpu) =>
  }

  lemma {:induction false} RunSafe(s: Sched, actions: seq<Action>)
    requires Safe(s)
    ensures Safe(Run(s, actions))
    decreases |actions|
  {
    if actions == [] {
    } else {
      StepSafe(s, actions[0]);
      RunSafe(Step(s, actions[0]), actions[1..]);
    }
  }

  /**
   * Ending the current process keeps the rule exactly when no thread of another
   * process is running: it clears the active thread whoever that is.
   */
  lemma TerminateSafeIff(s: Sched, exitCode: uint32)
    requires Safe(s)
    ensures Safe(Terminate(s, exitCode)) <==>
            forall t | t in s.kernel.threads :: t.state == Running ==> t.processHandle == MAIN_PROCESS
  {
    var r := Terminate(s, exitCode);
    if t :| t in s.kernel.threads && t.state == Running && t.processHandle != MAIN_PROCESS {
      var i :| 0 <= i < |s.kernel.threads| && s.kernel.threads[i] == t;
      assert r.kernel.threads[i] == t;
    }
  }

  lemma OnlyThreadChosen(s: Sched, env: Env)
    requires s.active == 0 && |s.kernel.threads| == 1 && Eligible(s.kernel.threads[0]) && env.owner.None?
    ensures var t, u := Switch(s, env, 0, 0).0, s.kernel.threads[0];
            t.active == u.handle && t.kernel.threads == [u.(state := Running)]
  {
    RefreshKeepsEligible(s.kernel, env.probes, 0);
    var r := Refreshed(s, env);
    assert r.kernel.threads == s.kernel.threads;
    assert Choice(MainTried(r, env), env, 0) == Some(0);
  }

  /** From an empty table: another process is started, its thread is switched in, and the main process ends. */
  lemma TerminateBreaksSafety(init: Sched, context: Context, env: Env, exitCode: uint32) returns (s: Sched)
    requires Safe(init) && init.kernel.threads == [] && init.active == 0
    requires init.nextHandle + 1 < 0x1_0000_0000 && env.owner.None?
    ensures s == Run(init, [DoStartProcess(context), DoSwitch(env, 0, 0)])
    ensures Safe(s) && s.active != 0 && !Safe(Terminate(s, exitCode))
  {
    RunTwo(init, DoStartProcess(context), DoSwitch(env, 0, 0));
    s := StartedProcessRuns(init, context, env);
    RunningElsewhere(s, exitCode);
  }

  lemma StartedProcessRuns(init: Sched, context: Context, env: Env) returns (s: Sched)
    requires Safe(init) && init.kernel.threads == [] && init.active == 0
    requires init.nextHandle + 1 < 0x1_0000_0000 && env.owner.None?
    ensures s == Switch(StartProcess(init, context), env, 0, 0).0
    ensures Safe(s) && s.active != 0 && |s.kernel.threads| == 1
    ensures s.kernel.threads[0].state == Running && s.kernel.threads[0].processHandle != MAIN_PROCESS
  {
    var s1 := StartProcess(init, context);
    StartProcessSafe(init, context);
    OnlyThreadChosen(s1, env);
    SwitchSafe(s1, env, 0, 0);
    s := Switch(s1, env, 0, 0).0;
  }

  lemma RunTwo(s: Sched, a: Action, b: Action)
    ensures Run(s, [a, b]) == Step(Step(s, a), b)
  {
    assert [a, b][1..] == [b] && [b][1..] == [];
    assert Run(Step(Step(s, a), b), []) == Step(Step(s, a), b);
  }

  lemma RunningElsewhere(s: Sched, exitCode: uint32)
    requires Safe(s) && |s.kernel.threads| == 1
    requires s.kernel.threads[0].state == Running && s.kernel.threads[0].processHandle != MAIN_PROCESS
    ensures !Safe(Terminate(s, exitCode))
  {
    TerminateSafeIff(s, exitCode);
    assert s.kernel.threads[0] in s.kernel.threads;
  }

  /** A yield from a running thread always finds somebody to run. */
  lemma YieldFindsSuccessor(init: Sched, actions: seq<Action>, env: Env, returnAddress: uint32, i: nat)
    requires Safe(init)
    requires var s := Run(init, actions);
             i < |s.kernel.threads| && s.kernel.threads[i].state == Running
    ensures var s := Run(init, actions); var (t, ok) := Yield(s, env, returnAddress);
            && ok
            && (t.active != 0 ==> exists j :: 0 <= j < |t.kernel.threads| && t.kernel.threads[j].handle == t.active &&
                                              t.kernel.threads[j].state == Running)
  {
    RunSafe(init, actions);
    var s := Run(init, actions);
    assert Find(s.kernel.threads, s.active) == Some(i);
    var y := YieldStart(s, returnAddress);
    RefreshSettles(y.kernel, 0, env.probes);
    var r := Refreshed(y, env);
    RefreshKeepsEligible(y.kernel, env.probes, i);
    assert Eligible(r.kernel.threads[i]);
    if !ReturnsToMain(r, env) {
      var tried := MainTried(r, env);
      var c := Choice(tried, env, 0);
      assert c.Some?;
      var t := SwitchTo(tried, c.value, env, 0);
      assert t.kernel.threads[c.value].state == Running;
    }
  }

  lemma {:induction false} RefreshLeavesRunnable(k: State, i: nat, p: Probes, j: nat)
    requires i <= |k.threads| && j < |k.threads| && k.threads[j].state != Waiting
    ensures RefreshFrom(k, i, p).threads[j] == k.threads[j]
    decreases |k.threads| - i
  {
    if i == |k.threads| {
    } else {
      RefreshLeavesRunnable(RefreshThread(k, i, p), i + 1, p, j);
    }
  }

  lemma RefreshKeepsEligible(k: State, p: Probes, j: nat)
    requires j < |k.threads| && k.threads[j].state != Waiting
    ensures Refresh(k, p).threads[j] == k.threads[j]
  {
    RefreshLeavesRunnable(k, 0, p, j);
  }

  // ---- Who goes first ----

  /** Thread `i`, as the switch's refresh leaves it, can run. */
  predicate CanRunAfterRefresh(s: Sched, env: Env, i: nat)
    requires i < |s.kernel.threads|
  {
    var t := Refresh(s.kernel, env.probes).threads[i];
    t.state == Runnable && t.context.valid
  }

  /**
   * A thread that owns the oldest message and can run is given the processor,
   * whoever is active, was last or is preferred.
   */
  lemma OwnerGoesFirst(s: Sched, env: Env, returnAddress: uint32, preferred: uint32, i: nat)
    requires Safe(s) && i < |s.kernel.threads| && s.kernel.threads[i].handle != MAIN_THREAD
    requires env.owner == Some(s.kernel.threads[i].handle) && CanRunAfterRefresh(s, env, i)
    ensures var (t, ok) := Switch(s, env, returnAddress, preferred);
            && ok && t.active == t.last == s.kernel.threads[i].handle
            && i < |t.kernel.threads| && t.kernel.threads[i].state == Running
            && (s.active != t.active ==> t.cpu == Refresh(s.kernel, env.probes).threads[i].context)
  {
    RefreshedSafe(s, env);
    RefreshSettles(s.kernel, 0, env.probes);
    FindSorted(Refreshed(s, env).kernel.threads, i);
    assert OwnerIndex(Refreshed(s, env), env) == Some(i);
  }

  /** So it is after a yield, when it could run already or is the one that yields. */
  lemma OwnerGoesFirstAtYield(s: Sched, env: Env, returnAddress: uint32, i: nat)
    requires Safe(s) && i < |s.kernel.threads| && s.kernel.threads[i].handle != MAIN_THREAD
    requires env.owner == Some(s.kernel.threads[i].handle)
    requires s.kernel.threads[i].state == Running || Eligible(s.kernel.threads[i])
    ensures var (t, ok) := Yield(s, env, returnAddress); ok && t.active == s.kernel.threads[i].handle
  {
    FindSorted(s.kernel.threads, i);
    SaveSafe(s, returnAddress);
    if s.active == 0 {
      RefreshKeepsEligible(s.kernel, env.probes, i);
      OwnerGoesFirst(s, env, returnAddress, 0, i);
    } else {
      var y := YieldStart(s, returnAddress);
      assert Eligible(y.kernel.threads[i]);
      RefreshKeepsEligible(y.kernel, env.probes, i);
      OwnerGoesFirst(y, env, 0, 0, i);
    }
  }

  /** The main thread, when it owns the oldest message and its parked context can run, takes over from any thread. */
  lemma MainGoesFirst(s: Sched, env: Env, returnAddress: uint32, preferred: uint32)
    requires env.owner == Some(MAIN_THREAD) && !env.blockingPending && s.active != 0
    requires s.main.valid && s.main.pc != 0 && env.readable(s.main.pc)
    ensures var (t, ok) := Switch(s, env, returnAddress, preferred); ok && t.active == 0 && t.cpu == s.main == t.main
  {
  }

  /** The preferred thread, if it can run, is chosen when the queue has no owner or only one that cannot run. */
  lemma PreferredGoesNext(s: Sched, env: Env, returnAddress: uint32, i: nat)
    requires Safe(s) && i < |s.kernel.threads| && CanRunAfterRefresh(s, env, i)
    requires env.owner != Some(MAIN_THREAD)
    requires forall j | 0 <= j < |s.kernel.threads| && env.owner == Some(s.kernel.threads[j].handle) :: !CanRunAfterRefresh(s, env, j)
    ensures var (t, ok) := Switch(s, env, returnAddress, s.kernel.threads[i].handle); ok && t.active == s.kernel.threads[i].handle
  {
    RefreshedSafe(s, env);
    RefreshSettles(s.kernel, 0, env.probes);
    var r := Refreshed(s, env);
    FindSorted(r.kernel.threads, i);
    NoOwnerRuns(r, env);
    assert Choice(r, env, s.kernel.threads[i].handle) == Some(i);
  }

  lemma NoOwnerRuns(s: Sched, env: Env)
    requires forall j | 0 <= j < |s.kernel.threads| && env.owner == Some(s.kernel.threads[j].handle) :: !Eligible(s.kernel.threads[j])
    ensures OwnerIndex(s, env).None?
  {
  }

  /** Without any of these a switch succeeds exactly when some thread can run. */
  lemma SwitchSucceedsIff(s: Sched, env: Env, returnAddress: uint32, preferred: uint32)
    requires env.owner != Some(MAIN_THREAD)
    ensures Switch(s, env, returnAddress, preferred).1 <==>
            exists i :: 0 <= i < |s.kernel.threads| && CanRunAfterRefresh(s, env, i)
  {
    RefreshSettles(s.kernel, 0, env.probes);
    var r := Refreshed(s, env);
    var c := Choice(r, env, preferred);
    if c.Some? {
      assert CanRunAfterRefresh(s, env, c.value);
    }
  }

  // ---- A thread's beginning and end ----

  /** A new thread can run at once, or, created suspended, from its first resume; nobody else changes. */
  lemma CreatedThreadRuns(s: Sched, suspended: bool, context: Context)
    requires Safe(s) && s.nextHandle < 0x1_0000_0000
    ensures var n := |s.kernel.threads|;
            var t := if suspended then Resume(Create(s, true, context), s.nextHandle) else Create(s, false, context);
            && |t.kernel.threads| == n + 1 && t.kernel.threads[..n] == s.kernel.threads
            && var u := t.kernel.threads[n];
               u.handle == s.nextHandle && u.state == Runnable && u.suspendCount == 0 && u.context == context.(valid := true)
  {
    var c := Create(s, suspended, context);
    CreateSafe(s, suspended, context);
    FindSorted(c.kernel.threads, |s.kernel.threads|);
  }

  /** A resume takes one suspension back, and a suspended thread can run when none is left. */
  lemma ResumeCountsDown(s: Sched, i: nat)
    requires Safe(s) && i < |s.kernel.threads| && s.kernel.threads[i].state != Terminated
    requires NamesThread(s.kernel, s.kernel.threads[i].handle)
    ensures var t := s.kernel.threads[i]; var left := if t.suspendCount == 0 then 0 else t.suspendCount - 1;
            Resume(s, t.handle).kernel.threads ==
            s.kernel.threads[i := t.(suspendCount := left, state := if t.state == Suspended && left == 0 then Runnable else t.state)]
  {
    FindSorted(s.kernel.threads, i);
  }

  /** It belongs to the process of the thread that creates it, or to the main process. */
  lemma CreatedThreadBelongs(s: Sched, suspended: bool, context: Context, i: nat)
    requires Safe(s) && s.nextHandle < 0x1_0000_0000
    ensures var u := Create(s, suspended, context).kernel.threads;
            && (s.active == 0 ==> u[|s.kernel.threads|].processHandle == MAIN_PROCESS)
            && (i < |s.kernel.threads| && s.kernel.threads[i].handle == s.active ==>
                  u[|s.kernel.threads|].processHandle == s.kernel.threads[i].processHandle)
  {
    if i < |s.kernel.threads| {
      FindSorted(s.kernel.threads, i);
    }
  }

  /** The active thread's exit ends it with its code, and it is neither active nor the last scheduled one's place. */
  lemma FinishedThreadEnds(s: Sched, env: Env, exitCode: uint32, i: nat)
    requires Safe(s) && i < |s.kernel.threads| && s.kernel.threads[i].handle == s.active
    ensures var t := Finish(s, env, exitCode).0;
            && i < |t.kernel.threads| && t.kernel.threads[i].state == Terminated && t.kernel.threads[i].exitCode == exitCode
            && t.active != s.active
  {
    FindSorted(s.kernel.threads, i);
    var e := Exited(s, exitCode);
    ExitSafe(s, exitCode);
    assert e.active == 0 && e.kernel.threads[i].state == Terminated;
    EndedStaysEnded(e, env, i);
    EndedStaysEnded(RestoreMain(e, env), env, i);
  }

  /** Unless a host call is pending, an exit goes back to a main context that can run, as it was parked. */
  lemma FinishReturnsToMain(s: Sched, env: Env, exitCode: uint32)
    requires s.active != 0 && !env.blockingPending && s.main.valid && s.main.pc != 0 && env.readable(s.main.pc)
    ensures var (t, ok) := Finish(s, env, exitCode); ok && t.active == 0 && t.cpu == t.main == s.main
  {
  }

  lemma EndedStaysEnded(s: Sched, env: Env, i: nat)
    requires Safe(s) && s.active == 0 && i < |s.kernel.threads| && s.kernel.threads[i].state == Terminated
    ensures var t := Switch(s, env, 0, 0).0;
            i < |t.kernel.threads| && t.kernel.threads[i] == s.kernel.threads[i] && t.active != s.kernel.threads[i].handle
  {
    RefreshKeepsEligible(s.kernel, env.probes, i);
    RefreshedSafe(s, env);
    var r := Refreshed(s, env);
    if !ReturnsToMain(r, env) {
      var c := Choice(MainTried(r, env), env, 0);
      if c.Some? {
        FindSorted(r.kernel.threads, c.value);
        FindSorted(r.kernel.threads, i);
      }
    }
  }

  // ---- Fairness ----

  /** How many threads come before position `target` when the search starts at `first`. */
  function Distance(first: nat, target: nat, n: nat): nat
    requires first <= n && target < n
  {
    if first <= target then target - first else target + n - first
  }

  lemma {:induction false} UpperBoundIs(threads: seq<GuestThread>, handle: uint32, at: nat)
    requires at <= |threads| && (forall i | 0 <= i < at :: threads[i].handle <= handle)
    requires at < |threads| ==> threads[at].handle > handle
    ensures UpperBound(threads, handle) == at
  {
    if at == 0 {
    } else {
      UpperBoundIs(threads[1..], handle, at - 1);
    }
  }

  /** Round robin never passes over an eligible thread: it picks that one or gets closer to it. */
  lemma RoundRobinApproaches(threads: seq<GuestThread>, last: uint32, target: nat)
    requires Sorted(threads) && target < |threads| && Eligible(threads[target])
    requires forall i | 0 <= i < |threads| :: threads[i].handle != 0
    ensures var r := RoundRobin(threads, last); var n := |threads|;
            && r.Some?
            && (r.value == target ||
                (FirstToTry(threads, threads[r.value].handle) == r.value + 1 &&
                 Distance(r.value + 1, target, n) < Distance(FirstToTry(threads, last), target, n)))
  {
    var r := RoundRobin(threads, last);
    UpperBoundIs(threads, threads[r.value].handle, r.value + 1);
  }

  // One switch of a run: the state it found and what it saw.
  datatype Turn = Turn(before: Sched, env: Env, returnAddress: uint32)

  function After(t: Turn): Sched { Switch(t.before, t.env, t.returnAddress, 0).0 }

  /** The message queue has no say in this switch. */
  predicate NoOwnerSay(t: Turn) {
    var r := Refreshed(t.before, t.env);
    !ReturnsToMain(r, t.env) && OwnerIndex(r, t.env).None?
  }

  predicate SameHandles(a: seq<GuestThread>, b: seq<GuestThread>) {
    |a| == |b| && forall i | 0 <= i < |a| :: a[i].handle == b[i].handle
  }

  /**
   * Successive switches with no schedulable message owner and no preference, among
   * the same threads, with thread number `target` runnable at each.  Between two
   * switches anything else may change.
   */
  ghost predicate Turns(turns: seq<Turn>, target: nat) {
    && (forall j | 0 <= j < |turns| ::
          && Safe(turns[j].before) && NoOwnerSay(turns[j])
          && SameHandles(turns[j].before.kernel.threads, turns[0].before.kernel.threads)
          && target < |turns[j].before.kernel.threads| && Eligible(turns[j].before.kernel.threads[target]))
    && (forall j | 0 < j < |turns| :: turns[j].before.last == After(turns[j - 1]).last)
  }

  function TurnDistance(t: Turn, target: nat): nat
    requires target < |t.before.kernel.threads|
  {
    Distance(FirstToTry(t.before.kernel.threads, t.before.last), target, |t.before.kernel.threads|)
  }

  lemma TurnIsRoundRobin(t: Turn)
    requires NoOwnerSay(t)
    ensures var us := Refreshed(t.before, t.env).kernel.threads; var c := RoundRobin(us, t.before.last);
            c.Some? ==> After(t).active == After(t).last == us[c.value].handle
  {
    var r := Refreshed(t.before, t.env);
    var tried := MainTried(r, t.env);
    assert Choice(tried, t.env, 0) == RoundRobin(r.kernel.threads, r.last);
  }

  lemma TurnChooses(t: Turn, target: nat)
    requires Safe(t.before) && NoOwnerSay(t)
    requires target < |t.before.kernel.threads| && Eligible(t.before.kernel.threads[target])
    ensures var a, ts := After(t), t.before.kernel.threads;
            && a.active == a.last
            && (a.active == ts[target].handle ||
                Distance(FirstToTry(ts, a.last), target, |ts|) < TurnDistance(t, target))
  {
    RefreshedSafe(t.before, t.env);
    RefreshSettles(t.before.kernel, 0, t.env.probes);
    RefreshKeepsEligible(t.before.kernel, t.env.probes, target);
    var ts, us := t.before.kernel.threads, Refreshed(t.before, t.env).kernel.threads;
    RoundRobinApproaches(us, t.before.last, target);
    TurnIsRoundRobin(t);
    SameFirst(ts, us, t.before.last);
    SameFirst(ts, us, After(t).last);
  }

  lemma SameFirst(a: seq<GuestThread>, b: seq<GuestThread>, last: uint32)
    requires SameHandles(a, b)
    ensures FirstToTry(a, last) == FirstToTry(b, last)
  {
    UpperBoundIs(b, last, UpperBound(a, last));
  }

  lemma {:induction false} ChosenFrom(turns: seq<Turn>, target: nat, j: nat)
    requires Turns(turns, target) && j < |turns|
    requires TurnDistance(turns[j], target) < |turns| - j
    ensures exists m :: j <= m <= j + TurnDistance(turns[j], target) &&
                        After(turns[m]).active == turns[0].before.kernel.threads[target].handle
    decreases |turns| - j
  {
    TurnChooses(turns[j], target);
    if After(turns[j]).active != turns[0].before.kernel.threads[target].handle {
      SameFirst(turns[j].before.kernel.threads, turns[j + 1].before.kernel.threads, After(turns[j]).last);
      ChosenFrom(turns, target, j + 1);
    }
  }

  /** A thread that stays runnable is chosen within as many switches as there are threads. */
  lemma FairWithinThreadCount(turns: seq<Turn>, target: nat)
    requires Turns(turns, target) && turns != [] && |turns[0].before.kernel.threads| <= |turns|
    ensures exists m :: 0 <= m < |turns[0].before.kernel.threads| &&
                        After(turns[m]).active == turns[0].before.kernel.threads[target].handle
  {
    ChosenFrom(turns, target, 0);
  }

  // ---- Contexts ----

  /** Waiting for an answer, which a release will put into the result register. */
  predicate Asleep(t: GuestThread) {
    t.state == Waiting || t.state == WaitingForSendMessage
  }

  function FromVerdict(v: Verdict): Option<uint32> {
    if v.Release? then Some(v.result) else None
  }

  predicate FinishSwitches(s: Sched, env: Env, exitCode: uint32) {
    s.active != 0 && (env.blockingPending || !MainRunnable(Exited(s, exitCode), env))
  }

  /** The answer a step gives thread `i`: the refresh pass's verdict on its wait, or the reply to its message. */
  function Answer(s: Sched, a: Action, i: nat): Option<uint32>
    requires i < |s.kernel.threads|
  {
    match a
    case DoRefresh(env) => FromVerdict(VerdictOn(s.kernel, i, env.probes))
    case DoWake(env) => FromVerdict(VerdictOn(s.kernel, i, env.probes))
    case DoSwitch(env, _, _) => FromVerdict(VerdictOn(s.kernel, i, env.probes))
    case DoYield(env, returnAddress) =>
      FromVerdict(VerdictOn((if s.active == 0 then s else YieldStart(s, returnAddress)).kernel, i, env.probes))
    case DoFinish(env, exitCode) =>
      if FinishSwitches(s, env, exitCode) then FromVerdict(VerdictOn(Exited(s, exitCode).kernel, i, env.probes)) else None
    case DoReply(handle, result) =>
      if s.kernel.threads[i].handle == handle && s.kernel.threads[i].state == WaitingForSendMessage then Some(result) else None
    case _ => None
  }

  function Answered(c: Context, answer: Option<uint32>): Context {
    if answer.Some? then c.(result := answer.value) else c
  }

  /** Thread `i` of `t` is the one of `s`, its registers answered, and asleep only if it was and got no answer. */
  predicate Kept(s: Sched, t: Sched, i: nat, answer: Option<uint32>)
    requires i < |s.kernel.threads|
  {
    && i < |t.kernel.threads| && t.kernel.threads[i].handle == s.kernel.threads[i].handle
    && t.kernel.threads[i].context == Answered(s.kernel.threads[i].context, answer)
    && (answer.Some? ==> Asleep(s.kernel.threads[i]))
    && (Asleep(t.kernel.threads[i]) <==> Asleep(s.kernel.threads[i]) && answer.None?)
  }

  /** If thread `i` is the active one it runs, with its saved registers. */
  predicate Loaded(t: Sched, i: nat)
    requires i < |t.kernel.threads|
  {
    t.active == t.kernel.threads[i].handle ==>
      t.kernel.threads[i].state == Running && t.cpu == t.kernel.threads[i].context && t.cpu.valid
  }

  lemma RefreshKeeps(s: Sched, env: Env, i: nat)
    requires i < |s.kernel.threads|
    ensures Kept(s, Refreshed(s, env), i, FromVerdict(VerdictOn(s.kernel, i, env.probes)))
  {
    RefreshActsOnVerdict(s.kernel, i, env.probes);
  }

  lemma SwitchToKeeps(s: Sched, chosen: nat, env: Env, returnAddress: uint32, i: nat)
    requires Safe(s) && i < |s.kernel.threads| && s.kernel.threads[i].handle != s.active
    requires chosen < |s.kernel.threads| && Eligible(s.kernel.threads[chosen])
    ensures var t := SwitchTo(s, chosen, env, returnAddress); Kept(s, t, i, None) && Loaded(t, i)
  {
    FindSorted(s.kernel.threads, chosen);
    FindSorted(s.kernel.threads, i);
  }

  lemma BackToMainKeeps(s: Sched, env: Env, returnAddress: uint32, i: nat)
    requires Safe(s) && i < |s.kernel.threads| && s.kernel.threads[i].handle != s.active
    ensures var t := BackToMain(s, env, returnAddress); Kept(s, t, i, None) && Loaded(t, i)
  {
  }

  /** A switch changes of a thread that is not active only what its refresh says; one it makes active runs with that. */
  lemma SwitchKeeps(s: Sched, env: Env, returnAddress: uint32, preferred: uint32, i: nat)
    requires Safe(s) && i < |s.kernel.threads| && s.kernel.threads[i].handle != s.active
    ensures var t := Switch(s, env, returnAddress, preferred).0;
            Kept(s, t, i, FromVerdict(VerdictOn(s.kernel, i, env.probes))) && Loaded(t, i)
  {
    RefreshKeeps(s, env, i);
    RefreshedSafe(s, env);
    var r := Refreshed(s, env);
    if ReturnsToMain(r, env) {
      BackToMainKeeps(r, env, returnAddress, i);
    } else {
      var tried := MainTried(r, env);
      var c := Choice(tried, env, preferred);
      if c.Some? {
        SwitchToKeeps(tried, c.value, env, returnAddress, i);
      }
    }
  }

  lemma YieldKeeps(s: Sched, env: Env, returnAddress: uint32, i: nat)
    requires Safe(s) && i < |s.kernel.threads| && s.kernel.threads[i].handle != s.active
    ensures var t := Yield(s, env, returnAddress).0; Kept(s, t, i, Answer(s, DoYield(env, returnAddress), i)) && Loaded(t, i)
  {
    if s.active == 0 {
      SwitchKeeps(s, env, returnAddress, 0, i);
    } else {
      SaveSafe(s, returnAddress);
      assert YieldStart(s, returnAddress).kernel.threads[i] == s.kernel.threads[i];
      SwitchKeeps(YieldStart(s, returnAddress), env, 0, 0, i);
    }
  }

  lemma FinishKeeps(s: Sched, env: Env, exitCode: uint32, i: nat)
    requires Safe(s) && i < |s.kernel.threads| && s.kernel.threads[i].handle != s.active
    ensures var t := Finish(s, env, exitCode).0;
            Kept(s, t, i, Answer(s, DoFinish(env, exitCode), i)) && Loaded(t, i)
  {
    if s.active != 0 {
      var e := Exited(s, exitCode);
      ExitSafe(s, exitCode);
      assert e.kernel.threads[i] == s.kernel.threads[i];
      if env.blockingPending {
        SwitchKeeps(e, env, 0, 0, i);
      } else if !MainRunnable(e, env) {
        SwitchKeeps(RestoreMain(e, env), env, 0, 0, i);
      }
    }
  }

  lemma ReplyKeeps(s: Sched, handle: uint32, result: uint32, i: nat)
    requires Safe(s) && i < |s.kernel.threads| && s.kernel.threads[i].handle != s.active
    ensures var t := Reply(s, handle, result); Kept(s, t, i, Answer(s, DoReply(handle, result), i)) && Loaded(t, i)
  {
    FindSorted(s.kernel.threads, i);
  }

  lemma WakeKeeps(s: Sched, env: Env, i: nat)
    requires i < |s.kernel.threads| && s.kernel.threads[i].handle != s.active
    ensures var t := Wake(s, env); Kept(s, t, i, Answer(s, DoWake(env), i)) && Loaded(t, i)
  {
    RefreshKeeps(s, env, i);
  }

  lemma BlockKeeps(s: Sched, wait: GuestThread, landing: Landing, i: nat)
    requires Safe(s) && i < |s.kernel.threads| && s.kernel.threads[i].handle != s.active
    ensures var t := Block(s, wait, landing); Kept(s, t, i, None) && Loaded(t, i)
  {
  }

  /**
   * A step changes the saved registers of a thread that is not active only by
   * giving it its answer, and a step that makes it active gives it those registers.
   */
  lemma StepKeepsRegisters(s: Sched, a: Action, i: nat)
    requires Safe(s) && i < |s.kernel.threads| && s.kernel.threads[i].handle != s.active
    ensures var t := Step(s, a); Kept(s, t, i, Answer(s, a, i)) && Loaded(t, i)
  {
    match a
    case DoRefresh(env) => RefreshKeeps(s, env, i);
    case DoWake(env) => WakeKeeps(s, env, i);
    case DoSwitch(env, returnAddress, preferred) => SwitchKeeps(s, env, returnAddress, preferred, i);
    case DoYield(env, returnAddress) => YieldKeeps(s, env, returnAddress, i);
    case DoFinish(env, exitCode) => FinishKeeps(s, env, exitCode, i);
    case DoReply(handle, result) => ReplyKeeps(s, handle, result, i);
    case DoBlock(wait, landing) => BlockKeeps(s, wait, landing, i);
    case _ =>
  }

  lemma {:induction false} FindSorted(threads: seq<GuestThread>, i: nat)
    requires Sorted(threads) && i < |threads|
    ensures Find(threads, threads[i].handle) == Some(i)
  {
    if i == 0 {
    } else {
      FindSorted(threads[1..], i - 1);
    }
  }

  /** The steps between a thread's leaving and its return: it is never active. */
  predicate Away(s: Sched, actions: seq<Action>, i: nat)
    decreases |actions|
  {
    && i < |s.kernel.threads| && s.kernel.threads[i].handle != s.active
    && (actions == [] || Away(Step(s, actions[0]), actions[1..], i))
  }

  /** The answer it gets in these steps. */
  function AnswerDuring(s: Sched, actions: seq<Action>, i: nat): Option<uint32>
    requires Away(s, actions, i)
    decreases |actions|
  {
    if actions == [] then None
    else
      var first := Answer(s, actions[0], i);
      if first.Some? then first else AnswerDuring(Step(s, actions[0]), actions[1..], i)
  }

  lemma {:induction false} AwakeGetsNoAnswer(s: Sched, actions: seq<Action>, i: nat)
    requires Safe(s) && Away(s, actions, i) && !Asleep(s.kernel.threads[i])
    ensures AnswerDuring(s, actions, i).None?
    decreases |actions|
  {
    if actions == [] {
    } else {
      StepKeepsRegisters(s, actions[0], i);
      StepSafe(s, actions[0]);
      AwakeGetsNoAnswer(Step(s, actions[0]), actions[1..], i);
    }
  }

  lemma {:induction false} AwayKeepsRegisters(s: Sched, actions: seq<Action>, i: nat)
    requires Safe(s) && Away(s, actions, i)
    ensures Kept(s, Run(s, actions), i, AnswerDuring(s, actions, i))
    ensures Run(s, actions).kernel.threads[i].handle != Run(s, actions).active
    decreases |actions|
  {
    if actions == [] {
    } else {
      var t := Step(s, actions[0]);
      StepKeepsRegisters(s, actions[0], i);
      StepSafe(s, actions[0]);
      AwayKeepsRegisters(t, actions[1..], i);
      if Answer(s, actions[0], i).Some? {
        AwakeGetsNoAnswer(t, actions[1..], i);
      }
    }
  }

  /** The answer a thread gets while it is away or in the very step that makes it active again. */
  function TripAnswer(s: Sched, between: seq<Action>, back: Action, i: nat): Option<uint32>
    requires Away(s, between, i) && i < |Run(s, between).kernel.threads|
  {
    var first := AnswerDuring(s, between, i);
    if first.Some? then first else Answer(Run(s, between), back, i)
  }

  /** A thread that becomes active again has the registers it left, changed only by one answer, and only if it waited for one. */
  lemma RegistersComeBack(s: Sched, between: seq<Action>, back: Action, i: nat)
    requires Safe(s) && Away(s, between, i)
    ensures i < |Run(s, between).kernel.threads|
    ensures var u := Step(Run(s, between), back); var answer := TripAnswer(s, between, back, i);
            u.active == s.kernel.threads[i].handle ==>
              && u.cpu == Answered(s.kernel.threads[i].context, answer) && u.cpu.valid
              && (answer.Some? <==> Asleep(s.kernel.threads[i]))
  {
    AwayKeepsRegisters(s, between, i);
    RunSafe(s, between);
    StepKeepsRegisters(Run(s, between), back, i);
  }

  /** Switching away from the running thread saves its registers, with the resume address as its pc. */
  lemma SwitchOutSaves(s: Sched, env: Env, returnAddress: uint32, preferred: uint32, i: nat)
    requires Safe(s) && i < |s.kernel.threads|
    requires s.kernel.threads[i].handle == s.active && s.kernel.threads[i].state == Running
    ensures var (t, ok) := Switch(s, env, returnAddress, preferred);
            ok && t.active != s.active ==>
              && i < |t.kernel.threads| && t.kernel.threads[i].state == Runnable
              && t.kernel.threads[i].handle == s.active
              && t.kernel.threads[i].context == Captured(s, returnAddress)
  {
    RefreshKeepsEligible(s.kernel, env.probes, i);
    RefreshedSafe(s, env);
    FindSorted(Refreshed(s, env).kernel.threads, i);
  }

  /**
   * A running thread switched out with a resume address finds, when any step makes
   * it active again after any steps of others, the registers it left and that address.
   */
  lemma RegistersSurvive(s: Sched, env: Env, returnAddress: uint32, preferred: uint32, between: seq<Action>, back: Action, i: nat)
    requires Safe(s) && i < |s.kernel.threads|
    requires s.kernel.threads[i].handle == s.active && s.kernel.threads[i].state == Running
    requires var (t, ok) := Switch(s, env, returnAddress, preferred); ok && Away(t, between, i) && t.active != s.active
    ensures var u := Step(Run(Switch(s, env, returnAddress, preferred).0, between), back);
            u.active == s.active ==> u.cpu == s.cpu.(valid := true, pc := if returnAddress != 0 then returnAddress else s.cpu.pc)
  {
    SwitchOutSaves(s, env, returnAddress, preferred, i);
    SwitchSafe(s, env, returnAddress, preferred);
    RegistersComeBack(Switch(s, env, returnAddress, preferred).0, between, back, i);
  }

  /**
   * A yield captures its thread twice, and the second time without the resume
   * address: what it saves, or goes on with when it chooses its own thread, is the
   * context asked for exactly when that address is absent or is the pc already.
   */
  lemma YieldKeepsAddressIff(s: Sched, env: Env, returnAddress: uint32, i: nat)
    requires Safe(s) && i < |s.kernel.threads|
    requires s.kernel.threads[i].handle == s.active && s.kernel.threads[i].state == Running
    ensures var (t, ok) := Yield(s, env, returnAddress);
            var saved := if t.active == s.active then t.cpu else if i < |t.kernel.threads| then t.kernel.threads[i].context else t.cpu;
            && ok && i < |t.kernel.threads|
            && (t.active != s.active ==> t.kernel.threads[i].handle == s.active && t.kernel.threads[i].state == Runnable)
            && saved == Captured(s, 0)
            && (saved == Captured(s, returnAddress) <==> returnAddress == 0 || returnAddress == s.cpu.pc)
  {
    FindSorted(s.kernel.threads, i);
    SaveSafe(s, returnAddress);
    var y := YieldStart(s, returnAddress);
    RefreshKeepsEligible(y.kernel, env.probes, i);
    RefreshedSafe(y, env);
    var r := Refreshed(y, env);
    FindSorted(r.kernel.threads, i);
    if !ReturnsToMain(r, env) {
      var tried := MainTried(r, env);
      var c := Choice(tried, env, 0);
      assert Eligible(r.kernel.threads[i]);
      FindSorted(r.kernel.threads, c.value);
    }
  }

  /** So a thread that yields comes back to the address it gave only under that guard; its other registers survive. */
  lemma YieldedRegistersSurvive(s: Sched, env: Env, returnAddress: uint32, between: seq<Action>, back: Action, i: nat)
    requires Safe(s) && i < |s.kernel.threads|
    requires s.kernel.threads[i].handle == s.active && s.kernel.threads[i].state == Running
    requires var t := Yield(s, env, returnAddress).0; t.active != s.active && Away(t, between, i)
    ensures var u := Step(Run(Yield(s, env, returnAddress).0, between), back);
            u.active == s.active ==>
              && u.cpu == s.cpu.(valid := true)
              && (returnAddress != 0 ==> (u.cpu.pc == returnAddress <==> returnAddress == s.cpu.pc))
  {
    YieldKeepsAddressIff(s, env, returnAddress, i);
    StepSafe(s, DoYield(env, returnAddress));
    RegistersComeBack(Yield(s, env, returnAddress).0, between, back, i);
  }

  /** A thread that blocks comes back where its call lands, with its registers and the answer to its wait. */
  lemma BlockedRegistersSurvive(s: Sched, wait: GuestThread, landing: Landing, between: seq<Action>, back: Action, i: nat)
    requires Safe(s) && i < |s.kernel.threads|
    requires s.kernel.threads[i].handle == s.active && Leaves(wait.state) && CanPark(s.kernel.threads[i], wait.state)
    requires Away(Block(s, wait, landing), between, i)
    ensures var t := Block(s, wait, landing);
            && i < |Run(t, between).kernel.threads|
            && var u := Step(Run(t, between), back); var answer := TripAnswer(t, between, back, i);
               u.active == s.active ==>
                 && u.cpu == Answered(LandingContext(s, landing), answer)
                 && u.cpu.valid && u.cpu.pc == landing.pc && u.cpu.rest == s.cpu.rest
                 && u.cpu.gp == (if landing.Returning? then landing.gp else s.cpu.gp)
                 && (answer.None? ==> u.cpu.result == if landing.Returning? then landing.result else s.cpu.result)
                 && (answer.Some? ==> u.cpu.result == answer.value)
                 && (answer.Some? <==> wait.state == Waiting || wait.state == WaitingForSendMessage)
  {
    FindSorted(s.kernel.threads, i);
    BlockSafe(s, wait, landing);
    var t := Block(s, wait, landing);
    RegistersComeBack(t, between, back, i);
  }

  // ---- The parked main context ----

  predicate CanRun(s: Sched, env: Env) {
    exists t | t in Refreshed(s, env).kernel.threads :: Eligible(t)
  }

  /**
   * While a guest thread is active a switch leaves the parked main context alone.
   * While none is, it takes whatever runs for the main thread.
   */
  predicate SwitchKeepsMain(s: Sched, env: Env, returnAddress: uint32) {
    || s.active != 0
    || (if MainOwns(env) && !PcReadable(s.cpu.pc, env) then
          MainRunnable(s, env) || (CanRun(s, env) && Captured(s, returnAddress) == s.main)
        else
          CanRun(s, env) && PcReadable(Captured(s, returnAddress).pc, env) ==> Captured(s, returnAddress) == s.main)
  }

  lemma ChosenIff(s: Sched, env: Env, preferred: uint32)
    ensures var r := Refreshed(s, env); Choice(MainTried(r, env), env, preferred).Some? <==> CanRun(s, env)
  {
    var r := Refreshed(s, env);
    var c := Choice(MainTried(r, env), env, preferred);
    if c.Some? {
      assert r.kernel.threads[c.value] in r.kernel.threads;
    }
  }

  lemma SwitchKeepsMainIff(s: Sched, env: Env, returnAddress: uint32, preferred: uint32)
    requires s.main.valid
    ensures Switch(s, env, returnAddress, preferred).0.main == s.main <==> SwitchKeepsMain(s, env, returnAddress)
  {
    ChosenIff(s, env, preferred);
  }

  /** A thread's exit keeps it unless the exited thread's own registers are taken for the main thread's. */
  predicate FinishKeepsMain(s: Sched, env: Env, exitCode: uint32) {
    || s.active == 0
    || (if env.blockingPending then
          CanRun(Exited(s, exitCode), env) && PcReadable(s.cpu.pc, env) ==> Captured(s, 0) == s.main
        else
          MainRunnable(s, env) || (CanRun(Exited(s, exitCode), env) && Captured(s, 0) == s.main))
  }

  lemma FinishKeepsMainIff(s: Sched, env: Env, exitCode: uint32)
    requires s.main.valid
    ensures Finish(s, env, exitCode).0.main == s.main <==> FinishKeepsMain(s, env, exitCode)
  {
    var e := Exited(s, exitCode);
    if s.active != 0 {
      if env.blockingPending {
        SwitchKeepsMainIff(e, env, 0, 0);
      } else if !MainRunnable(e, env) {
        ChosenIff(RestoreMain(e, env), env, 0);
      }
    }
  }

  /** With a host call pending, the exited thread's registers become the main thread's. */
  lemma FinishOverwritesMain(s: Sched, env: Env, exitCode: uint32)
    requires s.active != 0 && env.blockingPending && CanRun(Exited(s, exitCode), env) && PcReadable(s.cpu.pc, env)
    ensures Finish(s, env, exitCode).0.main == Captured(s, 0)
  {
    ChosenIff(Exited(s, exitCode), env, 0);
  }

  predicate KeepsMain(s: Sched, a: Action) {
    match a
    case DoSwitch(env, returnAddress, _) => SwitchKeepsMain(s, env, returnAddress)
    case DoYield(env, returnAddress) => SwitchKeepsMain(s, env, returnAddress)
    case DoFinish(env, exitCode) => FinishKeepsMain(s, env, exitCode)
    case DoRestoreMain(env) => s.active != 0 || MainRunnable(s, env)
    case _ => true
  }

  lemma StepKeepsMainIff(s: Sched, a: Action)
    requires s.main.valid
    ensures Step(s, a).main == s.main <==> KeepsMain(s, a)
  {
    match a
    case DoSwitch(env, returnAddress, preferred) => SwitchKeepsMainIff(s, env, returnAddress, preferred);
    case DoYield(env, returnAddress) =>
      SwitchKeepsMainIff(s, env, returnAddress, 0);
      SwitchKeepsMainIff(YieldStart(s, returnAddress), env, 0, 0);
    case DoFinish(env, exitCode) => FinishKeepsMainIff(s, env, exitCode);
    case _ =>
  }

  ghost predicate MainUntouched(s: Sched, actions: seq<Action>)
    decreases |actions|
  {
    actions == [] || (Step(s, actions[0]).main == s.main && MainUntouched(Step(s, actions[0]), actions[1..]))
  }

  predicate EachKeepsMain(s: Sched, actions: seq<Action>)
    decreases |actions|
  {
    actions == [] || (KeepsMain(s, actions[0]) && EachKeepsMain(Step(s, actions[0]), actions[1..]))
  }

  /** A run leaves the parked main context alone throughout iff each step passes its guard. */
  lemma {:induction false} RunKeepsMainIff(s: Sched, actions: seq<Action>)
    requires s.main.valid
    ensures MainUntouched(s, actions) <==> EachKeepsMain(s, actions)
    ensures EachKeepsMain(s, actions) ==> Run(s, actions).main == s.main
    decreases |actions|
  {
    if actions == [] {
    } else {
      StepKeepsMainIff(s, actions[0]);
      if KeepsMain(s, actions[0]) {
        RunKeepsMainIff(Step(s, actions[0]), actions[1..]);
      }
    }
  }
}
