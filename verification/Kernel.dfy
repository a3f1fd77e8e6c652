/**
 * Handles, threads and waits of the emulated kernel.  Host objects and the
 * message queue are seen only through probes, which are functions here.
 */
module Kernel {
  import opened Basics

  datatype HandleKind = HostEvent | HostMutex | GuestProcess | GuestThreadHandle | OtherKind

  datatype GuestHandle = GuestHandle(kind: HandleKind, hostValue: nat, manualReset: bool, signaled: bool)

  datatype RunState =
    | Suspended | Runnable | Running | Waiting
    | WaitingForMessage | WaitingForSendMessage | WaitingForSerialRead | Terminated

  // `result` is the register a call returns its value in; `rest` stands for all registers not named.
  datatype Context = Context(valid: bool, pc: uint32, result: uint32, gp: uint32, rest: int)

  datatype GuestThread = GuestThread(
    handle: uint32, processHandle: uint32, suspendCount: nat, exitCode: uint32, state: RunState,
    waitHandle: uint32, waitHandles: seq<uint32>, waitAll: bool, waitForMessages: bool, waitWakeMask: uint32,
    sleepUntilMs: nat, waitTimeoutResult: uint32, context: Context)

  // The thread table is an ordered map; `threads` lists it in handle order.
  datatype State = State(handles: map<uint32, GuestHandle>, threads: seq<GuestThread>)

  datatype HostWaitResult = HostWaitResult(ready: bool, failed: bool, error: uint32)

  // What a refresh can see of the world outside the kernel.
  datatype Probes = Probes(nowMs: nat, host: GuestHandle -> HostWaitResult, hasMessages: uint32 -> bool)

  const WAIT_OBJECT_0: uint32 := 0
  const WAIT_TIMEOUT: uint32 := 0x102
  const WAIT_FAILED: uint32 := 0xffff_ffff

  datatype RefreshKind =
    | SleepSatisfied | InvalidHandle | WaitFailed | WaitSatisfied
    | WaitAllSatisfied | QueueEventSatisfied | MessageWaitSatisfied

  datatype Event = Event(kind: RefreshKind, thread: uint32, waitHandle: uint32, error: uint32, index: nat, count: nat)

  ghost predicate Sorted(threads: seq<GuestThread>) {
    forall i, j | 0 <= i < j < |threads| :: threads[i].handle < threads[j].handle
  }

  predicate IsAutoReset(h: GuestHandle) {
    h.kind == HostEvent && !h.manualReset
  }

  predicate Probed(h: GuestHandle) {
    h.hostValue != 0 && (h.kind == HostMutex || h.kind == GuestProcess || h.kind == GuestThreadHandle)
  }

  /** No thread with this handle, or only a terminated one. */
  predicate ThreadGone(threads: seq<GuestThread>, handle: uint32) {
    forall t | t in threads :: t.handle == handle ==> t.state == Terminated
  }

  predicate ProcessRunning(threads: seq<GuestThread>, process: uint32) {
    exists t | t in threads :: t.processHandle == process && t.state != Terminated
  }

  function WaitList(t: GuestThread): seq<uint32> {
    if t.waitHandles == [] && t.waitHandle != 0 then [t.waitHandle] else t.waitHandles
  }

  // ---- refreshSignaledWaits, as a function ----

  function Readiness(k: State, handle: uint32, p: Probes): HostWaitResult
    requires handle in k.handles
  {
    var h := k.handles[handle];
    if h.kind == HostEvent then HostWaitResult(h.signaled, false, 0)
    else if Probed(h) then p.host(h)
    else if h.kind == GuestThreadHandle then HostWaitResult(ThreadGone(k.threads, handle), false, 0)
    else HostWaitResult(true, false, 0)
  }

  // What a refresh decides about one thread; `used` lists the handles the release consumed.
  datatype Verdict =
    | NotYet
    | Release(kind: RefreshKind, result: uint32, waitHandle: uint32, error: uint32, index: nat, count: nat, used: seq<uint32>)

  function Truncate32(n: nat): uint32 { n % 0x1_0000_0000 }

  function ScanHandles(k: State, hs: seq<uint32>, i: nat, waitAll: bool, allReady: bool, p: Probes): Verdict
    requires i <= |hs|
    decreases |hs| - i
  {
    if i == |hs| then
      if waitAll && allReady then Release(WaitAllSatisfied, 0, 0, 0, 0, |hs|, hs) else NotYet
    else if hs[i] !in k.handles then Release(InvalidHandle, WAIT_FAILED, hs[i], 6, 0, 0, [])
    else
      var r := Readiness(k, hs[i], p);
      if r.failed then Release(WaitFailed, WAIT_FAILED, hs[i], r.error, 0, 0, [])
      else if !waitAll && r.ready then Release(WaitSatisfied, Truncate32(i), hs[i], 0, i, 0, [hs[i]])
      else ScanHandles(k, hs, i + 1, waitAll, allReady && r.ready, p)
  }

  function Judge(k: State, t: GuestThread, p: Probes): Verdict {
    var hs := WaitList(t);
    if t.state != Waiting then NotYet
    else if t.sleepUntilMs != 0 && t.sleepUntilMs <= p.nowMs then
      Release(SleepSatisfied, t.waitTimeoutResult, 0, 0, 0, 0, [])
    else if t.sleepUntilMs != 0 && hs == [] && !t.waitForMessages then NotYet
    else if t.waitForMessages && p.hasMessages(t.handle) then
      Release(MessageWaitSatisfied, Truncate32(|hs|), 0, 0, 0, |hs|, [])
    else if !t.waitForMessages && !t.waitAll && |hs| > 1 && p.hasMessages(t.handle) then
      Release(QueueEventSatisfied, WAIT_OBJECT_0, 0, 0, 0, 0, [])
    else if hs == [] then NotYet
    else ScanHandles(k, hs, 0, t.waitAll, true, p)
  }

  function Woken(t: GuestThread, v: Verdict): GuestThread
    requires v.Release?
  {
    t.(state := Runnable, waitHandle := 0, waitHandles := [], waitForMessages := false, waitWakeMask := 0,
       waitTimeoutResult := 0, sleepUntilMs := if v.kind == SleepSatisfied then 0 else t.sleepUntilMs,
       context := t.context.(result := v.result))
  }

  /** Auto-reset events among `used` lose their signal. */
  function Consume(handles: map<uint32, GuestHandle>, used: seq<uint32>): map<uint32, GuestHandle> {
    map h | h in handles ::
      if h in used && IsAutoReset(handles[h]) then handles[h].(signaled := false) else handles[h]
  }

  function RefreshThread(k: State, i: nat, p: Probes): State
    requires i < |k.threads|
  {
    var v := Judge(k, k.threads[i], p);
    if v.NotYet? then k
    else State(Consume(k.handles, v.used), k.threads[i := Woken(k.threads[i], v)])
  }

  function EventsOf(k: State, i: nat, p: Probes): seq<Event>
    requires i < |k.threads|
  {
    var v := Judge(k, k.threads[i], p);
    if v.NotYet? then []
    else [Event(v.kind, k.threads[i].handle, v.waitHandle, v.error, v.index, v.count)]
  }

  function RefreshFrom(k: State, i: nat, p: Probes): (r: State)
    requires i <= |k.threads|
    ensures |r.threads| == |k.threads|
    decreases |k.threads| - i
  {
    if i == |k.threads| then k else RefreshFrom(RefreshThread(k, i, p), i + 1, p)
  }

  function EventsFrom(k: State, i: nat, p: Probes): seq<Event>
    requires i <= |k.threads|
    decreases |k.threads| - i
  {
    if i == |k.threads| then []
    else EventsOf(k, i, p) + EventsFrom(RefreshThread(k, i, p), i + 1, p)
  }

  function Refresh(k: State, p: Probes): State { RefreshFrom(k, 0, p) }

  function Events(k: State, p: Probes): seq<Event> { EventsFrom(k, 0, p) }

  /** The state in which a pass reaches thread `n`. */
  function RefreshUpTo(k: State, n: nat, p: Probes): (r: State)
    requires n <= |k.threads|
    ensures |r.threads| == |k.threads|
  {
    if n == 0 then k else RefreshThread(RefreshUpTo(k, n - 1, p), n - 1, p)
  }

  /** What a pass decides about thread `i`, in the state it reaches it in. */
  function VerdictOn(k: State, i: nat, p: Probes): Verdict
    requires i < |k.threads|
  {
    Judge(RefreshUpTo(k, i, p), k.threads[i], p)
  }

  // ---- wakeThreadsWaitingForMessage, as a function ----

  function WokenForMessage(t: GuestThread, p: Probes): GuestThread {
    if t.state == WaitingForMessage && p.hasMessages(t.handle) then t.(state := Runnable) else t
  }

  function WakeForMessages(k: State, p: Probes): State {
    k.(threads := seq(|k.threads|, i requires 0 <= i < |k.threads| => WokenForMessage(k.threads[i], p)))
  }

  // ---- The query side, as functions ----

  datatype QueryResult = QueryResult(result: uint32, error: uint32, preferredThread: uint32)

  function Query(k: State, handle: uint32, p: Probes, failOnHostError: bool): QueryResult {
    if handle !in k.handles then QueryResult(WAIT_FAILED, 6, 0)
    else
      var h := k.handles[handle];
      var preferred := if h.kind == GuestThreadHandle then handle else 0;
      if h.kind == HostEvent then QueryResult(if h.signaled then WAIT_OBJECT_0 else WAIT_TIMEOUT, 0, preferred)
      else if Probed(h) then
        var w := p.host(h);
        if w.ready then QueryResult(WAIT_OBJECT_0, 0, preferred)
        else if w.failed && failOnHostError then QueryResult(WAIT_FAILED, w.error, preferred)
        else QueryResult(WAIT_TIMEOUT, 0, preferred)
      else if h.kind == GuestThreadHandle then
        QueryResult(if ThreadGone(k.threads, handle) then WAIT_OBJECT_0 else WAIT_TIMEOUT, 0, preferred)
      else if h.kind == GuestProcess then
        QueryResult(if ProcessRunning(k.threads, handle) then WAIT_TIMEOUT else WAIT_OBJECT_0, 0, 0)
      else QueryResult(WAIT_OBJECT_0, 0, 0)
  }

  function QueryFrom(k: State, hs: seq<uint32>, i: nat, waitAll: bool, allReady: bool, preferred: uint32,
                     p: Probes, failOnHostError: bool): QueryResult
    requires i <= |hs|
    decreases |hs| - i
  {
    if i == |hs| then QueryResult(if waitAll && allReady then WAIT_OBJECT_0 else WAIT_TIMEOUT, 0, preferred)
    else
      var single := Query(k, hs[i], p, failOnHostError);
      var pref := if preferred == 0 then single.preferredThread else preferred;
      if single.result == WAIT_FAILED then single
      else if !waitAll && single.result == WAIT_OBJECT_0 then QueryResult(Truncate32(i), 0, pref)
      else QueryFrom(k, hs, i + 1, waitAll, allReady && single.result == WAIT_OBJECT_0, pref, p, failOnHostError)
  }

  // ---- The class ----

  class CeKernel {
    var handles: map<uint32, GuestHandle>
    var threads: seq<GuestThread>

    constructor (k: State)
      ensures AsState() == k
    {
      handles, threads := k.handles, k.threads;
    }

    function AsState(): State
      reads this
    {
      State(handles, threads)
    }

    /** Clears the wait fields of thread `i` and makes it runnable. */
    method Wake(i: nat, result: uint32, clearSleep: bool)
      requires i < |threads|
      modifies this`threads
      ensures threads == old(threads)[i := old(threads)[i].(
                state := Runnable, waitHandle := 0, waitHandles := [], waitForMessages := false, waitWakeMask := 0,
                waitTimeoutResult := 0, sleepUntilMs := if clearSleep then 0 else old(threads)[i].sleepUntilMs,
                context := old(threads)[i].context.(result := result))]
    {
      var t := threads[i];
      if clearSleep {
        t := t.(sleepUntilMs := 0);
      }
      t := t.(state := Runnable, waitHandle := 0, waitHandles := []);
      t := t.(waitForMessages := false, waitWakeMask := 0, waitTimeoutResult := 0);
      threads := threads[i := t.(context := t.context.(result := result))];
    }

    method ConsumeAutoResetEvent(handle: uint32)
      modifies this`handles
      ensures handles == Consume(old(handles), [handle])
    {
      if handle !in handles || handles[handle].kind != HostEvent {
        return;
      }
      if !handles[handle].manualReset {
        handles := handles[handle := handles[handle].(signaled := false)];
      }
    }

    method ConsumeAll(hs: seq<uint32>)
      modifies this`handles
      ensures handles == Consume(old(handles), hs)
    {
      ghost var before := handles;
      ConsumeNothing(handles);
      var n := 0;
      assert hs[..0] == [];
      while n < |hs|
        invariant n <= |hs| && handles == Consume(before, hs[..n])
      {
        ConsumeAutoResetEvent(hs[n]);
        ConsumeOneMore(before, hs[..n], hs[n]);
        assert hs[..n] + [hs[n]] == hs[..n + 1];
        n := n + 1;
      }
      assert hs[..n] == hs;
    }

    /** The body of the refresh loop for one thread. */
    method RefreshOne(i: nat, p: Probes) returns (events: seq<Event>)
      requires i < |threads|
      modifies this
      ensures AsState() == RefreshThread(old(AsState()), i, p)
      ensures events == EventsOf(old(AsState()), i, p)
    {
      var thread := threads[i];
      ConsumeNothing(handles);
      if thread.state != Waiting {
        return [];
      }
      var hs := thread.waitHandles;
      if hs == [] && thread.waitHandle != 0 {
        hs := hs + [thread.waitHandle];
      }
      assert hs == WaitList(thread);
      if thread.sleepUntilMs != 0 {
        if p.nowMs >= thread.sleepUntilMs {
          Wake(i, thread.waitTimeoutResult, true);
          return [Event(SleepSatisfied, thread.handle, 0, 0, 0, 0)];
        }
        if hs == [] && !thread.waitForMessages {
          return [];
        }
      }
      if thread.waitForMessages && p.hasMessages(thread.handle) {
        Wake(i, Truncate32(|hs|), false);
        return [Event(MessageWaitSatisfied, thread.handle, 0, 0, 0, |hs|)];
      }
      if !thread.waitForMessages && !thread.waitAll && |hs| > 1 && p.hasMessages(thread.handle) {
        Wake(i, WAIT_OBJECT_0, false);
        return [Event(QueueEventSatisfied, thread.handle, 0, 0, 0, 0)];
      }
      if hs == [] {
        return [];
      }
      events := ScanOne(i, hs, p);
    }

    method ScanOne(i: nat, hs: seq<uint32>, p: Probes) returns (events: seq<Event>)
      requires i < |threads|
      modifies this
      ensures var k := old(AsState()); var t := k.threads[i];
              var v := ScanHandles(k, hs, 0, t.waitAll, true, p);
              && AsState() == (if v.NotYet? then k else State(Consume(k.handles, v.used), k.threads[i := Woken(t, v)]))
              && events == (if v.NotYet? then [] else [Event(v.kind, t.handle, v.waitHandle, v.error, v.index, v.count)])
    {
      var thread := threads[i];
      ghost var k := AsState();
      ConsumeNothing(handles);
      var allReady := true;
      var n := 0;
      while n < |hs|
        invariant n <= |hs| && AsState() == k
        invariant ScanHandles(k, hs, n, thread.waitAll, allReady, p) == ScanHandles(k, hs, 0, thread.waitAll, true, p)
      {
        var waitHandle := hs[n];
        if waitHandle !in handles {
          Wake(i, WAIT_FAILED, false);
          return [Event(InvalidHandle, thread.handle, waitHandle, 6, 0, 0)];
        }
        var handle := handles[waitHandle];
        var ready, failed, error := false, false, 0;
        if handle.kind == HostEvent {
          ready := handle.signaled;
        } else if Probed(handle) {
          var wait := p.host(handle);
          ready, failed, error := wait.ready, wait.failed, wait.error;
        } else if handle.kind == GuestThreadHandle {
          ready := ThreadGone(threads, waitHandle);
        } else {
          ready := true;
        }
        if failed {
          Wake(i, WAIT_FAILED, false);
          return [Event(WaitFailed, thread.handle, waitHandle, error, 0, 0)];
        }
        if !thread.waitAll && ready {
          ConsumeAutoResetEvent(waitHandle);
          Wake(i, Truncate32(n), false);
          return [Event(WaitSatisfied, thread.handle, waitHandle, 0, n, 0)];
        }
        allReady := allReady && ready;
        n := n + 1;
      }
      if thread.waitAll && allReady {
        ConsumeAll(hs);
        Wake(i, 0, false);
        return [Event(WaitAllSatisfied, thread.handle, 0, 0, 0, |hs|)];
      }
      return [];
    }

    method RefreshSignaledWaits(p: Probes) returns (events: seq<Event>)
      modifies this
      ensures AsState() == Refresh(old(AsState()), p)
      ensures events == Events(old(AsState()), p)
    {
      events := [];
      var i := 0;
      while i < |threads|
        invariant i <= |threads| == |old(threads)|
        invariant RefreshFrom(AsState(), i, p) == Refresh(old(AsState()), p)
        invariant events + EventsFrom(AsState(), i, p) == Events(old(AsState()), p)
      {
        ghost var before := AsState();
        var more := RefreshOne(i, p);
        assert EventsFrom(before, i, p) == more + EventsFrom(AsState(), i + 1, p);
        Regroup(events, more, EventsFrom(AsState(), i + 1, p), Events(old(AsState()), p));
        events := events + more;
        i := i + 1;
      }
    }

    method WakeThreadsWaitingForMessage(p: Probes) returns (awakened: seq<uint32>)
      modifies this`threads
      ensures AsState() == WakeForMessages(old(AsState()), p)
      ensures forall h :: h in awakened <==>
                exists i :: 0 <= i < |threads| && threads[i].handle == h && threads[i] != old(threads)[i]
    {
      ghost var before := threads;
      awakened := [];
      var i := 0;
      while i < |threads|
        invariant i <= |threads| == |before| && handles == old(handles)
        invariant forall j | 0 <= j < |before| :: threads[j] == if j < i then WokenForMessage(before[j], p) else before[j]
        invariant forall h :: h in awakened <==>
                    exists j :: 0 <= j < i && threads[j].handle == h && threads[j] != before[j]
      {
        var thread := threads[i];
        if thread.state == WaitingForMessage && p.hasMessages(thread.handle) {
          threads := threads[i := thread.(state := Runnable)];
          awakened := awakened + [thread.handle];
        }
        i := i + 1;
      }
    }

    method QueryWaitObjects(hs: seq<uint32>, waitAll: bool, p: Probes, failOnHostError: bool) returns (r: QueryResult)
      ensures r == QueryFrom(AsState(), hs, 0, waitAll, true, 0, p, failOnHostError)
    {
      var allReady := true;
      var preferredThread: uint32 := 0;
      var i := 0;
      while i < |hs|
        invariant i <= |hs|
        invariant QueryFrom(AsState(), hs, i, waitAll, allReady, preferredThread, p, failOnHostError) ==
                  QueryFrom(AsState(), hs, 0, waitAll, true, 0, p, failOnHostError)
      {
        var single := Query(AsState(), hs[i], p, failOnHostError);
        if preferredThread == 0 && single.preferredThread != 0 {
          preferredThread := single.preferredThread;
        }
        if single.result == WAIT_FAILED {
          return single;
        }
        var ready := single.result == WAIT_OBJECT_0;
        allReady := allReady && ready;
        if !waitAll && ready {
          return QueryResult(Truncate32(i), 0, preferredThread);
        }
        i := i + 1;
      }
      return QueryResult(if waitAll && allReady then WAIT_OBJECT_0 else WAIT_TIMEOUT, 0, preferredThread);
    }
  }

  lemma ConsumeNothing(handles: map<uint32, GuestHandle>)
    ensures Consume(handles, []) == handles
  {
  }

  lemma ConsumeOneMore(handles: map<uint32, GuestHandle>, hs: seq<uint32>, h: uint32)
    ensures Consume(Consume(handles, hs), [h]) == Consume(handles, hs + [h])
  {
  }

  // ---- A later state of the same pass ----

  /** Only signals may have been lost and waiting threads released. */
  ghost predicate Later(k: State, l: State) {
    && k.handles.Keys == l.handles.Keys
    && (forall h | h in k.handles ::
          l.handles[h] == k.handles[h] ||
          (IsAutoReset(k.handles[h]) && l.handles[h] == k.handles[h].(signaled := false)))
    && |k.threads| == |l.threads|
    && (forall i | 0 <= i < |k.threads| ::
          && l.threads[i].handle == k.threads[i].handle && l.threads[i].processHandle == k.threads[i].processHandle
          && (l.threads[i].state == k.threads[i].state || (k.threads[i].state == Waiting && l.threads[i].state == Runnable)))
  }

  lemma LaterTransitive(a: State, b: State, c: State)
    requires Later(a, b) && Later(b, c)
    ensures Later(a, c)
  {
  }

  lemma LaterThreadGone(k: State, l: State, handle: uint32)
    requires Later(k, l)
    ensures ThreadGone(k.threads, handle) == ThreadGone(l.threads, handle)
  {
    forall t | t in k.threads && t.handle == handle && ThreadGone(l.threads, handle) ensures t.state == Terminated {
      var i :| 0 <= i < |k.threads| && k.threads[i] == t;
      assert l.threads[i] in l.threads;
    }
    forall t | t in l.threads && t.handle == handle && ThreadGone(k.threads, handle) ensures t.state == Terminated {
      var i :| 0 <= i < |l.threads| && l.threads[i] == t;
      assert k.threads[i] in k.threads;
    }
  }

  lemma RefreshThreadIsLater(k: State, i: nat, p: Probes)
    requires i < |k.threads|
    ensures Later(k, RefreshThread(k, i, p))
  {
  }

  /** A scan that releases nobody still releases nobody later. */
  lemma {:induction false} ScanStaysNotYet(k: State, l: State, hs: seq<uint32>, i: nat, waitAll: bool, a: bool, b: bool, p: Probes)
    requires Later(k, l) && i <= |hs| && (b ==> a)
    requires ScanHandles(k, hs, i, waitAll, a, p).NotYet?
    ensures ScanHandles(l, hs, i, waitAll, b, p).NotYet?
    decreases |hs| - i
  {
    if i == |hs| {
    } else {
      LaterThreadGone(k, l, hs[i]);
      var r, s := Readiness(k, hs[i], p), Readiness(l, hs[i], p);
      ScanStaysNotYet(k, l, hs, i + 1, waitAll, a && r.ready, b && s.ready, p);
    }
  }

  lemma JudgeStaysNotYet(k: State, l: State, t: GuestThread, p: Probes)
    requires Later(k, l) && Judge(k, t, p).NotYet?
    ensures Judge(l, t, p).NotYet?
  {
    if Judge(k, t, p) == ScanHandles(k, WaitList(t), 0, t.waitAll, true, p) {
      ScanStaysNotYet(k, l, WaitList(t), 0, t.waitAll, true, true, p);
    }
  }

  // ---- The refresh reaches a fixpoint ----

  ghost predicate Settled(k: State, p: Probes) {
    forall i | 0 <= i < |k.threads| :: Judge(k, k.threads[i], p).NotYet?
  }

  lemma {:induction false} RefreshSettles(k: State, i: nat, p: Probes)
    requires i <= |k.threads|
    ensures var r := RefreshFrom(k, i, p);
            && Later(k, r)
            && (forall j | 0 <= j < i :: r.threads[j] == k.threads[j])
            && (forall j | i <= j < |k.threads| :: Judge(r, r.threads[j], p).NotYet?)
    decreases |k.threads| - i
  {
    if i == |k.threads| {
    } else {
      var m := RefreshThread(k, i, p);
      RefreshThreadIsLater(k, i, p);
      RefreshSettles(m, i + 1, p);
      var r := RefreshFrom(k, i, p);
      LaterTransitive(k, m, r);
      if Judge(k, k.threads[i], p).NotYet? {
        JudgeStaysNotYet(k, r, k.threads[i], p);
      }
    }
  }

  lemma {:induction false} SettledStays(k: State, i: nat, p: Probes)
    requires Settled(k, p) && i <= |k.threads|
    ensures RefreshFrom(k, i, p) == k && EventsFrom(k, i, p) == []
    decreases |k.threads| - i
  {
    if i == |k.threads| {
    } else {
      SettledStays(k, i + 1, p);
    }
  }

  /** With the same time and probes a second pass emits no events and changes nothing. */
  lemma RefreshIsIdempotent(k: State, p: Probes)
    ensures var r := Refresh(k, p); Refresh(r, p) == r && Events(r, p) == []
  {
    RefreshSettles(k, 0, p);
    SettledStays(Refresh(k, p), 0, p);
  }

  predicate Ready(k: State, handle: uint32, p: Probes) {
    handle in k.handles && Readiness(k, handle, p).ready
  }

  lemma {:induction false} ScanMeaning(k: State, hs: seq<uint32>, i: nat, waitAll: bool, allReady: bool, p: Probes)
    requires i <= |hs| && ScanHandles(k, hs, i, waitAll, allReady, p).NotYet?
    ensures forall j | i <= j < |hs| :: hs[j] in k.handles && !Readiness(k, hs[j], p).failed
    ensures !waitAll ==> forall j | i <= j < |hs| :: !Ready(k, hs[j], p)
    ensures waitAll && allReady ==> exists j | i <= j < |hs| :: !Ready(k, hs[j], p)
    decreases |hs| - i
  {
    if i == |hs| {
    } else {
      var r := Readiness(k, hs[i], p);
      ScanMeaning(k, hs, i + 1, waitAll, allReady && r.ready, p);
      if waitAll && allReady && !r.ready {
        assert !Ready(k, hs[i], p);
      }
    }
  }

  lemma {:induction false} UpToThenFrom(k: State, n: nat, p: Probes)
    requires n <= |k.threads|
    ensures RefreshFrom(RefreshUpTo(k, n, p), n, p) == Refresh(k, p)
    ensures forall j | n <= j < |k.threads| :: RefreshUpTo(k, n, p).threads[j] == k.threads[j]
  {
    if n == 0 {
    } else {
      UpToThenFrom(k, n - 1, p);
    }
  }

  /** A pass leaves a thread as it was, or wakes it with the verdict on it. */
  lemma RefreshActsOnVerdict(k: State, i: nat, p: Probes)
    requires i < |k.threads|
    ensures var v := VerdictOn(k, i, p);
            Refresh(k, p).threads[i] == if v.NotYet? then k.threads[i] else Woken(k.threads[i], v)
  {
    UpToThenFrom(k, i, p);
    RefreshSettles(RefreshThread(RefreshUpTo(k, i, p), i, p), i + 1, p);
  }

  /**
   * After a refresh no thread left waiting has an expired deadline, a message it
   * waits for, a ready handle in a wait-any, or a wholly ready wait-all set.
   */
  lemma NobodyLeftBehind(k: State, p: Probes, i: nat)
    requires i < |k.threads| && Refresh(k, p).threads[i].state == Waiting
    ensures var r := Refresh(k, p); var t := r.threads[i]; var hs := WaitList(t);
            && !(t.sleepUntilMs != 0 && t.sleepUntilMs <= p.nowMs)
            && !(t.waitForMessages && p.hasMessages(t.handle))
            && (forall h | h in hs :: h in r.handles && !Readiness(r, h, p).failed)
            && (!t.waitAll ==> forall h | h in hs :: !Ready(r, h, p))
            && (t.waitAll && hs != [] ==> exists h | h in hs :: !Ready(r, h, p))
  {
    RefreshSettles(k, 0, p);
    var r := Refresh(k, p);
    var t := r.threads[i];
    var hs := WaitList(t);
    if hs != [] {
      ScanMeaning(r, hs, 0, t.waitAll, true, p);
    }
  }

  // ---- Auto-reset events ----

  predicate Uses(k: State, e: Event, handle: uint32) {
    || (e.kind == WaitSatisfied && e.waitHandle == handle)
    || (e.kind == WaitAllSatisfied && exists t | t in k.threads :: t.handle == e.thread && handle in WaitList(t))
  }

  function UseCount(k: State, events: seq<Event>, handle: uint32): nat {
    if events == [] then 0 else (if Uses(k, events[0], handle) then 1 else 0) + UseCount(k, events[1..], handle)
  }

  lemma {:induction false} ScanUses(k: State, hs: seq<uint32>, i: nat, waitAll: bool, allReady: bool, p: Probes)
    requires i <= |hs| && ScanHandles(k, hs, i, waitAll, allReady, p).Release?
    requires waitAll && allReady ==> forall j | 0 <= j < i :: Ready(k, hs[j], p)
    ensures var v := ScanHandles(k, hs, i, waitAll, allReady, p);
            && (forall h | h in v.used :: h in hs && Ready(k, h, p))
            && (v.used != [] <==> v.kind == WaitSatisfied || (v.kind == WaitAllSatisfied && hs != []))
            && (v.kind == WaitSatisfied ==> v.used == [v.waitHandle])
            && (v.kind == WaitAllSatisfied ==> v.used == hs)
    decreases |hs| - i
  {
    if i < |hs| && hs[i] in k.handles {
      var r := Readiness(k, hs[i], p);
      if !r.failed && (waitAll || !r.ready) {
        ScanUses(k, hs, i + 1, waitAll, allReady && r.ready, p);
      }
    } else if i == |hs| {
      forall h | h in hs ensures Ready(k, h, p) {}
    }
  }

  /** What one release says it used is what its event says it used, and it was ready. */
  lemma EventUses(k0: State, k: State, i: nat, p: Probes, handle: uint32)
    requires Sorted(k0.threads) && i < |k.threads| == |k0.threads| && k.threads[i] == k0.threads[i]
    ensures var v := Judge(k, k.threads[i], p);
            && UseCount(k0, EventsOf(k, i, p), handle) == (if v.Release? && handle in v.used then 1 else 0)
            && (v.Release? && handle in v.used ==> Ready(k, handle, p))
  {
    var t := k.threads[i];
    var v := Judge(k, t, p);
    if v.Release? {
      if v == ScanHandles(k, WaitList(t), 0, t.waitAll, true, p) {
        ScanUses(k, WaitList(t), 0, t.waitAll, true, p);
      }
      var e := EventsOf(k, i, p)[0];
      assert EventsOf(k, i, p) == [e] && [e][1..] == [];
      assert UseCount(k0, [e], handle) == if Uses(k0, e, handle) then 1 else 0;
      assert k0.threads[i] in k0.threads;
      forall u | u in k0.threads && u.handle == t.handle ensures u == t {}
    }
  }

  lemma {:induction false} UseCountConcat(k: State, a: seq<Event>, b: seq<Event>, handle: uint32)
    ensures UseCount(k, a + b, handle) == UseCount(k, a, handle) + UseCount(k, b, handle)
  {
    if a == [] {
      assert a + b == b;
    } else {
      assert (a + b)[1..] == a[1..] + b;
      UseCountConcat(k, a[1..], b, handle);
    }
  }

  lemma {:induction false} UsedOnceFrom(k0: State, k: State, i: nat, p: Probes, handle: uint32)
    requires Sorted(k0.threads) && i <= |k.threads| == |k0.threads|
    requires forall j | i <= j < |k.threads| :: k.threads[j] == k0.threads[j]
    requires handle in k.handles && IsAutoReset(k.handles[handle])
    ensures var r := RefreshFrom(k, i, p);
            && handle in r.handles
            && UseCount(k0, EventsFrom(k, i, p), handle) ==
               (if k.handles[handle].signaled && !r.handles[handle].signaled then 1 else 0)
            && (r.handles[handle].signaled ==> k.handles[handle].signaled)
    decreases |k.threads| - i
  {
    if i == |k.threads| {
    } else {
      var m := RefreshThread(k, i, p);
      EventUses(k0, k, i, p, handle);
      UsedOnceFrom(k0, m, i + 1, p, handle);
      UseCountConcat(k0, EventsOf(k, i, p), EventsFrom(m, i + 1, p), handle);
    }
  }

  /**
   * An auto-reset event releases at most one thread in a pass, and it is cleared
   * exactly when one release used it.
   */
  lemma AutoResetReleasesOne(k: State, p: Probes, handle: uint32)
    requires Sorted(k.threads) && handle in k.handles && IsAutoReset(k.handles[handle])
    ensures handle in Refresh(k, p).handles
    ensures UseCount(k, Events(k, p), handle) ==
            (if k.handles[handle].signaled && !Refresh(k, p).handles[handle].signaled then 1 else 0)
  {
    UsedOnceFrom(k, k, 0, p, handle);
  }

  // ---- The two wait deciders ----

  /** What the refresh pass would make of a wait on this one handle. */
  function RefreshSays(k: State, handle: uint32, p: Probes): (uint32, uint32) {
    if handle !in k.handles then (WAIT_FAILED, 6)
    else
      var r := Readiness(k, handle, p);
      if r.failed then (WAIT_FAILED, r.error)
      else if r.ready then (WAIT_OBJECT_0, 0)
      else (WAIT_TIMEOUT, 0)
  }

  function QuerySays(k: State, handle: uint32, p: Probes): (uint32, uint32) {
    var q := Query(k, handle, p, true);
    (q.result, q.error)
  }

  /** Not a running process without a host object, and no probe that is both ready and failed. */
  predicate SameForBoth(k: State, handle: uint32, p: Probes) {
    handle in k.handles ==>
      var h := k.handles[handle];
      && !(h.kind == GuestProcess && h.hostValue == 0 && ProcessRunning(k.threads, handle))
      && (Probed(h) ==> !(p.host(h).ready && p.host(h).failed))
  }

  lemma SingleAgreesIff(k: State, handle: uint32, p: Probes)
    ensures RefreshSays(k, handle, p) == QuerySays(k, handle, p) <==> SameForBoth(k, handle, p)
  {
  }

  // How one of the deciders judges a single handle: result and error.
  type Judgement = uint32 -> (uint32, uint32)

  function ByRefresh(k: State, p: Probes): Judgement { h => RefreshSays(k, h, p) }

  function ByQuery(k: State, p: Probes): Judgement { h => QuerySays(k, h, p) }

  /** The first handle from `i` on that ends the loop: one that failed, and for wait-any one that is ready. */
  function Stop(says: Judgement, hs: seq<uint32>, i: nat, waitAll: bool): (j: nat)
    requires i <= |hs|
    ensures i <= j <= |hs|
    decreases |hs| - i
  {
    if i == |hs| || says(hs[i]).0 == WAIT_FAILED || (!waitAll && says(hs[i]).0 == WAIT_OBJECT_0) then i
    else Stop(says, hs, i + 1, waitAll)
  }

  predicate AllReadyFrom(says: Judgement, hs: seq<uint32>, i: nat) {
    forall j | i <= j < |hs| :: says(hs[j]).0 == WAIT_OBJECT_0
  }

  /** What a wait on a list comes to when `says` judges the single handles. */
  function Outcome(says: Judgement, hs: seq<uint32>, i: nat, waitAll: bool, allReady: bool): (uint32, uint32)
    requires i <= |hs|
  {
    var j := Stop(says, hs, i, waitAll);
    if j < |hs| then
      if says(hs[j]).0 == WAIT_FAILED then says(hs[j]) else (Truncate32(j), 0)
    else if waitAll && allReady && AllReadyFrom(says, hs, i) then (WAIT_OBJECT_0, 0)
    else (WAIT_TIMEOUT, 0)
  }

  lemma {:induction false} ScanOutcome(k: State, hs: seq<uint32>, i: nat, waitAll: bool, allReady: bool, p: Probes)
    requires i <= |hs| <= 64
    ensures var v := ScanHandles(k, hs, i, waitAll, allReady, p);
            var outcome := Outcome(ByRefresh(k, p), hs, i, waitAll, allReady);
            && (v.NotYet? <==> outcome == (WAIT_TIMEOUT, 0))
            && (v.Release? ==> outcome == (v.result, v.error) && v.result != WAIT_TIMEOUT && v.kind != SleepSatisfied)
    decreases |hs| - i
  {
    if i == |hs| {
    } else {
      ScanOutcome(k, hs, i + 1, waitAll, allReady && RefreshSays(k, hs[i], p).0 == WAIT_OBJECT_0, p);
    }
  }

  lemma {:induction false} QueryOutcome(k: State, hs: seq<uint32>, i: nat, waitAll: bool, allReady: bool, preferred: uint32, p: Probes)
    requires i <= |hs| <= 64
    ensures var q := QueryFrom(k, hs, i, waitAll, allReady, preferred, p, true);
            Outcome(ByQuery(k, p), hs, i, waitAll, allReady) == (q.result, q.error)
    decreases |hs| - i
  {
    if i == |hs| {
    } else {
      var single := Query(k, hs[i], p, true);
      QueryOutcome(k, hs, i + 1, waitAll, allReady && single.result == WAIT_OBJECT_0,
                   if preferred == 0 then single.preferredThread else preferred, p);
    }
  }

  /**
   * The handle at which the refresh pass stops is judged alike by the query (or, in
   * a wait-all, the query fails later with the same error); and when the pass stops
   * at none but finds all ready, every handle is.
   */
  predicate ListSameForBoth(k: State, hs: seq<uint32>, waitAll: bool, p: Probes) {
    var r, q := Stop(ByRefresh(k, p), hs, 0, waitAll), Stop(ByQuery(k, p), hs, 0, waitAll);
    if r < |hs| then
      || SameForBoth(k, hs[r], p)
      || (waitAll && q < |hs| && QuerySays(k, hs[q], p).1 == RefreshSays(k, hs[r], p).1)
    else waitAll && AllReadyFrom(ByRefresh(k, p), hs, 0) ==> forall h | h in hs :: SameForBoth(k, h, p)
  }

  lemma {:induction false} StopIs(says: Judgement, hs: seq<uint32>, i: nat, waitAll: bool)
    requires i <= |hs|
    ensures var j := Stop(says, hs, i, waitAll);
            && (forall n | i <= n < j :: says(hs[n]).0 != WAIT_FAILED && (waitAll || says(hs[n]).0 != WAIT_OBJECT_0))
            && (j < |hs| ==> says(hs[j]).0 == WAIT_FAILED || (!waitAll && says(hs[j]).0 == WAIT_OBJECT_0))
    decreases |hs| - i
  {
    if i == |hs| {
    } else {
      StopIs(says, hs, i + 1, waitAll);
    }
  }

  lemma AlikeIff(k: State, h: uint32, p: Probes)
    ensures ByRefresh(k, p)(h) == ByQuery(k, p)(h) <==> SameForBoth(k, h, p)
  {
    SingleAgreesIff(k, h, p);
  }

  lemma AnyAgreesIff(k: State, hs: seq<uint32>, p: Probes)
    requires |hs| <= 64
    ensures Outcome(ByRefresh(k, p), hs, 0, false, true) == Outcome(ByQuery(k, p), hs, 0, false, true)
            <==> ListSameForBoth(k, hs, false, p)
  {
    var rs, qs := ByRefresh(k, p), ByQuery(k, p);
    var r, q := Stop(rs, hs, 0, false), Stop(qs, hs, 0, false);
    StopIs(rs, hs, 0, false);
    StopIs(qs, hs, 0, false);
    forall n | 0 <= n < r ensures qs(hs[n]).0 == WAIT_TIMEOUT {
      AlikeIff(k, hs[n], p);
    }
    assert r <= q;
    if r < |hs| {
      AlikeIff(k, hs[r], p);
      StoppedAgreeIff(rs, qs, hs, r, q);
    }
  }

  /** When one loop stops no later than the other, they come to the same iff they judge that handle alike. */
  lemma StoppedAgreeIff(rs: Judgement, qs: Judgement, hs: seq<uint32>, r: nat, q: nat)
    requires r == Stop(rs, hs, 0, false) && q == Stop(qs, hs, 0, false) && r <= q && r < |hs| <= 64
    requires rs(hs[r]).0 == WAIT_FAILED || rs(hs[r]) == (WAIT_OBJECT_0, 0)
    requires qs(hs[r]).0 == WAIT_FAILED || qs(hs[r]) == (WAIT_OBJECT_0, 0) || qs(hs[r]).0 == WAIT_TIMEOUT
    requires q == r <==> qs(hs[r]).0 != WAIT_TIMEOUT
    requires rs(hs[r]).0 == WAIT_FAILED ==> qs(hs[r]).0 != WAIT_TIMEOUT && (qs(hs[r]).0 == WAIT_FAILED ==> rs(hs[r]) == qs(hs[r]))
    ensures Outcome(rs, hs, 0, false, true) == Outcome(qs, hs, 0, false, true) <==> rs(hs[r]) == qs(hs[r])
  {
  }

  lemma AllAgreesIff(k: State, hs: seq<uint32>, p: Probes)
    requires |hs| <= 64
    ensures Outcome(ByRefresh(k, p), hs, 0, true, true) == Outcome(ByQuery(k, p), hs, 0, true, true)
            <==> ListSameForBoth(k, hs, true, p)
  {
    var r := Stop(ByRefresh(k, p), hs, 0, true);
    StopIs(ByRefresh(k, p), hs, 0, true);
    StopIs(ByQuery(k, p), hs, 0, true);
    forall n | 0 <= n <= r && n < |hs| ensures ByRefresh(k, p)(hs[n]) == ByQuery(k, p)(hs[n]) <==> SameForBoth(k, hs[n], p) {
      AlikeIff(k, hs[n], p);
    }
    assert forall n | 0 <= n < |hs| :: hs[n] in hs;
  }

  /**
   * A waiting thread with no message for it and no expired deadline is released
   * exactly when querying its handles, in the state the pass reached it in, does
   * not say timeout, and then with the same result and error, if and only if the
   * handle that decides is one both deciders judge alike.
   */
  lemma DecidersAgreeIff(k: State, t: GuestThread, p: Probes)
    requires t.state == Waiting && 0 < |WaitList(t)| <= 64
    requires !p.hasMessages(t.handle) && !(t.sleepUntilMs != 0 && t.sleepUntilMs <= p.nowMs)
    ensures var v := Judge(k, t, p);
            var q := QueryFrom(k, WaitList(t), 0, t.waitAll, true, 0, p, true);
            ((v.Release? <==> q.result != WAIT_TIMEOUT) && (v.Release? ==> q.result == v.result && q.error == v.error))
            <==> ListSameForBoth(k, WaitList(t), t.waitAll, p)
  {
    ScanOutcome(k, WaitList(t), 0, t.waitAll, true, p);
    QueryOutcome(k, WaitList(t), 0, t.waitAll, true, 0, p);
    if t.waitAll {
      AllAgreesIff(k, WaitList(t), p);
    } else {
      AnyAgreesIff(k, WaitList(t), p);
    }
  }

  /** In particular the deciders agree when every handle is judged alike. */
  lemma DecidersAgree(k: State, t: GuestThread, p: Probes)
    requires t.state == Waiting && 0 < |WaitList(t)| <= 64
    requires !p.hasMessages(t.handle) && !(t.sleepUntilMs != 0 && t.sleepUntilMs <= p.nowMs)
    requires forall h | h in WaitList(t) :: SameForBoth(k, h, p)
    ensures var v := Judge(k, t, p);
            var q := QueryFrom(k, WaitList(t), 0, t.waitAll, true, 0, p, true);
            && (v.Release? <==> q.result != WAIT_TIMEOUT)
            && (v.Release? ==> q.result == v.result && q.error == v.error)
  {
    DecidersAgreeIff(k, t, p);
  }

  // ---- What a released wait answers ----

  /** Waiting, with its deadline, if it has one, still ahead. */
  predicate StillInTime(t: GuestThread, p: Probes) {
    t.state == Waiting && (t.sleepUntilMs == 0 || p.nowMs < t.sleepUntilMs)
  }

  /** Released with this answer: runnable, nothing left to wait for, and only the result register changed. */
  predicate AnsweredWith(t: GuestThread, r: GuestThread, result: uint32) {
    && r.state == Runnable && r.waitHandle == 0 && r.waitHandles == [] && !r.waitForMessages
    && r.waitWakeMask == 0 && r.waitTimeoutResult == 0 && r.waitAll == t.waitAll
    && r.context == t.context.(result := result)
    && r.handle == t.handle && r.processHandle == t.processHandle && r.suspendCount == t.suspendCount && r.exitCode == t.exitCode
  }

  /** The same, and the deadline, which has not passed, is left as it was. */
  predicate AnsweredInTime(t: GuestThread, r: GuestThread, result: uint32) {
    AnsweredWith(t, r, result) && r.sleepUntilMs == t.sleepUntilMs
  }

  /** A wait whose deadline has passed answers what it was to answer in that case, and loses the deadline. */
  lemma ExpiredWaitTimesOut(k: State, p: Probes, i: nat)
    requires i < |k.threads| && k.threads[i].state == Waiting
    requires k.threads[i].sleepUntilMs != 0 && k.threads[i].sleepUntilMs <= p.nowMs
    ensures var t, r := k.threads[i], Refresh(k, p).threads[i];
            AnsweredWith(t, r, t.waitTimeoutResult) && r.sleepUntilMs == 0
  {
    RefreshActsOnVerdict(k, i, p);
  }

  /** A wait that also waits for messages answers the number of its handles when it has one. */
  lemma MessageWaitAnswers(k: State, p: Probes, i: nat)
    requires i < |k.threads| && StillInTime(k.threads[i], p)
    requires k.threads[i].waitForMessages && p.hasMessages(k.threads[i].handle)
    ensures var t, r := k.threads[i], Refresh(k, p).threads[i];
            var count := if t.waitHandles != [] then |t.waitHandles| else if t.waitHandle != 0 then 1 else 0;
            AnsweredInTime(t, r, count % 0x1_0000_0000)
  {
    RefreshActsOnVerdict(k, i, p);
  }

  /** A wait-any over several handles takes a message as its first handle. */
  lemma QueueEventAnswers(k: State, p: Probes, i: nat)
    requires i < |k.threads| && StillInTime(k.threads[i], p)
    requires !k.threads[i].waitForMessages && !k.threads[i].waitAll && |k.threads[i].waitHandles| > 1
    requires p.hasMessages(k.threads[i].handle)
    ensures AnsweredInTime(k.threads[i], Refresh(k, p).threads[i], WAIT_OBJECT_0)
  {
    RefreshActsOnVerdict(k, i, p);
  }

  /** A wait that only its handles can end before its deadline. */
  predicate OnlyHandlesEnd(t: GuestThread, p: Probes) {
    StillInTime(t, p) && !p.hasMessages(t.handle) && 0 < |WaitList(t)| <= 64
  }

  predicate Fails(k: State, handle: uint32, p: Probes) {
    handle !in k.handles || Readiness(k, handle, p).failed
  }

  /** The handle, in the state the pass reaches the thread in, neither fails nor is ready. */
  predicate Pending(k: State, handle: uint32, p: Probes) {
    !Fails(k, handle, p) && !Ready(k, handle, p)
  }

  lemma PendingSays(k: State, handle: uint32, p: Probes)
    ensures Fails(k, handle, p) <==> ByRefresh(k, p)(handle).0 == WAIT_FAILED
    ensures Pending(k, handle, p) <==> ByRefresh(k, p)(handle).0 == WAIT_TIMEOUT
    ensures !Fails(k, handle, p) && Ready(k, handle, p) <==> ByRefresh(k, p)(handle).0 == WAIT_OBJECT_0
  {
  }

  lemma StopUnique(says: Judgement, hs: seq<uint32>, waitAll: bool, j: nat)
    requires j < |hs|
    requires forall n | 0 <= n < j :: says(hs[n]).0 != WAIT_FAILED && (waitAll || says(hs[n]).0 != WAIT_OBJECT_0)
    requires says(hs[j]).0 == WAIT_FAILED || (!waitAll && says(hs[j]).0 == WAIT_OBJECT_0)
    ensures Stop(says, hs, 0, waitAll) == j
  {
    StopIs(says, hs, 0, waitAll);
  }

  lemma HandlesDecide(k: State, p: Probes, i: nat)
    requires i < |k.threads| && OnlyHandlesEnd(k.threads[i], p)
    ensures var t, r := k.threads[i], Refresh(k, p).threads[i];
            var outcome := Outcome(ByRefresh(RefreshUpTo(k, i, p), p), WaitList(t), 0, t.waitAll, true);
            if outcome == (WAIT_TIMEOUT, 0) then r == t else AnsweredInTime(t, r, outcome.0)
  {
    RefreshActsOnVerdict(k, i, p);
    var t := k.threads[i];
    ScanOutcome(RefreshUpTo(k, i, p), WaitList(t), 0, t.waitAll, true, p);
  }

  /** A wait-any is decided by the first handle that fails or is ready, and answers failure or its position. */
  lemma AnyWaitAnswers(k: State, p: Probes, i: nat, j: nat)
    requires i < |k.threads| && OnlyHandlesEnd(k.threads[i], p) && !k.threads[i].waitAll && j < |WaitList(k.threads[i])|
    requires var at, hs := RefreshUpTo(k, i, p), WaitList(k.threads[i]);
             (forall n | 0 <= n < j :: Pending(at, hs[n], p)) && !Pending(at, hs[j], p)
    ensures var at, hs := RefreshUpTo(k, i, p), WaitList(k.threads[i]);
            AnsweredInTime(k.threads[i], Refresh(k, p).threads[i], if Fails(at, hs[j], p) then WAIT_FAILED else j)
  {
    var at, hs := RefreshUpTo(k, i, p), WaitList(k.threads[i]);
    forall n | 0 <= n <= j ensures Pending(at, hs[n], p) <==> ByRefresh(at, p)(hs[n]).0 == WAIT_TIMEOUT {
      PendingSays(at, hs[n], p);
    }
    PendingSays(at, hs[j], p);
    StopUnique(ByRefresh(at, p), hs, false, j);
    HandlesDecide(k, p, i);
  }

  /** While every handle is pending it goes on waiting. */
  lemma AnyWaitGoesOn(k: State, p: Probes, i: nat)
    requires i < |k.threads| && OnlyHandlesEnd(k.threads[i], p) && !k.threads[i].waitAll
    requires var at, hs := RefreshUpTo(k, i, p), WaitList(k.threads[i]); forall n | 0 <= n < |hs| :: Pending(at, hs[n], p)
    ensures Refresh(k, p).threads[i] == k.threads[i]
  {
    StopIs(ByRefresh(RefreshUpTo(k, i, p), p), WaitList(k.threads[i]), 0, false);
    HandlesDecide(k, p, i);
  }

  /** A wait-all fails if a handle does, answers 0 when all are ready, and otherwise goes on. */
  lemma AllWaitAnswers(k: State, p: Probes, i: nat)
    requires i < |k.threads| && OnlyHandlesEnd(k.threads[i], p) && k.threads[i].waitAll
    ensures var at, hs := RefreshUpTo(k, i, p), WaitList(k.threads[i]); var t, r := k.threads[i], Refresh(k, p).threads[i];
            if exists n | 0 <= n < |hs| :: Fails(at, hs[n], p) then AnsweredInTime(t, r, WAIT_FAILED)
            else if forall n | 0 <= n < |hs| :: Ready(at, hs[n], p) then AnsweredInTime(t, r, WAIT_OBJECT_0)
            else r == t
  {
    StopIs(ByRefresh(RefreshUpTo(k, i, p), p), WaitList(k.threads[i]), 0, true);
    HandlesDecide(k, p, i);
  }

  // ---- Events ----

  /** What a pass reports of thread `i`, given its verdict. */
  function EventFor(k: State, i: nat, p: Probes): Event
    requires i < |k.threads| && VerdictOn(k, i, p).Release?
  {
    var v := VerdictOn(k, i, p);
    Event(v.kind, k.threads[i].handle, v.waitHandle, v.error, v.index, v.count)
  }

  /** The events of the threads from `i` on that the pass releases, in table order. */
  function ReleaseEvents(k: State, i: nat, p: Probes): seq<Event>
    requires i <= |k.threads|
    decreases |k.threads| - i
  {
    if i == |k.threads| then []
    else (if VerdictOn(k, i, p).Release? then [EventFor(k, i, p)] else []) + ReleaseEvents(k, i + 1, p)
  }

  lemma {:induction false} EventsUpTo(k: State, i: nat, p: Probes)
    requires i <= |k.threads|
    ensures EventsFrom(RefreshUpTo(k, i, p), i, p) == ReleaseEvents(k, i, p)
    decreases |k.threads| - i
  {
    if i == |k.threads| {
    } else {
      UpToThenFrom(k, i, p);
      EventsUpTo(k, i + 1, p);
    }
  }

  /** A pass reports exactly the threads it releases, in table order, each once, with what released it. */
  lemma EventsAreReleases(k: State, p: Probes)
    ensures Events(k, p) == ReleaseEvents(k, 0, p)
    ensures forall i | 0 <= i < |k.threads| ::
              VerdictOn(k, i, p).Release? <==> k.threads[i].state == Waiting && Refresh(k, p).threads[i].state == Runnable
  {
    EventsUpTo(k, 0, p);
    forall i | 0 <= i < |k.threads|
      ensures VerdictOn(k, i, p).Release? <==> k.threads[i].state == Waiting && Refresh(k, p).threads[i].state == Runnable
    {
      RefreshActsOnVerdict(k, i, p);
    }
  }

  // ---- The thread a query would rather see run ----

  predicate NamesThread(k: State, handle: uint32) {
    handle in k.handles && k.handles[handle].kind == GuestThreadHandle
  }

  /** A query that does not fail prefers the first thread among the handles it looked at. */
  lemma {:induction false} QueryPrefersFirst(k: State, hs: seq<uint32>, i: nat, waitAll: bool, allReady: bool, preferred: uint32, p: Probes)
    requires i <= |hs| && 0 !in k.handles
    ensures var q := QueryFrom(k, hs, i, waitAll, allReady, preferred, p, true);
            var seen := Min(Stop(ByQuery(k, p), hs, i, waitAll) + 1, |hs|);
            q.result != WAIT_FAILED ==>
              if preferred != 0 then q.preferredThread == preferred
              else if q.preferredThread != 0 then
                exists n :: i <= n < seen && hs[n] == q.preferredThread && NamesThread(k, hs[n]) &&
                            forall m | i <= m < n :: !NamesThread(k, hs[m])
              else forall n | i <= n < seen :: !NamesThread(k, hs[n])
    decreases |hs| - i
  {
    if i == |hs| {
    } else {
      var single := Query(k, hs[i], p, true);
      QueryPrefersFirst(k, hs, i + 1, waitAll, allReady && single.result == WAIT_OBJECT_0,
                        if preferred == 0 then single.preferredThread else preferred, p);
    }
  }
}
