/**
 * The message queue and the kernel together: threads that wait for a message are
 * woken by what the queue counts for them.  Some posts are followed by a wake and
 * some are not.
 */
module MessageLoop {
  import opened Basics
  import opened Kernel
  import Gwe = GweQueue

  datatype System = System(kernel: State, queue: Gwe.Queue)

  // What a refresh sees besides the queue.
  datatype Outside = Outside(nowMs: nat, host: GuestHandle -> HostWaitResult)

  datatype Action =
    | Change(change: Gwe.Action)
    | ChangeAndWake(change: Gwe.Action, outside: Outside)
    | Wake(outside: Outside)
    | Refresh(outside: Outside)
    | GetMessage(thread: nat, quitPosted: bool)

  /** A thread has messages when the queue counts some for it. */
  function ProbesOf(q: Gwe.Queue, outside: Outside): Probes {
    Probes(outside.nowMs, outside.host, (thread: uint32) => Gwe.CountForOwner(q, thread) != 0)
  }

  function Woken(s: System, outside: Outside): System {
    var p := ProbesOf(s.queue, outside);
    s.(kernel := WakeForMessages(Kernel.Refresh(s.kernel, p), p))
  }

  /** A running thread that is told of no message waits for one, unless the program is to quit. */
  function Parked(s: System, i: nat, quitPosted: bool): System {
    if i < |s.kernel.threads| && s.kernel.threads[i].state == Running && !quitPosted &&
       Gwe.CountForOwner(s.queue, s.kernel.threads[i].handle) == 0
    then s.(kernel := s.kernel.(threads := s.kernel.threads[i := s.kernel.threads[i].(state := WaitingForMessage)]))
    else s
  }

  predicate Allowed(s: System, a: Action) {
    a.Change? || a.ChangeAndWake? ==> Gwe.Allowed(s.queue, a.change)
  }

  function Step(s: System, a: Action): System
    requires Allowed(s, a)
  {
    match a
    case Change(change) => s.(queue := Gwe.Step(s.queue, change))
    case ChangeAndWake(change, outside) => Woken(s.(queue := Gwe.Step(s.queue, change)), outside)
    case Wake(outside) => Woken(s, outside)
    case Refresh(outside) => s.(kernel := Kernel.Refresh(s.kernel, ProbesOf(s.queue, outside)))
    case GetMessage(thread, quitPosted) => Parked(s, thread, quitPosted)
  }

  predicate AllAllowed(s: System, actions: seq<Action>)
    decreases |actions|
  {
    actions == [] || (Allowed(s, actions[0]) && AllAllowed(Step(s, actions[0]), actions[1..]))
  }

  function Run(s: System, actions: seq<Action>): System
    requires AllAllowed(s, actions)
    decreases |actions|
  {
    if actions == [] then s else Run(Step(s, actions[0]), actions[1..])
  }

  /** A posted message and the wake that follows it. */
  method PostAndWake(gwe: Gwe.CeGwe, kernel: CeKernel, message: Gwe.Message, kind: Gwe.Kind, owner: uint32, outside: Outside)
    modifies gwe, kernel
    ensures var s := System(old(kernel.AsState()), old(gwe.AsQueue()));
            System(kernel.AsState(), gwe.AsQueue()) ==
            Woken(s.(queue := Gwe.PostAt(s.queue, message, kind, owner, |s.queue.messages|)), outside)
  {
    gwe.PostBack(message, kind, owner);
    var p := ProbesOf(gwe.AsQueue(), outside);
    var _ := kernel.RefreshSignaledWaits(p);
    var _ := kernel.WakeThreadsWaitingForMessage(p);
  }

  // ---- What a change of the queue does to the counts ----

  /** The thread a posted message is recorded for, 0 for none. */
  function Receiver(q: Gwe.Queue, m: Gwe.Message, kind: Gwe.Kind, owner: uint32): uint32 {
    if owner != 0 then owner else Gwe.OwnerForMessage(q, Gwe.QueuedForm(q, m, kind))
  }

  lemma CountAfterPost(q: Gwe.Queue, m: Gwe.Message, kind: Gwe.Kind, owner: uint32, at: nat, thread: uint32)
    requires Gwe.Inv(q) && Gwe.Allowed(q, Gwe.Post(m, kind, owner, at))
    ensures Gwe.CountForOwner(Gwe.PostAt(q, m, kind, owner, at), thread) ==
            Gwe.CountForOwner(q, thread) + (if thread != 0 && thread == Receiver(q, m, kind, owner) then 1 else 0)
  {
    Gwe.PreparedOwner(q, m, kind, owner);
  }

  lemma {:induction false} WithoutIsShorter(ms: seq<Gwe.Message>, ids: set<nat>)
    ensures |Gwe.Without(ms, ids)| <= |ms|
  {
    if ms == [] {
    } else {
      WithoutIsShorter(ms[..|ms| - 1], ids);
    }
  }

  lemma CountAfterRemove(q: Gwe.Queue, ids: set<nat>, thread: uint32)
    ensures Gwe.CountForOwner(Gwe.Remove(q, ids), thread) <= Gwe.CountForOwner(q, thread)
  {
    if thread in q.threadQueues {
      var tq := q.threadQueues[thread];
      WithoutIsShorter(tq.posted, ids);
      WithoutIsShorter(tq.sent, ids);
      WithoutIsShorter(tq.input, ids);
      WithoutIsShorter(tq.timers, ids);
      WithoutIsShorter(tq.thread, ids);
    }
  }

  // ---- Nobody waits beside a counted message ----

  predicate WaitsBeside(s: System, i: nat)
    requires i < |s.kernel.threads|
  {
    s.kernel.threads[i].state == WaitingForMessage && Gwe.CountForOwner(s.queue, s.kernel.threads[i].handle) != 0
  }

  ghost predicate NoneBehind(s: System) {
    forall i | 0 <= i < |s.kernel.threads| :: !WaitsBeside(s, i)
  }

  predicate WaitsFor(s: System, i: nat, thread: uint32)
    requires i < |s.kernel.threads|
  {
    s.kernel.threads[i].state == WaitingForMessage && s.kernel.threads[i].handle == thread
  }

  /** A post without a wake, for a thread that waits for a message. */
  ghost predicate Strands(s: System, a: Action) {
    && a.Change? && a.change.Post?
    && var thread := Receiver(s.queue, a.change.m, a.change.kind, a.change.owner);
       thread != 0 && exists i :: 0 <= i < |s.kernel.threads| && WaitsFor(s, i, thread)
  }

  /** A refresh never touches a thread that waits for a message, and never makes one wait for it. */
  lemma RefreshLeavesWaiters(k: State, p: Probes, i: nat)
    requires i < |k.threads|
    ensures |Kernel.Refresh(k, p).threads| == |k.threads|
    ensures k.threads[i].state != Waiting ==> Kernel.Refresh(k, p).threads[i] == k.threads[i]
    ensures Kernel.Refresh(k, p).threads[i].handle == k.threads[i].handle
    ensures Kernel.Refresh(k, p).threads[i].state == WaitingForMessage <==> k.threads[i].state == WaitingForMessage
  {
    RefreshActsOnVerdict(k, i, p);
  }

  /** Whatever the state, after a wake no thread waits beside a message counted for it. */
  lemma WakeLeavesNoneBehind(s: System, outside: Outside)
    ensures NoneBehind(Woken(s, outside))
  {
  }

  lemma ChangeKeepsNoneBehindIff(s: System, change: Gwe.Action)
    requires Gwe.Inv(s.queue) && Gwe.Allowed(s.queue, change) && NoneBehind(s)
    ensures NoneBehind(s.(queue := Gwe.Step(s.queue, change))) <==> !Strands(s, Change(change))
  {
    var t := s.(queue := Gwe.Step(s.queue, change));
    forall i | 0 <= i < |s.kernel.threads|
      ensures WaitsBeside(t, i) <==>
              change.Post? && var thread := Receiver(s.queue, change.m, change.kind, change.owner);
                              thread != 0 && WaitsFor(s, i, thread)
    {
      var h := s.kernel.threads[i].handle;
      assert !WaitsBeside(s, i);
      match change
      case Post(m, kind, owner, at) => CountAfterPost(s.queue, m, kind, owner, at, h);
      case Erase(ids) => CountAfterRemove(s.queue, ids, h);
      case _ =>
    }
  }

  /** A step leaves a thread waiting beside a message iff it posts one for a waiting thread and does not wake. */
  lemma StepKeepsNoneBehindIff(s: System, a: Action)
    requires Gwe.Inv(s.queue) && Allowed(s, a) && NoneBehind(s)
    ensures NoneBehind(Step(s, a)) <==> !Strands(s, a)
  {
    match a
    case Change(change) => ChangeKeepsNoneBehindIff(s, change);
    case ChangeAndWake(change, outside) => WakeLeavesNoneBehind(s.(queue := Gwe.Step(s.queue, change)), outside);
    case Wake(outside) => WakeLeavesNoneBehind(s, outside);
    case Refresh(outside) =>
      forall i | 0 <= i < |s.kernel.threads| ensures !WaitsBeside(Step(s, a), i) {
        assert !WaitsBeside(s, i);
        RefreshLeavesWaiters(s.kernel, ProbesOf(s.queue, outside), i);
      }
    case GetMessage(thread, quitPosted) =>
      forall i | 0 <= i < |s.kernel.threads| ensures !WaitsBeside(Step(s, a), i) {
        assert !WaitsBeside(s, i);
      }
  }

  lemma ChangeKeepsInv(q: Gwe.Queue, change: Gwe.Action)
    requires Gwe.Inv(q) && Gwe.Allowed(q, change)
    ensures Gwe.Inv(Gwe.Step(q, change))
  {
    var r := Gwe.Step(q, change);
    assert Gwe.AllAllowed(r, []) && Gwe.Run(r, []) == r;
    assert [change][1..] == [];
    Gwe.RunKeepsInv(q, [change]);
  }

  ghost predicate NoneBehindThroughout(s: System, actions: seq<Action>)
    requires AllAllowed(s, actions)
    decreases |actions|
  {
    NoneBehind(s) && (actions == [] || NoneBehindThroughout(Step(s, actions[0]), actions[1..]))
  }

  ghost predicate NoneStrands(s: System, actions: seq<Action>)
    requires AllAllowed(s, actions)
    decreases |actions|
  {
    actions == [] || (!Strands(s, actions[0]) && NoneStrands(Step(s, actions[0]), actions[1..]))
  }

  /** Throughout a run nobody waits beside a message iff no step posts to a waiting thread without waking. */
  lemma {:induction false} RunKeepsNoneBehindIff(s: System, actions: seq<Action>)
    requires Gwe.Inv(s.queue) && AllAllowed(s, actions) && NoneBehind(s)
    ensures NoneBehindThroughout(s, actions) <==> NoneStrands(s, actions)
    decreases |actions|
  {
    if actions == [] {
    } else {
      var a := actions[0];
      StepKeepsNoneBehindIff(s, a);
      if a.Change? || a.ChangeAndWake? {
        ChangeKeepsInv(s.queue, a.change);
      }
      if !Strands(s, a) {
        RunKeepsNoneBehindIff(Step(s, a), actions[1..]);
      }
    }
  }

  predicate Wakes(a: Action) { a.Wake? || a.ChangeAndWake? }

  /** A waiting thread stays as it is, whatever is posted for it, until a step that wakes. */
  lemma {:induction false} WaitsUntilWoken(s: System, actions: seq<Action>, i: nat)
    requires AllAllowed(s, actions) && i < |s.kernel.threads| && s.kernel.threads[i].state == WaitingForMessage
    requires forall a | a in actions :: !Wakes(a)
    ensures var t := Run(s, actions); i < |t.kernel.threads| && t.kernel.threads[i] == s.kernel.threads[i]
    decreases |actions|
  {
    if actions == [] {
    } else {
      var a := actions[0];
      assert a in actions;
      if a.Refresh? {
        RefreshLeavesWaiters(s.kernel, ProbesOf(s.queue, a.outside), i);
      }
      WaitsUntilWoken(Step(s, a), actions[1..], i);
    }
  }

  /** A wake lets a waiting thread run iff a message is recorded for it. */
  lemma WokenIffOwned(s: System, outside: Outside, i: nat)
    requires Gwe.Inv(s.queue) && i < |s.kernel.threads| && s.kernel.threads[i].state == WaitingForMessage
    ensures var t, u := s.kernel.threads[i], Woken(s, outside).kernel.threads;
            i < |u| && u[i] == if Gwe.SomeOwned(s.queue, t.handle) then t.(state := Runnable) else t
  {
    RefreshLeavesWaiters(s.kernel, ProbesOf(s.queue, outside), i);
    Gwe.CountIffOwned(s.queue, s.kernel.threads[i].handle);
  }

  /** So it runs iff it would find a message, unless there are strays for it and nothing else. */
  lemma WokenIffWanted(s: System, outside: Outside, i: nat)
    requires Gwe.Inv(s.queue) && i < |s.kernel.threads|
    requires s.kernel.threads[i].state == WaitingForMessage && s.kernel.threads[i].handle != 0
    ensures var h, u := s.kernel.threads[i].handle, Woken(s, outside).kernel.threads;
            && i < |u|
            && ((u[i].state == Runnable <==> Gwe.SomeWanted(s.queue, h)) <==>
                (Gwe.SomeStray(s.queue, h) ==> Gwe.SomeOwned(s.queue, h)))
  {
    WokenIffOwned(s, outside, i);
    Gwe.CountIffOwned(s.queue, s.kernel.threads[i].handle);
    Gwe.HasMessagesExactIff(s.queue, s.kernel.threads[i].handle);
  }

  /**
   * After a post with a wake, a thread that waited for a message and owns the
   * message's window can run, and finds a message in the queue.
   */
  lemma PostWakesReceiver(s: System, m: Gwe.Message, kind: Gwe.Kind, owner: uint32, at: nat, outside: Outside, i: nat)
    requires Gwe.Inv(s.queue) && Gwe.Allowed(s.queue, Gwe.Post(m, kind, owner, at))
    requires i < |s.kernel.threads| && s.kernel.threads[i].state == WaitingForMessage
    requires s.kernel.threads[i].handle == Receiver(s.queue, m, kind, owner) != 0
    ensures var h := s.kernel.threads[i].handle; var t := Step(s, ChangeAndWake(Gwe.Post(m, kind, owner, at), outside));
            && i < |t.kernel.threads| && t.kernel.threads[i] == s.kernel.threads[i].(state := Runnable)
            && Gwe.Inv(t.queue)
            && exists e :: e in t.queue.messages && Gwe.Wanted(t.queue, h, _ => true, e)
  {
    var h := s.kernel.threads[i].handle;
    var posted := s.(queue := Gwe.PostAt(s.queue, m, kind, owner, at));
    Gwe.PostKeepsInv(s.queue, m, kind, owner, at);
    CountAfterPost(s.queue, m, kind, owner, at, h);
    Gwe.CountIffOwned(posted.queue, h);
    WokenIffOwned(posted, outside, i);
    Gwe.HasMessagesFindsOne(posted.queue, h);
  }

  /** Without the wake the same thread is left waiting beside it, until some later step wakes. */
  lemma SilentPostStrands(s: System, m: Gwe.Message, kind: Gwe.Kind, owner: uint32, at: nat, after: seq<Action>, i: nat)
    requires Gwe.Inv(s.queue) && Gwe.Allowed(s.queue, Gwe.Post(m, kind, owner, at))
    requires i < |s.kernel.threads| && s.kernel.threads[i].state == WaitingForMessage
    requires s.kernel.threads[i].handle == Receiver(s.queue, m, kind, owner) != 0
    requires AllAllowed(Step(s, Change(Gwe.Post(m, kind, owner, at))), after) && forall a | a in after :: !Wakes(a)
    ensures var t := Step(s, Change(Gwe.Post(m, kind, owner, at)));
            && WaitsBeside(t, i)
            && var u := Run(t, after); i < |u.kernel.threads| && u.kernel.threads[i] == s.kernel.threads[i]
  {
    CountAfterPost(s.queue, m, kind, owner, at, s.kernel.threads[i].handle);
    WaitsUntilWoken(Step(s, Change(Gwe.Post(m, kind, owner, at))), after, i);
  }
}
