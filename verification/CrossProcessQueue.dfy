/**
 * The message file shared by several emulator processes.
 *
 * Posting and draining hold a named mutex, so each is one step.  Polling first
 * looks at the file's write time and then at its size without the mutex, so it
 * is three steps between which other processes may write.
 */
module CrossProcessQueue {
  import opened Basics

  // `serial` is the position of the message among all posts.  It is not stored
  // in the file; it only gives each post an identity to talk about.
  datatype Message = Message(serial: nat, source: uint32, target: uint32, hwnd: uint32, payload: int)

  // `write` and `size` are what a stat of the file reports.
  datatype QueueFile = QueueFile(present: bool, messages: seq<Message>, write: nat, size: nat)

  datatype Broker = Broker(hasStat: bool, lastWrite: nat, lastSize: nat)

  // How far the current poll of a process has come.
  datatype Phase = Idle | SawWrite(write: nat) | SawStat(seenWrite: nat, seenSize: nat)

  datatype Outcome = Outcome(message: Message, delivered: bool)

  datatype Process = Process(broker: Broker, phase: Phase, windows: set<uint32>, handled: seq<Outcome>)

  datatype System = System(file: QueueFile, procs: map<uint32, Process>, alive: set<uint32>, posted: seq<Message>)

  datatype Action =
    | Post(source: uint32, target: uint32, hwnd: uint32, payload: int, newSize: nat)
    | StatWrite(pid: uint32)
    | StatSize(pid: uint32)
    | Drain(pid: uint32, newSize: nat)
    | SetWindows(pid: uint32, windows: set<uint32>)
    | SetAlive(alive: set<uint32>)

  /** The messages for `pid`, in file order. */
  function ForTarget(ms: seq<Message>, pid: uint32): seq<Message> {
    if ms == [] then []
    else
      var m := ms[|ms| - 1];
      ForTarget(ms[..|ms| - 1], pid) + (if m.target == pid then [m] else [])
  }

  /** The messages for everybody but `pid`, in file order. */
  function NotForTarget(ms: seq<Message>, pid: uint32): seq<Message> {
    if ms == [] then []
    else
      var m := ms[|ms| - 1];
      NotForTarget(ms[..|ms| - 1], pid) + (if m.target == pid then [] else [m])
  }

  /** A message is delivered when its window exists and dropped when it does not. */
  function Judge(ms: seq<Message>, windows: set<uint32>): seq<Outcome> {
    seq(|ms|, i requires 0 <= i < |ms| => Outcome(ms[i], ms[i].hwnd in windows))
  }

  function MessagesOf(os: seq<Outcome>): seq<Message> {
    seq(|os|, i requires 0 <= i < |os| => os[i].message)
  }

  predicate CanPost(source: uint32, target: uint32, hwnd: uint32, alive: set<uint32>) {
    target != 0 && hwnd != 0 && target != source && target in alive
  }

  /** Every write leaves a write time never seen before; the size is arbitrary. */
  function Append(f: QueueFile, m: Message, newSize: nat): QueueFile {
    QueueFile(true, (if f.present then f.messages else []) + [m], f.write + 1, newSize)
  }

  function DrainedFile(f: QueueFile, pid: uint32, newSize: nat): QueueFile {
    if !f.present || ForTarget(f.messages, pid) == [] then f
    else QueueFile(true, NotForTarget(f.messages, pid), f.write + 1, newSize)
  }

  function DrainedBroker(b: Broker, f: QueueFile, pid: uint32, newSize: nat, seenWrite: nat, seenSize: nat): Broker {
    if !f.present then b
    else if ForTarget(f.messages, pid) == [] then Broker(true, seenWrite, seenSize)
    else Broker(true, f.write + 1, newSize)
  }

  function DrainedHandled(handled: seq<Outcome>, f: QueueFile, pid: uint32, windows: set<uint32>): seq<Outcome> {
    if !f.present then handled else handled + Judge(ForTarget(f.messages, pid), windows)
  }

  /** A file that is gone is forgotten. */
  function AfterStat(b: Broker, f: QueueFile): Broker {
    if f.present then b else b.(hasStat := false)
  }

  /** The stat that ends a poll early. */
  predicate SameStat(b: Broker, write: nat, size: nat) {
    b.hasStat && write == b.lastWrite && size == b.lastSize
  }

  function Step(s: System, a: Action): System {
    match a
    case Post(source, target, hwnd, payload, newSize) =>
      if !CanPost(source, target, hwnd, s.alive) then s
      else
        var m := Message(|s.posted|, source, target, hwnd, payload);
        s.(file := Append(s.file, m, newSize), posted := s.posted + [m])
    case StatWrite(pid) =>
      if pid !in s.procs || s.procs[pid].phase != Idle then s
      else
        var p := s.procs[pid];
        var next := if s.file.present then SawWrite(s.file.write) else Idle;
        s.(procs := s.procs[pid := p.(broker := AfterStat(p.broker, s.file), phase := next)])
    case StatSize(pid) =>
      if pid !in s.procs || !s.procs[pid].phase.SawWrite? then s
      else
        var p := s.procs[pid];
        var next := if s.file.present && !SameStat(p.broker, p.phase.write, s.file.size)
                    then SawStat(p.phase.write, s.file.size) else Idle;
        s.(procs := s.procs[pid := p.(broker := AfterStat(p.broker, s.file), phase := next)])
    case Drain(pid, newSize) =>
      if pid !in s.procs || !s.procs[pid].phase.SawStat? then s
      else
        var p := s.procs[pid];
        var q := Process(DrainedBroker(p.broker, s.file, pid, newSize, p.phase.seenWrite, p.phase.seenSize),
                         Idle, p.windows, DrainedHandled(p.handled, s.file, pid, p.windows));
        s.(file := DrainedFile(s.file, pid, newSize), procs := s.procs[pid := q])
    case SetWindows(pid, windows) =>
      if pid !in s.procs then s else s.(procs := s.procs[pid := s.procs[pid].(windows := windows)])
    case SetAlive(alive) => s.(alive := alive)
  }

  function Run(s: System, actions: seq<Action>): System
    decreases |actions|
  {
    if actions == [] then s else Run(Step(s, actions[0]), actions[1..])
  }

  /** Nothing posted, nothing on disk, no poll under way. */
  predicate Initial(s: System) {
    && s.posted == [] && !s.file.present && s.file.messages == []
    && forall p | p in s.procs :: s.procs[p].handled == [] && !s.procs[p].broker.hasStat && s.procs[p].phase == Idle
  }

  // ---- The two operations that hold the mutex, as the source writes them ----

  /** What looking at entry `it` of the shrinking queue does to the two views of it. */
  lemma ScanOne(all: seq<Message>, done: nat, queue: seq<Message>, it: nat, pid: uint32)
    requires done <= |all| && it < |queue| && queue[it..] == all[done..]
    ensures done < |all| && queue[it] == all[done]
    ensures all[..done + 1][..done] == all[..done]
    ensures queue[..it + 1] == queue[..it] + [queue[it]] && queue[it + 1..] == all[done + 1..]
    ensures var cut := queue[..it] + queue[it + 1..];
            cut[..it] == queue[..it] && cut[it..] == all[done + 1..]
  {
    assert |queue[it..]| == |all[done..]| && queue[it..][0] == all[done..][0];
    assert queue[it + 1..] == queue[it..][1..] && all[done + 1..] == all[done..][1..];
  }

  lemma JudgeOne(handled: seq<Outcome>, ms: seq<Message>, m: Message, windows: set<uint32>)
    ensures handled + Judge(ms + [m], windows) == handled + Judge(ms, windows) + [Outcome(m, m.hwnd in windows)]
    ensures ms + [] == ms
  {
  }

  class QueueStore {
    var file: QueueFile

    constructor (f: QueueFile)
      ensures file == f
    {
      file := f;
    }
  }

  class CrossProcessBroker {
    const pid: uint32
    var hasStat: bool
    var lastWrite: nat
    var lastSize: nat
    var windows: set<uint32>
    var handled: seq<Outcome>

    constructor (pid: uint32, windows: set<uint32>)
      ensures this.pid == pid && this.windows == windows && handled == [] && !hasStat
    {
      this.pid := pid;
      this.windows := windows;
      hasStat, lastWrite, lastSize, handled := false, 0, 0, [];
    }

    function Cached(): Broker
      reads this
    {
      Broker(hasStat, lastWrite, lastSize)
    }

    method PostMessage(store: QueueStore, m: Message, alive: set<uint32>, newSize: nat) returns (ok: bool)
      modifies store
      ensures ok == CanPost(pid, m.target, m.hwnd, alive)
      ensures store.file == if ok then Append(old(store.file), m, newSize) else old(store.file)
      ensures ok <==> m.target != 0 && m.hwnd != 0 && m.target != pid && m.target in alive
      ensures ok ==> store.file.present && store.file.messages == (if old(store.file.present) then old(store.file.messages) else []) + [m]
    {
      if m.target == 0 || m.hwnd == 0 || m.target == pid {
        return false;
      }
      if m.target !in alive {
        return false;
      }
      var queue: seq<Message> := [];
      if store.file.present {
        queue := store.file.messages;
      }
      queue := queue + [m];
      store.file := QueueFile(true, queue, store.file.write + 1, newSize);
      return true;
    }

    /** The first look of a poll, without the mutex. */
    method LookAtWriteTime(store: QueueStore) returns (seen: Option<nat>)
      modifies this`hasStat
      ensures Cached() == AfterStat(old(Cached()), store.file)
      ensures seen == if store.file.present then Some(store.file.write) else None
      ensures hasStat == (old(hasStat) && store.file.present)
    {
      if !store.file.present {
        hasStat := false;
        return None;
      }
      return Some(store.file.write);
    }

    /** The second look; nothing to see is the early return. */
    method LookAtSize(store: QueueStore, write: nat) returns (seen: Option<nat>)
      modifies this`hasStat
      ensures Cached() == AfterStat(old(Cached()), store.file)
      ensures seen == if store.file.present && !SameStat(old(Cached()), write, store.file.size)
                      then Some(store.file.size) else None
      ensures store.file.present ==>
                (seen.None? <==> old(hasStat) && write == old(lastWrite) && store.file.size == old(lastSize))
    {
      if !store.file.present {
        hasStat := false;
        return None;
      }
      if hasStat && write == lastWrite && store.file.size == lastSize {
        return None;
      }
      return Some(store.file.size);
    }

    /** The locked half of a poll, given the stat the unlocked half saw. */
    method DrainLocked(store: QueueStore, seenWrite: nat, seenSize: nat, newSize: nat)
      modifies this, store
      ensures windows == old(windows)
      ensures store.file == DrainedFile(old(store.file), pid, newSize)
      ensures Cached() == DrainedBroker(old(Cached()), old(store.file), pid, newSize, seenWrite, seenSize)
      ensures handled == DrainedHandled(old(handled), old(store.file), pid, windows)
    {
      var file := store.file;
      if !file.present {
        return;
      }
      var queue := file.messages;
      var changed := false;
      var it := 0;
      ghost var done := 0;
      while it < |queue|
        invariant 0 <= done <= |file.messages| && it <= |queue|
        invariant queue[..it] == NotForTarget(file.messages[..done], pid)
        invariant queue[it..] == file.messages[done..]
        invariant changed == (ForTarget(file.messages[..done], pid) != [])
        invariant windows == old(windows) && Cached() == old(Cached()) && store.file == file
        invariant handled == old(handled) + Judge(ForTarget(file.messages[..done], pid), windows)
        decreases |file.messages| - done
      {
        var m := queue[it];
        ScanOne(file.messages, done, queue, it, pid);
        JudgeOne(old(handled), ForTarget(file.messages[..done], pid), m, windows);
        if m.target != pid {
          it := it + 1;
        } else {
          if m.hwnd in windows {
            handled := handled + [Outcome(m, true)];
          } else {
            handled := handled + [Outcome(m, false)];
          }
          queue := queue[..it] + queue[it + 1..];
          changed := true;
        }
        done := done + 1;
      }
      assert file.messages[..done] == file.messages && queue[..it] == queue;
      if !changed {
        hasStat, lastWrite, lastSize := true, seenWrite, seenSize;
        return;
      }
      store.file := QueueFile(true, queue, file.write + 1, newSize);
      hasStat, lastWrite, lastSize := true, store.file.write, store.file.size;
    }
  }

  // ---- What every interleaving keeps ----

  function HandledBy(s: System, pid: uint32): seq<Outcome> {
    if pid in s.procs then s.procs[pid].handled else []
  }

  /** Everything ever posted to `pid` is what it has handled, then what still waits in the file. */
  predicate Conserved(s: System, pid: uint32) {
    ForTarget(s.posted, pid) == MessagesOf(HandledBy(s, pid)) + ForTarget(s.file.messages, pid)
  }

  /** A cached or remembered write time is an old one, and the current one only if nothing waits. */
  predicate StampsSound(s: System, pid: uint32)
    requires pid in s.procs
  {
    var p := s.procs[pid];
    && (p.broker.hasStat ==>
          p.broker.lastWrite <= s.file.write &&
          (p.broker.lastWrite == s.file.write ==> ForTarget(s.file.messages, pid) == []))
    && (p.phase.SawWrite? ==> s.file.present && p.phase.write <= s.file.write)
    && (p.phase.SawStat? ==> s.file.present && p.phase.seenWrite <= s.file.write)
  }

  ghost predicate Inv(s: System) {
    && (!s.file.present ==> s.file.messages == [])
    && (forall i | 0 <= i < |s.posted| :: s.posted[i].serial == i)
    && (forall pid: uint32 :: Conserved(s, pid))
    && (forall pid: uint32 | pid in s.procs :: StampsSound(s, pid))
  }

  lemma {:induction false} DrainSplits(ms: seq<Message>, pid: uint32, other: uint32)
    ensures ForTarget(NotForTarget(ms, pid), other) == if other == pid then [] else ForTarget(ms, other)
  {
    if ms == [] {
    } else {
      var front, m := ms[..|ms| - 1], ms[|ms| - 1];
      DrainSplits(front, pid, other);
      var rest := NotForTarget(front, pid);
      if m.target == pid {
        assert rest + [] == rest && ForTarget(front, other) + [] == ForTarget(front, other);
      } else {
        assert (rest + [m])[..|rest|] == rest;
      }
    }
  }

  lemma JudgeKeepsMessages(os: seq<Outcome>, ms: seq<Message>, windows: set<uint32>)
    ensures MessagesOf(os + Judge(ms, windows)) == MessagesOf(os) + ms
  {
  }

  lemma PostKeepsInv(s: System, a: Action)
    requires Inv(s) && a.Post? && CanPost(a.source, a.target, a.hwnd, s.alive)
    ensures Inv(Step(s, a))
  {
    var t := Step(s, a);
    assert t.posted[..|s.posted|] == s.posted && t.file.messages[..|s.file.messages|] == s.file.messages;
    forall pid: uint32 ensures Conserved(t, pid) {
      assert Conserved(s, pid);
      assert HandledBy(t, pid) == HandledBy(s, pid);
    }
    forall pid: uint32 | pid in t.procs ensures StampsSound(t, pid) {
      assert StampsSound(s, pid);
    }
  }

  lemma DrainKeepsInv(s: System, pid: uint32, newSize: nat)
    requires Inv(s) && pid in s.procs && s.procs[pid].phase.SawStat?
    ensures Inv(Step(s, Drain(pid, newSize)))
  {
    var p, t := s.procs[pid], Step(s, Drain(pid, newSize));
    assert StampsSound(s, pid);
    forall other: uint32 ensures Conserved(t, other) {
      assert Conserved(s, other);
      DrainSplits(s.file.messages, pid, other);
      JudgeKeepsMessages(p.handled, ForTarget(s.file.messages, pid), p.windows);
    }
    forall other: uint32 | other in t.procs ensures StampsSound(t, other) {
      assert StampsSound(s, other);
      DrainSplits(s.file.messages, pid, other);
    }
  }

  lemma StepKeepsInv(s: System, a: Action)
    requires Inv(s)
    ensures Inv(Step(s, a))
  {
    match a
    case Post(source, target, hwnd, payload, newSize) =>
      if CanPost(source, target, hwnd, s.alive) {
        PostKeepsInv(s, a);
      }
    case Drain(pid, newSize) =>
      if pid in s.procs && s.procs[pid].phase.SawStat? {
        DrainKeepsInv(s, pid, newSize);
      }
    case StatWrite(pid) => StatKeepsInv(s, a, pid);
    case StatSize(pid) => StatKeepsInv(s, a, pid);
    case SetWindows(pid, windows) => StatKeepsInv(s, a, pid);
    case SetAlive(alive) => StatKeepsInv(s, a, 0);
  }

  lemma StatKeepsInv(s: System, a: Action, pid: uint32)
    requires Inv(s) && (a.StatWrite? || a.StatSize? || a.SetWindows? || a.SetAlive?)
    requires !a.SetAlive? ==> a.pid == pid
    ensures Inv(Step(s, a))
  {
    var t := Step(s, a);
    forall other: uint32 ensures Conserved(t, other) {
      assert Conserved(s, other);
      assert HandledBy(t, other) == HandledBy(s, other);
    }
    forall other: uint32 | other in t.procs ensures StampsSound(t, other) {
      assert StampsSound(s, other);
    }
  }

  lemma {:induction false} RunKeepsInv(s: System, actions: seq<Action>)
    requires Inv(s)
    ensures Inv(Run(s, actions))
    decreases |actions|
  {
    if actions == [] {
    } else {
      StepKeepsInv(s, actions[0]);
      RunKeepsInv(Step(s, actions[0]), actions[1..]);
    }
  }

  lemma InitialInv(s: System)
    requires Initial(s)
    ensures Inv(s)
  {
    forall pid: uint32 ensures Conserved(s, pid) {}
  }

  /** In any reachable state, a stat taken at one instant that equals the cached one means nothing waits. */
  lemma SameStatNothingWaits(init: System, actions: seq<Action>, pid: uint32)
    requires Initial(init) && pid in Run(init, actions).procs
    ensures var s := Run(init, actions); var b := s.procs[pid].broker;
            SameStat(b, s.file.write, s.file.size) ==> ForTarget(s.file.messages, pid) == []
  {
    InitialInv(init);
    RunKeepsInv(init, actions);
    assert StampsSound(Run(init, actions), pid);
  }

  // ---- Exactly once, in post order ----

  ghost predicate Increasing(ms: seq<Message>) {
    forall i, j | 0 <= i < j < |ms| :: ms[i].serial < ms[j].serial
  }

  lemma {:induction false} TargetedInOrder(ms: seq<Message>, pid: uint32)
    requires Increasing(ms)
    ensures Increasing(ForTarget(ms, pid))
    ensures forall m :: m in ForTarget(ms, pid) <==> m in ms && m.target == pid
  {
    if ms == [] {
    } else {
      var front, m := ms[..|ms| - 1], ms[|ms| - 1];
      TargetedInOrder(front, pid);
      assert ms == front + [m];
      forall e | e in front ensures e.serial < m.serial {}
    }
  }

  lemma IncreasingCountsOnce(ms: seq<Message>, m: Message)
    requires Increasing(ms) && m in ms
    ensures multiset(ms)[m] == 1
  {
    var i :| 0 <= i < |ms| && ms[i] == m;
    assert ms == ms[..i] + [m] + ms[i + 1..];
    assert m !in ms[..i] && m !in ms[i + 1..];
  }

  lemma {:induction false} OnlyTargetCounts(ms: seq<Message>, m: Message)
    ensures multiset(ForTarget(ms, m.target))[m] == multiset(ms)[m]
  {
    if ms == [] {
    } else {
      OnlyTargetCounts(ms[..|ms| - 1], m);
      assert ms == ms[..|ms| - 1] + [ms[|ms| - 1]];
    }
  }

  /**
   * In every reachable state each posted message is in exactly one place: once in
   * the file, or handled once by its target and by nobody else; and each process
   * has handled its messages in post order.
   */
  lemma ExactlyOnceInOrder(init: System, actions: seq<Action>, i: nat)
    requires Initial(init) && i < |Run(init, actions).posted|
    ensures var s := Run(init, actions); var m := s.posted[i];
            && multiset(s.file.messages)[m] + multiset(MessagesOf(HandledBy(s, m.target)))[m] == 1
            && (forall q: uint32 | q != m.target :: m !in MessagesOf(HandledBy(s, q)))
            && (forall q: uint32 :: Increasing(MessagesOf(HandledBy(s, q))))
  {
    InitialInv(init);
    RunKeepsInv(init, actions);
    var s := Run(init, actions);
    var m := s.posted[i];
    var mine := ForTarget(s.posted, m.target);
    assert Conserved(s, m.target);
    TargetedInOrder(s.posted, m.target);
    IncreasingCountsOnce(mine, m);
    OnlyTargetCounts(s.file.messages, m);
    forall q: uint32
      ensures Increasing(MessagesOf(HandledBy(s, q)))
      ensures q != m.target ==> m !in MessagesOf(HandledBy(s, q))
    {
      assert Conserved(s, q);
      TargetedInOrder(s.posted, q);
      var all, head := ForTarget(s.posted, q), MessagesOf(HandledBy(s, q));
      assert head == all[..|head|];
    }
  }

  // ---- A poll that runs to its end misses nothing that was waiting ----

  /** Steps that are not part of the poll of `pid`. */
  predicate Others(actions: seq<Action>, pid: uint32) {
    forall a | a in actions :: (a.StatWrite? || a.StatSize? || a.Drain?) ==> a.pid != pid
  }

  lemma OtherStepLeaves(s: System, a: Action, pid: uint32)
    requires Inv(s) && pid in s.procs && Others([a], pid)
    ensures var t := Step(s, a); StillPolling(s, t, pid)
  {
    assert a in [a];
    if a.Post? && CanPost(a.source, a.target, a.hwnd, s.alive) {
      assert Step(s, a).file.messages[..|s.file.messages|] == s.file.messages;
    }
    if a.Drain? {
      DrainSplits(s.file.messages, a.pid, pid);
    }
  }

  /** Nothing of `pid`'s own changed, and its waiting messages only grew at the end. */
  predicate StillPolling(s: System, t: System, pid: uint32)
    requires pid in s.procs
  {
    && pid in t.procs
    && t.procs[pid].broker == s.procs[pid].broker && t.procs[pid].phase == s.procs[pid].phase
    && t.procs[pid].handled == s.procs[pid].handled
    && ForTarget(s.file.messages, pid) <= ForTarget(t.file.messages, pid)
    && (s.file.present ==> t.file.present)
  }

  lemma {:induction false} OthersLeavePoll(s: System, actions: seq<Action>, pid: uint32)
    requires Inv(s) && pid in s.procs && Others(actions, pid)
    ensures StillPolling(s, Run(s, actions), pid)
    decreases |actions|
  {
    if actions == [] {
    } else {
      var a := actions[0];
      assert a in actions;
      var t := Step(s, a);
      OtherStepLeaves(s, a, pid);
      StepKeepsInv(s, a);
      OthersLeavePoll(t, actions[1..], pid);
    }
  }

  /**
   * Whatever other processes do between its three steps, a poll begun while a
   * message waits reaches the drain and afterwards everything ever posted to the
   * process has been handled.
   */
  lemma PollMissesNothing(s: System, pid: uint32, between1: seq<Action>, between2: seq<Action>, newSize: nat)
    requires Inv(s) && pid in s.procs && s.procs[pid].phase == Idle
    requires ForTarget(s.file.messages, pid) != []
    requires Others(between1, pid) && Others(between2, pid)
    ensures var s1 := Run(Step(s, StatWrite(pid)), between1);
            var s2 := Run(Step(s1, StatSize(pid)), between2);
            var t := Step(s2, Drain(pid, newSize));
            && pid in t.procs && t.procs[pid].phase == Idle
            && ForTarget(t.file.messages, pid) == []
            && MessagesOf(t.procs[pid].handled) == ForTarget(t.posted, pid)
            && |t.procs[pid].handled| > |s.procs[pid].handled|
  {
    assert StampsSound(s, pid);
    var s0 := Step(s, StatWrite(pid));
    StepKeepsInv(s, StatWrite(pid));
    OthersLeavePoll(s0, between1, pid);
    RunKeepsInv(s0, between1);
    var s1 := Run(s0, between1);
    var s1' := Step(s1, StatSize(pid));
    StepKeepsInv(s1, StatSize(pid));
    assert s1'.procs[pid].phase.SawStat?;
    OthersLeavePoll(s1', between2, pid);
    RunKeepsInv(s1', between2);
    var s2 := Run(s1', between2);
    var t := Step(s2, Drain(pid, newSize));
    StepKeepsInv(s2, Drain(pid, newSize));
    DrainSplits(s2.file.messages, pid, pid);
    assert Conserved(t, pid);
  }

  // ---- What a drain does with a message ----

  /** A drain handles what waits for its process, and delivers exactly the messages whose window it has. */
  lemma DrainDeliversIffWindow(s: System, pid: uint32, newSize: nat, i: nat)
    requires pid in s.procs && s.procs[pid].phase.SawStat? && s.file.present && i < |ForTarget(s.file.messages, pid)|
    ensures var p, q := s.procs[pid], Step(s, Drain(pid, newSize)).procs[pid]; var k := |p.handled| + i;
            && k < |q.handled| == |p.handled| + |ForTarget(s.file.messages, pid)|
            && q.handled[k].message == ForTarget(s.file.messages, pid)[i]
            && (q.handled[k].delivered <==> q.handled[k].message.hwnd in p.windows)
  {
  }

  /** A drain caches the stat it leaves, so the next poll ends early if nothing was written in between. */
  lemma NextPollReturnsEarly(s: System, pid: uint32, newSize: nat)
    requires pid in s.procs && s.procs[pid].phase == SawStat(s.file.write, s.file.size) && s.file.present
    ensures ReturnsEarly(Step(Step(s, Drain(pid, newSize)), StatWrite(pid)), pid)
  {
  }

  // ---- What the early return can pass over ----

  /** The second look of a poll ends it although the file is there. */
  predicate ReturnsEarly(s: System, pid: uint32) {
    && pid in s.procs && s.procs[pid].phase.SawWrite? && s.file.present
    && Step(s, StatSize(pid)).procs[pid].phase == Idle
  }

  /**
   * The early return compares a write time seen earlier with a size seen now, and
   * needs both to be the cached ones.  In any reachable state it passes over a
   * message only if the file has been written since the first look.
   */
  lemma EarlyReturnGuard(init: System, actions: seq<Action>, pid: uint32)
    requires Initial(init) && ReturnsEarly(Run(init, actions), pid)
    ensures var s := Run(init, actions); var p := s.procs[pid];
            && p.broker.hasStat && p.phase.write == p.broker.lastWrite && s.file.size == p.broker.lastSize
            && (ForTarget(s.file.messages, pid) != [] ==> p.phase.write < s.file.write)
  {
    InitialInv(init);
    RunKeepsInv(init, actions);
    assert StampsSound(Run(init, actions), pid);
  }

  lemma {:induction false} TargetsConcat(a: seq<Message>, b: seq<Message>, pid: uint32)
    ensures ForTarget(a + b, pid) == ForTarget(a, pid) + ForTarget(b, pid)
  {
    if b == [] {
      assert a + b == a;
    } else {
      assert (a + b)[..|a + b| - 1] == a + b[..|b| - 1];
      TargetsConcat(a, b[..|b| - 1], pid);
    }
  }

  lemma {:induction false} PostedGrows(s: System, actions: seq<Action>)
    ensures s.posted <= Run(s, actions).posted
    decreases |actions|
  {
    if actions == [] {
    } else {
      PostedGrows(Step(s, actions[0]), actions[1..]);
    }
  }

  /**
   * When a poll ends at its second look, whatever others did since the first, nothing
   * waited at the first look, and what waits now is exactly what was posted since.
   */
  lemma EarlyReturnPassesOver(s: System, pid: uint32, between: seq<Action>)
    requires Inv(s) && pid in s.procs && s.procs[pid].phase == Idle && Others(between, pid)
    requires ReturnsEarly(Run(Step(s, StatWrite(pid)), between), pid)
    ensures var r := Run(Step(s, StatWrite(pid)), between);
            && ForTarget(s.file.messages, pid) == []
            && s.posted <= r.posted
            && ForTarget(r.file.messages, pid) == ForTarget(r.posted[|s.posted|..], pid)
  {
    var s0 := Step(s, StatWrite(pid));
    StepKeepsInv(s, StatWrite(pid));
    OthersLeavePoll(s0, between, pid);
    RunKeepsInv(s0, between);
    var r := Run(s0, between);
    assert StampsSound(s, pid);
    PostedGrows(s0, between);
    var since, mine := r.posted[|s.posted|..], MessagesOf(HandledBy(s, pid));
    assert Conserved(s, pid) && mine + [] == mine;
    assert Conserved(r, pid) && r.posted == s.posted + since;
    TargetsConcat(s.posted, since, pid);
    assert mine + ForTarget(r.file.messages, pid) == mine + ForTarget(since, pid);
    SameTail(mine, ForTarget(r.file.messages, pid), ForTarget(since, pid));
  }

  lemma SameTail(front: seq<Message>, a: seq<Message>, b: seq<Message>)
    requires front + a == front + b
    ensures a == b
  {
    assert a == (front + a)[|front|..] && b == (front + b)[|front|..];
  }

  const READER: uint32 := 1
  const OTHER: uint32 := 2
  const POSTER: uint32 := 3

  /** Two processes, both idle, and no file. */
  function TwoReaders(): System {
    var p := Process(Broker(false, 0, 0), Idle, {}, []);
    System(QueueFile(false, [], 0, 0), map[READER := p, OTHER := p], {READER, OTHER}, [])
  }

  /** The reader caches the stat of a file that holds the other's message, and begins its next poll. */
  function FirstLook(): seq<Action> {
    [Post(POSTER, OTHER, 7, 0, 100), StatWrite(READER), StatSize(READER), Drain(READER, 0), StatWrite(READER)]
  }

  /** Then a message for the reader is posted, and the other drains its own, which is as long. */
  function Meanwhile(): seq<Action> {
    [Post(POSTER, READER, 7, 0, 200), StatWrite(OTHER), StatSize(OTHER), Drain(OTHER, 100)]
  }

  const FOR_OTHER := Message(0, POSTER, OTHER, 7, 0)
  const FOR_READER := Message(1, POSTER, READER, 7, 0)

  lemma AfterFirstLook()
    ensures var s := Run(TwoReaders(), FirstLook());
            && s.file == QueueFile(true, [FOR_OTHER], 1, 100) && s.posted == [FOR_OTHER] && s.alive == {READER, OTHER}
            && s.procs == TwoReaders().procs[READER := Process(Broker(true, 1, 100), SawWrite(1), {}, [])]
  {
    TargetsOfOne(FOR_OTHER);
    var a := FirstLook();
    var s1 := Step(TwoReaders(), a[0]);
    assert s1.file == QueueFile(true, [FOR_OTHER], 1, 100);
    var s2 := Step(s1, a[1]);
    var s3 := Step(s2, a[2]);
    var s4 := Step(s3, a[3]);
    RunTwo(TwoReaders(), s1, s2, a);
    RunTwo(s2, s3, s4, a[2..]);
    assert a[4..] == [a[4]] && a[4..][1..] == [];
  }

  /** The second look then finds the old size and returns, while a message waits. */
  lemma EarlyReturnMayPassOver()
    ensures Initial(TwoReaders())
    ensures var s := Run(Run(TwoReaders(), FirstLook()), Meanwhile());
            ReturnsEarly(s, READER) && ForTarget(s.file.messages, READER) == [FOR_READER]
  {
    AfterFirstLook();
    TargetsOfOne(FOR_OTHER);
    TargetsOfOne(FOR_READER);
    var both := [FOR_OTHER, FOR_READER];
    assert both[..1] == [FOR_OTHER];
    var s, b := Run(TwoReaders(), FirstLook()), Meanwhile();
    var s1 := Step(s, b[0]);
    assert s1.file == QueueFile(true, both, 2, 200);
    var s2 := Step(s1, b[1]);
    var s3 := Step(s2, b[2]);
    assert s3.procs[OTHER].phase == SawStat(2, 200);
    var s4 := Step(s3, b[3]);
    assert s4.file == QueueFile(true, [FOR_READER], 3, 100);
    RunTwo(s, s1, s2, b);
    RunTwo(s2, s3, s4, b[2..]);
  }

  lemma TargetsOfOne(m: Message)
    ensures ForTarget([m], m.target) == [m] && NotForTarget([m], m.target) == []
    ensures forall pid: uint32 | pid != m.target :: ForTarget([m], pid) == [] && NotForTarget([m], pid) == [m]
  {
    OneTarget(m, m.target);
    forall pid: uint32 | pid != m.target ensures ForTarget([m], pid) == [] && NotForTarget([m], pid) == [m] {
      OneTarget(m, pid);
    }
  }

  lemma OneTarget(m: Message, pid: uint32)
    ensures ForTarget([m], pid) == (if m.target == pid then [m] else [])
    ensures NotForTarget([m], pid) == (if m.target == pid then [] else [m])
  {
    assert [m][..|[m]| - 1] == [];
    assert ForTarget([m], pid) == ForTarget([], pid) + (if m.target == pid then [m] else []);
    assert NotForTarget([m], pid) == NotForTarget([], pid) + (if m.target == pid then [] else [m]);
  }

  lemma RunTwo(s: System, t: System, u: System, actions: seq<Action>)
    requires |actions| >= 2 && t == Step(s, actions[0]) && u == Step(t, actions[1])
    ensures Run(s, actions) == Run(u, actions[2..])
  {
    assert actions[1..][1..] == actions[2..];
  }
}
