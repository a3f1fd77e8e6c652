/**
 * The window system's message queue: one global queue, shadowed by per-thread
 * lanes and an owner record per queued message.
 */
module GweQueue {
  import opened Basics

  datatype Kind = Posted | Sent | Input | Timer | Thread

  datatype Message = Message(
    hwnd: uint32, message: uint32, wParam: uint32, lParam: uint32, time: uint32, x: uint32, y: uint32,
    synchronousSender: uint32, crossProcess: bool, queueId: nat, queueKind: Kind)

  datatype ThreadQueue = ThreadQueue(
    posted: seq<Message>, sent: seq<Message>, input: seq<Message>, timers: seq<Message>, thread: seq<Message>)
  {
    function Lane(kind: Kind): seq<Message> {
      match kind
      case Posted => posted
      case Sent => sent
      case Input => input
      case Timer => timers
      case Thread => thread
    }

    function WithLane(kind: Kind, lane: seq<Message>): (r: ThreadQueue)
      ensures r.Lane(kind) == lane && forall k | k != kind :: r.Lane(k) == Lane(k)
    {
      match kind
      case Posted => this.(posted := lane)
      case Sent => this.(sent := lane)
      case Input => this.(input := lane)
      case Timer => this.(timers := lane)
      case Thread => this.(thread := lane)
    }

    function Count(): nat {
      |posted| + |sent| + |input| + |timers| + |thread|
    }
  }

  const EMPTY_THREAD_QUEUE := ThreadQueue([], [], [], [], [])

  datatype Queue = Queue(
    messages: seq<Message>, threadQueues: map<uint32, ThreadQueue>, owners: map<nat, uint32>,
    windowOwners: map<uint32, uint32>, nextId: nat)

  // ---- What the operations do, as functions of the whole queue state ----

  function OwnerForWindow(q: Queue, hwnd: uint32): uint32 {
    if hwnd in q.windowOwners then q.windowOwners[hwnd] else 0
  }

  function OwnerForMessage(q: Queue, m: Message): uint32 {
    if m.queueId in q.owners then q.owners[m.queueId]
    else if m.hwnd != 0 then OwnerForWindow(q, m.hwnd)
    else 0
  }

  function EnsureThreadQueue(q: Queue, owner: uint32): Queue {
    if owner == 0 || owner in q.threadQueues then q
    else q.(threadQueues := q.threadQueues[owner := EMPTY_THREAD_QUEUE])
  }

  function QueuedForm(q: Queue, m: Message, kind: Kind): Message {
    m.(queueId := if m.queueId == 0 then q.nextId else m.queueId, queueKind := kind)
  }

  function Prepared(q: Queue, m: Message, kind: Kind, owner: uint32): Queue {
    var queued := QueuedForm(q, m, kind);
    var known := if owner != 0 then owner else OwnerForMessage(q, queued);
    q.(nextId := if m.queueId == 0 then q.nextId + 1 else q.nextId,
       owners := if known != 0 then q.owners[queued.queueId := known] else q.owners)
  }

  function AddedToLane(q: Queue, m: Message): Queue {
    if m.queueId !in q.owners || q.owners[m.queueId] == 0 then q
    else
      var o := q.owners[m.queueId];
      var e := EnsureThreadQueue(q, o);
      var tq := e.threadQueues[o];
      e.(threadQueues := e.threadQueues[o := tq.WithLane(m.queueKind, tq.Lane(m.queueKind) + [m])])
  }

  /** The message enters the global queue at `at`, but always joins the back of its lane. */
  function PostAt(q: Queue, m: Message, kind: Kind, owner: uint32, at: nat): Queue
    requires at <= |q.messages|
  {
    var queued := QueuedForm(q, m, kind);
    var r := AddedToLane(Prepared(q, m, kind, owner), queued);
    r.(messages := q.messages[..at] + [queued] + q.messages[at..])
  }

  /** The first position whose message satisfies `p` equals `value`, or the end. */
  function FirstWhere(ms: seq<Message>, p: Message -> bool, value: bool): (k: nat)
    ensures k <= |ms| && (k < |ms| ==> p(ms[k]) == value) && forall i | 0 <= i < k :: p(ms[i]) != value
  {
    if ms == [] || p(ms[0]) == value then 0 else 1 + FirstWhere(ms[1..], p, value)
  }

  /** `after` is `before` with `m` put right behind the leading messages that are passed over. */
  ghost predicate InsertedAfter(before: seq<Message>, m: Message, passes: Message -> bool, after: seq<Message>) {
    exists k ::
      && 0 <= k <= |before| && after == before[..k] + [m] + before[k..]
      && (forall i | 0 <= i < k :: passes(before[i])) && (k < |before| ==> !passes(before[k]))
  }

  /** Order-preserving removal of the given queue ids. */
  function Without(ms: seq<Message>, ids: set<nat>): seq<Message> {
    if ms == [] then []
    else
      var m := ms[|ms| - 1];
      Without(ms[..|ms| - 1], ids) + (if m.queueId in ids then [] else [m])
  }

  function LanesWithout(tq: ThreadQueue, ids: set<nat>): ThreadQueue {
    ThreadQueue(Without(tq.posted, ids), Without(tq.sent, ids), Without(tq.input, ids),
                Without(tq.timers, ids), Without(tq.thread, ids))
  }

  /** The queue with the given ids gone from the global queue, every lane and the owner record. */
  function Remove(q: Queue, ids: set<nat>): Queue {
    q.(messages := Without(q.messages, ids),
       threadQueues := map o | o in q.threadQueues :: LanesWithout(q.threadQueues[o], ids),
       owners := q.owners - ids)
  }

  function MatchIds(ms: seq<Message>, p: Message -> bool): set<nat> {
    set m | m in ms && p(m) :: m.queueId
  }

  /** The messages satisfying `p` equals `value`, in order. */
  function Select(ms: seq<Message>, p: Message -> bool, value: bool): seq<Message> {
    if ms == [] then []
    else
      var m := ms[|ms| - 1];
      Select(ms[..|ms| - 1], p, value) + (if p(m) == value then [m] else [])
  }

  predicate Wanted(q: Queue, owner: uint32, p: Message -> bool, m: Message) {
    (owner == 0 || OwnerForMessage(q, m) == owner) && p(m)
  }

  // ---- The index invariant ----

  ghost predicate Distinct(ms: seq<Message>) {
    forall i, j | 0 <= i < j < |ms| :: ms[i].queueId != ms[j].queueId
  }

  function Ids(ms: seq<Message>): set<nat> {
    set m | m in ms :: m.queueId
  }

  predicate RecordedFor(q: Queue, m: Message, owner: uint32, kind: Kind) {
    m in q.messages && m.queueId in q.owners && q.owners[m.queueId] == owner && m.queueKind == kind
  }

  ghost predicate LaneSound(q: Queue, owner: uint32, kind: Kind)
    requires owner in q.threadQueues
  {
    var lane := q.threadQueues[owner].Lane(kind);
    Distinct(lane) && forall m :: m in lane <==> RecordedFor(q, m, owner, kind)
  }

  ghost predicate Inv(q: Queue) {
    && Distinct(q.messages)
    && (forall m | m in q.messages :: 0 < m.queueId < q.nextId)
    && 0 < q.nextId
    && (forall id | id in q.owners :: id in Ids(q.messages) && q.owners[id] != 0 && q.owners[id] in q.threadQueues)
    && (forall o, kind | o in q.threadQueues :: LaneSound(q, o, kind))
  }

  // ---- The class ----

  class CeGwe {
    var messages: seq<Message>
    var threadQueues: map<uint32, ThreadQueue>
    var messageOwners: map<nat, uint32>
    var windowOwners: map<uint32, uint32>
    var nextMessageId: nat

    constructor ()
      ensures AsQueue() == Queue([], map[], map[], map[], 1) && Inv(AsQueue())
    {
      messages, threadQueues, messageOwners, windowOwners, nextMessageId := [], map[], map[], map[], 1;
    }

    function AsQueue(): Queue
      reads this
    {
      Queue(messages, threadQueues, messageOwners, windowOwners, nextMessageId)
    }

    method PrepareForQueue(message: Message, kind: Kind, ownerThread: uint32) returns (queued: Message)
      modifies this
      ensures queued == QueuedForm(old(AsQueue()), message, kind)
      ensures AsQueue() == Prepared(old(AsQueue()), message, kind, ownerThread)
      ensures queued == message.(queueId := if message.queueId == 0 then old(nextMessageId) else message.queueId, queueKind := kind)
    {
      queued := message;
      if queued.queueId == 0 {
        queued := queued.(queueId := nextMessageId);
        nextMessageId := nextMessageId + 1;
      }
      queued := queued.(queueKind := kind);
      if ownerThread != 0 {
        messageOwners := messageOwners[queued.queueId := ownerThread];
      } else {
        var messageOwner := OwnerForMessage(AsQueue(), queued);
        if messageOwner != 0 {
          messageOwners := messageOwners[queued.queueId := messageOwner];
        }
      }
    }

    method AddToOwnerQueue(message: Message)
      modifies this
      ensures AsQueue() == AddedToLane(old(AsQueue()), message)
    {
      if message.queueId !in messageOwners || messageOwners[message.queueId] == 0 {
        return;
      }
      var owner := messageOwners[message.queueId];
      if owner !in threadQueues {
        threadQueues := threadQueues[owner := EMPTY_THREAD_QUEUE];
      }
      var queue := threadQueues[owner];
      threadQueues := threadQueues[owner := queue.WithLane(message.queueKind, queue.Lane(message.queueKind) + [message])];
    }

    method PostBack(message: Message, kind: Kind, ownerThread: uint32)
      modifies this
      ensures AsQueue() == PostAt(old(AsQueue()), message, kind, ownerThread, |old(messages)|)
      ensures messages == old(messages) + [QueuedForm(old(AsQueue()), message, kind)]
    {
      var queued := PrepareForQueue(message, kind, ownerThread);
      AddToOwnerQueue(queued);
      messages := messages + [queued];
      assert old(messages)[..|old(messages)|] == old(messages);
    }

    method PostFront(message: Message)
      modifies this
      ensures AsQueue() == PostAt(old(AsQueue()), message, message.queueKind, 0, 0)
      ensures messages == [QueuedForm(old(AsQueue()), message, message.queueKind)] + old(messages)
    {
      var queued := PrepareForQueue(message, message.queueKind, 0);
      AddToOwnerQueue(queued);
      messages := [queued] + messages;
    }

    /** Shared by the three posts that pass over the messages at the front. */
    method PostAtFirst(message: Message, kind: Kind, p: Message -> bool, stopAt: bool)
      modifies this
      ensures AsQueue() == PostAt(old(AsQueue()), message, kind, 0, FirstWhere(old(messages), p, stopAt))
      ensures InsertedAfter(old(messages), QueuedForm(old(AsQueue()), message, kind), m => p(m) != stopAt, messages)
    {
      var queued := PrepareForQueue(message, kind, 0);
      var it := 0;
      while it < |messages| && p(messages[it]) != stopAt
        invariant it <= |messages| && forall i | 0 <= i < it :: p(messages[i]) != stopAt
      {
        it := it + 1;
      }
      assert it == FirstWhere(messages, p, stopAt);
      AddToOwnerQueue(queued);
      messages := messages[..it] + [queued] + messages[it..];
    }

    method PostAfterLeadingMatches(message: Message, p: Message -> bool)
      modifies this
      ensures AsQueue() == PostAt(old(AsQueue()), message, message.queueKind, 0, FirstWhere(old(messages), p, false))
      ensures InsertedAfter(old(messages), QueuedForm(old(AsQueue()), message, message.queueKind), m => p(m) != false, messages)
    {
      PostAtFirst(message, message.queueKind, p, false);
    }

    method PostBeforeFirstMatch(message: Message, p: Message -> bool)
      modifies this
      ensures AsQueue() == PostAt(old(AsQueue()), message, message.queueKind, 0, FirstWhere(old(messages), p, true))
      ensures InsertedAfter(old(messages), QueuedForm(old(AsQueue()), message, message.queueKind), m => p(m) != true, messages)
    {
      PostAtFirst(message, message.queueKind, p, true);
    }

    method PostSentBeforeFirstMatch(message: Message, p: Message -> bool)
      modifies this
      ensures AsQueue() == PostAt(old(AsQueue()), message, Sent, 0, FirstWhere(old(messages), p, true))
      ensures InsertedAfter(old(messages), QueuedForm(old(AsQueue()), message, Sent), m => p(m) != true, messages)
    {
      PostAtFirst(message, Sent, p, true);
    }

    method RegisterWindowOwner(hwnd: uint32, ownerThread: uint32)
      modifies this
      ensures AsQueue() == Registered(old(AsQueue()), hwnd, ownerThread)
      ensures windowOwners == if hwnd != 0 then old(windowOwners)[hwnd := ownerThread] else old(windowOwners)
    {
      if hwnd == 0 {
        return;
      }
      if ownerThread != 0 && ownerThread !in threadQueues {
        threadQueues := threadQueues[ownerThread := EMPTY_THREAD_QUEUE];
      }
      windowOwners := windowOwners[hwnd := ownerThread];
    }

    method RemoveFromOwnerQueue(message: Message)
      requires Inv(AsQueue()) && message in messages
      modifies this
      ensures AsQueue() == Remove(old(AsQueue()), {message.queueId}).(messages := old(messages))
    {
      ghost var q := AsQueue();
      if message.queueId !in messageOwners {
        UnrecordedInNoLane(q, message);
        return;
      }
      var owner := messageOwners[message.queueId];
      var queue := threadQueues[owner];
      var lane := queue.Lane(message.queueKind);
      assert LaneSound(q, owner, message.queueKind) && RecordedFor(q, message, owner, message.queueKind);
      var it := 0;
      while it < |lane| && lane[it].queueId != message.queueId
        invariant it <= |lane| && message !in lane[..it]
      {
        it := it + 1;
      }
      assert lane[..|lane|] == lane && message in lane;
      DropOne(lane, it);
      OnlyOneLane(q, message, owner);
      threadQueues := threadQueues[owner := queue.WithLane(message.queueKind, lane[..it] + lane[it + 1..])];
      messageOwners := messageOwners - {message.queueId};
    }

    /** One erase inside a scan: the message leaves the global queue, its lane and the record. */
    method EraseAt(at: nat)
      requires Inv(AsQueue()) && at < |messages|
      modifies this
      ensures AsQueue() == Remove(old(AsQueue()), {old(messages)[at].queueId})
      ensures messages == old(messages)[..at] + old(messages)[at + 1..]
      ensures Inv(AsQueue())
    {
      ghost var q := AsQueue();
      DropOne(messages, at);
      RemoveKeepsInv(q, {messages[at].queueId});
      RemoveFromOwnerQueue(messages[at]);
      messages := messages[..at] + messages[at + 1..];
    }

    method TakeIf(p: Message -> bool) returns (selected: seq<Message>)
      requires Inv(AsQueue())
      modifies this
      ensures AsQueue() == Remove(old(AsQueue()), MatchIds(old(messages), p))
      ensures selected == Select(old(messages), p, true)
    {
      selected := [];
      ghost var q := AsQueue();
      ghost var done := 0;
      var it := 0;
      ScanStart(q, p);
      while it < |messages|
        invariant ScanAt(q, AsQueue(), done, it, p)
        invariant selected == Select(q.messages[..done], p, true)
        decreases |q.messages| - done
      {
        ScanForward(q, AsQueue(), done, it, p);
        if p(messages[it]) {
          selected := selected + [messages[it]];
          EraseAt(it);
        } else {
          it := it + 1;
        }
        done := done + 1;
      }
      ScanEnd(q, AsQueue(), done, it, p);
    }

    method EraseIf(p: Message -> bool) returns (count: nat)
      requires Inv(AsQueue())
      modifies this
      ensures AsQueue() == Remove(old(AsQueue()), MatchIds(old(messages), p))
      ensures count == |Select(old(messages), p, true)|
    {
      ghost var q := AsQueue();
      ghost var done := 0;
      var oldSize := |messages|;
      var it := 0;
      ScanStart(q, p);
      while it < |messages|
        invariant ScanAt(q, AsQueue(), done, it, p)
        decreases |q.messages| - done
      {
        ghost var before := AsQueue();
        ScanForward(q, before, done, it, p);
        var m := messages[it];
        if p(m) {
          EraseAt(it);
          assert AsQueue() == Remove(before, {m.queueId});
        } else {
          it := it + 1;
        }
        done := done + 1;
      }
      ScanEnd(q, AsQueue(), done, it, p);
      count := oldSize - |messages|;
    }

    method EraseReverseIf(p: Message -> bool) returns (erased: nat)
      requires Inv(AsQueue())
      modifies this
      ensures AsQueue() == Remove(old(AsQueue()), MatchIds(old(messages), p))
      ensures erased == |Select(old(messages), p, true)|
    {
      ghost var q := AsQueue();
      erased := 0;
      var it: nat := |messages|;
      ReverseStart(q, p);
      while it > 0
        invariant ReverseAt(q, AsQueue(), it, p)
        invariant erased == |Select(q.messages[it..], p, true)|
      {
        ghost var before := AsQueue();
        ScanBackward(q, before, it - 1, p);
        it := it - 1;
        var m := messages[it];
        if p(m) {
          EraseAt(it);
          assert AsQueue() == Remove(before, {m.queueId});
          erased := erased + 1;
        }
      }
      assert q.messages[0..] == q.messages;
    }

    method FirstMatchingForOwner(ownerThread: uint32, p: Message -> bool, remove: bool) returns (found: Option<Message>)
      requires Inv(AsQueue())
      modifies this
      ensures found.None? ==> AsQueue() == old(AsQueue()) && forall m | m in old(messages) :: !Wanted(old(AsQueue()), ownerThread, p, m)
      ensures found.Some? ==>
                exists i ::
                  && 0 <= i < |old(messages)| && found.value == old(messages)[i]
                  && Wanted(old(AsQueue()), ownerThread, p, found.value)
                  && (forall j | 0 <= j < i :: !Wanted(old(AsQueue()), ownerThread, p, old(messages)[j]))
      ensures found.Some? ==>
                AsQueue() == if remove then Remove(old(AsQueue()), {found.value.queueId}) else old(AsQueue())
    {
      var it := 0;
      while it < |messages|
        invariant it <= |messages| && AsQueue() == old(AsQueue())
        invariant forall j | 0 <= j < it :: !Wanted(AsQueue(), ownerThread, p, messages[j])
      {
        if (ownerThread == 0 || OwnerForMessage(AsQueue(), messages[it]) == ownerThread) && p(messages[it]) {
          var message := messages[it];
          if remove {
            EraseAt(it);
          }
          return Some(message);
        }
        it := it + 1;
      }
      return None;
    }

    method MessageCountForOwner(ownerThread: uint32) returns (count: nat)
      ensures count == CountForOwner(AsQueue(), ownerThread)
    {
      if ownerThread !in threadQueues {
        return 0;
      }
      var queue := threadQueues[ownerThread];
      return |queue.posted| + |queue.sent| + |queue.input| + |queue.timers| + |queue.thread|;
    }

    method OldestPendingOwner() returns (owner: Option<uint32>)
      ensures owner == OldestOwner(AsQueue(), messages)
      ensures owner.None? ==> forall m | m in messages :: OwnerForMessage(AsQueue(), m) == 0
      ensures owner.Some? ==> IsOldestOwner(AsQueue(), messages, owner.value)
    {
      var it := 0;
      while it < |messages|
        invariant it <= |messages|
        invariant OldestOwner(AsQueue(), messages) == OldestOwner(AsQueue(), messages[it..])
        invariant forall j | 0 <= j < it :: OwnerForMessage(AsQueue(), messages[j]) == 0
      {
        var ownerThread := OwnerForMessage(AsQueue(), messages[it]);
        if ownerThread != 0 {
          return Some(ownerThread);
        }
        it := it + 1;
      }
      return None;
    }
  }

  function Registered(q: Queue, hwnd: uint32, owner: uint32): Queue {
    if hwnd == 0 then q
    else EnsureThreadQueue(q, owner).(windowOwners := q.windowOwners[hwnd := owner])
  }

  function CountForOwner(q: Queue, owner: uint32): nat {
    if owner in q.threadQueues then q.threadQueues[owner].Count() else 0
  }

  function OldestOwner(q: Queue, ms: seq<Message>): Option<uint32> {
    if ms == [] then None
    else if OwnerForMessage(q, ms[0]) != 0 then Some(OwnerForMessage(q, ms[0]))
    else OldestOwner(q, ms[1..])
  }

  /** The first message that has an owner is this thread's. */
  ghost predicate IsOldestOwner(q: Queue, ms: seq<Message>, owner: uint32) {
    owner != 0 && exists i :: 0 <= i < |ms| && OwnerForMessage(q, ms[i]) == owner &&
                              forall j | 0 <= j < i :: OwnerForMessage(q, ms[j]) == 0
  }

  // ---- How far a scan over the queue has come ----

  /** A forward scan has looked at the first `done` messages and stands at position `it` of what is left. */
  ghost predicate ScanAt(q: Queue, cur: Queue, done: nat, it: nat, p: Message -> bool) {
    && Inv(q) && Inv(cur) && done <= |q.messages| && it <= |cur.messages|
    && cur.messages[it..] == q.messages[done..]
    && cur == Remove(q, MatchIds(q.messages[..done], p))
  }

  lemma ScanStart(q: Queue, p: Message -> bool)
    requires Inv(q)
    ensures ScanAt(q, q, 0, 0, p) && Select(q.messages[..0], p, true) == []
  {
    RemoveNothing(q);
    SelectEmpty(p);
    assert q.messages[..0] == [];
  }

  lemma ScanForward(q: Queue, cur: Queue, done: nat, it: nat, p: Message -> bool)
    requires ScanAt(q, cur, done, it, p) && it < |cur.messages|
    ensures done < |q.messages|
    ensures var m := cur.messages[it];
            && (p(m) ==> ScanAt(q, Remove(cur, {m.queueId}), done + 1, it, p))
            && (!p(m) ==> ScanAt(q, cur, done + 1, it + 1, p))
            && Select(q.messages[..done + 1], p, true) == Select(q.messages[..done], p, true) + (if p(m) then [m] else [])
  {
    var m := cur.messages[it];
    assert m == cur.messages[it..][0] == q.messages[done..][0] == q.messages[done];
    assert cur.messages[it + 1..] == cur.messages[it..][1..] == q.messages[done..][1..] == q.messages[done + 1..];
    assert q.messages[..done + 1] == q.messages[..done] + [m];
    MatchOneMore(q.messages[..done], m, p);
    if p(m) {
      RemoveTwice(q, MatchIds(q.messages[..done], p), {m.queueId});
      RemoveKeepsInv(cur, {m.queueId});
      DropOne(cur.messages, it);
      var left := Remove(cur, {m.queueId}).messages;
      assert left[it..] == cur.messages[it + 1..];
    } else {
      assert MatchIds(q.messages[..done], p) + {} == MatchIds(q.messages[..done], p);
    }
  }

  lemma ScanEnd(q: Queue, cur: Queue, done: nat, it: nat, p: Message -> bool)
    requires ScanAt(q, cur, done, it, p) && it == |cur.messages|
    ensures cur == Remove(q, MatchIds(q.messages, p)) && q.messages[..done] == q.messages
    ensures |q.messages| - |cur.messages| == |Select(q.messages, p, true)|
  {
    assert |cur.messages[it..]| == 0 == |q.messages[done..]|;
    assert q.messages[..done] == q.messages;
    RemoveMatchingFilters(q.messages, p);
    SelectSplits(q.messages, p);
  }

  /** A backward scan has looked at everything from `it` on. */
  ghost predicate ReverseAt(q: Queue, cur: Queue, it: nat, p: Message -> bool) {
    && Inv(q) && Inv(cur) && it <= |q.messages| && it <= |cur.messages|
    && cur.messages[..it] == q.messages[..it]
    && cur == Remove(q, MatchIds(q.messages[it..], p))
  }

  lemma ReverseStart(q: Queue, p: Message -> bool)
    requires Inv(q)
    ensures ReverseAt(q, q, |q.messages|, p) && Select(q.messages[|q.messages|..], p, true) == []
  {
    RemoveNothing(q);
    SelectEmpty(p);
    assert q.messages[|q.messages|..] == [];
  }

  lemma SamePrefix(a: seq<Message>, b: seq<Message>, at: nat)
    requires at < |a| && at < |b| && a[..at + 1] == b[..at + 1]
    ensures a[at] == b[at] && a[..at] == b[..at]
  {
    assert a[at] == a[..at + 1][at] == b[..at + 1][at] == b[at];
    assert a[..at] == a[..at + 1][..at] == b[..at + 1][..at] == b[..at];
  }

  lemma MatchOneEarlier(ms: seq<Message>, at: nat, p: Message -> bool)
    requires at < |ms|
    ensures MatchIds(ms[at..], p) == MatchIds(ms[at + 1..], p) + (if p(ms[at]) then {ms[at].queueId} else {})
    ensures |Select(ms[at..], p, true)| == |Select(ms[at + 1..], p, true)| + (if p(ms[at]) then 1 else 0)
  {
    assert ms[at..] == [ms[at]] + ms[at + 1..];
    SelectConcat([ms[at]], ms[at + 1..], p, true);
    assert Select([ms[at]], p, true) == if p(ms[at]) then [ms[at]] else [];
  }

  lemma ScanBackward(q: Queue, cur: Queue, at: nat, p: Message -> bool)
    requires ReverseAt(q, cur, at + 1, p)
    ensures at < |cur.messages|
    ensures var m := cur.messages[at];
            && (p(m) ==> ReverseAt(q, Remove(cur, {m.queueId}), at, p))
            && (!p(m) ==> ReverseAt(q, cur, at, p))
            && |Select(q.messages[at..], p, true)| == |Select(q.messages[at + 1..], p, true)| + (if p(m) then 1 else 0)
  {
    var m := cur.messages[at];
    SamePrefix(q.messages, cur.messages, at);
    MatchOneEarlier(q.messages, at, p);
    var later := MatchIds(q.messages[at + 1..], p);
    if p(m) {
      RemoveTwice(q, later, {m.queueId});
      RemoveKeepsInv(cur, {m.queueId});
      DropOne(cur.messages, at);
      assert Remove(cur, {m.queueId}).messages[..at] == cur.messages[..at];
    } else {
      assert later + {} == later;
    }
  }

  // ---- Facts about removal ----

  lemma {:induction false} WithoutIn(ms: seq<Message>, ids: set<nat>)
    ensures forall m :: m in Without(ms, ids) <==> m in ms && m.queueId !in ids
    ensures Distinct(ms) ==> Distinct(Without(ms, ids))
  {
    if ms == [] {
    } else {
      var front, last := ms[..|ms| - 1], ms[|ms| - 1];
      WithoutIn(front, ids);
      assert ms == front + [last];
      if Distinct(ms) {
        forall m | m in Without(front, ids) ensures m.queueId != last.queueId {}
      }
    }
  }

  lemma {:induction false} WithoutConcat(a: seq<Message>, b: seq<Message>, ids: set<nat>)
    ensures Without(a + b, ids) == Without(a, ids) + Without(b, ids)
  {
    if b == [] {
      assert a + b == a;
    } else {
      WithoutConcat(a, b[..|b| - 1], ids);
      assert (a + b)[..|a + b| - 1] == a + b[..|b| - 1];
    }
  }

  lemma {:induction false} WithoutAbsent(ms: seq<Message>, ids: set<nat>)
    requires forall m | m in ms :: m.queueId !in ids
    ensures Without(ms, ids) == ms
  {
    if ms == [] {
    } else {
      assert ms == ms[..|ms| - 1] + [ms[|ms| - 1]];
      WithoutAbsent(ms[..|ms| - 1], ids);
    }
  }

  lemma {:induction false} WithoutTwice(ms: seq<Message>, a: set<nat>, b: set<nat>)
    ensures Without(Without(ms, a), b) == Without(ms, a + b)
  {
    if ms == [] {
    } else {
      var front, last := ms[..|ms| - 1], ms[|ms| - 1];
      WithoutTwice(front, a, b);
      WithoutConcat(Without(front, a), if last.queueId in a then [] else [last], b);
      assert Without([last], b) == if last.queueId in b then [] else [last];
    }
  }

  lemma SplitDistinct(ms: seq<Message>, at: nat)
    requires at < |ms| && Distinct(ms)
    ensures ms == ms[..at] + ([ms[at]] + ms[at + 1..])
    ensures forall m | m in ms[..at] || m in ms[at + 1..] :: m.queueId != ms[at].queueId
  {
    forall m | m in ms[at + 1..] ensures m.queueId != ms[at].queueId {
      var k :| 0 <= k < |ms[at + 1..]| && ms[at + 1..][k] == m;
      assert ms[at + 1 + k] == m;
    }
  }

  lemma DropOne(ms: seq<Message>, at: nat)
    requires at < |ms| && Distinct(ms)
    ensures Without(ms, {ms[at].queueId}) == ms[..at] + ms[at + 1..]
  {
    var front, m, back := ms[..at], ms[at], ms[at + 1..];
    SplitDistinct(ms, at);
    DropMiddle(front, m, back);
  }

  lemma DropMiddle(front: seq<Message>, m: Message, back: seq<Message>)
    requires forall e | e in front || e in back :: e.queueId != m.queueId
    ensures Without(front + ([m] + back), {m.queueId}) == front + back
  {
    WithoutConcat(front, [m] + back, {m.queueId});
    WithoutConcat([m], back, {m.queueId});
    WithoutAbsent(front, {m.queueId});
    WithoutAbsent(back, {m.queueId});
    WithoutItself(m);
    assert [] + back == back;
  }

  lemma WithoutItself(m: Message)
    ensures Without([m], {m.queueId}) == []
  {
  }

  lemma LanesWithoutLane(tq: ThreadQueue, ids: set<nat>, kind: Kind)
    ensures LanesWithout(tq, ids).Lane(kind) == Without(tq.Lane(kind), ids)
  {
  }

  lemma RemoveNothing(q: Queue)
    ensures Remove(q, {}) == q
  {
    WithoutAbsent(q.messages, {});
    forall o | o in q.threadQueues ensures LanesWithout(q.threadQueues[o], {}) == q.threadQueues[o] {
      LanesUntouched(q.threadQueues[o], {});
    }
  }

  lemma LanesUntouched(tq: ThreadQueue, ids: set<nat>)
    requires forall kind: Kind, m | m in tq.Lane(kind) :: m.queueId !in ids
    ensures LanesWithout(tq, ids) == tq
  {
    assert tq.posted == tq.Lane(Posted) && tq.sent == tq.Lane(Sent) && tq.input == tq.Lane(Input);
    assert tq.timers == tq.Lane(Timer) && tq.thread == tq.Lane(Thread);
    WithoutAbsent(tq.posted, ids);
    WithoutAbsent(tq.sent, ids);
    WithoutAbsent(tq.input, ids);
    WithoutAbsent(tq.timers, ids);
    WithoutAbsent(tq.thread, ids);
  }

  lemma RemoveTwice(q: Queue, a: set<nat>, b: set<nat>)
    ensures Remove(Remove(q, a), b) == Remove(q, a + b)
  {
    WithoutTwice(q.messages, a, b);
    forall o | o in q.threadQueues
      ensures LanesWithout(LanesWithout(q.threadQueues[o], a), b) == LanesWithout(q.threadQueues[o], a + b)
    {
      LanesTwice(q.threadQueues[o], a, b);
    }
    assert q.owners - a - b == q.owners - (a + b);
  }

  lemma LanesTwice(tq: ThreadQueue, a: set<nat>, b: set<nat>)
    ensures LanesWithout(LanesWithout(tq, a), b) == LanesWithout(tq, a + b)
  {
    WithoutTwice(tq.posted, a, b);
    WithoutTwice(tq.sent, a, b);
    WithoutTwice(tq.input, a, b);
    WithoutTwice(tq.timers, a, b);
    WithoutTwice(tq.thread, a, b);
  }

  lemma UnrecordedInNoLane(q: Queue, m: Message)
    requires Inv(q) && m in q.messages && m.queueId !in q.owners
    ensures Remove(q, {m.queueId}).(messages := q.messages) == q
  {
    forall o | o in q.threadQueues ensures LanesWithout(q.threadQueues[o], {m.queueId}) == q.threadQueues[o] {
      forall kind: Kind, e | e in q.threadQueues[o].Lane(kind) ensures e.queueId != m.queueId {
        assert LaneSound(q, o, kind) && RecordedFor(q, e, o, kind);
      }
      LanesUntouched(q.threadQueues[o], {m.queueId});
    }
    assert q.owners - {m.queueId} == q.owners;
  }

  /** A recorded message is in its own lane only. */
  lemma OnlyOneLane(q: Queue, m: Message, owner: uint32)
    requires Inv(q) && m in q.messages && m.queueId in q.owners && q.owners[m.queueId] == owner
    ensures owner in q.threadQueues
    ensures var tq := q.threadQueues[owner];
            Remove(q, {m.queueId}).threadQueues ==
            q.threadQueues[owner := tq.WithLane(m.queueKind, Without(tq.Lane(m.queueKind), {m.queueId}))]
  {
    OwnLanes(q, m, owner);
    forall o | o in q.threadQueues && o != owner ensures LanesWithout(q.threadQueues[o], {m.queueId}) == q.threadQueues[o] {
      OtherLanes(q, m, owner, o);
    }
    OneQueueChanges(q, {m.queueId}, owner);
  }

  lemma OneQueueChanges(q: Queue, ids: set<nat>, owner: uint32)
    requires owner in q.threadQueues
    requires forall o | o in q.threadQueues && o != owner :: LanesWithout(q.threadQueues[o], ids) == q.threadQueues[o]
    ensures Remove(q, ids).threadQueues == q.threadQueues[owner := LanesWithout(q.threadQueues[owner], ids)]
  {
  }

  lemma OwnLanes(q: Queue, m: Message, owner: uint32)
    requires Inv(q) && m in q.messages && m.queueId in q.owners && q.owners[m.queueId] == owner
    ensures var tq := q.threadQueues[owner];
            LanesWithout(tq, {m.queueId}) == tq.WithLane(m.queueKind, Without(tq.Lane(m.queueKind), {m.queueId}))
  {
    var tq := q.threadQueues[owner];
    var r := tq.WithLane(m.queueKind, Without(tq.Lane(m.queueKind), {m.queueId}));
    forall kind: Kind | kind != m.queueKind ensures Without(tq.Lane(kind), {m.queueId}) == tq.Lane(kind) {
      OtherLane(q, m, owner, owner, kind);
    }
    LanesEqual(LanesWithout(tq, {m.queueId}), r, tq, {m.queueId});
  }

  lemma OtherLane(q: Queue, m: Message, owner: uint32, o: uint32, kind: Kind)
    requires Inv(q) && m in q.messages && m.queueId in q.owners && q.owners[m.queueId] == owner
    requires o in q.threadQueues && (kind != m.queueKind || o != owner)
    ensures Without(q.threadQueues[o].Lane(kind), {m.queueId}) == q.threadQueues[o].Lane(kind)
  {
    assert LaneSound(q, o, kind);
    forall e | e in q.threadQueues[o].Lane(kind) ensures e.queueId != m.queueId {
      assert RecordedFor(q, e, o, kind);
    }
    WithoutAbsent(q.threadQueues[o].Lane(kind), {m.queueId});
  }

  lemma OtherLanes(q: Queue, m: Message, owner: uint32, o: uint32)
    requires Inv(q) && m in q.messages && m.queueId in q.owners && q.owners[m.queueId] == owner
    requires o in q.threadQueues && o != owner
    ensures LanesWithout(q.threadQueues[o], {m.queueId}) == q.threadQueues[o]
  {
    var tq := q.threadQueues[o];
    forall kind: Kind ensures Without(tq.Lane(kind), {m.queueId}) == tq.Lane(kind) {
      OtherLane(q, m, owner, o, kind);
    }
    LanesEqual(LanesWithout(tq, {m.queueId}), tq, tq, {m.queueId});
  }

  lemma LanesEqual(a: ThreadQueue, b: ThreadQueue, base: ThreadQueue, ids: set<nat>)
    requires a == LanesWithout(base, ids)
    requires forall kind: Kind :: Without(base.Lane(kind), ids) == b.Lane(kind)
    ensures a == b
  {
    assert a.posted == b.Lane(Posted) && a.sent == b.Lane(Sent) && a.input == b.Lane(Input);
    assert a.timers == b.Lane(Timer) && a.thread == b.Lane(Thread);
  }

  lemma MatchOneMore(ms: seq<Message>, m: Message, p: Message -> bool)
    ensures MatchIds(ms + [m], p) == MatchIds(ms, p) + (if p(m) then {m.queueId} else {})
    ensures Select(ms + [m], p, true) == Select(ms, p, true) + (if p(m) then [m] else [])
  {
    assert (ms + [m])[..|ms|] == ms;
  }

  lemma SelectEmpty(p: Message -> bool)
    ensures Select([], p, true) == [] && MatchIds([], p) == {}
  {
  }

  lemma {:induction false} SelectConcat(a: seq<Message>, b: seq<Message>, p: Message -> bool, value: bool)
    ensures Select(a + b, p, value) == Select(a, p, value) + Select(b, p, value)
  {
    if b == [] {
      assert a + b == a;
    } else {
      SelectConcat(a, b[..|b| - 1], p, value);
      assert (a + b)[..|a + b| - 1] == a + b[..|b| - 1];
    }
  }

  lemma {:induction false} SelectSplits(ms: seq<Message>, p: Message -> bool)
    ensures |Select(ms, p, true)| + |Select(ms, p, false)| == |ms|
    ensures multiset(Select(ms, p, true)) + multiset(Select(ms, p, false)) == multiset(ms)
  {
    if ms == [] {
    } else {
      var front, m := ms[..|ms| - 1], ms[|ms| - 1];
      SelectSplits(front, p);
      assert multiset(ms) == multiset(front) + multiset{m} by {
        assert ms == front + [m];
      }
    }
  }

  /** Removing the matching ids keeps exactly the messages that do not match, in order. */
  lemma RemoveMatchingFilters(ms: seq<Message>, p: Message -> bool)
    requires Distinct(ms)
    ensures Without(ms, MatchIds(ms, p)) == Select(ms, p, false)
  {
    WithoutIsSelect(ms, p, MatchIds(ms, p));
  }

  lemma {:induction false} WithoutIsSelect(ms: seq<Message>, p: Message -> bool, ids: set<nat>)
    requires forall m | m in ms :: m.queueId in ids <==> p(m)
    ensures Without(ms, ids) == Select(ms, p, false)
  {
    if ms == [] {
    } else {
      assert ms == ms[..|ms| - 1] + [ms[|ms| - 1]];
      WithoutIsSelect(ms[..|ms| - 1], p, ids);
    }
  }

  // ---- Every operation keeps the index ----

  lemma RemoveKeepsInv(q: Queue, ids: set<nat>)
    requires Inv(q)
    ensures Inv(Remove(q, ids))
  {
    var r := Remove(q, ids);
    WithoutIn(q.messages, ids);
    forall id | id in r.owners ensures id in Ids(r.messages) {
      assert id in Ids(q.messages);
      var m :| m in q.messages && m.queueId == id;
      assert m in r.messages;
    }
    forall o, kind | o in r.threadQueues ensures LaneSound(r, o, kind) {
      assert LaneSound(q, o, kind);
      var lane := q.threadQueues[o].Lane(kind);
      LanesWithoutLane(q.threadQueues[o], ids, kind);
      WithoutIn(lane, ids);
      forall m ensures m in Without(lane, ids) <==> RecordedFor(r, m, o, kind) {
        assert m in lane <==> RecordedFor(q, m, o, kind);
      }
    }
  }

  lemma PreparedOwner(q: Queue, m: Message, kind: Kind, owner: uint32)
    requires Inv(q) && (m.queueId == 0 || m.queueId !in Ids(q.messages))
    ensures var id := QueuedForm(q, m, kind).queueId; var r := Prepared(q, m, kind, owner);
            && id !in q.owners
            && (r.owners == q.owners ||
                (id in r.owners && r.owners[id] != 0 && r.owners == q.owners[id := r.owners[id]]))
  {
    assert q.nextId !in Ids(q.messages);
  }

  /**
   * A post keeps the index exactly when the message is new, or carries an id
   * handed out before that is no longer queued.
   */
  lemma PostKeepsInvIff(q: Queue, m: Message, kind: Kind, owner: uint32, at: nat)
    requires Inv(q) && at <= |q.messages|
    ensures Inv(PostAt(q, m, kind, owner, at)) <==>
            m.queueId == 0 || (m.queueId < q.nextId && m.queueId !in Ids(q.messages))
  {
    var r := PostAt(q, m, kind, owner, at);
    var queued := QueuedForm(q, m, kind);
    assert queued == r.messages[at];
    if m.queueId == 0 || (m.queueId < q.nextId && m.queueId !in Ids(q.messages)) {
      PostKeepsInv(q, m, kind, owner, at);
    } else if m.queueId in Ids(q.messages) {
      var i :| 0 <= i < |q.messages| && q.messages[i].queueId == m.queueId;
      var j := if i < at then i else i + 1;
      assert r.messages[j] == q.messages[i] && r.messages[at].queueId == q.messages[i].queueId;
      var lo, hi := Min(at, j), Max(at, j);
      assert r.messages[lo].queueId == r.messages[hi].queueId;
    } else {
      assert queued in r.messages && r.nextId == q.nextId;
    }
  }

  lemma InsertKeepsDistinct(ms: seq<Message>, at: nat, m: Message)
    requires at <= |ms| && Distinct(ms) && m.queueId !in Ids(ms)
    ensures var r := ms[..at] + [m] + ms[at..];
            Distinct(r) && forall e :: e in r <==> e in ms || e == m
  {
    var r := ms[..at] + [m] + ms[at..];
    assert ms == ms[..at] + ms[at..];
    forall i, j | 0 <= i < j < |r| ensures r[i].queueId != r[j].queueId {
      var i', j' := if i < at then i else i - 1, if j < at then j else j - 1;
      if i != at { assert r[i] == ms[i'] && ms[i'] in ms; }
      if j != at { assert r[j] == ms[j'] && ms[j'] in ms; }
    }
  }

  lemma PostKeepsInv(q: Queue, m: Message, kind: Kind, owner: uint32, at: nat)
    requires Inv(q) && at <= |q.messages|
    requires m.queueId == 0 || (m.queueId < q.nextId && m.queueId !in Ids(q.messages))
    ensures Inv(PostAt(q, m, kind, owner, at))
  {
    var r := PostAt(q, m, kind, owner, at);
    var queued := QueuedForm(q, m, kind);
    PreparedOwner(q, m, kind, owner);
    assert q.nextId !in Ids(q.messages);
    InsertKeepsDistinct(q.messages, at, queued);
    PostedOwners(q, m, kind, owner, at);
    forall o, k | o in r.threadQueues ensures LaneSound(r, o, k) {
      PostedShape(q, m, kind, owner, at, o, k);
      PostedLane(q, r, queued, o, k);
    }
  }

  lemma PostedOwners(q: Queue, m: Message, kind: Kind, owner: uint32, at: nat)
    requires Inv(q) && at <= |q.messages|
    requires m.queueId == 0 || m.queueId !in Ids(q.messages)
    ensures var r := PostAt(q, m, kind, owner, at);
            forall id | id in r.owners :: id in Ids(r.messages) && r.owners[id] != 0 && r.owners[id] in r.threadQueues
  {
    var r := PostAt(q, m, kind, owner, at);
    var queued := QueuedForm(q, m, kind);
    PreparedOwner(q, m, kind, owner);
    assert q.messages == q.messages[..at] + q.messages[at..];
    assert r.messages[at] == queued;
    forall id | id in r.owners ensures id in Ids(r.messages) {
      if id in q.owners {
        var e :| e in q.messages && e.queueId == id;
        assert e in r.messages;
      }
    }
  }

  /** A post touches one lane, at its end. */
  lemma PostedShape(q: Queue, m: Message, kind: Kind, owner: uint32, at: nat, o: uint32, k: Kind)
    requires at <= |q.messages| && o in PostAt(q, m, kind, owner, at).threadQueues
    requires forall id | id in q.owners :: q.owners[id] != 0
    ensures var r := PostAt(q, m, kind, owner, at); var queued := QueuedForm(q, m, kind);
            var mine := queued.queueId in r.owners && r.owners[queued.queueId] == o && queued.queueKind == k;
            r.threadQueues[o].Lane(k) ==
            (if o in q.threadQueues then q.threadQueues[o].Lane(k) else []) + (if mine then [queued] else [])
  {
  }

  lemma PostedLane(q: Queue, r: Queue, queued: Message, o: uint32, k: Kind)
    requires Inv(q) && o in r.threadQueues
    requires queued.queueId !in Ids(q.messages) && queued.queueId !in q.owners
    requires forall e :: e in r.messages <==> e in q.messages || e == queued
    requires r.owners == q.owners ||
             (queued.queueId in r.owners && r.owners == q.owners[queued.queueId := r.owners[queued.queueId]])
    requires var mine := queued.queueId in r.owners && r.owners[queued.queueId] == o && queued.queueKind == k;
             r.threadQueues[o].Lane(k) ==
             (if o in q.threadQueues then q.threadQueues[o].Lane(k) else []) + (if mine then [queued] else [])
    ensures LaneSound(r, o, k)
  {
    var before := if o in q.threadQueues then q.threadQueues[o].Lane(k) else [];
    var lane := r.threadQueues[o].Lane(k);
    forall e ensures e in before <==> RecordedFor(q, e, o, k) {
      if o in q.threadQueues {
        assert LaneSound(q, o, k);
      }
    }
    forall e | e in before ensures e.queueId != queued.queueId {
      assert RecordedFor(q, e, o, k) && e.queueId in Ids(q.messages);
    }
    forall e ensures e in lane <==> RecordedFor(r, e, o, k) {
      assert e in before <==> RecordedFor(q, e, o, k);
      assert e in q.messages ==> e.queueId in Ids(q.messages);
    }
    assert o in q.threadQueues ==> LaneSound(q, o, k);
  }

  lemma RegisterKeepsInv(q: Queue, hwnd: uint32, owner: uint32)
    requires Inv(q)
    ensures Inv(Registered(q, hwnd, owner))
  {
    var r := Registered(q, hwnd, owner);
    forall o, k | o in r.threadQueues ensures LaneSound(r, o, k) {
      if o in q.threadQueues {
        assert LaneSound(q, o, k);
        forall m ensures RecordedFor(r, m, o, k) <==> RecordedFor(q, m, o, k) {}
      }
    }
  }

  // ---- Any sequence of operations ----

  datatype Action =
    | Post(m: Message, kind: Kind, owner: uint32, at: nat)
    | Erase(ids: set<nat>)
    | Register(hwnd: uint32, thread: uint32)
    | Unregister(window: uint32)

  /** Re-posting a message that is still queued is the one thing a caller must not do. */
  predicate Allowed(q: Queue, a: Action) {
    a.Post? ==>
      a.at <= |q.messages| && (a.m.queueId == 0 || (a.m.queueId < q.nextId && a.m.queueId !in Ids(q.messages)))
  }

  function Step(q: Queue, a: Action): Queue
    requires Allowed(q, a)
  {
    match a
    case Post(m, kind, owner, at) => PostAt(q, m, kind, owner, at)
    case Erase(ids) => Remove(q, ids)
    case Register(hwnd, thread) => Registered(q, hwnd, thread)
    case Unregister(window) => q.(windowOwners := q.windowOwners - {window})
  }

  predicate AllAllowed(q: Queue, actions: seq<Action>)
    decreases |actions|
  {
    actions == [] || (Allowed(q, actions[0]) && AllAllowed(Step(q, actions[0]), actions[1..]))
  }

  function Run(q: Queue, actions: seq<Action>): Queue
    requires AllAllowed(q, actions)
    decreases |actions|
  {
    if actions == [] then q else Run(Step(q, actions[0]), actions[1..])
  }

  lemma {:induction false} RunKeepsInv(q: Queue, actions: seq<Action>)
    requires Inv(q) && AllAllowed(q, actions)
    ensures Inv(Run(q, actions))
    decreases |actions|
  {
    if actions == [] {
    } else {
      var a := actions[0];
      match a {
        case Post(m, kind, owner, at) => PostKeepsInv(q, m, kind, owner, at);
        case Erase(ids) => RemoveKeepsInv(q, ids);
        case Register(hwnd, thread) => RegisterKeepsInv(q, hwnd, thread);
        case Unregister(window) =>
          forall o, k | o in q.threadQueues ensures LaneSound(Step(q, a), o, k) {
            assert LaneSound(q, o, k);
            forall m ensures RecordedFor(Step(q, a), m, o, k) <==> RecordedFor(q, m, o, k) {}
          }
      }
      RunKeepsInv(Step(q, a), actions[1..]);
    }
  }

  // ---- What the index gives its readers ----

  function Recorded(q: Queue, ms: seq<Message>, owner: uint32, kind: Kind): seq<Message> {
    if ms == [] then []
    else
      var m := ms[|ms| - 1];
      Recorded(q, ms[..|ms| - 1], owner, kind) +
      (if m.queueId in q.owners && q.owners[m.queueId] == owner && m.queueKind == kind then [m] else [])
  }

  lemma {:induction false} RecordedIn(q: Queue, ms: seq<Message>, owner: uint32, kind: Kind)
    ensures forall m :: m in Recorded(q, ms, owner, kind) <==>
                        m in ms && m.queueId in q.owners && q.owners[m.queueId] == owner && m.queueKind == kind
    ensures Distinct(ms) ==> Distinct(Recorded(q, ms, owner, kind))
  {
    if ms == [] {
    } else {
      var front, last := ms[..|ms| - 1], ms[|ms| - 1];
      RecordedIn(q, front, owner, kind);
      assert ms == front + [last];
      if Distinct(ms) {
        forall m | m in Recorded(q, front, owner, kind) ensures m.queueId != last.queueId {}
      }
    }
  }

  lemma HasMember(ms: seq<Message>)
    requires ms != []
    ensures exists m :: m in ms
  {
    assert ms[0] in ms;
  }

  lemma DropOneMultiset(ms: seq<Message>, at: nat)
    requires at < |ms| && Distinct(ms)
    ensures var rest := Without(ms, {ms[at].queueId});
            && multiset(ms) == multiset(rest) + multiset{ms[at]} && |rest| == |ms| - 1 && Distinct(rest)
            && forall m :: m in rest <==> m in ms && m.queueId != ms[at].queueId
  {
    DropOne(ms, at);
    WithoutIn(ms, {ms[at].queueId});
    MultisetSplit(ms, at);
  }

  lemma MultisetSplit(ms: seq<Message>, at: nat)
    requires at < |ms|
    ensures multiset(ms) == multiset(ms[..at] + ms[at + 1..]) + multiset{ms[at]}
  {
    assert ms == ms[..at] + [ms[at]] + ms[at + 1..];
  }

  lemma {:induction false} SameElementsSameMultiset(a: seq<Message>, b: seq<Message>)
    requires Distinct(a) && Distinct(b) && forall m :: m in a <==> m in b
    ensures multiset(a) == multiset(b) && |a| == |b|
    decreases |a|
  {
    if a == [] {
      if b != [] {
        HasMember(b);
      }
    } else {
      var m := a[0];
      assert m in b;
      var i :| 0 <= i < |b| && b[i] == m;
      DropOneMultiset(a, 0);
      DropOneMultiset(b, i);
      SameElementsSameMultiset(Without(a, {m.queueId}), Without(b, {m.queueId}));
    }
  }

  /** Every lane is, as a multiset, exactly the queued messages recorded for its owner and kind. */
  lemma LaneIsIndex(q: Queue, owner: uint32, kind: Kind)
    requires Inv(q) && owner in q.threadQueues
    ensures multiset(q.threadQueues[owner].Lane(kind)) == multiset(Recorded(q, q.messages, owner, kind))
    ensures |q.threadQueues[owner].Lane(kind)| == |Recorded(q, q.messages, owner, kind)|
  {
    assert LaneSound(q, owner, kind);
    RecordedIn(q, q.messages, owner, kind);
    forall m ensures m in q.threadQueues[owner].Lane(kind) <==> m in Recorded(q, q.messages, owner, kind) {
      assert m in q.threadQueues[owner].Lane(kind) <==> RecordedFor(q, m, owner, kind);
    }
    SameElementsSameMultiset(q.threadQueues[owner].Lane(kind), Recorded(q, q.messages, owner, kind));
  }

  predicate OwnedBy(q: Queue, m: Message, owner: uint32) {
    m.queueId in q.owners && q.owners[m.queueId] == owner
  }

  function OwnedCount(q: Queue, ms: seq<Message>, owner: uint32): nat {
    if ms == [] then 0
    else OwnedCount(q, ms[..|ms| - 1], owner) + (if OwnedBy(q, ms[|ms| - 1], owner) then 1 else 0)
  }

  lemma {:induction false} OwnedCountSplits(q: Queue, ms: seq<Message>, owner: uint32)
    ensures OwnedCount(q, ms, owner) ==
            |Recorded(q, ms, owner, Posted)| + |Recorded(q, ms, owner, Sent)| + |Recorded(q, ms, owner, Input)| +
            |Recorded(q, ms, owner, Timer)| + |Recorded(q, ms, owner, Thread)|
  {
    if ms == [] {
    } else {
      OwnedCountSplits(q, ms[..|ms| - 1], owner);
    }
  }

  /** After any allowed run, messageCountForOwner counts the queued messages recorded for the owner. */
  lemma CountIsExact(q: Queue, actions: seq<Action>, owner: uint32)
    requires Inv(q) && AllAllowed(q, actions)
    ensures var r := Run(q, actions); CountForOwner(r, owner) == OwnedCount(r, r.messages, owner)
  {
    RunKeepsInv(q, actions);
    var r := Run(q, actions);
    if owner in r.threadQueues {
      LanesCounted(r, owner);
    } else {
      NobodyOwned(r, r.messages, owner);
    }
  }

  lemma LanesCounted(q: Queue, owner: uint32)
    requires Inv(q) && owner in q.threadQueues
    ensures q.threadQueues[owner].Count() == OwnedCount(q, q.messages, owner)
  {
    forall kind: Kind ensures |q.threadQueues[owner].Lane(kind)| == |Recorded(q, q.messages, owner, kind)| {
      LaneIsIndex(q, owner, kind);
    }
    CountOfLanes(q, owner);
  }

  lemma CountOfLanes(q: Queue, owner: uint32)
    requires owner in q.threadQueues
    requires forall kind: Kind :: |q.threadQueues[owner].Lane(kind)| == |Recorded(q, q.messages, owner, kind)|
    ensures q.threadQueues[owner].Count() == OwnedCount(q, q.messages, owner)
  {
    var tq := q.threadQueues[owner];
    OwnedCountSplits(q, q.messages, owner);
    assert |tq.Lane(Posted)| == |tq.posted| && |tq.Lane(Sent)| == |tq.sent| && |tq.Lane(Input)| == |tq.input|;
    assert |tq.Lane(Timer)| == |tq.timers| && |tq.Lane(Thread)| == |tq.thread|;
  }

  lemma {:induction false} NobodyOwned(q: Queue, ms: seq<Message>, owner: uint32)
    requires forall m | m in ms :: !OwnedBy(q, m, owner)
    ensures OwnedCount(q, ms, owner) == 0
  {
    if ms == [] {
    } else {
      assert ms[|ms| - 1] in ms;
      NobodyOwned(q, ms[..|ms| - 1], owner);
    }
  }

  /** A counted message is queued and recorded for the owner. */
  lemma CountedMessage(q: Queue, owner: uint32) returns (m: Message)
    requires Inv(q) && CountForOwner(q, owner) != 0
    ensures m in q.messages && OwnedBy(q, m, owner)
  {
    var tq := q.threadQueues[owner];
    var kind: Kind := if tq.posted != [] then Posted else if tq.sent != [] then Sent
                      else if tq.input != [] then Input else if tq.timers != [] then Timer else Thread;
    assert LaneSound(q, owner, kind);
    m := tq.Lane(kind)[0];
    assert m in tq.Lane(kind) && RecordedFor(q, m, owner, kind);
  }

  /** A thread that is told it has messages finds one; so does anything it selects by owner alone. */
  lemma HasMessagesFindsOne(q: Queue, owner: uint32)
    requires Inv(q) && CountForOwner(q, owner) != 0
    ensures exists m :: m in q.messages && Wanted(q, owner, _ => true, m)
    ensures OldestOwner(q, q.messages).Some?
  {
    var m := CountedMessage(q, owner);
    assert Wanted(q, owner, _ => true, m);
    OwnerIsFound(q, q.messages, m);
  }

  lemma {:induction false} OwnerIsFound(q: Queue, ms: seq<Message>, m: Message)
    requires m in ms && OwnerForMessage(q, m) != 0
    ensures OldestOwner(q, ms).Some?
  {
    if OwnerForMessage(q, ms[0]) == 0 {
      assert ms == [ms[0]] + ms[1..];
      OwnerIsFound(q, ms[1..], m);
    }
  }

  // ---- Messages keep their order ----

  /** Both are queued, `e` ahead of `f`. */
  ghost predicate Ahead(ms: seq<Message>, e: Message, f: Message) {
    exists i, j :: 0 <= i < j < |ms| && ms[i] == e && ms[j] == f
  }

  lemma {:induction false} WithoutKeepsOrder(ms: seq<Message>, ids: set<nat>, e: Message, f: Message)
    requires Ahead(ms, e, f) && e.queueId !in ids && f.queueId !in ids
    ensures Ahead(Without(ms, ids), e, f)
  {
    var i, j :| 0 <= i < j < |ms| && ms[i] == e && ms[j] == f;
    var front, m := ms[..|ms| - 1], ms[|ms| - 1];
    var rest := Without(front, ids);
    if j < |front| {
      assert front[i] == e && front[j] == f;
      WithoutKeepsOrder(front, ids, e, f);
      var a, b :| 0 <= a < b < |rest| && rest[a] == e && rest[b] == f;
      assert Without(ms, ids)[a] == e && Without(ms, ids)[b] == f;
    } else {
      assert front[i] in front;
      WithoutIn(front, ids);
      var a :| 0 <= a < |rest| && rest[a] == e;
      assert Without(ms, ids)[a] == e && Without(ms, ids)[|rest|] == f;
    }
  }

  lemma InsertKeepsOrder(ms: seq<Message>, at: nat, m: Message, e: Message, f: Message)
    requires at <= |ms| && Ahead(ms, e, f)
    ensures Ahead(ms[..at] + [m] + ms[at..], e, f)
  {
    var r := ms[..at] + [m] + ms[at..];
    var i, j :| 0 <= i < j < |ms| && ms[i] == e && ms[j] == f;
    var i', j' := if i < at then i else i + 1, if j < at then j else j + 1;
    assert r[i'] == e && r[j'] == f;
  }

  /** No step brings a queued message in front of one that is ahead of it. */
  lemma StepKeepsOrder(q: Queue, a: Action, e: Message, f: Message)
    requires Allowed(q, a) && Ahead(q.messages, e, f) && e in Step(q, a).messages && f in Step(q, a).messages
    ensures Ahead(Step(q, a).messages, e, f)
  {
    match a
    case Post(m, kind, owner, at) => InsertKeepsOrder(q.messages, at, QueuedForm(q, m, kind), e, f);
    case Erase(ids) =>
      WithoutIn(q.messages, ids);
      WithoutKeepsOrder(q.messages, ids, e, f);
    case _ =>
  }

  /** Both messages are queued at every point of a run. */
  ghost predicate Stay(q: Queue, actions: seq<Action>, e: Message, f: Message)
    requires AllAllowed(q, actions)
    decreases |actions|
  {
    e in q.messages && f in q.messages && (actions == [] || Stay(Step(q, actions[0]), actions[1..], e, f))
  }

  lemma StepKeepsInv(q: Queue, a: Action)
    requires Inv(q) && Allowed(q, a)
    ensures Inv(Step(q, a))
  {
    var r := Step(q, a);
    assert AllAllowed(r, []) && Run(r, []) == r;
    assert [a][1..] == [];
    RunKeepsInv(q, [a]);
  }

  lemma {:induction false} RunKeepsOrder(q: Queue, actions: seq<Action>, e: Message, f: Message)
    requires Inv(q) && AllAllowed(q, actions) && Ahead(q.messages, e, f) && Stay(q, actions, e, f)
    ensures Ahead(Run(q, actions).messages, e, f)
    decreases |actions|
  {
    if actions == [] {
    } else {
      StepKeepsInv(q, actions[0]);
      StepKeepsOrder(q, actions[0], e, f);
      RunKeepsOrder(Step(q, actions[0]), actions[1..], e, f);
    }
  }

  /** The message a thread takes: the first in the queue that it wants. */
  ghost predicate TakenFirst(q: Queue, owner: uint32, p: Message -> bool, m: Message) {
    exists i :: 0 <= i < |q.messages| && q.messages[i] == m && Wanted(q, owner, p, m) &&
                forall j | 0 <= j < i :: !Wanted(q, owner, p, q.messages[j])
  }

  /** A post to the back puts its message behind all that is queued. */
  lemma PostedBehind(q: Queue, m: Message, kind: Kind, owner: uint32, e: Message)
    requires Inv(q) && Allowed(q, Post(m, kind, owner, |q.messages|)) && e in q.messages
    ensures Ahead(PostAt(q, m, kind, owner, |q.messages|).messages, e, QueuedForm(q, m, kind))
  {
    var i :| 0 <= i < |q.messages| && q.messages[i] == e;
    var r := PostAt(q, m, kind, owner, |q.messages|).messages;
    assert r[i] == e && r[|q.messages|] == QueuedForm(q, m, kind);
  }

  /**
   * Messages posted to the back are taken in order: while `e`, which was queued
   * when `f` was posted, is still there, no thread that wants both takes `f`.
   */
  lemma TakenInPostOrder(q: Queue, m: Message, kind: Kind, owner: uint32, after: seq<Action>, e: Message,
                         thread: uint32, p: Message -> bool)
    requires Inv(q) && Allowed(q, Post(m, kind, owner, |q.messages|)) && e in q.messages
    requires var r := PostAt(q, m, kind, owner, |q.messages|);
             AllAllowed(r, after) && Stay(r, after, e, QueuedForm(q, m, kind)) && Wanted(Run(r, after), thread, p, e)
    ensures !TakenFirst(Run(PostAt(q, m, kind, owner, |q.messages|), after), thread, p, QueuedForm(q, m, kind))
  {
    var r, f := PostAt(q, m, kind, owner, |q.messages|), QueuedForm(q, m, kind);
    PostedBehind(q, m, kind, owner, e);
    PostKeepsInv(q, m, kind, owner, |q.messages|);
    RunKeepsOrder(r, after, e, f);
    RunKeepsInv(r, after);
    AheadIsTakenFirst(Run(r, after), thread, p, e, f);
  }

  lemma AheadIsTakenFirst(q: Queue, thread: uint32, p: Message -> bool, e: Message, f: Message)
    requires Distinct(q.messages) && Ahead(q.messages, e, f) && Wanted(q, thread, p, e)
    ensures !TakenFirst(q, thread, p, f)
  {
    var i, j :| 0 <= i < j < |q.messages| && q.messages[i] == e && q.messages[j] == f;
    forall k | 0 <= k < |q.messages| && q.messages[k] == f ensures k == j {}
  }

  // ---- What the count does not see ----

  /** A queued message whose owner, by record or by window, is `owner`. */
  ghost predicate SomeWanted(q: Queue, owner: uint32) {
    exists m | m in q.messages :: OwnerForMessage(q, m) == owner
  }

  ghost predicate SomeOwned(q: Queue, owner: uint32) {
    exists m | m in q.messages :: OwnedBy(q, m, owner)
  }

  /** A message posted while its window had no owner, whose window belongs to `owner` now. */
  predicate Stray(q: Queue, m: Message, owner: uint32) {
    m.queueId !in q.owners && m.hwnd != 0 && OwnerForWindow(q, m.hwnd) == owner
  }

  ghost predicate SomeStray(q: Queue, owner: uint32) {
    exists m | m in q.messages :: Stray(q, m, owner)
  }

  lemma CountIffOwned(q: Queue, owner: uint32)
    requires Inv(q)
    ensures CountForOwner(q, owner) != 0 <==> SomeOwned(q, owner)
  {
    if CountForOwner(q, owner) != 0 {
      var m := CountedMessage(q, owner);
    }
    if m :| m in q.messages && OwnedBy(q, m, owner) {
      assert LaneSound(q, owner, m.queueKind) && RecordedFor(q, m, owner, m.queueKind);
      assert m in q.threadQueues[owner].Lane(m.queueKind);
    }
  }

  /** What a thread could take is what it is told of, and the strays. */
  lemma WantedIffCountedOrStray(q: Queue, owner: uint32)
    requires Inv(q) && owner != 0
    ensures SomeWanted(q, owner) <==> CountForOwner(q, owner) != 0 || SomeStray(q, owner)
  {
    CountIffOwned(q, owner);
    if m :| m in q.messages && OwnerForMessage(q, m) == owner {
      assert OwnedBy(q, m, owner) || Stray(q, m, owner);
    }
    if m :| m in q.messages && OwnedBy(q, m, owner) {
      assert OwnerForMessage(q, m) == owner;
    }
    if m :| m in q.messages && Stray(q, m, owner) {
      assert OwnerForMessage(q, m) == owner;
    }
  }

  /** Being told of messages and finding one are the same unless there are strays and nothing else. */
  lemma HasMessagesExactIff(q: Queue, owner: uint32)
    requires Inv(q) && owner != 0
    ensures (CountForOwner(q, owner) != 0 <==> SomeWanted(q, owner)) <==> (SomeStray(q, owner) ==> SomeOwned(q, owner))
  {
    CountIffOwned(q, owner);
    WantedIffCountedOrStray(q, owner);
  }

  /** A message posted before its window has an owner is never counted for the owner it gets. */
  lemma StrayIsNotCounted(m: Message, kind: Kind, thread: uint32)
    requires m.queueId == 0 && m.hwnd != 0 && thread != 0
    ensures var empty := Queue([], map[], map[], map[], 1); var actions := [Post(m, kind, 0, 0), Register(m.hwnd, thread)];
            && Inv(empty) && AllAllowed(empty, actions)
            && CountForOwner(Run(empty, actions), thread) == 0 && SomeWanted(Run(empty, actions), thread)
  {
    var empty := Queue([], map[], map[], map[], 1);
    var actions := [Post(m, kind, 0, 0), Register(m.hwnd, thread)];
    var posted := Step(empty, actions[0]);
    var queued := QueuedForm(empty, m, kind);
    assert posted == Queue([queued], map[], map[], map[], 2);
    RunTwo(empty, actions[0], actions[1]);
    var r := Step(posted, actions[1]);
    assert queued in r.messages && OwnerForMessage(r, queued) == thread;
  }

  lemma RunTwo(q: Queue, a: Action, b: Action)
    requires Allowed(q, a) && Allowed(Step(q, a), b)
    ensures AllAllowed(q, [a, b]) && Run(q, [a, b]) == Step(Step(q, a), b)
  {
    var r := Step(Step(q, a), b);
    assert AllAllowed(r, []) && Run(r, []) == r;
    assert [a, b][1..] == [b] && [b][1..] == [];
    assert AllAllowed(Step(q, a), [b]) && Run(Step(q, a), [b]) == r;
  }
}
