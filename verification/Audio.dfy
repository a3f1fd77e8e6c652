/** Virtual playback streams: queued buffers on a millisecond line, and slices cut out of them. */
module Audio {
  import opened Basics

  datatype Format = Format(avgBytesPerSec: uint32, blockAlign: uint16)

  datatype Buffer = Buffer(header: uint32, completionEvent: uint32, pcm: seq<byte>, startMs: nat, endMs: nat)

  datatype Stream = Stream(
    handle: uint32, callback: uint32, flags: uint32, format: Format, nextStartMs: nat, buffers: seq<Buffer>)

  datatype Completion = Completion(handle: uint32, header: uint32, event: uint32)

  datatype Slice = Slice(pcm: seq<byte>, startMs: nat, durationMs: nat)

  // The position of the stream and buffer a slice would come from, and where it would start.
  datatype Choice = Choice(stream: nat, buffer: nat, startMs: nat)

  // ---- Time and byte arithmetic ----

  const UINT32_RANGE: nat := 0x1_0000_0000

  function DurationForBytes(f: Format, bytes: nat): nat {
    if bytes == 0 || f.avgBytesPerSec == 0 then 1
    else Max(1, (bytes * 1000) / f.avgBytesPerSec) % UINT32_RANGE
  }

  function ByteOffsetForElapsed(f: Format, elapsedMs: nat): nat {
    (elapsedMs * f.avgBytesPerSec) / 1000
  }

  function BlockOf(f: Format): nat { Max(1, f.blockAlign) }

  function AlignDown(value: nat, alignment: nat): nat
    requires alignment > 0
  {
    value - value % alignment
  }

  function CompletionEventFor(callback: uint32, flags: uint32, guestUser: uint32): uint32 {
    var kind := flags / 0x10000 % 8;
    if kind == 5 then callback else if kind == 3 then guestUser else 0
  }

  /** The event is chosen by the three callback bits above the low sixteen: 5 names an event, 3 a function. */
  lemma EventByCallbackBits(callback: uint32, flags: uint32, guestUser: uint32, high: nat, kind: nat, low: nat)
    requires flags == high * 0x8_0000 + kind * 0x1_0000 + low && kind < 8 && low < 0x1_0000
    ensures CompletionEventFor(callback, flags, guestUser) ==
            if kind == 5 then callback else if kind == 3 then guestUser else 0
  {
    assert flags / 0x1_0000 == high * 8 + kind;
  }

  // ---- Stream operations ----

  function QueuedBuffer(s: Stream, header: uint32, guestUser: uint32, pcm: seq<byte>, nowMs: nat): Buffer {
    var start := Max(nowMs, s.nextStartMs);
    Buffer(header, CompletionEventFor(s.callback, s.flags, guestUser), pcm, start,
           start + Max(1, DurationForBytes(s.format, |pcm|)))
  }

  function Queued(s: Stream, b: Buffer): Stream {
    s.(buffers := s.buffers + [b], nextStartMs := b.endMs)
  }

  function ReadyCount(buffers: seq<Buffer>, nowMs: nat): (n: nat)
    ensures n <= |buffers|
  {
    if buffers == [] || nowMs < buffers[0].endMs then 0 else 1 + ReadyCount(buffers[1..], nowMs)
  }

  function Completed(s: Stream, nowMs: nat): Stream {
    var left := s.buffers[ReadyCount(s.buffers, nowMs)..];
    s.(buffers := left, nextStartMs := if left == [] && s.nextStartMs < nowMs then nowMs else s.nextStartMs)
  }

  /** What is left of a queue when the buffers at its front that have ended are gone. */
  ghost predicate LeadingEndedGone(before: seq<Buffer>, left: seq<Buffer>, nowMs: nat) {
    exists n ::
      && 0 <= n <= |before| && left == before[n..]
      && (forall i | 0 <= i < n :: before[i].endMs <= nowMs) && (n < |before| ==> nowMs < before[n].endMs)
  }

  /** One completion for each buffer, in order. */
  predicate ReportsAll(handle: uint32, buffers: seq<Buffer>, completions: seq<Completion>) {
    && |completions| == |buffers|
    && forall i | 0 <= i < |buffers| :: completions[i] == Completion(handle, buffers[i].header, buffers[i].completionEvent)
  }

  lemma {:induction false} ReadyCountIs(buffers: seq<Buffer>, nowMs: nat)
    ensures var n := ReadyCount(buffers, nowMs);
            (forall i | 0 <= i < n :: buffers[i].endMs <= nowMs) && (n < |buffers| ==> nowMs < buffers[n].endMs)
  {
    if buffers == [] || nowMs < buffers[0].endMs {
    } else {
      ReadyCountIs(buffers[1..], nowMs);
    }
  }

  lemma CompletedIs(s: Stream, nowMs: nat)
    ensures LeadingEndedGone(s.buffers, Completed(s, nowMs).buffers, nowMs)
  {
    ReadyCountIs(s.buffers, nowMs);
  }

  function Notices(handle: uint32, buffers: seq<Buffer>): seq<Completion> {
    seq(|buffers|, i requires 0 <= i < |buffers| => Completion(handle, buffers[i].header, buffers[i].completionEvent))
  }

  function Find(streams: seq<Stream>, handle: uint32): (r: Option<nat>)
    ensures r.Some? ==> r.value < |streams| && streams[r.value].handle == handle
    ensures r.None? ==> forall i | 0 <= i < |streams| :: streams[i].handle != handle
  {
    if streams == [] then None
    else if streams[0].handle == handle then Some(0)
    else
      var r := Find(streams[1..], handle);
      if r.Some? then Some(r.value + 1) else None
  }

  // ---- liveSlice ----

  /** The first buffer that ends after the cursor. */
  function FirstEnding(buffers: seq<Buffer>, cursorMs: nat): (k: nat)
    ensures k <= |buffers| && forall i | 0 <= i < k :: buffers[i].endMs <= cursorMs
    ensures k < |buffers| ==> cursorMs < buffers[k].endMs
  {
    if buffers == [] || cursorMs < buffers[0].endMs then 0 else 1 + FirstEnding(buffers[1..], cursorMs)
  }

  function Better(streams: seq<Stream>, i: nat, cursorMs: nat, best: Option<Choice>): Option<Choice>
    requires i < |streams|
  {
    var k := FirstEnding(streams[i].buffers, cursorMs);
    if k == |streams[i].buffers| then best
    else
      var start := Max(cursorMs, streams[i].buffers[k].startMs);
      if best.None? || start < best.value.startMs then Some(Choice(i, k, start)) else best
  }

  function SelectFrom(streams: seq<Stream>, i: nat, cursorMs: nat, best: Option<Choice>): Option<Choice>
    requires i <= |streams|
    decreases |streams| - i
  {
    if i == |streams| then best else SelectFrom(streams, i + 1, cursorMs, Better(streams, i, cursorMs, best))
  }

  /** Where in the buffer a slice of `durationMs` starting at `startMs` begins and ends. */
  function SliceStart(f: Format, b: Buffer, startMs: nat): nat
    requires b.startMs <= startMs
  {
    AlignDown(ByteOffsetForElapsed(f, startMs - b.startMs), BlockOf(f))
  }

  function SliceEnd(f: Format, b: Buffer, startMs: nat, durationMs: nat): nat
    requires b.startMs <= startMs < b.endMs
  {
    var endMs := Min(b.endMs, startMs + durationMs);
    Min(Max(SliceStart(f, b, startMs) + BlockOf(f),
            AlignDown(ByteOffsetForElapsed(f, endMs - b.startMs), BlockOf(f))),
        |b.pcm|)
  }

  function CutSlice(f: Format, b: Buffer, startMs: nat, durationMs: nat): Option<Slice>
    requires b.startMs <= startMs < b.endMs
  {
    var from, to := SliceStart(f, b, startMs), SliceEnd(f, b, startMs, durationMs);
    if |b.pcm| <= from || to <= from then None
    else Some(Slice(b.pcm[from..to], startMs, DurationForBytes(f, to - from)))
  }

  predicate Plays(streams: seq<Stream>, c: Choice) {
    c.stream < |streams| && c.buffer < |streams[c.stream].buffers|
  }

  function LiveSlice(streams: seq<Stream>, cursorMs: nat, durationMs: nat): Option<Slice> {
    if durationMs == 0 then None
    else
      var best := SelectFrom(streams, 0, cursorMs, None);
      if best.None? || !Plays(streams, best.value) then None
      else
        var s := streams[best.value.stream];
        var b := s.buffers[best.value.buffer];
        if b.endMs <= best.value.startMs || cursorMs < best.value.startMs || best.value.startMs < b.startMs then None
        else CutSlice(s.format, b, best.value.startMs, durationMs)
  }

  /** Streams are kept in handle order; opening an open handle starts it afresh. */
  function Opened(streams: seq<Stream>, config: Stream): seq<Stream> {
    var empty := config.(nextStartMs := 0, buffers := []);
    if config.handle == 0 then streams
    else if streams == [] || config.handle < streams[0].handle then [empty] + streams
    else if streams[0].handle == config.handle then [empty] + streams[1..]
    else [streams[0]] + Opened(streams[1..], config)
  }

  ghost predicate InOrder(streams: seq<Stream>) {
    forall i, j | 0 <= i < j < |streams| :: streams[i].handle < streams[j].handle
  }

  lemma AllAbove(first: Stream, rest: seq<Stream>)
    ensures InOrder([first] + rest) <==> InOrder(rest) && forall t | t in rest :: first.handle < t.handle
  {
    var all := [first] + rest;
    assert forall i | 0 < i < |all| :: all[i] == rest[i - 1];
    if InOrder(all) {
      forall i, j | 0 <= i < j < |rest| ensures rest[i].handle < rest[j].handle {
        assert all[i + 1].handle < all[j + 1].handle;
      }
      forall i | 0 <= i < |rest| ensures first.handle < rest[i].handle {
        assert all[0].handle < all[i + 1].handle;
      }
    }
  }

  /** Opening puts an empty stream under the handle, and leaves every other handle alone. */
  lemma {:induction false} OpenedIs(streams: seq<Stream>, config: Stream)
    requires InOrder(streams) && config.handle != 0
    ensures InOrder(Opened(streams, config))
    ensures forall t :: t in Opened(streams, config) <==>
                        t == config.(nextStartMs := 0, buffers := []) || (t in streams && t.handle != config.handle)
  {
    var empty := config.(nextStartMs := 0, buffers := []);
    if streams == [] {
    } else {
      var first, rest := streams[0], streams[1..];
      assert streams == [first] + rest;
      AllAbove(first, rest);
      if config.handle < first.handle {
        AllAbove(empty, streams);
      } else if first.handle == config.handle {
        AllAbove(empty, rest);
      } else {
        OpenedIs(rest, config);
        AllAbove(first, Opened(rest, config));
      }
    }
  }

  // ---- The class ----

  class CeAudio {
    // The stream table is an ordered map; this lists it in handle order.
    var streams: seq<Stream>

    constructor ()
      ensures streams == []
    {
      streams := [];
    }

    method OpenStream(config: Stream)
      modifies this
      ensures streams == Opened(old(streams), config)
    {
      if config.handle == 0 {
        return;
      }
      streams := Opened(streams, config);
    }

    method QueueBuffer(handle: uint32, header: uint32, guestUser: uint32, pcm: seq<byte>, nowMs: nat)
      returns (queued: Option<Buffer>)
      modifies this
      ensures var at := Find(old(streams), handle);
              if handle == 0 || header == 0 || pcm == [] || at.None? then queued.None? && streams == old(streams)
              else
                var s := old(streams)[at.value]; var b := QueuedBuffer(s, header, guestUser, pcm, nowMs);
                queued == Some(b) && streams == old(streams)[at.value := Queued(s, b)]
    {
      if handle == 0 || header == 0 || pcm == [] {
        return None;
      }
      var at := Find(streams, handle);
      if at.None? {
        return None;
      }
      var stream := streams[at.value];
      var durationMs := DurationForBytes(stream.format, |pcm|);
      var startMs := Max(nowMs, stream.nextStartMs);
      var endMs := startMs + Max(1, durationMs);
      var buffer := Buffer(header, CompletionEventFor(stream.callback, stream.flags, guestUser), pcm, startMs, endMs);
      streams := streams[at.value := stream.(buffers := stream.buffers + [buffer], nextStartMs := endMs)];
      return Some(buffer);
    }

    method ResetStream(handle: uint32) returns (completions: seq<Completion>)
      modifies this
      ensures var at := Find(old(streams), handle);
              if at.None? then completions == [] && streams == old(streams)
              else
                && completions == Notices(handle, old(streams)[at.value].buffers)
                && ReportsAll(handle, old(streams)[at.value].buffers, completions)
                && streams == old(streams)[at.value := old(streams)[at.value].(buffers := [], nextStartMs := 0)]
    {
      var at := Find(streams, handle);
      if at.None? {
        return [];
      }
      completions := Collect(handle, streams[at.value].buffers);
      streams := streams[at.value := streams[at.value].(buffers := [], nextStartMs := 0)];
    }

    method CloseStream(handle: uint32) returns (completions: seq<Completion>)
      modifies this
      ensures var at := Find(old(streams), handle);
              if at.None? then completions == [] && streams == old(streams)
              else
                && completions == Notices(handle, old(streams)[at.value].buffers)
                && ReportsAll(handle, old(streams)[at.value].buffers, completions)
                && streams == old(streams)[..at.value] + old(streams)[at.value + 1..]
    {
      var at := Find(streams, handle);
      if at.None? {
        return [];
      }
      completions := Collect(handle, streams[at.value].buffers);
      streams := streams[..at.value] + streams[at.value + 1..];
    }

    static method Collect(handle: uint32, buffers: seq<Buffer>) returns (completions: seq<Completion>)
      ensures completions == Notices(handle, buffers)
    {
      completions := [];
      for i := 0 to |buffers|
        invariant completions == Notices(handle, buffers[..i])
      {
        completions := completions + [Completion(handle, buffers[i].header, buffers[i].completionEvent)];
      }
      assert buffers[..|buffers|] == buffers;
    }

    static method TakeReady(stream: Stream, nowMs: nat) returns (left: Stream, completions: seq<Completion>)
      ensures left == Completed(stream, nowMs)
      ensures completions == Notices(stream.handle, stream.buffers[..ReadyCount(stream.buffers, nowMs)])
      ensures |completions| <= |stream.buffers| && left.buffers == stream.buffers[|completions|..]
      ensures forall i | 0 <= i < |completions| ::
                && stream.buffers[i].endMs <= nowMs
                && completions[i] == Completion(stream.handle, stream.buffers[i].header, stream.buffers[i].completionEvent)
      ensures left.buffers != [] ==> nowMs < left.buffers[0].endMs
    {
      completions := [];
      var done := 0;
      while done < |stream.buffers| && stream.buffers[done].endMs <= nowMs
        invariant done <= ReadyCount(stream.buffers, nowMs) <= |stream.buffers|
        invariant ReadyCount(stream.buffers, nowMs) == done + ReadyCount(stream.buffers[done..], nowMs)
        invariant completions == Notices(stream.handle, stream.buffers[..done]) && |completions| == done
        invariant forall i | 0 <= i < done ::
                    && stream.buffers[i].endMs <= nowMs
                    && completions[i] == Completion(stream.handle, stream.buffers[i].header, stream.buffers[i].completionEvent)
      {
        var buffer := stream.buffers[done];
        completions := completions + [Completion(stream.handle, buffer.header, buffer.completionEvent)];
        assert stream.buffers[done..][1..] == stream.buffers[done + 1..];
        done := done + 1;
      }
      left := stream.(buffers := stream.buffers[done..]);
      if left.buffers == [] && left.nextStartMs < nowMs {
        left := left.(nextStartMs := nowMs);
      }
    }

    method CompleteReady(nowMs: nat) returns (completions: seq<Completion>)
      modifies this
      ensures |streams| == |old(streams)|
      ensures forall i | 0 <= i < |streams| :: streams[i] == Completed(old(streams)[i], nowMs)
      ensures completions == AllReady(old(streams), nowMs)
      ensures forall i | 0 <= i < |streams| :: LeadingEndedGone(old(streams)[i].buffers, streams[i].buffers, nowMs)
    {
      completions := [];
      var i := 0;
      assert streams[..0] == [];
      while i < |streams|
        invariant i <= |streams| == |old(streams)|
        invariant forall j | 0 <= j < i :: streams[j] == Completed(old(streams)[j], nowMs)
        invariant forall j | i <= j < |streams| :: streams[j] == old(streams)[j]
        invariant completions == AllReady(old(streams)[..i], nowMs)
      {
        var left, ready := TakeReady(streams[i], nowMs);
        completions := completions + ready;
        streams := streams[i := left];
        assert old(streams)[..i + 1][..i] == old(streams)[..i];
        i := i + 1;
      }
      assert old(streams)[..i] == old(streams);
      forall j | 0 <= j < |streams| ensures LeadingEndedGone(old(streams)[j].buffers, streams[j].buffers, nowMs) {
        CompletedIs(old(streams)[j], nowMs);
      }
    }

    method GetLiveSlice(cursorMs: nat, durationMs: nat) returns (slice: Option<Slice>)
      ensures slice == LiveSlice(streams, cursorMs, durationMs)
    {
      if durationMs == 0 {
        return None;
      }
      var selected: Option<Choice> := None;
      var i := 0;
      while i < |streams|
        invariant i <= |streams|
        invariant SelectFrom(streams, i, cursorMs, selected) == SelectFrom(streams, 0, cursorMs, None)
      {
        var buffers := streams[i].buffers;
        var k := 0;
        while k < |buffers| && buffers[k].endMs <= cursorMs
          invariant k <= FirstEnding(buffers, cursorMs)
        {
          k := k + 1;
        }
        if k < |buffers| {
          var candidateStart := Max(cursorMs, buffers[k].startMs);
          if selected.None? || candidateStart < selected.value.startMs {
            selected := Some(Choice(i, k, candidateStart));
          }
        }
        i := i + 1;
      }
      if selected.None? || !Plays(streams, selected.value) {
        return None;
      }
      var format := streams[selected.value.stream].format;
      var buffer := streams[selected.value.stream].buffers[selected.value.buffer];
      var start := selected.value.startMs;
      if buffer.endMs <= start || cursorMs < start || start < buffer.startMs {
        return None;
      }
      var blockAlign := Max(1, format.blockAlign);
      var offset := AlignDown(ByteOffsetForElapsed(format, start - buffer.startMs), blockAlign);
      if |buffer.pcm| <= offset {
        return None;
      }
      var sliceEndMs := Min(buffer.endMs, start + durationMs);
      var endOffset := AlignDown(ByteOffsetForElapsed(format, sliceEndMs - buffer.startMs), blockAlign);
      endOffset := Min(Max(offset + blockAlign, endOffset), |buffer.pcm|);
      if endOffset <= offset {
        return None;
      }
      var pcm := buffer.pcm[offset..endOffset];
      return Some(Slice(pcm, start, DurationForBytes(format, |pcm|)));
    }
  }

  function AllReady(streams: seq<Stream>, nowMs: nat): seq<Completion> {
    if streams == [] then []
    else
      var s := streams[|streams| - 1];
      AllReady(streams[..|streams| - 1], nowMs) + Notices(s.handle, s.buffers[..ReadyCount(s.buffers, nowMs)])
  }

  // ---- Every reachable state ----

  predicate BufferSound(f: Format, b: Buffer) {
    b.pcm != [] && b.endMs == b.startMs + Max(1, DurationForBytes(f, |b.pcm|))
  }

  /** Buffers follow each other without overlap, and the next one starts no earlier than the last one ends. */
  ghost predicate StreamSound(s: Stream) {
    && (forall i | 0 <= i < |s.buffers| :: BufferSound(s.format, s.buffers[i]) && s.buffers[i].endMs <= s.nextStartMs)
    && (forall i, j | 0 <= i < j < |s.buffers| :: s.buffers[i].endMs <= s.buffers[j].startMs)
  }

  ghost predicate Sound(streams: seq<Stream>) {
    forall i | 0 <= i < |streams| :: StreamSound(streams[i])
  }

  datatype Action =
    | Open(config: Stream)
    | Close(handle: uint32)
    | Reset(handle: uint32)
    | QueuePcm(handle: uint32, header: uint32, guestUser: uint32, pcm: seq<byte>, nowMs: nat)
    | Complete(nowMs: nat)

  function Step(streams: seq<Stream>, a: Action): seq<Stream> {
    match a
    case Open(config) => Opened(streams, config)
    case Close(handle) =>
      var at := Find(streams, handle);
      if at.None? then streams else streams[..at.value] + streams[at.value + 1..]
    case Reset(handle) =>
      var at := Find(streams, handle);
      if at.None? then streams else streams[at.value := streams[at.value].(buffers := [], nextStartMs := 0)]
    case QueuePcm(handle, header, guestUser, pcm, nowMs) =>
      var at := Find(streams, handle);
      if handle == 0 || header == 0 || pcm == [] || at.None? then streams
      else
        var s := streams[at.value];
        streams[at.value := Queued(s, QueuedBuffer(s, header, guestUser, pcm, nowMs))]
    case Complete(nowMs) => seq(|streams|, i requires 0 <= i < |streams| => Completed(streams[i], nowMs))
  }

  function Run(streams: seq<Stream>, actions: seq<Action>): seq<Stream>
    decreases |actions|
  {
    if actions == [] then streams else Run(Step(streams, actions[0]), actions[1..])
  }

  lemma {:induction false} OpenedSound(streams: seq<Stream>, config: Stream)
    requires Sound(streams)
    ensures Sound(Opened(streams, config))
  {
    if config.handle != 0 && streams != [] && streams[0].handle < config.handle {
      OpenedSound(streams[1..], config);
    }
  }

  lemma SuffixSound(s: Stream, t: Stream, n: nat)
    requires StreamSound(s) && n <= |s.buffers| && t.buffers == s.buffers[n..]
    requires t.format == s.format && s.nextStartMs <= t.nextStartMs
    ensures StreamSound(t)
  {
    assert forall i | 0 <= i < |t.buffers| :: t.buffers[i] == s.buffers[n + i];
  }

  lemma CompletedSound(s: Stream, nowMs: nat)
    requires StreamSound(s)
    ensures StreamSound(Completed(s, nowMs))
  {
    SuffixSound(s, Completed(s, nowMs), ReadyCount(s.buffers, nowMs));
  }

  lemma StepSound(streams: seq<Stream>, a: Action)
    requires Sound(streams)
    ensures Sound(Step(streams, a))
  {
    match a
    case Open(config) => OpenedSound(streams, config);
    case Complete(nowMs) =>
      forall i | 0 <= i < |streams| ensures StreamSound(Step(streams, a)[i]) {
        CompletedSound(streams[i], nowMs);
      }
    case _ =>
  }

  lemma {:induction false} RunSound(streams: seq<Stream>, actions: seq<Action>)
    requires Sound(streams)
    ensures Sound(Run(streams, actions))
    decreases |actions|
  {
    if actions == [] {
    } else {
      StepSound(streams, actions[0]);
      RunSound(Step(streams, actions[0]), actions[1..]);
    }
  }

  // ---- What a queued buffer and a completion mean ----

  /** The next buffer of a stream starts no later than the last queued one ends. */
  predicate NextFollows(s: Stream) {
    s.buffers != [] ==> s.nextStartMs == s.buffers[|s.buffers| - 1].endMs
  }

  lemma CompletedFollows(s: Stream, nowMs: nat)
    requires NextFollows(s)
    ensures NextFollows(Completed(s, nowMs))
  {
    var left := Completed(s, nowMs).buffers;
    if left != [] {
      assert left[|left| - 1] == s.buffers[|s.buffers| - 1];
    }
  }

  lemma {:induction false} OpenedFollows(streams: seq<Stream>, config: Stream)
    requires forall i | 0 <= i < |streams| :: NextFollows(streams[i])
    ensures forall i | 0 <= i < |Opened(streams, config)| :: NextFollows(Opened(streams, config)[i])
  {
    if config.handle != 0 && streams != [] && streams[0].handle < config.handle {
      OpenedFollows(streams[1..], config);
    }
  }

  lemma {:induction false} RunFollows(streams: seq<Stream>, actions: seq<Action>)
    requires forall i | 0 <= i < |streams| :: NextFollows(streams[i])
    ensures forall i | 0 <= i < |Run(streams, actions)| :: NextFollows(Run(streams, actions)[i])
    decreases |actions|
  {
    if actions == [] {
    } else {
      match actions[0] {
        case Open(config) => OpenedFollows(streams, config);
        case Complete(nowMs) =>
          forall i | 0 <= i < |streams| ensures NextFollows(Completed(streams[i], nowMs)) {
            CompletedFollows(streams[i], nowMs);
          }
        case _ =>
      }
      RunFollows(Step(streams, actions[0]), actions[1..]);
    }
  }

  /** In every reachable state a new buffer starts at once, or when the last queued one ends if that is later. */
  lemma QueuedStartsNext(actions: seq<Action>, i: nat, header: uint32, guestUser: uint32, pcm: seq<byte>, nowMs: nat)
    requires i < |Run([], actions)| && Run([], actions)[i].buffers != []
    ensures var s := Run([], actions)[i]; var b := QueuedBuffer(s, header, guestUser, pcm, nowMs);
            var last := s.buffers[|s.buffers| - 1].endMs;
            b.startMs == (if nowMs < last then last else nowMs) && b.startMs < b.endMs && b.pcm == pcm && b.header == header
  {
    RunFollows([], actions);
  }

  /** The buffers that have ended, or those that have not, in order. */
  function Ended(buffers: seq<Buffer>, nowMs: nat, ended: bool): seq<Buffer> {
    if buffers == [] then []
    else (if (buffers[0].endMs <= nowMs) == ended then [buffers[0]] else []) + Ended(buffers[1..], nowMs, ended)
  }

  lemma {:induction false} EndedAll(buffers: seq<Buffer>, nowMs: nat, ended: bool)
    requires forall i | 0 <= i < |buffers| :: (buffers[i].endMs <= nowMs) == ended
    ensures Ended(buffers, nowMs, ended) == buffers && Ended(buffers, nowMs, !ended) == []
  {
    if buffers == [] {
    } else {
      EndedAll(buffers[1..], nowMs, ended);
    }
  }

  ghost predicate EndsSorted(buffers: seq<Buffer>) {
    forall i, j | 0 <= i <= j < |buffers| :: buffers[i].endMs <= buffers[j].endMs
  }

  lemma {:induction false} ReadyAreEnded(buffers: seq<Buffer>, nowMs: nat)
    requires EndsSorted(buffers)
    ensures var n := ReadyCount(buffers, nowMs);
            buffers[..n] == Ended(buffers, nowMs, true) && buffers[n..] == Ended(buffers, nowMs, false)
  {
    if buffers == [] {
    } else if nowMs < buffers[0].endMs {
      EndedAll(buffers, nowMs, false);
    } else {
      var first, rest := buffers[0], buffers[1..];
      var n := ReadyCount(rest, nowMs);
      ReadyAreEnded(rest, nowMs);
      assert buffers[..1 + n] == [first] + rest[..n] && buffers[1 + n..] == rest[n..];
    }
  }

  lemma SoundEndsSorted(s: Stream)
    requires StreamSound(s)
    ensures EndsSorted(s.buffers)
  {
    forall i, j | 0 <= i < j < |s.buffers| ensures s.buffers[i].endMs <= s.buffers[j].endMs {
      assert BufferSound(s.format, s.buffers[j]);
    }
  }

  /** The notices of every stream for the buffers of it that have ended. */
  function EndedNotices(streams: seq<Stream>, nowMs: nat): seq<Completion> {
    if streams == [] then []
    else
      var s := streams[|streams| - 1];
      EndedNotices(streams[..|streams| - 1], nowMs) + Notices(s.handle, Ended(s.buffers, nowMs, true))
  }

  lemma {:induction false} ReadyNoticesAreEnded(streams: seq<Stream>, nowMs: nat)
    requires Sound(streams)
    ensures AllReady(streams, nowMs) == EndedNotices(streams, nowMs)
  {
    if streams == [] {
    } else {
      ReadyNoticesAreEnded(streams[..|streams| - 1], nowMs);
      var last := streams[|streams| - 1];
      SoundEndsSorted(last);
      ReadyAreEnded(last.buffers, nowMs);
    }
  }

  /**
   * In every reachable state a completion pass reports exactly the buffers that have
   * ended, each once and in queue order, and leaves exactly the others.
   */
  lemma CompletesExactlyEnded(actions: seq<Action>, nowMs: nat)
    ensures var streams := Run([], actions); var after := Step(streams, Complete(nowMs));
            && AllReady(streams, nowMs) == EndedNotices(streams, nowMs)
            && |after| == |streams|
            && forall i | 0 <= i < |streams| ::
                 after[i].handle == streams[i].handle && after[i].buffers == Ended(streams[i].buffers, nowMs, false)
  {
    RunSound([], actions);
    var streams := Run([], actions);
    ReadyNoticesAreEnded(streams, nowMs);
    forall i | 0 <= i < |streams| ensures Completed(streams[i], nowMs).buffers == Ended(streams[i].buffers, nowMs, false) {
      EndedLeft(streams[i], nowMs);
    }
  }

  lemma EndedLeft(s: Stream, nowMs: nat)
    requires StreamSound(s)
    ensures Completed(s, nowMs).buffers == Ended(s.buffers, nowMs, false)
  {
    SoundEndsSorted(s);
    ReadyAreEnded(s.buffers, nowMs);
  }

  /** A buffer waits to be reported exactly until its end. */
  lemma {:induction false} EndedIff(buffers: seq<Buffer>, nowMs: nat, ended: bool, b: Buffer)
    ensures b in Ended(buffers, nowMs, ended) <==> b in buffers && (b.endMs <= nowMs) == ended
  {
    if buffers == [] {
    } else {
      EndedIff(buffers[1..], nowMs, ended, b);
      assert buffers == [buffers[0]] + buffers[1..];
    }
  }

  // ---- A slice exactly when something plays ----

  predicate Contains(b: Buffer, cursorMs: nat) {
    b.startMs <= cursorMs < b.endMs
  }

  ghost predicate Playing(streams: seq<Stream>, i: nat, cursorMs: nat)
    requires i < |streams|
  {
    exists k :: 0 <= k < |streams[i].buffers| && Contains(streams[i].buffers[k], cursorMs)
  }

  lemma FirstEndingContains(s: Stream, k: nat, cursorMs: nat)
    requires StreamSound(s) && k < |s.buffers| && Contains(s.buffers[k], cursorMs)
    ensures FirstEnding(s.buffers, cursorMs) == k
  {
    FirstEndingIs(s.buffers, cursorMs, k);
  }

  lemma {:induction false} FirstEndingIs(buffers: seq<Buffer>, cursorMs: nat, k: nat)
    requires k < |buffers| && cursorMs < buffers[k].endMs && forall i | 0 <= i < k :: buffers[i].endMs <= cursorMs
    ensures FirstEnding(buffers, cursorMs) == k
  {
    if k == 0 {
    } else {
      FirstEndingIs(buffers[1..], cursorMs, k - 1);
    }
  }

  predicate BestChoice(streams: seq<Stream>, c: Choice, cursorMs: nat)
    requires Plays(streams, c)
  {
    var b := streams[c.stream].buffers[c.buffer];
    c.startMs == Max(cursorMs, b.startMs) && cursorMs < b.endMs
  }

  /** What a choice made among the first `n` streams says about them. */
  ghost predicate Chosen(streams: seq<Stream>, n: nat, cursorMs: nat, best: Option<Choice>)
    requires n <= |streams|
  {
    && (best.Some? ==> Plays(streams, best.value) && BestChoice(streams, best.value, cursorMs))
    && (best.None? || best.value.startMs > cursorMs ==> forall j | 0 <= j < n :: !Playing(streams, j, cursorMs))
  }

  lemma BetterChosen(streams: seq<Stream>, i: nat, cursorMs: nat, best: Option<Choice>)
    requires Sound(streams) && i < |streams| && Chosen(streams, i, cursorMs, best)
    ensures Chosen(streams, i + 1, cursorMs, Better(streams, i, cursorMs, best))
  {
    var s, next := streams[i], Better(streams, i, cursorMs, best);
    if Playing(streams, i, cursorMs) {
      var k :| 0 <= k < |s.buffers| && Contains(s.buffers[k], cursorMs);
      FirstEndingContains(s, k, cursorMs);
      assert next.Some? && next.value.startMs <= cursorMs;
    }
  }

  /** A stream yet to start never wins against one that is playing. */
  lemma {:induction false} SelectMeaning(streams: seq<Stream>, i: nat, cursorMs: nat, best: Option<Choice>)
    requires Sound(streams) && i <= |streams| && Chosen(streams, i, cursorMs, best)
    ensures Chosen(streams, |streams|, cursorMs, SelectFrom(streams, i, cursorMs, best))
    decreases |streams| - i
  {
    if i == |streams| {
    } else {
      BetterChosen(streams, i, cursorMs, best);
      SelectMeaning(streams, i + 1, cursorMs, Better(streams, i, cursorMs, best));
    }
  }

  lemma DivBounds(a: nat, b: nat)
    requires b > 0
    ensures (a / b) * b <= a < (a / b) * b + b
  {
  }

  /** A cursor inside a buffer points inside its bytes. */
  lemma CursorInsidePcm(f: Format, b: Buffer, cursorMs: nat)
    requires BufferSound(f, b) && Contains(b, cursorMs)
    ensures SliceStart(f, b, cursorMs) <= ByteOffsetForElapsed(f, cursorMs - b.startMs) < |b.pcm|
  {
    var e, rate, n := cursorMs - b.startMs, f.avgBytesPerSec, |b.pcm|;
    if rate > 0 && e > 0 {
      var ms := (n * 1000) / rate;
      DivBounds(n * 1000, rate);
      assert e + 1 <= ms;
      MulMonotone(e + 1, ms, rate);
      assert (e + 1) * rate == e * rate + rate;
      assert e * rate < n * 1000;
    }
  }

  /** In every reachable state a slice is returned exactly when the cursor lies inside some queued buffer. */
  lemma SliceIffPlaying(actions: seq<Action>, cursorMs: nat, durationMs: nat)
    requires durationMs > 0
    ensures var streams := Run([], actions);
            LiveSlice(streams, cursorMs, durationMs).Some? <==> exists i :: 0 <= i < |streams| && Playing(streams, i, cursorMs)
  {
    RunSound([], actions);
    var streams := Run([], actions);
    SelectMeaning(streams, 0, cursorMs, None);
    var best := SelectFrom(streams, 0, cursorMs, None);
    if best.Some? && best.value.startMs <= cursorMs {
      var s := streams[best.value.stream];
      var b := s.buffers[best.value.buffer];
      assert BufferSound(s.format, b) && Contains(b, cursorMs);
      CursorInsidePcm(s.format, b, cursorMs);
      assert Playing(streams, best.value.stream, cursorMs);
    }
  }

  // ---- Stepping through a buffer ----

  /** The bytes of the slices taken every `stepMs` from `cursorMs` until `endMs`. */
  function Stepped(streams: seq<Stream>, cursorMs: nat, endMs: nat, stepMs: nat): seq<byte>
    requires stepMs > 0
    decreases endMs - cursorMs
  {
    if endMs <= cursorMs then []
    else
      var slice := LiveSlice(streams, cursorMs, stepMs);
      (if slice.Some? then slice.value.pcm else []) + Stepped(streams, cursorMs + stepMs, endMs, stepMs)
  }

  lemma AlignBounds(v: nat, a: nat)
    requires a > 0
    ensures AlignDown(v, a) <= v < AlignDown(v, a) + a
    ensures AlignDown(v, a) == (v / a) * a
  {
  }

  lemma AlignStep(v: nat, w: nat, a: nat)
    requires a > 0 && v + a <= w
    ensures AlignDown(v, a) + a <= AlignDown(w, a)
  {
    AlignBounds(v, a);
    AlignBounds(w, a);
    var p, q := v / a, w / a;
    assert p * a + a <= v + a <= w < q * a + a;
    assert p + 1 <= q by {
      if q <= p {
        MulMonotone(q, p, a);
      }
    }
    MulMonotone(p + 1, q, a);
    assert (p + 1) * a == p * a + a;
  }

  /** A step of enough milliseconds moves the byte offset by at least one block. */
  lemma OffsetStep(f: Format, e: nat, d: nat)
    requires d * f.avgBytesPerSec >= 1000 * BlockOf(f)
    ensures ByteOffsetForElapsed(f, e) + BlockOf(f) <= ByteOffsetForElapsed(f, e + d)
    ensures AlignDown(ByteOffsetForElapsed(f, e), BlockOf(f)) + BlockOf(f) <= AlignDown(ByteOffsetForElapsed(f, e + d), BlockOf(f))
  {
    var rate := f.avgBytesPerSec;
    assert (e + d) * rate == e * rate + d * rate;
    AlignStep(ByteOffsetForElapsed(f, e), ByteOffsetForElapsed(f, e + d), BlockOf(f));
  }

  /** No stream before number `i` in the table plays while `b` does; later streams may. */
  ghost predicate PlaysFirst(streams: seq<Stream>, i: nat, b: Buffer)
    requires i < |streams|
  {
    forall j, cursorMs | 0 <= j < i && Contains(b, cursorMs) :: !Playing(streams, j, cursorMs)
  }

  lemma {:induction false} FirstWins(streams: seq<Stream>, n: nat, i: nat, k: nat, cursorMs: nat, best: Option<Choice>)
    requires Sound(streams) && n <= i < |streams| && k < |streams[i].buffers| && Contains(streams[i].buffers[k], cursorMs)
    requires best.Some? ==> cursorMs < best.value.startMs
    requires forall j | n <= j < i :: !Playing(streams, j, cursorMs)
    ensures SelectFrom(streams, n, cursorMs, best) == Some(Choice(i, k, cursorMs))
    decreases i - n
  {
    if n == i {
      FirstEndingContains(streams[i], k, cursorMs);
      EarliestStays(streams, i + 1, cursorMs, Choice(i, k, cursorMs));
    } else {
      var next := Better(streams, n, cursorMs, best);
      if next.Some? && next.value.startMs <= cursorMs {
        assert Contains(streams[n].buffers[FirstEnding(streams[n].buffers, cursorMs)], cursorMs);
        assert Playing(streams, n, cursorMs);
      }
      FirstWins(streams, n + 1, i, k, cursorMs, next);
    }
  }

  lemma {:induction false} EarliestStays(streams: seq<Stream>, n: nat, cursorMs: nat, best: Choice)
    requires n <= |streams| && best.startMs == cursorMs
    ensures SelectFrom(streams, n, cursorMs, Some(best)) == Some(best)
    decreases |streams| - n
  {
    if n == |streams| {
    } else {
      EarliestStays(streams, n + 1, cursorMs, best);
    }
  }

  lemma PlayedSlice(streams: seq<Stream>, i: nat, k: nat, cursorMs: nat, stepMs: nat)
    requires Sound(streams) && i < |streams| && k < |streams[i].buffers| && stepMs > 0
    requires Contains(streams[i].buffers[k], cursorMs) && PlaysFirst(streams, i, streams[i].buffers[k])
    ensures var f, b := streams[i].format, streams[i].buffers[k];
            var from, to := SliceStart(f, b, cursorMs), SliceEnd(f, b, cursorMs, stepMs);
            && from < to <= |b.pcm|
            && LiveSlice(streams, cursorMs, stepMs) == Some(Slice(b.pcm[from..to], cursorMs, DurationForBytes(f, to - from)))
  {
    FirstWins(streams, 0, i, k, cursorMs, None);
    assert StreamSound(streams[i]);
    CursorInsidePcm(streams[i].format, streams[i].buffers[k], cursorMs);
  }

  /** Where the slices taken from `cursorMs` on stop. */
  function StopAt(f: Format, b: Buffer, cursorMs: nat, stepMs: nat): nat
    requires stepMs > 0 && b.startMs <= cursorMs < b.endMs
    decreases b.endMs - cursorMs
  {
    if b.endMs <= cursorMs + stepMs then SliceEnd(f, b, cursorMs, stepMs) else StopAt(f, b, cursorMs + stepMs, stepMs)
  }

  lemma JoinSlices(pcm: seq<byte>, from: nat, mid: nat, to: nat)
    requires from <= mid <= to <= |pcm|
    ensures pcm[from..mid] + pcm[mid..to] == pcm[from..to]
  {
  }

  lemma EndsWhereNextStarts(f: Format, b: Buffer, cursorMs: nat, stepMs: nat)
    requires BufferSound(f, b) && Contains(b, cursorMs) && cursorMs + stepMs < b.endMs
    requires stepMs * f.avgBytesPerSec >= 1000 * BlockOf(f)
    ensures SliceEnd(f, b, cursorMs, stepMs) == SliceStart(f, b, cursorMs + stepMs)
  {
    var e := cursorMs - b.startMs;
    OffsetStep(f, e, stepMs);
    CursorInsidePcm(f, b, cursorMs + stepMs);
    assert e + stepMs == cursorMs + stepMs - b.startMs;
  }

  /** Buffer `b` is number `k` of stream `i`, which is the first to play it, and a step is at least a block long. */
  ghost predicate SteppedThrough(streams: seq<Stream>, i: nat, k: nat, b: Buffer, f: Format, stepMs: nat) {
    && Sound(streams) && i < |streams| && k < |streams[i].buffers|
    && b == streams[i].buffers[k] && f == streams[i].format && BufferSound(f, b)
    && PlaysFirst(streams, i, b)
    && stepMs > 0 && stepMs * f.avgBytesPerSec >= 1000 * BlockOf(f)
  }

  /** One step before the end: the slice runs exactly up to where the next one starts. */
  lemma StepOnce(streams: seq<Stream>, i: nat, k: nat, b: Buffer, f: Format, cursorMs: nat, stepMs: nat, next: nat)
    returns (from: nat)
    requires SteppedThrough(streams, i, k, b, f, stepMs) && Contains(b, cursorMs) && cursorMs + stepMs < b.endMs
    requires next == SliceStart(f, b, cursorMs + stepMs)
    ensures from == SliceStart(f, b, cursorMs) && from < next <= |b.pcm|
    ensures StopAt(f, b, cursorMs, stepMs) == StopAt(f, b, cursorMs + stepMs, stepMs)
    ensures Stepped(streams, cursorMs, b.endMs, stepMs)
         == b.pcm[from..next] + Stepped(streams, cursorMs + stepMs, b.endMs, stepMs)
  {
    PlayedSlice(streams, i, k, cursorMs, stepMs);
    EndsWhereNextStarts(f, b, cursorMs, stepMs);
    from := SliceStart(f, b, cursorMs);
  }

  lemma StepLast(streams: seq<Stream>, i: nat, k: nat, b: Buffer, f: Format, cursorMs: nat, stepMs: nat)
    returns (from: nat, to: nat)
    requires SteppedThrough(streams, i, k, b, f, stepMs) && Contains(b, cursorMs) && b.endMs <= cursorMs + stepMs
    ensures from == SliceStart(f, b, cursorMs) && to == StopAt(f, b, cursorMs, stepMs)
    ensures from < to <= |b.pcm| && Stepped(streams, cursorMs, b.endMs, stepMs) == b.pcm[from..to]
  {
    PlayedSlice(streams, i, k, cursorMs, stepMs);
    from, to := SliceStart(f, b, cursorMs), StopAt(f, b, cursorMs, stepMs);
    assert Stepped(streams, cursorMs + stepMs, b.endMs, stepMs) == [];
  }

  /** The slices abut: each begins where the one before it ended. */
  lemma {:induction false} SlicesAbut(streams: seq<Stream>, i: nat, k: nat, b: Buffer, f: Format, cursorMs: nat, stepMs: nat)
    returns (from: nat, to: nat)
    requires SteppedThrough(streams, i, k, b, f, stepMs) && Contains(b, cursorMs)
    ensures from == SliceStart(f, b, cursorMs) && to == StopAt(f, b, cursorMs, stepMs)
    ensures from < to <= |b.pcm| && Stepped(streams, cursorMs, b.endMs, stepMs) == b.pcm[from..to]
    decreases b.endMs - cursorMs
  {
    if b.endMs <= cursorMs + stepMs {
      from, to := StepLast(streams, i, k, b, f, cursorMs, stepMs);
    } else {
      var next;
      next, to := SlicesAbut(streams, i, k, b, f, cursorMs + stepMs, stepMs);
      from := StepOnce(streams, i, k, b, f, cursorMs, stepMs, next);
      JoinSlices(b.pcm, from, next, to);
    }
  }

  /** The last slice reaches the byte offset of the buffer's end, and at most one block past it. */
  lemma {:induction false} StopBounds(f: Format, b: Buffer, cursorMs: nat, stepMs: nat) returns (reach: nat, to: nat)
    requires BufferSound(f, b) && Contains(b, cursorMs) && stepMs > 0
    ensures reach == ByteOffsetForElapsed(f, b.endMs - b.startMs) && to == StopAt(f, b, cursorMs, stepMs)
    ensures to <= |b.pcm| && to <= reach + BlockOf(f) && Min(AlignDown(reach, BlockOf(f)), |b.pcm|) <= to
    decreases b.endMs - cursorMs
  {
    reach, to := ByteOffsetForElapsed(f, b.endMs - b.startMs), StopAt(f, b, cursorMs, stepMs);
    AlignBounds(reach, BlockOf(f));
    if b.endMs <= cursorMs + stepMs {
      MulMonotone(cursorMs - b.startMs, b.endMs - b.startMs, f.avgBytesPerSec);
      assert ByteOffsetForElapsed(f, cursorMs - b.startMs) <= reach;
      AlignBounds(ByteOffsetForElapsed(f, cursorMs - b.startMs), BlockOf(f));
    } else {
      reach, to := StopBounds(f, b, cursorMs + stepMs, stepMs);
    }
  }

  /** The play time fits the 32 bits it is kept in. */
  predicate DurationFits(f: Format, b: Buffer)
    requires f.avgBytesPerSec > 0
  {
    (|b.pcm| * 1000) / f.avgBytesPerSec < UINT32_RANGE
  }

  lemma FitsCovers(rate: nat, n: nat, ms: nat, block: nat, aligned: nat, to: nat)
    requires rate > 0 && ms == Max(1, (n * 1000) / rate) && (ms * rate) / 1000 < aligned + block && Min(aligned, n) <= to <= n
    ensures 1000 * (n - to) < rate + 1000 * block
  {
    var exact := (n * 1000) / rate;
    DivBounds(n * 1000, rate);
    MulMonotone(exact, ms, rate);
  }

  lemma LongMisses(rate: nat, n: nat, ms: nat, block: nat, to: nat)
    requires rate > 0 && ms + (UINT32_RANGE - 1) <= (n * 1000) / rate && to <= n && to <= (ms * rate) / 1000 + block
    requires block <= 0xFFFF
    ensures 1000 * (n - to) >= rate + 1000 * block
  {
    var exact := (n * 1000) / rate;
    DivBounds(n * 1000, rate);
    MulMonotone(ms + (UINT32_RANGE - 1), exact, rate);
    assert (ms + (UINT32_RANGE - 1)) * rate == ms * rate + (UINT32_RANGE - 1) * rate;
  }

  /** How much of the buffer its play time covers, in thousandths of a byte. */
  lemma CoverageIff(f: Format, b: Buffer, reach: nat, to: nat)
    requires BufferSound(f, b) && f.avgBytesPerSec > 0 && reach == ByteOffsetForElapsed(f, b.endMs - b.startMs)
    requires to <= |b.pcm| && to <= reach + BlockOf(f) && Min(AlignDown(reach, BlockOf(f)), |b.pcm|) <= to
    ensures 1000 * (|b.pcm| - to) < f.avgBytesPerSec + 1000 * BlockOf(f) <==> DurationFits(f, b)
  {
    if DurationFits(f, b) {
      AlignBounds(reach, BlockOf(f));
      FitsCovers(f.avgBytesPerSec, |b.pcm|, b.endMs - b.startMs, BlockOf(f), AlignDown(reach, BlockOf(f)), to);
    } else {
      LongMisses(f.avgBytesPerSec, |b.pcm|, b.endMs - b.startMs, BlockOf(f), to);
    }
  }

  lemma StartsAtZero(f: Format, b: Buffer)
    ensures SliceStart(f, b, b.startMs) == 0
  {
    assert ByteOffsetForElapsed(f, 0) == 0;
    assert 0 % BlockOf(f) == 0;
  }

  lemma RatePositive(f: Format, stepMs: nat)
    requires stepMs * f.avgBytesPerSec >= 1000 * BlockOf(f)
    ensures f.avgBytesPerSec > 0
  {
  }

  lemma SteppedPrefix(streams: seq<Stream>, i: nat, k: nat, b: Buffer, f: Format, stepMs: nat) returns (to: nat)
    requires SteppedThrough(streams, i, k, b, f, stepMs)
    ensures Contains(b, b.startMs) && to == StopAt(f, b, b.startMs, stepMs)
    ensures to <= |b.pcm| && Stepped(streams, b.startMs, b.endMs, stepMs) == b.pcm[..to]
  {
    StartsAtZero(f, b);
    var from;
    from, to := SlicesAbut(streams, i, k, b, f, b.startMs, stepMs);
    assert b.pcm[0..to] == b.pcm[..to];
  }

  /**
   * Among any streams, slices taken every `stepMs` through a buffer that no earlier
   * stream plays against join up to a prefix of its bytes, and it misses less than a
   * rate/1000 and a block exactly when the buffer's play time fits 32 bits.
   */
  lemma SteppingCoversBuffer(streams: seq<Stream>, i: nat, k: nat, stepMs: nat)
    requires Sound(streams) && i < |streams| && k < |streams[i].buffers| && stepMs > 0
    requires PlaysFirst(streams, i, streams[i].buffers[k])
    requires stepMs * streams[i].format.avgBytesPerSec >= 1000 * BlockOf(streams[i].format)
    ensures streams[i].format.avgBytesPerSec > 0
    ensures var f, b := streams[i].format, streams[i].buffers[k]; var joined := Stepped(streams, b.startMs, b.endMs, stepMs);
            && joined <= b.pcm
            && (1000 * (|b.pcm| - |joined|) < f.avgBytesPerSec + 1000 * BlockOf(f) <==> DurationFits(f, b))
  {
    var f, b := streams[i].format, streams[i].buffers[k];
    assert StreamSound(streams[i]);
    RatePositive(f, stepMs);
    var to := SteppedPrefix(streams, i, k, b, f, stepMs);
    var reach, stop := StopBounds(f, b, b.startMs, stepMs);
    CoverageIff(f, b, reach, stop);
  }
}
