/**
 * One named file mapping shared by any number of emulator processes: a backing
 * file with a version number, and views that each keep a shadow of the bytes they
 * last agreed on with the file.  Each map, sync and unmap is one step.
 */
module SharedMapping {
  import opened Basics

  datatype Backing = Backing(bytes: seq<byte>, version: nat)

  // `memory` is the guest memory the view occupies.
  datatype View = View(offset: nat, memory: seq<byte>, shadow: seq<byte>, backingVersion: nat, refCount: nat)

  // A view is named by its process and its base address.
  datatype ViewId = ViewId(pid: uint32, base: uint32)

  datatype System = System(file: Backing, views: map<ViewId, View>)

  datatype Action =
    | Grow(size: nat)
    | MapView(id: ViewId, offset: nat, size: nat)
    | GuestWrite(id: ViewId, at: nat, value: byte)
    | Sync(id: ViewId, force: bool)
    | Unmap(id: ViewId)

  const MAX_VIEW_SIZE: nat := 0x0200_0000

  /** Reading past the end of the file fills the rest with zeros. */
  function ReadBytes(f: Backing, offset: nat, size: nat): (bytes: seq<byte>)
    ensures |bytes| == size
  {
    seq(size, i requires 0 <= i < size => if offset + i < |f.bytes| then f.bytes[offset + i] else 0)
  }

  /** Writing past the end of the file leaves zeros in the gap; every write bumps the version. */
  function WriteBytes(f: Backing, offset: nat, data: seq<byte>): Backing {
    if data == [] then f
    else
      var padded := if |f.bytes| < offset then f.bytes + Zeros(offset - |f.bytes|) else f.bytes;
      Backing(padded[..offset] + data + (if offset + |data| < |padded| then padded[offset + |data|..] else []),
              f.version + 1)
  }

  function Resize(f: Backing, size: nat): Backing {
    if |f.bytes| < size then Backing(f.bytes + Zeros(size - |f.bytes|), f.version) else f
  }

  function SyncedFile(v: View, f: Backing, force: bool): Backing {
    if force || v.memory != v.shadow then WriteBytes(f, v.offset, v.memory) else f
  }

  function SyncedView(v: View, f: Backing, force: bool): View {
    if force || v.memory != v.shadow then
      v.(shadow := v.memory, backingVersion := SyncedFile(v, f, force).version)
    else if f.version != v.backingVersion then
      var remote := ReadBytes(f, v.offset, |v.memory|);
      v.(memory := remote, shadow := remote, backingVersion := f.version)
    else v
  }

  /** Whether a sync reports that it moved bytes. */
  predicate SyncMoves(v: View, f: Backing, force: bool) {
    force || v.memory != v.shadow || f.version != v.backingVersion
  }

  function SyncStep(s: System, id: ViewId, force: bool): System {
    if id !in s.views then s
    else
      var v := s.views[id];
      System(SyncedFile(v, s.file, force), s.views[id := SyncedView(v, s.file, force)])
  }

  /** A process that maps the same range again gets its existing view, with one more reference. */
  predicate SameView(s: System, id: ViewId, pid: uint32, offset: nat, size: nat) {
    id in s.views && id.pid == pid && s.views[id].offset == offset && |s.views[id].memory| == size
  }

  predicate HasSameView(s: System, pid: uint32, offset: nat, size: nat) {
    exists id | id in s.views :: SameView(s, id, pid, offset, size)
  }

  function Step(s: System, a: Action): System {
    match a
    case Grow(size) => s.(file := Resize(s.file, size))
    case MapView(id, offset, size) =>
      if size == 0 || MAX_VIEW_SIZE < size || |s.file.bytes| <= offset then s
      else if SameView(s, id, id.pid, offset, size) then
        var v := s.views[id];
        SyncStep(s.(views := s.views[id := v.(refCount := Max(v.refCount, 1) + 1)]), id, false)
      else if id in s.views || HasSameView(s, id.pid, offset, size) then s
      else
        var bytes := ReadBytes(s.file, offset, size);
        s.(views := s.views[id := View(offset, bytes, bytes, s.file.version, 1)])
    case GuestWrite(id, at, value) =>
      if id !in s.views || |s.views[id].memory| <= at then s
      else s.(views := s.views[id := s.views[id].(memory := s.views[id].memory[at := value])])
    case Sync(id, force) => SyncStep(s, id, force)
    case Unmap(id) =>
      if id !in s.views then s
      else
        var t := SyncStep(s, id, false);
        if t.views[id].refCount > 1 then
          t.(views := t.views[id := t.views[id].(refCount := t.views[id].refCount - 1)])
        else t.(views := t.views - {id})
  }

  function Run(s: System, actions: seq<Action>): System
    decreases |actions|
  {
    if actions == [] then s else Run(Step(s, actions[0]), actions[1..])
  }

  // ---- The operations as one process performs them ----

  class BackingFile {
    var state: Backing

    constructor (bytes: seq<byte>)
      ensures state == Backing(bytes, 1)
    {
      state := Backing(bytes, 1);
    }

    method Read(offset: nat, size: nat) returns (bytes: seq<byte>)
      ensures bytes == ReadBytes(state, offset, size)
      ensures |bytes| == size
      ensures forall i | 0 <= i < size :: bytes[i] == if offset + i < |state.bytes| then state.bytes[offset + i] else 0
    {
      var got := if |state.bytes| <= offset then [] else state.bytes[offset..Min(offset + size, |state.bytes|)];
      bytes := got;
      while |bytes| < size
        invariant |got| <= |bytes| <= size
        invariant forall i | 0 <= i < |bytes| :: bytes[i] == ReadBytes(state, offset, size)[i]
      {
        bytes := bytes + [0];
      }
    }

    method Write(offset: nat, data: seq<byte>)
      modifies this
      ensures state == WriteBytes(old(state), offset, data)
      ensures data != [] ==> |state.bytes| == Max(|old(state.bytes)|, offset + |data|)
      ensures forall k | 0 <= k < |state.bytes| ::
                state.bytes[k] == if offset <= k < offset + |data| then data[k - offset]
                                  else if k < |old(state.bytes)| then old(state.bytes)[k] else 0
    {
      if data == [] {
        return;
      }
      var bytes := state.bytes;
      if |bytes| < offset {
        bytes := bytes + Zeros(offset - |bytes|);
      }
      var tail := if offset + |data| < |bytes| then bytes[offset + |data|..] else [];
      state := Backing(bytes[..offset] + data + tail, state.version + 1);
    }
  }

  class MappingProcess {
    const pid: uint32
    const file: BackingFile
    var views: map<ViewId, View>

    constructor (pid: uint32, file: BackingFile)
      ensures this.pid == pid && this.file == file && views == map[]
    {
      this.pid := pid;
      this.file := file;
      views := map[];
    }

    /** This process's share of the system. */
    function Share(): System
      reads this, file
    {
      System(file.state, views)
    }

    method SyncNamedMappedView(id: ViewId, forceWrite: bool) returns (moved: bool)
      requires id in views
      modifies this, file
      ensures Share() == SyncStep(old(Share()), id, forceWrite)
      ensures moved == SyncMoves(old(views[id]), old(file.state), forceWrite)
    {
      var view := views[id];
      var current := view.memory;
      if forceWrite || current != view.shadow {
        file.Write(view.offset, current);
        views := views[id := view.(shadow := current, backingVersion := file.state.version)];
        return true;
      }
      if file.state.version != view.backingVersion {
        var remote := file.Read(view.offset, |current|);
        views := views[id := view.(memory := remote, shadow := remote, backingVersion := file.state.version)];
        return true;
      }
      assert views == views[id := view];
      return false;
    }

    /** `order` is the order in which the process's view table is walked. */
    method SyncNamedMappedViews(order: seq<ViewId>)
      requires forall id | id in order :: id in views
      modifies this, file
      ensures Share() == SyncAll(old(Share()), order)
    {
      var i := 0;
      while i < |order|
        invariant i <= |order| && views.Keys == old(views.Keys)
        invariant SyncAll(Share(), order[i..]) == SyncAll(old(Share()), order)
      {
        var _ := SyncNamedMappedView(order[i], false);
        i := i + 1;
      }
    }

    method FindSameView(offset: nat, size: nat) returns (found: Option<ViewId>)
      ensures found.Some? <==> HasSameView(Share(), pid, offset, size)
      ensures found.Some? ==> SameView(Share(), found.value, pid, offset, size)
    {
      var todo := views.Keys;
      while todo != {}
        invariant todo <= views.Keys
        invariant forall id | id in views && id !in todo :: !SameView(Share(), id, pid, offset, size)
        decreases |todo|
      {
        var id :| id in todo;
        if id.pid == pid && views[id].offset == offset && |views[id].memory| == size {
          return Some(id);
        }
        todo := todo - {id};
      }
      return None;
    }

    /** `block` is the block the guest heap offers for a new view, 0 when it has none. */
    method MapViewOfFile(mappingSize: nat, offset: nat, bytesToMap: nat, block: uint32) returns (base: Option<uint32>)
      requires mappingSize <= |file.state.bytes|
      requires ViewId(pid, block) !in views
      modifies this, file
      ensures base.None? ==> Share() == old(Share())
      ensures var size := if bytesToMap != 0 || mappingSize < offset then bytesToMap else mappingSize - offset;
              && (base.None? <==> mappingSize <= offset || size == 0 || MAX_VIEW_SIZE < size ||
                                  (block == 0 && !HasSameView(old(Share()), pid, offset, size)))
              && (base.Some? ==> Share() == Step(old(Share()), MapView(ViewId(pid, base.value), offset, size)))
              && (base.Some? ==>
                    var id := ViewId(pid, base.value);
                    && id in views && views[id].offset == offset && |views[id].memory| == size
                    && views[id].memory == views[id].shadow && views[id].backingVersion == file.state.version
                    && (id !in old(views) ==>
                          && file.state == old(file.state) && views[id].refCount == 1
                          && views[id].memory == ReadBytes(file.state, offset, size))
                    && (id in old(views) ==> views[id].refCount == Max(old(views)[id].refCount, 1) + 1))
    {
      if mappingSize <= offset {
        return None;
      }
      var size := if bytesToMap != 0 then bytesToMap else mappingSize - offset;
      if size == 0 || MAX_VIEW_SIZE < size {
        return None;
      }
      var same := FindSameView(offset, size);
      if same.Some? {
        var view := views[same.value];
        views := views[same.value := view.(refCount := Max(view.refCount, 1) + 1)];
        var _ := SyncNamedMappedView(same.value, false);
        assert same.value == ViewId(pid, same.value.base);
        return Some(same.value.base);
      }
      if block == 0 {
        return None;
      }
      var bytes := file.Read(offset, size);
      views := views[ViewId(pid, block) := View(offset, bytes, bytes, file.state.version, 1)];
      return Some(block);
    }

    method UnmapViewOfFile(base: uint32) returns (ok: bool)
      modifies this, file
      ensures ok == (ViewId(pid, base) in old(views))
      ensures Share() == Step(old(Share()), Unmap(ViewId(pid, base)))
      ensures var id := ViewId(pid, base);
              ok ==>
                && views.Keys == (if old(views)[id].refCount > 1 then old(views).Keys else old(views).Keys - {id})
                && (id in views ==> views[id].refCount == old(views)[id].refCount - 1)
                && (old(views)[id].memory != old(views)[id].shadow ==>
                      ReadBytes(file.state, old(views)[id].offset, |old(views)[id].memory|) == old(views)[id].memory)
    {
      var id := ViewId(pid, base);
      if id !in views {
        return false;
      }
      var _ := SyncNamedMappedView(id, false);
      if views[id].refCount > 1 {
        views := views[id := views[id].(refCount := views[id].refCount - 1)];
      } else {
        views := views - {id};
      }
      return true;
    }

    method FlushViewOfFile(base: uint32) returns (ok: bool)
      modifies this, file
      ensures ok == (ViewId(pid, base) in old(views))
      ensures Share() == Step(old(Share()), Sync(ViewId(pid, base), true))
      ensures var id := ViewId(pid, base);
              ok ==>
                && id in views && views[id].memory == old(views)[id].memory == views[id].shadow
                && ReadBytes(file.state, views[id].offset, |views[id].memory|) == views[id].memory
    {
      if ViewId(pid, base) !in views {
        return false;
      }
      ok := SyncNamedMappedView(ViewId(pid, base), true);
    }
  }

  // ---- What every reachable state keeps ----

  /** Behind the file, or level with it and then the shadow is exactly the file slice. */
  predicate ViewSound(f: Backing, v: View) {
    && 0 < |v.memory| == |v.shadow|
    && v.backingVersion <= f.version
    && (v.backingVersion == f.version ==> v.shadow == ReadBytes(f, v.offset, |v.memory|))
  }

  ghost predicate Inv(s: System) {
    forall id | id in s.views :: ViewSound(s.file, s.views[id])
  }

  lemma WriteThenRead(f: Backing, offset: nat, data: seq<byte>)
    ensures ReadBytes(WriteBytes(f, offset, data), offset, |data|) == data
    ensures data != [] ==> WriteBytes(f, offset, data).version == f.version + 1
  {
  }

  /** A write changes nothing outside its slice, zero extension included. */
  lemma WriteElsewhere(f: Backing, offset: nat, data: seq<byte>, at: nat)
    requires at < offset || offset + |data| <= at
    ensures ReadBytes(WriteBytes(f, offset, data), at, 1) == ReadBytes(f, at, 1)
  {
  }

  lemma GrowKeepsSlices(f: Backing, size: nat, offset: nat, n: nat)
    ensures ReadBytes(Resize(f, size), offset, n) == ReadBytes(f, offset, n)
  {
  }

  lemma SyncKeepsInv(s: System, id: ViewId, force: bool)
    requires Inv(s)
    ensures Inv(SyncStep(s, id, force))
  {
    if id in s.views {
      var v, t := s.views[id], SyncStep(s, id, force);
      assert ViewSound(s.file, v);
      WriteThenRead(s.file, v.offset, v.memory);
      forall other | other in t.views ensures ViewSound(t.file, t.views[other]) {
        assert ViewSound(s.file, s.views[other]);
      }
    }
  }

  lemma StepKeepsInv(s: System, a: Action)
    requires Inv(s)
    ensures Inv(Step(s, a))
  {
    match a
    case Grow(size) =>
      forall id | id in s.views ensures ViewSound(Step(s, a).file, s.views[id]) {
        var v := s.views[id];
        assert ViewSound(s.file, v);
        GrowKeepsSlices(s.file, size, v.offset, |v.memory|);
      }
    case MapView(id, offset, size) =>
      if SameView(s, id, id.pid, offset, size) {
        var v := s.views[id];
        assert ViewSound(s.file, v);
        SyncKeepsInv(s.(views := s.views[id := v.(refCount := Max(v.refCount, 1) + 1)]), id, false);
      }
    case GuestWrite(id, at, value) =>
    case Sync(id, force) => SyncKeepsInv(s, id, force);
    case Unmap(id) => SyncKeepsInv(s, id, false);
  }

  lemma {:induction false} RunKeepsInv(s: System, actions: seq<Action>)
    requires Inv(s)
    ensures Inv(Run(s, actions))
    decreases |actions|
  {
    if actions == [] {
    } else {
      StepKeepsInv(s, actions[0]);
      RunKeepsInv(Step(s, actions[0]), actions[1..]);
    }
  }

  // ---- Only guests write ----

  predicate CleanView(v: View) { v.memory == v.shadow }

  /** No step but a guest's write makes a view dirty or brings in a dirty one. */
  lemma StepKeepsClean(s: System, a: Action, id: ViewId)
    requires !(a.GuestWrite? && a.id == id) && (id in s.views ==> CleanView(s.views[id]))
    ensures id in Step(s, a).views ==> CleanView(Step(s, a).views[id])
  {
  }

  /** Steps in which no guest writes and no view is flushed. */
  predicate Quiet(actions: seq<Action>) {
    forall a | a in actions :: !a.GuestWrite? && (a.Sync? ==> !a.force)
  }

  lemma QuietStep(s: System, a: Action)
    requires Clean(s, s.views.Keys) && Quiet([a])
    ensures var t := Step(s, a);
            && Clean(t, t.views.Keys) && t.file.version == s.file.version
            && forall offset, n :: ReadBytes(t.file, offset, n) == ReadBytes(s.file, offset, n)
  {
    assert a in [a];
    forall id | id in Step(s, a).views ensures CleanView(Step(s, a).views[id]) {
      StepKeepsClean(s, a, id);
    }
    match a
    case Grow(size) =>
      forall offset, n ensures ReadBytes(Step(s, a).file, offset, n) == ReadBytes(s.file, offset, n) {
        GrowKeepsSlices(s.file, size, offset, n);
      }
    case _ =>
  }

  /** With every view clean, mapping, unmapping and unforced syncs leave them clean and the file's contents alone. */
  lemma {:induction false} QuietRun(s: System, actions: seq<Action>)
    requires Clean(s, s.views.Keys) && Quiet(actions)
    ensures var t := Run(s, actions);
            && Clean(t, t.views.Keys) && t.file.version == s.file.version
            && forall offset, n :: ReadBytes(t.file, offset, n) == ReadBytes(s.file, offset, n)
    decreases |actions|
  {
    if actions == [] {
    } else {
      assert actions[0] in actions && Quiet([actions[0]]);
      QuietStep(s, actions[0]);
      QuietRun(Step(s, actions[0]), actions[1..]);
    }
  }

  // ---- How often a view is mapped ----

  /** Every view is mapped at least once. */
  ghost predicate Counted(s: System) {
    forall id | id in s.views :: 0 < s.views[id].refCount
  }

  /** Whether mapping this range at `id` succeeds. */
  predicate MapSucceeds(s: System, id: ViewId, offset: nat, size: nat) {
    && 0 < size <= MAX_VIEW_SIZE && offset < |s.file.bytes|
    && (if id in s.views then SameView(s, id, id.pid, offset, size) else !HasSameView(s, id.pid, offset, size))
  }

  /** The maps of a view in a run that its unmaps have not undone, having been mapped `n` times before. */
  function StillMapped(s: System, actions: seq<Action>, id: ViewId, n: nat): nat
    decreases |actions|
  {
    if actions == [] then n
    else
      var a := actions[0];
      var m: nat := if a.MapView? && a.id == id && MapSucceeds(s, id, a.offset, a.size) then n + 1
                    else if a.Unmap? && a.id == id && n > 0 then n - 1 else n;
      StillMapped(Step(s, a), actions[1..], id, m)
  }

  function References(s: System, id: ViewId): nat {
    if id in s.views then s.views[id].refCount else 0
  }

  lemma StepCounts(s: System, a: Action, id: ViewId)
    requires Counted(s)
    ensures Counted(Step(s, a))
    ensures References(Step(s, a), id) ==
            if a.MapView? && a.id == id && MapSucceeds(s, id, a.offset, a.size) then References(s, id) + 1
            else if a.Unmap? && a.id == id && References(s, id) > 0 then References(s, id) - 1
            else References(s, id)
  {
  }

  /** In every run a view is there exactly as long as it has been mapped more often than unmapped. */
  lemma {:induction false} RunCountsReferences(s: System, actions: seq<Action>, id: ViewId)
    requires Counted(s)
    ensures Counted(Run(s, actions))
    ensures References(Run(s, actions), id) == StillMapped(s, actions, id, References(s, id))
    ensures id in Run(s, actions).views <==> StillMapped(s, actions, id, References(s, id)) > 0
    decreases |actions|
  {
    if actions == [] {
    } else {
      StepCounts(s, actions[0], id);
      RunCountsReferences(Step(s, actions[0]), actions[1..], id);
    }
  }

  /** A view mapped n times survives n - 1 unmaps and goes at the n-th. */
  lemma {:induction false} GoesAtLastUnmap(s: System, id: ViewId, unmaps: seq<Action>)
    requires Counted(s) && id in s.views && forall i | 0 <= i < |unmaps| :: unmaps[i] == Unmap(id)
    ensures id in Run(s, unmaps).views <==> |unmaps| < s.views[id].refCount
    decreases |unmaps|
  {
    if unmaps == [] {
    } else {
      var t := Step(s, unmaps[0]);
      StepCounts(s, unmaps[0], id);
      if id in t.views {
        GoesAtLastUnmap(t, id, unmaps[1..]);
      } else {
        StaysUnmapped(t, id, unmaps[1..]);
      }
    }
  }

  lemma {:induction false} StaysUnmapped(s: System, id: ViewId, unmaps: seq<Action>)
    requires id !in s.views && forall i | 0 <= i < |unmaps| :: unmaps[i] == Unmap(id)
    ensures id !in Run(s, unmaps).views
    decreases |unmaps|
  {
    if unmaps == [] {
    } else {
      StaysUnmapped(Step(s, unmaps[0]), id, unmaps[1..]);
    }
  }

  // ---- Convergence once the guests stop writing ----

  function SyncAll(s: System, order: seq<ViewId>): System
    decreases |order|
  {
    if order == [] then s else SyncAll(SyncStep(s, order[0], false), order[1..])
  }

  ghost predicate Clean(s: System, ids: set<ViewId>) {
    forall id | id in ids && id in s.views :: s.views[id].memory == s.views[id].shadow
  }

  ghost predicate Level(s: System, ids: set<ViewId>) {
    forall id | id in ids && id in s.views :: s.views[id].backingVersion == s.file.version
  }

  /** One unforced round leaves every view it touched clean. */
  lemma {:induction false} FirstRoundCleans(s: System, order: seq<ViewId>, done: set<ViewId>)
    requires Inv(s) && Clean(s, done)
    ensures var t := SyncAll(s, order);
            Inv(t) && t.views.Keys == s.views.Keys && Clean(t, done + (set id | id in order))
    decreases |order|
  {
    if order == [] {
    } else {
      var id := order[0];
      var t := SyncStep(s, id, false);
      SyncKeepsInv(s, id, false);
      FirstRoundCleans(t, order[1..], done + {id});
      assert done + {id} + (set x | x in order[1..]) == done + (set x | x in order) by {
        assert order == [id] + order[1..];
      }
    }
  }

  /** With every view clean a round only reads: the file stays and each view it touched is level. */
  lemma {:induction false} SecondRoundLevels(s: System, order: seq<ViewId>, done: set<ViewId>)
    requires Inv(s) && Clean(s, s.views.Keys) && Level(s, done)
    ensures var t := SyncAll(s, order);
            && Inv(t) && t.file == s.file && t.views.Keys == s.views.Keys
            && Clean(t, t.views.Keys) && Level(t, done + (set id | id in order))
    decreases |order|
  {
    if order == [] {
    } else {
      var id := order[0];
      var t := SyncStep(s, id, false);
      SyncKeepsInv(s, id, false);
      SecondRoundLevels(t, order[1..], done + {id});
      assert done + {id} + (set x | x in order[1..]) == done + (set x | x in order) by {
        assert order == [id] + order[1..];
      }
    }
  }

  /**
   * In any reachable state, once the guests stop writing, two rounds of unforced
   * syncs that each touch every view, in any two orders, leave every view's memory
   * equal to its slice of the file.
   */
  lemma TwoRoundsConverge(s: System, actions: seq<Action>, first: seq<ViewId>, second: seq<ViewId>)
    requires Inv(s)
    requires forall id | id in Run(s, actions).views :: id in first && id in second
    ensures var t := SyncAll(SyncAll(Run(s, actions), first), second);
            && t.views.Keys == Run(s, actions).views.Keys
            && forall id | id in t.views :: t.views[id].memory == ReadBytes(t.file, t.views[id].offset, |t.views[id].memory|)
  {
    RunKeepsInv(s, actions);
    var r := Run(s, actions);
    FirstRoundCleans(r, first, {});
    var m := SyncAll(r, first);
    SecondRoundLevels(m, second, {});
    var t := SyncAll(m, second);
    forall id | id in t.views ensures t.views[id].memory == ReadBytes(t.file, t.views[id].offset, |t.views[id].memory|) {
      assert ViewSound(t.file, t.views[id]);
    }
  }

  /** A view that is level after a round shows its slice of the file. */
  lemma LevelShowsFile(s: System, order: seq<ViewId>, id: ViewId)
    requires Inv(s) && id in order && id in s.views
    ensures var t := SyncAll(s, order);
            && id in t.views
            && (Level(t, {id}) ==> t.views[id].memory == ReadBytes(t.file, t.views[id].offset, |t.views[id].memory|))
  {
    FirstRoundCleans(s, order, {});
    var t := SyncAll(s, order);
    assert ViewSound(t.file, t.views[id]);
  }

  /** One round is not enough: a view synced before the writer stays behind. */
  lemma OneRoundMayNotConverge()
    ensures exists s: System, order: seq<ViewId>, id ::
              && Inv(s) && (forall k | k in s.views :: k in order) && id in SyncAll(s, order).views
              && var t := SyncAll(s, order);
                 t.views[id].memory != ReadBytes(t.file, t.views[id].offset, |t.views[id].memory|)
  {
    var reader, writer := ViewId(1, 0), ViewId(2, 0);
    var s := System(Backing([0], 1), map[reader := View(0, [0], [0], 1, 1), writer := View(0, [7], [0], 1, 1)]);
    var order := [reader, writer];
    assert ReadBytes(s.file, 0, 1) == [0];
    assert Inv(s);
    var s1 := SyncStep(s, reader, false);
    assert s1.file == s.file;
    var s2 := SyncStep(s1, writer, false);
    assert order[1..] == [writer] && order[1..][1..] == [];
    assert SyncAll(s, order) == SyncAll(s1, [writer]) == SyncAll(s2, []) == s2;
    assert s2.views[reader].memory == [0] && ReadBytes(s2.file, 0, 1)[0] == 7;
  }

  ghost predicate NoRepeats(order: seq<ViewId>) {
    forall i, j | 0 <= i < j < |order| :: order[i] != order[j]
  }

  /** A view the round does not touch stays as it is, and the file's version never goes down. */
  lemma {:induction false} RoundLeavesOthers(s: System, order: seq<ViewId>, id: ViewId)
    requires id in s.views && id !in order
    ensures var t := SyncAll(s, order); id in t.views && t.views[id] == s.views[id] && s.file.version <= t.file.version
    decreases |order|
  {
    if order == [] {
    } else {
      RoundLeavesOthers(SyncStep(s, order[0], false), order[1..], id);
    }
  }

  /** A dirty view leaves every earlier one behind. */
  lemma DirtyLeavesBehind(s: System, id: ViewId, rest: seq<ViewId>, first: ViewId)
    requires Inv(s) && id in s.views && s.views[id].memory != s.views[id].shadow
    requires first in s.views && first != id && first !in rest && s.views[first].backingVersion == s.file.version
    ensures var t := SyncAll(SyncStep(s, id, false), rest); !Level(t, t.views.Keys)
  {
    var m := SyncStep(s, id, false);
    assert ViewSound(s.file, s.views[id]);
    RoundLeavesOthers(m, rest, first);
    var t := SyncAll(m, rest);
    assert first in t.views.Keys && t.views[first].backingVersion < t.file.version;
  }

  lemma CleanPassesOver(s: System, id: ViewId, rest: seq<ViewId>)
    requires id in s.views && s.views[id].memory == s.views[id].shadow
    ensures Clean(SyncStep(s, id, false), set x | x in rest) <==> Clean(s, set x | x in [id] + rest)
  {
    var t, later := SyncStep(s, id, false), set x | x in rest;
    assert (set x | x in [id] + rest) == {id} + later;
    assert forall x | x in later && x != id && x in s.views :: t.views[x] == s.views[x];
  }

  /** With one view level already, the rest of a round levels every view iff it finds only clean ones. */
  lemma {:induction false} RestLevelsIff(s: System, order: seq<ViewId>, done: set<ViewId>, first: ViewId)
    requires Inv(s) && NoRepeats(order) && first in done && Level(s, done)
    requires s.views.Keys == done + (set id | id in order) && forall id | id in order :: id !in done
    ensures var t := SyncAll(s, order); Level(t, t.views.Keys) <==> Clean(s, set id | id in order)
    decreases |order|
  {
    if order == [] {
    } else {
      var id, rest := order[0], order[1..];
      assert order == [id] + rest;
      if s.views[id].memory == s.views[id].shadow {
        SyncKeepsInv(s, id, false);
        RestLevelsIff(SyncStep(s, id, false), rest, done + {id}, first);
        CleanPassesOver(s, id, rest);
      } else {
        assert id in order;
        DirtyLeavesBehind(s, id, rest, first);
      }
    }
  }

  /** One round over every view brings all of them to the file's version iff at most the first one it meets is dirty. */
  lemma OneRoundLevelsIff(s: System, order: seq<ViewId>)
    requires Inv(s) && NoRepeats(order) && order != [] && s.views.Keys == set id | id in order
    ensures var t := SyncAll(s, order); Level(t, t.views.Keys) <==> Clean(s, s.views.Keys - {order[0]})
  {
    var id, rest := order[0], order[1..];
    var others := set x | x in rest;
    assert order == [id] + rest && s.views.Keys - {id} == others;
    var m := SyncStep(s, id, false);
    SyncKeepsInv(s, id, false);
    RestLevelsIff(m, rest, {id}, id);
    assert Clean(m, others) <==> Clean(s, others) by {
      assert forall x | x in others :: x != id && m.views[x] == s.views[x];
    }
  }

  // ---- What a dirty sync publishes: the whole view ----

  /** Which bytes of a view its guest has not written since the view last met the file. */
  predicate Untouched(v: View, i: nat)
    requires |v.memory| == |v.shadow|
  {
    i < |v.memory| && v.memory[i] == v.shadow[i]
  }

  /** The file still holds the shadow's bytes wherever the guest wrote nothing. */
  predicate NothingToRevert(f: Backing, v: View)
    requires |v.memory| == |v.shadow|
  {
    forall i | 0 <= i < |v.memory| && Untouched(v, i) :: v.shadow[i] == ReadBytes(f, v.offset, |v.memory|)[i]
  }

  /**
   * A sync that writes, because the view is dirty or it is a flush, leaves the file
   * alone at every byte its guest did not change iff the shadow still agrees with
   * the file there; a view that is level does.
   */
  lemma WritingSyncRevertsIff(s: System, id: ViewId, force: bool)
    requires Inv(s) && id in s.views && (force || s.views[id].memory != s.views[id].shadow)
    ensures var v := s.views[id]; var t := SyncStep(s, id, force); var n := |v.memory|;
            && |v.memory| == |v.shadow|
            && ((forall i | 0 <= i < n && Untouched(v, i) ::
                   ReadBytes(t.file, v.offset, n)[i] == ReadBytes(s.file, v.offset, n)[i])
                <==> NothingToRevert(s.file, v))
            && (v.backingVersion == s.file.version ==> NothingToRevert(s.file, v))
  {
    var v := s.views[id];
    assert ViewSound(s.file, v);
    WriteThenRead(s.file, v.offset, v.memory);
  }

  /** Views `a` and `b` of one two-byte file are mapped; the guest of `a` writes the first byte, then that of `b` the second. */
  function TwoWriters(a: ViewId, b: ViewId): seq<Action> {
    [MapView(a, 0, 2), MapView(b, 0, 2), GuestWrite(a, 0, 7), Sync(a, false), GuestWrite(b, 1, 9), Sync(b, false)]
  }

  /** The second writer's sync takes back the first one's byte, which was already in the file. */
  lemma LoneWriterMayRevert(a: ViewId, b: ViewId)
    requires a.pid != b.pid
    ensures Run(System(Backing([0, 0], 1), map[]), TwoWriters(a, b)[..4]).file.bytes == [7, 0]
    ensures Run(System(Backing([0, 0], 1), map[]), TwoWriters(a, b)).file.bytes == [0, 9]
  {
    var s, actions := System(Backing([0, 0], 1), map[]), TwoWriters(a, b);
    var view := View(0, [0, 0], [0, 0], 1, 1);
    assert ReadBytes(s.file, 0, 2) == [0, 0];
    var s1 := Step(s, actions[0]);
    assert s1.views == map[a := view] && !HasSameView(s1, b.pid, 0, 2);
    var s2 := Step(s1, actions[1]);
    assert s2.views == map[a := view, b := view];
    var s3 := Step(s2, actions[2]);
    assert s3.views[a].memory == [7, 0];
    var s4 := Step(s3, actions[3]);
    assert s4.file == Backing([7, 0], 2);
    var s5 := Step(s4, actions[4]);
    assert s5.views[b].memory == [0, 9];
    var s6 := Step(s5, actions[5]);
    assert s6.file == Backing([0, 9], 3);
    RunTwo(s, s1, s2, actions[..4]);
    RunTwo(s2, s3, s4, actions[2..4]);
    RunTwo(s, s1, s2, actions);
    RunTwo(s2, s3, s4, actions[2..]);
    RunTwo(s4, s5, s6, actions[4..]);
  }

  lemma RunTwo(s: System, t: System, u: System, actions: seq<Action>)
    requires |actions| >= 2 && t == Step(s, actions[0]) && u == Step(t, actions[1])
    ensures Run(s, actions) == Run(u, actions[2..])
  {
    assert actions[1..][1..] == actions[2..];
  }

  /** One round writes the only unsynced view to the file, and nothing else. */
  lemma {:induction false} LoneWriterRound(s: System, order: seq<ViewId>, w: ViewId)
    requires Inv(s) && w in s.views && Clean(s, s.views.Keys - {w})
    ensures var t := SyncAll(s, order); var v := s.views[w];
            && t.views.Keys == s.views.Keys
            && (w in order && v.memory != v.shadow ==>
                  && t.views[w].memory == v.memory
                  && t.file == WriteBytes(s.file, v.offset, v.memory))
            && (w !in order ==> t.file == s.file && t.views[w] == v)
    decreases |order|
  {
    if order == [] {
    } else {
      var id := order[0];
      var t := SyncStep(s, id, false);
      SyncKeepsInv(s, id, false);
      assert order == [id] + order[1..];
      if id == w && s.views[w].memory != s.views[w].shadow {
        assert ViewSound(s.file, s.views[w]);
        WriterSettled(t, order[1..], w);
      } else {
        LoneWriterRound(t, order[1..], w);
      }
    }
  }

  /** With every view clean and `w` level, further syncs change neither the file nor `w`. */
  lemma {:induction false} WriterSettled(s: System, order: seq<ViewId>, w: ViewId)
    requires Inv(s) && w in s.views && Clean(s, s.views.Keys) && s.views[w].backingVersion == s.file.version
    ensures var t := SyncAll(s, order);
            t.views.Keys == s.views.Keys && t.file == s.file && t.views[w] == s.views[w]
    decreases |order|
  {
    if order == [] {
    } else {
      SyncKeepsInv(s, order[0], false);
      WriterSettled(SyncStep(s, order[0], false), order[1..], w);
    }
  }

  /**
   * When only one view holds unsynced guest writes, two rounds publish that whole
   * view, the bytes its guest did not write included: the writer's memory is
   * unchanged, and every view shows the writer's bytes where it overlaps the writer
   * and the old file bytes elsewhere.
   */
  lemma LoneWriterWins(s: System, first: seq<ViewId>, second: seq<ViewId>, w: ViewId)
    requires Inv(s) && w in s.views && Clean(s, s.views.Keys - {w}) && s.views[w].memory != s.views[w].shadow
    requires forall id | id in s.views :: id in first && id in second
    ensures var t := SyncAll(SyncAll(s, first), second); var v := s.views[w];
            && t.views.Keys == s.views.Keys
            && t.file == WriteBytes(s.file, v.offset, v.memory)
            && t.views[w].memory == v.memory
            && forall id | id in t.views :: t.views[id].memory == ReadBytes(t.file, t.views[id].offset, |t.views[id].memory|)
  {
    LoneWriterRound(s, first, w);
    FirstRoundCleans(s, first, {});
    SecondRoundLevels(SyncAll(s, first), second, {});
    TwoRoundsConverge(s, [], first, second);
    var t := SyncAll(SyncAll(s, first), second);
    assert ViewSound(s.file, s.views[w]);
    WriteThenRead(s.file, s.views[w].offset, s.views[w].memory);
    SyncKeepsOffsets(s, first);
    SyncKeepsOffsets(SyncAll(s, first), second);
    assert t.views[w].memory == ReadBytes(t.file, t.views[w].offset, |t.views[w].memory|);
  }

  lemma {:induction false} SyncKeepsOffsets(s: System, order: seq<ViewId>)
    ensures var t := SyncAll(s, order);
            t.views.Keys == s.views.Keys &&
            forall id | id in s.views :: t.views[id].offset == s.views[id].offset && |t.views[id].memory| == |s.views[id].memory|
    decreases |order|
  {
    if order == [] {
    } else {
      SyncKeepsOffsets(SyncStep(s, order[0], false), order[1..]);
    }
  }
}
