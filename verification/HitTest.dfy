/** The window stack: ownership chains, stacking order, active popups and hit testing. */
module HitTest {
  import opened Basics

  datatype Rect = Rect(left: int, top: int, right: int, bottom: int)

  datatype Window = Window(
    parent: uint32, owner: uint32, root: uint32, style: uint32, zOrder: nat, windowRect: Rect, visibleRect: Rect,
    visible: bool, enabled: bool, destroyed: bool, hasVisibleRegion: bool)

  type Windows = map<uint32, Window>

  datatype HitTestResult = HitTestResult(hwnd: uint32, blocker: uint32, clientX: int, clientY: int, blockedByModal: bool)

  predicate HasChildStyle(s: Window) { s.style / 0x4000_0000 % 2 == 1 }

  predicate HasPopupStyle(s: Window) { s.style / 0x8000_0000 % 2 == 1 }

  predicate IsPopup(s: Window) { HasPopupStyle(s) && !HasChildStyle(s) }

  predicate Shown(s: Window) { !s.destroyed && s.visible && s.enabled && s.hasVisibleRegion }

  predicate ContainsPoint(s: Window, x: int, y: int) {
    s.hasVisibleRegion && s.visibleRect.left <= x < s.visibleRect.right && s.visibleRect.top <= y < s.visibleRect.bottom
  }

  function StackPriority(s: Window): nat {
    if !HasChildStyle(s) && HasPopupStyle(s) then 0
    else if !HasChildStyle(s) && s.owner != 0 then 1
    else if HasChildStyle(s) then 2
    else 3
  }

  /** The comparison the stacking order sorts by. */
  predicate Before(w: Windows, a: uint32, b: uint32)
    requires a in w && b in w
  {
    var left, right := w[a], w[b];
    if StackPriority(left) != StackPriority(right) then StackPriority(left) < StackPriority(right)
    else if left.zOrder != right.zOrder then left.zOrder > right.zOrder
    else a > b
  }

  // ---- Chains of parents and owners ----

  /** The next handle of a chain: parents only, or owners too. */
  function Above(s: Window, owners: bool): uint32 {
    if HasChildStyle(s) then s.parent else if owners then s.owner else 0
  }

  /** Where a chain is after `n` steps; it stays at 0 once it has left the known windows. */
  function Climb(w: Windows, hwnd: uint32, n: nat, owners: bool): uint32 {
    if n == 0 then hwnd
    else
      var c := Climb(w, hwnd, n - 1, owners);
      if c in w then Above(w[c], owners) else 0
  }

  /** No window comes back to itself. */
  ghost predicate Acyclic(w: Windows) {
    forall hwnd, n: nat | hwnd in w && n > 0 :: Climb(w, hwnd, n, true) != hwnd
  }

  ghost predicate InStack(w: Windows, hwnd: uint32, ancestor: uint32) {
    hwnd != 0 && ancestor != 0 && exists n: nat :: Climb(w, hwnd, n, true) == ancestor
  }

  /** Every known window on the way up the parents is shown. */
  ghost predicate VisibleEnabled(w: Windows, hwnd: uint32) {
    hwnd in w && forall n: nat :: ShownAt(w, hwnd, n)
  }

  predicate ShownAt(w: Windows, hwnd: uint32, n: nat) {
    var c := Climb(w, hwnd, n, false);
    c in w ==> Shown(w[c])
  }

  // ---- The stacking order and what a hit test looks for ----

  ghost predicate Listed(w: Windows, root: uint32, hwnd: uint32) {
    && hwnd in w && !w[hwnd].destroyed
    && (root == 0 || w[hwnd].root == root || hwnd == root || InStack(w, hwnd, root))
  }

  predicate Ordered(w: Windows, list: seq<uint32>) {
    && (forall i | 0 <= i < |list| :: list[i] in w)
    && (forall i, j | 0 <= i < j < |list| :: Before(w, list[i], list[j]))
  }

  ghost function Popups(w: Windows, root: uint32): set<uint32> {
    set h | h in w && Listed(w, root, h) && VisibleEnabled(w, h) && IsPopup(w[h]) && w[h].root == root
  }

  ghost function Targets(w: Windows, root: uint32, popup: uint32, x: int, y: int): set<uint32> {
    set h | h in w && Listed(w, root, h) && VisibleEnabled(w, h) && ContainsPoint(w[h], x, y) &&
            (popup != 0 ==> InStack(w, h, popup))
  }

  /** `hwnd` stacks above everything else in the set, or is 0 when the set is empty. */
  ghost predicate IsTop(w: Windows, s: set<uint32>, hwnd: uint32) {
    if s == {} then hwnd == 0 else hwnd in s && hwnd in w && forall o | o in s && o in w && o != hwnd :: Before(w, hwnd, o)
  }

  /** A root that is unknown or destroyed is ignored. */
  function EffectiveRoot(w: Windows, root: uint32): uint32 {
    if root in w && !w[root].destroyed then root else 0
  }

  ghost predicate IsActivePopup(w: Windows, root: uint32, popup: uint32) {
    if root == 0 then popup == 0 else IsTop(w, Popups(w, root), popup)
  }

  function ClientPoint(w: Windows, hwnd: uint32, x: int, y: int): (int, int) {
    if hwnd in w then (x - w[hwnd].windowRect.left, y - w[hwnd].windowRect.top) else (0, 0)
  }

  /** What a hit test answers, given the active popup. */
  ghost predicate Answers(w: Windows, root: uint32, x: int, y: int, popup: uint32, r: HitTestResult) {
    if popup in w && !ContainsPoint(w[popup], x, y) then
      var (clientX, clientY) := ClientPoint(w, popup, x, y);
      r == HitTestResult(0, popup, clientX, clientY, true)
    else
      var (clientX, clientY) := ClientPoint(w, r.hwnd, x, y);
      && IsTop(w, Targets(w, root, popup, x, y), r.hwnd)
      && r == HitTestResult(r.hwnd, 0, clientX, clientY, false)
  }

  ghost predicate IsHit(w: Windows, root: uint32, x: int, y: int, r: HitTestResult) {
    exists popup :: IsActivePopup(w, root, popup) && Answers(w, root, x, y, popup, r)
  }

  // ---- The class ----

  class CeGweWindows {
    var windowRegions: Windows

    ghost predicate Valid()
      reads this
    {
      0 !in windowRegions && Acyclic(windowRegions)
    }

    constructor ()
      ensures Valid() && windowRegions == map[]
    {
      windowRegions := map[];
    }

    method UpdateWindowState(hwnd: uint32, parent: uint32, owner: uint32, root: uint32, style: uint32, zOrder: nat,
                             x: int, y: int, width: int, height: int, visible: bool, enabled: bool, destroyed: bool)
      requires 0 !in windowRegions
      modifies this
      ensures hwnd == 0 ==> windowRegions == old(windowRegions)
      ensures hwnd != 0 ==>
                var area := Rect(x, y, x + width, y + height);
                windowRegions == old(windowRegions)[hwnd := Window(
                  parent, owner, if root != 0 then root else hwnd, style, zOrder, area,
                  if visible && !destroyed then area else Rect(0, 0, 0, 0),
                  visible, enabled, destroyed, visible && !destroyed)]
      ensures 0 !in windowRegions
    {
      if hwnd == 0 {
        return;
      }
      var windowRect := Rect(x, y, x + width, y + height);
      var hasVisibleRegion := visible && !destroyed;
      var visibleRect := if hasVisibleRegion then windowRect else Rect(0, 0, 0, 0);
      windowRegions := windowRegions[hwnd := Window(
        parent, owner, if root != 0 then root else hwnd, style, zOrder, windowRect, visibleRect,
        visible, enabled, destroyed, hasVisibleRegion)];
    }

    method UnregisterWindow(hwnd: uint32)
      requires Valid()
      modifies this
      ensures windowRegions == old(windowRegions) - {hwnd}
      ensures Valid()
    {
      RemovalKeepsAcyclic(windowRegions, hwnd);
      windowRegions := windowRegions - {hwnd};
    }

    method IsVisibleEnabled(hwnd: uint32) returns (r: bool)
      requires Valid()
      ensures r <==> VisibleEnabled(windowRegions, hwnd)
    {
      var w := windowRegions;
      if hwnd !in w || !Shown(w[hwnd]) {
        assert hwnd in w ==> !ShownAt(w, hwnd, 0);
        return false;
      }
      var current := if HasChildStyle(w[hwnd]) then w[hwnd].parent else 0;
      ghost var n := 1;
      ghost var seen: set<uint32> := {hwnd};
      while current != 0
        invariant current == Climb(w, hwnd, n, false) && Passed(w, hwnd, n, false, seen)
        invariant forall k: nat | k < n :: ShownAt(w, hwnd, k)
        decreases w.Keys - seen
      {
        if current !in w {
          break;
        }
        Unseen(w, hwnd, n, false, seen);
        if !Shown(w[current]) {
          assert !ShownAt(w, hwnd, n);
          return false;
        }
        seen := seen + {current};
        n := n + 1;
        current := if HasChildStyle(w[current]) then w[current].parent else 0;
      }
      forall k: nat ensures ShownAt(w, hwnd, k) {
        if k >= n {
          ChainStaysOut(w, hwnd, n, k, false);
        }
      }
      return true;
    }

    method IsWindowInStack(hwnd: uint32, ancestor: uint32) returns (r: bool)
      requires Valid()
      ensures r <==> InStack(windowRegions, hwnd, ancestor)
    {
      if hwnd == 0 || ancestor == 0 {
        return false;
      }
      var w := windowRegions;
      var current := hwnd;
      ghost var n := 0;
      ghost var seen: set<uint32> := {};
      while current != 0
        invariant current == Climb(w, hwnd, n, true) && Passed(w, hwnd, n, true, seen)
        invariant forall k: nat | k < n :: Climb(w, hwnd, k, true) != ancestor
        decreases w.Keys - seen
      {
        if current == ancestor {
          return true;
        }
        if current !in w {
          break;
        }
        Unseen(w, hwnd, n, true, seen);
        seen := seen + {current};
        n := n + 1;
        current := if HasChildStyle(w[current]) then w[current].parent else w[current].owner;
      }
      forall k: nat ensures Climb(w, hwnd, k, true) != ancestor {
        if k >= n {
          ChainStaysOut(w, hwnd, n, k, true);
        }
      }
      return false;
    }

    /** The library sort is modelled by placing each handle; the strict order leaves only one sorted list. */
    method OrderedWindowsTopToBottom(root: uint32) returns (ordered: seq<uint32>)
      requires Valid()
      ensures Ordered(windowRegions, ordered)
      ensures forall h :: h in ordered <==> Listed(windowRegions, root, h)
    {
      var w := windowRegions;
      ordered := [];
      var left := w.Keys;
      while left != {}
        invariant left <= w.Keys && Ordered(w, ordered)
        invariant forall h :: h in ordered <==> h !in left && Listed(w, root, h)
        decreases left
      {
        var hwnd :| hwnd in left;
        left := left - {hwnd};
        if w[hwnd].destroyed {
          continue;
        }
        if root != 0 && w[hwnd].root != root && hwnd != root {
          var inStack := IsWindowInStack(hwnd, root);
          if !inStack {
            continue;
          }
        }
        PlaceOrdered(w, ordered, hwnd);
        ordered := Place(w, ordered, hwnd);
      }
    }

    method ActivePopupForRoot(root: uint32) returns (popup: uint32)
      requires Valid()
      ensures IsTop(windowRegions, Popups(windowRegions, root), popup)
    {
      var w := windowRegions;
      var ordered := OrderedWindowsTopToBottom(root);
      var i := 0;
      while i < |ordered|
        invariant i <= |ordered| && forall j | 0 <= j < i :: ordered[j] !in Popups(w, root)
      {
        var hwnd := ordered[i];
        var live := IsVisibleEnabled(hwnd);
        if live && IsPopup(w[hwnd]) && w[hwnd].root == root {
          FirstIsTop(w, ordered, i, Popups(w, root));
          return hwnd;
        }
        i := i + 1;
      }
      return 0;
    }

    method HitTest(root: uint32, x: int, y: int) returns (r: HitTestResult)
      requires Valid()
      ensures IsHit(windowRegions, EffectiveRoot(windowRegions, root), x, y, r)
    {
      var w := windowRegions;
      var effectiveRoot := root;
      if root !in w || w[root].destroyed {
        effectiveRoot := 0;
      }
      var modalPopup := 0;
      if effectiveRoot != 0 {
        modalPopup := ActivePopupForRoot(effectiveRoot);
      }
      assert IsActivePopup(w, effectiveRoot, modalPopup);
      if modalPopup != 0 && !ContainsPoint(w[modalPopup], x, y) {
        r := HitTestResult(0, modalPopup, x - w[modalPopup].windowRect.left, y - w[modalPopup].windowRect.top, true);
        return;
      }
      ghost var targets := Targets(w, effectiveRoot, modalPopup, x, y);
      var ordered := OrderedWindowsTopToBottom(effectiveRoot);
      var i := 0;
      while i < |ordered|
        invariant i <= |ordered| && forall j | 0 <= j < i :: ordered[j] !in targets
      {
        var hwnd := ordered[i];
        var live := IsVisibleEnabled(hwnd);
        var inPopup := true;
        if modalPopup != 0 {
          inPopup := IsWindowInStack(hwnd, modalPopup);
        }
        if live && ContainsPoint(w[hwnd], x, y) && inPopup {
          FirstIsTop(w, ordered, i, targets);
          r := HitTestResult(hwnd, 0, x - w[hwnd].windowRect.left, y - w[hwnd].windowRect.top, false);
          return;
        }
        i := i + 1;
      }
      r := HitTestResult(0, 0, 0, 0, false);
    }
  }

  // ---- The stacking order is a strict total order ----

  lemma BeforeIsStrictTotal(w: Windows, a: uint32, b: uint32, c: uint32)
    requires a in w && b in w && c in w
    ensures !Before(w, a, a)
    ensures a != b ==> (Before(w, a, b) <==> !Before(w, b, a))
    ensures Before(w, a, b) && Before(w, b, c) ==> Before(w, a, c)
  {
  }

  function Place(w: Windows, ordered: seq<uint32>, hwnd: uint32): seq<uint32>
    requires hwnd in w && forall h | h in ordered :: h in w
  {
    if ordered == [] || Before(w, hwnd, ordered[0]) then [hwnd] + ordered
    else [ordered[0]] + Place(w, ordered[1..], hwnd)
  }

  lemma {:induction false} PlaceOrdered(w: Windows, ordered: seq<uint32>, hwnd: uint32)
    requires hwnd in w && Ordered(w, ordered) && hwnd !in ordered
    ensures Ordered(w, Place(w, ordered, hwnd))
    ensures forall h :: h in Place(w, ordered, hwnd) <==> h in ordered || h == hwnd
  {
    if ordered == [] {
    } else {
      if Before(w, hwnd, ordered[0]) {
        forall i | 0 <= i < |ordered| ensures Before(w, hwnd, ordered[i]) {
          BeforeIsStrictTotal(w, hwnd, ordered[0], ordered[i]);
        }
      } else {
        var rest := ordered[1..];
        PlaceOrdered(w, rest, hwnd);
        assert ordered == [ordered[0]] + rest;
        forall h | h in Place(w, rest, hwnd) ensures Before(w, ordered[0], h) {
          if h in rest {
            var i :| 0 <= i < |rest| && rest[i] == h;
            assert ordered[i + 1] == h;
          }
        }
      }
    }
  }

  /** Sorting cannot come out two ways. */
  lemma {:induction false} OrderIsUnique(w: Windows, a: seq<uint32>, b: seq<uint32>)
    requires Ordered(w, a) && Ordered(w, b) && forall h :: h in a <==> h in b
    ensures a == b
  {
    EmptyTogether(a, b);
    if a != [] {
      assert a[0] in b;
      assert b[0] in a;
      assert a[0] == b[0];
      forall h ensures h in a[1..] <==> h in b[1..] {
        TailHolds(w, a, h);
        TailHolds(w, b, h);
      }
      OrderIsUnique(w, a[1..], b[1..]);
      assert a == [a[0]] + a[1..] && b == [b[0]] + b[1..];
    }
  }

  lemma EmptyTogether(a: seq<uint32>, b: seq<uint32>)
    requires forall h :: h in a <==> h in b
    ensures a == [] <==> b == []
  {
    if a != [] {
      assert a[0] in a;
    }
    if b != [] {
      assert b[0] in b;
    }
  }

  lemma TailHolds(w: Windows, list: seq<uint32>, h: uint32)
    requires Ordered(w, list) && list != []
    ensures h in list[1..] <==> h in list && h != list[0]
  {
    if h in list && h != list[0] {
      var i :| 0 <= i < |list| && list[i] == h;
      assert list[1..][i - 1] == h;
    }
  }

  lemma FirstIsTop(w: Windows, ordered: seq<uint32>, i: nat, s: set<uint32>)
    requires Ordered(w, ordered) && i < |ordered| && ordered[i] in s && (forall j | 0 <= j < i :: ordered[j] !in s)
    requires forall h | h in s :: h in ordered
    ensures IsTop(w, s, ordered[i])
  {
  }

  // ---- Chain walks end ----

  lemma {:induction false} ClimbAdds(w: Windows, hwnd: uint32, k: nat, m: nat, owners: bool)
    ensures Climb(w, Climb(w, hwnd, k, owners), m, owners) == Climb(w, hwnd, k + m, owners)
  {
    if m == 0 {
    } else {
      ClimbAdds(w, hwnd, k, m - 1, owners);
    }
  }

  lemma {:induction false} ChainStaysOut(w: Windows, hwnd: uint32, n: nat, k: nat, owners: bool)
    requires 0 !in w && Climb(w, hwnd, n, owners) !in w && k >= n
    ensures Climb(w, hwnd, k, owners) !in w && (k > n ==> Climb(w, hwnd, k, owners) == 0)
    decreases k
  {
    if k > n {
      ChainStaysOut(w, hwnd, n, k - 1, owners);
    }
  }

  /** Parents only is the longer chain, cut short. */
  lemma {:induction false} ParentsFollow(w: Windows, hwnd: uint32, n: nat)
    requires 0 !in w
    ensures Climb(w, hwnd, n, false) == Climb(w, hwnd, n, true) || Climb(w, hwnd, n, false) == 0
  {
    if n == 0 {
    } else {
      ParentsFollow(w, hwnd, n - 1);
    }
  }

  /** Known handles among the first `n` of the walk. */
  ghost predicate Passed(w: Windows, hwnd: uint32, n: nat, owners: bool, seen: set<uint32>) {
    && seen <= w.Keys
    && (forall h | h in seen :: PassedAt(w, hwnd, n, owners, h))
  }

  ghost predicate PassedAt(w: Windows, hwnd: uint32, n: nat, owners: bool, h: uint32) {
    exists k: nat :: k < n && Climb(w, hwnd, k, owners) == h
  }

  lemma NeverBack(w: Windows, hwnd: uint32, k: nat, n: nat, owners: bool)
    requires 0 !in w && Acyclic(w) && k < n && Climb(w, hwnd, k, owners) in w
    ensures Climb(w, hwnd, n, owners) != Climb(w, hwnd, k, owners)
  {
    ClimbAdds(w, hwnd, k, n - k, owners);
    ParentsFollow(w, Climb(w, hwnd, k, owners), n - k);
  }

  lemma PassedBefore(w: Windows, hwnd: uint32, n: nat, owners: bool, h: uint32)
    requires 0 !in w && Acyclic(w) && PassedAt(w, hwnd, n, owners, h) && h in w
    ensures h != Climb(w, hwnd, n, owners) && PassedAt(w, hwnd, n + 1, owners, h)
  {
    var k: nat :| k < n && Climb(w, hwnd, k, owners) == h;
    NeverBack(w, hwnd, k, n, owners);
  }

  lemma Unseen(w: Windows, hwnd: uint32, n: nat, owners: bool, seen: set<uint32>)
    requires 0 !in w && Acyclic(w) && Passed(w, hwnd, n, owners, seen) && Climb(w, hwnd, n, owners) in w
    ensures Climb(w, hwnd, n, owners) !in seen
    ensures Passed(w, hwnd, n + 1, owners, seen + {Climb(w, hwnd, n, owners)})
  {
    var c := Climb(w, hwnd, n, owners);
    if c in seen {
      PassedBefore(w, hwnd, n, owners, c);
    }
    forall h | h in seen ensures PassedAt(w, hwnd, n + 1, owners, h) {
      PassedBefore(w, hwnd, n, owners, h);
    }
  }

  ghost predicate WalkEnds(w: Windows, hwnd: uint32) {
    exists n: nat :: n <= |w| && Climb(w, hwnd, n, true) !in w
  }

  lemma {:induction false} WalkEndsFrom(w: Windows, hwnd: uint32, n: nat, seen: set<uint32>)
    requires 0 !in w && Acyclic(w) && Passed(w, hwnd, n, true, seen) && |seen| == n
    ensures WalkEnds(w, hwnd)
    decreases |w| - n
  {
    var c := Climb(w, hwnd, n, true);
    SubsetSize(seen, w.Keys);
    if c in w {
      Unseen(w, hwnd, n, true, seen);
      SubsetSize(seen + {c}, w.Keys);
      WalkEndsFrom(w, hwnd, n + 1, seen + {c});
    }
  }

  lemma {:induction false} SubsetSize(a: set<uint32>, b: set<uint32>)
    requires a <= b
    ensures |a| <= |b|
  {
    if a == {} {
    } else {
      var x :| x in a;
      SubsetSize(a - {x}, b - {x});
    }
  }

  /** A walk that comes back to where it was never leaves the known windows. */
  lemma {:induction false} CycleStays(w: Windows, hwnd: uint32, n: nat, k: nat)
    requires 0 !in w && hwnd in w && n > 0 && Climb(w, hwnd, n, true) == hwnd
    ensures Climb(w, hwnd, k, true) in w
    decreases k
  {
    if k < n {
      if Climb(w, hwnd, k, true) !in w {
        ChainStaysOut(w, hwnd, k, n, true);
      }
    } else {
      CycleStays(w, hwnd, n, k - n);
      ClimbAdds(w, hwnd, n, k - n, true);
    }
  }

  /** Walking up ends from every handle, within as many steps as there are windows, exactly when no chain is a loop. */
  lemma WalksEndIff(w: Windows)
    requires 0 !in w
    ensures Acyclic(w) <==> forall hwnd :: WalkEnds(w, hwnd)
  {
    if Acyclic(w) {
      forall hwnd ensures WalkEnds(w, hwnd) {
        WalkEndsFrom(w, hwnd, 0, {});
      }
    } else {
      var hwnd, n: nat :| hwnd in w && n > 0 && Climb(w, hwnd, n, true) == hwnd;
      forall k: nat ensures Climb(w, hwnd, k, true) in w {
        CycleStays(w, hwnd, n, k);
      }
      assert !WalkEnds(w, hwnd);
    }
  }

  // ---- When an update keeps the chains acyclic ----

  lemma {:induction false} ClimbUnaffected(w: Windows, h: uint32, s: Window, from: uint32, n: nat)
    requires forall k: nat | k < n :: Climb(w, from, k, true) != h
    ensures Climb(w[h := s], from, n, true) == Climb(w, from, n, true)
  {
    if n == 0 {
    } else {
      ClimbUnaffected(w, h, s, from, n - 1);
    }
  }

  lemma {:induction false} FirstMeeting(w: Windows, from: uint32, h: uint32, n: nat) returns (m: nat)
    requires Climb(w, from, n, true) == h
    ensures m <= n && Climb(w, from, m, true) == h && forall k: nat | k < m :: Climb(w, from, k, true) != h
  {
    if k: nat :| k < n && Climb(w, from, k, true) == h {
      m := FirstMeeting(w, from, h, k);
    } else {
      m := n;
    }
  }

  /** Linking a window upwards keeps every walk finite exactly when the window is not above its new parent or owner. */
  lemma UpdateKeepsAcyclicIff(w: Windows, h: uint32, s: Window)
    requires 0 !in w && Acyclic(w) && h != 0
    ensures Acyclic(w[h := s]) <==> !InStack(w, Above(s, true), h)
  {
    var w', up := w[h := s], Above(s, true);
    if InStack(w, up, h) {
      var n: nat :| Climb(w, up, n, true) == h;
      var m := FirstMeeting(w, up, h, n);
      ClimbUnaffected(w, h, s, up, m);
      assert Climb(w', h, 1, true) == up;
      ClimbAdds(w', h, 1, m, true);
    } else {
      if up == 0 {
        assert forall n: nat :: Climb(w, up, n, true) != h by {
          forall n: nat ensures Climb(w, 0, n, true) == 0 {
            ChainStaysOut(w, 0, 0, n, true);
          }
        }
      }
      forall g, n: nat | g in w' && n > 0 ensures Climb(w', g, n, true) != g {
        NoNewLoop(w, h, s, g, n);
      }
    }
  }

  lemma NoNewLoop(w: Windows, h: uint32, s: Window, g: uint32, n: nat)
    requires 0 !in w && Acyclic(w) && g in w[h := s] && n > 0 && h != 0
    requires forall k: nat :: Climb(w, Above(s, true), k, true) != h
    ensures Climb(w[h := s], g, n, true) != g
  {
    var w', up := w[h := s], Above(s, true);
    if k: nat :| k < n && Climb(w, g, k, true) == h {
      if Climb(w', g, n, true) == g {
        var m := FirstMeeting(w, g, h, k);
        ClimbUnaffected(w, h, s, g, m);
        RoundAgain(w', g, h, m, n);
        // From h the updated chain goes on as the old one does above it.
        ClimbAdds(w', h, 1, n - 1, true);
        ClimbUnaffected(w, h, s, up, n - 1);
        assert false;
      }
    } else {
      assert Climb(w, g, 0, true) == g;
      ClimbUnaffected(w, h, s, g, n);
    }
  }

  /** Every window of a loop comes back to itself. */
  lemma RoundAgain(w: Windows, g: uint32, h: uint32, m: nat, n: nat)
    requires Climb(w, g, n, true) == g && Climb(w, g, m, true) == h
    ensures Climb(w, h, n, true) == h
  {
    ClimbAdds(w, g, n, m, true);
    ClimbAdds(w, g, m, n, true);
  }

  /** A forgotten window only cuts chains short. */
  lemma {:induction false} RemovalCutsChains(w: Windows, h: uint32, from: uint32, n: nat)
    requires 0 !in w
    ensures var c := Climb(w - {h}, from, n, true); c == Climb(w, from, n, true) || c == 0
  {
    if n == 0 {
    } else {
      RemovalCutsChains(w, h, from, n - 1);
    }
  }

  lemma RemovalKeepsAcyclic(w: Windows, h: uint32)
    requires 0 !in w && Acyclic(w)
    ensures Acyclic(w - {h})
  {
    forall g, n: nat | g in w - {h} && n > 0 ensures Climb(w - {h}, g, n, true) != g {
      RemovalCutsChains(w, h, g, n);
      assert Climb(w, g, n, true) != g;
    }
  }

  // ---- What a hit test means ----

  /** The same windows, root and point leave one possible answer. */
  lemma HitIsDetermined(w: Windows, root: uint32, x: int, y: int, r: HitTestResult, r': HitTestResult)
    requires IsHit(w, root, x, y, r) && IsHit(w, root, x, y, r')
    ensures r == r'
  {
    var p :| IsActivePopup(w, root, p) && Answers(w, root, x, y, p, r);
    var p' :| IsActivePopup(w, root, p') && Answers(w, root, x, y, p', r');
  }

  /** With an active popup the answer is the block outside it, and a window of its own stack inside it. */
  lemma PopupCaptures(w: Windows, root: uint32, x: int, y: int, popup: uint32, r: HitTestResult)
    requires 0 !in w && IsActivePopup(w, root, popup) && popup != 0 && IsHit(w, root, x, y, r)
    ensures popup in w && VisibleEnabled(w, popup) && w[popup].root == root
    ensures !r.blockedByModal ==> r.hwnd != 0 && r.hwnd in w && InStack(w, r.hwnd, popup) && VisibleEnabled(w, r.hwnd)
    ensures r.blockedByModal <==> !ContainsPoint(w[popup], x, y)
    ensures var shown := w[popup].visibleRect;
            !r.blockedByModal ==> shown.left <= x < shown.right && shown.top <= y < shown.bottom
    ensures w[popup].style / 0x8000_0000 % 2 == 1 && w[popup].style / 0x4000_0000 % 2 == 0
    ensures r.blockedByModal ==> r.hwnd == 0 && r.blocker == popup
    ensures var from := w[if r.blockedByModal then popup else r.hwnd].windowRect;
            r.clientX == x - from.left && r.clientY == y - from.top
  {
    var p :| IsActivePopup(w, root, p) && Answers(w, root, x, y, p, r);
    if ContainsPoint(w[popup], x, y) {
      assert Climb(w, popup, 0, true) == popup;
      assert popup in Targets(w, root, popup, x, y);
    }
  }

  /** Without one, the answer is the first window in stacking order that is live and contains the point, or nothing. */
  lemma NothingAboveIsHit(w: Windows, root: uint32, x: int, y: int, r: HitTestResult, other: uint32)
    requires 0 !in w && IsActivePopup(w, root, 0) && IsHit(w, root, x, y, r)
    requires Listed(w, root, other) && VisibleEnabled(w, other) && ContainsPoint(w[other], x, y) && other != r.hwnd
    ensures r.hwnd in w && Before(w, r.hwnd, other) && ContainsPoint(w[r.hwnd], x, y) && VisibleEnabled(w, r.hwnd)
    ensures var shown, from := w[r.hwnd].visibleRect, w[r.hwnd].windowRect;
            && shown.left <= x < shown.right && shown.top <= y < shown.bottom
            && r.clientX == x - from.left && r.clientY == y - from.top
  {
    var p :| IsActivePopup(w, root, p) && Answers(w, root, x, y, p, r);
    assert other in Targets(w, root, 0, x, y);
  }

  // ---- The stacking order, in the windows' own terms ----

  /** An owned top-level window that is no popup. */
  predicate IsOwned(s: Window) { !HasChildStyle(s) && !HasPopupStyle(s) && s.owner != 0 }

  /** Of the same kind: both popups, both owned, both children, or both none of these. */
  predicate SameKind(a: Window, b: Window) {
    IsPopup(a) == IsPopup(b) && IsOwned(a) == IsOwned(b) && HasChildStyle(a) == HasChildStyle(b)
  }

  /**
   * Of all live windows at the point, with no active popup, a popup is hit before an
   * owned window, that before a child and that before any other; among windows of
   * one kind the one with the larger z-order, and then the larger handle.
   */
  lemma HighestIsHit(w: Windows, root: uint32, x: int, y: int, r: HitTestResult, other: uint32)
    requires 0 !in w && IsActivePopup(w, root, 0) && IsHit(w, root, x, y, r)
    requires Listed(w, root, other) && VisibleEnabled(w, other) && ContainsPoint(w[other], x, y) && other != r.hwnd
    ensures r.hwnd in w
    ensures var hit, below := w[r.hwnd], w[other];
            && (IsPopup(below) ==> IsPopup(hit))
            && (IsOwned(below) ==> IsPopup(hit) || IsOwned(hit))
            && (HasChildStyle(below) ==> IsPopup(hit) || IsOwned(hit) || HasChildStyle(hit))
            && (SameKind(hit, below) ==> hit.zOrder > below.zOrder || (hit.zOrder == below.zOrder && r.hwnd > other))
  {
    NothingAboveIsHit(w, root, x, y, r, other);
  }

  /** A window is shown when it is itself, and so is the parent of a child window, as far as parents are known. */
  lemma VisibleEnabledMeans(w: Windows, h: uint32)
    requires h in w && 0 !in w
    ensures var s := w[h]; var child := s.style / 0x4000_0000 % 2 == 1;
            VisibleEnabled(w, h) <==>
              && !s.destroyed && s.visible && s.enabled && s.hasVisibleRegion
              && (child && s.parent in w ==> VisibleEnabled(w, s.parent))
  {
    var next := Above(w[h], false);
    assert Climb(w, h, 0, false) == h && Climb(w, h, 1, false) == next;
    forall n: nat ensures ShownAt(w, h, n + 1) <==> ShownAt(w, next, n) {
      ClimbAdds(w, h, 1, n, false);
    }
    if VisibleEnabled(w, h) {
      assert ShownAt(w, h, 0);
      forall n: nat ensures ShownAt(w, next, n) {
        assert ShownAt(w, h, n + 1);
      }
    }
    if Shown(w[h]) && (next in w ==> VisibleEnabled(w, next)) {
      forall n: nat ensures ShownAt(w, h, n) {
        if n > 0 {
          if next !in w {
            StaysUnknown(w, next, n - 1);
          }
          assert ShownAt(w, next, n - 1);
        }
      }
    }
  }

  lemma {:induction false} StaysUnknown(w: Windows, h: uint32, n: nat)
    requires h !in w && 0 !in w
    ensures Climb(w, h, n, false) !in w
  {
    if n == 0 {
    } else {
      StaysUnknown(w, h, n - 1);
    }
  }

  /** A window is in the stack of itself, and of whatever its parent, or its owner if it is no child, is in the stack of. */
  lemma InStackMeans(w: Windows, h: uint32, ancestor: uint32)
    requires h in w && 0 !in w
    ensures var s := w[h]; var next := if s.style / 0x4000_0000 % 2 == 1 then s.parent else s.owner;
            InStack(w, h, ancestor) <==> ancestor != 0 && (h == ancestor || InStack(w, next, ancestor))
  {
    var next := Above(w[h], true);
    assert Climb(w, h, 0, true) == h && Climb(w, h, 1, true) == next;
    forall n: nat ensures Climb(w, h, n + 1, true) == Climb(w, next, n, true) {
      ClimbAdds(w, h, 1, n, true);
    }
    if InStack(w, h, ancestor) && h != ancestor {
      var n: nat :| Climb(w, h, n, true) == ancestor;
      assert Climb(w, next, n - 1, true) == ancestor;
      if next == 0 {
        ZeroStays(w, n - 1);
      }
      assert n > 0;
    }
    if InStack(w, next, ancestor) {
      var n: nat :| Climb(w, next, n, true) == ancestor;
      assert Climb(w, h, n + 1, true) == ancestor;
    }
  }

  lemma {:induction false} ZeroStays(w: Windows, n: nat)
    requires 0 !in w
    ensures Climb(w, 0, n, true) == 0
  {
    if n == 0 {
    } else {
      ZeroStays(w, n - 1);
    }
  }
}
