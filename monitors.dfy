/**
 * The monitor topology of the engine (code-core/Main.cpp): the fixed table
 * of screens filled by the monitor-enumeration callback, with a virtual
 * monitor when there is none; the search for a monitor by name or by
 * handle; the salvage of per-monitor command queues across a topology
 * change; and the remapping and resizing of windows that follow.
 */
module MonitorTopology {
  import opened Wrappers

  /** `MV_MAX_MONITORS`. */
  const MV_MAX_MONITORS: nat := 16
  const DEFAULT_DPI: int := 96
  const HEADLESS_REFRESH_RATE: int := 60
  const HEADLESS_WIDTH: int := 1024
  const HEADLESS_HEIGHT: int := 768
  const HEADLESS_NAME := "HEADLESS_DISPLAY"
  const VIRTUAL_ADAPTER_NAME := "Virtual Adapter"

  /**
   * One slot of `gpu.screens`. `commandQueue` is the handle of the
   * monitor's command queue (0 for none).
   */
  datatype Screen = Screen(
    initialized: bool,
    hMonitor: nat,
    monitorName: string,
    friendlyName: string,
    isVirtualMonitor: bool,
    isPrimary: bool,
    dpiX: int,
    dpiY: int,
    refreshRate: int,
    pixelWidth: int,
    pixelHeight: int,
    windowWidth: int,
    windowHeight: int,
    commandQueue: nat)

  /** What `GetMonitorInfoW` reports: the device name, the monitor and work-area sizes, and the primary flag. */
  datatype MonitorInfo = MonitorInfo(name: string, monitorWidth: int, monitorHeight: int, workWidth: int, workHeight: int, primary: bool)

  /**
   * What Windows says about one enumerated monitor: its handle, its
   * monitor info (none when `GetMonitorInfoW` fails), its effective DPI
   * when `GetDpiForMonitor` succeeds, the display device's friendly name
   * when one matches, and its refresh rate when the display settings can
   * be read.
   */
  datatype MonitorReport = MonitorReport(
    hMonitor: nat,
    info: Option<MonitorInfo>,
    dpi: Option<(int, int)>,
    friendlyName: Option<string>,
    refreshRate: Option<int>)

  function Min(a: nat, b: nat): nat
  {
    if a < b then a else b
  }

  /**
   * The slot after `MonitorEnumProc` has handled the report: the handle,
   * the virtual flag and the default DPI are written first; when the
   * monitor info is available the rest is filled in and the slot is marked
   * initialised.
   */
  function EnumSlot(prev: Screen, m: MonitorReport): Screen
  {
    var s := prev.(hMonitor := m.hMonitor, isVirtualMonitor := false, dpiX := DEFAULT_DPI, dpiY := DEFAULT_DPI);
    if m.info.None? then s
    else
      var info := m.info.value;
      var s1 := s.(monitorName := info.name, pixelWidth := info.monitorWidth, pixelHeight := info.monitorHeight, isPrimary := info.primary);
      var s2 := if m.dpi.Some? then s1.(dpiX := m.dpi.value.0, dpiY := m.dpi.value.1) else s1;
      var s3 := if m.friendlyName.Some? then s2.(friendlyName := m.friendlyName.value) else s2;
      var s4 := if m.friendlyName.Some? && m.refreshRate.Some? then s3.(refreshRate := m.refreshRate.value) else s3;
      s4.(windowWidth := info.workWidth, windowHeight := info.workHeight, initialized := true)
  }

  /** `s` differs from `o` at most in the fields every call of the callback writes. */
  predicate Overwritable(s: Screen, o: Screen)
  {
    s == o.(hMonitor := s.hMonitor, isVirtualMonitor := s.isVirtualMonitor, dpiX := s.dpiX, dpiY := s.dpiY)
  }

  /**
   * A report with monitor info fills an initialised, non-virtual slot with
   * its handle, name, sizes and primary flag, and the DPI it reports or 96;
   * what an earlier failed report left in the slot makes no difference,
   * and neither the queue nor (without a display device) the refresh rate
   * changes.
   */
  lemma SlotFromReport(prev: Screen, earlier: Screen, m: MonitorReport)
    requires Overwritable(earlier, prev)
    ensures m.info.None? ==> Overwritable(EnumSlot(prev, m), prev)
    ensures EnumSlot(earlier, m) == EnumSlot(prev, m)
    ensures var s := EnumSlot(prev, m);
      && s.commandQueue == prev.commandQueue
      && (m.info.Some? ==>
            && s.initialized && !s.isVirtualMonitor && s.hMonitor == m.hMonitor
            && s.monitorName == m.info.value.name && s.isPrimary == m.info.value.primary
            && s.pixelWidth == m.info.value.monitorWidth && s.windowWidth == m.info.value.workWidth
            && (s.dpiX, s.dpiY) == (if m.dpi.Some? then m.dpi.value else (DEFAULT_DPI, DEFAULT_DPI))
            && (m.friendlyName.None? ==> s.refreshRate == prev.refreshRate))
  { }

  /** The reports whose monitor info is available, in enumeration order. */
  function Usable(reports: seq<MonitorReport>): seq<MonitorReport>
  {
    if reports == [] then []
    else (if reports[0].info.Some? then [reports[0]] else []) + Usable(reports[1..])
  }

  lemma {:induction false} UsableConcat(a: seq<MonitorReport>, b: seq<MonitorReport>)
    ensures Usable(a + b) == Usable(a) + Usable(b)
  {
    if a == [] {
      assert a + b == b;
    } else {
      assert (a + b)[0] == a[0] && (a + b)[1..] == a[1..] + b;
      UsableConcat(a[1..], b);
    }
  }

  /** Every usable report has monitor info. */
  lemma {:induction false} UsableHaveInfo(reports: seq<MonitorReport>)
    ensures forall k :: 0 <= k < |Usable(reports)| ==> Usable(reports)[k].info.Some?
  {
    if reports != [] {
      UsableHaveInfo(reports[1..]);
    }
  }

  /** `s` is the virtual primary monitor added in headless mode, sized from the system metrics when they are positive. */
  predicate VirtualPrimary(s: Screen, sysWidth: int, sysHeight: int)
  {
    && s.initialized && s.isVirtualMonitor && s.isPrimary
    && s.monitorName == HEADLESS_NAME && s.friendlyName == VIRTUAL_ADAPTER_NAME
    && s.dpiX == DEFAULT_DPI && s.dpiY == DEFAULT_DPI && s.refreshRate == HEADLESS_REFRESH_RATE
    && s.pixelWidth == (if sysWidth > 0 then sysWidth else HEADLESS_WIDTH)
    && s.pixelHeight == (if sysHeight > 0 then sysHeight else HEADLESS_HEIGHT)
    && s.windowWidth == s.pixelWidth && s.windowHeight == s.pixelHeight
  }

  /**
   * The index of the first of `keys` equal to `key`, or -1; the searches
   * by name and by monitor handle over the first `count` screens.
   */
  function FirstIndex<K(==)>(keys: seq<K>, key: K): (r: int)
    ensures -1 <= r < |keys|
    ensures r == -1 <==> key !in keys
    ensures r >= 0 ==> keys[r] == key && forall k :: 0 <= k < r ==> keys[k] != key
  {
    if keys == [] then -1
    else if keys[0] == key then 0
    else
      var r := FirstIndex(keys[1..], key);
      assert key in keys[1..] ==> key in keys;
      if r == -1 then -1 else r + 1
  }

  function Names(screens: seq<Screen>): seq<string>
  {
    seq(|screens|, k requires 0 <= k < |screens| => screens[k].monitorName)
  }

  function Handles(screens: seq<Screen>): seq<nat>
  {
    seq(|screens|, k requires 0 <= k < |screens| => screens[k].hMonitor)
  }

  /** `FindMonitorIndexByName` (both overloads; the vector one searches all of `list`). */
  method FindMonitorIndexByName(list: seq<Screen>, count: nat, name: string) returns (idx: int)
    requires count <= |list|
    ensures idx == FirstIndex(Names(list[..count]), name)
    ensures idx == -1 <==> forall k :: 0 <= k < count ==> list[k].monitorName != name
    ensures idx >= 0 ==> idx < count && list[idx].monitorName == name && forall k :: 0 <= k < idx ==> list[k].monitorName != name
  {
    ghost var names := Names(list[..count]);
    assert forall k :: 0 <= k < count ==> names[k] == list[k].monitorName;
    var i := 0;
    while i < count
      invariant i <= count
      invariant forall k :: 0 <= k < i ==> names[k] != name
    {
      if list[i].monitorName == name {
        assert names[i] == name;
        return i;
      }
      i := i + 1;
    }
    assert name !in names;
    return -1;
  }

  /**
   * The screen table after enumerating the usable reports `usable` into
   * the table `original`: the first `count` slots, at most
   * `MV_MAX_MONITORS`, hold them in order; the next slot holds at most the
   * traces of failed reports; the later slots are untouched; and no queue
   * has changed.
   */
  ghost predicate Filled(table: seq<Screen>, original: seq<Screen>, count: nat, usable: seq<MonitorReport>)
  {
    && |table| == |original| == MV_MAX_MONITORS
    && count == Min(MV_MAX_MONITORS, |usable|)
    && (forall k :: 0 <= k < count ==> table[k] == EnumSlot(original[k], usable[k]))
    && (forall k :: count < k < MV_MAX_MONITORS ==> table[k] == original[k])
    && (count < MV_MAX_MONITORS ==> Overwritable(table[count], original[count]))
    && (forall k :: 0 <= k < MV_MAX_MONITORS ==> table[k].commandQueue == original[k].commandQueue)
  }

  /** One more call of the callback, with room in the table, keeps `Filled`. */
  lemma FillStep(table: seq<Screen>, original: seq<Screen>, count: nat, usable: seq<MonitorReport>, m: MonitorReport)
    requires Filled(table, original, count, usable) && count < MV_MAX_MONITORS
    ensures Filled(table[count := EnumSlot(table[count], m)], original, count + (if m.info.Some? then 1 else 0),
                   usable + (if m.info.Some? then [m] else []))
  {
    SlotFromReport(original[count], table[count], m);
  }

  /** Once the table is full, further usable reports change nothing. */
  lemma FillFull(table: seq<Screen>, original: seq<Screen>, usable: seq<MonitorReport>, more: seq<MonitorReport>)
    requires Filled(table, original, MV_MAX_MONITORS, usable)
    ensures Filled(table, original, MV_MAX_MONITORS, usable + more)
  {
    var u := usable + more;
    assert forall k :: 0 <= k < MV_MAX_MONITORS ==> u[k] == usable[k];
  }

  /** The enumeration loop's step over report `i`. */
  lemma EnumerateStep(table: seq<Screen>, original: seq<Screen>, count: nat, reports: seq<MonitorReport>, i: nat)
    requires i < |reports| && count < MV_MAX_MONITORS
    requires Filled(table, original, count, Usable(reports[..i]))
    ensures Filled(table[count := EnumSlot(table[count], reports[i])], original,
                   count + (if reports[i].info.Some? then 1 else 0), Usable(reports[..i + 1]))
  {
    assert reports[..i + 1] == reports[..i] + [reports[i]];
    UsableConcat(reports[..i], [reports[i]]);
    assert Usable([reports[i]]) == if reports[i].info.Some? then [reports[i]] else [] by {
      assert [reports[i]][1..] == [];
    }
    FillStep(table, original, count, Usable(reports[..i]), reports[i]);
  }

  /** The callback stops the enumeration at report `i` only with a full table, which is then final. */
  lemma StopKeepsTable(table: seq<Screen>, original: seq<Screen>, count: nat, reports: seq<MonitorReport>, i: nat)
    requires i < |reports| && count >= MV_MAX_MONITORS
    requires Filled(table, original, count, Usable(reports[..i]))
    ensures Filled(table, original, count, Usable(reports))
  {
    assert reports == reports[..i] + reports[i..];
    UsableConcat(reports[..i], reports[i..]);
    FillFull(table, original, Usable(reports[..i]), Usable(reports[i..]));
  }

  /**
   * A window as far as monitor affinity and resizing go; `swapChainQueue`
   * is the queue its swap chain was created on, 0 for none.
   */
  datatype UiWindow = UiWindow(
    hWnd: nat,
    currentMonitorIndex: int,
    swapChainQueue: nat,
    currentWidth: int,
    currentHeight: int,
    nextRequestedWidth: int,
    nextRequestedHeight: int)

  /** The first of the `count` screens on the monitor `h`. */
  method FindMonitorIndexByHandle(list: seq<Screen>, count: nat, h: nat) returns (idx: int)
    requires count <= |list|
    ensures idx == FirstIndex(Handles(list[..count]), h)
    ensures idx == -1 <==> forall k :: 0 <= k < count ==> list[k].hMonitor != h
    ensures idx >= 0 ==> idx < count && list[idx].hMonitor == h && forall k :: 0 <= k < idx ==> list[k].hMonitor != h
  {
    ghost var handles := Handles(list[..count]);
    assert forall k :: 0 <= k < count ==> handles[k] == list[k].hMonitor;
    var i := 0;
    while i < count
      invariant i <= count
      invariant forall k :: 0 <= k < i ==> handles[k] != h
    {
      if list[i].hMonitor == h {
        assert handles[i] == h;
        return i;
      }
      i := i + 1;
    }
    assert h !in handles;
    return -1;
  }

  /**
   * The screen a window goes to after a topology change: the first of the
   * `count` screens on the window's monitor, and screen 0 when none is.
   */
  function RemapIndex(table: seq<Screen>, count: nat, h: nat): (idx: nat)
    requires count <= |table| && 0 < |table|
    ensures idx < |table| && (count > 0 ==> idx < count)
    ensures idx > 0 ==> table[idx].hMonitor == h
    ensures (exists k :: 0 <= k < count && table[k].hMonitor == h) ==> table[idx].hMonitor == h
    ensures forall k :: 0 <= k < idx ==> table[k].hMonitor != h
  {
    var f := FirstIndex(Handles(table[..count]), h);
    assert forall k :: 0 <= k < count ==> Handles(table[..count])[k] == table[k].hMonitor;
    if f == -1 then 0 else f
  }

  /**
   * `UpdateWindowMonitorAffinity` on the window's state: the window moves to
   * screen `idx`, with a swap chain on that screen's queue.
   */
  function Migrated(w: UiWindow, idx: int, queue: nat): (r: UiWindow)
    ensures r.currentMonitorIndex == idx && r.swapChainQueue == queue
    ensures r.(currentMonitorIndex := w.currentMonitorIndex, swapChainQueue := w.swapChainQueue) == w
  {
    w.(currentMonitorIndex := idx, swapChainQueue := queue)
  }

  /**
   * A window after the remapping of `RestartRenderThreads`: on screen `idx`,
   * migrated to `queue` exactly when it was on another screen before.
   */
  function Remapped(w: UiWindow, idx: int, queue: nat): (r: UiWindow)
    ensures r.currentMonitorIndex == idx
    ensures r == w <==> w.currentMonitorIndex == idx
    ensures w.currentMonitorIndex != idx ==> r.swapChainQueue == queue
  {
    if w.currentMonitorIndex != idx then Migrated(w, idx, queue) else w
  }

  /**
   * A window after `WM_EXITSIZEMOVE`, given the screen index found for its
   * monitor (-1 for none): it migrates when a screen was found and differs
   * from its current one, and then takes the requested size.
   */
  function SizeMoved(w: UiWindow, idx: int, queue: nat): (r: UiWindow)
    ensures r.currentWidth == w.nextRequestedWidth && r.currentHeight == w.nextRequestedHeight
    ensures r.currentMonitorIndex == if idx != -1 then idx else w.currentMonitorIndex
    ensures idx != -1 && idx != w.currentMonitorIndex ==> r.swapChainQueue == queue
    ensures idx == -1 || idx == w.currentMonitorIndex ==> r.swapChainQueue == w.swapChainQueue
    ensures r.hWnd == w.hWnd
      && r.nextRequestedWidth == w.nextRequestedWidth && r.nextRequestedHeight == w.nextRequestedHeight
  {
    var moved := if idx != -1 && w.currentMonitorIndex != idx then Migrated(w, idx, queue) else w;
    if moved.nextRequestedWidth != moved.currentWidth || moved.nextRequestedHeight != moved.currentHeight then
      moved.(currentWidth := moved.nextRequestedWidth, currentHeight := moved.nextRequestedHeight)
    else moved
  }

  /**
   * A second `WM_EXITSIZEMOVE` with the window on the same monitor and no
   * new size request changes nothing: neither a migration nor a resize.
   */
  lemma SizeMovedSettles(w: UiWindow, idx: int, queue: nat)
    ensures SizeMoved(SizeMoved(w, idx, queue), idx, queue) == SizeMoved(w, idx, queue)
  {
    var once := SizeMoved(w, idx, queue);
    assert idx == -1 || idx == once.currentMonitorIndex;
  }

  /** Remapping the same window again to the same screen changes nothing. */
  lemma RemappedSettles(w: UiWindow, idx: int, queue: nat)
    ensures Remapped(Remapped(w, idx, queue), idx, queue) == Remapped(w, idx, queue)
  { }

  /** A fresh handle per screen with no old namesake, above every handle issued before. */
  ghost predicate Salvaged(table: seq<Screen>, before: seq<Screen>, oldScreens: seq<Screen>, count: nat, issuedBefore: nat, issued: nat)
    requires |table| == |before| == MV_MAX_MONITORS && count <= MV_MAX_MONITORS
  {
    && (forall k :: 0 <= k < MV_MAX_MONITORS ==> table[k] == before[k].(commandQueue := table[k].commandQueue))
    && (forall k :: count <= k < MV_MAX_MONITORS ==> table[k] == before[k])
    && (forall k :: 0 <= k < count ==>
          var j := FirstIndex(Names(oldScreens), table[k].monitorName);
          && (j >= 0 ==> table[k].commandQueue == oldScreens[j].commandQueue)
          && (j == -1 ==> issuedBefore < table[k].commandQueue <= issued))
    && (forall k1, k2 :: 0 <= k1 < k2 < count
          && FirstIndex(Names(oldScreens), table[k1].monitorName) == -1
          && FirstIndex(Names(oldScreens), table[k2].monitorName) == -1
          ==> table[k1].commandQueue != table[k2].commandQueue)
  }

  /** Every screen in `table` has a queue among the first `issued` ones, or none. */
  ghost predicate QueuesAtMost(table: seq<Screen>, issued: nat)
  {
    forall k :: 0 <= k < |table| ==> table[k].commandQueue <= issued
  }

  /** One turn of the merge loop, on slot `i`, with `j` the old namesake found for it. */
  lemma SalvageStep(table: seq<Screen>, before: seq<Screen>, oldScreens: seq<Screen>, i: nat, issuedBefore: nat, issued: nat,
                    j: int, queue: nat, issuedAfter: nat)
    requires |table| == |before| == MV_MAX_MONITORS && i < MV_MAX_MONITORS && issuedBefore <= issued
    requires Salvaged(table, before, oldScreens, i, issuedBefore, issued)
    requires QueuesAtMost(table, issued) && QueuesAtMost(oldScreens, issued)
    requires j == FirstIndex(Names(oldScreens), table[i].monitorName)
    requires j >= 0 ==> queue == oldScreens[j].commandQueue && issuedAfter == issued
    requires j == -1 ==> queue == issuedAfter == issued + 1
    ensures Salvaged(table[i := table[i].(commandQueue := queue)], before, oldScreens, i + 1, issuedBefore, issuedAfter)
    ensures QueuesAtMost(table[i := table[i].(commandQueue := queue)], issuedAfter)
  {
    var next := table[i := table[i].(commandQueue := queue)];
    assert forall k :: 0 <= k < i ==> next[k] == table[k];
  }

  /**
   * One queue per monitor: when the old screens had pairwise distinct
   * queues, all issued, and the new screens have pairwise distinct names,
   * the salvaged table has pairwise distinct queues too.
   */
  lemma SalvagedQueuesDistinct(table: seq<Screen>, before: seq<Screen>, oldScreens: seq<Screen>, count: nat, issuedBefore: nat, issued: nat)
    requires |table| == |before| == MV_MAX_MONITORS && count <= MV_MAX_MONITORS
    requires Salvaged(table, before, oldScreens, count, issuedBefore, issued)
    requires forall j :: 0 <= j < |oldScreens| ==> oldScreens[j].commandQueue <= issuedBefore
    requires forall j1, j2 :: 0 <= j1 < j2 < |oldScreens| ==> oldScreens[j1].commandQueue != oldScreens[j2].commandQueue
    requires forall k1, k2 :: 0 <= k1 < k2 < count ==> table[k1].monitorName != table[k2].monitorName
    ensures forall k1, k2 :: 0 <= k1 < k2 < count ==> table[k1].commandQueue != table[k2].commandQueue
  {
    var names := Names(oldScreens);
    forall k1, k2 | 0 <= k1 < k2 < count
      ensures table[k1].commandQueue != table[k2].commandQueue
    {
      var j1, j2 := FirstIndex(names, table[k1].monitorName), FirstIndex(names, table[k2].monitorName);
      if j1 >= 0 && j2 >= 0 {
        assert names[j1] == oldScreens[j1].monitorName && names[j2] == oldScreens[j2].monitorName;
        assert j1 != j2;
      }
    }
  }

  /** The window handles of the listed window slots, in list order. */
  function WindowHandles(windows: seq<UiWindow>, windowList: seq<nat>): (hs: seq<nat>)
    requires forall wi :: 0 <= wi < |windowList| ==> windowList[wi] < |windows|
    ensures |hs| == |windowList| && forall wi :: 0 <= wi < |windowList| ==> hs[wi] == windows[windowList[wi]].hWnd
  {
    seq(|windowList|, wi requires 0 <= wi < |windowList| => windows[windowList[wi]].hWnd)
  }

  /** A screen slot with the default values of `OneMonitorController`: not set up, 800 by 600 at 96 DPI, no queue. */
  const DEFAULT_SCREEN: Screen := Screen(false, 0, "", "", false, false, DEFAULT_DPI, DEFAULT_DPI, 0, 800, 600, 800, 600, 0)

  /** A window slot before any window is created in it: no handle and no monitor. */
  const EMPTY_WINDOW: UiWindow := UiWindow(0, -1, 0, 0, 0, 0, 0)

  /** The engine's screen table and window table. */
  class Display {
    /** `gpu.screens`. */
    const screens: array<Screen>
    /** `gpu.currentMonitorCount`. */
    var currentMonitorCount: nat
    /** Command queues created so far; each new queue gets the next handle. */
    var queuesCreated: nat
    /** `allWindows`. */
    const allWindows: array<UiWindow>

    ghost predicate Valid()
      reads this
    {
      && screens.Length == MV_MAX_MONITORS && currentMonitorCount <= MV_MAX_MONITORS
    }

    /** The screen table holds `MV_MAX_MONITORS` default slots, none counted and no queue created yet. */
    constructor (windowSlots: nat)
      ensures Valid() && currentMonitorCount == 0 && queuesCreated == 0 && allWindows.Length == windowSlots
      ensures QueuesIssued()
      ensures forall k :: 0 <= k < MV_MAX_MONITORS ==> screens[k] == DEFAULT_SCREEN
      ensures forall w :: 0 <= w < windowSlots ==> allWindows[w] == EMPTY_WINDOW
      ensures fresh(screens) && fresh(allWindows)
    {
      screens := new Screen[MV_MAX_MONITORS](_ => DEFAULT_SCREEN);
      allWindows := new UiWindow[windowSlots](_ => EMPTY_WINDOW);
      currentMonitorCount := 0;
      queuesCreated := 0;
    }

    /**
     * `MonitorEnumProc`: stops the enumeration once the table is full;
     * otherwise fills the next slot from the report and counts it only
     * when its monitor info was available.
     */
    method MonitorEnumProc(m: MonitorReport) returns (continueEnumeration: bool)
      requires Valid()
      modifies this, screens
      ensures Valid() && queuesCreated == old(queuesCreated)
      ensures old(currentMonitorCount) >= MV_MAX_MONITORS ==>
        !continueEnumeration && currentMonitorCount == old(currentMonitorCount) && screens[..] == old(screens[..])
      ensures old(currentMonitorCount) < MV_MAX_MONITORS ==>
        && continueEnumeration
        && screens[..] == old(screens[..])[old(currentMonitorCount) := EnumSlot(old(screens[currentMonitorCount]), m)]
        && currentMonitorCount == old(currentMonitorCount) + (if m.info.Some? then 1 else 0)
    {
      if currentMonitorCount >= MV_MAX_MONITORS {
        return false;
      }
      var current := currentMonitorCount;
      screens[current] := screens[current].(hMonitor := m.hMonitor, isVirtualMonitor := false, dpiX := DEFAULT_DPI, dpiY := DEFAULT_DPI);
      if m.info.None? {
        return true;
      }
      var info := m.info.value;
      screens[current] := screens[current].(monitorName := info.name, pixelWidth := info.monitorWidth, pixelHeight := info.monitorHeight, isPrimary := info.primary);
      if m.dpi.Some? {
        screens[current] := screens[current].(dpiX := m.dpi.value.0, dpiY := m.dpi.value.1);
      }
      if m.friendlyName.Some? {
        screens[current] := screens[current].(friendlyName := m.friendlyName.value);
        if m.refreshRate.Some? {
          screens[current] := screens[current].(refreshRate := m.refreshRate.value);
        }
      }
      screens[current] := screens[current].(windowWidth := info.workWidth, windowHeight := info.workHeight, initialized := true);
      currentMonitorCount := currentMonitorCount + 1;
      return true;
    }

    /**
     * `EnumDisplayMonitors` driving the callback over the reports, from an
     * empty table: the table ends with the first usable reports, at most
     * `MV_MAX_MONITORS` of them, in order; no queue changes.
     */
    method EnumerateMonitors(reports: seq<MonitorReport>)
      requires Valid() && currentMonitorCount == 0
      modifies this, screens
      ensures Valid() && queuesCreated == old(queuesCreated)
      ensures Filled(screens[..], old(screens[..]), currentMonitorCount, Usable(reports))
    {
      ghost var original := screens[..];
      assert Filled(screens[..], original, 0, Usable(reports[..0]));
      var i := 0;
      while i < |reports|
        invariant i <= |reports| && Valid() && queuesCreated == old(queuesCreated)
        invariant Filled(screens[..], original, currentMonitorCount, Usable(reports[..i]))
      {
        ghost var table, count := screens[..], currentMonitorCount;
        var go := MonitorEnumProc(reports[i]);
        if !go {
          StopKeepsTable(table, original, count, reports, i);
          break;
        }
        EnumerateStep(table, original, count, reports, i);
        i := i + 1;
      }
      assert reports[..|reports|] == reports;
    }

    /**
     * `FetchAllMonitorDetails`: enumerate from an empty table; when no
     * monitor was found, add exactly one virtual primary monitor at 96 DPI
     * and 60 Hz. The count ends between 1 and `MV_MAX_MONITORS`.
     */
    method FetchAllMonitorDetails(reports: seq<MonitorReport>, sysWidth: int, sysHeight: int)
      requires Valid()
      modifies this, screens
      ensures Valid() && 1 <= currentMonitorCount <= MV_MAX_MONITORS
      ensures |Usable(reports)| == 0 ==> currentMonitorCount == 1 && VirtualPrimary(screens[0], sysWidth, sysHeight)
      ensures |Usable(reports)| > 0 ==> Filled(screens[..], old(screens[..]), currentMonitorCount, Usable(reports))
      ensures |Usable(reports)| == 0 ==> forall k :: 1 <= k < MV_MAX_MONITORS ==> screens[k] == old(screens[k])
      ensures queuesCreated == old(queuesCreated)
      ensures forall k :: 0 <= k < MV_MAX_MONITORS ==> screens[k].commandQueue == old(screens[k].commandQueue)
      ensures old(QueuesIssued()) ==> QueuesIssued()
    {
      currentMonitorCount := 0;
      EnumerateMonitors(reports);
      if currentMonitorCount == 0 {
        var s := screens[0];
        var width := if sysWidth > 0 then sysWidth else HEADLESS_WIDTH;
        var height := if sysHeight > 0 then sysHeight else HEADLESS_HEIGHT;
        s := s.(initialized := true, monitorName := HEADLESS_NAME, friendlyName := VIRTUAL_ADAPTER_NAME);
        s := s.(pixelWidth := width, pixelHeight := height, windowWidth := width, windowHeight := height);
        s := s.(isPrimary := true, dpiX := DEFAULT_DPI, dpiY := DEFAULT_DPI, refreshRate := HEADLESS_REFRESH_RATE, isVirtualMonitor := true);
        screens[0] := s;
        currentMonitorCount := currentMonitorCount + 1;
      }
    }

    /** Every queue in the screen table was issued already. */
    ghost predicate QueuesIssued()
      reads this, screens
      requires Valid()
    {
      QueuesAtMost(screens[..], queuesCreated)
    }

    /**
     * The merge of `RestartRenderThreads`: each of the counted screens
     * takes the queue of the first old screen with its name, and otherwise
     * a newly created queue; nothing else in the table changes.
     */
    method MergeQueues(oldScreens: seq<Screen>)
      requires Valid() && QueuesIssued()
      requires QueuesAtMost(oldScreens, queuesCreated)
      modifies this`queuesCreated, screens
      ensures Valid() && QueuesIssued() && queuesCreated >= old(queuesCreated)
      ensures Salvaged(screens[..], old(screens[..]), oldScreens, currentMonitorCount, old(queuesCreated), queuesCreated)
    {
      ghost var before := screens[..];
      hide Salvaged, QueuesAtMost, FirstIndex, Names;
      var i := 0;
      while i < currentMonitorCount
        invariant i <= currentMonitorCount && queuesCreated >= old(queuesCreated)
        invariant QueuesIssued()
        invariant Salvaged(screens[..], before, oldScreens, i, old(queuesCreated), queuesCreated)
      {
        var j := FindMonitorIndexByName(oldScreens, |oldScreens|, screens[i].monitorName);
        assert oldScreens[..|oldScreens|] == oldScreens;
        var queue, issued;
        if j >= 0 {
          queue, issued := oldScreens[j].commandQueue, queuesCreated;
        } else {
          queue, issued := queuesCreated + 1, queuesCreated + 1;
        }
        SalvageStep(screens[..], before, oldScreens, i, old(queuesCreated), queuesCreated, j, queue, issued);
        queuesCreated := issued;
        screens[i] := screens[i].(commandQueue := queue);
        i := i + 1;
      }
    }

    /**
     * The window loop of `RestartRenderThreads`, given the monitor each
     * listed window is on: every listed window goes to its `RemapIndex`,
     * migrating to that screen's queue when the index changed; unlisted
     * windows are untouched.
     */
    method RemapWindows(windowList: seq<nat>, windowMonitors: seq<nat>)
      requires Valid() && |windowMonitors| == |windowList|
      requires forall wi :: 0 <= wi < |windowList| ==> windowList[wi] < allWindows.Length
      requires forall a, b :: 0 <= a < b < |windowList| ==> windowList[a] != windowList[b]
      modifies allWindows
      ensures forall wi :: 0 <= wi < |windowList| ==>
        var idx := RemapIndex(screens[..], currentMonitorCount, windowMonitors[wi]);
        allWindows[windowList[wi]] == Remapped(old(allWindows[windowList[wi]]), idx, screens[idx].commandQueue)
      ensures forall k :: 0 <= k < allWindows.Length && k !in windowList ==> allWindows[k] == old(allWindows[k])
    {
      var wi := 0;
      while wi < |windowList|
        invariant wi <= |windowList|
        invariant forall v :: 0 <= v < wi ==>
          var idx := RemapIndex(screens[..], currentMonitorCount, windowMonitors[v]);
          allWindows[windowList[v]] == Remapped(old(allWindows[windowList[v]]), idx, screens[idx].commandQueue)
        invariant forall k :: 0 <= k < allWindows.Length && k !in windowList[..wi] ==> allWindows[k] == old(allWindows[k])
      {
        var slot := windowList[wi];
        var idx := FindMonitorIndexByHandle(screens[..], currentMonitorCount, windowMonitors[wi]);
        if idx == -1 {
          idx := 0;
        }
        var window := allWindows[slot];
        if window.currentMonitorIndex != idx {
          allWindows[slot] := Migrated(window, idx, screens[idx].commandQueue);
        }
        assert windowList[..wi + 1] == windowList[..wi] + [slot];
        wi := wi + 1;
      }
      assert windowList[..wi] == windowList;
    }

    /**
     * `RestartRenderThreads` without the threads: snapshot the counted
     * screens, enumerate afresh, salvage or create queues, and remap the
     * listed windows, each given the monitor it is on.
     */
    method RestartRenderThreads(reports: seq<MonitorReport>, windowList: seq<nat>, windowMonitors: seq<nat>)
      returns (ghost enumerated: seq<Screen>)
      requires Valid() && QueuesIssued() && |windowMonitors| == |windowList|
      requires forall wi :: 0 <= wi < |windowList| ==> windowList[wi] < allWindows.Length
      requires forall a, b :: 0 <= a < b < |windowList| ==> windowList[a] != windowList[b]
      modifies this, screens, allWindows
      ensures Valid() && QueuesIssued() && queuesCreated >= old(queuesCreated)
      ensures Filled(enumerated, old(screens[..]), currentMonitorCount, Usable(reports))
      ensures Salvaged(screens[..], enumerated, old(screens[..currentMonitorCount]), currentMonitorCount, old(queuesCreated), queuesCreated)
      ensures forall wi :: 0 <= wi < |windowList| ==>
        var idx := RemapIndex(screens[..], currentMonitorCount, windowMonitors[wi]);
        allWindows[windowList[wi]] == Remapped(old(allWindows[windowList[wi]]), idx, screens[idx].commandQueue)
      ensures forall k :: 0 <= k < allWindows.Length && k !in windowList ==> allWindows[k] == old(allWindows[k])
    {
      var oldScreens := screens[..currentMonitorCount];
      currentMonitorCount := 0;
      EnumerateMonitors(reports);
      enumerated := screens[..];
      MergeQueues(oldScreens);
      RemapWindows(windowList, windowMonitors);
    }

    /**
     * `UpdateWindowMonitorAffinity`: the window in `slot` moves to screen
     * `newMonitorIndex` with a swap chain on that screen's queue.
     */
    method UpdateWindowMonitorAffinity(slot: nat, newMonitorIndex: nat)
      requires Valid() && slot < allWindows.Length && newMonitorIndex < MV_MAX_MONITORS
      modifies allWindows
      ensures allWindows[..] == old(allWindows[..])[slot := Migrated(old(allWindows[slot]), newMonitorIndex, screens[newMonitorIndex].commandQueue)]
    {
      allWindows[slot] := Migrated(allWindows[slot], newMonitorIndex, screens[newMonitorIndex].commandQueue);
    }

    /** The first listed window slot whose window has handle `hWnd`, -1 for none. */
    method FindWindow(windowList: seq<nat>, hWnd: nat) returns (slot: int)
      requires forall wi :: 0 <= wi < |windowList| ==> windowList[wi] < allWindows.Length
      ensures var f := FirstIndex(WindowHandles(allWindows[..], windowList), hWnd);
        slot == if f == -1 then -1 else windowList[f]
      ensures slot == -1 <==> forall wi :: 0 <= wi < |windowList| ==> allWindows[windowList[wi]].hWnd != hWnd
    {
      ghost var handles := WindowHandles(allWindows[..], windowList);
      var wi := 0;
      while wi < |windowList|
        invariant wi <= |windowList|
        invariant forall v :: 0 <= v < wi ==> handles[v] != hWnd
      {
        if allWindows[windowList[wi]].hWnd == hWnd {
          assert handles[wi] == hWnd;
          return windowList[wi];
        }
        wi := wi + 1;
      }
      assert hWnd !in handles;
      return -1;
    }

    /**
     * `WM_EXITSIZEMOVE` for the window `hWnd`, now on monitor `hMonitor`:
     * the first listed window with that handle migrates when its monitor is
     * a counted screen other than its current one, and then takes its
     * requested size; nothing else changes.
     */
    method ExitSizeMove(windowList: seq<nat>, hWnd: nat, hMonitor: nat)
      requires Valid()
      requires forall wi :: 0 <= wi < |windowList| ==> windowList[wi] < allWindows.Length
      modifies allWindows
      ensures var f := FirstIndex(WindowHandles(old(allWindows[..]), windowList), hWnd);
        var idx := FirstIndex(Handles(screens[..currentMonitorCount]), hMonitor);
        && (f == -1 ==> allWindows[..] == old(allWindows[..]))
        && (f >= 0 ==> allWindows[..] == old(allWindows[..])[windowList[f] :=
              SizeMoved(old(allWindows[windowList[f]]), idx, if idx >= 0 then screens[idx].commandQueue else 0)])
    {
      var slot := FindWindow(windowList, hWnd);
      if slot == -1 {
        return;
      }
      var idx := FindMonitorIndexByHandle(screens[..], currentMonitorCount, hMonitor);
      assert screens[..][..currentMonitorCount] == screens[..currentMonitorCount];
      if idx != -1 && allWindows[slot].currentMonitorIndex != idx {
        UpdateWindowMonitorAffinity(slot, idx);
      }
      var window := allWindows[slot];
      if window.nextRequestedWidth != window.currentWidth || window.nextRequestedHeight != window.currentHeight {
        allWindows[slot] := window.(currentWidth := window.nextRequestedWidth, currentHeight := window.nextRequestedHeight);
      }
    }
  }
}
