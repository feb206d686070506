/** The monitor layout page (src/renderer/src/components/pages/monitorVisualization.tsx): the
    bounding box of the displays' current settings, the per-display records drawn on screen with
    their fallbacks, the toggled selection and the short label of each drawn display. */
module MonitorVisualization {
  import opened Interfaces
  import opened Decimal
  import opened AppStore

  /** The record drawn for one display (lines 24-33). */
  datatype MonitorDisplay = MonitorDisplay(id: string, name: string, x: int, y: int, width: int, height: int,
                                           isPrimary: bool, refreshRate: Option<int>)

  /** `minX`, `minY`, `maxX` and `maxY` after the fold. */
  datatype Bounds = Bounds(minX: int, minY: int, maxX: int, maxY: int)

  /** Among the first `n` displays, every one with current settings lies inside `b`. */
  predicate Covers(displays: seq<Monitor>, n: nat, b: Bounds)
    requires n <= |displays|
  {
    forall j :: 0 <= j < n && displays[j].currentSettings.Some? ==>
      var s := displays[j].currentSettings.value;
      b.minX <= s.x && b.minY <= s.y && s.x + s.width <= b.maxX && s.y + s.height <= b.maxY
  }

  /** Among the first `n` displays, each side of `b` is reached by some display with settings. */
  predicate Attained(displays: seq<Monitor>, n: nat, b: Bounds)
    requires n <= |displays|
  {
    && (exists j :: 0 <= j < n && displays[j].currentSettings.Some? && displays[j].currentSettings.value.x == b.minX)
    && (exists j :: 0 <= j < n && displays[j].currentSettings.Some? && displays[j].currentSettings.value.y == b.minY)
    && (exists j :: 0 <= j < n && displays[j].currentSettings.Some?
          && displays[j].currentSettings.value.x + displays[j].currentSettings.value.width == b.maxX)
    && (exists j :: 0 <= j < n && displays[j].currentSettings.Some?
          && displays[j].currentSettings.value.y + displays[j].currentSettings.value.height == b.maxY)
  }

  /** Some of the first `n` displays has current settings. */
  predicate AnySettings(displays: seq<Monitor>, n: nat)
    requires n <= |displays|
  {
    exists j :: 0 <= j < n && displays[j].currentSettings.Some?
  }

  /** The `forEach` of lines 63-72. A display without current settings is skipped. The starting
      values `Infinity` and `-Infinity` are the neutral elements of `Math.min` and `Math.max`, so
      the first display with settings sets the bounds outright. */
  method ComputeBounds(displays: seq<Monitor>) returns (b: Bounds, hasValidBounds: bool)
    ensures hasValidBounds <==> AnySettings(displays, |displays|)
    ensures hasValidBounds ==> Covers(displays, |displays|, b) && Attained(displays, |displays|, b)
  {
    b := Bounds(0, 0, 0, 0);
    hasValidBounds := false;
    for i := 0 to |displays|
      invariant hasValidBounds <==> AnySettings(displays, i)
      invariant hasValidBounds ==> Covers(displays, i, b) && Attained(displays, i, b)
    {
      if displays[i].currentSettings.None? {
        continue;
      }
      var s := displays[i].currentSettings.value;
      if hasValidBounds {
        b := Bounds(Min(b.minX, s.x), Min(b.minY, s.y), Max(b.maxX, s.x + s.width), Max(b.maxY, s.y + s.height));
      } else {
        b := Bounds(s.x, s.y, s.x + s.width, s.y + s.height);
      }
      hasValidBounds := true;
    }
  }

  function Min(a: int, b: int): int {
    if a <= b then a else b
  }

  function Max(a: int, b: int): int {
    if a >= b then a else b
  }

  /** `display.name || `Display ${index + 1}``. */
  function DisplayName(d: Monitor, index: nat): string {
    if d.name != "" then d.name else "Display " + NatToString(index + 1)
  }

  /** The record of lines 85-95 for the display at `index`. Every field is taken with `||`, so a
      value of 0 counts as missing and takes the fallback too. */
  function MonitorDataAt(d: Monitor, index: nat): (m: MonitorDisplay)
    ensures m.id == d.id && m.isPrimary == (d.primaryDevice || d.id == "0")
    ensures d.currentSettings.None? ==>
      m.x == index * 250 && m.y == 0 && m.width == 256 && m.height == 144 && m.refreshRate.None?
    ensures d.currentSettings.Some? ==>
      var s := d.currentSettings.value;
      m.x == (if s.x != 0 then s.x else index * 250) && m.y == s.y
      && m.width == (if s.width != 0 then s.width else 256) && m.height == (if s.height != 0 then s.height else 144)
      && m.refreshRate == Some(s.refreshRate)
  {
    var s := d.currentSettings;
    MonitorDisplay(
      d.id,
      DisplayName(d, index),
      if s.Some? && s.value.x != 0 then s.value.x else index * 250,
      if s.Some? && s.value.y != 0 then s.value.y else 0,
      if s.Some? && s.value.width != 0 then s.value.width else 256,
      if s.Some? && s.value.height != 0 then s.value.height else 144,
      d.primaryDevice || d.id == "0",
      if s.Some? then Some(s.value.refreshRate) else None)
  }

  /** `appData.allDisplays.map(...)`: one record per display, in the same order. */
  function MonitorData(displays: seq<Monitor>): (m: seq<MonitorDisplay>)
    ensures |m| == |displays|
    ensures forall i :: 0 <= i < |displays| ==> m[i] == MonitorDataAt(displays[i], i)
  {
    seq(|displays|, i requires 0 <= i < |displays| => MonitorDataAt(displays[i], i))
  }

  /** The `||` fallback also replaces a real x of 0: a display placed at the origin but listed
      second is drawn at x = 250. */
  lemma OriginReplaced()
    ensures MonitorDataAt(Monitor("2", "B", Some(MonitorSettings(0, 0, 1920, 1080, 60)), false), 1).x == 250
  {
  }

  /** Drawn records keep the ids of the displays, in order, so a click on a record selects that
      display's id. */
  lemma MonitorDataIds(displays: seq<Monitor>)
    ensures forall i :: 0 <= i < |displays| ==> MonitorData(displays)[i].id == displays[i].id
  {
  }

  /** The longest run of digits that ends `id` (`/\d+$/`); empty when none. */
  function TrailingDigits(id: string): (d: string)
    ensures AllDigits(d) && |d| <= |id| && d == id[|id| - |d|..]
    ensures |d| < |id| ==> !IsDigit(id[|id| - |d| - 1])
  {
    if id == [] || !IsDigit(id[|id| - 1]) then ""
    else
      var d := TrailingDigits(id[..|id| - 1]);
      assert id[..|id| - 1][|id| - 1 - |d|..] == id[|id| - 1 - |d|..|id| - 1];
      d + [id[|id| - 1]]
  }

  /** The label on a drawn display (lines 192-193): `DISPLAY` and the id's trailing number, or
      the display's name when the id ends in no digit. */
  function ShortName(m: MonitorDisplay): string {
    var displayNumber := TrailingDigits(m.id);
    if displayNumber != "" then "DISPLAY" + displayNumber else m.name
  }

  /** A run of digits after a non-digit (or at the start) is exactly what `/\d+$/` finds. */
  lemma {:induction false} TrailingDigitsAfter(p: string, d: string)
    requires AllDigits(d)
    requires p == "" || !IsDigit(p[|p| - 1])
    ensures TrailingDigits(p + d) == d
  {
    if d != "" {
      assert (p + d)[..|p + d| - 1] == p + d[..|d| - 1];
      TrailingDigitsAfter(p, d[..|d| - 1]);
    } else {
      assert p + d == p;
    }
  }

  /** A Windows device name `\\.\DISPLAYn` is labelled `DISPLAYn`. */
  lemma ShortNameOfDeviceName(m: MonitorDisplay, n: nat)
    requires m.id == "\\\\.\\DISPLAY" + NatToString(n)
    ensures ShortName(m) == "DISPLAY" + NatToString(n)
  {
    TrailingDigitsAfter("\\\\.\\DISPLAY", NatToString(n));
  }

  /** An id that ends in a non-digit is labelled with the display's name. */
  lemma ShortNameWithoutNumber(m: MonitorDisplay)
    requires m.id != "" && !IsDigit(m.id[|m.id| - 1])
    ensures ShortName(m) == m.name
  {
  }

  /** `setSelectedMonitorId(selectedMonitorId === monitorId ? null : monitorId)`. */
  function ToggleSelection(selected: Option<string>, id: string): (next: Option<string>)
    ensures next == None <==> selected == Some(id)
    ensures next != None ==> next == Some(id)
  {
    if selected == Some(id) then None else Some(id)
  }

  /** Clicking the same display twice gives back its selection, or clears any other one. */
  lemma ToggleTwice(selected: Option<string>, id: string)
    ensures ToggleSelection(ToggleSelection(selected, id), id) == if selected == Some(id) then selected else None
  {
  }

  class MonitorVisualizationPage {
    /** The `monitors` state drawn by `renderMonitors`. */
    var monitors: seq<MonitorDisplay>
    var selectedMonitorId: Option<string>

    constructor ()
      ensures monitors == [] && selectedMonitorId == None
    {
      monitors := [];
      selectedMonitorId := None;
    }

    /** `calculateVisualization` (lines 52-104). With no displays it returns at once; otherwise it
        folds the bounds, falls back to a row of 300-wide slots, and sets the drawn records. The
        bounds are returned since the page keeps only the records. */
    method CalculateVisualization(allDisplays: seq<Monitor>) returns (bounds: Option<Bounds>)
      modifies this`monitors
      ensures allDisplays == [] ==> monitors == old(monitors) && bounds == None
      ensures allDisplays != [] ==> monitors == MonitorData(allDisplays) && bounds.Some?
      ensures allDisplays != [] && AnySettings(allDisplays, |allDisplays|) ==>
        Covers(allDisplays, |allDisplays|, bounds.value) && Attained(allDisplays, |allDisplays|, bounds.value)
      ensures allDisplays != [] && !AnySettings(allDisplays, |allDisplays|) ==>
        bounds == Some(Bounds(0, 0, |allDisplays| * 300, 200))
    {
      if |allDisplays| == 0 {
        return None;
      }
      var b, hasValidBounds := ComputeBounds(allDisplays);
      if !hasValidBounds {
        b := Bounds(0, 0, |allDisplays| * 300, 200);
      }
      monitors := MonitorData(allDisplays);
      bounds := Some(b);
    }

    /** `handleMonitorSelect` (lines 107-110). */
    method HandleMonitorSelect(monitorId: string)
      modifies this`selectedMonitorId
      ensures selectedMonitorId == ToggleSelection(old(selectedMonitorId), monitorId)
    {
      selectedMonitorId := if selectedMonitorId == Some(monitorId) then None else Some(monitorId);
    }

    /** A press on a custom entry's apply button (lines 252-275), which is disabled until a
        monitor is selected: the store sends the request for the selected monitor and records the
        entry as the most recent. */
    method ApplyCustomResolution(store: Store, r: Resolution)
      modifies store`lastResolutions, store`lastResolutionFile, store`setRequests
      ensures selectedMonitorId.Some? && selectedMonitorId.value != "" ==>
        store.setRequests == old(store.setRequests) + [SetRequest(selectedMonitorId.value, r.width, r.height, r.refreshRate)]
        && store.lastResolutions == Recent(old(store.lastResolutions), r)
        && store.lastResolutions[0] == r
      ensures selectedMonitorId.Some? && selectedMonitorId.value != "" ==>
        store.lastResolutionFile == (if store.useLastResolution
          then Some(LastResolutionRecord(Dimensions(r), selectedMonitorId.value, r.refreshRate)) else old(store.lastResolutionFile))
      ensures selectedMonitorId.None? || selectedMonitorId.value == "" ==>
        store.setRequests == old(store.setRequests) && store.lastResolutions == old(store.lastResolutions)
        && store.lastResolutionFile == old(store.lastResolutionFile)
    {
      if selectedMonitorId.Some? && selectedMonitorId.value != "" {
        store.SetResolution(selectedMonitorId.value, r);
        RecentHead(old(store.lastResolutions), r);
      }
    }
  }
}
