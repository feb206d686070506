/** The change-resolution page (src/renderer/src/components/pages/changeResolution.tsx): a
    resolution picked by its option key, a monitor picked by id, and an Apply button that sends
    one request at a time. */
module ChangeResolution {
  import opened Interfaces
  import opened Decimal
  import opened Keys
  import opened AppStore

  /** The resolution select's `onChange` (lines 90-154). The value is matched against
      `^(\d+)x(\d+)(?:@(\d+))?$`; otherwise it is split at `@` and `x`. The refresh rate is kept
      only when truthy. `None` is a value whose width or height reads as NaN or undefined. */
  function ParseSelection(value: string): (r: Option<Resolution>)
    ensures MatchKey(value).Some? ==> r.Some?
    ensures r.Some? ==> r.value.refreshRate.None? || r.value.refreshRate.value != 0
  {
    FromFields(if MatchKey(value).Some? then GroupFields(MatchKey(value).value) else SplitFields(value))
  }

  /** The object built from the three fields: `None` when width or height is NaN or undefined;
      the refresh rate only when truthy. */
  function FromFields(fields: (Option<int>, Option<int>, Option<int>)): Option<Resolution> {
    var (width, height, refreshRate) := fields;
    if width.None? || height.None? then None
    else Some(Resolution(width.value, height.value, if IsTruthyRate(refreshRate) then refreshRate else None))
  }

  /** `Number(match[1])`, `Number(match[2])`, `match[3] ? Number(match[3]) : undefined`. */
  function GroupFields(m: KeyMatch): (Option<int>, Option<int>, Option<int>) {
    (NumberOf(m.width), NumberOf(m.height),
     if m.rate.Some? && m.rate.value != "" then NumberOf(m.rate.value) else None)
  }

  /** The fallback of lines 107-125 for a value the regular expression rejects. */
  function SplitFields(value: string): (Option<int>, Option<int>, Option<int>) {
    if '@' in value then
      var parts := Split(value, '@');
      var dimensionParts := Split(parts[0], 'x');
      (NumberAt(dimensionParts, 0), NumberAt(dimensionParts, 1), NumberAt(parts, 1))
    else if 'x' in value then
      var parts := Split(value, 'x');
      (NumberAt(parts, 0), NumberAt(parts, 1), None)
    else (None, None, None)
  }

  /** A value the regular expression accepts reads as its digit groups; a zero refresh rate
      group is dropped. */
  lemma SelectionOfMatch(value: string)
    requires MatchKey(value).Some?
    ensures var m := MatchKey(value).value;
      WellFormed(m) && ParseSelection(value) == Some(Resolution(DigitsValue(m.width), DigitsValue(m.height),
        if m.rate.Some? && DigitsValue(m.rate.value) != 0 then Some(DigitsValue(m.rate.value) as int) else None))
  {
    MatchKeySound(value);
  }

  /** Every option key (lines 158-160) parses back to the resolution it was built from, with a
      falsy refresh rate dropped. A key the regular expression rejects (a negative field) is still
      read back by the split fallback. */
  lemma SelectionOfKey(r: Resolution)
    ensures ParseSelection(Key(r)) == Some(Normalize(r))
  {
    IntToStringHasNoSeparator(r.width);
    IntToStringHasNoSeparator(r.height);
    KeyIsSpelledGroups(r);
    MatchKeyOfSpelled(KeyGroups(r));
    if WellFormed(KeyGroups(r)) {
      SelectionOfMatchedKey(r);
    } else {
      SelectionOfUnmatchedKey(r);
    }
  }

  lemma SelectionOfMatchedKey(r: Resolution)
    requires MatchKey(Key(r)) == Some(KeyGroups(r))
    ensures ParseSelection(Key(r)) == Some(Normalize(r))
  {
    ParseOfMatch(Key(r), KeyGroups(r));
    GroupFieldsOfKey(r);
  }

  lemma ParseOfMatch(value: string, m: KeyMatch)
    requires MatchKey(value) == Some(m)
    ensures ParseSelection(value) == FromFields(GroupFields(m))
  {
  }

  lemma GroupFieldsOfKey(r: Resolution)
    ensures FromFields(GroupFields(KeyGroups(r))) == Some(Normalize(r))
  {
    NumberOfIntToString(r.width);
    NumberOfIntToString(r.height);
    if IsTruthyRate(r.refreshRate) {
      NumberOfIntToString(r.refreshRate.value);
    }
  }

  lemma SelectionOfUnmatchedKey(r: Resolution)
    requires MatchKey(Key(r)).None?
    ensures ParseSelection(Key(r)) == Some(Normalize(r))
  {
    ParseOfUnmatched(Key(r));
    SplitFieldsOfKey(r);
  }

  lemma ParseOfUnmatched(value: string)
    requires MatchKey(value).None?
    ensures ParseSelection(value) == FromFields(SplitFields(value))
  {
  }

  /** The split fallback reads a key's fields back, whatever their signs. */
  lemma SplitFieldsOfKey(r: Resolution)
    ensures SplitFields(Key(r)) == (Some(r.width), Some(r.height), if IsTruthyRate(r.refreshRate) then r.refreshRate else None)
  {
    var ws, hs := IntToString(r.width), IntToString(r.height);
    IntToStringHasNoSeparator(r.width);
    IntToStringHasNoSeparator(r.height);
    NumberOfIntToString(r.width);
    NumberOfIntToString(r.height);
    var dims := Dimensions(r);
    DimensionsJoin(r);
    CharNotInJoin(ws, 'x', hs, '@');
    if IsTruthyRate(r.refreshRate) {
      var rs := IntToString(r.refreshRate.value);
      IntToStringHasNoSeparator(r.refreshRate.value);
      NumberOfIntToString(r.refreshRate.value);
      KeyJoin(r);
      SplitAfterPrefix(dims, '@', rs);
      CharInJoin(dims, '@', rs);
    } else {
      KeyJoin(r);
      CharInJoin(ws, 'x', hs);
    }
  }

  lemma DimensionsJoin(r: Resolution)
    ensures Dimensions(r) == IntToString(r.width) + ['x'] + IntToString(r.height)
  {
  }

  /** The key is the dimensions, then `@` and the refresh rate when that is truthy. */
  lemma KeyJoin(r: Resolution)
    ensures Key(r) == if IsTruthyRate(r.refreshRate) then Dimensions(r) + ['@'] + IntToString(r.refreshRate.value) else Dimensions(r)
  {
  }

  /** A notification shown by the page. */
  datatype Notice = Warning(description: string) | Success(description: string) | Failure(description: string)

  /** The `selectedResolution` state: nothing picked yet, a resolution, or an object whose
      fields read as NaN (still truthy, so it enables the button). */
  datatype Selected = NothingSelected | Picked(resolution: Resolution) | Unreadable

  class ChangeResolutionPage {
    const store: Store
    var selectedMonitor: Option<Monitor>
    var selectedResolution: Selected
    var isChangingResolution: bool
    var notices: seq<Notice>

    constructor (s: Store)
      ensures store == s && selectedMonitor == None && selectedResolution == NothingSelected
      ensures !isChangingResolution && notices == []
    {
      store := s;
      selectedMonitor := None;
      selectedResolution := NothingSelected;
      isChangingResolution := false;
      notices := [];
    }

    /** The Apply button is enabled (line 229): both selections made and no change pending. */
    predicate CanApply()
      reads this
    {
      selectedResolution != NothingSelected && selectedMonitor.Some? && !isChangingResolution
    }

    /** The resolution select's `onChange` (lines 90-154). */
    method SelectResolution(value: string)
      modifies this`selectedResolution
      ensures ParseSelection(value).Some? ==> selectedResolution == Picked(ParseSelection(value).value)
      ensures ParseSelection(value).None? ==> selectedResolution == Unreadable
    {
      var parsed := ParseSelection(value);
      selectedResolution := if parsed.Some? then Picked(parsed.value) else Unreadable;
    }

    /** The monitor select's `onChange` (lines 180-184): the first display with that id, if any. */
    method SelectMonitor(id: string, allDisplays: seq<Monitor>)
      modifies this`selectedMonitor
      ensures selectedMonitor == FindMonitor(allDisplays, id)
    {
      selectedMonitor := FindMonitor(allDisplays, id);
    }

    /** `applyResolution` (lines 45-57): an empty monitor id only warns; otherwise the change
        becomes pending and the store sends the request. */
    method ApplyResolution(monitor: string, r: Resolution)
      modifies this`isChangingResolution, this`notices
      modifies store`lastResolutions, store`lastResolutionFile, store`setRequests
      ensures monitor == "" ==> (notices == old(notices) + [Warning("Please select a monitor first")]
        && isChangingResolution == old(isChangingResolution) && store.setRequests == old(store.setRequests)
        && store.lastResolutions == old(store.lastResolutions) && store.lastResolutionFile == old(store.lastResolutionFile))
      ensures monitor != "" ==> (isChangingResolution && notices == old(notices)
        && store.setRequests == old(store.setRequests) + [SetRequest(monitor, r.width, r.height, r.refreshRate)]
        && store.lastResolutions == Recent(old(store.lastResolutions), r))
      ensures monitor != "" ==>
        store.lastResolutionFile == (if store.useLastResolution
          then Some(LastResolutionRecord(Dimensions(r), monitor, r.refreshRate)) else old(store.lastResolutionFile))
    {
      if monitor == "" {
        notices := notices + [Warning("Please select a monitor first")];
        return;
      }
      isChangingResolution := true;
      store.SetResolution(monitor, r);
    }

    /** A press on the Apply button (lines 226-238). A disabled button delivers no click; an
        enabled one calls `applyResolution` with the selected monitor's id. */
    method PressApply()
      modifies this`isChangingResolution, this`notices
      modifies store`lastResolutions, store`lastResolutionFile, store`setRequests
      ensures !old(CanApply()) ==> (isChangingResolution == old(isChangingResolution) && notices == old(notices)
        && store.setRequests == old(store.setRequests) && store.lastResolutions == old(store.lastResolutions)
        && store.lastResolutionFile == old(store.lastResolutionFile))
      ensures old(CanApply()) && selectedResolution.Picked? && selectedMonitor.value.id != "" ==>
        (isChangingResolution && !CanApply() && notices == old(notices)
        && store.setRequests == old(store.setRequests) + [SetRequest(selectedMonitor.value.id,
          selectedResolution.resolution.width, selectedResolution.resolution.height, selectedResolution.resolution.refreshRate)]
        && store.lastResolutions == Recent(old(store.lastResolutions), selectedResolution.resolution)
        && store.lastResolutionFile == (if store.useLastResolution
          then Some(LastResolutionRecord(Dimensions(selectedResolution.resolution), selectedMonitor.value.id,
            selectedResolution.resolution.refreshRate))
          else old(store.lastResolutionFile)))
      ensures old(CanApply()) && selectedMonitor.value.id == "" ==>
        (notices == old(notices) + [Warning("Please select a monitor first")]
        && isChangingResolution == old(isChangingResolution))
      ensures old(CanApply()) && selectedResolution.Unreadable? && selectedMonitor.value.id != "" ==>
        isChangingResolution && notices == old(notices)
      ensures old(CanApply()) && (selectedResolution.Unreadable? || selectedMonitor.value.id == "") ==>
        (store.setRequests == old(store.setRequests) && store.lastResolutions == old(store.lastResolutions)
        && store.lastResolutionFile == old(store.lastResolutionFile))
      ensures old(isChangingResolution) ==> store.setRequests == old(store.setRequests)
    {
      if !CanApply() {
        return;
      }
      var monitor := selectedMonitor.value;
      match selectedResolution {
        case Picked(r) =>
          ApplyResolution(monitor.id, r);
        case Unreadable =>
          if monitor.id == "" {
            notices := notices + [Warning("Please select a monitor first")];
          } else {
            isChangingResolution := true;
          }
      }
    }

    /** A press on a recent list entry's Apply button (lines 256-281), which is disabled while a
        change is pending: with a monitor selected the entry is applied to it, otherwise the
        press only warns. The entry moves to the front of the list, which keeps its length. */
    method PressApplyRecent(r: Resolution)
      requires r in store.lastResolutions
      modifies this`isChangingResolution, this`notices
      modifies store`lastResolutions, store`lastResolutionFile, store`setRequests
      ensures old(isChangingResolution) || old(selectedMonitor).None? || old(selectedMonitor).value.id == "" ==>
        store.setRequests == old(store.setRequests) && store.lastResolutions == old(store.lastResolutions)
        && store.lastResolutionFile == old(store.lastResolutionFile)
        && isChangingResolution == old(isChangingResolution)
      ensures old(isChangingResolution) ==> notices == old(notices)
      ensures !old(isChangingResolution) && (old(selectedMonitor).None? || old(selectedMonitor).value.id == "") ==>
        notices == old(notices) + [Warning("Please select a monitor first")]
      ensures !old(isChangingResolution) && old(selectedMonitor).Some? && old(selectedMonitor).value.id != "" ==>
        isChangingResolution && notices == old(notices)
        && store.setRequests == old(store.setRequests) + [SetRequest(selectedMonitor.value.id, r.width, r.height, r.refreshRate)]
        && store.lastResolutions == Recent(old(store.lastResolutions), r)
        && store.lastResolutions[0] == r && |store.lastResolutions| == |old(store.lastResolutions)|
        && multiset(store.lastResolutions) == multiset(old(store.lastResolutions))
      ensures !old(isChangingResolution) && old(selectedMonitor).Some? && old(selectedMonitor).value.id != "" ==>
        store.lastResolutionFile == (if store.useLastResolution
          then Some(LastResolutionRecord(Dimensions(r), selectedMonitor.value.id, r.refreshRate)) else old(store.lastResolutionFile))
    {
      if isChangingResolution {
        return;
      }
      if selectedMonitor.Some? {
        ghost var before := store.lastResolutions;
        ApplyResolution(selectedMonitor.value.id, r);
        if selectedMonitor.value.id != "" {
          RecentHead(before, r);
          RecentPresent(before, r);
        }
      } else {
        notices := notices + [Warning("Please select a monitor first")];
      }
    }

    /** The `onResolutionChangeResult` listener (lines 22-37): any result ends the pending
        change and is reported. */
    method OnResolutionChangeResult(success: bool, error: string)
      modifies this`isChangingResolution, this`notices
      ensures !isChangingResolution
      ensures success ==> notices == old(notices) + [Success("Resolution changed successfully")]
      ensures !success ==> notices == old(notices) + [Failure(if error != "" then error else "Failed to change resolution")]
    {
      isChangingResolution := false;
      if success {
        notices := notices + [Success("Resolution changed successfully")];
      } else {
        notices := notices + [Failure(if error != "" then error else "Failed to change resolution")];
      }
    }
  }
}
