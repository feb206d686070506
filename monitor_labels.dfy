/** The monitor-labels page (src/renderer/src/components/pages/monitorLabels.tsx): one friendly
    name per monitor id, kept in `localStorage['monitorLabels']` and mirrored to the tray. */
module MonitorLabels {
  import opened Interfaces
  import Tray

  /** `monitorLabels.findIndex((item) => item.id === monitorId)`. */
  function FindLabelIndex(labels: seq<MonitorLabel>, id: string): (k: int)
    ensures -1 <= k < |labels|
    ensures k >= 0 ==> labels[k].id == id
    ensures forall i :: 0 <= i < |labels| && (k < 0 || i < k) ==> labels[i].id != id
  {
    if labels == [] then -1
    else if labels[0].id == id then 0
    else
      var k := FindLabelIndex(labels[1..], id);
      if k < 0 then -1 else k + 1
  }

  /** The list `saveLabel` builds (lines 72-83): the slot of the first label for the id is
      overwritten, or the new label is appended. */
  function Upsert(labels: seq<MonitorLabel>, id: string, text: string): seq<MonitorLabel> {
    var k := FindLabelIndex(labels, id);
    if k >= 0 then labels[k := MonitorLabel(id, text)] else labels + [MonitorLabel(id, text)]
  }

  /** An id that already has a label keeps its position; every other slot is unchanged. */
  lemma UpsertExisting(labels: seq<MonitorLabel>, id: string, text: string)
    requires FindLabel(labels, id).Some?
    ensures var r := Upsert(labels, id, text); var k := FindLabelIndex(labels, id);
      |r| == |labels| && 0 <= k && r[k] == MonitorLabel(id, text)
      && (forall i :: 0 <= i < |labels| && i != k ==> r[i] == labels[i])
  {
    var c :| 0 <= c < |labels| && labels[c] == FindLabel(labels, id).value;
  }

  /** A new id is appended at the end. */
  lemma UpsertNew(labels: seq<MonitorLabel>, id: string, text: string)
    requires FindLabel(labels, id).None?
    ensures Upsert(labels, id, text) == labels + [MonitorLabel(id, text)]
  {
  }

  /** At most one label per monitor id. */
  predicate UniqueIds(labels: seq<MonitorLabel>) {
    forall i, j :: 0 <= i < j < |labels| ==> labels[i].id != labels[j].id
  }

  /** `saveLabel` keeps at most one label per monitor id. */
  lemma UpsertUnique(labels: seq<MonitorLabel>, id: string, text: string)
    requires UniqueIds(labels)
    ensures UniqueIds(Upsert(labels, id, text))
  {
    var r := Upsert(labels, id, text);
    var k := FindLabelIndex(labels, id);
    if k >= 0 {
      forall i, j | 0 <= i < j < |r|
        ensures r[i].id != r[j].id
      {
        if i == k {
          assert r[j] == labels[j];
        } else if j == k {
          assert r[i] == labels[i];
        }
      }
    }
  }

  /** After `saveLabel`, the lookup for the id finds the new text and every other lookup is
      unchanged. */
  lemma UpsertLookup(labels: seq<MonitorLabel>, id: string, text: string, other: string)
    requires other != id
    ensures FindLabel(Upsert(labels, id, text), id) == Some(MonitorLabel(id, text))
    ensures FindLabel(Upsert(labels, id, text), other) == FindLabel(labels, other)
  {
    var k := FindLabelIndex(labels, id);
    if k >= 0 {
      UpsertPrefixLookup(labels, id, text, other, k);
    } else {
      AppendLookup(labels, MonitorLabel(id, text), id);
      AppendLookup(labels, MonitorLabel(id, text), other);
    }
  }

  lemma {:induction false} UpsertPrefixLookup(labels: seq<MonitorLabel>, id: string, text: string, other: string, k: nat)
    requires other != id && k < |labels| && labels[k].id == id
    requires forall i :: 0 <= i < k ==> labels[i].id != id
    ensures FindLabel(labels[k := MonitorLabel(id, text)], id) == Some(MonitorLabel(id, text))
    ensures FindLabel(labels[k := MonitorLabel(id, text)], other) == FindLabel(labels, other)
  {
    var r := labels[k := MonitorLabel(id, text)];
    if k > 0 {
      assert r[1..] == labels[1..][k - 1 := MonitorLabel(id, text)];
      UpsertPrefixLookup(labels[1..], id, text, other, k - 1);
    } else {
      assert r[1..] == labels[1..];
    }
  }

  lemma {:induction false} AppendLookup(labels: seq<MonitorLabel>, l: MonitorLabel, id: string)
    ensures FindLabel(labels + [l], id) == if FindLabel(labels, id).Some? then FindLabel(labels, id) else if l.id == id then Some(l) else None
  {
    if labels != [] {
      assert (labels + [l])[1..] == labels[1..] + [l];
      AppendLookup(labels[1..], l, id);
    }
  }

  /** Saving a non-empty text never introduces an empty label. */
  lemma UpsertKeepsNonEmpty(labels: seq<MonitorLabel>, id: string, text: string)
    requires text != "" && forall i :: 0 <= i < |labels| ==> labels[i].labelText != ""
    ensures var r := Upsert(labels, id, text); forall i :: 0 <= i < |r| ==> r[i].labelText != ""
  {
  }

  /** `find?.label || ''`: the text `startEditing` puts in the form. */
  function PrefillLabel(labels: seq<MonitorLabel>, id: string): (text: string)
    ensures FindLabel(labels, id).None? ==> text == ""
    ensures FindLabel(labels, id).Some? ==> text == FindLabel(labels, id).value.labelText
  {
    var l := FindLabel(labels, id);
    if l.Some? && l.value.labelText != "" then l.value.labelText else ""
  }

  /** `getDisplayName` (lines 102-108): the non-empty label, else the known monitor's name with
      " (Primary)" for the primary display, else the raw id. */
  function GetDisplayName(labels: seq<MonitorLabel>, displays: seq<Monitor>, id: string): (name: string)
    ensures PrefillLabel(labels, id) != "" ==> name == PrefillLabel(labels, id)
    ensures PrefillLabel(labels, id) == "" && FindMonitor(displays, id).Some? ==>
      name == FindMonitor(displays, id).value.name + (if FindMonitor(displays, id).value.primaryDevice then " (Primary)" else "")
    ensures PrefillLabel(labels, id) == "" && FindMonitor(displays, id).None? ==> name == id
  {
    var l := FindLabel(labels, id);
    if l.Some? && l.value.labelText != "" then l.value.labelText
    else
      var monitor := FindMonitor(displays, id);
      if monitor.Some? then monitor.value.name + (if monitor.value.primaryDevice then " (Primary)" else "")
      else id
  }

  /** A saved label is what the page shows for the monitor and what the next edit starts from. */
  lemma SavedLabelShown(labels: seq<MonitorLabel>, displays: seq<Monitor>, id: string, text: string)
    requires text != ""
    ensures GetDisplayName(Upsert(labels, id, text), displays, id) == text
    ensures PrefillLabel(Upsert(labels, id, text), id) == text
  {
    UpsertLookup(labels, id, text, id + "'");
  }

  /** The list the page sends is the one the tray names its submenus from: a saved label is
      also the tray's title for that monitor. */
  lemma TrayShowsSavedLabel(labels: seq<MonitorLabel>, id: string, text: string)
    requires text != ""
    ensures Tray.GetMonitorDisplayName(Upsert(labels, id, text), id) == text
  {
    UpsertLookup(labels, id, text, id + "'");
  }

  class MonitorLabelsPage {
    /** Whether the preload bridge `window.favorites` exists. */
    const bridgeAvailable: bool
    /** The component state `monitorLabels`. */
    var monitorLabels: seq<MonitorLabel>
    /** `localStorage['monitorLabels']`; a missing item reads as `[]`. */
    var stored: seq<MonitorLabel>
    /** The lists sent with `updateMonitorLabels`. */
    var sentToMain: seq<seq<MonitorLabel>>
    var editingId: Option<string>
    /** The form's `label` field. */
    var formLabel: string

    constructor (bridge: bool, initial: seq<MonitorLabel>)
      ensures bridgeAvailable == bridge && stored == initial
      ensures monitorLabels == [] && sentToMain == [] && editingId == None && formLabel == ""
    {
      bridgeAvailable := bridge;
      stored := initial;
      monitorLabels := [];
      sentToMain := [];
      editingId := None;
      formLabel := "";
    }

    /** `loadMonitorLabels` (lines 21-34). */
    method LoadMonitorLabels()
      modifies this`monitorLabels
      ensures monitorLabels == stored
    {
      monitorLabels := stored;
    }

    /** `saveMonitorLabels` (lines 37-59): the list is always stored and becomes the state; it
        goes to the main process only when it is not empty and the bridge exists. */
    method SaveMonitorLabels(labels: seq<MonitorLabel>)
      modifies this`stored, this`monitorLabels, this`sentToMain
      ensures stored == labels && monitorLabels == labels
      ensures sentToMain == if bridgeAvailable && |labels| > 0 then old(sentToMain) + [labels] else old(sentToMain)
    {
      stored := labels;
      monitorLabels := labels;
      if bridgeAvailable && |labels| > 0 {
        sentToMain := sentToMain + [labels];
      }
    }

    /** `startEditing` (lines 62-66). */
    method StartEditing(id: string)
      modifies this`editingId, this`formLabel
      ensures editingId == Some(id)
      ensures formLabel == PrefillLabel(monitorLabels, id)
    {
      editingId := Some(id);
      formLabel := PrefillLabel(monitorLabels, id);
    }

    /** `saveLabel` (lines 69-94). The required rule on the field (line 160) rejects an empty
        label, and then nothing happens; otherwise the label is upserted, saved, and editing
        ends. */
    method SaveLabel(id: string)
      modifies this`stored, this`monitorLabels, this`sentToMain, this`editingId
      ensures formLabel == "" ==> (stored == old(stored) && monitorLabels == old(monitorLabels)
        && sentToMain == old(sentToMain) && editingId == old(editingId))
      ensures formLabel != "" ==> (monitorLabels == Upsert(old(monitorLabels), id, formLabel)
        && stored == monitorLabels && editingId == None)
      ensures formLabel != "" ==>
        sentToMain == if bridgeAvailable then old(sentToMain) + [monitorLabels] else old(sentToMain)
    {
      if formLabel == "" {
        return;
      }
      var newLabels := Upsert(monitorLabels, id, formLabel);
      assert |newLabels| > 0;
      SaveMonitorLabels(newLabels);
      editingId := None;
    }

    /** `cancelEditing` (lines 97-99). */
    method CancelEditing()
      modifies this`editingId
      ensures editingId == None
    {
      editingId := None;
    }
  }
}
