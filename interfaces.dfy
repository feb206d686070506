/** The records shared by the renderer and the tray process (src/renderer/src/interfaces.ts).
    JavaScript numbers are modelled as unbounded integers; an optional field that is
    `undefined` is `None`. */
module Interfaces {

  datatype Option<+T> = None | Some(value: T)

  /** IResolution: width, height and an optional refresh rate. */
  datatype Resolution = Resolution(width: int, height: int, refreshRate: Option<int>)

  /** The `currentSettings` of an ICMonitor, restricted to the fields the core reads. */
  datatype MonitorSettings = MonitorSettings(x: int, y: int, width: int, height: int, refreshRate: int)

  /** ICMonitor as reported by the native monitor service; an absent `primaryDevice` is `false`. */
  datatype Monitor = Monitor(id: string, name: string, currentSettings: Option<MonitorSettings>, primaryDevice: bool)

  /** IFavoriteResolution: the resolution key, an optional monitor scope and an optional label. */
  datatype FavoriteEntry = FavoriteEntry(resolution: string, monitorId: Option<string>, labelText: Option<string>)

  /** IMonitorLabel; `label` is a reserved word in Dafny, so the field is `labelText`. */
  datatype MonitorLabel = MonitorLabel(id: string, labelText: string)

  /** JavaScript truthiness of an optional string: defined and not empty. */
  predicate IsTruthy(s: Option<string>) {
    s.Some? && s.value != ""
  }

  /** JavaScript truthiness of an optional number: defined and not zero. */
  predicate IsTruthyRate(r: Option<int>) {
    r.Some? && r.value != 0
  }

  /** The expression `a || b` on optional strings. */
  function OrElse(a: Option<string>, b: Option<string>): Option<string> {
    if IsTruthy(a) then a else b
  }

  /** `labels.find((label) => label.id === id)`: the first label stored for the monitor. */
  function FindLabel(labels: seq<MonitorLabel>, id: string): (l: Option<MonitorLabel>)
    ensures l.Some? ==> l.value in labels && l.value.id == id
    ensures l.None? <==> forall i :: 0 <= i < |labels| ==> labels[i].id != id
    ensures l.Some? ==>
      exists k :: 0 <= k < |labels| && labels[k] == l.value && (forall i :: 0 <= i < k ==> labels[i].id != id)
  {
    if labels == [] then None
    else if labels[0].id == id then Some(labels[0])
    else
      var l := FindLabel(labels[1..], id);
      if l.Some? then
        ghost var k :|
          0 <= k < |labels[1..]| && labels[1..][k] == l.value && (forall i :: 0 <= i < k ==> labels[1..][i].id != id);
        assert labels[k + 1] == l.value;
        l
      else l
  }

  /** `appData.allDisplays.find((monitor) => monitor.id === monitorId)`. */
  function FindMonitor(displays: seq<Monitor>, id: string): (m: Option<Monitor>)
    ensures m.Some? ==> m.value in displays && m.value.id == id
    ensures m.None? <==> forall i :: 0 <= i < |displays| ==> displays[i].id != id
  {
    if displays == [] then None
    else if displays[0].id == id then Some(displays[0])
    else FindMonitor(displays[1..], id)
  }
}
