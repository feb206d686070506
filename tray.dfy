/** The tray process (src/main/tray.ts): its own copy of the favourites and monitor labels, the
    validity filter applied to every list it receives, the grouping of favourites into submenus,
    and the menu items that send a resolution back to the renderer. */
module Tray {
  import opened Interfaces
  import opened Seqs
  import opened Decimal
  import opened Keys

  /** An element of a favourites array as it arrives over IPC or from `favorites.json`: an object
      whose `resolution` may or may not be a string (`None`), or a value that is not an object. */
  datatype IncomingFavorite =
    | FavoriteObject(resolution: Option<string>, monitorId: Option<string>, labelText: Option<string>)
    | NotAnObject

  /** A `favorites-updated` payload: an array, or anything else. */
  datatype FavoritesPayload = FavoriteArray(items: seq<IncomingFavorite>) | NotAFavoriteArray

  /** A `monitor-labels-updated` payload: an array, or anything else. */
  datatype LabelsPayload = LabelArray(labels: seq<MonitorLabel>) | NotALabelArray

  /** What a menu item does when it is clicked. */
  datatype Command = ApplyFavorite(res: Resolution, monitorId: Option<string>) | ShowApp | QuitApp

  /** A context-menu template entry. */
  datatype MenuItem =
    | Disabled(text: string)
    | Separator
    | Submenu(text: string, items: seq<MenuItem>)
    | Action(text: string, command: Command)

  /** `^(\d+)x(\d+)@(\d+)$`. */
  function MatchWithRefresh(s: string): (m: Option<KeyMatch>)
    ensures m.Some? ==> m.value.rate.Some?
  {
    var m := MatchKey(s);
    if m.Some? && m.value.rate.Some? then m else None
  }

  /** `^(\d+)x(\d+)$`. */
  function MatchNoRefresh(s: string): (m: Option<KeyMatch>)
    ensures m.Some? ==> m.value.rate.None?
  {
    var m := MatchKey(s);
    if m.Some? && m.value.rate.None? then m else None
  }

  /** The test of lines 33-39, 139-146 and 207-214: an object whose `resolution` is a string
      matching one of the two expressions. */
  predicate IsValidFavorite(f: IncomingFavorite) {
    f.FavoriteObject? && f.resolution.Some?
    && (MatchWithRefresh(f.resolution.value).Some? || MatchNoRefresh(f.resolution.value).Some?)
  }

  /** A valid favourite's text is spelled by well-formed groups; and the tray accepts the key of
      a resolution exactly when its width and height are not negative and a written refresh rate
      is positive, the same test the favourites page applies before storing it. */
  lemma ValidFavoriteIff(r: Resolution, f: IncomingFavorite)
    ensures IsValidFavorite(f) ==>
      WellFormed(MatchKey(f.resolution.value).value) && Spelled(MatchKey(f.resolution.value).value) == f.resolution.value
    ensures f.FavoriteObject? && f.resolution == Some(Key(r)) ==>
      (IsValidFavorite(f) <==> IsValidKey(Key(r)))
    ensures f.FavoriteObject? && f.resolution == Some(Key(r)) ==>
      (IsValidFavorite(f) <==> r.width >= 0 && r.height >= 0 && (IsTruthyRate(r.refreshRate) ==> r.refreshRate.value > 0))
  {
    if f.FavoriteObject? && f.resolution.Some? {
      MatchKeySound(f.resolution.value);
    }
    KeyValidIff(r);
  }

  /** `favorites.filter(...)` with the validity test: the valid entries in payload order. */
  function ValidFavorites(s: seq<IncomingFavorite>): (v: seq<IncomingFavorite>)
    ensures forall i :: 0 <= i < |v| ==> IsValidFavorite(v[i])
    ensures forall i :: 0 <= i < |s| ==> (s[i] in v <==> IsValidFavorite(s[i]))
    ensures v == s <==> forall i :: 0 <= i < |s| ==> IsValidFavorite(s[i])
  {
    FilterKeepsAll(s, IsValidFavorite);
    FilterMembers(s, IsValidFavorite);
    Filter(s, IsValidFavorite)
  }

  /** The scope of an entry: `favorite.monitorId`. */
  function MonitorIdOf(f: IncomingFavorite): Option<string> {
    if f.FavoriteObject? then f.monitorId else None
  }

  /** Entries with a falsy `monitorId` go to the global group. */
  predicate IsGlobal(f: IncomingFavorite) {
    !IsTruthy(MonitorIdOf(f))
  }

  function OnMonitor(id: string): IncomingFavorite -> bool {
    (f: IncomingFavorite) => IsTruthy(MonitorIdOf(f)) && MonitorIdOf(f) == Some(id)
  }

  /** `globalFavorites` after the loop of lines 239-248. */
  function GlobalGroup(s: seq<IncomingFavorite>): seq<IncomingFavorite> {
    Filter(s, IsGlobal)
  }

  /** `monitorGroups[id]` after the loop of lines 239-248. */
  function MonitorGroup(s: seq<IncomingFavorite>, id: string): seq<IncomingFavorite> {
    Filter(s, OnMonitor(id))
  }

  /** The truthy monitor ids of `s`, each once, in order of first appearance: the order in which
      the loop creates the properties of `monitorGroups`. */
  function MonitorIds(s: seq<IncomingFavorite>): (ids: seq<string>)
    ensures Distinct(ids)
    ensures forall id :: id in ids <==> exists i :: 0 <= i < |s| && OnMonitor(id)(s[i])
    decreases |s|
  {
    if s == [] then []
    else
      var init := s[..|s| - 1];
      var ids := MonitorIds(init);
      var m := MonitorIdOf(s[|s| - 1]);
      assert forall i :: 0 <= i < |init| ==> init[i] == s[i];
      if IsTruthy(m) && m.value !in ids then ids + [m.value] else ids
  }

  /** The grouping is a partition: a global entry is in the global group and in no monitor group,
      a scoped entry is in its own monitor's group and in no other group, and a group holds only
      entries of its scope. */
  lemma GroupsPartition(s: seq<IncomingFavorite>, i: nat, id: string)
    requires i < |s|
    ensures IsGlobal(s[i]) ==> s[i] in GlobalGroup(s) && s[i] !in MonitorGroup(s, id)
    ensures !IsGlobal(s[i]) ==> (s[i] !in GlobalGroup(s) && MonitorIdOf(s[i]).value in MonitorIds(s)
      && s[i] in MonitorGroup(s, MonitorIdOf(s[i]).value)
      && (id != MonitorIdOf(s[i]).value ==> s[i] !in MonitorGroup(s, id)))
  {
    FilterMembers(s, IsGlobal);
    FilterMembers(s, OnMonitor(id));
    if !IsGlobal(s[i]) {
      FilterMembers(s, OnMonitor(MonitorIdOf(s[i]).value));
      assert OnMonitor(MonitorIdOf(s[i]).value)(s[i]);
    }
  }

  /** Grouping keeps the order of the valid list: regrouping a group changes nothing. */
  lemma GroupsKeepOrder(s: seq<IncomingFavorite>, id: string)
    ensures GlobalGroup(GlobalGroup(s)) == GlobalGroup(s)
    ensures MonitorGroup(MonitorGroup(s, id), id) == MonitorGroup(s, id)
  {
    var g := GlobalGroup(s);
    FilterMembers(s, IsGlobal);
    FilterKeepsAll(g, IsGlobal);
    var m := MonitorGroup(s, id);
    FilterMembers(s, OnMonitor(id));
    FilterKeepsAll(m, OnMonitor(id));
  }

  /** The three accumulators of the `forEach` of lines 239-248. */
  datatype Grouping = Grouping(globals: seq<IncomingFavorite>, groups: map<string, seq<IncomingFavorite>>, order: seq<string>)

  /** One iteration: a scoped entry is pushed onto its monitor's group, created empty on first
      sight; any other entry is pushed onto the global list. */
  function GroupStep(g: Grouping, f: IncomingFavorite): Grouping {
    var m := MonitorIdOf(f);
    if IsTruthy(m) then
      if m.value in g.groups then Grouping(g.globals, g.groups[m.value := g.groups[m.value] + [f]], g.order)
      else Grouping(g.globals, g.groups[m.value := [f]], g.order + [m.value])
    else Grouping(g.globals + [f], g.groups, g.order)
  }

  /** The accumulators after the loop has run over `s`. */
  function Grouped(s: seq<IncomingFavorite>): Grouping {
    if s == [] then Grouping([], map[], [])
    else GroupStep(Grouped(s[..|s| - 1]), s[|s| - 1])
  }

  /** The loop computes the grouping functions: the global group, each monitor's group, and the
      monitor ids in order of first appearance. */
  lemma {:induction false} GroupedSpec(s: seq<IncomingFavorite>)
    ensures Grouped(s).globals == GlobalGroup(s)
    ensures Grouped(s).order == MonitorIds(s)
    ensures forall id :: id in Grouped(s).groups <==> id in MonitorIds(s)
    ensures forall id :: id in Grouped(s).groups ==> Grouped(s).groups[id] == MonitorGroup(s, id)
  {
    if s != [] {
      var init, f := s[..|s| - 1], s[|s| - 1];
      assert s == init + [f];
      GroupedSpec(init);
      GlobalAppend(init, f);
      MonitorIdsAppend(init, f);
      var g := Grouped(init);
      var next := Grouped(s);
      assert next == GroupStep(g, f);
      forall id | id in next.groups
        ensures next.groups[id] == MonitorGroup(s, id)
      {
        MonitorGroupAppend(init, f, id);
        if id !in g.groups {
          NoGroupYet(init, id);
        }
      }
    }
  }

  /** The `forEach` of lines 239-248. */
  method GroupFavorites(valid: seq<IncomingFavorite>)
    returns (globals: seq<IncomingFavorite>, groups: map<string, seq<IncomingFavorite>>, order: seq<string>)
    ensures globals == GlobalGroup(valid)
    ensures order == MonitorIds(valid)
    ensures forall id :: id in groups <==> id in order
    ensures forall id :: id in groups ==> groups[id] == MonitorGroup(valid, id)
    ensures groups == GroupsOf(valid)
  {
    globals := [];
    groups := map[];
    order := [];
    var i := 0;
    while i < |valid|
      invariant 0 <= i <= |valid|
      invariant Grouping(globals, groups, order) == Grouped(valid[..i])
    {
      var favorite := valid[i];
      assert valid[..i + 1][..i] == valid[..i];
      var m := MonitorIdOf(favorite);
      if IsTruthy(m) {
        if m.value !in groups {
          groups := groups[m.value := []];
          order := order + [m.value];
          assert groups[m.value] + [favorite] == [favorite];
        }
        groups := groups[m.value := groups[m.value] + [favorite]];
      } else {
        globals := globals + [favorite];
      }
      i := i + 1;
    }
    assert valid[..i] == valid;
    GroupedSpec(valid);
    SameGroups(valid, groups);
  }

  lemma SameGroups(valid: seq<IncomingFavorite>, groups: map<string, seq<IncomingFavorite>>)
    requires forall id :: id in groups <==> id in MonitorIds(valid)
    requires forall id :: id in groups ==> groups[id] == MonitorGroup(valid, id)
    ensures groups == GroupsOf(valid)
  {
  }

  /** One more entry extends its own group and no other. */
  lemma GlobalAppend(s: seq<IncomingFavorite>, f: IncomingFavorite)
    ensures GlobalGroup(s + [f]) == GlobalGroup(s) + (if IsGlobal(f) then [f] else [])
  {
    FilterConcat(s, [f], IsGlobal);
  }

  lemma MonitorGroupAppend(s: seq<IncomingFavorite>, f: IncomingFavorite, id: string)
    ensures MonitorGroup(s + [f], id) == MonitorGroup(s, id) + (if OnMonitor(id)(f) then [f] else [])
  {
    FilterConcat(s, [f], OnMonitor(id));
  }

  lemma MonitorIdsAppend(s: seq<IncomingFavorite>, f: IncomingFavorite)
    ensures var m := MonitorIdOf(f);
      MonitorIds(s + [f]) == if IsTruthy(m) && m.value !in MonitorIds(s) then MonitorIds(s) + [m.value] else MonitorIds(s)
  {
    assert (s + [f])[..|s|] == s;
  }

  /** A monitor id not seen yet has an empty group. */
  lemma NoGroupYet(s: seq<IncomingFavorite>, id: string)
    requires id !in MonitorIds(s)
    ensures MonitorGroup(s, id) == []
  {
    FilterNone(s, OnMonitor(id));
  }

  /** An array index in the sense of `Object.keys`: the canonical decimal text of an integer
      below 2^32 - 1. */
  predicate IsArrayIndex(s: string) {
    IsDigits(s) && (|s| == 1 || s[0] != '0') && DigitsValue(s) < 0xFFFF_FFFF
  }

  function NotArrayIndex(s: string): bool {
    !IsArrayIndex(s)
  }

  /** The integer an array-index key stands for. */
  function IndexValue(s: string): nat {
    if AllDigits(s) then DigitsValue(s) else 0
  }

  /** Non-decreasing in `key`. */
  predicate Ascending<T>(s: seq<T>, key: T -> nat) {
    forall i, j :: 0 <= i < j < |s| ==> key(s[i]) <= key(s[j])
  }

  function InsertBy<T>(x: T, t: seq<T>, key: T -> nat): (r: seq<T>)
    ensures multiset(r) == multiset(t) + multiset{x}
  {
    if t == [] then [x]
    else if key(x) <= key(t[0]) then [x] + t
    else
      assert t == [t[0]] + t[1..];
      [t[0]] + InsertBy(x, t[1..], key)
  }

  /** Every entry of `InsertBy(x, t, key)` is at least a bound that `x` and every entry of `t` meet. */
  lemma {:induction false} InsertByBounded<T>(x: T, t: seq<T>, key: T -> nat, lo: nat)
    requires lo <= key(x)
    requires forall i :: 0 <= i < |t| ==> lo <= key(t[i])
    ensures forall i :: 0 <= i < |InsertBy(x, t, key)| ==> lo <= key(InsertBy(x, t, key)[i])
  {
    if t != [] && key(x) > key(t[0]) {
      InsertByBounded(x, t[1..], key, lo);
    }
  }

  lemma {:induction false} InsertByAscending<T>(x: T, t: seq<T>, key: T -> nat)
    requires Ascending(t, key)
    ensures Ascending(InsertBy(x, t, key), key)
  {
    if t != [] && key(x) > key(t[0]) {
      var rest := InsertBy(x, t[1..], key);
      assert Ascending(t[1..], key);
      InsertByAscending(x, t[1..], key);
      InsertByBounded(x, t[1..], key, key(t[0]));
      var r := [t[0]] + rest;
      forall i, j | 0 <= i < j < |r|
        ensures key(r[i]) <= key(r[j])
      {
        assert r[j] == rest[j - 1];
        if i > 0 {
          assert r[i] == rest[i - 1];
        }
      }
    }
  }

  /** A stable sort by `key` (insertion sort). */
  function SortBy<T>(s: seq<T>, key: T -> nat): (r: seq<T>)
    ensures multiset(r) == multiset(s)
    ensures Ascending(r, key)
  {
    if s == [] then []
    else
      assert s == s[..|s| - 1] + [s[|s| - 1]];
      assert multiset(s) == multiset(s[..|s| - 1]) + multiset{s[|s| - 1]};
      var sorted := SortBy(s[..|s| - 1], key);
      InsertByAscending(s[|s| - 1], sorted, key);
      InsertBy(s[|s| - 1], sorted, key)
  }

  /** `Object.keys(monitorGroups)`: array-index keys first in ascending numeric order, then the
      other keys in the order they were created (ECMAScript's OrdinaryOwnPropertyKeys, section
      10.1.11.1 of ECMAScript 2021). */
  function ObjectKeys(created: seq<string>): (keys: seq<string>)
    ensures multiset(keys) == multiset(created)
    ensures var n := |Filter(created, IsArrayIndex)|;
      n <= |keys| && (forall i :: 0 <= i < n ==> IsArrayIndex(keys[i]))
      && (forall i, j :: 0 <= i < j < n ==> IndexValue(keys[i]) <= IndexValue(keys[j]))
      && keys[n..] == Filter(created, NotArrayIndex)
  {
    var indices := Filter(created, IsArrayIndex);
    var others := Filter(created, NotArrayIndex);
    KeysSplit(created);
    FilterMembers(created, IsArrayIndex);
    var sorted := SortBy(indices, IndexValue);
    forall i | 0 <= i < |sorted|
      ensures IsArrayIndex(sorted[i])
    {
      assert sorted[i] in multiset(indices);
    }
    var keys := sorted + others;
    assert keys[|indices|..] == others;
    keys
  }

  lemma {:induction false} KeysSplit(s: seq<string>)
    ensures multiset(Filter(s, IsArrayIndex)) + multiset(Filter(s, NotArrayIndex)) == multiset(s)
  {
    if s != [] {
      assert s == [s[0]] + s[1..];
      KeysSplit(s[1..]);
    }
  }

  /** Without array-index ids the submenus follow the order in which the ids first appear. */
  lemma ObjectKeysInsertionOrder(created: seq<string>)
    requires forall i :: 0 <= i < |created| ==> !IsArrayIndex(created[i])
    ensures ObjectKeys(created) == created
  {
    FilterNone(created, IsArrayIndex);
    FilterKeepsAll(created, NotArrayIndex);
  }

  /** `getMonitorDisplayName` (lines 94-99): the stored label when it is not empty, otherwise
      "Monitor " and the id. */
  function GetMonitorDisplayName(labels: seq<MonitorLabel>, id: string): (name: string)
    ensures FindLabel(labels, id).Some? && FindLabel(labels, id).value.labelText != "" ==>
      name == FindLabel(labels, id).value.labelText
    ensures FindLabel(labels, id).None? || FindLabel(labels, id).value.labelText == "" ==>
      name == "Monitor " + id
  {
    var l := FindLabel(labels, id);
    if l.Some? && l.value.labelText != "" then l.value.labelText else "Monitor " + id
  }

  /** `${width}x${height} @ ${refreshRate}Hz`, followed by ` (label)` when the label is truthy. */
  function ItemText(width: int, height: int, refreshRate: int, labelText: Option<string>): string {
    IntToString(width) + "x" + IntToString(height) + " @ " + IntToString(refreshRate) + "Hz"
    + (if IsTruthy(labelText) then " (" + labelText.value + ")" else "")
  }

  /** The refresh rate a key without one is applied at. */
  const DefaultRefreshRate := 60

  /** `createFavoriteMenuItem` (lines 300-356): a disabled "Invalid Resolution" item unless the
      entry is valid; otherwise an item that applies the parsed resolution, 60 Hz when the key
      has no refresh rate, on `monitorId || favorite.monitorId`. */
  function CreateFavoriteMenuItem(f: IncomingFavorite, monitorId: Option<string>): (item: MenuItem)
    ensures item == Disabled("Invalid Resolution") <==> !IsValidFavorite(f)
    ensures IsValidFavorite(f) ==> (item.Action? && item.command.ApplyFavorite?
      && item.command.res.refreshRate.Some? && item.command.monitorId == OrElse(monitorId, f.monitorId))
    ensures IsValidFavorite(f) && MatchNoRefresh(f.resolution.value).Some? ==>
      item.command.res.refreshRate == Some(DefaultRefreshRate)
  {
    if !f.FavoriteObject? || f.resolution.None? then Disabled("Invalid Resolution")
    else
      var withRefresh := MatchWithRefresh(f.resolution.value);
      var noRefresh := MatchNoRefresh(f.resolution.value);
      if withRefresh.Some? then
        var g := withRefresh.value;
        MatchKeySound(f.resolution.value);
        var width := DigitsValue(g.width);
        var height := DigitsValue(g.height);
        var refreshRate := DigitsValue(g.rate.value);
        Action(ItemText(width, height, refreshRate, f.labelText),
          ApplyFavorite(Resolution(width, height, Some(refreshRate)), OrElse(monitorId, f.monitorId)))
      else if noRefresh.Some? then
        var g := noRefresh.value;
        MatchKeySound(f.resolution.value);
        var width := DigitsValue(g.width);
        var height := DigitsValue(g.height);
        Action(ItemText(width, height, DefaultRefreshRate, f.labelText),
          ApplyFavorite(Resolution(width, height, Some(DefaultRefreshRate)), OrElse(monitorId, f.monitorId)))
      else Disabled("Invalid Resolution")
  }

  /** A key written by the favourites page for a resolution with non-negative fields parses back
      to that resolution, with 60 Hz standing in for a missing or zero refresh rate. */
  lemma MenuItemOfKey(r: Resolution, m: Option<string>, labelText: Option<string>, monitorId: Option<string>)
    requires r.width >= 0 && r.height >= 0 && (IsTruthyRate(r.refreshRate) ==> r.refreshRate.value > 0)
    ensures var rate := if IsTruthyRate(r.refreshRate) then r.refreshRate.value else DefaultRefreshRate;
      CreateFavoriteMenuItem(FavoriteObject(Some(Key(r)), m, labelText), monitorId)
        == Action(ItemText(r.width, r.height, rate, labelText),
             ApplyFavorite(Resolution(r.width, r.height, Some(rate)), OrElse(monitorId, m)))
  {
    var g := KeyGroups(r);
    KeyIsSpelledGroups(r);
    IntToStringIsDigitsIff(r.width);
    IntToStringIsDigitsIff(r.height);
    NatToStringRoundTrip(r.width);
    NatToStringRoundTrip(r.height);
    if IsTruthyRate(r.refreshRate) {
      IntToStringIsDigitsIff(r.refreshRate.value);
      NatToStringRoundTrip(r.refreshRate.value);
    }
    MatchKeyComplete(g);
  }

  const Title := Disabled("Resolution Manager")

  const Footer := [Separator, Action("Show App", ShowApp), Action("Quit", QuitApp)]

  function GlobalItems(globals: seq<IncomingFavorite>): (items: seq<MenuItem>)
    ensures |items| == |globals|
    ensures forall i :: 0 <= i < |globals| ==> items[i] == CreateFavoriteMenuItem(globals[i], None)
  {
    seq(|globals|, i requires 0 <= i < |globals| => CreateFavoriteMenuItem(globals[i], None))
  }

  function MonitorItems(group: seq<IncomingFavorite>, id: string): (items: seq<MenuItem>)
    ensures |items| == |group|
    ensures forall i :: 0 <= i < |group| ==> items[i] == CreateFavoriteMenuItem(group[i], Some(id))
  {
    seq(|group|, i requires 0 <= i < |group| => CreateFavoriteMenuItem(group[i], Some(id)))
  }

  function MonitorSubmenus(groups: map<string, seq<IncomingFavorite>>, keys: seq<string>, labels: seq<MonitorLabel>): (menus: seq<MenuItem>)
    requires forall k :: k in keys ==> k in groups
    ensures |menus| == |keys|
    ensures forall j :: 0 <= j < |keys| ==>
      menus[j] == Submenu(GetMonitorDisplayName(labels, keys[j]) + " Favorites", MonitorItems(groups[keys[j]], keys[j]))
  {
    seq(|keys|, j requires 0 <= j < |keys| =>
      Submenu(GetMonitorDisplayName(labels, keys[j]) + " Favorites", MonitorItems(groups[keys[j]], keys[j])))
  }

  /** The template of lines 251-293: the disabled title and a separator, the global submenu
      when there are global favourites, one submenu per monitor key, then a separator,
      "Show App" and "Quit". */
  function BuildMenu(globals: seq<IncomingFavorite>, groups: map<string, seq<IncomingFavorite>>, keys: seq<string>, labels: seq<MonitorLabel>): (menu: seq<MenuItem>)
    requires forall k :: k in keys ==> k in groups
    ensures |menu| == 5 + (if |globals| > 0 then 1 else 0) + |keys|
    ensures menu[0] == Title && menu[1] == Separator
    ensures menu[|menu| - 3..] == Footer
    ensures |globals| > 0 ==> menu[2] == Submenu("Global Favorites", GlobalItems(globals))
    ensures menu[(if |globals| > 0 then 3 else 2)..|menu| - 3] == MonitorSubmenus(groups, keys, labels)
  {
    var head := [Title, Separator] + (if |globals| > 0 then [Submenu("Global Favorites", GlobalItems(globals))] else []);
    var submenus := MonitorSubmenus(groups, keys, labels);
    var menu := head + submenus + Footer;
    assert menu[..|head|] == head;
    assert menu[|head|..|head| + |submenus|] == submenus;
    assert menu[|head| + |submenus|..] == Footer;
    menu
  }

  /** The monitor groups of a valid list as the loop leaves them. */
  function GroupsOf(valid: seq<IncomingFavorite>): (groups: map<string, seq<IncomingFavorite>>)
    ensures forall id :: id in groups <==> id in MonitorIds(valid)
  {
    map id | id in MonitorIds(valid) :: MonitorGroup(valid, id)
  }

  /** Every key `Object.keys` lists names a group. */
  lemma KeysAreGroups(created: seq<string>)
    ensures forall k :: k in ObjectKeys(created) ==> k in created
  {
    var keys := ObjectKeys(created);
    forall k | k in keys
      ensures k in created
    {
      assert k in multiset(keys);
    }
  }

  /** The menu `updateTrayMenu` builds from the valid favourites and the labels. */
  function MenuOf(valid: seq<IncomingFavorite>, labels: seq<MonitorLabel>): seq<MenuItem> {
    KeysAreGroups(MonitorIds(valid));
    BuildMenu(GlobalGroup(valid), GroupsOf(valid), ObjectKeys(MonitorIds(valid)), labels)
  }

  /** Lines 234-293 of `updateTrayMenu`: the grouping loop, then the template. */
  method MenuTemplate(validFavorites: seq<IncomingFavorite>, labels: seq<MonitorLabel>) returns (menu: seq<MenuItem>)
    ensures menu == MenuOf(validFavorites, labels)
  {
    var globals, groups, order := GroupFavorites(validFavorites);
    var keys := ObjectKeys(order);
    KeysAreGroups(order);
    menu := BuildMenu(globals, groups, keys, labels);
  }

  /** Every valid favourite has exactly one place in the menu: the global submenu when its scope
      is falsy, otherwise the submenu of its monitor, which appears once. */
  lemma MenuPlacesEveryFavorite(favorites: seq<IncomingFavorite>, i: nat)
    requires i < |favorites| && IsValidFavorite(favorites[i])
    ensures var valid := ValidFavorites(favorites);
      IsGlobal(favorites[i]) ==> favorites[i] in GlobalGroup(valid)
    ensures var valid := ValidFavorites(favorites);
      !IsGlobal(favorites[i]) ==> (multiset(ObjectKeys(MonitorIds(valid)))[MonitorIdOf(favorites[i]).value] == 1
        && favorites[i] in MonitorGroup(valid, MonitorIdOf(favorites[i]).value))
  {
    var valid := ValidFavorites(favorites);
    var f := favorites[i];
    assert f in valid;
    var k :| 0 <= k < |valid| && valid[k] == f;
    GroupsPartition(valid, k, "");
    if !IsGlobal(f) {
      DistinctOnce(MonitorIds(valid), MonitorIdOf(f).value);
    }
  }

  lemma {:induction false} DistinctOnce(s: seq<string>, x: string)
    requires Distinct(s) && x in s
    ensures multiset(s)[x] == 1
  {
    if s[0] == x {
      assert s == [s[0]] + s[1..];
      assert x !in s[1..];
    } else {
      assert s == [s[0]] + s[1..];
      DistinctOnce(s[1..], x);
    }
  }

  /** The tray's module-level state. `menu` is the last context menu set on the tray;
      `favoritesFile` and `labelsFile` are the contents last written to `favorites.json` and
      `monitorLabels.json`; `sent` are the `apply-favorite-resolution` messages. */
  class TrayMirror {
    const trayCreated: bool
    const windowOpen: bool
    var favoriteResolutions: seq<IncomingFavorite>
    var monitorLabels: seq<MonitorLabel>
    var forceQuit: bool
    var menu: Option<seq<MenuItem>>
    var favoritesFile: Option<seq<IncomingFavorite>>
    var labelsFile: Option<seq<MonitorLabel>>
    var sent: seq<Command>

    constructor (tray: bool, window: bool)
      ensures trayCreated == tray && windowOpen == window
      ensures favoriteResolutions == [] && monitorLabels == [] && !forceQuit
      ensures menu == None && favoritesFile == None && labelsFile == None && sent == []
    {
      trayCreated := tray;
      windowOpen := window;
      favoriteResolutions := [];
      monitorLabels := [];
      forceQuit := false;
      menu := None;
      favoritesFile := None;
      labelsFile := None;
      sent := [];
    }

    /** `updateTrayMenu` (lines 201-297): nothing without a tray; otherwise invalid entries are
        purged from the state and the file, and the menu is rebuilt. */
    method UpdateTrayMenu()
      modifies this`favoriteResolutions, this`favoritesFile, this`menu
      ensures !trayCreated ==>
        favoriteResolutions == old(favoriteResolutions) && favoritesFile == old(favoritesFile) && menu == old(menu)
      ensures trayCreated ==> favoriteResolutions == ValidFavorites(old(favoriteResolutions))
      ensures trayCreated && |favoriteResolutions| != |old(favoriteResolutions)| ==> favoritesFile == Some(favoriteResolutions)
      ensures trayCreated && |favoriteResolutions| == |old(favoriteResolutions)| ==>
        favoriteResolutions == old(favoriteResolutions) && favoritesFile == old(favoritesFile)
      ensures trayCreated ==> menu == Some(MenuOf(ValidFavorites(old(favoriteResolutions)), monitorLabels))
    {
      if !trayCreated {
        return;
      }
      var validFavorites := PurgeInvalidFavorites();
      var contextMenu := MenuTemplate(validFavorites, monitorLabels);
      menu := Some(contextMenu);
    }

    /** Lines 206-232: the invalid entries leave the state, and the file is rewritten when there
        were any. */
    method PurgeInvalidFavorites() returns (validFavorites: seq<IncomingFavorite>)
      modifies this`favoriteResolutions, this`favoritesFile
      ensures validFavorites == ValidFavorites(old(favoriteResolutions))
      ensures favoriteResolutions == validFavorites
      ensures |validFavorites| != |old(favoriteResolutions)| ==> favoritesFile == Some(validFavorites)
      ensures |validFavorites| == |old(favoriteResolutions)| ==>
        validFavorites == old(favoriteResolutions) && favoritesFile == old(favoritesFile)
    {
      validFavorites := ValidFavorites(favoriteResolutions);
      if |validFavorites| != |favoriteResolutions| {
        favoriteResolutions := validFavorites;
        favoritesFile := Some(validFavorites);
      } else {
        FilterLengthKeepsAll(favoriteResolutions);
      }
    }

    /** The `favorites-updated` handler (lines 133-174): a payload that is not an array, is
        empty, or has no valid entry changes nothing; otherwise its valid entries replace the
        favourites, the menu is rebuilt and the file is written. */
    method OnFavoritesUpdated(payload: FavoritesPayload)
      modifies this`favoriteResolutions, this`favoritesFile, this`menu
      ensures payload.NotAFavoriteArray? || |payload.items| == 0 || ValidFavorites(payload.items) == [] ==>
        favoriteResolutions == old(favoriteResolutions) && favoritesFile == old(favoritesFile) && menu == old(menu)
      ensures payload.FavoriteArray? && ValidFavorites(payload.items) != [] ==>
        favoriteResolutions == ValidFavorites(payload.items) && favoritesFile == Some(ValidFavorites(payload.items))
        && menu == (if trayCreated then Some(MenuOf(ValidFavorites(payload.items), monitorLabels)) else old(menu))
    {
      if payload.FavoriteArray? && |payload.items| > 0 {
        var validFavorites := ValidFavorites(payload.items);
        if |validFavorites| > 0 {
          favoriteResolutions := validFavorites;
          FilterIdempotent(payload.items);
          UpdateTrayMenu();
          favoritesFile := Some(validFavorites);
        }
      }
    }

    /** The `monitor-labels-updated` handler (lines 177-197): a non-empty array replaces the
        labels unchecked, rebuilds the menu and is written to the file; anything else is ignored. */
    method OnMonitorLabelsUpdated(payload: LabelsPayload)
      modifies this`monitorLabels, this`labelsFile, this`favoriteResolutions, this`favoritesFile, this`menu
      ensures payload.NotALabelArray? || |payload.labels| == 0 ==>
        monitorLabels == old(monitorLabels) && labelsFile == old(labelsFile) && menu == old(menu)
        && favoriteResolutions == old(favoriteResolutions) && favoritesFile == old(favoritesFile)
      ensures payload.LabelArray? && |payload.labels| > 0 ==>
        monitorLabels == payload.labels && labelsFile == Some(payload.labels)
        && menu == (if trayCreated then Some(MenuOf(ValidFavorites(old(favoriteResolutions)), payload.labels)) else old(menu))
      ensures payload.LabelArray? && |payload.labels| > 0 ==>
        favoriteResolutions == (if trayCreated then ValidFavorites(old(favoriteResolutions)) else old(favoriteResolutions))
      ensures payload.LabelArray? && |payload.labels| > 0 ==>
        favoritesFile == (if trayCreated && |ValidFavorites(old(favoriteResolutions))| != |old(favoriteResolutions)|
                          then Some(ValidFavorites(old(favoriteResolutions))) else old(favoritesFile))
    {
      if payload.LabelArray? && |payload.labels| > 0 {
        monitorLabels := payload.labels;
        UpdateTrayMenu();
        labelsFile := Some(payload.labels);
      }
    }

    /** Clicking a menu item: a favourite sends its resolution and monitor to the renderer when
        the window exists; "Quit" sets the force-quit flag (lines 279-291, 341-353). */
    method Click(item: MenuItem)
      modifies this`sent, this`forceQuit
      ensures item.Action? && item.command.ApplyFavorite? && windowOpen ==> sent == old(sent) + [item.command]
      ensures !(item.Action? && item.command.ApplyFavorite? && windowOpen) ==> sent == old(sent)
      ensures forceQuit == (old(forceQuit) || (item.Action? && item.command.QuitApp?))
    {
      if item.Action? {
        match item.command {
          case ApplyFavorite(_, _) =>
            if windowOpen {
              sent := sent + [item.command];
            }
          case QuitApp =>
            forceQuit := true;
          case ShowApp =>
        }
      }
    }
  }

  lemma FilterLengthKeepsAll(s: seq<IncomingFavorite>)
    requires |ValidFavorites(s)| == |s|
    ensures ValidFavorites(s) == s
  {
    if ValidFavorites(s) != s {
      var i :| 0 <= i < |s| && !IsValidFavorite(s[i]);
      FilterMultiset(s, IsValidFavorite, s[i]);
      FilterShorter(s, IsValidFavorite, i);
    }
  }

  lemma {:induction false} FilterShorter<T>(s: seq<T>, p: T -> bool, i: nat)
    requires i < |s| && !p(s[i])
    ensures |Filter(s, p)| < |s|
  {
    if i > 0 {
      FilterShorter(s[1..], p, i - 1);
    }
  }

  /** Filtering an already valid list keeps it. */
  lemma FilterIdempotent(s: seq<IncomingFavorite>)
    ensures ValidFavorites(ValidFavorites(s)) == ValidFavorites(s)
  {
    var v := ValidFavorites(s);
    assert forall i :: 0 <= i < |v| ==> IsValidFavorite(v[i]);
  }
}
