/** The favourites page (src/renderer/src/components/pages/favorites.tsx): the stored list of
    favourite entries (`localStorage['favoriteResolutions']`), the toggle that adds or removes one
    entry per (key, scope), the marking of catalogue entries, renaming and deleting. */
module Favorites {
  import opened Interfaces
  import opened Seqs
  import opened Keys
  import opened Catalogue
  import opened AppStore
  import Decimal

  /** A catalogue entry as the page shows it: the resolution plus the favourite marking. */
  datatype ExtendedResolution = ExtendedResolution(res: Resolution, isFavorite: bool, monitorId: Option<string>, labelText: Option<string>)

  /** `(!a && !b) || a === b`: both scopes are global (falsy), or they name the same monitor. */
  predicate SameScope(a: Option<string>, b: Option<string>) {
    (!IsTruthy(a) && !IsTruthy(b)) || a == b
  }

  /** Scopes are exact: a global scope never meets a monitor scope, and two monitors meet only
      when they are the same; the relation is an equivalence. */
  lemma ScopeExact(a: Option<string>, b: Option<string>, c: Option<string>)
    ensures SameScope(a, b) ==> (IsTruthy(a) <==> IsTruthy(b))
    ensures SameScope(a, b) && IsTruthy(a) ==> a == b
    ensures SameScope(a, a)
    ensures SameScope(a, b) ==> SameScope(b, a)
    ensures SameScope(a, b) && SameScope(b, c) ==> SameScope(a, c)
  {
  }

  /** The entry is for this key in this scope. */
  predicate Matches(f: FavoriteEntry, key: string, monitorId: Option<string>) {
    f.resolution == key && SameScope(f.monitorId, monitorId)
  }

  function ScopedMatch(key: string, monitorId: Option<string>): FavoriteEntry -> bool {
    (f: FavoriteEntry) => Matches(f, key, monitorId)
  }

  function NotScopedMatch(key: string, monitorId: Option<string>): FavoriteEntry -> bool {
    (f: FavoriteEntry) => !Matches(f, key, monitorId)
  }

  /** The `findIndex` of lines 239-242: the first entry for this key and scope, or -1. */
  function FindScoped(favs: seq<FavoriteEntry>, key: string, monitorId: Option<string>): (k: int)
    ensures -1 <= k < |favs|
    ensures k >= 0 ==> Matches(favs[k], key, monitorId)
    ensures forall i :: 0 <= i < |favs| && (k < 0 || i < k) ==> !Matches(favs[i], key, monitorId)
  {
    if favs == [] then -1
    else if Matches(favs[0], key, monitorId) then 0
    else
      var k := FindScoped(favs[1..], key, monitorId);
      if k < 0 then -1 else k + 1
  }

  /** The `find` of lines 478-481 that decides whether the star is filled for a scope. */
  function LookupScoped(favs: seq<FavoriteEntry>, key: string, monitorId: Option<string>): (e: Option<FavoriteEntry>)
    ensures e.Some? <==> exists i :: 0 <= i < |favs| && Matches(favs[i], key, monitorId)
    ensures e.Some? ==> e.value in favs && Matches(e.value, key, monitorId)
  {
    var k := FindScoped(favs, key, monitorId);
    if k >= 0 then Some(favs[k]) else None
  }

  /** At most one entry per (key, scope). */
  predicate AtMostOne(favs: seq<FavoriteEntry>) {
    forall i, j :: 0 <= i < j < |favs| ==> !Matches(favs[j], favs[i].resolution, favs[i].monitorId)
  }

  /** The list after `toggleFavorite` has found the key valid (lines 238-264): the first entry
      for the key and scope is spliced out, or a new entry is pushed. */
  function Toggled(favs: seq<FavoriteEntry>, key: string, monitorId: Option<string>, labelText: Option<string>): seq<FavoriteEntry> {
    var k := FindScoped(favs, key, monitorId);
    if k >= 0 then favs[..k] + favs[k + 1..] else favs + [FavoriteEntry(key, monitorId, labelText)]
  }

  /** Entries for any other key or scope are untouched, in their order. */
  lemma ToggleOthersUnchanged(favs: seq<FavoriteEntry>, key: string, monitorId: Option<string>, labelText: Option<string>)
    ensures Filter(Toggled(favs, key, monitorId, labelText), NotScopedMatch(key, monitorId)) == Filter(favs, NotScopedMatch(key, monitorId))
  {
    var p := NotScopedMatch(key, monitorId);
    var k := FindScoped(favs, key, monitorId);
    var t := Toggled(favs, key, monitorId, labelText);
    if k >= 0 {
      assert t == favs[..k] + favs[k + 1..];
      assert !p(favs[k]);
      FilterRemoveFailing(favs, k, p);
    } else {
      var e := FavoriteEntry(key, monitorId, labelText);
      assert t == favs + [e];
      assert !p(e);
      FilterAppendFailing(favs, e, p);
    }
  }

  /** Among the entries for this key and scope, the first is removed, or the new one is the only
      one. */
  lemma ToggleMatching(favs: seq<FavoriteEntry>, key: string, monitorId: Option<string>, labelText: Option<string>)
    ensures var m := Filter(favs, ScopedMatch(key, monitorId));
      Filter(Toggled(favs, key, monitorId, labelText), ScopedMatch(key, monitorId))
        == if m == [] then [FavoriteEntry(key, monitorId, labelText)] else m[1..]
  {
    var p := ScopedMatch(key, monitorId);
    var k := FindScoped(favs, key, monitorId);
    var t := Toggled(favs, key, monitorId, labelText);
    if k >= 0 {
      assert t == favs[..k] + favs[k + 1..];
      SpliceFilter(favs, k, p);
      FilterNone(favs[..k], p);
      assert Filter([favs[k]], p) == [favs[k]];
    } else {
      var e := FavoriteEntry(key, monitorId, labelText);
      assert t == favs + [e];
      FilterNone(favs, p);
      FilterConcat(favs, [e], p);
      assert Filter([e], p) == [e];
    }
  }

  /** Toggling a (key, scope) that is absent, and then toggling it again, restores the list. */
  lemma ToggleTwiceRestores(favs: seq<FavoriteEntry>, key: string, monitorId: Option<string>, labelText: Option<string>)
    requires LookupScoped(favs, key, monitorId).None?
    ensures Toggled(Toggled(favs, key, monitorId, labelText), key, monitorId, labelText) == favs
  {
    var once := Toggled(favs, key, monitorId, labelText);
    assert once == favs + [FavoriteEntry(key, monitorId, labelText)];
    assert FindScoped(once, key, monitorId) == |favs| by {
      FindScopedAppend(favs, FavoriteEntry(key, monitorId, labelText), key, monitorId);
    }
    assert once[..|favs|] == favs;
  }

  lemma {:induction false} FindScopedAppend(favs: seq<FavoriteEntry>, e: FavoriteEntry, key: string, monitorId: Option<string>)
    requires FindScoped(favs, key, monitorId) < 0 && Matches(e, key, monitorId)
    ensures FindScoped(favs + [e], key, monitorId) == |favs|
  {
    if favs != [] {
      assert (favs + [e])[1..] == favs[1..] + [e];
      FindScopedAppend(favs[1..], e, key, monitorId);
    }
  }

  /** Toggling keeps "at most one entry per (key, scope)". */
  lemma TogglePreservesAtMostOne(favs: seq<FavoriteEntry>, key: string, monitorId: Option<string>, labelText: Option<string>)
    requires AtMostOne(favs)
    ensures AtMostOne(Toggled(favs, key, monitorId, labelText))
  {
    var k := FindScoped(favs, key, monitorId);
    if k >= 0 {
      AtMostOneRemove(favs, k);
    } else {
      AtMostOneAppend(favs, FavoriteEntry(key, monitorId, labelText));
    }
  }

  lemma AtMostOneRemove(favs: seq<FavoriteEntry>, k: nat)
    requires AtMostOne(favs) && k < |favs|
    ensures AtMostOne(favs[..k] + favs[k + 1..])
  {
    var t := favs[..k] + favs[k + 1..];
    forall i, j | 0 <= i < j < |t|
      ensures !Matches(t[j], t[i].resolution, t[i].monitorId)
    {
      var i' := if i < k then i else i + 1;
      var j' := if j < k then j else j + 1;
      assert t[i] == favs[i'] && t[j] == favs[j'];
    }
  }

  lemma AtMostOneAppend(favs: seq<FavoriteEntry>, e: FavoriteEntry)
    requires AtMostOne(favs)
    requires forall i :: 0 <= i < |favs| ==> !Matches(favs[i], e.resolution, e.monitorId)
    ensures AtMostOne(favs + [e])
  {
    var t := favs + [e];
    forall i, j | 0 <= i < j < |t|
      ensures !Matches(t[j], t[i].resolution, t[i].monitorId)
    {
      if j == |favs| {
        assert !Matches(favs[i], e.resolution, e.monitorId);
      } else {
        assert t[i] == favs[i] && t[j] == favs[j];
      }
    }
  }

  /** With at most one entry per (key, scope), toggling flips whether the scope has the key. */
  lemma ToggleFlips(favs: seq<FavoriteEntry>, key: string, monitorId: Option<string>, labelText: Option<string>)
    requires AtMostOne(favs)
    ensures LookupScoped(Toggled(favs, key, monitorId, labelText), key, monitorId).Some?
      <==> LookupScoped(favs, key, monitorId).None?
  {
    var t := Toggled(favs, key, monitorId, labelText);
    var k := FindScoped(favs, key, monitorId);
    if k >= 0 {
      forall i | 0 <= i < |t|
        ensures !Matches(t[i], key, monitorId)
      {
        var i' := if i < k then i else i + 1;
        assert t[i] == favs[i'];
        if i' < k {
        } else {
          assert !Matches(favs[i'], favs[k].resolution, favs[k].monitorId);
        }
      }
    } else {
      assert Matches(t[|favs|], key, monitorId);
    }
  }

  /** `loadFavorites`'s marking of one catalogue entry (lines 148-166): a favourite when any
      stored entry, in any scope, has its key; scope and label come from the first such entry. */
  function MarkOne(res: Resolution, favs: seq<FavoriteEntry>): (e: ExtendedResolution)
    ensures e.res == res
    ensures e.isFavorite <==> exists j :: 0 <= j < |favs| && favs[j].resolution == Key(res)
    ensures !e.isFavorite ==> e.monitorId == None && e.labelText == None
  {
    var entries := Filter(favs, WithKey(Key(res)));
    FilterMembers(favs, WithKey(Key(res)));
    if |entries| > 0 then
      assert entries[0] in entries;
      ExtendedResolution(res, true, entries[0].monitorId, entries[0].labelText)
    else
      assert forall j :: 0 <= j < |favs| ==> favs[j].resolution != Key(res);
      ExtendedResolution(res, false, None, None)
  }

  function WithKey(key: string): FavoriteEntry -> bool {
    (f: FavoriteEntry) => f.resolution == key
  }

  /** A favourite carries the scope and label of the first stored entry with its key. */
  lemma MarkOneFirstEntry(res: Resolution, favs: seq<FavoriteEntry>) returns (j: nat)
    requires MarkOne(res, favs).isFavorite
    ensures j < |favs| && favs[j].resolution == Key(res)
    ensures forall i :: 0 <= i < j ==> favs[i].resolution != Key(res)
    ensures MarkOne(res, favs).monitorId == favs[j].monitorId
    ensures MarkOne(res, favs).labelText == favs[j].labelText
  {
    var entries := Filter(favs, WithKey(Key(res)));
    FilterMembers(favs, WithKey(Key(res)));
    assert exists j :: 0 <= j < |favs| && favs[j].resolution == Key(res);
    var k :| 0 <= k < |favs| && favs[k].resolution == Key(res);
    assert favs[k] in entries;
    j := FilterHead(favs, WithKey(Key(res)));
  }

  /** `[...defaults, ...customs].map(...)`: one marked entry per catalogue value, in the same
      order and unsorted. */
  function Marked(combined: seq<Resolution>, favs: seq<FavoriteEntry>): (m: seq<ExtendedResolution>)
    ensures |m| == |combined|
    ensures forall i :: 0 <= i < |m| ==> m[i] == MarkOne(combined[i], favs)
  {
    seq(|combined|, i requires 0 <= i < |combined| => MarkOne(combined[i], favs))
  }

  /** `marked.filter((res) => res.isFavorite)`. */
  function FavoritesOf(marked: seq<ExtendedResolution>): (f: seq<ExtendedResolution>)
    ensures forall e :: e in f <==> e in marked && e.isFavorite
  {
    var p := (e: ExtendedResolution) => e.isFavorite;
    FilterMembers(marked, p);
    Filter(marked, p)
  }

  /** Every entry with the old key takes the new key (lines 318-323); nothing else changes. */
  function Renamed(favs: seq<FavoriteEntry>, oldKey: string, newKey: string): (r: seq<FavoriteEntry>)
    ensures |r| == |favs|
    ensures forall i :: 0 <= i < |favs| ==> r[i].monitorId == favs[i].monitorId && r[i].labelText == favs[i].labelText
    ensures forall i :: 0 <= i < |favs| ==> r[i].resolution == if favs[i].resolution == oldKey then newKey else favs[i].resolution
  {
    seq(|favs|, i requires 0 <= i < |favs| =>
      if favs[i].resolution == oldKey then favs[i].(resolution := newKey) else favs[i])
  }

  /** Renaming back undoes a rename when the new key was not in use. */
  lemma RenameInverse(favs: seq<FavoriteEntry>, oldKey: string, newKey: string)
    requires forall i :: 0 <= i < |favs| ==> favs[i].resolution != newKey
    ensures Renamed(Renamed(favs, oldKey, newKey), newKey, oldKey) == favs
  {
    var back := Renamed(Renamed(favs, oldKey, newKey), newKey, oldKey);
    assert forall i :: 0 <= i < |favs| ==> back[i] == favs[i];
  }

  /** Renaming onto a key that already has an entry in the same scope leaves two entries for
      one (key, scope). */
  lemma RenameCanDuplicate()
    ensures var favs := [FavoriteEntry("1920x1080", None, None), FavoriteEntry("1280x720", None, None)];
      AtMostOne(favs) && !AtMostOne(Renamed(favs, "1280x720", "1920x1080"))
  {
    var favs := [FavoriteEntry("1920x1080", None, None), FavoriteEntry("1280x720", None, None)];
    var r := Renamed(favs, "1280x720", "1920x1080");
    assert r[0] == favs[0] && r[1].resolution == "1920x1080";
    assert favs[0].resolution != favs[1].resolution;
  }

  /** `favorites.filter((fav) => fav.resolution !== key)` (line 358): every entry with the key
      goes, every other entry stays as often as it was stored, and nothing is added. */
  function WithoutKey(favs: seq<FavoriteEntry>, key: string): (r: seq<FavoriteEntry>)
    ensures forall i :: 0 <= i < |r| ==> r[i].resolution != key
    ensures forall i :: 0 <= i < |favs| && favs[i].resolution != key ==> favs[i] in r
    ensures (forall i :: 0 <= i < |favs| ==> favs[i].resolution != key) ==> r == favs
    ensures forall i :: 0 <= i < |r| ==> r[i] in favs
    ensures forall x :: multiset(r)[x] == if x.resolution == key then 0 else multiset(favs)[x]
  {
    var p := (f: FavoriteEntry) => f.resolution != key;
    FilterKeepsAll(favs, p);
    FilterMembers(favs, p);
    forall x {
      FilterMultiset(favs, p, x);
    }
    Filter(favs, p)
  }

  /** The delete filter works entry by entry: it splits over concatenation and keeps a single
      entry exactly when its key differs, so the kept entries stay in their stored order. */
  lemma WithoutKeySplits(a: seq<FavoriteEntry>, b: seq<FavoriteEntry>, key: string, f: FavoriteEntry)
    ensures WithoutKey(a + b, key) == WithoutKey(a, key) + WithoutKey(b, key)
    ensures WithoutKey([f], key) == if f.resolution == key then [] else [f]
  {
    var p := (x: FavoriteEntry) => x.resolution != key;
    FilterConcat(a, b, p);
    assert [f] == [] + [f];
  }

  /** The per-monitor tab as written (lines 589-591): a marked favourite is listed when its one
      recorded scope is this monitor or global. */
  function MonitorTab(favorites: seq<ExtendedResolution>, id: string): (t: seq<ExtendedResolution>)
    ensures forall e :: e in t <==> e in favorites && (e.monitorId == Some(id) || !IsTruthy(e.monitorId))
  {
    var p := (e: ExtendedResolution) => e.monitorId == Some(id) || !IsTruthy(e.monitorId);
    FilterMembers(favorites, p);
    Filter(favorites, p)
  }

  /** A stored entry for this key is global or scoped to this monitor. */
  predicate ShownOn(favs: seq<FavoriteEntry>, key: string, id: string) {
    exists j :: 0 <= j < |favs| && favs[j].resolution == key && (favs[j].monitorId == Some(id) || !IsTruthy(favs[j].monitorId))
  }

  /** The per-monitor tab as the comment "Include global favorites" intends: a favourite is
      listed when any of its stored entries is global or scoped to this monitor. */
  function MonitorTabCorrected(favorites: seq<ExtendedResolution>, favs: seq<FavoriteEntry>, id: string): (t: seq<ExtendedResolution>)
    ensures forall e :: e in t <==> e in favorites && ShownOn(favs, Key(e.res), id)
  {
    var p := (e: ExtendedResolution) => ShownOn(favs, Key(e.res), id);
    FilterMembers(favorites, p);
    Filter(favorites, p)
  }

  /** The corrected tab lists every catalogue favourite that has a global entry or an entry for
      this monitor, whatever entry came first. */
  lemma MonitorTabCorrectedComplete(combined: seq<Resolution>, favs: seq<FavoriteEntry>, id: string, i: nat, j: nat)
    requires i < |combined| && j < |favs|
    requires favs[j].resolution == Key(combined[i])
    requires favs[j].monitorId == Some(id) || !IsTruthy(favs[j].monitorId)
    ensures MarkOne(combined[i], favs) in MonitorTabCorrected(FavoritesOf(Marked(combined, favs)), favs, id)
  {
    var m := Marked(combined, favs);
    assert m[i] == MarkOne(combined[i], favs) && m[i] in m;
    assert ShownOn(favs, Key(m[i].res), id);
  }

  /** The tab as written hides a global favourite from a monitor's tab when the first stored
      entry for its key belongs to another monitor. */
  lemma MonitorTabHidesGlobal()
    ensures var favs := [FavoriteEntry("1920x1080", Some("A"), None), FavoriteEntry("1920x1080", None, None)];
      var combined := [Resolution(1920, 1080, None)];
      Key(combined[0]) == "1920x1080"
      && MarkOne(combined[0], favs) in FavoritesOf(Marked(combined, favs))
      && MonitorTab(FavoritesOf(Marked(combined, favs)), "B") == []
      && MonitorTabCorrected(FavoritesOf(Marked(combined, favs)), favs, "B") != []
  {
    var favs := [FavoriteEntry("1920x1080", Some("A"), None), FavoriteEntry("1920x1080", None, None)];
    var combined := [Resolution(1920, 1080, None)];
    assert Key(combined[0]) == "1920x1080" by {
      KeyOf1920x1080();
    }
    var e := MarkOne(combined[0], favs);
    assert e.monitorId == Some("A");
    var marked := Marked(combined, favs);
    assert marked == [e];
    var shown := FavoritesOf(marked);
    assert e in shown;
    assert forall x :: x in shown ==> x == e;
    var tab := MonitorTab(shown, "B");
    assert forall x :: x !in tab;
    MonitorTabCorrectedComplete(combined, favs, "B", 0, 1);
  }

  lemma KeyOf1920x1080()
    ensures Key(Resolution(1920, 1080, None)) == "1920x1080"
  {
    assert Decimal.NatToString(1920) == "1920" by {
      assert Decimal.NatToString(1) == "1";
      assert Decimal.NatToString(19) == "19";
      assert Decimal.NatToString(192) == "192";
    }
    assert Decimal.NatToString(1080) == "1080" by {
      assert Decimal.NatToString(1) == "1";
      assert Decimal.NatToString(10) == "10";
      assert Decimal.NatToString(108) == "108";
    }
  }

  class FavoritesPage {
    const store: Store
    /** `localStorage['favoriteResolutions']`; a missing item reads as `[]`. */
    var stored: seq<FavoriteEntry>
    var allResolutions: seq<ExtendedResolution>
    var favoriteResolutions: seq<ExtendedResolution>
    /** The lists sent to the tray with `updateFavorites`. */
    var trayUpdates: seq<seq<FavoriteEntry>>

    constructor (s: Store, initial: seq<FavoriteEntry>)
      ensures store == s && stored == initial
      ensures allResolutions == [] && favoriteResolutions == [] && trayUpdates == []
    {
      store := s;
      stored := initial;
      allResolutions := [];
      favoriteResolutions := [];
      trayUpdates := [];
    }

    /** `loadFavorites` (lines 139-179) followed by the effect of lines 111-136 that runs when
        the favourites state changes: the stored list goes to the tray only when it is not empty. */
    method LoadFavorites()
      modifies this`allResolutions, this`favoriteResolutions, this`trayUpdates
      ensures allResolutions == Marked(Values(store.defaultResolutions) + Values(store.customResolutions), stored)
      ensures favoriteResolutions == FavoritesOf(allResolutions)
      ensures trayUpdates == if |stored| > 0 then old(trayUpdates) + [stored] else old(trayUpdates)
    {
      var combined := Values(store.defaultResolutions) + Values(store.customResolutions);
      allResolutions := Marked(combined, stored);
      favoriteResolutions := FavoritesOf(allResolutions);
      if |stored| > 0 {
        trayUpdates := trayUpdates + [stored];
      }
    }

    /** The handler's own `loadFavorites` after a change to the store's custom list, followed by
        the effect of lines 58-88, which runs again because that list is now a new array: the page
        ends as one reload leaves it, and the tray receives the stored list twice. */
    method ReloadTwice()
      modifies this`allResolutions, this`favoriteResolutions, this`trayUpdates
      ensures allResolutions == Marked(Values(store.defaultResolutions) + Values(store.customResolutions), stored)
      ensures favoriteResolutions == FavoritesOf(allResolutions)
      ensures trayUpdates == if |stored| > 0 then old(trayUpdates) + [stored, stored] else old(trayUpdates)
    {
      LoadFavorites();
      LoadFavorites();
    }

    /** `toggleFavorite` (lines 201-276). Width and height are always numbers here, so the first
        guard always passes; a key that fails `^(\d+)x(\d+)(@\d+)?$` leaves storage alone. */
    method ToggleFavorite(res: Resolution, monitorId: Option<string>, labelText: Option<string>)
      modifies this`stored, this`allResolutions, this`favoriteResolutions, this`trayUpdates
      ensures IsValidKey(Key(res)) ==> stored == Toggled(old(stored), Key(res), monitorId, labelText)
      ensures !IsValidKey(Key(res)) ==> stored == old(stored)
      ensures !IsValidKey(Key(res)) ==> allResolutions == old(allResolutions) && trayUpdates == old(trayUpdates)
      ensures !IsValidKey(Key(res)) ==> favoriteResolutions == old(favoriteResolutions)
      ensures IsValidKey(Key(res)) ==> allResolutions == Marked(Values(store.defaultResolutions) + Values(store.customResolutions), stored)
      ensures IsValidKey(Key(res)) ==> favoriteResolutions == FavoritesOf(allResolutions)
      ensures IsValidKey(Key(res)) ==> trayUpdates == if |stored| > 0 then old(trayUpdates) + [stored] else old(trayUpdates)
    {
      var key := Key(res);
      if !IsValidKey(key) {
        return;
      }
      stored := Toggled(stored, key, monitorId, labelText);
      LoadFavorites();
    }

    /** `deleteResolution` as written (lines 341-379): the object handed to `removeResolution` is
        the page's spread copy, which is never one of the store's objects, so the custom list
        keeps every value; only the favourites with the key go. */
    method DeleteResolutionAsWritten(e: ExtendedResolution)
      requires store.Valid()
      modifies this`stored, this`allResolutions, this`favoriteResolutions, this`trayUpdates
      modifies store`defaultResolutions, store`customResolutions, store`resolutions, store`savedSettings, store`savedCustomResolutions
      ensures store.Valid()
      ensures Values(store.customResolutions) == Values(old(store.customResolutions))
      ensures Values(store.defaultResolutions) == Values(old(store.defaultResolutions))
      ensures e.res in Values(old(store.customResolutions)) && e.isFavorite ==> stored == WithoutKey(old(stored), Key(e.res))
      ensures !(e.res in Values(old(store.customResolutions)) && e.isFavorite) ==> stored == old(stored)
      ensures (e.res in Values(old(store.customResolutions))) ==> allResolutions == Marked(Values(store.defaultResolutions) + Values(store.customResolutions), stored)
      ensures (e.res in Values(old(store.customResolutions))) ==> favoriteResolutions == FavoritesOf(allResolutions)
      ensures (e.res in Values(old(store.customResolutions))) ==> trayUpdates == if |stored| > 0 then old(trayUpdates) + [stored, stored] else old(trayUpdates)
      ensures !(e.res in Values(old(store.customResolutions))) ==> allResolutions == old(allResolutions) && favoriteResolutions == old(favoriteResolutions)
      ensures !(e.res in Values(old(store.customResolutions))) ==> trayUpdates == old(trayUpdates)
      ensures (e.res in Values(old(store.customResolutions))) && store.settingsFileExists ==>
        store.savedSettings == Some(SavedSettings(store.startOnStartup, store.useLastResolution))
        && store.savedCustomResolutions == Some(Values(store.customResolutions))
      ensures !(e.res in Values(old(store.customResolutions))) || !store.settingsFileExists ==>
        store.savedSettings == old(store.savedSettings) && store.savedCustomResolutions == old(store.savedCustomResolutions)
    {
      if e.res in Values(store.customResolutions) {
        if e.isFavorite {
          stored := WithoutKey(stored, Key(e.res));
        }
        RemoveCopy(e.res);
        ReloadTwice();
      }
    }

    /** `appStore.removeResolution(copy)` with the page's spread copy of a catalogue entry:
        the copy is a new object, so no custom entry is identical to it. */
    method RemoveCopy(res: Resolution)
      requires store.Valid()
      modifies store`defaultResolutions, store`customResolutions, store`resolutions, store`savedSettings, store`savedCustomResolutions
      ensures store.Valid()
      ensures Values(store.customResolutions) == Values(old(store.customResolutions))
      ensures Values(store.defaultResolutions) == Values(old(store.defaultResolutions))
      ensures store.settingsFileExists ==> store.savedSettings == Some(SavedSettings(store.startOnStartup, store.useLastResolution))
      ensures store.settingsFileExists ==> store.savedCustomResolutions == Some(Values(store.customResolutions))
      ensures !store.settingsFileExists ==> store.savedSettings == old(store.savedSettings)
      ensures !store.settingsFileExists ==> store.savedCustomResolutions == old(store.savedCustomResolutions)
    {
      var copy := new ResolutionObject(res);
      RemoveAbsentIdentity(store.customResolutions, copy);
      store.RemoveResolution(copy);
    }

    /** `appStore.removeResolution` handed the store's own first custom entry with this value. */
    method RemoveOwnEntry(res: Resolution)
      requires store.Valid()
      modifies store`defaultResolutions, store`customResolutions, store`resolutions, store`savedSettings, store`savedCustomResolutions
      ensures store.Valid()
      ensures Values(store.customResolutions) == RemoveFirst(Values(old(store.customResolutions)), res)
      ensures Values(store.defaultResolutions) == Values(old(store.defaultResolutions))
      ensures res in Values(old(store.customResolutions)) && store.settingsFileExists ==>
        store.savedSettings == Some(SavedSettings(store.startOnStartup, store.useLastResolution))
        && store.savedCustomResolutions == Some(Values(store.customResolutions))
      ensures res !in Values(old(store.customResolutions)) || !store.settingsFileExists ==>
        store.savedSettings == old(store.savedSettings) && store.savedCustomResolutions == old(store.savedCustomResolutions)
    {
      var k := FindIndex(Values(store.customResolutions), res);
      if k >= 0 {
        RemoveFirstValue(store.customResolutions, res);
        store.RemoveResolution(store.customResolutions[k]);
      }
    }

    /** `deleteResolution` handing the store its own entry, as the `isCustom` test by value
        intends: the first custom entry with this value is removed. */
    method DeleteResolution(e: ExtendedResolution)
      requires store.Valid()
      modifies this`stored, this`allResolutions, this`favoriteResolutions, this`trayUpdates
      modifies store`defaultResolutions, store`customResolutions, store`resolutions, store`savedSettings, store`savedCustomResolutions
      ensures store.Valid()
      ensures Values(store.customResolutions) == RemoveFirst(Values(old(store.customResolutions)), e.res)
      ensures Values(store.defaultResolutions) == Values(old(store.defaultResolutions))
      ensures e.res in Values(old(store.customResolutions)) && e.isFavorite ==> stored == WithoutKey(old(stored), Key(e.res))
      ensures !(e.res in Values(old(store.customResolutions)) && e.isFavorite) ==> stored == old(stored)
      ensures (e.res in Values(old(store.customResolutions))) ==> allResolutions == Marked(Values(store.defaultResolutions) + Values(store.customResolutions), stored)
      ensures (e.res in Values(old(store.customResolutions))) ==> favoriteResolutions == FavoritesOf(allResolutions)
      ensures (e.res in Values(old(store.customResolutions))) ==> trayUpdates == if |stored| > 0 then old(trayUpdates) + [stored, stored] else old(trayUpdates)
      ensures !(e.res in Values(old(store.customResolutions))) ==> allResolutions == old(allResolutions) && favoriteResolutions == old(favoriteResolutions)
      ensures !(e.res in Values(old(store.customResolutions))) ==> trayUpdates == old(trayUpdates)
      ensures (e.res in Values(old(store.customResolutions))) && store.settingsFileExists ==>
        store.savedSettings == Some(SavedSettings(store.startOnStartup, store.useLastResolution))
        && store.savedCustomResolutions == Some(Values(store.customResolutions))
      ensures !(e.res in Values(old(store.customResolutions))) || !store.settingsFileExists ==>
        store.savedSettings == old(store.savedSettings) && store.savedCustomResolutions == old(store.savedCustomResolutions)
    {
      if e.res !in Values(store.customResolutions) {
        return;
      }
      ghost var defaults := Values(store.defaultResolutions);
      ghost var customs := Values(store.customResolutions);
      if e.isFavorite {
        stored := WithoutKey(stored, Key(e.res));
      }
      ghost var favs := stored;
      RemoveOwnEntry(e.res);
      assert Values(store.defaultResolutions) == defaults;
      assert Values(store.customResolutions) == RemoveFirst(customs, e.res);
      ReloadTwice();
      assert stored == favs;
    }

    /** The store calls of `handleEditSubmit` as written: `removeResolution` with the spread
        copy removes nothing, then `addResolution` appends the edited entry and saves. */
    method ReplaceCopy(previous: Resolution, edited: Resolution)
      requires store.Valid()
      modifies store`defaultResolutions, store`customResolutions, store`resolutions, store`savedSettings, store`savedCustomResolutions
      ensures store.Valid()
      ensures Values(store.customResolutions) == Values(old(store.customResolutions)) + [edited]
      ensures Values(store.defaultResolutions) == Values(old(store.defaultResolutions))
      ensures store.settingsFileExists ==> store.savedSettings == Some(SavedSettings(store.startOnStartup, store.useLastResolution))
      ensures store.settingsFileExists ==> store.savedCustomResolutions == Some(Values(store.customResolutions))
      ensures !store.settingsFileExists ==> store.savedSettings == old(store.savedSettings)
      ensures !store.settingsFileExists ==> store.savedCustomResolutions == old(store.savedCustomResolutions)
    {
      RemoveCopy(previous);
      store.AddResolution(edited);
    }

    /** The store calls of `handleEditSubmit` handing the store its own entry: the first custom
        entry with the old value goes, then the edited entry is appended and saved. */
    method ReplaceOwnEntry(previous: Resolution, edited: Resolution)
      requires store.Valid()
      modifies store`defaultResolutions, store`customResolutions, store`resolutions, store`savedSettings, store`savedCustomResolutions
      ensures store.Valid()
      ensures Values(store.customResolutions) == RemoveFirst(Values(old(store.customResolutions)), previous) + [edited]
      ensures Values(store.defaultResolutions) == Values(old(store.defaultResolutions))
      ensures store.settingsFileExists ==> store.savedSettings == Some(SavedSettings(store.startOnStartup, store.useLastResolution))
      ensures store.settingsFileExists ==> store.savedCustomResolutions == Some(Values(store.customResolutions))
      ensures !store.settingsFileExists ==> store.savedSettings == old(store.savedSettings)
      ensures !store.settingsFileExists ==> store.savedCustomResolutions == old(store.savedCustomResolutions)
    {
      RemoveOwnEntry(previous);
      store.AddResolution(edited);
    }

    /** `handleEditSubmit` as written (lines 290-338) once the form values have been parsed to
        `edited`, the record `CreateResolution.ToAdd` builds: the copy passed to `removeResolution` removes nothing, the edited entry is
        added, and the favourites are renamed when the entry was a favourite. */
    method EditResolutionAsWritten(current: ExtendedResolution, edited: Resolution)
      requires store.Valid()
      modifies this`stored, this`allResolutions, this`favoriteResolutions, this`trayUpdates
      modifies store`defaultResolutions, store`customResolutions, store`resolutions, store`savedSettings, store`savedCustomResolutions
      ensures store.Valid()
      ensures Values(store.customResolutions) == Values(old(store.customResolutions)) + [edited]
      ensures Values(store.defaultResolutions) == Values(old(store.defaultResolutions))
      ensures current.isFavorite ==> stored == Renamed(old(stored), Key(current.res), Key(edited))
      ensures !current.isFavorite ==> stored == old(stored)
      ensures allResolutions == Marked(Values(store.defaultResolutions) + Values(store.customResolutions), stored)
      ensures favoriteResolutions == FavoritesOf(allResolutions)
      ensures trayUpdates == if |stored| > 0 then old(trayUpdates) + [stored, stored] else old(trayUpdates)
      ensures store.settingsFileExists ==> store.savedSettings == Some(SavedSettings(store.startOnStartup, store.useLastResolution))
      ensures store.settingsFileExists ==> store.savedCustomResolutions == Some(Values(store.customResolutions))
      ensures !store.settingsFileExists ==> store.savedSettings == old(store.savedSettings)
      ensures !store.settingsFileExists ==> store.savedCustomResolutions == old(store.savedCustomResolutions)
    {
      ghost var sent := trayUpdates;
      ReplaceCopy(current.res, edited);
      if current.isFavorite {
        stored := Renamed(stored, Key(current.res), Key(edited));
      }
      ReloadTwice();
      assert trayUpdates == if |stored| > 0 then sent + [stored, stored] else sent;
    }

    /** `handleEditSubmit` handing the store its own entry: the edited entry replaces the first
        custom entry with the old value. */
    method EditResolution(current: ExtendedResolution, edited: Resolution)
      requires store.Valid()
      modifies this`stored, this`allResolutions, this`favoriteResolutions, this`trayUpdates
      modifies store`defaultResolutions, store`customResolutions, store`resolutions, store`savedSettings, store`savedCustomResolutions
      ensures store.Valid()
      ensures Values(store.customResolutions) == RemoveFirst(Values(old(store.customResolutions)), current.res) + [edited]
      ensures Values(store.defaultResolutions) == Values(old(store.defaultResolutions))
      ensures current.isFavorite ==> stored == Renamed(old(stored), Key(current.res), Key(edited))
      ensures !current.isFavorite ==> stored == old(stored)
      ensures allResolutions == Marked(Values(store.defaultResolutions) + Values(store.customResolutions), stored)
      ensures favoriteResolutions == FavoritesOf(allResolutions)
      ensures trayUpdates == if |stored| > 0 then old(trayUpdates) + [stored, stored] else old(trayUpdates)
      ensures store.settingsFileExists ==> store.savedSettings == Some(SavedSettings(store.startOnStartup, store.useLastResolution))
      ensures store.settingsFileExists ==> store.savedCustomResolutions == Some(Values(store.customResolutions))
      ensures !store.settingsFileExists ==> store.savedSettings == old(store.savedSettings)
      ensures !store.settingsFileExists ==> store.savedCustomResolutions == old(store.savedCustomResolutions)
    {
      ghost var sent := trayUpdates;
      ReplaceOwnEntry(current.res, edited);
      if current.isFavorite {
        stored := Renamed(stored, Key(current.res), Key(edited));
      }
      ReloadTwice();
      assert trayUpdates == if |stored| > 0 then sent + [stored, stored] else sent;
    }
  }
}
