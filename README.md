# ResolutionManager core, modelled in Dafny

ResolutionManager is an Electron desktop tool for switching display resolutions. It keeps a
catalogue of resolutions: built-in defaults plus user-defined custom entries. The catalogue is
kept sorted from largest to smallest. The user applies an entry to a monitor, and the last five
applied entries are remembered. Favourites are stored as key strings `"{w}x{h}"` or
`"{w}x{h}@{r}"`. A favourite is either global or scoped to one monitor. Favourites and friendly
monitor labels are mirrored to a tray icon, whose context menu groups the favourites by monitor.

This project models that core and proves properties of the model:

- the renderer's store (`App.store.ts`): sorting, adding, removing, the recent list, and reading
  back the last-resolution file;
- the favourites page, the monitor-labels page and the add-resolution form;
- the change-resolution page and the monitor layout page;
- the tray's mirror of the favourites and labels in the main process (`tray.ts`).

Modules, one per file:

- `interfaces.dfy`: the records of `interfaces.ts` (`Resolution`, `Monitor`, `FavoriteEntry`,
  `MonitorLabel`), JavaScript truthiness, and the `find` lookups.
- `seqs.dfy`: `Array.prototype.filter` and its laws.
- `decimal.dfy`: decimal text, `Number(...)`, `parseInt(...)` and `split`.
- `keys.dfy`: the resolution key and the regular expressions that read it.
- `catalogue.dfy`: the sort comparator and the stable sort.
- `app_store.dfy`: the store: a class whose fields are the `appData` arrays and the files it writes.
- `favorites.dfy`, `monitor_labels.dfy`, `create_resolution.dfy`, `change_resolution.dfy`,
  `monitor_visualization.dfy`: the pages. Each page is a class over its component state and the
  `localStorage` items it uses.
- `tray.dfy`: the tray's module-level state as a class, and the menu template as data.

Conventions:

- Numbers are unbounded integers.
- NaN cannot be held: a parse that would give NaN is `None`.
- `undefined` on an optional field is `None`.
- Objects are values, except the catalogue entries. Those are class instances, because
  `removeResolution` compares them by reference.
- A persisted array (a `localStorage` item, `favorites.json`, `monitorLabels.json`,
  `lastResolution.json`, `settings.json`) is a `seq` field.
- A message sent over IPC is appended to a `seq` field that collects what was sent.

## Model

| member | source | states |
|---|---|---|
| Catalogue.Compare | src/renderer/src/stores/App.store.ts:117-144 | the comparator returns -1, 1 or 0 exactly when the first entry outranks the second, the second outranks the first, or they tie on (width, height, refresh rate or 0) |
| Catalogue.Sort | src/renderer/src/stores/App.store.ts:116-145 | the sorted list is a permutation of its input and is non-increasing in (width, height, refresh rate or 0) |
| Catalogue.SortStable | src/renderer/src/stores/App.store.ts:116-145 | within every class of tied entries the sort keeps the input order (the sort is stable) |
| Catalogue.DefaultsBeforeCustoms | src/renderer/src/stores/App.store.ts:116 | among tied entries the defaults come first, then the custom entries, each in their own order |
| Catalogue.SortOrdered | src/renderer/src/stores/App.store.ts:116-145 | sorting a list that is already in order returns it unchanged |
| Catalogue.SortIdempotent | src/renderer/src/stores/App.store.ts:116-145 | re-sorting the sorted catalogue gives the same list |
| AppStore.CataloguePermutation | src/renderer/src/stores/App.store.ts:116 | the catalogue holds exactly the defaults and the custom entries: nothing added, no duplicate dropped |
| AppStore.Store.ReSortResolutions | src/renderer/src/stores/App.store.ts:97-148 | defaults and custom entries keep their values as new objects, and the catalogue is their sorted concatenation (the store invariant) |
| AppStore.Coerce | src/renderer/src/stores/App.store.ts:98-110 | the rebuilt list has the same values, all as new objects, none listed twice |
| AppStore.Store.AddResolution | src/renderer/src/stores/App.store.ts:150-163 | exactly one entry with the given values is appended to the custom list; the defaults do not change; when the settings file exists the current settings and the new custom list are saved, otherwise both files are kept |
| AppStore.Store.RemoveResolution | src/renderer/src/stores/App.store.ts:165-169 | only custom entries that are the very object passed go; the defaults never change; when the settings file exists the current settings and the remaining custom list are saved, otherwise both files are kept |
| AppStore.Store.SaveData | src/renderer/src/stores/App.store.ts:177-210 | with the settings file present both the settings and the custom list's values are written; without it neither file changes |
| AppStore.RemoveAbsentIdentity | src/renderer/src/stores/App.store.ts:166 | an object that is not in the list, such as a structurally equal copy, removes nothing |
| AppStore.RemoveIdenticalMultiset | src/renderer/src/stores/App.store.ts:166 | `RemoveIdentical` drops exactly the occurrences of that object |
| AppStore.RemoveFirstValue | src/renderer/src/stores/App.store.ts:165-169 | handing over the store's own entry for a value removes the first entry with that value |
| AppStore.Store.SetResolution | src/renderer/src/stores/App.store.ts:323-424 | one native request is sent; the recent list becomes the move-to-front update; with "use last resolution" on, the last-resolution file records the resolution |
| AppStore.RecentHead | src/renderer/src/stores/App.store.ts:387-406 | the applied resolution is first in the recent list `Recent` computes |
| AppStore.RecentAbsent | src/renderer/src/stores/App.store.ts:394-401 | a new entry is put in front and the list is cut to five |
| AppStore.RecentPresent | src/renderer/src/stores/App.store.ts:402-406 | an entry already present is moved: the length and the multiset of entries stay the same |
| AppStore.RecentAtFront | src/renderer/src/stores/App.store.ts:402-406 | an entry already at index 0 leaves the list unchanged |
| AppStore.RecentBounded | src/renderer/src/stores/App.store.ts:399-401 | the list never grows past five entries |
| AppStore.RecentIdempotent | src/renderer/src/stores/App.store.ts:387-406 | applying the same resolution twice in a row is the same as applying it once |
| AppStore.RecentDistinct | src/renderer/src/stores/App.store.ts:387-406 | a recent list without repeated entries keeps that property |
| AppStore.LastResolutionRoundTrip | src/renderer/src/stores/App.store.ts:281-313 | reading back the record that `setResolution` writes gives exactly the applied resolution |
| AppStore.Dimensions | src/renderer/src/stores/App.store.ts:409 | the `${width}x${height}` text splits at `x` into exactly the two numbers' texts |
| AppStore.Store.LoadLastResolutions | src/renderer/src/stores/App.store.ts:279-321 | an existing, readable last-resolution file sets the recent list to what it records; otherwise the list is unchanged |
| Keys.Key | src/renderer/src/components/pages/favorites.tsx:149 | the key always has an `x`, and has an `@` exactly when the refresh rate is truthy |
| Keys.MatchKeySound | src/renderer/src/components/pages/favorites.tsx:225 | a match of `^(\d+)x(\d+)(@\d+)?$` by `MatchKey` reports digit groups that spell the input back |
| Keys.MatchKeyComplete | src/renderer/src/components/pages/favorites.tsx:225 | every string of that language is matched, with exactly its groups |
| Keys.KeyValidIff | src/renderer/src/components/pages/favorites.tsx:222-226 | a resolution's key passes the key test exactly when width and height are not negative and a written refresh rate is positive |
| Favorites.ScopeExact | src/renderer/src/components/pages/favorites.tsx:239-242 | `SameScope` is an equivalence relation; a global scope never matches a monitor scope, and two monitor scopes match only when they are equal |
| Favorites.FindScoped | src/renderer/src/components/pages/favorites.tsx:239-242 | the index found is the first entry for this key and scope, or -1 when there is none |
| Favorites.LookupScoped | src/renderer/src/components/pages/favorites.tsx:478-481 | the entry is found exactly when some stored entry has this key and scope |
| Favorites.ToggleOthersUnchanged | src/renderer/src/components/pages/favorites.tsx:238-264 | of `Toggled`: entries for any other key or scope keep their values and order |
| Favorites.ToggleMatching | src/renderer/src/components/pages/favorites.tsx:244-257 | among the entries for this key and scope, the first is removed, or the new entry becomes the only one |
| Favorites.ToggleTwiceRestores | src/renderer/src/components/pages/favorites.tsx:238-264 | toggling an absent (key, scope) twice restores the stored list |
| Favorites.TogglePreservesAtMostOne | src/renderer/src/components/pages/favorites.tsx:238-264 | at most one entry per (key, scope) stays true |
| Favorites.ToggleFlips | src/renderer/src/components/pages/favorites.tsx:238-264 | with at most one entry per (key, scope), toggling flips whether the scope has the key |
| Favorites.FavoritesPage.ToggleFavorite | src/renderer/src/components/pages/favorites.tsx:201-276 | a key that fails the test changes nothing; otherwise the stored list is toggled and the page is reloaded from it: the marked list, the favourites and the tray update are what `LoadFavorites` gives |
| Favorites.MarkOne | src/renderer/src/components/pages/favorites.tsx:148-166 | an entry is marked a favourite exactly when some stored entry has its key; a non-favourite has no scope and no label |
| Favorites.Marked | src/renderer/src/components/pages/favorites.tsx:148-166 | one entry per catalogue entry, in order, each marked against the stored list |
| Favorites.MarkOneFirstEntry | src/renderer/src/components/pages/favorites.tsx:152-159 | a favourite carries the scope and label of the first stored entry with its key |
| Favorites.FavoritesOf | src/renderer/src/components/pages/favorites.tsx:170 | the favourites list holds exactly the marked entries that are favourites |
| Favorites.FavoritesPage.LoadFavorites | src/renderer/src/components/pages/favorites.tsx:111-179 | the page lists every default then every custom entry, marked against the stored list; the tray is sent the stored list when it is not empty |
| Favorites.FavoritesPage.ReloadTwice | src/renderer/src/components/pages/favorites.tsx:58-88 | after the store's custom list becomes a new array, the handler's reload and the rerun mount effect leave the page as one reload does, and the tray is sent the stored list twice when it is not empty |
| Favorites.Renamed | src/renderer/src/components/pages/favorites.tsx:318-323 | every entry with the old key gets the new key; scopes, labels, length and all other entries stay the same |
| Favorites.RenameInverse | src/renderer/src/components/pages/favorites.tsx:318-323 | when the new key was unused, renaming back restores the stored list |
| Favorites.RenameCanDuplicate | src/renderer/src/components/pages/favorites.tsx:318-323 | renaming onto a key that already has a global entry leaves two entries for that (key, scope) |
| Favorites.WithoutKey | src/renderer/src/components/pages/favorites.tsx:358 | no entry with the key survives, every other entry does as often as it was stored, and nothing is added |
| Favorites.WithoutKeySplits | src/renderer/src/components/pages/favorites.tsx:358 | the filter works entry by entry: it splits over concatenation and keeps a single entry exactly when its key differs, so the kept entries stay in stored order |
| Favorites.FavoritesPage.DeleteResolutionAsWritten | src/renderer/src/components/pages/favorites.tsx:341-379 | as written: the custom entries and the defaults keep their values; only a favourite custom entry loses its stored favourites for the key, and every other delete keeps them; a custom entry saves the settings and custom list when the settings file exists and reloads the page twice, as `ReloadTwice` states; anything else leaves the page and both files as they were |
| Favorites.FavoritesPage.DeleteResolution | src/renderer/src/components/pages/favorites.tsx:341-379 | corrected: the first custom entry with the value goes and the defaults stay; only a favourite custom entry loses its stored favourites for the key; a custom entry saves the settings and the new custom list when the settings file exists and reloads the page twice, as `ReloadTwice` states; anything else leaves the page and both files as they were |
| Favorites.FavoritesPage.EditResolutionAsWritten | src/renderer/src/components/pages/favorites.tsx:290-338 | as written: the edited entry is appended and the old one stays; the defaults keep their values; the settings and the new custom list are saved when the settings file exists; the favourites of a favourite entry are renamed to the new key and others are kept; the page is reloaded twice, as `ReloadTwice` states |
| Favorites.FavoritesPage.EditResolution | src/renderer/src/components/pages/favorites.tsx:290-338 | corrected: the first custom entry with the old value is removed and the edited one appended; the defaults keep their values; the settings and the new custom list are saved when the settings file exists; the favourites of a favourite entry are renamed to the new key and others are kept; the page is reloaded twice, as `ReloadTwice` states |
| Favorites.FavoritesPage.ReplaceCopy | src/renderer/src/components/pages/favorites.tsx:295-305 | as written: removing the spread copy removes nothing, then the edited entry is appended; the defaults keep their values; the settings and the new custom list are saved when the settings file exists, otherwise both files are kept |
| Favorites.FavoritesPage.ReplaceOwnEntry | src/renderer/src/components/pages/favorites.tsx:295-305 | corrected: the first custom entry with the old value goes and the edited entry is appended; the defaults keep their values; the settings and the new custom list are saved when the settings file exists, otherwise both files are kept |
| Favorites.MonitorTab | src/renderer/src/components/pages/favorites.tsx:589-591 | as written: a monitor's tab lists the favourites whose single marked scope is global or that monitor |
| Favorites.MonitorTabHidesGlobal | src/renderer/src/components/pages/favorites.tsx:589-591 | a global favourite stored after an entry scoped to another monitor is missing from this monitor's tab, though the corrected tab shows it |
| Favorites.MonitorTabCorrected | src/renderer/src/components/pages/favorites.tsx:589-591 | corrected: a favourite is listed when any of its stored entries is global or scoped to this monitor |
| Favorites.MonitorTabCorrectedComplete | src/renderer/src/components/pages/favorites.tsx:589-591 | the corrected tab lists every catalogue favourite that has a global entry or an entry for this monitor |
| Tray.ValidFavoriteIff | src/main/tray.ts:139-146 | a favourite that passes `IsValidFavorite` has text spelled by digit groups; a key from the favourites page passes the tray's test exactly when it passes the page's |
| Tray.ValidFavorites | src/main/tray.ts:207-214 | the filter keeps exactly the valid entries, in order, and returns its input exactly when every entry is valid |
| Tray.FilterIdempotent | src/main/tray.ts:207-214 | filtering a list that is already valid keeps it |
| Tray.MonitorIds | src/main/tray.ts:239-248 | the group ids are the truthy monitor ids of the list, each once |
| Tray.GroupsPartition | src/main/tray.ts:239-248 | a global favourite is in the global group and in no monitor group; a scoped one is only in its monitor's group |
| Tray.GroupsKeepOrder | src/main/tray.ts:239-248 | each group holds only favourites of its own kind: regrouping a group gives it back |
| Tray.GroupFavorites | src/main/tray.ts:234-248 | the loop's global list, group map and order of group creation equal the grouping functions |
| Tray.ObjectKeys | src/main/tray.ts:265 | the ids are listed as a permutation of the created ones: array-index ids first in ascending numeric order, then the others in creation order |
| Tray.ObjectKeysInsertionOrder | src/main/tray.ts:265 | without array-index ids the submenus follow creation order |
| Tray.GetMonitorDisplayName | src/main/tray.ts:94-99 | a monitor's title is its stored label when that is not empty, otherwise `Monitor {id}` |
| Tray.CreateFavoriteMenuItem | src/main/tray.ts:300-356 | the item is the disabled "Invalid Resolution" exactly when the favourite is invalid; a valid one applies a resolution with a refresh rate, 60 Hz when the key has none, on the given monitor or else its own |
| Tray.MenuItemOfKey | src/main/tray.ts:300-356 | the item for a key written by the favourites page applies that resolution, at 60 Hz when no rate was written |
| Tray.BuildMenu | src/main/tray.ts:251-293 | the menu is the title and a separator, then the global submenu when there are global favourites, then one submenu per monitor in key order, then separator, Show App and Quit |
| Tray.MenuPlacesEveryFavorite | src/main/tray.ts:239-270 | every valid favourite survives the filter into the group its submenu in `MenuOf` is built from: the global group, or the group of its monitor, whose id is listed exactly once among the submenu keys |
| Tray.TrayMirror.UpdateTrayMenu | src/main/tray.ts:201-297 | without a tray nothing changes; otherwise invalid entries leave the state, the file is rewritten when one was dropped, and the menu is built from the valid list |
| Tray.TrayMirror.PurgeInvalidFavorites | src/main/tray.ts:206-232 | the invalid entries leave the state; the file is rewritten exactly when one was dropped, otherwise state and file are kept |
| Tray.MenuTemplate | src/main/tray.ts:234-297 | the loop-built menu equals `MenuOf`, the menu built from the grouping functions |
| Tray.TrayMirror.OnFavoritesUpdated | src/main/tray.ts:133-174 | a payload that is not an array, or has no valid entry, changes nothing; otherwise the valid entries replace the state and the file, and the menu is rebuilt |
| Tray.TrayMirror.OnMonitorLabelsUpdated | src/main/tray.ts:177-197 | a non-empty array replaces the labels and their file and, with a tray, purges invalid favourites (rewriting their file when one was dropped) and rebuilds the menu from the new labels; anything else changes nothing |
| Tray.TrayMirror.Click | src/main/tray.ts:276-293 | a favourite sends its resolution and monitor while the window exists; Quit sets the force-quit flag |
| MonitorLabels.FindLabelIndex | src/renderer/src/components/pages/monitorLabels.tsx:74 | the index found is the first label for the id, or -1 when there is none |
| MonitorLabels.UpsertExisting | src/renderer/src/components/pages/monitorLabels.tsx:76-80 | an id that already has a label keeps its position and every other slot is unchanged |
| MonitorLabels.UpsertNew | src/renderer/src/components/pages/monitorLabels.tsx:81-83 | a new id is appended at the end |
| MonitorLabels.UpsertUnique | src/renderer/src/components/pages/monitorLabels.tsx:72-83 | at most one label per monitor id stays true |
| MonitorLabels.UpsertLookup | src/renderer/src/components/pages/monitorLabels.tsx:72-83 | after `Upsert` the id finds the new text and every other id finds what it found before |
| MonitorLabels.PrefillLabel | src/renderer/src/components/pages/monitorLabels.tsx:62-66 | the form starts with the stored label, or empty when there is none |
| MonitorLabels.GetDisplayName | src/renderer/src/components/pages/monitorLabels.tsx:102-108 | the non-empty label; else the known monitor's name, with " (Primary)" for the primary display; else the raw id |
| MonitorLabels.SavedLabelShown | src/renderer/src/components/pages/monitorLabels.tsx:62-108 | a saved label is what the page shows for the monitor and what the next edit starts from |
| MonitorLabels.TrayShowsSavedLabel | src/main/tray.ts:94-99 | a label saved on the page is also the tray's title for that monitor |
| MonitorLabels.MonitorLabelsPage.SaveMonitorLabels | src/renderer/src/components/pages/monitorLabels.tsx:37-59 | the list is always stored and shown; it is sent to the main process only when it is not empty and the bridge exists |
| MonitorLabels.MonitorLabelsPage.LoadMonitorLabels | src/renderer/src/components/pages/monitorLabels.tsx:21-34 | the page shows the stored list (`[]` when the item is missing) |
| MonitorLabels.MonitorLabelsPage.StartEditing | src/renderer/src/components/pages/monitorLabels.tsx:62-66 | editing starts on the id with the form prefilled |
| MonitorLabels.MonitorLabelsPage.SaveLabel | src/renderer/src/components/pages/monitorLabels.tsx:69-94 | an empty label is refused and changes nothing; otherwise the upserted list is stored, shown and sent, and editing ends |
| MonitorLabels.MonitorLabelsPage.CancelEditing | src/renderer/src/components/pages/monitorLabels.tsx:97-99 | editing ends |
| MonitorLabels.UpsertKeepsNonEmpty | src/renderer/src/components/pages/monitorLabels.tsx:160 | since the form refuses an empty label, upserting preserves "no stored label is empty" |
| CreateResolution.HandleAddResolutionCases | src/renderer/src/components/pages/createResolution.tsx:36-104 | of `HandleAddResolution`: each error is reported exactly when every earlier guard passed and its own failed; the callback runs exactly when all pass, with the strings as typed |
| CreateResolution.AddedIsNew | src/renderer/src/components/pages/createResolution.tsx:71-87 | an accepted entry has positive fields and is not already in the catalogue |
| CreateResolution.ToAdd | src/renderer/src/App.tsx:140-151 | `handleOnAddResolution`'s record, which the favourites page's edit form (favorites.tsx:299-303) builds the same way: `parseInt` of width and height, a refresh rate exactly when its field is not empty, parsed the same way; no record exactly when a field reads as NaN |
| CreateResolution.PlainSizeBlockedByAnyRate | src/renderer/src/components/pages/createResolution.tsx:71-76 | without a refresh rate, any entry of the same size blocks the add, whatever its rate |
| CreateResolution.RatedSizeNotBlockedByOtherRates | src/renderer/src/components/pages/createResolution.tsx:71-76 | with a refresh rate, entries of the same size with another or no rate do not block it |
| CreateResolution.DuplicateAsymmetry | src/renderer/src/components/pages/createResolution.tsx:71-85 | 1920x1080 is refused next to 1920x1080@60, while 1920x1080@60 is accepted next to a plain 1920x1080 |
| ChangeResolution.SelectionOfMatch | src/renderer/src/components/pages/changeResolution.tsx:98-103 | a value the regular expression accepts reads as its digit groups; a zero refresh rate is dropped |
| ChangeResolution.SelectionOfKey | src/renderer/src/components/pages/changeResolution.tsx:98-160 | every option key parses back to its resolution, without a falsy refresh rate; the split fallback also reads keys with negative fields |
| ChangeResolution.SplitFieldsOfKey | src/renderer/src/components/pages/changeResolution.tsx:107-125 | the split fallback reads a key's fields back whatever their signs |
| ChangeResolution.ParseSelection | src/renderer/src/components/pages/changeResolution.tsx:90-154 | a value the regular expression accepts always gives a resolution; a resolution never carries a falsy (zero) refresh rate |
| ChangeResolution.ChangeResolutionPage.ApplyResolution | src/renderer/src/components/pages/changeResolution.tsx:45-57 | an empty monitor id only warns; otherwise the change is pending, the store sends the request, moves the resolution to the front of the recent list and, with "use last resolution" on, records it in the last-resolution file |
| ChangeResolution.ChangeResolutionPage.PressApply | src/renderer/src/components/pages/changeResolution.tsx:226-238 | a disabled button changes nothing; an enabled one applies the selected resolution to the selected monitor (request, recent list, file) and disables itself, so no second request is sent while one is pending (line 229); an empty monitor id only warns; an unreadable selection sends nothing |
| ChangeResolution.ChangeResolutionPage.PressApplyRecent | src/renderer/src/components/pages/changeResolution.tsx:256-281 | disabled while a change is pending, when nothing changes, notices included; with a monitor whose id is not empty the entry is applied to it and moves to the front, the recent list keeping its length and entries, and the last-resolution record is written when "use last resolution" is on; otherwise the press only warns |
| ChangeResolution.ChangeResolutionPage.SelectResolution | src/renderer/src/components/pages/changeResolution.tsx:90-154 | a readable value selects its parsed resolution; an unreadable one still counts as a selection |
| ChangeResolution.ChangeResolutionPage.OnResolutionChangeResult | src/renderer/src/components/pages/changeResolution.tsx:22-37 | any result ends the pending change and is reported |
| ChangeResolution.ChangeResolutionPage.SelectMonitor | src/renderer/src/components/pages/changeResolution.tsx:180-184 | the selection is the first display with that id, if any |
| MonitorVisualization.ComputeBounds | src/renderer/src/components/pages/monitorVisualization.tsx:56-72 | the flag is set exactly when some display has settings; then the bounds cover every such display and each side is reached by one of them |
| MonitorVisualization.MonitorVisualizationPage.CalculateVisualization | src/renderer/src/components/pages/monitorVisualization.tsx:52-104 | no displays changes nothing; otherwise one record per display, and the bounds are the tight box or 0, 0, count×300, 200 |
| MonitorVisualization.MonitorDataAt | src/renderer/src/components/pages/monitorVisualization.tsx:84-96 | ids are kept, primary means primary device or id "0", and missing or zero fields take the fallbacks |
| MonitorVisualization.MonitorData | src/renderer/src/components/pages/monitorVisualization.tsx:84-96 | one record per display, in the same order |
| MonitorVisualization.OriginReplaced | src/renderer/src/components/pages/monitorVisualization.tsx:89 | an x of 0 on the second display is drawn at 250 |
| MonitorVisualization.TrailingDigits | src/renderer/src/components/pages/monitorVisualization.tsx:192 | the result is the longest run of digits that ends the id |
| MonitorVisualization.ShortNameOfDeviceName | src/renderer/src/components/pages/monitorVisualization.tsx:192-193 | `ShortName` labels a device name `\\.\DISPLAYn` as `DISPLAYn` |
| MonitorVisualization.ShortNameWithoutNumber | src/renderer/src/components/pages/monitorVisualization.tsx:192-193 | an id that does not end in a digit is labelled with the display's name |
| MonitorVisualization.ToggleSelection | src/renderer/src/components/pages/monitorVisualization.tsx:107-110 | the selection is cleared exactly when the clicked id was selected, and otherwise becomes that id |
| MonitorVisualization.MonitorVisualizationPage.HandleMonitorSelect | src/renderer/src/components/pages/monitorVisualization.tsx:107-110 | the click toggles the selection |
| MonitorVisualization.MonitorVisualizationPage.ApplyCustomResolution | src/renderer/src/components/pages/monitorVisualization.tsx:252-275 | with a monitor selected the store sends the request for it, the entry becomes the most recent, and the last-resolution record is written when "use last resolution" is on; without one nothing changes |
| Decimal.ParseInt | src/renderer/src/components/pages/createResolution.tsx:38-40 | `parseInt` reads digits as their value and a leading minus as negation; an empty string or one that does not start with a sign or digit is NaN |
| Decimal.ParseIntIgnoresTail | src/renderer/src/components/pages/createResolution.tsx:38-40 | `parseInt` stops at the first non-digit (`"60Hz"` reads as 60), where `Number` gives NaN |
| Decimal.NumberOf | src/renderer/src/components/pages/changeResolution.tsx:101-122 | `Number` reads the empty string as 0, digits as their value and a leading minus as negation; any other text is NaN |

## Left out

- Plumbing in the main process: `index.ts`, `updater.ts`, the update manager and the update-file
  script. This covers the configuration files, the native `monitorres` calls and electron-updater.
  The native call is represented only by the request that `setResolution` sends.
- `preload`, `App.tsx` navigation and retry loops, `settings.tsx`, `utils.ts` and the `App.data.ts`
  accessors. The one exception is `handleOnAddResolution` in `App.tsx`, modelled as
  `CreateResolution.ToAdd`.
- I/O and the IPC transport: JSON text, file-system errors, `try`/`catch` paths, and the
  asynchronous order of messages. Each persisted array is a sequence; each message is appended
  to a sequence.
- The `setTimeout` retry when the preload bridge is missing.
- Notifications and JSX rendering. The change-resolution page's notices are kept, because its
  state depends on them. Option labels, badges, colours and the aspect-ratio division on the
  layout page (line 189) are out; so is the flat "All favourites" tab.
- `loadFavoritesFromStorage` and `loadMonitorLabelsFromStorage` in `tray.ts`. They apply the same
  validity test as `updateTrayMenu` to the files at start-up.
- `loadData`'s loading of settings and custom resolutions from the main process, the monitor
  refresh, `applyLastResolution`, `init`, and the favourites page's own `applyResolution` paths.
- String-to-number conversion is modelled for an optional sign followed by decimal digits.
  Whitespace, hexadecimal, fractions and exponents are out. A value that would be NaN is `None`,
  and a record it would produce is not held. `LoadLastResolutions` then leaves the recent list
  as it was.
- The typeof checks on `resolution.width`/`height` in `toggleFavorite` always pass here, because
  fields are numbers.
- AppStore.Store.SetResolution: the `Number(...)` coercion of the incoming fields is the identity
  on numbers, so it is not written out.
- ChangeResolution.ChangeResolutionPage.PressApply: a selection whose fields read as NaN still
  sets the pending flag. The native request it would send cannot be expressed, so the model
  sends none.
- Favorites.FavoritesPage.DeleteResolution: the "cannot delete" warning for a default entry is
  not modelled. The stored favourites, the page's lists and the catalogue's values are unchanged.
- Favorites.FavoritesPage.EditResolution: takes the record that `CreateResolution.ToAdd` builds
  from the form. A form value that reads as NaN gives no record and is not followed further.
- Favorites.FavoritesPage.EditResolutionAsWritten: the same restriction to a parsed record.
- The favourites page's mount effect (favorites.tsx:58-88) reruns whenever the store's custom
  list is a new array. Its reload of the favourites is modelled by `ReloadTwice`. Its
  `loadMonitorLabels` call and its re-registration of the `onApplyFavorite` listener are not.
- The tray's `Show App` action (focus and show the window) is an I/O effect and is not recorded.

## Findings

| source | as written | input that shows it | evidently intended | confidence | as-written member | corrected member |
|---|---|---|---|---|---|---|
| src/renderer/src/components/pages/favorites.tsx:296, 363 | `removeResolution` drops only the argument object itself, but both calls pass a spread copy of a catalogue entry | delete or edit a custom entry 1280x720: the copy is not in `customResolutions`, so the entry stays (after an edit the old and new entries are both listed) | remove the store's own custom entry with those values | high, not executed | Favorites.FavoritesPage.DeleteResolutionAsWritten, Favorites.FavoritesPage.EditResolutionAsWritten | Favorites.FavoritesPage.DeleteResolution, Favorites.FavoritesPage.EditResolution |
| src/renderer/src/components/pages/favorites.tsx:589-591 | a monitor's tab tests only the `monitorId` of the first stored entry for the key | stored `[1920x1080 for A, 1920x1080 global]`: the global favourite is missing from monitor B's tab | list a favourite on every monitor where it has a global or own entry ("Include global favorites") | medium, not executed | Favorites.MonitorTabHidesGlobal | Favorites.MonitorTabCorrected |
