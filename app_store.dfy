/** The renderer store (src/renderer/src/stores/App.store.ts) restricted to the resolution
    catalogue, the list of recently applied resolutions and the last-resolution file. The files
    it writes are fields holding what was last written; the native resolution calls it makes
    are appended to `setRequests`. */
module AppStore {
  import opened Interfaces
  import opened Seqs
  import opened Decimal
  import opened Catalogue

  /** The `lastResolution.json` record written when "use last resolution" is on. */
  datatype LastResolutionRecord = LastResolutionRecord(resolution: string, monitor: string, refreshRate: Option<int>)

  /** What `JSON.parse` gives for `lastResolution.json`: a record with a `resolution` string, an
      array of resolution records, or anything else. */
  datatype LastResolutionJson =
    | Record(rec: LastResolutionRecord)
    | RecordArray(entries: seq<Resolution>)
    | OtherJson

  /** A call to `window.api.setResolution`; `refreshRate` is `None` when no rate is passed. */
  datatype SetRequest = SetRequest(id: string, width: int, height: int, refreshRate: Option<int>)

  /** The settings saved beside the custom resolutions. */
  datatype SavedSettings = SavedSettings(startOnStartup: bool, useLastResolution: bool)

  /** The most recently applied resolutions keep at most this many entries after an insert. */
  const RecentLimit := 5

  /** `s` without its first occurrence of `x`. */
  function RemoveFirst(s: seq<Resolution>, x: Resolution): (r: seq<Resolution>)
    ensures x in s ==> |r| == |s| - 1 && multiset(r) == multiset(s) - multiset{x}
    ensures x !in s ==> r == s
  {
    if s == [] then []
    else if s[0] == x then
      assert s == [s[0]] + s[1..];
      s[1..]
    else
      assert s == [s[0]] + s[1..];
      [s[0]] + RemoveFirst(s[1..], x)
  }

  lemma {:induction false} RemoveFirstAt(s: seq<Resolution>, x: Resolution, k: nat)
    requires k < |s| && s[k] == x && x !in s[..k]
    ensures RemoveFirst(s, x) == s[..k] + s[k + 1..]
  {
    if k > 0 {
      ShiftSlices(s, k);
      RemoveFirstAt(s[1..], x, k - 1);
    }
  }

  lemma ShiftSlices<T>(s: seq<T>, k: nat)
    requires 0 < k < |s|
    ensures s[1..][..k - 1] == s[..k][1..]
    ensures [s[0]] + (s[1..][..k - 1] + s[1..][k..]) == s[..k] + s[k + 1..]
  {
  }

  /** The recent list after applying `r`: an entry already there moves to the front, otherwise
      `r` is put in front and the list is cut to its first five entries. */
  function Recent(l: seq<Resolution>, r: Resolution): seq<Resolution> {
    if r in l then [r] + RemoveFirst(l, r)
    else if |l| + 1 > RecentLimit then ([r] + l)[..RecentLimit]
    else [r] + l
  }

  /** The applied resolution is always first. */
  lemma RecentHead(l: seq<Resolution>, r: Resolution)
    ensures |Recent(l, r)| > 0 && Recent(l, r)[0] == r
  {
  }

  /** A new entry is pushed in front of the old list, which loses entries only past the fifth. */
  lemma RecentAbsent(l: seq<Resolution>, r: Resolution)
    requires r !in l
    ensures |Recent(l, r)| == if |l| + 1 > RecentLimit then RecentLimit else |l| + 1
    ensures Recent(l, r)[1..] == l[..|Recent(l, r)| - 1]
  {
  }

  /** An entry already present moves: the list keeps its length and its elements. */
  lemma RecentPresent(l: seq<Resolution>, r: Resolution)
    requires r in l
    ensures |Recent(l, r)| == |l|
    ensures multiset(Recent(l, r)) == multiset(l)
  {
    assert multiset(Recent(l, r)) == multiset{r} + multiset(RemoveFirst(l, r));
  }

  /** An entry found at index 0 leaves the list as it is. */
  lemma RecentAtFront(l: seq<Resolution>, r: Resolution)
    requires |l| > 0 && l[0] == r
    ensures Recent(l, r) == l
  {
    assert l == [l[0]] + l[1..];
  }

  /** The list never grows past five entries once it is within the limit. */
  lemma RecentBounded(l: seq<Resolution>, r: Resolution)
    requires |l| <= RecentLimit
    ensures |Recent(l, r)| <= RecentLimit
  {
  }

  /** Applying the same resolution twice in a row is the same as applying it once. */
  lemma RecentIdempotent(l: seq<Resolution>, r: Resolution)
    ensures Recent(Recent(l, r), r) == Recent(l, r)
  {
    RecentHead(l, r);
    RecentAtFront(Recent(l, r), r);
  }

  /** A list without repeated entries keeps that property. */
  lemma RecentDistinct(l: seq<Resolution>, r: Resolution)
    requires Distinct(l)
    ensures Distinct(Recent(l, r))
  {
    if r in l {
      var k :| 0 <= k < |l| && l[k] == r;
      DistinctPrefix(l, k);
      RemoveFirstAt(l, r, k);
      DistinctMoveToFront(l, k);
    } else {
      DistinctCons(l, r);
    }
  }

  lemma DistinctPrefix<T>(l: seq<T>, k: nat)
    requires Distinct(l) && k < |l|
    ensures l[k] !in l[..k]
  {
  }

  lemma DistinctMoveToFront<T>(l: seq<T>, k: nat)
    requires Distinct(l) && k < |l|
    ensures Distinct([l[k]] + (l[..k] + l[k + 1..]))
  {
    var n := [l[k]] + (l[..k] + l[k + 1..]);
    forall i, j | 0 <= i < j < |n|
      ensures n[i] != n[j]
    {
      var j' := if j - 1 < k then j - 1 else j;
      assert n[j] == l[j'];
      if i > 0 {
        var i' := if i - 1 < k then i - 1 else i;
        assert n[i] == l[i'];
      }
    }
  }

  lemma DistinctCons<T>(l: seq<T>, r: T)
    requires Distinct(l) && r !in l
    ensures Distinct([r] + l)
    ensures |l| + 1 > RecentLimit ==> Distinct(([r] + l)[..RecentLimit])
  {
    var n := [r] + l;
    forall i, j | 0 <= i < j < |n|
      ensures n[i] != n[j]
    {
      assert n[j] == l[j - 1];
      if i > 0 {
        assert n[i] == l[i - 1];
      }
    }
  }

  /** `${width}x${height}`: the dimensions part of the last-resolution record. */
  function Dimensions(r: Resolution): (s: string)
    ensures Split(s, 'x') == [IntToString(r.width), IntToString(r.height)]
  {
    IntToStringHasNoSeparator(r.width);
    IntToStringHasNoSeparator(r.height);
    SplitAfterPrefix(IntToString(r.width), 'x', IntToString(r.height));
    IntToString(r.width) + "x" + IntToString(r.height)
  }

  /** `Number(parts[i])` where `parts[i]` may be past the end (`undefined`, hence NaN). */
  function NumberAt(parts: seq<string>, i: nat): Option<int> {
    if i < |parts| then NumberOf(parts[i]) else None
  }

  /** The `lastResolutions` that `loadData` builds from the file's contents (lines 287-313).
      `None` stands for a record whose width or height is NaN. */
  function LastResolutionsOf(json: LastResolutionJson): Option<seq<Resolution>> {
    match json
    case Record(rec) =>
      if rec.resolution != "" then
        var parts := Split(rec.resolution, 'x');
        var w := NumberAt(parts, 0);
        var h := NumberAt(parts, 1);
        if w.Some? && h.Some? then Some([Resolution(w.value, h.value, rec.refreshRate)]) else None
      else Some([])
    case RecordArray(entries) => Some(entries)
    case OtherJson => Some([])
  }

  /** Reading back the record `setResolution` writes gives the one applied resolution, whose
      refresh rate travels in its own field. */
  lemma LastResolutionRoundTrip(r: Resolution, monitor: string)
    ensures LastResolutionsOf(Record(LastResolutionRecord(Dimensions(r), monitor, r.refreshRate))) == Some([r])
  {
    NumberOfIntToString(r.width);
    NumberOfIntToString(r.height);
  }

  /** Fresh objects with the same field values: the `.map` that coerces every field with
      `Number(...)`, which is the identity on numbers. */
  method Coerce(s: seq<ResolutionObject>) returns (t: seq<ResolutionObject>)
    ensures Values(t) == Values(s)
    ensures forall o :: o in t ==> fresh(o)
    ensures Distinct(t)
  {
    t := [];
    var i := 0;
    while i < |s|
      invariant 0 <= i <= |s|
      invariant |t| == i
      invariant forall j :: 0 <= j < i ==> t[j].value == s[j].value
      invariant forall o :: o in t ==> fresh(o)
      invariant Distinct(t)
    {
      var o := new ResolutionObject(s[i].value);
      t := t + [o];
      i := i + 1;
    }
  }

  class Store {
    var defaultResolutions: seq<ResolutionObject>
    var customResolutions: seq<ResolutionObject>
    var resolutions: seq<ResolutionObject>
    var lastResolutions: seq<Resolution>
    var startOnStartup: bool
    var useLastResolution: bool
    /** Whether `settings.json` exists; `saveData` writes nothing without it. */
    var settingsFileExists: bool
    var savedSettings: Option<SavedSettings>
    var savedCustomResolutions: Option<seq<Resolution>>
    var lastResolutionFile: Option<LastResolutionRecord>
    var setRequests: seq<SetRequest>

    /** The catalogue is the sorted concatenation of defaults and custom entries, and no custom
        object is listed twice. */
    ghost predicate Valid()
      reads this`defaultResolutions, this`customResolutions, this`resolutions
    {
      resolutions == Sort(defaultResolutions + customResolutions) && Distinct(customResolutions)
    }

    constructor ()
      ensures Valid()
      ensures defaultResolutions == [] && customResolutions == [] && lastResolutions == []
      ensures !useLastResolution && !startOnStartup && !settingsFileExists
      ensures savedSettings == None && savedCustomResolutions == None && lastResolutionFile == None
      ensures setRequests == []
    {
      defaultResolutions := [];
      customResolutions := [];
      resolutions := [];
      lastResolutions := [];
      startOnStartup := false;
      useLastResolution := false;
      settingsFileExists := false;
      savedSettings := None;
      savedCustomResolutions := None;
      lastResolutionFile := None;
      setRequests := [];
    }

    /** `reSortResolutions` (lines 97-148): both lists are rebuilt as new objects with the same
        values, and the catalogue becomes their sorted concatenation. */
    method ReSortResolutions()
      modifies this`defaultResolutions, this`customResolutions, this`resolutions
      ensures Valid()
      ensures Values(defaultResolutions) == Values(old(defaultResolutions))
      ensures Values(customResolutions) == Values(old(customResolutions))
      ensures forall o :: o in defaultResolutions ==> fresh(o)
      ensures forall o :: o in customResolutions ==> fresh(o)
    {
      defaultResolutions := Coerce(defaultResolutions);
      customResolutions := Coerce(customResolutions);
      resolutions := Sort(defaultResolutions + customResolutions);
    }

    /** `saveData` (lines 177-210): the settings and then the custom resolutions are written,
        but only when `settings.json` exists; otherwise the error stops both writes. */
    method SaveData()
      modifies this`savedSettings, this`savedCustomResolutions
      ensures settingsFileExists ==> savedSettings == Some(SavedSettings(startOnStartup, useLastResolution))
      ensures settingsFileExists ==> savedCustomResolutions == Some(Values(customResolutions))
      ensures !settingsFileExists ==> savedSettings == old(savedSettings)
      ensures !settingsFileExists ==> savedCustomResolutions == old(savedCustomResolutions)
    {
      if settingsFileExists {
        savedSettings := Some(SavedSettings(startOnStartup, useLastResolution));
        savedCustomResolutions := Some(Values(customResolutions));
      }
    }

    /** `addResolution` (lines 150-163): exactly one entry is appended to the custom list, the
        defaults keep their values, and the catalogue is re-sorted and saved. */
    method AddResolution(r: Resolution)
      modifies this`defaultResolutions, this`customResolutions, this`resolutions
      modifies this`savedSettings, this`savedCustomResolutions
      ensures Valid()
      ensures Values(customResolutions) == Values(old(customResolutions)) + [r]
      ensures Values(defaultResolutions) == Values(old(defaultResolutions))
      ensures settingsFileExists ==> savedSettings == Some(SavedSettings(startOnStartup, useLastResolution))
      ensures settingsFileExists ==> savedCustomResolutions == Some(Values(old(customResolutions)) + [r])
      ensures !settingsFileExists ==> savedSettings == old(savedSettings)
      ensures !settingsFileExists ==> savedCustomResolutions == old(savedCustomResolutions)
    {
      var o := new ResolutionObject(r);
      ghost var expected := Values(customResolutions) + [r];
      ghost var defaults := Values(defaultResolutions);
      ValuesConcat(customResolutions, [o]);
      customResolutions := customResolutions + [o];
      assert Values(customResolutions) == expected;
      ReSortResolutions();
      assert Valid() && Values(customResolutions) == expected && Values(defaultResolutions) == defaults;
      SaveData();
      assert Values(customResolutions) == expected && Values(defaultResolutions) == defaults;
    }

    /** `removeResolution` (lines 165-169): the custom entries that are this very object go,
        every other entry stays; the defaults are never touched. */
    method RemoveResolution(o: ResolutionObject)
      modifies this`defaultResolutions, this`customResolutions, this`resolutions
      modifies this`savedSettings, this`savedCustomResolutions
      ensures Valid()
      ensures Values(customResolutions) == Values(RemoveIdentical(old(customResolutions), o))
      ensures Values(defaultResolutions) == Values(old(defaultResolutions))
      ensures settingsFileExists ==> savedSettings == Some(SavedSettings(startOnStartup, useLastResolution))
      ensures settingsFileExists ==> savedCustomResolutions == Some(Values(customResolutions))
      ensures !settingsFileExists ==> savedSettings == old(savedSettings)
      ensures !settingsFileExists ==> savedCustomResolutions == old(savedCustomResolutions)
    {
      ghost var kept := Values(RemoveIdentical(customResolutions, o));
      ghost var defaults := Values(defaultResolutions);
      customResolutions := RemoveIdentical(customResolutions, o);
      assert Values(customResolutions) == kept;
      ReSortResolutions();
      assert Valid() && Values(customResolutions) == kept && Values(defaultResolutions) == defaults;
      SaveData();
      assert Values(customResolutions) == kept && Values(defaultResolutions) == defaults;
    }

    /** `setResolution` (lines 323-424) on numeric input: the native call, then the recent list
        update by `findIndex`, `unshift`, `slice` and `splice`, then the last-resolution file. */
    method SetResolution(monitor: string, r: Resolution)
      modifies this`lastResolutions, this`lastResolutionFile, this`setRequests
      ensures setRequests == old(setRequests) + [SetRequest(monitor, r.width, r.height, r.refreshRate)]
      ensures lastResolutions == Recent(old(lastResolutions), r)
      ensures useLastResolution ==> lastResolutionFile == Some(LastResolutionRecord(Dimensions(r), monitor, r.refreshRate))
      ensures !useLastResolution ==> lastResolutionFile == old(lastResolutionFile)
    {
      setRequests := setRequests + [SetRequest(monitor, r.width, r.height, r.refreshRate)];
      var existingIndex := FindIndex(lastResolutions, r);
      if existingIndex == -1 {
        lastResolutions := [r] + lastResolutions;
        if |lastResolutions| > RecentLimit {
          lastResolutions := lastResolutions[..RecentLimit];
        }
      } else if existingIndex > 0 {
        var item := lastResolutions[existingIndex];
        RemoveFirstAt(lastResolutions, r, existingIndex);
        lastResolutions := lastResolutions[..existingIndex] + lastResolutions[existingIndex + 1..];
        lastResolutions := [item] + lastResolutions;
      } else {
        RecentAtFront(lastResolutions, r);
      }
      if useLastResolution {
        lastResolutionFile := Some(LastResolutionRecord(Dimensions(r), monitor, r.refreshRate));
      }
    }

    /** The `lastResolution` part of `loadData` (lines 279-321). A record whose width or height
        reads as NaN cannot be held by the model and leaves the list as it was. */
    method LoadLastResolutions(fileExists: bool, json: LastResolutionJson)
      modifies this`lastResolutions
      ensures fileExists && LastResolutionsOf(json).Some? ==> lastResolutions == LastResolutionsOf(json).value
      ensures !fileExists || LastResolutionsOf(json).None? ==> lastResolutions == old(lastResolutions)
    {
      if fileExists {
        var parsed := LastResolutionsOf(json);
        if parsed.Some? {
          lastResolutions := parsed.value;
        }
      }
    }
  }

  /** The test `res !== o` of `removeResolution`. */
  function NotIdentical(o: ResolutionObject): ResolutionObject -> bool {
    (c: ResolutionObject) => c != o
  }

  /** `arr.filter((res) => res !== o)`: reference comparison. */
  function RemoveIdentical(s: seq<ResolutionObject>, o: ResolutionObject): (r: seq<ResolutionObject>) {
    Filter(s, NotIdentical(o))
  }

  /** Exactly the occurrences of the object itself are dropped. */
  lemma RemoveIdenticalMultiset(s: seq<ResolutionObject>, o: ResolutionObject)
    ensures multiset(RemoveIdentical(s, o)) == multiset(s)[o := 0]
  {
    FilterMembers(s, NotIdentical(o));
    forall x: ResolutionObject
      ensures multiset(RemoveIdentical(s, o))[x] == multiset(s)[o := 0][x]
    {
      FilterMultiset(s, NotIdentical(o), x);
    }
  }

  /** An object that is not in the list, such as a fresh copy with equal fields, removes
      nothing. */
  lemma RemoveAbsentIdentity(s: seq<ResolutionObject>, o: ResolutionObject)
    requires o !in s
    ensures RemoveIdentical(s, o) == s
  {
    FilterKeepsAll(s, NotIdentical(o));
  }

  /** Passing the store's own object removes exactly that entry when no object is listed twice. */
  lemma RemoveIdenticalAt(s: seq<ResolutionObject>, k: nat)
    requires Distinct(s) && k < |s|
    ensures RemoveIdentical(s, s[k]) == s[..k] + s[k + 1..]
  {
    var o := s[k];
    assert s == s[..k] + [o] + s[k + 1..];
    FilterConcat(s[..k] + [o], s[k + 1..], NotIdentical(o));
    FilterConcat(s[..k], [o], NotIdentical(o));
    FilterKeepsAll(s[..k], NotIdentical(o));
    FilterKeepsAll(s[k + 1..], NotIdentical(o));
  }

  /** Removing the object found at the first index of a value drops the first entry with that
      value. */
  lemma RemoveFirstValue(s: seq<ResolutionObject>, r: Resolution)
    requires Distinct(s) && FindIndex(Values(s), r) >= 0
    ensures Values(RemoveIdentical(s, s[FindIndex(Values(s), r)])) == RemoveFirst(Values(s), r)
  {
    var k := FindIndex(Values(s), r);
    RemoveIdenticalAt(s, k);
    RemoveFirstAt(Values(s), r, k);
    ValuesDropAt(s, k);
  }

  /** The values of a list with its `k`-th object left out. */
  lemma ValuesDropAt(s: seq<ResolutionObject>, k: nat)
    requires k < |s|
    ensures Values(s[..k] + s[k + 1..]) == Values(s)[..k] + Values(s)[k + 1..]
    ensures Values(s) == Values(s)[..k] + [s[k].value] + Values(s)[k + 1..]
  {
    var vs := Values(s);
    var t := s[..k] + s[k + 1..];
    var u := vs[..k] + vs[k + 1..];
    assert |Values(t)| == |u|;
    forall i | 0 <= i < |t|
      ensures Values(t)[i] == u[i]
    {
      if i >= k {
        assert t[i] == s[i + 1] && u[i] == vs[i + 1];
      }
    }
    assert vs == vs[..k] + [vs[k]] + vs[k + 1..];
  }

  /** The catalogue is a permutation of the defaults followed by the custom entries: nothing is
      added and duplicates are kept. */
  lemma CataloguePermutation(defaults: seq<ResolutionObject>, customs: seq<ResolutionObject>)
    ensures multiset(Sort(defaults + customs)) == multiset(defaults) + multiset(customs)
    ensures multiset(Values(Sort(defaults + customs))) == multiset(Values(defaults)) + multiset(Values(customs))
  {
    ValuesMultiset(Sort(defaults + customs), defaults + customs);
    ValuesConcat(defaults, customs);
  }

  lemma {:induction false} ValuesMultiset(a: seq<ResolutionObject>, b: seq<ResolutionObject>)
    requires multiset(a) == multiset(b)
    ensures multiset(Values(a)) == multiset(Values(b))
    decreases |a|
  {
    if a != [] {
      var x := a[0];
      assert x in multiset(b);
      var k :| 0 <= k < |b| && b[k] == x;
      var b' := b[..k] + b[k + 1..];
      DropBoth(a, b, k);
      ValuesMultiset(a[1..], b');
      ValuesDropAtMultiset(b, k);
      ValuesConsMultiset(a);
    } else {
      assert |b| == |multiset(b)| == 0;
    }
  }

  lemma DropBoth(a: seq<ResolutionObject>, b: seq<ResolutionObject>, k: nat)
    requires multiset(a) == multiset(b) && |a| > 0 && k < |b| && b[k] == a[0]
    ensures multiset(a[1..]) == multiset(b[..k] + b[k + 1..])
  {
    MultisetDropAt(b, k);
    MultisetDropAt(a, 0);
    assert a[..0] + a[1..] == a[1..];
    MultisetCancel(a[0], multiset(a[1..]), multiset(b[..k] + b[k + 1..]));
  }

  lemma ValuesConsMultiset(s: seq<ResolutionObject>)
    requires |s| > 0
    ensures multiset(Values(s)) == multiset{s[0].value} + multiset(Values(s[1..]))
  {
    assert Values(s) == [s[0].value] + Values(s[1..]);
  }

  lemma ValuesDropAtMultiset(s: seq<ResolutionObject>, k: nat)
    requires k < |s|
    ensures multiset(Values(s)) == multiset{s[k].value} + multiset(Values(s[..k] + s[k + 1..]))
  {
    ValuesDropAt(s, k);
    MultisetDropAt(Values(s), k);
  }

  /** A list holds its `k`-th entry once more than the list without it. */
  lemma MultisetDropAt<T>(s: seq<T>, k: nat)
    requires k < |s|
    ensures multiset(s) == multiset{s[k]} + multiset(s[..k] + s[k + 1..])
  {
    assert s == s[..k] + [s[k]] + s[k + 1..];
  }

  lemma MultisetCancel<T>(x: T, m: multiset<T>, n: multiset<T>)
    requires multiset{x} + m == multiset{x} + n
    ensures m == n
  {
    assert m == multiset{x} + m - multiset{x};
  }

  /** `findIndex` on value equality of width, height and refresh rate. */
  function FindIndex(l: seq<Resolution>, r: Resolution): (k: int)
    ensures -1 <= k < |l|
    ensures k >= 0 ==> l[k] == r && r !in l[..k]
    ensures k == -1 <==> r !in l
  {
    if l == [] then -1
    else if l[0] == r then 0
    else
      var k := FindIndex(l[1..], r);
      assert l == [l[0]] + l[1..];
      if k < 0 then -1
      else
        assert l[..k + 1] == [l[0]] + l[1..][..k];
        k + 1
  }
}
