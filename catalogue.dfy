/** The resolution catalogue's ordering (src/renderer/src/stores/App.store.ts, `reSortResolutions`):
    entries are objects, compared by the comparator passed to `Array.prototype.sort`, which is
    a stable sort. */
module Catalogue {
  import opened Interfaces
  import opened Seqs

  /** A resolution record as a JavaScript object: two objects with equal fields are still
      different objects, which is what `removeResolution`'s `!==` test sees. */
  class ResolutionObject {
    const value: Resolution

    constructor (v: Resolution)
      ensures value == v
    {
      value := v;
    }
  }

  /** The field values of a sequence of objects. */
  function Values(s: seq<ResolutionObject>): (vs: seq<Resolution>)
    ensures |vs| == |s|
    ensures forall i :: 0 <= i < |s| ==> vs[i] == s[i].value
  {
    seq(|s|, i requires 0 <= i < |s| => s[i].value)
  }

  lemma {:induction false} ValuesConcat(a: seq<ResolutionObject>, b: seq<ResolutionObject>)
    ensures Values(a + b) == Values(a) + Values(b)
  {
    assert |Values(a + b)| == |Values(a) + Values(b)|;
  }

  /** `refreshRate || 0`: an absent or zero refresh rate sorts as 0. */
  function RateOrZero(r: Resolution): int {
    if r.refreshRate.Some? then r.refreshRate.value else 0
  }

  /** `a` sorts strictly before `b`: larger width, then larger height, then larger refresh rate. */
  predicate Outranks(a: Resolution, b: Resolution) {
    a.width > b.width
    || (a.width == b.width && (a.height > b.height
    || (a.height == b.height && RateOrZero(a) > RateOrZero(b))))
  }

  /** The comparator sees no difference between `a` and `b`. */
  predicate SameRank(a: Resolution, b: Resolution) {
    a.width == b.width && a.height == b.height && RateOrZero(a) == RateOrZero(b)
  }

  /** The comparator of lines 117-144: -1 puts `a` first, 1 puts `b` first, 0 keeps them. */
  function Compare(a: Resolution, b: Resolution): (c: int)
    ensures c == -1 <==> Outranks(a, b)
    ensures c == 1 <==> Outranks(b, a)
    ensures c == 0 <==> SameRank(a, b)
  {
    if a.width > b.width then -1
    else if a.width < b.width then 1
    else if a.height > b.height then -1
    else if a.height < b.height then 1
    else
      var aRefresh := RateOrZero(a);
      var bRefresh := RateOrZero(b);
      if aRefresh > bRefresh then -1
      else if aRefresh < bRefresh then 1
      else 0
  }

  /** Non-increasing in (width, height, refresh rate or 0): no entry outranks an earlier one. */
  predicate Ordered(s: seq<ResolutionObject>) {
    forall i, j :: 0 <= i < j < |s| ==> !Outranks(s[j].value, s[i].value)
  }

  /** Inserting `x` behind every entry it does not strictly outrank keeps equal entries in
      arrival order. */
  function Insert(x: ResolutionObject, t: seq<ResolutionObject>): (r: seq<ResolutionObject>)
    ensures multiset(r) == multiset(t) + multiset{x}
  {
    if t == [] then [x]
    else if Compare(x.value, t[0].value) < 0 then [x] + t
    else
      assert t == [t[0]] + t[1..];
      [t[0]] + Insert(x, t[1..])
  }

  /** No entry of `Insert(x, t)` outranks a bound that `x` and every entry of `t` do not outrank. */
  lemma {:induction false} InsertBounded(x: ResolutionObject, t: seq<ResolutionObject>, top: Resolution)
    requires !Outranks(x.value, top)
    requires forall i :: 0 <= i < |t| ==> !Outranks(t[i].value, top)
    ensures forall i :: 0 <= i < |Insert(x, t)| ==> !Outranks(Insert(x, t)[i].value, top)
  {
    if t != [] && Compare(x.value, t[0].value) >= 0 {
      InsertBounded(x, t[1..], top);
    }
  }

  lemma {:induction false} InsertOrdered(x: ResolutionObject, t: seq<ResolutionObject>)
    requires Ordered(t)
    ensures Ordered(Insert(x, t))
  {
    if t != [] && Compare(x.value, t[0].value) >= 0 {
      var rest := Insert(x, t[1..]);
      assert Ordered(t[1..]);
      InsertOrdered(x, t[1..]);
      InsertBounded(x, t[1..], t[0].value);
      var r := [t[0]] + rest;
      forall i, j | 0 <= i < j < |r|
        ensures !Outranks(r[j].value, r[i].value)
      {
        assert r[j] == rest[j - 1];
        if i > 0 {
          assert r[i] == rest[i - 1];
        }
      }
    }
  }

  /** `[...s].sort(compare)`: a stable sort, here as an insertion sort taking the entries in
      order. */
  function Sort(s: seq<ResolutionObject>): (r: seq<ResolutionObject>)
    ensures multiset(r) == multiset(s)
    ensures |r| == |s|
    ensures Ordered(r)
  {
    if s == [] then []
    else
      var init := s[..|s| - 1];
      assert s == init + [s[|s| - 1]];
      assert multiset(s) == multiset(init) + multiset{s[|s| - 1]};
      var sorted := Sort(init);
      InsertOrdered(s[|s| - 1], sorted);
      Insert(s[|s| - 1], sorted)
  }

  /** The entries of `s` that the comparator ranks equal to `k`, in their order in `s`. */
  function Band(s: seq<ResolutionObject>, k: Resolution): seq<ResolutionObject> {
    Filter(s, (o: ResolutionObject) => SameRank(o.value, k))
  }

  lemma {:induction false} BandEmpty(s: seq<ResolutionObject>, k: Resolution)
    requires forall i :: 0 <= i < |s| ==> !SameRank(s[i].value, k)
    ensures Band(s, k) == []
  {
    if s != [] {
      BandEmpty(s[1..], k);
    }
  }

  /** An inserted entry lands behind every entry of its band already there. */
  lemma {:induction false} BandInsert(x: ResolutionObject, t: seq<ResolutionObject>, k: Resolution)
    requires Ordered(t)
    ensures Band(Insert(x, t), k) == if SameRank(x.value, k) then Band(t, k) + [x] else Band(t, k)
  {
    if t == [] {
    } else if Compare(x.value, t[0].value) < 0 {
      assert Insert(x, t)[1..] == t;
      if SameRank(x.value, k) {
        forall i | 0 <= i < |t|
          ensures !SameRank(t[i].value, k)
        {
          if i > 0 {
            assert !Outranks(t[i].value, t[0].value);
          }
        }
        BandEmpty(t, k);
      }
    } else {
      assert Insert(x, t)[1..] == Insert(x, t[1..]);
      assert t[1..] == t[1..];
      BandInsert(x, t[1..], k);
    }
  }

  /** Stability: within every class of equal entries the sorted list keeps the input order. */
  lemma {:induction false} SortStable(s: seq<ResolutionObject>, k: Resolution)
    ensures Band(Sort(s), k) == Band(s, k)
  {
    if s != [] {
      var init := s[..|s| - 1];
      var x := s[|s| - 1];
      assert s == init + [x];
      SortStable(init, k);
      BandInsert(x, Sort(init), k);
      FilterConcat(init, [x], (o: ResolutionObject) => SameRank(o.value, k));
    }
  }

  /** In every class of equal entries the defaults come first, then the custom entries, each in
      their own order. */
  lemma DefaultsBeforeCustoms(defaults: seq<ResolutionObject>, customs: seq<ResolutionObject>, k: Resolution)
    ensures Band(Sort(defaults + customs), k) == Band(defaults, k) + Band(customs, k)
  {
    SortStable(defaults + customs, k);
    FilterConcat(defaults, customs, (o: ResolutionObject) => SameRank(o.value, k));
  }

  /** An entry that outranks nothing already there goes to the end. */
  lemma {:induction false} InsertLast(x: ResolutionObject, t: seq<ResolutionObject>)
    requires forall i :: 0 <= i < |t| ==> !Outranks(x.value, t[i].value)
    ensures Insert(x, t) == t + [x]
  {
    if t != [] {
      InsertLast(x, t[1..]);
      assert t == [t[0]] + t[1..];
    }
  }

  /** Sorting a list that is already in order changes nothing. */
  lemma {:induction false} SortOrdered(s: seq<ResolutionObject>)
    requires Ordered(s)
    ensures Sort(s) == s
  {
    if s != [] {
      var init := s[..|s| - 1];
      assert Ordered(init);
      SortOrdered(init);
      InsertLast(s[|s| - 1], init);
      assert s == init + [s[|s| - 1]];
    }
  }

  /** Re-sorting the sorted catalogue yields the same list. */
  lemma SortIdempotent(s: seq<ResolutionObject>)
    ensures Sort(Sort(s)) == Sort(s)
  {
    SortOrdered(Sort(s));
  }
}
