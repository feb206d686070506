/** Sequence helpers standing for Array.prototype.filter and for "no element twice". */
module Seqs {

  /** `s.filter(p)`: the elements of `s` that satisfy `p`, in their original order. */
  function Filter<T>(s: seq<T>, p: T -> bool): (r: seq<T>)
    ensures |r| <= |s|
  {
    if s == [] then []
    else if p(s[0]) then [s[0]] + Filter(s[1..], p)
    else Filter(s[1..], p)
  }

  /** What the filter keeps: only elements of `s` that pass, and every element of `s` that
      passes. */
  lemma {:induction false} FilterMembers<T>(s: seq<T>, p: T -> bool)
    ensures forall i :: 0 <= i < |Filter(s, p)| ==> p(Filter(s, p)[i]) && Filter(s, p)[i] in s
    ensures forall i :: 0 <= i < |s| ==> (s[i] in Filter(s, p) <==> p(s[i]))
  {
    if s != [] {
      FilterMembers(s[1..], p);
      var r := Filter(s, p);
      var t := Filter(s[1..], p);
      assert r == if p(s[0]) then [s[0]] + t else t;
      forall i | 0 <= i < |r|
        ensures p(r[i]) && r[i] in s
      {
        if p(s[0]) && i == 0 {
        } else {
          var j := if p(s[0]) then i - 1 else i;
          assert r[i] == t[j];
          assert t[j] in s[1..];
        }
      }
      forall i | 0 <= i < |s|
        ensures s[i] in r <==> p(s[i])
      {
        if i > 0 {
          assert s[i] == s[1..][i - 1];
          if p(s[i]) {
            assert s[i] in t;
          } else {
            assert forall j :: 0 <= j < |r| ==> p(r[j]);
          }
        } else if !p(s[0]) {
          assert forall j :: 0 <= j < |t| ==> p(t[j]);
        }
      }
    }
  }

  lemma {:induction false} FilterConcat<T>(a: seq<T>, b: seq<T>, p: T -> bool)
    ensures Filter(a + b, p) == Filter(a, p) + Filter(b, p)
  {
    if a == [] {
      assert a + b == b;
    } else {
      assert (a + b)[1..] == a[1..] + b;
      FilterConcat(a[1..], b, p);
    }
  }

  /** Filtering keeps everything exactly when every element passes. */
  lemma {:induction false} FilterKeepsAll<T>(s: seq<T>, p: T -> bool)
    ensures Filter(s, p) == s <==> forall i :: 0 <= i < |s| ==> p(s[i])
  {
    if s != [] {
      FilterKeepsAll(s[1..], p);
      if !p(s[0]) {
        assert |Filter(s, p)| < |s|;
      }
    }
  }

  /** Filtering preserves multiplicities of the elements that pass and drops the others. */
  lemma {:induction false} FilterMultiset<T>(s: seq<T>, p: T -> bool, x: T)
    ensures multiset(Filter(s, p))[x] == if p(x) then multiset(s)[x] else 0
  {
    if s != [] {
      assert s == [s[0]] + s[1..];
      FilterMultiset(s[1..], p, x);
    }
  }

  /** The first element kept by a filter is the first element of `s` that passes. */
  lemma {:induction false} FilterHead<T>(s: seq<T>, p: T -> bool) returns (j: nat)
    requires |Filter(s, p)| > 0
    ensures j < |s| && Filter(s, p)[0] == s[j] && p(s[j])
    ensures forall i :: 0 <= i < j ==> !p(s[i])
  {
    if p(s[0]) {
      j := 0;
    } else {
      var j' := FilterHead(s[1..], p);
      j := j' + 1;
    }
  }

  /** A filter that nothing passes is empty. */
  lemma {:induction false} FilterNone<T>(s: seq<T>, p: T -> bool)
    requires forall i :: 0 <= i < |s| ==> !p(s[i])
    ensures Filter(s, p) == []
  {
    if s != [] {
      FilterNone(s[1..], p);
    }
  }

  /** A single element that fails the test is dropped. */
  lemma FilterDropsOne<T>(x: T, p: T -> bool)
    requires !p(x)
    ensures Filter([x], p) == []
  {
    assert [x][1..] == [];
  }

  /** Removing an element that fails the test does not change the filter. */
  lemma {:induction false} FilterRemoveFailing<T>(s: seq<T>, k: nat, p: T -> bool)
    requires k < |s| && !p(s[k])
    ensures Filter(s[..k] + s[k + 1..], p) == Filter(s, p)
  {
    if k == 0 {
      assert s[..k] + s[k + 1..] == s[1..];
    } else {
      var t := s[1..];
      assert s[..k] + s[k + 1..] == [s[0]] + (t[..k - 1] + t[k..]);
      FilterRemoveFailing(t, k - 1, p);
    }
  }

  /** Appending an element that fails the test does not change the filter. */
  lemma FilterAppendFailing<T>(s: seq<T>, x: T, p: T -> bool)
    requires !p(x)
    ensures Filter(s + [x], p) == Filter(s, p)
  {
    FilterConcat(s, [x], p);
    FilterDropsOne(x, p);
  }

  /** Filtering with the element at `k` spliced out. */
  lemma SpliceFilter<T>(s: seq<T>, k: nat, p: T -> bool)
    requires k < |s|
    ensures Filter(s, p) == Filter(s[..k], p) + Filter([s[k]], p) + Filter(s[k + 1..], p)
    ensures Filter(s[..k] + s[k + 1..], p) == Filter(s[..k], p) + Filter(s[k + 1..], p)
  {
    SpliceParts(s, k);
    FilterConcat3(s[..k], [s[k]], s[k + 1..], s, p);
    FilterConcat(s[..k], s[k + 1..], p);
  }

  lemma SpliceParts<T>(s: seq<T>, k: nat)
    requires k < |s|
    ensures s == s[..k] + [s[k]] + s[k + 1..]
  {
  }

  lemma FilterConcat3<T>(a: seq<T>, x: seq<T>, b: seq<T>, s: seq<T>, p: T -> bool)
    requires s == a + x + b
    ensures Filter(s, p) == Filter(a, p) + Filter(x, p) + Filter(b, p)
  {
    FilterConcat(a + x, b, p);
    FilterConcat(a, x, p);
  }

  /** No element occurs twice. */
  predicate Distinct<T(==)>(s: seq<T>) {
    forall i, j :: 0 <= i < j < |s| ==> s[i] != s[j]
  }
}
