/** The resolution key `"{w}x{h}"` or `"{w}x{h}@{r}"` shared by the favourites page, the
    change-resolution page and the tray, and the regular expressions that recognise it:
    `^(\d+)x(\d+)(@\d+)?$`, `^(\d+)x(\d+)(?:@(\d+))?$`, `^(\d+)x(\d+)@(\d+)$` and `^(\d+)x(\d+)$`. */
module Keys {
  import opened Interfaces
  import opened Decimal

  /** `${w}x${h}${r ? '@' + r : ''}`: the refresh rate is written only when it is truthy. */
  function Key(r: Resolution): (k: string)
    ensures '@' in k <==> IsTruthyRate(r.refreshRate)
    ensures 'x' in k
  {
    IntToStringHasNoSeparator(r.width);
    IntToStringHasNoSeparator(r.height);
    var dims := IntToString(r.width) + "x" + IntToString(r.height);
    assert dims[|IntToString(r.width)|] == 'x';
    if IsTruthyRate(r.refreshRate) then
      IntToStringHasNoSeparator(r.refreshRate.value);
      var k := dims + "@" + IntToString(r.refreshRate.value);
      assert k[|dims|] == '@';
      assert k[..|dims|] == dims;
      k
    else dims
  }

  /** The resolution a key stands for: a falsy refresh rate (absent or 0) is not part of it. */
  function Normalize(r: Resolution): (n: Resolution)
    ensures n.width == r.width && n.height == r.height
    ensures n.refreshRate.Some? <==> IsTruthyRate(r.refreshRate)
    ensures n.refreshRate.Some? ==> n.refreshRate == r.refreshRate
  {
    if IsTruthyRate(r.refreshRate) then r else Resolution(r.width, r.height, None)
  }

  /** The capture groups of a successful match: width, height and the optional refresh rate. */
  datatype KeyMatch = KeyMatch(width: string, height: string, rate: Option<string>)

  /** Every group is a `\d+`. */
  predicate WellFormed(m: KeyMatch) {
    IsDigits(m.width) && IsDigits(m.height) && (m.rate.Some? ==> IsDigits(m.rate.value))
  }

  /** The string a match was taken from: the regular expression's language is the set of these. */
  function Spelled(m: KeyMatch): string {
    m.width + "x" + m.height + (if m.rate.Some? then "@" + m.rate.value else "")
  }

  lemma DigitsHaveNoSeparator(s: string)
    requires AllDigits(s)
    ensures 'x' !in s && '@' !in s
  {
  }

  /** Matching `^(\d+)x(\d+)(@(\d+))?$`: the width runs to the first `x`, the height to the
      first `@` after it, and every group must be a non-empty run of digits. */
  function MatchKey(s: string): (m: Option<KeyMatch>)
  {
    var xi := IndexOf(s, 'x');
    if xi < 0 then None
    else
      var w := s[..xi];
      var rest := s[xi + 1..];
      var ai := IndexOf(rest, '@');
      if ai < 0 then
        if IsDigits(w) && IsDigits(rest) then Some(KeyMatch(w, rest, None)) else None
      else
        var h := rest[..ai];
        var r := rest[ai + 1..];
        if IsDigits(w) && IsDigits(h) && IsDigits(r) then Some(KeyMatch(w, h, Some(r))) else None
  }

  /** A match only reports well-formed groups that spell the input back. */
  lemma MatchKeySound(s: string)
    ensures MatchKey(s).Some? ==> WellFormed(MatchKey(s).value) && Spelled(MatchKey(s).value) == s
  {
    if MatchKey(s).Some? {
      if MatchKey(s).value.rate.None? {
        PlainMatchSpells(s);
      } else {
        RateMatchSpells(s);
      }
    }
  }

  lemma PlainMatchSpells(s: string)
    requires MatchKey(s).Some? && MatchKey(s).value.rate.None?
    ensures Spelled(MatchKey(s).value) == s
  {
    CutAt(s, IndexOf(s, 'x'));
  }

  lemma RateMatchSpells(s: string)
    requires MatchKey(s).Some? && MatchKey(s).value.rate.Some?
    ensures Spelled(MatchKey(s).value) == s
  {
    var xi := IndexOf(s, 'x');
    CutAt(s, xi);
    var rest := s[xi + 1..];
    CutAt(rest, IndexOf(rest, '@'));
  }

  lemma CutAt(s: string, k: int)
    requires 0 <= k < |s|
    ensures s == s[..k] + [s[k]] + s[k + 1..]
  {
  }

  /** The groups contain no separator that would end them early. */
  predicate Unseparated(g: KeyMatch) {
    'x' !in g.width && '@' !in g.height
  }

  /** Matching a spelled-out string finds exactly its groups, and succeeds iff they are digits. */
  lemma MatchKeyOfSpelled(g: KeyMatch)
    requires Unseparated(g)
    ensures MatchKey(Spelled(g)) == if WellFormed(g) then Some(g) else None
  {
    var tail := g.height + (if g.rate.Some? then "@" + g.rate.value else "");
    var s := Spelled(g);
    assert s == g.width + "x" + tail;
    IndexOfAfterPrefix(g.width, 'x', tail);
    assert s[..|g.width|] == g.width;
    assert s[|g.width| + 1..] == tail;
    if g.rate.Some? {
      assert tail == g.height + "@" + g.rate.value;
      IndexOfAfterPrefix(g.height, '@', g.rate.value);
      assert tail[..|g.height|] == g.height;
      assert tail[|g.height| + 1..] == g.rate.value;
    } else {
      assert tail == g.height;
    }
  }

  /** Every string of the language is matched, with exactly the groups that spell it. */
  lemma MatchKeyComplete(m: KeyMatch)
    requires WellFormed(m)
    ensures MatchKey(Spelled(m)) == Some(m)
  {
    DigitsHaveNoSeparator(m.width);
    DigitsHaveNoSeparator(m.height);
    MatchKeyOfSpelled(m);
  }

  /** The key test used before a favourite is stored and by the tray: the key regex matches. */
  predicate IsValidKey(s: string) {
    MatchKey(s).Some?
  }

  /** A string is a valid key exactly when it spells some well-formed match. */
  lemma IsValidKeyIff(s: string, m: KeyMatch)
    ensures WellFormed(m) && Spelled(m) == s ==> IsValidKey(s)
    ensures IsValidKey(s) ==> WellFormed(MatchKey(s).value) && Spelled(MatchKey(s).value) == s
  {
    MatchKeySound(s);
    if WellFormed(m) && Spelled(m) == s {
      MatchKeyComplete(m);
    }
  }

  /** The groups `Key` writes for a resolution. */
  function KeyGroups(r: Resolution): KeyMatch {
    KeyMatch(IntToString(r.width), IntToString(r.height),
      if IsTruthyRate(r.refreshRate) then Some(IntToString(r.refreshRate.value)) else None)
  }

  lemma KeyIsSpelledGroups(r: Resolution)
    ensures Key(r) == Spelled(KeyGroups(r))
  {
  }

  /** The key regex accepts `Key(r)` exactly when width and height are not negative and a
      written refresh rate is positive; a `-` is never a digit. */
  lemma KeyValidIff(r: Resolution)
    ensures IsValidKey(Key(r)) <==>
      r.width >= 0 && r.height >= 0 && (IsTruthyRate(r.refreshRate) ==> r.refreshRate.value > 0)
  {
    IntToStringHasNoSeparator(r.width);
    IntToStringHasNoSeparator(r.height);
    KeyIsSpelledGroups(r);
    MatchKeyOfSpelled(KeyGroups(r));
    IntToStringIsDigitsIff(r.width);
    IntToStringIsDigitsIff(r.height);
    if IsTruthyRate(r.refreshRate) {
      IntToStringIsDigitsIff(r.refreshRate.value);
    }
  }

  lemma IntToStringIsDigitsIff(i: int)
    ensures IsDigits(IntToString(i)) <==> i >= 0
  {
    if i < 0 {
      assert !IsDigit(IntToString(i)[0]);
    }
  }
}
