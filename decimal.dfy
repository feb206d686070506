/** Decimal text: template-literal rendering of integers, `String.prototype.split`, and the
    two string-to-number conversions the core uses (`Number(s)` and `parseInt(s)`), restricted
    to signs and decimal digits. */
module Decimal {
  import opened Interfaces

  predicate IsDigit(c: char) {
    '0' <= c <= '9'
  }

  /** Every character is a decimal digit (the empty string included). */
  predicate AllDigits(s: string) {
    forall i :: 0 <= i < |s| ==> IsDigit(s[i])
  }

  /** The regular expression `\d+`. */
  predicate IsDigits(s: string) {
    |s| > 0 && AllDigits(s)
  }

  function DigitValue(c: char): nat
    requires IsDigit(c)
  {
    (c as int) - ('0' as int)
  }

  function DigitChar(d: nat): (c: char)
    requires d < 10
    ensures IsDigit(c) && DigitValue(c) == d
  {
    (('0' as int) + d) as char
  }

  /** The value of a digit string read in base 10. */
  function DigitsValue(s: string): nat
    requires AllDigits(s)
    decreases |s|
  {
    if s == [] then 0 else DigitsValue(s[..|s| - 1]) * 10 + DigitValue(s[|s| - 1])
  }

  /** `${n}` for a non-negative integer: its shortest decimal representation. */
  function NatToString(n: nat): (s: string)
    ensures IsDigits(s)
    ensures s[0] == '0' ==> n == 0 && s == "0"
  {
    if n < 10 then [DigitChar(n)] else NatToString(n / 10) + [DigitChar(n % 10)]
  }

  /** `${i}` for any integer: a minus sign before the digits of a negative number. */
  function IntToString(i: int): (s: string)
    ensures |s| > 0
    ensures i >= 0 ==> IsDigits(s)
    ensures i < 0 ==> s[0] == '-' && IsDigits(s[1..])
  {
    if i < 0 then "-" + NatToString(-i) else NatToString(i)
  }

  lemma {:induction false} NatToStringRoundTrip(n: nat)
    ensures DigitsValue(NatToString(n)) == n
  {
    if n >= 10 {
      var s := NatToString(n);
      assert s[..|s| - 1] == NatToString(n / 10);
      NatToStringRoundTrip(n / 10);
    }
  }

  /** A rendered integer contains neither the separator `x` nor `@`. */
  lemma IntToStringHasNoSeparator(i: int)
    ensures 'x' !in IntToString(i) && '@' !in IntToString(i)
  {
    var s := IntToString(i);
    if i < 0 {
      assert forall k :: 1 <= k < |s| ==> s[k] == s[1..][k - 1];
    }
  }

  /** Joining two strings with a separator `d` adds no other character. */
  lemma CharNotInJoin(a: string, d: char, b: string, c: char)
    requires c !in a && c !in b && c != d
    ensures c !in a + [d] + b
  {
    var s := a + [d] + b;
    forall k | 0 <= k < |s|
      ensures s[k] != c
    {
      if k < |a| {
        assert s[k] == a[k];
      } else if k > |a| {
        assert s[k] == b[k - |a| - 1];
      }
    }
  }

  lemma CharInJoin(a: string, d: char, b: string)
    ensures d in a + [d] + b
  {
    assert (a + [d] + b)[|a|] == d;
  }

  /** The index of the first occurrence of `c` in `s`, or -1 (`indexOf`, `findIndex`). */
  function IndexOf(s: string, c: char): (k: int)
    ensures -1 <= k < |s|
    ensures k >= 0 ==> s[k] == c && c !in s[..k]
    ensures k < 0 ==> c !in s
  {
    if s == [] then -1
    else if s[0] == c then 0
    else
      var k := IndexOf(s[1..], c);
      if k < 0 then -1 else k + 1
  }

  lemma IndexOfAfterPrefix(a: string, c: char, b: string)
    requires c !in a
    ensures IndexOf(a + [c] + b, c) == |a|
  {
    var s := a + [c] + b;
    var k := IndexOf(s, c);
    assert s[|a|] == c;
  }

  /** `s.split(c)` for a one-character separator. */
  function Split(s: string, c: char): (parts: seq<string>)
    ensures |parts| >= 1
    ensures forall i :: 0 <= i < |parts| ==> c !in parts[i]
    ensures c !in s <==> parts == [s]
    decreases |s|
  {
    var k := IndexOf(s, c);
    if k < 0 then [s]
    else
      var rest := Split(s[k + 1..], c);
      PartsCons(s[..k], rest, c);
      [s[..k]] + rest
  }

  lemma PartsCons(head: string, rest: seq<string>, c: char)
    requires c !in head && |rest| >= 1
    requires forall i :: 0 <= i < |rest| ==> c !in rest[i]
    ensures |[head] + rest| >= 2
    ensures forall i :: 0 <= i < |[head] + rest| ==> c !in ([head] + rest)[i]
  {
    var parts := [head] + rest;
    assert forall i :: 1 <= i < |parts| ==> parts[i] == rest[i - 1];
  }

  /** Splitting at the first separator: the text before it is the first part. */
  lemma SplitAfterPrefix(a: string, c: char, b: string)
    requires c !in a
    ensures Split(a + [c] + b, c) == [a] + Split(b, c)
  {
    var s := a + [c] + b;
    IndexOfAfterPrefix(a, c, b);
    assert s[..|a|] == a;
    assert s[|a| + 1..] == b;
  }

  /** `Number(s)` on a string made of an optional sign and decimal digits; the empty string is 0.
      Every other string is NaN, which is `None` here. */
  function NumberOf(s: string): (r: Option<int>)
    ensures s == "" ==> r == Some(0)
    ensures IsDigits(s) ==> r == Some(DigitsValue(s))
    ensures |s| > 0 && s[0] == '-' && IsDigits(s[1..]) ==> r == Some(-(DigitsValue(s[1..]) as int))
    ensures r.Some? && s != "" ==> AllDigits(s) || ((s[0] == '-' || s[0] == '+') && IsDigits(s[1..]))
  {
    if s == "" then Some(0)
    else if AllDigits(s) then Some(DigitsValue(s))
    else if (s[0] == '-' || s[0] == '+') && IsDigits(s[1..]) then
      Some(if s[0] == '-' then -(DigitsValue(s[1..]) as int) else DigitsValue(s[1..]))
    else None
  }

  /** `Number(`${i}`)` gives back `i`. */
  lemma NumberOfIntToString(i: int)
    ensures NumberOf(IntToString(i)) == Some(i)
  {
    var s := IntToString(i);
    if i < 0 {
      assert s[1..] == NatToString(-i);
      NatToStringRoundTrip(-i);
    } else {
      NatToStringRoundTrip(i);
    }
  }

  /** The longest prefix of `s` made of digits. */
  function LeadingDigits(s: string): (d: string)
    ensures AllDigits(d) && d <= s
    ensures |d| < |s| ==> !IsDigit(s[|d|])
  {
    if s == [] || !IsDigit(s[0]) then "" else [s[0]] + LeadingDigits(s[1..])
  }

  /** `parseInt(s)` (radix 10): an optional sign, then the longest run of digits; no digit is NaN. */
  function ParseInt(s: string): (r: Option<int>)
    ensures IsDigits(s) ==> r == Some(DigitsValue(s))
    ensures |s| > 0 && s[0] == '-' && IsDigits(s[1..]) ==> r == Some(-(DigitsValue(s[1..]) as int))
    ensures s == "" || (!IsDigit(s[0]) && s[0] != '-' && s[0] != '+') ==> r == None
  {
    var negative := |s| > 0 && s[0] == '-';
    var body := if |s| > 0 && (s[0] == '-' || s[0] == '+') then s[1..] else s;
    var d := LeadingDigits(body);
    if d == "" then None
    else
      assert IsDigits(s) ==> d == s;
      assert negative && IsDigits(s[1..]) ==> d == s[1..];
      Some(if negative then -(DigitsValue(d) as int) else DigitsValue(d))
  }

  /** The leading digits of digits followed by a non-digit are those digits. */
  lemma {:induction false} LeadingDigitsOfPrefix(d: string, rest: string)
    requires AllDigits(d) && (rest == "" || !IsDigit(rest[0]))
    ensures LeadingDigits(d + rest) == d
  {
    if d != "" {
      assert (d + rest)[1..] == d[1..] + rest;
      LeadingDigitsOfPrefix(d[1..], rest);
    } else {
      assert d + rest == rest;
    }
  }

  /** `parseInt` stops at the first character that is not a digit: `parseInt("60Hz")` is 60,
      where `Number("60Hz")` is NaN. */
  lemma ParseIntIgnoresTail(d: string, rest: string)
    requires IsDigits(d) && (rest == "" || !IsDigit(rest[0]))
    ensures ParseInt(d + rest) == Some(DigitsValue(d))
    ensures rest != "" ==> NumberOf(d + rest) == None
  {
    assert (d + rest)[0] == d[0];
    LeadingDigitsOfPrefix(d, rest);
    if rest != "" {
      assert (d + rest)[|d|] == rest[0];
      assert !IsDigits((d + rest)[1..]) by {
        assert (d + rest)[1..][|d| - 1] == rest[0];
      }
    }
  }
}
