/**
  Python's `None` next to a value: a SQL NULL, a missing dictionary entry,
  or a lookup or read that found nothing.
 */
module Nullable {

  datatype Option<T> = None | Some(value: T)

  /** The value, or `fallback` in its place when there is none. */
  function ValueOr<T>(o: Option<T>, fallback: T): T {
    if o.Some? then o.value else fallback
  }
}

/**
  The string operations the pipeline uses from Python's `str`: whitespace
  stripping, lower-casing, joining, slicing a prefix and matching a run of
  leading digits. Strings are sequences of Unicode scalar values.
 */
module Text {

  /** The characters for which Python's `str.isspace()` holds. */
  predicate IsSpace(c: char) {
    var n := c as int;
    || 0x09 <= n <= 0x0D
    || 0x1C <= n <= 0x20
    || n == 0x85 || n == 0xA0 || n == 0x1680
    || 0x2000 <= n <= 0x200A
    || n == 0x2028 || n == 0x2029 || n == 0x202F || n == 0x205F || n == 0x3000
  }

  /** An ASCII decimal digit. */
  predicate IsDigit(c: char) {
    '0' <= c <= '9'
  }

  /** Every character of `s[a..b]` is whitespace. */
  predicate SpaceIn(s: string, a: int, b: int)
    requires 0 <= a <= b <= |s|
  {
    forall k :: a <= k < b ==> IsSpace(s[k])
  }

  predicate AllSpace(s: string) {
    SpaceIn(s, 0, |s|)
  }

  predicate AllDigits(s: string) {
    forall i :: 0 <= i < |s| ==> IsDigit(s[i])
  }

  /** Neither the first nor the last character is whitespace. */
  predicate NoOuterSpace(s: string) {
    |s| == 0 || (!IsSpace(s[0]) && !IsSpace(s[|s| - 1]))
  }

  /** `t` sits at offset `i` of `s`, with only whitespace before and after it. */
  predicate StrippedAt(s: string, t: string, i: int) {
    && 0 <= i && i + |t| <= |s|
    && (forall k :: 0 <= k < |t| ==> s[i + k] == t[k])
    && SpaceIn(s, 0, i)
    && SpaceIn(s, i + |t|, |s|)
  }

  /** The number of whitespace characters at the start of `s`. */
  function LeadingSpaceLen(s: string): (a: nat)
    ensures a <= |s| && SpaceIn(s, 0, a)
    ensures a == |s| || !IsSpace(s[a])
    decreases |s|
  {
    if |s| > 0 && IsSpace(s[0]) then
      var a := 1 + LeadingSpaceLen(s[1..]);
      assert forall k :: 1 <= k < a ==> s[k] == s[1..][k - 1];
      a
    else 0
  }

  /** The length of `s` without the whitespace at its end. */
  function TrailingSpaceStart(s: string): (b: nat)
    ensures b <= |s| && SpaceIn(s, b, |s|)
    ensures b == 0 || !IsSpace(s[b - 1])
    decreases |s|
  {
    if |s| > 0 && IsSpace(s[|s| - 1]) then
      var b := TrailingSpaceStart(s[..|s| - 1]);
      assert forall k :: b <= k < |s| - 1 ==> s[k] == s[..|s| - 1][k];
      b
    else |s|
  }

  /** Python `s.strip()`: the text between the leading and trailing whitespace. */
  function Strip(s: string): (r: string)
    ensures NoOuterSpace(r)
    ensures exists i :: StrippedAt(s, r, i)
  {
    var a := LeadingSpaceLen(s);
    var b := TrailingSpaceStart(s);
    if a < b then
      assert StrippedAt(s, s[a..b], a);
      s[a..b]
    else
      assert StrippedAt(s, [], a);
      []
  }

  /** `Strip` gives "" exactly for whitespace-only text. */
  lemma StripEmptyIff(s: string)
    ensures Strip(s) == [] <==> AllSpace(s)
  {
    if Strip(s) == [] {
      var i :| StrippedAt(s, [], i);
    }
  }

  /**
    Strip is characterised by its contract: any `t` without whitespace at
    either end that sits inside `s` between whitespace only is `Strip(s)`.
   */
  lemma StripUnique(s: string, t: string, i: int)
    requires StrippedAt(s, t, i) && NoOuterSpace(t)
    ensures Strip(s) == t
  {
    var a := LeadingSpaceLen(s);
    var b := TrailingSpaceStart(s);
    if t == [] {
      assert SpaceIn(s, 0, |s|);
    } else {
      assert s[i] == t[0] && s[i + |t| - 1] == t[|t| - 1];
      assert a == i;
      assert b == i + |t|;
      assert s[a..b] == t;
    }
  }

  lemma StripIdempotent(s: string)
    ensures Strip(Strip(s)) == Strip(s)
  {
    var r := Strip(s);
    assert StrippedAt(r, r, 0);
    StripUnique(r, r, 0);
  }

  /** A string with no whitespace at either end is its own strip. */
  lemma StripOfStripped(s: string)
    requires NoOuterSpace(s)
    ensures Strip(s) == s
  {
    assert StrippedAt(s, s, 0);
    StripUnique(s, s, 0);
  }

  /** ASCII lower-casing of one character. */
  function LowerChar(c: char): char {
    if 'A' <= c <= 'Z' then (c as int + 32) as char else c
  }

  /**
    Python `s.lower()` restricted to ASCII letters; other characters are kept.
   */
  function Lower(s: string): (r: string)
    ensures |r| == |s|
    ensures forall i :: 0 <= i < |s| ==> r[i] == LowerChar(s[i])
  {
    seq(|s|, i requires 0 <= i < |s| => LowerChar(s[i]))
  }

  /** Lower-casing leaves no upper-case ASCII letter and keeps whitespace at the ends as it was. */
  lemma LowerShape(s: string)
    ensures forall i :: 0 <= i < |s| ==> !('A' <= Lower(s)[i] <= 'Z')
    ensures NoOuterSpace(s) ==> NoOuterSpace(Lower(s))
  {
    if |s| > 0 {
      assert Lower(s)[0] == LowerChar(s[0]) && Lower(s)[|s| - 1] == LowerChar(s[|s| - 1]);
    }
  }

  /** Lower-casing twice is lower-casing once. */
  lemma LowerIdempotent(s: string)
    ensures Lower(Lower(s)) == Lower(s)
  {
  }

  /**
    Python `sep.join(parts)`: "" for no parts, the part itself for one part,
    and otherwise it starts with the first part and ends with the last.
    With `JoinAppend` this fixes the join of every list.
   */
  function Join(parts: seq<string>, sep: string): (r: string)
    ensures |parts| == 0 ==> r == ""
    ensures |parts| == 1 ==> r == parts[0]
    ensures |parts| > 0 ==> |parts[0]| <= |r| && r[..|parts[0]|] == parts[0]
    ensures |parts| > 0 ==> |parts[|parts| - 1]| <= |r| && r[|r| - |parts[|parts| - 1]|..] == parts[|parts| - 1]
    decreases |parts|
  {
    if |parts| == 0 then ""
    else if |parts| == 1 then parts[0]
    else parts[0] + sep + Join(parts[1..], sep)
  }

  /** Appending one part adds the separator and the part at the end. */
  lemma {:induction false} JoinAppend(parts: seq<string>, last: string, sep: string)
    requires |parts| > 0
    ensures Join(parts + [last], sep) == Join(parts, sep) + sep + last
    decreases |parts|
  {
    if |parts| == 1 {
      assert (parts + [last])[1..] == [last];
    } else {
      var p0, rest := parts[0], Join(parts[1..], sep);
      assert Join(parts + [last], sep) == p0 + sep + Join(parts[1..] + [last], sep) by {
        assert (parts + [last])[1..] == parts[1..] + [last];
      }
      JoinAppend(parts[1..], last, sep);
      AppendAssoc(p0 + sep, rest + sep, last);
      AppendAssoc(p0 + sep, rest, sep);
    }
  }

  /** Concatenation regrouped to the left. */
  lemma AppendAssoc(p: string, q: string, r: string)
    ensures p + (q + r) == p + q + r
  {
  }

  function Min(a: int, b: int): int {
    if a <= b then a else b
  }

  /** Python `s[:n]` for a non-negative `n`. */
  function Take<T>(s: seq<T>, n: nat): (r: seq<T>)
    ensures |r| == Min(n, |s|) && |r| <= |s|
    ensures r == s[..|r|]
  {
    if |s| <= n then s else s[..n]
  }

  /** The number of ASCII digits at the start of `s`. */
  function DigitPrefixLen(s: string): (k: nat)
    ensures k <= |s|
    ensures AllDigits(s[..k])
    ensures k == |s| || !IsDigit(s[k])
    decreases |s|
  {
    if |s| > 0 && IsDigit(s[0]) then
      var k := 1 + DigitPrefixLen(s[1..]);
      assert s[..k] == [s[0]] + s[1..][..k - 1];
      k
    else 0
  }

  /** The longest prefix of `s` made of ASCII digits (the regular expression `^\d+`, or empty). */
  function LeadingDigits(s: string): (r: string)
    ensures |r| <= |s| && r == s[..|r|]
    ensures AllDigits(r)
    ensures |r| == |s| || !IsDigit(s[|r|])
  {
    s[..DigitPrefixLen(s)]
  }
}
