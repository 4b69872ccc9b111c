/**
  Python's `str.strip()` with no argument, on strings of Unicode scalar
  values. The scorecard strips the inaction-cost text before measuring its
  length and strips the decision text before deciding whether to save a
  record.

  Stripping is defined for an arbitrary set of characters to remove, as
  Python's `s.strip(chars)` is; `Strip` instantiates it with whitespace.
 */
module Text {

  /** The characters for which Python's `str.isspace()` holds: TAB, LF, VT,
      FF, CR, the separators FS, GS, RS and US, SPACE, NEL, NO-BREAK SPACE,
      and the remaining Unicode space, line and paragraph separators. */
  const Whitespace: set<char> := {
    '\t', '\n', '\U{B}', '\U{C}', '\r', '\U{1C}', '\U{1D}', '\U{1E}', '\U{1F}',
    ' ', '\U{85}', '\U{A0}', '\U{1680}',
    '\U{2000}', '\U{2001}', '\U{2002}', '\U{2003}', '\U{2004}', '\U{2005}',
    '\U{2006}', '\U{2007}', '\U{2008}', '\U{2009}', '\U{200A}',
    '\U{2028}', '\U{2029}', '\U{202F}', '\U{205F}', '\U{3000}'
  }

  /** Every character of `s` is in `ws` (vacuously so for the empty string). */
  predicate AllIn(s: string, ws: set<char>) {
    forall k :: 0 <= k < |s| ==> s[k] in ws
  }

  /** `r` neither starts nor ends with a character of `ws`. */
  predicate Trimmed(r: string, ws: set<char>) {
    r == [] || (r[0] !in ws && r[|r| - 1] !in ws)
  }

  /** The number of characters of `ws` that `s` starts with. */
  function LeadCount(s: string, ws: set<char>): (n: nat)
    ensures n <= |s|
    ensures forall k :: 0 <= k < n ==> s[k] in ws
    ensures n == |s| || s[n] !in ws
  {
    if |s| == 0 || s[0] !in ws then 0
    else
      var n := 1 + LeadCount(s[1..], ws);
      assert forall k :: 1 <= k < n ==> s[k] == s[1..][k - 1];
      n
  }

  /** The number of characters of `ws` that `s` ends with. */
  function TrailCount(s: string, ws: set<char>): (n: nat)
    ensures n <= |s|
    ensures forall k :: |s| - n <= k < |s| ==> s[k] in ws
    ensures n == |s| || s[|s| - n - 1] !in ws
  {
    if |s| == 0 || s[|s| - 1] !in ws then 0
    else
      var n := 1 + TrailCount(s[..|s| - 1], ws);
      assert forall k :: |s| - n <= k < |s| - 1 ==> s[k] == s[..|s| - 1][k];
      n
  }

  /** Python's `s.strip(chars)` with `chars` = `ws`: what is left of `s` once
      its leading and trailing characters from `ws` are cut off. It neither
      starts nor ends with one of them, and it is empty exactly when every
      character of `s` is in `ws`. */
  function StripChars(s: string, ws: set<char>): (r: string)
    ensures |r| <= |s|
    ensures Trimmed(r, ws)
    ensures r == [] <==> AllIn(s, ws)
  {
    var i := LeadCount(s, ws);
    if i == |s| then []
    else
      var j := |s| - TrailCount(s, ws);
      assert i < j;
      s[i..j]
  }

  /** Python's `s.strip()`, which removes whitespace. */
  function Strip(s: string): string {
    StripChars(s, Whitespace)
  }

  /** What StripChars keeps is the middle of `s` between a prefix and a
      suffix made of characters of `ws`. */
  lemma StripCharsSplits(s: string, ws: set<char>)
    ensures exists a, b :: s == a + StripChars(s, ws) + b && AllIn(a, ws) && AllIn(b, ws)
  {
    var i := LeadCount(s, ws);
    if i == |s| {
      var a, b := s, [];
      assert s == a + StripChars(s, ws) + b;
      assert AllIn(a, ws) && AllIn(b, ws);
    } else {
      var j := |s| - TrailCount(s, ws);
      var a, b := s[..i], s[j..];
      assert s == a + StripChars(s, ws) + b;
      assert AllIn(a, ws) && AllIn(b, ws);
    }
  }

  /** A non-empty trimmed middle between removable affixes starts right
      after the leading run that LeadCount measures. */
  lemma LeadCountOfSplit(s: string, ws: set<char>, a: string, r: string, b: string)
    requires s == a + r + b && AllIn(a, ws) && r != [] && r[0] !in ws
    ensures LeadCount(s, ws) == |a|
  {
    assert s[|a|] == r[0];
  }

  /** A non-empty trimmed middle between removable affixes ends right before
      the trailing run that TrailCount measures. */
  lemma TrailCountOfSplit(s: string, ws: set<char>, a: string, r: string, b: string)
    requires s == a + r + b && AllIn(b, ws) && r != [] && r[|r| - 1] !in ws
    ensures TrailCount(s, ws) == |b|
  {
    assert s[|s| - |b| - 1] == r[|r| - 1];
  }

  /** Any way of writing `s` as a removable prefix, a trimmed middle and a
      removable suffix has StripChars's result as its middle. Together with
      StripCharsSplits, which gives one such way, this determines StripChars's
      result; StripChars's own ensures alone do not. */
  lemma StripCharsUnique(s: string, ws: set<char>, a: string, r: string, b: string)
    requires s == a + r + b && AllIn(a, ws) && AllIn(b, ws) && Trimmed(r, ws)
    ensures StripChars(s, ws) == r
  {
    if r == [] {
      assert s == a + b;
      AllInConcat(a, b, ws);
    } else {
      LeadCountOfSplit(s, ws, a, r, b);
      TrailCountOfSplit(s, ws, a, r, b);
      assert s[|a|] == r[0];
      assert r == s[|a|..|s| - |b|];
    }
  }

  /** Joining two strings of removable characters gives another one. */
  lemma AllInConcat(a: string, b: string, ws: set<char>)
    requires AllIn(a, ws) && AllIn(b, ws)
    ensures AllIn(a + b, ws)
  {
    forall k | 0 <= k < |a + b|
      ensures (a + b)[k] in ws
    {
      if k < |a| {
        assert (a + b)[k] == a[k];
      } else {
        assert (a + b)[k] == b[k - |a|];
      }
    }
  }

  /** Removable characters added on either side never change what
      StripChars returns. */
  lemma StripCharsIgnoresPadding(p: string, s: string, q: string, ws: set<char>)
    requires AllIn(p, ws) && AllIn(q, ws)
    ensures StripChars(p + s + q, ws) == StripChars(s, ws)
  {
    var r := StripChars(s, ws);
    StripCharsSplits(s, ws);
    var a, b :| s == a + r + b && AllIn(a, ws) && AllIn(b, ws);
    AllInConcat(p, a, ws);
    AllInConcat(b, q, ws);
    Regroup(p, a, r, b, q);
    StripCharsUnique(p + s + q, ws, p + a, r, b + q);
  }

  /** Re-associating the five parts of a padded split. */
  lemma Regroup(p: string, a: string, r: string, b: string, q: string)
    ensures p + (a + r + b) + q == (p + a) + r + (b + q)
  {
  }

  /** Leading and trailing whitespace never changes what `strip()` returns. */
  lemma StripIgnoresPadding(p: string, s: string, q: string)
    requires AllIn(p, Whitespace) && AllIn(q, Whitespace)
    ensures Strip(p + s + q) == Strip(s)
  {
    StripCharsIgnoresPadding(p, s, q, Whitespace);
  }

  /** Stripping twice is stripping once. */
  lemma StripIdempotent(s: string)
    ensures Strip(Strip(s)) == Strip(s)
  {
    var r := Strip(s);
    assert r == [] + r + [];
    StripCharsUnique(r, Whitespace, [], r, []);
  }
}
