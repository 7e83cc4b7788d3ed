/** The Python string methods the modelled code relies on: `str.isspace` on
    one character, `str.strip()`, `str.rstrip(ch)` and `str.endswith`. */
module PyStrings {

  /** `c.isspace()`: the Unicode whitespace characters Python strips by
      default (tab to carriage return, the four ASCII separators, space,
      NEL, no-break space and the Unicode space separators). */
  predicate IsSpace(c: char) {
    || ('\t' <= c <= '\r')
    || ('\U{1c}' <= c <= '\U{1f}')
    || c == ' '
    || c == '\U{85}'
    || c == '\U{a0}'
    || c == '\U{1680}'
    || ('\U{2000}' <= c <= '\U{200a}')
    || c == '\U{2028}'
    || c == '\U{2029}'
    || c == '\U{202f}'
    || c == '\U{205f}'
    || c == '\U{3000}'
  }

  /** Every character of `s` is whitespace (vacuously true of ""). */
  predicate AllSpace(s: string) {
    forall i :: 0 <= i < |s| ==> IsSpace(s[i])
  }

  /** `s.endswith(suffix)`. */
  predicate EndsWith(s: string, suffix: string) {
    |suffix| <= |s| && s[|s| - |suffix|..] == suffix
  }

  /** The first index at or after `i` that does not hold whitespace
      (`|s|` when there is none). */
  function SkipSpace(s: string, i: nat): (j: nat)
    requires i <= |s|
    ensures i <= j <= |s|
    ensures forall k :: i <= k < j ==> IsSpace(s[k])
    ensures j == |s| || !IsSpace(s[j])
    decreases |s| - i
  {
    if i < |s| && IsSpace(s[i]) then SkipSpace(s, i + 1) else i
  }

  /** The end of `s[..j]` once its trailing whitespace is dropped. */
  function BackOverSpace(s: string, j: nat): (i: nat)
    requires j <= |s|
    ensures i <= j
    ensures forall k :: i <= k < j ==> IsSpace(s[k])
    ensures i == 0 || !IsSpace(s[i - 1])
  {
    if 0 < j && IsSpace(s[j - 1]) then BackOverSpace(s, j - 1) else j
  }

  /** `s.lstrip()`: drops the leading whitespace, and only that. */
  function StripLeft(s: string): (r: string)
    ensures |r| <= |s| && r == s[|s| - |r|..]
    ensures forall i :: 0 <= i < |s| - |r| ==> IsSpace(s[i])
    ensures r == [] || !IsSpace(r[0])
  {
    s[SkipSpace(s, 0)..]
  }

  /** `s.rstrip()`: drops the trailing whitespace, and only that. */
  function StripRight(s: string): (r: string)
    ensures |r| <= |s| && r == s[..|r|]
    ensures forall i :: |r| <= i < |s| ==> IsSpace(s[i])
    ensures r == [] || !IsSpace(r[|r| - 1])
  {
    s[..BackOverSpace(s, |s|)]
  }

  /** `s.strip()`. */
  function Strip(s: string): string {
    StripRight(StripLeft(s))
  }

  /** `s.rstrip(ch)` for a single character `ch`: drops every trailing `ch`
      and nothing else. */
  function RStripChar(s: string, ch: char): (r: string)
    ensures |r| <= |s| && r == s[..|r|]
    ensures forall i :: |r| <= i < |s| ==> s[i] == ch
    ensures r == [] || r[|r| - 1] != ch
  {
    if |s| > 0 && s[|s| - 1] == ch then RStripChar(s[..|s| - 1], ch) else s
  }

  /** `s.strip()` neither starts nor ends with whitespace. */
  lemma StripEnds(s: string)
    ensures var r := Strip(s); r == [] || (!IsSpace(r[0]) && !IsSpace(r[|r| - 1]))
  {
    var l := StripLeft(s);
    var r := StripRight(l);
    if r != [] {
      assert r[0] == l[0];
    }
  }

  /** A run of whitespace in `s`, as a slice, is all whitespace. */
  lemma SpaceRun(s: string, lo: nat, hi: nat)
    requires lo <= hi <= |s|
    requires forall i :: lo <= i < hi ==> IsSpace(s[i])
    ensures AllSpace(s[lo..hi])
  {
    var run := s[lo..hi];
    forall i | 0 <= i < |run| ensures IsSpace(run[i]) {
      assert run[i] == s[lo + i];
    }
  }

  /** `s.strip()` keeps exactly the middle of `s` between its leading and its
      trailing whitespace: the result is a slice of `s` and everything cut off
      is whitespace. */
  lemma StripIsTrimmedSlice(s: string) returns (lo: nat)
    ensures lo + |Strip(s)| <= |s| && Strip(s) == s[lo..lo + |Strip(s)|]
    ensures AllSpace(s[..lo]) && AllSpace(s[lo + |Strip(s)|..])
  {
    var l := StripLeft(s);
    var r := StripRight(l);
    lo := |s| - |l|;
    assert r == s[lo..lo + |r|];
    SpaceRun(s, 0, lo);
    assert s[..lo] == s[0..lo];
    SpaceRun(l, |r|, |l|);
    assert s[lo + |r|..] == l[|r|..|l|];
  }

  /** A string strips to "" exactly when it is all whitespace. */
  lemma StripEmptyIffAllSpace(s: string)
    ensures Strip(s) == [] <==> AllSpace(s)
  {
    var l := StripLeft(s);
    var r := StripRight(l);
    if r != [] {
      assert r[0] == l[0] == s[|s| - |l|];
    } else {
      assert l == [];
    }
  }

  /** Stripping twice is stripping once. */
  lemma StripIdempotent(s: string)
    ensures Strip(Strip(s)) == Strip(s)
  {
    var r := Strip(s);
    StripEnds(s);
    assert SkipSpace(r, 0) == 0;
    assert r[0..] == r;
    assert BackOverSpace(r, |r|) == |r|;
    assert r[..|r|] == r;
  }
}
