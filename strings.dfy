/**
 * The few Python `str` built-ins the retrieval engine and the response parser
 * rely on, written out over `seq<char>`: `strip()`, `replace(old, new)`,
 * `find(c)` and character counting.
 */
module Strings {

  /** The characters Python's `str.isspace()` accepts, i.e. those `strip()` removes. */
  const SpaceChars: set<char> := {'\U{0020}', '\U{0009}', '\U{000A}', '\U{000D}', '\U{000B}', '\U{000C}', '\U{001C}', '\U{001D}', '\U{001E}', '\U{001F}', '\U{0085}', '\U{00A0}', '\U{1680}', '\U{2000}', '\U{2001}', '\U{2002}', '\U{2003}', '\U{2004}', '\U{2005}', '\U{2006}', '\U{2007}', '\U{2008}', '\U{2009}', '\U{200A}', '\U{2028}', '\U{2029}', '\U{202F}', '\U{205F}', '\U{3000}'}

  /** Python's `str.isspace()` for one character. */
  predicate IsSpace(c: char) {
    c in SpaceChars
  }

  /** The first index in [i, hi) that does not hold whitespace, or `hi`. */
  function SkipSpaces(s: string, i: nat, hi: nat): (k: nat)
    requires i <= hi <= |s|
    decreases hi - i
    ensures i <= k <= hi
  {
    if i == hi || !IsSpace(s[i]) then i else SkipSpaces(s, i + 1, hi)
  }

  /** The skipped run is all whitespace and is followed by a non-whitespace character or by `hi`. */
  lemma {:induction false} SkipSpacesIsMaximalRun(s: string, i: nat, hi: nat)
    requires i <= hi <= |s|
    decreases hi - i
    ensures var k := SkipSpaces(s, i, hi);
      && (forall m :: i <= m < k ==> IsSpace(s[m]))
      && (k < hi ==> !IsSpace(s[k]))
  {
    if i < hi && IsSpace(s[i]) {
      SkipSpacesIsMaximalRun(s, i + 1, hi);
    }
  }

  /** The index where the whitespace run that ends `s[lo..j]` begins (at least `lo`). */
  function TrimEnd(s: string, lo: nat, j: nat): (e: nat)
    requires lo <= j <= |s|
    decreases j - lo
    ensures lo <= e <= j
  {
    if j == lo || !IsSpace(s[j - 1]) then j else TrimEnd(s, lo, j - 1)
  }

  /** The trimmed run is all whitespace and is preceded by a non-whitespace character or by `lo`. */
  lemma {:induction false} TrimEndIsMaximalRun(s: string, lo: nat, j: nat)
    requires lo <= j <= |s|
    decreases j - lo
    ensures var e := TrimEnd(s, lo, j);
      && (forall m :: e <= m < j ==> IsSpace(s[m]))
      && (e > lo ==> !IsSpace(s[e - 1]))
  {
    if j > lo && IsSpace(s[j - 1]) {
      TrimEndIsMaximalRun(s, lo, j - 1);
    }
  }

  /** Python's `s[lo:hi].strip()`, computed on indices of `s`: the start of the stripped part. */
  function StripStart(s: string, lo: nat, hi: nat): (a: nat)
    requires lo <= hi <= |s|
    ensures lo <= a <= hi
  {
    SkipSpaces(s, lo, hi)
  }

  /** Python's `s[lo:hi].strip()`, computed on indices of `s`: the end of the stripped part. */
  function StripEnd(s: string, lo: nat, hi: nat): (e: nat)
    requires lo <= hi <= |s|
    ensures StripStart(s, lo, hi) <= e <= hi
  {
    TrimEnd(s, StripStart(s, lo, hi), hi)
  }

  /** Python's `s.strip()`: the slice of `s` between its leading and trailing whitespace. */
  function Strip(s: string): string {
    s[StripStart(s, 0, |s|)..StripEnd(s, 0, |s|)]
  }

  /**
   * `strip()` returns the empty string exactly when `s` is all whitespace, and
   * otherwise a string that neither starts nor ends with whitespace.
   */
  lemma StripTrimsBothEnds(s: string)
    ensures Strip(s) == [] <==> forall i :: 0 <= i < |s| ==> IsSpace(s[i])
    ensures Strip(s) != [] ==> !IsSpace(Strip(s)[0]) && !IsSpace(Strip(s)[|Strip(s)| - 1])
  {
    var a := StripStart(s, 0, |s|);
    SkipSpacesIsMaximalRun(s, 0, |s|);
    TrimEndIsMaximalRun(s, a, |s|);
    if a < StripEnd(s, 0, |s|) {
      assert !IsSpace(s[a]);
    }
  }

  /** Skipping whitespace in a slice skips the same characters of the whole string. */
  lemma {:induction false} SkipSpacesInSlice(s: string, lo: nat, hi: nat, i: nat)
    requires lo <= hi <= |s| && i <= hi - lo
    decreases hi - lo - i
    ensures SkipSpaces(s[lo..hi], i, hi - lo) == SkipSpaces(s, lo + i, hi) - lo
  {
    if i < hi - lo {
      assert s[lo..hi][i] == s[lo + i];
      SkipSpacesInSlice(s, lo, hi, i + 1);
    }
  }

  /** Trimming trailing whitespace in a slice trims the same characters of the whole string. */
  lemma {:induction false} TrimEndInSlice(s: string, lo: nat, hi: nat, a: nat, j: nat)
    requires lo <= hi <= |s| && a <= j <= hi - lo
    decreases j - a
    ensures TrimEnd(s[lo..hi], a, j) == TrimEnd(s, lo + a, lo + j) - lo
  {
    if a < j {
      assert s[lo..hi][j - 1] == s[lo + j - 1];
      TrimEndInSlice(s, lo, hi, a, j - 1);
    }
  }

  /** `s[lo:hi].strip()` is the slice of `s` between the indices `StripStart` and `StripEnd`. */
  lemma StripOfSlice(s: string, lo: nat, hi: nat)
    requires lo <= hi <= |s|
    ensures Strip(s[lo..hi]) == s[StripStart(s, lo, hi)..StripEnd(s, lo, hi)]
  {
    var t := s[lo..hi];
    var a, e := StripStart(s, lo, hi), StripEnd(s, lo, hi);
    SkipSpacesInSlice(s, lo, hi, 0);
    assert StripStart(t, 0, |t|) == a - lo;
    TrimEndInSlice(s, lo, hi, a - lo, |t|);
    assert StripEnd(t, 0, |t|) == e - lo;
    SliceOfSlice(s, lo, hi, a - lo, e - a);
  }

  /** A slice of a slice of `s` is a slice of `s`. */
  lemma SliceOfSlice(s: string, lo: nat, hi: nat, a: nat, n: nat)
    requires lo <= hi <= |s| && a + n <= hi - lo
    ensures s[lo..hi][a..a + n] == s[lo + a..lo + a + n]
  {
    var u, v := s[lo..hi][a..a + n], s[lo + a..lo + a + n];
    assert forall k :: 0 <= k < |u| ==> u[k] == v[k];
  }

  /** `pat` occurs in `s` starting at index `i`. */
  predicate OccursAt(s: string, pat: string, i: int) {
    0 <= i && i + |pat| <= |s| && s[i..i + |pat|] == pat
  }

  /** `pat` occurs in `s` as a contiguous run (Python's `pat in s`); also: `pat` is a slice of `s`. */
  ghost predicate Contains(s: string, pat: string) {
    exists i :: OccursAt(s, pat, i)
  }

  /**
   * Python's `s.replace(pat, rep)`: every non-overlapping occurrence of `pat`,
   * found from left to right, is replaced by `rep`.
   */
  function ReplaceAll(s: string, pat: string, rep: string): string
    requires |pat| > 0
    decreases |s|
  {
    if |s| < |pat| then s
    else if s[..|pat|] == pat then rep + ReplaceAll(s[|pat|..], pat, rep)
    else [s[0]] + ReplaceAll(s[1..], pat, rep)
  }

  /** Python's `s.find(c)` for one character: its first index, or -1. */
  function FindChar(s: string, c: char): (r: int)
    ensures -1 <= r < |s|
    ensures r == -1 <==> c !in s
    ensures r >= 0 ==> s[r] == c && forall i :: 0 <= i < r ==> s[i] != c
  {
    if |s| == 0 then -1
    else if s[0] == c then 0
    else
      var k := FindChar(s[1..], c);
      if k == -1 then -1 else k + 1
  }

  /** Number of occurrences of `c` in `s`, counted from the end so that prefixes unfold. */
  function Count(s: string, c: char): nat {
    if s == [] then 0
    else Count(s[..|s| - 1], c) + (if s[|s| - 1] == c then 1 else 0)
  }

  /** A slice of a slice is a slice: containment passes from a slice to the whole. */
  lemma ContainsInSlice(s: string, a: nat, b: nat, pat: string)
    requires a <= b <= |s|
    requires Contains(s[a..b], pat)
    ensures Contains(s, pat)
  {
    var i :| OccursAt(s[a..b], pat, i);
    var u, v := s[a..b][i..i + |pat|], s[a + i..a + i + |pat|];
    assert forall k :: 0 <= k < |u| ==> u[k] == v[k];
    assert OccursAt(s, pat, a + i);
  }

  /** Replacing a one-character pattern by a one-character replacement keeps the length and removes the pattern. */
  lemma {:induction false} ReplaceCharRemoves(s: string, c: char, d: char)
    requires c != d
    ensures |ReplaceAll(s, [c], [d])| == |s|
    ensures c !in ReplaceAll(s, [c], [d])
    decreases |s|
  {
    if |s| >= 1 {
      ReplaceCharRemoves(s[1..], c, d);
      if s[..1] == [c] {
        assert ReplaceAll(s, [c], [d]) == [d] + ReplaceAll(s[1..], [c], [d]);
      } else {
        assert s[0] != c;
        assert ReplaceAll(s, [c], [d]) == [s[0]] + ReplaceAll(s[1..], [c], [d]);
      }
    }
  }
}
