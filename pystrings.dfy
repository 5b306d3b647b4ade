/**
 * The Python `str` operations that the retrieval helpers rely on, over
 * `string` (`seq<char>`). A Dafny `char` is a Unicode scalar value and a
 * Python `str` element is a code point, so lengths and indices agree.
 *
 * - `Find`        : `s.find(pat)` (the lowest index, or none)
 * - `Contains`    : `pat in s`
 * - `Split1`      : `s.split(sep, 1)`
 * - `ReplaceFirst`: `s.replace(target, replacement, 1)`
 * - `LStrip`, `RStrip`, `Strip`: `s.lstrip()`, `s.rstrip()`, `s.strip()`
 * - `Join`        : `sep.join(parts)`
 */
module PyStrings {

  datatype Option<+T> = None | Some(value: T)

  /** The code points for which Python's `str.isspace()` holds (Unicode
      bidirectional class WS, B or S, or general category Zs), as ranges. */
  const WhitespaceRanges: seq<(char, char)> := [
    ('\t', '\r'), ('\U{1C}', ' '), ('\U{85}', '\U{85}'), ('\U{A0}', '\U{A0}'),
    ('\U{1680}', '\U{1680}'), ('\U{2000}', '\U{200A}'), ('\U{2028}', '\U{2029}'),
    ('\U{202F}', '\U{202F}'), ('\U{205F}', '\U{205F}'), ('\U{3000}', '\U{3000}')]

  /** `c` lies in one of `ranges`. */
  predicate InRanges(c: char, ranges: seq<(char, char)>) {
    ranges != [] && ((ranges[0].0 <= c <= ranges[0].1) || InRanges(c, ranges[1..]))
  }

  /** Python's `str.isspace()` for one code point. */
  predicate IsWhitespace(c: char) {
    InRanges(c, WhitespaceRanges)
  }

  /** Every character of `s[lo..hi]` is whitespace. */
  predicate WhitespaceBetween(s: string, lo: int, hi: int)
    requires 0 <= lo <= hi <= |s|
  {
    forall k :: lo <= k < hi ==> IsWhitespace(s[k])
  }

  /** `pat` occurs in `s` starting at index `i`. */
  predicate OccursAt(s: string, pat: string, i: int) {
    0 <= i && i + |pat| <= |s| && s[i..i + |pat|] == pat
  }

  /** No occurrence of `pat` in `s` starts before index `k`. */
  predicate NoOccurrenceBefore(s: string, pat: string, k: int) {
    forall j :: 0 <= j < k ==> !OccursAt(s, pat, j)
  }

  /** The first occurrence of `pat` in `s` starts at `i`. */
  predicate IsFirstOccurrence(s: string, pat: string, i: int) {
    OccursAt(s, pat, i) && NoOccurrenceBefore(s, pat, i)
  }

  /** Scan for `pat` from index `k`, knowing that none starts before `k`. */
  function FindFrom(s: string, pat: string, k: nat): (r: Option<nat>)
    requires k <= |s|
    requires NoOccurrenceBefore(s, pat, k)
    ensures r.Some? ==> IsFirstOccurrence(s, pat, r.value)
    ensures r.None? ==> forall i :: !OccursAt(s, pat, i)
    decreases |s| - k
  {
    if OccursAt(s, pat, k) then Some(k)
    else if k + |pat| >= |s| then None
    else FindFrom(s, pat, k + 1)
  }

  /** `s.find(pat)`: the lowest index at which `pat` occurs (an empty
      pattern occurs at 0), or `None` where Python answers -1. */
  function Find(s: string, pat: string): (r: Option<nat>)
    ensures r.Some? ==> IsFirstOccurrence(s, pat, r.value)
    ensures r.None? ==> forall i :: !OccursAt(s, pat, i)
  {
    FindFrom(s, pat, 0)
  }

  /** `pat in s`. */
  predicate Contains(s: string, pat: string) {
    Find(s, pat).Some?
  }

  /** The first occurrence is unique: whatever index is first is `Find`'s. */
  lemma FirstOccurrenceIsFind(s: string, pat: string, i: int)
    requires IsFirstOccurrence(s, pat, i)
    ensures Contains(s, pat) && Find(s, pat) == Some(i)
  {
  }

  /** `s.split(sep, 1)`: one part when `sep` does not occur, otherwise the
      text before and after its first occurrence. Python raises ValueError
      for an empty separator, which callers never pass. */
  function Split1(s: string, sep: string): (parts: seq<string>)
    requires sep != ""
    ensures |parts| == 1 || |parts| == 2
    ensures |parts| == 1 <==> !Contains(s, sep)
    ensures |parts| == 1 ==> parts[0] == s
    ensures |parts| == 2 ==> s == parts[0] + sep + parts[1]
    ensures |parts| == 2 ==> IsFirstOccurrence(s, sep, |parts[0]|)
  {
    match Find(s, sep)
    case None => [s]
    case Some(i) =>
      assert s == s[..i] + sep + s[i + |sep|..] by {
        assert s[i..i + |sep|] == sep;
        assert s == s[..i] + s[i..i + |sep|] + s[i + |sep|..];
      }
      [s[..i], s[i + |sep|..]]
  }

  /** `s.replace(target, replacement, 1)`: the first occurrence of `target`,
      if any, is replaced by `replacement`; every later occurrence is kept. */
  function ReplaceFirst(s: string, target: string, replacement: string): (r: string)
    ensures (forall i :: !OccursAt(s, target, i)) ==> r == s
    ensures forall i :: IsFirstOccurrence(s, target, i) ==> r == s[..i] + replacement + s[i + |target|..]
  {
    match Find(s, target)
    case None => s
    case Some(i) =>
      assert forall j :: IsFirstOccurrence(s, target, j) ==> j == i by {
        forall j | IsFirstOccurrence(s, target, j) ensures j == i {
          FirstOccurrenceIsFind(s, target, j);
        }
      }
      s[..i] + replacement + s[i + |target|..]
  }

  /** `s.lstrip()`: drop the leading whitespace (`LStripMeaning`). */
  function LStrip(s: string): (r: string)
    ensures |r| <= |s|
  {
    if |s| > 0 && IsWhitespace(s[0]) then LStrip(s[1..]) else s
  }

  /** `LStrip` drops exactly the leading whitespace: what it keeps is a
      suffix that does not start with whitespace, and all it drops is
      whitespace. */
  lemma {:induction false} LStripMeaning(s: string)
    ensures var r := LStrip(s);
            && r == s[|s| - |r|..]
            && WhitespaceBetween(s, 0, |s| - |r|)
            && (r == [] || !IsWhitespace(r[0]))
  {
    if |s| > 0 && IsWhitespace(s[0]) {
      LStripMeaning(s[1..]);
    }
  }

  /** `s.rstrip()`: drop the trailing whitespace (`RStripMeaning`). */
  function RStrip(s: string): (r: string)
    ensures |r| <= |s|
  {
    if |s| > 0 && IsWhitespace(s[|s| - 1]) then RStrip(s[..|s| - 1]) else s
  }

  /** `RStrip` drops exactly the trailing whitespace: what it keeps is a
      prefix that does not end with whitespace, and all it drops is
      whitespace. */
  lemma {:induction false} RStripMeaning(s: string)
    ensures var r := RStrip(s);
            && r == s[..|r|]
            && WhitespaceBetween(s, |r|, |s|)
            && (r == [] || !IsWhitespace(r[|r| - 1]))
  {
    if |s| > 0 && IsWhitespace(s[|s| - 1]) {
      RStripMeaning(s[..|s| - 1]);
    }
  }

  /** `r` is `s` less the whitespace `s[..i]` before it and `s[i + |r|..]`
      after it, and `r` neither starts nor ends with whitespace. */
  predicate IsTrimOf(s: string, r: string, i: int) {
    && 0 <= i && i + |r| <= |s|
    && s[i..i + |r|] == r
    && WhitespaceBetween(s, 0, i)
    && WhitespaceBetween(s, i + |r|, |s|)
    && (r == [] || (!IsWhitespace(r[0]) && !IsWhitespace(r[|r| - 1])))
  }

  /** `s.strip()`: drop the whitespace at both ends (`StripMeaning`). */
  function Strip(s: string): (r: string)
    ensures |r| <= |s|
  {
    RStrip(LStrip(s))
  }

  /** `Strip(s)` is a trim of `s`. */
  lemma StripMeaning(s: string)
    ensures IsTrimOf(s, Strip(s), |s| - |LStrip(s)|)
  {
    var l := LStrip(s);
    var r := RStrip(l);
    LStripMeaning(s);
    RStripMeaning(l);
    var i := |s| - |l|;
    assert s[i..i + |r|] == r;
  }

  /** Stripping is determined by its meaning: any trim of `s` is `Strip(s)`. */
  lemma StripIsUnique(s: string, t: string, j: int)
    requires IsTrimOf(s, t, j)
    ensures t == Strip(s)
  {
    var r := Strip(s);
    var i := |s| - |LStrip(s)|;
    StripMeaning(s);
    if r != [] && t != [] {
      // both start at the first non-whitespace character of s ...
      assert s[i] == r[0] && s[j] == t[0];
      assert i == j;
      // ... and end after the last one
      assert s[i + |r| - 1] == r[|r| - 1] && s[j + |t| - 1] == t[|t| - 1];
      assert |r| == |t|;
    }
  }

  /** A stripped string neither starts nor ends with whitespace. */
  lemma StrippedHasNoOuterWhitespace(s: string)
    requires Strip(s) == s
    ensures s == [] || (!IsWhitespace(s[0]) && !IsWhitespace(s[|s| - 1]))
  {
    StripMeaning(s);
  }

  /** Stripping twice is stripping once. */
  lemma StripIdempotent(s: string)
    ensures Strip(Strip(s)) == Strip(s)
  {
    var r := Strip(s);
    StripMeaning(s);
    assert IsTrimOf(r, r, 0);
    StripIsUnique(r, r, 0);
  }

  /** Whitespace padding on either side does not change the stripped text. */
  lemma StripIgnoresPadding(w1: string, s: string, w2: string)
    requires WhitespaceBetween(w1, 0, |w1|) && WhitespaceBetween(w2, 0, |w2|)
    ensures Strip(w1 + s + w2) == Strip(s)
  {
    var t := w1 + s + w2;
    var r := Strip(s);
    var i := |s| - |LStrip(s)|;
    StripMeaning(s);
    var j := |w1| + i;
    assert t[j..j + |r|] == s[i..i + |r|];
    assert IsTrimOf(t, r, j);
    StripIsUnique(t, r, j);
  }

  /** `sep.join(parts)`. */
  function Join(sep: string, parts: seq<string>): (r: string)
    ensures |parts| == 0 ==> r == ""
    ensures |parts| == 1 ==> r == parts[0]
  {
    if |parts| == 0 then ""
    else if |parts| == 1 then parts[0]
    else parts[0] + sep + Join(sep, parts[1..])
  }

  /** Where `parts[k]` starts in `Join(sep, parts)`. */
  function JoinOffset(sep: string, parts: seq<string>, k: nat): nat
    requires k <= |parts|
  {
    if k == 0 then 0 else |parts[0]| + |sep| + JoinOffset(sep, parts[1..], k - 1)
  }

  /** Joining keeps every part, in order: `parts[k]` stands at its offset,
      and a separator follows every part but the last. */
  lemma {:induction false} JoinPlacesParts(sep: string, parts: seq<string>, k: nat)
    requires k < |parts|
    ensures var o := JoinOffset(sep, parts, k);
            var r := Join(sep, parts);
            && o + |parts[k]| <= |r|
            && r[o..o + |parts[k]|] == parts[k]
            && (k + 1 < |parts| ==> o + |parts[k]| + |sep| <= |r| && r[o + |parts[k]|..o + |parts[k]| + |sep|] == sep)
            && (k + 1 == |parts| ==> o + |parts[k]| == |r|)
  {
    if k == 0 {
      if |parts| > 1 {
        assert Join(sep, parts) == parts[0] + sep + Join(sep, parts[1..]);
      }
    } else {
      JoinPlacesParts(sep, parts[1..], k - 1);
      var rest := Join(sep, parts[1..]);
      var d := |parts[0]| + |sep|;
      assert Join(sep, parts) == parts[0] + sep + rest;
      assert Join(sep, parts)[d..] == rest;
    }
  }

  /** Splitting at a separator and joining with it gives back the text. */
  lemma Split1Join(s: string, sep: string)
    requires sep != ""
    ensures Join(sep, Split1(s, sep)) == s
  {
    var parts := Split1(s, sep);
    if |parts| == 2 {
      assert parts[1..] == [parts[1]];
      assert Join(sep, parts) == parts[0] + sep + Join(sep, parts[1..]);
    }
  }
}
