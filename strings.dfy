/** Text primitives shared by the Python and Java parts of the model:
    whitespace classes, stripping, substring search, replacement, joining
    and splitting. A string is a `seq<char>` of code points. */
module Strings {

  /** Characters Python's `str.isspace` accepts (and so `str.strip` removes). */
  predicate IsPyWhitespace(c: char) {
    c == ' ' || '\t' <= c <= '\r' || '\U{1c}' <= c <= '\U{1f}'
    || c == '\U{85}' || c == '\U{a0}' || c == '\U{1680}'
    || '\U{2000}' <= c <= '\U{200a}' || c == '\U{2028}' || c == '\U{2029}'
    || c == '\U{202f}' || c == '\U{205f}' || c == '\U{3000}'
  }

  /** Characters Java's `String.trim` removes: every code point up to U+0020. */
  predicate IsJavaTrimmable(c: char) {
    c <= ' '
  }

  /** Java's `Character.isWhitespace`, the class behind `String.isBlank`
      (the no-break spaces U+00A0, U+2007 and U+202F are not in it). */
  predicate IsJavaWhitespace(c: char) {
    c == ' ' || '\t' <= c <= '\r' || '\U{1c}' <= c <= '\U{1f}'
    || c == '\U{1680}' || '\U{2000}' <= c <= '\U{2006}' || '\U{2008}' <= c <= '\U{200a}'
    || c == '\U{2028}' || c == '\U{2029}' || c == '\U{205f}' || c == '\U{3000}'
  }

  /** Drops the leading characters `ws` accepts. */
  function StripStart(s: string, ws: char -> bool): (r: string)
    ensures |r| <= |s|
    decreases |s|
  {
    if s != [] && ws(s[0]) then StripStart(s[1..], ws) else s
  }

  /** Drops the trailing characters `ws` accepts. */
  function StripEnd(s: string, ws: char -> bool): (r: string)
    ensures |r| <= |s|
    decreases |s|
  {
    if s != [] && ws(s[|s| - 1]) then StripEnd(s[..|s| - 1], ws) else s
  }

  /** StripStart keeps a suffix that does not start with a stripped
      character, and every character it dropped is one. */
  lemma {:induction false} StripStartSpec(s: string, ws: char -> bool)
    ensures var r := StripStart(s, ws);
      && r == s[|s| - |r|..]
      && (r == [] || !ws(r[0]))
      && (forall i :: 0 <= i < |s| - |r| ==> ws(s[i]))
    decreases |s|
  {
    if s != [] && ws(s[0]) {
      StripStartSpec(s[1..], ws);
    }
  }

  /** StripEnd keeps a prefix that does not end with a stripped character,
      and every character it dropped is one. */
  lemma {:induction false} StripEndSpec(s: string, ws: char -> bool)
    ensures var r := StripEnd(s, ws);
      && r == s[..|r|]
      && (r == [] || !ws(r[|r| - 1]))
      && (forall i :: |r| <= i < |s| ==> ws(s[i]))
    decreases |s|
  {
    if s != [] && ws(s[|s| - 1]) {
      StripEndSpec(s[..|s| - 1], ws);
    }
  }

  /** Both ends stripped: `str.strip()` with `IsPyWhitespace`, `String.trim()`
      with `IsJavaTrimmable`. */
  function Strip(s: string, ws: char -> bool): (r: string)
  {
    StripEnd(StripStart(s, ws), ws)
  }

  /** Where the stripped text starts in the input. */
  function StripOffset(s: string, ws: char -> bool): nat {
    |s| - |StripStart(s, ws)|
  }

  /** The result of Strip is the slice of the input starting at StripOffset;
      it neither starts nor ends with a stripped character, and only stripped
      characters were dropped on either side. */
  lemma StripIsSlice(s: string, ws: char -> bool)
    ensures var r, i := Strip(s, ws), StripOffset(s, ws);
      && i + |r| <= |s| && r == s[i..i + |r|]
      && (forall k :: 0 <= k < i ==> ws(s[k]))
      && (forall k :: i + |r| <= k < |s| ==> ws(s[k]))
    ensures var r := Strip(s, ws); r == [] || (!ws(r[0]) && !ws(r[|r| - 1]))
  {
    var a := StripStart(s, ws);
    var r := StripEnd(a, ws);
    var i := |s| - |a|;
    assert a == s[i..] && (a == [] || !ws(a[0])) && forall k :: 0 <= k < i ==> ws(s[k]) by {
      StripStartSpec(s, ws);
    }
    assert r == a[..|r|] && (r == [] || !ws(r[|r| - 1])) && forall k :: |r| <= k < |a| ==> ws(a[k]) by {
      StripEndSpec(a, ws);
    }
    assert r == s[i..i + |r|];
    forall k | i + |r| <= k < |s| ensures ws(s[k]) {
      assert s[k] == a[k - i];
    }
    if r != [] {
      assert r[0] == a[0];
    }
  }

  /** Stripping leaves nothing exactly when every character is stripped. */
  lemma StripEmptyIff(s: string, ws: char -> bool)
    ensures Strip(s, ws) == [] <==> forall k :: 0 <= k < |s| ==> ws(s[k])
  {
    StripIsSlice(s, ws);
  }

  /** Stripping twice strips nothing more. */
  lemma StripIdempotent(s: string, ws: char -> bool)
    ensures Strip(Strip(s, ws), ws) == Strip(s, ws)
  {
    var r := Strip(s, ws);
    StripIsSlice(s, ws);
    if r != [] {
      assert StripStart(r, ws) == r;
      assert StripEnd(r, ws) == r;
    }
  }

  /** Python's `bool(s.strip())`: some character is not whitespace. */
  predicate IsPyBlank(s: string) {
    forall k :: 0 <= k < |s| ==> IsPyWhitespace(s[k])
  }

  /** Java's `String.isBlank()`. */
  predicate IsJavaBlank(s: string) {
    forall k :: 0 <= k < |s| ==> IsJavaWhitespace(s[k])
  }

  /** Python's `s.strip()`. */
  function PyStrip(s: string): (r: string)
    ensures |r| <= |s|
  {
    Strip(s, IsPyWhitespace)
  }

  /** `s.strip()` is empty exactly when `s` is blank. */
  lemma PyStripEmptyIff(s: string)
    ensures PyStrip(s) == [] <==> IsPyBlank(s)
  {
    StripEmptyIff(s, IsPyWhitespace);
  }

  function JavaTrim(s: string): string {
    Strip(s, IsJavaTrimmable)
  }

  predicate OccursAt(s: string, pat: string, i: nat) {
    i + |pat| <= |s| && s[i..i + |pat|] == pat
  }

  /** Python's `s.find(pat, from)`: the first occurrence at or after `from`, or -1. */
  function FindFrom(s: string, pat: string, from: nat): (r: int)
    ensures r == -1 || (from <= r && OccursAt(s, pat, r))
    ensures forall k :: from <= k && (r == -1 || k < r) ==> !OccursAt(s, pat, k)
    decreases |s| - from
  {
    if from + |pat| > |s| then -1
    else if s[from..from + |pat|] == pat then from
    else FindFrom(s, pat, from + 1)
  }

  /** Python's `s.find(pat)`. */
  function Find(s: string, pat: string): (r: int)
    ensures r == -1 || (r >= 0 && OccursAt(s, pat, r))
    ensures forall k: nat :: (r == -1 || k < r) ==> !OccursAt(s, pat, k)
  {
    FindFrom(s, pat, 0)
  }

  /** Python's `pat in s`. */
  predicate Contains(s: string, pat: string) {
    Find(s, pat) != -1
  }

  /** Java's `s.replace(pat, rep)` for a non-empty `pat`: every occurrence,
      scanned from the left and not overlapping, replaced by `rep`. */
  function ReplaceAll(s: string, pat: string, rep: string): (r: string)
    requires pat != []
    decreases |s|
  {
    if |s| < |pat| then s
    else if s[..|pat|] == pat then rep + ReplaceAll(s[|pat|..], pat, rep)
    else [s[0]] + ReplaceAll(s[1..], pat, rep)
  }

  /** Text without the pattern comes back unchanged. */
  lemma {:induction false} ReplaceAbsent(s: string, pat: string, rep: string)
    requires pat != [] && !Contains(s, pat)
    ensures ReplaceAll(s, pat, rep) == s
    decreases |s|
  {
    if |s| >= |pat| {
      assert !OccursAt(s, pat, 0);
      assert s[..|pat|] != pat;
      forall k: nat ensures !OccursAt(s[1..], pat, k) {
        assert !OccursAt(s, pat, k + 1);
        if k + |pat| <= |s| - 1 {
          assert s[1..][k..k + |pat|] == s[k + 1..k + 1 + |pat|];
        }
      }
      ReplaceAbsent(s[1..], pat, rep);
    }
  }

  /** Python's `sep.join(parts)`. */
  function Join(parts: seq<string>, sep: string): string
    decreases |parts|
  {
    if parts == [] then []
    else if |parts| == 1 then parts[0]
    else parts[0] + sep + Join(parts[1..], sep)
  }

  /** Python's `s.split(sep)` for a non-empty separator: the pieces between
      the occurrences found scanning from the left. */
  function Split(s: string, sep: string): (r: seq<string>)
    requires sep != []
    ensures |r| >= 1
    decreases |s|
  {
    var i := Find(s, sep);
    if i == -1 then [s] else [s[..i]] + Split(s[i + |sep|..], sep)
  }

  /** Splitting and joining back with the same separator is the identity. */
  lemma {:induction false} JoinSplit(s: string, sep: string)
    requires sep != []
    ensures Join(Split(s, sep), sep) == s
    decreases |s|
  {
    var i := Find(s, sep);
    if i != -1 {
      var rest := s[i + |sep|..];
      var parts := Split(s, sep);
      assert parts == [s[..i]] + Split(rest, sep);
      assert parts[1..] == Split(rest, sep);
      assert Join(parts, sep) == s[..i] + sep + Join(Split(rest, sep), sep);
      JoinSplit(rest, sep);
      assert s == s[..i] + sep + rest;
    }
  }

  /** No piece of a split contains the separator. */
  lemma {:induction false} SplitPiecesLackSeparator(s: string, sep: string)
    requires sep != []
    ensures forall k :: 0 <= k < |Split(s, sep)| ==> !Contains(Split(s, sep)[k], sep)
    decreases |s|
  {
    var i := Find(s, sep);
    if i != -1 {
      var head := s[..i];
      forall k: nat ensures !OccursAt(head, sep, k) {
        if OccursAt(head, sep, k) {
          assert head[k..k + |sep|] == s[k..k + |sep|];
          assert OccursAt(s, sep, k);
        }
      }
      SplitPiecesLackSeparator(s[i + |sep|..], sep);
    }
  }

  /** Joining pieces that lack a one-character separator and splitting the
      result again gives the pieces back. */
  lemma {:induction false} SplitJoin(parts: seq<string>, sep: string)
    requires |sep| == 1 && parts != []
    requires forall k :: 0 <= k < |parts| ==> sep[0] !in parts[k]
    ensures Split(Join(parts, sep), sep) == parts
    decreases |parts|
  {
    var s := Join(parts, sep);
    var p := parts[0];
    if |parts| == 1 {
      assert s == p;
      forall k: nat | k < |s| ensures !OccursAt(s, sep, k) {
        assert s[k..k + 1][0] == s[k];
      }
    } else {
      var rest := Join(parts[1..], sep);
      assert s == p + sep + rest;
      assert OccursAt(s, sep, |p|) by {
        assert s[|p|..|p| + 1] == sep;
      }
      forall k: nat | k < |p| ensures !OccursAt(s, sep, k) {
        assert s[k] == p[k];
      }
      assert Find(s, sep) == |p|;
      assert s[..|p|] == p && s[|p| + 1..] == rest;
      SplitJoin(parts[1..], sep);
    }
  }

  /** A character the text lacks is not found in it. */
  lemma FindAbsent(s: string, c: char)
    requires c !in s
    ensures Find(s, [c]) == -1
  {
    forall k: nat | k < |s| ensures !OccursAt(s, [c], k) {
      assert s[k..k + 1][0] == s[k];
    }
  }

  /** A text with no stripped character at either end strips to itself. */
  lemma StripUnchanged(s: string, ws: char -> bool)
    requires s == [] || (!ws(s[0]) && !ws(s[|s| - 1]))
    ensures Strip(s, ws) == s
  {
  }
}
