/** The assistant's chunker (utilities/assistant_model.py, `_chunk_text`):
    the text is split into paragraphs at blank lines (`re.split(r"\n\s*\n")`),
    each stripped and the empty ones dropped; the paragraphs are then packed
    greedily into chunks joined by a blank line. */
module Chunker {
  import opened Seqs
  import opened Strings
  import opened Wrappers

  // ----- re.split(r"\n\s*\n", text) -----

  /** End of the run of whitespace (`\s`) that starts at `k`. */
  function WhitespaceRunEnd(s: string, k: nat): (j: nat)
    requires k <= |s|
    ensures k <= j <= |s|
    ensures forall p :: k <= p < j ==> IsPyWhitespace(s[p])
    ensures j < |s| ==> !IsPyWhitespace(s[j])
    decreases |s| - k
  {
    if k < |s| && IsPyWhitespace(s[k]) then WhitespaceRunEnd(s, k + 1) else k
  }

  /** The last newline in `s[a..b]`, if any. */
  function LastNewline(s: string, a: nat, b: nat): (r: Option<nat>)
    requires a <= b <= |s|
    ensures r.Some? ==> a <= r.value < b && s[r.value] == '\n'
    ensures r.Some? ==> forall p :: r.value < p < b ==> s[p] != '\n'
    ensures r.None? ==> forall p :: a <= p < b ==> s[p] != '\n'
    decreases b - a
  {
    if a == b then None
    else if s[b - 1] == '\n' then Some(b - 1)
    else LastNewline(s, a, b - 1)
  }

  /** Where a match of `\n\s*\n` that starts at `i` ends: the greedy `\s*`
      takes the whole whitespace run and backs off to its last newline. */
  function SeparatorEnd(s: string, i: nat): (r: Option<nat>)
    requires i < |s|
    ensures r.Some? ==> i + 2 <= r.value <= |s| && s[r.value - 1] == '\n'
    ensures r.Some? <==> s[i] == '\n' && LastNewline(s, i + 1, WhitespaceRunEnd(s, i + 1)).Some?
    ensures r.Some? ==> forall p :: i < p < r.value ==> IsPyWhitespace(s[p])
    ensures r.Some? ==> forall p :: r.value <= p < WhitespaceRunEnd(s, i + 1) ==> s[p] != '\n'
  {
    if s[i] != '\n' then None
    else match LastNewline(s, i + 1, WhitespaceRunEnd(s, i + 1))
      case None => None
      case Some(n) => Some(n + 1)
  }

  /** Two newlines in a row always start a separator. */
  lemma BlankLineIsSeparator(s: string, p: nat)
    requires p + 1 < |s| && s[p] == '\n' && s[p + 1] == '\n'
    ensures SeparatorEnd(s, p).Some?
  {
    var j := WhitespaceRunEnd(s, p + 1);
    assert p + 1 < j;
  }

  /** The scan of `re.split`: the segment being built starts at `segStart`;
      `i` is the next position where a match is tried. */
  function SplitFrom(s: string, segStart: nat, i: nat): (r: seq<string>)
    requires segStart <= i <= |s|
    ensures |r| >= 1
    decreases |s| - i
  {
    if i == |s| then [s[segStart..]]
    else match SeparatorEnd(s, i)
      case Some(e) => [s[segStart..i]] + SplitFrom(s, e, e)
      case None => SplitFrom(s, segStart, i + 1)
  }

  function RegexSplit(s: string): seq<string> {
    SplitFrom(s, 0, 0)
  }

  /** No two consecutive newlines. */
  predicate NoBlankLine(x: string) {
    forall k :: 0 <= k < |x| - 1 ==> !(x[k] == '\n' && x[k + 1] == '\n')
  }

  lemma {:induction false} SplitFromNoBlankLine(s: string, segStart: nat, i: nat)
    requires segStart <= i <= |s|
    requires forall p :: segStart <= p < i ==> SeparatorEnd(s, p).None?
    ensures forall k :: 0 <= k < |SplitFrom(s, segStart, i)| ==> NoBlankLine(SplitFrom(s, segStart, i)[k])
    decreases |s| - i
  {
    if i == |s| {
      var seg := s[segStart..];
      forall k | 0 <= k < |seg| - 1 ensures !(seg[k] == '\n' && seg[k + 1] == '\n') {
        if seg[k] == '\n' && seg[k + 1] == '\n' {
          BlankLineIsSeparator(s, segStart + k);
        }
      }
    } else {
      match SeparatorEnd(s, i)
      case Some(e) =>
        var seg := s[segStart..i];
        forall k | 0 <= k < |seg| - 1 ensures !(seg[k] == '\n' && seg[k + 1] == '\n') {
          if seg[k] == '\n' && seg[k + 1] == '\n' {
            BlankLineIsSeparator(s, segStart + k);
          }
        }
        SplitFromNoBlankLine(s, e, e);
      case None =>
        SplitFromNoBlankLine(s, segStart, i + 1);
    }
  }

  // ----- paragraphs -----

  /** `[seg.strip() for seg in segments if seg.strip()]`. */
  function StrippedNonEmpty(segments: seq<string>): (r: seq<string>)
    decreases |segments|
  {
    if segments == [] then []
    else if PyStrip(segments[0]) == [] then StrippedNonEmpty(segments[1..])
    else [PyStrip(segments[0])] + StrippedNonEmpty(segments[1..])
  }

  function Paragraphs(text: string): seq<string> {
    StrippedNonEmpty(RegexSplit(text))
  }

  /** A paragraph as `_chunk_text` sees it: not empty, no surrounding
      whitespace, and no blank line inside. */
  predicate IsParagraph(p: string) {
    p != [] && !IsPyWhitespace(p[0]) && !IsPyWhitespace(p[|p| - 1]) && NoBlankLine(p)
  }

  lemma {:induction false} StrippedNonEmptyAreParagraphs(segments: seq<string>)
    requires forall k :: 0 <= k < |segments| ==> NoBlankLine(segments[k])
    ensures forall k :: 0 <= k < |StrippedNonEmpty(segments)| ==> IsParagraph(StrippedNonEmpty(segments)[k])
    decreases |segments|
  {
    if segments != [] {
      StrippedNonEmptyAreParagraphs(segments[1..]);
      if PyStrip(segments[0]) != [] {
        StrippedIsParagraph(segments[0]);
      }
    }
  }

  lemma StrippedIsParagraph(seg: string)
    requires NoBlankLine(seg) && PyStrip(seg) != []
    ensures IsParagraph(PyStrip(seg))
  {
    var p := PyStrip(seg);
    StripIsSlice(seg, IsPyWhitespace);
    var i := StripOffset(seg, IsPyWhitespace);
    forall k | 0 <= k < |p| - 1 ensures !(p[k] == '\n' && p[k + 1] == '\n') {
      assert p[k] == seg[i + k] && p[k + 1] == seg[i + k + 1];
    }
  }

  /** Every paragraph is non-empty, stripped and free of blank lines. */
  lemma ParagraphsAreParagraphs(text: string)
    ensures forall k :: 0 <= k < |Paragraphs(text)| ==> IsParagraph(Paragraphs(text)[k])
  {
    SplitFromNoBlankLine(text, 0, 0);
    StrippedNonEmptyAreParagraphs(RegexSplit(text));
  }

  // ----- greedy packing -----

  function SumLen(g: seq<string>): nat
    decreases |g|
  {
    if g == [] then 0 else |g[0]| + SumLen(g[1..])
  }

  lemma {:induction false} SumLenAppend(a: seq<string>, b: seq<string>)
    ensures SumLen(a + b) == SumLen(a) + SumLen(b)
    decreases |a|
  {
    if a == [] {
      assert a + b == b;
    } else {
      assert (a + b)[1..] == a[1..] + b;
      SumLenAppend(a[1..], b);
    }
  }

  lemma SumLenPrefixMonotone(ps: seq<string>, a: nat, b: nat)
    requires a <= b <= |ps|
    ensures SumLen(ps[..a]) <= SumLen(ps[..b])
  {
    assert ps[..b] == ps[..a] + ps[a..b];
    SumLenAppend(ps[..a], ps[a..b]);
  }

  /** A first group of `m` paragraphs that the greedy rule accepts: it holds
      one paragraph or fits in `maxChars`, and it is closed only at the end
      or when the next paragraph would not fit. */
  predicate GreedyFirstGroup(ps: seq<string>, maxChars: int, m: nat) {
    1 <= m <= |ps|
    && (m == 1 || SumLen(ps[..m]) <= maxChars)
    && (m == |ps| || SumLen(ps[..m + 1]) > maxChars)
  }

  /** Grows the first group one paragraph at a time while the next one fits. */
  function Grow(ps: seq<string>, maxChars: int, k: nat): (m: nat)
    requires 1 <= k <= |ps| && (k == 1 || SumLen(ps[..k]) <= maxChars)
    ensures k <= m && GreedyFirstGroup(ps, maxChars, m)
    decreases |ps| - k
  {
    if k < |ps| && SumLen(ps[..k + 1]) <= maxChars then Grow(ps, maxChars, k + 1) else k
  }

  function FirstGroupSize(ps: seq<string>, maxChars: int): (m: nat)
    requires ps != []
    ensures GreedyFirstGroup(ps, maxChars, m)
  {
    Grow(ps, maxChars, 1)
  }

  /** Only one size of first group satisfies the greedy rule. */
  lemma FirstGroupUnique(ps: seq<string>, maxChars: int, m: nat)
    requires GreedyFirstGroup(ps, maxChars, m)
    ensures m == FirstGroupSize(ps, maxChars)
  {
    var n := FirstGroupSize(ps, maxChars);
    if m < n {
      SumLenPrefixMonotone(ps, m + 1, n);
    } else if n < m {
      SumLenPrefixMonotone(ps, n + 1, m);
    }
  }

  /** The groups of paragraphs `_chunk_text` packs into chunks. */
  function Pack(ps: seq<string>, maxChars: int): seq<seq<string>>
    decreases |ps|
  {
    if ps == [] then []
    else var n := FirstGroupSize(ps, maxChars); [ps[..n]] + Pack(ps[n..], maxChars)
  }

  /** `groups` is a greedy packing of `ps`: the groups, in order, are exactly
      the paragraphs; every group is non-empty; a group of two or more
      paragraphs fits in `maxChars`; and every group was closed because the
      first paragraph of the next one did not fit. */
  ghost predicate GreedyPacking(ps: seq<string>, groups: seq<seq<string>>, maxChars: int) {
    && Flatten(groups) == ps
    && (forall j :: 0 <= j < |groups| ==> groups[j] != [] && (|groups[j]| >= 2 ==> SumLen(groups[j]) <= maxChars))
    && (forall j :: 0 <= j < |groups| - 1 ==> SumLen(groups[j]) + |groups[j + 1][0]| > maxChars)
  }

  lemma {:induction false} PackIsGreedy(ps: seq<string>, maxChars: int)
    ensures GreedyPacking(ps, Pack(ps, maxChars), maxChars)
    decreases |ps|
  {
    if ps != [] {
      var n := FirstGroupSize(ps, maxChars);
      var rest := Pack(ps[n..], maxChars);
      PackIsGreedy(ps[n..], maxChars);
      var groups := Pack(ps, maxChars);
      assert groups == [ps[..n]] + rest;
      assert groups[1..] == rest;
      assert ps == ps[..n] + ps[n..];
      if rest != [] {
        assert rest[0][0] == ps[n] by {
          assert Flatten(rest) == rest[0] + Flatten(rest[1..]);
        }
        assert ps[..n + 1] == ps[..n] + [ps[n]];
        SumLenAppend(ps[..n], [ps[n]]);
      }
      forall j | 0 <= j < |groups| - 1 ensures SumLen(groups[j]) + |groups[j + 1][0]| > maxChars {
        if j > 0 { assert groups[j] == rest[j - 1] && groups[j + 1] == rest[j]; }
      }
      forall j | 0 < j < |groups| ensures groups[j] != [] && (|groups[j]| >= 2 ==> SumLen(groups[j]) <= maxChars) {
        assert groups[j] == rest[j - 1];
      }
    }
  }

  /** Any greedy packing is the one Pack computes. */
  lemma {:induction false} GreedyIsPack(ps: seq<string>, groups: seq<seq<string>>, maxChars: int)
    requires GreedyPacking(ps, groups, maxChars)
    ensures groups == Pack(ps, maxChars)
    decreases |groups|
  {
    if groups != [] {
      var g := groups[0];
      var m := |g|;
      var tail := groups[1..];
      assert ps == g + Flatten(tail);
      assert ps[..m] == g;
      if m < |ps| {
        assert tail != [];
        assert Flatten(tail) == tail[0] + Flatten(tail[1..]);
        assert ps[m] == tail[0][0];
        assert ps[..m + 1] == g + [ps[m]];
        SumLenAppend(g, [ps[m]]);
      }
      FirstGroupUnique(ps, maxChars, m);
      assert ps[m..] == Flatten(tail);
      assert GreedyPacking(ps[m..], tail, maxChars) by {
        forall j | 0 <= j < |tail| ensures tail[j] != [] && (|tail[j]| >= 2 ==> SumLen(tail[j]) <= maxChars) {
          assert tail[j] == groups[j + 1];
        }
        forall j | 0 <= j < |tail| - 1 ensures SumLen(tail[j]) + |tail[j + 1][0]| > maxChars {
          assert tail[j] == groups[j + 1] && tail[j + 1] == groups[j + 2];
        }
      }
      GreedyIsPack(ps[m..], tail, maxChars);
    }
  }

  // ----- chunks -----

  const BlankLine := "\n\n"

  function JoinEach(groups: seq<seq<string>>): (r: seq<string>)
    ensures |r| == |groups|
    ensures forall j :: 0 <= j < |groups| ==> r[j] == Join(groups[j], BlankLine)
  {
    seq(|groups|, j requires 0 <= j < |groups| => Join(groups[j], BlankLine))
  }

  /** The chunks `_chunk_text(text, maxChars)` returns. */
  function Chunks(text: string, maxChars: int): seq<string> {
    JoinEach(Pack(Paragraphs(text), maxChars))
  }

  /** Joining paragraphs with a blank line and splitting on "\n\n" gives
      the paragraphs back. */
  lemma {:induction false} SplitJoinParagraphs(g: seq<string>)
    requires g != [] && forall k :: 0 <= k < |g| ==> IsParagraph(g[k])
    ensures Split(Join(g, BlankLine), BlankLine) == g
    decreases |g|
  {
    var s := Join(g, BlankLine);
    var p := g[0];
    assert IsParagraph(p);
    assert IsPyWhitespace('\n');
    if |g| == 1 {
      assert s == p;
      forall k: nat ensures !OccursAt(s, BlankLine, k) {
        if k + 1 < |p| {
          assert !(p[k] == '\n' && p[k + 1] == '\n');
        }
      }
    } else {
      var rest := g[1..];
      var j := Join(rest, BlankLine);
      assert s == p + BlankLine + j;
      forall k: nat | k < |p| ensures !OccursAt(s, BlankLine, k) {
        if k + 1 < |p| {
          assert s[k] == p[k] && s[k + 1] == p[k + 1];
          assert !(s[k] == '\n' && s[k + 1] == '\n');
        } else {
          assert s[k] == p[|p| - 1];
        }
      }
      assert OccursAt(s, BlankLine, |p|) by {
        assert s[|p|..|p| + 2] == BlankLine;
      }
      var i := Find(s, BlankLine);
      assert i == |p|;
      assert s[..i] == p;
      assert s[i + |BlankLine|..] == j;
      SplitJoinParagraphs(rest);
    }
  }

  /** Each chunk split back on "\n\n". */
  function SplitEach(chunks: seq<string>): (r: seq<seq<string>>)
    ensures |r| == |chunks|
  {
    seq(|chunks|, j requires 0 <= j < |chunks| => Split(chunks[j], BlankLine))
  }

  /** Splitting every chunk back on "\n\n" gives exactly the stripped,
      non-empty paragraphs of the text, in their original order. */
  lemma ChunksSplitBack(text: string, maxChars: int)
    ensures Flatten(SplitEach(Chunks(text, maxChars))) == Paragraphs(text)
  {
    var ps := Paragraphs(text);
    var groups := Pack(ps, maxChars);
    ParagraphsAreParagraphs(text);
    PackIsGreedy(ps, maxChars);
    forall j | 0 <= j < |groups| ensures Split(Join(groups[j], BlankLine), BlankLine) == groups[j] {
      forall k | 0 <= k < |groups[j]| ensures IsParagraph(groups[j][k]) {
        FlattenContains(groups, j, k);
      }
      SplitJoinParagraphs(groups[j]);
    }
    assert SplitEach(Chunks(text, maxChars)) == groups;
  }

  /** A chunk made of two or more paragraphs fits in `maxChars`. */
  lemma ChunksFit(text: string, maxChars: int, j: nat)
    requires j < |Pack(Paragraphs(text), maxChars)|
    ensures var g := Pack(Paragraphs(text), maxChars)[j];
      g != [] && Chunks(text, maxChars)[j] == Join(g, BlankLine) && (|g| >= 2 ==> SumLen(g) <= maxChars)
  {
    PackIsGreedy(Paragraphs(text), maxChars);
  }

  /** `_chunk_text`: the greedy loop over the paragraphs, with a buffer of
      paragraphs and a running length. */
  method ChunkText(text: string, maxChars: int) returns (chunks: seq<string>)
    ensures chunks == Chunks(text, maxChars)
    ensures Paragraphs(text) == [] ==> chunks == []
  {
    var paragraphs := Paragraphs(text);
    chunks := PackParagraphs(paragraphs, maxChars);
  }

  /** The buffer loop of `_chunk_text`: paragraphs are appended to the buffer
      while they fit, and the buffer is flushed as one chunk otherwise. */
  method PackParagraphs(paragraphs: seq<string>, maxChars: int) returns (chunks: seq<string>)
    ensures chunks == JoinEach(Pack(paragraphs, maxChars))
    ensures paragraphs == [] ==> chunks == []
  {
    if |paragraphs| == 0 {
      return [];
    }
    chunks := [];
    var buffer: seq<string> := [];
    var current := 0;
    ghost var done: seq<seq<string>> := [];
    for i := 0 to |paragraphs|
      invariant chunks == JoinEach(done)
      invariant current == SumLen(buffer)
      invariant i == 0 ==> buffer == [] && done == []
      invariant i > 0 ==> buffer != [] && done + [buffer] == Pack(paragraphs[..i], maxChars)
    {
      var paragraph := paragraphs[i];
      ghost var before := buffer;
      if current + |paragraph| > maxChars && buffer != [] {
        JoinEachSnoc(done, buffer);
        chunks := chunks + [Join(buffer, BlankLine)];
        PackClose(paragraphs, i, done + [buffer], maxChars);
        done := done + [buffer];
        buffer := [paragraph];
        current := |paragraph|;
      } else {
        SumLenAppend(buffer, [paragraph]);
        if i == 0 {
          PackStart(paragraphs, maxChars);
          assert buffer + [paragraph] == [paragraph];
        } else {
          PackGrow(paragraphs, i, done, before, maxChars);
        }
        buffer := buffer + [paragraph];
        current := current + |paragraph|;
      }
    }
    JoinEachSnoc(done, buffer);
    chunks := chunks + [Join(buffer, BlankLine)];
    assert paragraphs[..|paragraphs|] == paragraphs;
  }

  lemma JoinEachSnoc(groups: seq<seq<string>>, g: seq<string>)
    ensures JoinEach(groups + [g]) == JoinEach(groups) + [Join(g, BlankLine)]
  {
  }

  lemma PackStart(ps: seq<string>, maxChars: int)
    requires ps != []
    ensures [[ps[0]]] == Pack(ps[..1], maxChars)
  {
    GreedyStart(ps, maxChars);
    GreedyIsPack(ps[..1], [] + [[ps[0]]], maxChars);
    assert [] + [[ps[0]]] == [[ps[0]]];
  }

  lemma PackClose(ps: seq<string>, i: nat, groups: seq<seq<string>>, maxChars: int)
    requires 0 < i < |ps| && groups != [] && groups == Pack(ps[..i], maxChars)
    requires SumLen(groups[|groups| - 1]) + |ps[i]| > maxChars
    ensures groups + [[ps[i]]] == Pack(ps[..i + 1], maxChars)
  {
    PackIsGreedy(ps[..i], maxChars);
    GreedyClose(ps, i, groups, maxChars);
    GreedyIsPack(ps[..i + 1], groups + [[ps[i]]], maxChars);
  }

  lemma PackGrow(ps: seq<string>, i: nat, front: seq<seq<string>>, last: seq<string>, maxChars: int)
    requires 0 < i < |ps| && last != [] && front + [last] == Pack(ps[..i], maxChars)
    requires SumLen(last) + |ps[i]| <= maxChars
    ensures front + [last + [ps[i]]] == Pack(ps[..i + 1], maxChars)
  {
    PackIsGreedy(ps[..i], maxChars);
    GreedyGrow(ps, i, front, last, maxChars);
    GreedyIsPack(ps[..i + 1], front + [last + [ps[i]]], maxChars);
  }

  lemma GreedyStart(ps: seq<string>, maxChars: int)
    requires ps != []
    ensures GreedyPacking(ps[..1], [] + [[ps[0]]], maxChars)
  {
    assert [] + [[ps[0]]] == [[ps[0]]];
    assert Flatten([[ps[0]]]) == [ps[0]] + Flatten([]);
    assert ps[..1] == [ps[0]];
  }

  /** Closing the buffer and opening a new group with the next paragraph
      keeps the groups a greedy packing of the paragraphs seen so far. */
  lemma GreedyClose(ps: seq<string>, i: nat, groups: seq<seq<string>>, maxChars: int)
    requires 0 < i < |ps| && groups != []
    requires GreedyPacking(ps[..i], groups, maxChars)
    requires SumLen(groups[|groups| - 1]) + |ps[i]| > maxChars
    ensures GreedyPacking(ps[..i + 1], groups + [[ps[i]]], maxChars)
  {
    var now := groups + [[ps[i]]];
    assert ps[..i + 1] == ps[..i] + [ps[i]];
    FlattenAppend(groups, [[ps[i]]]);
    assert Flatten([[ps[i]]]) == [ps[i]] + Flatten([]);
    forall j | 0 <= j < |now| ensures now[j] != [] && (|now[j]| >= 2 ==> SumLen(now[j]) <= maxChars) {
      if j < |groups| { assert now[j] == groups[j]; }
    }
    forall j | 0 <= j < |now| - 1 ensures SumLen(now[j]) + |now[j + 1][0]| > maxChars {
      if j < |groups| - 1 { assert now[j] == groups[j] && now[j + 1] == groups[j + 1]; }
    }
  }

  /** Adding the next paragraph to the open buffer, when it fits, keeps the
      groups a greedy packing of the paragraphs seen so far. */
  lemma GreedyGrow(ps: seq<string>, i: nat, front: seq<seq<string>>, last: seq<string>, maxChars: int)
    requires 0 < i < |ps| && last != []
    requires GreedyPacking(ps[..i], front + [last], maxChars)
    requires SumLen(last) + |ps[i]| <= maxChars
    ensures GreedyPacking(ps[..i + 1], front + [last + [ps[i]]], maxChars)
  {
    var groups := front + [last];
    var grown := last + [ps[i]];
    var now := front + [grown];
    assert ps[..i + 1] == ps[..i] + [ps[i]];
    FlattenAppend(front, [last]);
    assert Flatten([last]) == last + Flatten([]);
    FlattenAppend(front, [grown]);
    assert Flatten([grown]) == grown + Flatten([]);
    SumLenAppend(last, [ps[i]]);
    forall j | 0 <= j < |now| ensures now[j] != [] && (|now[j]| >= 2 ==> SumLen(now[j]) <= maxChars) {
      if j < |front| { assert now[j] == groups[j]; }
    }
    forall j | 0 <= j < |now| - 1 ensures SumLen(now[j]) + |now[j + 1][0]| > maxChars {
      assert now[j] == groups[j];
      if j + 1 < |front| { assert now[j + 1] == groups[j + 1]; }
      else { assert now[j + 1][0] == last[0] && groups[j + 1] == last; }
    }
  }
}
