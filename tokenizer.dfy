/** The assistant's tokenizer: `re.findall(r"[\wáéíóúüñÁÉÍÓÚÜÑ]+", text.lower())`
    (utilities/assistant_model.py, `_tokenize`). */
module Tokenizer {

  /** `str.lower` on one code point, for ASCII and Latin-1 letters. */
  function LowerChar(c: char): (r: char)
    ensures 'A' <= c <= 'Z' ==> r as int == c as int + 32
    ensures '\U{c0}' <= c <= '\U{de}' && c != '\U{d7}' ==> r as int == c as int + 32
    ensures !('A' <= c <= 'Z') && !('\U{c0}' <= c <= '\U{de}' && c != '\U{d7}') ==> r == c
  {
    if 'A' <= c <= 'Z' || ('\U{c0}' <= c <= '\U{de}' && c != '\U{d7}') then (c as int + 32) as char
    else c
  }

  predicate IsLowerChar(c: char) {
    LowerChar(c) == c
  }

  /** Lower-casing a letter that is already lower case changes nothing. */
  lemma LowerCharIdempotent(c: char)
    ensures IsLowerChar(LowerChar(c))
  {
  }

  function Lower(s: string): (r: string)
    ensures |r| == |s|
    ensures forall i :: 0 <= i < |s| ==> r[i] == LowerChar(s[i])
    ensures forall i :: 0 <= i < |r| ==> IsLowerChar(r[i])
  {
    seq(|s|, i requires 0 <= i < |s| => LowerChar(s[i]))
  }

  /** The character class `[\wáéíóúüñÁÉÍÓÚÜÑ]`: letters, digits and the
      underscore, restricted here to ASCII and Latin-1. */
  predicate IsWordChar(c: char) {
    || 'a' <= c <= 'z' || 'A' <= c <= 'Z' || '0' <= c <= '9' || c == '_'
    || c == '\U{aa}' || c == '\U{b2}' || c == '\U{b3}' || c == '\U{b5}'
    || c == '\U{b9}' || c == '\U{ba}' || '\U{bc}' <= c <= '\U{be}'
    || '\U{c0}' <= c <= '\U{d6}' || '\U{d8}' <= c <= '\U{f6}' || '\U{f8}' <= c <= '\U{ff}'
  }

  /** The accented letters the pattern lists are already word characters,
      so the class is `\w` itself. */
  lemma AccentsAreWordChars()
    ensures forall c :: c in "áéíóúüñÁÉÍÓÚÜÑ" ==> IsWordChar(c)
  {
  }

  predicate AllWord(s: string) {
    forall i :: 0 <= i < |s| ==> IsWordChar(s[i])
  }

  predicate NoWord(s: string) {
    forall i :: 0 <= i < |s| ==> !IsWordChar(s[i])
  }

  /** Length of the longest prefix made of word characters. */
  function RunLength(s: string): (n: nat)
    ensures n <= |s| && AllWord(s[..n])
    ensures n < |s| ==> !IsWordChar(s[n])
    decreases |s|
  {
    if s != [] && IsWordChar(s[0]) then
      var m := RunLength(s[1..]);
      assert s[..m + 1] == [s[0]] + s[1..][..m];
      m + 1
    else 0
  }

  /** A word prefix followed by the end or a non-word character is the longest one. */
  lemma {:induction false} RunLengthUnique(s: string, n: nat)
    requires n <= |s| && AllWord(s[..n]) && (n < |s| ==> !IsWordChar(s[n]))
    ensures RunLength(s) == n
    decreases n
  {
    if n > 0 {
      assert s[..n][0] == s[0];
      assert s[1..][..n - 1] == s[..n][1..];
      RunLengthUnique(s[1..], n - 1);
    }
  }

  /** `re.findall` of one-or-more word characters: at each position the
      longest run is taken, otherwise the scan moves one character on. */
  function Tokens(s: string): (r: seq<string>)
    decreases |s|
  {
    if s == [] then []
    else if !IsWordChar(s[0]) then Tokens(s[1..])
    else var n := RunLength(s); [s[..n]] + Tokens(s[n..])
  }

  function Tokenize(text: string): seq<string> {
    Tokens(Lower(text))
  }

  /** `gaps[0] + toks[0] + gaps[1] + ... + toks[n-1] + gaps[n]`. */
  function Interleave(gaps: seq<string>, toks: seq<string>): string
    requires |gaps| == |toks| + 1
    decreases |toks|
  {
    if toks == [] then gaps[0] else gaps[0] + toks[0] + Interleave(gaps[1..], toks[1..])
  }

  /** `toks` are the maximal runs of word characters of `s`, in text order:
      `s` is the tokens interleaved with gaps of non-word characters, and the
      gaps between two tokens are not empty (so no two tokens touch). */
  ghost predicate MaximalRuns(s: string, toks: seq<string>, gaps: seq<string>) {
    && |gaps| == |toks| + 1
    && s == Interleave(gaps, toks)
    && (forall i :: 0 <= i < |toks| ==> toks[i] != [] && AllWord(toks[i]))
    && (forall i :: 0 <= i < |gaps| ==> NoWord(gaps[i]))
    && (forall i :: 0 < i < |toks| ==> gaps[i] != [])
  }

  /** The non-word text around the tokens, as a witness for MaximalRuns. */
  function Gaps(s: string): (g: seq<string>)
    ensures |g| == |Tokens(s)| + 1
    decreases |s|
  {
    if s == [] then [[]]
    else if !IsWordChar(s[0]) then var g := Gaps(s[1..]); [[s[0]] + g[0]] + g[1..]
    else [[]] + Gaps(s[RunLength(s)..])
  }

  /** The tokenizer yields exactly the decomposition MaximalRuns describes. */
  lemma {:induction false} TokensAreMaximalRuns(s: string)
    ensures MaximalRuns(s, Tokens(s), Gaps(s))
    ensures Tokens(s) != [] && IsWordChar(s[0]) ==> Gaps(s)[0] == []
    decreases |s|
  {
    if s == [] {
    } else if !IsWordChar(s[0]) {
      TokensAreMaximalRuns(s[1..]);
      SkipNonWord(s);
    } else {
      TokensAreMaximalRuns(s[RunLength(s)..]);
      TakeRun(s);
    }
  }

  lemma SkipNonWord(s: string)
    requires s != [] && !IsWordChar(s[0])
    requires MaximalRuns(s[1..], Tokens(s[1..]), Gaps(s[1..]))
    ensures MaximalRuns(s, Tokens(s), Gaps(s))
  {
    var t, g := Tokens(s[1..]), Gaps(s[1..]);
    assert Tokens(s) == t;
    assert Gaps(s) == [[s[0]] + g[0]] + g[1..];
    InterleaveConsGap(s[0], g, t);
    ConsGapKeepsGaps(s[0], g, t);
    assert s == [s[0]] + s[1..];
  }

  /** A non-word character put at the front of the first gap keeps every
      gap free of word characters and the inner gaps non-empty. */
  lemma ConsGapKeepsGaps(c: char, g: seq<string>, t: seq<string>)
    requires |g| == |t| + 1 && !IsWordChar(c)
    requires forall i :: 0 <= i < |g| ==> NoWord(g[i])
    requires forall i :: 0 < i < |t| ==> g[i] != []
    ensures var g' := [[c] + g[0]] + g[1..];
      && (forall i :: 0 <= i < |g'| ==> NoWord(g'[i]))
      && (forall i :: 0 < i < |t| ==> g'[i] != [])
  {
    var g' := [[c] + g[0]] + g[1..];
    forall i | 0 <= i < |g'| ensures NoWord(g'[i]) {
      if i == 0 {
        assert NoWord(g[0]);
      } else {
        assert g'[i] == g[i];
      }
    }
    forall i | 0 < i < |t| ensures g'[i] != [] {
      assert g'[i] == g[i];
    }
  }

  /** Putting one more character at the front of the first gap puts it at
      the front of the interleaved text. */
  lemma {:induction false} InterleaveConsGap(c: char, g: seq<string>, t: seq<string>)
    requires |g| == |t| + 1
    ensures Interleave([[c] + g[0]] + g[1..], t) == [c] + Interleave(g, t)
  {
    var g' := [[c] + g[0]] + g[1..];
    assert g'[0] == [c] + g[0];
    if t != [] {
      assert g'[1..] == g[1..];
      var tail := t[0] + Interleave(g[1..], t[1..]);
      assert Interleave(g', t) == ([c] + g[0]) + tail;
      assert Interleave(g, t) == g[0] + tail;
    }
  }

  lemma TakeRun(s: string)
    requires s != [] && IsWordChar(s[0])
    requires MaximalRuns(s[RunLength(s)..], Tokens(s[RunLength(s)..]), Gaps(s[RunLength(s)..]))
    ensures MaximalRuns(s, Tokens(s), Gaps(s))
    ensures Gaps(s)[0] == []
  {
    var n := RunLength(s);
    var rest := s[n..];
    assert Tokens(s) == [s[..n]] + Tokens(rest);
    assert Gaps(s) == [[]] + Gaps(rest);
    assert s == s[..n] + rest;
    ConsRun(s[..n], rest, Tokens(rest), Gaps(rest));
  }

  /** A word run followed by a text that does not start with a word
      character adds one token and an empty first gap. */
  lemma ConsRun(w: string, rest: string, t: seq<string>, g: seq<string>)
    requires w != [] && AllWord(w) && (rest != [] ==> !IsWordChar(rest[0]))
    requires MaximalRuns(rest, t, g)
    ensures MaximalRuns(w + rest, [w] + t, [[]] + g)
  {
    var toks, gaps := [w] + t, [[]] + g;
    InterleaveConsToken(w, g, t);
    FirstGapNotEmpty(rest, t, g);
    forall i | 0 < i < |toks| ensures toks[i] == t[i - 1] && gaps[i] == g[i - 1] { }
  }

  lemma InterleaveConsToken(w: string, g: seq<string>, t: seq<string>)
    requires |g| == |t| + 1
    ensures Interleave([[]] + g, [w] + t) == w + Interleave(g, t)
  {
    assert ([w] + t)[1..] == t && ([[]] + g)[1..] == g;
  }

  /** A text that does not start with a word character has a non-empty
      first gap before its first token. */
  lemma FirstGapNotEmpty(rest: string, t: seq<string>, g: seq<string>)
    requires rest != [] ==> !IsWordChar(rest[0])
    requires MaximalRuns(rest, t, g)
    ensures t != [] ==> g[0] != []
  {
    if t != [] {
      assert rest == g[0] + t[0] + Interleave(g[1..], t[1..]);
    }
  }

  /** A MaximalRuns decomposition whose tokens are not empty has a first gap
      that is exactly the non-word prefix, and a first token that is exactly
      the longest word run after it. */
  lemma {:induction false} MaximalRunsHead(s: string, toks: seq<string>, gaps: seq<string>)
    requires MaximalRuns(s, toks, gaps) && toks != []
    ensures var rest := s[|gaps[0]|..];
      && |gaps[0]| < |s| && s[..|gaps[0]|] == gaps[0]
      && RunLength(rest) == |toks[0]| && rest[..|toks[0]|] == toks[0]
      && MaximalRuns(rest[|toks[0]|..], toks[1..], gaps[1..])
      && (|toks| > 1 ==> rest[|toks[0]|..] != [] && !IsWordChar(rest[|toks[0]|]))
  {
    var tail := Interleave(gaps[1..], toks[1..]);
    assert s == gaps[0] + toks[0] + tail;
    var rest := s[|gaps[0]|..];
    assert rest == toks[0] + tail;
    assert rest[..|toks[0]|] == toks[0];
    assert rest[|toks[0]|..] == tail;
    if |toks| > 1 {
      assert tail == gaps[1] + toks[1] + Interleave(gaps[2..], toks[2..]);
      assert gaps[1] == gaps[1..][0];
      assert tail[0] == gaps[1][0];
    } else {
      assert tail == gaps[1..][0];
    }
    RunLengthUnique(rest, |toks[0]|);
    assert MaximalRuns(tail, toks[1..], gaps[1..]) by {
      forall i | 0 <= i < |gaps[1..]| ensures NoWord(gaps[1..][i]) {
        assert gaps[1..][i] == gaps[i + 1];
      }
      forall i | 0 < i < |toks[1..]| ensures gaps[1..][i] != [] {
        assert gaps[1..][i] == gaps[i + 1];
      }
    }
  }

  /** The maximal-run decomposition of a text is unique, so it pins down the
      tokenizer's output: any sequence of maximal runs IS `Tokens(s)`. */
  lemma {:induction false} MaximalRunsDetermineTokens(s: string, toks: seq<string>, gaps: seq<string>)
    requires MaximalRuns(s, toks, gaps)
    ensures toks == Tokens(s)
    decreases |s|
  {
    if toks == [] {
      assert s == gaps[0];
      NoWordHasNoTokens(s);
    } else {
      MaximalRunsHead(s, toks, gaps);
      var k := |gaps[0]|;
      var rest := s[k..];
      NonWordPrefixSkipped(s, k);
      var n := |toks[0]|;
      assert IsWordChar(rest[0]) by { assert rest[0] == toks[0][0]; }
      assert Tokens(rest) == [rest[..n]] + Tokens(rest[n..]);
      MaximalRunsDetermineTokens(rest[n..], toks[1..], gaps[1..]);
    }
  }

  lemma {:induction false} NoWordHasNoTokens(s: string)
    requires NoWord(s)
    ensures Tokens(s) == []
    decreases |s|
  {
    if s != [] {
      NoWordHasNoTokens(s[1..]);
    }
  }

  /** Tokens skips a leading stretch of non-word characters. */
  lemma {:induction false} NonWordPrefixSkipped(s: string, k: nat)
    requires k <= |s| && NoWord(s[..k])
    ensures Tokens(s) == Tokens(s[k..])
    decreases k
  {
    if k > 0 {
      assert s[..k][0] == s[0];
      assert s[1..][..k - 1] == s[..k][1..];
      NonWordPrefixSkipped(s[1..], k - 1);
      assert s[1..][k - 1..] == s[k..];
    }
  }

  /** Every character of every token satisfies a property every character of
      the text has. */
  lemma {:induction false} TokensInherit(s: string, p: char -> bool)
    requires forall i :: 0 <= i < |s| ==> p(s[i])
    ensures forall j, i :: 0 <= j < |Tokens(s)| && 0 <= i < |Tokens(s)[j]| ==> p(Tokens(s)[j][i])
    decreases |s|
  {
    if s != [] {
      if !IsWordChar(s[0]) {
        TokensInherit(s[1..], p);
      } else {
        var n := RunLength(s);
        TokensInherit(s[n..], p);
        var t := Tokens(s);
        forall j, i | 0 <= j < |t| && 0 <= i < |t[j]| ensures p(t[j][i]) {
          if j > 0 { assert t[j] == Tokens(s[n..])[j - 1]; }
        }
      }
    }
  }

  /** What `_tokenize` promises: every token is a non-empty run of word
      characters, already lower case, and the tokens are the maximal word runs
      of the lower-cased text, in text order. */
  lemma TokenizeSpec(text: string)
    ensures forall j :: 0 <= j < |Tokenize(text)| ==>
      Tokenize(text)[j] != [] && AllWord(Tokenize(text)[j]) && Lower(Tokenize(text)[j]) == Tokenize(text)[j]
    ensures MaximalRuns(Lower(text), Tokenize(text), Gaps(Lower(text)))
  {
    var s := Lower(text);
    TokensAreMaximalRuns(s);
    forall i | 0 <= i < |s| ensures IsLowerChar(s[i]) {
      LowerCharIdempotent(text[i]);
    }
    TokensInherit(s, IsLowerChar);
  }

  /** A text without any word character yields no token. */
  lemma TokenizeNoWords(text: string)
    requires NoWord(Lower(text))
    ensures Tokenize(text) == []
  {
    NoWordHasNoTokens(Lower(text));
  }
}
