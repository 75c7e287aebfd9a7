/** The assistant's vocabulary (utilities/assistant_model.py,
    `_build_vocabulary`): token counts over every tokenised chunk, the tokens
    whose count reaches the minimum frequency, ordered by descending count
    and then by ascending token, numbered from 0. */
module Vocabulary {
  import opened Seqs

  // ----- Python's ordering of str -----

  /** Python's `a < b` on `str`: the first differing code point decides, and
      a proper prefix comes first. */
  predicate LexLess(a: string, b: string)
    decreases |a|
  {
    if a == [] then b != []
    else if b == [] then false
    else if a[0] != b[0] then a[0] < b[0]
    else LexLess(a[1..], b[1..])
  }

  lemma {:induction false} LexLessIrreflexive(a: string)
    ensures !LexLess(a, a)
    decreases |a|
  {
    if a != [] {
      LexLessIrreflexive(a[1..]);
    }
  }

  lemma {:induction false} LexLessTransitive(a: string, b: string, c: string)
    requires LexLess(a, b) && LexLess(b, c)
    ensures LexLess(a, c)
    decreases |a|
  {
    if a != [] && a[0] == b[0] && b[0] == c[0] {
      LexLessTransitive(a[1..], b[1..], c[1..]);
    }
  }

  lemma {:induction false} LexLessTotal(a: string, b: string)
    requires a != b
    ensures LexLess(a, b) || LexLess(b, a)
    decreases |a|
  {
    if a != [] && b != [] && a[0] == b[0] {
      assert a == [a[0]] + a[1..] && b == [b[0]] + b[1..];
      LexLessTotal(a[1..], b[1..]);
    }
  }

  // ----- counts and the sort key -----

  /** How often `t` occurs across all tokenised chunks: what the `Counter`
      accumulates. */
  function Count(corpus: seq<seq<string>>, t: string): nat {
    multiset(Flatten(corpus))[t]
  }

  /** The tokens `_build_vocabulary` keeps: seen at least once, and at least
      `minFrequency` times. */
  predicate Kept(corpus: seq<seq<string>>, minFrequency: int, t: string) {
    Count(corpus, t) > 0 && Count(corpus, t) >= minFrequency
  }

  /** `a` sorts before `b` under the key `(-count, token)`. */
  predicate Before(corpus: seq<seq<string>>, a: string, b: string) {
    Count(corpus, a) > Count(corpus, b) || (Count(corpus, a) == Count(corpus, b) && LexLess(a, b))
  }

  /** The sort key orders distinct tokens strictly and totally. */
  lemma BeforeStrictTotal(corpus: seq<seq<string>>, a: string, b: string, c: string)
    ensures !Before(corpus, a, a)
    ensures a != b ==> Before(corpus, a, b) || Before(corpus, b, a)
    ensures Before(corpus, a, b) ==> !Before(corpus, b, a)
    ensures Before(corpus, a, b) && Before(corpus, b, c) ==> Before(corpus, a, c)
  {
    LexLessIrreflexive(a);
    if a != b {
      LexLessTotal(a, b);
    }
    if LexLess(a, b) && LexLess(b, a) {
      LexLessTransitive(a, b, a);
    }
    if LexLess(a, b) && LexLess(b, c) {
      LexLessTransitive(a, b, c);
    }
  }

  /** Strictly increasing under the sort key (hence without repeats). */
  predicate SortedByKey(corpus: seq<seq<string>>, s: seq<string>) {
    forall p, q :: 0 <= p < q < |s| ==> Before(corpus, s[p], s[q])
  }

  // ----- the three steps of _build_vocabulary -----

  /** `counts` and `seen` hold the `Counter` of `xs`: every token of `xs`
      with its number of occurrences, and the tokens in first-seen order. */
  ghost predicate Tally(counts: map<string, nat>, seen: seq<string>, xs: seq<string>) {
    && (forall t :: t in counts <==> t in multiset(xs))
    && (forall t :: t in counts ==> counts[t] == multiset(xs)[t])
    && (forall t :: t in counts <==> t in seen)
    && (forall p, q :: 0 <= p < q < |seen| ==> seen[p] != seen[q])
  }

  lemma TallySeen(counts: map<string, nat>, seen: seq<string>, xs: seq<string>, token: string)
    requires Tally(counts, seen, xs) && token in counts
    ensures Tally(counts[token := counts[token] + 1], seen, xs + [token])
  {
    assert multiset(xs + [token]) == multiset(xs) + multiset{token};
  }

  lemma TallyNew(counts: map<string, nat>, seen: seq<string>, xs: seq<string>, token: string)
    requires Tally(counts, seen, xs) && token !in counts
    ensures Tally(counts[token := 1], seen + [token], xs + [token])
  {
    assert multiset(xs + [token]) == multiset(xs) + multiset{token};
  }

  /** `counter.update(tokens)`: one chunk's tokens added to the tally. */
  method UpdateCounts(counts0: map<string, nat>, seen0: seq<string>, tokens: seq<string>, ghost before: seq<string>)
    returns (counts: map<string, nat>, seen: seq<string>)
    requires Tally(counts0, seen0, before)
    ensures Tally(counts, seen, before + tokens)
  {
    counts, seen := counts0, seen0;
    assert before + tokens[..0] == before;
    for j := 0 to |tokens|
      invariant Tally(counts, seen, before + tokens[..j])
    {
      var token := tokens[j];
      assert before + tokens[..j + 1] == (before + tokens[..j]) + [token];
      if token in counts {
        TallySeen(counts, seen, before + tokens[..j], token);
        counts := counts[token := counts[token] + 1];
      } else {
        TallyNew(counts, seen, before + tokens[..j], token);
        counts := counts[token := 1];
        seen := seen + [token];
      }
    }
    assert tokens[..|tokens|] == tokens;
  }

  /** The `Counter` loop of `_build_vocabulary`: the counts over every chunk,
      and the tokens in the order they were first seen. */
  method CountTokens(corpus: seq<seq<string>>) returns (counts: map<string, nat>, seen: seq<string>)
    ensures forall t :: t in counts <==> Count(corpus, t) > 0
    ensures forall t :: t in counts ==> counts[t] == Count(corpus, t)
    ensures forall t :: t in counts <==> t in seen
    ensures forall p, q :: 0 <= p < q < |seen| ==> seen[p] != seen[q]
  {
    counts := map[];
    seen := [];
    for i := 0 to |corpus|
      invariant Tally(counts, seen, Flatten(corpus[..i]))
    {
      assert corpus[..i + 1] == corpus[..i] + [corpus[i]];
      FlattenAppend(corpus[..i], [corpus[i]]);
      assert Flatten([corpus[i]]) == corpus[i] + Flatten([]);
      counts, seen := UpdateCounts(counts, seen, corpus[i], Flatten(corpus[..i]));
    }
    assert corpus[..|corpus|] == corpus;
  }

  /** `vocab_items.sort(key=lambda item: (-item[1], item[0]))`, here as an
      insertion of each item at its place; the keys of distinct tokens are
      distinct, so the sorted order is the one the key determines. */
  method SortByKey(corpus: seq<seq<string>>, items: seq<string>) returns (sorted: seq<string>)
    requires forall p, q :: 0 <= p < q < |items| ==> items[p] != items[q]
    ensures forall t :: t in sorted <==> t in items
    ensures |sorted| == |items|
    ensures SortedByKey(corpus, sorted)
  {
    sorted := [];
    for i := 0 to |items|
      invariant forall t :: t in sorted <==> t in items[..i]
      invariant |sorted| == i
      invariant SortedByKey(corpus, sorted)
    {
      var item := items[i];
      assert item !in items[..i];
      var k := 0;
      while k < |sorted| && Before(corpus, sorted[k], item)
        invariant 0 <= k <= |sorted|
        invariant forall p :: 0 <= p < k ==> Before(corpus, sorted[p], item)
      {
        k := k + 1;
      }
      if k < |sorted| {
        assert sorted[k] != item;
        BeforeStrictTotal(corpus, item, sorted[k], item);
        forall q | k <= q < |sorted| ensures Before(corpus, item, sorted[q]) {
          BeforeStrictTotal(corpus, item, sorted[k], sorted[q]);
        }
      }
      sorted := sorted[..k] + [item] + sorted[k..];
      assert items[..i + 1] == items[..i] + [item];
    }
    assert items[..|items|] == items;
  }

  /** `[item for item in counter.items() if item[1] >= min_frequency]`,
      keeping the tokens only. */
  method KeepFrequent(counts: map<string, nat>, seen: seq<string>, minFrequency: int) returns (items: seq<string>)
    requires forall t :: t in counts <==> t in seen
    requires forall p, q :: 0 <= p < q < |seen| ==> seen[p] != seen[q]
    ensures forall t :: t in items <==> t in counts && counts[t] >= minFrequency
    ensures forall p, q :: 0 <= p < q < |items| ==> items[p] != items[q]
  {
    items := [];
    for i := 0 to |seen|
      invariant forall t :: t in items <==> t in seen[..i] && counts[t] >= minFrequency
      invariant forall p, q :: 0 <= p < q < |items| ==> items[p] != items[q]
    {
      assert seen[..i + 1] == seen[..i] + [seen[i]];
      if counts[seen[i]] >= minFrequency {
        assert seen[i] !in seen[..i];
        items := items + [seen[i]];
      }
    }
    assert seen[..|seen|] == seen;
  }

  /** `{token: idx for idx, token in enumerate(sorted)}`. */
  method IndexTokens(sorted: seq<string>) returns (vocab: map<string, int>)
    requires forall p, q :: 0 <= p < q < |sorted| ==> sorted[p] != sorted[q]
    ensures forall t :: t in vocab <==> t in sorted
    ensures |vocab| == |sorted|
    ensures forall p :: 0 <= p < |sorted| ==> vocab[sorted[p]] == p
  {
    vocab := map[];
    for idx := 0 to |sorted|
      invariant forall t :: t in vocab <==> t in sorted[..idx]
      invariant |vocab| == idx
      invariant forall p :: 0 <= p < idx ==> vocab[sorted[p]] == p
    {
      assert sorted[idx] !in sorted[..idx];
      assert sorted[..idx + 1] == sorted[..idx] + [sorted[idx]];
      vocab := vocab[sorted[idx] := idx];
    }
    assert sorted[..|sorted|] == sorted;
  }

  /** `_build_vocabulary(tokenized_chunks, min_frequency)`: the kept tokens,
      numbered 0..n-1 without repeats in the order of the sort key. */
  method BuildVocabulary(corpus: seq<seq<string>>, minFrequency: int) returns (vocab: map<string, int>)
    ensures forall t :: t in vocab <==> Kept(corpus, minFrequency, t)
    ensures forall t :: t in vocab ==> 0 <= vocab[t] < |vocab|
    ensures forall i :: 0 <= i < |vocab| ==> i in vocab.Values
    ensures forall a, b :: a in vocab && b in vocab && a != b ==> vocab[a] != vocab[b]
    ensures forall a, b :: a in vocab && b in vocab ==> (vocab[a] < vocab[b] <==> Before(corpus, a, b))
  {
    var counts, seen := CountTokens(corpus);
    var items := KeepFrequent(counts, seen, minFrequency);
    var sorted := SortByKey(corpus, items);
    forall p, q | 0 <= p < q < |sorted| ensures sorted[p] != sorted[q] {
      BeforeStrictTotal(corpus, sorted[p], sorted[q], sorted[p]);
    }
    vocab := IndexTokens(sorted);
    forall t | t in vocab ensures 0 <= vocab[t] < |vocab| && sorted[vocab[t]] == t {
      var p :| 0 <= p < |sorted| && sorted[p] == t;
      assert vocab[sorted[p]] == p;
    }
    forall i | 0 <= i < |vocab| ensures i in vocab.Values {
      assert vocab[sorted[i]] == i;
    }
    forall a, b | a in vocab && b in vocab ensures vocab[a] < vocab[b] <==> Before(corpus, a, b) {
      BeforeStrictTotal(corpus, a, b, a);
      if vocab[a] < vocab[b] {
        assert SortedByKey(corpus, sorted);
        assert Before(corpus, sorted[vocab[a]], sorted[vocab[b]]);
      }
    }
  }
}
