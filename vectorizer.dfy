/** The assistant's bag-of-words vectoriser (utilities/assistant_model.py,
    `_vectorize`): one entry per vocabulary index, holding the share of the
    known tokens that carry that index. Floats are modelled as exact reals. */
module Vectorizer {

  /** The indices of a vocabulary are positions of a vector of its size. */
  predicate ValidIndices(vocab: map<string, int>) {
    forall t :: t in vocab ==> 0 <= vocab[t] < |vocab|
  }

  /** Tokens the vocabulary knows. */
  function KnownCount(tokens: seq<string>, vocab: map<string, int>): nat
    decreases |tokens|
  {
    if tokens == [] then 0
    else KnownCount(tokens[..|tokens| - 1], vocab) + (if tokens[|tokens| - 1] in vocab then 1 else 0)
  }

  /** Tokens whose vocabulary index is `i`. */
  function IndexCount(tokens: seq<string>, vocab: map<string, int>, i: int): nat
    decreases |tokens|
  {
    if tokens == [] then 0
    else
      var t := tokens[|tokens| - 1];
      IndexCount(tokens[..|tokens| - 1], vocab, i) + (if t in vocab && vocab[t] == i then 1 else 0)
  }

  /** Python's `sum` over a list of floats. */
  function SumR(xs: seq<real>): real
    decreases |xs|
  {
    if xs == [] then 0.0 else SumR(xs[..|xs| - 1]) + xs[|xs| - 1]
  }

  /** The raw counts, one entry per index. */
  function CountVector(tokens: seq<string>, vocab: map<string, int>): (r: seq<real>)
    ensures |r| == |vocab|
  {
    seq(|vocab|, i requires 0 <= i < |vocab| => IndexCount(tokens, vocab, i) as real)
  }

  /** What `_vectorize` returns: the counts divided by the number of known
      tokens, or all zeros when no token is known. */
  function Frequencies(tokens: seq<string>, vocab: map<string, int>): (r: seq<real>)
    ensures |r| == |vocab|
    ensures forall i :: 0 <= i < |r| ==> r[i] >= 0.0
  {
    var known := KnownCount(tokens, vocab);
    seq(|vocab|, i requires 0 <= i < |vocab| =>
      if known == 0 then 0.0 else IndexCount(tokens, vocab, i) as real / known as real)
  }

  lemma CountVectorSnoc(tokens: seq<string>, vocab: map<string, int>, t: string)
    requires ValidIndices(vocab)
    ensures t !in vocab ==> CountVector(tokens + [t], vocab) == CountVector(tokens, vocab)
    ensures t in vocab ==>
      CountVector(tokens + [t], vocab) == CountVector(tokens, vocab)[vocab[t] := CountVector(tokens, vocab)[vocab[t]] + 1.0]
  {
    assert (tokens + [t])[..|tokens|] == tokens;
  }

  /** No index is hit more often than there are known tokens. */
  lemma {:induction false} IndexCountBound(tokens: seq<string>, vocab: map<string, int>, i: int)
    ensures IndexCount(tokens, vocab, i) <= KnownCount(tokens, vocab)
    decreases |tokens|
  {
    if tokens != [] {
      IndexCountBound(tokens[..|tokens| - 1], vocab, i);
    }
  }

  /** Adding `d` to one entry adds `d` to the sum. */
  lemma {:induction false} SumRUpdate(xs: seq<real>, k: nat, d: real)
    requires k < |xs|
    ensures SumR(xs[k := xs[k] + d]) == SumR(xs) + d
    decreases |xs|
  {
    var ys := xs[k := xs[k] + d];
    if k < |xs| - 1 {
      assert ys[..|ys| - 1] == xs[..|xs| - 1][k := xs[k] + d];
      SumRUpdate(xs[..|xs| - 1], k, d);
    } else {
      assert ys[..|ys| - 1] == xs[..|xs| - 1];
    }
  }

  /** Dividing every entry by `c` divides the sum by `c`. */
  lemma {:induction false} SumRScale(xs: seq<real>, ys: seq<real>, c: real)
    requires c != 0.0 && |ys| == |xs|
    requires forall i :: 0 <= i < |xs| ==> ys[i] == xs[i] / c
    ensures SumR(ys) == SumR(xs) / c
    decreases |xs|
  {
    if xs != [] {
      SumRScale(xs[..|xs| - 1], ys[..|ys| - 1], c);
    }
  }

  /** Dividing every entry by the sum gives entries that sum to 1. */
  lemma NormalizedSumsToOne(xs: seq<real>, ys: seq<real>, c: real)
    requires c != 0.0 && SumR(xs) == c && |ys| == |xs|
    requires forall i :: 0 <= i < |xs| ==> ys[i] == xs[i] / c
    ensures SumR(ys) == 1.0
  {
    SumRScale(xs, ys, c);
    DivSelf(c);
  }

  lemma DivSelf(c: real)
    requires c != 0.0
    ensures c / c == 1.0
  {
  }

  /** The counts add up to the number of known tokens. */
  lemma {:induction false} CountVectorSum(tokens: seq<string>, vocab: map<string, int>)
    requires ValidIndices(vocab)
    ensures SumR(CountVector(tokens, vocab)) == KnownCount(tokens, vocab) as real
    decreases |tokens|
  {
    if tokens == [] {
      ZerosSum(|vocab|, CountVector(tokens, vocab));
    } else {
      var front := tokens[..|tokens| - 1];
      var t := tokens[|tokens| - 1];
      assert tokens == front + [t];
      CountVectorSum(front, vocab);
      CountVectorSnoc(front, vocab, t);
      if t in vocab {
        SumRUpdate(CountVector(front, vocab), vocab[t], 1.0);
      }
    }
  }

  lemma {:induction false} ZerosSum(n: nat, xs: seq<real>)
    requires |xs| == n && forall i :: 0 <= i < n ==> xs[i] == 0.0
    ensures SumR(xs) == 0.0
    decreases n
  {
    if n > 0 {
      ZerosSum(n - 1, xs[..n - 1]);
    }
  }

  /** `_vectorize(tokens, vocab)`: counts in a preallocated buffer, then
      their sum, then the division when the sum is positive. */
  method Vectorize(tokens: seq<string>, vocab: map<string, int>) returns (vector: seq<real>)
    requires ValidIndices(vocab)
    ensures vector == Frequencies(tokens, vocab)
  {
    var counts := new real[|vocab|](_ => 0.0);
    for j := 0 to |tokens|
      invariant counts[..] == CountVector(tokens[..j], vocab)
    {
      var token := tokens[j];
      assert tokens[..j + 1] == tokens[..j] + [token];
      CountVectorSnoc(tokens[..j], vocab, token);
      if token in vocab {
        var idx := vocab[token];
        counts[idx] := counts[idx] + 1.0;
      }
    }
    assert tokens[..|tokens|] == tokens;
    var total := 0.0;
    for k := 0 to counts.Length
      invariant total == SumR(counts[..k])
    {
      assert counts[..k + 1][..k] == counts[..k];
      total := total + counts[k];
    }
    assert counts[..counts.Length] == counts[..];
    CountVectorSum(tokens, vocab);
    var raw := counts[..];
    assert total == KnownCount(tokens, vocab) as real;
    if total > 0.0 {
      vector := seq(|raw|, i requires 0 <= i < |raw| => raw[i] / total);
    } else {
      vector := raw;
      forall i | 0 <= i < |vocab| ensures vector[i] == 0.0 {
        IndexCountBound(tokens, vocab, i);
      }
    }
  }

  /** When some token is known, the entries sum to 1. */
  lemma FrequenciesSumToOne(tokens: seq<string>, vocab: map<string, int>)
    requires ValidIndices(vocab) && KnownCount(tokens, vocab) > 0
    ensures SumR(Frequencies(tokens, vocab)) == 1.0
  {
    var known := KnownCount(tokens, vocab) as real;
    var counts := CountVector(tokens, vocab);
    var freq := Frequencies(tokens, vocab);
    assert forall i :: 0 <= i < |counts| ==> freq[i] == counts[i] / known;
    CountVectorSum(tokens, vocab);
    NormalizedSumsToOne(counts, freq, known);
  }

  /** The vector is all zero exactly when no token is known. */
  lemma FrequenciesZeroIff(tokens: seq<string>, vocab: map<string, int>)
    requires ValidIndices(vocab)
    ensures (forall i :: 0 <= i < |vocab| ==> Frequencies(tokens, vocab)[i] == 0.0)
      <==> KnownCount(tokens, vocab) == 0
  {
    if KnownCount(tokens, vocab) > 0 {
      FrequenciesSumToOne(tokens, vocab);
      if forall i :: 0 <= i < |vocab| ==> Frequencies(tokens, vocab)[i] == 0.0 {
        ZerosSum(|vocab|, Frequencies(tokens, vocab));
      }
    }
  }

  /** The test `sum(vector) == 0.0` holds exactly when no token is known. */
  lemma FrequenciesSumZeroIff(tokens: seq<string>, vocab: map<string, int>)
    requires ValidIndices(vocab)
    ensures SumR(Frequencies(tokens, vocab)) == 0.0 <==> KnownCount(tokens, vocab) == 0
  {
    if KnownCount(tokens, vocab) == 0 {
      ZerosSum(|vocab|, Frequencies(tokens, vocab));
    } else {
      FrequenciesSumToOne(tokens, vocab);
    }
  }

  /** A token the vocabulary does not know changes nothing. */
  lemma UnknownTokenIgnored(tokens: seq<string>, vocab: map<string, int>, u: string)
    requires u !in vocab
    ensures Frequencies(tokens + [u], vocab) == Frequencies(tokens, vocab)
  {
    assert (tokens + [u])[..|tokens|] == tokens;
  }
}
