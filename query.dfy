/** Answering a question with the trained assistant
    (utilities/assistant_model.py): the checks of `_load_state`, and the
    ranking, filtering and answer choice of `generate_assistant_reply`. The
    encoder with its floating-point arithmetic is a parameter; scores are
    exact reals. */
module Query {
  import opened Wrappers
  import opened Seqs
  import opened Strings
  import opened Tokenizer
  import opened Vectorizer

  // ----- stable descending ranking -----

  /** Index `a` is placed before index `b` by
      `sorted(range(n), key=lambda idx: scores[idx], reverse=True)`: the
      higher score first, and equal scores in index order (the sort is
      stable). */
  predicate Ahead(scores: seq<real>, a: nat, b: nat)
    requires a < |scores| && b < |scores|
  {
    scores[a] > scores[b] || (scores[a] == scores[b] && a < b)
  }

  /** `r` holds indices of `scores`, each one ahead of every later one (so
      no index occurs twice). */
  predicate RankedBy(scores: seq<real>, r: seq<nat>) {
    && (forall k :: 0 <= k < |r| ==> r[k] < |scores|)
    && (forall p, q :: 0 <= p < q < |r| ==> Ahead(scores, r[p], r[q]))
  }

  /** Index `i` put at its place in a ranking. */
  function Insert(scores: seq<real>, r: seq<nat>, i: nat): (r': seq<nat>)
    requires i < |scores|
    requires forall k :: 0 <= k < |r| ==> r[k] < |scores|
    ensures |r'| == |r| + 1
    ensures forall x :: x in r' <==> x == i || x in r
    ensures forall k :: 0 <= k < |r'| ==> r'[k] < |scores|
    decreases |r|
  {
    if r == [] then [i]
    else if Ahead(scores, i, r[0]) then [i] + r
    else [r[0]] + Insert(scores, r[1..], i)
  }

  /** Inserting a new index into a ranking gives a ranking. */
  lemma {:induction false} InsertRanked(scores: seq<real>, r: seq<nat>, i: nat)
    requires i < |scores| && RankedBy(scores, r) && i !in r
    ensures RankedBy(scores, Insert(scores, r, i))
    decreases |r|
  {
    if r == [] {
    } else if Ahead(scores, i, r[0]) {
      forall q | 0 <= q < |r| ensures Ahead(scores, i, r[q]) {
        if q > 0 {
          assert Ahead(scores, r[0], r[q]);
        }
      }
      RankedCons(scores, i, r);
    } else {
      var tail := r[1..];
      RankedTail(scores, r);
      InsertRanked(scores, tail, i);
      var rest := Insert(scores, tail, i);
      forall q | 0 <= q < |rest| ensures Ahead(scores, r[0], rest[q]) {
        if rest[q] != i {
          assert rest[q] in tail;
          var p :| 0 <= p < |tail| && tail[p] == rest[q];
          assert r[p + 1] == rest[q];
        }
      }
      RankedCons(scores, r[0], rest);
    }
  }

  lemma RankedTail(scores: seq<real>, r: seq<nat>)
    requires RankedBy(scores, r) && r != []
    ensures RankedBy(scores, r[1..])
  {
    var tail := r[1..];
    forall p, q | 0 <= p < q < |tail| ensures Ahead(scores, tail[p], tail[q]) {
      assert tail[p] == r[p + 1] && tail[q] == r[q + 1];
    }
  }

  lemma RankedCons(scores: seq<real>, x: nat, rest: seq<nat>)
    requires x < |scores| && RankedBy(scores, rest)
    requires forall q :: 0 <= q < |rest| ==> Ahead(scores, x, rest[q])
    ensures RankedBy(scores, [x] + rest)
  {
    var r' := [x] + rest;
    forall p, q | 0 <= p < q < |r'| ensures Ahead(scores, r'[p], r'[q]) {
      if p > 0 {
        assert r'[p] == rest[p - 1] && r'[q] == rest[q - 1];
      } else {
        assert r'[q] == rest[q - 1];
      }
    }
  }

  /** The indices `0..n-1` in the order of the stable descending sort. */
  function Ranking(scores: seq<real>, n: nat): (r: seq<nat>)
    requires n <= |scores|
    ensures |r| == n
    ensures forall x: nat :: x in r <==> x < n
    ensures RankedBy(scores, r)
    decreases n
  {
    if n == 0 then []
    else
      var prev := Ranking(scores, n - 1);
      InsertRanked(scores, prev, n - 1);
      Insert(scores, prev, n - 1)
  }

  /** Two rankings of the same indices are the same sequence: the order is
      fully determined by the key, so `Ranking` is the stable sort. */
  lemma {:induction false} RankedByUnique(scores: seq<real>, r1: seq<nat>, r2: seq<nat>)
    requires RankedBy(scores, r1) && RankedBy(scores, r2)
    requires |r1| == |r2| && forall x :: x in r1 <==> x in r2
    ensures r1 == r2
    decreases |r1|
  {
    if r1 != [] {
      assert r1[0] in r2;
      assert r2[0] in r1;
      assert r1[0] == r2[0] by {
        var q :| 0 <= q < |r2| && r2[q] == r1[0];
        var p :| 0 <= p < |r1| && r1[p] == r2[0];
      }
      forall x ensures x in r1[1..] <==> x in r2[1..] {
        if x in r1[1..] {
          TailMember(scores, r1, r2, x);
        }
        if x in r2[1..] {
          TailMember(scores, r2, r1, x);
        }
      }
      RankedByUnique(scores, r1[1..], r2[1..]);
    }
  }

  lemma TailMember(scores: seq<real>, r1: seq<nat>, r2: seq<nat>, x: nat)
    requires RankedBy(scores, r1) && RankedBy(scores, r2)
    requires forall y :: y in r1 <==> y in r2
    requires r1 != [] && r2 != [] && r1[0] == r2[0] && x in r1[1..]
    ensures x in r2[1..]
  {
    var p :| 0 <= p < |r1[1..]| && r1[1..][p] == x;
    assert Ahead(scores, r1[0], r1[p + 1]);
    assert x in r1;
    var q :| 0 <= q < |r2| && r2[q] == x;
    assert r2[1..][q - 1] == x;
  }

  /** Any arrangement of the indices `0..n-1` that respects the key is the
      ranking. */
  lemma SortedIsRanking(scores: seq<real>, r: seq<nat>)
    requires RankedBy(scores, r) && |r| == |scores|
    requires forall x: nat :: x < |scores| ==> x in r
    ensures r == Ranking(scores, |scores|)
  {
    RankedByUnique(scores, r, Ranking(scores, |scores|));
  }

  /** `sorted(range(n), key=..., reverse=True)[:min(k, n)]`. */
  function TopK(scores: seq<real>, k: int): (r: seq<nat>)
    ensures RankedBy(scores, r)
  {
    var n := |scores|;
    PyTake(Ranking(scores, n), if k < n then k else n)
  }

  /** The top `k` are `min(k, n)` distinct indices (a negative `k` drops
      `-k` from the end, as slicing does), ranked by descending score with
      ties in index order, and each is ahead of every index left out. */
  lemma TopKSpec(scores: seq<real>, k: int)
    ensures var r, n := TopK(scores, k), |scores|;
      && |r| == (if k >= n then n else if k >= 0 then k else if n + k >= 0 then n + k else 0)
      && (forall p, q :: 0 <= p < q < |r| ==> r[p] != r[q])
      && (forall p, b :: 0 <= p < |r| && 0 <= b < n && b !in r ==> Ahead(scores, r[p], b))
  {
    var n := |scores|;
    var full := Ranking(scores, n);
    var r := TopK(scores, k);
    assert r == full[..|r|];
    forall p, b | 0 <= p < |r| && 0 <= b < n && b !in r ensures Ahead(scores, r[p], b) {
      assert b in full;
      var q :| 0 <= q < |full| && full[q] == b;
    }
  }

  // ----- the stored model -----

  const ModelVersion := 2

  /** The parts of the pickled state the reply reads (the encoder weights
      and bias are inside the `encode` parameter of GenerateReply). */
  datatype State = State(
    version: Option<int>,
    vocab: map<string, int>,
    chunkTexts: seq<string>,
    chunkSources: seq<(string, string)>,
    chunkEmbeddings: seq<seq<real>>)

  datatype ReplyError =
    | ModelNotFound(path: string)
    | VersionMismatch
    | UnknownVocabulary

  const VersionMismatchMessage := "La versión del modelo no coincide con la soportada. Vuelve a entrenar el asistente con train-assistant."
  const UnknownVocabularyMessage := "La pregunta no contiene vocabulario conocido por el asistente."
  const NoAnswer := "No encontré un fragmento relevante en el repositorio."

  /** `_load_state(path)`, where `stored` is what the artifact at `path`
      holds and `None` means the file does not exist. */
  function LoadState(path: string, stored: Option<State>): (r: Result<State, ReplyError>)
    ensures r == Err(ModelNotFound(path)) <==> stored.None?
    ensures r == Err(VersionMismatch) <==> stored.Some? && stored.value.version != Some(ModelVersion)
    ensures r.Ok? <==> stored.Some? && stored.value.version == Some(ModelVersion)
    ensures r.Ok? ==> r.value == stored.value
  {
    match stored
    case None => Err(ModelNotFound(path))
    case Some(state) => if state.version != Some(ModelVersion) then Err(VersionMismatch) else Ok(state)
  }

  /** What the reply needs of a loaded state to run without an index error:
      vocabulary indices inside the vector, and a text and a source for
      every embedding. */
  predicate WellFormed(state: State) {
    && ValidIndices(state.vocab)
    && |state.chunkTexts| >= |state.chunkEmbeddings|
    && |state.chunkSources| >= |state.chunkEmbeddings|
  }

  // ----- scores -----

  /** `_vector_dot`: `zip` stops at the shorter list. */
  function Dot(left: seq<real>, right: seq<real>): real
    decreases |left|
  {
    if left == [] || right == [] then 0.0 else left[0] * right[0] + Dot(left[1..], right[1..])
  }

  /** `_cosine_similarity`: one score per row. */
  function Similarities(rows: seq<seq<real>>, v: seq<real>): (r: seq<real>)
    ensures |r| == |rows|
  {
    seq(|rows|, i requires 0 <= i < |rows| => Dot(rows[i], v))
  }

  // ----- command records -----

  /** The tokens of a `(name, description)` record: `_tokenize(f"{name} {description}")`. */
  function CommandTokens(command: (string, string)): seq<string> {
    Tokenize(command.0 + " " + command.1)
  }

  /** A record whose vector does not sum to zero: one of its tokens is known. */
  predicate Recognised(command: (string, string), vocab: map<string, int>) {
    KnownCount(CommandTokens(command), vocab) > 0
  }

  /** The records kept for suggestion, in corpus order. */
  function KnownCommands(corpus: seq<(string, string)>, vocab: map<string, int>): seq<(string, string)>
    decreases |corpus|
  {
    if corpus == [] then []
    else
      var c := corpus[|corpus| - 1];
      KnownCommands(corpus[..|corpus| - 1], vocab) + (if Recognised(c, vocab) then [c] else [])
  }

  /** Exactly the recognised records are kept. */
  lemma {:induction false} KnownCommandsMembers(corpus: seq<(string, string)>, vocab: map<string, int>)
    ensures forall c :: c in KnownCommands(corpus, vocab) <==> c in corpus && Recognised(c, vocab)
    decreases |corpus|
  {
    if corpus != [] {
      var front := corpus[..|corpus| - 1];
      KnownCommandsMembers(front, vocab);
      assert corpus == front + [corpus[|corpus| - 1]];
    }
  }

  /** Filtering commutes with concatenation, so kept records stay in corpus
      order. */
  lemma {:induction false} KnownCommandsAppend(xs: seq<(string, string)>, ys: seq<(string, string)>, vocab: map<string, int>)
    ensures KnownCommands(xs + ys, vocab) == KnownCommands(xs, vocab) + KnownCommands(ys, vocab)
    decreases |ys|
  {
    if ys == [] {
      assert xs + ys == xs;
    } else {
      var front := ys[..|ys| - 1];
      assert (xs + ys)[..|xs + ys| - 1] == xs + front;
      KnownCommandsAppend(xs, front, vocab);
    }
  }

  /** The names of the kept records. */
  function Names(kept: seq<(string, string)>): (r: seq<string>)
    ensures |r| == |kept|
  {
    seq(|kept|, j requires 0 <= j < |kept| => kept[j].0)
  }

  /** The vectors of the kept records. */
  function CommandVectors(kept: seq<(string, string)>, vocab: map<string, int>): (r: seq<seq<real>>)
    ensures |r| == |kept|
  {
    seq(|kept|, j requires 0 <= j < |kept| => Frequencies(CommandTokens(kept[j]), vocab))
  }

  /** The loop over `command_corpus`: a vector summing to zero is skipped,
      the others are kept with their names, in corpus order. */
  method SelectCommands(corpus: seq<(string, string)>, vocab: map<string, int>)
    returns (vectors: seq<seq<real>>, refs: seq<string>)
    requires ValidIndices(vocab)
    ensures vectors == CommandVectors(KnownCommands(corpus, vocab), vocab)
    ensures refs == Names(KnownCommands(corpus, vocab))
  {
    vectors, refs := [], [];
    for i := 0 to |corpus|
      invariant vectors == CommandVectors(KnownCommands(corpus[..i], vocab), vocab)
      invariant refs == Names(KnownCommands(corpus[..i], vocab))
    {
      var (name, description) := corpus[i];
      var tokens := Tokenize(name + " " + description);
      var vector := Vectorize(tokens, vocab);
      FrequenciesSumZeroIff(tokens, vocab);
      KeptStep(corpus, i, vocab);
      if SumR(vector) != 0.0 {
        vectors := vectors + [vector];
        refs := refs + [name];
      }
    }
    assert corpus[..|corpus|] == corpus;
  }

  /** One more record of the corpus adds its vector and name when it is
      recognised, and nothing otherwise. */
  lemma KeptStep(corpus: seq<(string, string)>, i: nat, vocab: map<string, int>)
    requires i < |corpus|
    ensures var before, after := KnownCommands(corpus[..i], vocab), KnownCommands(corpus[..i + 1], vocab);
      && (Recognised(corpus[i], vocab) ==>
           && CommandVectors(after, vocab) == CommandVectors(before, vocab) + [Frequencies(CommandTokens(corpus[i]), vocab)]
           && Names(after) == Names(before) + [corpus[i].0])
      && (!Recognised(corpus[i], vocab) ==> after == before)
  {
    assert corpus[..i + 1][..i] == corpus[..i];
    var before := KnownCommands(corpus[..i], vocab);
    if Recognised(corpus[i], vocab) {
      var after := before + [corpus[i]];
      assert CommandVectors(after, vocab) == CommandVectors(before, vocab) + [Frequencies(CommandTokens(corpus[i]), vocab)];
      assert Names(after) == Names(before) + [corpus[i].0];
    }
  }

  // ----- the reply -----

  /** A supporting chunk: its source path, its score (printed with two
      decimals) and its stripped text. */
  datatype Support = Support(source: string, score: real, snippet: string)

  /** A suggested command and its score. */
  datatype Suggestion = Suggestion(name: string, score: real)

  datatype Reply = Reply(answer: string, supporting: seq<Support>, suggestions: seq<Suggestion>)

  /** The loop over the ranked chunk indices. */
  method CollectSupport(state: State, scores: seq<real>, order: seq<nat>) returns (supporting: seq<Support>)
    requires forall k :: 0 <= k < |order| ==>
      order[k] < |scores| && order[k] < |state.chunkTexts| && order[k] < |state.chunkSources|
    ensures |supporting| == |order|
    ensures forall k :: 0 <= k < |order| ==>
      supporting[k] == Support(state.chunkSources[order[k]].0, scores[order[k]], PyStrip(state.chunkTexts[order[k]]))
  {
    supporting := [];
    for k := 0 to |order|
      invariant |supporting| == k
      invariant forall j :: 0 <= j < k ==>
        supporting[j] == Support(state.chunkSources[order[j]].0, scores[order[j]], PyStrip(state.chunkTexts[order[j]]))
    {
      var idx := order[k];
      supporting := supporting + [Support(state.chunkSources[idx].0, scores[idx], PyStrip(state.chunkTexts[idx]))];
    }
  }

  /** The score of every vector against the query embedding:
      `[_vector_dot(_encode(v), query) for v in vectors]`. */
  function Scores(vectors: seq<seq<real>>, encode: seq<real> -> seq<real>, query: seq<real>): (r: seq<real>)
    ensures |r| == |vectors|
  {
    seq(|vectors|, j requires 0 <= j < |vectors| => Dot(encode(vectors[j]), query))
  }

  /** The loop over the ranked command indices. */
  method CollectSuggestions(refs: seq<string>, scores: seq<real>, order: seq<nat>) returns (suggestions: seq<Suggestion>)
    requires |refs| == |scores| && forall k :: 0 <= k < |order| ==> order[k] < |scores|
    ensures |suggestions| == |order|
    ensures forall k :: 0 <= k < |order| ==> suggestions[k] == Suggestion(refs[order[k]], scores[order[k]])
  {
    suggestions := [];
    for k := 0 to |order|
      invariant |suggestions| == k
      invariant forall j :: 0 <= j < k ==> suggestions[j] == Suggestion(refs[order[j]], scores[order[j]])
    {
      suggestions := suggestions + [Suggestion(refs[order[k]], scores[order[k]])];
    }
  }

  /** The command part of the reply: the best `top_k_commands` kept
      records with their scores; none when no record is kept. */
  method SuggestCommands(corpus: seq<(string, string)>, vocab: map<string, int>,
                         encode: seq<real> -> seq<real>, query: seq<real>, topK: int)
    returns (suggestions: seq<Suggestion>)
    requires ValidIndices(vocab)
    ensures var kept := KnownCommands(corpus, vocab);
      var scores := Scores(CommandVectors(kept, vocab), encode, query);
      var order := TopK(scores, topK);
      && |suggestions| == |order|
      && forall j :: 0 <= j < |order| ==> suggestions[j] == Suggestion(kept[order[j]].0, scores[order[j]])
  {
    suggestions := [];
    if corpus != [] {
      var vectors, refs := SelectCommands(corpus, vocab);
      if vectors != [] {
        var embeddings := seq(|vectors|, j requires 0 <= j < |vectors| => encode(vectors[j]));
        var scores := seq(|embeddings|, j requires 0 <= j < |embeddings| => Dot(embeddings[j], query));
        assert scores == Scores(vectors, encode, query);
        var order := TopK(scores, topK);
        suggestions := CollectSuggestions(refs, scores, order);
      }
    }
  }

  /** `generate_assistant_reply(question, command_corpus, ...)` once the
      artifact has been read into `stored`; `encode` is `_encode` with the
      stored weights and bias. */
  method GenerateReply(question: string, commandCorpus: seq<(string, string)>, path: string, stored: Option<State>,
                       encode: seq<real> -> seq<real>, topKChunks: int, topKCommands: int)
    returns (r: Result<Reply, ReplyError>)
    requires stored.Some? && stored.value.version == Some(ModelVersion) ==> WellFormed(stored.value)
    ensures stored.None? <==> r == Err(ModelNotFound(path))
    ensures r == Err(VersionMismatch) <==> stored.Some? && stored.value.version != Some(ModelVersion)
    ensures r == Err(UnknownVocabulary) <==>
      LoadState(path, stored).Ok? && KnownCount(Tokenize(question), stored.value.vocab) == 0
    ensures r.Ok? ==>
      var state := stored.value;
      var query := encode(Frequencies(Tokenize(question), state.vocab));
      var scores := Similarities(state.chunkEmbeddings, query);
      var order := TopK(scores, topKChunks);
      && |r.value.supporting| == |order|
      && (forall k :: 0 <= k < |order| ==>
            r.value.supporting[k] == Support(state.chunkSources[order[k]].0, scores[order[k]], PyStrip(state.chunkTexts[order[k]])))
      && r.value.answer == (if order == [] then NoAnswer else PyStrip(state.chunkTexts[order[0]]))
    ensures r.Ok? ==>
      var state := stored.value;
      var query := encode(Frequencies(Tokenize(question), state.vocab));
      var kept := KnownCommands(commandCorpus, state.vocab);
      var scores := Scores(CommandVectors(kept, state.vocab), encode, query);
      var order := TopK(scores, topKCommands);
      && |r.value.suggestions| == |order|
      && forall j :: 0 <= j < |order| ==> r.value.suggestions[j] == Suggestion(kept[order[j]].0, scores[order[j]])
  {
    var loaded := LoadState(path, stored);
    if loaded.Err? {
      return Err(loaded.error);
    }
    var state := loaded.value;
    var questionTokens := Tokenize(question);
    var queryVector := Vectorize(questionTokens, state.vocab);
    FrequenciesSumZeroIff(questionTokens, state.vocab);
    if SumR(queryVector) == 0.0 {
      return Err(UnknownVocabulary);
    }
    var queryEmbedding := encode(queryVector);
    var similarities := Similarities(state.chunkEmbeddings, queryEmbedding);
    var ordered := TopK(similarities, topKChunks);
    var supporting := CollectSupport(state, similarities, ordered);
    var suggestions := SuggestCommands(commandCorpus, state.vocab, encode, queryEmbedding, topKCommands);
    var answer := if supporting != [] then supporting[0].snippet else NoAnswer;
    return Ok(Reply(answer, supporting, suggestions));
  }
}
