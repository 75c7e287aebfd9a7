/** The discrete parts of training the assistant
    (utilities/assistant_model.py): the dataset preparation of
    `_prepare_dataset` over files already read, and the mini-batch index
    ranges of `train_assistant_knowledge_base`. */
module Training {
  import opened Wrappers
  import opened Seqs
  import opened Strings
  import opened Tokenizer
  import opened Chunker
  import opened Vocabulary

  // ----- mini-batches: `for start in range(0, num_samples, batch_size)` -----

  /** `list(range(a, b))`. */
  function Iota(a: int, b: int): (r: seq<int>)
    ensures |r| == if a <= b then b - a else 0
    ensures forall k :: 0 <= k < |r| ==> r[k] == a + k
    decreases b - a
  {
    if b <= a then [] else Iota(a, b - 1) + [b - 1]
  }

  lemma {:induction false} IotaSplit(a: int, m: int, b: int)
    requires a <= m <= b
    ensures Iota(a, b) == Iota(a, m) + Iota(m, b)
    decreases b - m
  {
    if m < b {
      IotaSplit(a, m, b - 1);
    }
  }

  /** The positions of `indices` the batches take, batch after batch. */
  function Covered(batches: seq<(int, int)>): seq<int>
    decreases |batches|
  {
    if batches == [] then []
    else
      var last := batches[|batches| - 1];
      Covered(batches[..|batches| - 1]) + Iota(last.0, last.1)
  }

  datatype RangeError = ZeroStep

  /** The `(start, end)` pairs of the batch loop, `end = min(start +
      batch_size, num_samples)`. A zero step is the `ValueError` of
      `range`; a negative step yields no batch. */
  method BatchRanges(numSamples: nat, batchSize: int) returns (r: Result<seq<(int, int)>, RangeError>)
    ensures batchSize == 0 <==> r == Err(ZeroStep)
    ensures batchSize < 0 ==> r == Ok([])
    ensures batchSize > 0 ==> r.Ok? && Covered(r.value) == Iota(0, numSamples)
    ensures batchSize > 0 ==> forall k :: 0 <= k < |r.value| ==>
      r.value[k].0 < r.value[k].1 && r.value[k].1 - r.value[k].0 <= batchSize
    ensures batchSize > 0 ==> forall k :: 0 <= k < |r.value| - 1 ==> r.value[k].1 - r.value[k].0 == batchSize
  {
    if batchSize == 0 {
      return Err(ZeroStep);
    }
    if batchSize < 0 {
      return Ok([]);
    }
    var batches: seq<(int, int)> := [];
    var start := 0;
    while start < numSamples
      invariant 0 <= start && BatchesSoFar(batches, start, numSamples, batchSize)
      decreases numSamples - start
    {
      var end := if start + batchSize < numSamples then start + batchSize else numSamples;
      BatchStep(batches, start, end, numSamples, batchSize);
      batches := batches + [(start, end)];
      start := start + batchSize;
    }
    return Ok(batches);
  }

  /** The loop invariant of `BatchRanges`: the batches so far cover the
      positions before `start`, none is empty or longer than `size`, and
      only the one that reached `n` may be shorter. */
  predicate BatchesSoFar(batches: seq<(int, int)>, start: int, n: nat, size: int) {
    && Covered(batches) == Iota(0, if start <= n then start else n)
    && (forall k :: 0 <= k < |batches| ==> batches[k].0 < batches[k].1 && batches[k].1 - batches[k].0 <= size)
    && (forall k :: 0 <= k < |batches| - 1 ==> batches[k].1 - batches[k].0 == size)
    && (start < n ==> forall k :: 0 <= k < |batches| ==> batches[k].1 - batches[k].0 == size)
  }

  /** One turn of the batch loop keeps its invariant. */
  lemma BatchStep(batches: seq<(int, int)>, start: int, end: int, n: nat, size: int)
    requires 0 <= start < n && size > 0 && BatchesSoFar(batches, start, n, size)
    requires end == if start + size < n then start + size else n
    ensures BatchesSoFar(batches + [(start, end)], start + size, n, size)
  {
    CoveredStep(batches, start, end);
  }

  /** A batch that starts where the covered positions stop extends them. */
  lemma CoveredStep(batches: seq<(int, int)>, start: int, end: int)
    requires 0 <= start <= end && Covered(batches) == Iota(0, start)
    ensures Covered(batches + [(start, end)]) == Iota(0, end)
  {
    assert (batches + [(start, end)])[..|batches|] == batches;
    IotaSplit(0, start, end);
  }

  /** Every sample position falls in exactly one batch: the batches are
      disjoint and in order because their concatenation is `0..n-1`. */
  lemma {:induction false} CoveredDistinct(batches: seq<(int, int)>, n: nat)
    requires Covered(batches) == Iota(0, n)
    ensures forall p, q :: 0 <= p < q < |Covered(batches)| ==> Covered(batches)[p] < Covered(batches)[q]
    ensures forall i :: 0 <= i < n ==> i in Covered(batches)
  {
    forall i | 0 <= i < n ensures i in Covered(batches) {
      assert Iota(0, n)[i] == i;
    }
  }

  // ----- _prepare_dataset -----

  /** A file that passed the extension, `tmp` and decoding filters: its path
      relative to the repository root and its text. */
  datatype SourceFile = SourceFile(path: string, text: string)

  /** A collected chunk together with the file it came from. */
  datatype Entry = Entry(path: string, chunk: string)

  /** `chunk[:80].replace("\n", " ") + ("..." if len(chunk) > 80 else "")`. */
  function Snippet(chunk: string): (r: string)
  {
    NewlinesToSpaces(PyTake(chunk, 80)) + (if |chunk| > 80 then "..." else "")
  }

  function NewlinesToSpaces(s: string): (r: string)
    ensures |r| == |s|
    ensures forall k :: 0 <= k < |s| ==> r[k] == if s[k] == '\n' then ' ' else s[k]
    ensures '\n' !in r
    ensures forall k :: 0 <= k < |s| && s[k] != '\n' ==> r[k] == s[k]
  {
    seq(|s|, k requires 0 <= k < |s| => if s[k] == '\n' then ' ' else s[k])
  }

  /** The snippet has no newline, is at most 83 characters long, keeps the
      first 80 characters up to newlines, and ends in "..." exactly when the
      chunk was cut. */
  lemma SnippetShape(chunk: string)
    ensures var r := Snippet(chunk);
      && (forall k :: 0 <= k < |r| ==> r[k] != '\n')
      && (|chunk| <= 80 ==> r == NewlinesToSpaces(chunk))
      && (|chunk| > 80 ==> |r| == 83 && r[80..] == "...")
      && (forall k :: 0 <= k < |r| && k < 80 && k < |chunk| ==> r[k] == if chunk[k] == '\n' then ' ' else chunk[k])
  {
    assert PyTake(chunk, 80) == chunk[..if 80 <= |chunk| then 80 else |chunk|];
    if |chunk| <= 80 {
      assert chunk[..|chunk|] == chunk;
    }
  }

  /** A chunk is used for training when it is not blank (its `strip()` is
      not empty) and has a token. */
  predicate Usable(chunk: string) {
    !IsPyBlank(chunk) && Tokenize(chunk) != []
  }

  /** The usable chunks of one file, tagged with its path. */
  function FileEntries(path: string, chunks: seq<string>): seq<Entry>
    decreases |chunks|
  {
    if chunks == [] then []
    else
      var c := chunks[|chunks| - 1];
      FileEntries(path, chunks[..|chunks| - 1]) + (if Usable(c) then [Entry(path, c)] else [])
  }

  /** Every file cut into chunks: its path and what `_chunk_text` returns. */
  function Chunked(files: seq<SourceFile>, maxChars: int): (r: seq<(string, seq<string>)>)
    ensures |r| == |files|
  {
    seq(|files|, k requires 0 <= k < |files| => (files[k].path, Chunks(files[k].text, maxChars)))
  }

  /** Every usable chunk of every cut file, in file order, with no limit. */
  function AllEntries(cut: seq<(string, seq<string>)>): seq<Entry>
    decreases |cut|
  {
    if cut == [] then []
    else
      var f := cut[|cut| - 1];
      AllEntries(cut[..|cut| - 1]) + FileEntries(f.0, f.1)
  }

  lemma AllEntriesSnoc(cut: seq<(string, seq<string>)>, i: nat)
    requires i < |cut|
    ensures AllEntries(cut[..i + 1]) == AllEntries(cut[..i]) + FileEntries(cut[i].0, cut[i].1)
  {
    assert cut[..i + 1][..i] == cut[..i];
  }

  lemma FileEntriesSnoc(path: string, cs: seq<string>, j: nat, usable: bool)
    requires j < |cs| && usable == Usable(cs[j])
    ensures FileEntries(path, cs[..j + 1]) == FileEntries(path, cs[..j]) + if usable then [Entry(path, cs[j])] else []
  {
    assert cs[..j + 1][..j] == cs[..j];
  }

  lemma {:induction false} FileEntriesAppend(path: string, xs: seq<string>, ys: seq<string>)
    ensures FileEntries(path, xs + ys) == FileEntries(path, xs) + FileEntries(path, ys)
    decreases |ys|
  {
    if ys == [] {
      assert xs + ys == xs;
    } else {
      var front := ys[..|ys| - 1];
      assert (xs + ys)[..|xs + ys| - 1] == xs + front;
      FileEntriesAppend(path, xs, front);
    }
  }

  lemma {:induction false} AllEntriesPrefix(cut: seq<(string, seq<string>)>, i: nat)
    requires i <= |cut|
    ensures AllEntries(cut[..i]) <= AllEntries(cut)
    decreases |cut| - i
  {
    if i < |cut| {
      AllEntriesPrefix(cut, i + 1);
      assert cut[..i + 1][..i] == cut[..i];
    } else {
      assert cut[..i] == cut;
    }
  }

  /** How many of the entries it sees `_prepare_dataset` keeps: the count
      is checked after each append, so a limit of one or less keeps one. */
  function Limit(available: nat, maxFiles: Option<int>): (n: nat)
    ensures n <= available
  {
    match maxFiles
    case None => available
    case Some(m) => if m <= 1 then (if available == 0 then 0 else 1) else if m <= available then m else available
  }

  datatype Dataset = Dataset(
    chunks: seq<string>,
    sources: seq<(string, string)>,
    vocab: map<string, int>,
    tokenized: seq<seq<string>>)

  /** The two `RuntimeError`s `_prepare_dataset` raises; their messages are
      only shown to the user. */
  datatype PrepareError = NoChunks | VocabularyEmpty

  /** The chunk of every entry. */
  function ChunksOf(es: seq<Entry>): (r: seq<string>)
    ensures |r| == |es|
    ensures forall k :: 0 <= k < |es| ==> r[k] == es[k].chunk
  {
    seq(|es|, k requires 0 <= k < |es| => es[k].chunk)
  }

  /** The source path and snippet of every entry. */
  function SourcesOf(es: seq<Entry>): (r: seq<(string, string)>)
    ensures |r| == |es|
    ensures forall k :: 0 <= k < |es| ==> r[k] == (es[k].path, Snippet(es[k].chunk))
  {
    seq(|es|, k requires 0 <= k < |es| => (es[k].path, Snippet(es[k].chunk)))
  }

  /** The token list of every entry. */
  function TokenLists(es: seq<Entry>): (r: seq<seq<string>>)
    ensures |r| == |es|
    ensures forall k :: 0 <= k < |es| ==> r[k] == Tokenize(es[k].chunk)
  {
    seq(|es|, k requires 0 <= k < |es| => Tokenize(es[k].chunk))
  }

  /** The three parallel lists `_prepare_dataset` builds from the entries. */
  predicate Describes(es: seq<Entry>, chunks: seq<string>, sources: seq<(string, string)>, tokenized: seq<seq<string>>) {
    chunks == ChunksOf(es) && sources == SourcesOf(es) && tokenized == TokenLists(es)
  }

  lemma DescribesSnoc(es: seq<Entry>, e: Entry, chunks: seq<string>, sources: seq<(string, string)>, tokenized: seq<seq<string>>)
    requires Describes(es, chunks, sources, tokenized)
    ensures Describes(es + [e], chunks + [e.chunk], sources + [(e.path, Snippet(e.chunk))], tokenized + [Tokenize(e.chunk)])
  {
    assert ChunksOf(es + [e]) == ChunksOf(es) + [e.chunk];
    assert SourcesOf(es + [e]) == SourcesOf(es) + [(e.path, Snippet(e.chunk))];
    assert TokenLists(es + [e]) == TokenLists(es) + [Tokenize(e.chunk)];
  }

  /** The number of entries at which the loops stop for `max_files == m`:
      the test `collected >= m` only runs after an append. */
  function Cap(m: int): nat {
    if m <= 1 then 1 else m
  }

  /** Entries that stop right at the cap form the first `Limit` entries. */
  lemma PrefixAtLimit(done: seq<Entry>, all: seq<Entry>, m: int)
    requires done <= all && |done| == Cap(m)
    ensures done == all[..Limit(|all|, Some(m))]
  {
  }

  /** The two skips of the inner loop: a blank chunk, and a chunk without
      tokens. */
  method ChunkTokens(chunk: string) returns (usable: bool, tokens: seq<string>)
    ensures usable == Usable(chunk)
    ensures usable ==> tokens == Tokenize(chunk)
  {
    PyStripEmptyIff(chunk);
    if PyStrip(chunk) == [] {
      return false, [];
    }
    tokens := Tokenize(chunk);
    usable := tokens != [];
  }

  /** The inner loop of `_prepare_dataset` over the chunks of one file:
      usable chunks are appended until the limit is reached. */
  method CollectFromFile(path: string, fileChunks: seq<string>, maxFiles: Option<int>,
                         chunks0: seq<string>, sources0: seq<(string, string)>, tokenized0: seq<seq<string>>,
                         ghost entries0: seq<Entry>)
    returns (chunks: seq<string>, sources: seq<(string, string)>, tokenized: seq<seq<string>>,
             ghost entries: seq<Entry>, full: bool)
    requires Describes(entries0, chunks0, sources0, tokenized0)
    requires maxFiles.None? || |entries0| < Cap(maxFiles.value)
    ensures Describes(entries, chunks, sources, tokenized)
    ensures !full ==> entries == entries0 + FileEntries(path, fileChunks)
    ensures !full ==> maxFiles.None? || |entries| < Cap(maxFiles.value)
    ensures full ==> maxFiles.Some? && |entries| == Cap(maxFiles.value)
    ensures full ==> entries <= entries0 + FileEntries(path, fileChunks)
  {
    chunks, sources, tokenized, entries := chunks0, sources0, tokenized0, entries0;
    full := false;
    var collected := |chunks0|;
    var j := 0;
    while j < |fileChunks| && !full
      invariant 0 <= j <= |fileChunks|
      invariant collected == |entries|
      invariant Describes(entries, chunks, sources, tokenized)
      invariant entries == entries0 + FileEntries(path, fileChunks[..j])
      invariant !full ==> maxFiles.None? || collected < Cap(maxFiles.value)
      invariant full ==> maxFiles.Some? && |entries| == Cap(maxFiles.value)
      decreases |fileChunks| - j, if full then 0 else 1
    {
      var chunk := fileChunks[j];
      var usable, tokens := ChunkTokens(chunk);
      FileEntriesSnoc(path, fileChunks, j, usable);
      if usable {
        DescribesSnoc(entries, Entry(path, chunk), chunks, sources, tokenized);
        tokenized := tokenized + [tokens];
        chunks := chunks + [chunk];
        sources := sources + [(path, Snippet(chunk))];
        entries := entries + [Entry(path, chunk)];
        collected := collected + 1;
        if maxFiles.Some? && collected >= maxFiles.value {
          full := true;
        }
      }
      j := j + 1;
    }
    FileEntriesAppend(path, fileChunks[..j], fileChunks[j..]);
    assert fileChunks[..j] + fileChunks[j..] == fileChunks;
  }

  /** One turn of the outer loop of `_prepare_dataset`: the file is cut into
      chunks and its usable chunks are collected until the limit. */
  method CollectFile(files: seq<SourceFile>, i: nat, maxChars: int, maxFiles: Option<int>,
                     chunks0: seq<string>, sources0: seq<(string, string)>, tokenized0: seq<seq<string>>,
                     ghost entries0: seq<Entry>)
    returns (chunks: seq<string>, sources: seq<(string, string)>, tokenized: seq<seq<string>>,
             ghost entries: seq<Entry>, full: bool)
    requires i < |files|
    requires Describes(entries0, chunks0, sources0, tokenized0)
    requires entries0 == AllEntries(Chunked(files, maxChars)[..i])
    requires maxFiles.None? || |entries0| < Cap(maxFiles.value)
    requires maxFiles.Some? && maxFiles.value <= 0 ==> i == 0
    ensures Describes(entries, chunks, sources, tokenized)
    ensures !full ==> entries == AllEntries(Chunked(files, maxChars)[..i + 1])
    ensures !full ==> maxFiles.None? || |entries| < maxFiles.value
    ensures full ==> maxFiles.Some? && entries == Limited(Chunked(files, maxChars), maxFiles)
  {
    ghost var cut := Chunked(files, maxChars);
    var file := files[i];
    var fileChunks := ChunkText(file.text, maxChars);
    assert cut[i] == (file.path, fileChunks);
    AllEntriesSnoc(cut, i);
    chunks, sources, tokenized, entries, full :=
      CollectFromFile(file.path, fileChunks, maxFiles, chunks0, sources0, tokenized0, entries0);
    if full {
      AllEntriesPrefix(cut, i + 1);
      if maxFiles.value <= 0 {
        assert Seen(cut, maxFiles) == AllEntries(cut[..i + 1]);
      }
      PrefixAtLimit(entries, Seen(cut, maxFiles), maxFiles.value);
    } else if maxFiles.Some? && |chunks| >= maxFiles.value {
      // the check after the inner loop: reached only with a limit of zero or less
      full := true;
      assert Seen(cut, maxFiles) == entries == [];
    }
  }

  /** The entries the loops of `_prepare_dataset` look at: those of every
      file, except that with a limit of zero or less the check after the
      inner loop already holds after the first file, usable chunk or not. */
  function Seen(cut: seq<(string, seq<string>)>, maxFiles: Option<int>): (r: seq<Entry>)
    ensures r <= AllEntries(cut)
  {
    if maxFiles.Some? && maxFiles.value <= 0 && cut != [] then
      AllEntriesPrefix(cut, 1);
      AllEntries(cut[..1])
    else AllEntries(cut)
  }

  /** The entries `_prepare_dataset` keeps: the first `Limit` of those seen. */
  function Limited(cut: seq<(string, seq<string>)>, maxFiles: Option<int>): (r: seq<Entry>)
    ensures r <= AllEntries(cut)
  {
    var seen := Seen(cut, maxFiles);
    seen[..Limit(|seen|, maxFiles)]
  }

  /** With a limit of zero or below, only the first file counts: its first
      usable chunk is kept, and when it has none nothing is, whatever the
      later files hold. */
  lemma NonPositiveLimitFirstFile(cut: seq<(string, seq<string>)>, m: int)
    requires m <= 0 && cut != []
    ensures var first := FileEntries(cut[0].0, cut[0].1);
      Limited(cut, Some(m)) == if first == [] then [] else [first[0]]
  {
    var first := FileEntries(cut[0].0, cut[0].1);
    calc {
      AllEntries(cut[..1]);
      AllEntries(cut[..1][..0]) + FileEntries(cut[..1][0].0, cut[..1][0].1);
      { assert cut[..1][..0] == []; }
      first;
    }
    assert Seen(cut, Some(m)) == first;
  }

  /** With no limit, or a limit of one or more, the files are read in order
      and the first `m` usable chunks are kept. */
  lemma PositiveLimitPrefix(cut: seq<(string, seq<string>)>, maxFiles: Option<int>)
    requires maxFiles.None? || maxFiles.value >= 1
    ensures maxFiles.None? ==> Limited(cut, maxFiles) == AllEntries(cut)
    ensures maxFiles.Some? ==> Limited(cut, maxFiles) == AllEntries(cut)[..if maxFiles.value <= |AllEntries(cut)| then maxFiles.value else |AllEntries(cut)|]
  {
  }

  /** A collection that stopped, or went through every file under the
      limit, holds the kept entries. */
  lemma CollectedAll(cut: seq<(string, seq<string>)>, i: nat, maxFiles: Option<int>, entries: seq<Entry>, full: bool)
    requires CollectedSoFar(cut, i, maxFiles, entries, full)
    requires full || i == |cut|
    ensures entries == Limited(cut, maxFiles)
  {
    if !full {
      assert cut[..i] == cut;
    }
  }

  /** Where the outer loop stands after `i` files: stopped with the kept
      entries, or holding every usable chunk of those files, under the limit
      and, with a limit of zero or below, before the first file. */
  predicate CollectedSoFar(cut: seq<(string, seq<string>)>, i: nat, maxFiles: Option<int>, entries: seq<Entry>, full: bool) {
    && i <= |cut|
    && (full ==> entries == Limited(cut, maxFiles))
    && (!full ==> entries == AllEntries(cut[..i]))
    && (!full ==> maxFiles.None? || |entries| < Cap(maxFiles.value))
    && (!full && maxFiles.Some? && maxFiles.value <= 0 ==> i == 0)
  }

  lemma CollectedStep(cut: seq<(string, seq<string>)>, i: nat, maxFiles: Option<int>, entries: seq<Entry>, full: bool)
    requires i < |cut|
    requires !full ==> entries == AllEntries(cut[..i + 1])
    requires !full ==> maxFiles.None? || |entries| < maxFiles.value
    requires full ==> maxFiles.Some? && entries == Limited(cut, maxFiles)
    ensures CollectedSoFar(cut, i + 1, maxFiles, entries, full)
  {
  }

  /** The collection loops of `_prepare_dataset`: usable chunks of each file
      in order, stopping as soon as `collected >= max_files`, a test made
      after each append and again after each file. */
  method CollectChunks(files: seq<SourceFile>, maxChars: int, maxFiles: Option<int>)
    returns (chunks: seq<string>, sources: seq<(string, string)>, tokenized: seq<seq<string>>)
    ensures Describes(Limited(Chunked(files, maxChars), maxFiles), chunks, sources, tokenized)
  {
    ghost var cut := Chunked(files, maxChars);
    chunks, sources, tokenized := [], [], [];
    ghost var entries: seq<Entry> := [];
    var full := false;
    var i := 0;
    while i < |files| && !full
      invariant 0 <= i <= |files|
      invariant Describes(entries, chunks, sources, tokenized)
      invariant CollectedSoFar(cut, i, maxFiles, entries, full)
      decreases |files| - i, if full then 0 else 1
    {
      chunks, sources, tokenized, entries, full :=
        CollectFile(files, i, maxChars, maxFiles, chunks, sources, tokenized, entries);
      CollectedStep(cut, i, maxFiles, entries, full);
      i := i + 1;
    }
    CollectedAll(cut, i, maxFiles, entries, full);
  }

  /** `_prepare_dataset(repo_root, max_chars, min_frequency, max_files)` once
      the candidate files have been read. */
  method PrepareDataset(files: seq<SourceFile>, maxChars: int, minFrequency: int, maxFiles: Option<int>)
    returns (r: Result<Dataset, PrepareError>)
    ensures var kept := Limited(Chunked(files, maxChars), maxFiles);
      && (r == Err(NoChunks) <==> kept == [])
      && (r.Ok? ==> Describes(kept, r.value.chunks, r.value.sources, r.value.tokenized))
      && (r.Ok? ==> forall t :: t in r.value.vocab <==> Kept(r.value.tokenized, minFrequency, t))
      && (r.Ok? ==> forall t :: t in r.value.vocab ==> 0 <= r.value.vocab[t] < |r.value.vocab|)
      && (r.Ok? ==> forall a, b :: a in r.value.vocab && b in r.value.vocab ==>
            (r.value.vocab[a] < r.value.vocab[b] <==> Before(r.value.tokenized, a, b)))
      && (r.Ok? ==> r.value.vocab != map[])
      && (r == Err(VocabularyEmpty) ==> kept != [] && forall t :: !Kept(TokenLists(kept), minFrequency, t))
  {
    var chunks, sources, tokenized := CollectChunks(files, maxChars, maxFiles);
    if chunks == [] {
      return Err(NoChunks);
    }
    var vocab := BuildVocabulary(tokenized, minFrequency);
    if vocab == map[] {
      return Err(VocabularyEmpty);
    }
    return Ok(Dataset(chunks, sources, vocab, tokenized));
  }
}
