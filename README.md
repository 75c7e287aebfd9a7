# arkit8s core, modelled in Dafny

arkit8s is a toolkit for a reference architecture on OpenShift. It has four
parts that this project models.

- **Command line (`arkit8s.py`).** `main` routes the arguments. A lone word
  that is not an option goes to a built-in assistant as a question. The
  command documents come from `COMMAND_GROUPS`, and the help text is taken
  from between two markers in the README. Two decision rules read `oc`
  output: whether a workload is ready, and which product Routes are
  missing. There is also a metadata audit (every `architecture.calls` entry
  must be answered by an `architecture.invoked_by` entry, and the reverse).
  It generates a NetworkPolicy for every component, and it edits the
  `resources` list of a kustomization file.
- **Policy script (`utilities/generate-network-policies.py`).** It produces
  the same policies as the command line, with its own component filter.
- **Assistant (`utilities/assistant_model.py`).** A small retrieval
  assistant:
  - a regex tokenizer;
  - a paragraph chunker that packs paragraphs greedily up to a size;
  - a frequency-sorted vocabulary;
  - a bag-of-words vectoriser;
  - dataset collection with a limit, and the training batches;
  - loading the stored model, ranking chunks and commands, and building
    the reply.
- **Web console (Java, under `support-domain/architects-console`).**
  - A bounded, newest-first event log.
  - The command catalog: reading `commands.json`, refreshing on file
    change, and case-insensitive lookup.
  - The installation-status catalog, with its JSON defaults.
  - The command record's `canonicalCommand` and its validation
    constraints.

How each kind of code is modelled:

- Pure code (the tokenizer, chunker, vectoriser and decision rules) is
  modelled as functions.
- Code that works by loops is modelled as methods with invariants, each
  proved equal to the function that specifies it.
- The Java singletons, the event log and the kustomization data are
  classes with fields.
- A JSON or YAML document is a value: `Json.Json`, or `Manifests.Doc`.

The file system, the clock (`now`), `Instant.parse` and the assistant's
neural encoder (`encode`) are parameters.

## Model

| member | source | states |
|---|---|---|
| Tokenizer.LowerChar | utilities/assistant_model.py:35 | `lower()` on one character maps A–Z and the Latin-1 capitals À–Þ except × to their lower-case letters (+32), and leaves every other character unchanged |
| Tokenizer.LowerCharIdempotent | utilities/assistant_model.py:35 | the result of lower-casing is already lower case |
| Tokenizer.Lower | utilities/assistant_model.py:35 | `text.lower()` keeps the length, lower-cases each character, and leaves only characters that lower-casing no longer changes |
| Tokenizer.AccentsAreWordChars | utilities/assistant_model.py:35 | the accented letters listed in the pattern are word characters already, so the class is `\w` |
| Tokenizer.RunLength | utilities/assistant_model.py:35 | the greedy `+` takes a prefix made only of word characters, followed by the end or a non-word character |
| Tokenizer.RunLengthUnique | utilities/assistant_model.py:35 | that longest run is the only prefix with this property |
| Tokenizer.TokensAreMaximalRuns | utilities/assistant_model.py:35 | `findall` splits the text into non-word gaps and tokens that alternate: every token is a non-empty run of word characters, and no two tokens touch |
| Tokenizer.MaximalRunsDetermineTokens | utilities/assistant_model.py:35 | any such decomposition of a text gives exactly the tokens `findall` returns (uniqueness) |
| Tokenizer.NoWordHasNoTokens | utilities/assistant_model.py:35 | a text without word characters has no tokens |
| Tokenizer.NonWordPrefixSkipped | utilities/assistant_model.py:35 | leading non-word characters do not change the tokens |
| Tokenizer.TokenizeSpec | utilities/assistant_model.py:34-35 | every token of `_tokenize` is non-empty, all word characters and lower case, and the tokens are the maximal runs of the lower-cased text, in order |
| Tokenizer.TokenizeNoWords | utilities/assistant_model.py:34-35 | a text whose lower-cased form has no word character yields `[]` |
| Chunker.WhitespaceRunEnd | utilities/assistant_model.py:39 | `\s*` takes the whole run of whitespace that starts at a position |
| Chunker.LastNewline | utilities/assistant_model.py:39 | finds the last newline of a range, or reports that there is none |
| Chunker.SeparatorEnd | utilities/assistant_model.py:39 | a match of `\n\s*\n` starts at `i` exactly when `s[i]` is a newline and the whitespace run after it holds another; the greedy `\s*` then backs off to the last newline of that run, so the match is whitespace throughout, ends just after a newline, and no newline of the run lies beyond it |
| Chunker.BlankLineIsSeparator | utilities/assistant_model.py:39 | two newlines in a row always start a separator |
| Chunker.SplitFromNoBlankLine | utilities/assistant_model.py:39 | no segment of `re.split(r"\n\s*\n", …)` contains two consecutive newlines |
| Chunker.StrippedNonEmptyAreParagraphs | utilities/assistant_model.py:39 | the stripped, non-empty segments are paragraphs: non-empty, with no surrounding whitespace and no blank line |
| Chunker.ParagraphsAreParagraphs | utilities/assistant_model.py:39 | every element of `paragraphs` is such a paragraph |
| Chunker.Grow | utilities/assistant_model.py:46-53 | growing the buffer while the next paragraph fits ends at a size the greedy rule accepts |
| Chunker.FirstGroupSize | utilities/assistant_model.py:46-53 | the first chunk's paragraph count satisfies the greedy rule |
| Chunker.FirstGroupUnique | utilities/assistant_model.py:46-53 | only one size satisfies the greedy rule: fit while more than one paragraph, and the next paragraph does not fit |
| Chunker.PackIsGreedy | utilities/assistant_model.py:43-56 | the groups flatten back to the paragraphs; each group is non-empty; a group of two or more fits `max_chars`; each group was closed because the next paragraph did not fit |
| Chunker.GreedyIsPack | utilities/assistant_model.py:43-56 | any packing with those properties is the one the loop builds |
| Chunker.SplitJoinParagraphs | utilities/assistant_model.py:49 | paragraphs joined with `"\n\n"` split back on `"\n\n"` into the same paragraphs |
| Chunker.ChunksSplitBack | utilities/assistant_model.py:38-57 | splitting every chunk on `"\n\n"` and concatenating gives exactly the text's paragraphs, in order |
| Chunker.ChunksFit | utilities/assistant_model.py:48-56 | chunk `j` is its group joined by a blank line, and a chunk of two or more paragraphs has at most `max_chars` paragraph characters |
| Chunker.ChunkText | utilities/assistant_model.py:38-57 | `_chunk_text` returns the chunks of the greedy packing, and `[]` when there is no paragraph |
| Chunker.PackParagraphs | utilities/assistant_model.py:43-57 | the buffer loop with its running length produces the joined greedy packing |
| Vocabulary.LexLessIrreflexive | utilities/assistant_model.py:66 | Python's `<` on `str` is irreflexive |
| Vocabulary.LexLessTransitive | utilities/assistant_model.py:66 | Python's `<` on `str` is transitive |
| Vocabulary.LexLessTotal | utilities/assistant_model.py:66 | Python's `<` on `str` orders any two distinct strings |
| Vocabulary.BeforeStrictTotal | utilities/assistant_model.py:66 | the sort key `(-count, token)` is a strict total order on distinct tokens |
| Vocabulary.UpdateCounts | utilities/assistant_model.py:63 | `counter.update(tokens)` adds each token's occurrences to the tally and records new tokens in first-seen order |
| Vocabulary.CountTokens | utilities/assistant_model.py:61-63 | the counter holds exactly the tokens that occur, each with its number of occurrences over all chunks, listed once each |
| Vocabulary.KeepFrequent | utilities/assistant_model.py:65 | exactly the tokens counted at least `min_frequency` times are kept, without repeats |
| Vocabulary.SortByKey | utilities/assistant_model.py:66 | the sort is a permutation of the kept tokens, strictly increasing under `(-count, token)` |
| Vocabulary.IndexTokens | utilities/assistant_model.py:67 | `enumerate` numbers the sorted tokens 0..n-1 by position |
| Vocabulary.BuildVocabulary | utilities/assistant_model.py:60-67 | the vocabulary holds exactly the tokens with count ≥ max(1, `min_frequency`); its indices are 0..n-1 without repeats; index order is the sort-key order |
| Vectorizer.Frequencies | utilities/assistant_model.py:70-80 | the vector has one non-negative entry per vocabulary index |
| Vectorizer.Vectorize | utilities/assistant_model.py:70-80 | the count-then-divide loop returns each index's known-token count over the number of known tokens, or all zeros |
| Vectorizer.CountVectorSnoc | utilities/assistant_model.py:72-76 | one more token adds 1 at its index, or nothing when it is unknown |
| Vectorizer.CountVectorSum | utilities/assistant_model.py:77 | `total` equals the number of known tokens |
| Vectorizer.FrequenciesSumToOne | utilities/assistant_model.py:77-79 | when some token is known, the entries sum to 1 |
| Vectorizer.FrequenciesZeroIff | utilities/assistant_model.py:77-80 | the vector is all zeros exactly when no token is known |
| Vectorizer.FrequenciesSumZeroIff | utilities/assistant_model.py:77-80 | `sum(vector) == 0.0` exactly when no token is known |
| Vectorizer.UnknownTokenIgnored | utilities/assistant_model.py:73-75 | a token outside the vocabulary changes nothing |
| Training.BatchRanges | utilities/assistant_model.py:287-288 | `range(0, n, batch_size)`: a zero step fails, a negative step gives no batch; otherwise the batches are non-empty, cover positions 0..n-1 in order, and all but the last hold exactly `batch_size` |
| Training.CoveredDistinct | utilities/assistant_model.py:283-289 | every sample position falls in exactly one batch, in increasing order |
| Training.NewlinesToSpaces | utilities/assistant_model.py:229 | `replace("\n", " ")` keeps the length, leaves no newline behind and changes no other character |
| Training.SnippetShape | utilities/assistant_model.py:229 | the snippet has no newline; it is the first 80 characters with newlines turned into spaces, plus `"..."` (83 characters) exactly when the chunk is longer than 80 |
| Training.Limit | utilities/assistant_model.py:230-234 | the number of entries kept never exceeds the entries seen |
| Training.NonPositiveLimitFirstFile | utilities/assistant_model.py:230-234 | with a limit of zero or below only the first file is read: its first usable chunk is kept, and nothing is kept when it has none, whatever the later files hold |
| Training.PrefixAtLimit | utilities/assistant_model.py:230-234 | entries that stop at the cap are the first `Limit` entries of those seen |
| Training.ChunkTokens | utilities/assistant_model.py:222-226 | a chunk is used exactly when it is not blank and has a token, and then its tokens are `_tokenize(chunk)` |
| Training.CollectFromFile | utilities/assistant_model.py:221-232 | the inner loop appends the usable chunks of one file, with their source and tokens in step, until the cap |
| Training.CollectFile | utilities/assistant_model.py:209-234 | one outer turn extends the collection by the file's usable chunks and goes on only while under the limit, or stops at exactly the limited collection; with a limit of zero or below it always stops |
| Training.Limited | utilities/assistant_model.py:230-234 | the kept entries are a prefix of all usable chunks in file order |
| Training.PositiveLimitPrefix | utilities/assistant_model.py:230-234 | with no limit every usable chunk is kept; with a limit of one or more, the first `max_files` of them in file order |
| Training.CollectChunks | utilities/assistant_model.py:208-234 | `chunks`, `sources` and `tokenized` describe, in parallel, the kept entries: the first `Limit` usable chunks of the files seen, in order |
| Training.PrepareDataset | utilities/assistant_model.py:189-245 | fails with "no chunks" exactly when nothing is kept, and with "vocabulary empty" only when no token passes `min_frequency`; otherwise the three lists describe the kept chunks and the vocabulary is non-empty, frequency-sorted and numbered 0..n-1 |
| Query.Insert | utilities/assistant_model.py:400 | inserting an index adds exactly that index to the ranking |
| Query.InsertRanked | utilities/assistant_model.py:400 | insertion keeps the order of the stable descending sort |
| Query.Ranking | utilities/assistant_model.py:400 | `sorted(range(n), key=…, reverse=True)` is a ranking of exactly the indices 0..n-1 |
| Query.RankedByUnique | utilities/assistant_model.py:400 | two rankings of the same indices are equal, so the stable sort's result is determined by the key |
| Query.SortedIsRanking | utilities/assistant_model.py:400 | any arrangement of all indices that respects the key is that ranking |
| Query.TopK | utilities/assistant_model.py:399-400 | the top-k slice is ranked by score |
| Query.TopKSpec | utilities/assistant_model.py:399-400 | the slice `[:min(k, n)]` has Python's length (a negative `k` drops from the end); its indices are distinct; each is ahead of every index left out |
| Query.LoadState | utilities/assistant_model.py:352-362 | a missing artifact fails with its path; a stored version other than 2 fails with the version error; otherwise the stored state is returned |
| Query.KnownCommandsMembers | utilities/assistant_model.py:413-419 | exactly the corpus records whose vector does not sum to zero are kept |
| Query.KnownCommandsAppend | utilities/assistant_model.py:413-419 | filtering commutes with concatenation, so kept records stay in corpus order |
| Query.SelectCommands | utilities/assistant_model.py:411-419 | the loop keeps the vectors and names of the recognised records, in corpus order |
| Query.CollectSupport | utilities/assistant_model.py:402-407 | one supporting entry per ranked index: its source path, score and stripped text |
| Query.CollectSuggestions | utilities/assistant_model.py:426-427 | one suggestion per ranked index: the command name and its score |
| Query.SuggestCommands | utilities/assistant_model.py:409-427 | the suggestions are the best `top_k_commands` recognised records, by score, with the name and score of each |
| Query.GenerateReply | utilities/assistant_model.py:373-430 | the missing-model, version-mismatch and unknown-vocabulary errors each happen exactly in their case; otherwise the supporting chunks are the top `top_k_chunks` by similarity, the answer is the first one's stripped text or the fixed fallback, and the suggestions are those of SuggestCommands |
| Cli.Dispatch | arkit8s.py:2366-2393 | no arguments show the help; `train-assistant` becomes `assistant train …`; a lone argument that is not an option goes to the assistant exactly when it is not the alias, with reason "incomplete" for a group name and "direct query" for a text with a space or ending in `?`; everything else is parsed unchanged |
| Cli.TrainAliasIsParsed | arkit8s.py:2374-2377 | the alias never reaches the assistant: the rewritten list has at least two arguments |
| Cli.DocumentAt | arkit8s.py:2274-2278 | the document of command `j` of group `i` is at position (documents of earlier groups) + `j` |
| Cli.AppendGroup | arkit8s.py:2275-2278 | the inner loop appends one document per command of the group, in order |
| Cli.CommandDocuments | arkit8s.py:2272-2285 | `_command_documents` is every group's documents in declaration order, then the alias |
| Cli.AliasOnlyLast | arkit8s.py:2276-2284 | every command document's name has a space, so only the last document is the alias |
| Cli.DefaultSuggestions | arkit8s.py:2292-2294 | the first `limit` documents, with Python slice semantics for negative limits |
| Cli.PySlice | arkit8s.py:331 | `content[i:j]` is the slice: the text before `i`, the slice and the text from `j` give back the content; empty when the bounds cross |
| Cli.UsageText | arkit8s.py:318-332 | the fallback text when the README is missing, a marker is missing, or the markers are out of order or blank between; otherwise the stripped text between them; never empty |
| Cli.UsageBetweenMarkers | arkit8s.py:326-332 | with both markers in order and text between them, the usage text is a non-empty piece of the README. It lies after the start marker and before the end marker, and has no outer whitespace |
| Cli.MarkerSpelling | arkit8s.py:26-27 | the end marker cannot begin inside the start marker |
| ClusterChecks.EffectiveReady | arkit8s.py:920-923 | a StatefulSet counts its ready replicas; any other kind counts the larger of ready and available |
| ClusterChecks.IsReady | arkit8s.py:916-926 | ready exactly when nothing is wanted, when enough replicas are ready, or, for a kind other than StatefulSet, when enough are available |
| ClusterChecks.NothingReportedIsNotReady | arkit8s.py:916-926 | without any replica figures the defaults (want 1, have 0) give "not ready" |
| ClusterChecks.ScaledToZeroIsReady | arkit8s.py:926 | `replicas: 0` is ready whatever the status says |
| ClusterChecks.StatefulSetIgnoresAvailable | arkit8s.py:920-921 | the available count never changes a StatefulSet's verdict |
| ClusterChecks.MissingAvailableKindIrrelevant | arkit8s.py:918-923 | when available falls back to ready, the kind does not matter |
| ClusterChecks.ReadyMonotone | arkit8s.py:916-926 | more ready or available replicas never turn a ready workload into a not-ready one |
| ClusterChecks.MissingProducts | arkit8s.py:732-736 | a product is missing exactly when its (namespace, name) was not found; there are never more than expected |
| ClusterChecks.NothingFoundAllMissing | arkit8s.py:703-736 | with no Route found, the missing list is the whole expected list |
| ClusterChecks.CollectFound | arkit8s.py:710-727 | the loop collects the (namespace, name) of every mapping item with both fields non-empty |
| ClusterChecks.RouteSummary | arkit8s.py:664-748 | status 1 with nothing missing when `oc` is absent or the output is not JSON; the process's code (or 1) when `oc` fails; every product missing when there are no items; status 0 exactly when every expected Route is found |
| Kustomization.WithSimulators | arkit8s.py:1477-1480 | after the add the entry is listed; an existing entry leaves the data unchanged; otherwise it is appended to the old list |
| Kustomization.Others | arkit8s.py:1578 | exactly the entries other than the generated manifest |
| Kustomization.WithoutSimulators | arkit8s.py:1578-1583 | the list is untouched when the entry is absent; otherwise every occurrence goes, the other entries stay in order, and the key goes exactly when nothing else was listed |
| Kustomization.AddIdempotent | arkit8s.py:1477-1480 | adding twice is adding once |
| Kustomization.AddKeepsEntries | arkit8s.py:1477-1480 | the old list is a prefix of the new one, which is at most one longer |
| Kustomization.CleanupIdempotent | arkit8s.py:1578-1583 | cleaning twice is cleaning once |
| Kustomization.CleanupKeepsOthers | arkit8s.py:1578-1583 | cleanup keeps exactly the other entries, in order |
| Kustomization.CleanupUndoesAdd | arkit8s.py:1477-1583 | a cleanup after an add restores a list that had other entries, or an absent list |
| Kustomization.KustomizationFile.constructor | arkit8s.py:1471-1476 | the data's `resources` key as read from the file |
| Kustomization.KustomizationFile.AddSimulators | arkit8s.py:1477-1498 | the list becomes WithSimulators of the old one, and the file is rewritten exactly when the entry was missing |
| Kustomization.KustomizationFile.CleanupSimulators | arkit8s.py:1578-1600 | the list becomes WithoutSimulators of the old one, and the file is rewritten exactly when the entry was present |
| Manifests.AnnotationListClean | utilities/generate-network-policies.py:36-37 | every entry read from an annotation is non-empty, holds no comma, and has no outer whitespace |
| Manifests.AnnotationListRoundTrip | utilities/generate-network-policies.py:36-37 | clean names written comma-separated read back unchanged |
| Manifests.AnnotationListBlank | utilities/generate-network-policies.py:36-37 | a blank or absent annotation gives no names |
| Manifests.ScriptComponent | utilities/generate-network-policies.py:20-39 | a document is a component exactly when it is a mapping, not a NetworkPolicy, has non-empty metadata, and has the `architecture.part_of` annotation |
| Manifests.ArkitComponent | arkit8s.py:1867-1894 | the command line takes the same documents, restricted to those with a non-empty name |
| Manifests.ArkitComponentsNamed | arkit8s.py:1867-1894 | the command line's components are the script's components with a non-empty name, in the same order |
| Manifests.ComponentsFromDocs | utilities/generate-network-policies.py:15-40 | each component comes from a document the recogniser accepts, and there are never more components than documents |
| Manifests.LoadComponents | utilities/generate-network-policies.py:15-40 | the loop appends the recognised components in document order |
| Manifests.KnownPeers | utilities/generate-network-policies.py:57-66 | exactly the peers that name a known component |
| Manifests.BuildPolicy | utilities/generate-network-policies.py:57-76 | the policy selects the component itself; `ingress` appears exactly when some invoker is known and lists the known invokers; `egress` likewise for calls |
| Manifests.Separated | utilities/generate-network-policies.py:77-80 | output is empty exactly when there are no policies |
| Manifests.SeparatedLayout | utilities/generate-network-policies.py:77-80 | policy `k` is printed at position `2k` and `---` at every odd position, so there is never a leading or trailing separator |
| Manifests.EmitWith | utilities/generate-network-policies.py:55-80 | the loop with its `first` flag prints the separated policies |
| Manifests.EmitPolicies | utilities/generate-network-policies.py:54-80 | the loop prints the policies of all components against the set of their names |
| Manifests.WithKind | utilities/generate-network-policies.py:50 | exactly the components with a truthy kind are kept |
| Manifests.ScriptMain | utilities/generate-network-policies.py:43-80 | exits with its message when the directory is missing or no component has a kind; otherwise prints the separated policies |
| Manifests.ArkitGeneratePolicies | arkit8s.py:1855-1929 | status 1 exactly when no component is found; otherwise status 0 and the separated policies |
| Manifests.RegistryLastWins | arkit8s.py:1777-1800 | the registry holds the last record of every named component |
| Manifests.BuildRegistry | arkit8s.py:1777-1800 | the loop builds that registry |
| Manifests.ReciprocityIsSymmetry | arkit8s.py:1802-1818 | the two passes pass exactly when every reference names a known component and `b` is in `calls(a)` exactly when `a` is in `invoked_by(b)` |
| Manifests.CheckCallsOf | arkit8s.py:1804-1810 | the status stays 0 exactly when every call of the component is reciprocated |
| Manifests.CheckInvokersOf | arkit8s.py:1812-1818 | the status stays 0 exactly when every invoker of the component is reciprocated |
| Manifests.CallsPass | arkit8s.py:1802-1810 | the first pass leaves 0 exactly when every call is reciprocated |
| Manifests.InvokersPass | arkit8s.py:1811-1818 | the second pass leaves 0 exactly when the first did and every invoker is reciprocated |
| Manifests.ReciprocityStatus | arkit8s.py:1802-1818 | the status is 1 exactly when some reference is unknown or not returned |
| Json.IntTextRoundTrip | support-domain/architects-console/src/main/java/dev/arkit8s/console/InstallationStatusCatalog.java:103 | the decimal text of a number parses back to that number |
| Json.AsText | support-domain/architects-console/src/main/java/dev/arkit8s/console/CommandCatalog.java:112-114 | `path(k).asText()`: a string's own text, `"null"` for a null node, `"true"`/`"false"`, a number's text that parses back to the number, and `""` for a missing node or a container |
| Json.AsIntOr | support-domain/architects-console/src/main/java/dev/arkit8s/console/InstallationStatusCatalog.java:103 | `asInt(default)`: a number as it is, 1 or 0 for a boolean, the parsed value of integer text or the default when it does not parse, and the default for a missing, null or container node |
| Json.AsIntOfText | support-domain/architects-console/src/main/java/dev/arkit8s/console/InstallationStatusCatalog.java:103 | a number written as text reads as that number |
| ConsoleEvents.Pushed | support-domain/architects-console/src/main/java/dev/arkit8s/console/ConsoleEventLog.java:19-26 | the new event is first; the rest is a prefix of the old log; the log holds 1 to 64 events and loses nothing while it had room |
| ConsoleEvents.NewestFirst | support-domain/architects-console/src/main/java/dev/arkit8s/console/ConsoleEventLog.java:19-26 | after `a` then `b`, the log starts with `b`, `a` |
| ConsoleEvents.ConsoleEventLog.constructor | support-domain/architects-console/src/main/java/dev/arkit8s/console/ConsoleEventLog.java:16-17 | the log starts empty |
| ConsoleEvents.ConsoleEventLog.OnEvent | support-domain/architects-console/src/main/java/dev/arkit8s/console/ConsoleEventLog.java:19-26 | `addFirst` then `removeLast` while too long gives Pushed of the old log, at most 64 events |
| ConsoleEvents.ConsoleEventLog.RecentEvents | support-domain/architects-console/src/main/java/dev/arkit8s/console/ConsoleEventLog.java:28-32 | a copy of the log, newest first, at most 64 events |
| Commands.CanonicalTrimmed | support-domain/architects-console/src/main/java/dev/arkit8s/console/CommandDefinition.java:14-16 | the canonical command has no character `trim()` removes at either end |
| Commands.CanonicalWithoutMarker | support-domain/architects-console/src/main/java/dev/arkit8s/console/CommandDefinition.java:14-16 | a usage without `usage:` is only trimmed |
| Commands.CanonicalStable | support-domain/architects-console/src/main/java/dev/arkit8s/console/CommandDefinition.java:14-16 | canonicalising again changes nothing when the first pass left no `usage:` |
| Commands.CanonicalNotIdempotent | support-domain/architects-console/src/main/java/dev/arkit8s/console/CommandDefinition.java:14-16 | `usausage:ge:` canonicalises to `usage:`, which canonicalises to `""` |
| Commands.Utf16Length | support-domain/architects-console/src/main/java/dev/arkit8s/console/CommandDefinition.java:11-12 | `String.length()` counts one or two units per character: exactly one per character when none lies above U+FFFF, and exactly two per character when all do |
| Commands.NotBlankIff | support-domain/architects-console/src/main/java/dev/arkit8s/console/CommandDefinition.java:10-12 | `@NotBlank` holds exactly when some character is above U+0020 |
| Commands.ValidBounds | support-domain/architects-console/src/main/java/dev/arkit8s/console/CommandDefinition.java:9-12 | a valid record has a non-empty name, and a summary and usage of 1 to 512 characters |
| Commands.ReadCommands | support-domain/architects-console/src/main/java/dev/arkit8s/console/CommandCatalog.java:100-122 | a missing file gives an empty catalog stamped `now`; read failures are I/O errors; a parsed file gives its commands, stamped with the parsed `generated_at` or `now` when it is absent or null, and fails exactly when `generated_at` does not parse |
| Commands.ReadFromFile | support-domain/architects-console/src/main/java/dev/arkit8s/console/CommandCatalog.java:100-122 | the `forEach` loop computes ReadCommands |
| Commands.FirstNamed | support-domain/architects-console/src/main/java/dev/arkit8s/console/CommandCatalog.java:80-84 | the first command whose name equals the given one ignoring case, and none exactly when no name matches |
| Commands.Refreshed | support-domain/architects-console/src/main/java/dev/arkit8s/console/CommandCatalog.java:86-98 | a successful read installs the snapshot, stamps the load and fires one reload event; an I/O failure ends in `UncheckedIOException`, fires the one warning "No se pudo actualizar el catálogo: " plus the message, and changes nothing; a timestamp failure ends in `DateTimeParseException`, fires nothing and changes nothing |
| Commands.EmptyFileReloads | support-domain/architects-console/src/main/java/dev/arkit8s/console/CommandCatalog.java:100-122 | an empty file, which Jackson reads as a missing node, reloads as a catalog without commands stamped `now`, and its modification time becomes the last load |
| Commands.Watched | support-domain/architects-console/src/main/java/dev/arkit8s/console/CommandCatalog.java:56-72 | refreshes exactly when the interval is positive and the file time is after the last load plus the interval; a positive interval with an unreadable file time fires exactly the one warning; otherwise the state is left alone and no event fires |
| Commands.EditWithinIntervalNeverSeen | support-domain/architects-console/src/main/java/dev/arkit8s/console/CommandCatalog.java:62-67 | an edit stamped no later than the last load plus the interval is never picked up, however many watches follow |
| Commands.DeletionNeverSeen | support-domain/architects-console/src/main/java/dev/arkit8s/console/CommandCatalog.java:62-66 | deleting the file is never noticed by the watch |
| Commands.CommandCatalog.constructor | support-domain/architects-console/src/main/java/dev/arkit8s/console/CommandCatalog.java:37-50 | starts with the empty snapshot and a load time at the epoch |
| Commands.CommandCatalog.Refresh | support-domain/architects-console/src/main/java/dev/arkit8s/console/CommandCatalog.java:86-98 | the new state, outcome and events are those of Refreshed |
| Commands.CommandCatalog.WatchForChanges | support-domain/architects-console/src/main/java/dev/arkit8s/console/CommandCatalog.java:56-72 | the new state, outcome and events are those of Watched |
| Commands.CommandCatalog.Snapshot | support-domain/architects-console/src/main/java/dev/arkit8s/console/CommandCatalog.java:74-78 | the current snapshot, announced by one read event |
| Commands.CommandCatalog.FindByName | support-domain/architects-console/src/main/java/dev/arkit8s/console/CommandCatalog.java:80-84 | the first case-insensitive match from the snapshot, which is a member with a matching name, plus the read event |
| Installation.ParseInstant | support-domain/architects-console/src/main/java/dev/arkit8s/console/InstallationStatusCatalog.java:140-145 | no instant for a missing or null node or blank text; otherwise exactly the parsed instant, or the parse failure |
| Installation.PhaseOf | support-domain/architects-console/src/main/java/dev/arkit8s/console/InstallationStatusCatalog.java:106-115 | fails exactly when one of the two instants fails to parse; otherwise the name's text, status `DESCONOCIDO` and detail `""` for missing or null fields and their text when present, and the two parsed instants |
| Installation.PhasesOf | support-domain/architects-console/src/main/java/dev/arkit8s/console/InstallationStatusCatalog.java:106-115 | every phase in array order, or the timestamp failure exactly when some phase fails |
| Installation.ResourceOf | support-domain/architects-console/src/main/java/dev/arkit8s/console/InstallationStatusCatalog.java:121-127 | kind and name are the fields' text; namespace, status, message and age are their text when present and not null, and `default`, `DESCONOCIDO`, `""` and `-` otherwise |
| Installation.ReadStatus | support-domain/architects-console/src/main/java/dev/arkit8s/console/InstallationStatusCatalog.java:91-138 | a missing file gives the empty status; read failures are I/O errors; otherwise fails exactly when `generated_at` or a phase instant does not parse, and gives each top-level field's text (or its default when missing or null), the parsed `generated_at` or `now`, and the phases and resources of the arrays |
| Installation.ReadFromFile | support-domain/architects-console/src/main/java/dev/arkit8s/console/InstallationStatusCatalog.java:91-138 | the method with its two loops computes ReadStatus |
| Installation.ReadPhases | support-domain/architects-console/src/main/java/dev/arkit8s/console/InstallationStatusCatalog.java:106-115 | the phase loop computes PhasesOf, stopping at the first failure |
| Installation.ReadResources | support-domain/architects-console/src/main/java/dev/arkit8s/console/InstallationStatusCatalog.java:117-127 | the resource loop computes ResourcesOf |
| Installation.Refreshed | support-domain/architects-console/src/main/java/dev/arkit8s/console/InstallationStatusCatalog.java:79-89 | a successful read installs the status and stamps the load; an I/O failure ends in `UncheckedIOException` after installing the empty status with the load time kept; a timestamp failure ends in `DateTimeParseException` and changes nothing |
| Installation.EmptyFileReloads | support-domain/architects-console/src/main/java/dev/arkit8s/console/InstallationStatusCatalog.java:91-138 | an empty file reloads with every top-level default, `now`, and no phases or resources, and its modification time becomes the last load |
| Installation.Watched | support-domain/architects-console/src/main/java/dev/arkit8s/console/InstallationStatusCatalog.java:50-73 | nothing before the interval has run out; once due, a refresh for a missing file or one modified after the last load; the empty status when the file time cannot be read |
| Installation.MissingFileReloadedWhenDue | support-domain/architects-console/src/main/java/dev/arkit8s/console/InstallationStatusCatalog.java:62-68 | a missing file is reloaded as the empty status at every due watch, stamped with that watch's time |
| Installation.UnchangedFileNotReread | support-domain/architects-console/src/main/java/dev/arkit8s/console/InstallationStatusCatalog.java:62-68 | a file not modified since the last load is never read again |
| Installation.InstallationStatusCatalog.constructor | support-domain/architects-console/src/main/java/dev/arkit8s/console/InstallationStatusCatalog.java:33-44 | starts with the empty status and a load time at the epoch |
| Installation.InstallationStatusCatalog.Refresh | support-domain/architects-console/src/main/java/dev/arkit8s/console/InstallationStatusCatalog.java:79-89 | the new state and outcome are those of Refreshed |
| Installation.InstallationStatusCatalog.WatchForChanges | support-domain/architects-console/src/main/java/dev/arkit8s/console/InstallationStatusCatalog.java:50-73 | the new state and outcome are those of Watched |
| Installation.InstallationStatusCatalog.Snapshot | support-domain/architects-console/src/main/java/dev/arkit8s/console/InstallationStatusCatalog.java:75-77 | the current status |

## Left out

- Tokenizer.IsWordChar and Tokenizer.LowerChar: Python's Unicode `\w` and `str.lower()` are modelled for ASCII and Latin-1 only. Beyond U+00FF a character counts as a non-letter, and lower-casing leaves it unchanged.
- Floating point: sums, divisions and scores are exact reals. Rounding, NaN, and the `:.2f` formatting of scores in the reply are not modelled, so `Query.Support` and `Query.Suggestion` carry the raw score.
- The encoder network (`_encode_vector`, with its ReLU and normalisation) is the `encode` parameter. Training itself (matrix helpers, loss, gradient steps, the NaN check, `rng.shuffle`, pickling the artifact) is not modelled; only the batch ranges of its loop are.
- Query.GenerateReply requires a loaded state whose lists agree in length and whose vocabulary indices lie in `0..len(vocab)-1`. A pickled state that breaks this is not modelled: lists of different lengths, an index at or past `len(vocab)` or below `-len(vocab)` make the source raise `IndexError`, and an index from `-len(vocab)` to `-1` silently counts the token at position `len(vocab)` plus the index. Reading the pickle is the `stored` parameter.
- Training.ChunkTokens: states the tokens only for a usable chunk. For an unusable one the source continues, so what the method returns in that case is unconstrained.
- File walking in `_prepare_dataset` (`rglob`, the extension and `tmp` filters, UTF-8 decoding) happens before the model: the files arrive as `SourceFile` values in sorted order.
- Cli.UsageText: the file parameter is the README text or nothing when it is missing (`FileNotFoundError`). A README that exists but cannot be read, or is not UTF-8, makes `_load_usage_text` raise when arkit8s.py is imported (line 335); that error is not modelled.
- Argument parsing with argparse and the `AssistantQueryError` fallback of `main` are not modelled. `Cli.Dispatch` stops at the parse route. `_handle_assistant_question` prints and is left out.
- Printing is left out everywhere: the messages of `validate_metadata`, the report file of `_record_route_summary`, the readiness message and its condition details, and the YAML text of a policy (`Manifests.Printed` holds the policy value).
- The NetworkPolicy allow check of `validate_metadata` (arkit8s.py:1820-1844) is not modelled. The reciprocity passes are.
- Metadata that is not a mapping: in arkit8s.py, `validate_metadata` (line 1785) and `generate_network_policies` (line 1873) call `meta.get` on whatever `metadata` holds, so a null, a list or a scalar there makes them crash; that crash is not modelled. utilities/generate-network-policies.py:25-27 instead skips falsy metadata (null, `[]`, an empty mapping), which the model writes as `metadata == None`. A non-empty value that is not a mapping cannot be written as a `Doc`.
- Annotations that are not a mapping of strings: `Meta.annotations` maps names to strings, so an `annotations` value that is null or not a mapping, or an `architecture.invoked_by` or `architecture.calls` value that is null or not a string, cannot be written as a `Doc`. In the source these crash all three readers (utilities/generate-network-policies.py:28-29 and 36-37, arkit8s.py:1788, 1793-1794 and 1876-1890) with a `TypeError` or an `AttributeError`; these crashes are not modelled.
- Python set iteration order: `validate_metadata` iterates sets and dicts, and only its status is modelled, which does not depend on the order.
- Json.AsIntOr: Jackson parses as a double, then casts to `int`, any text that holds a character other than a digit after its sign: a fraction or an exponent, "NaN" (0), "Infinity" (`Integer.MAX_VALUE`), a trailing `d` or `f`, hexadecimal floating point. The model reads all of these as the default. The 32-bit overflow of `int` is not modelled either.
- Json.Json: numbers are integers. A JSON number with a fraction such as `42.5` cannot be represented: Jackson's `asInt` truncates it and `asText` prints it as `42.5`.
- Json.Json: the model takes Jackson 2.10 or later, where `readTree` reads an empty file as a missing node; it is written `Ok(JNull)`, whose fields answer as a missing node's do. Older Jackson returns `null` there and both catalogs fail with a `NullPointerException`, which is not modelled.
- Commands.SameNameIgnoringCase: case folding follows `Tokenizer.LowerChar` (ASCII and Latin-1) rather than the whole of Unicode.
- Commands.NotBlankIff: Hibernate's `@NotBlank` is modelled as "not empty after `trim()`". Whitespace above U+0020 therefore counts as visible.
- Commands.CanonicalStable: holds only when the first pass leaves no `usage:`. Commands.CanonicalNotIdempotent shows a usage for which a second pass changes the result.
- Concurrency is not modelled: `synchronized`, `AtomicReference`, `volatile`, and the schedulers that call the watches. CDI events are returned as lists rather than fired.
- Instants and durations are integers on one clock. `Duration` overflow and `Instant.parse` (a parameter) are not modelled.
- YAML loading and dumping of kustomization files, and the re-indentation of the dumped `resources` list, are not modelled.
